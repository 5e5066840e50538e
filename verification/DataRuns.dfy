/** The packet-id discipline of the data channel over whole runs: every sequence of writes through
    one session manager, and every sequence of reads at the other side. */
module DataRuns {
  import opened Bytes
  import opened Packets
  import opened Session
  import opened Padding
  import opened DataFrames
  import opened DataTheorems
  import opened DataFormats

  // ------------------------------------------------------------- writing

  /** One call of `writePacket`: the channel as it is at that moment, the random bytes of CBC mode
      and the payload. */
  datatype Call = Call(ch: Channel, iv: seq<Byte>, payload: seq<Byte>)

  /** The data packet-id counter of the session manager before the k-th call. */
  function CounterAt(calls: seq<Call>, k: nat): PacketId
    requires k <= |calls|
  {
    if k == 0 then 1
    else
      var c := CounterAt(calls, k - 1);
      if UsesPacketId(calls[k - 1].ch, calls[k - 1].payload) then Bump(c) else c
  }

  /** What the k-th call returns. */
  function Written(calls: seq<Call>, k: nat): Outcome<Packet, DataError>
    requires k < |calls|
  {
    Write(calls[k].ch, IssueId(CounterAt(calls, k)), calls[k].iv, calls[k].payload)
  }

  lemma {:induction false} CounterGrows(calls: seq<Call>, j: nat, k: nat)
    requires j <= k <= |calls|
    ensures CounterAt(calls, j) <= CounterAt(calls, k)
    ensures j < k && UsesPacketId(calls[j].ch, calls[j].payload) && CounterAt(calls, j) < MAX_UINT32 ==>
              CounterAt(calls, j) < CounterAt(calls, k)
  {
    hide UsesPacketId;
    if j < k {
      CounterGrows(calls, j, k - 1);
    }
  }

  /** A GCM write that succeeds had an id, used it up, and put it behind the header. */
  lemma GcmWritten(ch: Channel, pid: Result<PacketId, SessionError>, iv: seq<Byte>, payload: seq<Byte>)
    requires ch.mode == Gcm && Write(ch, pid, iv, payload).Done?
    ensures pid.Ok? && UsesPacketId(ch, payload)
    ensures var e := Write(ch, pid, iv, payload).value.payload;
            |e| >= 24 && e[..4] == DataHeader(ch) && e[4..8] == PutUint32(pid.value)
  {
    hide DoCompress, DoPadding, Encrypt, GcmIv;
  }

  /** The nonce with which the peer opens a packet. */
  function NonceRead(ch: Channel, w: Packet): Option<seq<Byte>> {
    var t := Transmit(w);
    if t.Err? then None
    else
      var d := DecodeAead(Mirror(ch), t.value.payload);
      if d.Done? then Some(d.value.iv) else None
  }

  lemma NonceReadIs(ch: Channel, pid: Result<PacketId, SessionError>, iv: seq<Byte>, payload: seq<Byte>)
    requires ch.mode == Gcm && Write(ch, pid, iv, payload).Done?
    ensures pid.Ok? && NonceRead(ch, Write(ch, pid, iv, payload).value) == Some(GcmIv(pid.value, ch.keys.hmacLocal))
  {
    GcmWritten(ch, pid, iv, payload);
    var w := Write(ch, pid, iv, payload).value;
    var e := w.payload;
    assert w == NewPacket(P_DATA_V2, ch.keyId, e).(peerId := PeerBytes(ch.peerId));
    hide Write, DataHeader;
    DataWire(ch, e);
    hide Transmit;
    assert e[4..][..4] == e[4..8];
  }

  /** Different packet ids give different nonces, under whatever keys. */
  lemma NoncesDiffer(id: PacketId, key: KeySlot, id': PacketId, key': KeySlot)
    requires id != id'
    ensures GcmIv(id, key) != GcmIv(id', key')
  {
    if GcmIv(id, key) == GcmIv(id', key') {
      assert PutUint32(id) == GcmIv(id, key)[..4] == GcmIv(id', key')[..4] == PutUint32(id');
      PutUint32Injective(id, id');
    }
  }

  /** The k-th call writes a GCM packet. */
  predicate WritesGcm(calls: seq<Call>, k: nat)
    requires k < |calls|
  {
    calls[k].ch.mode == Gcm && Written(calls, k).Done?
  }

  /** Whatever is written through one session manager, in whatever modes, under whatever keys: no two
      GCM packets carry the same id, and no two are sealed with the same nonce. */
  lemma NonceNeverReused(calls: seq<Call>, i: nat, j: nat)
    requires i < j < |calls|
    ensures WritesGcm(calls, i) && WritesGcm(calls, j) ==>
              var v, w := Written(calls, i).value, Written(calls, j).value;
              && |v.payload| >= 8 && |w.payload| >= 8 && v.payload[4..8] != w.payload[4..8]
              && NonceRead(calls[i].ch, v).Some? && NonceRead(calls[i].ch, v) != NonceRead(calls[j].ch, w)
  {
    hide Write, UsesPacketId, NonceRead, CounterAt, GcmIv;
    if WritesGcm(calls, i) && WritesGcm(calls, j) {
      var c, d := calls[i], calls[j];
      var m, n := CounterAt(calls, i), CounterAt(calls, j);
      GcmWritten(c.ch, IssueId(m), c.iv, c.payload);
      GcmWritten(d.ch, IssueId(n), d.iv, d.payload);
      NonceReadIs(c.ch, IssueId(m), c.iv, c.payload);
      NonceReadIs(d.ch, IssueId(n), d.iv, d.payload);
      CounterGrows(calls, i, j);
      NoncesDiffer(m, c.ch.keys.hmacLocal, n, d.ch.keys.hmacLocal);
      if PutUint32(m) == PutUint32(n) {
        PutUint32Injective(m, n);
      }
    }
  }

  // ------------------------------------------------------------- exhaustion

  /** Past the last id the two modes part: a write fails if and only if it is in GCM mode. In CBC
      mode the error is overlooked and id 0 goes out. */
  lemma PastExhaustion(ch: Channel, e: SessionError, iv: seq<Byte>, payload: seq<Byte>)
    requires Lawful(ch.crypto) && AesKeySize(ch.keySize) && |iv| == AES_BLOCK
    ensures Write(ch, Err(e), iv, payload).Done? <==> ch.mode == Cbc
    ensures ch.mode == Cbc ==> Write(ch, Err(e), iv, payload) == Write(ch, Ok(0), iv, payload)
  {
    if ch.mode == Cbc {
      assert Write(ch, Err(e), iv, payload) == Write(ch, Ok(0), iv, payload)
          by { hide DoCompress, DoPadding, EncodeCbc; }
      CbcRead(ch, 0, iv, payload, 0);
    } else if Write(ch, Err(e), iv, payload).Done? {
      GcmWritten(ch, Err(e), iv, payload);
    }
  }

  /** What becomes of it at the other side: without framing it is never accepted, with stub framing
      it is never returned as it was, but with lzo-no framing the shifted id makes it look fresh
      until the mark passes 0xfa000000. */
  lemma PastExhaustionRead(ch: Channel, e: SessionError, iv: seq<Byte>, payload: seq<Byte>, last: PacketId)
    requires Lawful(ch.crypto) && AesKeySize(ch.keySize) && |iv| == AES_BLOCK && ch.mode == Cbc
    ensures var w := Write(ch, Err(e), iv, payload);
            && w.Done? && Transmit(w.value).Ok?
            && var r := Read(Mirror(ch), last, Transmit(w.value).value);
               && (ch.compress == Empty ==> r.outcome.Failed? && r.last == last)
               && (ch.compress == LzoNo ==> (r.outcome == Done(payload) <==> last < 0xfa00_0000))
               && (ch.compress == Stub ==> r.outcome != Done(payload))
  {
    PastExhaustion(ch, e, iv, payload);
    hide Lawful, Write, Read, Transmit;
    match ch.compress
    case Empty => CbcRoundTrip(ch, 0, iv, payload, last);
    case LzoNo => CbcLzoRoundTripIff(ch, 0, iv, payload, last);
    case Stub => CbcStubNeverRoundTrips(ch, 0, iv, payload, last);
  }

  /** Over a run: once the counter has reached the maximum it stays there. From then on a call
      returns a packet if and only if it is in CBC mode, and that packet carries id 0. */
  lemma IssuingStops(calls: seq<Call>, k: nat, j: nat)
    requires k <= j < |calls| && CounterAt(calls, k) == MAX_UINT32
    requires var c := calls[j]; Lawful(c.ch.crypto) && AesKeySize(c.ch.keySize) && |c.iv| == AES_BLOCK
    ensures CounterAt(calls, j) == MAX_UINT32
    ensures Written(calls, j).Done? <==> calls[j].ch.mode == Cbc
    ensures Written(calls, j).Done? ==> Written(calls, j) == Write(calls[j].ch, Ok(0), calls[j].iv, calls[j].payload)
  {
    CounterGrows(calls, k, j);
    hide Write, CounterAt, Lawful;
    PastExhaustion(calls[j].ch, ExpiredKey, calls[j].iv, calls[j].payload);
  }

  // ------------------------------------------------------------- reading

  /** Reading one packet after the other, the mark moving along. */
  function ReadAll(ch: Channel, last: PacketId, ps: seq<Packet>): seq<Outcome<seq<Byte>, DataError>>
    decreases |ps|
  {
    if ps == [] then []
    else
      var r := Read(ch, last, ps[0]);
      [r.outcome] + ReadAll(ch, r.last, ps[1..])
  }

  /** The mark before the k-th of any packets is read. */
  ghost function MarkAt(ch: Channel, last: PacketId, ps: seq<Packet>, k: nat): PacketId
    requires k <= |ps|
  {
    if k == 0 then last else Read(ch, MarkAt(ch, last, ps, k - 1), ps[k - 1]).last
  }

  lemma {:induction false} MarkAtShift(ch: Channel, last: PacketId, ps: seq<Packet>, k: nat)
    requires 1 <= k <= |ps|
    ensures MarkAt(ch, last, ps, k) == MarkAt(ch, Read(ch, last, ps[0]).last, ps[1..], k - 1)
  {
    hide Read;
    if k > 1 {
      MarkAtShift(ch, last, ps, k - 1);
      assert ps[1..][k - 2] == ps[k - 1];
    } else {
      assert MarkAt(ch, last, ps, 0) == last;
    }
  }

  lemma {:induction false} ReadAllAt(ch: Channel, last: PacketId, ps: seq<Packet>, k: nat)
    requires k < |ps|
    ensures |ReadAll(ch, last, ps)| == |ps|
    ensures ReadAll(ch, last, ps)[k] == Read(ch, MarkAt(ch, last, ps, k), ps[k]).outcome
    decreases |ps|
  {
    hide Read;
    if |ps| == 1 {
      assert ps[1..] == [];
    } else {
      ReadAllAt(ch, Read(ch, last, ps[0]).last, ps[1..], if k == 0 then 0 else k - 1);
      if k > 0 {
        MarkAtShift(ch, last, ps, k);
      }
    }
  }

  /** In CBC mode the mark never falls, and an accepted packet moves it to the id it holds, which does
      not depend on what was read before. */
  lemma ReadMoves(ch: Channel, last: PacketId, p: Packet)
    requires ch.mode == Cbc
    ensures Read(ch, last, p).last >= last
    ensures Read(ch, last, p).outcome.Done? ==> Read(ch, last, p).last == Read(ch, 0, p).last > last
  {
    var r := Read(ch, last, p);
    if r.outcome.Done? {
      CbcAcceptsIff(ch, last, p, r.outcome.value, r.last);
      CbcAcceptsIff(ch, 0, p, r.outcome.value, r.last);
    }
    hide DecodeAndDecrypt, Unframe;
  }

  lemma {:induction false} MarkAtNeverFalls(ch: Channel, last: PacketId, ps: seq<Packet>, j: nat, k: nat)
    requires ch.mode == Cbc && j <= k <= |ps|
    ensures MarkAt(ch, last, ps, j) <= MarkAt(ch, last, ps, k)
  {
    hide Read;
    if j < k {
      MarkAtNeverFalls(ch, last, ps, j, k - 1);
      ReadMoves(ch, MarkAt(ch, last, ps, k - 1), ps[k - 1]);
    }
  }

  /** CBC mode, any framing, any packets at all, whoever made them: what is accepted is authentic, and no
      two accepted packets have the same contents, the later one holding the higher id. */
  lemma AcceptedOnceAndAuthentic(ch: Channel, last: PacketId, ps: seq<Packet>, j: nat, k: nat)
    requires ch.mode == Cbc && j < k < |ps|
    ensures |ReadAll(ch, last, ps)| == |ps|
    ensures ReadAll(ch, last, ps)[j].Done? && ReadAll(ch, last, ps)[k].Done? ==>
              && Authentic(ch, ps[j]) && Authentic(ch, ps[k])
              && ps[j] != ps[k] && Read(ch, 0, ps[j]).last < Read(ch, 0, ps[k]).last
  {
    hide Read, ReadAll, MarkAt, Authentic;
    ReadAllAt(ch, last, ps, j);
    ReadAllAt(ch, last, ps, k);
    var m, n := MarkAt(ch, last, ps, j), MarkAt(ch, last, ps, k);
    if ReadAll(ch, last, ps)[j].Done? && ReadAll(ch, last, ps)[k].Done? {
      ReadMoves(ch, m, ps[j]);
      ReadMoves(ch, n, ps[k]);
      MarkAfterRead(ch, last, ps, j);
      MarkAtNeverFalls(ch, last, ps, j + 1, k);
      if !Authentic(ch, ps[j]) {
        CbcRejectsForged(ch, m, ps[j]);
      }
      if !Authentic(ch, ps[k]) {
        CbcRejectsForged(ch, n, ps[k]);
      }
    }
  }

  lemma MarkAfterRead(ch: Channel, last: PacketId, ps: seq<Packet>, j: nat)
    requires j < |ps|
    ensures MarkAt(ch, last, ps, j + 1) == Read(ch, MarkAt(ch, last, ps, j), ps[j]).last
  {}

  /** A tunnel packet as the peer wrote it. */
  datatype Sending = Sending(id: PacketId, iv: seq<Byte>, payload: seq<Byte>)

  /** A packet that does not get through decoding and decryption: damaged, foreign or malformed. */
  ghost predicate Noise(ch: Channel, p: Packet) {
    p.payload == [] || !IsData(p.opcode) || !DecodeAndDecrypt(Mirror(ch), p.payload).Done?
  }

  /** In CBC mode every packet whose HMAC does not match its contents is noise. */
  lemma ForgedIsNoise(ch: Channel, p: Packet)
    requires ch.mode == Cbc && !Authentic(Mirror(ch), p)
    ensures Noise(ch, p)
  {
    AuthenticIff(Mirror(ch), p);
    hide Authentic;
  }

  /** What the network delivers: a packet of the peer, or noise. */
  ghost predicate Arrival(ch: Channel, s: Option<Sending>, p: Packet) {
    match s
    case None => Noise(ch, p)
    case Some(w) =>
      var r := Write(ch, Ok(w.id), w.iv, w.payload);
      |w.iv| == AES_BLOCK && r.Done? && Transmit(r.value) == Ok(p)
  }

  ghost predicate CbcChannel(ch: Channel) {
    Lawful(ch.crypto) && ch.mode == Cbc && ch.compress == Empty && AesKeySize(ch.keySize)
  }

  /** An arrival counts if it is a packet of the peer with a fresh id. */
  ghost predicate Counts(last: PacketId, s: Option<Sending>) {
    s.Some? && Fresh(last, s.value.id)
  }

  lemma ReadArrival(ch: Channel, s: Option<Sending>, p: Packet, last: PacketId)
    requires CbcChannel(ch) && Arrival(ch, s, p)
    ensures var r := Read(Mirror(ch), last, p);
            && (Counts(last, s) ==> r == ReadResult(Done(s.value.payload), s.value.id))
            && (!Counts(last, s) ==> !r.outcome.Done? && r.last == last)
  {
    hide Write, Transmit, Fresh, DecodeAndDecrypt, Decompress;
    if s.Some? {
      hide Read;
      CbcRoundTrip(ch, s.value.id, s.value.iv, s.value.payload, last);
    }
  }

  /** The mark before the k-th packet is read. */
  ghost function MarkBefore(last: PacketId, ss: seq<Option<Sending>>, k: nat): PacketId
    requires k <= |ss|
  {
    if k == 0 then last
    else
      var m := MarkBefore(last, ss, k - 1);
      if Counts(m, ss[k - 1]) then ss[k - 1].value.id else m
  }

  ghost predicate Arrivals(ch: Channel, ss: seq<Option<Sending>>, ps: seq<Packet>) {
    |ss| == |ps| && forall i :: 0 <= i < |ps| ==> Arrival(ch, ss[i], ps[i])
  }

  /** Whatever arrives in whatever order: packet k is accepted - and then returned exactly - if and
      only if it is one of the peer's and its id exceeds the mark, that is, every id accepted before. */
  lemma {:induction false} AcceptedIff(ch: Channel, last: PacketId, ss: seq<Option<Sending>>, ps: seq<Packet>, k: nat)
    requires CbcChannel(ch) && Arrivals(ch, ss, ps) && k < |ps|
    ensures |ReadAll(Mirror(ch), last, ps)| == |ps|
    ensures var o := ReadAll(Mirror(ch), last, ps)[k];
            if Counts(MarkBefore(last, ss, k), ss[k]) then o == Done(ss[k].value.payload) else !o.Done?
    decreases |ps|
  {
    hide Write, Read, Transmit, Arrival, CbcChannel, Counts;
    ReadArrival(ch, ss[0], ps[0], last);
    var last' := MarkBefore(last, ss, 1);
    assert Read(Mirror(ch), last, ps[0]).last == last' by {
      assert MarkBefore(last, ss, 0) == last;
    }
    if |ps| == 1 {
      assert ps[1..] == [];
    } else {
      AcceptedIff(ch, last', ss[1..], ps[1..], if k == 0 then 0 else k - 1);
      if k > 0 {
        MarkShift(last, ss, k);
      }
    }
  }

  lemma {:induction false} MarkShift(last: PacketId, ss: seq<Option<Sending>>, k: nat)
    requires 1 <= k <= |ss|
    ensures MarkBefore(last, ss, k) == MarkBefore(MarkBefore(last, ss, 1), ss[1..], k - 1)
  {
    hide Counts;
    if k > 1 {
      MarkShift(last, ss, k - 1);
      assert ss[1..][k - 2] == ss[k - 1];
    }
  }

  lemma {:induction false} MarkNeverFalls(last: PacketId, ss: seq<Option<Sending>>, j: nat, k: nat)
    requires j <= k <= |ss|
    ensures MarkBefore(last, ss, j) <= MarkBefore(last, ss, k)
  {
    if j < k {
      MarkNeverFalls(last, ss, j, k - 1);
    }
  }

  /** The mark stays below what all ids so far are below. */
  lemma {:induction false} MarkStaysBelow(last: PacketId, ss: seq<Option<Sending>>, k: nat, id: PacketId)
    requires k <= |ss| && last < id && forall i :: 0 <= i < k && ss[i].Some? ==> ss[i].value.id < id
    ensures MarkBefore(last, ss, k) < id
  {
    if k > 0 {
      MarkStaysBelow(last, ss, k - 1, id);
    }
  }

  /** Accepted ids strictly increase. */
  lemma AcceptedIncrease(ch: Channel, last: PacketId, ss: seq<Option<Sending>>, ps: seq<Packet>, j: nat, k: nat)
    requires CbcChannel(ch) && Arrivals(ch, ss, ps) && j < k < |ps|
    ensures |ReadAll(Mirror(ch), last, ps)| == |ps|
    ensures ReadAll(Mirror(ch), last, ps)[j].Done? && ReadAll(Mirror(ch), last, ps)[k].Done? ==>
              ss[j].Some? && ss[k].Some? && ss[j].value.id < ss[k].value.id
  {
    hide Arrivals, CbcChannel, ReadAll;
    assert |ss| == |ps| by { SameLength(ch, ss, ps); }
    AcceptedIff(ch, last, ss, ps, j);
    AcceptedIff(ch, last, ss, ps, k);
    MarkNeverFalls(last, ss, j + 1, k);
  }

  lemma SameLength(ch: Channel, ss: seq<Option<Sending>>, ps: seq<Packet>)
    requires Arrivals(ch, ss, ps)
    ensures |ss| == |ps|
  {}

  /** `ps` arrived: the m-th of them is what call `idx[m]` wrote through channel `ch`, or noise. Nothing
      is said about their order, and a call may occur any number of times or never. */
  ghost predicate Arrived(ch: Channel, calls: seq<Call>, idx: seq<Option<nat>>, ps: seq<Packet>) {
    && |idx| == |ps|
    && forall m :: 0 <= m < |idx| ==>
         match idx[m]
         case None => Noise(ch, ps[m])
         case Some(c) =>
           && c < |calls| && calls[c].ch == ch && |calls[c].iv| == AES_BLOCK
           && Written(calls, c).Done? && Transmit(Written(calls, c).value) == Ok(ps[m])
  }

  /** The id that call `k` puts into a CBC packet. */
  function SentId(calls: seq<Call>, k: nat): PacketId
    requires k < |calls|
  {
    if CounterAt(calls, k) == MAX_UINT32 then 0 else CounterAt(calls, k)
  }

  function SendingOf(calls: seq<Call>, c: Option<nat>): Option<Sending>
    requires c.Some? ==> c.value < |calls|
  {
    if c.None? then None
    else Some(Sending(SentId(calls, c.value), calls[c.value].iv, calls[c.value].payload))
  }

  ghost predicate CallsExist(calls: seq<Call>, idx: seq<Option<nat>>) {
    forall m :: 0 <= m < |idx| && idx[m].Some? ==> idx[m].value < |calls|
  }

  ghost function Sendings(calls: seq<Call>, idx: seq<Option<nat>>): (ss: seq<Option<Sending>>)
    requires CallsExist(calls, idx)
    ensures |ss| == |idx|
    ensures forall m :: 0 <= m < |ss| ==> ss[m] == SendingOf(calls, idx[m])
  {
    seq(|idx|, m requires 0 <= m < |idx| => SendingOf(calls, idx[m]))
  }

  lemma ArrivedAre(ch: Channel, calls: seq<Call>, idx: seq<Option<nat>>, ps: seq<Packet>)
    requires CbcChannel(ch) && Arrived(ch, calls, idx, ps)
    ensures CallsExist(calls, idx) && Arrivals(ch, Sendings(calls, idx), ps)
  {
    hide CounterAt, Noise;
    assert CallsExist(calls, idx) by { hide Written, Transmit; }
    var ss := Sendings(calls, idx);
    hide Sendings;
    forall m | 0 <= m < |ps|
      ensures Arrival(ch, ss[m], ps[m])
    {
      if idx[m].Some? {
        var c := calls[idx[m].value];
        hide Write, Transmit, Lawful;
        PastExhaustion(ch, ExpiredKey, c.iv, c.payload);
      }
    }
  }

  /** CBC mode: whatever arrives, in whatever order and however often, with whatever noise in between:
      if two arrivals are accepted, both were written by the peer and the later one was written later.
      So nothing that was sent is accepted twice. */
  lemma NoReplay(ch: Channel, calls: seq<Call>, idx: seq<Option<nat>>, ps: seq<Packet>, j: nat, k: nat)
    requires CbcChannel(ch) && Arrived(ch, calls, idx, ps) && j < k < |ps|
    ensures |ReadAll(Mirror(ch), 0, ps)| == |ps|
    ensures ReadAll(Mirror(ch), 0, ps)[j].Done? && ReadAll(Mirror(ch), 0, ps)[k].Done? ==>
              idx[j].Some? && idx[k].Some? && idx[j].value < idx[k].value
  {
    hide CounterAt, ReadAll, CbcChannel, Arrivals, Written, Transmit, Noise;
    ArrivedAre(ch, calls, idx, ps);
    var ss := Sendings(calls, idx);
    AcceptedIncrease(ch, 0, ss, ps, j, k);
    if ReadAll(Mirror(ch), 0, ps)[j].Done? && ReadAll(Mirror(ch), 0, ps)[k].Done? {
      var m, n := idx[j].value, idx[k].value;
      AcceptedIff(ch, 0, ss, ps, j);
      ZeroIsStale(MarkBefore(0, ss, j));
      if n <= m {
        CounterGrows(calls, n, m);
      }
    }
  }

  lemma ZeroIsStale(last: PacketId)
    ensures !Fresh(last, 0)
  {}

  /** Arrivals in the order of the calls, with any of them missing and any noise in between. */
  ghost predicate OrderKept(idx: seq<Option<nat>>) {
    forall i, j :: 0 <= i < j < |idx| && idx[i].Some? && idx[j].Some? ==> idx[i].value < idx[j].value
  }

  /** CBC mode, in-order arrivals: a packet of the peer is accepted, and returned exactly, if and only
      if it was written before the ids ran out. */
  lemma InOrderAllAccepted(ch: Channel, calls: seq<Call>, idx: seq<Option<nat>>, ps: seq<Packet>, k: nat)
    requires CbcChannel(ch) && Arrived(ch, calls, idx, ps) && OrderKept(idx) && k < |ps| && idx[k].Some?
    ensures idx[k].value < |calls| && |ReadAll(Mirror(ch), 0, ps)| == |ps|
    ensures var o, c := ReadAll(Mirror(ch), 0, ps)[k], idx[k].value;
            if CounterAt(calls, c) < MAX_UINT32 then o == Done(calls[c].payload) else !o.Done?
  {
    assert ch.mode == Cbc;
    hide CounterAt, ReadAll, CbcChannel, Arrivals, Written, Transmit, MarkBefore, Noise;
    ArrivedAre(ch, calls, idx, ps);
    var ss := Sendings(calls, idx);
    AcceptedIff(ch, 0, ss, ps, k);
    if CounterAt(calls, idx[k].value) < MAX_UINT32 {
      EarlierIdsBelow(calls, idx, k);
      MarkStaysBelow(0, ss, k, ss[k].value.id);
    }
  }

  lemma EarlierIdsBelow(calls: seq<Call>, idx: seq<Option<nat>>, k: nat)
    requires CallsExist(calls, idx) && OrderKept(idx) && k < |idx| && idx[k].Some?
    requires CounterAt(calls, idx[k].value) < MAX_UINT32
    requires forall i :: 0 <= i < |idx| && idx[i].Some? ==>
             UsesPacketId(calls[idx[i].value].ch, calls[idx[i].value].payload)
    ensures SentId(calls, idx[k].value) > 0
    ensures forall i :: 0 <= i < k && idx[i].Some? ==> SentId(calls, idx[i].value) < SentId(calls, idx[k].value)
  {
    hide CounterAt, UsesPacketId;
    CounterGrows(calls, 0, idx[k].value);
    assert CounterAt(calls, 0) >= 1 by { CounterStarts(calls); }
    forall i | 0 <= i < k && idx[i].Some?
      ensures SentId(calls, idx[i].value) < SentId(calls, idx[k].value)
    {
      CounterGrows(calls, idx[i].value, idx[k].value);
    }
  }

  lemma CounterStarts(calls: seq<Call>)
    ensures CounterAt(calls, 0) == 1
  {}

  // ------------------------------------------------------------- lzo-no framing in CBC mode

  ghost predicate LzoChannel(ch: Channel) {
    Lawful(ch.crypto) && ch.mode == Cbc && ch.compress == LzoNo && AesKeySize(ch.keySize)
  }

  /** Under lzo-no framing the mark moves to the shifted id before the marker is looked at. */
  lemma LzoRead(ch: Channel, id: PacketId, iv: seq<Byte>, payload: seq<Byte>, last: PacketId)
    requires LzoChannel(ch) && |iv| == AES_BLOCK
    ensures var w := Write(ch, Ok(id), iv, payload);
            && w.Done? && Transmit(w.value).Ok?
            && var r := Read(Mirror(ch), last, Transmit(w.value).value);
               && r.last == (if Fresh(last, ShiftedId(id)) then ShiftedId(id) else last)
               && (!Fresh(last, ShiftedId(id)) ==> !r.outcome.Done?)
               && (Fresh(last, ShiftedId(id)) ==> r.outcome == Unframe(id % 256, payload))
  {
    CbcRead(ch, id, iv, payload, last);
    LzoUnpads(ch, id, payload);
    hide Lawful, Write, Read, Transmit, CbcPlaintext, PutUint32, Unpad, Unframe, ShiftedId, Decompress;
    var i, full := PutUint32(id), CbcPlaintext(ch, id, payload);
    LzoDecompress(ch, id, payload, full[5 + |payload|..], last);
  }

  lemma LzoDecompress(ch: Channel, id: PacketId, payload: seq<Byte>, slack: seq<Byte>, last: PacketId)
    requires LzoChannel(ch)
    ensures var i := PutUint32(id);
            Decompress(ch, last, Plain([MARK_LZO_NO, i[0], i[1], i[2], i[3]] + payload, slack)) ==
            if Fresh(last, ShiftedId(id)) then ReadResult(Unframe(id % 256, payload), ShiftedId(id))
            else ReadResult(Failed(if last == MAX_UINT32 then KeyExpired else ReplayAttack), last)
  {
    ShiftedIdIs(id);
    hide Lawful, PutUint32, GetUint32, Unframe, ShiftedId;
    var i := PutUint32(id);
    var b := [MARK_LZO_NO, i[0], i[1], i[2], i[3]] + payload;
    assert (b + slack)[..4] == [MARK_LZO_NO, i[0], i[1], i[2]] && b[4] == i[3] && b[5..] == payload;
  }

  /** The n-th packet (counting from 0) of a session that writes nothing else, and the mark before it. */
  function NthId(n: nat): PacketId {
    if n + 1 < MAX_UINT32 then n + 1 else 0
  }

  function LzoMark(n: nat): PacketId {
    if n == 0 then 0 else ShiftedId(if n < MAX_UINT32 then n else MAX_UINT32 - 1)
  }

  lemma LzoStep(n: nat)
    ensures Fresh(LzoMark(n), ShiftedId(NthId(n))) <==> n == 0 || (n + 1 < MAX_UINT32 && (n + 1) % 256 == 0)
    ensures LzoMark(n + 1) == if Fresh(LzoMark(n), ShiftedId(NthId(n))) then ShiftedId(NthId(n)) else LzoMark(n)
  {
    if n > 0 && n + 1 < MAX_UINT32 {
      assert n / 256 <= (n + 1) / 256 <= n / 256 + 1;
      assert (n + 1) / 256 > n / 256 <==> (n + 1) % 256 == 0;
    }
  }

  lemma {:induction false} LzoFrom(ch: Channel, n: nat, ss: seq<Sending>, ps: seq<Packet>, k: nat)
    requires LzoChannel(ch) && |ss| == |ps| && k < |ps|
    requires forall m :: 0 <= m < |ps| ==> ss[m].id == NthId(n + m) && LzoArrival(ch, ss[m], ps[m])
    ensures |ReadAll(Mirror(ch), LzoMark(n), ps)| == |ps|
    ensures var o := ReadAll(Mirror(ch), LzoMark(n), ps)[k];
            if n + k + 1 < MAX_UINT32 && (n + k + 1) % 256 == 0 then o == Done(ss[k].payload) else !o.Done?
    decreases |ps|
  {
    hide Write, Read, Transmit, Lawful, ShiftedId, LzoMark, Fresh;
    LzoRead(ch, ss[0].id, ss[0].iv, ss[0].payload, LzoMark(n));
    LzoStep(n);
    if |ps| == 1 {
      assert ps[1..] == [];
    } else {
      LzoFrom(ch, n + 1, ss[1..], ps[1..], if k == 0 then 0 else k - 1);
    }
  }

  ghost predicate LzoArrival(ch: Channel, s: Sending, p: Packet) {
    |s.iv| == AES_BLOCK && Write(ch, Ok(s.id), s.iv, s.payload).Done? &&
    Transmit(Write(ch, Ok(s.id), s.iv, s.payload).value) == Ok(p)
  }

  /** Everything written through one channel, arriving in full and in order. */
  ghost predicate Uninterrupted(ch: Channel, calls: seq<Call>, ps: seq<Packet>) {
    && |ps| == |calls|
    && forall m :: 0 <= m < |calls| ==>
         && calls[m].ch == ch && |calls[m].iv| == AES_BLOCK
         && Written(calls, m).Done? && Transmit(Written(calls, m).value) == Ok(ps[m])
  }

  lemma {:induction false} CbcCounter(ch: Channel, calls: seq<Call>, k: nat)
    requires ch.mode == Cbc && k <= |calls| && forall m :: 0 <= m < |calls| ==> calls[m].ch == ch
    ensures CounterAt(calls, k) == if k + 1 <= MAX_UINT32 then k + 1 else MAX_UINT32
  {
    if k > 0 {
      CbcCounter(ch, calls, k - 1);
    }
  }

  lemma UninterruptedArrival(ch: Channel, calls: seq<Call>, ps: seq<Packet>, m: nat)
    requires LzoChannel(ch) && Uninterrupted(ch, calls, ps) && m < |calls|
    ensures LzoArrival(ch, Sending(NthId(m), calls[m].iv, calls[m].payload), ps[m])
  {
    CbcCounter(ch, calls, m);
    hide Write, Transmit, CounterAt, Lawful;
    PastExhaustion(ch, ExpiredKey, calls[m].iv, calls[m].payload);
  }

  /** CBC mode with lzo-no framing, an uninterrupted in-order run: of the packets with ids 1, 2, 3, ...
      exactly those whose id is a multiple of 256 are returned; all others are lost at the reader. */
  lemma LzoReturnsEvery256th(ch: Channel, calls: seq<Call>, ps: seq<Packet>, k: nat)
    requires LzoChannel(ch) && Uninterrupted(ch, calls, ps) && k < |ps|
    ensures |ReadAll(Mirror(ch), 0, ps)| == |ps|
    ensures var o := ReadAll(Mirror(ch), 0, ps)[k];
            if k + 1 < MAX_UINT32 && (k + 1) % 256 == 0 then o == Done(calls[k].payload) else !o.Done?
  {
    hide LzoArrival, ReadAll, LzoChannel, Written, Transmit;
    var ss := seq(|calls|, m requires 0 <= m < |calls| => Sending(NthId(m), calls[m].iv, calls[m].payload));
    forall m | 0 <= m < |ps|
      ensures ss[m].id == NthId(m) && LzoArrival(ch, ss[m], ps[m])
    {
      UninterruptedArrival(ch, calls, ps, m);
    }
    assert LzoMark(0) == 0;
    LzoFrom(ch, 0, ss, ps, k);
  }

  // ------------------------------------------------------------- no replay check in GCM mode

  ghost predicate GcmChannel(ch: Channel) {
    Lawful(ch.crypto) && ch.mode == Gcm && AesKeySize(ch.keySize)
  }

  /** In GCM mode the reader keeps no mark: every written packet is accepted as often as it arrives,
      in whatever order. */
  lemma {:induction false} GcmAcceptsReplays(ch: Channel, last: PacketId, ss: seq<Sending>, ps: seq<Packet>, k: nat)
    requires GcmChannel(ch) && |ss| == |ps| && k < |ps|
    requires forall i :: 0 <= i < |ps| ==>
               ss[i].payload != [] && Write(ch, Ok(ss[i].id), ss[i].iv, ss[i].payload).Done?
               && Transmit(Write(ch, Ok(ss[i].id), ss[i].iv, ss[i].payload).value) == Ok(ps[i])
    ensures |ReadAll(Mirror(ch), last, ps)| == |ps|
    ensures ReadAll(Mirror(ch), last, ps)[k] == Done(ss[k].payload + Tail(ch.compress, |ss[k].payload|))
    decreases |ps|
  {
    hide Write, Read, Transmit, Lawful;
    GcmRoundTrip(ch, ss[0].id, ss[0].iv, ss[0].payload, last);
    if |ps| == 1 {
      assert ps[1..] == [];
    } else {
      GcmAcceptsReplays(ch, last, ss[1..], ps[1..], if k == 0 then 0 else k - 1);
    }
  }

  /** In particular the same packet twice. */
  lemma GcmAcceptsTwice(ch: Channel, id: PacketId, iv: seq<Byte>, payload: seq<Byte>, last: PacketId)
    requires GcmChannel(ch) && payload != []
    ensures var w := Write(ch, Ok(id), iv, payload);
            && w.Done? && Transmit(w.value).Ok?
            && var p, o := Transmit(w.value).value, Done(payload + Tail(ch.compress, |payload|));
               ReadAll(Mirror(ch), last, [p, p]) == [o, o]
  {
    hide Write, Read, Transmit, Lawful, ReadAll;
    GcmRoundTrip(ch, id, iv, payload, last);
    var p := Transmit(Write(ch, Ok(id), iv, payload).value).value;
    var s := Sending(id, iv, payload);
    GcmAcceptsReplays(ch, last, [s, s], [p, p], 0);
    GcmAcceptsReplays(ch, last, [s, s], [p, p], 1);
  }
}
