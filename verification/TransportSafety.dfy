/** Safety of the two-endpoint transport over every execution: in-order delivery without repeats,
    sound acknowledgements, and accounting of every packet and every ACK. */
module TransportSafety {
  import opened Bytes
  import opened Packets
  import opened Sorting
  import opened Session
  import opened SenderSpec
  import opened Receiver
  import opened Reorder
  import opened Transport
  import opened SenderRuns

  // ------------------------------------------------------------- what is on the network

  /** What an endpoint may have sent: its own control packets, hard resets and ACK packets. */
  ghost predicate FromSender(p: Packet, e: Endpoint) {
    && p.localSessionId == e.session.localSessionId
    && IsControlOrAck(p.opcode) && |p.acks| <= MAX_ACKS_PER_OUTGOING_PACKET
    && (p.opcode == P_CONTROL_V1 ==> Original(p, e.created))
    && (p.opcode != P_CONTROL_V1 && p.opcode != P_ACK_V1 ==> p.id == 0)
  }

  ghost predicate NetInv(e: Endpoint, out: set<Packet>) {
    forall p :: p in out ==> FromSender(p, e)
  }

  lemma AfterKeepsIdentity(e: Endpoint, act: Action, inbound: set<Packet>, peer: SessionId)
    requires Enabled(e, act, inbound, peer)
    ensures var e' := After(e, act, inbound, peer);
            e'.session.localSessionId == e.session.localSessionId && e.created <= e'.created
  {
    hide Flush, AddPending, Survivors;
  }

  /** A packet of the window as it was sent. */
  ghost predicate FromWindow(p: Packet, window: seq<InFlight>) {
    exists k :: 0 <= k < |window| && p.(acks := []) == window[k].packet.(acks := [])
  }

  lemma FlushSends(e: Endpoint, t: int, p: Packet)
    requires p in Flush(e.window, e.pending, e.session, t).sent
    ensures |p.acks| <= MAX_ACKS_PER_OUTGOING_PACKET && forall id :: id in p.acks ==> id in e.pending
    ensures FromWindow(p, e.window) || (e.session.remoteSessionId.Some? && IssueAck(e.session, p.acks) == Ok(p))
  {
    hide ReadyIndices, FlushWindow, FlushPackets, FromWindow, Enumerate;
    var owed := Enumerate(e.pending);
    assert forall id :: id in owed ==> id in ToSet(owed);
    if |ReadyIndices(e.window, t)| > 0 {
      FlushPacketFrom(e.window, t, owed, p);
    }
  }

  lemma FlushPacketFrom(window: seq<InFlight>, t: int, owed: seq<PacketId>, p: Packet)
    requires p in FlushPackets(window, t, owed)
    ensures |p.acks| <= MAX_ACKS_PER_OUTGOING_PACKET && (forall id :: id in p.acks ==> id in owed)
    ensures FromWindow(p, window)
  {
    hide ReadyIndices;
    var idx, ps := ReadyIndices(window, t), FlushPackets(window, t, owed);
    var m :| 0 <= m < |ps| && ps[m] == p;
    assert p.acks == Take4(Owed(owed, m));
    assert p.(acks := []) == window[idx[m]].packet.(acks := []);
  }

  lemma EmitsFromSender(e: Endpoint, act: Action, p: Packet)
    requires TxInv(e) && p in Emits(e, act)
    requires act.EmitReset? ==> IsHardReset(act.op)
    ensures FromSender(p, e)
  {
    hide Flush, TxInv, Numbered, Accounted, Queued;
    match act
    case Tick(t) =>
      FlushSends(e, t, p);
      if FromWindow(p, e.window) {
        var k :| 0 <= k < |e.window| && p.(acks := []) == e.window[k].packet.(acks := []);
        assert WindowOk(e) && Numbered(e) by { TxInvParts(e); }
        WindowPacketFromSender(e, k, p);
      }
    case _ =>
  }

  lemma TxInvParts(e: Endpoint)
    requires TxInv(e)
    ensures Numbered(e) && Recorded(e) && Queued(e) && WindowOk(e) && Accounted(e)
  {
  }

  lemma WindowPacketFromSender(e: Endpoint, k: nat, p: Packet)
    requires WindowOk(e) && Numbered(e) && k < |e.window| && p.(acks := []) == e.window[k].packet.(acks := [])
    requires |p.acks| <= MAX_ACKS_PER_OUTGOING_PACKET
    ensures FromSender(p, e)
  {
    var q := e.window[k].packet;
    assert p.(acks := []).id == q.(acks := []).id && p.(acks := []).opcode == q.(acks := []).opcode;
    assert Content(p) == Content(e.created[q.id - 1]);
    assert Content(p).localSessionId == p.localSessionId;
  }

  lemma ActionKeepsNet(e: Endpoint, act: Action, inbound: set<Packet>, peer: SessionId, out: set<Packet>)
    requires TxInv(e) && NetInv(e, out) && Enabled(e, act, inbound, peer)
    ensures NetInv(After(e, act, inbound, peer), out + Emits(e, act))
  {
    var e' := After(e, act, inbound, peer);
    AfterKeepsIdentity(e, act, inbound, peer);
    forall p | p in out + Emits(e, act)
      ensures FromSender(p, e')
    {
      if p !in out {
        EmitsFromSender(e, act, p);
      }
      hide After, Emits, Enabled, TxInv;
      if p.opcode == P_CONTROL_V1 {
        OriginalGrows(p, e.created, e'.created);
      }
    }
  }

  /** What arrives of it is still the sender's, with the same ACKs. */
  lemma ArrivesFromSender(p: Packet, x: Endpoint, xy: set<Packet>) returns (q: Packet)
    requires NetInv(x, xy) && OnWire(p, xy)
    ensures FromSender(p, x) && q in xy && Transmit(q) == Ok(p) && p.acks == q.acks
    ensures p.opcode == q.opcode && (p.opcode != P_ACK_V1 ==> p.id == q.id)
  {
    hide Transmit;
    q :| q in xy && Transmit(q) == Ok(p);
    assert FromSender(q, x);
    TransmitIs(q);
    assert Content(p) == Content(q);
  }

  // ------------------------------------------------------------- the receiving side

  /** What `y` has received from `x`. */
  ghost predicate RxInv(x: Endpoint, y: Endpoint) {
    && (y.session.remoteSessionId == None || y.session.remoteSessionId == Some(x.session.localSessionId))
    && (y.held.Some? ==> Genuine(y.held.value, x))
    && (forall k :: 0 <= k < |y.rx.buffer| ==> Genuine(y.rx.buffer[k], x))
    && (forall k :: 0 <= k < |y.rx.delivered| ==> Genuine(y.rx.delivered[k], x))
    && RefinesSet(y.rx)
  }

  /** A control packet that the peer created. */
  ghost predicate Genuine(p: Packet, x: Endpoint) {
    p.opcode == P_CONTROL_V1 && Original(p, x.created)
  }

  lemma GenuineGrows(p: Packet, x: Endpoint, x': Endpoint)
    requires Genuine(p, x) && x.created <= x'.created
    ensures Genuine(p, x')
  {
    OriginalGrows(p, x.created, x'.created);
  }

  /** The sender's steps do not disturb what the receiver has. */
  lemma SenderKeepsRx(x: Endpoint, x': Endpoint, y: Endpoint)
    requires RxInv(x, y) && x.created <= x'.created && x'.session.localSessionId == x.session.localSessionId
    ensures RxInv(x', y)
  {
    hide RefinesSet, Genuine;
    if y.held.Some? {
      GenuineGrows(y.held.value, x, x');
    }
    forall k | 0 <= k < |y.rx.buffer| ensures Genuine(y.rx.buffer[k], x') { GenuineGrows(y.rx.buffer[k], x, x'); }
    forall k | 0 <= k < |y.rx.delivered| ensures Genuine(y.rx.delivered[k], x') { GenuineGrows(y.rx.delivered[k], x,
        x'); }
  }

  lemma GenuineIds(x: Endpoint, p: Packet)
    requires Numbered(x) && Genuine(p, x)
    ensures p.id < MAX_UINT32
  {
  }

  lemma InsertKeepsRx(x: Endpoint, y: Endpoint, ready: seq<Packet>, rx: Rx)
    requires Numbered(x) && RxInv(x, y) && y.held.Some? && Arrive(y.rx, y.held.value, ready, rx)
    ensures RxInv(x, y.(held := None, rx := rx))
  {
    hide RefinesSet;
    var p, s := y.held.value, y.rx;
    GenuineIds(x, p);
    ArriveKeeps(s, p, ready, rx);
    NoWrap(s, p);
    hide Genuine;
    if |s.buffer| < RELIABLE_RECV_BUFFER_SIZE {
      var buf := s.buffer + [p];
      assert forall k :: 0 <= k < |buf| ==> Genuine(buf[k], x);
      DeliveryFromBuffer(buf, s.last, ready, rx.buffer, rx.last);
      assert forall k :: 0 <= k < |rx.delivered| ==> Genuine(rx.delivered[k], x);
    }
  }

  lemma DeliveryFromBuffer(buf: seq<Packet>, last: int, ready: seq<Packet>, keep: seq<Packet>, last': int)
    requires Delivery(buf, last, ready, keep, last')
    ensures forall k :: 0 <= k < |keep| ==> keep[k] in buf
    ensures forall k :: 0 <= k < |ready| ==> ready[k] in buf
  {
    forall k | 0 <= k < |keep|
      ensures keep[k] in buf
    {
      assert keep[k] in multiset(keep);
      assert keep[k] in multiset(buf);
    }
  }

  lemma ReceiverKeepsRx(x: Endpoint, y: Endpoint, act: Action, xy: set<Packet>)
    requires Numbered(x) && NetInv(x, xy) && RxInv(x, y)
    requires Enabled(y, act, xy, x.session.localSessionId)
    ensures RxInv(x, After(y, act, xy, x.session.localSessionId))
  {
    match act
    case Insert(ready, rx) => InsertKeepsRx(x, y, ready, rx);
    case Receive(p) =>
      hide RefinesSet;
      if SanityOk(p, y.session) {
        var _ := ArrivesFromSender(p, x, xy);
      }
    case Learn(p) =>
      hide RefinesSet;
      var _ := ArrivesFromSender(p, x, xy);
    case _ =>
      hide RefinesSet, Flush, Survivors, AddPending;
  }

  // ------------------------------------------------------------- acknowledgements

  /** Ids that reached `y`: accepted, refused by a full buffer, or in the hands of its receive
      worker between announcing and inserting. Hard resets have id 0. */
  ghost function Reached(y: Endpoint): set<PacketId> {
    {0} + y.rx.accepted + y.rx.refused + if y.held.Some? then {y.held.value.id} else {}
  }

  ghost predicate Subset(ids: seq<PacketId>, s: set<PacketId>) {
    forall id :: id in ids ==> id in s
  }

  /** `y`'s own bookkeeping: what it will acknowledge it announced, and what it announced reached it. */
  ghost predicate OwesInv(y: Endpoint) {
    && y.announced <= Reached(y)
    && y.pending <= y.announced && |y.pending| <= ACK_SET_CAPACITY
    && (forall k :: 0 <= k < |y.seen| && y.seen[k].id.Some? ==> y.seen[k].id.value in y.announced)
    && (y.announced != {} ==> y.session.remoteSessionId.Some?)
  }

  /** The ACKs on their way from `y` to `x`, and those `x` acted upon, were announced by `y`. */
  ghost predicate AckInv(x: Endpoint, y: Endpoint, yx: set<Packet>) {
    && (forall p :: p in yx ==> Subset(p.acks, y.announced))
    && (forall k :: 0 <= k < |x.seen| ==> Subset(SeenAcks(x.seen[k]), y.announced))
    && x.evicted <= y.announced
  }

  lemma ReceiveKeepsOwes(x: Endpoint, y: Endpoint, p: Packet, xy: set<Packet>)
    requires NetInv(x, xy) && RxInv(x, y) && OwesInv(y)
    requires Enabled(y, Receive(p), xy, x.session.localSessionId)
    ensures OwesInv(AfterReceive(y, p))
  {
    hide RefinesSet;
    if SanityOk(p, y.session) {
      var _ := ArrivesFromSender(p, x, xy);
    }
  }

  lemma AddPendingBounded(pending: set<PacketId>, id: Option<PacketId>, announced: set<PacketId>)
    requires pending <= announced && |pending| <= ACK_SET_CAPACITY && (id.Some? ==> id.value in announced)
    ensures AddPending(pending, id) <= announced && |AddPending(pending, id)| <= ACK_SET_CAPACITY
  {
    if id.Some? && id.value !in pending {
      assert |pending + {id.value}| == |pending| + 1;
    } else if id.Some? {
      assert pending + {id.value} == pending;
    }
  }

  lemma SeenKeepsOwes(y: Endpoint)
    requires OwesInv(y) && y.seen != []
    ensures OwesInv(AfterSeen(y))
  {
    hide Survivors;
    AddPendingBounded(y.pending, y.seen[0].id, y.announced);
    hide AddPending;
    assert forall k :: 0 <= k < |y.seen[1..]| ==> y.seen[1..][k] == y.seen[k + 1];
  }

  lemma FlushPending(e: Endpoint, t: int)
    ensures Flush(e.window, e.pending, e.session, t).pending <= e.pending
  {
    hide ReadyIndices, FlushWindow, FlushPackets;
    var owed := Enumerate(e.pending);
    assert forall id :: id in owed ==> id in e.pending by {
      assert forall id :: id in owed ==> id in ToSet(owed);
    }
  }

  lemma SubsetSize<T>(s: set<T>, t: set<T>)
    requires s <= t
    ensures |s| <= |t|
  {
    assert t == s + (t - s);
  }

  lemma TickKeepsOwes(y: Endpoint, y': Endpoint, t: int)
    requires OwesInv(y)
    requires var f := Flush(y.window, y.pending, y.session, t); y' == y.(window := f.window, pending := f.pending)
    ensures OwesInv(y')
  {
    FlushPending(y, t);
    hide Flush;
    SubsetSize(y'.pending, y.pending);
  }

  lemma InsertKeepsOwes(y: Endpoint, ready: seq<Packet>, rx: Rx)
    requires OwesInv(y) && y.held.Some? && Arrive(y.rx, y.held.value, ready, rx)
    ensures OwesInv(y.(held := None, rx := rx))
  {
    hide Delivery, Wraps;
  }

  lemma ActionKeepsOwes(x: Endpoint, y: Endpoint, act: Action, xy: set<Packet>)
    requires NetInv(x, xy) && RxInv(x, y) && OwesInv(y)
    requires Enabled(y, act, xy, x.session.localSessionId)
    ensures OwesInv(After(y, act, xy, x.session.localSessionId))
  {
    hide RefinesSet, RxInv, NetInv, OnWire, Flush, Survivors, AddPending, Arrive;
    match act
    case Receive(p) => ReceiveKeepsOwes(x, y, p, xy);
    case Insert(ready, rx) => InsertKeepsOwes(y, ready, rx);
    case HandleSeen => SeenKeepsOwes(y);
    case Tick(t) => TickKeepsOwes(y, After(y, act, xy, x.session.localSessionId), t);
    case _ =>
  }

  lemma AnnouncedGrows(y: Endpoint, act: Action, xy: set<Packet>, peer: SessionId)
    requires Enabled(y, act, xy, peer)
    ensures y.announced <= After(y, act, xy, peer).announced
  {
    hide Flush, Survivors, AddPending;
  }

  lemma EmitsAnnounced(y: Endpoint, act: Action, p: Packet)
    requires OwesInv(y) && p in Emits(y, act)
    ensures Subset(p.acks, y.announced)
  {
    hide Flush;
    if act.Tick? {
      FlushSends(y, act.t, p);
    }
  }

  /** The acknowledging side acts: new ACKs on the network come from its pending set. */
  lemma AckerKeepsAck(x: Endpoint, y: Endpoint, act: Action, xy: set<Packet>, yx: set<Packet>)
    requires OwesInv(y) && AckInv(x, y, yx) && Enabled(y, act, xy, x.session.localSessionId)
    ensures AckInv(x, After(y, act, xy, x.session.localSessionId), yx + Emits(y, act))
  {
    hide After, Emits, Enabled, OwesInv;
    var y' := After(y, act, xy, x.session.localSessionId);
    AnnouncedGrows(y, act, xy, x.session.localSessionId);
    forall p | p in yx + Emits(y, act)
      ensures Subset(p.acks, y'.announced)
    {
      if p in Emits(y, act) {
        EmitsAnnounced(y, act, p);
      }
    }
  }

  /** The acknowledged side acts: what it takes in came from the peer, what it evicts was acknowledged. */
  lemma AckedKeepsAck(x: Endpoint, y: Endpoint, act: Action, yx: set<Packet>)
    requires NetInv(y, yx) && AckInv(x, y, yx) && RxInv(y, x) && Enabled(x, act, yx, y.session.localSessionId)
    ensures AckInv(After(x, act, yx, y.session.localSessionId), y, yx)
  {
    hide RefinesSet;
    var x' := After(x, act, yx, y.session.localSessionId);
    match act
    case Receive(p) =>
      if SanityOk(p, x.session) {
        var q := ArrivesFromSender(p, y, yx);
        assert SeenAcks(SeenOf(p)) == q.acks;
      }
    case HandleSeen =>
      hide Survivors, AddPending;
      assert forall k :: 0 <= k < |x'.seen| ==> x'.seen[k] == x.seen[k + 1];
    case _ =>
      hide Flush;
  }
}
