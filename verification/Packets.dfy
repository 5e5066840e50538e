/** OpenVPN packets on the wire (`internal/model/packet.go`): the packet record, the
    serialiser `Packet.Bytes`, the parser `ParsePacket` and the proof that on control
    and ACK packets the two are inverse to each other. */
module Packets {
  import opened Bytes

  type Opcode = Byte

  const P_CONTROL_HARD_RESET_CLIENT_V1: Opcode := 1
  const P_CONTROL_HARD_RESET_SERVER_V1: Opcode := 2
  const P_CONTROL_SOFT_RESET_V1: Opcode := 3
  const P_CONTROL_V1: Opcode := 4
  const P_ACK_V1: Opcode := 5
  const P_DATA_V1: Opcode := 6
  const P_CONTROL_HARD_RESET_CLIENT_V2: Opcode := 7
  const P_CONTROL_HARD_RESET_SERVER_V2: Opcode := 8
  const P_DATA_V2: Opcode := 9

  type PacketId = UInt32

  const ZERO_SESSION: seq<Byte> := [0, 0, 0, 0, 0, 0, 0, 0]
  const ZERO_PEER: seq<Byte> := [0, 0, 0]

  type SessionId = s: seq<Byte> | |s| == 8 witness [0, 0, 0, 0, 0, 0, 0, 0]
  type PeerId = s: seq<Byte> | |s| == 3 witness [0, 0, 0]

  datatype Packet = Packet(
    opcode: Opcode,
    keyId: Byte,
    peerId: PeerId,
    localSessionId: SessionId,
    acks: seq<PacketId>,
    remoteSessionId: SessionId,
    id: PacketId,
    payload: seq<Byte>)

  datatype PacketError =
    | PacketTooShort
    | EmptyPayload
    | NotControlOrAck
    | BadSessionId
    | BadAckCount
    | BadAckId
    | BadRemoteSessionId
    | BadPacketId
    | TooManyAcks

  predicate IsControl(op: Opcode) {
    op in {P_CONTROL_HARD_RESET_CLIENT_V1, P_CONTROL_HARD_RESET_SERVER_V1, P_CONTROL_SOFT_RESET_V1,
           P_CONTROL_V1, P_CONTROL_HARD_RESET_CLIENT_V2, P_CONTROL_HARD_RESET_SERVER_V2}
  }

  predicate IsData(op: Opcode) {
    op == P_DATA_V1 || op == P_DATA_V2
  }

  predicate IsControlOrAck(op: Opcode) {
    IsControl(op) || op == P_ACK_V1
  }

  function NewPacket(op: Opcode, keyId: Byte, payload: seq<Byte>): Packet {
    Packet(op, keyId, ZERO_PEER, ZERO_SESSION, [], ZERO_SESSION, 0, payload)
  }

  // ---------------------------------------------------------------- wire format

  /** High five bits: opcode. Low three bits: key id. */
  function HeaderByte(op: Opcode, keyId: Byte): Byte {
    op * 8 % 256 + keyId % 8
  }

  function EncodeIds(ids: seq<PacketId>): (b: seq<Byte>)
    ensures |b| == 4 * |ids|
  {
    if ids == [] then [] else PutUint32(ids[0]) + EncodeIds(ids[1..])
  }

  function DecodeIds(b: seq<Byte>): (ids: seq<PacketId>)
    requires |b| % 4 == 0
    ensures 4 * |ids| == |b|
  {
    if b == [] then [] else [GetUint32(b[..4])] + DecodeIds(b[4..])
  }

  /** What `Bytes` writes. A P_DATA_V2 packet already carries its headers in the payload. */
  function Marshal(p: Packet): Result<seq<Byte>, PacketError> {
    if p.opcode == P_DATA_V2 then Ok(p.payload)
    else if |p.acks| > MAX_UINT8 then Err(TooManyAcks)
    else Ok([HeaderByte(p.opcode, p.keyId)] + MarshalBody(p))
  }

  function MarshalBody(p: Packet): seq<Byte>
    requires |p.acks| <= MAX_UINT8
  {
    p.localSessionId + [|p.acks|] + EncodeIds(p.acks) + MarshalTail(p)
  }

  function MarshalTail(p: Packet): seq<Byte> {
    (if p.acks != [] then p.remoteSessionId else [])
    + (if p.opcode != P_ACK_V1 then PutUint32(p.id) else [])
    + p.payload
  }

  /** What `ParsePacket` computes. */
  function Unmarshal(buf: seq<Byte>): Result<Packet, PacketError> {
    if |buf| < 2 then Err(PacketTooShort)
    else
      var op, keyId := buf[0] / 8, buf[0] % 8;
      if op == P_DATA_V2 then
        if |buf| < 4 then Err(PacketTooShort)
        else Ok(NewPacket(op, keyId, buf[4..]).(peerId := buf[1..4]))
      else if IsControlOrAck(op) then UnmarshalControl(op, keyId, buf[1..])
      else Ok(NewPacket(op, keyId, buf[1..]))
  }

  function UnmarshalControl(op: Opcode, keyId: Byte, b: seq<Byte>): Result<Packet, PacketError> {
    if |b| == 0 then Err(EmptyPayload)
    else if !IsControlOrAck(op) then Err(NotControlOrAck)
    else if |b| < 8 then Err(BadSessionId)
    else if |b| < 9 then Err(BadAckCount)
    else if |b| < 9 + 4 * b[8] as int then Err(BadAckId)
    else
      var n: int := b[8];
      UnmarshalTail(NewPacket(op, keyId, []).(localSessionId := b[..8], acks := DecodeIds(b[9..9 + 4 * n])),
                    b[9 + 4 * n..])
  }

  /** The part after the ACK array: remote session id (only with ACKs), packet id (not for ACKs), payload. */
  function UnmarshalTail(p: Packet, b: seq<Byte>): Result<Packet, PacketError> {
    if p.acks != [] then
      if |b| < 8 then Err(BadRemoteSessionId)
      else UnmarshalId(p.(remoteSessionId := b[..8]), b[8..])
    else UnmarshalId(p, b)
  }

  function UnmarshalId(p: Packet, b: seq<Byte>): Result<Packet, PacketError> {
    if p.opcode == P_ACK_V1 then Ok(p.(payload := b))
    else if |b| < 4 then Err(BadPacketId)
    else Ok(p.(id := GetUint32(b[..4]), payload := b[4..]))
  }

  /** The opcodes by number. */
  lemma OpcodesAre(op: Opcode)
    ensures IsControl(op) <==> 1 <= op <= 4 || op == 7 || op == 8
    ensures IsControlOrAck(op) <==> 1 <= op <= 5 || op == 7 || op == 8
    ensures IsData(op) <==> op == 6 || op == 9
  {}

  // ---------------------------------------------------------------- the code

  /** `Packet.Bytes`. */
  method PacketBytes(p: Packet) returns (r: Result<seq<Byte>, PacketError>)
    ensures r == Marshal(p)
  {
    hide PutUint32, EncodeIds, MarshalTail, HeaderByte;
    var buf := new Buffer([]);
    if p.opcode != P_DATA_V2 {
      buf.WriteByte(HeaderByte(p.opcode, p.keyId));
      buf.Write(p.localSessionId);
      var nAcks := |p.acks|;
      if nAcks > MAX_UINT8 {
        return Err(TooManyAcks);
      }
      buf.WriteByte(nAcks);
      WriteAckArray(buf, p.acks);
      WriteTail(buf, p);
      assert buf.data == [HeaderByte(p.opcode, p.keyId)] + MarshalBody(p);
    } else {
      buf.Write(p.payload);
      assert buf.data == p.payload;
    }
    return Ok(buf.data);
  }

  method WriteAckArray(buf: Buffer, acks: seq<PacketId>)
    modifies buf
    ensures buf.data == old(buf.data) + EncodeIds(acks)
  {
    var i := 0;
    while i < |acks|
      invariant 0 <= i <= |acks|
      invariant buf.data + EncodeIds(acks[i..]) == old(buf.data) + EncodeIds(acks)
    {
      ghost var before := buf.data;
      buf.WriteUint32(acks[i]);
      assert acks[i..][1..] == acks[i + 1..];
      assert before + EncodeIds(acks[i..]) == buf.data + EncodeIds(acks[i + 1..]);
      i := i + 1;
    }
  }

  method WriteTail(buf: Buffer, p: Packet)
    modifies buf
    ensures buf.data == old(buf.data) + MarshalTail(p)
  {
    if |p.acks| > 0 {
      buf.Write(p.remoteSessionId);
    }
    if p.opcode != P_ACK_V1 {
      buf.WriteUint32(p.id);
    }
    buf.Write(p.payload);
  }

  /** `ParsePacket`. */
  method ParsePacket(buf: seq<Byte>) returns (r: Result<Packet, PacketError>)
    ensures r == Unmarshal(buf)
  {
    if |buf| < 2 {
      return Err(PacketTooShort);
    }
    var opcode, keyId := buf[0] / 8, buf[0] % 8;
    var payload, peerId: PeerId := [], ZERO_PEER;
    if opcode == P_DATA_V2 {
      if |buf| < 4 {
        return Err(PacketTooShort);
      }
      peerId := buf[1..4];
      payload := buf[4..];
    } else {
      payload := buf[1..];
    }
    if IsControl(opcode) || opcode == P_ACK_V1 {
      r := ParseControlOrAckPacket(opcode, keyId, payload);
      return;
    }
    return Ok(NewPacket(opcode, keyId, payload).(peerId := peerId));
  }

  /** `parseControlOrACKPacket`: reads field after field off a buffer. */
  method ParseControlOrAckPacket(opcode: Opcode, keyId: Byte, payload: seq<Byte>)
    returns (r: Result<Packet, PacketError>)
    ensures r == UnmarshalControl(opcode, keyId, payload)
  {
    if |payload| <= 0 {
      return Err(EmptyPayload);
    }
    if !IsControl(opcode) && opcode != P_ACK_V1 {
      return Err(NotControlOrAck);
    }
    var buf := new Buffer(payload);
    var session := buf.ReadFull(8);
    if session.None? {
      return Err(BadSessionId);
    }
    var count := buf.ReadByte();
    if count.None? {
      return Err(BadAckCount);
    }
    var n: int := count.value;
    assert buf.data == payload[9..];
    var acks := ReadAckArray(buf, n);
    if acks.None? {
      return Err(BadAckId);
    }
    assert payload[9..][..4 * n] == payload[9..9 + 4 * n];
    assert payload[9..][4 * n..] == payload[9 + 4 * n..];
    r := ReadTail(buf, NewPacket(opcode, keyId, []).(localSessionId := session.value, acks := acks.value));
  }

  method ReadAckArray(buf: Buffer, n: nat) returns (r: Option<seq<PacketId>>)
    modifies buf
    ensures |old(buf.data)| < 4 * n ==> r == None
    ensures |old(buf.data)| >= 4 * n ==>
              r == Some(DecodeIds(old(buf.data)[..4 * n])) && buf.data == old(buf.data)[4 * n..]
  {
    var acks: seq<PacketId> := [];
    var i := 0;
    ghost var ids := buf.data;
    while i < n
      invariant 0 <= i <= n
      invariant 4 * i <= |ids| && buf.data == ids[4 * i..]
      invariant acks == DecodeIds(ids[..4 * i])
    {
      var id := buf.ReadUint32();
      if id.None? {
        return None;
      }
      DecodeIdsSnoc(ids[..4 * i], ids[4 * i..4 * i + 4]);
      assert ids[..4 * i] + ids[4 * i..4 * i + 4] == ids[..4 * (i + 1)];
      acks := acks + [id.value];
      i := i + 1;
    }
    return Some(acks);
  }

  method ReadTail(buf: Buffer, q: Packet) returns (r: Result<Packet, PacketError>)
    modifies buf
    ensures r == UnmarshalTail(q, old(buf.data))
  {
    var p := q;
    if |p.acks| > 0 {
      var remote := buf.ReadFull(8);
      if remote.None? {
        return Err(BadRemoteSessionId);
      }
      p := p.(remoteSessionId := remote.value);
    }
    if p.opcode != P_ACK_V1 {
      var id := buf.ReadUint32();
      if id.None? {
        return Err(BadPacketId);
      }
      p := p.(id := id.value);
    }
    return Ok(p.(payload := buf.data));
  }

  lemma {:induction false} DecodeIdsSnoc(b: seq<Byte>, last: seq<Byte>)
    requires |b| % 4 == 0 && |last| == 4
    ensures DecodeIds(b + last) == DecodeIds(b) + [GetUint32(last)]
  {
    var c := b + last;
    if b == [] {
      assert c == last && last[..4] == last && last[4..] == [];
    } else {
      DecodeIdsSnoc(b[4..], last);
      assert c[..4] == b[..4] && c[4..] == b[4..] + last;
      assert DecodeIds(c) == [GetUint32(b[..4])] + DecodeIds(b[4..] + last);
    }
  }

  // ---------------------------------------------------------------- bijection

  lemma {:induction false} IdsRoundTrip(ids: seq<PacketId>)
    ensures DecodeIds(EncodeIds(ids)) == ids
  {
    if ids != [] {
      IdsRoundTrip(ids[1..]);
      Uint32RoundTrip(ids[0]);
      var b := EncodeIds(ids);
      assert b[..4] == PutUint32(ids[0]) && b[4..] == EncodeIds(ids[1..]);
    }
  }

  lemma {:induction false} IdsRoundTripBack(b: seq<Byte>)
    requires |b| % 4 == 0
    ensures EncodeIds(DecodeIds(b)) == b
  {
    if b != [] {
      IdsRoundTripBack(b[4..]);
      Uint32RoundTripBack(b[..4]);
      assert DecodeIds(b)[1..] == DecodeIds(b[4..]);
      assert b == b[..4] + b[4..];
    }
  }

  /** A control or ACK packet whose unused fields are zero. */
  predicate WellFormed(p: Packet) {
    && p.keyId < 8
    && p.peerId == ZERO_PEER
    && (p.acks == [] ==> p.remoteSessionId == ZERO_SESSION)
    && (p.opcode == P_ACK_V1 ==> p.id == 0)
  }

  /** The packet that the wire carries: `p` with its unused fields zeroed. */
  function Canonical(p: Packet): Packet {
    p.(keyId := p.keyId % 8,
       peerId := ZERO_PEER,
       remoteSessionId := if p.acks == [] then ZERO_SESSION else p.remoteSessionId,
       id := if p.opcode == P_ACK_V1 then 0 else p.id)
  }

  lemma IdRoundTrip(p: Packet, q: Packet, b: seq<Byte>)
    requires q == p.(id := 0, payload := [])
    requires b == (if p.opcode != P_ACK_V1 then PutUint32(p.id) else []) + p.payload
    ensures UnmarshalId(q, b) == Ok(p.(id := if p.opcode == P_ACK_V1 then 0 else p.id))
  {
    Uint32RoundTrip(p.id);
    if p.opcode != P_ACK_V1 {
      assert b[..4] == PutUint32(p.id) && b[4..] == p.payload;
    } else {
      assert b == p.payload;
    }
  }

  lemma TailRoundTrip(p: Packet, q: Packet)
    requires p.keyId < 8 && p.peerId == ZERO_PEER
    requires q == p.(remoteSessionId := ZERO_SESSION, id := 0, payload := [])
    ensures UnmarshalTail(q, MarshalTail(p)) == Ok(Canonical(p))
  {
    var tail := (if p.opcode != P_ACK_V1 then PutUint32(p.id) else []) + p.payload;
    var b := MarshalTail(p);
    if p.acks != [] {
      assert b == p.remoteSessionId + tail;
      assert b[..8] == p.remoteSessionId && b[8..] == tail;
      IdRoundTrip(p, q.(remoteSessionId := p.remoteSessionId), tail);
    } else {
      assert b == tail;
      IdRoundTrip(p.(remoteSessionId := ZERO_SESSION), q, tail);
    }
  }

  /** Parsing what was serialised yields the packet with its unused fields zeroed, for every
      control or ACK packet that serialises at all. */
  lemma UnmarshalMarshal(p: Packet)
    requires IsControlOrAck(p.opcode) && |p.acks| <= MAX_UINT8
    ensures Marshal(p).Ok?
    ensures Unmarshal(Marshal(p).value) == Ok(Canonical(p))
  {
    hide UnmarshalControl, MarshalBody, Canonical, HeaderByte;
    var buf := Marshal(p).value;
    assert buf[0] == HeaderByte(p.opcode, p.keyId) && buf[1..] == MarshalBody(p);
    HeaderSplits(p.opcode, p.keyId);
    BodyRoundTrip(p);
  }

  lemma HeaderSplits(op: Opcode, keyId: Byte)
    requires IsControlOrAck(op)
    ensures HeaderByte(op, keyId) / 8 == op && HeaderByte(op, keyId) % 8 == keyId % 8
  {}

  lemma BodyRoundTrip(p: Packet)
    requires IsControlOrAck(p.opcode) && |p.acks| <= MAX_UINT8
    ensures |MarshalBody(p)| >= 9
    ensures UnmarshalControl(p.opcode, p.keyId % 8, MarshalBody(p)) == Ok(Canonical(p))
  {
    hide UnmarshalTail, MarshalTail;
    var b, n := MarshalBody(p), |p.acks|;
    assert b[..8] == p.localSessionId && b[8] == n;
    assert b[9..9 + 4 * n] == EncodeIds(p.acks);
    assert b[9 + 4 * n..] == MarshalTail(p);
    IdsRoundTrip(p.acks);
    var r := p.(keyId := p.keyId % 8, peerId := ZERO_PEER);
    var q := r.(remoteSessionId := ZERO_SESSION, id := 0, payload := []);
    SameTail(p, r);
    TailRoundTrip(r, q);
    assert UnmarshalControl(p.opcode, p.keyId % 8, b) == UnmarshalTail(q, MarshalTail(p));
  }

  lemma SameTail(p: Packet, r: Packet)
    requires r == p.(keyId := r.keyId, peerId := r.peerId)
    ensures MarshalTail(r) == MarshalTail(p)
  {}

  /** So a control or ACK packet survives the wire if and only if it is well formed. */
  lemma RoundTripIffWellFormed(p: Packet, buf: seq<Byte>)
    requires IsControlOrAck(p.opcode) && Marshal(p) == Ok(buf)
    ensures Unmarshal(buf) == Ok(p) <==> WellFormed(p)
  {
    assert Unmarshal(buf) == Ok(Canonical(p)) by {
      UnmarshalMarshal(p);
    }
    CanonicalIffWellFormed(p);
  }

  /** A packet through the serialiser, the wire and the parser. */
  function Transmit(p: Packet): Result<Packet, PacketError> {
    var m := Marshal(p);
    if m.Err? then Err(m.error) else Unmarshal(m.value)
  }

  /** A control or ACK packet with at most 255 ACKs arrives in its canonical form. */
  lemma TransmitIs(p: Packet)
    requires IsControlOrAck(p.opcode) && |p.acks| <= MAX_UINT8
    ensures Transmit(p) == Ok(Canonical(p)) && (WellFormed(p) ==> Transmit(p) == Ok(p))
  {
    UnmarshalMarshal(p);
    CanonicalIffWellFormed(p);
  }

  lemma CanonicalIffWellFormed(p: Packet)
    ensures Canonical(p) == p <==> WellFormed(p)
  {
  }

  /** A packet with more than 255 ACKs is refused, never truncated. */
  lemma MarshalFailsIffTooManyAcks(p: Packet)
    requires p.opcode != P_DATA_V2
    ensures Marshal(p).Err? <==> |p.acks| > MAX_UINT8
  {
  }

  /** What the tail parser accepts it takes whole, leaving nothing of the buffer out. */
  lemma TailRoundTripBack(q: Packet, b: seq<Byte>)
    requires q.remoteSessionId == ZERO_SESSION && q.id == 0 && q.payload == []
    requires UnmarshalTail(q, b).Ok?
    ensures var p := UnmarshalTail(q, b).value;
            && MarshalTail(p) == b
            && p.(remoteSessionId := ZERO_SESSION, id := 0, payload := []) == q
            && (p.acks == [] ==> p.remoteSessionId == ZERO_SESSION)
            && (p.opcode == P_ACK_V1 ==> p.id == 0)
  {
    hide UnmarshalId, PutUint32;
    if q.acks != [] {
      IdRoundTripBack(q.(remoteSessionId := b[..8]), b[8..]);
      assert b == b[..8] + b[8..];
    } else {
      IdRoundTripBack(q, b);
    }
  }

  lemma IdRoundTripBack(q: Packet, c: seq<Byte>)
    requires q.id == 0 && q.payload == [] && UnmarshalId(q, c).Ok?
    ensures var p := UnmarshalId(q, c).value;
            && c == (if p.opcode != P_ACK_V1 then PutUint32(p.id) else []) + p.payload
            && p.(id := 0, payload := []) == q && (p.opcode == P_ACK_V1 ==> p.id == 0)
  {
    hide PutUint32, GetUint32;
    if q.opcode != P_ACK_V1 {
      Uint32RoundTripBack(c[..4]);
      assert c == c[..4] + c[4..];
    }
  }

  /** How a buffer that parses as control or ACK breaks into fields. */
  lemma UnmarshalFields(buf: seq<Byte>, b: seq<Byte>, n: int)
    requires Unmarshal(buf).Ok? && IsControlOrAck(Unmarshal(buf).value.opcode)
    requires b == buf[1..] && n == if |b| > 8 then b[8] as int else 0
    ensures IsControlOrAck(buf[0] / 8) && |b| >= 9 + 4 * n
    ensures Unmarshal(buf) ==
            UnmarshalTail(NewPacket(buf[0] / 8, buf[0] % 8, []).(localSessionId := b[..8],
                acks := DecodeIds(b[9..9 + 4 * n])),
                          b[9 + 4 * n..])
  {
    hide UnmarshalTail, DecodeIds;
  }

  lemma BodyOfFields(p: Packet, b: seq<Byte>, n: int)
    requires |b| >= 9 + 4 * n && |p.acks| == n == b[8] as int
    requires p.localSessionId == b[..8] && EncodeIds(p.acks) == b[9..9 + 4 * n] && MarshalTail(p) == b[9 + 4 * n..]
    ensures MarshalBody(p) == b
  {
    hide EncodeIds, MarshalTail;
    assert b == b[..8] + [b[8]] + b[9..9 + 4 * n] + b[9 + 4 * n..];
  }

  lemma UnmarshalParts(buf: seq<Byte>, b: seq<Byte>, n: int, p: Packet)
    requires Unmarshal(buf) == Ok(p) && IsControlOrAck(p.opcode)
    requires b == buf[1..] && n == if |b| > 8 then b[8] as int else 0
    ensures |b| >= 9 + 4 * n && |p.acks| == n == b[8] as int
    ensures p.opcode == buf[0] / 8 && p.keyId == buf[0] % 8 && p.localSessionId == b[..8]
    ensures EncodeIds(p.acks) == b[9..9 + 4 * n] && MarshalTail(p) == b[9 + 4 * n..]
    ensures WellFormed(p)
  {
    UnmarshalFields(buf, b, n);
    hide UnmarshalTail, MarshalTail, Unmarshal, DecodeIds, EncodeIds;
    var ids, tail := b[9..9 + 4 * n], b[9 + 4 * n..];
    TailRoundTripBack(NewPacket(buf[0] / 8, buf[0] % 8, []).(localSessionId := b[..8], acks := DecodeIds(ids)), tail);
    IdsRoundTripBack(ids);
  }

  /** Conversely, every buffer that parses as a control or ACK packet is the serialisation of
      the packet it parses to, byte for byte, and that packet is well formed. */
  lemma MarshalUnmarshal(buf: seq<Byte>, p: Packet)
    requires Unmarshal(buf) == Ok(p) && IsControlOrAck(p.opcode)
    ensures Marshal(p) == Ok(buf)
    ensures WellFormed(p)
  {
    var b := buf[1..];
    hide Unmarshal, MarshalBody, MarshalTail, EncodeIds;
    var n: int := if |b| > 8 then b[8] as int else 0;
    UnmarshalParts(buf, b, n, p);
    BodyOfFields(p, b, n);
    HeaderOfByte(buf[0]);
    hide WellFormed, HeaderByte, IsControl;
    assert buf == [buf[0]] + b;
  }

  // ---------------------------------------------------------------- the layout in offsets

  lemma {:induction false} EncodedIdAt(ids: seq<PacketId>, i: nat)
    requires i < |ids|
    ensures HoldsUint32(EncodeIds(ids), 4 * i, ids[i])
  {
    hide PutUint32;
    BigEndian(ids[0]);
    if i > 0 {
      EncodedIdAt(ids[1..], i - 1);
      assert EncodeIds(ids)[4..] == EncodeIds(ids[1..]);
    }
  }

  lemma HoldsInside(a: seq<Byte>, b: seq<Byte>, c: seq<Byte>, at: nat, v: int)
    requires HoldsUint32(b, at, v)
    ensures HoldsUint32(a + b + c, |a| + at, v)
  {}

  /** Where everything is on the wire: opcode and key id share byte 0, the session id follows, the ACK
      count is byte 9, four bytes for each ACK, the remote session id if there are ACKs, the packet id
      unless it is an ACK, and the payload to the end. */
  lemma WireLayout(p: Packet, buf: seq<Byte>)
    requires p.opcode != 9 && Marshal(p) == Ok(buf)
    ensures var n := |p.acks|;
            var remote := 10 + 4 * n;
            var id := if n == 0 then remote else remote + 8;
            var payload := if p.opcode == 5 then id else id + 4;
            && payload <= |buf| && buf[payload..] == p.payload
            && buf[0] == p.opcode % 32 * 8 + p.keyId % 8 && buf[1..9] == p.localSessionId && buf[9] == n
            && (forall i :: 0 <= i < n ==> HoldsUint32(buf, 10 + 4 * i, p.acks[i]))
            && (n > 0 ==> buf[remote..id] == p.remoteSessionId)
            && (p.opcode != 5 ==> HoldsUint32(buf, id, p.id))
  {
    hide *;
    var front := LayoutOfFront(p, buf);
    LayoutOfAcks(p, buf, front);
    LayoutOfTail(p, buf, 10 + 4 * |p.acks|);
  }

  lemma LayoutOfFront(p: Packet, buf: seq<Byte>) returns (front: seq<Byte>)
    requires p.opcode != 9 && Marshal(p) == Ok(buf)
    ensures |p.acks| <= 255 && |front| == 10 && buf == front + EncodeIds(p.acks) + MarshalTail(p)
    ensures buf[0] == p.opcode % 32 * 8 + p.keyId % 8 && buf[1..9] == p.localSessionId && buf[9] == |p.acks|
  {
    HeaderByteIs(p.opcode, p.keyId);
    hide EncodeIds, MarshalTail, HeaderByte;
    var n := |p.acks|;
    front := [HeaderByte(p.opcode, p.keyId)] + p.localSessionId + [n];
    assert buf == front + EncodeIds(p.acks) + MarshalTail(p);
    assert buf[1..9] == p.localSessionId;
    assert buf[9] == n;
  }

  lemma HeaderByteIs(op: Opcode, keyId: Byte)
    ensures HeaderByte(op, keyId) == op % 32 * 8 + keyId % 8
  {}

  lemma LayoutOfAcks(p: Packet, buf: seq<Byte>, front: seq<Byte>)
    requires |front| == 10 && buf == front + EncodeIds(p.acks) + MarshalTail(p)
    ensures 10 + 4 * |p.acks| <= |buf| && buf[10 + 4 * |p.acks|..] == MarshalTail(p)
    ensures forall i :: 0 <= i < |p.acks| ==> HoldsUint32(buf, 10 + 4 * i, p.acks[i])
  {
    hide EncodeIds, MarshalTail, HoldsUint32;
    forall i | 0 <= i < |p.acks|
      ensures HoldsUint32(buf, 10 + 4 * i, p.acks[i])
    {
      EncodedIdAt(p.acks, i);
      HoldsInside(front, EncodeIds(p.acks), MarshalTail(p), 4 * i, p.acks[i]);
    }
  }

  lemma LayoutOfTail(p: Packet, buf: seq<Byte>, remote: nat)
    requires remote <= |buf| && buf[remote..] == MarshalTail(p)
    ensures var id := if p.acks == [] then remote else remote + 8;
            var payload := if p.opcode == 5 then id else id + 4;
            && payload <= |buf| && buf[payload..] == p.payload
            && (p.acks != [] ==> buf[remote..id] == p.remoteSessionId)
            && (p.opcode != 5 ==> HoldsUint32(buf, id, p.id))
  {
    hide PutUint32;
    var r := if p.acks != [] then p.remoteSessionId else [];
    var i := if p.opcode != P_ACK_V1 then PutUint32(p.id) else [];
    assert buf == (buf[..remote] + r) + i + p.payload;
    assert (buf[..remote] + r)[remote..] == r;
    if p.opcode != P_ACK_V1 {
      BigEndian(p.id);
      HoldsInside(buf[..remote] + r, i, p.payload, 0, p.id);
    }
  }

  /** A data packet goes out as it is. Whatever is not a control or ACK packet is taken as it comes,
      after a header of four bytes for data packets of version 2 and of one byte for all others. */
  lemma DataLayout(p: Packet, buf: seq<Byte>)
    requires |buf| >= 2
    ensures p.opcode == 9 ==> Marshal(p) == Ok(p.payload)
    ensures var op := buf[0] / 8;
            && (op == 9 && |buf| >= 4 ==>
                  && Unmarshal(buf).Ok? && Unmarshal(buf).value.opcode == 9
                  && Unmarshal(buf).value.keyId == buf[0] % 8
                  && Unmarshal(buf).value.peerId == buf[1..4] && Unmarshal(buf).value.payload == buf[4..])
            && (op == 0 || op == 6 || op > 9 ==>
                  && Unmarshal(buf).Ok? && Unmarshal(buf).value.opcode == op
                  && Unmarshal(buf).value.keyId == buf[0] % 8 && Unmarshal(buf).value.payload == buf[1..])
  {}

  /** Parsing succeeds exactly if the buffer is as long as its opcode and its ACK count ask for. */
  lemma ParsesIff(buf: seq<Byte>)
    ensures Unmarshal(buf).Ok? <==>
            && |buf| >= 2
            && var op := buf[0] / 8;
               && (op == 9 ==> |buf| >= 4)
               && (1 <= op <= 5 || op == 7 || op == 8 ==>
                     && |buf| >= 10
                     && var n: int := buf[9];
                        |buf| >= 10 + 4 * n + (if n == 0 then 0 else 8) + (if op == 5 then 0 else 4))
  {
    hide DecodeIds;
    if |buf| >= 2 && IsControlOrAck(buf[0] / 8) && |buf| >= 10 {
      var b := buf[1..];
      assert b[8] == buf[9];
    }
  }

  lemma HeaderOfByte(x: Byte)
    ensures HeaderByte(x / 8, x % 8) == x
  {
  }
}
