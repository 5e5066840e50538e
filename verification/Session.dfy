/** The session manager (`internal/session/manager.go`): session ids, negotiation state and
    the two packet-id counters. */
module Session {
  import opened Bytes
  import opened Packets

  datatype SessionError = ExpiredKey | NoRemoteSessionId

  // The states of the negotiation (`internal/model/session.go`).
  const S_UNDEF: int := 0
  const S_INITIAL: int := 1
  const S_PRE_START: int := 2
  const S_START: int := 3
  const S_SENT_KEY: int := 4
  const S_GOT_KEY: int := 5
  const S_ACTIVE: int := 6
  const S_GENERATED_KEYS: int := 7

  /** What the server assigned to the tunnel. */
  datatype TunnelInfo = TunnelInfo(gateway: string, ip: string, mtu: int, netMask: string, peerId: int)

  datatype SessionState = SessionState(
    keyId: Byte,
    localSessionId: SessionId,
    remoteSessionId: Option<SessionId>,
    localControlPacketId: PacketId,
    localDataPacketId: PacketId)

  /** A counter hands out its value and moves on, unless moving on would overflow. */
  function IssueId(counter: PacketId): Result<PacketId, SessionError> {
    if counter == MAX_UINT32 then Err(ExpiredKey) else Ok(counter)
  }

  function Bump(counter: PacketId): PacketId {
    if counter == MAX_UINT32 then counter else counter + 1
  }

  function InitialState(localSessionId: SessionId): SessionState {
    SessionState(0, localSessionId, None, 1, 1)
  }

  function IssuePacket(s: SessionState, op: Opcode, payload: seq<Byte>): Result<Packet, SessionError> {
    var pid := IssueId(if IsControl(op) then s.localControlPacketId else s.localDataPacketId);
    if pid.Err? then Err(pid.error)
    else Ok(NewPacket(op, s.keyId, payload).(
              localSessionId := s.localSessionId,
              id := pid.value,
              remoteSessionId := if s.remoteSessionId.Some? then s.remoteSessionId.value else ZERO_SESSION))
  }

  function AfterIssue(s: SessionState, op: Opcode): SessionState {
    if IsControl(op) then s.(localControlPacketId := Bump(s.localControlPacketId))
    else s.(localDataPacketId := Bump(s.localDataPacketId))
  }

  function IssueAck(s: SessionState, ids: seq<PacketId>): Result<Packet, SessionError> {
    if s.remoteSessionId.None? then Err(NoRemoteSessionId)
    else Ok(Packet(P_ACK_V1, s.keyId, ZERO_PEER, s.localSessionId, ids, s.remoteSessionId.value, 0, []))
  }

  function HardReset(s: SessionState): Packet {
    NewPacket(P_CONTROL_HARD_RESET_CLIENT_V2, s.keyId, []).(localSessionId := s.localSessionId)
  }

  /** A packet carries the payload it was asked to carry, the next id of its kind and the two session
      ids as far as known; it is refused exactly when that counter is exhausted. */
  lemma IssuedPacketIs(s: SessionState, op: Opcode, payload: seq<Byte>)
    ensures var counter := if IsControl(op) then s.localControlPacketId else s.localDataPacketId;
            var r := IssuePacket(s, op, payload);
            && (r.Ok? <==> counter < 0xFFFF_FFFF)
            && (r.Ok? ==>
                  && r.value.opcode == op && r.value.payload == payload && r.value.id == counter
                  && r.value.keyId == s.keyId && r.value.peerId == [0, 0, 0] && r.value.acks == []
                  && r.value.localSessionId == s.localSessionId
                  && (s.remoteSessionId.Some? ==> Some(r.value.remoteSessionId) == s.remoteSessionId)
                  && (s.remoteSessionId.None? ==> r.value.remoteSessionId == [0, 0, 0, 0, 0, 0, 0, 0]))
  {}

  /** Issuing moves one counter by one and nothing else. */
  lemma IssuingMovesOneCounter(s: SessionState, op: Opcode)
    ensures var t := AfterIssue(s, op);
            && t.keyId == s.keyId && t.localSessionId == s.localSessionId && t.remoteSessionId == s.remoteSessionId
            && (IsControl(op) ==> t.localDataPacketId == s.localDataPacketId)
            && (!IsControl(op) ==> t.localControlPacketId == s.localControlPacketId)
            && (IsControl(op) && s.localControlPacketId < 0xFFFF_FFFF ==>
                  t.localControlPacketId == s.localControlPacketId + 1)
            && (!IsControl(op) && s.localDataPacketId < 0xFFFF_FFFF ==> t.localDataPacketId == s.localDataPacketId + 1)
  {}

  /** A refusal moves nothing. */
  lemma RefusalMovesNothing(s: SessionState, op: Opcode, payload: seq<Byte>)
    ensures IssuePacket(s, op, payload).Err? ==> AfterIssue(s, op) == s
  {}

  /** An ACK packet acknowledges exactly the given ids, from our session to the remote one. */
  lemma IssuedAckIs(s: SessionState, ids: seq<PacketId>)
    ensures var r := IssueAck(s, ids);
            && (r.Ok? <==> s.remoteSessionId.Some?)
            && (r.Ok? ==>
                  && r.value.opcode == 5 && r.value.acks == ids && r.value.id == 0 && r.value.payload == []
                  && r.value.keyId == s.keyId && r.value.localSessionId == s.localSessionId
                  && Some(r.value.remoteSessionId) == s.remoteSessionId)
  {}

  /** A client hard reset, always with id 0. */
  lemma HardResetIs(s: SessionState)
    ensures var p := HardReset(s);
            && p.opcode == 7 && p.id == 0 && p.acks == [] && p.payload == []
            && p.keyId == s.keyId && p.localSessionId == s.localSessionId
  {}

  class Manager {
    var keyId: Byte
    var localControlPacketId: PacketId
    var localDataPacketId: PacketId
    const localSessionId: SessionId
    var remoteSessionId: Option<SessionId>
    var negotiation: int
    var tunnelInfo: TunnelInfo
    var readySignals: nat             // sends on the channel that says data can flow

    ghost function View(): SessionState
      reads this
    {
      SessionState(keyId, localSessionId, remoteSessionId, localControlPacketId, localDataPacketId)
    }

    constructor (randomBytes: SessionId)
      ensures View() == InitialState(randomBytes) && negotiation == S_UNDEF
              && tunnelInfo == TunnelInfo("", "", 0, "", 0) && readySignals == 0
    {
      keyId := 0;
      localControlPacketId := 1;
      localDataPacketId := 1;
      localSessionId := randomBytes;
      remoteSessionId := None;
      negotiation, tunnelInfo, readySignals := S_UNDEF, TunnelInfo("", "", 0, "", 0), 0;
    }

    method SetNegotiationState(state: int)
      modifies this`negotiation, this`readySignals
      ensures negotiation == state
      ensures readySignals == old(readySignals) + if state == S_GENERATED_KEYS then 1 else 0
    {
      negotiation := state;
      if state == S_GENERATED_KEYS {
        readySignals := readySignals + 1;
      }
    }

    /** A fresh record holding the MTU found in the server's options. */
    method InitTunnelInfo(mtu: int)
      modifies this`tunnelInfo
      ensures tunnelInfo == TunnelInfo("", "", mtu, "", 0)
    {
      tunnelInfo := TunnelInfo("", "", mtu, "", 0);
    }

    /** Everything but the MTU is taken over. */
    method UpdateTunnelInfo(ti: TunnelInfo)
      modifies this`tunnelInfo
      ensures tunnelInfo == ti.(mtu := old(tunnelInfo.mtu))
    {
      tunnelInfo := tunnelInfo.(ip := ti.ip);
      tunnelInfo := tunnelInfo.(gateway := ti.gateway);
      tunnelInfo := tunnelInfo.(peerId := ti.peerId);
      tunnelInfo := tunnelInfo.(netMask := ti.netMask);
    }

    /** A second registration is a failed assertion, which is answered with `false`. */
    method SetRemoteSessionId(id: SessionId) returns (ok: bool)
      modifies this`remoteSessionId
      ensures ok <==> old(remoteSessionId).None?
      ensures remoteSessionId == if ok then Some(id) else old(remoteSessionId)
    {
      if remoteSessionId.Some? {
        return false;
      }
      remoteSessionId := Some(id);
      return true;
    }

    method NewAckForPacketIds(ids: seq<PacketId>) returns (r: Result<Packet, SessionError>)
      ensures r == IssueAck(View(), ids)
    {
      if remoteSessionId.None? {
        return Err(NoRemoteSessionId);
      }
      return Ok(Packet(P_ACK_V1, keyId, ZERO_PEER, localSessionId, ids, remoteSessionId.value, 0, []));
    }

    method NewPacket(op: Opcode, payload: seq<Byte>) returns (r: Result<Packet, SessionError>)
      modifies this`localControlPacketId, this`localDataPacketId
      ensures r == IssuePacket(old(View()), op, payload)
      ensures View() == AfterIssue(old(View()), op)
    {
      var packet := Packets.NewPacket(op, keyId, payload).(localSessionId := localSessionId);
      var pid;
      if IsControl(op) {
        pid := LocalControlPacketId();
      } else {
        pid := LocalDataPacketId();
      }
      if pid.Err? {
        return Err(pid.error);
      }
      packet := packet.(id := pid.value);
      if remoteSessionId.Some? {
        packet := packet.(remoteSessionId := remoteSessionId.value);
      }
      return Ok(packet);
    }

    method NewHardResetPacket() returns (p: Packet)
      ensures p == HardReset(View())
    {
      p := Packets.NewPacket(P_CONTROL_HARD_RESET_CLIENT_V2, keyId, []);
      p := p.(id := 0, localSessionId := localSessionId);
    }

    method LocalDataPacketId() returns (r: Result<PacketId, SessionError>)
      modifies this`localDataPacketId
      ensures r == IssueId(old(localDataPacketId))
      ensures localDataPacketId == Bump(old(localDataPacketId))
    {
      var pid := localDataPacketId;
      if pid == MAX_UINT32 {
        return Err(ExpiredKey);
      }
      localDataPacketId := localDataPacketId + 1;
      return Ok(pid);
    }

    method LocalControlPacketId() returns (r: Result<PacketId, SessionError>)
      modifies this`localControlPacketId
      ensures r == IssueId(old(localControlPacketId))
      ensures localControlPacketId == Bump(old(localControlPacketId))
    {
      var pid := localControlPacketId;
      if pid == MAX_UINT32 {
        return Err(ExpiredKey);
      }
      localControlPacketId := localControlPacketId + 1;
      return Ok(pid);
    }
  }

  // --------------------------------------------------------- packet-id discipline

  /** The counter after `n` requests. */
  ghost function CounterAfter(n: nat): PacketId {
    if n == 0 then 1 else Bump(CounterAfter(n - 1))
  }

  /** What the `n`-th request (counting from 0) for a data or control packet id is answered with. */
  ghost function Issued(n: nat): Result<PacketId, SessionError> {
    IssueId(CounterAfter(n))
  }

  /** A new session starts both counters there. */
  lemma CountersStart(id: SessionId)
    ensures InitialState(id).localDataPacketId == InitialState(id).localControlPacketId == CounterAfter(0) == 1
    ensures InitialState(id).localSessionId == id && InitialState(id).remoteSessionId == None
    ensures InitialState(id).keyId == 0
  {}

  lemma {:induction false} CounterClosedForm(n: nat)
    ensures CounterAfter(n) == if n + 1 <= MAX_UINT32 then n + 1 else MAX_UINT32
  {
    if n > 0 {
      CounterClosedForm(n - 1);
    }
  }

  /** Over any number of requests the ids are 1, 2, 3, ... without a repeat; after 2^32 - 2 of
      them every further request fails, and no id is ever handed out again. */
  lemma IdsNeverRepeat(m: nat, n: nat)
    requires m < n
    ensures Issued(n).Ok? <==> n < MAX_UINT32 - 1
    ensures Issued(n).Ok? ==> Issued(m).Ok? && Issued(m).value < Issued(n).value == n + 1 < MAX_UINT32
    ensures Issued(n).Err? ==> Issued(n) == Err(ExpiredKey)
  {
    CounterClosedForm(m);
    CounterClosedForm(n);
  }
}
