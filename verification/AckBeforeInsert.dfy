/** Why ACK soundness has to count the packet in the hands of the receive worker: an ACK can leave,
    and the peer can evict the packet, before the receive worker inserts it. */
module AckBeforeInsert {
  import opened Bytes
  import opened Packets
  import opened Sorting
  import opened Session
  import opened SenderSpec
  import opened Reorder
  import opened Transport

  ghost function NextA(s: System, act: Action): (s': System)
    requires Enabled(s.a, act, s.ba, s.b.session.localSessionId)
    ensures Step(s, s')
  {
    var s' := s.(a := After(s.a, act, s.ba, s.b.session.localSessionId), ab := s.ab + Emits(s.a, act));
    assert StepA(s, act, s');
    s'
  }

  ghost function NextB(s: System, act: Action): (s': System)
    requires Enabled(s.b, act, s.ab, s.a.session.localSessionId)
    ensures Step(s, s')
  {
    var s' := s.(b := After(s.b, act, s.ab, s.a.session.localSessionId), ba := s.ba + Emits(s.b, act));
    assert StepB(s, act, s');
    s'
  }

  /** The state is the last one of some execution. */
  ghost predicate Occurs(s: System) {
    exists run :: Execution(run) && run[|run| - 1] == s
  }

  lemma OccursStep(s: System, s': System)
    requires Occurs(s) && Step(s, s')
    ensures Occurs(s')
  {
    hide Step;
    var run :| Execution(run) && run[|run| - 1] == s;
    var longer := run + [s'];
    assert forall i :: 0 <= i < |longer| - 1 ==> Step(longer[i], longer[i + 1]);
    assert Execution(longer) && longer[|longer| - 1] == s';
  }

  /** Both sides know each other, nothing else has happened. */
  ghost predicate Connected(s: System) {
    && s.a == InitialEndpoint(s.a.session.localSessionId).(session := s.a.session)
    && s.b == InitialEndpoint(s.b.session.localSessionId).(session := s.b.session)
    && s.a.session == InitialState(s.a.session.localSessionId).(remoteSessionId := Some(s.b.session.localSessionId))
    && s.b.session == InitialState(s.b.session.localSessionId).(remoteSessionId := Some(s.a.session.localSessionId))
  }

  lemma Connect(i: SessionId, j: SessionId) returns (s: System)
    ensures Occurs(s) && Connected(s)
  {
    hide Step, Transmit;
    var s0 := System(InitialEndpoint(i), InitialEndpoint(j), {}, {});
    assert Execution([s0]) && [s0][0] == s0;
    var s1 := NextA(s0, EmitReset(P_CONTROL_HARD_RESET_CLIENT_V2));
    OccursStep(s0, s1);
    var s2 := NextB(s1, EmitReset(P_CONTROL_HARD_RESET_SERVER_V2));
    OccursStep(s1, s2);
    var client := HardReset(s0.a.session).(opcode := P_CONTROL_HARD_RESET_CLIENT_V2);
    var server := HardReset(s1.b.session).(opcode := P_CONTROL_HARD_RESET_SERVER_V2);
    assert client in s2.ab && server in s2.ba;
    TransmitIs(client);
    TransmitIs(server);
    var s3 := NextA(s2, Learn(server));
    OccursStep(s2, s3);
    s := NextB(s3, Learn(client));
    OccursStep(s3, s);
  }

  /** `p` is the first control packet and it is on its way. */
  ghost predicate FirstSent(s: System, p: Packet) {
    && s.a.session.remoteSessionId == Some(s.b.session.localSessionId)
    && s.a.seen == [] && s.a.held == None && s.a.evicted == {} && 1 in WindowIds(s.a.window)
    && s.b == InitialEndpoint(s.b.session.localSessionId).(session := s.b.session)
    && s.b.session == InitialState(s.b.session.localSessionId).(remoteSessionId := Some(s.a.session.localSessionId))
    && OnTheWay(s, p, 1)
  }

  /** Control packet `id` can arrive as `p` at side b. */
  ghost predicate OnTheWay(s: System, p: Packet, id: PacketId) {
    && OnWire(p, s.ab)
    && p.opcode == P_CONTROL_V1 && p.id == id && p.acks == [] && p.localSessionId == s.a.session.localSessionId
  }

  lemma SendFirst(s: System, payload: seq<Byte>) returns (s': System, p: Packet)
    requires Occurs(s) && Connected(s)
    ensures Occurs(s') && FirstSent(s', p)
  {
    hide Step, Flush, Occurs, Transmit;
    var s1 := NextA(s, Create(payload));
    OccursStep(s, s1);
    var s2 := NextA(s1, TakeOutgoing);
    OccursStep(s1, s2);
    var q := s2.a.window[0].packet;
    assert s2.a.window == [InFlight(0, 0, q, 0)] && s2.a.pending == {};
    s' := NextA(s2, Tick(1));
    OccursStep(s2, s');
    FlushSingle(s2.a.window, s2.a.session, 1);
    TransmitIs(q);
    p := Canonical(q);
  }

  lemma FlushSingle(w: seq<InFlight>, session: SessionState, t: int)
    requires |w| == 1 && Ready(w[0], t) && w[0].packet.acks == []
    ensures var f := Flush(w, {}, session, t);
            w[0].packet in f.sent && w[0].packet.id in WindowIds(f.window)
  {
    hide Enumerate;
    var idx := ReadyIndices(w, t);
    assert 0 in idx;
    var owed := Enumerate({});
    var m :| 0 <= m < |idx| && idx[m] == 0;
    var ps, v := FlushPackets(w, t, owed), FlushWindow(w, t, owed);
    assert ps[m] == w[0].packet;
    assert v[0].packet.id == w[0].packet.id;
  }

  /** The receive worker has announced `p` but not inserted it, and the ACK is on its way. */
  ghost predicate Acknowledged(s: System, p: Packet, ack: Packet) {
    && s.a.session.remoteSessionId == Some(s.b.session.localSessionId)
    && s.a.seen == [] && s.a.held == None && 1 in WindowIds(s.a.window)
    && s.b.held == Some(p) && p.id == 1 && s.b.rx == INITIAL
    && OnWire(ack, s.ba) && ack.opcode == P_ACK_V1 && ack.acks == [1]
    && ack.localSessionId == s.b.session.localSessionId && ack.remoteSessionId == s.a.session.localSessionId
  }

  /** The receiving side owes the ACK. */
  ghost predicate Owing(s: System, p: Packet) {
    && s.a.session.remoteSessionId == Some(s.b.session.localSessionId)
    && s.a.seen == [] && s.a.held == None && 1 in WindowIds(s.a.window)
    && s.b.session.remoteSessionId == Some(s.a.session.localSessionId)
    && s.b.held == Some(p) && p.id == 1 && s.b.rx == INITIAL && s.b.pending == {1} && s.b.window == []
       && s.b.session.keyId == 0
  }

  lemma AnnounceFirst(s: System, p: Packet) returns (s': System)
    requires Occurs(s) && FirstSent(s, p)
    ensures Occurs(s') && Owing(s', p)
  {
    hide Step, Survivors, WindowIds, Occurs, OnWire;
    var s1 := NextB(s, Receive(p));
    OccursStep(s, s1);
    assert s1.b.seen == [Seen(Some(1), Some([]))];
    s' := NextB(s1, HandleSeen);
    OccursStep(s1, s');
    SurvivorsAscending([], []);
  }

  lemma AcknowledgeFirst(s: System, p: Packet) returns (s': System, ack: Packet)
    requires Occurs(s) && Owing(s, p)
    ensures Occurs(s') && Acknowledged(s', p, ack)
  {
    hide Step, Flush, WindowIds, Occurs, Transmit;
    s' := NextB(s, Tick(1));
    OccursStep(s, s');
    ack := IssueAck(s.b.session, [1]).value;
    FlushAckOnly(s.b.session, 1);
    TransmitIs(ack);
    assert ack in s'.ba;
  }

  lemma FlushAckOnly(session: SessionState, t: int)
    requires session.remoteSessionId.Some?
    ensures Flush([], {1}, session, t).sent == [IssueAck(session, [1]).value]
  {
    hide Enumerate;
    var e: seq<UInt32> := [1];
    assert ToSet(e) == {1};
    AscendingUnique(Enumerate({1}), e);
  }

  /** For any two sessions and any payload some execution evicts a packet that the peer has neither
      delivered nor buffered, although it never refused one: it is still held. */
  lemma EvictedBeforeInserted(i: SessionId, j: SessionId, payload: seq<Byte>) returns (s: System)
    ensures Occurs(s) && 1 in s.a.evicted
    ensures s.b.rx.delivered == [] && s.b.rx.buffer == [] && s.b.rx.refused == {}
    ensures s.b.held.Some? && s.b.held.value.id == 1
  {
    hide Step, Survivors, WindowIds, Occurs, Connected, FirstSent, Owing, OnWire;
    var s0 := Connect(i, j);
    var s1, p := SendFirst(s0, payload);
    s1 := AnnounceFirst(s1, p);
    var s2, ack := AcknowledgeFirst(s1, p);
    var s3 := NextA(s2, Receive(ack));
    OccursStep(s2, s3);
    assert s3.a.seen == [Seen(None, Some([1]))];
    s := NextA(s3, HandleSeen);
    OccursStep(s3, s);
  }
}
