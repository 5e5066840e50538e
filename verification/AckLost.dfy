/** Executions in which a packet is acknowledged, evicted and lost: later packets fill the reorder
    buffer, the missing one is announced all the same and then refused. Duplicates of one later
    packet do it, and so do twelve later packets that each arrive once, because the window of six
    does not bound how far ids run ahead. */
module AckLost {
  import opened Bytes
  import opened Packets
  import opened Sorting
  import opened Session
  import opened SenderSpec
  import opened Receiver
  import opened Reorder
  import opened Transport
  import opened TransportTheorems
  import opened AckBeforeInsert

  // ------------------------------------------------------------- building blocks

  /** Both sides know each other; side a is idle but for its window. */
  ghost predicate Paired(s: System) {
    && s.a.session.remoteSessionId == Some(s.b.session.localSessionId) && s.a.session.keyId == 0
    && s.b.session.remoteSessionId == Some(s.a.session.localSessionId) && s.b.session.keyId == 0
    && s.a.seen == [] && s.a.held == None
  }

  /** Side b is idle, and never sent a control packet. */
  ghost predicate Listening(s: System) {
    s.b.seen == [] && s.b.held == None && s.b.window == []
  }

  /** A packet arrives and its id becomes pending; it is in the hands of the receive worker. */
  ghost predicate Announced(s: System, s': System, p: Packet) {
    s' == s.(b := s.b.(held := Some(p), pending := AddPending(s.b.pending, Some(p.id)),
                       announced := s.b.announced + {p.id}))
  }

  lemma TakeIn(s: System, p: Packet, id: PacketId) returns (s': System)
    requires Occurs(s) && Paired(s) && Listening(s) && OnTheWay(s, p, id)
    ensures Occurs(s')
    ensures s' == s.(b := s.b.(held := Some(p), seen := [Seen(Some(id), Some([]))], announced := s.b.announced + {id}))
  {
    hide Step, Occurs, OnWire;
    s' := NextB(s, Receive(p));
    OccursStep(s, s');
    assert [] + [SeenOf(p)] == [Seen(Some(id), Some([]))];
  }

  lemma Announce(s: System, p: Packet, id: PacketId) returns (s': System)
    requires Occurs(s) && Paired(s) && Listening(s) && OnTheWay(s, p, id)
    ensures Occurs(s') && Announced(s, s', p)
  {
    hide Step, Survivors, Occurs, AddPending, OnWire, Acknowledges;
    var s1 := TakeIn(s, p, id);
    s' := NextB(s1, HandleSeen);
    OccursStep(s1, s');
    SurvivorsAscending([], []);
    NothingAcknowledged();
  }

  lemma NothingAcknowledged()
    ensures Acknowledges([], []) == {}
  {}

  /** It is inserted, or refused by a full buffer. */
  lemma Settle(s: System, p: Packet, id: PacketId, rx: Rx) returns (s': System)
    requires Occurs(s) && Paired(s) && Listening(s) && OnTheWay(s, p, id) && Arrive(s.b.rx, p, [], rx)
    ensures Occurs(s') && Paired(s') && Listening(s') && s'.a == s.a && s'.ab == s.ab
    ensures s'.b.rx == rx && s'.b.pending == AddPending(s.b.pending, Some(id)) && s'.b.session == s.b.session
  {
    hide Step, Occurs, Arrive, AddPending, OnWire;
    var s1 := Announce(s, p, id);
    s' := NextB(s1, Insert([], rx));
    OccursStep(s1, s');
  }

  /** Side b sends what it owes. */
  lemma SendOwed(s: System) returns (s': System, ack: Packet)
    requires Occurs(s) && Paired(s) && Listening(s) && s.b.pending != {}
             && |s.b.pending| <= MAX_ACKS_PER_OUTGOING_PACKET
    ensures ToSet(ack.acks) == s.b.pending && ack == IssueAck(s.b.session, ack.acks).value
    ensures Occurs(s') && s' == s.(b := s.b.(pending := {}), ba := s'.ba) && OnWire(ack, s'.ba)
  {
    hide Step, Occurs, Flush, Transmit, OnWire, NextAcks, AfterReceive, AfterSeen, AfterTake, AfterCreate;
    ack := IssueAck(s.b.session, NextAcks(s.b.pending)).value;
    FlushOwed(s.b.pending, s.b.session, 1);
    s' := NextB(s, Tick(1));
    OccursStep(s, s');
    AckTravels(s.b.session, ack.acks);
    assert ack in s'.ba;
    Arrives(ack, s'.ba);
  }

  lemma Arrives(p: Packet, sent: set<Packet>)
    requires p in sent && Transmit(p) == Ok(p)
    ensures OnWire(p, sent)
  {
    hide Transmit;
  }

  lemma AckTravels(session: SessionState, ids: seq<PacketId>)
    requires session.remoteSessionId.Some? && session.keyId == 0 && 0 < |ids| <= MAX_ACKS_PER_OUTGOING_PACKET
    ensures Transmit(IssueAck(session, ids).value) == Ok(IssueAck(session, ids).value)
  {
    hide Transmit;
    TransmitIs(IssueAck(session, ids).value);
  }

  /** Side a takes an ACK in. */
  lemma TakeAck(s: System, ack: Packet) returns (s': System)
    requires Occurs(s) && Paired(s) && OnWire(ack, s.ba)
    requires ack == IssueAck(s.b.session, ack.acks).value
    ensures Occurs(s') && s' == s.(a := s'.a)
    ensures s'.a == s.a.(window := Survivors(s.a.window, ack.acks),
                         evicted := s.a.evicted + Acknowledges(s.a.window, ack.acks))
  {
    hide Step, Occurs, Survivors, Acknowledges, OnWire;
    var s1 := NextA(s, Receive(ack));
    OccursStep(s, s1);
    assert s1.a.seen == [Seen(None, Some(ack.acks))];
    s' := NextA(s1, HandleSeen);
    OccursStep(s1, s');
  }

  /** Side b sends what it owes, side a takes it in. */
  lemma AckBack(s: System) returns (s': System, ids: seq<PacketId>)
    requires Occurs(s) && Paired(s) && Listening(s) && s.b.pending != {}
             && |s.b.pending| <= MAX_ACKS_PER_OUTGOING_PACKET
    ensures ToSet(ids) == s.b.pending
    ensures Occurs(s') && s'.b == s.b.(pending := {}) && s'.ab == s.ab
    ensures s'.a == s.a.(window := Survivors(s.a.window, ids),
                         evicted := s.a.evicted + Acknowledges(s.a.window, ids))
  {
    hide Occurs, Survivors, Acknowledges, OnWire;
    var s1, ack := SendOwed(s);
    s' := TakeAck(s1, ack);
    ids := ack.acks;
  }

  lemma FlushOwed(pending: set<PacketId>, session: SessionState, t: int)
    requires session.remoteSessionId.Some? && pending != {} && |pending| <= MAX_ACKS_PER_OUTGOING_PACKET
    ensures var ids := NextAcks(pending);
            && ToSet(ids) == pending && 0 < |ids| <= MAX_ACKS_PER_OUTGOING_PACKET
            && Flush([], pending, session, t) == Flushed([], {}, [IssueAck(session, ids).value])
  {
    hide Enumerate;
  }

  // ------------------------------------------------------------- duplicates

  /** Side a has packets 1 and 2 in flight. */
  lemma SendTwo(s: System, payload: seq<Byte>) returns (s': System, one: Packet, two: Packet)
    requires Occurs(s) && Connected(s)
    ensures Occurs(s') && Paired(s') && Listening(s') && 1 in WindowIds(s'.a.window)
    ensures OnTheWay(s', one, 1) && OnTheWay(s', two, 2) && s'.b.pending == {} && s'.b.rx == Copies(two, 0)
  {
    hide Step, Flush, Occurs, Transmit;
    var s1 := NextA(s, Create(payload));
    OccursStep(s, s1);
    var s2 := NextA(s1, Create(payload));
    OccursStep(s1, s2);
    var s3 := NextA(s2, TakeOutgoing);
    OccursStep(s2, s3);
    var s4 := NextA(s3, TakeOutgoing);
    OccursStep(s3, s4);
    var p, q := s1.a.queue[0], s2.a.queue[1];
    assert s4.a.window == [InFlight(0, 0, p, 0), InFlight(0, 0, q, 0)] && s4.a.pending == {};
    s' := NextA(s4, Tick(1));
    OccursStep(s4, s');
    FlushBoth(s4.a.window, s4.a.session, 1);
    TransmitIs(p);
    TransmitIs(q);
    one, two := Canonical(p), Canonical(q);
    assert Copies(two, 0) == INITIAL;
  }

  lemma FlushBoth(w: seq<InFlight>, session: SessionState, t: int)
    requires |w| == 2 && Ready(w[1], t) && w[1].packet.acks == []
    ensures var f := Flush(w, {}, session, t);
            && w[1].packet in f.sent && f.pending == {}
            && |f.window| == 2 && (forall k :: 0 <= k < 2 ==> f.window[k].packet.id == w[k].packet.id)
            && w[0].packet.id in WindowIds(f.window)
            && (Ready(w[0], t) && w[0].packet.acks == [] ==> w[0].packet in f.sent)
  {
    hide Enumerate;
    var idx, owed := ReadyIndices(w, t), Enumerate({});
    assert 1 in idx && (Ready(w[0], t) ==> 0 in idx);
    hide ReadyIndices;
    var ps, v := FlushPackets(w, t, owed), FlushWindow(w, t, owed);
    forall k | 0 <= k < 2 && k in idx && w[k].packet.acks == []
      ensures w[k].packet in ps
    {
      var m :| 0 <= m < |idx| && idx[m] == k;
      assert ps[m] == w[k].packet;
    }
    assert v[0].packet.id == w[0].packet.id && v[1].packet.id == w[1].packet.id;
  }

  /** Twelve copies of packet 2. */
  lemma {:induction false} Stuff(s: System, two: Packet, k: nat) returns (s': System)
    requires Occurs(s) && Paired(s) && Listening(s) && OnTheWay(s, two, 2) && k <= RELIABLE_RECV_BUFFER_SIZE
    requires s.b.pending == {} && s.b.rx == Copies(two, 0)
    ensures Occurs(s') && Paired(s') && Listening(s') && s'.a == s.a && s'.ab == s.ab
    ensures s'.b.rx == Copies(two, k) && s'.b.pending == if k == 0 then {} else {2}
  {
    hide Occurs, OnWire, Arrive, Copies;
    s' := s;
    if k > 0 {
      var t := Stuff(s, two, k - 1);
      CopiesArrive(two, k - 1);
      s' := Settle(t, two, 2, Copies(two, k));
    }
  }

  /** For any two sessions and any payload some execution loses an acknowledged packet: packet 1 is
      evicted, it was refused and never accepted, nothing was delivered and the buffer is full - so
      in every continuation it stays that way. */
  lemma EvictedAndLost(i: SessionId, j: SessionId, payload: seq<Byte>) returns (s: System)
    ensures Occurs(s) && Lost(s.a, s.b, 1) && 1 in s.b.rx.refused && s.b.rx.delivered == []
  {
    hide Step, Occurs, WindowIds, Connected, Paired, OnWire, Survivors;
    var s0 := Connect(i, j);
    var s1, one, two := SendTwo(s0, payload);
    var s2 := Stuff(s1, two, RELIABLE_RECV_BUFFER_SIZE);
    s := LoseFirst(s2, one);
  }

  /** A full buffer without packet 1: packet 1 arrives, is announced, refused, acknowledged, evicted. */
  lemma LoseFirst(s: System, one: Packet) returns (s': System)
    requires Occurs(s) && Paired(s) && Listening(s) && OnTheWay(s, one, 1) && 1 in WindowIds(s.a.window)
    requires |s.b.rx.buffer| >= RELIABLE_RECV_BUFFER_SIZE && 1 !in s.b.rx.accepted && |s.b.pending| <= 3
    ensures Occurs(s') && Lost(s'.a, s'.b, 1) && s'.b.rx == s.b.rx.(refused := s.b.rx.refused + {1})
  {
    hide Occurs, OnWire, WindowIds, Survivors;
    var s1 := Settle(s, one, 1, s.b.rx.(refused := s.b.rx.refused + {1}));
    assert 1 in s1.b.pending && |s1.b.pending| <= 4;
    var ids;
    s', ids := AckBack(s1);
    assert 1 in ToSet(ids);
  }

  // ------------------------------------------------------------- no duplicates

  /** The buffer with packets 2, 3, 4, ... and packet 1 missing. */
  ghost function Gap(ps: seq<Packet>): Rx {
    Rx(ps, 0, [], set k | 0 <= k < |ps| :: ps[k].id, {})
  }

  ghost predicate FromTwo(ps: seq<Packet>) {
    forall k :: 0 <= k < |ps| ==> ps[k].id == k + 2
  }

  lemma GapArrive(ps: seq<Packet>, p: Packet)
    requires FromTwo(ps + [p]) && |ps| < RELIABLE_RECV_BUFFER_SIZE
    ensures Arrive(Gap(ps), p, [], Gap(ps + [p]))
  {
    var qs := ps + [p];
    assert qs[|ps|] == p && forall k :: 0 <= k < |ps| ==> qs[k] == ps[k];
    assert Delivery(qs, 0, [], qs, 0);
    assert Gap(qs).accepted == Gap(ps).accepted + {p.id};
  }

  /** Side a waits for the ACK of packet 1 only; side b has everything from 2 up to `|ps| + 1`. */
  ghost predicate Waiting(s: System, one: Packet, ps: seq<Packet>) {
    && Paired(s) && Listening(s) && OnTheWay(s, one, 1)
    && s.a.session.localControlPacketId == |ps| + 2 && s.a.queue == [] && s.a.pending == {}
    && |s.a.window| == 1 && s.a.window[0].packet.id == 1
    && s.b.pending == {} && s.b.rx == Gap(ps) && FromTwo(ps)
  }

  lemma SendOne(s: System, payload: seq<Byte>) returns (s': System, one: Packet)
    requires Occurs(s) && Connected(s)
    ensures Occurs(s') && Waiting(s', one, [])
  {
    hide Step, Flush, Occurs, Transmit;
    var s1 := NextA(s, Create(payload));
    OccursStep(s, s1);
    var s2 := NextA(s1, TakeOutgoing);
    OccursStep(s1, s2);
    var q := s2.a.window[0].packet;
    assert s2.a.window == [InFlight(0, 0, q, 0)];
    s' := NextA(s2, Tick(1));
    OccursStep(s2, s');
    FlushSingle(s2.a.window, s2.a.session, 1);
    FlushSingleKeeps(s2.a.window, s2.a.session, 1);
    TransmitIs(q);
    one := Canonical(q);
    assert Gap([]) == INITIAL;
  }

  lemma FlushSingleKeeps(w: seq<InFlight>, session: SessionState, t: int)
    requires |w| == 1 && Ready(w[0], t)
    ensures var f := Flush(w, {}, session, t);
            f.pending == {} && |f.window| == 1 && f.window[0].packet.id == w[0].packet.id
  {
    hide Enumerate;
    assert 0 in ReadyIndices(w, t);
    hide ReadyIndices;
    assert Enumerate({}) == [];
  }

  /** The next control packet is created, taken and sent. */
  lemma SendNext(s: System, one: Packet, ps: seq<Packet>, payload: seq<Byte>) returns (s': System, p: Packet)
    requires Occurs(s) && Waiting(s, one, ps) && |ps| < RELIABLE_RECV_BUFFER_SIZE
    ensures Occurs(s') && OnTheWay(s', p, |ps| + 2) && s'.b == s.b && Paired(s') && OnTheWay(s', one, 1)
    ensures s'.a.session.localControlPacketId == |ps| + 3 && s'.a.queue == [] && s'.a.pending == {}
    ensures |s'.a.window| == 2 && s'.a.window[0].packet.id == 1 && s'.a.window[1].packet.id == |ps| + 2
  {
    hide Step, Flush, Occurs, Transmit;
    var s1 := NextA(s, Create(payload));
    OccursStep(s, s1);
    var q := s1.a.queue[0];
    var s2 := NextA(s1, TakeOutgoing);
    OccursStep(s1, s2);
    assert s2.a.window == [s.a.window[0], InFlight(0, 0, q, 0)];
    s' := NextA(s2, Tick(1));
    OccursStep(s2, s');
    FlushBoth(s2.a.window, s2.a.session, 1);
    TransmitIs(q);
    p := Canonical(q);
    assert q in s'.ab;
  }

  /** It arrives, is buffered beyond the gap, acknowledged and evicted. */
  lemma Advance(s: System, one: Packet, ps: seq<Packet>, payload: seq<Byte>) returns (s': System, p: Packet)
    requires Occurs(s) && Waiting(s, one, ps) && |ps| < RELIABLE_RECV_BUFFER_SIZE
    ensures Occurs(s') && Waiting(s', one, ps + [p])
  {
    hide Occurs, OnWire;
    var s1;
    s1, p := SendNext(s, one, ps, payload);
    GapArrive(ps, p);
    hide Arrive, Gap;
    var s2 := Settle(s1, p, |ps| + 2, Gap(ps + [p]));
    var ids;
    s', ids := AckBack(s2);
    assert s2.b.pending == {|ps| + 2};
    OnlySecondLeaves(s2.a.window, ids);
  }

  lemma OnlySecondLeaves(w: seq<InFlight>, ids: seq<PacketId>)
    requires |w| == 2 && w[0].packet.id == 1 && w[1].packet.id != 1 && ToSet(ids) == {w[1].packet.id}
    ensures |Survivors(w, ids)| == 1 && Survivors(w, ids)[0].packet.id == 1
  {
    assert w[1].packet.id in ToSet(ids) && 1 !in ToSet(ids);
    assert w[1..] == [w[1]] && w[1..][1..] == [];
    assert Survivors(w[1..], ids) == [];
  }

  lemma {:induction false} AdvanceAll(s: System, one: Packet, payload: seq<Byte>, n: nat)
    returns (s': System, ps: seq<Packet>)
    requires Occurs(s) && Waiting(s, one, []) && n <= RELIABLE_RECV_BUFFER_SIZE
    ensures Occurs(s') && |ps| == n && Waiting(s', one, ps)
  {
    hide Occurs, Waiting;
    s', ps := s, [];
    if n > 0 {
      var t, qs := AdvanceAll(s, one, payload, n - 1);
      var p;
      s', p := Advance(t, one, qs, payload);
      ps := qs + [p];
    }
  }

  /** No packet arrives twice, and still an acknowledged packet is lost: the buffer holds twelve
      different packets, 2 to 13. */
  lemma LostWithoutDuplicates(i: SessionId, j: SessionId, payload: seq<Byte>) returns (s: System)
    ensures Occurs(s) && Lost(s.a, s.b, 1) && 1 in s.b.rx.refused && s.b.rx.delivered == []
    ensures DistinctIds(s.b.rx.buffer) && |s.b.rx.buffer| == RELIABLE_RECV_BUFFER_SIZE
  {
    hide Step, Occurs, Connected, Paired, OnWire;
    var s0 := Connect(i, j);
    var s1, one := SendOne(s0, payload);
    var s2, ps := AdvanceAll(s1, one, payload, RELIABLE_RECV_BUFFER_SIZE);
    assert s2.a.window[0].packet.id in WindowIds(s2.a.window);
    s := LoseFirst(s2, one);
  }

  // ------------------------------------------------------------- afterwards

  /** The continuation: whatever happens after such a state, packet 1 stays evicted and undelivered. */
  lemma LostInEveryContinuation(run: seq<System>, n: nat, m: nat, s: System)
    requires Execution(run) && n <= m < |run| && run[n] == s
    requires Lost(s.a, s.b, 1) && s.b.rx.delivered == []
    ensures 1 in run[m].a.evicted && run[m].b.rx.delivered == [] && !Landed(run[m].b, 1)
  {
    hide Execution, Landed;
    LostForever(run, n, m, 1);
  }
}
