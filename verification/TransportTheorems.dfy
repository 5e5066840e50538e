/** The main results about the reliable transport, over every execution of the two-endpoint system. */
module TransportTheorems {
  import opened Bytes
  import opened Packets
  import opened Sorting
  import opened Session
  import opened SenderSpec
  import opened Receiver
  import opened Reorder
  import opened Transport
  import opened SenderRuns
  import opened TransportSafety

  /** What holds between a sending endpoint `x` and a receiving endpoint `y`, with `xy` what `x`
      sent and `yx` what `y` sent. */
  ghost predicate PairInv(x: Endpoint, y: Endpoint, xy: set<Packet>, yx: set<Packet>) {
    TxInv(x) && NetInv(x, xy) && RxInv(x, y) && OwesInv(y) && AckInv(x, y, yx)
  }

  ghost predicate SystemInv(s: System) {
    PairInv(s.a, s.b, s.ab, s.ba) && PairInv(s.b, s.a, s.ba, s.ab)
  }

  lemma InitialInv(s: System)
    requires Initial(s)
    ensures SystemInv(s)
  {
    TxInitial(s.a.session.localSessionId);
    TxInitial(s.b.session.localSessionId);
    assert BufferedIds(INITIAL) == {};
    hide TxInv;
  }

  /** A step of one endpoint keeps both directions. */
  lemma ActionKeepsPairs(x: Endpoint, y: Endpoint, xy: set<Packet>, yx: set<Packet>, act: Action, x': Endpoint,
          xy': set<Packet>)
    requires PairInv(x, y, xy, yx) && PairInv(y, x, yx, xy)
    requires Enabled(x, act, yx, y.session.localSessionId)
    requires x' == After(x, act, yx, y.session.localSessionId) && xy' == xy + Emits(x, act)
    ensures PairInv(x', y, xy', yx) && PairInv(y, x', yx, xy')
  {
    assert Numbered(y) by { TxInvParts(y); }
    hide TxInv, NetInv, RxInv, OwesInv, AckInv, After, Emits, Enabled, Numbered;
    var peer := y.session.localSessionId;
    ActionKeepsTx(x, act, yx, peer);
    ActionKeepsNet(x, act, yx, peer, xy);
    AfterKeepsIdentity(x, act, yx, peer);
    SenderKeepsRx(x, x', y);
    AckedKeepsAck(x, y, act, yx);
    ReceiverKeepsRx(y, x, act, yx);
    ActionKeepsOwes(y, x, act, yx);
    AckerKeepsAck(y, x, act, yx, xy);
  }

  lemma StepKeepsInv(s: System, s': System)
    requires SystemInv(s) && Step(s, s')
    ensures SystemInv(s')
  {
    hide PairInv, Enabled, After, Emits;
    var act :| StepA(s, act, s') || StepB(s, act, s');
    if StepA(s, act, s') {
      ActionKeepsPairs(s.a, s.b, s.ab, s.ba, act, s'.a, s'.ab);
    } else {
      ActionKeepsPairs(s.b, s.a, s.ba, s.ab, act, s'.b, s'.ba);
    }
  }

  lemma {:induction false} ExecutionInv(run: seq<System>, i: nat)
    requires Execution(run) && i < |run|
    ensures SystemInv(run[i])
  {
    hide SystemInv, Step;
    if i == 0 {
      InitialInv(run[0]);
    } else {
      ExecutionInv(run, i - 1);
      assert Step(run[i - 1], run[i]);
      StepKeepsInv(run[i - 1], run[i]);
    }
  }

  // ------------------------------------------------------------- the two directions

  /** The same system seen from the other side. */
  ghost function Flip(s: System): System {
    System(s.b, s.a, s.ba, s.ab)
  }

  ghost function FlipRun(run: seq<System>): (r: seq<System>)
    ensures |r| == |run| && forall k :: 0 <= k < |run| ==> r[k] == Flip(run[k])
  {
    seq(|run|, k requires 0 <= k < |run| => Flip(run[k]))
  }

  lemma FlipStep(s: System, s': System)
    requires Step(s, s')
    ensures Step(Flip(s), Flip(s'))
  {
    hide Enabled, After, Emits;
    var act :| StepA(s, act, s') || StepB(s, act, s');
    if StepA(s, act, s') {
      assert StepB(Flip(s), act, Flip(s'));
    } else {
      assert StepA(Flip(s), act, Flip(s'));
    }
  }

  lemma FlipExecution(run: seq<System>)
    requires Execution(run)
    ensures Execution(FlipRun(run))
  {
    hide Step, FlipRun;
    var r := FlipRun(run);
    forall k | 0 <= k < |r| - 1
      ensures Step(r[k], r[k + 1])
    {
      assert Step(run[k], run[k + 1]);
      FlipStep(run[k], run[k + 1]);
    }
    var i: SessionId, j: SessionId :| run[0] == System(InitialEndpoint(i), InitialEndpoint(j), {}, {});
    assert r[0] == System(InitialEndpoint(j), InitialEndpoint(i), {}, {});
  }

  // ------------------------------------------------------------- in-order delivery

  /** What the wire carries of packets, without the ACKs that were attached in transit. */
  ghost function Contents(ps: seq<Packet>): (r: seq<Packet>)
    ensures |r| == |ps| && forall k :: 0 <= k < |ps| ==> r[k] == Content(ps[k])
  {
    seq(|ps|, k requires 0 <= k < |ps| => Content(ps[k]))
  }

  lemma DeliveredAt(x: Endpoint, y: Endpoint, k: nat)
    requires RxInv(x, y) && k < |y.rx.delivered|
    ensures k < |x.created| && Content(y.rx.delivered[k]) == Content(x.created[k])
  {
    hide BufferedIds;
    assert Genuine(y.rx.delivered[k], x) && y.rx.delivered[k].id == k + 1;
  }

  lemma DeliveredIsPrefix(x: Endpoint, y: Endpoint)
    requires RxInv(x, y)
    ensures Contents(y.rx.delivered) <= Contents(x.created)
  {
    hide RxInv, Contents;
    var d := y.rx.delivered;
    forall k | 0 <= k < |d|
      ensures k < |x.created| && Content(d[k]) == Content(x.created[k])
    {
      DeliveredAt(x, y, k);
    }
    if d != [] {
      DeliveredAt(x, y, |d| - 1);
    }
  }

  ghost function Payloads(ps: seq<Packet>): (r: seq<seq<Byte>>)
    ensures |r| == |ps| && forall k :: 0 <= k < |ps| ==> r[k] == ps[k].payload
  {
    seq(|ps|, k requires 0 <= k < |ps| => ps[k].payload)
  }

  lemma PayloadsArePrefix(x: Endpoint, y: Endpoint)
    requires RxInv(x, y) && Recorded(x)
    ensures Payloads(y.rx.delivered) <= x.records
  {
    hide RxInv, Payloads;
    var d := y.rx.delivered;
    forall k | 0 <= k < |d|
      ensures k < |x.created| && d[k].payload == x.records[k]
    {
      DeliveredAt(x, y, k);
      assert Content(d[k]).payload == d[k].payload && Content(x.created[k]).payload == x.created[k].payload;
    }
    if d != [] {
      DeliveredAt(x, y, |d| - 1);
    }
  }

  lemma NeverWraps(x: Endpoint, y: Endpoint)
    requires TxInv(x) && RxInv(x, y)
    ensures |x.created| < MAX_UINT32
    ensures forall p :: !Wraps(y.rx.buffer + [p], y.rx.last)
  {
    TxInvParts(x);
    hide TxInv, BufferedIds, WindowOk, Queued, Accounted, Wraps;
    assert RefinesSet(y.rx);
    hide RefinesSet, RxInv;
    forall p
      ensures !Wraps(y.rx.buffer + [p], y.rx.last)
    {
      NoWrap(y.rx, p);
    }
  }

  /** In every execution what an endpoint hands up is a prefix, in order and without repeats, of
      the control packets its peer created; their ids stay below 2^32 - 1, so the 32-bit
      subtraction in the delivery loop never wraps. */
  lemma FifoSafety(run: seq<System>, i: nat)
    requires Execution(run) && i < |run|
    ensures Contents(run[i].b.rx.delivered) <= Contents(run[i].a.created)
    ensures Contents(run[i].a.rx.delivered) <= Contents(run[i].b.created)
    ensures |run[i].a.created| < MAX_UINT32 && |run[i].b.created| < MAX_UINT32
    ensures forall p :: !Wraps(run[i].b.rx.buffer + [p], run[i].b.rx.last)
    ensures forall p :: !Wraps(run[i].a.rx.buffer + [p], run[i].a.rx.last)
  {
    ExecutionInv(run, i);
    hide TxInv, RxInv, NetInv, OwesInv, AckInv, Wraps, Execution;
    NeverWraps(run[i].a, run[i].b);
    NeverWraps(run[i].b, run[i].a);
    DeliveredIsPrefix(run[i].a, run[i].b);
    DeliveredIsPrefix(run[i].b, run[i].a);
  }

  /** And their payloads are a prefix of the TLS records that the peer's control channel was given:
      what goes in at one side comes out at the other, in order, each record once. */
  lemma FifoRecords(run: seq<System>, i: nat)
    requires Execution(run) && i < |run|
    ensures Payloads(run[i].b.rx.delivered) <= run[i].a.records
    ensures Payloads(run[i].a.rx.delivered) <= run[i].b.records
  {
    ExecutionInv(run, i);
    TxInvParts(run[i].a);
    TxInvParts(run[i].b);
    hide TxInv, RxInv, NetInv, OwesInv, AckInv, Execution, Recorded, Numbered, Queued, WindowOk, Accounted;
    PayloadsArePrefix(run[i].a, run[i].b);
    PayloadsArePrefix(run[i].b, run[i].a);
  }

  // ------------------------------------------------------------- ACK soundness

  ghost predicate Landed(y: Endpoint, id: PacketId) {
    || (exists k :: 0 <= k < |y.rx.delivered| && y.rx.delivered[k].id == id)
    || id in BufferedIds(y.rx)
  }

  ghost predicate Holds(y: Endpoint, id: PacketId) {
    y.held.Some? && y.held.value.id == id
  }

  /** Where an acknowledged packet can be. */
  ghost predicate Safe(y: Endpoint, id: PacketId) {
    Landed(y, id) || Holds(y, id)
  }

  lemma EvictedReached(x: Endpoint, y: Endpoint, yx: set<Packet>, id: PacketId)
    requires TxInv(x) && RxInv(x, y) && OwesInv(y) && AckInv(x, y, yx) && id in x.evicted
    ensures Safe(y, id) || id in y.rx.refused
  {
    assert 1 <= id by {
      TxInvParts(x);
      assert id in WindowIds(x.window) + x.evicted + x.dropped;
    }
    hide TxInv;
    assert id in Reached(y);
    if id in y.rx.accepted {
      if id <= y.rx.last {
        assert y.rx.delivered[id - 1].id == id;
      } else {
        assert id in BufferedIds(y.rx);
      }
    }
  }

  /** Every packet a sender evicted because of an ACK was delivered by the peer, sits in its
      reorder buffer, is in the hands of its receive worker - or was refused by a full buffer. */
  lemma AckSoundness(run: seq<System>, i: nat, id: PacketId)
    requires Execution(run) && i < |run|
    ensures id in run[i].a.evicted ==> Safe(run[i].b, id) || id in run[i].b.rx.refused
    ensures id in run[i].b.evicted ==> Safe(run[i].a, id) || id in run[i].a.rx.refused
  {
    ExecutionInv(run, i);
    var s := run[i];
    hide TxInv, RxInv, NetInv, OwesInv, AckInv, Execution, Safe;
    if id in s.a.evicted {
      EvictedReached(s.a, s.b, s.ba, id);
    }
    if id in s.b.evicted {
      EvictedReached(s.b, s.a, s.ab, id);
    }
  }

  /** So a packet that was not refused and that the receive worker does not hold is delivered or
      buffered once it is evicted. */
  lemma AckSoundnessWithoutRefusal(run: seq<System>, i: nat, id: PacketId)
    requires Execution(run) && i < |run|
    ensures id in run[i].a.evicted && id !in run[i].b.rx.refused && !Holds(run[i].b, id) ==> Landed(run[i].b, id)
    ensures id in run[i].b.evicted && id !in run[i].a.rx.refused && !Holds(run[i].a, id) ==> Landed(run[i].a, id)
  {
    hide Execution, Landed, Holds;
    AckSoundness(run, i, id);
  }

  lemma LandedIff(x: Endpoint, y: Endpoint, id: PacketId)
    requires RxInv(x, y) && id >= 1
    ensures Landed(y, id) <==> id in y.rx.accepted
  {
    if id in y.rx.accepted && id <= y.rx.last {
      assert y.rx.delivered[id - 1].id == id;
    }
    assert Landed(y, id) && id !in BufferedIds(y.rx) ==> id <= y.rx.last;
  }

  /** Exactly: an evicted packet is delivered or buffered if and only if one of its arrivals was
      accepted. */
  lemma EvictedLandedIffAccepted(run: seq<System>, i: nat, id: PacketId)
    requires Execution(run) && i < |run|
    ensures id in run[i].a.evicted ==> (Landed(run[i].b, id) <==> id in run[i].b.rx.accepted)
    ensures id in run[i].b.evicted ==> (Landed(run[i].a, id) <==> id in run[i].a.rx.accepted)
  {
    ExecutionInv(run, i);
    SenderConservation(run, i, id);
    hide TxInv, RxInv, NetInv, OwesInv, AckInv, Execution, Landed, WindowIds, AscendingWindow;
    if id >= 1 {
      LandedIff(run[i].a, run[i].b, id);
      LandedIff(run[i].b, run[i].a, id);
    }
  }

  // ------------------------------------------------------------- acknowledged and lost

  /** `x` has evicted a packet that `y` has not accepted, and the buffer of `y` is full. */
  ghost predicate Lost(x: Endpoint, y: Endpoint, id: PacketId) {
    id in x.evicted && id !in y.rx.accepted && |y.rx.buffer| >= RELIABLE_RECV_BUFFER_SIZE
  }

  /** A full buffer stays as it is, whatever an endpoint does; and nobody takes back an eviction. */
  lemma ActionKeepsFull(e: Endpoint, act: Action, inbound: set<Packet>, peer: SessionId)
    requires Enabled(e, act, inbound, peer)
    ensures var e' := After(e, act, inbound, peer);
            && e.evicted <= e'.evicted
            && (|e.rx.buffer| >= RELIABLE_RECV_BUFFER_SIZE ==> e'.rx == e.rx.(refused := e'.rx.refused))
  {
    hide Flush, Survivors, AddPending, Delivery, Wraps;
  }

  lemma StepKeepsFull(s: System, s': System)
    requires Step(s, s')
    ensures s.a.evicted <= s'.a.evicted
    ensures |s.b.rx.buffer| >= RELIABLE_RECV_BUFFER_SIZE ==> s'.b.rx == s.b.rx.(refused := s'.b.rx.refused)
  {
    hide After, Enabled, Emits;
    var act :| StepA(s, act, s') || StepB(s, act, s');
    if StepA(s, act, s') {
      ActionKeepsFull(s.a, act, s.ba, s.b.session.localSessionId);
    } else {
      ActionKeepsFull(s.b, act, s.ab, s.a.session.localSessionId);
    }
  }

  /** In every execution, once a buffer is full nothing more is delivered there, and a packet that
      its sender evicted before it was accepted is lost for good. */
  lemma {:induction false} LostForever(run: seq<System>, i: nat, j: nat, id: PacketId)
    requires Execution(run) && i <= j < |run| && |run[i].b.rx.buffer| >= RELIABLE_RECV_BUFFER_SIZE
    ensures run[j].b.rx == run[i].b.rx.(refused := run[j].b.rx.refused)
    ensures Lost(run[i].a, run[i].b, id) ==> Lost(run[j].a, run[j].b, id) && !Landed(run[j].b, id)
  {
    hide Step, Landed;
    if i < j {
      LostForever(run, i, j - 1, id);
      assert Step(run[j - 1], run[j]);
      StepKeepsFull(run[j - 1], run[j]);
    }
    EvictedLandedIffAccepted(run, j, id);
  }

  /** The same for the other direction. */
  lemma LostForeverBack(run: seq<System>, i: nat, j: nat, id: PacketId)
    requires Execution(run) && i <= j < |run| && |run[i].a.rx.buffer| >= RELIABLE_RECV_BUFFER_SIZE
    ensures run[j].a.rx == run[i].a.rx.(refused := run[j].a.rx.refused)
    ensures Lost(run[i].b, run[i].a, id) ==> Lost(run[j].b, run[j].a, id) && !Landed(run[j].a, id)
  {
    FlipExecution(run);
    hide Execution, FlipRun, Landed;
    LostForever(FlipRun(run), i, j, id);
  }

  // ------------------------------------------------------------- inside the receive window

  /** Whatever side b holds is at most twelve beyond its mark and not buffered yet. */
  ghost predicate HeldFits(y: Endpoint) {
    y.held.Some? ==> FitsWindow(y.rx, y.held.value)
  }

  lemma FittingStep(s: System, s': System)
    requires SystemInv(s) && Step(s, s') && Tidy(s.b.rx) && HeldFits(s.b)
    ensures Tidy(s'.b.rx)
  {
    hide TxInv, NetInv, OwesInv, AckInv, Emits, Flush, Survivors, AddPending, Arrive, Tidy, FitsWindow, RefinesSet;
    var act :| StepA(s, act, s') || StepB(s, act, s');
    if StepB(s, act, s') && act.Insert? {
      var p := s.b.held.value;
      assert p.id < MAX_UINT32 by {
        TxInvParts(s.a);
        GenuineIds(s.a, p);
      }
      ArriveTidy(s.b.rx, p, act.ready, act.rx);
    }
  }

  /** In every execution in which whatever arrives at side b fits its window, nothing is ever refused
      there, and every packet that side a evicted is delivered, buffered or in the hands of the
      receive worker. */
  lemma {:induction false} NoRefusalInWindow(run: seq<System>, i: nat, id: PacketId)
    requires Execution(run) && i < |run| && forall j :: 0 <= j <= i ==> HeldFits(run[j].b)
    ensures Tidy(run[i].b.rx) && run[i].b.rx.refused == {}
    ensures id in run[i].a.evicted ==> Safe(run[i].b, id)
  {
    hide SystemInv, Step, Safe, RefinesSet;
    if i == 0 {
      InitialTidy();
    } else {
      NoRefusalInWindow(run, i - 1, id);
      ExecutionInv(run, i - 1);
      assert Step(run[i - 1], run[i]);
      FittingStep(run[i - 1], run[i]);
    }
    AckSoundness(run, i, id);
  }

  lemma InitialTidy()
    ensures Tidy(INITIAL)
  {
    assert BufferedIds(INITIAL) == {};
  }

  // ------------------------------------------------------------- accounting

  /** The window is strictly ascending with at most six packets, and a control id was handed to the
      sender exactly if it is in flight, evicted by an ACK or dropped at insertion: one of the
      three, and only one. */
  ghost predicate SenderAccounts(e: Endpoint, id: PacketId) {
    && |e.window| <= RELIABLE_SEND_BUFFER_SIZE && AscendingWindow(e.window)
    && WindowIds(e.window) !! e.evicted !! e.dropped
    && (id in WindowIds(e.window) + e.evicted + e.dropped <==> 1 <= id <= |e.created| - |e.queue|)
  }

  lemma SenderConservation(run: seq<System>, i: nat, id: PacketId)
    requires Execution(run) && i < |run|
    ensures SenderAccounts(run[i].a, id) && SenderAccounts(run[i].b, id)
  {
    ExecutionInv(run, i);
    TxInvParts(run[i].a);
    TxInvParts(run[i].b);
  }

  /** At index `j` the receive worker of side b accepts `p`, which is what arrived of `q`, a packet
      that side a had sent: it passes the session checks and its id is announced. */
  ghost predicate Carries(run: seq<System>, j: nat, q: Packet, p: Packet, id: PacketId) {
    && j + 1 < |run|
    && q in run[j].ab && q.id == id && Transmit(q) == Ok(p)
    && SanityOk(p, run[j].b.session) && p.opcode != P_ACK_V1 && p.id == id
    && run[j + 1].b == AfterReceive(run[j].b, p)
  }

  /** Before index `i`, side a sent a packet with this id and side b accepted it. */
  ghost predicate Earned(run: seq<System>, i: nat, id: PacketId) {
    exists j: nat, q: Packet, p: Packet :: Carries(run, j, q, p, id) && j < i
  }

  lemma StepAnnounces(s: System, s': System, id: PacketId) returns (q: Packet, p: Packet)
    requires SystemInv(s) && Step(s, s') && id in s'.b.announced && id !in s.b.announced
    ensures q in s.ab && q.id == id && Transmit(q) == Ok(p)
    ensures SanityOk(p, s.b.session) && p.opcode != P_ACK_V1 && p.id == id && s'.b == AfterReceive(s.b, p)
  {
    hide TxInv, NetInv, OwesInv, AckInv, RefinesSet, Emits, Flush, Survivors, AddPending, Arrive, OnWire, Transmit;
    var act :| StepA(s, act, s') || StepB(s, act, s');
    assert act.Receive?;
    p := act.packet;
    q := ArrivesFromSender(p, s.a, s.ab);
  }

  lemma {:induction false} AnnouncedEarned(run: seq<System>, i: nat, id: PacketId)
    requires Execution(run) && i < |run| && id in run[i].b.announced
    ensures Earned(run, i, id)
  {
    hide SystemInv, Step, SanityOk, Transmit;
    if i == 0 {
      assert false;
    } else if id in run[i - 1].b.announced {
      AnnouncedEarned(run, i - 1, id);
    } else {
      ExecutionInv(run, i - 1);
      assert Step(run[i - 1], run[i]);
      var q, p := StepAnnounces(run[i - 1], run[i], id);
      assert Carries(run, i - 1, q, p, id);
    }
  }

  lemma AcksAnnounced(run: seq<System>, i: nat, p: Packet)
    requires Execution(run) && i < |run|
    ensures var s := run[i];
            && |s.b.pending| <= ACK_SET_CAPACITY && s.b.pending <= s.b.announced && s.a.evicted <= s.b.announced
            && (p in s.ba ==> |p.acks| <= MAX_ACKS_PER_OUTGOING_PACKET && Subset(p.acks, s.b.announced))
  {
    ExecutionInv(run, i);
    hide TxInv, RxInv, Execution, Reached;
    assert p in run[i].ba ==> FromSender(p, run[i].b);
  }

  /** At most eight ids are owed at any time and four fit a packet. Every id that side b owes, every
      id in an ACK array it ever put on the network and every id that side a evicted was carried by
      a packet that side a had sent and side b had accepted before. */
  lemma AckConservation(run: seq<System>, i: nat, p: Packet, id: PacketId)
    requires Execution(run) && i < |run|
    ensures |run[i].b.pending| <= ACK_SET_CAPACITY
    ensures p in run[i].ba ==> |p.acks| <= MAX_ACKS_PER_OUTGOING_PACKET
    ensures id in run[i].b.pending || id in run[i].a.evicted || (p in run[i].ba && id in p.acks) ==> Earned(run, i, id)
  {
    hide Execution, Earned;
    AcksAnnounced(run, i, p);
    if id in run[i].b.announced {
      AnnouncedEarned(run, i, id);
    }
  }

  /** The same for the other direction. */
  lemma AckConservationBack(run: seq<System>, i: nat, p: Packet, id: PacketId)
    requires Execution(run) && i < |run|
    ensures |run[i].a.pending| <= ACK_SET_CAPACITY
    ensures p in run[i].ab ==> |p.acks| <= MAX_ACKS_PER_OUTGOING_PACKET
    ensures id in run[i].a.pending || id in run[i].b.evicted || (p in run[i].ab && id in p.acks) ==>
            Earned(FlipRun(run), i, id)
  {
    FlipExecution(run);
    hide Execution, FlipRun, Earned;
    AckConservation(FlipRun(run), i, p, id);
  }

  /** In every execution the session id an endpoint has learned is its peer's. */
  lemma LearnsThePeer(run: seq<System>, i: nat)
    requires Execution(run) && i < |run|
    ensures var a, b := run[i].a.session, run[i].b.session;
            && (a.remoteSessionId.Some? ==> a.remoteSessionId.value == b.localSessionId)
            && (b.remoteSessionId.Some? ==> b.remoteSessionId.value == a.localSessionId)
  {
    ExecutionInv(run, i);
    hide TxInv, NetInv, OwesInv, AckInv, Execution;
  }

  /** The muxer registers the sender of a hard reset. */
  lemma LearnIs(e: Endpoint, p: Packet, inbound: set<Packet>, peer: SessionId)
    requires Enabled(e, Learn(p), inbound, peer)
    ensures var e' := After(e, Learn(p), inbound, peer);
            && e'.session.remoteSessionId == Some(p.localSessionId)
            && e'.(session := e.session) == e && e'.session.(remoteSessionId := None) == e.session
  {}

  // ------------------------------------------------------------- what an arrival does

  /** A packet taken for sending goes to the end of the window, due at once and not yet sent, if fewer
      than six are in flight; otherwise it is dropped. */
  lemma TakeIs(e: Endpoint)
    requires e.queue != []
    ensures var e', p := AfterTake(e), e.queue[0];
            && e'.queue == e.queue[1..]
            && (|e.window| < 6 ==>
                  && |e'.window| == |e.window| + 1 && e.window <= e'.window && e'.dropped == e.dropped
                  && var f := e'.window[|e.window|];
                     f.packet == p && f.deadline == 0 && f.retries == 0 && f.higherAcks == 0)
            && (|e.window| >= 6 ==> e'.window == e.window && e'.dropped == e.dropped + {p.id})
  {}

  /** A packet of another session, or with ACKs addressed to another session, changes nothing. */
  lemma ForeignPacketIgnored(e: Endpoint, p: Packet)
    requires || e.session.remoteSessionId != Some(p.localSessionId)
             || (p.acks != [] && p.remoteSessionId != e.session.localSessionId)
    ensures AfterReceive(e, p) == e
  {}

  /** Any other packet, control packet or standalone ACK alike, evicts what its ACK array acknowledges;
      unless it is an ACK its id is owed from then on, if fewer than eight are; and only a control
      packet with data goes on to the reorder buffer. */
  lemma ArrivalTakesEffect(e: Endpoint, p: Packet)
    requires e.seen == [] && e.session.remoteSessionId == Some(p.localSessionId)
    requires p.acks != [] ==> p.remoteSessionId == e.session.localSessionId
    ensures AfterReceive(e, p).seen != []
    ensures var e' := AfterSeen(AfterReceive(e, p));
            && e'.evicted == e.evicted + (set id | id in WindowIds(e.window) && id in p.acks)
            && WindowIds(e'.window) == (set id | id in WindowIds(e.window) && id !in p.acks)
            && (p.opcode == 5 ==> e'.pending == e.pending)
            && (p.opcode != 5 && |e.pending| < 8 ==> e'.pending == e.pending + {p.id})
            && e'.held == (if p.opcode == 4 then Some(p) else None) && e'.rx == e.rx
  {
    hide Survivors, WindowIds;
    SurvivorsIds(e.window, p.acks);
    assert (e.seen + [SeenOf(p)])[0] == SeenOf(p);
  }

  // ------------------------------------------------------------- standalone ACKs

  lemma AckPacketIsGood(e: Endpoint, peer: SessionState)
    requires OwesInv(e) && Numbered(e) && e.pending != {}
    requires peer.remoteSessionId == Some(e.session.localSessionId)
    requires e.session.remoteSessionId == Some(peer.localSessionId)
    ensures var ack := IssueAck(e.session, NextAcks(e.pending));
            && ack.Ok? && SanityOk(ack.value, peer)
            && Marshal(ack.value).Ok? && Unmarshal(Marshal(ack.value).value) == Ok(ack.value)
  {
    hide Enumerate, Marshal, Unmarshal;
    AckSurvivesWire(e.session, NextAcks(e.pending));
  }

  lemma AckSurvivesWire(session: SessionState, ids: seq<PacketId>)
    requires session.remoteSessionId.Some? && session.keyId == 0 && 0 < |ids| <= 4
    ensures var ack := IssueAck(session, ids).value;
            Marshal(ack).Ok? && Unmarshal(Marshal(ack).value) == Ok(ack)
  {
    hide Unmarshal;
    var ack := IssueAck(session, ids).value;
    RoundTripIffWellFormed(ack, Marshal(ack).value);
  }

  /** An endpoint that owes an ACK, or has one announced, knows its peer's session: building a
      standalone ACK cannot fail, the packet survives the wire, and a peer that knows us accepts it. */
  ghost predicate AckReady(e: Endpoint, peer: SessionState) {
    && (e.pending != {} ==> IssueAck(e.session, NextAcks(e.pending)).Ok?)
    && ((exists k :: 0 <= k < |e.seen| && e.seen[k].id.Some?) ==> e.session.remoteSessionId.Some?)
    && (e.pending != {} && peer.remoteSessionId.Some? ==>
          var ack := IssueAck(e.session, NextAcks(e.pending)).value;
          && SanityOk(ack, peer)
          && Marshal(ack).Ok? && Unmarshal(Marshal(ack).value) == Ok(ack))
  }

  /** In every execution no ACK is lost after its ids were dequeued. */
  lemma StandaloneAckNeverFails(run: seq<System>, i: nat)
    requires Execution(run) && i < |run|
    ensures AckReady(run[i].a, run[i].b.session) && AckReady(run[i].b, run[i].a.session)
  {
    ExecutionInv(run, i);
    hide Execution, PairInv, AckReady;
    PairAckReady(run[i].a, run[i].b, run[i].ab, run[i].ba);
    PairAckReady(run[i].b, run[i].a, run[i].ba, run[i].ab);
  }

  lemma PairAckReady(x: Endpoint, y: Endpoint, xy: set<Packet>, yx: set<Packet>)
    requires PairInv(x, y, xy, yx) && PairInv(y, x, yx, xy)
    ensures AckReady(y, x.session)
  {
    assert Numbered(y) by { TxInvParts(y); }
    hide TxInv, NetInv, AckInv, RefinesSet, NextAcks, Marshal, Unmarshal, Reached;
    if y.pending != {} {
      assert y.announced != {};
      if x.session.remoteSessionId.Some? {
        AckPacketIsGood(y, x.session);
      }
    }
  }
}
