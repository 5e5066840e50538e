/** The sender and its ticker over time (`internal/reliabletransport/sender.go`): when the timer
    is armed, what each tick sends, and that no deadline is slept through. */
module TimedSender {
  import opened Bytes
  import opened Packets
  import opened Sorting
  import opened Scheduling
  import opened Session
  import opened SenderSpec

  /** The move-down worker: the ticker was last reset at `resetAt` and fires at `armed`. */
  datatype Timed = Timed(window: seq<InFlight>, pending: set<PacketId>, armed: int, resetAt: int, now: int)

  datatype Event =
    | Outgoing(packet: Packet)      // a control packet to send
    | Incoming(seen: Seen)          // the receiver saw a packet
    | Tick                          // the ticker fired

  function AfterOutgoing(s: Timed, p: Packet, t: int): Timed {
    if |s.window| >= RELIABLE_SEND_BUFFER_SIZE then s.(now := t)
    else s.(window := s.window + [InFlight(0, 0, p, 0)], armed := t + NANOSECOND, resetAt := t, now := t)
  }

  function AfterIncoming(s: Timed, seen: Seen, t: int): Timed {
    var w, pending := Survivors(s.window, SeenAcks(seen)), AddPending(s.pending, seen.id);
    var wakeup := WakeupAfterAck(w, pending, t);
    if wakeup.Some? then Timed(w, pending, t + wakeup.value, t, t) else s.(window := w, pending := pending, now := t)
  }

  ghost function AfterTick(s: Timed, session: SessionState, t: int): Timed {
    var f := Flush(s.window, s.pending, session, t);
    Timed(f.window, f.pending, NearestDeadline(s.window, t), t, t)
  }

  /** One iteration of the worker's loop at time `t`. The ticker does not fire early. */
  ghost predicate Next(s: Timed, e: Event, session: SessionState, t: int, s': Timed) {
    && t >= s.now
    && match e
       case Outgoing(p) => s' == AfterOutgoing(s, p, t)
       case Incoming(seen) => s' == AfterIncoming(s, seen, t)
       case Tick => t >= s.armed && s' == AfterTick(s, session, t)
  }

  // ------------------------------------------------------------- one flush

  /** The earliest deadline is this very instant. */
  ghost predicate DueNow(w: seq<InFlight>, t: int) {
    && (exists i :: 0 <= i < |w| && w[i].deadline == t)
    && (forall i :: 0 <= i < |w| ==> w[i].deadline >= t)
  }

  /** The exact cases in which the ticker is reset with a delay that is not positive, which
      `Ticker.Reset` does not tolerate: at a tick, if the earliest deadline is this very instant;
      after an incoming packet, if moreover exactly one ACK is pending. */
  lemma ZeroDelayIff(w: seq<InFlight>, pending: set<PacketId>, t: int)
    ensures NearestDeadline(w, t) - t <= 0 <==> DueNow(w, t)
    ensures var wakeup := WakeupAfterAck(w, pending, t);
            wakeup.Some? && wakeup.value <= 0 <==> |pending| == 1 && DueNow(w, t)
  {
    NearestDeadlineMeaning(w, t);
    hide NearestDeadline;
  }

  /** A flush at `t` sends exactly the packets with a deadline before `t` or at least three ACKs for
      higher ids. Those have a new deadline `t` plus the next backoff interval, all others are left
      alone. */
  lemma FlushSendsWhatIsDue(s: Timed, session: SessionState, t: int, k: nat)
    requires k < |s.window|
    ensures var w' := AfterTick(s, session, t).window;
            && |w'| == |s.window|
            && w'[k].packet.id == s.window[k].packet.id
            && (s.window[k].higherAcks < 3 && s.window[k].deadline >= t ==> w'[k] == s.window[k])
            && (s.window[k].higherAcks >= 3 || s.window[k].deadline < t ==>
                  && w'[k].retries == s.window[k].retries + 1
                  && w'[k].deadline == t + Backoff(w'[k].retries)
                  && w'[k].higherAcks == s.window[k].higherAcks)
  {
    hide Enumerate, NearestDeadline;
    if Ready(s.window[k], t) {
      assert k in ReadyIndices(s.window, t);
    }
    hide ReadyIndices, Take4, Owed;
  }

  /** A packet to send is put at the end of the window and the ticker fires a nanosecond later, when
      the packet is due; with six in flight it is dropped and the ticker left alone. */
  lemma OutgoingIs(s: Timed, p: Packet, t: int)
    ensures var s' := AfterOutgoing(s, p, t);
            && s'.now == t && s'.pending == s.pending
            && (|s.window| >= 6 ==> s'.window == s.window && s'.armed == s.armed && s'.resetAt == s.resetAt)
            && (|s.window| < 6 ==>
                  && |s'.window| == |s.window| + 1 && s.window <= s'.window && s'.armed == t + 1 && s'.resetAt == t
                  && var f := s'.window[|s.window|];
                     f.packet == p && f.retries == 0 && f.higherAcks == 0 && (t > 0 ==> f.deadline < t))
  {}

  // ------------------------------------------------------------- over time

  ghost predicate FewRetries(w: seq<InFlight>) {
    forall k :: 0 <= k < |w| ==> w[k].retries <= 33
  }

  /** No deadline lies further in the future than the packet's current interval. */
  ghost predicate Timely(s: Timed) {
    && 0 <= s.now
    && forall k :: 0 <= k < |s.window| ==>
         if s.window[k].retries == 0 then s.window[k].deadline == 0
         else s.window[k].deadline <= s.now + Backoff(s.window[k].retries)
  }

  /** The ticker fires no later than the later of each deadline and one nanosecond after it was
      last reset. */
  ghost predicate Awake(s: Timed) {
    && s.resetAt <= s.now
    && s.resetAt <= s.armed <= s.resetAt + SENDER_TICKER
    && forall k :: 0 <= k < |s.window| ==> s.armed <= s.window[k].deadline || s.armed <= s.resetAt + NANOSECOND
  }

  lemma OutgoingKeeps(s: Timed, p: Packet, t: int)
    requires Timely(s) && Awake(s) && t >= s.now
    ensures Timely(AfterOutgoing(s, p, t)) && Awake(AfterOutgoing(s, p, t))
  {
    hide Backoff;
  }

  lemma SurvivorsTimes(w: seq<InFlight>, acks: seq<PacketId>, k: nat)
    requires k < |Survivors(w, acks)|
    ensures var s := Survivors(w, acks)[k];
            exists i :: 0 <= i < |w| && s.deadline == w[i].deadline && s.retries == w[i].retries
  {
    SurvivorsFrom(w, acks, k);
  }

  lemma IncomingKeepsTimely(s: Timed, seen: Seen, t: int)
    requires Timely(s) && t >= s.now
    ensures Timely(AfterIncoming(s, seen, t))
  {
    hide Backoff, Survivors, WakeupAfterAck, AddPending;
    var s' := AfterIncoming(s, seen, t);
    forall k | 0 <= k < |s'.window|
      ensures if s'.window[k].retries == 0 then s'.window[k].deadline == 0
              else s'.window[k].deadline <= t + Backoff(s'.window[k].retries)
    {
      SurvivorsTimes(s.window, SeenAcks(seen), k);
    }
  }

  lemma IncomingKeepsAwake(s: Timed, seen: Seen, t: int)
    requires Awake(s) && t >= s.now
    ensures Awake(AfterIncoming(s, seen, t))
  {
    hide Survivors, AddPending, NearestDeadline;
    var s' := AfterIncoming(s, seen, t);
    NearestDeadlineMeaning(s'.window, t);
    if s'.resetAt != t || s'.armed != t + NANOSECOND {
      forall k | 0 <= k < |s'.window|
        ensures s'.armed <= s'.window[k].deadline || s'.armed <= s'.resetAt + NANOSECOND
      {
        SurvivorsTimes(s.window, SeenAcks(seen), k);
      }
    }
  }

  /** Rescheduling never brings a deadline forward. */
  lemma RescheduleLater(p: InFlight, now: int, t: int)
    requires 0 <= now <= t && p.retries < 33
    requires if p.retries == 0 then p.deadline == 0 else p.deadline <= now + Backoff(p.retries)
    ensures t < t + Backoff(p.retries + 1) && p.deadline <= t + Backoff(p.retries + 1)
  {
    BackoffNonDecreasing(p.retries, p.retries + 1);
    BackoffExact(p.retries + 1);
    hide Backoff, WrappedProduct;
    assert IdealBackoff(p.retries + 1) > 0;
  }

  lemma TickKeeps(s: Timed, session: SessionState, t: int)
    requires Timely(s) && Awake(s) && t >= s.now && FewRetries(AfterTick(s, session, t).window)
    ensures Timely(AfterTick(s, session, t)) && Awake(AfterTick(s, session, t))
  {
    hide Backoff, NearestDeadline, Flush;
    var s' := AfterTick(s, session, t);
    NearestDeadlineMeaning(s.window, t);
    assert |s'.window| == |s.window| by {
      if s.window != [] { FlushSendsWhatIsDue(s, session, t, 0); } else { FlushEmpty(s, session, t); }
    }
    hide AfterTick;
    forall k | 0 <= k < |s'.window|
      ensures if s'.window[k].retries == 0 then s'.window[k].deadline == 0
              else s'.window[k].deadline <= t + Backoff(s'.window[k].retries)
      ensures s'.armed <= s'.window[k].deadline || s'.armed <= s'.resetAt + NANOSECOND
    {
      FlushSendsWhatIsDue(s, session, t, k);
      if Ready(s.window[k], t) {
        RescheduleLater(s.window[k], s.now, t);
      }
    }
  }

  lemma FlushEmpty(s: Timed, session: SessionState, t: int)
    requires s.window == []
    ensures AfterTick(s, session, t).window == []
  {
    ReadyIndicesNone(s.window, t);
    assert s.window[..0] == s.window;
  }

  /** A run of the worker: events at the given, never decreasing, times. */
  ghost predicate TimedRun(states: seq<Timed>, events: seq<Event>, times: seq<int>, session: SessionState) {
    && |states| == |events| + 1 && |times| == |events|
    && states[0].window == [] && states[0].armed == states[0].resetAt + SENDER_TICKER
    && states[0].resetAt == states[0].now && states[0].now >= 0
    && forall i :: 0 <= i < |events| ==> Next(states[i], events[i], session, times[i], states[i + 1])
  }

  /** In every run in which no packet is retried more than 33 times, the worker never oversleeps a
      deadline: at any moment the ticker is set to fire within a minute of its last reset and no
      later than each in-flight deadline, or else one nanosecond after that reset. */
  lemma {:induction false} NeverOversleeps(states: seq<Timed>, events: seq<Event>, times: seq<int>,
          session: SessionState, i: nat)
    requires TimedRun(states, events, times, session) && i < |states|
    requires forall j :: 0 <= j <= i ==> FewRetries(states[j].window)
    ensures Timely(states[i]) && Awake(states[i])
  {
    if i > 0 {
      NeverOversleeps(states, events, times, session, i - 1);
      hide Timely, Awake, FewRetries, AfterOutgoing, AfterIncoming, AfterTick;
      assert FewRetries(states[i].window);
      assert Next(states[i - 1], events[i - 1], session, times[i - 1], states[i]);
      match events[i - 1]
      case Outgoing(p) => OutgoingKeeps(states[i - 1], p, times[i - 1]);
      case Incoming(seen) =>
        IncomingKeepsTimely(states[i - 1], seen, times[i - 1]);
        IncomingKeepsAwake(states[i - 1], seen, times[i - 1]);
      case Tick => TickKeeps(states[i - 1], session, times[i - 1]);
    }
  }

  // ------------------------------------------------------------- a tick at the deadline

  lemma TimedRunSnoc(states: seq<Timed>, events: seq<Event>, times: seq<int>, session: SessionState, e: Event, t: int,
          s': Timed)
    requires TimedRun(states, events, times, session) && Next(states[|events|], e, session, t, s')
    ensures TimedRun(states + [s'], events + [e], times + [t], session)
  {
    hide Next;
    var ss, es, ts := states + [s'], events + [e], times + [t];
    forall i | 0 <= i < |es|
      ensures Next(ss[i], es[i], session, ts[i], ss[i + 1])
    {
      if i < |events| {
        assert Next(states[i], events[i], session, times[i], states[i + 1]);
      }
    }
  }

  lemma FlushOwesNothing(w: seq<InFlight>, session: SessionState, t: int)
    ensures Flush(w, {}, session, t).pending == {}
  {
    hide ReadyIndices, FlushWindow, FlushPackets, Enumerate;
    assert Enumerate({}) == [];
  }

  /** One packet in flight is sent at `t` if it is due and left alone otherwise. */
  lemma TickSingle(s: Timed, session: SessionState, t: int)
    requires |s.window| == 1
    ensures var p, s' := s.window[0], AfterTick(s, session, t);
            && |s'.window| == 1
            && s'.armed == (if p.deadline < t then t + NANOSECOND
                            else if p.deadline < t + SENDER_TICKER then p.deadline else t + SENDER_TICKER)
            && s'.resetAt == s'.now == t && s'.window[0].packet.id == p.packet.id
            && (s.pending == {} ==> s'.pending == {})
            && (!Ready(p, t) ==> s'.window[0] == p)
            && (Ready(p, t) ==>
                  && s'.window[0].retries == p.retries + 1
                  && s'.window[0].deadline == t + Backoff(p.retries + 1)
                  && s'.window[0].higherAcks == p.higherAcks)
  {
    hide Flush, Backoff;
    FlushSendsWhatIsDue(s, session, t, 0);
    FlushOwesNothing(s.window, session, t);
    MinDeadlineNone(s.window, t + SENDER_TICKER);
    MinDeadlineSnoc(s.window, 0, t + SENDER_TICKER);
    assert s.window[..1] == s.window;
  }

  /** `p`, sent once at 2, is the only packet in flight, and the ticker is set to its deadline. */
  ghost predicate SentOnce(s: Timed, p: Packet) {
    && |s.window| == 1 && s.pending == {} && s.now == 3 && s.armed == 2 + 2 * SECOND
    && s.window[0].packet.id == p.id && s.window[0].higherAcks == 0
    && s.window[0].retries == 1 && s.window[0].deadline == 2 + 2 * SECOND
  }

  lemma SendOnce(p: Packet, session: SessionState) returns (states: seq<Timed>, events: seq<Event>, times: seq<int>)
    ensures TimedRun(states, events, times, session) && |events| == 3 && SentOnce(states[3], p)
  {
    hide AfterTick, Backoff, TimedRun;
    var s0 := Timed([], {}, SENDER_TICKER, 0, 0);
    StartOfRun(s0, session);
    var s1 := AfterOutgoing(s0, p, 1);
    TimedRunSnoc([s0], [], [], session, Outgoing(p), 1, s1);
    assert s1.window == [InFlight(0, 0, p, 0)];
    FirstInterval();
    var s2 := AfterTick(s1, session, 2);
    TickSingle(s1, session, 2);
    var s3 := AfterTick(s2, session, 3);
    TickSingle(s2, session, 3);
    TimedRunSnoc([s0] + [s1], [] + [Outgoing(p)], [] + [1], session, Tick, 2, s2);
    TimedRunSnoc([s0] + [s1] + [s2], [] + [Outgoing(p)] + [Tick], [] + [1] + [2], session, Tick, 3, s3);
    states := [s0] + [s1] + [s2] + [s3];
    events := [] + [Outgoing(p)] + [Tick] + [Tick];
    times := [] + [1] + [2] + [3];
  }

  /** It happens: a packet handed over at 1 and sent at 2 has its deadline two seconds later, the
      ticker is set to that deadline, and if it fires on time it is reset with a delay of zero. */
  lemma ZeroDelayOccurs(p: Packet, session: SessionState)
    returns (states: seq<Timed>, events: seq<Event>, times: seq<int>)
    ensures TimedRun(states, events, times, session)
    ensures |events| == 4 && events[3] == Tick && times[3] == 2 + 2 * SECOND
    ensures states[4].armed == states[4].resetAt == times[3]
  {
    hide AfterTick, Backoff, TimedRun;
    var t := 2 + 2 * SECOND;
    states, events, times := SendOnce(p, session);
    assert |states| == 4 by { RunLengths(states, events, times, session); }
    var s := AfterTick(states[3], session, t);
    TickSingle(states[3], session, t);
    TimedRunSnoc(states, events, times, session, Tick, t, s);
    RunLengths(states, events, times, session);
    states, events, times := states + [s], events + [Tick], times + [t];
  }

  lemma RunLengths(states: seq<Timed>, events: seq<Event>, times: seq<int>, session: SessionState)
    requires TimedRun(states, events, times, session)
    ensures |states| == |events| + 1 && |times| == |events|
  {}

  lemma StartOfRun(s: Timed, session: SessionState)
    requires s.window == [] && s.armed == s.resetAt + SENDER_TICKER && s.resetAt == s.now >= 0
    ensures TimedRun([s], [], [], session)
  {}

  lemma FirstInterval()
    ensures Backoff(1) == 2 * SECOND
  {
    BackoffExact(1);
    assert Pow2(1) == 2;
  }

  // ------------------------------------------------------------- fast retransmission

  /** When a packet made due by three ACKs for higher ids is sent: the ticker is brought forward only
      for the ACKs the sender owes itself. With two or more of them it fires after a nanosecond, with
      one after 20 ms or at the next deadline, whichever is first; with none it stays as it was,
      however many packets are due. */
  lemma FastRetransmitDelay(s: Timed, seen: Seen, t: int)
    ensures var s' := AfterIncoming(s, seen, t);
            var next := NearestDeadline(s'.window, t);
            && (s'.pending == {} ==> s'.armed == s.armed && s'.resetAt == s.resetAt)
            && (|s'.pending| == 1 ==> s'.resetAt == t)
            && (|s'.pending| == 1 && next < t + 20_000_000 ==> s'.armed == next)
            && (|s'.pending| == 1 && next >= t + 20_000_000 ==> s'.armed == t + 20_000_000)
            && (|s'.pending| >= 2 ==> s'.resetAt == t && s'.armed == t + 1)
  {
    hide Survivors, AddPending, NearestDeadline;
    var s' := AfterIncoming(s, seen, t);
    WakeupAfterAckIs(s'.window, s'.pending, t);
  }

  /** So it can be due and still wait for the rest of its interval: a packet sent at 2 ns and passed
      over by three ACKs at 4 ns, with no ACK owed, is not sent before its deadline at 2 s. */
  lemma FastRetransmitWaits(p: Packet, acks: seq<PacketId>, session: SessionState)
    returns (states: seq<Timed>, events: seq<Event>, times: seq<int>)
    requires |acks| == 3 && forall i :: 0 <= i < 3 ==> acks[i] > p.id
    ensures TimedRun(states, events, times, session)
    ensures |events| == 4 && events[3] == Incoming(Seen(None, Some(acks))) && times[3] == 4
    ensures |states[4].window| == 1 && Ready(states[4].window[0], 4) && states[4].armed == 2 + 2 * SECOND
  {
    hide TimedRun;
    states, events, times := SendOnce(p, session);
    RunLengths(states, events, times, session);
    var seen := Seen(None, Some(acks));
    var s := AfterIncoming(states[3], seen, 4);
    PassedOver(states[3].window, acks);
    TimedRunSnoc(states, events, times, session, Incoming(seen), 4, s);
    states, events, times := states + [s], events + [Incoming(seen)], times + [4];
  }

  lemma PassedOver(w: seq<InFlight>, acks: seq<PacketId>)
    requires |w| == 1 && |acks| == 3 && forall i :: 0 <= i < 3 ==> acks[i] > w[0].packet.id
    ensures Survivors(w, acks) == [w[0].(higherAcks := w[0].higherAcks + 3)]
  {
    assert acks == [acks[0], acks[1], acks[2]];
    var id := w[0].packet.id;
    CountAboveConcat([acks[0]], [acks[1]], id);
    CountAboveConcat([acks[0]] + [acks[1]], [acks[2]], id);
    assert acks == [acks[0]] + [acks[1]] + [acks[2]];
    assert w[1..] == [];
  }

  // ------------------------------------------------------------- past 33 retries

  /** `p` is the only packet in flight, was just sent for the `n`-th time and has not been passed over. */
  ghost predicate SentTimes(s: Timed, p: Packet, n: nat) {
    && |s.window| == 1 && s.pending == {} && s.now >= 0 && s.resetAt == s.now && s.armed == s.now + NANOSECOND
    && s.window[0].packet.id == p.id && s.window[0].higherAcks == 0
    && s.window[0].retries == n && s.window[0].deadline == s.now + Backoff(n)
  }

  ghost predicate AllFewRetries(states: seq<Timed>) {
    forall j :: 0 <= j < |states| ==> FewRetries(states[j].window)
  }

  lemma BackoffPositive(n: nat)
    requires n <= 33
    ensures 0 < Backoff(n) <= MAX_BACKOFF
  {
    BackoffExact(n);
    hide Backoff, WrappedProduct;
  }

  /** The ticker fires a nanosecond after each deadline, `n` times over. */
  lemma {:induction false} Resend(p: Packet, session: SessionState, n: nat)
    returns (states: seq<Timed>, events: seq<Event>, times: seq<int>)
    requires 1 <= n <= 33
    ensures TimedRun(states, events, times, session) && |states| == |events| + 1
    ensures SentTimes(states[|events|], p, n) && AllFewRetries(states)
  {
    hide TimedRun, Backoff, AfterTick;
    if n == 1 {
      states, events, times := FirstSend(p, session);
    } else {
      states, events, times := Resend(p, session, n - 1);
      var s := states[|events|];
      var t := s.window[0].deadline + NANOSECOND;
      var s' := AfterTick(s, session, t);
      TickSingle(s, session, t);
      BackoffPositive(n - 1);
      TimedRunSnoc(states, events, times, session, Tick, t, s');
      RunLengths(states, events, times, session);
      states, events, times := states + [s'], events + [Tick], times + [t];
    }
  }

  lemma FirstSend(p: Packet, session: SessionState) returns (states: seq<Timed>, events: seq<Event>, times: seq<int>)
    ensures TimedRun(states, events, times, session) && |states| == |events| + 1
    ensures SentTimes(states[|events|], p, 1) && AllFewRetries(states)
  {
    hide TimedRun, Backoff, AfterTick;
    var s0 := Timed([], {}, SENDER_TICKER, 0, 0);
    StartOfRun(s0, session);
    var s1 := AfterOutgoing(s0, p, 1);
    assert s1.window == [InFlight(0, 0, p, 0)];
    TimedRunSnoc([s0], [], [], session, Outgoing(p), 1, s1);
    var s2 := AfterTick(s1, session, 2);
    TickSingle(s1, session, 2);
    TimedRunSnoc([s0] + [s1], [] + [Outgoing(p)], [] + [1], session, Tick, 2, s2);
    states := [s0] + [s1] + [s2];
    events := [] + [Outgoing(p)] + [Tick];
    times := [] + [1] + [2];
  }

  /** The bound is needed: after 33 retries a packet passed over by three ACKs is sent once more, the
      wrapped interval puts its deadline into the past, and the ticker is set to the deadline it had
      before - a minute away. */
  lemma OversleepsPast33(p: Packet, acks: seq<PacketId>, session: SessionState)
    returns (states: seq<Timed>, events: seq<Event>, times: seq<int>)
    requires |acks| == 3 && forall i :: 0 <= i < 3 ==> acks[i] > p.id
    ensures TimedRun(states, events, times, session) && |states| == |events| + 1
    ensures AllFewRetries(states[..|events|]) && !Awake(states[|events|])
    ensures var s := states[|events|]; |s.window| == 1 && s.window[0].retries == 34 && s.window[0].deadline < s.now
  {
    hide TimedRun, Backoff, AfterTick, Survivors;
    states, events, times := Resend(p, session, 33);
    RunLengths(states, events, times, session);
    var s, seen := states[|events|], Seen(None, Some(acks));
    var s1 := AfterIncoming(s, seen, s.now);
    PassedOver(s.window, acks);
    TimedRunSnoc(states, events, times, session, Incoming(seen), s.now, s1);
    states, events, times := states + [s1], events + [Incoming(seen)], times + [s.now];
    RunLengths(states, events, times, session);
    var s2 := AfterTick(s1, session, s1.armed);
    TickSingle(s1, session, s1.armed);
    LastInterval();
    TimedRunSnoc(states, events, times, session, Tick, s1.armed, s2);
    states, events, times := states + [s2], events + [Tick], times + [s1.armed];
    assert states[..|events|] == states[..|states| - 1];
  }

  lemma LastInterval()
    ensures Backoff(33) == MAX_BACKOFF && Backoff(34) < 0
  {
    BackoffIdealIff(34);
    BackoffIdealIff(33);
    assert IdealBackoff(33) == MAX_BACKOFF by {
      Pow2Monotone(6, 33);
      Pow2Values();
    }
  }
}
