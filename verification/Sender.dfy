/** The reliable sender (`internal/reliabletransport/sender.go`): in-flight packets are objects
    in a fixed array of six slots, updated, swapped, truncated and sorted in place. */
module Sender {
  import opened Bytes
  import opened Packets
  import opened Sorting
  import opened Scheduling
  import opened Session
  import opened SenderSpec

  class InFlightPacket {
    const packet: Packet           // the packet as handed to the sender
    var acks: seq<PacketId>        // its ACK array, rewritten at every transmission
    var deadline: int
    var higherAcks: nat
    var retries: nat

    ghost function Value(): InFlight
      reads this
    {
      InFlight(deadline, higherAcks, packet.(acks := acks), retries)
    }

    constructor (p: Packet)
      ensures packet == p && Value() == InFlight(0, 0, p, 0)
    {
      packet, acks := p, p.acks;
      deadline, higherAcks, retries := 0, 0, 0;
    }

    method AckForHigherPacket()
      modifies this`higherAcks
      ensures higherAcks == old(higherAcks) + 1
    {
      higherAcks := higherAcks + 1;
    }

    method ScheduleForRetransmission(t: int)
      modifies this`retries, this`deadline
      ensures Value() == Scheduled(old(Value()), t)
    {
      retries := retries + 1;
      deadline := t + Backoff(retries);
    }
  }

  /** `ackSet`: the ids we still have to acknowledge. */
  class AckSet {
    var m: set<PacketId>

    constructor ()
      ensures m == {}
    {
      m := {};
    }

    method MaybeAdd(id: Option<PacketId>)
      modifies this
      ensures m == AddPending(old(m), id)
    {
      if |m| >= ACK_SET_CAPACITY {
        return;
      }
      if id.Some? {
        m := m + {id.value};
      }
    }

    method NextToAck() returns (next: seq<PacketId>)
      modifies this
      ensures next == NextAcks(old(m)) && m == RestAcks(old(m))
    {
      var ids := Sorted();
      if |ids| <= MAX_ACKS_PER_OUTGOING_PACKET {
        next := ids;
      } else {
        next := ids[..MAX_ACKS_PER_OUTGOING_PACKET];
      }
      Delete(next);
      RestAcksEnumerates(old(m));
    }

    method Delete(ids: seq<PacketId>)
      modifies this
      ensures m == old(m) - ToSet(ids)
    {
      var i := 0;
      while i < |ids|
        invariant 0 <= i <= |ids|
        invariant m == old(m) - ToSet(ids[..i])
      {
        assert ids[..i + 1] == ids[..i] + [ids[i]];
        m := m - {ids[i]};
        i := i + 1;
      }
      assert ids[..|ids|] == ids;
    }

    /** The ids in ascending order, however the map iterates. */
    method Sorted() returns (ids: seq<PacketId>)
      ensures ids == Enumerate(m)
    {
      ids := [];
      var rest := m;
      while rest != {}
        invariant rest !! ToSet(ids) && rest + ToSet(ids) == m
        invariant forall i, j :: 0 <= i < j < |ids| ==> ids[i] != ids[j]
        decreases rest
      {
        var id :| id in rest;
        assert id !in ToSet(ids);
        assert ToSet(ids + [id]) == ToSet(ids) + {id};
        ids := ids + [id];
        rest := rest - {id};
      }
      var a := new PacketId[|ids|](i requires 0 <= i < |ids| => ids[i]);
      assert a[..a.Length] == ids;
      InsertionSort(a, a.Length, (x: PacketId) => x);
      assert a[..a.Length] == a[..];
      SortedDistinct(ids, a[..]);
      ids := a[..];
    }
  }

  lemma SortedDistinct(ids: seq<PacketId>, s: seq<PacketId>)
    requires forall i, j :: 0 <= i < j < |ids| ==> ids[i] != ids[j]
    requires SortedBy(s, (x: PacketId) => x) && multiset(s) == multiset(ids)
    ensures s == Enumerate(ToSet(ids))
  {
    DistinctCounts(ids);
    forall i, j | 0 <= i < j < |s|
      ensures s[i] < s[j]
    {
      CountedTwice(s, i, j);
    }
    assert ToSet(s) == ToSet(ids) by {
      assert forall x :: x in s <==> x in multiset(s);
      assert forall x :: x in ids <==> x in multiset(ids);
    }
    AscendingUnique(s, Enumerate(ToSet(ids)));
  }

  // ------------------------------------------------------------- the window

  ghost predicate NonNull(os: seq<InFlightPacket?>) {
    forall k :: 0 <= k < |os| ==> os[k] != null
  }

  /** The values of a sequence of in-flight packets. */
  ghost function Values(os: seq<InFlightPacket?>): (r: seq<InFlight>)
    requires NonNull(os)
    reads os
    ensures |r| == |os| && forall k :: 0 <= k < |os| ==> r[k] == os[k].Value()
  {
    if os == [] then [] else [os[0].Value()] + Values(os[1..])
  }

  function Key(p: InFlightPacket?): int {
    if p == null then 0 else p.packet.id
  }

  ghost function BumpBelow(p: InFlight, acked: PacketId): InFlight {
    p.(higherAcks := p.higherAcks + if p.packet.id < acked then 1 else 0)
  }

  ghost function BumpAll(w: seq<InFlight>, acked: PacketId): (r: seq<InFlight>)
    ensures |r| == |w| && forall k :: 0 <= k < |w| ==> r[k] == BumpBelow(w[k], acked)
  {
    if w == [] then [] else [BumpBelow(w[0], acked)] + BumpAll(w[1..], acked)
  }

  class ReliableSender {
    const inFlight: array<InFlightPacket?>
    var len: nat
    const pendingAcksToSend: AckSet

    ghost predicate Shaped()
      reads this, inFlight
    {
      && inFlight.Length == RELIABLE_SEND_BUFFER_SIZE
      && len <= inFlight.Length
      && NonNull(inFlight[..len])
    }

    /** The window is strictly ascending by packet id. */
    ghost predicate Valid()
      reads this, inFlight
    {
      Shaped() && StrictlyBy(inFlight[..len], Key)
    }

    ghost function Window(): seq<InFlight>
      requires Shaped()
      reads this, inFlight, inFlight[..]
    {
      Values(inFlight[..len])
    }

    constructor ()
      ensures Valid() && Window() == [] && pendingAcksToSend.m == {}
      ensures fresh(inFlight) && fresh(pendingAcksToSend)
    {
      inFlight := new InFlightPacket?[RELIABLE_SEND_BUFFER_SIZE](_ => null);
      len := 0;
      pendingAcksToSend := new AckSet();
    }

    /** Appends the packet, unless six are already in flight. */
    method TryInsertOutgoingPacket(p: Packet) returns (inserted: bool)
      requires Shaped()
      modifies this`len, inFlight
      ensures Shaped()
      ensures old(Valid()) && (forall k :: 0 <= k < old(len) ==> old(Key(inFlight[k])) < p.id) ==> Valid()
      ensures inserted <==> |old(Window())| < RELIABLE_SEND_BUFFER_SIZE
      ensures inserted ==> Window() == old(Window()) + [InFlight(0, 0, p, 0)]
      ensures !inserted ==> Window() == old(Window())
    {
      hide Values;
      if len >= RELIABLE_SEND_BUFFER_SIZE {
        return false;
      }
      ghost var os := inFlight[..len];
      inFlight[len] := new InFlightPacket(p);
      len := len + 1;
      assert inFlight[..len] == os + [inFlight[len - 1]];
      return true;
    }

    /** One iteration of the eviction loop: bumps the packet at `i`, or evicts it by swapping it
        with the last element of the slice being ranged over. */
    method Visit(i: nat, n: nat, acked: PacketId) returns (hit: bool)
      requires i < n <= inFlight.Length && inFlight[i] != null
      modifies this`len, inFlight, {inFlight[i]}`higherAcks
      ensures hit <==> old(inFlight[i]).packet.id == acked
      ensures hit ==> len == n - 1 && inFlight[i] == old(inFlight[n - 1]) && inFlight[n - 1] == old(inFlight[i])
      ensures hit ==> forall k :: 0 <= k < inFlight.Length && k != i && k != n - 1 ==> inFlight[k] == old(inFlight[k])
      ensures !hit ==> len == old(len) && forall k :: 0 <= k < inFlight.Length ==> inFlight[k] == old(inFlight[k])
      ensures var p := old(inFlight[i]); p.higherAcks == old(inFlight[i].higherAcks) + if p.packet.id < acked then 1
              else 0
    {
      hit := false;
      var p := inFlight[i];
      if acked > p.packet.id {
        p.AckForHigherPacket();
      } else if acked == p.packet.id {
        inFlight[i], inFlight[n - 1] := inFlight[n - 1], inFlight[i];
        len := n - 1;
        hit := true;
      }
    }

    /** The loop that handles one ACK: ranges over the window as it was, bumping packets below
        `acked`, and on a match swaps with the last element and shortens the window while the
        loop goes on over the same array. `cut` is the matching index, or -1. */
    method MarkAndSwap(acked: PacketId) returns (ghost cut: int)
      requires Valid()
      modifies this`len, inFlight, inFlight[..len]`higherAcks
      ensures cut == -1 ==> len == old(len) && forall k :: 0 <= k < len ==> old(inFlight[k].packet.id) != acked
      ensures cut != -1 ==> 0 <= cut < old(len) && len == old(len) - 1 && old(inFlight[cut].packet.id) == acked
      ensures forall k :: 0 <= k < len ==> inFlight[k] == old(inFlight[if k == cut then len - 1 else k])
      ensures forall k :: 0 <= k < old(len) ==>
                old(inFlight[k]).higherAcks ==
                old(inFlight[k].higherAcks) + if old(inFlight[k]).packet.id < acked then 1 else 0
    {
      hide Values, StrictlyBy;
      ghost var os := inFlight[..len];
      ghost var w := Window();
      ghost var counts := seq(|w|, k requires 0 <= k < |w| => w[k].higherAcks);
      cut := -1;
      var n, i := len, 0;
      assert Swept(os, counts, 0, -1, acked);
      while i < n
        invariant 0 <= i <= n && Swept(os, counts, i, cut, acked)
      {
        cut := Sweep(i, n, acked, os, counts, cut);
        i := i + 1;
      }
    }

    /** The loop invariant: `os` is the window as it was, with counters `counts`; the packets before
        `i` have been visited and the one at `cut`, if any, has been swapped out. */
    ghost predicate Swept(os: seq<InFlightPacket?>, counts: seq<nat>, i: nat, cut: int, acked: PacketId)
      requires NonNull(os) && |os| == |counts| <= inFlight.Length
      reads this, inFlight, os
    {
      var n := |os|;
      && i <= n
      && (cut == -1 ==>
            && len == n && (forall k :: 0 <= k < n ==> inFlight[k] == os[k])
            && forall k :: 0 <= k < i ==> os[k].packet.id != acked)
      && (cut != -1 ==>
            && 0 <= cut < i && len == n - 1 && os[cut].packet.id == acked
            && inFlight[cut] == os[n - 1] && inFlight[n - 1] == os[cut]
            && forall k :: 0 <= k < n - 1 && k != cut ==> inFlight[k] == os[k])
      && forall k :: 0 <= k < n ==> os[k].higherAcks == counts[k] + if k < i && os[k].packet.id < acked then 1 else 0
    }

    method Sweep(i: nat, n: nat, acked: PacketId, ghost os: seq<InFlightPacket?>, ghost counts: seq<nat>,
            ghost cut: int)
      returns (ghost cut': int)
      requires NonNull(os) && StrictlyBy(os, Key) && i < n == |os| == |counts| <= inFlight.Length
      requires Swept(os, counts, i, cut, acked)
      modifies this`len, inFlight, os`higherAcks
      ensures Swept(os, counts, i + 1, cut', acked)
    {
      assert forall k :: i < k < n ==> Key(os[i]) < Key(os[k]);
      assert cut != -1 ==> Key(os[cut]) < Key(os[i]);
      var hit := Visit(i, n, acked);
      cut' := if hit && cut == -1 then i else cut;
    }

    /** `maybeEvictOrMarkWithHigherACK`: swapping while ranging, then sorting, leaves exactly the
        packets that are not acknowledged, in ascending order. */
    method MaybeEvictOrMarkWithHigherAck(acked: PacketId)
      requires Valid()
      modifies this`len, inFlight, inFlight[..len]`higherAcks
      ensures Valid()
      ensures Window() == Survivors(old(Window()), [acked])
      ensures forall o :: o in inFlight[..len] ==> o in old(inFlight[..len])
    {
      hide Survivors, Without, BumpAll, Mark, Values;
      ghost var os := inFlight[..len];
      ghost var w := Window();
      ghost var cut := MarkAndSwap(acked);
      SortInFlight(os, cut);
      assert Window() == Survivors(w, [acked]) by {
        ValuesWithout(os, cut, BumpAll(w, acked));
        SurvivorsOne(w, acked, cut);
      }
    }

    /** `OnIncomingPacketSeen`: notes the id to acknowledge and handles the whole ACK array. */
    method OnIncomingPacketSeen(seen: Seen)
      requires Valid()
      modifies this`len, inFlight, inFlight[..len]`higherAcks, pendingAcksToSend
      ensures Valid()
      ensures pendingAcksToSend.m == AddPending(old(pendingAcksToSend.m), seen.id)
      ensures Window() == Survivors(old(Window()), SeenAcks(seen))
      ensures forall o :: o in inFlight[..len] ==> o in old(inFlight[..len])
    {
      hide Survivors, Mark, Values;
      ghost var w := Window();
      pendingAcksToSend.MaybeAdd(seen.id);
      if seen.acks.None? {
        SurvivorsNone(w);
        return;
      }
      HandleAcks(seen.acks.value);
    }

    method HandleAcks(acks: seq<PacketId>)
      requires Valid()
      modifies this`len, inFlight, inFlight[..len]`higherAcks
      ensures Valid()
      ensures Window() == Survivors(old(Window()), acks)
      ensures forall o :: o in inFlight[..len] ==> o in old(inFlight[..len])
    {
      hide Survivors, Mark, Values, StrictlyBy, NonNull;
      ghost var w := Window();
      var i := 0;
      SurvivorsNone(w);
      while i < |acks|
        invariant 0 <= i <= |acks|
        invariant Valid()
        invariant Window() == Survivors(w, acks[..i])
        invariant forall o :: o in inFlight[..len] ==> o in old(inFlight[..len])
      {
        assert forall k :: 0 <= k < len ==> inFlight[..len][k] in old(inFlight[..len]);
        HandleAck(acks, i, w);
        i := i + 1;
      }
      assert acks[..i] == acks;
    }

    method HandleAck(acks: seq<PacketId>, i: nat, ghost w: seq<InFlight>)
      requires Valid() && i < |acks| && Window() == Survivors(w, acks[..i])
      modifies this`len, inFlight, inFlight[..len]`higherAcks
      ensures Valid()
      ensures Window() == Survivors(w, acks[..i + 1])
      ensures forall o :: o in inFlight[..len] ==> o in old(inFlight[..len])
    {
      hide Survivors, Mark, Values;
      SurvivorsCompose(w, acks[..i], [acks[i]]);
      assert acks[..i] + [acks[i]] == acks[..i + 1];
      MaybeEvictOrMarkWithHigherAck(acks[i]);
    }

    /** `nearestDeadlineTo`. */
    method NearestDeadlineTo(t: int) returns (timeout: int)
      requires Valid()
      ensures timeout == NearestDeadline(Window(), t)
    {
      hide Values, MinDeadline;
      timeout := t + SENDER_TICKER;
      var i := 0;
      MinDeadlineNone(Window(), t + SENDER_TICKER);
      while i < len
        invariant 0 <= i <= len
        invariant timeout == MinDeadline(Window()[..i], t + SENDER_TICKER)
      {
        var p := inFlight[i];
        MinDeadlineSnoc(Window(), i, t + SENDER_TICKER);
        assert Window()[i] == p.Value();
        if p.deadline < timeout {
          timeout := p.deadline;
        }
        i := i + 1;
      }
      assert Window()[..len] == Window();
      if timeout < t {
        timeout := t + NANOSECOND;
      }
    }

    /** `shouldWakeupAfterACK`. */
    method ShouldWakeupAfterAck(t: int) returns (should: bool, when: int)
      requires Valid()
      ensures should <==> WakeupAfterAck(Window(), pendingAcksToSend.m, t).Some?
      ensures should ==> when == WakeupAfterAck(Window(), pendingAcksToSend.m, t).value
    {
      if |pendingAcksToSend.m| <= 0 {
        return false, 60 * SECOND;
      }
      if |pendingAcksToSend.m| >= 2 {
        return true, NANOSECOND;
      }
      var timeout := NearestDeadlineTo(t);
      if timeout - t > GRACE_PERIOD {
        return true, GRACE_PERIOD;
      }
      return true, timeout - t;
    }

    /** `readyToSend`: the in-flight packets that are due, as references into the window. */
    method ReadyToSend(t: int) returns (expired: seq<InFlightPacket>)
      requires Valid()
      ensures |expired| == |ReadyIndices(Window(), t)|
      ensures forall m :: 0 <= m < |expired| ==> expired[m] == inFlight[ReadyIndices(Window(), t)[m]]
    {
      hide ReadyIndices, Values;
      ghost var w := Window();
      expired := [];
      var i := 0;
      ReadyIndicesNone(w, t);
      while i < len
        invariant 0 <= i <= len
        invariant |expired| == |ReadyIndices(w[..i], t)|
        invariant forall m :: 0 <= m < |expired| ==> expired[m] == inFlight[ReadyIndices(w[..i], t)[m]]
      {
        var p := inFlight[i];
        ReadyIndicesSnoc(w, i, t);
        if p.higherAcks >= FAST_RETRANSMIT_ACKS {
          expired := expired + [p];
        } else if p.deadline < t {
          expired := expired + [p];
        }
        i := i + 1;
      }
      assert w[..len] == w;
    }

    /** `blockOnTryingToSend`: re-arms the timer from the deadlines as they are, then sends what is
        due, or else the ACKs that are owed. */
    method BlockOnTryingToSend(session: Manager, now: int) returns (wakeup: int, sent: seq<Packet>)
      requires Valid()
      modifies inFlight[..len], pendingAcksToSend
      ensures Valid() && inFlight[..] == old(inFlight[..]) && len == old(len)
      ensures wakeup == NearestDeadline(old(Window()), now) - now
      ensures Flushed(Window(), pendingAcksToSend.m, sent) ==
              Flush(old(Window()), old(pendingAcksToSend.m), session.View(), now)
    {
      hide ReadyIndices, Values, Enumerate, NearestDeadline, FlushWindow, FlushPackets, Owed, NextAcks, RestAcks,
          IssueAck;
      var timeout := NearestDeadlineTo(now);
      wakeup := timeout - now;
      var scheduledNow := ReadyToSend(now);
      if |scheduledNow| > 0 {
        sent := SendAll(scheduledNow, now);
        return;
      }
      if pendingAcksToSend.m == {} {
        sent := [];
        return;
      }
      var ids := pendingAcksToSend.NextToAck();
      var ack := session.NewAckForPacketIds(ids);
      if ack.Err? {
        sent := [];
        return;
      }
      sent := [ack.value];
    }

    /** One transmission: reschedule, attach the next ACKs, emit. */
    method SendOne(p: InFlightPacket, now: int) returns (packet: Packet)
      modifies p, pendingAcksToSend
      ensures p.Value() == Sent(old(p.Value()), now, NextAcks(old(pendingAcksToSend.m)))
      ensures pendingAcksToSend.m == RestAcks(old(pendingAcksToSend.m))
      ensures packet == p.Value().packet
    {
      p.ScheduleForRetransmission(now);
      var acks := pendingAcksToSend.NextToAck();
      p.acks := acks;
      return p.packet.(acks := p.acks);
    }

    /** The flush loop over the packets that are due. */
    method SendAll(scheduledNow: seq<InFlightPacket>, now: int) returns (sent: seq<Packet>)
      requires Valid()
      requires |scheduledNow| == |ReadyIndices(Window(), now)|
      requires forall m :: 0 <= m < |scheduledNow| ==> scheduledNow[m] == inFlight[ReadyIndices(Window(), now)[m]]
      modifies inFlight[..len], pendingAcksToSend
      ensures Valid() && inFlight[..] == old(inFlight[..]) && len == old(len)
      ensures Window() == FlushWindow(old(Window()), now, Enumerate(old(pendingAcksToSend.m)))
      ensures pendingAcksToSend.m == ToSet(Owed(Enumerate(old(pendingAcksToSend.m)), |scheduledNow|))
      ensures sent == FlushPackets(old(Window()), now, Enumerate(old(pendingAcksToSend.m)))
    {
      hide ReadyIndices, Values, Enumerate, Take4, Owed, FlushWindow;
      ghost var w, owed := Window(), Enumerate(pendingAcksToSend.m);
      sent := SendScheduled(scheduledNow, now, w, owed);
      FlushByIndices(w, Window(), now, owed);
    }

    method SendScheduled(ps: seq<InFlightPacket>, now: int, ghost w: seq<InFlight>, ghost owed: seq<PacketId>)
      returns (sent: seq<Packet>)
      requires Valid() && w == Window() && owed == Enumerate(pendingAcksToSend.m)
      requires |ps| == |ReadyIndices(w, now)|
      requires forall m :: 0 <= m < |ps| ==> ps[m] == inFlight[ReadyIndices(w, now)[m]]
      modifies inFlight[..len], pendingAcksToSend
      ensures Valid() && inFlight[..] == old(inFlight[..]) && len == old(len)
      ensures pendingAcksToSend.m == ToSet(Owed(owed, |ps|))
      ensures |sent| == |ps|
      ensures var idx := ReadyIndices(w, now);
              forall m :: 0 <= m < |idx| ==>
                && Window()[idx[m]] == Sent(w[idx[m]], now, Take4(Owed(owed, m)))
                && sent[m] == Window()[idx[m]].packet
      ensures forall k :: 0 <= k < |w| && !Ready(w[k], now) ==> Window()[k] == w[k]
    {
      hide ReadyIndices, Values, Enumerate, Take4, Owed, Sent;
      sent := SendEach(ps, now);
    }

    method SendEach(ps: seq<InFlightPacket>, now: int) returns (sent: seq<Packet>)
      requires forall i, j :: 0 <= i < j < |ps| ==> ps[i] != ps[j]
      modifies ps, pendingAcksToSend
      ensures |sent| == |ps|
      ensures Enumerate(pendingAcksToSend.m) == Owed(Enumerate(old(pendingAcksToSend.m)), |ps|)
      ensures forall m :: 0 <= m < |ps| ==>
                && ps[m].Value() == Sent(old(ps[m].Value()), now, Take4(Owed(Enumerate(old(pendingAcksToSend.m)), m)))
                && sent[m] == ps[m].Value().packet
    {
      hide Enumerate, Take4, Drop4, Owed, RestAcks, Scheduled;
      ghost var owed := Enumerate(pendingAcksToSend.m);
      sent := [];
      var j := 0;
      OwedAll(owed);
      while j < |ps|
        invariant 0 <= j <= |ps|
        invariant Enumerate(pendingAcksToSend.m) == Owed(owed, j)
        invariant |sent| == j
        invariant forall m :: 0 <= m < j ==>
                    && ps[m].Value() == Sent(old(ps[m].Value()), now, Take4(Owed(owed, m)))
                    && sent[m] == ps[m].Value().packet
        invariant forall m :: j <= m < |ps| ==> ps[m].Value() == old(ps[m].Value())
      {
        RestAcksEnumerates(pendingAcksToSend.m);
        OwedStep(owed, j);
        var packet := SendOne(ps[j], now);
        sent := sent + [packet];
        j := j + 1;
      }
    }

    /** `sort.Sort(inflightSequence(r.inFlight))` after the swaps. */
    method SortInFlight(ghost os: seq<InFlightPacket?>, ghost cut: int)
      requires NonNull(os) && StrictlyBy(os, Key)
      requires len <= inFlight.Length && -1 <= cut < |os| && len == |Without(os, cut)|
      requires forall k :: 0 <= k < len ==> inFlight[k] == os[if k == cut then len else k]
      modifies inFlight
      ensures inFlight[..len] == Without(os, cut)
      ensures NonNull(inFlight[..len]) && StrictlyBy(inFlight[..len], Key)
      ensures forall o :: o in inFlight[..len] ==> o in os
    {
      SwapRemove(os, cut, inFlight[..len]);
      InsertionSort(inFlight, len, Key);
      SortedPermutation(inFlight[..len], Without(os, cut), Key);
    }
  }

  /** `s` without element `cut`, if there is one. */
  ghost function Without<T>(s: seq<T>, cut: int): (r: seq<T>)
    requires -1 <= cut < |s|
    ensures |r| == if cut == -1 then |s| else |s| - 1
    ensures forall k :: 0 <= k < |r| ==> r[k] == s[if cut == -1 || k < cut then k else k + 1]
  {
    if cut == -1 then s else s[..cut] + s[cut + 1..]
  }

  lemma ValuesWithout(os: seq<InFlightPacket?>, cut: int, vs: seq<InFlight>)
    requires NonNull(os) && -1 <= cut < |os| == |vs|
    requires forall k :: 0 <= k < |os| ==> os[k].Value() == vs[k]
    ensures NonNull(Without(os, cut))
    ensures Values(Without(os, cut)) == Without(vs, cut)
  {
  }

  lemma SwapRemove<T>(s: seq<T>, cut: int, t: seq<T>)
    requires -1 <= cut < |s| && |t| == |Without(s, cut)|
    requires forall k :: 0 <= k < |t| ==> t[k] == s[if k == cut then |t| else k]
    ensures multiset(t) == multiset(Without(s, cut))
  {
    var n := |t|;
    if cut == -1 || cut == n {
      assert t == Without(s, cut);
    } else {
      var mid := s[cut + 1..n];
      assert t == s[..cut] + [s[n]] + mid;
      assert Without(s, cut) == s[..cut] + mid + [s[n]];
    }
  }

  lemma MarkOne(p: InFlight, acked: PacketId)
    ensures Mark(p, [acked]) == BumpBelow(p, acked)
  {
    assert [acked][1..] == [];
    assert CountAbove([acked], p.packet.id) == if p.packet.id < acked then 1 else 0;
  }

  lemma {:induction false} SurvivorsMiss(w: seq<InFlight>, acked: PacketId)
    requires forall k :: 0 <= k < |w| ==> w[k].packet.id != acked
    ensures Survivors(w, [acked]) == BumpAll(w, acked)
  {
    if w != [] {
      MarkOne(w[0], acked);
      SurvivorsMiss(w[1..], acked);
    }
  }

  /** One ACK on an ascending window: the match, if any, goes; the packets below are bumped. */
  lemma {:induction false} SurvivorsOne(w: seq<InFlight>, acked: PacketId, cut: int)
    requires AscendingWindow(w)
    requires -1 <= cut < |w|
    requires cut == -1 ==> forall k :: 0 <= k < |w| ==> w[k].packet.id != acked
    requires cut != -1 ==> w[cut].packet.id == acked
    ensures Survivors(w, [acked]) == Without(BumpAll(w, acked), cut)
  {
    hide Mark, BumpBelow, Without;
    var v := BumpAll(w, acked);
    if cut == -1 {
      SurvivorsMiss(w, acked);
      WithoutNone(v);
    } else if cut == 0 {
      SurvivorsMiss(w[1..], acked);
      WithoutFirst(v);
    } else {
      MarkOne(w[0], acked);
      SurvivorsOne(w[1..], acked, cut - 1);
      WithoutCons(v[0], BumpAll(w[1..], acked), cut - 1);
    }
  }

  lemma WithoutFirst<T>(s: seq<T>)
    requires s != []
    ensures Without(s, 0) == s[1..]
  {
  }

  lemma WithoutNone<T>(s: seq<T>)
    ensures Without(s, -1) == s
  {
  }

  lemma WithoutCons<T>(x: T, s: seq<T>, cut: int)
    requires 0 <= cut < |s|
    ensures Without([x] + s, cut + 1) == [x] + Without(s, cut)
  {
    var t := [x] + s;
    assert t[..cut + 1] == [x] + s[..cut];
    assert t[cut + 2..] == s[cut + 1..];
  }
}
