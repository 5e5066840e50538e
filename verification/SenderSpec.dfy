/** What the reliable sender does, on values: which in-flight packets an ACK array leaves,
    when the timer fires next, and what one flush sends. The classes in module `Sender` are
    proved against these functions. */
module SenderSpec {
  import opened Bytes
  import opened Packets
  import opened Sorting
  import opened Scheduling
  import opened Session

  const RELIABLE_SEND_BUFFER_SIZE: nat := 6
  const MAX_ACKS_PER_OUTGOING_PACKET: nat := 4
  const ACK_SET_CAPACITY: nat := 8

  /** `inFlightPacket`: a packet with its retransmission metadata. */
  datatype InFlight = InFlight(deadline: int, higherAcks: nat, packet: Packet, retries: nat)

  /** Packet ids strictly ascend along the window. */
  ghost predicate AscendingWindow(w: seq<InFlight>) {
    forall i, j :: 0 <= i < j < |w| ==> w[i].packet.id < w[j].packet.id
  }

  ghost function WindowIds(w: seq<InFlight>): set<PacketId> {
    set i | 0 <= i < |w| :: w[i].packet.id
  }

  // ------------------------------------------------------------- ACKs received

  /** The ids in flight that an ACK array acknowledges. */
  ghost function Acknowledges(w: seq<InFlight>, acks: seq<PacketId>): set<PacketId> {
    set id | id in WindowIds(w) && id in acks
  }

  /** How many of the ACKs are for a higher id. */
  function CountAbove(acks: seq<PacketId>, id: PacketId): nat {
    if acks == [] then 0 else (if acks[0] > id then 1 else 0) + CountAbove(acks[1..], id)
  }

  function Mark(p: InFlight, acks: seq<PacketId>): InFlight {
    p.(higherAcks := p.higherAcks + CountAbove(acks, p.packet.id))
  }

  /** The packets of `w` that `acks` does not acknowledge, in order, each with its count of
      ACKs for higher ids brought up to date. */
  function Survivors(w: seq<InFlight>, acks: seq<PacketId>): seq<InFlight> {
    if w == [] then []
    else (if w[0].packet.id in acks then [] else [Mark(w[0], acks)]) + Survivors(w[1..], acks)
  }

  lemma {:induction false} CountAboveConcat(a: seq<PacketId>, b: seq<PacketId>, id: PacketId)
    ensures CountAbove(a + b, id) == CountAbove(a, id) + CountAbove(b, id)
  {
    if a == [] {
      assert a + b == b;
    } else {
      CountAboveConcat(a[1..], b, id);
      assert (a + b)[1..] == a[1..] + b;
    }
  }

  /** The positions of an ACK array that hold a higher id. */
  ghost function HigherAt(acks: seq<PacketId>, id: PacketId): set<nat> {
    set i: nat | i < |acks| && acks[i] > id
  }

  lemma {:induction false} CountAboveIs(acks: seq<PacketId>, id: PacketId)
    ensures CountAbove(acks, id) == |HigherAt(acks, id)|
  {
    if acks != [] {
      var init, last := acks[..|acks| - 1], acks[|acks| - 1];
      CountAboveIs(init, id);
      CountAboveConcat(init, [last], id);
      assert acks == init + [last];
      assert HigherAt(acks, id) == HigherAt(init, id) + if last > id then {|acks| - 1} else {};
    } else {
      assert HigherAt(acks, id) == {};
    }
  }

  /** Only the counter changes, by the number of ACKs with a higher id, counted with multiplicity. */
  lemma MarkIs(p: InFlight, acks: seq<PacketId>)
    ensures var q := Mark(p, acks);
            && q.packet == p.packet && q.deadline == p.deadline && q.retries == p.retries
            && q.higherAcks == p.higherAcks + |HigherAt(acks, p.packet.id)|
  {
    CountAboveIs(acks, p.packet.id);
  }

  /** Handling one ACK array after another is handling their concatenation. */
  lemma {:induction false} SurvivorsCompose(w: seq<InFlight>, a: seq<PacketId>, b: seq<PacketId>)
    ensures Survivors(Survivors(w, a), b) == Survivors(w, a + b)
  {
    if w != [] {
      SurvivorsCompose(w[1..], a, b);
      CountAboveConcat(a, b, w[0].packet.id);
      var m := Mark(w[0], a);
      var rest := Survivors(w[1..], a);
      if w[0].packet.id in a {
        assert Survivors(w, a) == rest;
      } else {
        assert Survivors(w, a) == [m] + rest;
        assert ([m] + rest)[1..] == rest;
        assert Mark(m, b) == Mark(w[0], a + b);
      }
    }
  }

  lemma {:induction false} SurvivorsNone(w: seq<InFlight>)
    ensures Survivors(w, []) == w
  {
    if w != [] {
      SurvivorsNone(w[1..]);
      assert Mark(w[0], []) == w[0];
      assert w == [w[0]] + w[1..];
    }
  }

  /** Every survivor is an unacknowledged packet of the window, bumped. */
  lemma {:induction false} SurvivorsFrom(w: seq<InFlight>, acks: seq<PacketId>, k: nat)
    requires k < |Survivors(w, acks)|
    ensures exists i :: 0 <= i < |w| && w[i].packet.id !in acks && Survivors(w, acks)[k] == Mark(w[i], acks)
  {
    if w[0].packet.id in acks {
      SurvivorsFrom(w[1..], acks, k);
      var i :| 0 <= i < |w[1..]| && w[1..][i].packet.id !in acks && Survivors(w[1..], acks)[k] == Mark(w[1..][i], acks);
      assert w[i + 1] == w[1..][i];
    } else if k == 0 {
      assert Survivors(w, acks)[0] == Mark(w[0], acks);
    } else {
      SurvivorsFrom(w[1..], acks, k - 1);
      var i :| 0 <= i < |w[1..]| && w[1..][i].packet.id !in acks
          && Survivors(w[1..], acks)[k - 1] == Mark(w[1..][i], acks);
      assert w[i + 1] == w[1..][i];
    }
  }

  /** Every unacknowledged packet survives, bumped. */
  lemma {:induction false} SurvivorsHas(w: seq<InFlight>, acks: seq<PacketId>, i: nat)
    requires i < |w| && w[i].packet.id !in acks
    ensures Mark(w[i], acks) in Survivors(w, acks)
  {
    if i > 0 {
      SurvivorsHas(w[1..], acks, i - 1);
    }
  }

  /** The survivors of an ascending window are ascending, and never more than before. */
  lemma {:induction false} SurvivorsAscending(w: seq<InFlight>, acks: seq<PacketId>)
    requires AscendingWindow(w)
    ensures AscendingWindow(Survivors(w, acks)) && |Survivors(w, acks)| <= |w|
  {
    if w != [] {
      var rest := Survivors(w[1..], acks);
      SurvivorsAscending(w[1..], acks);
      forall k | 0 <= k < |rest|
        ensures w[0].packet.id < rest[k].packet.id
      {
        SurvivorsFrom(w[1..], acks, k);
      }
    }
  }

  /** The ids that stay are those that were there and were not acknowledged. */
  lemma SurvivorsIds(w: seq<InFlight>, acks: seq<PacketId>)
    ensures WindowIds(Survivors(w, acks)) == set id | id in WindowIds(w) && id !in acks
  {
    var s := Survivors(w, acks);
    forall id | id in WindowIds(s)
      ensures id in WindowIds(w) && id !in acks
    {
      var k :| 0 <= k < |s| && s[k].packet.id == id;
      SurvivorsFrom(w, acks, k);
    }
    forall id | id in WindowIds(w) && id !in acks
      ensures id in WindowIds(s)
    {
      var i :| 0 <= i < |w| && w[i].packet.id == id;
      SurvivorsHas(w, acks, i);
    }
  }

  // ------------------------------------------------------------- ACKs to send

  function AddPending(pending: set<PacketId>, id: Option<PacketId>): (r: set<PacketId>) {
    if |pending| >= ACK_SET_CAPACITY || id.None? then pending else pending + {id.value}
  }

  /** An id becomes pending exactly if there is one and fewer than eight are pending; none is lost. */
  lemma AddPendingIs(pending: set<PacketId>, id: Option<PacketId>, x: PacketId)
    ensures x in AddPending(pending, id) <==> x in pending || (|pending| < 8 && id == Some(x))
  {}

  function Take4(ids: seq<PacketId>): seq<PacketId> {
    if |ids| <= MAX_ACKS_PER_OUTGOING_PACKET then ids else ids[..MAX_ACKS_PER_OUTGOING_PACKET]
  }

  function Drop4(ids: seq<PacketId>): seq<PacketId> {
    if |ids| <= MAX_ACKS_PER_OUTGOING_PACKET then [] else ids[MAX_ACKS_PER_OUTGOING_PACKET..]
  }

  /** The lowest pending ids, at most four. */
  ghost function NextAcks(pending: set<PacketId>): seq<PacketId> {
    Take4(Enumerate(pending))
  }

  ghost function RestAcks(pending: set<PacketId>): set<PacketId> {
    ToSet(Drop4(Enumerate(pending)))
  }

  lemma RestAcksEnumerates(pending: set<PacketId>)
    ensures Enumerate(RestAcks(pending)) == Drop4(Enumerate(pending))
    ensures RestAcks(pending) == pending - ToSet(NextAcks(pending))
  {
    var e := Enumerate(pending);
    assert e == Take4(e) + Drop4(e);
    AscendingSplit(Take4(e), Drop4(e));
    AscendingUnique(Enumerate(RestAcks(pending)), Drop4(e));
  }

  // ------------------------------------------------------------- timer

  function MinDeadline(w: seq<InFlight>, cap: int): int {
    if w == [] then cap
    else
      var m := MinDeadline(w[..|w| - 1], cap);
      if w[|w| - 1].deadline < m then w[|w| - 1].deadline else m
  }

  lemma MinDeadlineNone(w: seq<InFlight>, cap: int)
    ensures MinDeadline(w[..0], cap) == cap
  {
  }

  lemma MinDeadlineSnoc(w: seq<InFlight>, i: nat, cap: int)
    requires i < |w|
    ensures var m := MinDeadline(w[..i], cap);
            MinDeadline(w[..i + 1], cap) == if w[i].deadline < m then w[i].deadline else m
  {
    assert w[..i + 1][..i] == w[..i];
  }

  /** When to wake up next: the earliest deadline within a minute, but never in the past. */
  function NearestDeadline(w: seq<InFlight>, t: int): int {
    var timeout := MinDeadline(w, t + SENDER_TICKER);
    if timeout < t then t + NANOSECOND else timeout
  }

  predicate Ready(p: InFlight, t: int) {
    p.higherAcks >= FAST_RETRANSMIT_ACKS || p.deadline < t
  }

  lemma {:induction false} MinDeadlineMeaning(w: seq<InFlight>, cap: int)
    ensures MinDeadline(w, cap) <= cap
    ensures forall i :: 0 <= i < |w| ==> MinDeadline(w, cap) <= w[i].deadline
    ensures MinDeadline(w, cap) == cap || exists i :: 0 <= i < |w| && MinDeadline(w, cap) == w[i].deadline
  {
    if w != [] {
      MinDeadlineMeaning(w[..|w| - 1], cap);
    }
  }

  /** The armed wake-up lies in [t, t + 60s] and is no later than the later of any deadline and
      t + 1ns; it is exactly t only if the earliest deadline is exactly t. */
  lemma NearestDeadlineMeaning(w: seq<InFlight>, t: int)
    ensures t <= NearestDeadline(w, t) <= t + SENDER_TICKER
    ensures forall i :: 0 <= i < |w| ==>
              NearestDeadline(w, t) <= w[i].deadline || NearestDeadline(w, t) == t + NANOSECOND
    ensures NearestDeadline(w, t) == t <==>
            (exists i :: 0 <= i < |w| && w[i].deadline == t) && (forall i :: 0 <= i < |w| ==> w[i].deadline >= t)
  {
    MinDeadlineMeaning(w, t + SENDER_TICKER);
  }

  /** Exactly: one nanosecond if a deadline has passed, otherwise the earliest deadline, but at most a
      minute. */
  lemma NearestDeadlineExact(w: seq<InFlight>, t: int)
    ensures (exists i :: 0 <= i < |w| && w[i].deadline < t) ==> NearestDeadline(w, t) == t + 1
    ensures (forall i :: 0 <= i < |w| ==> w[i].deadline >= t) ==>
              && (forall i :: 0 <= i < |w| ==> NearestDeadline(w, t) <= w[i].deadline)
              && NearestDeadline(w, t) <= t + 60_000_000_000
              && (|| NearestDeadline(w, t) == t + 60_000_000_000
                  || exists i :: 0 <= i < |w| && w[i].deadline == NearestDeadline(w, t))
  {
    MinDeadlineMeaning(w, t + SENDER_TICKER);
    hide MinDeadline;
  }

  /** How long to wait after an incoming packet, if the timer is to be reset at all. */
  function WakeupAfterAck(w: seq<InFlight>, pending: set<PacketId>, t: int): Option<int> {
    if |pending| <= 0 then None
    else if |pending| >= 2 then Some(NANOSECOND)
    else if NearestDeadline(w, t) - t > GRACE_PERIOD then Some(GRACE_PERIOD)
    else Some(NearestDeadline(w, t) - t)
  }

  /** Nothing pending: no reset. Two or more: at once. One: the next deadline, but not more than 20 ms,
      and the whole grace period if no deadline comes earlier. */
  lemma WakeupAfterAckIs(w: seq<InFlight>, pending: set<PacketId>, t: int)
    ensures var r := WakeupAfterAck(w, pending, t);
            && (r.None? <==> pending == {})
            && (|pending| >= 2 ==> r == Some(1))
            && (|pending| == 1 && NearestDeadline(w, t) >= t + 20_000_000 ==> r == Some(20_000_000))
            && (|pending| == 1 && NearestDeadline(w, t) < t + 20_000_000 ==> r == Some(NearestDeadline(w, t) - t))
  {}

  // ------------------------------------------------------------- flush

  function Scheduled(p: InFlight, t: int): InFlight {
    p.(retries := p.retries + 1, deadline := t + Backoff(p.retries + 1))
  }

  /** A packet as it leaves: rescheduled, and carrying the given ACKs. */
  function Sent(p: InFlight, t: int, acks: seq<PacketId>): InFlight {
    Scheduled(p, t).(packet := p.packet.(acks := acks))
  }

  /** The indices of the packets that are due, in order. */
  function ReadyIndices(w: seq<InFlight>, t: int): (r: seq<nat>)
    ensures forall m :: 0 <= m < |r| ==> r[m] < |w| && Ready(w[r[m]], t)
    ensures forall m, n :: 0 <= m < n < |r| ==> r[m] < r[n]
    ensures forall k :: 0 <= k < |w| && Ready(w[k], t) ==> k in r
  {
    if w == [] then []
    else
      var last := |w| - 1;
      var init := ReadyIndices(w[..last], t);
      assert forall k :: 0 <= k < last ==> w[..last][k] == w[k];
      if Ready(w[last], t) then init + [last] else init
  }

  lemma ReadyIndicesNone(w: seq<InFlight>, t: int)
    ensures ReadyIndices(w[..0], t) == []
  {
  }

  lemma ReadyIndicesSnoc(w: seq<InFlight>, i: nat, t: int)
    requires i < |w|
    ensures ReadyIndices(w[..i + 1], t) == ReadyIndices(w[..i], t) + if Ready(w[i], t) then [i] else []
  {
    assert w[..i + 1][..i] == w[..i];
  }

  /** How many packets before index `k` are due. */
  function ReadyBefore(w: seq<InFlight>, k: nat, t: int): nat
    requires k <= |w|
  {
    |ReadyIndices(w[..k], t)|
  }

  /** The ids still owed after `m` packets took four each. */
  function Owed(acks: seq<PacketId>, m: nat): seq<PacketId> {
    if 4 * m <= |acks| then acks[4 * m..] else []
  }

  /** Packet `k` of the window after a flush at `t`: if it is due it is rescheduled and takes the
      next four of the ids owed. */
  function FlushAt(w: seq<InFlight>, k: nat, t: int, acks: seq<PacketId>): InFlight
    requires k < |w|
  {
    if Ready(w[k], t) then Sent(w[k], t, Take4(Owed(acks, ReadyBefore(w, k, t)))) else w[k]
  }

  function FlushWindow(w: seq<InFlight>, t: int, acks: seq<PacketId>): (r: seq<InFlight>) {
    seq(|w|, k requires 0 <= k < |w| => FlushAt(w, k, t, acks))
  }

  /** The packets that leave, in window order. */
  function FlushPackets(w: seq<InFlight>, t: int, acks: seq<PacketId>): seq<Packet> {
    var idx := ReadyIndices(w, t);
    seq(|idx|, m requires 0 <= m < |idx| => w[idx[m]].packet.(acks := Take4(Owed(acks, m))))
  }

  lemma OwedStep(acks: seq<PacketId>, m: nat)
    ensures Drop4(Owed(acks, m)) == Owed(acks, m + 1)
  {
  }

  lemma {:induction false} ReadyBeforeIndex(w: seq<InFlight>, t: int, m: nat)
    requires m < |ReadyIndices(w, t)|
    ensures ReadyBefore(w, ReadyIndices(w, t)[m], t) == m
  {
    var last := |w| - 1;
    var v := w[..last];
    if m == |ReadyIndices(v, t)| {
      assert ReadyIndices(w, t)[m] == last;
    } else {
      ReadyBeforeIndex(v, t, m);
      var k := ReadyIndices(v, t)[m];
      assert w[..k] == v[..k];
    }
  }

  /** Updating the packets that are due one after the other gives the flushed window. */
  lemma FlushByIndices(w: seq<InFlight>, v: seq<InFlight>, t: int, owed: seq<PacketId>)
    requires |v| == |w|
    requires var idx := ReadyIndices(w, t);
             forall m :: 0 <= m < |idx| ==> v[idx[m]] == Sent(w[idx[m]], t, Take4(Owed(owed, m)))
    requires forall k :: 0 <= k < |w| && !Ready(w[k], t) ==> v[k] == w[k]
    ensures v == FlushWindow(w, t, owed)
  {
    var idx := ReadyIndices(w, t);
    forall k | 0 <= k < |w|
      ensures v[k] == FlushAt(w, k, t, owed)
    {
      if Ready(w[k], t) {
        var m :| 0 <= m < |idx| && idx[m] == k;
        ReadyBeforeIndex(w, t, m);
      }
    }
  }

  lemma OwedAll(acks: seq<PacketId>)
    ensures Owed(acks, 0) == acks
  {
  }

  datatype Flushed = Flushed(window: seq<InFlight>, pending: set<PacketId>, sent: seq<Packet>)

  /** `blockOnTryingToSend`: everything that is due, with piggybacked ACKs; or, if nothing is
      due, one standalone ACK packet. */
  ghost function Flush(w: seq<InFlight>, pending: set<PacketId>, session: SessionState, t: int): Flushed {
    var due := |ReadyIndices(w, t)|;
    if due > 0 then
      var owed := Enumerate(pending);
      Flushed(FlushWindow(w, t, owed), ToSet(Owed(owed, due)), FlushPackets(w, t, owed))
    else if pending == {} then
      Flushed(w, pending, [])
    else
      var ack := IssueAck(session, NextAcks(pending));
      Flushed(w, RestAcks(pending), if ack.Ok? then [ack.value] else [])
  }

  /** What the receiver tells the sender about an incoming packet. */
  datatype Seen = Seen(id: Option<PacketId>, acks: Option<seq<PacketId>>)

  function SeenAcks(seen: Seen): seq<PacketId> {
    if seen.acks.None? then [] else seen.acks.value
  }

  // ------------------------------------------------------------- ACK conservation

  ghost function ConcatAcks(ps: seq<Packet>): seq<PacketId> {
    if ps == [] then [] else ConcatAcks(ps[..|ps| - 1]) + ps[|ps| - 1].acks
  }

  lemma OwedSplit(acks: seq<PacketId>, m: nat, taken: seq<PacketId>)
    requires taken + Owed(acks, m) == acks
    ensures taken + Take4(Owed(acks, m)) + Owed(acks, m + 1) == acks
  {
    OwedStep(acks, m);
    var o := Owed(acks, m);
    assert o == Take4(o) + Drop4(o);
  }

  lemma FlushPacketsShape(w: seq<InFlight>, t: int, acks: seq<PacketId>)
    ensures |FlushPackets(w, t, acks)| == |ReadyIndices(w, t)|
    ensures forall m :: 0 <= m < |ReadyIndices(w, t)| ==>
              && FlushPackets(w, t, acks)[m].acks == Take4(Owed(acks, m))
              && |FlushPackets(w, t, acks)[m].acks| <= MAX_ACKS_PER_OUTGOING_PACKET
  {
    hide ReadyIndices, Owed;
  }

  lemma ConcatSnoc(ps: seq<Packet>, m: nat)
    requires m < |ps|
    ensures ConcatAcks(ps[..m + 1]) == ConcatAcks(ps[..m]) + ps[m].acks
  {
    assert ps[..m + 1][..m] == ps[..m];
  }

  lemma {:induction false} ConcatOfFlush(w: seq<InFlight>, t: int, acks: seq<PacketId>, m: nat)
    requires m <= |ReadyIndices(w, t)|
    ensures |FlushPackets(w, t, acks)| == |ReadyIndices(w, t)|
    ensures ConcatAcks(FlushPackets(w, t, acks)[..m]) + Owed(acks, m) == acks
  {
    hide ReadyIndices, Owed, FlushPackets, Take4;
    var ps := FlushPackets(w, t, acks);
    FlushPacketsShape(w, t, acks);
    if m == 0 {
      OwedAll(acks);
      assert ps[..0] == [];
    } else {
      ConcatOfFlush(w, t, acks, m - 1);
      ConcatSnoc(ps, m - 1);
      OwedSplit(acks, m - 1, ConcatAcks(ps[..m - 1]));
    }
  }

  lemma OwedIsSuffix(acks: seq<PacketId>, k: nat)
    requires Ascending(acks)
    ensures var n := if |acks| <= 4 * k then |acks| else 4 * k;
            Owed(acks, k) == acks[n..] && Enumerate(ToSet(Owed(acks, k))) == acks[n..]
  {
    var o := Owed(acks, k);
    assert Ascending(o);
    AscendingUnique(Enumerate(ToSet(o)), o);
  }

  /** In one flush of k due packets the ACK arrays, one after the other, are the lowest
      min(|pending|, 4k) pending ids in ascending order, at most four to an array; exactly the
      others stay pending. So no id is lost, sent twice or invented. */
  lemma FlushConservesAcks(w: seq<InFlight>, pending: set<PacketId>, session: SessionState, t: int)
    requires ReadyIndices(w, t) != []
    ensures var f, owed, k := Flush(w, pending, session, t), Enumerate(pending), |ReadyIndices(w, t)|;
            var n := if |owed| <= 4 * k then |owed| else 4 * k;
            && |f.sent| == k
            && ConcatAcks(f.sent) == owed[..n]
            && Enumerate(f.pending) == owed[n..]
            && (forall m :: 0 <= m < k ==> |f.sent[m].acks| <= MAX_ACKS_PER_OUTGOING_PACKET)
  {
    hide Owed, Enumerate, ReadyIndices, FlushPackets, FlushWindow, ConcatAcks;
    var owed, k := Enumerate(pending), |ReadyIndices(w, t)|;
    var ps := FlushPackets(w, t, owed);
    FlushPacketsShape(w, t, owed);
    OwedIsSuffix(owed, k);
    assert ConcatAcks(ps) + Owed(owed, k) == owed by {
      ConcatOfFlush(w, t, owed, k);
      assert ps[..k] == ps;
    }
  }

  /** The ACK arrays of different packets of one flush share no id. */
  lemma FlushAcksDisjoint(w: seq<InFlight>, pending: set<PacketId>, session: SessionState, t: int, m: nat, n: nat)
    requires m < n < |ReadyIndices(w, t)|
    ensures var f := Flush(w, pending, session, t);
            |f.sent| == |ReadyIndices(w, t)| && ToSet(f.sent[m].acks) !! ToSet(f.sent[n].acks)
  {
    hide ReadyIndices, Enumerate, FlushWindow, FlushPackets, Take4, Owed;
    var owed := Enumerate(pending);
    ChunksDisjoint(owed, m, n);
    FlushPacketsShape(w, t, owed);
  }

  lemma ChunksDisjoint(owed: seq<PacketId>, m: nat, n: nat)
    requires m < n && Ascending(owed)
    ensures ToSet(Take4(Owed(owed, m))) !! ToSet(Take4(Owed(owed, n)))
  {
    var a, b := Take4(Owed(owed, m)), Take4(Owed(owed, n));
    forall x | x in a
      ensures x !in b
    {
      var i :| 0 <= i < |a| && a[i] == x;
      assert a[i] == owed[4 * m + i];
      assert forall j :: 0 <= j < |b| ==> b[j] == owed[4 * n + j];
    }
  }

  // ------------------------------------------------------------- what leaves

  /** The packets of a flush are the due ones, in window order, changed in their ACKs only; the window
      remembers each as it was sent and everything else as it was. */
  lemma FlushSendsDuePackets(w: seq<InFlight>, pending: set<PacketId>, session: SessionState, t: int, m: nat)
    requires m < |ReadyIndices(w, t)|
    ensures var f, k := Flush(w, pending, session, t), ReadyIndices(w, t)[m];
            && |f.sent| == |ReadyIndices(w, t)| && |f.window| == |w|
            && f.sent[m].(acks := []) == w[k].packet.(acks := [])
            && f.window[k].packet == f.sent[m]
  {
    hide ReadyIndices, Enumerate, Take4, Owed;
    ReadyBeforeIndex(w, t, m);
  }

  /** Nothing is due: if ACKs are owed and the remote session is known, exactly one packet leaves, a
      standalone ACK with the lowest four ids owed at most; the others stay owed, and the packets in
      flight are left alone. */
  lemma StandaloneAck(w: seq<InFlight>, pending: set<PacketId>, session: SessionState, t: int)
    requires forall k :: 0 <= k < |w| ==> w[k].higherAcks < 3 && w[k].deadline >= t
    requires pending != {} && session.remoteSessionId.Some?
    ensures var f, owed := Flush(w, pending, session, t), Enumerate(pending);
            var n := if |owed| <= 4 then |owed| else 4;
            && f.window == w && |f.sent| == 1 && Enumerate(f.pending) == owed[n..]
            && f.sent[0].opcode == 5 && f.sent[0].acks == owed[..n]
            && f.sent[0].localSessionId == session.localSessionId
            && Some(f.sent[0].remoteSessionId) == session.remoteSessionId
  {
    hide *;
    FlushWithNothingDue(w, pending, session, t);
    IssuedAckIs(session, NextAcks(pending));
    LowestFour(pending);
  }

  lemma LowestFour(pending: set<PacketId>)
    ensures var owed := Enumerate(pending);
            var n := if |owed| <= 4 then |owed| else 4;
            NextAcks(pending) == owed[..n] && Enumerate(RestAcks(pending)) == owed[n..]
  {
    RestAcksEnumerates(pending);
    hide Enumerate, RestAcks, ToSet, Ascending;
  }

  lemma FlushWithNothingDue(w: seq<InFlight>, pending: set<PacketId>, session: SessionState, t: int)
    requires forall k :: 0 <= k < |w| ==> w[k].higherAcks < 3 && w[k].deadline >= t
    requires pending != {} && session.remoteSessionId.Some?
    ensures Flush(w, pending, session, t) ==
            Flushed(w, RestAcks(pending), [IssueAck(session, NextAcks(pending)).value])
  {
    NothingReady(w, t);
    hide Enumerate, ReadyIndices, NextAcks, RestAcks, ToSet, Ascending, FlushWindow, FlushPackets, Owed, Ready;
  }

  /** With nothing due and nothing owed a flush does nothing. */
  lemma FlushIdle(w: seq<InFlight>, session: SessionState, t: int)
    requires forall k :: 0 <= k < |w| ==> w[k].higherAcks < 3 && w[k].deadline >= t
    ensures Flush(w, {}, session, t) == Flushed(w, {}, [])
  {
    NothingReady(w, t);
    hide ReadyIndices;
  }

  lemma {:induction false} NothingReady(w: seq<InFlight>, t: int)
    requires forall k :: 0 <= k < |w| ==> w[k].higherAcks < 3 && w[k].deadline >= t
    ensures ReadyIndices(w, t) == []
  {
    if w != [] {
      NothingReady(w[..|w| - 1], t);
    }
  }
}
