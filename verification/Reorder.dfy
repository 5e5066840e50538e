/** The reorder buffer over whole runs: it refines a set of accepted ids. */
module Reorder {
  import opened Bytes
  import opened Packets
  import opened Sorting
  import opened Receiver

  /** The receiver's state with the history of what was delivered, accepted and refused. */
  datatype Rx = Rx(
    buffer: seq<Packet>,
    last: PacketId,
    delivered: seq<Packet>,
    accepted: set<PacketId>,
    refused: set<PacketId>)

  const INITIAL: Rx := Rx([], 0, [], {}, {})

  ghost function BufferedIds(rx: Rx): set<PacketId> {
    set k | 0 <= k < |rx.buffer| :: rx.buffer[k].id
  }

  /** Inserting a packet and handing up what is ready, as one step. A refused packet leaves the
      buffer alone. */
  ghost predicate Arrive(s: Rx, p: Packet, ready: seq<Packet>, s': Rx) {
    if |s.buffer| >= RELIABLE_RECV_BUFFER_SIZE then
      ready == [] && s' == s.(refused := s.refused + {p.id})
    else
      && s'.accepted == s.accepted + {p.id}
      && s'.refused == s.refused
      && s'.delivered == s.delivered + ready
      && (!Wraps(s.buffer + [p], s.last) ==> Delivery(s.buffer + [p], s.last, ready, s'.buffer, s'.last))
  }

  /** What every run keeps: `last` is the largest n with 1..n all accepted, the delivered ids are
      1..n in order, and the buffered ids are the accepted ids above n. */
  ghost predicate RefinesSet(s: Rx) {
    && |s.delivered| == s.last < MAX_UINT32
    && (forall k :: 0 <= k < |s.delivered| ==> s.delivered[k].id == k + 1)
    && (forall n :: 1 <= n <= s.last ==> n in s.accepted)
    && s.last + 1 !in s.accepted
    && (forall id :: id in s.accepted ==> id < MAX_UINT32)
    && BufferedIds(s) == set id | id in s.accepted && id > s.last
  }

  lemma NoWrap(s: Rx, p: Packet)
    requires RefinesSet(s)
    ensures !Wraps(s.buffer + [p], s.last)
  {
  }

  /** Ids of the buffer after a delivery: exactly those of before that lie above the new mark. */
  lemma DeliveryIds(buf: seq<Packet>, last: int, ready: seq<Packet>, keep: seq<Packet>, last': int, id: PacketId)
    requires Delivery(buf, last, ready, keep, last')
    ensures (exists k :: 0 <= k < |keep| && keep[k].id == id) <==>
            id > last' && (exists k :: 0 <= k < |buf| && buf[k].id == id)
    ensures id == last' + 1 ==> forall k :: 0 <= k < |buf| ==> buf[k].id != id
  {
    forall k | 0 <= k < |keep|
      ensures keep[k].id > last' && keep[k] in buf
    {
      assert keep[k] in multiset(keep);
      assert keep[k] in multiset(buf);
    }
    forall k | 0 <= k < |buf| && buf[k].id > last'
      ensures buf[k] in keep
    {
      assert buf[k] in multiset(buf);
      assert buf[k] in multiset(keep);
    }
  }

  lemma ArriveBuffered(s: Rx, p: Packet, ready: seq<Packet>, s': Rx)
    requires RefinesSet(s) && Arrive(s, p, ready, s') && |s.buffer| < RELIABLE_RECV_BUFFER_SIZE
    ensures s'.last >= s.last
    ensures BufferedIds(s') == set id | id in s'.accepted && id > s'.last
    ensures forall id: PacketId :: id == s'.last + 1 ==> id !in s'.accepted
  {
    NoWrap(s, p);
    var buf := s.buffer + [p];
    assert forall k :: 0 <= k < |s.buffer| ==> buf[k] == s.buffer[k];
    forall id: PacketId
      ensures id in BufferedIds(s') <==> id in s'.accepted && id > s'.last
      ensures id == s'.last + 1 ==> id !in s'.accepted
    {
      DeliveryIds(buf, s.last, ready, s'.buffer, s'.last, id);
      assert (exists k :: 0 <= k < |buf| && buf[k].id == id) <==> id in BufferedIds(s) || id == p.id by {
        if id == p.id {
          assert buf[|s.buffer|].id == id;
        }
      }
    }
  }

  lemma ArriveDelivered(s: Rx, p: Packet, ready: seq<Packet>, s': Rx)
    requires RefinesSet(s) && Arrive(s, p, ready, s') && |s.buffer| < RELIABLE_RECV_BUFFER_SIZE
    requires p.id < MAX_UINT32
    ensures |s'.delivered| == s'.last < MAX_UINT32
    ensures forall k :: 0 <= k < |s'.delivered| ==> s'.delivered[k].id == k + 1
    ensures forall n :: 1 <= n <= s'.last ==> n in s'.accepted
  {
    NoWrap(s, p);
    var buf := s.buffer + [p];
    forall k | 0 <= k < |ready|
      ensures ready[k].id in s'.accepted && ready[k].id < MAX_UINT32
    {
      var j :| 0 <= j < |buf| && buf[j] == ready[k];
      if j < |s.buffer| {
        assert s.buffer[j].id in BufferedIds(s);
      }
    }
    assert ready != [] ==> ready[|ready| - 1].id == s'.last;
    forall n | 1 <= n <= s'.last
      ensures n in s'.accepted
    {
      if n > s.last {
        assert ready[n - s.last - 1].id == n;
      }
    }
  }

  lemma ArriveKeeps(s: Rx, p: Packet, ready: seq<Packet>, s': Rx)
    requires RefinesSet(s) && Arrive(s, p, ready, s')
    requires p.id < MAX_UINT32
    ensures RefinesSet(s')
  {
    if |s.buffer| < RELIABLE_RECV_BUFFER_SIZE {
      ArriveBuffered(s, p, ready, s');
      ArriveDelivered(s, p, ready, s');
    } else {
      assert BufferedIds(s') == BufferedIds(s);
    }
  }

  // ------------------------------------------------------------- runs

  ghost predicate Arrives(s: Rx, p: Packet, s': Rx) {
    exists ready :: Arrive(s, p, ready, s')
  }

  /** A run: packets arrive one after the other in any order, with any repetition. */
  ghost predicate Run(states: seq<Rx>, arrivals: seq<Packet>) {
    && |states| == |arrivals| + 1
    && states[0] == INITIAL
    && forall i :: 0 <= i < |arrivals| ==> Arrives(states[i], arrivals[i], states[i + 1])
  }

  ghost predicate SessionIds(arrivals: seq<Packet>) {
    forall i :: 0 <= i < |arrivals| ==> arrivals[i].id < MAX_UINT32
  }

  /** After every run the buffer refines the set of accepted ids. */
  lemma {:induction false} RunRefinesSet(states: seq<Rx>, arrivals: seq<Packet>, i: nat)
    requires Run(states, arrivals) && SessionIds(arrivals) && i < |states|
    ensures RefinesSet(states[i])
  {
    if i == 0 {
      assert BufferedIds(INITIAL) == {};
    } else {
      RunRefinesSet(states, arrivals, i - 1);
      var ready :| Arrive(states[i - 1], arrivals[i - 1], ready, states[i]);
      ArriveKeeps(states[i - 1], arrivals[i - 1], ready, states[i]);
    }
  }

  /** The ids the receiver handed up. */
  ghost function DeliveredIds(s: Rx): seq<PacketId> {
    seq(|s.delivered|, k requires 0 <= k < |s.delivered| => s.delivered[k].id)
  }

  lemma SetDetermines(s: Rx, t: Rx)
    requires RefinesSet(s) && RefinesSet(t) && s.accepted == t.accepted
    ensures s.last == t.last && BufferedIds(s) == BufferedIds(t) && DeliveredIds(s) == DeliveredIds(t)
  {
    assert s.last < t.last ==> s.last + 1 in t.accepted;
    assert t.last < s.last ==> t.last + 1 in s.accepted;
    assert forall k :: 0 <= k < |DeliveredIds(s)| ==> DeliveredIds(s)[k] == k + 1;
    assert forall k :: 0 <= k < |DeliveredIds(t)| ==> DeliveredIds(t)[k] == k + 1;
  }

  /** Two arrival orders that had the same ids accepted end with the same ids delivered, in the
      same order, and the same ids still buffered. */
  lemma ArrivalOrderIrrelevant(ss: seq<Rx>, xs: seq<Packet>, ts: seq<Rx>, ys: seq<Packet>)
    requires Run(ss, xs) && SessionIds(xs) && Run(ts, ys) && SessionIds(ys)
    requires ss[|xs|].accepted == ts[|ys|].accepted
    ensures ss[|xs|].last == ts[|ys|].last
    ensures BufferedIds(ss[|xs|]) == BufferedIds(ts[|ys|])
    ensures DeliveredIds(ss[|xs|]) == DeliveredIds(ts[|ys|])
  {
    RunRefinesSet(ss, xs, |xs|);
    RunRefinesSet(ts, ys, |ys|);
    SetDetermines(ss[|xs|], ts[|ys|]);
  }

  // ------------------------------------------------------------- capacity

  ghost predicate DistinctIds(b: seq<Packet>) {
    forall i, j :: 0 <= i < j < |b| ==> b[i].id != b[j].id
  }

  /** The arriving id is at most twelve beyond the mark and not buffered already. */
  ghost predicate FitsWindow(s: Rx, p: Packet) {
    p.id <= s.last + RELIABLE_RECV_BUFFER_SIZE && p.id !in BufferedIds(s)
  }

  lemma {:induction false} Pigeonhole(b: seq<Packet>, lo: int, n: nat)
    requires DistinctIds(b) && forall k :: 0 <= k < |b| ==> lo <= b[k].id < lo + n
    ensures |b| <= n
  {
    assert |b| > 0 ==> b[0].id < lo + n;
    if n > 0 && |b| > 0 {
      var top := lo + n - 1;
      if k :| 0 <= k < |b| && b[k].id == top {
        var c := b[..k] + b[k + 1..];
        assert forall i :: 0 <= i < |c| ==> c[i] == b[if i < k then i else i + 1];
        Pigeonhole(c, lo, n - 1);
      } else {
        Pigeonhole(b, lo, n - 1);
      }
    }
  }

  /** At most eleven distinct ids fit above the gap. */
  lemma RoomLeft(s: Rx)
    requires RefinesSet(s) && DistinctIds(s.buffer)
    requires forall k :: 0 <= k < |s.buffer| ==> s.buffer[k].id <= s.last + RELIABLE_RECV_BUFFER_SIZE
    ensures |s.buffer| < RELIABLE_RECV_BUFFER_SIZE
  {
    forall k | 0 <= k < |s.buffer|
      ensures s.buffer[k].id >= s.last + 2
    {
      assert s.buffer[k].id in BufferedIds(s);
    }
    Pigeonhole(s.buffer, s.last + 2, 11);
  }

  ghost predicate Tidy(s: Rx) {
    && RefinesSet(s)
    && DistinctIds(s.buffer)
    && (forall k :: 0 <= k < |s.buffer| ==> s.buffer[k].id <= s.last + RELIABLE_RECV_BUFFER_SIZE)
    && s.refused == {}
  }

  lemma KeepsDistinct(buf: seq<Packet>, last: int, ready: seq<Packet>, keep: seq<Packet>, last': int)
    requires Delivery(buf, last, ready, keep, last') && DistinctIds(buf)
    ensures DistinctIds(keep)
    ensures forall k :: 0 <= k < |keep| ==> keep[k] in buf
  {
    DistinctCounts(buf);
    forall k | 0 <= k < |keep|
      ensures keep[k] in buf && multiset(keep)[keep[k]] <= 1
    {
      assert keep[k] in multiset(buf);
    }
    forall i, j | 0 <= i < j < |keep|
      ensures keep[i].id != keep[j].id
    {
      CountedTwice(keep, i, j);
      assert keep[i] in buf && keep[j] in buf;
    }
  }

  lemma ArriveTidy(s: Rx, p: Packet, ready: seq<Packet>, s': Rx)
    requires Tidy(s) && FitsWindow(s, p) && p.id < MAX_UINT32 && Arrive(s, p, ready, s')
    ensures Tidy(s')
  {
    RoomLeft(s);
    ArriveKeeps(s, p, ready, s');
    NoWrap(s, p);
    var buf := s.buffer + [p];
    assert DistinctIds(buf) by {
      assert forall k :: 0 <= k < |s.buffer| ==> s.buffer[k].id in BufferedIds(s);
    }
    KeepsDistinct(buf, s.last, ready, s'.buffer, s'.last);
  }

  /** If every arriving id is at most twelve beyond the mark and not already buffered, then in
      every run no insert is ever refused. */
  lemma {:induction false} NeverRefused(states: seq<Rx>, arrivals: seq<Packet>, i: nat)
    requires Run(states, arrivals) && SessionIds(arrivals) && i < |states|
    requires forall k :: 0 <= k < |arrivals| ==> FitsWindow(states[k], arrivals[k])
    ensures Tidy(states[i]) && |states[i].buffer| < RELIABLE_RECV_BUFFER_SIZE
  {
    if i == 0 {
      assert BufferedIds(INITIAL) == {};
    } else {
      NeverRefused(states, arrivals, i - 1);
      assert Arrives(states[i - 1], arrivals[i - 1], states[i]);
      var ready :| Arrive(states[i - 1], arrivals[i - 1], ready, states[i]);
      ArriveTidy(states[i - 1], arrivals[i - 1], ready, states[i]);
      RoomLeft(states[i]);
    }
  }

  /** An arrival is accepted below twelve buffered packets and refused, changing nothing, from
      twelve on. */
  lemma AcceptedBelowCapacity(states: seq<Rx>, arrivals: seq<Packet>, k: nat)
    requires Run(states, arrivals) && k < |arrivals|
    ensures var s, s', id := states[k], states[k + 1], arrivals[k].id;
            if |s.buffer| < RELIABLE_RECV_BUFFER_SIZE then id in s'.accepted && s'.refused == s.refused
            else s' == s.(refused := s.refused + {id})
  {
    assert Arrives(states[k], arrivals[k], states[k + 1]);
  }

  /** Once twelve packets sit in the buffer nothing is ever delivered again: every later arrival
      is refused, also the one that would fill the gap. */
  lemma {:induction false} FullBufferIsFinal(states: seq<Rx>, arrivals: seq<Packet>, i: nat, j: nat)
    requires Run(states, arrivals) && i <= j < |states|
    requires |states[i].buffer| >= RELIABLE_RECV_BUFFER_SIZE
    ensures states[j].buffer == states[i].buffer && states[j].last == states[i].last
    ensures states[j].delivered == states[i].delivered && states[j].accepted == states[i].accepted
    ensures forall k :: i <= k < j ==> arrivals[k].id in states[j].refused
  {
    if i < j {
      FullBufferIsFinal(states, arrivals, i, j - 1);
      assert Arrives(states[j - 1], arrivals[j - 1], states[j]);
    }
  }

  /** Duplicates alone fill it: twelve copies of packet 2 and packet 1 is lost for good. */
  lemma DuplicatesFillBuffer(one: Packet, two: Packet) returns (states: seq<Rx>, arrivals: seq<Packet>)
    requires one.id == 1 && two.id == 2
    ensures Run(states, arrivals) && arrivals == seq(12, _ => two) + [one]
    ensures states[13].delivered == [] && 1 in states[13].refused
  {
    arrivals := seq(12, _ => two) + [one];
    var full := Copies(two, 12);
    states := seq(13, (k: nat) => Copies(two, k)) + [full.(refused := {1})];
    forall i | 0 <= i < 12
      ensures Arrives(states[i], arrivals[i], states[i + 1])
    {
      CopiesArrive(two, i);
      assert Arrive(states[i], arrivals[i], [], states[i + 1]);
    }
    assert Arrive(states[12], arrivals[12], [], states[13]);
    assert states[0] == INITIAL;
  }

  lemma CopiesArrive(two: Packet, k: nat)
    requires two.id == 2 && k < RELIABLE_RECV_BUFFER_SIZE
    ensures Arrive(Copies(two, k), two, [], Copies(two, k + 1))
  {
    assert Copies(two, k).buffer + [two] == Copies(two, k + 1).buffer;
    assert Delivery(Copies(two, k).buffer + [two], 0, [], Copies(two, k + 1).buffer, 0);
  }

  ghost function Copies(p: Packet, k: nat): Rx {
    Rx(seq(k, _ => p), 0, [], if k == 0 then {} else {p.id}, {})
  }
}
