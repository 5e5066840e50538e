/** The reliable receiver (`internal/reliabletransport/receiver.go`): a reorder buffer of twelve
    slots that is sorted in place and drained of consecutive ids. */
module Receiver {
  import opened Bytes
  import opened Packets
  import opened Sorting
  import opened Session
  import opened SenderSpec

  const RELIABLE_RECV_BUFFER_SIZE: nat := 12

  /** 32-bit unsigned subtraction and increment. */
  function Sub32(a: UInt32, b: UInt32): UInt32 {
    (a - b) % TWO_32
  }

  function Inc32(a: UInt32): UInt32 {
    (a + 1) % TWO_32
  }

  /** What a delivery does, whatever order equal ids were sorted in: `ready` are packets of the
      buffer with the ids right after `last`, as many as there are in a row; what stays is every
      packet beyond the next gap, with multiplicity; everything else has been consumed. */
  ghost predicate Delivery(buf: seq<Packet>, last: int, ready: seq<Packet>, keep: seq<Packet>, last': int) {
    && last' == last + |ready|
    && (forall k :: 0 <= k < |ready| ==> ready[k].id == last + 1 + k && ready[k] in buf)
    && (forall k :: 0 <= k < |keep| ==> keep[k].id > last' + 1)
    && (forall p: Packet :: p.id > last' ==> multiset(keep)[p] == multiset(buf)[p])
  }

  /** The only way the 32-bit arithmetic can wrap: everything up to 2^32 - 1 was consumed and a
      packet with id 0 is waiting. */
  ghost predicate Wraps(buf: seq<Packet>, last: PacketId) {
    last == MAX_UINT32 && exists k :: 0 <= k < |buf| && buf[k].id == 0
  }

  /** `incomingSanityChecks`: the packet comes from the session we talk to and, if it carries ACKs,
      is addressed to ours. */
  predicate SanityOk(p: Packet, session: SessionState) {
    && session.remoteSessionId == Some(p.localSessionId)
    && (p.acks != [] ==> p.remoteSessionId == session.localSessionId)
  }

  method IncomingSanityChecks(packet: Packet, session: Manager) returns (ok: bool)
    ensures ok <==> SanityOk(packet, session.View())
  {
    if session.remoteSessionId.None? || packet.localSessionId != session.remoteSessionId.value {
      return false;
    }
    if |packet.acks| == 0 {
      return true;
    }
    return packet.remoteSessionId == session.localSessionId;
  }

  /** `newIncomingPacketSeen`: an ACK packet has no id to acknowledge. */
  function SeenOf(p: Packet): Seen {
    Seen(if p.opcode == P_ACK_V1 then None else Some(p.id), Some(p.acks))
  }

  /** The sender learns the ACKs of every packet, and the id of every packet but an ACK. */
  lemma SeenIs(p: Packet)
    ensures SeenAcks(SeenOf(p)) == p.acks
    ensures p.opcode == 5 ==> SeenOf(p).id == None
    ensures p.opcode != 5 ==> SeenOf(p).id == Some(p.id)
  {}

  function PacketKey(p: Packet): int {
    p.id
  }

  class ReliableReceiver {
    var incomingPackets: array<Packet>
    var count: nat
    var lastConsumed: PacketId

    ghost predicate Valid()
      reads this
    {
      incomingPackets.Length == RELIABLE_RECV_BUFFER_SIZE && count <= RELIABLE_RECV_BUFFER_SIZE
    }

    ghost function Buffer(): (s: seq<Packet>)
      requires Valid()
      reads this, incomingPackets
    {
      incomingPackets[..count]
    }

    constructor ()
      ensures Valid() && Buffer() == [] && lastConsumed == 0 && fresh(incomingPackets)
    {
      incomingPackets := new Packet[RELIABLE_RECV_BUFFER_SIZE](_ => NewPacket(0, 0, []));
      count := 0;
      lastConsumed := 0;
    }

    /** Appends the packet unless the buffer is full; never looks at the id. */
    method MaybeInsertIncoming(p: Packet) returns (inserted: bool)
      requires Valid()
      modifies this`count, incomingPackets
      ensures Valid() && incomingPackets == old(incomingPackets)
      ensures inserted <==> |old(Buffer())| < RELIABLE_RECV_BUFFER_SIZE
      ensures Buffer() == if inserted then old(Buffer()) + [p] else old(Buffer())
    {
      if count >= RELIABLE_RECV_BUFFER_SIZE {
        return false;
      }
      incomingPackets[count] := p;
      count := count + 1;
      return true;
    }

    /** `NextIncomingSequence`: a delivery in plain integers if and only if the 32-bit ids do not wrap. */
    method NextIncomingSequence() returns (ready: seq<Packet>)
      requires Valid()
      modifies this, incomingPackets
      ensures Valid()
      ensures fresh(incomingPackets)
      ensures !Wraps(old(Buffer()), old(lastConsumed)) ==>
                Delivery(old(Buffer()), old(lastConsumed), ready, Buffer(), lastConsumed)
      ensures Wraps(old(Buffer()), old(lastConsumed)) ==> ready != [] && ready[0].id == 0
    {
      hide Delivery, Scanned, ScanState, Wraps;
      ghost var buf := Buffer();
      InsertionSort(incomingPackets, count, PacketKey);
      ghost var s := incomingPackets[..count];
      var last, i;
      ready, last, i := Scan();
      SortedDelivery(buf, s, lastConsumed, ready, i, last);
      KeepFrom(i);
      lastConsumed := last;
    }

    /** `keep = append(keep, r.incomingPackets[i:]...)`: a new array with what is left. */
    method KeepFrom(i: nat)
      requires Valid() && i <= count
      modifies this`incomingPackets, this`count
      ensures Valid() && fresh(incomingPackets)
      ensures Buffer() == old(Buffer())[i..]
    {
      var keep := new Packet[RELIABLE_RECV_BUFFER_SIZE](_ => NewPacket(0, 0, []));
      CopyTail(keep, i);
      incomingPackets := keep;
      count := count - i;
    }

    /** The loop over the sorted buffer: `i` is where it stopped. */
    method Scan() returns (ready: seq<Packet>, last: PacketId, i: nat)
      requires Valid() && SortedBy(incomingPackets[..count], PacketKey)
      ensures Scanned(incomingPackets[..count], lastConsumed, ready, last, i)
    {
      last := lastConsumed;
      ready := [];
      i := 0;
      ghost var s := incomingPackets[..count];
      while i < count
        invariant 0 <= i <= count
        invariant ScanState(s, lastConsumed, ready, last, i)
      {
        var p := incomingPackets[i];
        ScanStep(s, lastConsumed, ready, last, i);
        if Sub32(p.id, last) == 1 {
          ready := ready + [p];
          last := Inc32(last);
        } else if p.id > last {
          return;
        }
        i := i + 1;
      }
    }

    method CopyTail(keep: array<Packet>, i: nat)
      requires Valid() && i <= count && keep.Length == RELIABLE_RECV_BUFFER_SIZE && keep != incomingPackets
      modifies keep
      ensures forall k :: 0 <= k < count - i ==> keep[k] == incomingPackets[i + k]
    {
      var k := 0;
      while k < count - i
        invariant 0 <= k <= count - i
        invariant forall j :: 0 <= j < k ==> keep[j] == incomingPackets[i + j]
      {
        keep[k] := incomingPackets[i + k];
        k := k + 1;
      }
    }
  }

  /** The loop invariant: what has been scanned was delivered or is old. */
  ghost predicate ScanState(s: seq<Packet>, first: PacketId, ready: seq<Packet>, last: PacketId, i: nat) {
    && i <= |s|
    && (i == 0 ==> ready == [] && last == first)
    && (Wraps(s, first) ==> i > 0 ==> ready != [] && ready[0].id == 0)
    && (!Wraps(s, first) ==>
          && last == first + |ready|
          && (forall k :: 0 <= k < |ready| ==> ready[k].id == first + 1 + k && ready[k] in s)
          && (forall k :: 0 <= k < i ==> s[k].id <= last)
          && (last == MAX_UINT32 ==> forall k :: i <= k < |s| ==> s[k].id != 0))
  }

  /** Where the loop ends: at the end of the buffer or at the first gap. */
  ghost predicate Scanned(s: seq<Packet>, first: PacketId, ready: seq<Packet>, last: PacketId, i: nat) {
    && ScanState(s, first, ready, last, i)
    && (i == |s| || (s[i].id > last && Sub32(s[i].id, last) != 1))
    && (Wraps(s, first) ==> i > 0)
  }

  lemma ScanStep(s: seq<Packet>, first: PacketId, ready: seq<Packet>, last: PacketId, i: nat)
    requires SortedBy(s, PacketKey) && i < |s|
    requires ScanState(s, first, ready, last, i)
    ensures Sub32(s[i].id, last) == 1 ==> ScanState(s, first, ready + [s[i]], Inc32(last), i + 1)
    ensures Sub32(s[i].id, last) != 1 && s[i].id <= last ==> ScanState(s, first, ready, last, i + 1)
    ensures Wraps(s, first) && i == 0 ==> Sub32(s[0].id, last) == 1
  {
    assert forall k :: i <= k < |s| ==> PacketKey(s[i]) <= PacketKey(s[k]);
    if Wraps(s, first) {
      var k :| 0 <= k < |s| && s[k].id == 0;
      assert PacketKey(s[0]) <= PacketKey(s[k]);
    } else if Sub32(s[i].id, last) == 1 {
      assert last < MAX_UINT32 && s[i].id == last + 1;
    }
  }

  lemma SamePackets(s: seq<Packet>, t: seq<Packet>)
    requires multiset(s) == multiset(t)
    ensures forall p :: p in s <==> p in t
  {
    assert forall p :: p in s <==> p in multiset(s);
    assert forall p :: p in t <==> p in multiset(t);
  }

  lemma WrapsSame(s: seq<Packet>, t: seq<Packet>, first: PacketId)
    requires multiset(s) == multiset(t) && Wraps(s, first)
    ensures Wraps(t, first)
  {
    SamePackets(s, t);
    var k :| 0 <= k < |s| && s[k].id == 0;
    assert s[k] in t;
  }

  lemma TailCounts(s: seq<Packet>, i: nat, last: PacketId)
    requires i <= |s| && forall k :: 0 <= k < i ==> s[k].id <= last
    ensures forall p: Packet :: p.id > last ==> multiset(s[i..])[p] == multiset(s)[p]
  {
    assert s == s[..i] + s[i..];
    assert forall p :: p in s[..i] ==> p.id <= last;
  }

  lemma SortedDelivery(buf: seq<Packet>, s: seq<Packet>, first: PacketId, ready: seq<Packet>, i: nat, last: PacketId)
    requires multiset(s) == multiset(buf) && SortedBy(s, PacketKey)
    requires Scanned(s, first, ready, last, i)
    ensures i <= |s| && (Wraps(s, first) <==> Wraps(buf, first))
    ensures !Wraps(buf, first) ==> Delivery(buf, first, ready, s[i..], last)
    ensures Wraps(buf, first) ==> ready != [] && ready[0].id == 0
  {
    if Wraps(s, first) {
      WrapsSame(s, buf, first);
    } else if Wraps(buf, first) {
      WrapsSame(buf, s, first);
    } else {
      ScannedDelivers(buf, s, first, ready, i, last);
    }
  }

  lemma ScannedDelivers(buf: seq<Packet>, s: seq<Packet>, first: PacketId, ready: seq<Packet>, i: nat, last: PacketId)
    requires multiset(s) == multiset(buf) && SortedBy(s, PacketKey)
    requires Scanned(s, first, ready, last, i) && !Wraps(s, first)
    ensures Delivery(buf, first, ready, s[i..], last)
  {
    assert forall k :: 0 <= k < |ready| ==> ready[k] in buf by { SamePackets(s, buf); }
    assert forall p: Packet :: p.id > last ==> multiset(s[i..])[p] == multiset(buf)[p] by { TailCounts(s, i, last); }
    TailBeyondGap(s, i, last);
  }

  lemma TailBeyondGap(s: seq<Packet>, i: nat, last: PacketId)
    requires SortedBy(s, PacketKey) && i <= |s|
    requires i == |s| || (s[i].id > last && Sub32(s[i].id, last) != 1)
    ensures forall k :: 0 <= k < |s[i..]| ==> s[i..][k].id > last + 1
  {
    forall k | 0 <= k < |s[i..]|
      ensures s[i..][k].id > last + 1
    {
      assert PacketKey(s[i]) <= PacketKey(s[i + k]);
    }
  }
}
