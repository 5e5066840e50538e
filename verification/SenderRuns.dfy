/** What every step keeps on the sending side: ids are issued in order, the window is short and
    ascending, and every control id handed to the sender is accounted for exactly once. */
module SenderRuns {
  import opened Bytes
  import opened Packets
  import opened Sorting
  import opened Session
  import opened SenderSpec
  import opened Transport

  /** What the wire carries of a packet, apart from the ACKs attached in transit. */
  function Content(p: Packet): Packet {
    Canonical(p.(acks := []))
  }

  /** `p` is the packet created with its id, apart from the ACKs attached when it was sent and from
      fields that the wire does not carry. */
  ghost predicate Original(p: Packet, created: seq<Packet>) {
    1 <= p.id <= |created| && p.opcode == P_CONTROL_V1 && Content(p) == Content(created[p.id - 1])
  }

  /** The session numbers its control packets 1, 2, 3, ... and stops before 2^32 - 1. */
  ghost predicate Numbered(e: Endpoint) {
    && e.session.localControlPacketId == |e.created| + 1
    && e.session.keyId == 0
    && forall k :: 0 <= k < |e.created| ==>
         && e.created[k].id == k + 1 && e.created[k].opcode == P_CONTROL_V1 && e.created[k].acks == []
         && e.created[k].localSessionId == e.session.localSessionId
  }

  /** The packets created carry the records handed down, one each, until the ids run out. */
  ghost predicate Recorded(e: Endpoint) {
    && (|e.created| == |e.records| || (|e.created| < |e.records| && e.session.localControlPacketId == MAX_UINT32))
    && forall k :: 0 <= k < |e.created| ==> e.created[k].payload == e.records[k]
  }

  ghost predicate Queued(e: Endpoint) {
    |e.queue| <= |e.created| && e.queue == e.created[|e.created| - |e.queue|..]
  }

  /** How many control packets the sender has taken over so far. */
  ghost function Taken(e: Endpoint): int {
    |e.created| - |e.queue|
  }

  ghost predicate WindowOk(e: Endpoint) {
    && |e.window| <= RELIABLE_SEND_BUFFER_SIZE
    && AscendingWindow(e.window)
    && forall k :: 0 <= k < |e.window| ==> Original(e.window[k].packet, e.created) && e.window[k].packet.id <= Taken(e)
  }

  /** Each id taken over is in flight, evicted by an ACK or dropped at insertion: one of the
      three, and only one. */
  ghost predicate Accounted(e: Endpoint) {
    && WindowIds(e.window) !! e.evicted !! e.dropped
    && forall id: PacketId :: id in WindowIds(e.window) + e.evicted + e.dropped <==> 1 <= id <= Taken(e)
  }

  ghost predicate TxInv(e: Endpoint) {
    Numbered(e) && Recorded(e) && Queued(e) && WindowOk(e) && Accounted(e)
  }

  lemma OriginalGrows(p: Packet, created: seq<Packet>, more: seq<Packet>)
    requires Original(p, created) && created <= more
    ensures Original(p, more)
  {
  }

  lemma TxInitial(id: SessionId)
    ensures TxInv(InitialEndpoint(id))
  {
    var e := InitialEndpoint(id);
    assert WindowIds(e.window) == {};
  }

  lemma CreateKeepsTx(e: Endpoint, payload: seq<Byte>)
    requires TxInv(e)
    ensures TxInv(AfterCreate(e, payload))
  {
    var e' := AfterCreate(e, payload);
    if e'.created != e.created {
      assert e'.created[..|e.created|] == e.created;
      assert e'.queue == e'.created[|e'.created| - |e'.queue|..];
      assert e.created <= e'.created;
      forall k | 0 <= k < |e.window|
        ensures Original(e.window[k].packet, e'.created)
      {
        OriginalGrows(e.window[k].packet, e.created, e'.created);
      }
    }
  }

  /** The head of the queue is the next packet to be taken over. */
  lemma HeadOfQueue(e: Endpoint)
    requires Numbered(e) && Queued(e) && e.queue != []
    ensures var p := e.queue[0];
            1 <= p.id == Taken(e) + 1 && Original(p, e.created) && Queued(AfterTake(e)) && Taken(AfterTake(e)) == p.id
  {
    assert e.queue[0] == e.created[Taken(e)];
  }

  lemma TakeKeepsWindow(e: Endpoint)
    requires WindowOk(e) && e.queue != [] && e.queue[0].id == Taken(e) + 1 && Original(e.queue[0], e.created)
    ensures WindowOk(AfterTake(e))
  {
    hide Original;
  }

  lemma TakeKeepsAccount(e: Endpoint)
    requires Accounted(e) && e.queue != [] && 1 <= e.queue[0].id == Taken(e) + 1
    ensures Accounted(AfterTake(e))
  {
    var e', p := AfterTake(e), e.queue[0];
    var all := WindowIds(e.window) + e.evicted + e.dropped;
    assert p.id !in all;
    if |e.window| < RELIABLE_SEND_BUFFER_SIZE {
      assert WindowIds(e'.window) == WindowIds(e.window) + {p.id} by {
        assert e'.window[|e.window|].packet.id == p.id;
        assert forall k :: 0 <= k < |e.window| ==> e'.window[k] == e.window[k];
      }
    }
    assert WindowIds(e'.window) + e'.evicted + e'.dropped == all + {p.id};
  }

  lemma TakeKeepsTx(e: Endpoint)
    requires TxInv(e) && e.queue != []
    ensures TxInv(AfterTake(e))
  {
    hide Queued, WindowOk, Accounted, Original, Taken;
    HeadOfQueue(e);
    TakeKeepsWindow(e);
    TakeKeepsAccount(e);
  }

  lemma SeenKeepsTx(e: Endpoint)
    requires TxInv(e) && e.seen != []
    ensures TxInv(AfterSeen(e))
  {
    var e', acks := AfterSeen(e), SeenAcks(e.seen[0]);
    SurvivorsAscending(e.window, acks);
    SurvivorsIds(e.window, acks);
    forall k | 0 <= k < |e'.window|
      ensures Original(e'.window[k].packet, e.created) && e'.window[k].packet.id <= Taken(e)
    {
      SurvivorsFrom(e.window, acks, k);
    }
    assert WindowIds(e'.window) + e'.evicted == WindowIds(e.window) + e.evicted;
  }

  /** A flush changes timers and ACK arrays only. */
  lemma FlushKeepsPackets(w: seq<InFlight>, pending: set<PacketId>, session: SessionState, t: int)
    ensures var v := Flush(w, pending, session, t).window;
            |v| == |w| && forall k :: 0 <= k < |w| ==> v[k].packet.(acks := []) == w[k].packet.(acks := [])
  {
    hide ReadyIndices, Enumerate, Take4, Owed;
  }

  lemma TickKeepsTx(e: Endpoint, e': Endpoint, t: int)
    requires TxInv(e)
    requires var f := Flush(e.window, e.pending, e.session, t); e' == e.(window := f.window, pending := f.pending)
    ensures TxInv(e')
  {
    FlushKeepsPackets(e.window, e.pending, e.session, t);
    hide Flush;
    forall k | 0 <= k < |e.window|
      ensures e'.window[k].packet.id == e.window[k].packet.id && Original(e'.window[k].packet, e.created)
    {
      var p, q := e.window[k].packet, e'.window[k].packet;
      assert q.(acks := []).id == p.(acks := []).id;
    }
    assert WindowIds(e'.window) == WindowIds(e.window);
  }

  /** Every action of an endpoint keeps its sending side in order. */
  lemma ActionKeepsTx(e: Endpoint, act: Action, inbound: set<Packet>, peer: SessionId)
    requires TxInv(e) && Enabled(e, act, inbound, peer)
    ensures TxInv(After(e, act, inbound, peer))
  {
    hide TxInv, Enabled, AfterCreate, AfterTake, AfterSeen, AfterReceive, Flush;
    var e' := After(e, act, inbound, peer);
    match act
    case Create(payload) => CreateKeepsTx(e, payload);
    case TakeOutgoing => EnabledTake(e, inbound, peer); TakeKeepsTx(e);
    case HandleSeen => EnabledSeen(e, inbound, peer); SeenKeepsTx(e);
    case Tick(t) => TickKeepsTx(e, e', t);
    case Receive(p) => ReceiveKeepsSender(e, p); SameSender(e, e');
    case _ => SameSender(e, e');
  }

  lemma EnabledTake(e: Endpoint, inbound: set<Packet>, peer: SessionId)
    requires Enabled(e, TakeOutgoing, inbound, peer)
    ensures e.queue != []
  {}

  lemma EnabledSeen(e: Endpoint, inbound: set<Packet>, peer: SessionId)
    requires Enabled(e, HandleSeen, inbound, peer)
    ensures e.seen != []
  {}

  /** The endpoints differ in their receiving side only. */
  ghost predicate SendsAlike(e: Endpoint, e': Endpoint) {
    && e'.session.(remoteSessionId := None) == e.session.(remoteSessionId := None)
    && e' == e.(session := e'.session, seen := e'.seen, held := e'.held, rx := e'.rx, announced := e'.announced)
  }

  lemma ReceiveKeepsSender(e: Endpoint, p: Packet)
    ensures SendsAlike(e, AfterReceive(e, p))
  {}

  lemma SameSender(e: Endpoint, e': Endpoint)
    requires TxInv(e) && SendsAlike(e, e')
    ensures TxInv(e')
  {
    assert e'.session.(remoteSessionId := None).keyId == e.session.(remoteSessionId := None).keyId;
    assert e'.session.(remoteSessionId := None).localSessionId == e.session.(remoteSessionId := None).localSessionId;
    assert e'.session.(remoteSessionId := None).localControlPacketId ==
           e.session.(remoteSessionId := None).localControlPacketId;
  }
}
