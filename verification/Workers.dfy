/** The reliable-transport workers as code: each iteration of their select loops, on the real
    sender, receiver and session objects, is one action of the transport system. */
module Workers {
  import opened Bytes
  import opened Packets
  import opened Session
  import opened SenderSpec
  import Sender
  import opened Receiver
  import opened Reorder
  import opened Transport
  import opened SenderRuns

  class WorkersState {
    const sender: Sender.ReliableSender
    const receiver: ReliableReceiver
    const session: Manager
    var controlToReliable: seq<Packet>
    var incomingSeen: seq<Seen>
    var held: Option<Packet>          // what the receive worker has announced and not yet inserted

    // history
    ghost var records: seq<seq<Byte>>
    ghost var created: seq<Packet>
    ghost var evicted: set<PacketId>
    ghost var dropped: set<PacketId>
    ghost var announced: set<PacketId>
    ghost var delivered: seq<Packet>
    ghost var accepted: set<PacketId>
    ghost var refused: set<PacketId>

    ghost predicate Valid()
      reads this, sender, sender.inFlight, receiver
    {
      sender.Valid() && receiver.Valid()
    }

    ghost function RxView(): Rx
      requires Valid()
      reads this, sender, sender.inFlight, receiver, receiver.incomingPackets
    {
      Rx(receiver.Buffer(), receiver.lastConsumed, delivered, accepted, refused)
    }

    ghost function View(): Endpoint
      requires Valid()
      reads this, sender, sender.inFlight, sender.inFlight[..], sender.pendingAcksToSend
      reads receiver, receiver.incomingPackets, session
    {
      Endpoint(session.View(), controlToReliable, sender.Window(), sender.pendingAcksToSend.m, incomingSeen, held,
               RxView(), records, created, evicted, dropped, announced)
    }

    constructor (session: Manager)
      requires session.View() == InitialState(session.localSessionId)
      ensures Valid() && this.session == session && View() == InitialEndpoint(session.localSessionId)
    {
      sender := new Sender.ReliableSender();
      receiver := new ReliableReceiver();
      this.session := session;
      controlToReliable, incomingSeen, held := [], [], None;
      records, created, evicted, dropped, announced := [], [], {}, {}, {};
      delivered, accepted, refused := [], {}, {};
    }

    /** controlchannel `moveDownWorker`: a TLS record becomes the next control packet. */
    method CreateControlPacket(record: seq<Byte>) returns (ok: bool)
      requires Valid()
      modifies this`controlToReliable, this`records, this`created
      modifies session`localControlPacketId, session`localDataPacketId
      ensures Valid() && View() == AfterCreate(old(View()), record)
    {
      hide Sender.Values, IssuePacket, AfterIssue;
      var packet := NumberRecord(record);
      ghost var e := View();
      records := records + [record];
      if packet.Ok? {
        controlToReliable, created := controlToReliable + [packet.value], created + [packet.value];
      }
      assert RxView() == e.rx && sender.Window() == e.window && session.View() == e.session;
      return packet.Ok?;
    }

    method NumberRecord(record: seq<Byte>) returns (packet: Result<Packet, SessionError>)
      requires Valid()
      modifies session`localControlPacketId, session`localDataPacketId
      ensures Valid() && packet == IssuePacket(old(View()).session, P_CONTROL_V1, record)
      ensures packet.Ok? ==>
                View() == old(View()).(session := AfterIssue(old(View()).session, P_CONTROL_V1))
      ensures packet.Err? ==> View() == old(View())
    {
      hide Sender.Values, IssuePacket, AfterIssue;
      RefusalMovesNothing(session.View(), P_CONTROL_V1, record);
      packet := session.NewPacket(P_CONTROL_V1, record);
      assert RxView() == old(RxView()) && sender.Window() == old(sender.Window());
    }

    lemma HeadIsNewest()
      requires Valid() && controlToReliable != [] && TxInv(View())
      ensures forall k :: 0 <= k < sender.len ==> Sender.Key(sender.inFlight[k]) < controlToReliable[0].id
    {
      hide Sender.Values, TxInv;
      QueuedAfterWindow(View());
      assert forall k :: 0 <= k < sender.len ==> sender.Window()[k] == sender.inFlight[k].Value();
    }

    /** `moveDownWorker`, case `<-ws.controlToReliable`. */
    method OnControlPacket() returns (inserted: bool)
      requires Valid() && controlToReliable != [] && TxInv(View())
      modifies this`controlToReliable, this`dropped, sender`len, sender.inFlight
      ensures Valid() && View() == AfterTake(old(View()))
    {
      hide Sender.Values, TxInv, Sorting.StrictlyBy, Sender.NonNull;
      HeadIsNewest();
      inserted := InsertHead();
      if !inserted {
        dropped := dropped + {controlToReliable[0].id};
      }
      controlToReliable := controlToReliable[1..];
    }

    method InsertHead() returns (inserted: bool)
      requires Valid() && controlToReliable != []
      requires forall k :: 0 <= k < sender.len ==> Sender.Key(sender.inFlight[k]) < controlToReliable[0].id
      modifies sender`len, sender.inFlight
      ensures Valid() && inserted == (|old(sender.Window())| < RELIABLE_SEND_BUFFER_SIZE)
      ensures View() == old(View()).(window := sender.Window())
      ensures sender.Window() ==
              old(sender.Window()) + if inserted then [InFlight(0, 0, controlToReliable[0], 0)] else []
    {
      hide Sender.Values;
      inserted := sender.TryInsertOutgoingPacket(controlToReliable[0]);
      assert RxView() == old(RxView()) && session.View() == old(session.View());
    }

    /** `moveDownWorker`, case `<-sender.incomingSeen`. */
    method OnSeen()
      requires Valid() && incomingSeen != []
      modifies this`incomingSeen, this`evicted
      modifies sender`len, sender.inFlight, sender.inFlight[..]`higherAcks, sender.pendingAcksToSend
      ensures Valid() && View() == AfterSeen(old(View()))
    {
      hide Sender.Values, Survivors, AddPending, Acknowledges, SeenAcks;
      var seen := incomingSeen[0];
      ghost var w := sender.Window();
      HandleSeen(seen);
      incomingSeen := incomingSeen[1..];
      evicted := evicted + Acknowledges(w, SeenAcks(seen));
    }

    method HandleSeen(seen: Seen)
      requires Valid()
      modifies sender`len, sender.inFlight, sender.inFlight[..]`higherAcks, sender.pendingAcksToSend
      ensures Valid()
      ensures View() == old(View()).(window := Survivors(old(sender.Window()), SeenAcks(seen)),
                                     pending := AddPending(old(sender.pendingAcksToSend.m), seen.id))
    {
      hide Sender.Values, Survivors, AddPending, SeenAcks;
      sender.OnIncomingPacketSeen(seen);
      assert RxView() == old(RxView()) && session.View() == old(session.View());
    }

    /** `moveDownWorker`, case `<-ticker.C`. */
    method OnTick(now: int) returns (wakeup: int, sent: seq<Packet>)
      requires Valid()
      modifies sender.inFlight[..], sender.pendingAcksToSend
      ensures Valid()
      ensures var e := old(View());
              var f := Flush(e.window, e.pending, e.session, now);
              View() == e.(window := f.window, pending := f.pending) && sent == f.sent
    {
      hide Sender.Values, Flush, NearestDeadline;
      wakeup, sent := sender.BlockOnTryingToSend(session, now);
    }

    /** `moveUpWorker` up to the announcement on the lateral channel. */
    method OnIncoming(packet: Packet)
      requires Valid() && held == None
      modifies this`incomingSeen, this`held, this`announced
      ensures Valid() && View() == AfterReceive(old(View()), packet)
    {
      hide Sender.Values, SanityOk;
      var ok := IncomingSanityChecks(packet, session);
      if !ok {
        return;
      }
      Announce(packet);
    }

    method Announce(packet: Packet)
      requires Valid() && held == None && SanityOk(packet, session.View())
      modifies this`incomingSeen, this`held, this`announced
      ensures Valid() && View() == AfterReceive(old(View()), packet)
    {
      hide Sender.Values, SanityOk;
      incomingSeen := incomingSeen + [SeenOf(packet)];
      announced := if packet.opcode == P_ACK_V1 then announced else announced + {packet.id};
      if packet.opcode == P_CONTROL_V1 {
        held := Some(packet);
      }
    }

    /** `moveUpWorker` from the insertion to the delivery to the control channel. */
    method OnInsert() returns (ready: seq<Packet>)
      requires Valid() && held.Some?
      modifies this`held, this`refused, this`accepted, this`delivered, receiver, receiver.incomingPackets
      ensures Valid() && Arrive(old(RxView()), old(held.value), ready, RxView())
      ensures View() == old(View()).(held := None, rx := RxView())
    {
      hide Sender.Values, Arrive;
      ready := InsertAndDeliver(held.value);
      held := None;
      assert sender.Window() == old(sender.Window()) && session.View() == old(session.View());
    }

    method InsertAndDeliver(packet: Packet) returns (ready: seq<Packet>)
      requires Valid()
      modifies this`refused, this`accepted, this`delivered, receiver, receiver.incomingPackets
      ensures Valid() && Arrive(old(RxView()), packet, ready, RxView())
    {
      hide Sender.Values, Delivery, Wraps;
      var inserted := receiver.MaybeInsertIncoming(packet);
      if !inserted {
        refused := refused + {packet.id};
        return [];
      }
      accepted := accepted + {packet.id};
      ready := receiver.NextIncomingSequence();
      delivered := delivered + ready;
    }
  }

  /** The packet at the head of the queue has a higher id than everything in flight. */
  lemma QueuedAfterWindow(e: Endpoint)
    requires TxInv(e) && e.queue != []
    ensures forall k :: 0 <= k < |e.window| ==> e.window[k].packet.id < e.queue[0].id
  {
    assert e.queue[0] == e.created[Taken(e)];
  }
}
