/** Two endpoints of the reliable transport over a network that loses, duplicates and reorders.
    Each endpoint is the workers of one side (`internal/reliabletransport`, the control-channel
    worker that creates packets, the muxer's hard resets) taking steps in any interleaving; every
    channel between workers is a queue. A step uses the functions that the methods of the sender,
    the receiver and the session manager are proved against. */
module Transport {
  import opened Bytes
  import opened Packets
  import opened Sorting
  import opened Session
  import opened SenderSpec
  import opened Receiver
  import opened Reorder

  const INCOMING_SEEN_CAPACITY: nat := 100

  datatype Endpoint = Endpoint(
    session: SessionState,
    queue: seq<Packet>,            // control packets created, not yet taken by the sender
    window: seq<InFlight>,         // the sender's in-flight packets
    pending: set<PacketId>,        // ids the sender still has to acknowledge
    seen: seq<Seen>,               // the lateral channel from the receiver to the sender
    held: Option<Packet>,          // announced by the receive worker, not yet inserted
    rx: Rx,                        // the reorder buffer
    // history
    records: seq<seq<Byte>>,       // TLS records handed down so far
    created: seq<Packet>,          // control packets created so far
    evicted: set<PacketId>,        // ids evicted because of an ACK
    dropped: set<PacketId>,        // ids refused by a full window
    announced: set<PacketId>)      // ids the receive worker announced for acknowledgement

  function InitialEndpoint(id: SessionId): Endpoint {
    Endpoint(InitialState(id), [], [], {}, [], None, INITIAL, [], [], {}, {}, {})
  }

  datatype Action =
    | Create(payload: seq<Byte>)                  // control channel: NewPacket(P_CONTROL_V1, record)
    | TakeOutgoing                                // sender: TryInsertOutgoingPacket
    | Receive(packet: Packet)                     // receiver: sanity checks, announce
    | Insert(ready: seq<Packet>, rx: Rx)          // receiver: MaybeInsertIncoming, NextIncomingSequence
    | HandleSeen                                  // sender: OnIncomingPacketSeen
    | Tick(t: int)                                // sender: blockOnTryingToSend at time t
    | EmitReset(op: Opcode)                       // muxer: startHardReset
    | Learn(packet: Packet)                       // muxer: finishThreeWayHandshake

  predicate IsHardReset(op: Opcode) {
    op == P_CONTROL_HARD_RESET_CLIENT_V2 || op == P_CONTROL_HARD_RESET_SERVER_V2
  }

  /** `p` is what the parser makes of the bytes of some packet that was sent. */
  ghost predicate OnWire(p: Packet, inbound: set<Packet>) {
    exists q :: q in inbound && Transmit(q) == Ok(p)
  }

  /** `inbound` is everything the peer (whose session id is `peer`) ever put on the network: any of
      it can arrive at any time, any number of times, or never. Packets of foreign sessions can
      arrive as well. */
  ghost predicate Enabled(e: Endpoint, act: Action, inbound: set<Packet>, peer: SessionId) {
    match act
    case Create(_) => true
    case TakeOutgoing => e.queue != []
    case Receive(p) =>
      && e.held.None? && |e.seen| < INCOMING_SEEN_CAPACITY
      && (OnWire(p, inbound) || p.localSessionId != peer)
    case Insert(ready, rx) => e.held.Some? && Arrive(e.rx, e.held.value, ready, rx)
    case HandleSeen => e.seen != []
    case Tick(_) => true
    case EmitReset(op) => IsHardReset(op)
    case Learn(p) => e.session.remoteSessionId.None? && OnWire(p, inbound) && IsHardReset(p.opcode)
  }

  function AfterCreate(e: Endpoint, record: seq<Byte>): Endpoint {
    var p, given := IssuePacket(e.session, P_CONTROL_V1, record), e.records + [record];
    if p.Err? then e.(records := given)
    else e.(session := AfterIssue(e.session, P_CONTROL_V1), queue := e.queue + [p.value],
            records := given, created := e.created + [p.value])
  }

  function AfterTake(e: Endpoint): Endpoint
    requires e.queue != []
  {
    var p := e.queue[0];
    if |e.window| < RELIABLE_SEND_BUFFER_SIZE then
      e.(queue := e.queue[1..], window := e.window + [InFlight(0, 0, p, 0)])
    else
      e.(queue := e.queue[1..], dropped := e.dropped + {p.id})
  }

  function AfterReceive(e: Endpoint, p: Packet): Endpoint {
    if !SanityOk(p, e.session) then e
    else e.(seen := e.seen + [SeenOf(p)],
            held := if p.opcode == P_CONTROL_V1 then Some(p) else None,
            announced := if p.opcode == P_ACK_V1 then e.announced else e.announced + {p.id})
  }

  ghost function AfterSeen(e: Endpoint): Endpoint
    requires e.seen != []
  {
    var s := e.seen[0];
    e.(seen := e.seen[1..],
       pending := AddPending(e.pending, s.id),
       window := Survivors(e.window, SeenAcks(s)),
       evicted := e.evicted + Acknowledges(e.window, SeenAcks(s)))
  }

  ghost function After(e: Endpoint, act: Action, inbound: set<Packet>, peer: SessionId): Endpoint
    requires Enabled(e, act, inbound, peer)
  {
    match act
    case Create(payload) => AfterCreate(e, payload)
    case TakeOutgoing => AfterTake(e)
    case Receive(p) => AfterReceive(e, p)
    case Insert(ready, rx) => e.(held := None, rx := rx)
    case HandleSeen => AfterSeen(e)
    case Tick(t) => var f := Flush(e.window, e.pending, e.session, t); e.(window := f.window, pending := f.pending)
    case EmitReset(_) => e
    case Learn(p) => e.(session := e.session.(remoteSessionId := Some(p.localSessionId)))
  }

  /** What the step puts on the network. */
  ghost function Emits(e: Endpoint, act: Action): set<Packet> {
    match act
    case Tick(t) => ToSet(Flush(e.window, e.pending, e.session, t).sent)
    case EmitReset(op) => {HardReset(e.session).(opcode := op)}
    case _ => {}
  }

  // ------------------------------------------------------------- the system

  /** Two endpoints and everything each ever sent. */
  datatype System = System(a: Endpoint, b: Endpoint, ab: set<Packet>, ba: set<Packet>)

  ghost predicate StepA(s: System, act: Action, s': System) {
    var peer := s.b.session.localSessionId;
    && Enabled(s.a, act, s.ba, peer)
    && s' == s.(a := After(s.a, act, s.ba, peer), ab := s.ab + Emits(s.a, act))
  }

  ghost predicate StepB(s: System, act: Action, s': System) {
    var peer := s.a.session.localSessionId;
    && Enabled(s.b, act, s.ab, peer)
    && s' == s.(b := After(s.b, act, s.ab, peer), ba := s.ba + Emits(s.b, act))
  }

  ghost predicate Step(s: System, s': System) {
    exists act :: StepA(s, act, s') || StepB(s, act, s')
  }

  ghost predicate Initial(s: System) {
    exists i: SessionId, j: SessionId :: s == System(InitialEndpoint(i), InitialEndpoint(j), {}, {})
  }

  ghost predicate Execution(run: seq<System>) {
    && run != []
    && Initial(run[0])
    && forall i :: 0 <= i < |run| - 1 ==> Step(run[i], run[i + 1])
  }
}
