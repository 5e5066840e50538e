/** The handshake as interleaved workers: the packet muxer (`internal/packetmuxer/service.go`), the
    TLS worker (`internal/tlssession/tlssession.go`), the key worker and the two movers of the data
    channel (`internal/datachannel/service.go`) and the soft-reset branch of the control channel
    (`internal/controlchannel/controlchannel.go`). They share the session manager; one action is
    one access to shared state or to a channel, so every interleaving is a sequence of actions. */
module Handshake {
  import opened Bytes
  import opened Packets
  import opened Session
  import opened KeyMaterial

  /** Where the muxer's upward worker stands. */
  datatype MuxerAt =
    | MuxerIdle
    | Received(p: Packet)     // before the hard-reset check
    | Registering(p: Packet)  // before SetRemoteSessionID
    | Advancing               // before SetNegotiationState(S_START)
    | Notifying               // before the notification to TLS
    | Routing(p: Packet)      // not a hard reset
    | Sending(p: Packet)      // before the send to the data channel

  /** Where `doTLSAuth` stands. */
  datatype TlsAt =
    | TlsIdle
    | Handshaking
    | AuthSent
    | AwaitingReply
    | GotReply(remote: KeySource)
    | KeyAdded
    | Pushing
    | Publishing

  datatype KeyAt = KeyIdle | Installing | Announcing | Opening

  datatype SoftAt = SoftIdle | Resetting | Renotifying

  /** What `setupKeys` derives the keys from. */
  datatype Inputs = Inputs(here: KeySource, there: KeySource, remoteId: Option<SessionId>)

  datatype State = State(
    negotiation: int,
    remoteId: Option<SessionId>,
    localKey: Option<KeySource>,
    remoteKey: Option<KeySource>,
    muxer: MuxerAt,
    notices: nat,             // notifications on their way to TLS
    tls: TlsAt,
    published: nat,           // keys on their way to the key worker
    keyWorker: KeyAt,
    soft: SoftAt,
    toData: seq<Packet>,      // packets on their way to the data channel
    firstKeyReady: bool,
    installed: seq<Inputs>,   // successful calls of setupKeys
    unready: nat,             // calls of setupKeys that failed
    delivered: seq<Packet>,   // packets the data channel has read
    writes: nat,              // packets the data channel has written
    stopped: bool)            // an assertion of the program failed

  datatype Action =
    | StartHardReset          // on request or on a tick of the retry timer
    | Arrive(p: Packet)       // a packet that parses
    | MuxerStep
    | TlsStart
    | TlsFail
    | TlsReply(remote: KeySource)
    | TlsStep
    | KeyTake
    | KeyStep
    | SoftReset               // a soft-reset packet reaches the control channel
    | SoftStep
    | DataRead
    | DataWrite

  function Initial(localKey: KeySource): State {
    State(S_UNDEF, None, Some(localKey), None, MuxerIdle, 0, TlsIdle, 0, KeyIdle, SoftIdle, [], false, [], 0, [], 0,
        false)
  }

  predicate Enabled(s: State, a: Action) {
    && !s.stopped
    && match a {
         case StartHardReset => s.muxer == MuxerIdle
         case Arrive(_) => s.muxer == MuxerIdle
         case MuxerStep => s.muxer != MuxerIdle
         case TlsStart => s.tls == TlsIdle && s.notices > 0
         case TlsFail => s.tls != TlsIdle
         case TlsReply(_) => s.tls == AwaitingReply
         case TlsStep => s.tls != TlsIdle && s.tls != AwaitingReply
         case KeyTake => s.keyWorker == KeyIdle && s.published > 0
         case KeyStep => s.keyWorker != KeyIdle
         case SoftReset => s.soft == SoftIdle
         case SoftStep => s.soft != SoftIdle
         case DataRead => s.toData != []
         case DataWrite => s.firstKeyReady
       }
  }

  function AfterMuxer(s: State): State {
    match s.muxer
    case MuxerIdle => s
    case Received(p) =>
      if s.negotiation == S_PRE_START && p.opcode == P_CONTROL_HARD_RESET_SERVER_V2
      then s.(muxer := Registering(p)) else s.(muxer := Routing(p))
    case Registering(p) =>
      if s.remoteId.Some? then s.(stopped := true)
      else s.(remoteId := Some(p.localSessionId), muxer := Advancing)
    case Advancing => s.(negotiation := S_START, muxer := Notifying)
    case Notifying => s.(notices := s.notices + 1, muxer := MuxerIdle)
    case Routing(p) =>
      if IsControlOrAck(p.opcode) || s.negotiation < S_GENERATED_KEYS then s.(muxer := MuxerIdle)
      else s.(muxer := Sending(p))
    case Sending(p) => s.(toData := s.toData + [p], muxer := MuxerIdle)
  }

  function AfterTls(s: State): State {
    match s.tls
    case TlsIdle => s
    case Handshaking => s.(tls := AuthSent)
    case AuthSent => s.(negotiation := S_SENT_KEY, tls := AwaitingReply)
    case AwaitingReply => s
    case GotReply(k) => s.(remoteKey := if s.remoteKey.Some? then s.remoteKey else Some(k), tls := KeyAdded)
    case KeyAdded => s.(negotiation := S_GOT_KEY, tls := Pushing)
    case Pushing => s.(negotiation := S_ACTIVE, tls := Publishing)
    case Publishing => s.(published := s.published + 1, tls := TlsIdle)
  }

  function AfterKeyWorker(s: State): State {
    match s.keyWorker
    case KeyIdle => s
    case Installing =>
      if s.remoteKey.None? then s.(unready := s.unready + 1, keyWorker := KeyIdle)
      else if s.localKey.None? then s.(stopped := true)
      else s.(installed := s.installed + [Inputs(s.localKey.value, s.remoteKey.value, s.remoteId)],
          keyWorker := Announcing)
    case Announcing => s.(negotiation := S_GENERATED_KEYS, keyWorker := Opening)
    case Opening => s.(firstKeyReady := true, keyWorker := KeyIdle)
  }

  function AfterSoft(s: State): State {
    match s.soft
    case SoftIdle => s
    case Resetting => s.(negotiation := S_INITIAL, soft := Renotifying)
    case Renotifying => s.(notices := s.notices + 1, soft := SoftIdle)
  }

  function After(s: State, a: Action): State
    requires Enabled(s, a)
  {
    match a
    case StartHardReset => s.(negotiation := S_PRE_START)
    case Arrive(p) => s.(muxer := Received(p))
    case MuxerStep => AfterMuxer(s)
    case TlsStart => s.(notices := s.notices - 1, tls := Handshaking)
    case TlsFail => s.(tls := TlsIdle)
    case TlsReply(k) => s.(tls := GotReply(k))
    case TlsStep => AfterTls(s)
    case KeyTake => s.(published := s.published - 1, keyWorker := Installing)
    case KeyStep => AfterKeyWorker(s)
    case SoftReset => if s.negotiation < S_GENERATED_KEYS then s else s.(soft := Resetting)
    case SoftStep => AfterSoft(s)
    case DataRead => s.(toData := s.toData[1..], delivered := s.delivered + [s.toData[0]])
    case DataWrite => s.(writes := s.writes + 1)
  }

  /** `acts` can be taken one after the other from `s`, ending in `t`. */
  predicate Run(s: State, acts: seq<Action>, t: State)
    decreases |acts|
  {
    if acts == [] then s == t
    else Enabled(s, acts[0]) && Run(After(s, acts[0]), acts[1..], t)
  }

  // --------------------------------------------------------- the invariant

  /** Whoever acts on a finished three-way handshake finds the remote session id set. */
  ghost predicate IdInv(s: State) {
    && (s.notices > 0 || s.tls != TlsIdle || s.published > 0 || s.keyWorker != KeyIdle || s.installed != [] ==>
          s.remoteId.Some?)
    && (s.muxer == Advancing || s.muxer == Notifying ==> s.remoteId.Some?)
    && (s.soft != SoftIdle ==> s.installed != [])
  }

  /** A published key has both sources. */
  ghost predicate KeyInv(s: State) {
    && s.localKey.Some?
    && (s.tls == KeyAdded || s.tls == Pushing || s.tls ==
          Publishing || s.published > 0 || s.keyWorker != KeyIdle || s.installed != []
        ==> s.remoteKey.Some?)
    && s.unready == 0
  }

  /** Everything that opens the data channel happens after keys were installed. */
  ghost predicate GateInv(s: State) {
    && (s.negotiation >= S_GENERATED_KEYS || s.firstKeyReady || s.keyWorker == Announcing || s.keyWorker == Opening
        || s.muxer.Sending? || s.toData != [] || s.delivered != [] || s.writes > 0
        ==> s.installed != [])
  }

  /** All installed keys come from the same inputs, the ones still held. */
  ghost predicate SameInputs(s: State) {
    forall i :: 0 <= i < |s.installed| ==>
      Some(s.installed[i].here) == s.localKey && Some(s.installed[i].there) == s.remoteKey
          && s.installed[i].remoteId == s.remoteId
  }

  ghost predicate Inv(s: State) {
    IdInv(s) && KeyInv(s) && GateInv(s) && SameInputs(s)
  }

  lemma StepKeepsIdInv(s: State, a: Action)
    requires IdInv(s) && GateInv(s) && Enabled(s, a)
    ensures IdInv(After(s, a))
  {}

  lemma StepKeepsKeyInv(s: State, a: Action)
    requires KeyInv(s) && Enabled(s, a)
    ensures KeyInv(After(s, a))
  {
    MuxerKeepsKeyInv(s);
    TlsKeepsKeyInv(s);
    KeyWorkerKeepsKeyInv(s);
    SoftKeepsKeyInv(s);
    hide AfterMuxer, AfterTls, AfterKeyWorker, AfterSoft;
  }

  lemma MuxerKeepsKeyInv(s: State)
    requires KeyInv(s)
    ensures KeyInv(AfterMuxer(s))
  {}

  lemma TlsKeepsKeyInv(s: State)
    requires KeyInv(s)
    ensures KeyInv(AfterTls(s))
  {}

  lemma KeyWorkerKeepsKeyInv(s: State)
    requires KeyInv(s)
    ensures KeyInv(AfterKeyWorker(s))
  {}

  lemma SoftKeepsKeyInv(s: State)
    requires KeyInv(s)
    ensures KeyInv(AfterSoft(s))
  {}

  lemma StepKeepsGateInv(s: State, a: Action)
    requires GateInv(s) && Enabled(s, a)
    ensures GateInv(After(s, a))
  {}

  lemma StepKeepsSameInputs(s: State, a: Action)
    requires SameInputs(s) && IdInv(s) && KeyInv(s) && Enabled(s, a)
    ensures SameInputs(After(s, a))
  {}

  lemma {:induction false} RunKeepsInv(s: State, acts: seq<Action>, t: State)
    requires Inv(s) && Run(s, acts, t)
    ensures Inv(t)
    decreases |acts|
  {
    hide Enabled, After, IdInv, KeyInv, GateInv, SameInputs;
    if acts != [] {
      var a := acts[0];
      StepKeepsIdInv(s, a);
      StepKeepsKeyInv(s, a);
      StepKeepsGateInv(s, a);
      StepKeepsSameInputs(s, a);
      RunKeepsInv(After(s, a), acts[1..], t);
    }
  }

  lemma InitialInv(localKey: KeySource)
    ensures Inv(Initial(localKey))
  {}

  ghost predicate Reachable(localKey: KeySource, acts: seq<Action>, s: State) {
    Run(Initial(localKey), acts, s)
  }

  // --------------------------------------------------------- main results

  /** The action hands a packet to the data channel, lets it read one or lets it write one. */
  predicate UsesDataChannel(s: State, a: Action) {
    a == DataRead || a == DataWrite || (a == MuxerStep && s.muxer.Sending?)
  }

  /** The action is a `setupKeys` that succeeds with both key sources and the remote session id. */
  predicate SetsUpKeys(s: State, a: Action) {
    && a == KeyStep && s.keyWorker == Installing && Enabled(s, a)
    && s.localKey.Some? && s.remoteKey.Some? && s.remoteId.Some?
    && After(s, a).installed == s.installed + [Inputs(s.localKey.value, s.remoteKey.value, s.remoteId)]
  }

  /** In every interleaving, whatever uses the data channel comes after a successful `setupKeys`:
      the run up to there splits at one. */
  lemma DataOnlyAfterKeys(localKey: KeySource, acts: seq<Action>, s: State, a: Action) returns (i: nat, at: State)
    requires Reachable(localKey, acts, s) && Enabled(s, a) && UsesDataChannel(s, a)
    ensures i < |acts| && Reachable(localKey, acts[..i], at) && SetsUpKeys(at, acts[i])
  {
    InitialInv(localKey);
    RunKeepsInv(Initial(localKey), acts, s);
    assert s.installed != [];
    i, at := FirstSetup(Initial(localKey), acts, s);
  }

  lemma {:induction false} FirstSetup(s: State, acts: seq<Action>, t: State) returns (i: nat, at: State)
    requires Inv(s) && s.installed == [] && Run(s, acts, t) && t.installed != []
    ensures i < |acts| && Run(s, acts[..i], at) && SetsUpKeys(at, acts[i])
    decreases |acts|
  {
    var a, s' := acts[0], After(s, acts[0]);
    if s'.installed == [] {
      assert Inv(s') by { RunKeepsInv(s, [a], s'); }
      i, at := FirstSetup(s', acts[1..], t);
      assert acts[..i + 1] == [a] + acts[1..][..i];
      i := i + 1;
    } else {
      InstallsOnlyInKeyStep(s, a);
      i, at := 0, s;
    }
  }

  lemma InstallsOnlyInKeyStep(s: State, a: Action)
    requires Inv(s) && Enabled(s, a)
    ensures After(s, a).installed != s.installed ==> SetsUpKeys(s, a)
  {}

  /** `setupKeys` is never called too early: every call, in every interleaving, finds both key
      sources and the remote session id, and succeeds. */
  lemma SetupAlwaysSucceeds(localKey: KeySource, acts: seq<Action>, s: State)
    requires Reachable(localKey, acts, s) && !s.stopped && s.keyWorker == Installing
    ensures SetsUpKeys(s, KeyStep)
  {
    InitialInv(localKey);
    RunKeepsInv(Initial(localKey), acts, s);
  }

  /** Resets never change the keys: the error of `AddRemoteKey` is ignored, so every `setupKeys` of a
      run derives from the key source of the first negotiation. */
  lemma KeysNeverChange(localKey: KeySource, acts: seq<Action>, s: State, i: nat, j: nat)
    requires Reachable(localKey, acts, s) && i < |s.installed| && j < |s.installed|
    ensures s.installed[i] == s.installed[j]
    ensures s.installed[i].here == localKey && s.installed[i].remoteId == s.remoteId && s.remoteId.Some?
  {
    InitialInv(localKey);
    RunKeepsInv(Initial(localKey), acts, s);
    LocalKeyKept(Initial(localKey), acts, s);
  }

  lemma {:induction false} LocalKeyKept(s: State, acts: seq<Action>, t: State)
    requires Run(s, acts, t)
    ensures t.localKey == s.localKey
    decreases |acts|
  {
    if acts != [] {
      LocalKeyKept(After(s, acts[0]), acts[1..], t);
    }
  }

  // --------------------------------------------------------- where everything comes from

  /** A server hard reset from session `id` is among the actions. */
  ghost predicate ResetArrived(past: seq<Action>, id: SessionId) {
    exists p :: Arrive(p) in past && p.opcode == 8 && p.localSessionId == id
  }

  ghost predicate DataArrived(past: seq<Action>, p: Packet) {
    Arrive(p) in past && (p.opcode == 0 || p.opcode == 6 || p.opcode >= 9)
  }

  /** What the muxer holds has arrived. */
  ghost predicate MuxerTraced(past: seq<Action>, s: State) {
    match s.muxer
    case Received(p) => Arrive(p) in past
    case Registering(p) => Arrive(p) in past && p.opcode == 8
    case Routing(p) => Arrive(p) in past
    case Sending(p) => DataArrived(past, p)
    case _ => true
  }

  ghost predicate Traced(past: seq<Action>, s: State) {
    && MuxerTraced(past, s)
    && (s.remoteId.Some? ==> ResetArrived(past, s.remoteId.value))
    && (s.tls.GotReply? ==> TlsReply(s.tls.remote) in past)
    && (s.remoteKey.Some? ==> TlsReply(s.remoteKey.value) in past)
    && AllArrived(past, s.toData) && AllArrived(past, s.delivered)
  }

  ghost predicate AllArrived(past: seq<Action>, ps: seq<Packet>) {
    forall p :: p in ps ==> DataArrived(past, p)
  }

  lemma TracedLater(past: seq<Action>, s: State, a: Action)
    requires Traced(past, s)
    ensures Traced(past + [a], s)
  {
    if s.remoteId.Some? {
      var p :| Arrive(p) in past && p.opcode == 8 && p.localSessionId == s.remoteId.value;
      assert Arrive(p) in past + [a];
    }
  }

  lemma StepKeepsTraced(past: seq<Action>, s: State, a: Action)
    requires Traced(past, s) && Enabled(s, a)
    ensures Traced(past + [a], After(s, a))
  {
    TracedLater(past, s, a);
    var now := past + [a];
    assert a in now by { assert now[|past|] == a; }
    hide ResetArrived, DataArrived;
    if a == MuxerStep {
      hide Traced, AfterMuxer;
      MuxerKeepsTraced(now, s);
    } else if a == DataRead {
      assert s.toData == [s.toData[0]] + s.toData[1..];
    } else if a == TlsStep {
      hide Traced;
      TlsKeepsTraced(now, s);
    } else {
      hide AllArrived, AfterMuxer, AfterTls;
    }
  }

  lemma TlsKeepsTraced(past: seq<Action>, s: State)
    requires Traced(past, s)
    ensures Traced(past, AfterTls(s))
  {
    hide AllArrived, ResetArrived, DataArrived;
  }

  lemma MuxerKeepsTraced(past: seq<Action>, s: State)
    requires Traced(past, s)
    ensures Traced(past, AfterMuxer(s))
  {
    hide AllArrived;
    match s.muxer
    case Registering(p) => assert ResetArrived(past, p.localSessionId);
    case Routing(p) => OpcodesAre(p.opcode); hide ResetArrived;
    case Sending(p) => SendingKeepsArrived(past, s.toData, p); hide ResetArrived;
    case _ => hide ResetArrived;
  }

  lemma SendingKeepsArrived(past: seq<Action>, ps: seq<Packet>, p: Packet)
    requires AllArrived(past, ps) && DataArrived(past, p)
    ensures AllArrived(past, ps + [p])
  {}

  lemma {:induction false} RunKeepsTraced(past: seq<Action>, s: State, acts: seq<Action>, t: State)
    requires Traced(past, s) && Run(s, acts, t)
    ensures Traced(past + acts, t)
    decreases |acts|
  {
    hide Traced, Enabled, After;
    if acts == [] {
      assert past + acts == past;
    } else {
      StepKeepsTraced(past, s, acts[0]);
      RunKeepsTraced(past + [acts[0]], After(s, acts[0]), acts[1..], t);
      assert past + [acts[0]] + acts[1..] == past + acts;
    }
  }

  /** In every interleaving: the registered session id is the sender's id of a server hard reset that
      arrived, the remote key is one that TLS returned, and what reaches the data channel has arrived
      and is neither a control nor an ACK packet. */
  lemma NothingFromNowhere(localKey: KeySource, acts: seq<Action>, s: State)
    requires Reachable(localKey, acts, s)
    ensures s.remoteId.Some? ==> ResetArrived(acts, s.remoteId.value)
    ensures s.remoteKey.Some? ==> TlsReply(s.remoteKey.value) in acts
    ensures AllArrived(acts, s.delivered)
  {
    RunKeepsTraced([], Initial(localKey), acts, s);
    assert [] + acts == acts;
    hide ResetArrived, DataArrived;
  }

  /** The data channel reads packets in the order in which they were handed over; none is lost or
      read twice. */
  lemma {:induction false} DataInOrder(s: State, acts: seq<Action>, t: State)
    requires Run(s, acts, t)
    ensures s.delivered <= t.delivered && s.delivered + s.toData <= t.delivered + t.toData
    decreases |acts|
  {
    if acts != [] {
      StepKeepsOrder(s, acts[0]);
      hide Enabled, After;
      DataInOrder(After(s, acts[0]), acts[1..], t);
    }
  }

  lemma StepKeepsOrder(s: State, a: Action)
    requires Enabled(s, a)
    ensures var t := After(s, a);
            s.delivered <= t.delivered && s.delivered + s.toData <= t.delivered + t.toData
  {
    if a == DataRead {
      assert s.toData == [s.toData[0]] + s.toData[1..];
    } else if a == MuxerStep {
      hide AfterTls, AfterKeyWorker, AfterSoft;
    } else {
      hide AfterMuxer;
    }
  }

  // --------------------------------------------------------- registering the remote session id

  /** Some hard reset starts although the remote session id is already known. */
  predicate ResetsLate(s: State, acts: seq<Action>)
    decreases |acts|
  {
    acts != [] && Enabled(s, acts[0]) &&
    ((acts[0] == StartHardReset && s.remoteId.Some?) || ResetsLate(After(s, acts[0]), acts[1..]))
  }

  ghost predicate OneReset(s: State) {
    && !s.stopped && s.localKey.Some?
    && (s.negotiation == S_PRE_START && s.remoteId.Some? ==> s.muxer == Advancing)
    && (s.muxer.Registering? ==> s.remoteId.None?)
  }

  lemma StepKeepsOneReset(s: State, a: Action)
    requires OneReset(s) && Enabled(s, a) && !(a == StartHardReset && s.remoteId.Some?)
    ensures OneReset(After(s, a))
  {}

  /** The program never stops on a second registration unless a hard reset starts late. */
  lemma {:induction false} StopsOnlyAfterLateReset(s: State, acts: seq<Action>, t: State)
    requires OneReset(s) && Run(s, acts, t) && !ResetsLate(s, acts)
    ensures OneReset(t)
    decreases |acts|
  {
    hide Enabled, After, OneReset;
    if acts != [] {
      StepKeepsOneReset(s, acts[0]);
      StopsOnlyAfterLateReset(After(s, acts[0]), acts[1..], t);
    }
  }

  lemma NoStopWithoutLateReset(localKey: KeySource, acts: seq<Action>, s: State)
    requires Reachable(localKey, acts, s) && s.stopped
    ensures ResetsLate(Initial(localKey), acts)
  {
    if !ResetsLate(Initial(localKey), acts) {
      StopsOnlyAfterLateReset(Initial(localKey), acts, s);
    }
  }

  /** Handling one packet without interruption. */
  function HandlePacket(s: State, p: Packet): State {
    AfterMuxer(AfterMuxer(AfterMuxer(AfterMuxer(s.(muxer := Received(p))))))
  }

  /** The answer of the server before its session id is known: the id registered is the sender's own,
      the negotiation starts and TLS is told, once. Nothing else changes. */
  lemma RegistersSender(s: State, p: Packet)
    requires !s.stopped && s.negotiation == 2 && s.remoteId.None? && p.opcode == 8
    ensures HandlePacket(s, p) ==
            s.(remoteId := Some(p.localSessionId), negotiation := 3, notices := s.notices + 1, muxer := MuxerIdle)
  {}

  /** Every other packet goes to the data channel if it is neither control nor ACK and the keys are
      there, and has no effect here otherwise. */
  lemma RoutesPacket(s: State, p: Packet)
    requires !s.stopped && !(s.negotiation == 2 && p.opcode == 8)
    ensures HandlePacket(s, p) ==
            if s.negotiation >= 7 && (p.opcode == 0 || p.opcode == 6 || p.opcode >= 9)
            then s.(toData := s.toData + [p], muxer := MuxerIdle)
            else s.(muxer := MuxerIdle)
  {
    OpcodesAre(p.opcode);
  }

  /** Doing so is a run: the packet arrives and the muxer makes its steps. */
  lemma HandlePacketIsRun(s: State, p: Packet) returns (acts: seq<Action>)
    requires !s.stopped && s.muxer == MuxerIdle
    ensures Run(s, acts, HandlePacket(s, p)) && MuxerRun(p, acts)
  {
    var s1 := After(s, Arrive(p));
    RunSnoc(s, [], s, Arrive(p));
    assert [] + [Arrive(p)] == [Arrive(p)];
    acts := MuxerContinues(s, p, [Arrive(p)], s1);
    acts := MuxerContinues(s, p, acts, AfterMuxer(s1));
    acts := MuxerContinues(s, p, acts, AfterMuxer(AfterMuxer(s1)));
    acts := MuxerContinues(s, p, acts, AfterMuxer(AfterMuxer(AfterMuxer(s1))));
  }

  predicate MuxerRun(p: Packet, acts: seq<Action>) {
    acts != [] && acts[0] == Arrive(p) && forall i :: 0 < i < |acts| ==> acts[i] == MuxerStep
  }

  lemma MuxerContinues(s: State, p: Packet, acts: seq<Action>, t: State) returns (more: seq<Action>)
    requires Run(s, acts, t) && MuxerRun(p, acts) && (t.stopped ==> AfterMuxer(t) == t)
    ensures Run(s, more, AfterMuxer(t)) && MuxerRun(p, more)
    ensures AfterMuxer(t).stopped ==> AfterMuxer(AfterMuxer(t)) == AfterMuxer(t)
  {
    more := acts;
    if Enabled(t, MuxerStep) {
      RunSnoc(s, acts, t, MuxerStep);
      more := acts + [MuxerStep];
    }
  }

  /** The muxer stops the program on a packet exactly when it is a server hard reset that arrives
      after a late hard reset. */
  lemma StopsIff(s: State, p: Packet)
    requires !s.stopped
    ensures HandlePacket(s, p).stopped <==>
            s.negotiation == S_PRE_START && s.remoteId.Some? && p.opcode == P_CONTROL_HARD_RESET_SERVER_V2
    ensures !HandlePacket(s, p).stopped ==> HandlePacket(s, p).muxer == MuxerIdle
  {}

  /** A stale tick of the retry timer followed by a repeated answer of the server stops the program:
      from every state with an idle muxer and a known remote session id. */
  lemma LateResetStops(s: State, p: Packet) returns (t: State)
    requires !s.stopped && s.muxer == MuxerIdle && s.remoteId.Some? && p.opcode == P_CONTROL_HARD_RESET_SERVER_V2
    ensures Run(s, [StartHardReset, Arrive(p), MuxerStep, MuxerStep], t) && t.stopped
  {
    var s1 := After(s, StartHardReset);
    var s2 := After(s1, Arrive(p));
    var s3 := After(s2, MuxerStep);
    t := After(s3, MuxerStep);
    RunSnoc(s, [], s, StartHardReset);
    RunSnoc(s, [StartHardReset], s1, Arrive(p));
    RunSnoc(s, [StartHardReset, Arrive(p)], s2, MuxerStep);
    RunSnoc(s, [StartHardReset, Arrive(p), MuxerStep], s3, MuxerStep);
    assert [] + [StartHardReset] == [StartHardReset];
    assert [StartHardReset] + [Arrive(p)] == [StartHardReset, Arrive(p)];
    assert [StartHardReset, Arrive(p)] + [MuxerStep] == [StartHardReset, Arrive(p), MuxerStep];
    assert [StartHardReset, Arrive(p), MuxerStep] + [MuxerStep] == [StartHardReset, Arrive(p), MuxerStep, MuxerStep];
  }

  lemma {:induction false} RunConcat(s: State, a: seq<Action>, t: State, b: seq<Action>, u: State)
    requires Run(s, a, t) && Run(t, b, u)
    ensures Run(s, a + b, u)
    decreases |a|
  {
    hide Enabled, After;
    if a == [] {
      assert a + b == b;
    } else {
      RunConcat(After(s, a[0]), a[1..], t, b, u);
      assert (a + b)[1..] == a[1..] + b;
    }
  }

  /** It happens, with any server: a hard reset, the answer, a stale tick, the answer again. */
  lemma LateResetOccurs(localKey: KeySource, p: Packet) returns (acts: seq<Action>, t: State)
    requires p.opcode == P_CONTROL_HARD_RESET_SERVER_V2
    ensures Reachable(localKey, acts, t) && t.stopped
  {
    var s0 := Initial(localKey);
    var s1 := After(s0, StartHardReset);
    RunSnoc(s0, [], s0, StartHardReset);
    var handling := HandlePacketIsRun(s1, p);
    var s2 := HandlePacket(s1, p);
    t := LateResetStops(s2, p);
    hide Run, HandlePacket;
    RunConcat(s0, [] + [StartHardReset], s1, handling, s2);
    RunConcat(s0, [] + [StartHardReset] + handling, s2, [StartHardReset, Arrive(p), MuxerStep, MuxerStep], t);
    acts := [] + [StartHardReset] + handling + [StartHardReset, Arrive(p), MuxerStep, MuxerStep];
  }

  lemma {:induction false} RunSnoc(s: State, acts: seq<Action>, t: State, a: Action)
    requires Run(s, acts, t) && Enabled(t, a)
    ensures Run(s, acts + [a], After(t, a))
    decreases |acts|
  {
    hide Enabled, After;
    if acts == [] {
      assert acts + [a] == [a];
      assert Run(After(s, a), [a][1..], After(t, a));
    } else {
      RunSnoc(After(s, acts[0]), acts[1..], t, a);
      assert (acts + [a])[1..] == acts[1..] + [a];
    }
  }
}
