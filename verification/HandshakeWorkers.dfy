/** The workers of the handshake as code, each running without interruption, proved to be runs of
    the interleaved state machine. */
module HandshakeWorkers {
  import opened Bytes
  import opened Packets
  import opened Session
  import opened KeyMaterial
  import opened Prf
  import opened DataChannel
  import opened Handshake

  /** What `doTLSAuth` does, given how far the exchange with the server gets. */
  datatype Exchange =
    | NothingSent | NoReply | BadOptions(remote: KeySource)
    | NoPush(remote: KeySource, mtu: int) | Complete(remote: KeySource, mtu: int, info: TunnelInfo)

  function TlsActions(e: Exchange): seq<Action> {
    match e
    case NothingSent => [TlsStart, TlsFail]
    case NoReply => [TlsStart, TlsStep, TlsStep, TlsFail]
    case BadOptions(k) => [TlsStart, TlsStep, TlsStep, TlsReply(k), TlsFail]
    case NoPush(k, _) => [TlsStart, TlsStep, TlsStep, TlsReply(k), TlsStep, TlsStep, TlsFail]
    case Complete(k, _, _) => [TlsStart, TlsStep, TlsStep, TlsReply(k), TlsStep, TlsStep, TlsStep, TlsStep]
  }

  /** What the exchange leaves of the shared state. The error of `AddRemoteKey` is not looked at. */
  function AfterExchange(s: State, e: Exchange): State
    requires s.notices > 0
  {
    var s1 := s.(notices := s.notices - 1);
    match e
    case NothingSent => s1
    case NoReply => s1.(negotiation := S_SENT_KEY)
    case BadOptions(_) => s1.(negotiation := S_SENT_KEY)
    case NoPush(k, _) => s1.(negotiation := S_GOT_KEY, remoteKey := if s.remoteKey.Some? then s.remoteKey else Some(k))
    case Complete(k, _, _) =>
      s1.(negotiation := S_ACTIVE, remoteKey := if s.remoteKey.Some? then s.remoteKey
          else Some(k), published := s.published + 1)
  }

  /** One more action of a list. */
  lemma Follow(s: State, acts: seq<Action>, k: nat, t: State) returns (u: State)
    requires k < |acts| && Run(s, acts[..k], t) && Enabled(t, acts[k])
    ensures u == After(t, acts[k]) && Run(s, acts[..k + 1], u) && (k + 1 == |acts| ==> Run(s, acts, u))
  {
    hide Enabled, After;
    RunSnoc(s, acts[..k], t, acts[k]);
    assert acts[..k + 1] == acts[..k] + [acts[k]];
    assert k + 1 == |acts| ==> acts[..k + 1] == acts;
    u := After(t, acts[k]);
  }

  /** Up to the message with the local key source. */
  lemma SendingIsRun(s: State, acts: seq<Action>) returns (t: State)
    requires !s.stopped && s.tls == TlsIdle && s.notices > 0
    requires |acts| > 3 && acts[0] == TlsStart && acts[1] == acts[2] == TlsStep
    ensures t == s.(notices := s.notices - 1, negotiation := S_SENT_KEY, tls := AwaitingReply) && Run(s, acts[..3], t)
  {
    assert Run(s, acts[..0], s);
    hide Run, AfterMuxer, AfterKeyWorker, AfterSoft;
    t := Follow(s, acts, 0, s);
    t := Follow(s, acts, 1, t);
    t := Follow(s, acts, 2, t);
  }

  /** Up to the server's key source. */
  lemma ReplyIsRun(s: State, acts: seq<Action>, k: KeySource) returns (t: State)
    requires !s.stopped && s.tls == TlsIdle && s.notices > 0
    requires |acts| > 6 && acts[0] == TlsStart && acts[1] == acts[2] == TlsStep
    requires acts[3] == TlsReply(k) && acts[4] == acts[5] == TlsStep
    ensures t == s.(notices := s.notices - 1, negotiation := S_GOT_KEY, tls := Pushing,
                    remoteKey := if s.remoteKey.Some? then s.remoteKey else Some(k))
    ensures Run(s, acts[..6], t)
  {
    hide Run, AfterMuxer, AfterKeyWorker, AfterSoft;
    t := SendingIsRun(s, acts);
    t := Follow(s, acts, 3, t);
    t := Follow(s, acts, 4, t);
    t := Follow(s, acts, 5, t);
  }

  lemma NothingSentIsRun(s: State)
    requires !s.stopped && s.tls == TlsIdle && s.notices > 0
    ensures Run(s, TlsActions(NothingSent), AfterExchange(s, NothingSent))
  {
    var acts := TlsActions(NothingSent);
    assert Run(s, acts[..0], s);
    hide Run, AfterMuxer, AfterKeyWorker, AfterSoft;
    var t := Follow(s, acts, 0, s);
    t := Follow(s, acts, 1, t);
  }

  lemma NoKeyIsRun(s: State, e: Exchange)
    requires !s.stopped && s.tls == TlsIdle && s.notices > 0 && (e.NoReply? || e.BadOptions?)
    ensures Run(s, TlsActions(e), AfterExchange(s, e))
  {
    hide Run, AfterMuxer, AfterKeyWorker, AfterSoft;
    var acts := TlsActions(e);
    var t := SendingIsRun(s, acts);
    t := Follow(s, acts, 3, t);
    if e.BadOptions? {
      t := Follow(s, acts, 4, t);
    }
  }

  lemma NoPushIsRun(s: State, e: Exchange)
    requires !s.stopped && s.tls == TlsIdle && s.notices > 0 && e.NoPush?
    ensures Run(s, TlsActions(e), AfterExchange(s, e))
  {
    hide Run, AfterMuxer, AfterTls, AfterKeyWorker, AfterSoft;
    var acts := TlsActions(e);
    var t := ReplyIsRun(s, acts, e.remote);
    t := Follow(s, acts, 6, t);
  }

  lemma CompleteIsRun(s: State, e: Exchange)
    requires !s.stopped && s.tls == TlsIdle && s.notices > 0 && e.Complete?
    ensures Run(s, TlsActions(e), AfterExchange(s, e))
  {
    hide Run;
    var t := PublishedIsRun(s, TlsActions(e), e.remote);
  }

  /** The exchange to its end. */
  lemma PublishedIsRun(s: State, acts: seq<Action>, k: KeySource) returns (t: State)
    requires !s.stopped && s.tls == TlsIdle && s.notices > 0
    requires |acts| == 8 && acts[0] == TlsStart && acts[1] == acts[2] == TlsStep
    requires acts[3] == TlsReply(k) && acts[4] == acts[5] == acts[6] == acts[7] == TlsStep
    ensures t == s.(notices := s.notices - 1, negotiation := S_ACTIVE, published := s.published + 1,
                    remoteKey := if s.remoteKey.Some? then s.remoteKey else Some(k))
    ensures Run(s, acts, t)
  {
    hide Run, AfterMuxer, AfterKeyWorker, AfterSoft;
    t := PushedIsRun(s, acts, k);
    t := Follow(s, acts, 7, t);
  }

  /** Up to the server's push reply. */
  lemma PushedIsRun(s: State, acts: seq<Action>, k: KeySource) returns (t: State)
    requires !s.stopped && s.tls == TlsIdle && s.notices > 0
    requires |acts| > 7 && acts[0] == TlsStart && acts[1] == acts[2] == TlsStep
    requires acts[3] == TlsReply(k) && acts[4] == acts[5] == acts[6] == TlsStep
    ensures t == s.(notices := s.notices - 1, negotiation := S_ACTIVE, tls := Publishing,
                    remoteKey := if s.remoteKey.Some? then s.remoteKey else Some(k))
    ensures Run(s, acts[..7], t)
  {
    hide Run, AfterMuxer, AfterKeyWorker, AfterSoft;
    t := ReplyIsRun(s, acts, k);
    t := Follow(s, acts, 6, t);
  }

  /** The exchange, wherever it breaks off, is a run of the state machine. */
  lemma ExchangeIsRun(s: State, e: Exchange)
    requires !s.stopped && s.tls == TlsIdle && s.notices > 0
    ensures Run(s, TlsActions(e), AfterExchange(s, e))
  {
    hide Run, TlsActions, AfterExchange;
    if e.NoPush? {
      NoPushIsRun(s, e);
    } else if e.Complete? {
      CompleteIsRun(s, e);
    } else if e.NothingSent? {
      NothingSentIsRun(s);
    } else {
      NoKeyIsRun(s, e);
    }
  }

  const KEY_SKIPPED: seq<Action> := [KeyTake, KeyStep]
  const KEY_INSTALLED: seq<Action> := [KeyTake, KeyStep, KeyStep, KeyStep]

  /** The key worker with a key that is not ready. */
  lemma SkippingIsRun(s: State)
    requires !s.stopped && s.keyWorker == KeyIdle && s.published > 0 && s.remoteKey.None?
    ensures Run(s, KEY_SKIPPED, s.(published := s.published - 1, unready := s.unready + 1))
  {
    var acts := KEY_SKIPPED;
    assert Run(s, acts[..0], s);
    hide Run, AfterMuxer, AfterTls, AfterSoft;
    var t := Follow(s, acts, 0, s);
    t := Follow(s, acts, 1, t);
  }

  /** The key worker with a complete key. */
  lemma InstallingIsRun(s: State)
    requires !s.stopped && s.keyWorker == KeyIdle && s.published > 0 && s.remoteKey.Some? && s.localKey.Some?
    ensures Run(s, KEY_INSTALLED, s.(published := s.published - 1, negotiation := S_GENERATED_KEYS,
            firstKeyReady := true,
                                     installed := s.installed + [Inputs(s.localKey.value, s.remoteKey.value,
                                         s.remoteId)]))
  {
    var acts := KEY_INSTALLED;
    assert Run(s, acts[..0], s);
    hide Run, AfterMuxer, AfterTls, AfterSoft;
    var t := Follow(s, acts, 0, s);
    t := Follow(s, acts, 1, t);
    t := Follow(s, acts, 2, t);
    t := Follow(s, acts, 3, t);
  }

  lemma SoftResetIsRun(s: State)
    requires !s.stopped && s.soft == SoftIdle && s.negotiation >= S_GENERATED_KEYS
    ensures Run(s, [SoftReset, SoftStep, SoftStep], s.(negotiation := S_INITIAL, notices := s.notices + 1))
  {
    var acts := [SoftReset, SoftStep, SoftStep];
    assert Run(s, acts[..0], s);
    hide Run, AfterMuxer, AfterTls, AfterKeyWorker;
    var t := Follow(s, acts, 0, s);
    t := Follow(s, acts, 1, t);
    t := Follow(s, acts, 2, t);
  }

  /** The tunnel record after the exchange. */
  function TunnelAfter(e: Exchange, before: TunnelInfo): TunnelInfo {
    match e
    case NoPush(_, mtu) => TunnelInfo("", "", mtu, "", 0)
    case Complete(_, mtu, info) => info.(mtu := mtu)
    case _ => before
  }

  /** The MTU is the one of the server's options, everything else is pushed; an exchange that fails
      before the options leaves the record alone. */
  lemma TunnelAfterIs(e: Exchange, before: TunnelInfo)
    ensures var t := TunnelAfter(e, before);
            && (e.NothingSent? || e.NoReply? || e.BadOptions? ==> t == before)
            && (e.NoPush? || e.Complete? ==> t.mtu == e.mtu)
            && (e.Complete? ==>
                  t.ip == e.info.ip && t.gateway == e.info.gateway && t.netMask == e.info.netMask
                  && t.peerId == e.info.peerId)
  {}

  class Workers {
    const session: Manager
    const key: DataChannelKey
    var hardResetCount: nat
    var notices: nat
    var published: nat
    var toData: seq<Packet>
    var firstKeyReady: bool
    var stopped: bool
    ghost var installed: seq<Inputs>
    ghost var unready: nat

    constructor (session: Manager, key: DataChannelKey, ghost localKey: KeySource)
      requires key.Valid() && session.negotiation == S_UNDEF && session.remoteSessionId.None?
      requires key.localSource == Some(localKey) && key.remoteSource == None
      ensures this.session == session && this.key == key && View() == Initial(localKey)
    {
      this.session, this.key := session, key;
      hardResetCount, notices, published, toData, firstKeyReady, stopped := 0, 0, 0, [], false, false;
      installed, unready := [], 0;
    }

    /** The shared state between two worker activities. */
    ghost function View(): State
      reads this, session, key
    {
      State(session.negotiation, session.remoteSessionId, key.localSource, key.remoteSource, MuxerIdle, notices,
            TlsIdle, published, KeyIdle, SoftIdle, toData, firstKeyReady, installed, unready, [], 0, stopped)
    }

    // --------------------------------------------------------- packet muxer

    method StartHardReset() returns (p: Packet)
      requires !stopped
      modifies this`hardResetCount, session`negotiation, session`readySignals
      ensures View() == After(old(View()), Action.StartHardReset)
      ensures p == HardReset(session.View()) && hardResetCount == old(hardResetCount) + 1
    {
      hardResetCount := hardResetCount + 1;
      session.SetNegotiationState(S_PRE_START);
      p := session.NewHardResetPacket();
    }

    /** `up` is the packet passed to the reliable transport. */
    method HandleRawPacket(raw: seq<Byte>) returns (up: Option<Packet>)
      requires !stopped
      modifies this`notices, this`toData, this`stopped
      modifies session`negotiation, session`readySignals, session`remoteSessionId
      ensures Unmarshal(raw).Err? ==> View() == old(View()) && up == None
      ensures Unmarshal(raw).Ok? ==>
                var p := Unmarshal(raw).value;
                && stopped == HandlePacket(old(View()), p).stopped
                && (!stopped ==> View() == HandlePacket(old(View()), p))
                && (!stopped ==> up == if IsControlOrAck(p.opcode) then Some(p) else None)
    {
      hide Unmarshal;
      var parsed := ParsePacket(raw);
      if parsed.Err? {
        return None;
      }
      var packet := parsed.value;
      if session.negotiation == S_PRE_START && packet.opcode == P_CONTROL_HARD_RESET_SERVER_V2 {
        FinishThreeWayHandshake(packet);
        return Some(packet);
      }
      if IsControlOrAck(packet.opcode) {
        return Some(packet);
      }
      if session.negotiation < S_GENERATED_KEYS {
        return None;
      }
      toData := toData + [packet];
      return None;
    }

    method FinishThreeWayHandshake(p: Packet)
      requires !stopped && session.negotiation == S_PRE_START && p.opcode == P_CONTROL_HARD_RESET_SERVER_V2
      modifies this`notices, this`stopped, session`negotiation, session`readySignals, session`remoteSessionId
      ensures stopped == HandlePacket(old(View()), p).stopped
      ensures !stopped ==> View() == HandlePacket(old(View()), p)
    {
      var ok := session.SetRemoteSessionId(p.localSessionId);
      if !ok {
        stopped := true;
        return;
      }
      session.SetNegotiationState(S_START);
      notices := notices + 1;
    }

    // --------------------------------------------------------- TLS session

    /** `doTLSAuth`. The error of `AddRemoteKey` is not looked at. */
    method DoTlsAuth(e: Exchange) returns (ok: bool)
      requires !stopped && notices > 0 && key.Valid()
      modifies this`notices, this`published, session`negotiation, session`readySignals, session`tunnelInfo
      modifies key`ready, key`remoteSource
      ensures key.Valid() && ok == e.Complete?
      ensures View() == AfterExchange(old(View()), e)
      ensures Run(old(View()), TlsActions(e), View())
      ensures session.tunnelInfo == TunnelAfter(e, old(session.tunnelInfo))
      ensures session.readySignals == old(session.readySignals)
    {
      hide Run, After, Enabled;
      ExchangeIsRun(View(), e);
      ok := false;
      notices := notices - 1;
      if e.NothingSent? {
        return;
      }
      session.SetNegotiationState(S_SENT_KEY);
      if e.NoReply? || e.BadOptions? {
        return;
      }
      session.InitTunnelInfo(e.mtu);
      var _ := key.AddRemoteKey(e.remote);
      session.SetNegotiationState(S_GOT_KEY);
      if e.NoPush? {
        return;
      }
      session.UpdateTunnelInfo(e.info);
      session.SetNegotiationState(S_ACTIVE);
      published := published + 1;
      ok := true;
    }

    // --------------------------------------------------------- control channel

    method OnSoftReset()
      requires !stopped
      modifies this`notices, session`negotiation, session`readySignals
      ensures old(View()).negotiation < S_GENERATED_KEYS ==> View() == old(View()) == After(old(View()), SoftReset)
      ensures old(View()).negotiation >= S_GENERATED_KEYS ==> Run(old(View()), [SoftReset, SoftStep, SoftStep], View())
    {
      hide Run;
      if session.negotiation < S_GENERATED_KEYS {
        return;
      }
      SoftResetIsRun(View());
      session.SetNegotiationState(S_INITIAL);
      notices := notices + 1;
    }

    // --------------------------------------------------------- data channel

    /** One round of the key worker. A key without its local source, or a hash longer than a key
        slot, stops the program. */
    method HandleKey(channel: DataChannel, md5: Mac, sha1: Mac)
      requires !stopped && published > 0 && key.Valid()
      requires channel.session == session && NonEmpty(md5) && NonEmpty(sha1)
      modifies this`published, this`firstKeyReady, this`installed, this`unready, this`stopped
      modifies session`negotiation, session`readySignals, channel.state`keys
      ensures stopped <==> key.ready && (key.localSource.None? || channel.crypto.hashSize > 64)
      ensures !key.ready ==> Run(old(View()), KEY_SKIPPED, View()) && channel.state.keys == old(channel.state.keys)
      ensures key.ready && !stopped ==>
                && Run(old(View()), KEY_INSTALLED, View())
                && Derived(channel.state.keys, key.localSource.value, key.remoteSource.value, session.View(), md5, sha1)
      ensures session.readySignals == old(session.readySignals) + if key.ready && !stopped then 1 else 0
    {
      hide Run, Derived, After, Enabled;
      var r := channel.SetupKeys(key, md5, sha1);
      if r.Panic? {
        published, stopped := published - 1, true;
      } else if r.Failed? {
        SkipKey();
      } else {
        InstallKey();
      }
    }

    method SkipKey()
      requires !stopped && published > 0 && key.remoteSource.None?
      modifies this`published, this`unready
      ensures Run(old(View()), KEY_SKIPPED, View())
    {
      hide Run, After, Enabled;
      SkippingIsRun(View());
      published, unready := published - 1, unready + 1;
    }

    /** The keys are set up: announce them and open the gate. */
    method InstallKey()
      requires !stopped && published > 0 && key.localSource.Some? && key.remoteSource.Some?
      modifies this`published, this`firstKeyReady, this`installed, session`negotiation, session`readySignals
      ensures Run(old(View()), KEY_INSTALLED, View())
      ensures session.readySignals == old(session.readySignals) + 1
    {
      hide Run, After, Enabled;
      InstallingIsRun(View());
      published := published - 1;
      installed := installed + [Inputs(key.localSource.value, key.remoteSource.value, session.remoteSessionId)];
      session.SetNegotiationState(S_GENERATED_KEYS);
      firstKeyReady := true;
    }
  }
}
