/** The response flags of process_tcp are set to none once per pass, not per socket. Exactly
    when the flags of one socket go out on a later one. */
module TcpFlags {
  import opened TcpModel
  import opened TcpRuns
  import opened TcpQuiet

  /** The switch over the states leaves the flags as they are; the retry is counted already. */
  predicate Inherits(s: Socket) {
    match s.state
    case SynRequestSent => false
    case ConnectionEstablished => s.retryCount <= MAX_RETRIES && s.awaitingAck && s.hadData
    case SynRequestReceived => s.retryCount > MAX_RETRIES
    case FinWait1 => s.retryCount > MAX_RETRIES
    case LastAckSent => s.retryCount > MAX_RETRIES
    case Closing => s.retryCount > MAX_RETRIES
    case _ => true
  }

  lemma RetryInherits(s: Socket, f: Flags)
    ensures Inherits(s) <==> Retry(s, NONE).1 != Retry(s, RST).1
    ensures Retry(s, f) == (Retry(s, NONE).0, if Inherits(s) then f else Retry(s, NONE).1)
  {
  }

  /** The turn of the socket comes to its timeout. */
  predicate TimesOut(s: Socket, env: Env, now: DWord) {
    && s.rxRemaining == 0 && s.state != Closed && s.state != Listen && !s.sendWaiting
    && s.state != ConnectSendArpRequest && !(s.state == ConnectWaitArpResponse && env.arpAnswer != 0)
    && TimedOut(s, now)
  }

  predicate Takes(s: Socket, env: Env, now: DWord) {
    TimesOut(s, env, now) && env.nicOk && Inherits(Restarted(s, now))
  }

  predicate Chooses(s: Socket, env: Env, now: DWord) {
    TimesOut(s, env, now) && env.nicOk && !Inherits(Restarted(s, now))
  }

  /** The flags that the socket chooses by itself. */
  function Own(s: Socket, now: DWord): Flags {
    Retry(Restarted(s, now), NONE).1
  }

  /** The NIC can transmit whenever the pass asks on behalf of a socket in the range. */
  predicate GoesOn(socket: seq<Socket>, from: nat, to: nat, env: seq<Env>, now: DWord)
    requires to <= |socket| == |env|
  {
    forall m :: from <= m < to && TimesOut(socket[m], env[m], now) ==> env[m].nicOk
  }

  /** Socket i is reached with the flags that were set before socket k, and has none of its own. */
  predicate Receives(socket: seq<Socket>, k: nat, i: nat, env: seq<Env>, now: DWord)
    requires |socket| == |env|
  {
    && k <= i < |socket| && Takes(socket[i], env[i], now)
    && GoesOn(socket, k, i, env, now)
    && forall m :: k <= m < i ==> !Chooses(socket[m], env[m], now)
  }

  /** Socket i sends the flags of socket j, in a pass from socket k on. */
  predicate SentFor(socket: seq<Socket>, k: nat, j: nat, i: nat, env: seq<Env>, now: DWord)
    requires |socket| == |env|
  {
    && k <= j < i < |socket| && Chooses(socket[j], env[j], now) && Own(socket[j], now) != NONE
    && GoesOn(socket, k, j, env, now)
    && Receives(socket, j + 1, i, env, now)
  }

  ghost predicate SomeReceives(socket: seq<Socket>, k: nat, env: seq<Env>, now: DWord)
    requires |socket| == |env|
  {
    exists i: nat :: Receives(socket, k, i, env, now)
  }

  ghost predicate SomeSentFor(socket: seq<Socket>, k: nat, env: seq<Env>, now: DWord)
    requires |socket| == |env|
  {
    exists j: nat, i: nat :: SentFor(socket, k, j, i, env, now)
  }

  /** process_tcp with the flags set to none for every socket. */
  function ResetPass(st: Stack, i: nat, env: seq<Env>, now: DWord): (r: Stack)
    requires i <= |st.socket| == |env|
    ensures |r.socket| == |st.socket|
    decreases |st.socket| - i
  {
    if i == |st.socket| then st
    else
      var t := ProcessSocket(st, i, NONE, env[i], now);
      if t.goesOn then ResetPass(t.st, i + 1, env, now) else t.st
  }

  // ----- one turn -----

  /** The flags matter to the turn only if the socket takes them. */
  lemma TurnAndFlags(st: Stack, i: nat, f: Flags, env: Env, now: DWord)
    requires i < |st.socket|
    ensures var s, t, u := st.socket[i], ProcessSocket(st, i, f, env, now), ProcessSocket(st, i, NONE, env, now);
      && t.goesOn == u.goesOn == (TimesOut(s, env, now) ==> env.nicOk)
      && (f == NONE || !Takes(s, env, now) ==> t.st == u.st)
      && t.flags == if Chooses(s, env, now) then Own(s, now) else f
  {
    var s := st.socket[i];
    RetryInherits(Restarted(s, now), f);
    if s.state == ConnectWaitArpResponse && env.arpAnswer != 0 {
      SynRequestRestarts(With(st, i, s.(remote := s.remote.(mac := env.arpAnswer))), i, now, env.canSend);
    }
  }

  /** How many segments the turn hands to the NIC. */
  function Sends(s: Socket, f: Flags, env: Env, now: DWord): nat {
    if s.rxRemaining > 0 || s.state == Closed || s.state == Listen then 0
    else if s.sendWaiting || (s.state == ConnectWaitArpResponse && env.arpAnswer != 0) then (if env.canSend then 1 else 0)
    else if TimesOut(s, env, now) && env.nicOk && env.canReply && Retry(Restarted(s, now), f).1 != NONE then 1
    else 0
  }

  lemma TurnSends(st: Stack, i: nat, f: Flags, env: Env, now: DWord)
    requires i < |st.socket|
    ensures |ProcessSocket(st, i, f, env, now).st.sent| == |st.sent| + Sends(st.socket[i], f, env, now)
  {
    var s := st.socket[i];
    if s.rxRemaining > 0 || s.state == Closed || s.state == Listen || s.sendWaiting || s.state == ConnectSendArpRequest {
    } else if s.state == ConnectWaitArpResponse && env.arpAnswer != 0 {
      var st1 := With(st, i, s.(remote := s.remote.(mac := env.arpAnswer)));
      SynRequestRestarts(st1, i, now, env.canSend);
      assert ProcessSocket(st, i, f, env, now).st == SynRequest(st1, i, now, env.canSend);
    } else {
      ExpireSends(st, i, f, env, now);
    }
  }

  lemma SynRequestRestarts(st: Stack, i: nat, now: DWord, canSend: bool)
    requires i < |st.socket|
    ensures var r := SynRequest(st, i, now, canSend);
      !TimedOut(r.socket[i], now) && |r.sent| == |st.sent| + if canSend then 1 else 0
  {
  }

  lemma ExpireSends(st: Stack, i: nat, f: Flags, env: Env, now: DWord)
    requires i < |st.socket|
    ensures var f1 := Retry(Restarted(st.socket[i], now), f).1;
      |Expire(st, i, f, env, now).st.sent|
        == |st.sent| + if TimedOut(st.socket[i], now) && env.nicOk && env.canReply && f1 != NONE then 1 else 0
  {
  }

  /** A socket that takes flags sends or queues them. */
  lemma TakenFlagsShow(st: Stack, i: nat, f: Flags, env: Env, now: DWord)
    requires i < |st.socket| && Takes(st.socket[i], env, now) && f != NONE
    ensures var t, u := ProcessSocket(st, i, f, env, now).st, ProcessSocket(st, i, NONE, env, now).st;
      if env.canReply then |t.sent| > |u.sent| else t.socket[i].sendWaiting && !u.socket[i].sendWaiting
  {
    RetryInherits(Restarted(st.socket[i], now), f);
    TurnSends(st, i, f, env, now);
    TurnSends(st, i, NONE, env, now);
  }

  // ----- a pass -----

  /** Some socket from k on, with the flags f before it, takes flags that are not its own. */
  predicate Mixes(socket: seq<Socket>, k: nat, f: Flags, env: seq<Env>, now: DWord)
    requires k <= |socket| == |env|
    decreases |socket| - k
  {
    && k < |socket|
    && (TimesOut(socket[k], env[k], now) ==> env[k].nicOk)
    && ((Takes(socket[k], env[k], now) && f != NONE)
        || Mixes(socket, k + 1, if Chooses(socket[k], env[k], now) then Own(socket[k], now) else f, env, now))
  }

  lemma {:induction false} MixesExactly(socket: seq<Socket>, k: nat, f: Flags, env: seq<Env>, now: DWord)
    requires k <= |socket| == |env|
    ensures Mixes(socket, k, f, env, now) <==>
      (f != NONE && SomeReceives(socket, k, env, now)) || SomeSentFor(socket, k, env, now)
    decreases |socket| - k
  {
    if k < |socket| {
      var f1 := if Chooses(socket[k], env[k], now) then Own(socket[k], now) else f;
      MixesExactly(socket, k + 1, f1, env, now);
      if Mixes(socket, k, f, env, now) {
        MixesShown(socket, k, f, env, now);
      }
      if (f != NONE && SomeReceives(socket, k, env, now)) || SomeSentFor(socket, k, env, now) {
        MixesFound(socket, k, f, env, now);
      }
    }
  }

  lemma MixesShown(socket: seq<Socket>, k: nat, f: Flags, env: seq<Env>, now: DWord)
    requires k < |socket| == |env| && Mixes(socket, k, f, env, now)
    requires var f1 := if Chooses(socket[k], env[k], now) then Own(socket[k], now) else f;
      Mixes(socket, k + 1, f1, env, now) ==>
        (f1 != NONE && SomeReceives(socket, k + 1, env, now)) || SomeSentFor(socket, k + 1, env, now)
    ensures (f != NONE && SomeReceives(socket, k, env, now)) || SomeSentFor(socket, k, env, now)
  {
    if Takes(socket[k], env[k], now) && f != NONE {
      assert Receives(socket, k, k, env, now);
    } else if SomeSentFor(socket, k + 1, env, now) {
      var j: nat, i: nat :| SentFor(socket, k + 1, j, i, env, now);
      assert SentFor(socket, k, j, i, env, now);
    } else {
      var i: nat :| Receives(socket, k + 1, i, env, now);
      if Chooses(socket[k], env[k], now) {
        assert SentFor(socket, k, k, i, env, now);
      } else {
        assert Receives(socket, k, i, env, now);
      }
    }
  }

  lemma MixesFound(socket: seq<Socket>, k: nat, f: Flags, env: seq<Env>, now: DWord)
    requires k < |socket| == |env| && ((f != NONE && SomeReceives(socket, k, env, now)) || SomeSentFor(socket, k, env, now))
    requires var f1 := if Chooses(socket[k], env[k], now) then Own(socket[k], now) else f;
      (f1 != NONE && SomeReceives(socket, k + 1, env, now)) || SomeSentFor(socket, k + 1, env, now) ==> Mixes(socket, k + 1, f1, env, now)
    ensures Mixes(socket, k, f, env, now)
  {
    if f != NONE && SomeReceives(socket, k, env, now) {
      var i: nat :| Receives(socket, k, i, env, now);
      assert i > k ==> Receives(socket, k + 1, i, env, now);
    } else {
      var j: nat, i: nat :| SentFor(socket, k, j, i, env, now);
      assert if j > k then SentFor(socket, k + 1, j, i, env, now) else Receives(socket, k + 1, i, env, now);
    }
  }

  predicate SameFrom(socket: seq<Socket>, st: Stack, k: nat) {
    |st.socket| == |socket| && forall m :: k <= m < |socket| ==> st.socket[m] == socket[m]
  }

  lemma TurnSameFrom(socket: seq<Socket>, st: Stack, k: nat, f: Flags, env: Env, now: DWord)
    requires SameFrom(socket, st, k) && k < |socket|
    ensures SameFrom(socket, ProcessSocket(st, k, f, env, now).st, k + 1)
  {
    forall m | k < m < |socket| ensures ProcessSocket(st, k, f, env, now).st.socket[m] == socket[m] {
      OtherSocket(st, m, k, f, env, now);
    }
  }

  /** From equal sockets on, the flags carried along only add segments. */
  lemma {:induction false} CarryingSendsMore(socket: seq<Socket>, st: Stack, st': Stack, k: nat, f: Flags, env: seq<Env>, now: DWord)
    requires k <= |socket| == |env| && SameFrom(socket, st, k) && SameFrom(socket, st', k)
    ensures |Pass(st, k, f, env, now).sent| - |st.sent| >= |ResetPass(st', k, env, now).sent| - |st'.sent|
    decreases |socket| - k
  {
    if k < |socket| {
      var t, u := ProcessSocket(st, k, f, env[k], now), ProcessSocket(st', k, NONE, env[k], now);
      TurnAndFlags(st, k, f, env[k], now);
      TurnAndFlags(st', k, NONE, env[k], now);
      RetryInherits(Restarted(socket[k], now), f);
      TurnSends(st, k, f, env[k], now);
      TurnSends(st', k, NONE, env[k], now);
      TurnSameFrom(socket, st, k, f, env[k], now);
      TurnSameFrom(socket, st', k, NONE, env[k], now);
      if t.goesOn {
        CarryingSendsMore(socket, t.st, u.st, k + 1, t.flags, env, now);
      }
    }
  }

  lemma {:induction false} ResetPassedSocket(st: Stack, i: nat, k: nat, env: seq<Env>, now: DWord)
    requires i < k <= |st.socket| == |env|
    ensures ResetPass(st, k, env, now).socket[i] == st.socket[i]
    decreases |env| - k
  {
    if k < |env| {
      OtherSocket(st, i, k, NONE, env[k], now);
      var t := ProcessSocket(st, k, NONE, env[k], now);
      if t.goesOn {
        ResetPassedSocket(t.st, i, k + 1, env, now);
      }
    }
  }

  /** What a socket sent or queued for another one shows at the end of the pass. */
  lemma TakenFlagsStay(socket: seq<Socket>, st: Stack, k: nat, f: Flags, env: seq<Env>, now: DWord)
    requires k < |socket| == |env| && SameFrom(socket, st, k) && Takes(socket[k], env[k], now) && f != NONE
    ensures Pass(st, k, f, env, now) != ResetPass(st, k, env, now)
  {
    var t, u := ProcessSocket(st, k, f, env[k], now), ProcessSocket(st, k, NONE, env[k], now);
    TurnAndFlags(st, k, f, env[k], now);
    TakenFlagsShow(st, k, f, env[k], now);
    TurnSameFrom(socket, st, k, f, env[k], now);
    TurnSameFrom(socket, st, k, NONE, env[k], now);
    CarryingSendsMore(socket, t.st, u.st, k + 1, t.flags, env, now);
    PassedSocket(t.st, k, k + 1, t.flags, env, now);
    ResetPassedSocket(u.st, k, k + 1, env, now);
  }

  lemma {:induction false} PassAndReset(socket: seq<Socket>, st: Stack, k: nat, f: Flags, env: seq<Env>, now: DWord)
    requires k <= |socket| == |env| && SameFrom(socket, st, k)
    ensures Pass(st, k, f, env, now) == ResetPass(st, k, env, now) <==> !Mixes(socket, k, f, env, now)
    decreases |socket| - k
  {
    if k < |socket| {
      if Takes(socket[k], env[k], now) && f != NONE {
        TakenFlagsStay(socket, st, k, f, env, now);
      } else {
        var t := ProcessSocket(st, k, f, env[k], now);
        SameTurn(socket, st, k, f, env, now);
        TurnSameFrom(socket, st, k, f, env[k], now);
        if t.goesOn {
          PassAndReset(socket, t.st, k + 1, t.flags, env, now);
        }
      }
    }
  }

  /** A turn in which no flags are taken is the same in both passes. */
  lemma SameTurn(socket: seq<Socket>, st: Stack, k: nat, f: Flags, env: seq<Env>, now: DWord)
    requires k < |socket| == |env| && SameFrom(socket, st, k) && (f == NONE || !Takes(socket[k], env[k], now))
    ensures var t := ProcessSocket(st, k, f, env[k], now);
      && t.goesOn == (TimesOut(socket[k], env[k], now) ==> env[k].nicOk)
      && t.flags == (if Chooses(socket[k], env[k], now) then Own(socket[k], now) else f)
      && Pass(st, k, f, env, now) == (if t.goesOn then Pass(t.st, k + 1, t.flags, env, now) else t.st)
      && ResetPass(st, k, env, now) == if t.goesOn then ResetPass(t.st, k + 1, env, now) else t.st
  {
    TurnAndFlags(st, k, f, env[k], now);
  }

  /** A pass of process_tcp differs from one that sets the flags to none for every socket
      if and only if some socket's flags go out on a later one: the later one times out in
      a state that sets no flags, and no socket in between sets any. */
  lemma FlagsGoOutElsewhere(st: Stack, env: seq<Env>, now: DWord)
    requires |st.socket| == |env|
    ensures Pass(st, 0, NONE, env, now) != ResetPass(st, 0, env, now) <==> SomeSentFor(st.socket, 0, env, now)
  {
    PassAndReset(st.socket, st, 0, NONE, env, now);
    MixesExactly(st.socket, 0, NONE, env, now);
  }

  /** Then the turn of socket i begins with the flags of socket j, and sends or queues them
      to the peer of socket i. */
  lemma {:induction false} FlagsReach(st: Stack, k: nat, f: Flags, j: nat, i: nat, env: seq<Env>, now: DWord) returns (st1: Stack)
    requires |st.socket| == |env| && SentFor(st.socket, k, j, i, env, now)
    ensures |st1.socket| == |st.socket| && st1.socket[i] == st.socket[i]
    ensures Pass(st, k, f, env, now) == Pass(st1, i, Own(st.socket[j], now), env, now)
    ensures var s := Retry(Restarted(st.socket[i], now), NONE).0;
      ProcessSocket(st1, i, Own(st.socket[j], now), env[i], now).st == Respond(With(st1, i, s), i, Own(st.socket[j], now), env[i].canReply)
    decreases j - k
  {
    TurnAndFlags(st, k, f, env[k], now);
    var t := ProcessSocket(st, k, f, env[k], now);
    TurnSameFrom(st.socket, st, k, f, env[k], now);
    if k < j {
      SentForSame(st.socket, t.st.socket, k, j, i, env, now);
      st1 := FlagsReach(t.st, k + 1, t.flags, j, i, env, now);
    } else {
      ReceivesSame(st.socket, t.st.socket, j + 1, i, env, now);
      st1 := FlagsCarried(t.st, j + 1, t.flags, i, env, now);
    }
  }

  lemma TakesItsTurn(st: Stack, i: nat, f: Flags, env: Env, now: DWord)
    requires i < |st.socket| && Takes(st.socket[i], env, now)
    ensures var s := Retry(Restarted(st.socket[i], now), NONE).0;
      ProcessSocket(st, i, f, env, now).st == Respond(With(st, i, s), i, f, env.canReply)
  {
    RetryInherits(Restarted(st.socket[i], now), f);
  }

  lemma {:induction false} FlagsCarried(st: Stack, k: nat, f: Flags, i: nat, env: seq<Env>, now: DWord) returns (st1: Stack)
    requires |st.socket| == |env| && Receives(st.socket, k, i, env, now)
    ensures |st1.socket| == |st.socket| && st1.socket[i] == st.socket[i]
    ensures Pass(st, k, f, env, now) == Pass(st1, i, f, env, now)
    ensures var s := Retry(Restarted(st.socket[i], now), NONE).0;
      ProcessSocket(st1, i, f, env[i], now).st == Respond(With(st1, i, s), i, f, env[i].canReply)
    decreases i - k
  {
    if k == i {
      st1 := st;
      TakesItsTurn(st, i, f, env[i], now);
    } else {
      TurnAndFlags(st, k, f, env[k], now);
      var t := ProcessSocket(st, k, f, env[k], now);
      TurnSameFrom(st.socket, st, k, f, env[k], now);
      ReceivesSame(st.socket, t.st.socket, k + 1, i, env, now);
      st1 := FlagsCarried(t.st, k + 1, f, i, env, now);
    }
  }

  lemma ReceivesSame(a: seq<Socket>, b: seq<Socket>, k: nat, i: nat, env: seq<Env>, now: DWord)
    requires |a| == |b| == |env| && (forall m :: k <= m < |a| ==> b[m] == a[m])
    requires k <= i && (Receives(a, k, i, env, now) || (k > 0 && Receives(a, k - 1, i, env, now)))
    ensures Receives(b, k, i, env, now)
  {
  }

  lemma SentForSame(a: seq<Socket>, b: seq<Socket>, k: nat, j: nat, i: nat, env: seq<Env>, now: DWord)
    requires |a| == |b| == |env| && (forall m :: k < m < |a| ==> b[m] == a[m])
    requires k < j && SentFor(a, k, j, i, env, now)
    ensures SentFor(b, k + 1, j, i, env, now)
  {
    ReceivesSame(a, b, j + 1, i, env, now);
  }

  // ----- an input -----

  function Able(): seq<Env> {
    seq(SOCKETS, _ => Env(true, true, 0, true, true))
  }

  /** Socket 0 waits for the answer to its SYN, socket 1 for the last answer to its FIN. */
  function TwoClients(to: DeviceInfo, peer: DeviceInfo): Stack {
    var s := Initial(Zeroed());
    var s0 := s.(state := SynRequestSent, remote := to, localPort := PORT_START, remotePort := 80);
    var s1 := s.(state := FinWait1, remote := peer, localPort := PORT_START + 1, remotePort := 25, retryCount := MAX_RETRIES);
    Start().(socket := Start().socket[0 := s0][1 := s1])
  }

  lemma {:induction false} ClosedRest(st: Stack, k: nat, f: Flags, env: seq<Env>, now: DWord)
    requires k <= |st.socket| == |env| && forall m :: k <= m < |st.socket| ==> st.socket[m].state == Closed
    ensures Pass(st, k, f, env, now) == st
    decreases |st.socket| - k
  {
    if k < |st.socket| {
      ClosedRest(st, k + 1, f, env, now);
    }
  }

  lemma TwoClientsHold(to: DeviceInfo, peer: DeviceInfo)
    ensures Inv(TwoClients(to, peer))
  {
    var st := TwoClients(to, peer);
    assert Wf(st) && AllLegal(st.socket) && OwnPorts(st.socket);
  }

  lemma TwoClientsSendFor(to: DeviceInfo, peer: DeviceInfo)
    ensures SentFor(TwoClients(to, peer).socket, 0, 0, 1, Able(), INITIAL_TIMEOUT + 1)
  {
    assert Receives(TwoClients(to, peer).socket, 1, 1, Able(), INITIAL_TIMEOUT + 1);
  }

  /** In a state with the driver's invariant, one pass closes socket 1 and sends the SYN of
      socket 0 from it to the peer of the connection that is given up. */
  lemma SynToOldPeer(to: DeviceInfo, peer: DeviceInfo)
    ensures Inv(TwoClients(to, peer)) && SentFor(TwoClients(to, peer).socket, 0, 0, 1, Able(), INITIAL_TIMEOUT + 1)
    ensures var r := Pass(TwoClients(to, peer), 0, NONE, Able(), INITIAL_TIMEOUT + 1);
      && r.socket[1].state == Closed
      && r.sent == [Segment(to, PORT_START, 80, 0, 0, SYN, 0), Segment(peer, PORT_START + 1, 25, 0, 0, SYN, 0)]
  {
    TwoClientsHold(to, peer);
    TwoClientsSendFor(to, peer);
    var t := FirstTurn(TwoClients(to, peer), Able()[0], INITIAL_TIMEOUT + 1);
    TwoTurns(TwoClients(to, peer), t, Able(), INITIAL_TIMEOUT + 1);
  }

  lemma TwoTurns(st: Stack, t: Stack, env: seq<Env>, now: DWord)
    requires |st.socket| == |t.socket| == |env| == SOCKETS && ProcessSocket(st, 0, NONE, env[0], now) == Turn(t, SYN, true)
    requires TimedOut(t.socket[1], now)
    requires var s := t.socket[1];
      s.state == FinWait1 && s.retryCount == MAX_RETRIES && !s.server && !s.sendWaiting && s.rxRemaining == 0
    requires env[1].nicOk && env[1].canReply && forall m :: 1 < m < SOCKETS ==> t.socket[m].state == Closed
    ensures var s, r := t.socket[1], Pass(st, 0, NONE, env, now);
      && r.socket[1].state == Closed
      && r.sent == t.sent + [Segment(s.remote, s.localPort, s.remotePort, s.sendSeq, s.sendAck, SYN, 0)]
  {
    var u := SecondTurn(t, env[1], now);
    ClosedRest(u, 2, SYN, env, now);
    assert Pass(st, 0, NONE, env, now) == Pass(t, 1, SYN, env, now) == Pass(u, 2, SYN, env, now);
  }

  lemma FirstTurn(st: Stack, env: Env, now: DWord) returns (t: Stack)
    requires |st.socket| == SOCKETS && TimedOut(st.socket[0], now) && env.nicOk && env.canReply
    requires var s := st.socket[0]; s.state == SynRequestSent && !s.sendWaiting && s.rxRemaining == 0
    ensures ProcessSocket(st, 0, NONE, env, now) == Turn(t, SYN, true)
    ensures |t.socket| == SOCKETS && forall i :: 0 < i < SOCKETS ==> t.socket[i] == st.socket[i]
    ensures var s := st.socket[0]; t.sent == st.sent + [Segment(s.remote, s.localPort, s.remotePort, s.sendSeq, s.sendAck, SYN, 0)]
  {
    t := ProcessSocket(st, 0, NONE, env, now).st;
  }

  lemma SecondTurn(st: Stack, env: Env, now: DWord) returns (t: Stack)
    requires |st.socket| == SOCKETS && TimedOut(st.socket[1], now) && env.nicOk && env.canReply
    requires var s := st.socket[1];
      s.state == FinWait1 && s.retryCount == MAX_RETRIES && !s.server && !s.sendWaiting && s.rxRemaining == 0
    ensures ProcessSocket(st, 1, SYN, env, now) == Turn(t, SYN, true)
    ensures |t.socket| == SOCKETS && t.socket[1].state == Closed && forall i :: 1 < i < SOCKETS ==> t.socket[i] == st.socket[i]
    ensures var s := st.socket[1]; t.sent == st.sent + [Segment(s.remote, s.localPort, s.remotePort, s.sendSeq, s.sendAck, SYN, 0)]
  {
    TakesItsTurn(st, 1, SYN, env, now);
    TurnAndFlags(st, 1, SYN, env, now);
    t := ProcessSocket(st, 1, SYN, env, now).st;
    var s := Retry(Restarted(st.socket[1], now), NONE).0;
    assert s == Shut(Restarted(st.socket[1], now));
    RespondSends(With(st, 1, s), 1, SYN);
  }

  lemma RespondSends(st: Stack, i: nat, flags: Flags)
    requires i < |st.socket| && flags != NONE
    ensures var s, r := st.socket[i], Respond(st, i, flags, true);
      && r.sent == st.sent + [Segment(s.remote, s.localPort, s.remotePort, s.sendSeq, s.sendAck, flags, 0)]
      && r.socket[i].state == s.state && forall m :: 0 <= m < |st.socket| && m != i ==> r.socket[m] == st.socket[m]
  {
  }
}
