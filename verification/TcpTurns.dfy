/** What the background pass does for one socket: which segment is repeated, when the
    connection is given up, and that nothing else happens. Flag bits are in the order FIN,
    SYN, RST, ACK. */
module TcpTurns {
  import opened TcpModel
  import opened TcpFlags
  import opened TcpQuiet
  import TcpSegments

  /** The turn of the socket comes to its timeout, and the time is over. */
  predicate Expires(s: Socket, env: Env, now: DWord) {
    && s.rxRemaining == 0 && !s.sendWaiting
    && s.state != Closed && s.state != Listen && s.state != ConnectSendArpRequest
    && (s.state == ConnectWaitArpResponse ==> env.arpAnswer == 0)
    && (now - s.startTime) % 0x1_0000_0000 > s.timeOut
  }

  /** Three times the last segment is repeated. */
  predicate MayRetry(s: Socket) {
    (s.retryCount + 1) % 0x100 <= 3
  }

  /** The flags that are sent again. */
  function Repeated(s: Socket): Flags {
    match s.state
    case SynRequestSent => Flags(false, true, false, false)
    case SynRequestReceived => Flags(false, true, false, true)
    case FinWait1 => Flags(true, false, false, false)
    case LastAckSent => Flags(true, false, false, false)
    case Closing => Flags(false, false, false, true)
    case ConnectionEstablished => s.lastTxFlags
    case _ => Flags(false, false, false, false)
  }

  /** A segment without data is to be sent again: always the SYN of a client, and the last
      one of the other states as long as there are retries left. */
  predicate Repeats(s: Socket) {
    match s.state
    case SynRequestSent => true
    case SynRequestReceived => MayRetry(s)
    case FinWait1 => MayRetry(s)
    case LastAckSent => MayRetry(s)
    case Closing => MayRetry(s)
    case ConnectionEstablished =>
      MayRetry(s) && s.awaitingAck && !s.hadData && s.lastTxFlags != Flags(false, false, false, false)
    case _ => false
  }

  /** The timer starts again with twice the time, 30 seconds at most. */
  function Waiting(s: Socket, now: DWord): Socket {
    var twice := (2 * s.timeOut) % 0x1_0000_0000;
    s.(startTime := now, timeOut := if twice < 3000 then twice else 3000, retryCount := (s.retryCount + 1) % 0x100)
  }

  predicate OthersStay(st: Stack, i: nat, r: Stack) {
    |r.socket| == |st.socket| && forall j :: 0 <= j < |st.socket| && j != i ==> r.socket[j] == st.socket[j]
  }

  /** The command goes to the peer of the socket with the socket's own numbers; it is queued
      if the NIC cannot take it. */
  predicate Commands(st: Stack, i: nat, s: Socket, flags: Flags, canSend: bool, r: Stack)
    requires i < |st.socket|
  {
    && OthersStay(st, i, r)
    && if canSend then
         && r.sent == st.sent + [Segment(s.remote, s.localPort, s.remotePort, s.sendSeq, s.sendAck, flags, 0)]
         && r.socket[i] == s.(hadData := false, resend := false, sendWaiting := false, lastTxFlags := flags, seqInc := r.socket[i].seqInc)
       else
         r.sent == st.sent && r.socket[i] == s.(sendWaiting := true, waitingFlags := flags, seqInc := r.socket[i].seqInc)
  }

  // ----- a socket that timed out -----

  /** The last segment is sent again with its flags, from the socket to its peer, whatever
      the flags of the sockets before. */
  lemma TimeoutRepeats(st: Stack, i: nat, flags: Flags, env: Env, now: DWord)
    requires i < |st.socket| && Expires(st.socket[i], env, now) && Repeats(st.socket[i]) && env.nicOk
    ensures var s, t := st.socket[i], ProcessSocket(st, i, flags, env, now);
      && t.goesOn && t.flags == Repeated(s) && Commands(st, i, Waiting(s, now), Repeated(s), env.canReply, t.st)
      && t.st.socket[i].seqInc == if Repeated(s) == Flags(false, false, false, true) then s.seqInc else 1
  {
    RepeatsItself(st.socket[i], flags, now);
    assert ProcessSocket(st, i, flags, env, now) == Expire(st, i, flags, env, now);
    Responds(st, i, Waiting(st.socket[i], now), Repeated(st.socket[i]), env.canReply);
  }

  lemma RepeatsItself(s: Socket, flags: Flags, now: DWord)
    requires Repeats(s)
    ensures Retry(Restarted(s, now), flags) == (Waiting(s, now), Repeated(s)) && Repeated(s) != NONE
  {
  }

  lemma Responds(st: Stack, i: nat, s: Socket, flags: Flags, canReply: bool)
    requires i < |st.socket| && flags != Flags(false, false, false, false)
    ensures var r := Respond(With(st, i, s), i, flags, canReply);
      Commands(st, i, s, flags, canReply, r) && r.socket[i].seqInc == if flags == Flags(false, false, false, true) then s.seqInc else 1
  {
  }

  /** Unacknowledged data is left to the application to send again. */
  lemma TimeoutAsksForData(st: Stack, i: nat, env: Env, now: DWord)
    requires i < |st.socket| && Expires(st.socket[i], env, now) && env.nicOk && MayRetry(st.socket[i])
    requires var s := st.socket[i]; s.state == ConnectionEstablished && s.awaitingAck && s.hadData
    ensures var s, t := st.socket[i], ProcessSocket(st, i, Flags(false, false, false, false), env, now);
      && t.goesOn && t.flags == Flags(false, false, false, false) && t.st.sent == st.sent && OthersStay(st, i, t.st)
      && t.st.socket[i] == Waiting(s, now).(resend := true, awaitingAck := false, ready := true)
  {
  }

  /** But if sockets before have left flags, these are sent, and with the command the mark
      that the data is to be sent again is lost. */
  lemma TimeoutForgetsData(st: Stack, i: nat, flags: Flags, env: Env, now: DWord)
    requires i < |st.socket| && Expires(st.socket[i], env, now) && env.nicOk && MayRetry(st.socket[i])
    requires var s := st.socket[i]; s.state == ConnectionEstablished && s.awaitingAck && s.hadData
    ensures var s, t := st.socket[i], ProcessSocket(st, i, flags, env, now);
      var r := t.st.socket[i];
      && t.goesOn && t.flags == flags && !r.awaitingAck && r.ready && r.state == ConnectionEstablished
      && (r.resend <==> flags == Flags(false, false, false, false) || !env.canReply)
      && (flags != Flags(false, false, false, false) && env.canReply ==>
            t.st.sent == st.sent + [Segment(s.remote, s.localPort, s.remotePort, s.sendSeq, s.sendAck, flags, 0)])
  {
    var s1 := Waiting(st.socket[i], now).(resend := true, awaitingAck := false, ready := true);
    assert Retry(Restarted(st.socket[i], now), flags) == (s1, flags);
    assert ProcessSocket(st, i, flags, env, now) == Expire(st, i, flags, env, now);
    if flags != NONE {
      Responds(st, i, s1, flags, env.canReply);
    }
  }

  /** Without anything to acknowledge nothing is sent, and the connection stays. */
  lemma TimeoutWhenIdle(st: Stack, i: nat, flags: Flags, env: Env, now: DWord)
    requires i < |st.socket| && Expires(st.socket[i], env, now) && env.nicOk && MayRetry(st.socket[i])
    requires st.socket[i].state == ConnectionEstablished && !st.socket[i].awaitingAck
    ensures var s, t := st.socket[i], ProcessSocket(st, i, flags, env, now);
      && t.goesOn && t.flags == Flags(false, false, false, false) && t.st.sent == st.sent && OthersStay(st, i, t.st)
      && t.st.socket[i] == Waiting(s, now).(retryCount := 0)
  {
  }

  /** After the retries an established connection is ended from this side. */
  lemma TimeoutEnds(st: Stack, i: nat, flags: Flags, env: Env, now: DWord)
    requires i < |st.socket| && Expires(st.socket[i], env, now) && env.nicOk && !MayRetry(st.socket[i])
    requires st.socket[i].state == ConnectionEstablished
    ensures var s, t, finAck := st.socket[i], ProcessSocket(st, i, flags, env, now), Flags(true, false, false, true);
      && t.goesOn && t.flags == finAck && t.st.socket[i].seqInc == 1
      && Commands(st, i, Waiting(s, now).(state := FinWait1, awaitingAck := false, resend := s.resend && !s.awaitingAck), finAck, env.canReply, t.st)
  {
    var s := st.socket[i];
    var s1 := Waiting(s, now).(state := FinWait1, awaitingAck := false, resend := s.resend && !s.awaitingAck);
    assert Retry(Restarted(s, now), flags) == (s1, FIN_ACK);
    assert ProcessSocket(st, i, flags, env, now) == Expire(st, i, flags, env, now);
    Responds(st, i, s1, FIN_ACK, env.canReply);
  }

  /** While ARP has no answer, a timeout only restarts the timer. */
  lemma TimeoutWaitsForArp(st: Stack, i: nat, env: Env, now: DWord)
    requires i < |st.socket| && Expires(st.socket[i], env, now) && env.nicOk && st.socket[i].state == ConnectWaitArpResponse
    ensures var t := ProcessSocket(st, i, Flags(false, false, false, false), env, now);
      t == Turn(With(st, i, Waiting(st.socket[i], now)), Flags(false, false, false, false), true)
  {
  }

  /** The retries of a connection that is being opened or ended are used up. */
  predicate GivesUp(s: Socket) {
    !MayRetry(s) && (s.state == SynRequestReceived || s.state == FinWait1 || s.state == LastAckSent || s.state == Closing)
  }

  /** Then the socket is closed, or listens again, and no segment is added. */
  lemma TimeoutCloses(st: Stack, i: nat, env: Env, now: DWord)
    requires i < |st.socket| && Expires(st.socket[i], env, now) && env.nicOk && GivesUp(st.socket[i])
    ensures var s, t := st.socket[i], ProcessSocket(st, i, Flags(false, false, false, false), env, now);
      && t.goesOn && t.flags == Flags(false, false, false, false) && t.st.sent == st.sent && OthersStay(st, i, t.st)
      && t.st.socket[i] == Waiting(s, now).(state := TcpSegments.Resting(s), rxRemaining := 0, timeOut := 300,
            awaitingAck := false, ready := s.ready || s.awaitingAck, resend := s.resend && !s.awaitingAck)
  {
    TimeoutInherits(st, i, Flags(false, false, false, false), env, now);
  }

  /** In general these sockets send what flags the sockets before have left them. */
  lemma TimeoutInherits(st: Stack, i: nat, flags: Flags, env: Env, now: DWord)
    requires i < |st.socket| && Expires(st.socket[i], env, now) && env.nicOk && GivesUp(st.socket[i])
    ensures var s, t := st.socket[i], ProcessSocket(st, i, flags, env, now);
      t.flags == flags && t.goesOn && t.st == Respond(With(st, i, Shut(Waiting(s, now))), i, flags, env.canReply)
  {
    GivenUp(st.socket[i], flags, now);
    assert ProcessSocket(st, i, flags, env, now) == Expire(st, i, flags, env, now);
  }

  lemma GivenUp(s: Socket, flags: Flags, now: DWord)
    requires GivesUp(s)
    ensures Retry(Restarted(s, now), flags) == (Shut(Waiting(s, now)), flags)
  {
  }

  // ----- the other turns -----

  /** A queued command is tried again first. */
  lemma QueuedCommand(st: Stack, i: nat, flags: Flags, env: Env, now: DWord)
    requires i < |st.socket|
    requires var s := st.socket[i]; s.rxRemaining == 0 && s.sendWaiting && s.state != Closed && s.state != Listen
    ensures var s, t := st.socket[i], ProcessSocket(st, i, flags, env, now);
      t.goesOn && t.flags == flags && Commands(st, i, s, s.waitingFlags, env.canSend, t.st) && t.st.socket[i].seqInc == s.seqInc
  {
  }

  /** The SYN of a client whose peer's MAC address is not known waits for ARP. */
  lemma ArpTurn(st: Stack, i: nat, flags: Flags, env: Env, now: DWord)
    requires i < |st.socket|
    requires var s := st.socket[i];
      s.rxRemaining == 0 && !s.sendWaiting && (s.state == ConnectSendArpRequest || (s.state == ConnectWaitArpResponse && env.arpAnswer != 0))
    ensures var s, t := st.socket[i], ProcessSocket(st, i, flags, env, now);
      && t.goesOn && t.flags == flags && OthersStay(st, i, t.st)
      && if s.state == ConnectSendArpRequest then
           t.st.sent == st.sent && t.st.socket[i] == s.(state := if env.arpAsked then ConnectWaitArpResponse else ConnectSendArpRequest)
         else
           && Commands(st, i, s.(remote := s.remote.(mac := env.arpAnswer), state := SynRequestSent, startTime := now, timeOut := 300),
                Flags(false, true, false, false), env.canSend, t.st)
           && t.st.socket[i].seqInc == 1
  {
    var s := st.socket[i];
    if s.state == ConnectWaitArpResponse {
      ArpAnswered(st, i, flags, env, now);
      SynGoes(With(st, i, s.(remote := s.remote.(mac := env.arpAnswer))), i, now, env.canSend);
    }
  }

  lemma ArpAnswered(st: Stack, i: nat, flags: Flags, env: Env, now: DWord)
    requires i < |st.socket|
    requires var s := st.socket[i]; s.rxRemaining == 0 && !s.sendWaiting && s.state == ConnectWaitArpResponse && env.arpAnswer != 0
    ensures var s := st.socket[i];
      ProcessSocket(st, i, flags, env, now)
        == Turn(SynRequest(With(st, i, s.(remote := s.remote.(mac := env.arpAnswer))), i, now, env.canSend), flags, true)
  {
    var s := st.socket[i];
    SynRequestRestarts(With(st, i, s.(remote := s.remote.(mac := env.arpAnswer))), i, now, env.canSend);
  }

  lemma SynGoes(st: Stack, i: nat, now: DWord, canSend: bool)
    requires i < |st.socket|
    ensures var s, r := st.socket[i], SynRequest(st, i, now, canSend);
      && Commands(st, i, s.(state := SynRequestSent, startTime := now, timeOut := 300), Flags(false, true, false, false), canSend, r)
      && r.socket[i].seqInc == 1
  {
  }

  /** Nothing is due: an unread packet, a socket without a connection, or time that is not
      over yet. */
  predicate NothingDue(s: Socket, env: Env, now: DWord) {
    || s.rxRemaining > 0 || s.state == Closed || s.state == Listen
    || (!s.sendWaiting && s.state != ConnectSendArpRequest && (s.state == ConnectWaitArpResponse ==> env.arpAnswer == 0)
        && (now - s.startTime) % 0x1_0000_0000 <= s.timeOut)
  }

  /** Then the turn does nothing. Neither does a timeout when the NIC cannot transmit, which
      ends the pass. */
  lemma QuietTurn(st: Stack, i: nat, flags: Flags, env: Env, now: DWord)
    requires i < |st.socket|
    ensures NothingDue(st.socket[i], env, now) ==> ProcessSocket(st, i, flags, env, now) == Turn(st, flags, true)
    ensures Expires(st.socket[i], env, now) && !env.nicOk ==> ProcessSocket(st, i, flags, env, now) == Turn(st, flags, false)
  {
  }

  // ----- a whole pass -----

  /** A pass only adds to what was sent. */
  lemma {:induction false} PassAdds(st: Stack, k: nat, flags: Flags, env: seq<Env>, now: DWord)
    requires k <= |st.socket| == |env|
    ensures st.sent <= Pass(st, k, flags, env, now).sent
    decreases |env| - k
  {
    if k < |env| {
      var t := ProcessSocket(st, k, flags, env[k], now);
      TurnAdds(st, k, flags, env[k], now);
      if t.goesOn {
        PassAdds(t.st, k + 1, t.flags, env, now);
      }
    }
  }

  lemma TurnAdds(st: Stack, i: nat, flags: Flags, env: Env, now: DWord)
    requires i < |st.socket|
    ensures st.sent <= ProcessSocket(st, i, flags, env, now).st.sent
  {
    var s := st.socket[i];
    if s.rxRemaining > 0 || s.state == Closed || s.state == Listen || s.sendWaiting || s.state == ConnectSendArpRequest {
    } else if s.state == ConnectWaitArpResponse && env.arpAnswer != 0 {
      ArpAnswered(st, i, flags, env, now);
      SynGoes(With(st, i, s.(remote := s.remote.(mac := env.arpAnswer))), i, now, env.canSend);
    } else {
      assert ProcessSocket(st, i, flags, env, now) == Expire(st, i, flags, env, now);
      ExpireAdds(st, i, flags, env, now);
    }
  }

  lemma ExpireAdds(st: Stack, i: nat, flags: Flags, env: Env, now: DWord)
    requires i < |st.socket|
    ensures st.sent <= Expire(st, i, flags, env, now).st.sent
  {
    var (s1, flags1) := Retry(Restarted(st.socket[i], now), flags);
    if TimedOut(st.socket[i], now) && env.nicOk && flags1 != NONE {
      Responds(st, i, s1, flags1, env.canReply);
    }
  }

  /** The flags that the sockets from k on leave for socket i. */
  function FlagsAt(socket: seq<Socket>, k: nat, flags: Flags, i: nat, env: seq<Env>, now: DWord): Flags
    requires k <= i < |socket| == |env|
    decreases |socket| + i - k
  {
    if k == i then flags
    else FlagsAt(socket, k + 1, if Chooses(socket[k], env[k], now) then Own(socket[k], now) else flags, i, env, now)
  }

  lemma {:induction false} SameFlags(a: seq<Socket>, b: seq<Socket>, k: nat, flags: Flags, i: nat, env: seq<Env>, now: DWord)
    requires k <= i < |a| == |b| == |env| && forall m :: k <= m < |a| ==> b[m] == a[m]
    ensures FlagsAt(b, k, flags, i, env, now) == FlagsAt(a, k, flags, i, env, now)
    decreases i - k
  {
    if k < i {
      SameFlags(a, b, k + 1, if Chooses(a[k], env[k], now) then Own(a[k], now) else flags, i, env, now);
    }
  }

  /** The pass comes to socket i as it is, if no socket before times out while the NIC
      cannot transmit. */
  lemma {:induction false} TurnOf(st: Stack, k: nat, flags: Flags, i: nat, env: seq<Env>, now: DWord) returns (st1: Stack, flags1: Flags)
    requires k <= i < |st.socket| == |env| && GoesOn(st.socket, k, i, env, now)
    ensures |st1.socket| == |st.socket| && st1.socket[i] == st.socket[i] && st.sent <= st1.sent
    ensures Pass(st, k, flags, env, now) == Pass(st1, i, flags1, env, now)
    ensures flags1 == FlagsAt(st.socket, k, flags, i, env, now)
    decreases i - k
  {
    if k == i {
      st1, flags1 := st, flags;
    } else {
      var st0, flags0 := OneTurn(st, k, flags, i, env, now);
      st1, flags1 := TurnOf(st0, k + 1, flags0, i, env, now);
    }
  }

  lemma OneTurn(st: Stack, k: nat, flags: Flags, i: nat, env: seq<Env>, now: DWord) returns (st0: Stack, flags0: Flags)
    requires k < i < |st.socket| == |env| && GoesOn(st.socket, k, i, env, now)
    ensures |st0.socket| == |st.socket| && st0.socket[i] == st.socket[i] && st.sent <= st0.sent
    ensures GoesOn(st0.socket, k + 1, i, env, now) && Pass(st, k, flags, env, now) == Pass(st0, k + 1, flags0, env, now)
    ensures FlagsAt(st0.socket, k + 1, flags0, i, env, now) == FlagsAt(st.socket, k, flags, i, env, now)
  {
    var t := ProcessSocket(st, k, flags, env[k], now);
    st0, flags0 := t.st, t.flags;
    TurnAndFlags(st, k, flags, env[k], now);
    TurnSameFrom(st.socket, st, k, flags, env[k], now);
    TurnAdds(st, k, flags, env[k], now);
    SameFlags(st.socket, st0.socket, k + 1, flags0, i, env, now);
  }

  /** The pass sends the segment, and nothing before it is lost. */
  ghost predicate PassSends(st: Stack, r: Stack, segment: Segment) {
    st.sent <= r.sent && exists n :: |st.sent| <= n < |r.sent| && r.sent[n] == segment
  }

  /** In a whole pass the socket's last segment is sent again, or queued if the NIC cannot
      take it. */
  lemma PassRepeats(st: Stack, i: nat, env: seq<Env>, now: DWord)
    requires i < |st.socket| == |env| && GoesOn(st.socket, 0, i, env, now)
    requires Expires(st.socket[i], env[i], now) && Repeats(st.socket[i]) && env[i].nicOk
    ensures var s, r := st.socket[i], Pass(st, 0, Flags(false, false, false, false), env, now);
      var t := r.socket[i];
      && t.state == s.state && t.startTime == now && t.retryCount == (s.retryCount + 1) % 0x100
      && if env[i].canReply then
           PassSends(st, r, Segment(s.remote, s.localPort, s.remotePort, s.sendSeq, s.sendAck, Repeated(s), 0))
         else t.sendWaiting && t.waitingFlags == Repeated(s)
  {
    var st1, flags := TurnOf(st, 0, Flags(false, false, false, false), i, env, now);
    TimeoutRepeats(st1, i, flags, env[i], now);
    TurnStays(st, st1, i, flags, env, now, Repeated(st.socket[i]));
  }

  /** After the retries, a pass ends an established connection from this side. */
  lemma PassEnds(st: Stack, i: nat, env: seq<Env>, now: DWord)
    requires i < |st.socket| == |env| && GoesOn(st.socket, 0, i, env, now)
    requires Expires(st.socket[i], env[i], now) && !MayRetry(st.socket[i]) && env[i].nicOk && st.socket[i].state == ConnectionEstablished
    ensures var s, r, finAck := st.socket[i], Pass(st, 0, Flags(false, false, false, false), env, now), Flags(true, false, false, true);
      var t := r.socket[i];
      && t.state == FinWait1 && t.seqInc == 1
      && if env[i].canReply then
           PassSends(st, r, Segment(s.remote, s.localPort, s.remotePort, s.sendSeq, s.sendAck, finAck, 0))
         else t.sendWaiting && t.waitingFlags == finAck
  {
    var st1, flags := TurnOf(st, 0, Flags(false, false, false, false), i, env, now);
    TimeoutEnds(st1, i, flags, env[i], now);
    TurnStays(st, st1, i, flags, env, now, Flags(true, false, false, true));
  }

  /** A pass in which unacknowledged data times out has the application send it again if and
      only if no flags are left from the sockets before, or the NIC cannot take them. Else
      the socket counts as ready for new data. */
  lemma DataIsSentAgain(st: Stack, i: nat, env: seq<Env>, now: DWord)
    requires i < |st.socket| == |env| && GoesOn(st.socket, 0, i, env, now)
    requires Expires(st.socket[i], env[i], now) && MayRetry(st.socket[i]) && env[i].nicOk
    requires var s := st.socket[i]; s.state == ConnectionEstablished && s.awaitingAck && s.hadData
    ensures var r, none := Pass(st, 0, Flags(false, false, false, false), env, now), Flags(false, false, false, false);
      var t := r.socket[i];
      && t.ready && !t.awaitingAck && t.state == ConnectionEstablished
      && (t.resend <==> FlagsAt(st.socket, 0, none, i, env, now) == none || !env[i].canReply)
  {
    var st1, flags := TurnOf(st, 0, Flags(false, false, false, false), i, env, now);
    TimeoutForgetsData(st1, i, flags, env[i], now);
    TurnStays(st, st1, i, flags, env, now, flags);
  }

  /** What the turn of socket i has sent, and the socket, stay to the end of the pass. */
  lemma TurnStays(st: Stack, st1: Stack, i: nat, flags: Flags, env: seq<Env>, now: DWord, sent: Flags)
    requires i < |st.socket| == |st1.socket| == |env| && st1.socket[i] == st.socket[i] && st.sent <= st1.sent
    requires ProcessSocket(st1, i, flags, env[i], now).goesOn
    ensures var s, r := st.socket[i], Pass(st1, i, flags, env, now);
      var turn, segment := ProcessSocket(st1, i, flags, env[i], now).st, Segment(s.remote, s.localPort, s.remotePort, s.sendSeq, s.sendAck, sent, 0);
      r.socket[i] == turn.socket[i] && (turn.sent == st1.sent + [segment] ==> PassSends(st, r, segment))
  {
    var t := ProcessSocket(st1, i, flags, env[i], now);
    PassAdds(t.st, i + 1, t.flags, env, now);
    PassedSocket(t.st, i, i + 1, t.flags, env, now);
    if |t.st.sent| == |st1.sent| + 1 {
      assert Pass(st1, i, flags, env, now).sent[|st1.sent|] == t.st.sent[|st1.sent|];
    }
  }
}
