/** What holds in every state that the TCP driver can reach. */
module TcpRuns {
  import opened TcpModel
  import opened TcpPorts

  // ----- runs -----

  /** Everything that can happen to the driver: a background pass, a packet, or a call of
      an application, with what the NIC, ARP and the clock say. */
  datatype Event =
    | Init
    | Background(env: seq<Env>, now: DWord)
    | Received(p: Packet, now: DWord, canSend: bool)
    | Open(port: Word)
    | ConnectTo(to: DeviceInfo, port: Word, now: DWord, canSend: bool)
    | Disconnect(socket: Byte, canSend: bool)
    | Close(socket: Byte)
    | CloseListener(socket: Byte)
    | SendData(socket: Byte, length: Word, now: DWord, nicOk: bool, canSetup: bool)
    | Read
    | Dump

  predicate MayAwaitAck(state: State) {
    state == ConnectionEstablished || state == FinWait1 || state == Closing || state == LastAckSent
  }

  /** Sockets are named by their numbers, data is sent on sockets that deal with its
      acknowledgement, and bytes are read of a socket in the table. */
  predicate Allowed(st: Stack, e: Event) {
    match e
    case Background(env, _) => |env| == SOCKETS
    case Disconnect(i, _) => i < SOCKETS
    case SendData(i, _, _, _, _) => i < SOCKETS && i < |st.socket| && MayAwaitAck(st.socket[i].state)
    case Read => HasActive(st)
    case Dump => HasActive(st)
    case _ => true
  }

  /** tcp_setup_socket_tx, the writes, and tcp_socket_tx_packet. */
  function SendOn(st: Stack, i: Byte, length: Word, now: DWord, nicOk: bool, canSetup: bool): Stack
    requires i < |st.socket|
  {
    if !nicOk || !ReadyToTx(st, i) then st
    else if !canSetup then SetupTx(st, i)
    else TxPacket(SetupTx(st, i), i, length, now)
  }

  function Step(st: Stack, e: Event): Stack
    requires Wf(st) && Allowed(st, e)
  {
    match e
    case Init => Initialise(st)
    case Background(env, now) => Pass(st, 0, NONE, env, now)
    case Received(p, now, canSend) => ProcessRx(st, p, now, canSend)
    case Open(port) => OpenToListen(st, port)
    case ConnectTo(to, port, now, canSend) => Connect(st, to, port, now, canSend)
    case Disconnect(i, canSend) => RequestDisconnect(st, i, canSend)
    case Close(i) => CloseSocket(st, i)
    case CloseListener(i) => CloseFromListen(st, i)
    case SendData(i, length, now, nicOk, canSetup) => SendOn(st, i, length, now, nicOk, canSetup)
    case Read => ReadByte(st)
    case Dump => DumpRx(st)
  }

  // ----- the invariant -----

  /** Stop and wait, the retry counter, and the back-off of one socket. */
  predicate Legal(s: Socket) {
    && (s.awaitingAck ==> !s.ready && MayAwaitAck(s.state)) && (s.resend ==> s.ready && !s.awaitingAck)
    && (s.state == SynRequestReceived || s.state == ConnectionEstablished ==> s.retryCount <= MAX_RETRIES)
    && (s.state == FinWait1 || s.state == Closing || s.state == LastAckSent ==> s.retryCount <= MAX_RETRIES + 1)
    && INITIAL_TIMEOUT <= s.timeOut <= MAX_TIMEOUT && (s.state == Listen ==> s.server)
  }

  predicate AllLegal(socket: seq<Socket>) {
    forall i :: 0 <= i < |socket| ==> Legal(socket[i])
  }

  /** Only the active socket has unread data, and only while a packet waits. */
  predicate OneReader(socket: seq<Socket>, waiting: bool, active: Byte) {
    forall i :: 0 <= i < |socket| && socket[i].rxRemaining > 0 ==> waiting && active == i
  }

  predicate Client(s: Socket) {
    s.state != Closed && !s.server
  }

  /** The clients' ports are in the range and pairwise different. */
  predicate OwnPorts(socket: seq<Socket>) {
    && (forall i :: 0 <= i < |socket| && Client(socket[i]) ==> PORT_START <= socket[i].localPort <= PORT_END)
    && (forall i, j :: 0 <= i < j < |socket| && Client(socket[i]) && Client(socket[j]) ==> socket[i].localPort != socket[j].localPort)
  }

  predicate Inv(st: Stack) {
    Wf(st) && AllLegal(st.socket) && OneReader(st.socket, st.waiting, st.active) && OwnPorts(st.socket)
  }

  // ----- one socket changes -----

  /** A change that neither takes a port nor brings unread data. */
  predicate Tame(s: Socket, t: Socket) {
    && t.localPort == s.localPort
    && (Client(t) ==> Client(s))
    && (t.rxRemaining > 0 ==> s.rxRemaining > 0)
  }

  lemma WithTame(st: Stack, i: nat, t: Socket)
    requires Inv(st) && i < SOCKETS && Legal(t) && Tame(st.socket[i], t)
    ensures Inv(With(st, i, t))
  {
  }

  /** A socket with the queueing of a command, or without its queue. */
  lemma SendKeeps(st: Stack, i: nat, flags: Flags, canSend: bool)
    requires Inv(st) && i < SOCKETS
    ensures Inv(SendCommand(st, i, flags, canSend))
    ensures var s, t := st.socket[i], SendCommand(st, i, flags, canSend).socket[i];
      t == s.(hadData := t.hadData, resend := t.resend, sendWaiting := t.sendWaiting, lastTxFlags := t.lastTxFlags, waitingFlags := t.waitingFlags)
      && (t.resend ==> s.resend)
  {
    WithTame(st, i, SendCommand(st, i, flags, canSend).socket[i]);
  }

  lemma ShutIsLegal(s: Socket)
    requires Legal(s)
    ensures Legal(Shut(s)) && Tame(s, Shut(s)) && !Client(Shut(s))
  {
  }

  // ----- each event -----

  lemma DisconnectKeeps(st: Stack, i: nat, canSend: bool)
    requires Inv(st) && i < SOCKETS
    ensures Inv(RequestDisconnect(st, i, canSend))
  {
    if st.socket[i].state != ConnectionEstablished {
      WithTame(st, i, Shut(st.socket[i]));
    } else {
      WithTame(st, i, st.socket[i].(rxRemaining := 0));
      SendKeeps(Withdrawn(st, i), i, FinFlags(st), canSend);
      var st2 := SendCommand(Withdrawn(st, i), i, FinFlags(st), canSend);
      WithTame(st2, i, st2.socket[i].(state := FinWait1, seqInc := 1));
    }
  }

  /** What a segment does to a socket that is not closed and has no unread data. */
  predicate Sound(s: Socket, r: Reaction) {
    && Legal(r.socket) && r.socket.localPort == s.localPort && r.socket.server == s.server
    && (r.dumped ==> r.socket.rxRemaining == 0) && (r.dumped || !r.ends)
  }

  lemma SynIsSound(s: Socket, h: Header, length: Word)
    requires Legal(s) && s.rxRemaining == 0 && s.retryCount == 0
    ensures s.state == SynRequestReceived ==> Sound(s, OnSynReceived(s, h, length))
    ensures s.state == SynRequestSent ==> Sound(s, OnSynSent(s, h, length))
  {
  }

  lemma ClosingIsSound(s: Socket, h: Header)
    requires Legal(s) && s.rxRemaining == 0 && s.retryCount == 0
    ensures s.state == FinWait1 ==> Sound(s, OnFinWait1(s, h))
    ensures Sound(s, OnAwaitingLastAck(s, h))
  {
  }

  lemma EstablishedIsSound(s: Socket, h: Header, length: Word)
    requires Legal(s) && s.rxRemaining == 0 && s.retryCount == 0 && s.state == ConnectionEstablished
    ensures Sound(s, OnEstablished(s, h, length))
  {
  }

  lemma NextIsSound(s: Socket, h: Header, length: Word)
    requires Legal(s) && s.rxRemaining == 0 && s.retryCount == 0 && s.state != SynRequestReceived
    ensures Sound(s, OnNext(s, h, length))
  {
    var s1 := s.(sendAck := Wrap32(h.number + length));
    assert Legal(s1);
    if h.number != s.sendAck {
    } else if s.state == ConnectionEstablished {
      EstablishedIsSound(s1, h, length);
      assert OnNext(s, h, length) == OnEstablished(s1, h, length);
    } else if s.state == FinWait1 {
      ClosingIsSound(s1, h);
      assert OnNext(s, h, length) == OnFinWait1(s1, h);
    } else if s.state == LastAckSent || s.state == Closing {
      ClosingIsSound(s1, h);
      assert OnNext(s, h, length) == OnAwaitingLastAck(s1, h);
    }
  }

  lemma ExpectedIsSound(s: Socket, h: Header, length: Word)
    requires Legal(s) && s.rxRemaining == 0 && s.retryCount == 0
    ensures Sound(s, OnExpected(s, h, length))
  {
    if s.state == SynRequestReceived || s.state == SynRequestSent {
      SynIsSound(s, h, length);
    } else {
      NextIsSound(s, h, length);
    }
  }

  lemma SegmentIsSound(s: Socket, from: DeviceInfo, h: Header, length: Word, now: DWord, startSeq: DWord)
    requires Legal(s) && s.state != Closed && s.rxRemaining == 0
    ensures Sound(s, OnSegment(s, from, h, length, now, startSeq))
  {
    var s1 := Heard(s, now);
    assert Legal(s1);
    ExpectedIsSound(s1, h, length);
  }

  lemma TakenKeeps(st: Stack, i: Byte, from: DeviceInfo, h: Header, r: Reaction, canSend: bool)
    requires Inv(st) && !st.waiting && i < SOCKETS && st.socket[i].state != Closed && Sound(st.socket[i], r)
    ensures Inv(Waits(Taken(st, i, from, h, r, canSend), i, r.dumped))
  {
  }

  /** The answer to the packet just taken. */
  lemma AnswerKeeps(st: Stack, i: Byte, reply: Flags, dumped: bool, canSend: bool)
    requires i < |st.socket| && Inv(Waits(st, i, dumped))
    ensures Inv(Waits(Answer(st, i, reply, dumped, canSend), i, dumped))
  {
    if reply != NONE && dumped {
      SendKeeps(st.(respFlags := NONE), i, reply, canSend);
    }
  }

  lemma NewPacketKeeps(st: Stack, p: Packet, now: DWord, canSend: bool)
    requires Inv(st) && !st.waiting
    ensures Inv(NewPacket(st, p, now, canSend))
  {
    var next := NewPacket(st, p, now, canSend);
    if !p.intact {
      assert next == st;
    } else {
      MatchedKeeps(st, p.from, p.h);
      var m, st1 := Match(st.socket, p.from, p.h), Matched(st, p.from, p.h);
      if m == INVALID_SOCKET {
        assert next == Unmatched(st, p, canSend) && Inv(next);
      } else {
        SegmentKeeps(st1, m, p, now, canSend);
        assert next == Delivered(st1, m, p, OnSegment(st1.socket[m], p.from, p.h, DataLength(p), now, Wrap32(st1.nextSeq + 1)), canSend);
      }
    }
  }

  lemma SegmentKeeps(st: Stack, i: Byte, p: Packet, now: DWord, canSend: bool)
    requires Inv(st) && !st.waiting && i < SOCKETS && st.socket[i].state != Closed
    ensures Inv(Delivered(st, i, p, OnSegment(st.socket[i], p.from, p.h, DataLength(p), now, Wrap32(st.nextSeq + 1)), canSend))
  {
    var r := OnSegment(st.socket[i], p.from, p.h, DataLength(p), now, Wrap32(st.nextSeq + 1));
    SegmentIsSound(st.socket[i], p.from, p.h, DataLength(p), now, Wrap32(st.nextSeq + 1));
    DeliveredKeeps(st, i, p, r, canSend);
  }

  lemma DeliveredKeeps(st: Stack, i: Byte, p: Packet, r: Reaction, canSend: bool)
    requires Inv(st) && !st.waiting && i < SOCKETS && st.socket[i].state != Closed && Sound(st.socket[i], r)
    ensures Inv(Delivered(st, i, p, r, canSend))
  {
    TakenKeeps(st, i, p.from, p.h, r, canSend);
    AnswerKeeps(Taken(st, i, p.from, p.h, r, canSend), i, r.reply, r.dumped, canSend);
  }

  lemma MatchedKeeps(st: Stack, from: DeviceInfo, h: Header)
    requires Inv(st)
    ensures var m, st1 := Match(st.socket, from, h), Matched(st, from, h);
      Inv(st1) && st1.waiting == st.waiting && (m != INVALID_SOCKET ==> m < SOCKETS && st1.socket[m].state != Closed)
  {
    var m := Match(st.socket, from, h);
    if m != INVALID_SOCKET && !Connected(st.socket[m], from, h) {
      WithTame(st, m, Accept(st.socket[m], from, h));
    }
  }

  lemma ReceivedKeeps(st: Stack, p: Packet, now: DWord, canSend: bool)
    requires Inv(st)
    ensures Inv(ProcessRx(st, p, now, canSend))
  {
    if !st.waiting {
      NewPacketKeeps(st, p, now, canSend);
    } else if st.socket[st.active].rxRemaining == 0 {
      if st.respFlags != NONE {
        SendKeeps(st, st.respSocket, st.respFlags, canSend);
      }
    } else if st.socket[st.active].state != ConnectionEstablished {
      WithTame(st, st.active, st.socket[st.active].(rxRemaining := 0));
    }
  }

  lemma OpenKeeps(st: Stack, port: Word)
    requires Inv(st)
    ensures Inv(OpenToListen(st, port))
  {
  }

  lemma SynRequestKeeps(st: Stack, i: nat, now: DWord, canSend: bool)
    requires Inv(st) && i < SOCKETS && !st.socket[i].awaitingAck && st.socket[i].state != Closed
    ensures Inv(SynRequest(st, i, now, canSend))
  {
    SendKeeps(st, i, SYN, canSend);
    var st1 := SendCommand(st, i, SYN, canSend);
    WithTame(st1, i, st1.socket[i].(state := SynRequestSent, seqInc := 1, startTime := now, timeOut := INITIAL_TIMEOUT));
  }

  lemma NewClient(st: Stack, i: nat, t: Socket)
    requires Inv(st) && i < SOCKETS && Legal(t) && t.rxRemaining == 0
    requires PORT_START <= t.localPort <= PORT_END && !Busy(st.socket, i, t.localPort)
    ensures Inv(With(st, i, t))
  {
    var socket := With(st, i, t).socket;
    forall j | 0 <= j < |socket| && j != i && Client(socket[j]) ensures socket[j].localPort != t.localPort {
      assert socket[j] == st.socket[j];
    }
  }

  /** The new client takes a port that no other open socket has. */
  lemma ConnectKeeps(st: Stack, to: DeviceInfo, port: Word, now: DWord, canSend: bool)
    requires Inv(st)
    ensures Inv(Connect(st, to, port, now, canSend))
  {
    var i := FirstClosed(st.socket, 0);
    if i < SOCKETS {
      BusyPortsFew(st.socket, i, st.nextPort, BusyPorts(st.socket, i, st.nextPort, 0));
      AssignedFacts(st, i, to, port);
      StartKeeps(st, i, Assigned(st, i, to, port), now, canSend);
    }
  }

  lemma AssignedFacts(st: Stack, i: nat, to: DeviceInfo, port: Word)
    requires Inv(st) && i < SOCKETS && st.socket[i].state == Closed
    requires BusyPorts(st.socket, i, st.nextPort, 0) < SOCKETS
    ensures var st1 := Assigned(st, i, to, port);
      var t := st1.socket[i];
      && Wf(st1) && st1 == With(st, i, t).(nextPort := st1.nextPort, nextSeq := st1.nextSeq)
      && t.state == Closed && Legal(t) && !t.awaitingAck && t.rxRemaining == 0
      && PORT_START <= t.localPort <= PORT_END && !Busy(st.socket, i, t.localPort)
  {
  }

  lemma StartKeeps(st: Stack, i: nat, st1: Stack, now: DWord, canSend: bool)
    requires Inv(st) && i < SOCKETS && Wf(st1) && st1 == With(st, i, st1.socket[i]).(nextPort := st1.nextPort, nextSeq := st1.nextSeq)
    requires var t := st1.socket[i];
      && t.state == Closed && Legal(t) && !t.awaitingAck && t.rxRemaining == 0
      && PORT_START <= t.localPort <= PORT_END && !Busy(st.socket, i, t.localPort)
    ensures Inv(StartConnection(st1, i, now, canSend))
  {
    var t := st1.socket[i];
    if t.remote.mac != 0 {
      var t1 := SynRequest(st1, i, now, canSend).socket[i];
      NewClient(st, i, t1);
      assert With(st, i, t1).socket == SynRequest(st1, i, now, canSend).socket;
    } else {
      var t1 := t.(state := ConnectSendArpRequest, startTime := now, timeOut := INITIAL_TIMEOUT);
      NewClient(st, i, t1);
      assert With(st, i, t1).socket == With(st1, i, t1).socket;
    }
  }

  lemma SetupTxKeeps(st: Stack, i: nat)
    requires Inv(st) && i < SOCKETS && ReadyToTx(st, i)
    ensures Inv(SetupTx(st, i))
  {
    WithTame(st, i, SetupTx(st, i).socket[i]);
  }

  /** A data packet keeps the invariant exactly in a state that deals with acknowledgements. */
  lemma TxPacketKeeps(st: Stack, i: nat, length: Word, now: DWord)
    requires Inv(st) && i < SOCKETS
    ensures Inv(TxPacket(st, i, length, now)) <==> MayAwaitAck(st.socket[i].state)
  {
    var t := TxPacket(st, i, length, now).socket[i];
    assert Legal(t) <==> MayAwaitAck(st.socket[i].state);
    if MayAwaitAck(st.socket[i].state) {
      WithTame(st, i, t);
    }
  }

  lemma SendDataKeeps(st: Stack, i: Byte, length: Word, now: DWord, nicOk: bool, canSetup: bool)
    requires Inv(st) && i < SOCKETS && MayAwaitAck(st.socket[i].state)
    ensures Inv(SendOn(st, i, length, now, nicOk, canSetup))
  {
    if nicOk && ReadyToTx(st, i) {
      SetupTxKeeps(st, i);
      if canSetup {
        TxPacketKeeps(SetupTx(st, i), i, length, now);
      }
    }
  }

  // ----- the background pass -----

  lemma RetryIsLegal(s: Socket, flags: Flags, now: DWord)
    requires Legal(s) && s.state != Closed && s.state != Listen
    ensures Legal(Retry(Restarted(s, now), flags).0)
  {
    var s1 := Restarted(s, now);
    assert INITIAL_TIMEOUT <= s1.timeOut <= MAX_TIMEOUT;
    if s.state == ConnectionEstablished {
      assert s1.retryCount == s.retryCount + 1;
    } else if s1.retryCount > MAX_RETRIES {
      assert Legal(Shut(s1));
    }
  }

  lemma RetryIsTame(s: Socket, flags: Flags, now: DWord)
    requires s.state != Closed && s.state != Listen
    ensures Tame(s, Retry(Restarted(s, now), flags).0)
  {
  }

  lemma RespondKeeps(st: Stack, i: nat, flags: Flags, canReply: bool)
    requires Inv(st) && i < SOCKETS
    ensures Inv(Respond(st, i, flags, canReply))
  {
    if flags != NONE {
      SendKeeps(st, i, flags, canReply);
      var st1 := SendCommand(st, i, flags, canReply);
      WithTame(st1, i, st1.socket[i].(seqInc := 1));
    }
  }

  lemma ExpireKeeps(st: Stack, i: nat, flags: Flags, env: Env, now: DWord)
    requires Inv(st) && i < SOCKETS && st.socket[i].state != Closed && st.socket[i].state != Listen
    ensures Inv(Expire(st, i, flags, env, now).st)
  {
    var s := st.socket[i];
    if TimedOut(s, now) && env.nicOk {
      RetryIsLegal(s, flags, now);
      RetryIsTame(s, flags, now);
      var (s1, flags1) := Retry(Restarted(s, now), flags);
      WithTame(st, i, s1);
      RespondKeeps(With(st, i, s1), i, flags1, env.canReply);
    }
  }

  lemma ProcessSocketKeeps(st: Stack, i: nat, flags: Flags, env: Env, now: DWord)
    requires Inv(st) && i < SOCKETS
    ensures Inv(ProcessSocket(st, i, flags, env, now).st)
  {
    var s := st.socket[i];
    if s.rxRemaining > 0 || s.state == Closed || s.state == Listen {
    } else if s.sendWaiting {
      SendKeeps(st, i, s.waitingFlags, env.canSend);
    } else if s.state == ConnectSendArpRequest {
      WithTame(st, i, if env.arpAsked then s.(state := ConnectWaitArpResponse) else s);
    } else if s.state == ConnectWaitArpResponse && env.arpAnswer != 0 {
      var st1 := With(st, i, s.(remote := s.remote.(mac := env.arpAnswer)));
      WithTame(st, i, st1.socket[i]);
      SynRequestKeeps(st1, i, now, env.canSend);
      ExpireKeeps(SynRequest(st1, i, now, env.canSend), i, flags, env, now);
    } else {
      ExpireKeeps(st, i, flags, env, now);
    }
  }

  lemma {:induction false} PassKeeps(st: Stack, i: nat, flags: Flags, env: seq<Env>, now: DWord)
    requires Inv(st) && i <= SOCKETS == |env|
    ensures Inv(Pass(st, i, flags, env, now))
    decreases SOCKETS - i
  {
    if i < SOCKETS {
      ProcessSocketKeeps(st, i, flags, env[i], now);
      var t := ProcessSocket(st, i, flags, env[i], now);
      if t.goesOn {
        PassKeeps(t.st, i + 1, t.flags, env, now);
      }
    }
  }

  // ----- every run -----

  lemma InitialiseKeeps(st: Stack)
    requires Wf(st)
    ensures Inv(Initialise(st))
  {
  }

  lemma StepKeepsInv(st: Stack, e: Event)
    requires Inv(st) && Allowed(st, e)
    ensures Inv(Step(st, e))
  {
    match e
    case Init => InitialiseKeeps(st);
    case Background(env, now) => PassKeeps(st, 0, NONE, env, now);
    case Received(p, now, canSend) => ReceivedKeeps(st, p, now, canSend);
    case Open(port) => OpenKeeps(st, port);
    case ConnectTo(to, port, now, canSend) => ConnectKeeps(st, to, port, now, canSend);
    case Disconnect(i, canSend) => DisconnectKeeps(st, i, canSend);
    case Close(i) =>
      if i < SOCKETS {
        ShutIsLegal(st.socket[i]);
        WithTame(st, i, Shut(st.socket[i]));
      }
    case CloseListener(i) =>
      if i < SOCKETS {
        CloseListenerKeeps(st, i);
      }
    case SendData(i, length, now, nicOk, canSetup) => SendDataKeeps(st, i, length, now, nicOk, canSetup);
    case Read =>
      var s := st.socket[st.active];
      if s.rxRemaining > 0 {
        WithTame(st, st.active, s.(rxRemaining := s.rxRemaining - 1));
      }
    case Dump => WithTame(st, st.active, st.socket[st.active].(rxRemaining := 0));
  }

  lemma CloseListenerKeeps(st: Stack, i: nat)
    requires Inv(st) && i < SOCKETS
    ensures Inv(With(st, i, Shut(st.socket[i].(server := false))))
  {
    var t := Shut(st.socket[i].(server := false));
    assert t.state == Closed;
    WithTame(st, i, t);
  }

  function Start(): Stack {
    Initialise(PowerUp())
  }

  /** The events in turn, those that are not allowed left out. */
  function Run(st: Stack, events: seq<Event>): Stack
    decreases |events|
  {
    if events == [] then st
    else if Wf(st) && Allowed(st, events[0]) then Run(Step(st, events[0]), events[1..])
    else Run(st, events[1..])
  }

  lemma {:induction false} RunKeepsInv(st: Stack, events: seq<Event>)
    requires Inv(st)
    ensures Inv(Run(st, events))
    decreases |events|
  {
    if events != [] {
      if Allowed(st, events[0]) {
        StepKeepsInv(st, events[0]);
        RunKeepsInv(Step(st, events[0]), events[1..]);
      } else {
        RunKeepsInv(st, events[1..]);
      }
    }
  }

  /** What holds of every socket after every run from power-up. */
  lemma EveryRun(events: seq<Event>)
    ensures var st := Run(Start(), events);
      && Wf(st)
      && (forall s <- st.socket :: s.awaitingAck ==> !s.ready && MayAwaitAck(s.state))
      && (forall s <- st.socket :: s.resend ==> s.ready && !s.awaitingAck)
      && (forall s <- st.socket :: INITIAL_TIMEOUT <= s.timeOut <= MAX_TIMEOUT)
      && (forall i :: 0 <= i < SOCKETS && st.socket[i].rxRemaining > 0 ==> st.waiting && st.active == i)
  {
    InitialiseKeeps(PowerUp());
    RunKeepsInv(Start(), events);
  }

  /** After every run, the client sockets that are not closed have different local ports
      from the range for automatic use. */
  lemma EveryRunPorts(events: seq<Event>)
    ensures var socket := Run(Start(), events).socket;
      && (forall s <- socket :: Client(s) ==> PORT_START <= s.localPort <= PORT_END)
      && (forall i, j :: 0 <= i < j < |socket| && Client(socket[i]) && Client(socket[j]) ==> socket[i].localPort != socket[j].localPort)
  {
    InitialiseKeeps(PowerUp());
    RunKeepsInv(Start(), events);
  }

  /** Reading and dumping index the table with the active socket's number. In every state of
      a run this is allowed exactly if the number is not TCP_INVALID_SOCKET. */
  lemma EveryRunReads(events: seq<Event>)
    ensures var st := Run(Start(), events);
      Allowed(st, Read) == Allowed(st, Dump) == (st.active != INVALID_SOCKET)
  {
    InitialiseKeeps(PowerUp());
    RunKeepsInv(Start(), events);
  }

  /** And it is TCP_INVALID_SOCKET as soon as a packet was read to its end and taken from
      the receive slot: a further call would read entry 0xfe of a table of ten. */
  lemma NothingToReadAfterPacket(st: Stack, p: Packet, now: DWord, canSend: bool)
    requires Wf(st) && st.waiting && st.socket[st.active].rxRemaining == 0
    ensures var r := ProcessRx(st, p, now, canSend); r.active == INVALID_SOCKET >= |r.socket| && !Allowed(r, Read) && !Allowed(r, Dump)
  {
    assert ProcessRx(st, p, now, canSend) == Finished(st, canSend);
  }

  /** Data is to be sent on connected sockets only: sending keeps the invariant if and only
      if the socket is in a state in which an acknowledgement is dealt with. */
  lemma SendingNeedsConnection(st: Stack, i: Byte, length: Word, now: DWord)
    requires Inv(st) && i < SOCKETS && ReadyToTx(st, i)
    ensures Inv(SendOn(st, i, length, now, true, true)) <==> MayAwaitAck(st.socket[i].state)
  {
    SetupTxKeeps(st, i);
    TxPacketKeeps(SetupTx(st, i), i, length, now);
  }

  /** An input: right after initialisation socket 0 is closed and ready, and sending on it
      leaves it awaiting an acknowledgement that nothing deals with. */
  lemma SendingWhenClosed(length: Word, now: DWord)
    ensures ReadyToTx(Start(), 0) && Start().socket[0].state == Closed
    ensures var st := SendOn(Start(), 0, length, now, true, true); st.socket[0].awaitingAck && st.socket[0].state == Closed && !Inv(st)
  {
    InitialiseKeeps(PowerUp());
    SendingNeedsConnection(Start(), 0, length, now);
  }
}
