/** What a received segment does to a connection, in the terms of the protocol: sequence
    numbers, states and answers, for one segment and for whole exchanges. */
module TcpSegments {
  import opened TcpModel

  /** The number of the next byte that this side will send, all it has sent being counted. */
  function NextOwn(s: Socket): int {
    (s.sendSeq + s.seqInc) % 0x1_0000_0000
  }

  /** The segment acknowledges all that was sent, or is a FIN; and it is no reset. */
  predicate Expected(s: Socket, h: Header) {
    !h.flags.rst && (h.ack == NextOwn(s) || h.flags.fin)
  }

  /** It is also the next one of the other side. */
  predicate InOrder(s: Socket, h: Header) {
    Expected(s, h) && h.number == s.sendAck
  }

  /** Where a socket is without a connection. */
  function Resting(s: Socket): State {
    if s.server then Listen else Closed
  }

  // ----- one segment -----

  lemma WrapTwice(x: int, y: int)
    ensures (x % 0x1_0000_0000 + y) % 0x1_0000_0000 == (x + y) % 0x1_0000_0000
  {
  }

  /** The number that is expected next of the other side. SYN and FIN count as one byte. */
  lemma ExpectedNext(st: Stack, i: nat, from: DeviceInfo, h: Header, length: Word, now: DWord, canSend: bool)
    requires i < |st.socket| <= SOCKETS
    ensures var s, sendAck := st.socket[i], ProcessSegment(st, i, from, h, length, now, canSend).socket[i].sendAck;
      match s.state
      case Listen => sendAck == (h.number + length + 1) % 0x1_0000_0000
      case SynRequestSent => sendAck == if Expected(s, h) && h.flags.syn then (h.number + length + 1) % 0x1_0000_0000 else s.sendAck
      case SynRequestReceived => sendAck == if Expected(s, h) && h.flags.ack then (h.number + length) % 0x1_0000_0000 else s.sendAck
      case ConnectionEstablished =>
        sendAck == if InOrder(s, h) then (h.number + length + if h.flags.fin then 1 else 0) % 0x1_0000_0000 else s.sendAck
      case FinWait1 =>
        sendAck == if InOrder(s, h) then (h.number + length + if h.flags.fin then 1 else 0) % 0x1_0000_0000 else s.sendAck
      case _ => sendAck == if InOrder(s, h) then (h.number + length) % 0x1_0000_0000 else s.sendAck
  {
    WrapTwice(h.number + length, 1);
    ReactionSocket(st, i, from, h, length, now, canSend);
  }

  /** The own numbers: what was sent is counted, and a SYN or a FIN that is sent now will be. */
  lemma OwnNumbers(st: Stack, i: nat, from: DeviceInfo, h: Header, length: Word, now: DWord, canSend: bool)
    requires i < |st.socket| <= SOCKETS
    ensures var s, r := st.socket[i], ProcessSegment(st, i, from, h, length, now, canSend);
      var t := r.socket[i];
      if s.state == Listen then
        r.nextSeq == (st.nextSeq + 1) % 0x1_0000_0000 == t.sendSeq && t.seqInc == if h.flags.syn then 1 else 0
      else
        && r.nextSeq == st.nextSeq
        && t.sendSeq == (if s.state == SynRequestSent && Expected(s, h) && h.flags.syn && !h.flags.ack
            then (NextOwn(s) + 1) % 0x1_0000_0000 else NextOwn(s))
        && t.seqInc == if s.state == ConnectionEstablished && InOrder(s, h) && h.flags.fin then 1 else 0
  {
    ReactionNumbers(st.socket[i], from, h, length, now, Wrap32(st.nextSeq + 1));
    ReactionSocket(st, i, from, h, length, now, canSend);
  }

  /** The state, and what ends a connection. */
  lemma NextState(st: Stack, i: nat, from: DeviceInfo, h: Header, length: Word, now: DWord, canSend: bool)
    requires i < |st.socket| <= SOCKETS
    ensures var s, state := st.socket[i], ProcessSegment(st, i, from, h, length, now, canSend).socket[i].state;
      if s.state == Listen then state == if h.flags.syn then SynRequestReceived else Listen
      else if h.flags.rst then state == Resting(s)
      else if !Expected(s, h) then state == s.state
      else if s.state == SynRequestReceived then state == if h.flags.ack then ConnectionEstablished else s.state
      else if s.state == SynRequestSent then
        state == if !h.flags.syn then s.state else if h.flags.ack then ConnectionEstablished else SynRequestReceived
      else if h.number != s.sendAck then state == s.state
      else if s.state == ConnectionEstablished then state == if h.flags.fin then LastAckSent else s.state
      else if s.state == FinWait1 then state == if !h.flags.fin then s.state else if h.flags.ack then Resting(s) else Closing
      else if s.state == Closing || s.state == LastAckSent then state == if h.flags.ack then Resting(s) else s.state
      else state == s.state
  {
    ReactionSocket(st, i, from, h, length, now, canSend);
  }

  /** The segment's data is left for the application. */
  predicate LeavesData(s: Socket, h: Header, length: Word) {
    length > 0 &&
      if s.state == SynRequestReceived then Expected(s, h) && h.flags.ack
      else if s.state == SynRequestSent then Expected(s, h) && h.flags.syn
      else s.state == ConnectionEstablished && InOrder(s, h)
  }

  /** Unread data, the acknowledgement of sent data, and the timer. */
  lemma DataAndTimer(st: Stack, i: nat, from: DeviceInfo, h: Header, length: Word, now: DWord, canSend: bool)
    requires i < |st.socket| <= SOCKETS
    ensures var s, t := st.socket[i], ProcessSegment(st, i, from, h, length, now, canSend).socket[i];
      && t.retryCount == 0 && t.startTime == now && t.timeOut == 300
      && (LeavesData(s, h, length) ==> t.rxRemaining == length)
      && (!LeavesData(s, h, length) && t.state == s.state ==> t.rxRemaining == s.rxRemaining || t.rxRemaining == 0)
      && (s.state == ConnectionEstablished && InOrder(s, h) && h.flags.ack && s.awaitingAck ==> !t.awaitingAck && t.ready && !t.resend)
      && (s.state == ConnectionEstablished && t.state == s.state && !(InOrder(s, h) && h.flags.ack) ==> t.awaitingAck == s.awaitingAck)
  {
    ReactionNumbers(st.socket[i], from, h, length, now, Wrap32(st.nextSeq + 1));
    ReactionData(st.socket[i], from, h, length, now, Wrap32(st.nextSeq + 1));
    if st.socket[i].state == ConnectionEstablished {
      ReactionAck(st.socket[i], from, h, length, now, Wrap32(st.nextSeq + 1));
    }
    ReactionSocket(st, i, from, h, length, now, canSend);
  }

  /** Whether the socket may send, and whether it waits for an acknowledgement. */
  lemma Readiness(st: Stack, i: nat, from: DeviceInfo, h: Header, length: Word, now: DWord, canSend: bool)
    requires i < |st.socket| <= SOCKETS && st.socket[i].state != Closed
    ensures var s, t := st.socket[i], ProcessSegment(st, i, from, h, length, now, canSend).socket[i];
      if s.state == Listen then t.awaitingAck == s.awaitingAck && t.ready == s.ready
      else if s.state == SynRequestSent && Expected(s, h) && h.flags.syn then
        t.ready && t.awaitingAck == s.awaitingAck && t.state != Resting(s)
      else if s.state == ConnectionEstablished && InOrder(s, h) && h.flags.ack && s.awaitingAck then
        !t.awaitingAck && t.ready && t.state != Resting(s)
      else EndsOrStays(s, t)
  {
    ReactionReady(st.socket[i], from, h, length, now, Wrap32(st.nextSeq + 1));
    ReactionSocket(st, i, from, h, length, now, canSend);
  }

  /** Who the peer is changes only when a listening socket is called. */
  lemma PeerAndOthers(st: Stack, i: nat, from: DeviceInfo, h: Header, length: Word, now: DWord, canSend: bool)
    requires i < |st.socket| <= SOCKETS
    ensures var s, r := st.socket[i], ProcessSegment(st, i, from, h, length, now, canSend);
      var t := r.socket[i];
      && |r.socket| == |st.socket| && (forall j :: 0 <= j < |st.socket| && j != i ==> r.socket[j] == st.socket[j])
      && t.localPort == s.localPort && t.server == s.server
      && (s.state != Listen ==> t.remote == s.remote && t.remotePort == s.remotePort)
      && (s.state == Listen && h.flags.syn ==> t.remote == from && t.remotePort == h.sourcePort)
      && (s.state == Listen && !h.flags.syn ==> t.remote.ip == 0)
      && r.waiting == st.waiting && r.active == st.active && r.nextPort == st.nextPort
  {
    ReactionNumbers(st.socket[i], from, h, length, now, Wrap32(st.nextSeq + 1));
    ProcessedOthers(st, i, from, h, OnSegment(st.socket[i], from, h, length, now, Wrap32(st.nextSeq + 1)), canSend);
    ReactionSocket(st, i, from, h, length, now, canSend);
  }

  // ----- the answer -----

  /** Bits in the order FIN, SYN, RST, ACK. */
  function AnswerFlags(s: Socket, h: Header, length: Word): Flags {
    match s.state
    case Listen => if h.flags.syn then Flags(false, true, false, true) else Flags(false, false, false, false)
    case SynRequestSent =>
      if !Expected(s, h) || !h.flags.syn then Flags(false, false, false, false)
      else if h.flags.ack then Flags(false, false, false, true)
      else Flags(false, true, false, true)
    case ConnectionEstablished =>
      if !InOrder(s, h) then Flags(false, false, false, false)
      else if h.flags.fin then Flags(true, false, false, true)
      else Flags(false, false, false, length > 0)
    case FinWait1 => Flags(false, false, false, InOrder(s, h) && h.flags.fin)
    case _ => Flags(false, false, false, false)
  }

  /** A segment that fits no connection here is answered with a reset that has its
      acknowledgement for a number. */
  predicate Resets(s: Socket, h: Header) {
    if s.state == Listen then !h.flags.syn else s.state == SynRequestSent && !h.flags.rst && !Expected(s, h)
  }

  /** The answer is kept while data waits to be read, else it goes out at once with the new
      numbers, or is queued; a reset is sent apart from it. */
  lemma AnswerGoesOut(st: Stack, i: nat, from: DeviceInfo, h: Header, length: Word, now: DWord, canSend: bool)
    requires i < |st.socket| <= SOCKETS
    ensures var s, r := st.socket[i], ProcessSegment(st, i, from, h, length, now, canSend);
      var t, flags := r.socket[i], AnswerFlags(s, h, length);
      if Resets(s, h) then
        && r.sent == st.sent + (if canSend then [Segment(from, h.destinationPort, h.sourcePort, h.ack, h.number, Flags(false, false, true, false), 0)] else [])
        && r.respFlags == Flags(false, false, false, false)
      else if flags == Flags(false, false, false, false) then
        r.sent == st.sent && (r.respFlags == Flags(false, false, false, false) || r.respFlags == st.respFlags)
      else if LeavesData(s, h, length) then
        r.sent == st.sent && r.respSocket == i && r.respFlags == flags
      else
        && r.respFlags == Flags(false, false, false, false)
        && if canSend then
             && r.sent == st.sent + [Segment(t.remote, t.localPort, t.remotePort, t.sendSeq, t.sendAck, flags, 0)]
             && !t.hadData && !t.resend && !t.sendWaiting && t.lastTxFlags == flags
           else r.sent == st.sent && t.sendWaiting && t.waitingFlags == flags
  {
    ReactionIs(st.socket[i], from, h, length, now, Wrap32(st.nextSeq + 1));
    ProcessedSent(st, i, from, h, OnSegment(st.socket[i], from, h, length, now, Wrap32(st.nextSeq + 1)), canSend);
  }

  // ----- the steps of the proof -----

  /** Up to what sending the answer changes, the socket is that of the reaction. */
  lemma ReactionSocket(st: Stack, i: nat, from: DeviceInfo, h: Header, length: Word, now: DWord, canSend: bool)
    requires i < |st.socket| <= SOCKETS
    ensures var r := OnSegment(st.socket[i], from, h, length, now, Wrap32(st.nextSeq + 1)).socket;
      var after := ProcessSegment(st, i, from, h, length, now, canSend);
      var t := after.socket[i];
      && t == r.(hadData := t.hadData, resend := t.resend, sendWaiting := t.sendWaiting, lastTxFlags := t.lastTxFlags, waitingFlags := t.waitingFlags)
      && (t.resend ==> r.resend)
      && after.nextSeq == if st.socket[i].state == Listen then Wrap32(st.nextSeq + 1) else st.nextSeq
  {
    var r := OnSegment(st.socket[i], from, h, length, now, Wrap32(st.nextSeq + 1));
    assert ProcessSegment(st, i, from, h, length, now, canSend) == Processed(st, i, from, h, r, canSend);
    ProcessedSocket(st, i, from, h, OnSegment(st.socket[i], from, h, length, now, Wrap32(st.nextSeq + 1)), canSend);
  }

  lemma ProcessedSocket(st: Stack, i: nat, from: DeviceInfo, h: Header, r: Reaction, canSend: bool)
    requires i < |st.socket| <= SOCKETS
    ensures var s, after := r.socket, Processed(st, i, from, h, r, canSend);
      var t := after.socket[i];
      && t == s.(hadData := t.hadData, resend := t.resend, sendWaiting := t.sendWaiting, lastTxFlags := t.lastTxFlags, waitingFlags := t.waitingFlags)
      && (t.resend ==> s.resend)
      && after.nextSeq == if st.socket[i].state == Listen then Wrap32(st.nextSeq + 1) else st.nextSeq
  {
    AnswerSocket(Taken(st, i, from, h, r, canSend), i, r.reply, r.dumped, canSend);
  }

  lemma AnswerSocket(st: Stack, i: nat, reply: Flags, dumped: bool, canSend: bool)
    requires i < |st.socket| <= SOCKETS
    ensures var s, after := st.socket[i], Answer(st, i, reply, dumped, canSend);
      var t := after.socket[i];
      && t == s.(hadData := t.hadData, resend := t.resend, sendWaiting := t.sendWaiting, lastTxFlags := t.lastTxFlags, waitingFlags := t.waitingFlags)
      && (t.resend ==> s.resend) && after.nextSeq == st.nextSeq
  {
  }

  lemma ProcessedOthers(st: Stack, i: nat, from: DeviceInfo, h: Header, r: Reaction, canSend: bool)
    requires i < |st.socket| <= SOCKETS
    ensures var after := Processed(st, i, from, h, r, canSend);
      && |after.socket| == |st.socket| && (forall j :: 0 <= j < |st.socket| && j != i ==> after.socket[j] == st.socket[j])
      && after.waiting == st.waiting && after.active == st.active && after.nextPort == st.nextPort
  {
  }

  /** The same connection, with the same timer or a fresh one. */
  predicate Kin(s: Socket, t: Socket) {
    && t.localPort == s.localPort && t.remotePort == s.remotePort && t.remote == s.remote && t.server == s.server
    && t.retryCount == s.retryCount && t.startTime == s.startTime && (t.timeOut == s.timeOut || t.timeOut == 300)
  }

  lemma EstablishedNumbers(s: Socket, h: Header, length: Word)
    ensures var t := OnEstablished(s, h, length).socket;
      Kin(s, t) && t.sendSeq == s.sendSeq && t.seqInc == if h.flags.fin then 1 else s.seqInc
  {
  }

  lemma ClosingNumbers(s: Socket, h: Header)
    ensures var t := OnFinWait1(s, h).socket; Kin(s, t) && t.sendSeq == s.sendSeq && t.seqInc == s.seqInc
    ensures var t := OnAwaitingLastAck(s, h).socket; Kin(s, t) && t.sendSeq == s.sendSeq && t.seqInc == s.seqInc
  {
  }

  lemma NextNumbers(s: Socket, h: Header, length: Word)
    ensures var t := OnNext(s, h, length).socket;
      && Kin(s, t) && t.sendSeq == s.sendSeq
      && t.seqInc == if s.state == ConnectionEstablished && h.number == s.sendAck && h.flags.fin then 1 else s.seqInc
  {
    var s1 := s.(sendAck := Wrap32(h.number + length));
    if h.number != s.sendAck {
    } else if s.state == ConnectionEstablished {
      EstablishedNumbers(s1, h, length);
      assert OnNext(s, h, length) == OnEstablished(s1, h, length);
    } else if s.state == FinWait1 {
      ClosingNumbers(s1, h);
      assert OnNext(s, h, length) == OnFinWait1(s1, h);
    } else if s.state == LastAckSent || s.state == Closing {
      ClosingNumbers(s1, h);
      assert OnNext(s, h, length) == OnAwaitingLastAck(s1, h);
    }
  }

  lemma SynNumbers(s: Socket, h: Header, length: Word)
    requires s.seqInc == 0
    ensures var t := OnSynReceived(s, h, length).socket; Kin(s, t) && t.sendSeq == s.sendSeq && t.seqInc == 0
    ensures var t := OnSynSent(s, h, length).socket;
      && Kin(s, t) && t.seqInc == 0
      && t.sendSeq == if h.flags.syn && !h.flags.ack then (s.sendSeq + 1) % 0x1_0000_0000 else s.sendSeq
  {
  }

  lemma HandledNumbers(s: Socket, h: Header, length: Word)
    requires s.seqInc == 0
    ensures var t := OnExpected(s, h, length).socket;
      && Kin(s, t)
      && t.sendSeq == (if s.state == SynRequestSent && h.flags.syn && !h.flags.ack then (s.sendSeq + 1) % 0x1_0000_0000 else s.sendSeq)
      && t.seqInc == if s.state == ConnectionEstablished && h.number == s.sendAck && h.flags.fin then 1 else 0
  {
    SynNumbers(s, h, length);
    NextNumbers(s, h, length);
  }

  lemma ListenNumbers(s: Socket, from: DeviceInfo, h: Header, length: Word, startSeq: DWord)
    requires s.state == Listen
    ensures var t := OnListen(s, from, h, length, startSeq).socket;
      && t.sendSeq == startSeq && t.seqInc == (if h.flags.syn then 1 else 0)
      && t.retryCount == s.retryCount && t.startTime == s.startTime && t.timeOut == s.timeOut
      && t.localPort == s.localPort && t.server == s.server
      && if h.flags.syn then t.remote == from && t.remotePort == h.sourcePort else t.remote.ip == 0
  {
  }

  /** Numbers, peer and timer of every reaction. */
  lemma ReactionNumbers(s: Socket, from: DeviceInfo, h: Header, length: Word, now: DWord, startSeq: DWord)
    ensures var t := OnSegment(s, from, h, length, now, startSeq).socket;
      && t.retryCount == 0 && t.startTime == now && t.timeOut == 300 && t.localPort == s.localPort && t.server == s.server
      && if s.state == Listen then
           && t.sendSeq == startSeq && t.seqInc == (if h.flags.syn then 1 else 0)
           && if h.flags.syn then t.remote == from && t.remotePort == h.sourcePort else t.remote.ip == 0
         else
           && t.remote == s.remote && t.remotePort == s.remotePort
           && t.sendSeq == (if s.state == SynRequestSent && Expected(s, h) && h.flags.syn && !h.flags.ack
               then (NextOwn(s) + 1) % 0x1_0000_0000 else NextOwn(s))
           && t.seqInc == if s.state == ConnectionEstablished && InOrder(s, h) && h.flags.fin then 1 else 0
  {
    var s1 := Heard(s, now);
    if s.state == Listen {
      ListenNumbers(s1, from, h, length, startSeq);
    } else if h.flags.rst {
      ShutNumbers(s1);
    } else if s1.sendSeq == h.ack || h.flags.fin {
      HandledNumbers(s1, h, length);
      assert OnSegment(s, from, h, length, now, startSeq) == OnExpected(s1, h, length);
    }
  }

  lemma ShutNumbers(s: Socket)
    ensures Kin(s, Shut(s)) && Shut(s).sendSeq == s.sendSeq && Shut(s).seqInc == s.seqInc
  {
  }

  lemma NextData(s: Socket, h: Header, length: Word)
    ensures var t := OnNext(s, h, length).socket;
      && (length > 0 && s.state == ConnectionEstablished && h.number == s.sendAck ==> t.rxRemaining == length)
      && (t.state == s.state && !(length > 0 && s.state == ConnectionEstablished && h.number == s.sendAck) ==>
            t.rxRemaining == s.rxRemaining || t.rxRemaining == 0)
  {
    var s1 := s.(sendAck := Wrap32(h.number + length));
    if s.state == ConnectionEstablished && h.number == s.sendAck {
      assert OnNext(s, h, length) == OnEstablished(s1, h, length);
    }
  }

  lemma SynData(s: Socket, h: Header, length: Word)
    ensures s.state == SynRequestReceived ==> var t := OnSynReceived(s, h, length).socket;
      t.rxRemaining == if length > 0 && h.flags.ack then length else s.rxRemaining
    ensures s.state == SynRequestSent ==> var t := OnSynSent(s, h, length).socket;
      t.rxRemaining == if length > 0 && h.flags.syn then length else s.rxRemaining
  {
  }

  lemma ReactionData(s: Socket, from: DeviceInfo, h: Header, length: Word, now: DWord, startSeq: DWord)
    ensures var t := OnSegment(s, from, h, length, now, startSeq).socket;
      && (LeavesData(s, h, length) ==> t.rxRemaining == length)
      && (!LeavesData(s, h, length) && t.state == s.state ==> t.rxRemaining == s.rxRemaining || t.rxRemaining == 0)
  {
    var s1 := Heard(s, now);
    SynData(s1, h, length);
    NextData(s1, h, length);
  }

  lemma ReactionAck(s: Socket, from: DeviceInfo, h: Header, length: Word, now: DWord, startSeq: DWord)
    requires s.state == ConnectionEstablished
    ensures var t := OnSegment(s, from, h, length, now, startSeq).socket;
      && (InOrder(s, h) && h.flags.ack && s.awaitingAck ==> !t.awaitingAck && t.ready && !t.resend)
      && (t.state == s.state && !(InOrder(s, h) && h.flags.ack) ==> t.awaitingAck == s.awaitingAck)
  {
  }

  /** The connection is over, or the socket may send as before. */
  predicate EndsOrStays(s: Socket, t: Socket) {
    if t.state == Resting(s) then !t.awaitingAck && t.ready == (s.ready || s.awaitingAck) && t.rxRemaining == 0
    else t.awaitingAck == s.awaitingAck && t.ready == s.ready
  }

  lemma EstablishedReady(s: Socket, h: Header, length: Word)
    ensures var t := OnEstablished(s, h, length).socket;
      s.state == ConnectionEstablished ==>
        && t.state != Closed && t.state != Listen
        && if h.flags.ack && s.awaitingAck then !t.awaitingAck && t.ready else t.awaitingAck == s.awaitingAck && t.ready == s.ready
  {
  }

  lemma ClosingReady(s: Socket, h: Header)
    requires s.state == FinWait1 || s.state == Closing || s.state == LastAckSent
    ensures EndsOrStays(s, OnFinWait1(s, h).socket) && EndsOrStays(s, OnAwaitingLastAck(s, h).socket)
  {
  }

  lemma NextReady(s: Socket, h: Header, length: Word)
    requires s.state != Closed && s.state != Listen
    ensures var t := OnNext(s, h, length).socket;
      if s.state == ConnectionEstablished && h.number == s.sendAck && h.flags.ack && s.awaitingAck then
        !t.awaitingAck && t.ready && t.state != Resting(s)
      else EndsOrStays(s, t)
  {
    var s1 := s.(sendAck := Wrap32(h.number + length));
    if h.number != s.sendAck {
    } else if s.state == ConnectionEstablished {
      EstablishedReady(s1, h, length);
      assert OnNext(s, h, length) == OnEstablished(s1, h, length);
    } else if s.state == FinWait1 {
      ClosingReady(s1, h);
      assert OnNext(s, h, length) == OnFinWait1(s1, h);
    } else if s.state == LastAckSent || s.state == Closing {
      ClosingReady(s1, h);
      assert OnNext(s, h, length) == OnAwaitingLastAck(s1, h);
    }
  }

  lemma SynReady(s: Socket, h: Header, length: Word)
    ensures s.state == SynRequestReceived ==> EndsOrStays(s, OnSynReceived(s, h, length).socket)
    ensures s.state == SynRequestSent ==> var t := OnSynSent(s, h, length).socket;
      && t.state != Closed && t.state != Listen
      && if h.flags.syn then t.ready && t.awaitingAck == s.awaitingAck else EndsOrStays(s, t)
  {
  }

  lemma ReactionReady(s: Socket, from: DeviceInfo, h: Header, length: Word, now: DWord, startSeq: DWord)
    requires s.state != Closed
    ensures var t := OnSegment(s, from, h, length, now, startSeq).socket;
      if s.state == Listen then t.awaitingAck == s.awaitingAck && t.ready == s.ready
      else if s.state == SynRequestSent && Expected(s, h) && h.flags.syn then
        t.ready && t.awaitingAck == s.awaitingAck && t.state != Resting(s)
      else if s.state == ConnectionEstablished && InOrder(s, h) && h.flags.ack && s.awaitingAck then
        !t.awaitingAck && t.ready && t.state != Resting(s)
      else EndsOrStays(s, t)
  {
    var s1 := Heard(s, now);
    if s.state == Listen {
      assert OnSegment(s, from, h, length, now, startSeq) == OnListen(s1, from, h, length, startSeq);
    } else if h.flags.rst {
      assert OnSegment(s, from, h, length, now, startSeq).socket == Shut(s1);
    } else if s1.sendSeq == h.ack || h.flags.fin {
      assert OnSegment(s, from, h, length, now, startSeq) == OnExpected(s1, h, length);
      if s.state == SynRequestSent || s.state == SynRequestReceived {
        SynReady(s1, h, length);
      } else {
        NextReady(s1, h, length);
      }
    } else {
      assert OnSegment(s, from, h, length, now, startSeq).socket == s1;
    }
  }

  lemma ReactionIs(s: Socket, from: DeviceInfo, h: Header, length: Word, now: DWord, startSeq: DWord)
    ensures var r := OnSegment(s, from, h, length, now, startSeq);
      && r.reset == Resets(s, h)
      && (r.reset ==> r.reply == Flags(false, false, false, false) && !r.ends)
      && r.reply == AnswerFlags(s, h, length)
      && (r.ends ==> r.reply == Flags(false, false, false, false))
      && (r.reply != Flags(false, false, false, false) ==> r.dumped == !LeavesData(s, h, length))
  {
  }

  lemma ProcessedSent(st: Stack, i: nat, from: DeviceInfo, h: Header, r: Reaction, canSend: bool)
    requires i < |st.socket| <= SOCKETS && (r.reset || r.ends ==> r.reply == NONE)
    ensures var after := Processed(st, i, from, h, r, canSend);
      var t := after.socket[i];
      if r.reset then
        && after.sent == st.sent + (if canSend then [Segment(from, h.destinationPort, h.sourcePort, h.ack, h.number, Flags(false, false, true, false), 0)] else [])
        && (!r.ends ==> after.respFlags == NONE)
      else if r.reply == Flags(false, false, false, false) then
        after.sent == st.sent && after.respFlags == if r.ends then st.respFlags else NONE
      else if !r.dumped then after.sent == st.sent && after.respSocket == i && after.respFlags == r.reply
      else
        && after.respFlags == NONE
        && if canSend then
             && after.sent == st.sent + [Segment(t.remote, t.localPort, t.remotePort, t.sendSeq, t.sendAck, r.reply, 0)]
             && !t.hadData && !t.resend && !t.sendWaiting && t.lastTxFlags == r.reply
           else after.sent == st.sent && t.sendWaiting && t.waitingFlags == r.reply
  {
  }
}
