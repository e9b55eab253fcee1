/** What the calls of applications and single packets do, in the terms of the protocol.
    Flag bits are in the order FIN, SYN, RST, ACK. */
module TcpCalls {
  import opened TcpModel
  import opened TcpRuns
  import opened TcpSegments
  import opened TcpTurns

  // ----- initialise -----

  /** After initialisation there are ten closed sockets, and nothing is sent or waits. */
  lemma AfterInitialise(st: Stack)
    ensures var r := Initialise(st);
      && |r.socket| == |st.socket| && r.nextPort == 1024 && !r.waiting && r.sent == st.sent && r.nextSeq == st.nextSeq
      && forall i :: 0 <= i < |r.socket| ==> Unused(r.socket[i])
    ensures |PowerUp().socket| == 10 && PowerUp().sent == [] && PowerUp().nextSeq == 0
  {
  }

  predicate Unused(s: Socket) {
    s.state == Closed && s.rxRemaining == 0 && s.timeOut == 300 && s.ready && !s.awaitingAck && !s.hadData && !s.resend && !s.sendWaiting
  }

  // ----- packets -----

  /** The data is what is left of the packet after a header of so many 32-bit words. */
  lemma DataIsRest(p: Packet)
    ensures 4 * p.headerWords <= p.ipBytes ==> DataLength(p) == p.ipBytes - 4 * p.headerWords
  {
  }

  /** The matching socket has the port, and the sender for a peer unless it listens; no
      socket before it has this peer, and without one, none after it listens. */
  lemma WhoIsMatched(socket: seq<Socket>, from: DeviceInfo, h: Header)
    requires |socket| <= SOCKETS
    ensures var m := Match(socket, from, h);
      && (m == 0xfe || m < |socket|)
      && (m < |socket| ==>
            && socket[m].localPort == h.destinationPort && socket[m].state != Closed
            && (socket[m].state == Listen || (socket[m].remote.ip == from.ip && socket[m].remotePort == h.sourcePort)))
      && forall k :: 0 <= k < |socket| && socket[k].state != Closed && socket[k].localPort == h.destinationPort ==>
           && (socket[k].remote.ip == from.ip && socket[k].remotePort == h.sourcePort ==>
                 m <= k && socket[m].remote.ip == from.ip && socket[m].remotePort == h.sourcePort)
           && (socket[k].state == Listen ==>
                 m < |socket| && (k <= m || (socket[m].remote.ip == from.ip && socket[m].remotePort == h.sourcePort)))
  {
    MatchIsMatch(socket, from, h);
    forall k | 0 <= k < |socket| && socket[k].state != Closed && socket[k].localPort == h.destinationPort
      ensures socket[k].remote.ip == from.ip && socket[k].remotePort == h.sourcePort ==> Connected(socket[k], from, h)
      ensures socket[k].state == Listen ==> Listening(socket[k], h)
    {
    }
  }

  /** A packet for no socket is answered with a reset behind its last byte. */
  lemma Refused(st: Stack, p: Packet, now: DWord, canSend: bool)
    requires Wf(st) && !st.waiting && p.intact && Match(st.socket, p.from, p.h) == 0xfe
    ensures var number := p.h.ack + DataLength(p) + if p.h.flags.syn || p.h.flags.fin then 1 else 0;
      var reset := Segment(p.from, p.h.destinationPort, p.h.sourcePort, number % 0x1_0000_0000, p.h.number, Flags(false, false, true, false), 0);
      ProcessRx(st, p, now, canSend) == if canSend then st.(sent := st.sent + [reset]) else st
  {
  }

  /** A caller gets a listening socket, which answers its SYN, and is ready to send unless it
      was left unready by this very peer. */
  lemma Answered(st: Stack, i: nat, p: Packet, now: DWord)
    requires Inv(st) && !st.waiting && p.intact && p.h.flags.syn && i < SOCKETS
    requires Match(st.socket, p.from, p.h) == i && st.socket[i].state == Listen
    ensures var s, r := st.socket[i], ProcessRx(st, p, now, true);
      var t := r.socket[i];
      && t.state == SynRequestReceived && t.localPort == p.h.destinationPort && t.remotePort == p.h.sourcePort && t.remote == p.from
      && !t.awaitingAck && !t.sendWaiting && t.rxRemaining == 0
      && t.ready == (s.ready || s.remote.ip != p.from.ip || s.remotePort != p.h.sourcePort)
      && t.sendSeq == r.nextSeq == (st.nextSeq + 1) % 0x1_0000_0000 && t.seqInc == 1
      && t.sendAck == (p.h.number + DataLength(p) + 1) % 0x1_0000_0000
      && r.sent == st.sent
        + [Segment(p.from, p.h.destinationPort, p.h.sourcePort, t.sendSeq, t.sendAck, Flags(false, true, false, true), 0)]
  {
    var st1 := Matched(st, p.from, p.h);
    GetsReady(st, i, p.from, p.h);
    ListenDumps(st1.socket[i], p.from, p.h, DataLength(p), now, Wrap32(st1.nextSeq + 1));
    assert ProcessRx(st, p, now, true) == ProcessSegment(st1, i, p.from, p.h, DataLength(p), now, true);
    ListenAnswers(st1, i, p.from, p.h, DataLength(p), now);
  }

  lemma ListenAnswers(st: Stack, i: nat, from: DeviceInfo, h: Header, length: Word, now: DWord)
    requires i < |st.socket| <= SOCKETS && st.socket[i].state == Listen && h.flags.syn
    ensures var s, r := st.socket[i], ProcessSegment(st, i, from, h, length, now, true);
      var t := r.socket[i];
      && t.state == SynRequestReceived && t.localPort == s.localPort && t.remotePort == h.sourcePort && t.remote == from
      && t.awaitingAck == s.awaitingAck && !t.sendWaiting && t.rxRemaining == s.rxRemaining && t.ready == s.ready
      && t.sendSeq == r.nextSeq == (st.nextSeq + 1) % 0x1_0000_0000 && t.seqInc == 1
      && t.sendAck == (h.number + length + 1) % 0x1_0000_0000
      && r.sent == st.sent + [Segment(from, s.localPort, h.sourcePort, t.sendSeq, t.sendAck, Flags(false, true, false, true), 0)]
  {
    ExpectedNext(st, i, from, h, length, now, true);
    OwnNumbers(st, i, from, h, length, now, true);
    NextState(st, i, from, h, length, now, true);
    Readiness(st, i, from, h, length, now, true);
    PeerAndOthers(st, i, from, h, length, now, true);
    AnswerGoesOut(st, i, from, h, length, now, true);
    ListenKeepsData(st, i, from, h, length, now);
  }

  lemma GetsReady(st: Stack, i: nat, from: DeviceInfo, h: Header)
    requires Inv(st) && !st.waiting && i < SOCKETS && Match(st.socket, from, h) == i && st.socket[i].state == Listen
    ensures var s, r := st.socket[i], Matched(st, from, h);
      && r == With(st, i, r.socket[i]) && !r.socket[i].awaitingAck && r.socket[i].rxRemaining == 0
      && r.socket[i].ready == (s.ready || s.remote.ip != from.ip || s.remotePort != h.sourcePort)
      && r.socket[i].state == Listen && r.socket[i].localPort == h.destinationPort
  {
    MatchIsMatch(st.socket, from, h);
    assert Legal(st.socket[i]) && st.socket[i].rxRemaining == 0;
  }

  lemma ListenDumps(s: Socket, from: DeviceInfo, h: Header, length: Word, now: DWord, startSeq: DWord)
    requires s.state == Listen
    ensures OnSegment(s, from, h, length, now, startSeq).dumped
    ensures OnSegment(s, from, h, length, now, startSeq).socket.rxRemaining == s.rxRemaining
  {
  }

  lemma ListenKeepsData(st: Stack, i: nat, from: DeviceInfo, h: Header, length: Word, now: DWord)
    requires i < |st.socket| <= SOCKETS && st.socket[i].state == Listen
    ensures ProcessSegment(st, i, from, h, length, now, true).socket[i].rxRemaining == st.socket[i].rxRemaining
  {
    ListenDumps(st.socket[i], from, h, length, now, Wrap32(st.nextSeq + 1));
    ReactionSocket(st, i, from, h, length, now, true);
  }

  /** A damaged packet changes nothing. A packet that waits stays until its data is read, or
      the connection is no longer established. */
  lemma SlotIsHeld(st: Stack, p: Packet, now: DWord, canSend: bool)
    requires Wf(st)
    ensures !st.waiting && !p.intact ==> ProcessRx(st, p, now, canSend) == st
    ensures st.waiting && st.socket[st.active].rxRemaining > 0 ==> var s, r := st.socket[st.active], ProcessRx(st, p, now, canSend);
      if s.state == ConnectionEstablished then r == st
      else r == st.(socket := st.socket[st.active := s.(rxRemaining := 0)])
    ensures st.waiting && st.socket[st.active].rxRemaining == 0 ==> var s, r := st.socket[st.respSocket], ProcessRx(st, p, now, canSend);
      && !r.waiting && r.active == 0xfe
      && if st.respFlags == Flags(false, false, false, false) then r.socket == st.socket && r.sent == st.sent
         else Commands(st, st.respSocket, s, st.respFlags, canSend, r) && r.respFlags == Flags(false, false, false, false)
  {
  }

  /** So many bytes of the packet are asked for. */
  function ReadBytes(st: Stack, n: nat): Stack
    requires Wf(st) && HasActive(st)
    decreases n
  {
    if n == 0 then st else ReadBytes(ReadByte(st), n - 1)
  }

  /** The same, with so many bytes left to read. */
  function Leaving(st: Stack, left: Word): (r: Stack)
    requires Wf(st) && HasActive(st)
    ensures Wf(r) && HasActive(r)
  {
    st.(socket := st.socket[st.active := st.socket[st.active].(rxRemaining := left)])
  }

  lemma ReadsOne(st: Stack, left: Word)
    requires Wf(st) && HasActive(st)
    ensures ReadByte(Leaving(st, left)) == Leaving(st, if left > 0 then left - 1 else 0)
  {
    var st1 := Leaving(st, left);
    assert left > 0 ==> Leaving(st1, left - 1) == Leaving(st, left - 1);
  }

  /** Each one is one byte less to read, and reading all is dumping. */
  lemma {:induction false} ReadingEnds(st: Stack, left: Word, n: nat)
    requires Wf(st) && HasActive(st)
    ensures ReadBytes(Leaving(st, left), n) == Leaving(st, if n < left then left - n else 0)
    ensures ReadBytes(Leaving(st, left), left) == DumpRx(st)
    decreases n + left
  {
    ReadsOne(st, left);
    if left > 0 {
      ReadingEnds(st, left - 1, if n > 0 then n - 1 else 0);
    } else if n > 0 {
      ReadingEnds(st, left, n - 1);
    }
  }

  // ----- listening and connecting -----

  /** The first closed socket is set to listen on the port, for any peer. */
  lemma Listens(st: Stack, port: Word)
    requires exists k :: 0 <= k < |st.socket| && st.socket[k].state == Closed
    ensures var r := OpenToListen(st, port);
      exists i :: 0 <= i < |st.socket| && st.socket[i].state == Closed && (forall j :: 0 <= j < i ==> st.socket[j].state != Closed)
        && OthersStay(st, i, r) && r.sent == st.sent
        && var t := r.socket[i];
           && t.state == Listen && t.server && t.localPort == port && t.remotePort == 0 && t.remote.ip == 0
           && t.rxRemaining == 0 && !t.ready && !t.awaitingAck && !t.resend && !t.sendWaiting
  {
    var i := FirstClosed(st.socket, 0);
    assert i < |st.socket| && OthersStay(st, i, OpenToListen(st, port));
  }

  lemma NoSocketLeft(st: Stack, port: Word, to: DeviceInfo, now: DWord, canSend: bool)
    requires Wf(st) && forall k :: 0 <= k < |st.socket| ==> st.socket[k].state != Closed
    ensures OpenToListen(st, port) == st && Connect(st, to, port, now, canSend) == st
  {
  }

  /** A client whose peer's MAC address is not known waits for ARP, and sends nothing. */
  lemma AsksArpFirst(st: Stack, to: DeviceInfo, port: Word, now: DWord, canSend: bool)
    requires Wf(st) && to.mac == 0 && exists k :: 0 <= k < |st.socket| && st.socket[k].state == Closed
    ensures var r := Connect(st, to, port, now, canSend);
      exists i :: 0 <= i < |st.socket| && st.socket[i].state == Closed && OthersStay(st, i, r) && r.sent == st.sent
        && var t := r.socket[i];
           && t.state == ConnectSendArpRequest && t.startTime == now && t.timeOut == 300
           && t.remote == to && t.remotePort == port && !t.server && t.rxRemaining == 0
           && !t.awaitingAck && !t.resend && !t.sendWaiting && t.seqInc == 0 && t.sendSeq == r.nextSeq == (st.nextSeq + 1) % 0x1_0000_0000
  {
    var i := FirstClosed(st.socket, 0);
    assert i < |st.socket| && OthersStay(st, i, Connect(st, to, port, now, canSend));
  }

  /** The ports are tried one after the other, and after 5000 comes 1024. */
  lemma PortsGoRound(p: Word, k: nat)
    requires 1024 <= p <= 5000 && k <= 3977
    ensures PortAfter(p, k) == if p + k <= 5000 then p + k else p + k - 3977
  {
  }

  // ----- closing -----

  /** Closing drops unread data and what was to be sent again. */
  lemma Closes(st: Stack, i: Byte)
    ensures i >= |st.socket| ==> CloseSocket(st, i) == st == CloseFromListen(st, i)
    ensures i < |st.socket| ==> var s, r, t := st.socket[i], CloseSocket(st, i), CloseFromListen(st, i);
      && OthersStay(st, i, r) && r.sent == st.sent && OthersStay(st, i, t) && t.sent == st.sent
      && r.socket[i] == s.(state := if s.server then Listen else Closed, rxRemaining := 0, timeOut := 300,
           awaitingAck := false, ready := s.ready || s.awaitingAck, resend := s.resend && !s.awaitingAck)
      && t.socket[i] == r.socket[i].(state := Closed, server := false)
  {
  }

  /** An established connection is ended with FIN and ACK, and with the flags of an answer
      that waits; other sockets are closed. */
  lemma Disconnects(st: Stack, i: nat, canSend: bool)
    requires i < |st.socket|
    ensures var s, r := st.socket[i], RequestDisconnect(st, i, canSend);
      if s.state == ConnectionEstablished then
        var held := if st.waiting then st.respFlags else Flags(false, false, false, false);
        && Commands(st, i, s.(state := FinWait1, rxRemaining := 0), Flags(true, held.syn, held.rst, true), canSend, r)
        && r.socket[i].seqInc == 1 && (st.waiting ==> r.respFlags == Flags(false, false, false, false))
      else
        && OthersStay(st, i, r) && r.sent == st.sent && r.respFlags == st.respFlags
        && r.socket[i].state == (if s.server then Listen else Closed)
  {
    if st.socket[i].state == ConnectionEstablished {
      var st1 := Withdrawn(st, i);
      assert RequestDisconnect(st, i, canSend) == FinSent(SendCommand(st1, i, FinFlags(st), canSend), i);
    }
  }

  // ----- sending -----

  /** When the packet cannot be set up, nothing is sent, and no number is used up. */
  lemma NotSetUp(st: Stack, i: Byte, length: Word, now: DWord, nicOk: bool)
    requires i < |st.socket| <= SOCKETS
    ensures var r := SendOn(st, i, length, now, nicOk, false);
      && OthersStay(st, i, r) && r.sent == st.sent && NextOwn(r.socket[i]) == NextOwn(st.socket[i])
      && r.socket[i].ready == st.socket[i].ready && r.socket[i].awaitingAck == st.socket[i].awaitingAck
    ensures !nicOk || !st.socket[i].ready || st.socket[i].awaitingAck || (st.waiting && st.respFlags != Flags(false, false, false, false)) ==>
      forall canSetup :: SendOn(st, i, length, now, nicOk, canSetup) == st
  {
  }
}
