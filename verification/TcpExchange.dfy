/** Whole exchanges with a peer: opening a connection from either side, a stream of segments
    that is read and acknowledged, and data that is sent and acknowledged. */
module TcpExchange {
  import opened TcpModel
  import opened TcpRuns
  import opened TcpPorts
  import opened TcpSegments

  // ----- opening -----

  /** The answer to a SYN carries a new number and acknowledges the SYN; the next
      acknowledgement of both establishes the connection. */
  lemma ServerOpens(st: Stack, i: nat, from: DeviceInfo, syn: Header, ack: Header, length: Word, now: DWord, later: DWord)
    requires i < |st.socket| <= SOCKETS && st.socket[i].state == Listen && syn.flags.syn
    requires ack.flags.ack && !ack.flags.rst && ack.ack == (st.nextSeq + 2) % 0x1_0000_0000
    ensures var s, st1 := st.socket[i], ProcessSegment(st, i, from, syn, 0, now, true);
      st1.sent == st.sent
        + [Segment(from, s.localPort, syn.sourcePort, (st.nextSeq + 1) % 0x1_0000_0000, (syn.number + 1) % 0x1_0000_0000, Flags(false, true, false, true), 0)]
    ensures var t := ProcessSegment(ProcessSegment(st, i, from, syn, 0, now, true), i, from, ack, length, later, true).socket[i];
      && t.state == ConnectionEstablished && NextOwn(t) == (st.nextSeq + 2) % 0x1_0000_0000
      && t.sendAck == (ack.number + length) % 0x1_0000_0000
  {
    SynAnswered(st, i, from, syn, now);
    var st1 := ProcessSegment(st, i, from, syn, 0, now, true);
    WrapTwice(st.nextSeq + 1, 1);
    assert Expected(st1.socket[i], ack);
    ExpectedNext(st1, i, from, ack, length, later, true);
    OwnNumbers(st1, i, from, ack, length, later, true);
    NextState(st1, i, from, ack, length, later, true);
  }

  lemma SynAnswered(st: Stack, i: nat, from: DeviceInfo, syn: Header, now: DWord)
    requires i < |st.socket| <= SOCKETS && st.socket[i].state == Listen && syn.flags.syn
    ensures var s, st1 := st.socket[i], ProcessSegment(st, i, from, syn, 0, now, true);
      var t := st1.socket[i];
      && |st1.socket| == |st.socket| && t.state == SynRequestReceived && t.remote == from && t.remotePort == syn.sourcePort
      && t.sendSeq == (st.nextSeq + 1) % 0x1_0000_0000 && t.seqInc == 1 && t.sendAck == (syn.number + 1) % 0x1_0000_0000
      && st1.sent == st.sent + [Segment(from, s.localPort, syn.sourcePort, t.sendSeq, t.sendAck, Flags(false, true, false, true), 0)]
  {
    ExpectedNext(st, i, from, syn, 0, now, true);
    OwnNumbers(st, i, from, syn, 0, now, true);
    NextState(st, i, from, syn, 0, now, true);
    PeerAndOthers(st, i, from, syn, 0, now, true);
    AnswerGoesOut(st, i, from, syn, 0, now, true);
  }

  /** A SYN goes out with a new number from a port that no other open socket has. */
  lemma ClientCalls(st: Stack, to: DeviceInfo, port: Word, now: DWord) returns (i: nat)
    requires Inv(st) && to.mac != 0 && exists k :: 0 <= k < |st.socket| && st.socket[k].state == Closed
    ensures i < SOCKETS && st.socket[i].state == Closed && forall k :: 0 <= k < i ==> st.socket[k].state != Closed
    ensures var r := Connect(st, to, port, now, true);
      var t := r.socket[i];
      && |r.socket| == |st.socket| && (forall k :: 0 <= k < |st.socket| && k != i ==> r.socket[k] == st.socket[k])
      && r.sent == st.sent + [Segment(to, t.localPort, port, (st.nextSeq + 1) % 0x1_0000_0000, 0, Flags(false, true, false, false), 0)]
      && t.state == SynRequestSent && t.remote == to && t.remotePort == port && !t.server
      && t.sendSeq == r.nextSeq == (st.nextSeq + 1) % 0x1_0000_0000 && t.seqInc == 1 && t.startTime == now && t.timeOut == 300
      && 1024 <= t.localPort <= 5000
      && forall k :: 0 <= k < |st.socket| && k != i && st.socket[k].state != Closed ==> st.socket[k].localPort != t.localPort
  {
    i := FirstClosed(st.socket, 0);
    FreshPort(st, i, to, port);
    var st1 := Assigned(st, i, to, port);
    SynGoesOut(st1, i, now);
    assert Connect(st, to, port, now, true) == SynRequest(st1, i, now, true);
  }

  lemma FreshPort(st: Stack, i: nat, to: DeviceInfo, port: Word)
    requires Wf(st) && i < SOCKETS
    ensures var r := Assigned(st, i, to, port);
      var t := r.socket[i];
      && |r.socket| == |st.socket| && (forall k :: 0 <= k < |st.socket| && k != i ==> r.socket[k] == st.socket[k])
      && r.sent == st.sent && t.remote == to && t.remotePort == port && !t.server && t.sendAck == 0
      && t.sendSeq == r.nextSeq == (st.nextSeq + 1) % 0x1_0000_0000 && 1024 <= t.localPort <= 5000
      && forall k :: 0 <= k < |st.socket| && k != i && st.socket[k].state != Closed ==> st.socket[k].localPort != t.localPort
  {
    var n := BusyPorts(st.socket, i, st.nextPort, 0);
    BusyPortsFew(st.socket, i, st.nextPort, n);
    assert !Busy(st.socket, i, Assigned(st, i, to, port).socket[i].localPort);
  }

  lemma SynGoesOut(st: Stack, i: nat, now: DWord)
    requires i < |st.socket|
    ensures var s, r := st.socket[i], SynRequest(st, i, now, true);
      var t := r.socket[i];
      && |r.socket| == |st.socket| && (forall k :: 0 <= k < |st.socket| && k != i ==> r.socket[k] == st.socket[k])
      && r.sent == st.sent + [Segment(s.remote, s.localPort, s.remotePort, s.sendSeq, s.sendAck, Flags(false, true, false, false), 0)]
      && t.state == SynRequestSent && t.remote == s.remote && t.remotePort == s.remotePort && t.localPort == s.localPort && t.server == s.server
      && t.sendSeq == s.sendSeq && t.seqInc == 1 && t.startTime == now && t.timeOut == 300 && r.nextSeq == st.nextSeq
  {
  }

  /** The peer's SYN with the acknowledgement of ours establishes the connection, and is
      acknowledged. */
  lemma ClientOpens(st: Stack, i: nat, from: DeviceInfo, h: Header, now: DWord)
    requires i < |st.socket| <= SOCKETS && st.socket[i].state == SynRequestSent && st.socket[i].seqInc == 1
    requires h.flags.syn && h.flags.ack && !h.flags.rst && h.ack == (st.socket[i].sendSeq + 1) % 0x1_0000_0000
    ensures var s, r := st.socket[i], ProcessSegment(st, i, from, h, 0, now, true);
      var t := r.socket[i];
      && t.state == ConnectionEstablished && NextOwn(t) == h.ack && t.sendAck == (h.number + 1) % 0x1_0000_0000
      && t.ready && t.awaitingAck == s.awaitingAck
      && r.sent == st.sent + [Segment(s.remote, s.localPort, s.remotePort, h.ack, (h.number + 1) % 0x1_0000_0000, Flags(false, false, false, true), 0)]
  {
    var s := st.socket[i];
    assert Expected(s, h) && AnswerFlags(s, h, 0) == Flags(false, false, false, true) && !Resets(s, h) && !LeavesData(s, h, 0);
    ExpectedNext(st, i, from, h, 0, now, true);
    OwnNumbers(st, i, from, h, 0, now, true);
    NextState(st, i, from, h, 0, now, true);
    Readiness(st, i, from, h, 0, now, true);
    PeerAndOthers(st, i, from, h, 0, now, true);
    AnswerGoesOut(st, i, from, h, 0, now, true);
  }

  // ----- receiving -----

  /** A packet comes in; if it has data, the application reads it to the end, and the driver
      takes the packet from the slot. */
  function TakeAll(st: Stack, p: Packet, now: DWord, canSend: bool): (r: Stack)
    requires Inv(st)
    ensures Inv(r)
  {
    var st1 := ProcessRx(st, p, now, canSend);
    ReceivedKeeps(st, p, now, canSend);
    if !st1.waiting then st1
    else
      DumpKeeps(st1);
      ReceivedKeeps(DumpRx(st1), p, now, canSend);
      ProcessRx(DumpRx(st1), p, now, canSend)
  }

  lemma DumpKeeps(st: Stack)
    requires Inv(st) && HasActive(st)
    ensures Inv(DumpRx(st))
  {
    WithTame(st, st.active, st.socket[st.active].(rxRemaining := 0));
  }

  /** What the packet leaves to read. */
  function BytesLeft(st: Stack, p: Packet, now: DWord, canSend: bool): nat
    requires Inv(st)
  {
    var st1 := ProcessRx(st, p, now, canSend);
    ReceivedKeeps(st, p, now, canSend);
    if st1.waiting then st1.socket[st1.active].rxRemaining else 0
  }

  /** The established connection of socket i, with nothing unread, and a packet for it. */
  predicate Open(st: Stack, i: nat, from: DeviceInfo, h: Header) {
    && Inv(st) && !st.waiting && i < SOCKETS && Match(st.socket, from, h) == i && Connected(st.socket[i], from, h)
    && st.socket[i].state == ConnectionEstablished
  }

  /** The connection of the socket goes on. */
  lemma MatchStays(a: seq<Socket>, b: seq<Socket>, i: nat, from: DeviceInfo, h: Header)
    requires |a| == |b| <= SOCKETS && i < |a| && (forall j :: 0 <= j < |a| && j != i ==> b[j] == a[j])
    requires Match(a, from, h) == i && Connected(a[i], from, h) && Connected(b[i], from, h)
    ensures Match(b, from, h) == i
  {
    MatchIsMatch(a, from, h);
    MatchIsMatch(b, from, h);
  }

  /** After packet p the socket expects the number behind its data, has acknowledged it, and
      is as ready for the next one. */
  ghost predicate HasTaken(st: Stack, i: nat, p: Packet, r: Stack)
    requires i < |st.socket|
  {
    var s, length, fin := st.socket[i], DataLength(p), if p.h.flags.fin then 1 else 0;
    var taken := Inv(r) && !r.waiting && i < |r.socket| && r.socket[i].state == (if p.h.flags.fin then LastAckSent else ConnectionEstablished)
      && Match(r.socket, p.from, p.h) == i && Connected(r.socket[i], p.from, p.h)
      && r.socket[i].sendAck == (p.h.number + length + fin) % 0x1_0000_0000
      && NextOwn(r.socket[i]) == (NextOwn(s) + fin) % 0x1_0000_0000
      && r.sent == st.sent + if length + fin == 0 then [] else
        [Segment(s.remote, s.localPort, s.remotePort, NextOwn(s), r.socket[i].sendAck, Flags(p.h.flags.fin, false, false, true), 0)];
    taken
  }

  /** The next segment of an established connection: its data is all left to read, and after
      that the socket expects the number behind it and has acknowledged it. */
  lemma NextIsTaken(st: Stack, i: nat, p: Packet, now: DWord)
    requires Open(st, i, p.from, p.h) && p.intact && InOrder(st.socket[i], p.h)
    ensures BytesLeft(st, p, now, true) == DataLength(p) && HasTaken(st, i, p, TakeAll(st, p, now, true))
  {
    if DataLength(p) == 0 {
      EmptyIsTaken(st, i, p, now);
    } else {
      DataIsTaken(st, i, p, now);
    }
  }

  lemma EmptyIsTaken(st: Stack, i: nat, p: Packet, now: DWord)
    requires Open(st, i, p.from, p.h) && p.intact && InOrder(st.socket[i], p.h) && DataLength(p) == 0
    ensures BytesLeft(st, p, now, true) == 0 && HasTaken(st, i, p, TakeAll(st, p, now, true))
  {
    var st1 := ProcessSegment(st, i, p.from, p.h, 0, now, true);
    SegmentFacts(st, i, p.from, p.h, 0, now);
    Deliveries(st, i, p, now);
    MatchStays(st.socket, st1.socket, i, p.from, p.h);
    assert TakeAll(st, p, now, true) == st1;
  }

  lemma DataIsTaken(st: Stack, i: nat, p: Packet, now: DWord)
    requires Open(st, i, p.from, p.h) && p.intact && InOrder(st.socket[i], p.h) && DataLength(p) > 0
    ensures BytesLeft(st, p, now, true) == DataLength(p) && HasTaken(st, i, p, TakeAll(st, p, now, true))
  {
    var st3 := DataIsRead(st, i, p, now);
    FinishedSends(st3, i, Flags(p.h.flags.fin, false, false, true));
    AnswerTakes(st, i, p, st3.socket[i], TakeAll(st, p, now, true));
  }

  lemma AnswerTakes(st: Stack, i: nat, p: Packet, s3: Socket, r: Stack)
    requires Open(st, i, p.from, p.h) && DataLength(p) > 0 && Inv(r) && !r.waiting
    requires var s, t, fin := st.socket[i], r.socket[i], if p.h.flags.fin then 1 else 0;
      && s3.state == (if p.h.flags.fin then LastAckSent else ConnectionEstablished)
      && s3.sendSeq == NextOwn(s) && s3.seqInc == fin && s3.sendAck == (p.h.number + DataLength(p) + fin) % 0x1_0000_0000
      && s3.localPort == s.localPort && s3.remote == s.remote && s3.remotePort == s.remotePort
      && t == s3.(hadData := t.hadData, resend := t.resend, sendWaiting := t.sendWaiting, lastTxFlags := t.lastTxFlags)
    requires r.sent == st.sent
      + [Segment(s3.remote, s3.localPort, s3.remotePort, s3.sendSeq, s3.sendAck, Flags(p.h.flags.fin, false, false, true), 0)]
    requires forall j :: 0 <= j < |st.socket| && j != i ==> r.socket[j] == st.socket[j]
    ensures HasTaken(st, i, p, r)
  {
    MatchStays(st.socket, r.socket, i, p.from, p.h);
  }

  /** The state when the data has been read, but not yet been answered. */
  lemma DataIsRead(st: Stack, i: nat, p: Packet, now: DWord) returns (st3: Stack)
    requires Open(st, i, p.from, p.h) && p.intact && InOrder(st.socket[i], p.h) && DataLength(p) > 0
    ensures BytesLeft(st, p, now, true) == DataLength(p)
    ensures Wf(st3) && TakeAll(st, p, now, true) == Finished(st3, true)
    ensures st3.waiting && st3.active == st3.respSocket == i && st3.respFlags == Flags(p.h.flags.fin, false, false, true)
    ensures var s, t, fin := st.socket[i], st3.socket[i], if p.h.flags.fin then 1 else 0;
      && t.state == (if p.h.flags.fin then LastAckSent else ConnectionEstablished) && t.rxRemaining == 0
      && t.sendSeq == NextOwn(s) && t.seqInc == fin && t.sendAck == (p.h.number + DataLength(p) + fin) % 0x1_0000_0000
      && t.localPort == s.localPort && t.remote == s.remote && t.remotePort == s.remotePort
      && st3.sent == st.sent && |st3.socket| == |st.socket| && forall j :: 0 <= j < |st.socket| && j != i ==> st3.socket[j] == st.socket[j]
  {
    var st1 := ProcessSegment(st, i, p.from, p.h, DataLength(p), now, true);
    SegmentFacts(st, i, p.from, p.h, DataLength(p), now);
    Deliveries(st, i, p, now);
    var st2 := st1.(active := i, waiting := true);
    TakesInTwo(st, p, now, st2);
    st3 := DumpRx(st2);
  }

  /** A packet that waits is read, dumped, and found to be done with. */
  lemma TakesInTwo(st: Stack, p: Packet, now: DWord, st2: Stack)
    requires Inv(st) && ProcessRx(st, p, now, true) == st2 && st2.waiting
    ensures Inv(st2) && HasActive(st2) && Wf(DumpRx(st2))
    ensures TakeAll(st, p, now, true) == Finished(DumpRx(st2), true)
    ensures BytesLeft(st, p, now, true) == st2.socket[st2.active].rxRemaining
  {
    ReceivedKeeps(st, p, now, true);
    DumpKeeps(st2);
  }

  lemma SegmentFacts(st: Stack, i: nat, from: DeviceInfo, h: Header, length: Word, now: DWord)
    requires i < |st.socket| <= SOCKETS && st.socket[i].state == ConnectionEstablished && InOrder(st.socket[i], h)
    ensures var s, r := st.socket[i], ProcessSegment(st, i, from, h, length, now, true);
      var t, fin := r.socket[i], if h.flags.fin then 1 else 0;
      && t.state == (if h.flags.fin then LastAckSent else ConnectionEstablished) && t.sendSeq == NextOwn(s) && t.seqInc == fin
      && t.sendAck == (h.number + length + fin) % 0x1_0000_0000 && (length > 0 ==> t.rxRemaining == length)
      && t.localPort == s.localPort && t.remote == s.remote && t.remotePort == s.remotePort
      && |r.socket| == |st.socket| && (forall j :: 0 <= j < |st.socket| && j != i ==> r.socket[j] == st.socket[j])
      && r.waiting == st.waiting
      && (length + fin == 0 ==> r.sent == st.sent)
      && (length > 0 ==> r.sent == st.sent && r.respSocket == i && r.respFlags == Flags(h.flags.fin, false, false, true))
      && (length == 0 && fin == 1 ==>
            r.sent == st.sent + [Segment(s.remote, s.localPort, s.remotePort, NextOwn(s), t.sendAck, Flags(true, false, false, true), 0)])
  {
    ExpectedNext(st, i, from, h, length, now, true);
    OwnNumbers(st, i, from, h, length, now, true);
    NextState(st, i, from, h, length, now, true);
    DataAndTimer(st, i, from, h, length, now, true);
    PeerAndOthers(st, i, from, h, length, now, true);
    AnswerGoesOut(st, i, from, h, length, now, true);
  }

  /** A packet with data waits in the slot, another one does not. */
  lemma Deliveries(st: Stack, i: nat, p: Packet, now: DWord)
    requires Open(st, i, p.from, p.h) && p.intact && InOrder(st.socket[i], p.h)
    ensures var st1 := ProcessSegment(st, i, p.from, p.h, DataLength(p), now, true);
      ProcessRx(st, p, now, true) == if DataLength(p) > 0 then st1.(active := i, waiting := true) else st1
  {
    var s, length, startSeq := st.socket[i], DataLength(p), Wrap32(st.nextSeq + 1);
    EstablishedDumps(s, p.from, p.h, length, now, startSeq);
    assert ProcessRx(st, p, now, true) == Delivered(st, i, p, OnSegment(s, p.from, p.h, length, now, startSeq), true);
  }

  lemma EstablishedDumps(s: Socket, from: DeviceInfo, h: Header, length: Word, now: DWord, startSeq: DWord)
    requires s.state == ConnectionEstablished && InOrder(s, h)
    ensures OnSegment(s, from, h, length, now, startSeq).dumped <==> length == 0
  {
  }

  /** Once the data is read, the answer that was kept goes out with the current numbers. */
  lemma FinishedSends(st: Stack, i: nat, flags: Flags)
    requires Wf(st) && st.waiting && st.active == i && st.socket[i].rxRemaining == 0 && st.respSocket == i && st.respFlags == flags != NONE
    ensures var s, r := st.socket[i], Finished(st, true);
      var t := r.socket[i];
      && !r.waiting && r.sent == st.sent + [Segment(s.remote, s.localPort, s.remotePort, s.sendSeq, s.sendAck, flags, 0)]
      && t == s.(hadData := t.hadData, resend := t.resend, sendWaiting := t.sendWaiting, lastTxFlags := t.lastTxFlags)
      && |r.socket| == |st.socket| && forall j :: 0 <= j < |st.socket| && j != i ==> r.socket[j] == st.socket[j]
  {
  }

  /** The peer's stream from number n on: every segment continues it and acknowledges what
      this side has sent, and only the last one may carry a FIN. */
  ghost predicate Stream(ps: seq<Packet>, n: int, own: int, from: DeviceInfo, h: Header)
    decreases |ps|
  {
    ps != [] ==>
      var p := ps[0];
      && p.intact && p.from == from && p.h.sourcePort == h.sourcePort && p.h.destinationPort == h.destinationPort
      && p.h.number == n && p.h.ack == own && !p.h.flags.rst && (p.h.flags.fin ==> |ps| == 1)
      && Stream(ps[1..], (n + DataLength(p)) % 0x1_0000_0000, own, from, h)
  }

  function Total(ps: seq<Packet>): nat {
    if ps == [] then 0 else DataLength(ps[0]) + Total(ps[1..])
  }

  predicate EndsWithFin(ps: seq<Packet>) {
    ps != [] && ps[|ps| - 1].h.flags.fin
  }

  function TakeStream(st: Stack, ps: seq<Packet>, now: DWord): (r: Stack)
    requires Inv(st)
    ensures Inv(r)
    decreases |ps|
  {
    if ps == [] then st else TakeStream(TakeAll(st, ps[0], now, true), ps[1..], now)
  }

  function BytesOfStream(st: Stack, ps: seq<Packet>, now: DWord): nat
    requires Inv(st)
    decreases |ps|
  {
    if ps == [] then 0
    else BytesLeft(st, ps[0], now, true) + BytesOfStream(TakeAll(st, ps[0], now, true), ps[1..], now)
  }

  /** So many bytes of the peer have been taken from s to t, and its FIN. */
  predicate Arrived(s: Socket, t: Socket, bytes: nat, fin: bool) {
    var arrived := t.sendAck == (s.sendAck + bytes + if fin then 1 else 0) % 0x1_0000_0000
      && t.state == (if fin then LastAckSent else ConnectionEstablished)
      && NextOwn(t) == (NextOwn(s) + if fin then 1 else 0) % 0x1_0000_0000;
    arrived
  }

  /** From s to t the whole stream has arrived, and so many bytes were left to read. */
  ghost predicate Whole(ps: seq<Packet>, s: Socket, t: Socket, bytes: nat) {
    var whole := bytes == Total(ps) && Arrived(s, t, Total(ps), EndsWithFin(ps));
    whole
  }

  /** After any stream of segments in order, all its bytes were left for the application, and
      the number expected next is the first one plus the bytes, plus one for a FIN. */
  lemma {:induction false} StreamArrives(st: Stack, i: nat, ps: seq<Packet>, now: DWord, from: DeviceInfo, h: Header)
    requires Open(st, i, from, h) && Stream(ps, st.socket[i].sendAck, NextOwn(st.socket[i]), from, h)
    ensures Whole(ps, st.socket[i], TakeStream(st, ps, now).socket[i], BytesOfStream(st, ps, now))
    decreases |ps|
  {
    if ps == [] {
      NothingArrived(st.socket[i]);
    } else {
      var st1 := FirstOfStream(st, i, ps, now, from, h);
      StreamGoesOn(st, i, ps, st1, from, h);
      if !ps[0].h.flags.fin {
        StreamArrives(st1, i, ps[1..], now, from, h);
      }
      WholeStep(ps, st.socket[i], st1.socket[i], TakeStream(st1, ps[1..], now).socket[i], BytesOfStream(st1, ps[1..], now));
    }
  }

  lemma NothingArrived(s: Socket)
    requires s.state == ConnectionEstablished
    ensures Arrived(s, s, 0, false)
  {
  }

  lemma ArrivedStep(s: Socket, s1: Socket, t: Socket, length: nat, rest: nat, fin: bool)
    requires Arrived(s, s1, length, false) && Arrived(s1, t, rest, fin)
    ensures Arrived(s, t, length + rest, fin)
  {
    StreamStep(s.sendAck, length, rest + if fin then 1 else 0);
    WrapTwice(NextOwn(s), if fin then 1 else 0);
  }

  /** The first segment of a stream is taken. */
  lemma FirstOfStream(st: Stack, i: nat, ps: seq<Packet>, now: DWord, from: DeviceInfo, h: Header) returns (st1: Stack)
    requires Open(st, i, from, h) && Stream(ps, st.socket[i].sendAck, NextOwn(st.socket[i]), from, h) && ps != []
    ensures Inv(st1) && HasTaken(st, i, ps[0], st1)
    ensures TakeStream(st, ps, now) == TakeStream(st1, ps[1..], now)
    ensures BytesOfStream(st, ps, now) == DataLength(ps[0]) + BytesOfStream(st1, ps[1..], now)
  {
    SamePorts(st.socket, from, h, ps[0].h);
    NextIsTaken(st, i, ps[0], now);
    st1 := TakeAll(st, ps[0], now, true);
  }

  /** What is left of the stream is a stream for the socket as it is then. */
  lemma StreamGoesOn(st: Stack, i: nat, ps: seq<Packet>, st1: Stack, from: DeviceInfo, h: Header)
    requires i < |st.socket| <= SOCKETS && Stream(ps, st.socket[i].sendAck, NextOwn(st.socket[i]), from, h) && ps != []
    requires HasTaken(st, i, ps[0], st1)
    ensures Arrived(st.socket[i], st1.socket[i], DataLength(ps[0]), ps[0].h.flags.fin)
    ensures if ps[0].h.flags.fin then |ps| == 1
      else Open(st1, i, from, h) && Stream(ps[1..], st1.socket[i].sendAck, NextOwn(st1.socket[i]), from, h)
  {
    SamePorts(st1.socket, from, h, ps[0].h);
    TakenArrived(st, i, ps[0], st1);
  }

  lemma WholeStep(ps: seq<Packet>, s: Socket, s1: Socket, t: Socket, bytes: nat)
    requires ps != [] && Arrived(s, s1, DataLength(ps[0]), ps[0].h.flags.fin)
    requires if ps[0].h.flags.fin then |ps| == 1 && t == s1 && bytes == 0 else Whole(ps[1..], s1, t, bytes)
    ensures Whole(ps, s, t, DataLength(ps[0]) + bytes)
  {
    if ps[0].h.flags.fin {
      assert ps[1..] == [];
    } else {
      LastOfRest(ps);
      ArrivedStep(s, s1, t, DataLength(ps[0]), bytes, EndsWithFin(ps));
    }
  }

  lemma TakenArrived(st: Stack, i: nat, p: Packet, r: Stack)
    requires i < |st.socket| && HasTaken(st, i, p, r) && p.h.number == st.socket[i].sendAck
    ensures Arrived(st.socket[i], r.socket[i], DataLength(p), p.h.flags.fin)
    ensures !p.h.flags.fin ==> NextOwn(r.socket[i]) == NextOwn(st.socket[i]) && r.socket[i].sendAck == (p.h.number + DataLength(p)) % 0x1_0000_0000
  {
  }

  lemma LastOfRest(ps: seq<Packet>)
    requires ps != [] && !ps[0].h.flags.fin
    ensures EndsWithFin(ps) == EndsWithFin(ps[1..])
  {
  }

  lemma StreamStep(n: DWord, length: nat, rest: nat)
    ensures ((n + length) % 0x1_0000_0000 + rest) % 0x1_0000_0000 == (n + (length + rest)) % 0x1_0000_0000
  {
    WrapTwice(n + length, rest);
  }

  lemma SamePorts(socket: seq<Socket>, from: DeviceInfo, h: Header, h': Header)
    requires |socket| <= SOCKETS && h'.sourcePort == h.sourcePort && h'.destinationPort == h.destinationPort
    ensures Match(socket, from, h') == Match(socket, from, h)
    ensures forall i :: 0 <= i < |socket| ==> Connected(socket[i], from, h') == Connected(socket[i], from, h)
  {
    MatchIsMatch(socket, from, h);
    MatchIsMatch(socket, from, h');
    forall i | 0 <= i < |socket| ensures Listening(socket[i], h') == Listening(socket[i], h) {
    }
  }

  // ----- sending -----

  /** A data segment: a new one has the next number, a repeated one the number it had. */
  lemma DataGoesOut(st: Stack, i: Byte, length: Word, now: DWord)
    requires i < |st.socket| && ReadyToTx(st, i)
    ensures var s, r := st.socket[i], SendOn(st, i, length, now, true, true);
      var t, number := r.socket[i], if s.resend then s.sendSeq else NextOwn(s);
      && r.sent == st.sent + [Segment(s.remote, s.localPort, s.remotePort, number, s.sendAck, Flags(false, false, false, true), length)]
      && t.sendSeq == number && t.seqInc == length && t.sendAck == s.sendAck && t.state == s.state
      && t.awaitingAck && !t.ready && !t.resend && t.hadData == (length > 0)
      && (!s.resend ==> t.startTime == now && t.timeOut == 300)
      && (s.resend ==> t.startTime == s.startTime && t.timeOut == s.timeOut)
      && |r.socket| == |st.socket| && forall j :: 0 <= j < |st.socket| && j != i ==> r.socket[j] == st.socket[j]
  {
  }

  /** The acknowledgement of all the bytes makes the socket ready for the next ones. */
  lemma DataAcknowledged(st: Stack, i: nat, from: DeviceInfo, h: Header, now: DWord)
    requires i < |st.socket| <= SOCKETS && st.socket[i].state == ConnectionEstablished && st.socket[i].awaitingAck
    requires InOrder(st.socket[i], h) && h.flags.ack && !h.flags.fin
    ensures var s, r := st.socket[i], ProcessSegment(st, i, from, h, 0, now, true);
      var t := r.socket[i];
      && t.state == s.state && !t.awaitingAck && t.ready && !t.resend && t.sendSeq == h.ack && t.seqInc == 0 && t.sendAck == h.number
      && r.sent == st.sent && r.waiting == st.waiting
      && |r.socket| == |st.socket|
      && t.localPort == s.localPort && t.remote == s.remote && t.remotePort == s.remotePort
  {
    ExpectedNext(st, i, from, h, 0, now, true);
    OwnNumbers(st, i, from, h, 0, now, true);
    NextState(st, i, from, h, 0, now, true);
    DataAndTimer(st, i, from, h, 0, now, true);
    PeerAndOthers(st, i, from, h, 0, now, true);
    AnswerGoesOut(st, i, from, h, 0, now, true);
  }

  /** Data is sent, and the peer acknowledges it. */
  function SendAcknowledged(st: Stack, i: Byte, from: DeviceInfo, length: Word, now: DWord): (r: Stack)
    requires i < |st.socket| <= SOCKETS
    ensures |r.socket| == |st.socket|
  {
    var st1 := SendOn(st, i, length, now, true, true);
    var s := st1.socket[i];
    var h := Header(s.remotePort, s.localPort, s.sendAck, Wrap32(s.sendSeq + s.seqInc), ACK);
    PeerAndOthers(st1, i, from, h, 0, now, true);
    ProcessSegment(st1, i, from, h, 0, now, true)
  }

  /** Data of the given lengths is sent, each piece after the acknowledgement of the one before. */
  function SendAll(st: Stack, i: Byte, from: DeviceInfo, lengths: seq<Word>, now: DWord): Stack
    requires i < |st.socket| <= SOCKETS
    decreases |lengths|
  {
    if lengths == [] then st else SendAll(SendAcknowledged(st, i, from, lengths[0], now), i, from, lengths[1..], now)
  }

  function Bytes(lengths: seq<Word>): nat {
    if lengths == [] then 0 else lengths[0] + Bytes(lengths[1..])
  }

  /** From st to r a segment was sent for each of the lengths, and each one's number is the
      first plus the bytes that were sent before it. */
  ghost predicate WithoutGap(st: Stack, i: nat, lengths: seq<Word>, r: Stack)
    requires i < |st.socket|
  {
    var withoutGap := |r.socket| == |st.socket| && |r.sent| == |st.sent| + |lengths| && st.sent <= r.sent
      && NextOwn(r.socket[i]) == (NextOwn(st.socket[i]) + Bytes(lengths)) % 0x1_0000_0000
      && forall k :: 0 <= k < |lengths| ==> Numbered(st, i, lengths, r, k);
    withoutGap
  }

  /** The numbers of the data segments follow each other without gap. */
  lemma {:induction false} NumbersFollow(st: Stack, i: Byte, from: DeviceInfo, lengths: seq<Word>, now: DWord)
    requires i < |st.socket| <= SOCKETS && st.socket[i].state == ConnectionEstablished
    requires ReadyToTx(st, i) && !st.socket[i].resend && !st.waiting
    ensures WithoutGap(st, i, lengths, SendAll(st, i, from, lengths, now))
    decreases |lengths|
  {
    if lengths == [] {
      NothingSent(st, i);
    } else {
      var st2 := SendAcknowledged(st, i, from, lengths[0], now);
      SendOne(st, i, from, lengths[0], now);
      NumbersFollow(st2, i, from, lengths[1..], now);
      OneMore(st, st2, i, lengths, SendAll(st2, i, from, lengths[1..], now));
    }
  }

  lemma NothingSent(st: Stack, i: nat)
    requires i < |st.socket|
    ensures WithoutGap(st, i, [], st)
  {
  }

  lemma OneMore(st: Stack, st2: Stack, i: nat, lengths: seq<Word>, r: Stack)
    requires i < |st.socket| == |st2.socket| && lengths != [] && WithoutGap(st2, i, lengths[1..], r)
    requires var s := st.socket[i];
      st2.sent == st.sent + [Segment(s.remote, s.localPort, s.remotePort, NextOwn(s), s.sendAck, Flags(false, false, false, true), lengths[0])]
    requires NextOwn(st2.socket[i]) == (NextOwn(st.socket[i]) + lengths[0]) % 0x1_0000_0000 && st2.socket[i].remote == st.socket[i].remote
    ensures WithoutGap(st, i, lengths, r)
  {
    AllNumbered(st, st2, i, lengths, r);
    BytesAdd(st.socket[i], st2.socket[i], r.socket[i], lengths);
  }

  lemma BytesAdd(s: Socket, s2: Socket, t: Socket, lengths: seq<Word>)
    requires lengths != [] && NextOwn(s2) == (NextOwn(s) + lengths[0]) % 0x1_0000_0000
    requires NextOwn(t) == (NextOwn(s2) + Bytes(lengths[1..])) % 0x1_0000_0000
    ensures NextOwn(t) == (NextOwn(s) + Bytes(lengths)) % 0x1_0000_0000
  {
    StreamStep(NextOwn(s), lengths[0], Bytes(lengths[1..]));
  }

  /** Segment k of those that are sent from st on. */
  ghost predicate Numbered(st: Stack, i: nat, lengths: seq<Word>, r: Stack, k: nat)
    requires i < |st.socket|
  {
    && k < |lengths| && |st.sent| + k < |r.sent|
    && var segment := r.sent[|st.sent| + k];
       && segment.number == (NextOwn(st.socket[i]) + Bytes(lengths[..k])) % 0x1_0000_0000
       && segment.length == lengths[k] && segment.to == st.socket[i].remote
  }

  lemma AllNumbered(st: Stack, st2: Stack, i: nat, lengths: seq<Word>, r: Stack)
    requires i < |st.socket| == |st2.socket| && lengths != [] && st2.sent <= r.sent
    requires var s := st.socket[i];
      st2.sent == st.sent + [Segment(s.remote, s.localPort, s.remotePort, NextOwn(s), s.sendAck, Flags(false, false, false, true), lengths[0])]
    requires NextOwn(st2.socket[i]) == (NextOwn(st.socket[i]) + lengths[0]) % 0x1_0000_0000 && st2.socket[i].remote == st.socket[i].remote
    requires forall k :: 0 <= k < |lengths[1..]| ==> Numbered(st2, i, lengths[1..], r, k)
    ensures st.sent <= r.sent && forall k :: 0 <= k < |lengths| ==> Numbered(st, i, lengths, r, k)
  {
    FirstNumbered(st, st2, i, lengths, r);
    forall k | 0 < k < |lengths| ensures Numbered(st, i, lengths, r, k) {
      assert Numbered(st2, i, lengths[1..], r, k - 1);
      NextNumbered(st, st2, i, lengths, r, k);
    }
  }

  lemma FirstNumbered(st: Stack, st2: Stack, i: nat, lengths: seq<Word>, r: Stack)
    requires i < |st.socket| && lengths != [] && st2.sent <= r.sent
    requires var s := st.socket[i];
      st2.sent == st.sent + [Segment(s.remote, s.localPort, s.remotePort, NextOwn(s), s.sendAck, Flags(false, false, false, true), lengths[0])]
    ensures Numbered(st, i, lengths, r, 0) && st.sent <= r.sent
  {
    assert r.sent[|st.sent|] == st2.sent[|st.sent|] && lengths[..0] == [];
  }

  lemma NextNumbered(st: Stack, st2: Stack, i: nat, lengths: seq<Word>, r: Stack, k: nat)
    requires i < |st.socket| == |st2.socket| && 0 < k < |lengths| && |st2.sent| == |st.sent| + 1
    requires NextOwn(st2.socket[i]) == (NextOwn(st.socket[i]) + lengths[0]) % 0x1_0000_0000
    requires st2.socket[i].remote == st.socket[i].remote && Numbered(st2, i, lengths[1..], r, k - 1)
    ensures Numbered(st, i, lengths, r, k)
  {
    assert lengths[..k][0] == lengths[0] && lengths[..k][1..] == lengths[1..][..k - 1];
    StreamStep(NextOwn(st.socket[i]), lengths[0], Bytes(lengths[1..][..k - 1]));
  }

  /** One piece of data and its acknowledgement. */
  lemma SendOne(st: Stack, i: Byte, from: DeviceInfo, length: Word, now: DWord)
    requires i < |st.socket| <= SOCKETS && st.socket[i].state == ConnectionEstablished
    requires ReadyToTx(st, i) && !st.socket[i].resend && !st.waiting
    ensures var s, st2 := st.socket[i], SendAcknowledged(st, i, from, length, now);
      && st2.socket[i].state == ConnectionEstablished && ReadyToTx(st2, i) && !st2.socket[i].resend && !st2.waiting
      && NextOwn(st2.socket[i]) == (NextOwn(s) + length) % 0x1_0000_0000 && st2.socket[i].remote == s.remote
      && st2.sent == st.sent + [Segment(s.remote, s.localPort, s.remotePort, NextOwn(s), s.sendAck, Flags(false, false, false, true), length)]
  {
    var st1 := SendOn(st, i, length, now, true, true);
    DataGoesOut(st, i, length, now);
    var s1 := st1.socket[i];
    var h := Header(s1.remotePort, s1.localPort, s1.sendAck, Wrap32(s1.sendSeq + s1.seqInc), ACK);
    assert InOrder(s1, h);
    DataAcknowledged(st1, i, from, h, now);
  }

  // ----- ending -----

  /** A FIN that answers ours with its acknowledgement ends the connection, and is acknowledged. */
  lemma EndsFromHere(st: Stack, i: nat, from: DeviceInfo, h: Header, now: DWord)
    requires i < |st.socket| <= SOCKETS && st.socket[i].state == FinWait1
    requires InOrder(st.socket[i], h) && h.flags.fin && h.flags.ack
    ensures var s, r := st.socket[i], ProcessSegment(st, i, from, h, 0, now, true);
      var t := r.socket[i];
      && t.state == (if s.server then Listen else Closed) && !t.awaitingAck && t.rxRemaining == 0
      && r.sent == st.sent
        + [Segment(s.remote, s.localPort, s.remotePort, NextOwn(s), (h.number + 1) % 0x1_0000_0000, Flags(false, false, false, true), 0)]
  {
    ExpectedNext(st, i, from, h, 0, now, true);
    OwnNumbers(st, i, from, h, 0, now, true);
    NextState(st, i, from, h, 0, now, true);
    Readiness(st, i, from, h, 0, now, true);
    PeerAndOthers(st, i, from, h, 0, now, true);
    AnswerGoesOut(st, i, from, h, 0, now, true);
  }

  /** A FIN that crosses ours is acknowledged, and the acknowledgement of ours ends the connection. */
  lemma EndsFromBoth(st: Stack, i: nat, from: DeviceInfo, fin: Header, ack: Header, now: DWord, later: DWord)
    requires i < |st.socket| <= SOCKETS && st.socket[i].state == FinWait1
    requires InOrder(st.socket[i], fin) && fin.flags.fin && !fin.flags.ack
    requires !ack.flags.rst && ack.flags.ack && ack.ack == NextOwn(st.socket[i]) && ack.number == (fin.number + 1) % 0x1_0000_0000
    ensures var s, r := st.socket[i], ProcessSegment(st, i, from, fin, 0, now, true);
      var t := ProcessSegment(r, i, from, ack, 0, later, true);
      && r.socket[i].state == Closing && |r.socket| == |st.socket|
      && t.socket[i].state == (if s.server then Listen else Closed)
      && t.sent == r.sent == st.sent
        + [Segment(s.remote, s.localPort, s.remotePort, NextOwn(s), (fin.number + 1) % 0x1_0000_0000, Flags(false, false, false, true), 0)]
  {
    FinIsTaken(st, i, from, fin, now);
    LastAck(ProcessSegment(st, i, from, fin, 0, now, true), i, from, ack, later);
  }

  lemma FinIsTaken(st: Stack, i: nat, from: DeviceInfo, h: Header, now: DWord)
    requires i < |st.socket| <= SOCKETS && st.socket[i].state == FinWait1
    requires InOrder(st.socket[i], h) && h.flags.fin && !h.flags.ack
    ensures var s, r := st.socket[i], ProcessSegment(st, i, from, h, 0, now, true);
      var t := r.socket[i];
      && t.state == Closing && NextOwn(t) == NextOwn(s) && t.sendAck == (h.number + 1) % 0x1_0000_0000 && t.server == s.server
      && |r.socket| == |st.socket|
      && r.sent == st.sent + [Segment(s.remote, s.localPort, s.remotePort, NextOwn(s), t.sendAck, Flags(false, false, false, true), 0)]
  {
    ExpectedNext(st, i, from, h, 0, now, true);
    OwnNumbers(st, i, from, h, 0, now, true);
    NextState(st, i, from, h, 0, now, true);
    PeerAndOthers(st, i, from, h, 0, now, true);
    AnswerGoesOut(st, i, from, h, 0, now, true);
  }

  /** After both FINs the last acknowledgement ends the connection without an answer. */
  lemma LastAck(st: Stack, i: nat, from: DeviceInfo, h: Header, now: DWord)
    requires i < |st.socket| <= SOCKETS && (st.socket[i].state == Closing || st.socket[i].state == LastAckSent)
    requires InOrder(st.socket[i], h) && h.flags.ack
    ensures var s, r := st.socket[i], ProcessSegment(st, i, from, h, 0, now, true);
      var t := r.socket[i];
      t.state == (if s.server then Listen else Closed) && !t.awaitingAck && t.rxRemaining == 0 && r.sent == st.sent
  {
    NextState(st, i, from, h, 0, now, true);
    Readiness(st, i, from, h, 0, now, true);
    AnswerGoesOut(st, i, from, h, 0, now, true);
  }
}
