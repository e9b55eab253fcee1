/** What the functions of eth-tcp.c do to the socket table and the shared globals, as
    functions on values. The class in TcpStack.dfy does the same step by step. */
module TcpModel {
  type Byte = x: int | 0 <= x < 0x100
  type Word = x: int | 0 <= x < 0x1_0000
  type DWord = x: int | 0 <= x < 0x1_0000_0000

  const SOCKETS: nat := 10
  const INVALID_SOCKET: Byte := 0xfe
  const INITIAL_TIMEOUT: DWord := 300
  const MAX_TIMEOUT: DWord := 3000
  const MAX_RETRIES: Byte := 3
  const PORT_START: Word := 1024
  const PORT_END: Word := 5000
  const PORTS: nat := PORT_END - PORT_START + 1

  function Wrap8(x: int): Byte { x % 0x100 }
  function Wrap16(x: int): Word { x % 0x1_0000 }
  function Wrap32(x: int): DWord { x % 0x1_0000_0000 }

  datatype State =
    | Closed
    | Listen
    | SynRequestReceived
    | ConnectSendArpRequest
    | ConnectWaitArpResponse
    | SynRequestSent
    | ConnectionEstablished
    | FinWait1
    | Closing
    | LastAckSent

  /** The flag bits that the driver sends or looks at. */
  datatype Flags = Flags(fin: bool, syn: bool, rst: bool, ack: bool) {
    function Or(other: Flags): Flags {
      Flags(fin || other.fin, syn || other.syn, rst || other.rst, ack || other.ack)
    }
  }

  const NONE := Flags(false, false, false, false)
  const ACK := Flags(false, false, false, true)
  const FIN := Flags(true, false, false, false)
  const FIN_ACK := Flags(true, false, false, true)
  const SYN := Flags(false, true, false, false)
  const SYN_ACK := Flags(false, true, false, true)
  const RST := Flags(false, false, true, false)

  /** The MAC address is one number, 0 when it is not known. */
  datatype DeviceInfo = DeviceInfo(mac: nat, ip: DWord)

  datatype Socket = Socket(
    state: State,
    remote: DeviceInfo,
    localPort: Word,
    remotePort: Word,
    lastTxFlags: Flags,
    sendSeq: DWord,
    sendAck: DWord,
    seqInc: Word,
    retryCount: Byte,
    rxRemaining: Word,
    waitingFlags: Flags,
    startTime: DWord,
    timeOut: DWord,
    server: bool,
    sendWaiting: bool,
    resend: bool,
    hadData: bool,
    awaitingAck: bool,
    ready: bool)

  /** The parts of a received header that are looked at. */
  datatype Header = Header(sourcePort: Word, destinationPort: Word, number: DWord, ack: DWord, flags: Flags)

  /** What is handed to the NIC. */
  datatype Segment = Segment(to: DeviceInfo, localPort: Word, remotePort: Word, number: DWord, ack: DWord, flags: Flags, length: Word)

  /** The socket table, the shared globals, and all that was sent so far. */
  datatype Stack = Stack(
    socket: seq<Socket>,
    waiting: bool,
    active: Byte,
    respSocket: Byte,
    respFlags: Flags,
    nextPort: Word,
    nextSeq: DWord,
    sent: seq<Segment>)

  /** The active socket's number is in the table. Once a packet has been read and dumped it
      is TCP_INVALID_SOCKET, until the next packet waits. */
  predicate HasActive(st: Stack) {
    st.active < SOCKETS
  }

  predicate Wf(st: Stack) {
    && |st.socket| == SOCKETS
    && st.respSocket < SOCKETS
    && (HasActive(st) || (st.active == INVALID_SOCKET && !st.waiting))
    && PORT_START <= st.nextPort <= PORT_END
  }

  function With(st: Stack, i: nat, s: Socket): (r: Stack)
    requires i < |st.socket|
    ensures |r.socket| == |st.socket|
  {
    st.(socket := st.socket[i := s])
  }

  // ----- initialise -----

  function Zeroed(): Socket {
    Socket(Closed, DeviceInfo(0, 0), 0, 0, NONE, 0, 0, 0, 0, 0, NONE, 0, 0, false, false, false, false, false, false)
  }

  /** Zeroed memory, but for the port counter, which is set before it is used. */
  function PowerUp(): Stack {
    Stack(seq(SOCKETS, i => Zeroed()), false, 0, 0, NONE, PORT_START, 0, [])
  }

  function Initial(s: Socket): Socket {
    s.(state := Closed, rxRemaining := 0, timeOut := INITIAL_TIMEOUT,
      ready := true, awaitingAck := false, hadData := false, resend := false, sendWaiting := false)
  }

  function Initialise(st: Stack): Stack {
    st.(socket := seq(|st.socket|, i requires 0 <= i < |st.socket| => Initial(st.socket[i])),
      nextPort := PORT_START, waiting := false, active := 0)
  }

  // ----- sending and closing -----

  /** tcp_send_command_packet_from_socket: the command goes out, or is queued when the NIC
      cannot take it. */
  function SendCommand(st: Stack, i: nat, flags: Flags, canSend: bool): (r: Stack)
    requires i < |st.socket|
    ensures |r.socket| == |st.socket|
  {
    var s := st.socket[i];
    if canSend then
      With(st, i, s.(hadData := false, resend := false, sendWaiting := false, lastTxFlags := flags))
        .(sent := st.sent + [Segment(s.remote, s.localPort, s.remotePort, s.sendSeq, s.sendAck, flags, 0)])
    else
      With(st, i, s.(sendWaiting := true, waitingFlags := flags))
  }

  /** tcp_send_command_packet_no_socket, as it is used: to reset the sender of a packet. */
  function SendReset(st: Stack, to: DeviceInfo, h: Header, seqNumber: DWord, canSend: bool): Stack {
    if canSend then
      st.(sent := st.sent + [Segment(to, h.destinationPort, h.sourcePort, seqNumber, h.number, RST, 0)])
    else
      st
  }

  /** tcp_close_socket. */
  function Shut(s: Socket): Socket {
    s.(state := if s.server then Listen else Closed,
      ready := s.ready || s.awaitingAck, awaitingAck := false, resend := s.resend && !s.awaitingAck,
      rxRemaining := 0, timeOut := INITIAL_TIMEOUT)
  }

  function CloseSocket(st: Stack, i: Byte): Stack {
    if i < |st.socket| then With(st, i, Shut(st.socket[i])) else st
  }

  function CloseFromListen(st: Stack, i: Byte): Stack {
    if i < |st.socket| then With(st, i, Shut(st.socket[i].(server := false))) else st
  }

  /** An answer waits for the application to read its packet. */
  predicate AnswerPending(st: Stack) {
    st.waiting && st.respFlags != NONE
  }

  /** The FIN of a disconnect takes a pending answer's flags along. */
  function FinFlags(st: Stack): Flags {
    if AnswerPending(st) then FIN_ACK.Or(st.respFlags) else FIN_ACK
  }

  function Withdrawn(st: Stack, i: nat): Stack
    requires i < |st.socket|
  {
    With(st, i, st.socket[i].(rxRemaining := 0)).(respFlags := if AnswerPending(st) then NONE else st.respFlags)
  }

  function FinSent(st: Stack, i: nat): Stack
    requires i < |st.socket|
  {
    With(st, i, st.socket[i].(state := FinWait1, seqInc := 1))
  }

  function RequestDisconnect(st: Stack, i: nat, canSend: bool): Stack
    requires i < |st.socket|
  {
    if st.socket[i].state != ConnectionEstablished then With(st, i, Shut(st.socket[i]))
    else FinSent(SendCommand(Withdrawn(st, i), i, FinFlags(st), canSend), i)
  }

  // ----- a received segment -----

  /** What a socket makes of a segment: its new contents, the flags to answer with, whether
      the packet has been dumped, whether processing ends at once, and whether the sender
      is reset. */
  datatype Reaction = Reaction(socket: Socket, reply: Flags, dumped: bool, ends: bool, reset: bool)

  function Quiet(s: Socket): Reaction {
    Reaction(s, NONE, true, false, false)
  }

  /** The segment's data, if any, is left for the application. */
  function Data(s: Socket, reply: Flags, length: Word): Reaction {
    if length > 0 then Reaction(s.(rxRemaining := length), reply, false, false, false)
    else Reaction(s, reply, true, false, false)
  }

  function OnListen(s: Socket, from: DeviceInfo, h: Header, length: Word, startSeq: DWord): Reaction {
    var s1 := s.(sendSeq := startSeq, seqInc := 0, sendAck := Wrap32(h.number + length + 1));
    if h.flags.syn then
      Reaction(s1.(remote := from, remotePort := h.sourcePort, seqInc := 1, state := SynRequestReceived),
        SYN_ACK, true, false, false)
    else
      Reaction(s1.(remote := s1.remote.(ip := 0)), NONE, true, false, true)
  }

  function OnSynReceived(s: Socket, h: Header, length: Word): Reaction {
    if h.flags.ack then
      Data(s.(sendAck := Wrap32(h.number + length), state := ConnectionEstablished), NONE, length)
    else
      Quiet(s)
  }

  function OnSynSent(s: Socket, h: Header, length: Word): Reaction {
    if !h.flags.syn then
      Quiet(s)
    else
      var s1 := s.(sendAck := Wrap32(h.number + length + 1), ready := true);
      if h.flags.ack then
        Data(s1.(state := ConnectionEstablished), ACK, length)
      else
        Data(s1.(state := SynRequestReceived, sendSeq := Wrap32(s.sendSeq + 1), seqInc := 0), SYN_ACK, length)
  }

  function OnEstablished(s: Socket, h: Header, length: Word): Reaction {
    var s1 := if h.flags.ack && s.awaitingAck then s.(resend := false, awaitingAck := false, ready := true) else s;
    if h.flags.fin then
      Data(s1.(seqInc := 1, sendAck := Wrap32(s1.sendAck + 1), state := LastAckSent), FIN_ACK, length)
    else
      Data(s1, if length > 0 then ACK else NONE, length)
  }

  /** In LAST_ACK_SENT and CLOSING an acknowledgement ends the connection. */
  function OnAwaitingLastAck(s: Socket, h: Header): Reaction {
    Quiet(if h.flags.ack then Shut(s) else s)
  }

  function OnFinWait1(s: Socket, h: Header): Reaction {
    if h.flags.fin then
      var s1 := s.(sendAck := Wrap32(s.sendAck + 1));
      Reaction(if h.flags.ack then Shut(s1) else s1.(state := Closing), ACK, true, false, false)
    else
      Quiet(s)
  }

  /** A connected socket takes the next segment in sequence. */
  function OnNext(s: Socket, h: Header, length: Word): Reaction {
    if h.number != s.sendAck then
      Reaction(s, NONE, true, true, false)
    else
      var s1 := s.(sendAck := Wrap32(h.number + length));
      match s.state
      case ConnectionEstablished => OnEstablished(s1, h, length)
      case LastAckSent => OnAwaitingLastAck(s1, h)
      case Closing => OnAwaitingLastAck(s1, h)
      case FinWait1 => OnFinWait1(s1, h)
      case _ => Reaction(s1, NONE, false, false, false)
  }

  /** Every segment clears the retries and restarts the timer. */
  function Heard(s: Socket, now: DWord): Socket {
    s.(sendSeq := Wrap32(s.sendSeq + s.seqInc), seqInc := 0,
      retryCount := 0, startTime := now, timeOut := INITIAL_TIMEOUT)
  }

  /** The acknowledgement is the expected one, or the segment is a FIN. */
  function OnExpected(s: Socket, h: Header, length: Word): Reaction {
    match s.state
    case SynRequestReceived => OnSynReceived(s, h, length)
    case SynRequestSent => OnSynSent(s, h, length)
    case _ => OnNext(s, h, length)
  }

  function OnSegment(s: Socket, from: DeviceInfo, h: Header, length: Word, now: DWord, startSeq: DWord): Reaction {
    var s1 := Heard(s, now);
    if s1.state == Listen then
      OnListen(s1, from, h, length, startSeq)
    else if h.flags.rst then
      Reaction(Shut(s1), NONE, true, true, false)
    else if s1.sendSeq == h.ack || h.flags.fin then
      OnExpected(s1, h, length)
    else
      Reaction(s1, NONE, true, false, s1.state == SynRequestSent)
  }

  /** The answer is sent now, or kept until the application has read the data. */
  function Answer(st: Stack, i: nat, reply: Flags, dumped: bool, canSend: bool): Stack
    requires i < |st.socket| <= SOCKETS
  {
    if reply == NONE then st.(respFlags := NONE)
    else if dumped then SendCommand(st.(respFlags := NONE), i, reply, canSend)
    else st.(respSocket := i, respFlags := reply)
  }

  /** The reaction r of socket i to a segment, and the reset if there is one. */
  function Taken(st: Stack, i: nat, from: DeviceInfo, h: Header, r: Reaction, canSend: bool): Stack
    requires i < |st.socket|
  {
    var st1 := With(st, i, r.socket).(nextSeq := if st.socket[i].state == Listen then Wrap32(st.nextSeq + 1) else st.nextSeq);
    if r.reset then SendReset(st1, from, h, h.ack, canSend) else st1
  }

  function Processed(st: Stack, i: nat, from: DeviceInfo, h: Header, r: Reaction, canSend: bool): Stack
    requires i < |st.socket| <= SOCKETS
  {
    var st1 := Taken(st, i, from, h, r, canSend);
    if r.ends then st1 else Answer(st1, i, r.reply, r.dumped, canSend)
  }

  /** process_tcp_segment. */
  function ProcessSegment(st: Stack, i: nat, from: DeviceInfo, h: Header, length: Word, now: DWord, canSend: bool): Stack
    requires i < |st.socket| <= SOCKETS
  {
    Processed(st, i, from, h, OnSegment(st.socket[i], from, h, length, now, Wrap32(st.nextSeq + 1)), canSend)
  }

  // ----- which socket a packet is for -----

  predicate Connected(s: Socket, from: DeviceInfo, h: Header) {
    s.state != Closed && s.localPort == h.destinationPort && s.remote.ip == from.ip && s.remotePort == h.sourcePort
  }

  predicate Listening(s: Socket, h: Header) {
    s.state == Listen && s.localPort == h.destinationPort
  }

  function FirstConnected(socket: seq<Socket>, from: DeviceInfo, h: Header, k: nat): (m: nat)
    requires k <= |socket|
    ensures k <= m <= |socket|
    ensures forall j :: k <= j < m ==> !Connected(socket[j], from, h)
    ensures m < |socket| ==> Connected(socket[m], from, h)
    decreases |socket| - k
  {
    if k == |socket| || Connected(socket[k], from, h) then k else FirstConnected(socket, from, h, k + 1)
  }

  /** One past the last listening socket below k. */
  function AfterListening(socket: seq<Socket>, h: Header, k: nat): (m: nat)
    requires k <= |socket|
    ensures m <= k
    ensures forall j :: m <= j < k ==> !Listening(socket[j], h)
    ensures m > 0 ==> Listening(socket[m - 1], h)
  {
    if k == 0 || Listening(socket[k - 1], h) then k else AfterListening(socket, h, k - 1)
  }

  function Match(socket: seq<Socket>, from: DeviceInfo, h: Header): (m: Byte)
    requires |socket| <= SOCKETS
    ensures m < |socket| || m == INVALID_SOCKET
  {
    var c := FirstConnected(socket, from, h, 0);
    var l := AfterListening(socket, h, |socket|);
    if c < |socket| then c else if l > 0 then l - 1 else INVALID_SOCKET
  }

  /** m is the first socket that is connected to the sender, or else the last one that
      listens on the port, or else TCP_INVALID_SOCKET. */
  predicate IsMatch(socket: seq<Socket>, from: DeviceInfo, h: Header, m: Byte) {
    if exists k :: 0 <= k < |socket| && Connected(socket[k], from, h) then
      m < |socket| && Connected(socket[m], from, h) && forall k :: 0 <= k < m ==> !Connected(socket[k], from, h)
    else if exists k :: 0 <= k < |socket| && Listening(socket[k], h) then
      m < |socket| && Listening(socket[m], h) && forall k :: m < k < |socket| ==> !Listening(socket[k], h)
    else
      m == INVALID_SOCKET
  }

  lemma MatchIsMatch(socket: seq<Socket>, from: DeviceInfo, h: Header)
    requires |socket| <= SOCKETS
    ensures IsMatch(socket, from, h, Match(socket, from, h))
  {
  }

  /** A listening socket is set up for its new peer. */
  function Accept(s: Socket, from: DeviceInfo, h: Header): Socket {
    s.(remote := from, remotePort := h.sourcePort, rxRemaining := 0, ready := true, sendWaiting := false)
  }

  /** tcp_rx_check_for_matches_socket. */
  function Matched(st: Stack, from: DeviceInfo, h: Header): Stack
    requires |st.socket| <= SOCKETS
  {
    var m := Match(st.socket, from, h);
    if m == INVALID_SOCKET || Connected(st.socket[m], from, h) then st
    else With(st, m, Accept(st.socket[m], from, h))
  }

  // ----- tcp_process_rx -----

  /** A packet in the receive buffer. `intact` says that it is long enough for its header
      and that its checksum is right; the data follows after headerWords 32-bit words. */
  datatype Packet = Packet(from: DeviceInfo, h: Header, headerWords: nat, ipBytes: Word, intact: bool)

  /** A 16-bit difference. */
  function DataLength(p: Packet): Word {
    Wrap16(p.ipBytes - 4 * p.headerWords)
  }

  function Unmatched(st: Stack, p: Packet, canSend: bool): Stack {
    SendReset(st, p.from, p.h, Wrap32(p.h.ack + DataLength(p) + if p.h.flags.syn || p.h.flags.fin then 1 else 0), canSend)
  }

  /** After a packet that was waiting has been read and dumped. */
  function Finished(st: Stack, canSend: bool): Stack
    requires Wf(st)
  {
    var st1 := if st.respFlags != NONE then SendCommand(st, st.respSocket, st.respFlags, canSend).(respFlags := NONE) else st;
    st1.(active := INVALID_SOCKET, waiting := false)
  }

  /** A packet that is not dumped waits for the application that owns the socket. */
  function Waits(st: Stack, i: Byte, dumped: bool): Stack {
    if dumped then st else st.(active := i, waiting := true)
  }

  function Delivered(st: Stack, i: Byte, p: Packet, r: Reaction, canSend: bool): Stack
    requires i < |st.socket| <= SOCKETS
  {
    Waits(Processed(st, i, p.from, p.h, r, canSend), i, r.dumped)
  }

  function NewPacket(st: Stack, p: Packet, now: DWord, canSend: bool): Stack
    requires Wf(st)
  {
    if !p.intact then st
    else
      var m := Match(st.socket, p.from, p.h);
      if m == INVALID_SOCKET then Unmatched(st, p, canSend)
      else
        var st1 := Matched(st, p.from, p.h);
        Delivered(st1, m, p, OnSegment(st1.socket[m], p.from, p.h, DataLength(p), now, Wrap32(st1.nextSeq + 1)), canSend)
  }

  function DumpRx(st: Stack): Stack
    requires Wf(st) && HasActive(st)
  {
    With(st, st.active, st.socket[st.active].(rxRemaining := 0))
  }

  function ProcessRx(st: Stack, p: Packet, now: DWord, canSend: bool): Stack
    requires Wf(st)
  {
    if !st.waiting then NewPacket(st, p, now, canSend)
    else if st.socket[st.active].rxRemaining == 0 then Finished(st, canSend)
    else if st.socket[st.active].state != ConnectionEstablished then DumpRx(st)
    else st
  }

  function ReadByte(st: Stack): Stack
    requires Wf(st) && HasActive(st)
  {
    var s := st.socket[st.active];
    if s.rxRemaining == 0 then st else With(st, st.active, s.(rxRemaining := s.rxRemaining - 1))
  }

  // ----- opening and connecting -----

  function FirstClosed(socket: seq<Socket>, k: nat): (m: nat)
    requires k <= |socket|
    ensures k <= m <= |socket|
    ensures forall j :: k <= j < m ==> socket[j].state != Closed
    ensures m < |socket| ==> socket[m].state == Closed
    decreases |socket| - k
  {
    if k == |socket| || socket[k].state == Closed then k else FirstClosed(socket, k + 1)
  }

  function Fresh(s: Socket, server: bool): Socket {
    s.(rxRemaining := 0, ready := false, awaitingAck := false, resend := false, server := server, sendWaiting := false)
  }

  function OpenToListen(st: Stack, port: Word): Stack {
    var i := FirstClosed(st.socket, 0);
    if i == |st.socket| then st
    else
      var s := Fresh(st.socket[i], true);
      With(st, i, s.(state := Listen, localPort := port, remotePort := 0, remote := s.remote.(ip := 0)))
  }

  /** Another socket that is not closed uses the port. */
  predicate Busy(socket: seq<Socket>, i: nat, port: Word) {
    exists b :: 0 <= b < |socket| && b != i && socket[b].state != Closed && socket[b].localPort == port
  }

  /** The port k places after p, going round from the end of the range to its start. */
  function PortAfter(p: Word, k: nat): (q: Word)
    requires PORT_START <= p <= PORT_END
    ensures PORT_START <= q <= PORT_END
  {
    PORT_START + (p - PORT_START + k) % PORTS
  }

  /** How many ports from `next` on are busy before the first free one. */
  function BusyPorts(socket: seq<Socket>, i: nat, next: Word, k: nat): (n: nat)
    requires PORT_START <= next <= PORT_END && k <= PORTS
    ensures k <= n <= PORTS
    ensures forall j :: k <= j < n ==> Busy(socket, i, PortAfter(next, j))
    ensures n < PORTS ==> !Busy(socket, i, PortAfter(next, n))
    decreases |socket| + PORTS - k
  {
    if k == PORTS || !Busy(socket, i, PortAfter(next, k)) then k else BusyPorts(socket, i, next, k + 1)
  }

  /** tcp_connect_socket_send_syn_request. */
  function SynRequest(st: Stack, i: nat, now: DWord, canSend: bool): (r: Stack)
    requires i < |st.socket|
    ensures |r.socket| == |st.socket|
  {
    var st1 := SendCommand(st, i, SYN, canSend);
    With(st1, i, st1.socket[i].(state := SynRequestSent, seqInc := 1, startTime := now, timeOut := INITIAL_TIMEOUT))
  }

  /** The socket found by tcp_connect_socket, with the first free port. */
  function Assigned(st: Stack, i: nat, to: DeviceInfo, port: Word): Stack
    requires Wf(st) && i < |st.socket|
  {
    var n := BusyPorts(st.socket, i, st.nextPort, 0);
    var startSeq := Wrap32(st.nextSeq + 1);
    With(st, i, Fresh(st.socket[i], false).(localPort := PortAfter(st.nextPort, n), remotePort := port, remote := to,
        sendSeq := startSeq, sendAck := 0, seqInc := 0))
      .(nextPort := PortAfter(st.nextPort, n + 1), nextSeq := startSeq)
  }

  /** SYN is sent at once if the MAC address is known, else ARP comes first. */
  function StartConnection(st: Stack, i: nat, now: DWord, canSend: bool): Stack
    requires i < |st.socket|
  {
    if st.socket[i].remote.mac != 0 then SynRequest(st, i, now, canSend)
    else With(st, i, st.socket[i].(state := ConnectSendArpRequest, startTime := now, timeOut := INITIAL_TIMEOUT))
  }

  function Connect(st: Stack, to: DeviceInfo, port: Word, now: DWord, canSend: bool): Stack
    requires Wf(st)
  {
    var i := FirstClosed(st.socket, 0);
    if i == |st.socket| then st else StartConnection(Assigned(st, i, to, port), i, now, canSend)
  }

  // ----- sending data -----

  /** tcp_is_socket_ready_to_tx_new_packet, with the NIC able to send. */
  predicate ReadyToTx(st: Stack, i: nat)
    requires i < |st.socket|
  {
    !AnswerPending(st) && !st.socket[i].awaitingAck && st.socket[i].ready
  }

  /** tcp_setup_socket_tx. */
  function SetupTx(st: Stack, i: nat): Stack
    requires i < |st.socket| && ReadyToTx(st, i)
  {
    var s := st.socket[i];
    var s1 := if s.resend then s else s.(sendSeq := Wrap32(s.sendSeq + s.seqInc), seqInc := 0);
    With(st, i, s1.(hadData := false, lastTxFlags := ACK))
  }

  /** tcp_socket_tx_packet, after `length` bytes of data were written. */
  function TxPacket(st: Stack, i: nat, length: Word, now: DWord): Stack
    requires i < |st.socket|
  {
    var s := st.socket[i];
    var s1 := s.(hadData := s.hadData || length > 0, seqInc := length, ready := false, awaitingAck := true, resend := false);
    With(st, i, if s.resend then s1 else s1.(startTime := now, timeOut := INITIAL_TIMEOUT))
      .(sent := st.sent + [Segment(s.remote, s.localPort, s.remotePort, s.sendSeq, s.sendAck, ACK, length)])
  }

  // ----- the background pass over the sockets -----

  /** What the hardware and ARP let happen while one socket is processed. */
  datatype Env = Env(canSend: bool, arpAsked: bool, arpAnswer: nat, nicOk: bool, canReply: bool)

  function Doubled(t: DWord): DWord {
    if Wrap32(2 * t) < MAX_TIMEOUT then Wrap32(2 * t) else MAX_TIMEOUT
  }

  predicate TimedOut(s: Socket, now: DWord) {
    Wrap32(now - s.startTime) > s.timeOut
  }

  /** A timeout restarts the timer with a longer time and counts a retry. */
  function Restarted(s: Socket, now: DWord): Socket {
    s.(startTime := now, timeOut := Doubled(s.timeOut), retryCount := Wrap8(s.retryCount + 1))
  }

  /** The switch over the states; the flags are those of the socket before, unless this
      socket has its own. */
  function Retry(s: Socket, flags: Flags): (Socket, Flags) {
    var again := s.retryCount <= MAX_RETRIES;
    match s.state
    case SynRequestSent => (s, SYN)
    case SynRequestReceived => if again then (s, SYN_ACK) else (Shut(s), flags)
    case ConnectionEstablished =>
      if !again then (s.(resend := s.resend && !s.awaitingAck, awaitingAck := false, state := FinWait1), FIN_ACK)
      else if !s.awaitingAck then (s.(retryCount := 0), NONE)
      else if !s.hadData then (s, s.lastTxFlags)
      else (s.(resend := true, awaitingAck := false, ready := true), flags)
    case FinWait1 => if again then (s, FIN) else (Shut(s), flags)
    case LastAckSent => if again then (s, FIN) else (Shut(s), flags)
    case Closing => if again then (s, ACK) else (Shut(s), flags)
    case _ => (s, flags)
  }

  function Respond(st: Stack, i: nat, flags: Flags, canReply: bool): (r: Stack)
    requires i < |st.socket|
    ensures |r.socket| == |st.socket|
  {
    if flags == NONE then st
    else
      var st1 := SendCommand(st, i, flags, canReply);
      if flags == ACK then st1 else With(st1, i, st1.socket[i].(seqInc := 1))
  }

  /** The state after a socket was processed, the response flags for the next one, and
      whether the pass goes on. */
  datatype Turn = Turn(st: Stack, flags: Flags, goesOn: bool)

  function Expire(st: Stack, i: nat, flags: Flags, env: Env, now: DWord): (t: Turn)
    requires i < |st.socket|
    ensures |t.st.socket| == |st.socket|
  {
    var s := st.socket[i];
    if !TimedOut(s, now) then Turn(st, flags, true)
    else if !env.nicOk then Turn(st, flags, false)
    else
      var (s1, flags1) := Retry(Restarted(s, now), flags);
      Turn(Respond(With(st, i, s1), i, flags1, env.canReply), flags1, true)
  }

  function ProcessSocket(st: Stack, i: nat, flags: Flags, env: Env, now: DWord): (t: Turn)
    requires i < |st.socket|
    ensures |t.st.socket| == |st.socket|
  {
    var s := st.socket[i];
    if s.rxRemaining > 0 || s.state == Closed || s.state == Listen then Turn(st, flags, true)
    else if s.sendWaiting then Turn(SendCommand(st, i, s.waitingFlags, env.canSend), flags, true)
    else if s.state == ConnectSendArpRequest then
      Turn(With(st, i, if env.arpAsked then s.(state := ConnectWaitArpResponse) else s), flags, true)
    else if s.state == ConnectWaitArpResponse && env.arpAnswer != 0 then
      Expire(SynRequest(With(st, i, s.(remote := s.remote.(mac := env.arpAnswer))), i, now, env.canSend), i, flags, env, now)
    else
      Expire(st, i, flags, env, now)
  }

  /** process_tcp from socket i on. */
  function Pass(st: Stack, i: nat, flags: Flags, env: seq<Env>, now: DWord): (r: Stack)
    requires i <= |st.socket| == |env|
    ensures |r.socket| == |st.socket|
    decreases |st.socket| - i
  {
    if i == |st.socket| then st
    else
      var t := ProcessSocket(st, i, flags, env[i], now);
      if t.goesOn then Pass(t.st, i + 1, t.flags, env, now) else t.st
  }
}
