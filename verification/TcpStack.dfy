/** The TCP driver of eth-tcp.c: the socket table and the globals it shares, changed step by
    step. Each method is proved to do what its function in TcpModel.dfy says. */
module TcpStack {
  import opened TcpModel
  import opened TcpPorts
  import opened TcpRuns

  class Tcp {
    const tcp_socket: array<Socket>
    var tcp_rx_packet_is_waiting_to_be_processed: bool
    var tcp_rx_active_socket: Byte
    var tcp_tx_resp_after_proc_rx_socket: Byte
    var tcp_tx_resp_after_proc_rx_resp_flags: Flags
    var next_local_tcp_port_to_use: Word
    var next_connection_start_sequence_number: DWord
    /** All that was handed to the NIC. */
    var sent: seq<Segment>

    ghost function View(): Stack
      reads this, tcp_socket
    {
      Stack(tcp_socket[..], tcp_rx_packet_is_waiting_to_be_processed, tcp_rx_active_socket,
            tcp_tx_resp_after_proc_rx_socket, tcp_tx_resp_after_proc_rx_resp_flags,
            next_local_tcp_port_to_use, next_connection_start_sequence_number, sent)
    }

    ghost predicate Shaped()
      reads this, tcp_socket
    {
      tcp_socket.Length == SOCKETS && Wf(View())
    }

    /** The driver's invariant, which every call keeps: stop and wait, bounded retries and
        back-off, one reader of the receive slot, and ports of their own for the clients. */
    ghost predicate Valid()
      reads this, tcp_socket
    {
      Shaped() && Inv(View())
    }

    /** Zeroed memory, and then tcp_initialise. */
    constructor ()
      ensures Valid() && fresh(tcp_socket)
      ensures View() == Initialise(PowerUp())
    {
      tcp_socket := new Socket[SOCKETS](_ => Zeroed());
      tcp_rx_packet_is_waiting_to_be_processed := false;
      tcp_rx_active_socket := 0;
      tcp_tx_resp_after_proc_rx_socket := 0;
      tcp_tx_resp_after_proc_rx_resp_flags := NONE;
      next_local_tcp_port_to_use := PORT_START;
      next_connection_start_sequence_number := 0;
      sent := [];
      new;
      assert View() == PowerUp();
      tcp_initialise();
    }

    method tcp_initialise()
      requires Shaped()
      modifies this, tcp_socket
      ensures Valid() && View() == Initialise(old(View()))
    {
      InitialiseKeeps(View());
      var socket := 0;
      while socket < SOCKETS
        invariant 0 <= socket <= SOCKETS
        invariant forall i :: 0 <= i < socket ==> tcp_socket[i] == Initial(old(tcp_socket[i]))
        invariant forall i :: socket <= i < SOCKETS ==> tcp_socket[i] == old(tcp_socket[i])
        invariant View() == old(View()).(socket := tcp_socket[..])
      {
        tcp_socket[socket] := tcp_socket[socket].(state := Closed, rxRemaining := 0, timeOut := INITIAL_TIMEOUT);
        tcp_socket[socket] := tcp_socket[socket].(ready := true, awaitingAck := false, hadData := false, resend := false, sendWaiting := false);
        socket := socket + 1;
      }
      next_local_tcp_port_to_use := PORT_START;
      tcp_rx_packet_is_waiting_to_be_processed := false;
      tcp_rx_active_socket := 0;
      assert View().socket == Initialise(old(View())).socket;
    }

    // ----- sending and closing -----

    method tcp_send_command_packet_no_socket(to: DeviceInfo, localPort: Word, remotePort: Word, number: DWord, ack: DWord, flags: Flags, canSend: bool)
      requires Shaped()
      modifies this`sent
      ensures Shaped() && View() == if canSend
        then old(View()).(sent := old(sent) + [Segment(to, localPort, remotePort, number, ack, flags, 0)]) else old(View())
    {
      if !canSend {
        return;
      }
      sent := sent + [Segment(to, localPort, remotePort, number, ack, flags, 0)];
    }

    method tcp_send_command_packet_from_socket(socket: Byte, flags: Flags, canSend: bool)
      requires Shaped() && socket < SOCKETS
      modifies this`sent, tcp_socket
      ensures Shaped() && (old(Valid()) ==> Valid()) && View() == SendCommand(old(View()), socket, flags, canSend)
    {
      if Inv(View()) {
        SendKeeps(View(), socket, flags, canSend);
      }
      if !canSend {
        tcp_socket[socket] := tcp_socket[socket].(sendWaiting := true, waitingFlags := flags);
        return;
      }
      var s := tcp_socket[socket];
      sent := sent + [Segment(s.remote, s.localPort, s.remotePort, s.sendSeq, s.sendAck, flags, 0)];
      tcp_socket[socket] := s.(hadData := false, resend := false, sendWaiting := false, lastTxFlags := flags);
    }

    method tcp_close_socket(socket: Byte)
      requires Shaped()
      modifies tcp_socket
      ensures Shaped() && (old(Valid()) ==> Valid()) && View() == CloseSocket(old(View()), socket)
    {
      if Inv(View()) {
        StepKeepsInv(View(), Close(socket));
      }
      if socket == INVALID_SOCKET || socket >= SOCKETS {
        return;
      }
      Release(socket);
    }

    /** The rest of tcp_close_socket: no transmission and no data is left. */
    method Release(socket: Byte)
      requires Shaped() && socket < SOCKETS
      modifies tcp_socket
      ensures Shaped() && View() == With(old(View()), socket, Shut(old(tcp_socket[socket])))
    {
      if tcp_socket[socket].awaitingAck {
        tcp_socket[socket] := tcp_socket[socket].(ready := true, awaitingAck := false, resend := false);
      }
      if tcp_socket[socket].rxRemaining != 0 {
        tcp_socket[socket] := tcp_socket[socket].(rxRemaining := 0);
      }
      tcp_socket[socket] := tcp_socket[socket].(timeOut := INITIAL_TIMEOUT);
      if !tcp_socket[socket].server {
        tcp_socket[socket] := tcp_socket[socket].(state := Closed);
      } else {
        tcp_socket[socket] := tcp_socket[socket].(state := Listen);
      }
      assert tcp_socket[..] == old(tcp_socket[..])[socket := tcp_socket[socket]];
    }

    method tcp_close_socket_from_listen(socket: Byte)
      requires Valid()
      modifies tcp_socket
      ensures Valid() && View() == CloseFromListen(old(View()), socket)
    {
      StepKeepsInv(View(), CloseListener(socket));
      if socket == INVALID_SOCKET || socket >= SOCKETS {
        return;
      }
      tcp_socket[socket] := tcp_socket[socket].(server := false);
      tcp_close_socket(socket);
      assert tcp_socket[..] == old(tcp_socket[..])[socket := tcp_socket[socket]];
    }

    method tcp_request_disconnect_socket(socket: Byte, canSend: bool)
      requires Valid() && socket < SOCKETS
      modifies this, tcp_socket
      ensures Valid() && View() == RequestDisconnect(old(View()), socket, canSend)
    {
      StepKeepsInv(View(), Disconnect(socket, canSend));
      if tcp_socket[socket].state != ConnectionEstablished {
        tcp_close_socket(socket);
        return;
      }
      var flags := Withdraw(socket);
      tcp_send_command_packet_from_socket(socket, flags, canSend);
      MarkFinSent(socket);
    }

    /** The packet that waits is dumped, and its answer goes out with the FIN. */
    method Withdraw(socket: Byte) returns (flags: Flags)
      requires Shaped() && socket < SOCKETS
      modifies this`tcp_tx_resp_after_proc_rx_resp_flags, tcp_socket
      ensures Shaped() && View() == Withdrawn(old(View()), socket) && flags == FinFlags(old(View()))
    {
      if tcp_socket[socket].rxRemaining != 0 {
        tcp_socket[socket] := tcp_socket[socket].(rxRemaining := 0);
      }
      assert tcp_socket[..] == old(tcp_socket[..])[socket := tcp_socket[socket]];
      flags := FIN_ACK;
      if tcp_rx_packet_is_waiting_to_be_processed && tcp_tx_resp_after_proc_rx_resp_flags != NONE {
        flags := flags.Or(tcp_tx_resp_after_proc_rx_resp_flags);
        tcp_tx_resp_after_proc_rx_resp_flags := NONE;
      }
    }

    method MarkFinSent(socket: Byte)
      requires Shaped() && socket < SOCKETS
      modifies tcp_socket
      ensures Shaped() && View() == FinSent(old(View()), socket)
    {
      tcp_socket[socket] := tcp_socket[socket].(state := FinWait1);
      tcp_socket[socket] := tcp_socket[socket].(seqInc := 1);
      assert tcp_socket[..] == old(tcp_socket[..])[socket := tcp_socket[socket]];
    }

    // ----- opening and connecting -----

    method tcp_open_socket_to_listen(port: Word) returns (socket: Byte)
      requires Valid()
      modifies tcp_socket
      ensures Valid() && View() == OpenToListen(old(View()), port)
      ensures var i := FirstClosed(old(tcp_socket[..]), 0); socket == if i < SOCKETS then i else INVALID_SOCKET
    {
      StepKeepsInv(View(), Open(port));
      socket := 0;
      while socket < SOCKETS
        invariant 0 <= socket <= SOCKETS && View() == old(View())
        invariant FirstClosed(tcp_socket[..], 0) == FirstClosed(tcp_socket[..], socket)
      {
        if tcp_socket[socket].state == Closed {
          tcp_socket[socket] := tcp_socket[socket].(state := Listen, localPort := port, remotePort := 0);
          tcp_socket[socket] := tcp_socket[socket].(remote := tcp_socket[socket].remote.(ip := 0));
          tcp_socket[socket] := tcp_socket[socket].(rxRemaining := 0, ready := false, awaitingAck := false, resend := false);
          tcp_socket[socket] := tcp_socket[socket].(server := true, sendWaiting := false);
          assert tcp_socket[..] == old(tcp_socket[..])[socket := tcp_socket[socket]];
          return;
        }
        socket := socket + 1;
      }
      socket := INVALID_SOCKET;
    }

    /** The port search of tcp_connect_socket: it ends because there are fewer sockets than
        ports, with the first free port. */
    method AssignPort(socket: Byte)
      requires Shaped() && socket < SOCKETS
      modifies this`next_local_tcp_port_to_use, tcp_socket
      ensures Shaped()
      ensures var n := BusyPorts(old(tcp_socket[..]), socket, old(next_local_tcp_port_to_use), 0);
        && n < SOCKETS
        && View() == With(old(View()), socket, old(tcp_socket[socket]).(localPort := PortAfter(old(next_local_tcp_port_to_use), n)))
          .(nextPort := PortAfter(old(next_local_tcp_port_to_use), n + 1))
    {
      ghost var first, n := next_local_tcp_port_to_use, 0;
      ghost var table := tcp_socket[..];
      var bTemp := true;
      while bTemp
        invariant Shaped() && tcp_socket[..] == table[socket := table[socket].(localPort := tcp_socket[socket].localPort)]
        invariant View() == old(View()).(socket := tcp_socket[..], nextPort := next_local_tcp_port_to_use)
        invariant n < SOCKETS && BusyPorts(table, socket, first, 0) == BusyPorts(table, socket, first, n)
        invariant if bTemp then next_local_tcp_port_to_use == PortAfter(first, n) else
          && n == BusyPorts(table, socket, first, n)
          && tcp_socket[socket].localPort == PortAfter(first, n)
          && next_local_tcp_port_to_use == PortAfter(first, n + 1)
        decreases bTemp, SOCKETS - n
      {
        bTemp := TryPort(socket, first, n, table);
        if bTemp {
          BusyPortsFew(table, socket, first, n + 1);
          n := n + 1;
        }
      }
    }

    method TryPort(socket: Byte, ghost first: Word, ghost n: nat, ghost table: seq<Socket>) returns (bTemp: bool)
      requires Shaped() && socket < SOCKETS && |table| == SOCKETS
      requires PORT_START <= first <= PORT_END && next_local_tcp_port_to_use == PortAfter(first, n)
      requires tcp_socket[..] == table[socket := table[socket].(localPort := tcp_socket[socket].localPort)]
      modifies this`next_local_tcp_port_to_use, tcp_socket
      ensures Shaped() && next_local_tcp_port_to_use == PortAfter(first, n + 1)
      ensures tcp_socket[..] == table[socket := table[socket].(localPort := PortAfter(first, n))]
      ensures bTemp == Busy(table, socket, PortAfter(first, n))
    {
      tcp_socket[socket] := tcp_socket[socket].(localPort := next_local_tcp_port_to_use);
      NextPort(first, n);
      next_local_tcp_port_to_use := next_local_tcp_port_to_use + 1;
      if next_local_tcp_port_to_use > PORT_END {
        next_local_tcp_port_to_use := PORT_START;
      }
      bTemp := IsPortBusy(socket, table);
    }

    method IsPortBusy(socket: Byte, ghost table: seq<Socket>) returns (bTemp: bool)
      requires Shaped() && socket < SOCKETS && |table| == SOCKETS
      requires tcp_socket[..] == table[socket := tcp_socket[socket]]
      ensures bTemp == Busy(table, socket, tcp_socket[socket].localPort)
    {
      bTemp := false;
      var bCount := 0;
      while bCount < SOCKETS
        invariant 0 <= bCount <= SOCKETS
        invariant bTemp <==> exists b :: 0 <= b < bCount && b != socket && table[b].state != Closed && table[b].localPort == tcp_socket[socket].localPort
      {
        if bCount != socket {
          assert tcp_socket[bCount] == tcp_socket[..][bCount] == table[bCount];
          if tcp_socket[bCount].state != Closed && tcp_socket[bCount].localPort == tcp_socket[socket].localPort {
            bTemp := true;
          }
        }
        bCount := bCount + 1;
      }
    }

    method tcp_connect_socket(to: DeviceInfo, remotePort: Word, now: DWord, canSend: bool) returns (socket: Byte)
      requires Valid()
      modifies this, tcp_socket
      ensures Valid() && View() == Connect(old(View()), to, remotePort, now, canSend)
      ensures var i := FirstClosed(old(tcp_socket[..]), 0); socket == if i < SOCKETS then i else INVALID_SOCKET
    {
      StepKeepsInv(View(), ConnectTo(to, remotePort, now, canSend));
      socket := 0;
      while tcp_socket[socket].state != Closed
        invariant 0 <= socket < SOCKETS && View() == old(View())
        invariant FirstClosed(tcp_socket[..], 0) == FirstClosed(tcp_socket[..], socket)
        decreases SOCKETS - socket
      {
        if socket == SOCKETS - 1 {
          return INVALID_SOCKET;
        }
        socket := socket + 1;
      }
      AssignSocket(socket, to, remotePort);
      SynOrArp(socket, now, canSend);
    }

    /** The end of tcp_connect_socket. */
    method SynOrArp(socket: Byte, now: DWord, canSend: bool)
      requires Shaped() && socket < SOCKETS
      modifies this`sent, tcp_socket
      ensures Shaped() && View() == StartConnection(old(View()), socket, now, canSend)
    {
      if tcp_socket[socket].remote.mac != 0 {
        tcp_connect_socket_send_syn_request(socket, now, canSend);
      } else {
        tcp_socket[socket] := tcp_socket[socket].(startTime := now, timeOut := INITIAL_TIMEOUT);
        tcp_socket[socket] := tcp_socket[socket].(state := ConnectSendArpRequest);
        assert tcp_socket[..] == old(tcp_socket[..])[socket := tcp_socket[socket]];
      }
    }

    /** tcp_connect_socket from the socket it found up to where it starts the connection. */
    method AssignSocket(socket: Byte, to: DeviceInfo, remotePort: Word)
      requires Shaped() && socket < SOCKETS
      modifies this, tcp_socket
      ensures Shaped() && View() == Assigned(old(View()), socket, to, remotePort)
    {
      ghost var table, first := tcp_socket[..], next_local_tcp_port_to_use;
      ClearForConnect(socket);
      ghost var cleared := tcp_socket[..];
      BusyPortsOthers(table, cleared, socket, first, 0);
      AssignPort(socket);
      next_connection_start_sequence_number := Wrap32(next_connection_start_sequence_number + 1);
      tcp_socket[socket] := tcp_socket[socket].(sendSeq := next_connection_start_sequence_number, sendAck := 0, seqInc := 0,
        remote := to, remotePort := remotePort);
      assert tcp_socket[..] == table[socket := tcp_socket[socket]];
    }

    method ClearForConnect(socket: Byte)
      requires Shaped() && socket < SOCKETS
      modifies tcp_socket
      ensures Shaped() && View() == With(old(View()), socket, Fresh(old(tcp_socket[socket]), false))
    {
      tcp_socket[socket] := tcp_socket[socket].(rxRemaining := 0, ready := false, awaitingAck := false, resend := false);
      tcp_socket[socket] := tcp_socket[socket].(server := false, sendWaiting := false);
      assert tcp_socket[..] == old(tcp_socket[..])[socket := tcp_socket[socket]];
    }

    method tcp_connect_socket_send_syn_request(socket: Byte, now: DWord, canSend: bool)
      requires Shaped() && socket < SOCKETS
      modifies this`sent, tcp_socket
      ensures Shaped() && View() == SynRequest(old(View()), socket, now, canSend)
      ensures old(Valid() && tcp_socket[socket].state != Closed && !tcp_socket[socket].awaitingAck) ==> Valid()
    {
      if Inv(View()) && tcp_socket[socket].state != Closed && !tcp_socket[socket].awaitingAck {
        SynRequestKeeps(View(), socket, now, canSend);
      }
      tcp_send_command_packet_from_socket(socket, SYN, canSend);
      ghost var table := tcp_socket[..];
      tcp_socket[socket] := tcp_socket[socket].(state := SynRequestSent);
      tcp_socket[socket] := tcp_socket[socket].(seqInc := 1);
      tcp_socket[socket] := tcp_socket[socket].(startTime := now, timeOut := INITIAL_TIMEOUT);
      assert tcp_socket[..] == table[socket := tcp_socket[socket]];
    }

    // ----- a received segment -----

    /** The first steps of process_tcp_segment, in every state. */
    method NoteHeard(socket: Byte, now: DWord)
      requires Shaped() && socket < SOCKETS
      modifies tcp_socket
      ensures Shaped() && View() == With(old(View()), socket, Heard(old(tcp_socket[socket]), now))
    {
      if tcp_socket[socket].seqInc != 0 {
        tcp_socket[socket] := tcp_socket[socket].(sendSeq := Wrap32(tcp_socket[socket].sendSeq + tcp_socket[socket].seqInc));
        tcp_socket[socket] := tcp_socket[socket].(seqInc := 0);
      }
      tcp_socket[socket] := tcp_socket[socket].(retryCount := 0, startTime := now, timeOut := INITIAL_TIMEOUT);
      assert tcp_socket[..] == old(tcp_socket[..])[socket := tcp_socket[socket]];
    }

    /** In LISTEN. */
    method ListenSegment(socket: Byte, from: DeviceInfo, h: Header, length: Word, canSend: bool) returns (reply: Flags)
      requires Shaped() && socket < SOCKETS
      modifies this`next_connection_start_sequence_number, this`sent, tcp_socket
      ensures Shaped()
      ensures var startSeq := Wrap32(old(next_connection_start_sequence_number) + 1);
        var r := OnListen(old(tcp_socket[socket]), from, h, length, startSeq);
        var st1 := With(old(View()), socket, r.socket).(nextSeq := startSeq);
        && reply == r.reply
        && View() == if r.reset then SendReset(st1, from, h, h.ack, canSend) else st1
    {
      next_connection_start_sequence_number := Wrap32(next_connection_start_sequence_number + 1);
      tcp_socket[socket] := tcp_socket[socket].(sendSeq := next_connection_start_sequence_number, seqInc := 0,
        sendAck := Wrap32(h.number + length + 1));
      if h.flags.syn {
        tcp_socket[socket] := tcp_socket[socket].(remote := from, remotePort := h.sourcePort, seqInc := 1, state := SynRequestReceived);
        reply := SYN_ACK;
      } else {
        tcp_send_command_packet_no_socket(from, h.destinationPort, h.sourcePort, h.ack, h.number, RST, canSend);
        reply := NONE;
        tcp_socket[socket] := tcp_socket[socket].(remote := tcp_socket[socket].remote.(ip := 0));
      }
      assert tcp_socket[..] == old(tcp_socket[..])[socket := tcp_socket[socket]];
    }

    /** Data is left in the NIC for the application, an empty packet is dumped. */
    method KeepData(socket: Byte, length: Word) returns (rx_has_been_dumped: bool)
      requires Shaped() && socket < SOCKETS
      modifies tcp_socket
      ensures Shaped() && rx_has_been_dumped == (length == 0)
      ensures View() == With(old(View()), socket, Data(old(tcp_socket[socket]), NONE, length).socket)
    {
      rx_has_been_dumped := false;
      if length > 0 {
        tcp_socket[socket] := tcp_socket[socket].(rxRemaining := length);
      } else {
        rx_has_been_dumped := true;
      }
      assert tcp_socket[..] == old(tcp_socket[..])[socket := tcp_socket[socket]];
    }

    method SynReceivedSegment(socket: Byte, h: Header, length: Word, now: DWord) returns (rx_has_been_dumped: bool)
      requires Shaped() && socket < SOCKETS
      requires tcp_socket[socket].retryCount == 0 && tcp_socket[socket].startTime == now
      modifies tcp_socket
      ensures Shaped()
      ensures var r := OnSynReceived(old(tcp_socket[socket]), h, length);
        View() == With(old(View()), socket, r.socket) && r.reply == NONE && rx_has_been_dumped == r.dumped
    {
      if h.flags.ack {
        tcp_socket[socket] := tcp_socket[socket].(sendAck := Wrap32(h.number + length), retryCount := 0, startTime := now);
        tcp_socket[socket] := tcp_socket[socket].(state := ConnectionEstablished);
        rx_has_been_dumped := KeepData(socket, length);
      } else {
        rx_has_been_dumped := true;
      }
      assert tcp_socket[..] == old(tcp_socket[..])[socket := tcp_socket[socket]];
    }

    method SynSentSegment(socket: Byte, h: Header, length: Word) returns (reply: Flags, rx_has_been_dumped: bool)
      requires Shaped() && socket < SOCKETS
      modifies tcp_socket
      ensures Shaped()
      ensures var r := OnSynSent(old(tcp_socket[socket]), h, length);
        View() == With(old(View()), socket, r.socket) && reply == r.reply && rx_has_been_dumped == r.dumped
    {
      reply := NONE;
      if h.flags.syn {
        tcp_socket[socket] := tcp_socket[socket].(sendAck := Wrap32(h.number + length + 1));
        if h.flags.ack {
          reply := ACK;
          tcp_socket[socket] := tcp_socket[socket].(state := ConnectionEstablished);
        } else {
          reply := SYN_ACK;
          tcp_socket[socket] := tcp_socket[socket].(state := SynRequestReceived, sendSeq := Wrap32(tcp_socket[socket].sendSeq + 1), seqInc := 0);
        }
        tcp_socket[socket] := tcp_socket[socket].(ready := true);
        rx_has_been_dumped := KeepData(socket, length);
      } else {
        rx_has_been_dumped := true;
      }
      assert tcp_socket[..] == old(tcp_socket[..])[socket := tcp_socket[socket]];
    }

    /** In CONNECTION_ESTABLISHED. */
    method EstablishedSegment(socket: Byte, h: Header, length: Word) returns (reply: Flags, rx_has_been_dumped: bool)
      requires Shaped() && socket < SOCKETS
      modifies tcp_socket
      ensures Shaped()
      ensures var r := OnEstablished(old(tcp_socket[socket]), h, length);
        View() == With(old(View()), socket, r.socket) && reply == r.reply && rx_has_been_dumped == r.dumped
    {
      reply := NONE;
      if h.flags.ack {
        if tcp_socket[socket].awaitingAck {
          tcp_socket[socket] := tcp_socket[socket].(resend := false, awaitingAck := false, ready := true);
        }
      }
      if h.flags.fin {
        reply := FIN_ACK;
        tcp_socket[socket] := tcp_socket[socket].(seqInc := 1, sendAck := Wrap32(tcp_socket[socket].sendAck + 1));
        tcp_socket[socket] := tcp_socket[socket].(state := LastAckSent);
      }
      rx_has_been_dumped := KeepData(socket, length);
      if length > 0 && !reply.ack {
        reply := ACK;
      }
      assert tcp_socket[..] == old(tcp_socket[..])[socket := tcp_socket[socket]];
    }

    /** In FIN_WAIT_1, CLOSING or LAST_ACK_SENT: the packet is dumped. */
    method ClosingSegment(socket: Byte, h: Header) returns (reply: Flags)
      requires Shaped() && socket < SOCKETS
      requires var state := tcp_socket[socket].state; state == FinWait1 || state == Closing || state == LastAckSent
      modifies tcp_socket
      ensures Shaped()
      ensures var s := old(tcp_socket[socket]);
        var r := if s.state == FinWait1 then OnFinWait1(s, h) else OnAwaitingLastAck(s, h);
        View() == With(old(View()), socket, r.socket) && reply == r.reply
    {
      reply := NONE;
      if tcp_socket[socket].state == FinWait1 {
        if h.flags.fin {
          reply := ACK;
          tcp_socket[socket] := tcp_socket[socket].(sendAck := Wrap32(tcp_socket[socket].sendAck + 1));
          if h.flags.ack {
            tcp_close_socket(socket);
          } else {
            tcp_socket[socket] := tcp_socket[socket].(state := Closing);
          }
        }
      } else if h.flags.ack {
        tcp_close_socket(socket);
      }
      assert tcp_socket[..] == old(tcp_socket[..])[socket := tcp_socket[socket]];
    }

    /** A segment for a connected socket, with the acknowledgement expected or a FIN. */
    method ConnectedSegment(socket: Byte, h: Header, length: Word, now: DWord) returns (reply: Flags, rx_has_been_dumped: bool, ends: bool)
      requires Shaped() && socket < SOCKETS
      requires tcp_socket[socket].retryCount == 0 && tcp_socket[socket].startTime == now
      modifies tcp_socket
      ensures Shaped()
      ensures var r := OnExpected(old(tcp_socket[socket]), h, length);
        View() == With(old(View()), socket, r.socket) && reply == r.reply && rx_has_been_dumped == r.dumped && ends == r.ends
    {
      reply, rx_has_been_dumped, ends := NONE, false, false;
      if tcp_socket[socket].state == SynRequestReceived {
        rx_has_been_dumped := SynReceivedSegment(socket, h, length, now);
        return;
      }
      if tcp_socket[socket].state == SynRequestSent {
        reply, rx_has_been_dumped := SynSentSegment(socket, h, length);
        return;
      }
      if h.number != tcp_socket[socket].sendAck {
        assert View() == With(View(), socket, tcp_socket[socket]);
        return NONE, true, true;
      }
      tcp_socket[socket] := tcp_socket[socket].(sendAck := Wrap32(h.number + length));
      ghost var st := View();
      if tcp_socket[socket].state == ConnectionEstablished {
        reply, rx_has_been_dumped := EstablishedSegment(socket, h, length);
      } else if tcp_socket[socket].state == LastAckSent || tcp_socket[socket].state == FinWait1 || tcp_socket[socket].state == Closing {
        rx_has_been_dumped := true;
        reply := ClosingSegment(socket, h);
      }
      assert tcp_socket[..] == old(tcp_socket[..])[socket := tcp_socket[socket]];
    }

    method SendAnswer(socket: Byte, reply: Flags, rx_has_been_dumped: bool, canSend: bool)
      requires Shaped() && socket < SOCKETS
      modifies this, tcp_socket
      ensures Shaped() && View() == Answer(old(View()), socket, reply, rx_has_been_dumped, canSend)
    {
      tcp_tx_resp_after_proc_rx_resp_flags := NONE;
      if reply != NONE {
        if rx_has_been_dumped {
          tcp_send_command_packet_from_socket(socket, reply, canSend);
        } else {
          tcp_tx_resp_after_proc_rx_socket := socket;
          tcp_tx_resp_after_proc_rx_resp_flags := reply;
        }
      }
    }

    /** Up to the answer: what the socket and the sequence counter become. */
    method TakeSegment(socket: Byte, from: DeviceInfo, h: Header, length: Word, now: DWord, canSend: bool)
      returns (reply: Flags, rx_has_been_dumped: bool, ends: bool)
      requires Shaped() && socket < SOCKETS
      modifies this`next_connection_start_sequence_number, this`sent, tcp_socket
      ensures Shaped()
      ensures var r := OnSegment(old(tcp_socket[socket]), from, h, length, now, Wrap32(old(next_connection_start_sequence_number) + 1));
        && View() == Taken(old(View()), socket, from, h, r, canSend)
        && reply == r.reply && rx_has_been_dumped == r.dumped && ends == r.ends
    {
      reply, rx_has_been_dumped, ends := NONE, true, false;
      NoteHeard(socket, now);
      if tcp_socket[socket].state == Listen {
        reply := ListenSegment(socket, from, h, length, canSend);
      } else if h.flags.rst {
        tcp_close_socket(socket);
        ends := true;
      } else if tcp_socket[socket].sendSeq == h.ack || h.flags.fin {
        reply, rx_has_been_dumped, ends := ConnectedSegment(socket, h, length, now);
      } else if tcp_socket[socket].state == SynRequestSent {
        tcp_send_command_packet_no_socket(from, h.destinationPort, h.sourcePort, h.ack, h.number, RST, canSend);
      }
      assert tcp_socket[..] == old(tcp_socket[..])[socket := tcp_socket[socket]];
    }

    method process_tcp_segment(socket: Byte, from: DeviceInfo, h: Header, length: Word, now: DWord, canSend: bool) returns (done: bool)
      requires Shaped() && socket < SOCKETS
      modifies this, tcp_socket
      ensures Shaped() && View() == ProcessSegment(old(View()), socket, from, h, length, now, canSend)
      ensures done == OnSegment(old(tcp_socket[socket]), from, h, length, now, Wrap32(old(next_connection_start_sequence_number) + 1)).dumped
    {
      var reply, ends;
      reply, done, ends := TakeSegment(socket, from, h, length, now, canSend);
      if ends {
        return;
      }
      SendAnswer(socket, reply, done, canSend);
    }

    // ----- the receive buffer -----

    method tcp_rx_check_for_matches_socket(from: DeviceInfo, h: Header) returns (match_socket: Byte)
      requires Shaped()
      modifies tcp_socket
      ensures Shaped() && match_socket == Match(old(tcp_socket[..]), from, h) && View() == Matched(old(View()), from, h)
    {
      var listening_socket := INVALID_SOCKET;
      ghost var table := tcp_socket[..];
      match_socket := 0;
      while match_socket < SOCKETS
        invariant 0 <= match_socket <= SOCKETS && View() == old(View())
        invariant FirstConnected(table, from, h, 0) == FirstConnected(table, from, h, match_socket)
        invariant var l := AfterListening(table, h, match_socket); listening_socket == if l > 0 then l - 1 else INVALID_SOCKET
      {
        var s := tcp_socket[match_socket];
        if s.state != Closed && s.localPort == h.destinationPort {
          if s.state == Listen {
            listening_socket := match_socket;
          }
          if s.remote.ip == from.ip && s.remotePort == h.sourcePort {
            return;
          }
        }
        match_socket := match_socket + 1;
      }
      match_socket := listening_socket;
      if match_socket != INVALID_SOCKET {
        tcp_socket[match_socket] := tcp_socket[match_socket].(remote := from, remotePort := h.sourcePort);
        tcp_socket[match_socket] := tcp_socket[match_socket].(rxRemaining := 0, ready := true, sendWaiting := false);
        assert tcp_socket[..] == table[match_socket := tcp_socket[match_socket]];
      }
    }

    method tcp_dump_rx_packet()
      requires Valid() && tcp_rx_active_socket < SOCKETS
      modifies tcp_socket
      ensures Valid() && View() == DumpRx(old(View()))
    {
      StepKeepsInv(View(), Dump);
      tcp_socket[tcp_rx_active_socket] := tcp_socket[tcp_rx_active_socket].(rxRemaining := 0);
    }

    /** The application reads a byte of the packet that waits. */
    method tcp_read_next_rx_byte() returns (got: bool)
      requires Valid() && tcp_rx_active_socket < SOCKETS
      modifies tcp_socket
      ensures Valid() && View() == ReadByte(old(View())) && (got <==> old(tcp_socket[tcp_rx_active_socket]).rxRemaining > 0)
    {
      StepKeepsInv(View(), Read);
      if tcp_socket[tcp_rx_active_socket].rxRemaining == 0 {
        return false;
      }
      tcp_socket[tcp_rx_active_socket] := tcp_socket[tcp_rx_active_socket].(rxRemaining := tcp_socket[tcp_rx_active_socket].rxRemaining - 1);
      got := true;
    }

    /** The packet that waited has been read and dumped. */
    method FinishRx(canSend: bool)
      requires Shaped() && tcp_rx_packet_is_waiting_to_be_processed
      modifies this, tcp_socket
      ensures Shaped() && View() == Finished(old(View()), canSend)
    {
      if tcp_tx_resp_after_proc_rx_resp_flags != NONE {
        tcp_send_command_packet_from_socket(tcp_tx_resp_after_proc_rx_socket, tcp_tx_resp_after_proc_rx_resp_flags, canSend);
        tcp_tx_resp_after_proc_rx_resp_flags := NONE;
      }
      tcp_rx_active_socket := INVALID_SOCKET;
      tcp_rx_packet_is_waiting_to_be_processed := false;
    }

    method tcp_process_rx(p: Packet, now: DWord, canSend: bool) returns (done: bool)
      requires Valid()
      modifies this, tcp_socket
      ensures Valid() && View() == ProcessRx(old(View()), p, now, canSend)
      ensures done <==> !tcp_rx_packet_is_waiting_to_be_processed
    {
      StepKeepsInv(View(), Received(p, now, canSend));
      if tcp_rx_packet_is_waiting_to_be_processed {
        if tcp_socket[tcp_rx_active_socket].rxRemaining == 0 {
          FinishRx(canSend);
          return true;
        }
        if tcp_socket[tcp_rx_active_socket].state != ConnectionEstablished {
          tcp_dump_rx_packet();
        }
        return false;
      }
      done := ProcessNewPacket(p, now, canSend);
    }

    /** tcp_process_rx when no packet waits. */
    method ProcessNewPacket(p: Packet, now: DWord, canSend: bool) returns (done: bool)
      requires Shaped() && !tcp_rx_packet_is_waiting_to_be_processed
      modifies this, tcp_socket
      ensures Shaped() && View() == NewPacket(old(View()), p, now, canSend)
      ensures done <==> !tcp_rx_packet_is_waiting_to_be_processed
    {
      if !p.intact {
        return true;
      }
      ghost var st := View();
      var length := Wrap16(p.ipBytes - 4 * p.headerWords);
      var tcp_socket_number := tcp_rx_check_for_matches_socket(p.from, p.h);
      if tcp_socket_number == INVALID_SOCKET {
        var number: int := p.h.ack + length;
        if p.h.flags.syn || p.h.flags.fin {
          number := number + 1;
        }
        tcp_send_command_packet_no_socket(p.from, p.h.destinationPort, p.h.sourcePort, Wrap32(number), p.h.number, RST, canSend);
        assert View() == Unmatched(st, p, canSend);
        return true;
      }
      done := Deliver(tcp_socket_number, p, length, now, canSend);
    }

    /** A packet goes to its socket, and waits there if it was not dumped. */
    method Deliver(socket: Byte, p: Packet, length: Word, now: DWord, canSend: bool) returns (done: bool)
      requires Shaped() && !tcp_rx_packet_is_waiting_to_be_processed && socket < SOCKETS && length == DataLength(p)
      modifies this, tcp_socket
      ensures Shaped() && done == !tcp_rx_packet_is_waiting_to_be_processed
      ensures var r := OnSegment(old(tcp_socket[socket]), p.from, p.h, length, now, Wrap32(old(next_connection_start_sequence_number) + 1));
        View() == Delivered(old(View()), socket, p, r, canSend)
    {
      done := process_tcp_segment(socket, p.from, p.h, length, now, canSend);
      if !done {
        tcp_rx_active_socket := socket;
        tcp_rx_packet_is_waiting_to_be_processed := true;
      }
    }

    // ----- sending data -----

    method tcp_is_socket_ready_to_tx_new_packet(socket: Byte, nicOk: bool) returns (ready: bool)
      requires Valid() && socket < SOCKETS
      ensures ready <==> nicOk && ReadyToTx(View(), socket)
    {
      if !nicOk {
        return false;
      }
      if tcp_rx_packet_is_waiting_to_be_processed && tcp_tx_resp_after_proc_rx_resp_flags != NONE {
        return false;
      }
      ready := !(tcp_socket[socket].awaitingAck || !tcp_socket[socket].ready);
    }

    /** canSetup: the NIC has a transmit buffer. */
    method tcp_setup_socket_tx(socket: Byte, nicOk: bool, canSetup: bool) returns (ok: bool)
      requires Valid() && socket < SOCKETS
      modifies tcp_socket
      ensures Valid() && ok == (nicOk && ReadyToTx(old(View()), socket) && canSetup)
      ensures View() == if nicOk && ReadyToTx(old(View()), socket) then SetupTx(old(View()), socket) else old(View())
    {
      ok := tcp_is_socket_ready_to_tx_new_packet(socket, nicOk);
      if !ok {
        return;
      }
      SetupTxKeeps(View(), socket);
      PrepareTx(socket);
      ok := canSetup;
    }

    /** The sequence number for a new packet, but not for a resent one. */
    method PrepareTx(socket: Byte)
      requires Shaped() && socket < SOCKETS && ReadyToTx(View(), socket)
      modifies tcp_socket
      ensures Shaped() && View() == SetupTx(old(View()), socket)
    {
      if !tcp_socket[socket].resend {
        if tcp_socket[socket].seqInc != 0 {
          tcp_socket[socket] := tcp_socket[socket].(sendSeq := Wrap32(tcp_socket[socket].sendSeq + tcp_socket[socket].seqInc), seqInc := 0);
        }
      }
      tcp_socket[socket] := tcp_socket[socket].(hadData := false, lastTxFlags := ACK);
      assert tcp_socket[..] == old(tcp_socket[..])[socket := tcp_socket[socket]];
    }

    /** The driver's invariant is kept exactly on a socket whose state deals with the
        acknowledgement; the program does not test that. */
    method tcp_socket_tx_packet(socket: Byte, length: Word, now: DWord)
      requires Valid() && socket < SOCKETS
      modifies this`sent, tcp_socket
      ensures Shaped() && (Valid() <==> MayAwaitAck(old(tcp_socket[socket].state)))
      ensures View() == TxPacket(old(View()), socket, length, now)
    {
      TxPacketKeeps(View(), socket, length, now);
      TransmitData(socket, length, now);
    }

    method TransmitData(socket: Byte, length: Word, now: DWord)
      requires Shaped() && socket < SOCKETS
      modifies this`sent, tcp_socket
      ensures Shaped() && View() == TxPacket(old(View()), socket, length, now)
    {
      var s := tcp_socket[socket];
      sent := sent + [Segment(s.remote, s.localPort, s.remotePort, s.sendSeq, s.sendAck, ACK, length)];
      if length != 0 {
        tcp_socket[socket] := tcp_socket[socket].(hadData := true);
      }
      tcp_socket[socket] := tcp_socket[socket].(seqInc := length);
      if !tcp_socket[socket].resend {
        tcp_socket[socket] := tcp_socket[socket].(startTime := now, timeOut := INITIAL_TIMEOUT);
      }
      tcp_socket[socket] := tcp_socket[socket].(ready := false, awaitingAck := true, resend := false);
      assert tcp_socket[..] == old(tcp_socket[..])[socket := tcp_socket[socket]];
    }

    // ----- the background pass -----

    /** After a timeout: the switch over the states. */
    method Retransmit(socket: Byte, flags: Flags) returns (tcp_response_flags: Flags)
      requires Shaped() && socket < SOCKETS
      modifies tcp_socket
      ensures Shaped()
      ensures View() == With(old(View()), socket, Retry(old(tcp_socket[socket]), flags).0)
      ensures tcp_response_flags == Retry(old(tcp_socket[socket]), flags).1
    {
      tcp_response_flags := flags;
      match tcp_socket[socket].state {
        case SynRequestSent =>
          tcp_response_flags := SYN;
        case SynRequestReceived =>
          if tcp_socket[socket].retryCount <= MAX_RETRIES {
            tcp_response_flags := SYN_ACK;
          } else {
            tcp_close_socket(socket);
          }
        case ConnectionEstablished =>
          tcp_response_flags := RetransmitEstablished(socket, flags);
        case FinWait1 =>
          tcp_response_flags := RetransmitClosing(socket, flags, FIN);
        case LastAckSent =>
          tcp_response_flags := RetransmitClosing(socket, flags, FIN);
        case Closing =>
          tcp_response_flags := RetransmitClosing(socket, flags, ACK);
        case _ =>
      }
      assert tcp_socket[..] == old(tcp_socket[..])[socket := tcp_socket[socket]];
    }

    method RetransmitClosing(socket: Byte, flags: Flags, again: Flags) returns (tcp_response_flags: Flags)
      requires Shaped() && socket < SOCKETS
      modifies tcp_socket
      ensures Shaped()
      ensures var s := old(tcp_socket[socket]);
        && View() == With(old(View()), socket, if s.retryCount <= MAX_RETRIES then s else Shut(s))
        && tcp_response_flags == if s.retryCount <= MAX_RETRIES then again else flags
    {
      tcp_response_flags := flags;
      if tcp_socket[socket].retryCount <= MAX_RETRIES {
        tcp_response_flags := again;
        assert tcp_socket[..] == tcp_socket[..][socket := tcp_socket[socket]];
      } else {
        tcp_close_socket(socket);
      }
    }

    method RetransmitEstablished(socket: Byte, flags: Flags) returns (tcp_response_flags: Flags)
      requires Shaped() && socket < SOCKETS && tcp_socket[socket].state == ConnectionEstablished
      modifies tcp_socket
      ensures Shaped()
      ensures View() == With(old(View()), socket, Retry(old(tcp_socket[socket]), flags).0)
      ensures tcp_response_flags == Retry(old(tcp_socket[socket]), flags).1
    {
      tcp_response_flags := flags;
      if tcp_socket[socket].retryCount <= MAX_RETRIES {
        if tcp_socket[socket].awaitingAck {
          if !tcp_socket[socket].hadData {
            tcp_response_flags := tcp_socket[socket].lastTxFlags;
          } else {
            tcp_socket[socket] := tcp_socket[socket].(resend := true, awaitingAck := false, ready := true);
          }
        } else {
          tcp_socket[socket] := tcp_socket[socket].(retryCount := 0);
          tcp_response_flags := NONE;
        }
      } else {
        if tcp_socket[socket].awaitingAck {
          tcp_socket[socket] := tcp_socket[socket].(resend := false, awaitingAck := false);
        }
        tcp_response_flags := FIN_ACK;
        tcp_socket[socket] := tcp_socket[socket].(state := FinWait1);
      }
      assert tcp_socket[..] == old(tcp_socket[..])[socket := tcp_socket[socket]];
    }

    /** The last part of a socket's turn: send what the switch chose. */
    method SendResponse(socket: Byte, flags: Flags, canReply: bool)
      requires Shaped() && socket < SOCKETS
      modifies this`sent, tcp_socket
      ensures Shaped() && View() == Respond(old(View()), socket, flags, canReply)
    {
      if flags != NONE {
        tcp_send_command_packet_from_socket(socket, flags, canReply);
        ghost var st := View();
        if flags != ACK {
          tcp_socket[socket] := tcp_socket[socket].(seqInc := 1);
        }
      }
    }

    method RestartTimer(socket: Byte, now: DWord)
      requires Shaped() && socket < SOCKETS
      modifies tcp_socket
      ensures Shaped() && View() == With(old(View()), socket, Restarted(old(tcp_socket[socket]), now))
    {
      tcp_socket[socket] := tcp_socket[socket].(startTime := now);
      if Wrap32(2 * tcp_socket[socket].timeOut) < MAX_TIMEOUT {
        tcp_socket[socket] := tcp_socket[socket].(timeOut := Wrap32(2 * tcp_socket[socket].timeOut));
      } else {
        tcp_socket[socket] := tcp_socket[socket].(timeOut := MAX_TIMEOUT);
      }
      tcp_socket[socket] := tcp_socket[socket].(retryCount := Wrap8(tcp_socket[socket].retryCount + 1));
      assert tcp_socket[..] == old(tcp_socket[..])[socket := tcp_socket[socket]];
    }

    /** One turn of the loop of process_tcp. The flags are kept from socket to socket. */
    method ProcessOne(socket: Byte, flags: Flags, env: Env, now: DWord) returns (tcp_response_flags: Flags, goesOn: bool)
      requires Shaped() && socket < SOCKETS
      modifies this`sent, tcp_socket
      ensures Shaped() && Turn(View(), tcp_response_flags, goesOn) == ProcessSocket(old(View()), socket, flags, env, now)
    {
      tcp_response_flags, goesOn := flags, true;
      var s := tcp_socket[socket];
      if s.rxRemaining != 0 || s.state == Closed || s.state == Listen {
        return;
      }
      if s.sendWaiting {
        tcp_send_command_packet_from_socket(socket, s.waitingFlags, env.canSend);
        return;
      }
      if s.state == ConnectSendArpRequest {
        if env.arpAsked {
          tcp_socket[socket] := tcp_socket[socket].(state := ConnectWaitArpResponse);
        }
        assert tcp_socket[..] == old(tcp_socket[..])[socket := tcp_socket[socket]];
        return;
      }
      if s.state == ConnectWaitArpResponse && env.arpAnswer != 0 {
        tcp_socket[socket] := tcp_socket[socket].(remote := s.remote.(mac := env.arpAnswer));
        tcp_connect_socket_send_syn_request(socket, now, env.canSend);
      }
      tcp_response_flags, goesOn := CheckTimeout(socket, flags, env, now);
    }

    method CheckTimeout(socket: Byte, flags: Flags, env: Env, now: DWord) returns (tcp_response_flags: Flags, goesOn: bool)
      requires Shaped() && socket < SOCKETS
      modifies this`sent, tcp_socket
      ensures Shaped() && Turn(View(), tcp_response_flags, goesOn) == Expire(old(View()), socket, flags, env, now)
    {
      tcp_response_flags, goesOn := flags, true;
      if Wrap32(now - tcp_socket[socket].startTime) <= tcp_socket[socket].timeOut {
        return;
      }
      if !env.nicOk {
        return flags, false;
      }
      ghost var st := View();
      RestartTimer(socket, now);
      tcp_response_flags := Retransmit(socket, flags);
      assert View().socket == With(st, socket, Retry(Restarted(st.socket[socket], now), flags).0).socket;
      SendResponse(socket, tcp_response_flags, env.canReply);
    }

    method process_tcp(env: seq<Env>, now: DWord)
      requires Valid() && |env| == SOCKETS
      modifies this`sent, tcp_socket
      ensures Valid() && View() == Pass(old(View()), 0, NONE, env, now)
    {
      StepKeepsInv(View(), Background(env, now));
      var tcp_response_flags, goesOn := NONE, true;
      var socket := 0;
      while socket < SOCKETS
        invariant 0 <= socket <= SOCKETS && Shaped()
        invariant Pass(View(), socket, tcp_response_flags, env, now) == Pass(old(View()), 0, NONE, env, now)
      {
        tcp_response_flags, goesOn := ProcessOne(socket, tcp_response_flags, env[socket], now);
        if !goesOn {
          return;
        }
        socket := socket + 1;
      }
    }
  }
}
