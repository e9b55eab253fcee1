/** Packets whose checksums are made while they are written, with the lengths added last:
    eth-ip.c and the checksum parts of eth-tcp.c. */
module TcpChecksum {
  import opened IpChecksum

  const IP_PROTOCOL_TCP: byte := 6
  const IP_DEFAULT_TIME_TO_LIVE: byte := 100
  const TCP_HEADER_LENGTH: nat := 20
  const MAX_TCP_DATA_LEN: nat := 1460

  /** An IP address is four bytes. */
  type Address = a: seq<byte> | |a| == 4 witness [0, 0, 0, 0]

  /** A field that is filled in later. */
  ghost predicate Blank(data: seq<byte>, at: nat) {
    at + 2 <= |data| && data[at..at + 2] == [0, 0]
  }

  lemma BlankStays(data: seq<byte>, at: nat)
    requires Blank(data, at)
    ensures Put(data, at, 0, 0) == data
  {
    assert data[at] == data[at..at + 2][0] && data[at + 1] == data[at..at + 2][1];
  }

  lemma PutBack(data: seq<byte>, at: nat, w: nat)
    requires Blank(data, at) && w <= TOP
    ensures Put(PutWord(data, at, w), at, 0, 0) == data
  {
    BlankStays(data, at);
    assert Put(PutWord(data, at, w), at, 0, 0) == Put(data, at, 0, 0);
  }

  /** The IP header that ip_write_header makes: length and checksum are still zero. */
  ghost predicate IsIpHeader(h: seq<byte>, ident: nat, protocol: byte, source: Address, destination: Address) {
    && ident <= TOP
    && h == [0x45, 0, 0, 0, ident / 0x100, ident % 0x100, 0, 0, IP_DEFAULT_TIME_TO_LIVE, protocol, 0, 0] + source + destination
  }

  /** The pseudo header of a TCP checksum. */
  function Pseudo(source: Address, destination: Address, length: nat): (p: seq<byte>)
    requires length <= TOP
    ensures |p| == 12
  {
    source + destination + [0, IP_PROTOCOL_TCP, length / 0x100, length % 0x100]
  }

  /** The checksum test of tcp_process_rx. */
  predicate TcpAccepted(source: Address, destination: Address, segment: seq<byte>) {
    && TCP_HEADER_LENGTH <= |segment| <= TOP
    && WordAt(segment[16], segment[17]) == Not16(Checksum(Pseudo(source, destination, |segment|) + PutWord(segment, 16, 0)))
  }

  // ----- the TCP header -----

  const TCP_SYN: byte := 0x02
  const TCP_MAX_SEGMENT_SIZE: nat := 1460
  const TCP_OPTIONS_MAX_SEG_SIZE: byte := 2

  type Word = w: int | 0 <= w < 0x1_0000
  type DWord = w: int | 0 <= w < 0x1_0000_0000

  /** The fields that differ from packet to packet. */
  datatype TcpHeader = TcpHeader(source_port: Word, destination_port: Word,
    sequence_number: DWord, acknowledgment_number: DWord, flags: byte)

  predicate HasSyn(flags: byte) {
    flags / TCP_SYN % 2 == 1
  }

  function Word32(x: DWord): (b: seq<byte>)
    ensures |b| == 4
  {
    Word16(x / 0x1_0000) + Word16(x % 0x1_0000)
  }

  function DWordAt(b0: byte, b1: byte, b2: byte, b3: byte): DWord {
    0x1_0000 * WordAt(b0, b1) + WordAt(b2, b3)
  }

  lemma Word32Reads(x: DWord)
    ensures var b := Word32(x); DWordAt(b[0], b[1], b[2], b[3]) == x
  {
  }

  /** A SYN packet carries the maximum segment size as an option, and its header is longer. */
  function HeaderBytes(h: TcpHeader): (b: seq<byte>)
    ensures |b| == TCP_HEADER_LENGTH
  {
    Word16(h.source_port) + Word16(h.destination_port) + Word32(h.sequence_number) + Word32(h.acknowledgment_number)
      + [if HasSyn(h.flags) then 0x60 else 0x50, h.flags] + Word16(TCP_MAX_SEGMENT_SIZE) + [0, 0, 0, 0]
  }

  function OptionBytes(h: TcpHeader): (b: seq<byte>)
    ensures |b| == if HasSyn(h.flags) then 4 else 0
  {
    if HasSyn(h.flags) then [TCP_OPTIONS_MAX_SEG_SIZE, 4, TCP_MAX_SEGMENT_SIZE / 0x100, TCP_MAX_SEGMENT_SIZE % 0x100] else []
  }

  /** The header as the receiver's structure sees it. */
  function HeaderFrom(segment: seq<byte>): TcpHeader
    requires TCP_HEADER_LENGTH <= |segment|
  {
    TcpHeader(WordAt(segment[0], segment[1]), WordAt(segment[2], segment[3]),
      DWordAt(segment[4], segment[5], segment[6], segment[7]), DWordAt(segment[8], segment[9], segment[10], segment[11]), segment[13])
  }

  /** The data begins where the header's own length says. */
  function DataFrom(segment: seq<byte>): seq<byte>
    requires TCP_HEADER_LENGTH <= |segment|
  {
    var start := segment[12] / 0x10 * 4;
    if start <= |segment| then segment[start..] else []
  }

  lemma HeaderBytesRead(h: TcpHeader, rest: seq<byte>)
    ensures HeaderFrom(HeaderBytes(h) + rest) == h && (HeaderBytes(h) + rest)[12] == if HasSyn(h.flags) then 0x60 else 0x50
  {
    Word32Reads(h.sequence_number);
    Word32Reads(h.acknowledgment_number);
    var b := HeaderBytes(h);
    assert b[..2] == Word16(h.source_port) && b[2..4] == Word16(h.destination_port);
    assert b[4..8] == Word32(h.sequence_number) && b[8..12] == Word32(h.acknowledgment_number);
    assert (b + rest)[..20] == b;
  }

  /** The segment byte by byte, the checksum left aside: ports, numbers, the header's length
      in words, flags, a window of 1460 bytes, no urgent data, and with a SYN the option of
      kind 2 and length 4 with the largest segment, 1460 bytes. */
  predicate HasFields(segment: seq<byte>, h: TcpHeader) {
    && |segment| >= 20
    && WordAt(segment[0], segment[1]) == h.source_port && WordAt(segment[2], segment[3]) == h.destination_port
    && 0x1_0000 * WordAt(segment[4], segment[5]) + WordAt(segment[6], segment[7]) == h.sequence_number
    && 0x1_0000 * WordAt(segment[8], segment[9]) + WordAt(segment[10], segment[11]) == h.acknowledgment_number
    && segment[13] == h.flags && WordAt(segment[14], segment[15]) == 1460 && segment[18] == segment[19] == 0
    && if h.flags / 2 % 2 == 1 then
         && |segment| >= 24 && segment[12] == 6 * 0x10
         && segment[20] == 2 && segment[21] == 4 && WordAt(segment[22], segment[23]) == 1460
       else
         segment[12] == 5 * 0x10
  }

  lemma HeaderTail(h: TcpHeader)
    ensures var b := HeaderBytes(h); WordAt(b[14], b[15]) == 1460 && b[18] == b[19] == 0
  {
    var b := HeaderBytes(h);
    assert b[14..20] == Word16(TCP_MAX_SEGMENT_SIZE) + [0, 0, 0, 0];
    assert b[14] == b[14..20][0] && b[15] == b[14..20][1] && b[18] == b[14..20][4] && b[19] == b[14..20][5];
  }

  lemma SynOption(h: TcpHeader)
    ensures var b := OptionBytes(h); HasSyn(h.flags) ==> b[0] == 2 && b[1] == 4 && WordAt(b[2], b[3]) == 1460
  {
  }

  lemma FieldsIn(b: seq<byte>, option: seq<byte>, data: seq<byte>, h: TcpHeader)
    requires |b| == 20 && HeaderFrom(b + (option + data)) == h && WordAt(b[14], b[15]) == 1460 && b[18] == b[19] == 0
    requires b[12] == if h.flags / 2 % 2 == 1 then 0x60 else 0x50
    requires h.flags / 2 % 2 == 1 ==> |option| == 4 && option[0] == 2 && option[1] == 4 && WordAt(option[2], option[3]) == 1460
    ensures HasFields(b + (option + data), h)
  {
    var s := b + (option + data);
    assert s[14] == b[14] && s[15] == b[15] && s[18] == b[18] && s[19] == b[19] && s[12] == b[12];
    if h.flags / 2 % 2 == 1 {
      assert s[20] == option[0] && s[21] == option[1] && s[22] == option[2] && s[23] == option[3];
    }
  }

  lemma Associates<T>(a: seq<T>, b: seq<T>, c: seq<T>)
    ensures a + b + c == a + (b + c)
  {
  }

  lemma BytesHaveFields(h: TcpHeader, data: seq<byte>)
    ensures HasFields(HeaderBytes(h) + OptionBytes(h) + data, h)
  {
    HeaderBytesRead(h, OptionBytes(h) + data);
    HeaderTail(h);
    SynOption(h);
    Associates(HeaderBytes(h), OptionBytes(h), data);
    FieldsIn(HeaderBytes(h), OptionBytes(h), data, h);
  }

  /** The checksum is not one of the fields, nor data. */
  lemma ChecksumElsewhere(segment: seq<byte>, h: TcpHeader)
    requires TCP_HEADER_LENGTH <= |segment|
    ensures HasFields(PutWord(segment, 16, 0), h) ==> HasFields(segment, h)
    ensures HeaderFrom(PutWord(segment, 16, 0)) == HeaderFrom(segment)
  {
  }

  lemma DataElsewhere(segment: seq<byte>)
    requires TCP_HEADER_LENGTH <= |segment| && segment[12] / 0x10 * 4 >= TCP_HEADER_LENGTH
    ensures DataFrom(PutWord(segment, 16, 0)) == DataFrom(segment)
  {
    var sent := PutWord(segment, 16, 0);
    assert sent[12] == segment[12];
  }

  /** The receiver reads this header and this data, and each field is at its place. */
  predicate Arrives(segment: seq<byte>, h: TcpHeader, data: seq<byte>)
    requires TCP_HEADER_LENGTH <= |segment|
  {
    var arrives := HeaderFrom(segment) == h && DataFrom(segment) == data && HasFields(segment, h);
    arrives
  }

  /** Whatever the checksum, the receiver reads the fields, the window, the option and the
      data that were sent. */
  lemma FieldsArrive(segment: seq<byte>, h: TcpHeader, data: seq<byte>)
    requires TCP_HEADER_LENGTH <= |segment| && PutWord(segment, 16, 0) == HeaderBytes(h) + OptionBytes(h) + data
    ensures Arrives(segment, h, data)
  {
    BytesHaveFields(h, data);
    BytesRead(h, data);
    ChecksumElsewhere(segment, h);
    DataElsewhere(segment);
  }

  lemma BytesRead(h: TcpHeader, data: seq<byte>)
    ensures var sent := HeaderBytes(h) + OptionBytes(h) + data; HeaderFrom(sent) == h && DataFrom(sent) == data
  {
    HeaderBytesRead(h, OptionBytes(h) + data);
    HeaderBytesRead(h, OptionBytes(h));
    Associates(HeaderBytes(h), OptionBytes(h), data);
    DataAfter(HeaderBytes(h) + OptionBytes(h), data);
  }

  lemma DataAfter(head: seq<byte>, data: seq<byte>)
    requires |head| >= TCP_HEADER_LENGTH && |head| == head[12] / 0x10 * 4
    ensures DataFrom(head + data) == data
  {
    assert (head + data)[12] == head[12];
  }

  /** What tcp_process_rx sums of the receive slot: a header in any case, and the data area
      that the IP header announces. */
  function SegmentOf(slot: seq<byte>, ip_data_area_bytes: nat): (segment: seq<byte>)
    requires TCP_HEADER_LENGTH <= |slot| && ip_data_area_bytes <= |slot|
    ensures |segment| >= TCP_HEADER_LENGTH
  {
    slot[..if ip_data_area_bytes < TCP_HEADER_LENGTH then TCP_HEADER_LENGTH else ip_data_area_bytes]
  }

  /** The checksum part of tcp_process_rx: pseudo header, header, and then byte by byte. The
      slot holds the bytes behind the IP header, and what follows the packet there. */
  method TcpRxCheck(source: Address, destination: Address, slot: seq<byte>, ip_data_area_bytes: nat) returns (ok: bool)
    requires ip_data_area_bytes <= TOP && TCP_HEADER_LENGTH <= |slot| && ip_data_area_bytes <= |slot|
    ensures var segment := SegmentOf(slot, ip_data_area_bytes);
      var sum := Checksum(Pseudo(source, destination, ip_data_area_bytes) + PutWord(segment, 16, 0));
      ok == (WordAt(segment[16], segment[17]) == Not16(sum))
    ensures ip_data_area_bytes >= TCP_HEADER_LENGTH ==> ok == TcpAccepted(source, destination, slot[..ip_data_area_bytes])
  {
    ghost var summed := Pseudo(source, destination, ip_data_area_bytes);
    ghost var all := PutWord(SegmentOf(slot, ip_data_area_bytes), 16, 0);
    var header := Put(slot[..TCP_HEADER_LENGTH], 16, 0, 0);
    var checksum, low := SumPseudo(source, destination, ip_data_area_bytes);
    checksum, low := ip_add_bytes_to_ip_checksum(checksum, low, header, summed);
    HeaderIsStart(slot, SegmentOf(slot, ip_data_area_bytes));
    var count := 0;
    while count < ip_data_area_bytes - TCP_HEADER_LENGTH
      invariant TCP_HEADER_LENGTH <= TCP_HEADER_LENGTH + count <= |all|
      invariant checksum == Checksum(summed + all[..TCP_HEADER_LENGTH + count])
      invariant low == (|summed + all[..TCP_HEADER_LENGTH + count]| % 2 == 1)
    {
      ghost var so_far := all[..TCP_HEADER_LENGTH + count];
      checksum, low := ip_add_bytes_to_ip_checksum(checksum, low, [slot[TCP_HEADER_LENGTH + count]], summed + so_far);
      assert summed + so_far + [slot[TCP_HEADER_LENGTH + count]] == summed + all[..TCP_HEADER_LENGTH + count + 1];
      count := count + 1;
    }
    assert all[..TCP_HEADER_LENGTH + count] == all;
    ok := WordAt(slot[16], slot[17]) == Not16(checksum);
  }

  lemma HeaderIsStart(slot: seq<byte>, segment: seq<byte>)
    requires TCP_HEADER_LENGTH <= |segment| && segment <= slot
    ensures Put(slot[..TCP_HEADER_LENGTH], 16, 0, 0) == PutWord(segment, 16, 0)[..TCP_HEADER_LENGTH]
  {
  }

  method SumPseudo(source: Address, destination: Address, length: nat) returns (checksum: nat, low: bool)
    requires length <= TOP
    ensures checksum == Checksum(Pseudo(source, destination, length)) && !low
  {
    var pseudo_header := Pseudo(source, destination, length);
    checksum, low := ip_add_bytes_to_ip_checksum(0, false, pseudo_header, []);
    assert [] + pseudo_header == pseudo_header;
  }

  // ----- the checks in words -----

  /** The sum over the pseudo header of section 3.1 of RFC 793: both addresses, the protocol
      number 6, and the length of the segment. */
  lemma PseudoSum(source: Address, destination: Address, length: nat)
    requires length <= 0xFFFF
    ensures Sum(Pseudo(source, destination, length))
      == WordAt(source[0], source[1]) + WordAt(source[2], source[3])
       + WordAt(destination[0], destination[1]) + WordAt(destination[2], destination[3]) + 6 + length
  {
    var rest := [0, IP_PROTOCOL_TCP, length / 0x100, length % 0x100];
    assert Pseudo(source, destination, length) == source + (destination + rest);
    SumEven(source, destination + rest);
    SumEven(destination, rest);
    SumFour(source);
    SumFour(destination);
    SumFour(rest);
  }

  lemma SumFour(b: seq<byte>)
    requires |b| == 4
    ensures Sum(b) == WordAt(b[0], b[1]) + WordAt(b[2], b[3])
  {
    var tail := b[2..];
    assert tail[0] == b[2] && tail[1] == b[3] && tail[2..] == [];
    assert Sum(tail) == WordAt(tail[0], tail[1]) + Sum(tail[2..]);
  }

  /** A segment passes exactly if its field is the complement of the one's-complement sum of
      the pseudo header's words and all the segment's other words. */
  lemma TcpAcceptedInWords(source: Address, destination: Address, segment: seq<byte>)
    requires 20 <= |segment| <= 0xFFFF
    ensures TcpAccepted(source, destination, segment) <==>
      WordAt(segment[16], segment[17]) == 0xFFFF - Folded(
        WordAt(source[0], source[1]) + WordAt(source[2], source[3])
        + WordAt(destination[0], destination[1]) + WordAt(destination[2], destination[3])
        + 6 + |segment| + Sum(segment[16 := 0][17 := 0]))
  {
    PseudoSum(source, destination, |segment|);
    SumEven(Pseudo(source, destination, |segment|), PutWord(segment, 16, 0));
  }

  /** The bytes of the IP header that goes out: version 4 and five words, the length of the
      packet, its identifier, no fragments, a lifetime of 100, TCP, and the addresses. */
  lemma IpHeaderArrives(packet: seq<byte>, header: seq<byte>, ident: nat, source: Address, destination: Address)
    requires IsIpHeader(header, ident, IP_PROTOCOL_TCP, source, destination) && 20 <= |packet| <= 0xFFFF
    requires PutWord(packet[..20], 10, 0) == PutWord(header, 2, |packet|)
    ensures packet[0] == 0x45 && packet[1] == 0 && WordAt(packet[2], packet[3]) == |packet|
    ensures WordAt(packet[4], packet[5]) == ident && packet[6] == packet[7] == 0 && packet[8] == 100 && packet[9] == 6
    ensures packet[12..16] == source && packet[16..20] == destination
  {
    var sent := PutWord(packet[..20], 10, 0);
    forall i | 0 <= i < 20 && i != 10 && i != 11 ensures packet[i] == sent[i] {
    }
    assert header[12..16] == source && header[16..20] == destination;
    assert packet[12..16] == header[12..16] && packet[16..20] == header[16..20];
  }

  /** The same test, with the pseudo header given without its length. */
  ghost predicate AcceptedWith(pseudo: seq<byte>, segment: seq<byte>) {
    && |pseudo| == 12 && TCP_HEADER_LENGTH <= |segment| <= TOP
    && WordAt(segment[16], segment[17]) == Not16(Checksum(PutWord(pseudo, 10, |segment|) + PutWord(segment, 16, 0)))
  }

  lemma AcceptedForAddresses(source: Address, destination: Address, segment: seq<byte>)
    requires AcceptedWith(Pseudo(source, destination, 0), segment)
    ensures TcpAccepted(source, destination, segment)
  {
    assert PutWord(Pseudo(source, destination, 0), 10, |segment|) == Pseudo(source, destination, |segment|);
  }

  // ----- the sender -----

  class Sender {
    /** The bytes in the transmit slot after the Ethernet header. */
    var packet: seq<byte>
    var ip_packet_identifier: nat
    var ip_tx_ip_header_checksum: nat
    var ip_tx_ip_header_checksum_next_byte_low: bool
    var tcp_tx_checksum: nat
    var tcp_tx_checksum_next_byte_low: bool
    var tcp_tx_data_byte_length: nat
    /** The headers as they were summed, without their lengths. */
    ghost var header: seq<byte>
    ghost var pseudo: seq<byte>

    constructor ()
      ensures ip_packet_identifier == 0
    {
      packet := [];
      ip_packet_identifier := 0;
      ip_tx_ip_header_checksum, ip_tx_ip_header_checksum_next_byte_low := 0, false;
      tcp_tx_checksum, tcp_tx_checksum_next_byte_low, tcp_tx_data_byte_length := 0, false, 0;
    }

    /** The IP header is there, without its length and checksum, and summed. */
    ghost predicate IpStarted()
      reads this
    {
      && |header| == IP_HEADER_LENGTH && header <= packet
      && header[0] == 0x45 && Blank(header, 2) && Blank(header, 10)
      && ip_tx_ip_header_checksum == Checksum(header) && !ip_tx_ip_header_checksum_next_byte_low
    }

    method ip_write_header(protocol: byte, source: Address, destination: Address)
      modifies this`packet, this`ip_packet_identifier, this`header
      modifies this`ip_tx_ip_header_checksum, this`ip_tx_ip_header_checksum_next_byte_low
      ensures IpStarted() && packet == header && IsIpHeader(header, ip_packet_identifier, protocol, source, destination)
      ensures ip_packet_identifier == (old(ip_packet_identifier) + 1) % 0x1_0000
    {
      ip_packet_identifier := (ip_packet_identifier + 1) % 0x1_0000;
      var ip_header: seq<byte> := [0x45, 0, 0, 0, ip_packet_identifier / 0x100, ip_packet_identifier % 0x100, 0, 0,
        IP_DEFAULT_TIME_TO_LIVE, protocol, 0, 0] + source + destination;
      BlankHeader(ip_header, ip_packet_identifier, protocol, source, destination);
      ip_tx_ip_header_checksum := 0;
      ip_tx_ip_header_checksum_next_byte_low := false;
      ip_tx_ip_header_checksum, ip_tx_ip_header_checksum_next_byte_low :=
        ip_add_bytes_to_ip_checksum(ip_tx_ip_header_checksum, ip_tx_ip_header_checksum_next_byte_low, ip_header, []);
      assert [] + ip_header == ip_header;
      packet := ip_header;
      header := ip_header;
    }

    /** The length goes into the sum and the header, and then the checksum. */
    method ip_tx_packet()
      requires IpStarted() && |packet| <= TOP
      modifies this`packet, this`ip_tx_ip_header_checksum, this`ip_tx_ip_header_checksum_next_byte_low
      ensures |packet| == |old(packet)| && packet[IP_HEADER_LENGTH..] == old(packet)[IP_HEADER_LENGTH..]
      ensures IpAccepted(packet) && PutWord(packet[..IP_HEADER_LENGTH], 10, 0) == PutWord(header, 2, |packet|)
    {
      var ip_length := |packet|;
      ip_tx_ip_header_checksum, ip_tx_ip_header_checksum_next_byte_low :=
        ip_add_bytes_to_ip_checksum(ip_tx_ip_header_checksum, ip_tx_ip_header_checksum_next_byte_low, Word16(ip_length), header);
      packet := PutWord(packet, 2, ip_length);
      ip_tx_ip_header_checksum := Not16(ip_tx_ip_header_checksum);
      packet := PutWord(packet, 10, ip_tx_ip_header_checksum);
      LengthFilledIn(header, ip_length, ip_tx_ip_header_checksum, packet);
    }

    // ----- TCP -----

    /** The segment so far is summed, after the pseudo header without the length. */
    ghost predicate TcpStarted()
      reads this
    {
      && IpStarted() && |pseudo| == 12 && Blank(pseudo, 10)
      && IP_HEADER_LENGTH + TCP_HEADER_LENGTH <= |packet| <= IP_HEADER_LENGTH + TCP_HEADER_LENGTH + 4 + tcp_tx_data_byte_length
      && tcp_tx_data_byte_length <= MAX_TCP_DATA_LEN + 1
      && Blank(packet[IP_HEADER_LENGTH..], 16)
      && tcp_tx_checksum == Checksum(pseudo + packet[IP_HEADER_LENGTH..])
      && tcp_tx_checksum_next_byte_low == (|packet| % 2 == 1)
    }

    /** Both headers, the TCP header with its fields, without checksum and lengths. */
    method tcp_setup_tx(source: Address, destination: Address, h: TcpHeader)
      modifies this
      ensures TcpStarted() && pseudo == Pseudo(source, destination, 0)
      ensures IsIpHeader(header, ip_packet_identifier, IP_PROTOCOL_TCP, source, destination)
      ensures packet[IP_HEADER_LENGTH..] == HeaderBytes(h) + OptionBytes(h) && HasFields(packet[20..], h)
    {
      BytesHaveFields(h, []);
      assert HeaderBytes(h) + OptionBytes(h) + [] == HeaderBytes(h) + OptionBytes(h);
      var tcp_header, tcp_options := HeaderBytes(h), OptionBytes(h);
      assert tcp_header[16..18] == [0, 0];
      WriteHeaders(source, destination, tcp_header, tcp_options);
    }

    method WriteHeaders(source: Address, destination: Address, tcp_header: seq<byte>, tcp_options: seq<byte>)
      requires |tcp_header| == TCP_HEADER_LENGTH && Blank(tcp_header, 16)
      requires |tcp_options| == 0 || |tcp_options| == 4
      modifies this
      ensures TcpStarted() && pseudo == Pseudo(source, destination, 0)
      ensures IsIpHeader(header, ip_packet_identifier, IP_PROTOCOL_TCP, source, destination)
      ensures packet[IP_HEADER_LENGTH..] == tcp_header + tcp_options
    {
      var pseudo_header := Pseudo(source, destination, 0);
      PseudoEnds(source, destination);
      pseudo := pseudo_header;
      SumHeaders(pseudo_header, tcp_header, tcp_options);
      ip_write_header(IP_PROTOCOL_TCP, source, destination);
      packet := packet + tcp_header;
      packet := packet + tcp_options;
      tcp_tx_data_byte_length := 0;
      assert packet == header + (tcp_header + tcp_options);
      BlankKept(tcp_header, tcp_options, 16);
    }

    method SumHeaders(pseudo_header: seq<byte>, tcp_header: seq<byte>, tcp_options: seq<byte>)
      requires |pseudo_header| == 12 && |tcp_header| == TCP_HEADER_LENGTH && |tcp_options| % 2 == 0
      modifies this`tcp_tx_checksum, this`tcp_tx_checksum_next_byte_low
      ensures tcp_tx_checksum == Checksum(pseudo_header + (tcp_header + tcp_options)) && !tcp_tx_checksum_next_byte_low
    {
      tcp_tx_checksum, tcp_tx_checksum_next_byte_low := 0, false;
      tcp_tx_checksum, tcp_tx_checksum_next_byte_low := ip_add_bytes_to_ip_checksum(tcp_tx_checksum, tcp_tx_checksum_next_byte_low, pseudo_header, []);
      assert [] + pseudo_header == pseudo_header;
      tcp_tx_checksum, tcp_tx_checksum_next_byte_low := ip_add_bytes_to_ip_checksum(tcp_tx_checksum, tcp_tx_checksum_next_byte_low, tcp_header, pseudo_header);
      if tcp_options != [] {
        tcp_tx_checksum, tcp_tx_checksum_next_byte_low :=
          ip_add_bytes_to_ip_checksum(tcp_tx_checksum, tcp_tx_checksum_next_byte_low, tcp_options, pseudo_header + tcp_header);
      }
      ghost var all := pseudo_header + tcp_header + tcp_options;
      assert all == pseudo_header + (tcp_header + tcp_options) && |all| % 2 == 0;
      assert tcp_options == [] ==> all == pseudo_header + tcp_header;
    }

    method tcp_write_next_byte(data: byte) returns (ok: bool)
      requires TcpStarted()
      modifies this`packet, this`tcp_tx_checksum, this`tcp_tx_checksum_next_byte_low, this`tcp_tx_data_byte_length
      ensures TcpStarted() && ok == (old(tcp_tx_data_byte_length) <= MAX_TCP_DATA_LEN)
      ensures packet == old(packet) + if ok then [data] else []
    {
      if tcp_tx_data_byte_length > MAX_TCP_DATA_LEN {
        return false;
      }
      AppendSummed([data]);
      tcp_tx_data_byte_length := tcp_tx_data_byte_length + 1;
      ok := true;
    }

    method tcp_write_array(array_buffer: seq<byte>) returns (ok: bool)
      requires TcpStarted()
      modifies this`packet, this`tcp_tx_checksum, this`tcp_tx_checksum_next_byte_low, this`tcp_tx_data_byte_length
      ensures TcpStarted() && ok == (old(tcp_tx_data_byte_length) + |array_buffer| <= MAX_TCP_DATA_LEN)
      ensures packet == old(packet) + if ok then array_buffer else []
    {
      if tcp_tx_data_byte_length + |array_buffer| > MAX_TCP_DATA_LEN {
        return false;
      }
      AppendSummed(array_buffer);
      tcp_tx_data_byte_length := tcp_tx_data_byte_length + |array_buffer|;
      ok := true;
    }

    method AppendSummed(data: seq<byte>)
      requires |packet| >= IP_HEADER_LENGTH + TCP_HEADER_LENGTH && IpStarted() && |pseudo| == 12 && Blank(packet[IP_HEADER_LENGTH..], 16)
      requires tcp_tx_checksum == Checksum(pseudo + packet[IP_HEADER_LENGTH..]) && tcp_tx_checksum_next_byte_low == (|packet| % 2 == 1)
      modifies this`packet, this`tcp_tx_checksum, this`tcp_tx_checksum_next_byte_low
      ensures packet == old(packet) + data && IpStarted() && Blank(packet[IP_HEADER_LENGTH..], 16)
      ensures tcp_tx_checksum == Checksum(pseudo + packet[IP_HEADER_LENGTH..]) && tcp_tx_checksum_next_byte_low == (|packet| % 2 == 1)
    {
      ghost var segment := packet[IP_HEADER_LENGTH..];
      packet := packet + data;
      assert packet[IP_HEADER_LENGTH..] == segment + data;
      BlankKept(segment, data, 16);
      tcp_tx_checksum, tcp_tx_checksum_next_byte_low :=
        ip_add_bytes_to_ip_checksum(tcp_tx_checksum, tcp_tx_checksum_next_byte_low, data, pseudo + segment);
      assert pseudo + segment + data == pseudo + (segment + data);
    }

    method FillInTcp()
      requires TcpStarted()
      modifies this`packet, this`tcp_tx_checksum, this`tcp_tx_checksum_next_byte_low
      ensures IpStarted() && |packet| == |old(packet)| && AcceptedWith(pseudo, packet[IP_HEADER_LENGTH..])
      ensures PutWord(packet[IP_HEADER_LENGTH..], 16, 0) == old(packet)[IP_HEADER_LENGTH..]
    {
      ghost var segment := packet[IP_HEADER_LENGTH..];
      var tcp_length := |packet| - IP_HEADER_LENGTH;
      tcp_tx_checksum_next_byte_low := false;
      ghost var even := PaddedEven(pseudo + segment);
      tcp_tx_checksum, tcp_tx_checksum_next_byte_low :=
        ip_add_bytes_to_ip_checksum(tcp_tx_checksum, tcp_tx_checksum_next_byte_low, Word16(tcp_length), even);
      tcp_tx_checksum := Not16(tcp_tx_checksum);
      packet := PutWord(packet, IP_HEADER_LENGTH + 16, tcp_tx_checksum);
      assert packet[IP_HEADER_LENGTH..] == PutWord(segment, 16, tcp_tx_checksum);
      SegmentFilledIn(pseudo, segment, even, tcp_tx_checksum, packet[IP_HEADER_LENGTH..]);
    }

    /** The packet passes the receiver's IP and TCP checks, and its fields and data are
        those that were written. */
    method tcp_tx_packet(ghost source: Address, ghost destination: Address)
      requires TcpStarted() && pseudo == Pseudo(source, destination, 0)
      modifies this
      ensures |packet| == |old(packet)| && IpAccepted(packet) && TcpAccepted(source, destination, packet[IP_HEADER_LENGTH..])
      ensures PutWord(packet[..IP_HEADER_LENGTH], 10, 0) == PutWord(old(header), 2, |packet|)
      ensures PutWord(packet[IP_HEADER_LENGTH..], 16, 0) == old(packet)[IP_HEADER_LENGTH..]
    {
      FillInTcp();
      AcceptedForAddresses(source, destination, packet[IP_HEADER_LENGTH..]);
      ip_tx_packet();
    }
  }

  lemma BlankHeader(h: seq<byte>, ident: nat, protocol: byte, source: Address, destination: Address)
    requires IsIpHeader(h, ident, protocol, source, destination)
    ensures |h| == IP_HEADER_LENGTH && h[0] == 0x45 && Blank(h, 2) && Blank(h, 10)
  {
  }

  lemma PseudoEnds(source: Address, destination: Address)
    ensures Blank(Pseudo(source, destination, 0), 10)
  {
  }

  lemma BlankKept(data: seq<byte>, more: seq<byte>, at: nat)
    requires Blank(data, at)
    ensures Blank(data + more, at)
  {
    assert (data + more)[at..at + 2] == data[at..at + 2];
  }

  /** An odd byte counts as if a zero followed. */
  ghost function PaddedEven(data: seq<byte>): (even: seq<byte>)
    ensures |even| % 2 == 0 && Sum(even) == Sum(data)
  {
    SumNext(data, 0);
    if |data| % 2 == 1 then data + [0] else data
  }

  lemma SumWithWord(data: seq<byte>, w: nat)
    requires |data| % 2 == 0 && w <= TOP
    ensures Sum(data + Word16(w)) == Sum(data) + w
  {
    SumEven(data, Word16(w));
    assert Word16(w)[2..] == [];
  }

  /** The length added at the end is the length in its place. */
  lemma LengthFilledIn(header: seq<byte>, length: nat, field: nat, packet: seq<byte>)
    requires |header| == IP_HEADER_LENGTH && header[0] == 0x45 && Blank(header, 2) && Blank(header, 10)
    requires length <= TOP && |packet| >= IP_HEADER_LENGTH && field == Not16(Checksum(header + Word16(length)))
    requires packet[..IP_HEADER_LENGTH] == PutWord(PutWord(header, 2, length), 10, field)
    ensures IpAccepted(packet) && PutWord(packet[..IP_HEADER_LENGTH], 10, 0) == PutWord(header, 2, length)
  {
    SumWithWord(header, length);
    PutAdds(header, 2, length / 0x100, length % 0x100);
    BlankStays(header, 2);
    BlankStays(header, 10);
    assert PutWord(packet[..IP_HEADER_LENGTH], 10, 0) == PutWord(header, 2, length);
    assert HeaderOf(packet) == packet[..IP_HEADER_LENGTH];
  }

  lemma SegmentFilledIn(pseudo: seq<byte>, segment: seq<byte>, even: seq<byte>, field: nat, sent: seq<byte>)
    requires |pseudo| == 12 && Blank(pseudo, 10)
    requires TCP_HEADER_LENGTH <= |segment| <= TOP && Blank(segment, 16)
    requires |even| % 2 == 0 && Sum(even) == Sum(pseudo + segment)
    requires field == Not16(Checksum(even + Word16(|segment|))) && sent == PutWord(segment, 16, field)
    ensures AcceptedWith(pseudo, sent) && PutWord(sent, 16, 0) == segment
  {
    PutBack(segment, 16, field);
    PutReads(segment, 16, field);
    SumFilledIn(pseudo, segment, even);
  }

  lemma SumFilledIn(pseudo: seq<byte>, segment: seq<byte>, even: seq<byte>)
    requires |pseudo| == 12 && Blank(pseudo, 10) && |segment| <= TOP
    requires |even| % 2 == 0 && Sum(even) == Sum(pseudo + segment)
    ensures Checksum(even + Word16(|segment|)) == Checksum(PutWord(pseudo, 10, |segment|) + segment)
  {
    SumWithWord(even, |segment|);
    PutAdds(pseudo, 10, |segment| / 0x100, |segment| % 0x100);
    BlankStays(pseudo, 10);
    SumEven(pseudo, segment);
    SumEven(PutWord(pseudo, 10, |segment|), segment);
  }

  lemma PutReads(data: seq<byte>, at: nat, w: nat)
    requires at + 2 <= |data| && w <= TOP
    ensures WordAt(PutWord(data, at, w)[at], PutWord(data, at, w)[at + 1]) == w
  {
  }
}
