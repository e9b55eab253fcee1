/** The file sender of eth-http.c: headers, then the file in packets of which each is
    repeated until it is acknowledged. */
module Http {
  type byte = b: int | 0 <= b < 0x100
  type Word = x: int | 0 <= x < 0x1_0000
  type DWord = x: int | 0 <= x < 0x1_0000_0000

  const MAX_TCP_DATA_LEN: nat := 1460
  const NOT_STARTED: Word := 0xffff

  datatype State = ConnectedToClient | StartHeadResponse | StartResponse | ContinueResponse | CloseConnection | ReturnServiceUnavailable

  datatype Packet = Headers | Data(bytes: seq<byte>)

  /** An HTTP socket and the packets that it has sent. */
  datatype Socket = Socket(state: State, html: bool, remaining: DWord, address: DWord, last: Word, sent: seq<Packet>)

  /** HTTP_EXTERNAL_FILE_NEXT_BYTES: up to so many bytes from an address, none on failure. */
  type Reader = (nat, nat) -> seq<byte>

  predicate Sending(s: State) {
    s == StartHeadResponse || s == StartResponse || s == ContinueResponse
  }

  ghost predicate Bounded(read: Reader) {
    forall a, n :: |read(a, n)| <= n
  }

  // ----- one call -----

  /** The part of a call that acknowledges the last packet. */
  function Advanced(s: Socket): Socket {
    if s.last == NOT_STARTED then s
    else if s.last == 0 then s.(state := if s.state == StartHeadResponse then ConnectedToClient else ContinueResponse)
    else
      var remaining: DWord := if s.remaining > s.last then s.remaining - s.last else 0;
      s.(remaining := remaining, address := (s.address + s.last) % 0x1_0000_0000,
        state := if remaining > 0 then s.state else if s.html then CloseConnection else ConnectedToClient)
  }

  function Wanted(s: Socket): nat {
    if s.remaining > MAX_TCP_DATA_LEN then MAX_TCP_DATA_LEN else s.remaining
  }

  /** The part of a call that sends. */
  function Sent(s: Socket, bytes: seq<byte>): Socket
    requires |bytes| <= Wanted(s)
  {
    if s.state == StartHeadResponse || s.state == StartResponse then s.(last := 0, sent := s.sent + [Headers])
    else if s.remaining == 0 then s.(last := 0, sent := s.sent + [Data([])])
    else if bytes == [] then s.(last := 0, state := ReturnServiceUnavailable)
    else s.(last := |bytes|, sent := s.sent + [Data(bytes)])
  }

  function Transmit(s: Socket, resend: bool, read: Reader): Socket
    requires |read((if resend then s else Advanced(s)).address, Wanted(if resend then s else Advanced(s)))| <= Wanted(if resend then s else Advanced(s))
  {
    var s1 := if resend then s else Advanced(s);
    if Sending(s1.state) then Sent(s1, read(s1.address, Wanted(s1))) else s1
  }

  /** A new packet has the next bytes, 1460 at most; when the file cannot be read, nothing is
      sent, and the service is reported as unavailable. */
  lemma PacketSent(s: Socket, resend: bool, read: Reader)
    requires Bounded(read) && Sending(s.state)
    ensures var s1, t := if resend then s else Advanced(s), Transmit(s, resend, read);
      if s1.state != ContinueResponse then
        t == if s1.state == StartHeadResponse || s1.state == StartResponse then s1.(last := 0, sent := s1.sent + [Headers]) else s1
      else
        var n := if s1.remaining < 1460 then s1.remaining else 1460;
        if n == 0 then t == s1.(last := 0, sent := s1.sent + [Data([])])
        else
          var bytes := read(s1.address, n);
          && |bytes| <= 1460
          && if bytes == [] then t.state == ReturnServiceUnavailable && t.sent == s1.sent
             else t == s1.(last := |bytes|, sent := s1.sent + [Data(bytes)])
  {
  }

  class HttpSocket {
    var sm_http_state: State
    var response_is_html: bool
    var response_bytes_remaining: DWord
    var response_next_byte_address: DWord
    var file_bytes_sent_last_time: Word
    /** The packets handed to TCP. */
    var sent: seq<Packet>

    function View(): Socket
      reads this
    {
      Socket(sm_http_state, response_is_html, response_bytes_remaining, response_next_byte_address, file_bytes_sent_last_time, sent)
    }

    /** A request for a file of `length` bytes at `address` has been read. */
    constructor (length: DWord, address: DWord, html: bool, head: bool)
      ensures View() == Started(length, address, html, head)
    {
      sm_http_state := if head then StartHeadResponse else StartResponse;
      response_is_html := html;
      response_bytes_remaining := length;
      response_next_byte_address := address;
      file_bytes_sent_last_time := NOT_STARTED;
      sent := [];
    }

    /** The last packet was acknowledged: "send the next packet". */
    method MoveToNext() returns (ended: bool)
      requires Sending(sm_http_state)
      modifies `sm_http_state, `response_bytes_remaining, `response_next_byte_address
      ensures View() == Advanced(old(View())) && ended == !Sending(sm_http_state)
    {
      ended := false;
      if file_bytes_sent_last_time == NOT_STARTED {
      } else if file_bytes_sent_last_time == 0 {
        if sm_http_state == StartHeadResponse {
          sm_http_state := ConnectedToClient;
          return true;
        } else {
          sm_http_state := ContinueResponse;
        }
      } else {
        if response_bytes_remaining > file_bytes_sent_last_time {
          response_bytes_remaining := response_bytes_remaining - file_bytes_sent_last_time;
        } else {
          response_bytes_remaining := 0;
        }
        response_next_byte_address := (response_next_byte_address + file_bytes_sent_last_time) % 0x1_0000_0000;
        if response_bytes_remaining == 0 {
          if response_is_html {
            sm_http_state := CloseConnection;
          } else {
            sm_http_state := ConnectedToClient;
          }
          return true;
        }
      }
    }

    method http_transmit_next_response_packet(resend_last_packet: bool, read: Reader)
      requires Sending(sm_http_state) && Bounded(read)
      modifies this
      ensures View() == Transmit(old(View()), resend_last_packet, read)
    {
      if !resend_last_packet {
        var ended := MoveToNext();
        if ended {
          return;
        }
      }
      file_bytes_sent_last_time := 0;
      if sm_http_state == StartHeadResponse || sm_http_state == StartResponse {
        sent := sent + [Headers];
      } else {
        var packet: seq<byte> := [];
        if response_bytes_remaining != 0 {
          var bytes2send := response_bytes_remaining;
          if bytes2send > MAX_TCP_DATA_LEN {
            bytes2send := MAX_TCP_DATA_LEN;
          }
          packet := read(response_next_byte_address, bytes2send);
          if |packet| == 0 {
            sm_http_state := ReturnServiceUnavailable;
            return;
          }
          file_bytes_sent_last_time := |packet|;
        }
        sent := sent + [Data(packet)];
      }
    }
  }

  // ----- a whole response -----

  function Started(length: DWord, address: DWord, html: bool, head: bool): Socket {
    Socket(if head then StartHeadResponse else StartResponse, html, length, address, NOT_STARTED, [])
  }

  /** A file in the store: reading inside it gives at least one byte, and the right ones. */
  ghost predicate Serves(read: Reader, file: seq<byte>, base: nat) {
    && Bounded(read)
    && base + |file| < 0x1_0000_0000
    && forall a, n :: base <= a && n > 0 && a + n <= base + |file| ==>
         && 0 < |read(a, n)| <= n
         && read(a, n) == file[a - base..a - base + |read(a, n)|]
  }

  /** The socket, the bytes acknowledged so far, and those that wait to be. */
  datatype Response = Response(s: Socket, confirmed: seq<byte>, pending: seq<byte>)

  function LastData(s: Socket): seq<byte> {
    if s.sent != [] && s.sent[|s.sent| - 1].Data? then s.sent[|s.sent| - 1].bytes else []
  }

  /** A call that is not a resend means that TCP has the last packet acknowledged. */
  ghost function Call(r: Response, resend: bool, read: Reader): Response
    requires Bounded(read)
  {
    if !Sending(r.s.state) then r
    else
      var s1 := Transmit(r.s, resend, read);
      Response(s1, if resend then r.confirmed else r.confirmed + r.pending, if Sending(s1.state) then LastData(s1) else [])
  }

  ghost function Run(r: Response, calls: seq<bool>, read: Reader): Response
    requires Bounded(read)
    decreases |calls|
  {
    if calls == [] then r else Run(Call(r, calls[0], read), calls[1..], read)
  }

  function Begin(file: seq<byte>, base: DWord, html: bool, head: bool): Response
    requires |file| < 0x1_0000_0000
  {
    Response(Started(|file|, base, html, head), [], [])
  }

  predicate Ended(s: State) {
    s == ConnectedToClient || s == CloseConnection
  }

  /** Nothing but headers has been sent. */
  ghost predicate Opening(r: Response, file: seq<byte>, base: nat, html: bool, head: bool) {
    && r.s.state == (if head then StartHeadResponse else StartResponse)
    && r.s.html == html && r.s.remaining == |file| && r.s.address == base
    && r.confirmed == [] && r.pending == []
    && (r.s.last == NOT_STARTED || (r.s.last == 0 && r.s.sent != [] && r.s.sent[|r.s.sent| - 1] == Headers))
  }

  /** Confirmed and remaining make up the file, and what waits is the next slice of it. */
  ghost predicate Body(r: Response, read: Reader, file: seq<byte>, base: nat, html: bool) {
    && r.s.state == ContinueResponse && r.s.html == html
    && |r.confirmed| + r.s.remaining == |file| && r.s.address == base + |r.confirmed|
    && r.s.last == |r.pending| <= r.s.remaining && |r.pending| <= MAX_TCP_DATA_LEN && (r.s.remaining > 0 ==> r.pending != [])
    && r.confirmed + r.pending <= file
    && r.s.sent != [] && r.s.sent[|r.s.sent| - 1] == Data(r.pending)
    && (r.s.remaining == 0 ==> file == [])
    && (r.s.remaining > 0 ==> r.pending == read(r.s.address, Wanted(r.s)))
  }

  ghost predicate Done(r: Response, file: seq<byte>, html: bool, head: bool) {
    && r.pending == []
    && if head then r.s.state == ConnectedToClient && r.confirmed == [] && r.s.remaining == |file|
       else r.confirmed == file != [] && r.s.remaining == 0 && r.s.state == if html then CloseConnection else ConnectedToClient
  }

  /** What holds between calls. */
  ghost predicate Inv(r: Response, read: Reader, file: seq<byte>, base: nat, html: bool, head: bool) {
    Opening(r, file, base, html, head) || (!head && Body(r, read, file, base, html)) || Done(r, file, html, head)
  }

  /** The next slice is sent. */
  lemma SliceSent(s1: Socket, confirmed: seq<byte>, read: Reader, file: seq<byte>, base: nat, html: bool)
    requires Serves(read, file, base) && s1.state == ContinueResponse && s1.html == html
    requires |confirmed| + s1.remaining == |file| && confirmed <= file && s1.address == base + |confirmed|
    requires s1.remaining == 0 ==> file == []
    ensures var s2 := Sent(s1, read(s1.address, Wanted(s1))); Body(Response(s2, confirmed, LastData(s2)), read, file, base, html)
  {
    var bytes := read(s1.address, Wanted(s1));
    if s1.remaining > 0 {
      assert bytes == file[|confirmed|..|confirmed| + |bytes|];
      assert confirmed + bytes == file[..|confirmed| + |bytes|];
    }
  }

  /** The headers, once more or for the first time. */
  lemma HeadersCall(r: Response, resend: bool, read: Reader, file: seq<byte>, base: nat, html: bool, head: bool)
    requires Bounded(read) && Opening(r, file, base, html, head) && (resend || r.s.last == NOT_STARTED)
    ensures Opening(Call(r, resend, read), file, base, html, head)
  {
    assert r.confirmed + r.pending == [];
  }

  /** The headers of a HEAD request are acknowledged. */
  lemma HeadCall(r: Response, read: Reader, file: seq<byte>, base: nat, html: bool)
    requires Bounded(read) && Opening(r, file, base, html, true) && r.s.last == 0
    ensures Done(Call(r, false, read), file, html, true)
  {
    assert r.confirmed + r.pending == [];
  }

  /** The call sends the slice that SliceSent is about. */
  lemma SliceCall(r: Response, resend: bool, read: Reader, s1: Socket, confirmed: seq<byte>)
    requires Bounded(read) && Sending(r.s.state) && s1.state == ContinueResponse
    requires s1 == if resend then r.s else Advanced(r.s)
    requires confirmed == if resend then r.confirmed else r.confirmed + r.pending
    requires s1.remaining > 0 ==> read(s1.address, Wanted(s1)) != []
    ensures var s2 := Sent(s1, read(s1.address, Wanted(s1))); Call(r, resend, read) == Response(s2, confirmed, LastData(s2))
  {
  }

  lemma OpeningCall(r: Response, resend: bool, read: Reader, file: seq<byte>, base: nat, html: bool, head: bool)
    requires Serves(read, file, base) && Opening(r, file, base, html, head)
    ensures Inv(Call(r, resend, read), read, file, base, html, head)
  {
    if resend || r.s.last == NOT_STARTED {
      HeadersCall(r, resend, read, file, base, html, head);
    } else if head {
      HeadCall(r, read, file, base, html);
    } else {
      assert r.confirmed + r.pending == [];
      SliceSent(Advanced(r.s), [], read, file, base, html);
      SliceCall(r, false, read, Advanced(r.s), []);
    }
  }

  /** The last slice is acknowledged. */
  lemma LastCall(r: Response, read: Reader, file: seq<byte>, base: nat, html: bool)
    requires Bounded(read) && Body(r, read, file, base, html) && r.s.remaining > 0 && r.s.remaining == r.s.last
    ensures Done(Call(r, false, read), file, html, false)
  {
    assert r.confirmed + r.pending == file;
  }

  /** The last slice is acknowledged, and another one is to follow. */
  lemma NextInBody(r: Response, read: Reader, file: seq<byte>, base: nat, html: bool)
    requires base + |file| < 0x1_0000_0000 && Body(r, read, file, base, html) && (r.s.remaining == 0 || r.s.remaining != r.s.last)
    ensures var s1, confirmed := Advanced(r.s), r.confirmed + r.pending;
      && s1.state == ContinueResponse && s1.html == html && (s1.remaining == 0 ==> file == [])
      && |confirmed| + s1.remaining == |file| && confirmed <= file && s1.address == base + |confirmed|
  {
  }

  lemma BodyCall(r: Response, resend: bool, read: Reader, file: seq<byte>, base: nat, html: bool)
    requires Serves(read, file, base) && Body(r, read, file, base, html)
    ensures Inv(Call(r, resend, read), read, file, base, html, false)
  {
    if resend {
      SliceSent(r.s, r.confirmed, read, file, base, html);
      SliceCall(r, true, read, r.s, r.confirmed);
    } else if r.s.remaining > 0 && r.s.remaining == r.s.last {
      LastCall(r, read, file, base, html);
    } else {
      NextInBody(r, read, file, base, html);
      SliceSent(Advanced(r.s), r.confirmed + r.pending, read, file, base, html);
      SliceCall(r, false, read, Advanced(r.s), r.confirmed + r.pending);
    }
  }

  lemma CallKeeps(r: Response, resend: bool, read: Reader, file: seq<byte>, base: nat, html: bool, head: bool)
    requires Serves(read, file, base) && Inv(r, read, file, base, html, head)
    ensures Inv(Call(r, resend, read), read, file, base, html, head)
  {
    if Opening(r, file, base, html, head) {
      OpeningCall(r, resend, read, file, base, html, head);
    } else if Sending(r.s.state) {
      BodyCall(r, resend, read, file, base, html);
    }
  }

  lemma {:induction false} RunKeeps(r: Response, calls: seq<bool>, read: Reader, file: seq<byte>, base: nat, html: bool, head: bool)
    requires Serves(read, file, base) && Inv(r, read, file, base, html, head)
    ensures Inv(Run(r, calls, read), read, file, base, html, head)
    decreases |calls|
  {
    if calls != [] {
      CallKeeps(r, calls[0], read, file, base, html, head);
      RunKeeps(Call(r, calls[0], read), calls[1..], read, file, base, html, head);
    }
  }

  lemma BeginHolds(read: Reader, file: seq<byte>, base: DWord, html: bool, head: bool)
    requires |file| < 0x1_0000_0000
    ensures Inv(Begin(file, base, html, head), read, file, base, html, head)
  {
    assert Opening(Begin(file, base, html, head), file, base, html, head);
  }

  /** After any interleaving of new packets and resends: what was confirmed is the start of
      the file, confirmed and remaining make up the file, what waits is its next slice, and
      the response ends only with the whole file confirmed. */
  lemma FileArrivesOnce(file: seq<byte>, base: DWord, html: bool, calls: seq<bool>, read: Reader)
    requires Serves(read, file, base)
    ensures var r := Run(Begin(file, base, html, false), calls, read);
      && |r.confirmed| + r.s.remaining == |file|
      && r.confirmed + r.pending <= file
      && (Sending(r.s.state) || Ended(r.s.state))
      && (Ended(r.s.state) ==> r.confirmed == file && r.s.remaining == 0 && (r.s.state == CloseConnection <==> html))
  {
    BeginHolds(read, file, base, html, false);
    RunKeeps(Begin(file, base, html, false), calls, read, file, base, html, false);
  }

  /** A HEAD request gets headers and no byte of the file. */
  lemma HeadSendsNoData(file: seq<byte>, base: DWord, html: bool, calls: seq<bool>, read: Reader)
    requires Serves(read, file, base)
    ensures var r := Run(Begin(file, base, html, true), calls, read); r.confirmed == r.pending == [] && r.s.remaining == |file|
  {
    BeginHolds(read, file, base, html, true);
    RunKeeps(Begin(file, base, html, true), calls, read, file, base, html, true);
  }

  /** A resend repeats the last packet and changes nothing else. */
  lemma ResendRepeats(r: Response, read: Reader, file: seq<byte>, base: nat, html: bool, head: bool)
    requires Serves(read, file, base) && Inv(r, read, file, base, html, head) && Sending(r.s.state) && r.s.last != NOT_STARTED
    ensures r.s.sent != []
    ensures Call(r, true, read) == r.(s := r.s.(sent := r.s.sent + [r.s.sent[|r.s.sent| - 1]]))
  {
    if Opening(r, file, base, html, head) {
      assert Call(r, true, read).pending == [];
    } else {
      SameSlice(r, read, file, base, html);
    }
  }

  /** The reader is a function: the same place gives the same bytes. */
  lemma SameSlice(r: Response, read: Reader, file: seq<byte>, base: nat, html: bool)
    requires Serves(read, file, base) && Body(r, read, file, base, html)
    ensures Call(r, true, read) == r.(s := r.s.(sent := r.s.sent + [Data(r.pending)]))
  {
  }

  // ----- how it ends -----

  function NewPackets(calls: seq<bool>): nat {
    if calls == [] then 0 else (if calls[0] then 0 else 1) + NewPackets(calls[1..])
  }

  /** How many new packets are needed at most. */
  function Needed(r: Response): nat {
    if !Sending(r.s.state) then 0
    else if r.s.state == ContinueResponse then r.s.remaining
    else if r.s.last == NOT_STARTED then r.s.remaining + 2
    else r.s.remaining + 1
  }

  lemma OpeningHelps(r: Response, resend: bool, read: Reader, file: seq<byte>, base: nat, html: bool)
    requires Serves(read, file, base) && Opening(r, file, base, html, false) && file != []
    ensures Needed(Call(r, resend, read)) <= Needed(r)
    ensures !resend ==> Needed(Call(r, resend, read)) < Needed(r)
  {
    var s1 := if resend then r.s else Advanced(r.s);
    if s1.state == StartResponse {
      assert Call(r, resend, read).s == s1.(last := 0, sent := s1.sent + [Headers]);
    } else {
      SliceSent(s1, [], read, file, base, html);
    }
  }

  lemma BodyHelps(r: Response, resend: bool, read: Reader, file: seq<byte>, base: nat, html: bool)
    requires Serves(read, file, base) && Body(r, read, file, base, html) && file != []
    ensures Needed(Call(r, resend, read)) <= Needed(r)
    ensures !resend ==> Needed(Call(r, resend, read)) < Needed(r)
  {
    if resend {
      SameSlice(r, read, file, base, html);
    } else {
      assert Advanced(r.s).remaining == r.s.remaining - r.s.last;
    }
  }

  lemma CallHelps(r: Response, resend: bool, read: Reader, file: seq<byte>, base: nat, html: bool)
    requires Serves(read, file, base) && Inv(r, read, file, base, html, false) && file != []
    ensures Needed(Call(r, resend, read)) <= Needed(r)
    ensures !resend && Needed(r) > 0 ==> Needed(Call(r, resend, read)) < Needed(r)
    ensures Needed(r) == 0 ==> Ended(r.s.state)
  {
    if Opening(r, file, base, html, false) {
      OpeningHelps(r, resend, read, file, base, html);
    } else if Sending(r.s.state) {
      BodyHelps(r, resend, read, file, base, html);
    }
  }

  lemma {:induction false} Finishes(r: Response, calls: seq<bool>, read: Reader, file: seq<byte>, base: nat, html: bool)
    requires Serves(read, file, base) && Inv(r, read, file, base, html, false) && file != []
    requires NewPackets(calls) >= Needed(r)
    ensures Ended(Run(r, calls, read).s.state)
    decreases |calls|
  {
    CallHelps(r, true, read, file, base, html);
    if calls != [] {
      CallHelps(r, calls[0], read, file, base, html);
      CallKeeps(r, calls[0], read, file, base, html, false);
      Finishes(Call(r, calls[0], read), calls[1..], read, file, base, html);
    }
  }

  lemma {:induction false} AllNew(n: nat)
    ensures NewPackets(seq(n, _ => false)) == n
  {
    if n > 0 {
      AllNew(n - 1);
      assert seq(n, _ => false)[1..] == seq(n - 1, _ => false);
    }
  }

  /** A response to a non-empty file ends, whatever is resent in between, after at most as
      many new packets as the file has bytes, and two. */
  lemma NonEmptyFileEnds(file: seq<byte>, base: DWord, html: bool, calls: seq<bool>, read: Reader)
    requires Serves(read, file, base) && file != [] && NewPackets(calls) >= |file| + 2
    ensures Ended(Run(Begin(file, base, html, false), calls, read).s.state)
  {
    BeginHolds(read, file, base, html, false);
    Finishes(Begin(file, base, html, false), calls, read, file, base, html);
  }

  ghost predicate EndsAfter(file: seq<byte>, base: DWord, html: bool, calls: seq<bool>, read: Reader)
    requires Serves(read, file, base)
  {
    Ended(Run(Begin(file, base, html, false), calls, read).s.state)
  }

  lemma EmptyFileGoesOn(base: DWord, html: bool, calls: seq<bool>, read: Reader)
    requires Serves(read, [], base)
    ensures !EndsAfter([], base, html, calls, read)
  {
    BeginHolds(read, [], base, html, false);
    RunKeeps(Begin([], base, html, false), calls, read, [], base, html, false);
  }

  /** A response ends for just the non-empty files: for an empty one, packets without data
      are sent for ever. */
  lemma EndsUnlessEmpty(file: seq<byte>, base: DWord, html: bool, read: Reader)
    requires Serves(read, file, base)
    ensures (exists calls :: EndsAfter(file, base, html, calls, read)) <==> file != []
  {
    if file != [] {
      var calls := seq(|file| + 2, _ => false);
      AllNew(|file| + 2);
      NonEmptyFileEnds(file, base, html, calls, read);
      assert EndsAfter(file, base, html, calls, read);
    } else {
      forall calls ensures !EndsAfter(file, base, html, calls, read) {
        EmptyFileGoesOn(base, html, calls, read);
      }
    }
  }
}
