/** The running one's-complement checksum of eth-ip.c, and the IP and TCP checksums made
    with it on both ends. */
module IpChecksum {
  type byte = b: int | 0 <= b < 0x100

  const TOP: nat := 0xFFFF

  // ----- the sum -----

  function WordAt(upper: byte, lower: byte): (w: nat)
    ensures w <= TOP
  {
    0x100 * upper + lower
  }

  /** The sum of the 16-bit words of the data, an odd last byte padded with zero. */
  function Sum(data: seq<byte>): nat {
    if data == [] then 0
    else if |data| == 1 then WordAt(data[0], 0)
    else WordAt(data[0], data[1]) + Sum(data[2..])
  }

  /** One's-complement value of a sum: 0 for 0, else 1 to 0xFFFF. */
  function Folded(sum: nat): (f: nat)
    ensures f <= TOP && (f == 0 <==> sum == 0)
  {
    if sum == 0 then 0 else (sum - 1) % TOP + 1
  }

  function Checksum(data: seq<byte>): nat {
    Folded(Sum(data))
  }

  function Not16(x: nat): (r: nat)
    requires x <= TOP
    ensures r <= TOP
  {
    TOP - x
  }

  /** What a byte adds, depending on whether it is the lower one of its word. */
  function Weighted(b: byte, low: bool): (v: nat)
    ensures v < TOP
  {
    if low then b else 0x100 * b
  }

  lemma {:induction false} SumNext(data: seq<byte>, b: byte)
    ensures Sum(data + [b]) == Sum(data) + Weighted(b, |data| % 2 == 1)
  {
    if |data| >= 2 {
      SumNext(data[2..], b);
      assert (data + [b])[2..] == data[2..] + [b];
    }
  }

  lemma {:induction false} SumEven(a: seq<byte>, b: seq<byte>)
    requires |a| % 2 == 0
    ensures Sum(a + b) == Sum(a) + Sum(b)
  {
    if a == [] {
      assert a + b == b;
    } else {
      SumEven(a[2..], b);
      assert (a + b)[2..] == a[2..] + b;
    }
  }

  /** End-around carry: adding to the folded value is adding to the sum. */
  lemma CarryFolds(sum: nat, v: nat)
    requires v < TOP
    ensures var t := Folded(sum) + v; Folded(sum + v) == if t > TOP then t - TOP else t
  {
    if sum > 0 {
      var q, r := (sum - 1) / TOP, (sum - 1) % TOP;
      if r + v < TOP {
        Residue(sum + v - 1, q, r + v);
      } else {
        Residue(sum + v - 1, q + 1, r + v - TOP);
      }
    }
  }

  lemma Residue(x: nat, q: nat, r: nat)
    requires x == TOP * q + r && r < TOP
    ensures x % TOP == r
  {
  }

  // ----- adding bytes, in any number of calls -----

  lemma ByteAdds(all: seq<byte>, b: byte)
    ensures var t := Checksum(all) + Weighted(b, |all| % 2 == 1);
      Checksum(all + [b]) == if t > TOP then t % 0x1_0000 + 1 else t
  {
    SumNext(all, b);
    CarryFolds(Sum(all), Weighted(b, |all| % 2 == 1));
  }

  /** `before` is what was added by the calls before. */
  method ip_add_bytes_to_ip_checksum(checksum0: nat, low0: bool, next_byte: seq<byte>, ghost before: seq<byte>)
    returns (checksum: nat, checksum_next_byte_is_low: bool)
    requires checksum0 == Checksum(before) && low0 == (|before| % 2 == 1)
    ensures checksum == Checksum(before + next_byte)
    ensures checksum_next_byte_is_low == (|before + next_byte| % 2 == 1)
  {
    var dw_temp := checksum0;
    checksum_next_byte_is_low := low0;
    var count := 0;
    assert before + next_byte[..0] == before;
    while count < |next_byte|
      invariant count <= |next_byte| && dw_temp == Checksum(before + next_byte[..count])
      invariant checksum_next_byte_is_low == ((|before| + count) % 2 == 1)
    {
      ByteAdds(before + next_byte[..count], next_byte[count]);
      assert before + next_byte[..count + 1] == before + next_byte[..count] + [next_byte[count]];
      if checksum_next_byte_is_low {
        dw_temp := dw_temp + next_byte[count];
        checksum_next_byte_is_low := false;
      } else {
        dw_temp := dw_temp + 0x100 * next_byte[count];
        checksum_next_byte_is_low := true;
      }
      if dw_temp > 0xFFFF {
        dw_temp := dw_temp % 0x1_0000;
        dw_temp := dw_temp + 1;
      }
      count := count + 1;
    }
    assert next_byte[..count] == next_byte;
    checksum := dw_temp;
  }

  // ----- pieces in any order -----

  function Concat(pieces: seq<seq<byte>>): seq<byte> {
    if pieces == [] then [] else pieces[0] + Concat(pieces[1..])
  }

  function Total(pieces: seq<seq<byte>>): nat {
    if pieces == [] then 0 else Sum(pieces[0]) + Total(pieces[1..])
  }

  predicate AllEven(pieces: seq<seq<byte>>) {
    forall p <- pieces :: |p| % 2 == 0
  }

  lemma {:induction false} SumOfPieces(pieces: seq<seq<byte>>, tail: seq<byte>)
    requires AllEven(pieces)
    ensures Sum(Concat(pieces) + tail) == Total(pieces) + Sum(tail)
  {
    if pieces == [] {
      assert [] + tail == tail;
    } else {
      SumOfPieces(pieces[1..], tail);
      SumEven(pieces[0], Concat(pieces[1..]) + tail);
      assert pieces[0] + Concat(pieces[1..]) + tail == pieces[0] + (Concat(pieces[1..]) + tail);
    }
  }

  function Without<T>(s: seq<T>, i: nat): seq<T>
    requires i < |s|
  {
    s[..i] + s[i + 1..]
  }

  lemma {:induction false} TotalWithout(pieces: seq<seq<byte>>, i: nat)
    requires i < |pieces|
    ensures Total(pieces) == Sum(pieces[i]) + Total(Without(pieces, i))
  {
    if i == 0 {
      assert Without(pieces, 0) == pieces[1..];
    } else {
      TotalWithout(pieces[1..], i - 1);
      assert Without(pieces, i)[1..] == Without(pieces[1..], i - 1);
    }
  }

  lemma MultisetWithout<T>(s: seq<T>, i: nat)
    requires i < |s|
    ensures multiset(s) == multiset{s[i]} + multiset(Without(s, i))
  {
    assert s == s[..i] + [s[i]] + s[i + 1..];
  }

  lemma Cancelled<T>(x: T, m: multiset<T>, n: multiset<T>)
    requires multiset{x} + m == multiset{x} + n
    ensures m == n
  {
    assert m == multiset{x} + m - multiset{x};
  }

  lemma {:induction false} TotalOfSame(a: seq<seq<byte>>, b: seq<seq<byte>>)
    requires multiset(a) == multiset(b)
    ensures Total(a) == Total(b)
    decreases |a|
  {
    if a == [] {
      assert |multiset(b)| == 0;
    } else {
      assert a[0] in multiset(b);
      var i :| 0 <= i < |b| && b[i] == a[0];
      MultisetWithout(a, 0);
      MultisetWithout(b, i);
      TotalWithout(a, 0);
      TotalWithout(b, i);
      Cancelled(a[0], multiset(Without(a, 0)), multiset(Without(b, i)));
      TotalOfSame(Without(a, 0), Without(b, i));
    }
  }

  lemma EvenInAnyOrder(a: seq<seq<byte>>, b: seq<seq<byte>>)
    requires AllEven(a) && multiset(a) == multiset(b)
    ensures AllEven(b)
  {
    forall p | p in b ensures |p| % 2 == 0 {
      assert p in multiset(b) && p in multiset(a);
    }
  }

  /** Pieces of even length may come in any order, before a last piece of any length. */
  lemma EvenPiecesInAnyOrder(a: seq<seq<byte>>, b: seq<seq<byte>>, tail: seq<byte>)
    requires AllEven(a) && multiset(a) == multiset(b)
    ensures Checksum(Concat(a) + tail) == Checksum(Concat(b) + tail)
  {
    EvenInAnyOrder(a, b);
    SumOfPieces(a, tail);
    SumOfPieces(b, tail);
    TotalOfSame(a, b);
  }

  /** Two sums have the same checksum exactly when both are zero, or neither is and they
      agree modulo 0xFFFF: just those changes of the data go undetected. */
  lemma UndetectedExactly(a: seq<byte>, b: seq<byte>)
    ensures Checksum(a) == Checksum(b) <==>
      (Sum(a) == 0 <==> Sum(b) == 0) && (Sum(a) - Sum(b)) % TOP == 0
  {
    var s, t := Sum(a), Sum(b);
    if s > 0 && t > 0 {
      SameResidue(s - 1, t - 1);
    }
  }

  lemma SameResidue(x: nat, y: nat)
    ensures x % TOP == y % TOP <==> (x - y) % TOP == 0
  {
  }

  // ----- a field that is filled in last -----

  function Put(data: seq<byte>, at: nat, upper: byte, lower: byte): (r: seq<byte>)
    requires at + 2 <= |data|
    ensures |r| == |data|
  {
    data[at := upper][at + 1 := lower]
  }

  /** A word at an even place adds its value, wherever the place is. */
  lemma PutAdds(data: seq<byte>, at: nat, upper: byte, lower: byte)
    requires at + 2 <= |data| && at % 2 == 0
    ensures Sum(Put(data, at, upper, lower)) == Sum(Put(data, at, 0, 0)) + WordAt(upper, lower)
  {
    var a, c := data[..at], data[at + 2..];
    assert Put(data, at, upper, lower) == a + ([upper, lower] + c);
    assert Put(data, at, 0, 0) == a + ([0, 0] + c);
    SumEven(a, [upper, lower] + c);
    SumEven(a, [0, 0] + c);
    assert ([upper, lower] + c)[2..] == c && ([0, 0] + c)[2..] == c;
  }

  // ----- the IP header -----

  const IP_HEADER_LENGTH: nat := 20
  const MAX_IP_OPTIONS_LENGTH: nat := 20

  function Word16(w: nat): (b: seq<byte>)
    requires w <= TOP
    ensures |b| == 2 && WordAt(b[0], b[1]) == w
  {
    [w / 0x100, w % 0x100]
  }

  function PutWord(data: seq<byte>, at: nat, w: nat): (r: seq<byte>)
    requires at + 2 <= |data| && w <= TOP
    ensures |r| == |data|
  {
    Put(data, at, w / 0x100, w % 0x100)
  }

  /** The length of the options by the header's first byte, an 8-bit difference. */
  function OptionsLength(first: byte): nat {
    (first % 0x10 * 4 - IP_HEADER_LENGTH) % 0x100
  }

  /** The header with its options, by its own length field. */
  predicate HasHeader(packet: seq<byte>) {
    && |packet| >= IP_HEADER_LENGTH
    && packet[0] / 0x10 == 4
    && OptionsLength(packet[0]) <= MAX_IP_OPTIONS_LENGTH
    && |packet| >= IP_HEADER_LENGTH + OptionsLength(packet[0])
  }

  function HeaderOf(packet: seq<byte>): (h: seq<byte>)
    requires HasHeader(packet)
    ensures IP_HEADER_LENGTH <= |h| && h[0] == packet[0]
  {
    packet[..IP_HEADER_LENGTH + OptionsLength(packet[0])]
  }

  /** The version, length and checksum tests of ip_get_header. */
  predicate IpAccepted(packet: seq<byte>) {
    HasHeader(packet) && var h := HeaderOf(packet); Not16(WordAt(h[10], h[11])) == Checksum(PutWord(h, 10, 0))
  }

  /** ip_get_header on the bytes of a packet, up to its checks of the addresses. */
  method ip_get_header(packet: seq<byte>) returns (ok: bool)
    requires |packet| >= IP_HEADER_LENGTH + MAX_IP_OPTIONS_LENGTH
    ensures ok == IpAccepted(packet)
  {
    if packet[0] / 0x10 != 4 {
      return false;
    }
    var options_length := OptionsLength(packet[0]);
    if options_length > MAX_IP_OPTIONS_LENGTH {
      return false;
    }
    var received_checksum := WordAt(packet[10], packet[11]);
    var header := Put(packet[..IP_HEADER_LENGTH], 10, 0, 0);
    var checksum, low := 0, false;
    checksum, low := ip_add_bytes_to_ip_checksum(checksum, low, header[0..1], []);
    checksum, low := ip_add_bytes_to_ip_checksum(checksum, low, header[1..2], [] + header[0..1]);
    assert [] + header[0..1] + header[1..2] == header[..2];
    checksum, low := ip_add_bytes_to_ip_checksum(checksum, low, header[2..8], header[..2]);
    assert header[..2] + header[2..8] == header[..8];
    checksum, low := ip_add_bytes_to_ip_checksum(checksum, low, header[8..9], header[..8]);
    assert header[..8] + header[8..9] == header[..9];
    checksum, low := ip_add_bytes_to_ip_checksum(checksum, low, header[9..], header[..9]);
    assert header[..9] + header[9..] == header;
    var options := packet[IP_HEADER_LENGTH..IP_HEADER_LENGTH + options_length];
    if options_length > 0 {
      checksum, low := ip_add_bytes_to_ip_checksum(checksum, low, options, header);
    }
    assert header + options == PutWord(HeaderOf(packet), 10, 0);
    ok := Not16(received_checksum) == checksum;
  }

  /** The test of section 2 of RFC 1071: with the checksum field, the sum is all ones. */
  predicate AllOnes(header: seq<byte>) {
    Checksum(header) == TOP
  }

  /** The program's test agrees with the all-ones test but for one value of the field:
      0xFFFF, minus zero, which the program never accepts. */
  lemma AgreesWithAllOnes(header: seq<byte>)
    requires |header| >= IP_HEADER_LENGTH && Sum(PutWord(header, 10, 0)) > 0
    ensures Not16(WordAt(header[10], header[11])) == Checksum(PutWord(header, 10, 0))
      <==> AllOnes(header) && WordAt(header[10], header[11]) != 0xFFFF
  {
    var field, rest := WordAt(header[10], header[11]), Sum(PutWord(header, 10, 0));
    PutAdds(header, 10, header[10], header[11]);
    assert Put(header, 10, header[10], header[11]) == header;
    FieldComplements(rest, field);
  }

  lemma FieldComplements(rest: nat, field: nat)
    requires rest > 0 && field <= TOP
    ensures Not16(field) == Folded(rest) <==> Folded(rest + field) == TOP && field != TOP
  {
    var q, r := (rest - 1) / TOP, (rest - 1) % TOP;
    if r + field < TOP {
      Residue(rest + field - 1, q, r + field);
    } else if r + field < 2 * TOP {
      Residue(rest + field - 1, q + 1, r + field - TOP);
    }
  }

  /** An input: a header whose field is 0xFFFF and whose words add up to minus zero. */
  function MinusZeroHeader(): (h: seq<byte>)
    ensures |h| == IP_HEADER_LENGTH
    ensures h[0] == 0x45 && h[10] == h[11] == 0xFF
  {
    [0x45, 0, 0xBA, 0xFF] + seq(6, _ => 0) + [0xFF, 0xFF] + seq(8, _ => 0)
  }

  lemma MinusZeroRejected()
    ensures HasHeader(MinusZeroHeader()) && AllOnes(MinusZeroHeader()) && !IpAccepted(MinusZeroHeader())
  {
    MinusZeroSum();
    MinusZeroField(MinusZeroHeader());
  }

  lemma MinusZeroField(h: seq<byte>)
    requires |h| == IP_HEADER_LENGTH && h[0] == 0x45 && h[10] == h[11] == 0xFF && Sum(PutWord(h, 10, 0)) == TOP
    ensures HasHeader(h) && AllOnes(h) && !IpAccepted(h)
  {
    PutAdds(h, 10, h[10], h[11]);
    assert Put(h, 10, h[10], h[11]) == h && HeaderOf(h) == h;
  }

  lemma MinusZeroSum()
    ensures Sum(PutWord(MinusZeroHeader(), 10, 0)) == TOP
  {
    var start, zeros := [0x45, 0, 0xBA, 0xFF], seq(16, _ => 0);
    assert PutWord(MinusZeroHeader(), 10, 0) == start + zeros;
    SumZeros(16);
    SumEven(start, zeros);
    assert start[2..] == [0xBA, 0xFF] && start[2..][2..] == [];
  }

  lemma {:induction false} SumZeros(n: nat)
    ensures Sum(seq(n, _ => 0)) == 0
  {
    if n > 1 {
      SumZeros(n - 2);
      assert seq(n, _ => 0 as byte)[2..] == seq(n - 2, _ => 0 as byte);
    }
  }

  /** The test in words: version 4, a header of five to ten words by its own count, and a
      field that is the complement of the one's-complement sum of all the other words. */
  lemma IpAcceptedInWords(packet: seq<byte>)
    requires |packet| >= 40
    ensures var words := packet[0] % 0x10;
      IpAccepted(packet) <==>
        packet[0] / 0x10 == 4 && 5 <= words <= 10
        && WordAt(packet[10], packet[11]) == 0xFFFF - Folded(Sum(packet[..4 * words][10 := 0][11 := 0]))
  {
    HeaderWords(packet[0]);
    if HasHeader(packet) {
      assert HeaderOf(packet) == packet[..4 * (packet[0] % 0x10)];
    }
  }

  lemma HeaderWords(first: byte)
    ensures var words := first % 0x10; if 5 <= words <= 10 then OptionsLength(first) == 4 * words - 20 else OptionsLength(first) > 20
  {
  }
}
