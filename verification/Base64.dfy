/** The Base64 encoder and decoder of base64.c, against section 4 of RFC 4648. */
module Base64 {
  type byte = b: int | 0 <= b < 0x100
  type digit = d: int | 0 <= d < 64

  // ----- the alphabet -----

  /** basis_64: A to Z, a to z, 0 to 9, + and /. */
  function Basis(d: digit): char {
    if d < 26 then 'A' + d as char
    else if d < 52 then 'a' + (d - 26) as char
    else if d < 62 then '0' + (d - 52) as char
    else if d == 62 then '+'
    else '/'
  }

  /** pr2six: 64 for what is not in the alphabet. */
  function Six(c: char): (v: int)
    ensures 0 <= v <= 64
  {
    if 'A' <= c <= 'Z' then (c - 'A') as int
    else if 'a' <= c <= 'z' then (c - 'a') as int + 26
    else if '0' <= c <= '9' then (c - '0') as int + 52
    else if c == '+' then 62
    else if c == '/' then 63
    else 64
  }

  lemma SixOfBasis(d: digit)
    ensures Six(Basis(d)) == d
  {
  }

  /** Table 1 of RFC 4648, in the codes of ASCII. */
  lemma AlphabetInAscii(d: digit)
    ensures d <= 25 ==> Basis(d) as int == 65 + d
    ensures 26 <= d <= 51 ==> Basis(d) as int == 71 + d
    ensures 52 <= d <= 61 ==> Basis(d) as int == d - 4
    ensures Basis(62) == '+' && Basis(63) == '/'
  {
  }

  /** A letter has the digit that it stands for, and what is not in the alphabet has none. */
  lemma SixInverts(c: char)
    ensures if Six(c) < 64 then Basis(Six(c)) == c else forall d: digit :: Basis(d) != c
  {
    if Six(c) == 64 {
      forall d: digit ensures Basis(d) != c {
        SixOfBasis(d);
      }
    }
  }

  // ----- RFC 4648 -----

  /** Digit k of the 24 bits of three bytes. */
  function DigitOf(b0: byte, b1: byte, b2: byte, k: nat): digit
    requires k < 4
  {
    var group := 0x1_0000 * b0 + 0x100 * b1 + b2;
    if k == 0 then group / 0x4_0000 else if k == 1 then group / 0x1000 % 64 else if k == 2 then group / 64 % 64 else group % 64
  }

  /** The digits of the data, a last group of one or two bytes padded with zero bits. */
  function Digits(data: seq<byte>): seq<digit> {
    if data == [] then []
    else if |data| == 1 then [DigitOf(data[0], 0, 0, 0), DigitOf(data[0], 0, 0, 1)]
    else if |data| == 2 then [DigitOf(data[0], data[1], 0, 0), DigitOf(data[0], data[1], 0, 1), DigitOf(data[0], data[1], 0, 2)]
    else
      [DigitOf(data[0], data[1], data[2], 0), DigitOf(data[0], data[1], data[2], 1),
       DigitOf(data[0], data[1], data[2], 2), DigitOf(data[0], data[1], data[2], 3)] + Digits(data[3..])
  }

  function Letters(d: seq<digit>): (s: string)
    ensures |s| == |d|
  {
    seq(|d|, i requires 0 <= i < |d| => Basis(d[i]))
  }

  function Padding(length: nat): string {
    if length % 3 == 0 then "" else if length % 3 == 1 then "==" else "="
  }

  function Encoded(data: seq<byte>): string {
    Letters(Digits(data)) + Padding(|data|)
  }

  /** The bytes of digits; one digit alone at the end gives none. */
  function Bytes(d: seq<digit>): seq<byte> {
    if |d| <= 1 then []
    else if |d| == 2 then [Byte0(d[0], d[1])]
    else if |d| == 3 then [Byte0(d[0], d[1]), Byte1(d[1], d[2])]
    else [Byte0(d[0], d[1]), Byte1(d[1], d[2]), Byte2(d[2], d[3])] + Bytes(d[4..])
  }

  lemma {:induction false} BytesLength(d: seq<digit>, g: nat)
    requires 4 * g <= |d| < 4 * g + 4
    ensures |Bytes(d)| == 3 * g + if |d| == 4 * g then 0 else |d| - 4 * g - 1
  {
    if g > 0 {
      BytesLength(d[4..], g - 1);
    }
  }

  function Byte0(d0: digit, d1: digit): byte { d0 * 4 + d1 / 16 }
  function Byte1(d1: digit, d2: digit): byte { d1 * 16 % 0x100 + d2 / 4 }
  function Byte2(d2: digit, d3: digit): byte { d2 * 64 % 0x100 + d3 }

  /** The program's shifts and masks pick the digits of the group. */
  lemma DigitsOfGroup(b0: byte, b1: byte, b2: byte)
    ensures DigitOf(b0, b1, b2, 0) == b0 / 4
    ensures DigitOf(b0, b1, b2, 1) == b0 % 4 * 16 + b1 / 16
    ensures DigitOf(b0, b1, b2, 2) == b1 % 16 * 4 + b2 / 64
    ensures DigitOf(b0, b1, b2, 3) == b2 % 64
  {
    var h0, l0, h1, l1, h2, l2 := b0 / 4, b0 % 4, b1 / 16, b1 % 16, b2 / 64, b2 % 64;
    var group := 0x1_0000 * b0 + 0x100 * b1 + b2;
    Quotient(group, 0x4_0000, h0, 0x1_0000 * l0 + 0x100 * b1 + b2);
    Quotient(group, 0x1000, 64 * h0 + (l0 * 16 + h1), 0x100 * l1 + b2);
    Quotient(64 * h0 + (l0 * 16 + h1), 64, h0, l0 * 16 + h1);
    Quotient(group, 64, 64 * (16 * b0 + h1) + (l1 * 4 + h2), l2);
    Quotient(64 * (16 * b0 + h1) + (l1 * 4 + h2), 64, 16 * b0 + h1, l1 * 4 + h2);
  }

  lemma Quotient(x: nat, m: nat, q: nat, r: nat)
    requires m > 0 && x == m * q + r && r < m
    ensures x / m == q && x % m == r
  {
    Multiples(m, q - x / m);
    assert m * (q - x / m) == x % m - r;
  }

  lemma Multiples(m: nat, d: int)
    ensures d >= 1 ==> m * d >= m
    ensures d <= -1 ==> m * d + m <= 0
  {
    if d >= 1 {
      assert m * d == m + m * (d - 1);
    } else if d <= -1 {
      assert m * d == m * (d + 1) - m;
    }
  }

  lemma GroupRoundTrip(b0: byte, b1: byte, b2: byte)
    ensures Byte0(DigitOf(b0, b1, b2, 0), DigitOf(b0, b1, b2, 1)) == b0
    ensures Byte1(DigitOf(b0, b1, b2, 1), DigitOf(b0, b1, b2, 2)) == b1
    ensures Byte2(DigitOf(b0, b1, b2, 2), DigitOf(b0, b1, b2, 3)) == b2
  {
    DigitsOfGroup(b0, b1, b2);
    Pieces(b0, b1, b2);
  }

  lemma Pieces(b0: byte, b1: byte, b2: byte)
    ensures Byte0(b0 / 4, b0 % 4 * 16 + b1 / 16) == b0
    ensures Byte1(b0 % 4 * 16 + b1 / 16, b1 % 16 * 4 + b2 / 64) == b1
    ensures Byte2(b1 % 16 * 4 + b2 / 64, b2 % 64) == b2
  {
    Quotient(b0 % 4 * 16 + b1 / 16, 16, b0 % 4, b1 / 16);
    Quotient((b0 % 4 * 16 + b1 / 16) * 16, 0x100, b0 % 4, b1 / 16 * 16);
    Quotient(b1 % 16 * 4 + b2 / 64, 4, b1 % 16, b2 / 64);
    Quotient((b1 % 16 * 4 + b2 / 64) * 64, 0x100, b1 % 16, b2 / 64 * 64);
  }

  /** Decoding the digits of the data gives the data. */
  lemma {:induction false} BytesOfDigits(data: seq<byte>)
    ensures Bytes(Digits(data)) == data
  {
    if |data| == 1 {
      GroupRoundTrip(data[0], 0, 0);
    } else if |data| == 2 {
      GroupRoundTrip(data[0], data[1], 0);
    } else if |data| >= 3 {
      GroupRoundTrip(data[0], data[1], data[2]);
      BytesOfDigits(data[3..]);
      assert Digits(data)[4..] == Digits(data[3..]);
    }
  }

  // ----- encoding -----

  function Base64encode_len(len: nat): nat {
    (len + 2) / 3 * 4 + 1
  }

  lemma SplitConcat<T>(a: seq<T>, b: seq<T>, k: nat)
    requires k <= |a|
    ensures a == a[..k] + a[k..] && a + b == a[..k] + (a[k..] + b)
  {
  }

  lemma Associates<T>(a: seq<T>, b: seq<T>, c: seq<T>)
    ensures (a + b) + c == a + (b + c)
  {
  }

  lemma {:induction false} DigitsConcat(a: seq<byte>, b: seq<byte>, g: nat)
    requires |a| == 3 * g
    ensures Digits(a + b) == Digits(a) + Digits(b)
  {
    if g == 0 {
      assert a + b == b;
    } else {
      var head, tail := a[..3], a[3..];
      SplitConcat(a, b, 3);
      DigitsOfThree(head, tail);
      DigitsOfThree(head, tail + b);
      DigitsConcat(tail, b, g - 1);
      Associates(Digits(head), Digits(tail), Digits(b));
    }
  }

  lemma DigitsOfThree(head: seq<byte>, rest: seq<byte>)
    requires |head| == 3
    ensures Digits(head + rest) == Digits(head) + Digits(rest)
  {
    assert (head + rest)[3..] == rest && head[3..] == [];
  }

  lemma LettersNext(data: seq<byte>, g: nat, j: nat)
    requires 3 * g <= j <= |data|
    ensures Letters(Digits(data[..j])) == Letters(Digits(data[..3 * g])) + Letters(Digits(data[3 * g..j]))
  {
    DigitsConcat(data[..3 * g], data[3 * g..j], g);
    assert data[..j] == data[..3 * g] + data[3 * g..j];
  }

  lemma Groups(n: nat, g: nat, r: nat)
    requires n == 3 * g + r && r < 3
    ensures n % 3 == r && Base64encode_len(n) == 4 * g + (if r == 0 then 0 else 4) + 1
  {
  }

  lemma EncodedInParts(data: seq<byte>, g: nat)
    requires 3 * g <= |data| < 3 * g + 3
    ensures Encoded(data) == Letters(Digits(data[..3 * g])) + (Letters(Digits(data[3 * g..])) + Padding(|data| - 3 * g))
    ensures 3 * g == |data| ==> Encoded(data) == Letters(Digits(data[..3 * g]))
  {
    LettersNext(data, g, |data|);
    assert data[..|data|] == data && data[3 * g..|data|] == data[3 * g..];
    Groups(|data|, g, |data| - 3 * g);
  }

  /** The letters of three bytes, as the loop picks them. */
  lemma GroupLetters(data: seq<byte>)
    requires |data| == 3
    ensures Letters(Digits(data)) == [Basis(data[0] / 4), Basis(data[0] % 4 * 16 + data[1] / 16),
      Basis(data[1] % 16 * 4 + data[2] / 64), Basis(data[2] % 64)]
  {
    DigitsOfGroup(data[0], data[1], data[2]);
    assert Digits(data[3..]) == [];
  }

  lemma OneLeft(b: byte)
    ensures Letters(Digits([b])) == [Basis(b / 4), Basis(b % 4 * 16)]
  {
    DigitsOfGroup(b, 0, 0);
  }

  lemma TwoLeft(b0: byte, b1: byte)
    ensures Letters(Digits([b0, b1])) == [Basis(b0 / 4), Basis(b0 % 4 * 16 + b1 / 16), Basis(b1 % 16 * 4)]
  {
    DigitsOfGroup(b0, b1, 0);
  }

  /** Four letters at p. */
  method Put(encoded: array<char>, p: nat, c0: char, c1: char, c2: char, c3: char)
    requires p + 4 <= encoded.Length
    modifies encoded
    ensures encoded[..p + 4] == old(encoded[..p]) + [c0, c1, c2, c3] && encoded[p + 4..] == old(encoded[p + 4..])
  {
    encoded[p] := c0;
    encoded[p + 1] := c1;
    encoded[p + 2] := c2;
    encoded[p + 3] := c3;
  }

  /** The last one or two bytes, with their padding. */
  method EncodeRest(encoded: array<char>, p: nat, data: seq<byte>)
    requires p + 4 <= encoded.Length && 1 <= |data| <= 2
    modifies encoded
    ensures encoded[..p + 4] == old(encoded[..p]) + (Letters(Digits(data)) + Padding(|data|))
    ensures encoded[p + 4..] == old(encoded[p + 4..])
  {
    if |data| == 1 {
      OneLeft(data[0]);
      assert data == [data[0]];
      Put(encoded, p, Basis(data[0] / 4), Basis(data[0] % 4 * 16), '=', '=');
    } else {
      TwoLeft(data[0], data[1]);
      assert data == [data[0], data[1]];
      Put(encoded, p, Basis(data[0] / 4), Basis(data[0] % 4 * 16 + data[1] / 16), Basis(data[1] % 16 * 4), '=');
    }
  }

  lemma SameFurtherOn<T>(a: seq<T>, b: seq<T>, p: nat, q: nat)
    requires p <= q <= |a| == |b| && a[p..] == b[p..]
    ensures a[q..] == b[q..]
  {
    assert a[q..] == a[p..][q - p..] && b[q..] == b[p..][q - p..];
  }

  /** The letters of group g, which begins at byte i. */
  method EncodeGroup(encoded: array<char>, p: nat, str: seq<byte>, i: nat, ghost g: nat)
    requires i == 3 * g && i + 3 <= |str| && p + 4 <= encoded.Length && encoded[..p] == Letters(Digits(str[..i]))
    modifies encoded
    ensures encoded[..p + 4] == Letters(Digits(str[..i + 3])) && encoded[p + 4..] == old(encoded[p + 4..])
  {
    LettersNext(str, g, i + 3);
    GroupLetters(str[i..i + 3]);
    Put(encoded, p, Basis(str[i] / 4), Basis(str[i] % 4 * 16 + str[i + 1] / 16),
      Basis(str[i + 1] % 16 * 4 + str[i + 2] / 64), Basis(str[i + 2] % 64));
  }

  /** The loop over the groups of three bytes. */
  method EncodeGroups(encoded: array<char>, str: seq<byte>) returns (p: nat, i: nat, ghost g: nat)
    requires encoded.Length >= Base64encode_len(|str|)
    modifies encoded
    ensures i == 3 * g <= |str| < i + 3 && p == 4 * g
    ensures encoded[..p] == Letters(Digits(str[..i])) && encoded[p..] == old(encoded[p..])
  {
    p, i, g := 0, 0, 0;
    while i < |str| - 2
      invariant i == 3 * g <= |str| && p == 4 * g
      invariant encoded[..p] == Letters(Digits(str[..i])) && encoded[p..] == old(encoded[p..])
    {
      SameFurtherOn(encoded[..], old(encoded[..]), p, p + 4);
      EncodeGroup(encoded, p, str, i, g);
      p := p + 4;
      i := i + 3;
      g := g + 1;
    }
  }

  /** The letters and the padding of all the data. */
  method EncodeLetters(encoded: array<char>, str: seq<byte>) returns (p: nat)
    requires encoded.Length >= Base64encode_len(|str|)
    modifies encoded
    ensures p + 1 == Base64encode_len(|str|) && encoded[..p] == Encoded(str) && encoded[p..] == old(encoded[p..])
  {
    ghost var g;
    var i;
    p, i, g := EncodeGroups(encoded, str);
    Groups(|str|, g, |str| - i);
    EncodedInParts(str, g);
    if i < |str| {
      SameFurtherOn(encoded[..], old(encoded[..]), p, p + 4);
      EncodeRest(encoded, p, str[i..]);
      p := p + 4;
    }
  }

  /** Writes the encoding and a NUL, Base64encode_len bytes in all, and no more. */
  method Base64encode(encoded: array<char>, str: seq<byte>) returns (n: nat)
    requires encoded.Length >= Base64encode_len(|str|)
    modifies encoded
    ensures n == Base64encode_len(|str|) && encoded[..n] == Encoded(str) + ['\0']
    ensures encoded[n..] == old(encoded[n..])
  {
    var p := EncodeLetters(encoded, str);
    SameFurtherOn(encoded[..], old(encoded[..]), p, p + 1);
    n := PutNul(encoded, p);
  }

  method PutNul(encoded: array<char>, p: nat) returns (n: nat)
    requires p < encoded.Length
    modifies encoded
    ensures n == p + 1 && encoded[..n] == old(encoded[..p]) + ['\0'] && encoded[n..] == old(encoded[n..])
  {
    encoded[p] := '\0';
    n := p + 1;
  }

  // ----- decoding -----

  /** The leading characters that are in the alphabet; `coded` is terminated by one that
      is not. */
  function Run(coded: string): (n: nat)
    ensures n <= |coded| && forall i :: 0 <= i < n ==> Six(coded[i]) <= 63
    ensures n < |coded| ==> Six(coded[n]) == 64
  {
    if coded == "" || Six(coded[0]) == 64 then 0 else 1 + Run(coded[1..])
  }

  predicate Terminated(coded: string) {
    Run(coded) < |coded|
  }

  function Sixes(coded: string): (d: seq<digit>)
    requires forall i :: 0 <= i < |coded| ==> Six(coded[i]) <= 63
    ensures |d| == |coded|
  {
    seq(|coded|, i requires 0 <= i < |coded| => Six(coded[i]))
  }

  /** What a terminated input stands for. */
  function Decoded(coded: string): seq<byte> {
    Bytes(Sixes(coded[..Run(coded)]))
  }

  method ScanAlphabet(bufcoded: string) returns (nprbytes: nat)
    requires Terminated(bufcoded)
    ensures nprbytes == Run(bufcoded)
  {
    var bufin := 0;
    var c := bufcoded[bufin];
    bufin := bufin + 1;
    while Six(c) <= 63
      invariant 1 <= bufin <= |bufcoded| && c == bufcoded[bufin - 1]
      invariant bufin - 1 <= Run(bufcoded)
      decreases |bufcoded| - bufin
    {
      assert bufin - 1 != Run(bufcoded);
      c := bufcoded[bufin];
      bufin := bufin + 1;
    }
    nprbytes := bufin - 1;
  }

  method Base64decode_len(bufcoded: string) returns (len: nat)
    requires Terminated(bufcoded)
    ensures len == (Run(bufcoded) + 3) / 4 * 3 + 1 && |Decoded(bufcoded)| < len
  {
    var nprbytes := ScanAlphabet(bufcoded);
    BytesLength(Sixes(bufcoded[..nprbytes]), nprbytes / 4);
    var nbytesdecoded := (nprbytes + 3) / 4 * 3;
    len := nbytesdecoded + 1;
  }

  lemma {:induction false} BytesConcat(a: seq<digit>, b: seq<digit>, g: nat)
    requires |a| == 4 * g
    ensures Bytes(a + b) == Bytes(a) + Bytes(b)
  {
    if g == 0 {
      assert a + b == b;
    } else {
      var head, tail := a[..4], a[4..];
      SplitConcat(a, b, 4);
      BytesOfGroup(head, tail);
      BytesOfGroup(head, tail + b);
      BytesConcat(tail, b, g - 1);
      Associates(Bytes(head), Bytes(tail), Bytes(b));
    }
  }

  lemma BytesOfGroup(head: seq<digit>, rest: seq<digit>)
    requires |head| == 4
    ensures Bytes(head + rest) == Bytes(head) + Bytes(rest)
  {
    assert (head + rest)[4..] == rest;
    GroupBytes(head);
  }

  lemma BytesNext(d: seq<digit>, g: nat, j: nat)
    requires 4 * g <= j <= |d|
    ensures Bytes(d[..j]) == Bytes(d[..4 * g]) + Bytes(d[4 * g..j])
  {
    BytesConcat(d[..4 * g], d[4 * g..j], g);
    assert d[..j] == d[..4 * g] + d[4 * g..j];
  }

  lemma GroupBytes(d: seq<digit>)
    requires |d| == 4
    ensures Bytes(d) == [Byte0(d[0], d[1]), Byte1(d[1], d[2]), Byte2(d[2], d[3])]
  {
    assert Bytes(d[4..]) == [];
  }

  /** The bytes of a last group of up to four digits. */
  function RestCount(n: nat): nat {
    if n == 0 then 0 else n - 1
  }

  /** The last group: up to four digits, and the NUL. */
  method DecodeRest(bufplain: array<byte>, bufout0: nat, d: seq<digit>) returns (bufout: nat)
    requires |d| <= 4 && bufout0 + RestCount(|d|) < bufplain.Length
    modifies bufplain
    ensures bufout == bufout0 + RestCount(|d|) + 1
    ensures bufplain[..bufout] == old(bufplain[..bufout0]) + Bytes(d) + [0] && bufplain[bufout..] == old(bufplain[bufout..])
  {
    bufout := bufout0;
    if |d| == 4 {
      GroupBytes(d);
    }
    if |d| > 1 {
      bufplain[bufout] := Byte0(d[0], d[1]);
      bufout := bufout + 1;
    }
    if |d| > 2 {
      bufplain[bufout] := Byte1(d[1], d[2]);
      bufout := bufout + 1;
    }
    if |d| > 3 {
      bufplain[bufout] := Byte2(d[2], d[3]);
      bufout := bufout + 1;
    }
    bufplain[bufout] := 0;
    bufout := bufout + 1;
  }

  /** Three bytes at bufout. */
  method DecodeGroup(bufplain: array<byte>, bufout0: nat, d: seq<digit>) returns (bufout: nat)
    requires |d| == 4 && bufout0 + 3 <= bufplain.Length
    modifies bufplain
    ensures bufout == bufout0 + 3
    ensures bufplain[..bufout] == old(bufplain[..bufout0]) + Bytes(d) && bufplain[bufout..] == old(bufplain[bufout..])
  {
    GroupBytes(d);
    bufout := bufout0;
    bufplain[bufout] := Byte0(d[0], d[1]);
    bufout := bufout + 1;
    bufplain[bufout] := Byte1(d[1], d[2]);
    bufout := bufout + 1;
    bufplain[bufout] := Byte2(d[2], d[3]);
    bufout := bufout + 1;
  }

  /** The loop over the groups of four, while more than four digits are left. */
  method DecodeGroups(bufplain: array<byte>, d: seq<digit>) returns (bufout: nat, bufin: nat, ghost g: nat)
    requires bufplain.Length >= (|d| + 3) / 4 * 3 + 1
    modifies bufplain
    ensures bufin == 4 * g <= |d| <= bufin + 4 && bufout == 3 * g && (bufin == |d| ==> d == [])
    ensures bufplain[..bufout] == Bytes(d[..bufin]) && bufplain[bufout..] == old(bufplain[bufout..])
  {
    bufout, bufin, g := 0, 0, 0;
    var nprbytes := |d|;
    while nprbytes > 4
      invariant bufin == 4 * g <= |d| && bufin + nprbytes == |d| && bufout == 3 * g
      invariant nprbytes == 0 ==> d == []
      invariant bufplain[..bufout] == Bytes(d[..bufin]) && bufplain[bufout..] == old(bufplain[bufout..])
    {
      BytesNext(d, g, bufin + 4);
      bufout := DecodeGroup(bufplain, bufout, d[bufin..bufin + 4]);
      bufin := bufin + 4;
      nprbytes := nprbytes - 4;
      g := g + 1;
    }
  }

  /** Writes the decoded bytes and a NUL, at most Base64decode_len bytes whatever the input. */
  method Base64decode(bufplain: array<byte>, bufcoded: string) returns (nbytesdecoded: int)
    requires Terminated(bufcoded) && bufplain.Length >= (Run(bufcoded) + 3) / 4 * 3 + 1
    modifies bufplain
    ensures nbytesdecoded == |Decoded(bufcoded)| < (Run(bufcoded) + 3) / 4 * 3 + 1
    ensures bufplain[..nbytesdecoded + 1] == Decoded(bufcoded) + [0]
    ensures bufplain[nbytesdecoded + 1..] == old(bufplain[nbytesdecoded + 1..])
  {
    var nprbytes := ScanAlphabet(bufcoded);
    nbytesdecoded := (nprbytes + 3) / 4 * 3;
    var left := DecodeDigits(bufplain, Sixes(bufcoded[..nprbytes]));
    nbytesdecoded := nbytesdecoded - (4 - left) % 4;
  }

  /** All the digits, and the NUL; the result is the size of the last group. */
  method DecodeDigits(bufplain: array<byte>, d: seq<digit>) returns (left: nat)
    requires bufplain.Length >= (|d| + 3) / 4 * 3 + 1
    modifies bufplain
    ensures left <= 4 && |Bytes(d)| == (|d| + 3) / 4 * 3 - (4 - left) % 4 < bufplain.Length
    ensures bufplain[..|Bytes(d)| + 1] == Bytes(d) + [0]
    ensures bufplain[|Bytes(d)| + 1..] == old(bufplain[|Bytes(d)| + 1..])
  {
    ghost var g;
    var bufout, bufin;
    bufout, bufin, g := DecodeGroups(bufplain, d);
    left := |d| - bufin;
    Remaining(left, g);
    BytesNext(d, g, |d|);
    assert d[..|d|] == d && d[bufin..|d|] == d[bufin..];
    bufout := DecodeRest(bufplain, bufout, d[bufin..]);
    assert bufplain[..bufout] == Bytes(d) + [0];
  }

  lemma Remaining(n: nat, g: nat)
    requires n <= 4 && (n == 0 ==> g == 0)
    ensures (4 * g + n + 3) / 4 * 3 - (4 - n) % 4 == 3 * g + RestCount(n)
  {
  }

  // ----- the round trip -----

  lemma {:induction false} RunOf(letters: string, rest: string)
    requires forall i :: 0 <= i < |letters| ==> Six(letters[i]) <= 63
    requires rest != "" && Six(rest[0]) == 64
    ensures Run(letters + rest) == |letters|
  {
    if letters == "" {
      assert letters + rest == rest;
    } else {
      RunOf(letters[1..], rest);
      assert (letters + rest)[1..] == letters[1..] + rest;
    }
  }

  /** Decoding what was encoded gives back every byte string. */
  lemma RoundTrip(data: seq<byte>)
    ensures var coded := Encoded(data) + ['\0']; Terminated(coded) && Decoded(coded) == data
  {
    var d := Digits(data);
    var letters, rest := Letters(d), Padding(|data|) + ['\0'];
    forall i | 0 <= i < |letters| ensures Six(letters[i]) == d[i] {
      SixOfBasis(d[i]);
    }
    RunOf(letters, rest);
    var coded := Encoded(data) + ['\0'];
    assert coded == letters + rest;
    assert coded[..|letters|] == letters;
    assert Sixes(letters) == d;
    BytesOfDigits(data);
  }

  method Decode(coded: string) returns (plain: array<byte>, n: int)
    requires Terminated(coded)
    ensures n == |Decoded(coded)| < plain.Length && plain[..n] == Decoded(coded) && plain[n] == 0
  {
    var size := Base64decode_len(coded);
    plain := new byte[size];
    n := Base64decode(plain, coded);
    assert plain[..n + 1][n] == 0 && plain[..n] == plain[..n + 1][..n];
  }

  /** The two programs one after the other: the data, its length, and a NUL. */
  method EncodeThenDecode(data: seq<byte>) returns (plain: array<byte>, n: int)
    ensures n == |data| < plain.Length && plain[..n] == data && plain[n] == 0
  {
    var encoded := new char[Base64encode_len(|data|)];
    var length := Base64encode(encoded, data);
    RoundTrip(data);
    plain, n := Decode(encoded[..length]);
  }

  lemma OneByte(b: byte)
    ensures Encoded([b]) == [Basis(b / 4), Basis(b % 4 * 16), '=', '=']
  {
    DigitsOfGroup(b, 0, 0);
    assert Digits([b]) == [b / 4, b % 4 * 16];
  }

  lemma TwoBytes(b0: byte, b1: byte)
    ensures Encoded([b0, b1]) == [Basis(b0 / 4), Basis(b0 % 4 * 16 + b1 / 16), Basis(b1 % 16 * 4), '=']
  {
    DigitsOfGroup(b0, b1, 0);
    assert Digits([b0, b1]) == [b0 / 4, b0 % 4 * 16 + b1 / 16, b1 % 16 * 4];
  }

  lemma ThreeBytes(b0: byte, b1: byte, b2: byte)
    ensures Encoded([b0, b1, b2]) == [Basis(b0 / 4), Basis(b0 % 4 * 16 + b1 / 16), Basis(b1 % 16 * 4 + b2 / 64), Basis(b2 % 64)]
  {
    DigitsOfGroup(b0, b1, b2);
    assert Digits([b0, b1, b2][3..]) == [];
    assert Digits([b0, b1, b2]) == [b0 / 4, b0 % 4 * 16 + b1 / 16, b1 % 16 * 4 + b2 / 64, b2 % 64];
  }

  /** Test vectors of section 10 of RFC 4648. */
  lemma TestVectors()
    ensures Encoded([]) == "" && Encoded([0x66]) == "Zg==" && Encoded([0x66, 0x6f]) == "Zm8=" && Encoded([0x66, 0x6f, 0x6f]) == "Zm9v"
  {
    OneByte(0x66);
    TwoBytes(0x66, 0x6f);
    ThreeBytes(0x66, 0x6f, 0x6f);
  }
}
