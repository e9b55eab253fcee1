/** SHA-1 as FIPS 180-4 defines it: section 4.1.1 and 4.2.1 (functions and constants),
    5.1.1 (padding), 5.3.1 (initial value) and 6.1.2 (computation). */
module Sha1Spec {
  /** Five words: a hash value, or the working variables of a block. */
  datatype Words = Words(a: bv32, b: bv32, c: bv32, d: bv32, e: bv32)

  const INITIAL := Words(0x67452301, 0xEFCDAB89, 0x98BADCFE, 0x10325476, 0xC3D2E1F0)

  function Rotl1(x: bv32): bv32 { (x << 1) | (x >> 31) }
  function Rotl5(x: bv32): bv32 { (x << 5) | (x >> 27) }
  function Rotl30(x: bv32): bv32 { (x << 30) | (x >> 2) }

  function Ch(x: bv32, y: bv32, z: bv32): bv32 { (x & y) ^ (!x & z) }
  function Parity(x: bv32, y: bv32, z: bv32): bv32 { x ^ y ^ z }
  function Maj(x: bv32, y: bv32, z: bv32): bv32 { (x & y) ^ (x & z) ^ (y & z) }

  function F(t: nat, x: bv32, y: bv32, z: bv32): bv32 {
    if t < 20 then Ch(x, y, z) else if t < 40 then Parity(x, y, z) else if t < 60 then Maj(x, y, z) else Parity(x, y, z)
  }

  function K(t: nat): bv32 {
    if t < 20 then 0x5A827999 else if t < 40 then 0x6ED9EBA1 else if t < 60 then 0x8F1BBCDC else 0xCA62C1D6
  }

  function Mix(a: bv32, b: bv32, c: bv32, d: bv32): bv32 {
    Rotl1(a ^ b ^ c ^ d)
  }

  /** The message schedule: word t of the eighty that the sixteen words of a block give. */
  function W(m: seq<bv32>, t: nat): bv32
    requires |m| == 16
    decreases |m| + t
  {
    if t < 16 then m[t] else Mix(W(m, t - 3), W(m, t - 8), W(m, t - 14), W(m, t - 16))
  }

  function Sum(r: bv32, f: bv32, e: bv32, k: bv32, w: bv32): bv32 {
    r + f + e + k + w
  }

  function Round(v: Words, f: bv32, k: bv32, w: bv32): Words {
    Words(Sum(Rotl5(v.a), f, v.e, k, w), v.a, Rotl30(v.b), v.c, v.d)
  }

  /** The working variables after the first t rounds. */
  function Rounds(h: Words, m: seq<bv32>, t: nat): Words
    requires |m| == 16
    decreases |m| + t
  {
    if t == 0 then h
    else
      var v := Rounds(h, m, t - 1);
      Round(v, F(t - 1, v.b, v.c, v.d), K(t - 1), W(m, t - 1))
  }

  function Plus(x: bv32, y: bv32): bv32 { x + y }

  function Add(h: Words, v: Words): Words {
    Words(Plus(h.a, v.a), Plus(h.b, v.b), Plus(h.c, v.c), Plus(h.d, v.d), Plus(h.e, v.e))
  }

  /** A word is four bytes, the most significant first. */
  function Word(b: seq<bv8>): bv32
    requires |b| == 4
  {
    (b[0] as bv32 << 24) | (b[1] as bv32 << 16) | (b[2] as bv32 << 8) | b[3] as bv32
  }

  function BlockWords(block: seq<bv8>): (m: seq<bv32>)
    requires |block| == 64
    ensures |m| == 16
  {
    seq(16, i requires 0 <= i < 16 => Word(block[4 * i..4 * i + 4]))
  }

  /** One block of section 6.1.2. */
  function Compress(h: Words, block: seq<bv8>): Words
    requires |block| == 64
  {
    Add(h, Rounds(h, BlockWords(block), 80))
  }

  /** The hash value after the whole blocks of the bytes. */
  function Hashed(bytes: seq<bv8>): Words {
    if |bytes| < 64 then INITIAL
    else
      var whole := |bytes| - |bytes| % 64;
      Compress(Hashed(bytes[..whole - 64]), bytes[whole - 64..whole])
  }

  /** The last n digits of a number to base 256, the most significant first. */
  function Digits(x: nat, n: nat): (d: seq<nat>)
    ensures |d| == n && forall i :: 0 <= i < n ==> d[i] < 0x100
    decreases x + n
  {
    if n == 0 then [] else Digits(x / 0x100, n - 1) + [x % 0x100]
  }

  function Bytes(d: seq<nat>): (b: seq<bv8>)
    requires forall i :: 0 <= i < |d| ==> d[i] < 0x100
    ensures |b| == |d|
  {
    seq(|d|, i requires 0 <= i < |d| => d[i] as bv8)
  }

  /** The number of zero bytes in the padding. */
  function Zeros(length: nat): (k: nat)
    ensures k < 64 && (length + 1 + k) % 64 == 56
  {
    (55 - length) % 64
  }

  function LengthBytes(length: nat): (b: seq<bv8>)
    ensures |b| == 8
  {
    Bytes(Digits(8 * length % 0x1_0000_0000_0000_0000, 8))
  }

  lemma ZerosAreFewest(length: nat, j: nat)
    requires (length + 1 + j) % 64 == 56
    ensures Zeros(length) <= j
  {
  }

  /** The message, the byte 0x80, and k zero bytes. */
  function Marked(message: seq<bv8>, k: nat): (p: seq<bv8>)
    ensures |p| == |message| + 1 + k
  {
    message + [0x80] + seq(k, _ => 0)
  }

  /** Section 5.1.1: a message of less than 2^64 bits; of a longer one only the length
      modulo 2^64 is recorded. */
  function Padded(message: seq<bv8>): (p: seq<bv8>)
    ensures |p| == |message| + 1 + Zeros(|message|) + 8
  {
    Marked(message, Zeros(|message|)) + LengthBytes(|message|)
  }

  /** Byte i of a word, the most significant being byte 0. */
  function ByteOf(w: bv32, i: nat): bv8
    requires i < 4
  {
    if i == 0 then ((w >> 24) & 0xFF) as bv8
    else if i == 1 then ((w >> 16) & 0xFF) as bv8
    else if i == 2 then ((w >> 8) & 0xFF) as bv8
    else (w & 0xFF) as bv8
  }

  function WordBytes(w: bv32): (b: seq<bv8>)
    ensures |b| == 4
  {
    [ByteOf(w, 0), ByteOf(w, 1), ByteOf(w, 2), ByteOf(w, 3)]
  }

  function Digest(h: Words): (d: seq<bv8>)
    ensures |d| == 20
  {
    WordBytes(h.a) + WordBytes(h.b) + WordBytes(h.c) + WordBytes(h.d) + WordBytes(h.e)
  }

  function Sha1(message: seq<bv8>): seq<bv8> {
    Digest(Hashed(Padded(message)))
  }

  // ----- the functions as the program writes them -----

  lemma ChRewritten(w: bv32, x: bv32, y: bv32)
    ensures (w & (x ^ y)) ^ y == Ch(w, x, y)
  {
  }

  lemma MajRewritten(w: bv32, x: bv32, y: bv32)
    ensures ((w | x) & y) | (w & x) == Maj(w, x, y)
  {
  }

  // ----- where the constants come from -----

  /** The round constants are the square roots of 2, 3, 5 and 10, times 2^30. */
  lemma ConstantsAreRoots(t: nat)
    requires t < 80
    ensures var n, k := if t < 20 then 2 else if t < 40 then 3 else if t < 60 then 5 else 10, K(t) as int;
      k * k <= n * 0x1000_0000_0000_0000 < (k + 1) * (k + 1)
  {
  }

  lemma RotationsAre(x: bv32)
    ensures Rotl1(x) == x.RotateLeft(1) && Rotl5(x) == x.RotateLeft(5) && Rotl30(x) == x.RotateRight(2)
  {
  }

  /** The initial value counts the hexadecimal digits up and down, byte by byte. */
  lemma InitialCounts()
    ensures Digest(INITIAL)
      == [0x67, 0x45, 0x23, 0x01, 0xEF, 0xCD, 0xAB, 0x89, 0x98, 0xBA, 0xDC, 0xFE, 0x10, 0x32, 0x54, 0x76, 0xC3, 0xD2, 0xE1, 0xF0]
  {
  }
}
