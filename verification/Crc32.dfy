/** The half-byte CRC-32 of crc32.c, and what makes it detect bursts. */
module Crc32 {
  // ----- the bit-at-a-time definition -----

  const POLYNOMIAL: bv32 := 0xEDB88320

  /** One step of the reflected shift register. */
  function BitStep(x: bv32): bv32 {
    if Odd(x) then Xor(Shr1(x), POLYNOMIAL) else Shr1(x)
  }

  predicate Odd(x: bv32) { x & 1 == 1 }
  function Shr1(x: bv32): bv32 { x >> 1 }
  function Xor(x: bv32, y: bv32): bv32 { x ^ y }

  function Bits2(x: bv32): bv32 { BitStep(BitStep(x)) }
  function Bits4(x: bv32): bv32 { Bits2(Bits2(x)) }
  function Bits8(x: bv32): bv32 { Bits4(Bits4(x)) }

  function Wide(b: bv8): bv32 { b as bv32 }

  /** A byte enters the register. */
  function ByteStep(c: bv32, b: bv8): bv32 { Bits8(Xor(c, Wide(b))) }

  // ----- the half-byte table -----

  function Table(i: bv32): bv32 {
    match i
    case 0 => 0x00000000
    case 1 => 0x1DB71064
    case 2 => 0x3B6E20C8
    case 3 => 0x26D930AC
    case 4 => 0x76DC4190
    case 5 => 0x6B6B51F4
    case 6 => 0x4DB26158
    case 7 => 0x5005713C
    case 8 => 0xEDB88320
    case 9 => 0xF00F9344
    case 10 => 0xD6D6A3E8
    case 11 => 0xCB61B38C
    case 12 => 0x9B64C2B0
    case 13 => 0x86D3D2D4
    case 14 => 0xA00AE278
    case _ => 0xBDBDF21C
  }

  function Shl1(z: bv32): bv32 { z << 1 }
  function Shl4(z: bv32): bv32 { z << 4 }
  function Shl8(z: bv32): bv32 { z << 8 }

  function Lookup(x: bv32): bv32 { Table(x & 0x0F) }
  function Mixed(t: bv32, x: bv32): bv32 { t ^ (x >> 4) }

  /** What is above the lowest bit comes down by one step unchanged. */
  lemma StepShift(x: bv32, z: bv32)
    requires z & 0x8000_0000 == 0
    ensures BitStep(Xor(x, Shl1(z))) == Xor(BitStep(x), z)
  {
    ShiftedOut(x, z);
    SameParity(x, z);
    XorExchanged(Shr1(x), z, POLYNOMIAL);
  }

  lemma ShiftedOut(x: bv32, z: bv32)
    requires z & 0x8000_0000 == 0
    ensures Shr1(Xor(x, Shl1(z))) == Xor(Shr1(x), z)
  {
  }

  lemma SameParity(x: bv32, z: bv32)
    ensures Odd(Xor(x, Shl1(z))) == Odd(x)
  {
  }

  lemma XorExchanged(x: bv32, y: bv32, z: bv32)
    ensures Xor(Xor(x, y), z) == Xor(Xor(x, z), y)
  {
    XorMoves(x, y, z);
    XorMoves(x, z, y);
    XorCommutes(y, z);
  }

  lemma XorMoves(r: bv32, b: bv32, z: bv32)
    ensures Xor(Xor(r, b), z) == Xor(r, Xor(b, z))
  {
  }

  lemma XorCommutes(x: bv32, y: bv32)
    ensures Xor(x, y) == Xor(y, x)
  {
  }

  lemma ShiftByOnes(z: bv32)
    requires z & 0xF000_0000 == 0
    ensures Shl1(Shl1(Shl1(Shl1(z)))) == Shl4(z)
    ensures z & 0x8000_0000 == Shl1(z) & 0x8000_0000 == Shl1(Shl1(z)) & 0x8000_0000 == Shl1(Shl1(Shl1(z))) & 0x8000_0000 == 0
  {
  }

  /** What is in the upper bits comes down unchanged. */
  lemma Bits4Shift(x: bv32, z: bv32)
    requires z & 0xF000_0000 == 0
    ensures Bits4(Xor(x, Shl4(z))) == Xor(Bits4(x), z)
  {
    ShiftByOnes(z);
    StepShift(x, Shl1(Shl1(Shl1(z))));
    StepShift(BitStep(x), Shl1(Shl1(z)));
    StepShift(Bits2(x), Shl1(z));
    StepShift(BitStep(Bits2(x)), z);
  }

  function Nibble(x: bv32): bv32 { x & 0x0F }
  function Shr4(x: bv32): bv32 { x >> 4 }

  lemma NibbleAndRest(x: bv32)
    ensures Xor(Nibble(x), Shl4(Shr4(x))) == x && Shr4(x) & 0xF000_0000 == 0
  {
  }

  lemma SmallNibble(x: bv32)
    ensures Nibble(x) <= 15
  {
  }

  lemma TableEntry(i: bv32)
    requires i <= 15
    ensures Table(i) == Bits4(i)
  {
  }

  lemma TableIsBits4(x: bv32)
    ensures Mixed(Lookup(x), x) == Bits4(x)
  {
    SmallNibble(x);
    TableEntry(Nibble(x));
    NibbleAndRest(x);
    Bits4Shift(Nibble(x), Shr4(x));
  }

  // ----- the step is linear and a bijection -----

  lemma BitInjective(x: bv32, y: bv32)
    requires BitStep(x) == BitStep(y)
    ensures x == y
  {
  }

  lemma Bits4Injective(x: bv32, y: bv32)
    requires Bits4(x) == Bits4(y)
    ensures x == y
  {
    BitInjective(BitStep(Bits2(x)), BitStep(Bits2(y)));
    BitInjective(Bits2(x), Bits2(y));
    BitInjective(BitStep(x), BitStep(y));
    BitInjective(x, y);
  }

  lemma Bits8Injective(x: bv32, y: bv32)
    requires Bits8(x) == Bits8(y)
    ensures x == y
  {
    Bits4Injective(Bits4(x), Bits4(y));
    Bits4Injective(x, y);
  }

  lemma ShiftTwice(z: bv32)
    requires z & 0xFF00_0000 == 0
    ensures Shl4(Shl4(z)) == Shl8(z) && Shl4(z) & 0xF000_0000 == 0 && z & 0xF000_0000 == 0
  {
  }

  lemma Bits8Shift(x: bv32, z: bv32)
    requires z & 0xFF00_0000 == 0
    ensures Bits8(Xor(x, Shl8(z))) == Xor(Bits8(x), z)
  {
    ShiftTwice(z);
    Bits4Shift(x, Shl4(z));
    Bits4Shift(Bits4(x), z);
  }

  // ----- a byte by two look-ups -----

  function HighHalf(b: bv8): bv32 { (b >> 4) as bv32 }

  /** After the first look-up t, the register differs from what four bit steps leave in
      the upper half of the byte, and the second look-up exchanges just that. */
  lemma HalfBytes(c: bv32, b: bv8, t: bv32)
    ensures Xor(Mixed(t, c), HighHalf(b)) == Mixed(t, Xor(c, Wide(b)))
  {
  }

  lemma SameUpper(c: bv32, b: bv8, t: bv32)
    ensures Mixed(t, Xor(c, HighHalf(b))) == Mixed(t, c)
  {
  }

  /** The loop body of _crc32: a byte by two look-ups. */
  method ByteByTable(crc0: bv32, b: bv8) returns (crc: bv32)
    ensures crc == ByteStep(crc0, b)
  {
    ghost var x := Xor(crc0, Wide(b));
    crc := Mixed(Lookup(Xor(crc0, Wide(b))), crc0);
    HalfBytes(crc0, b, Lookup(x));
    TableIsBits4(x);
    ghost var y := Bits4(x);
    SameUpper(crc, b, Lookup(y));
    crc := Mixed(Lookup(Xor(crc, HighHalf(b))), crc);
    TableIsBits4(y);
  }

  // ----- a message -----

  function Fold<T, B>(step: (T, B) -> T, c: T, data: seq<B>): T {
    if data == [] then c else step(Fold(step, c, data[..|data| - 1]), data[|data| - 1])
  }

  lemma {:induction false} FoldConcat<T, B>(step: (T, B) -> T, c: T, a: seq<B>, b: seq<B>)
    ensures Fold(step, c, a + b) == Fold(step, Fold(step, c, a), b)
  {
    if b == [] {
      assert a + b == a;
    } else {
      FoldConcat(step, c, a, b[..|b| - 1]);
      assert (a + b)[..|a + b| - 1] == a + b[..|b| - 1];
    }
  }

  /** Different registers stay different. */
  lemma {:induction false} FoldInjective<T(!new), B(!new)>(step: (T, B) -> T, c: T, d: T, data: seq<B>)
    requires forall x, y, b :: step(x, b) == step(y, b) ==> x == y
    requires Fold(step, c, data) == Fold(step, d, data)
    ensures c == d
  {
    if data != [] {
      FoldInjective(step, c, d, data[..|data| - 1]);
    }
  }

  const ONES: bv32 := 0xFFFF_FFFF

  /** The register after the data. */
  function Register(data: seq<bv8>): bv32 {
    Fold(ByteStep, ONES, data)
  }

  function Not(x: bv32): bv32 { !x }

  /** The CRC-32 of the data, bit by bit. */
  function Crc(data: seq<bv8>): bv32 {
    Not(Register(data))
  }

  /** _crc32: the table gives the bitwise CRC, for data of every length. */
  method HalfByteCrc(data: seq<bv8>) returns (crc: bv32)
    ensures crc == Crc(data)
  {
    crc := ONES;
    var current := 0;
    while current < |data|
      invariant current <= |data| && crc == Register(data[..current])
    {
      OneMore(data, current);
      crc := ByteByTable(crc, data[current]);
      current := current + 1;
    }
    assert data[..current] == data;
    crc := Not(crc);
  }

  lemma OneMore(data: seq<bv8>, i: nat)
    requires i < |data|
    ensures Register(data[..i + 1]) == ByteStep(Register(data[..i]), data[i])
  {
    assert data[..i + 1][..i] == data[..i];
  }

  // ----- four bytes -----

  /** The little-endian word of four bytes. */
  function LeWord(b0: bv8, b1: bv8, b2: bv8, b3: bv8): bv32 {
    (Wide(b3) << 24) | (Wide(b2) << 16) | (Wide(b1) << 8) | Wide(b0)
  }

  /** The first byte, and the word of the others. */
  lemma LeWordStep(b0: bv8, b1: bv8, b2: bv8, b3: bv8)
    ensures LeWord(b0, b1, b2, b3) == Xor(Wide(b0), Shl8(LeWord(b1, b2, b3, 0)))
  {
  }

  lemma ShortWords(b1: bv8, b2: bv8, b3: bv8)
    ensures LeWord(b1, b2, b3, 0) & 0xFF00_0000 == 0 && LeWord(b2, b3, 0, 0) & 0xFF00_0000 == 0
    ensures LeWord(b3, 0, 0, 0) & 0xFF00_0000 == 0 && LeWord(b3, 0, 0, 0) == Wide(b3)
  {
  }

  lemma LeWordInjective(a0: bv8, a1: bv8, a2: bv8, a3: bv8, b0: bv8, b1: bv8, b2: bv8, b3: bv8)
    requires LeWord(a0, a1, a2, a3) == LeWord(b0, b1, b2, b3)
    ensures a0 == b0 && a1 == b1 && a2 == b2 && a3 == b3
  {
  }

  function Bits32(x: bv32): bv32 { Bits8(Bits8(Bits8(Bits8(x)))) }

  lemma Bits32Injective(x: bv32, y: bv32)
    requires Bits32(x) == Bits32(y)
    ensures x == y
  {
    Bits8Injective(Bits8(Bits8(Bits8(x))), Bits8(Bits8(Bits8(y))));
    Bits8Injective(Bits8(Bits8(x)), Bits8(Bits8(y)));
    Bits8Injective(Bits8(x), Bits8(y));
    Bits8Injective(x, y);
  }

  /** A byte enters the register r, and the rest of the word w is still to come. */
  lemma ByteIn(r: bv32, b: bv8, rest: bv32, w: bv32)
    requires w == Xor(Wide(b), Shl8(rest)) && rest & 0xFF00_0000 == 0
    ensures Xor(ByteStep(r, b), rest) == Bits8(Xor(r, w))
  {
    Bits8Shift(Xor(r, Wide(b)), rest);
    XorMoves(r, Wide(b), Shl8(rest));
  }

  /** Four bytes act as one word. */
  lemma FourIn(r: bv32, b0: bv8, b1: bv8, b2: bv8, b3: bv8)
    ensures ByteStep(ByteStep(ByteStep(ByteStep(r, b0), b1), b2), b3) == Bits32(Xor(r, LeWord(b0, b1, b2, b3)))
  {
    LeWordStep(b0, b1, b2, b3);
    LeWordStep(b1, b2, b3, 0);
    LeWordStep(b2, b3, 0, 0);
    ShortWords(b1, b2, b3);
    var w, w1, w2 := LeWord(b0, b1, b2, b3), LeWord(b1, b2, b3, 0), LeWord(b2, b3, 0, 0);
    var r1 := ByteStep(r, b0);
    var r2 := ByteStep(r1, b1);
    var r3 := ByteStep(r2, b2);
    ByteIn(r, b0, w1, w);
    ByteIn(r1, b1, w2, w1);
    ByteIn(r2, b2, Wide(b3), w2);
  }

  function WordOf(b: seq<bv8>): bv32
    requires |b| == 4
  {
    LeWord(b[0], b[1], b[2], b[3])
  }

  lemma FoldFour<T, B>(step: (T, B) -> T, r: T, b: seq<B>)
    requires |b| == 4
    ensures Fold(step, r, b) == step(step(step(step(r, b[0]), b[1]), b[2]), b[3])
  {
    assert b[..3][..2] == b[..2] && b[..2][..1] == b[..1] && b[..1][..0] == [];
    assert b[..3][2] == b[2] && b[..2][1] == b[1] && b[..1][0] == b[0];
    assert Fold(step, r, b[..1]) == step(r, b[0]);
    assert Fold(step, r, b[..2]) == step(step(r, b[0]), b[1]);
    assert Fold(step, r, b[..3]) == step(step(step(r, b[0]), b[1]), b[2]);
  }

  lemma RegisterFour(data: seq<bv8>, b: seq<bv8>, all: seq<bv8>)
    requires |b| == 4 && all == data + b
    ensures Register(all) == Bits32(Xor(Register(data), WordOf(b)))
  {
    FoldConcat(ByteStep, ONES, data, b);
    FoldFour(ByteStep, Register(data), b);
    FourIn(Register(data), b[0], b[1], b[2], b[3]);
  }

  // ----- the frame check -----

  const FRAME_SIZE_MIN: nat := 64

  /** What nic_check_for_rx accepts: long enough, and the CRC in the last four bytes. */
  predicate Accepted(frame: seq<bv8>) {
    && |frame| >= FRAME_SIZE_MIN
    && WordOf(frame[|frame| - 4..]) == Crc(frame[..|frame| - 4])
  }

  lemma XorOnes(r: bv32)
    ensures Xor(r, Not(r)) == ONES
  {
  }

  /** A frame is accepted exactly when its bytes, trailer and all, leave one fixed value in
      the register. */
  lemma AcceptedIsResidue(frame: seq<bv8>)
    requires |frame| >= FRAME_SIZE_MIN
    ensures Accepted(frame) <==> Register(frame) == Bits32(ONES)
  {
    var data, b := frame[..|frame| - 4], frame[|frame| - 4..];
    RegisterFour(data, b, frame);
    XorOnes(Register(data));
    if Register(frame) == Bits32(ONES) {
      Bits32Injective(Xor(Register(data), WordOf(b)), ONES);
      XorInjective(WordOf(b), Not(Register(data)), Register(data));
    }
  }

  lemma ByteStepInjective(x: bv32, y: bv32, b: bv8)
    requires ByteStep(x, b) == ByteStep(y, b)
    ensures x == y
  {
    Bits8Injective(Xor(x, Wide(b)), Xor(y, Wide(b)));
    XorInjective(x, y, Wide(b));
  }

  lemma XorInjective(x: bv32, y: bv32, z: bv32)
    requires Xor(x, z) == Xor(y, z) || Xor(z, x) == Xor(z, y)
    ensures x == y
  {
  }

  /** Data that agrees but for four consecutive bytes leaves different registers. */
  lemma BurstMatters(head: seq<bv8>, a: seq<bv8>, b: seq<bv8>, tail: seq<bv8>)
    requires |a| == |b| == 4 && a != b
    ensures Register(head + a + tail) != Register(head + b + tail)
  {
    FoldConcat(ByteStep, ONES, head + a, tail);
    FoldConcat(ByteStep, ONES, head + b, tail);
    if Register(head + a + tail) == Register(head + b + tail) {
      SameBefore(Register(head + a), Register(head + b), tail);
      RegisterFour(head, a, head + a);
      RegisterFour(head, b, head + b);
      Bits32Injective(Xor(Register(head), WordOf(a)), Xor(Register(head), WordOf(b)));
      XorInjective(WordOf(a), WordOf(b), Register(head));
      LeWordInjective(a[0], a[1], a[2], a[3], b[0], b[1], b[2], b[3]);
    }
  }

  lemma SameBefore(c: bv32, d: bv32, tail: seq<bv8>)
    requires Fold(ByteStep, c, tail) == Fold(ByteStep, d, tail)
    ensures c == d
  {
    forall x, y, b | ByteStep(x, b) == ByteStep(y, b) ensures x == y {
      ByteStepInjective(x, y, b);
    }
    FoldInjective(ByteStep, c, d, tail);
  }

  /** Any change of an accepted frame that is confined to four consecutive bytes, in the
      data, in the trailer or across both, is rejected. */
  lemma BurstIsRejected(f: seq<bv8>, g: seq<bv8>, p: nat)
    requires Accepted(f) && |g| == |f| && p + 4 <= |f|
    requires g != f && g[..p] == f[..p] && g[p + 4..] == f[p + 4..]
    ensures !Accepted(g)
  {
    var head, tail := f[..p], f[p + 4..];
    assert f == head + f[p..p + 4] + tail && g == head + g[p..p + 4] + tail;
    BurstMatters(head, f[p..p + 4], g[p..p + 4], tail);
    AcceptedIsResidue(f);
    AcceptedIsResidue(g);
  }

  // ----- the check value -----

  lemma NextByte(data: seq<bv8>, b: bv8, all: seq<bv8>)
    requires all == data + [b]
    ensures Register(all) == ByteStep(Register(data), b)
  {
    assert all[..|all| - 1] == data;
  }

  /** The register after the digits 1 to 4, and on from there. */
  lemma FourDigits()
    ensures Register([0x31, 0x32, 0x33, 0x34]) == 0x641C_1F5C
  {
    FoldFour(ByteStep, ONES, [0x31, 0x32, 0x33, 0x34]);
    assert ByteStep(ONES, 0x31) == 0x7C23_1048;
    assert ByteStep(0x7C23_1048, 0x32) == 0xB0AC_BB32;
    assert ByteStep(0xB0AC_BB32, 0x33) == 0x77B7_9C2D;
    assert ByteStep(0x77B7_9C2D, 0x34) == 0x641C_1F5C;
  }

  lemma NextFour(data: seq<bv8>, b: seq<bv8>, all: seq<bv8>, r: bv32)
    requires |b| == 4 && all == data + b && Register(data) == r
    ensures Register(all) == ByteStep(ByteStep(ByteStep(ByteStep(r, b[0]), b[1]), b[2]), b[3])
  {
    FoldConcat(ByteStep, ONES, data, b);
    FoldFour(ByteStep, r, b);
  }

  lemma EightDigits()
    ensures Register([0x31, 0x32, 0x33, 0x34, 0x35, 0x36, 0x37, 0x38]) == 0x651F_2550
  {
    FourDigits();
    NextFour([0x31, 0x32, 0x33, 0x34], [0x35, 0x36, 0x37, 0x38], [0x31, 0x32, 0x33, 0x34, 0x35, 0x36, 0x37, 0x38], 0x641C_1F5C);
    assert ByteStep(0x641C_1F5C, 0x35) == 0x340A_C5E3;
    assert ByteStep(0x340A_C5E3, 0x36) == 0xF68D_2C9E;
    assert ByteStep(0xF68D_2C9E, 0x37) == 0xAFFC_9660;
    assert ByteStep(0xAFFC_9660, 0x38) == 0x651F_2550;
  }

  /** The CRC of no data, and of the digits 1 to 9: the check value by which catalogues of
      CRCs tell CRC-32 from the others. */
  lemma CheckValue()
    ensures Crc([]) == 0
    ensures Crc([0x31, 0x32, 0x33, 0x34, 0x35, 0x36, 0x37, 0x38, 0x39]) == 0xCBF4_3926
  {
    EightDigits();
    NextByte([0x31, 0x32, 0x33, 0x34, 0x35, 0x36, 0x37, 0x38], 0x39, [0x31, 0x32, 0x33, 0x34, 0x35, 0x36, 0x37, 0x38, 0x39]);
    assert ByteStep(0x651F_2550, 0x39) == 0x340B_C6D9;
  }
}
