/** The SHA-1 of sha1.c: a context that is updated piece by piece, a sixteen-word circular
    schedule, and unrolled rounds. */
module Sha1 {
  import opened Sha1Spec

  // ----- the circular schedule -----

  /** The first word that the schedule still holds before round t. */
  function Oldest(t: nat): nat {
    if t < 16 then 0 else t - 16
  }

  /** Before round t, word k % 16 of the block is word k of the schedule, for the sixteen
      words from the oldest one on. */
  ghost predicate Circular<T>(l: seq<T>, schedule: seq<T>, t: nat) {
    && |l| == 16 && |schedule| == 80 && t <= 80
    && forall k :: Oldest(t) <= k < Oldest(t) + 16 ==> l[k % 16] == schedule[k]
  }

  lemma HeldAt<T>(l: seq<T>, schedule: seq<T>, t: nat, k: nat)
    requires Circular(l, schedule, t) && Oldest(t) <= k < Oldest(t) + 16
    ensures k < |schedule| && l[k % 16] == schedule[k]
  {
  }

  lemma Replaced<T>(l: seq<T>, schedule: seq<T>, i: nat)
    requires Circular(l, schedule, i) && 16 <= i < 80
    ensures Circular(l[i % 16 := schedule[i]], schedule, i + 1)
  {
    var l1 := l[i % 16 := schedule[i]];
    forall k | i - 15 <= k < i + 1 ensures l1[k % 16] == schedule[k] {
      if k < i {
        assert k % 16 != i % 16;
      }
    }
  }

  /** The eighty words of the schedule. */
  ghost predicate IsSchedule(schedule: seq<bv32>, m: seq<bv32>) {
    && |m| == 16 && |schedule| == 80
    && var words := forall t {:trigger W(m, t)} :: 0 <= t < 80 ==> schedule[t] == W(m, t);
       words
  }

  lemma ScheduleStep(schedule: seq<bv32>, m: seq<bv32>, t: nat)
    requires IsSchedule(schedule, m) && 16 <= t < 80
    ensures schedule[t] == Mix(schedule[t - 3], schedule[t - 8], schedule[t - 14], schedule[t - 16])
  {
    assert W(m, t) == Mix(W(m, t - 3), W(m, t - 8), W(m, t - 14), W(m, t - 16));
  }

  /** blk0: the words of the block themselves. */
  method Blk0(l: array<bv32>, i: nat, ghost schedule: seq<bv32>) returns (w: bv32)
    requires i < 16 && Circular(l[..], schedule, i)
    ensures w == schedule[i] && Circular(l[..], schedule, i + 1)
  {
    w := l[i];
    HeldAt(l[..], schedule, i, i);
  }

  /** blk: the next word replaces the oldest one. */
  method Blk(l: array<bv32>, i: nat, ghost schedule: seq<bv32>, ghost m: seq<bv32>) returns (w: bv32)
    requires IsSchedule(schedule, m) && 16 <= i < 80 && Circular(l[..], schedule, i)
    modifies l
    ensures w == schedule[i] && Circular(l[..], schedule, i + 1)
  {
    ghost var before := l[..];
    var x := Xor4(l[(i + 13) % 16], l[(i + 8) % 16], l[(i + 2) % 16], l[i % 16]);
    Oldest16(before, schedule, i);
    ScheduleStep(schedule, m, i);
    l[i % 16] := x;
    w := l[i % 16];
    Replaced(before, schedule, i);
    assert l[..] == before[i % 16 := schedule[i]];
  }

  method Xor4(a: bv32, b: bv32, c: bv32, d: bv32) returns (x: bv32)
    ensures x == Mix(a, b, c, d)
  {
    var y := a ^ b ^ c ^ d;
    x := (y << 1) | (y >> 31);
  }

  lemma FromTheEnd(i: nat)
    requires i >= 16
    ensures (i + 13) % 16 == (i - 3) % 16 && (i + 8) % 16 == (i - 8) % 16
    ensures (i + 2) % 16 == (i - 14) % 16 && i % 16 == (i - 16) % 16
  {
  }

  lemma Oldest16<T>(l: seq<T>, schedule: seq<T>, i: nat)
    requires 16 <= i < 80 && Circular(l, schedule, i)
    ensures l[(i + 13) % 16] == schedule[i - 3] && l[(i + 8) % 16] == schedule[i - 8]
    ensures l[(i + 2) % 16] == schedule[i - 14] && l[i % 16] == schedule[i - 16]
  {
    FromTheEnd(i);
    HeldAt(l, schedule, i, i - 3);
    HeldAt(l, schedule, i, i - 8);
    HeldAt(l, schedule, i, i - 14);
    HeldAt(l, schedule, i, i - 16);
  }

  // ----- the round macros -----

  /** The working variables before each of the eighty rounds, and after the last. */
  ghost predicate IsTrace(trace: seq<Words>, m: seq<bv32>) {
    && |m| == 16 && |trace| == 81
    && var rounds := forall t {:trigger Rounds(trace[0], m, t)} :: 0 <= t <= 80 ==> trace[t] == Rounds(trace[0], m, t);
       rounds
  }

  /** A round with its operands in rotated roles: z is replaced and w rotated. */
  lemma RoundStep(trace: seq<Words>, m: seq<bv32>, i: nat, v: bv32, w: bv32, x: bv32, y: bv32, z: bv32)
    requires IsTrace(trace, m) && i < 80 && Words(v, w, x, y, z) == trace[i]
    ensures Words(Sum(Rotl5(v), F(i, w, x, y), z, K(i), W(m, i)), v, Rotl30(w), x, y) == trace[i + 1]
  {
    assert Rounds(trace[0], m, i) == trace[i];
    assert Rounds(trace[0], m, i + 1) == trace[i + 1];
  }

  /** z += f + b + k + r */
  method Accumulate(z: bv32, f: bv32, b: bv32, k: bv32, r: bv32) returns (z1: bv32)
    ensures z1 == Sum(r, f, z, k, b)
  {
    z1 := z + (f + b + k + r);
  }

  method Choose(w: bv32, x: bv32, y: bv32) returns (f: bv32)
    ensures f == Ch(w, x, y)
  {
    f := (w & (x ^ y)) ^ y;
    ChRewritten(w, x, y);
  }

  method Majority(w: bv32, x: bv32, y: bv32) returns (f: bv32)
    ensures f == Maj(w, x, y)
  {
    f := ((w | x) & y) | (w & x);
    MajRewritten(w, x, y);
  }

  method ChStep(v: bv32, w: bv32, x: bv32, y: bv32, z: bv32, b: bv32, k: bv32) returns (z1: bv32, w1: bv32)
    ensures z1 == Sum(Rotl5(v), Ch(w, x, y), z, k, b) && w1 == Rotl30(w)
  {
    var f := Choose(w, x, y);
    z1 := Accumulate(z, f, b, k, Rotl5(v));
    w1 := Rotl30(w);
  }

  method ParityStep(v: bv32, w: bv32, x: bv32, y: bv32, z: bv32, b: bv32, k: bv32) returns (z1: bv32, w1: bv32)
    ensures z1 == Sum(Rotl5(v), Parity(w, x, y), z, k, b) && w1 == Rotl30(w)
  {
    var f := w ^ x ^ y;
    z1 := Accumulate(z, f, b, k, Rotl5(v));
    w1 := Rotl30(w);
  }

  method MajStep(v: bv32, w: bv32, x: bv32, y: bv32, z: bv32, b: bv32, k: bv32) returns (z1: bv32, w1: bv32)
    ensures z1 == Sum(Rotl5(v), Maj(w, x, y), z, k, b) && w1 == Rotl30(w)
  {
    var f := Majority(w, x, y);
    z1 := Accumulate(z, f, b, k, Rotl5(v));
    w1 := Rotl30(w);
  }

  method R0(l: array<bv32>, v: bv32, w: bv32, x: bv32, y: bv32, z: bv32, i: nat, ghost s: seq<bv32>, ghost m: seq<bv32>, ghost trace: seq<Words>)
    returns (z1: bv32, w1: bv32)
    requires IsSchedule(s, m) && IsTrace(trace, m) && 0 <= i < 16 && Circular(l[..], s, i) && Words(v, w, x, y, z) == trace[i]
    ensures Circular(l[..], s, i + 1) && Words(z1, v, w1, x, y) == trace[i + 1]
  {
    var b := Blk0(l, i, s);
    z1, w1 := ChStep(v, w, x, y, z, b, 0x5A827999);
    assert W(m, i) == s[i];
    RoundStep(trace, m, i, v, w, x, y, z);
  }

  method R1(l: array<bv32>, v: bv32, w: bv32, x: bv32, y: bv32, z: bv32, i: nat, ghost s: seq<bv32>, ghost m: seq<bv32>, ghost trace: seq<Words>)
    returns (z1: bv32, w1: bv32)
    requires IsSchedule(s, m) && IsTrace(trace, m) && 16 <= i < 20 && Circular(l[..], s, i) && Words(v, w, x, y, z) == trace[i]
    modifies l
    ensures Circular(l[..], s, i + 1) && Words(z1, v, w1, x, y) == trace[i + 1]
  {
    var b := Blk(l, i, s, m);
    z1, w1 := ChStep(v, w, x, y, z, b, 0x5A827999);
    assert W(m, i) == s[i];
    RoundStep(trace, m, i, v, w, x, y, z);
  }

  method R2(l: array<bv32>, v: bv32, w: bv32, x: bv32, y: bv32, z: bv32, i: nat, ghost s: seq<bv32>, ghost m: seq<bv32>, ghost trace: seq<Words>)
    returns (z1: bv32, w1: bv32)
    requires IsSchedule(s, m) && IsTrace(trace, m) && 20 <= i < 40 && Circular(l[..], s, i) && Words(v, w, x, y, z) == trace[i]
    modifies l
    ensures Circular(l[..], s, i + 1) && Words(z1, v, w1, x, y) == trace[i + 1]
  {
    var b := Blk(l, i, s, m);
    z1, w1 := ParityStep(v, w, x, y, z, b, 0x6ED9EBA1);
    assert W(m, i) == s[i];
    RoundStep(trace, m, i, v, w, x, y, z);
  }

  method R3(l: array<bv32>, v: bv32, w: bv32, x: bv32, y: bv32, z: bv32, i: nat, ghost s: seq<bv32>, ghost m: seq<bv32>, ghost trace: seq<Words>)
    returns (z1: bv32, w1: bv32)
    requires IsSchedule(s, m) && IsTrace(trace, m) && 40 <= i < 60 && Circular(l[..], s, i) && Words(v, w, x, y, z) == trace[i]
    modifies l
    ensures Circular(l[..], s, i + 1) && Words(z1, v, w1, x, y) == trace[i + 1]
  {
    var b := Blk(l, i, s, m);
    z1, w1 := MajStep(v, w, x, y, z, b, 0x8F1BBCDC);
    assert W(m, i) == s[i];
    RoundStep(trace, m, i, v, w, x, y, z);
  }

  method R4(l: array<bv32>, v: bv32, w: bv32, x: bv32, y: bv32, z: bv32, i: nat, ghost s: seq<bv32>, ghost m: seq<bv32>, ghost trace: seq<Words>)
    returns (z1: bv32, w1: bv32)
    requires IsSchedule(s, m) && IsTrace(trace, m) && 60 <= i < 80 && Circular(l[..], s, i) && Words(v, w, x, y, z) == trace[i]
    modifies l
    ensures Circular(l[..], s, i + 1) && Words(z1, v, w1, x, y) == trace[i + 1]
  {
    var b := Blk(l, i, s, m);
    z1, w1 := ParityStep(v, w, x, y, z, b, 0xCA62C1D6);
    assert W(m, i) == s[i];
    RoundStep(trace, m, i, v, w, x, y, z);
  }

  // ----- the eighty rounds, ten at a time -----

  method Rounds0(l: array<bv32>, a0: bv32, b0: bv32, c0: bv32, d0: bv32, e0: bv32, ghost s: seq<bv32>, ghost m: seq<bv32>, ghost trace: seq<Words>)
    returns (a: bv32, b: bv32, c: bv32, d: bv32, e: bv32)
    requires IsSchedule(s, m) && IsTrace(trace, m) && Circular(l[..], s, 0) && Words(a0, b0, c0, d0, e0) == trace[0]
    ensures Circular(l[..], s, 10) && Words(a, b, c, d, e) == trace[10]
  {
    a, b, c, d, e := a0, b0, c0, d0, e0;
    e, b := R0(l, a, b, c, d, e, 0, s, m, trace);
    d, a := R0(l, e, a, b, c, d, 1, s, m, trace);
    c, e := R0(l, d, e, a, b, c, 2, s, m, trace);
    b, d := R0(l, c, d, e, a, b, 3, s, m, trace);
    a, c := R0(l, b, c, d, e, a, 4, s, m, trace);
    e, b := R0(l, a, b, c, d, e, 5, s, m, trace);
    d, a := R0(l, e, a, b, c, d, 6, s, m, trace);
    c, e := R0(l, d, e, a, b, c, 7, s, m, trace);
    b, d := R0(l, c, d, e, a, b, 8, s, m, trace);
    a, c := R0(l, b, c, d, e, a, 9, s, m, trace);
  }

  method Rounds10(l: array<bv32>, a0: bv32, b0: bv32, c0: bv32, d0: bv32, e0: bv32, ghost s: seq<bv32>, ghost m: seq<bv32>, ghost trace: seq<Words>)
    returns (a: bv32, b: bv32, c: bv32, d: bv32, e: bv32)
    requires IsSchedule(s, m) && IsTrace(trace, m) && Circular(l[..], s, 10) && Words(a0, b0, c0, d0, e0) == trace[10]
    modifies l
    ensures Circular(l[..], s, 20) && Words(a, b, c, d, e) == trace[20]
  {
    a, b, c, d, e := a0, b0, c0, d0, e0;
    e, b := R0(l, a, b, c, d, e, 10, s, m, trace);
    d, a := R0(l, e, a, b, c, d, 11, s, m, trace);
    c, e := R0(l, d, e, a, b, c, 12, s, m, trace);
    b, d := R0(l, c, d, e, a, b, 13, s, m, trace);
    a, c := R0(l, b, c, d, e, a, 14, s, m, trace);
    e, b := R0(l, a, b, c, d, e, 15, s, m, trace);
    d, a := R1(l, e, a, b, c, d, 16, s, m, trace);
    c, e := R1(l, d, e, a, b, c, 17, s, m, trace);
    b, d := R1(l, c, d, e, a, b, 18, s, m, trace);
    a, c := R1(l, b, c, d, e, a, 19, s, m, trace);
  }

  method Rounds20(l: array<bv32>, a0: bv32, b0: bv32, c0: bv32, d0: bv32, e0: bv32, ghost s: seq<bv32>, ghost m: seq<bv32>, ghost trace: seq<Words>)
    returns (a: bv32, b: bv32, c: bv32, d: bv32, e: bv32)
    requires IsSchedule(s, m) && IsTrace(trace, m) && Circular(l[..], s, 20) && Words(a0, b0, c0, d0, e0) == trace[20]
    modifies l
    ensures Circular(l[..], s, 30) && Words(a, b, c, d, e) == trace[30]
  {
    a, b, c, d, e := a0, b0, c0, d0, e0;
    e, b := R2(l, a, b, c, d, e, 20, s, m, trace);
    d, a := R2(l, e, a, b, c, d, 21, s, m, trace);
    c, e := R2(l, d, e, a, b, c, 22, s, m, trace);
    b, d := R2(l, c, d, e, a, b, 23, s, m, trace);
    a, c := R2(l, b, c, d, e, a, 24, s, m, trace);
    e, b := R2(l, a, b, c, d, e, 25, s, m, trace);
    d, a := R2(l, e, a, b, c, d, 26, s, m, trace);
    c, e := R2(l, d, e, a, b, c, 27, s, m, trace);
    b, d := R2(l, c, d, e, a, b, 28, s, m, trace);
    a, c := R2(l, b, c, d, e, a, 29, s, m, trace);
  }

  method Rounds30(l: array<bv32>, a0: bv32, b0: bv32, c0: bv32, d0: bv32, e0: bv32, ghost s: seq<bv32>, ghost m: seq<bv32>, ghost trace: seq<Words>)
    returns (a: bv32, b: bv32, c: bv32, d: bv32, e: bv32)
    requires IsSchedule(s, m) && IsTrace(trace, m) && Circular(l[..], s, 30) && Words(a0, b0, c0, d0, e0) == trace[30]
    modifies l
    ensures Circular(l[..], s, 40) && Words(a, b, c, d, e) == trace[40]
  {
    a, b, c, d, e := a0, b0, c0, d0, e0;
    e, b := R2(l, a, b, c, d, e, 30, s, m, trace);
    d, a := R2(l, e, a, b, c, d, 31, s, m, trace);
    c, e := R2(l, d, e, a, b, c, 32, s, m, trace);
    b, d := R2(l, c, d, e, a, b, 33, s, m, trace);
    a, c := R2(l, b, c, d, e, a, 34, s, m, trace);
    e, b := R2(l, a, b, c, d, e, 35, s, m, trace);
    d, a := R2(l, e, a, b, c, d, 36, s, m, trace);
    c, e := R2(l, d, e, a, b, c, 37, s, m, trace);
    b, d := R2(l, c, d, e, a, b, 38, s, m, trace);
    a, c := R2(l, b, c, d, e, a, 39, s, m, trace);
  }

  method Rounds40(l: array<bv32>, a0: bv32, b0: bv32, c0: bv32, d0: bv32, e0: bv32, ghost s: seq<bv32>, ghost m: seq<bv32>, ghost trace: seq<Words>)
    returns (a: bv32, b: bv32, c: bv32, d: bv32, e: bv32)
    requires IsSchedule(s, m) && IsTrace(trace, m) && Circular(l[..], s, 40) && Words(a0, b0, c0, d0, e0) == trace[40]
    modifies l
    ensures Circular(l[..], s, 50) && Words(a, b, c, d, e) == trace[50]
  {
    a, b, c, d, e := a0, b0, c0, d0, e0;
    e, b := R3(l, a, b, c, d, e, 40, s, m, trace);
    d, a := R3(l, e, a, b, c, d, 41, s, m, trace);
    c, e := R3(l, d, e, a, b, c, 42, s, m, trace);
    b, d := R3(l, c, d, e, a, b, 43, s, m, trace);
    a, c := R3(l, b, c, d, e, a, 44, s, m, trace);
    e, b := R3(l, a, b, c, d, e, 45, s, m, trace);
    d, a := R3(l, e, a, b, c, d, 46, s, m, trace);
    c, e := R3(l, d, e, a, b, c, 47, s, m, trace);
    b, d := R3(l, c, d, e, a, b, 48, s, m, trace);
    a, c := R3(l, b, c, d, e, a, 49, s, m, trace);
  }

  method Rounds50(l: array<bv32>, a0: bv32, b0: bv32, c0: bv32, d0: bv32, e0: bv32, ghost s: seq<bv32>, ghost m: seq<bv32>, ghost trace: seq<Words>)
    returns (a: bv32, b: bv32, c: bv32, d: bv32, e: bv32)
    requires IsSchedule(s, m) && IsTrace(trace, m) && Circular(l[..], s, 50) && Words(a0, b0, c0, d0, e0) == trace[50]
    modifies l
    ensures Circular(l[..], s, 60) && Words(a, b, c, d, e) == trace[60]
  {
    a, b, c, d, e := a0, b0, c0, d0, e0;
    e, b := R3(l, a, b, c, d, e, 50, s, m, trace);
    d, a := R3(l, e, a, b, c, d, 51, s, m, trace);
    c, e := R3(l, d, e, a, b, c, 52, s, m, trace);
    b, d := R3(l, c, d, e, a, b, 53, s, m, trace);
    a, c := R3(l, b, c, d, e, a, 54, s, m, trace);
    e, b := R3(l, a, b, c, d, e, 55, s, m, trace);
    d, a := R3(l, e, a, b, c, d, 56, s, m, trace);
    c, e := R3(l, d, e, a, b, c, 57, s, m, trace);
    b, d := R3(l, c, d, e, a, b, 58, s, m, trace);
    a, c := R3(l, b, c, d, e, a, 59, s, m, trace);
  }

  method Rounds60(l: array<bv32>, a0: bv32, b0: bv32, c0: bv32, d0: bv32, e0: bv32, ghost s: seq<bv32>, ghost m: seq<bv32>, ghost trace: seq<Words>)
    returns (a: bv32, b: bv32, c: bv32, d: bv32, e: bv32)
    requires IsSchedule(s, m) && IsTrace(trace, m) && Circular(l[..], s, 60) && Words(a0, b0, c0, d0, e0) == trace[60]
    modifies l
    ensures Circular(l[..], s, 70) && Words(a, b, c, d, e) == trace[70]
  {
    a, b, c, d, e := a0, b0, c0, d0, e0;
    e, b := R4(l, a, b, c, d, e, 60, s, m, trace);
    d, a := R4(l, e, a, b, c, d, 61, s, m, trace);
    c, e := R4(l, d, e, a, b, c, 62, s, m, trace);
    b, d := R4(l, c, d, e, a, b, 63, s, m, trace);
    a, c := R4(l, b, c, d, e, a, 64, s, m, trace);
    e, b := R4(l, a, b, c, d, e, 65, s, m, trace);
    d, a := R4(l, e, a, b, c, d, 66, s, m, trace);
    c, e := R4(l, d, e, a, b, c, 67, s, m, trace);
    b, d := R4(l, c, d, e, a, b, 68, s, m, trace);
    a, c := R4(l, b, c, d, e, a, 69, s, m, trace);
  }

  method Rounds70(l: array<bv32>, a0: bv32, b0: bv32, c0: bv32, d0: bv32, e0: bv32, ghost s: seq<bv32>, ghost m: seq<bv32>, ghost trace: seq<Words>)
    returns (a: bv32, b: bv32, c: bv32, d: bv32, e: bv32)
    requires IsSchedule(s, m) && IsTrace(trace, m) && Circular(l[..], s, 70) && Words(a0, b0, c0, d0, e0) == trace[70]
    modifies l
    ensures Circular(l[..], s, 80) && Words(a, b, c, d, e) == trace[80]
  {
    a, b, c, d, e := a0, b0, c0, d0, e0;
    e, b := R4(l, a, b, c, d, e, 70, s, m, trace);
    d, a := R4(l, e, a, b, c, d, 71, s, m, trace);
    c, e := R4(l, d, e, a, b, c, 72, s, m, trace);
    b, d := R4(l, c, d, e, a, b, 73, s, m, trace);
    a, c := R4(l, b, c, d, e, a, 74, s, m, trace);
    e, b := R4(l, a, b, c, d, e, 75, s, m, trace);
    d, a := R4(l, e, a, b, c, d, 76, s, m, trace);
    c, e := R4(l, d, e, a, b, c, 77, s, m, trace);
    b, d := R4(l, c, d, e, a, b, 78, s, m, trace);
    a, c := R4(l, b, c, d, e, a, 79, s, m, trace);
  }

  ghost function WordsOf(state: array<bv32>): Words
    requires state.Length == 5
    reads state
  {
    Words(state[0], state[1], state[2], state[3], state[4])
  }

  /** What the eighty rounds leave, as section 6.1.2 has it. */
  lemma TraceOfBlock(h: Words, m: seq<bv32>) returns (schedule: seq<bv32>, trace: seq<Words>)
    requires |m| == 16
    ensures IsSchedule(schedule, m) && IsTrace(trace, m) && trace[0] == h && trace[80] == Rounds(h, m, 80)
    ensures Circular(m, schedule, 0)
  {
    schedule := seq(80, t requires 0 <= t < 80 => W(m, t));
    trace := seq(81, t requires 0 <= t <= 80 => Rounds(h, m, t));
  }

  method RunRounds(l: array<bv32>, h: Words, ghost m: seq<bv32>) returns (v: Words)
    requires |m| == 16 && l[..] == m
    modifies l
    ensures v == Rounds(h, m, 80)
  {
    ghost var s, trace := TraceOfBlock(h, m);
    var a, b, c, d, e := h.a, h.b, h.c, h.d, h.e;
    a, b, c, d, e := Rounds0(l, a, b, c, d, e, s, m, trace);
    a, b, c, d, e := Rounds10(l, a, b, c, d, e, s, m, trace);
    a, b, c, d, e := Rounds20(l, a, b, c, d, e, s, m, trace);
    a, b, c, d, e := Rounds30(l, a, b, c, d, e, s, m, trace);
    a, b, c, d, e := Rounds40(l, a, b, c, d, e, s, m, trace);
    a, b, c, d, e := Rounds50(l, a, b, c, d, e, s, m, trace);
    a, b, c, d, e := Rounds60(l, a, b, c, d, e, s, m, trace);
    a, b, c, d, e := Rounds70(l, a, b, c, d, e, s, m, trace);
    v := Words(a, b, c, d, e);
  }

  lemma IsCompress(h: Words, block: seq<bv8>, m: seq<bv32>, v: Words)
    requires |block| == 64 && m == BlockWords(block) && v == Rounds(h, m, 80)
    ensures Add(h, v) == Compress(h, block)
  {
  }

  /** Hashes one block, whatever its bytes and the state before. */
  method SHA1Transform(state: array<bv32>, buffer: seq<bv8>)
    requires state.Length == 5 && |buffer| == 64
    modifies state
    ensures WordsOf(state) == Compress(old(WordsOf(state)), buffer)
  {
    var l := new bv32[16](i requires 0 <= i < 16 => Word(buffer[4 * i..4 * i + 4]));
    ghost var m := BlockWords(buffer);
    assert l[..] == m;
    var h := Words(state[0], state[1], state[2], state[3], state[4]);
    var v := RunRounds(l, h, m);
    state[0] := Plus(state[0], v.a);
    state[1] := Plus(state[1], v.b);
    state[2] := Plus(state[2], v.c);
    state[3] := Plus(state[3], v.d);
    state[4] := Plus(state[4], v.e);
    assert WordsOf(state) == Add(h, v);
    IsCompress(h, buffer, m, v);
  }

  // ----- chaining -----

  lemma HashedStep(bytes: seq<bv8>, block: seq<bv8>, all: seq<bv8>)
    requires |bytes| % 64 == 0 && |block| == 64 && all == bytes + block
    ensures Hashed(all) == Compress(Hashed(bytes), block)
  {
    assert |all| % 64 == 0 && |all| >= 64;
    assert all[..|all| - 64] == bytes && all[|all| - 64..|all|] == block;
  }

  /** The whole blocks of the bytes. */
  ghost function Whole<B>(bytes: seq<B>): seq<B> {
    bytes[..|bytes| - |bytes| % 64]
  }

  /** SHA1Transform moves the state from the hash value of `start` to that of `all`. */
  method HashBlock(state: array<bv32>, block: seq<bv8>, ghost start: seq<bv8>, ghost all: seq<bv8>)
    requires state.Length == 5 && |block| == 64 && |start| % 64 == 0 && all == start + block
    requires WordsOf(state) == Hashed(start)
    modifies state
    ensures WordsOf(state) == Hashed(all)
  {
    HashedStep(start, block, all);
    SHA1Transform(state, block);
  }

  // ----- the context -----

  /** The bit count is kept in two 32-bit halves. */
  const HALF: nat := 0x1_0000_0000

  class Context {
    const state: array<bv32>
    var count0: nat
    var count1: nat
    const buffer: array<bv8>
    /** All the bytes of the updates so far. */
    ghost var message: seq<bv8>

    ghost predicate Shaped() {
      state.Length == 5 && buffer.Length == 64
    }

    /** State, bit count and the live part of the buffer are those of the message. */
    ghost predicate Valid()
      reads this, state, buffer
    {
      CountIs(count0, count1, |message|) && Holds(message)
    }

    /** SHA1Init. */
    constructor ()
      ensures Valid() && message == [] && fresh(state) && fresh(buffer)
    {
      state := new bv32[5];
      buffer := new bv8[64];
      count0, count1 := 0, 0;
      message := [];
      new;
      state[0], state[1], state[2], state[3], state[4] := 0x67452301, 0xEFCDAB89, 0x98BADCFE, 0x10325476, 0xC3D2E1F0;
    }

    method Count(length: nat) returns (j: nat)
      requires length < HALF && CountIs(count0, count1, |message|)
      modifies this`count0, this`count1
      ensures CountIs(count0, count1, |message| + length) && j == |message| % 64
    {
      j := count0;
      count0 := (count0 + 8 * length % HALF) % HALF;
      if count0 < j {
        count1 := (count1 + 1) % HALF;
      }
      count1 := (count1 + length / 0x2000_0000) % HALF;
      CountsUp(old(count0), old(count1), |message|, length);
      j := j / 8 % 64;
    }

    method FillBuffer(data: seq<bv8>, j: nat)
      requires buffer.Length == 64 && j < 64 && j + |data| > 63
      modifies buffer
      ensures buffer[..] == old(buffer[..j]) + data[..64 - j]
    {
      forall k | 0 <= k < 64 - j { buffer[j + k] := data[k]; }
    }

    /** The state is the hash value of the whole blocks that end at byte i of the data. */
    ghost predicate HashedTo(data: seq<bv8>, i: nat)
      requires i <= |data|
      reads this, state
    {
      Shaped() && (|message| + i) % 64 == 0 && WordsOf(state) == Hashed(message + data[..i])
    }

    /** The data completes the block in the buffer. */
    method FirstBlock(data: seq<bv8>, j: nat)
      requires Holds(message) && j == |message| % 64 && j + |data| > 63
      modifies state, buffer
      ensures HashedTo(data, 64 - j)
    {
      FillBuffer(data, j);
      BufferAppended(message, data, j);
      HashBlock(state, buffer[..], Whole(message), message + data[..64 - j]);
    }

    /** The whole blocks of the data are hashed where they are. */
    method Blocks(data: seq<bv8>, i0: nat) returns (i: nat)
      requires i0 <= |data| && HashedTo(data, i0)
      modifies state
      ensures i <= |data| && |data| - i < 64 && HashedTo(data, i)
    {
      i := i0;
      while i + 63 < |data|
        invariant i <= |data| && HashedTo(data, i)
      {
        NextBlock(data, i);
        i := i + 64;
      }
    }

    method NextBlock(data: seq<bv8>, i: nat)
      requires i + 64 <= |data| && HashedTo(data, i)
      modifies state
      ensures HashedTo(data, i + 64)
    {
      BlockAppended(message, data, i);
      HashBlock(state, data[i..i + 64], message + data[..i], message + data[..i + 64]);
    }

    /** The bytes that fill no block wait in the buffer. */
    method KeepRest(data: seq<bv8>, i: nat, j: nat)
      requires buffer.Length == 64 && i <= |data| && j + |data| - i < 64
      modifies buffer
      ensures buffer[..j + |data| - i] == old(buffer[..j]) + data[i..]
    {
      forall k | i <= k < |data| { buffer[j + k - i] := data[k]; }
    }

    /** What Valid says apart from the count, for all the bytes so far. */
    ghost predicate Holds(all: seq<bv8>)
      reads state, buffer
    {
      && Shaped() && WordsOf(state) == Hashed(Whole(all))
      && buffer[..|all| % 64] == all[|all| - |all| % 64..]
    }

    lemma RestHolds(data: seq<bv8>, i: nat)
      requires i <= |data| && |data| - i < 64 && HashedTo(data, i)
      requires buffer[..|data| - i] == data[i..]
      ensures Holds(message + data)
    {
      RestIsTail(message, data, i);
    }

    method Absorb(data: seq<bv8>, j: nat)
      requires Holds(message) && j == |message| % 64 && j + |data| > 63
      modifies state, buffer
      ensures Holds(message + data)
    {
      FirstBlock(data, j);
      var i := Blocks(data, 64 - j);
      KeepRest(data, i, 0);
      RestHolds(data, i);
    }

    /** SHA1Update. */
    method SHA1Update(data: seq<bv8>)
      requires Valid() && |data| + 63 < HALF
      modifies this, state, buffer
      ensures Valid() && message == old(message) + data
    {
      var j := Count(|data|);
      if j + |data| > 63 {
        Absorb(data, j);
      } else {
        TailGrows(message, data);
        KeepRest(data, 0, j);
        TailIs(message, data, j);
      }
      message := message + data;
    }

    /** The bytes 0x80, 0, 0, ... until eight bytes are left of a block. */
    method Pad()
      requires Valid()
      modifies this, state, buffer
      ensures Valid() && message == Marked(old(message), Zeros(|old(message)|))
    {
      ghost var m := message;
      MarkedStart(m);
      SHA1Update([0x80]);
      ghost var k := 0;
      var ready := EightLeft();
      while !ready
        invariant Valid() && k <= Zeros(|m|) && message == Marked(m, k)
        invariant ready <==> |message| % 64 == 56
        decreases Zeros(|m|) - k
      {
        FewerZeros(m, k);
        PadZero(m, k);
        k := k + 1;
        ready := EightLeft();
      }
      ZerosDone(m, k);
    }

    method PadZero(ghost m: seq<bv8>, ghost k: nat)
      requires Valid() && message == Marked(m, k)
      modifies this, state, buffer
      ensures Valid() && message == Marked(m, k + 1)
    {
      MarkedNext(m, k);
      SHA1Update([0]);
    }

    /** (count[0] & 504) == 448: all but eight bytes of the block are filled. */
    method EightLeft() returns (b: bool)
      requires Valid()
      ensures b <==> |message| % 64 == 56
    {
      b := count0 / 8 % 64 * 8 == 448;
      LowBits(count0, count1, |message|, 8 * |message| / (HALF * HALF));
    }

    /** The bit count as eight bytes, the upper half first. */
    method FinalCount() returns (finalcount: seq<bv8>)
      requires CountIs(count0, count1, |message|)
      ensures finalcount == LengthBytes(|message|)
    {
      var count: seq<nat> := [];
      var i := 0;
      while i < 8
        invariant i <= 8 && |count| == i
        invariant forall k :: 0 <= k < i ==> count[k] == CountByte(count0, count1, k)
      {
        count := count + [CountByte(count0, count1, i)];
        i := i + 1;
      }
      CountBytes(count0, count1, count);
      finalcount := Bytes(count);
    }

    /** SHA1Final: the digest of the padded message. The context is wiped. */
    method SHA1Final(digest: array<bv8>)
      requires Valid() && digest.Length >= 20 && digest != buffer
      modifies this, state, buffer, digest
      ensures digest[..20] == Sha1(old(message)) && forall i :: 20 <= i < digest.Length ==> digest[i] == old(digest[i])
      ensures count0 == count1 == 0 && (forall i :: 0 <= i < 5 ==> state[i] == 0) && forall i :: 0 <= i < 64 ==> buffer[i] == 0
    {
      ghost var m := message;
      var finalcount := FinalCount();
      Pad();
      SHA1Update(finalcount);
      PaddedLength(m);
      AllWhole(message);
      WriteDigest(digest);
      count0, count1 := 0, 0;
      forall i | 0 <= i < 5 { state[i] := 0; }
      forall i | 0 <= i < 64 { buffer[i] := 0; }
    }

    /** state[i >> 2] >> ((3 - (i & 3)) * 8), the low byte. */
    method StateByte(i: nat) returns (b: bv8)
      requires Shaped() && i < 20
      ensures b == Digest(WordsOf(state))[i]
    {
      b := ByteOf(state[i / 4], i % 4);
      DigestAt(WordsOf(state), i);
    }

    method WriteDigest(digest: array<bv8>)
      requires Shaped() && digest.Length >= 20
      modifies digest
      ensures digest[..20] == Digest(WordsOf(state)) && forall i :: 20 <= i < digest.Length ==> digest[i] == old(digest[i])
    {
      ghost var h := WordsOf(state);
      var i := 0;
      while i < 20
        invariant 0 <= i <= 20 && WordsOf(state) == h
        invariant forall k :: 0 <= k < i ==> digest[k] == Digest(h)[k]
        invariant forall k :: 20 <= k < digest.Length ==> digest[k] == old(digest[k])
      {
        var b := StateByte(i);
        digest[i] := b;
        i := i + 1;
      }
      assert digest[..20] == Digest(h);
    }
  }

  /** SHA1: byte after byte, and then the digest with a NUL behind it. */
  method SHA1(hash_out: array<bv8>, str: seq<bv8>)
    requires |str| < 0x8000_0000 && hash_out.Length >= 21
    modifies hash_out
    ensures hash_out[..20] == Sha1(str) && hash_out[20] == 0
  {
    var ctx := new Context();
    var ii := 0;
    while ii < |str|
      invariant ii <= |str| && ctx.Valid() && ctx.message == str[..ii]
      invariant fresh(ctx) && fresh(ctx.state) && fresh(ctx.buffer)
    {
      PrefixNext(str, ii);
      ctx.SHA1Update([str[ii]]);
      ii := ii + 1;
    }
    assert str[..ii] == str;
    ctx.SHA1Final(hash_out);
    hash_out[20] := 0;
  }

  /** Two contexts with the same bytes behind them, however they were split into updates,
      agree in state, bit count, and the live part of the buffer. */
  lemma SplitDoesNotMatter(c: Context, d: Context)
    requires c.Valid() && d.Valid() && c.message == d.message
    ensures c.state[..] == d.state[..] && c.count0 == d.count0 && c.count1 == d.count1
    ensures c.buffer[..|c.message| % 64] == d.buffer[..|c.message| % 64]
  {
    assert WordsOf(c.state) == WordsOf(d.state);
    HalvesUnique(c.count0, c.count1, d.count0, d.count1);
  }

  lemma HalvesUnique(a0: nat, a1: nat, b0: nat, b1: nat)
    requires a0 < HALF && b0 < HALF && a0 + HALF * a1 == b0 + HALF * b1
    ensures a0 == b0 && a1 == b1
  {
  }

  lemma MarkedStart(m: seq<bv8>)
    ensures m + [0x80] == Marked(m, 0)
  {
    assert seq(0, _ => 0 as bv8) == [];
  }

  lemma MarkedNext(m: seq<bv8>, k: nat)
    ensures Marked(m, k) + [0] == Marked(m, k + 1)
  {
    Repeated(m + [0x80], 0, k);
  }

  lemma Repeated<B>(s: seq<B>, b: B, k: nat)
    ensures s + seq(k, _ => b) + [b] == s + seq(k + 1, _ => b)
  {
  }

  lemma FewerZeros(m: seq<bv8>, k: nat)
    requires k <= Zeros(|m|) && |Marked(m, k)| % 64 != 56
    ensures k < Zeros(|m|)
  {
  }

  lemma ZerosDone(m: seq<bv8>, k: nat)
    requires k <= Zeros(|m|) && |Marked(m, k)| % 64 == 56
    ensures k == Zeros(|m|)
  {
    ZerosAreFewest(|m|, k);
  }

  lemma AllWhole<B>(p: seq<B>)
    requires |p| % 64 == 0
    ensures Whole(p) == p
  {
  }

  lemma PaddedLength(m: seq<bv8>)
    ensures |Padded(m)| % 64 == 0
  {
    WholeBlocks(|m|);
  }

  lemma WholeBlocks(length: nat)
    ensures (length + 1 + Zeros(length) + 8) % 64 == 0
  {
  }

  lemma PrefixNext<B>(s: seq<B>, i: nat)
    requires i < |s|
    ensures s[..i] + [s[i]] == s[..i + 1]
  {
  }

  lemma DigestAt(h: Words, i: nat)
    requires i < 20
    ensures Digest(h)[i] == ByteOf(if i < 4 then h.a else if i < 8 then h.b else if i < 12 then h.c else if i < 16 then h.d else h.e, i % 4)
  {
    FiveFours(WordBytes(h.a), WordBytes(h.b), WordBytes(h.c), WordBytes(h.d), WordBytes(h.e), i);
    var w := if i < 4 then h.a else if i < 8 then h.b else if i < 12 then h.c else if i < 16 then h.d else h.e;
    WordBytesAt(w, i % 4);
  }

  lemma WordBytesAt(w: bv32, i: nat)
    requires i < 4
    ensures WordBytes(w)[i] == ByteOf(w, i)
  {
    Four(ByteOf(w, 0), ByteOf(w, 1), ByteOf(w, 2), ByteOf(w, 3), i);
  }

  lemma Four<B>(a: B, b: B, c: B, d: B, i: nat)
    requires i < 4
    ensures [a, b, c, d][i] == if i == 0 then a else if i == 1 then b else if i == 2 then c else d
  {
  }

  lemma FiveFours<B>(a: seq<B>, b: seq<B>, c: seq<B>, d: seq<B>, e: seq<B>, i: nat)
    requires |a| == |b| == |c| == |d| == |e| == 4 && i < 20
    ensures (a + b + c + d + e)[i] == (if i < 4 then a else if i < 8 then b else if i < 12 then c else if i < 16 then d else e)[i % 4]
  {
  }

  /** count >> ((3 - k) * 8), the low byte. */
  function WordByte(count: nat, k: nat): (b: nat)
    ensures b < 0x100
  {
    (if k == 0 then count / 0x100_0000 else if k == 1 then count / 0x1_0000 else if k == 2 then count / 0x100 else count) % 0x100
  }

  function CountByte(count0: nat, count1: nat, i: nat): (b: nat)
    ensures b < 0x100
  {
    WordByte(if i >= 4 then count0 else count1, i % 4)
  }

  lemma CountBytes(count0: nat, count1: nat, b: seq<nat>)
    requires count0 < HALF && count1 < HALF
    requires |b| == 8 && forall k :: 0 <= k < 8 ==> b[k] == CountByte(count0, count1, k)
    ensures b == Digits(count0 + HALF * count1, 8)
  {
    var upper, lower := WordDigits(count1), WordDigits(count0);
    FourDigits(count1, 0, 0);
    assert Digits(0, 0) + upper == upper;
    FourDigits(count0, count1, 4);
    forall k | 0 <= k < 4 ensures b[k] == upper[k] && b[4 + k] == lower[k] {
      CountByteDigits(count0, count1, k);
    }
    Joined(b, upper, lower);
  }

  /** The four bytes of a word, the most significant first. */
  function WordDigits(c: nat): (d: seq<nat>)
    ensures |d| == 4
  {
    [WordByte(c, 0), WordByte(c, 1), WordByte(c, 2), WordByte(c, 3)]
  }

  lemma CountByteDigits(count0: nat, count1: nat, k: nat)
    requires k < 4
    ensures CountByte(count0, count1, k) == WordDigits(count1)[k] && CountByte(count0, count1, 4 + k) == WordDigits(count0)[k]
  {
  }

  lemma Joined<T>(b: seq<T>, upper: seq<T>, lower: seq<T>)
    requires |b| == 8 && |upper| == |lower| == 4
    requires forall k :: 0 <= k < 4 ==> b[k] == upper[k] && b[4 + k] == lower[k]
    ensures b == upper + lower
  {
  }

  lemma OneDigit(x: nat, q: nat, r: nat, n: nat)
    requires x == 0x100 * q + r && r < 0x100
    ensures Digits(x, n + 1) == Digits(q, n) + [r]
  {
  }

  /** Four digits at a time. */
  lemma FourDigits(c: nat, rest: nat, n: nat)
    requires c < HALF
    ensures Digits(c + HALF * rest, n + 4) == Digits(rest, n) + WordDigits(c)
  {
    var q1, q2, q3 := c / 0x100, c / 0x1_0000, c / 0x100_0000;
    Quotients(c);
    OneDigit(q3 + 0x100 * rest, rest, WordByte(c, 0), n);
    OneDigit(q2 + 0x1_0000 * rest, q3 + 0x100 * rest, WordByte(c, 1), n + 1);
    OneDigit(q1 + 0x100_0000 * rest, q2 + 0x1_0000 * rest, WordByte(c, 2), n + 2);
    OneDigit(c + HALF * rest, q1 + 0x100_0000 * rest, WordByte(c, 3), n + 3);
    Appended(Digits(rest, n), WordByte(c, 0), WordByte(c, 1), WordByte(c, 2), WordByte(c, 3));
  }

  lemma Appended<T>(s: seq<T>, a: T, b: T, c: T, d: T)
    ensures s + [a] + [b] + [c] + [d] == s + [a, b, c, d]
  {
  }

  lemma Quotients(c: nat)
    requires c < HALF
    ensures c == 0x100 * (c / 0x100) + WordByte(c, 3) && c / 0x100 == 0x100 * (c / 0x1_0000) + WordByte(c, 2)
    ensures c / 0x1_0000 == 0x100 * (c / 0x100_0000) + WordByte(c, 1) && c / 0x100_0000 == WordByte(c, 0)
  {
  }

  lemma TailIs<B>(before: seq<B>, data: seq<B>, j: nat)
    requires j == |before| % 64 && j + |data| < 64
    ensures |before + data| % 64 == j + |data|
    ensures (before + data)[|before + data| - j - |data|..] == before[|before| - j..] + data[0..]
  {
  }

  lemma BufferAppended<B>(before: seq<B>, data: seq<B>, j: nat)
    requires j == |before| % 64 && j + |data| > 63
    ensures before + data[..64 - j] == Whole(before) + (before[|before| - j..] + data[..64 - j])
    ensures |Whole(before)| % 64 == 0 && (|before| + 64 - j) % 64 == 0
  {
  }

  lemma BlockAppended<B>(before: seq<B>, data: seq<B>, i: nat)
    requires i + 64 <= |data|
    ensures before + data[..i + 64] == (before + data[..i]) + data[i..i + 64]
  {
  }

  /** Data that does not fill the block only adds to the tail. */
  lemma TailGrows<B>(before: seq<B>, data: seq<B>)
    requires |before| % 64 + |data| < 64
    ensures |before + data| % 64 == |before| % 64 + |data| && Whole(before + data) == Whole(before)
  {
    var n := |before| - |before| % 64;
    assert (before + data)[..n] == before[..n];
  }

  /** With whole blocks up to i, the tail is the rest of the data. */
  lemma RestIsTail<B>(before: seq<B>, data: seq<B>, i: nat)
    requires i <= |data| && |data| - i < 64 && (|before| + i) % 64 == 0
    ensures |before + data| % 64 == |data| - i && Whole(before + data) == before + data[..i]
    ensures (before + data)[|before + data| - |before + data| % 64..] == data[i..]
  {
  }

  ghost predicate CountIs(count0: nat, count1: nat, length: nat) {
    count0 < HALF && count1 < HALF && count0 + HALF * count1 == 8 * length % (HALF * HALF)
  }

  /** Carries included, the two halves add up modulo 2^64. */
  lemma CountsUp(count0: nat, count1: nat, was: nat, length: nat)
    requires CountIs(count0, count1, was) && length < HALF
    ensures var c0 := (count0 + 8 * length % HALF) % HALF;
      var c1 := if c0 < count0 then (count1 + 1) % HALF else count1;
      CountIs(c0, (c1 + length / 0x2000_0000) % HALF, was + length)
    ensures count0 / 8 % 64 == was % 64
  {
    var q, r := length / 0x2000_0000, 8 * (length % 0x2000_0000);
    assert 8 * length == HALF * q + r;
    Modulus(8 * length, HALF, q, r);
    var c0 := (count0 + r) % HALF;
    var carry := if c0 < count0 then 1 else 0;
    assert count0 + r == c0 + HALF * carry;
    var v, c1 := (count1 + carry + q) / HALF, (count1 + carry + q) % HALF;
    CarryKept(count1, carry, q);
    var u := 8 * was / (HALF * HALF);
    assert 8 * (was + length) == c0 + HALF * c1 + HALF * HALF * (u + v);
    Modulus(8 * (was + length), HALF * HALF, u + v, c0 + HALF * c1);
    LowBits(count0, count1, was, u);
  }

  lemma Modulus(x: int, m: nat, k: int, r: nat)
    requires m > 0 && x == m * k + r && r < m
    ensures x % m == r
  {
    Multiples(m, k - x / m);
    assert m * (k - x / m) == x % m - r;
  }

  lemma Multiples(m: nat, d: int)
    ensures d >= 1 ==> m * d >= m
    ensures d <= -1 ==> m * d + m <= 0
  {
    if d >= 1 {
      assert m * d == m + m * (d - 1);
    } else if d <= -1 {
      assert m * d == m * (d + 1) - m;
    }
  }

  lemma CarryKept(count1: nat, carry: nat, q: nat)
    requires count1 < HALF && carry <= 1
    ensures ((if carry == 1 then (count1 + 1) % HALF else count1) + q) % HALF == (count1 + carry + q) % HALF
  {
    if carry == 1 && count1 + 1 == HALF {
      Modulus(HALF + q, HALF, 1 + q / HALF, q % HALF);
    }
  }

  lemma LowBits(count0: nat, count1: nat, was: nat, u: nat)
    requires count0 < HALF && 8 * was == count0 + HALF * count1 + HALF * HALF * u
    ensures count0 / 8 % 64 == was % 64
  {
    var w := 0x2000_0000 * count1 + 0x2000_0000 * HALF * u;
    assert count0 == 8 * (was - w);
    assert count0 / 8 == was - w && w == 64 * (0x80_0000 * count1 + 0x80_0000 * HALF * u);
    Modulus(was - w, 64, (was - w) / 64, (was - w) % 64);
    Modulus(was, 64, (was - w) / 64 + 0x80_0000 * count1 + 0x80_0000 * HALF * u, (was - w) % 64);
  }
}
