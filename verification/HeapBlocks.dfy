/** The pools of heap_4.c seen from above: one pool is a sequence of blocks that
    tiles its region, and malloc and free are functions on that sequence.
    Heap4.dfy proves that the pointer code computes exactly these functions.

    Sizes and addresses are 32-bit words, held here in ints. */
module HeapBlocks {

  const HEAP_STRUCT_SIZE := 8
  const HEAP_MINIMUM_BLOCK_SIZE := 2 * HEAP_STRUCT_SIZE
  const BYTE_ALIGNMENT := 4
  const ALLOCATED_BIT := 0x8000_0000
  const ADDRESS_LIMIT := 0x1_0000_0000

  datatype Block = Block(addr: int, size: int, free: bool)

  datatype PoolState = PoolState(blocks: seq<Block>, freeBytes: int, minEver: int)

  // ----- shape of a pool -----

  ghost function Total(bs: seq<Block>): int {
    if bs == [] then 0 else bs[0].size + Total(bs[1..])
  }

  ghost function FreeSum(bs: seq<Block>): int {
    if bs == [] then 0 else (if bs[0].free then bs[0].size else 0) + FreeSum(bs[1..])
  }

  /** The blocks cover [lo, hi) in address order, without gap or overlap, and every
      block is word aligned and has room for its own header. */
  ghost predicate Tiles(bs: seq<Block>, lo: int, hi: int) {
    if bs == [] then lo == hi
    else
      && bs[0].addr == lo
      && bs[0].size >= HEAP_STRUCT_SIZE
      && bs[0].size % BYTE_ALIGNMENT == 0
      && Tiles(bs[1..], lo + bs[0].size, hi)
  }

  ghost predicate NoTouchingFree(bs: seq<Block>) {
    forall i, j :: 0 <= i && j == i + 1 < |bs| ==> !bs[i].free || !bs[j].free
  }

  ghost predicate Inv(s: PoolState, lo: int, hi: int) {
    && Tiles(s.blocks, lo, hi)
    && NoTouchingFree(s.blocks)
    && s.freeBytes == FreeSum(s.blocks)
    && 0 <= s.minEver <= s.freeBytes
  }

  ghost function FreeOf(bs: seq<Block>): seq<Block> {
    if bs == [] then []
    else if bs[0].free then [bs[0]] + FreeOf(bs[1..])
    else FreeOf(bs[1..])
  }

  ghost function UsedSet(bs: seq<Block>): set<Block> {
    set b | b in bs && !b.free
  }

  /** What prvHeapInit sets up. */
  ghost function InitState(lo: int, hi: int): PoolState {
    PoolState([Block(lo, hi - lo, true)], hi - lo, hi - lo)
  }

  // ----- malloc and free on blocks -----

  ghost function RoundUp(n: int): int {
    (n + BYTE_ALIGNMENT - 1) / BYTE_ALIGNMENT * BYTE_ALIGNMENT
  }

  /** The size of the block that serves a request of n bytes. */
  ghost function BlockSizeFor(n: int): int {
    RoundUp(n + HEAP_STRUCT_SIZE)
  }

  ghost predicate Fits(b: Block, want: int) {
    b.free && b.size >= want
  }

  ghost function FirstFit(bs: seq<Block>, want: int): (k: nat)
    ensures k <= |bs|
    ensures forall i :: 0 <= i < k ==> !Fits(bs[i], want)
    ensures k < |bs| ==> Fits(bs[k], want)
  {
    if bs == [] then 0
    else if Fits(bs[0], want) then 0
    else 1 + FirstFit(bs[1..], want)
  }

  /** The whole block, or its first `want` bytes and a free remainder. */
  ghost function Carve(b: Block, want: int): seq<Block> {
    if b.size - want > HEAP_MINIMUM_BLOCK_SIZE
    then [Block(b.addr, want, false), Block(b.addr + want, b.size - want, true)]
    else [b.(free := false)]
  }

  ghost predicate Served(s: PoolState, n: int) {
    0 < n < ALLOCATED_BIT && FirstFit(s.blocks, BlockSizeFor(n)) < |s.blocks|
  }

  /** The first fitting block carved, and the counters. */
  ghost function Taken(s: PoolState, want: int): PoolState
    requires FirstFit(s.blocks, want) < |s.blocks|
  {
    var k := FirstFit(s.blocks, want);
    var taken := Carve(s.blocks[k], want);
    var left := s.freeBytes - taken[0].size;
    PoolState(s.blocks[..k] + taken + s.blocks[k + 1..], left,
              if left < s.minEver then left else s.minEver)
  }

  ghost function Malloc(s: PoolState, n: int): PoolState {
    if Served(s, n) then Taken(s, BlockSizeFor(n)) else s
  }

  /** The pointer handed out: NULL, or the first byte after the header. */
  ghost function MallocPtr(s: PoolState, n: int): int {
    if !Served(s, n) then 0
    else s.blocks[FirstFit(s.blocks, BlockSizeFor(n))].addr + HEAP_STRUCT_SIZE
  }

  ghost predicate IsLive(s: PoolState, ptr: int) {
    exists k :: 0 <= k < |s.blocks| && UsedAt(s.blocks, k, ptr)
  }

  ghost predicate UsedAt(bs: seq<Block>, k: int, ptr: int)
    requires 0 <= k < |bs|
  {
    !bs[k].free && bs[k].addr + HEAP_STRUCT_SIZE == ptr
  }

  ghost predicate EndsFree(bs: seq<Block>) {
    bs != [] && bs[|bs| - 1].free
  }

  ghost predicate StartsFree(bs: seq<Block>) {
    bs != [] && bs[0].free
  }

  /** What stays of the blocks before a released block, once a free last one is joined to it. */
  ghost function LeftRest(pre: seq<Block>): seq<Block> {
    if EndsFree(pre) then pre[..|pre| - 1] else pre
  }

  ghost function RightRest(post: seq<Block>): seq<Block> {
    if StartsFree(post) then post[1..] else post
  }

  ghost function Merged(pre: seq<Block>, u: Block, post: seq<Block>): Block {
    Block(if EndsFree(pre) then pre[|pre| - 1].addr else u.addr,
          (if EndsFree(pre) then pre[|pre| - 1].size else 0) + u.size + (if StartsFree(post) then post[0].size else 0),
          true)
  }

  /** Release the block u between pre and post, joining it with free neighbours. */
  ghost function Release(pre: seq<Block>, u: Block, post: seq<Block>): seq<Block> {
    LeftRest(pre) + [Merged(pre, u, post)] + RightRest(post)
  }

  ghost function FreeAt(s: PoolState, k: nat): PoolState
    requires k < |s.blocks|
  {
    PoolState(Release(s.blocks[..k], s.blocks[k], s.blocks[k + 1..]),
              s.freeBytes + s.blocks[k].size, s.minEver)
  }

  ghost function Free(s: PoolState, ptr: int): PoolState
    requires ptr != 0 ==> IsLive(s, ptr)
  {
    if ptr == 0 then s
    else
      var k :| 0 <= k < |s.blocks| && UsedAt(s.blocks, k, ptr);
      FreeAt(s, k)
  }

  // ----- sequences of blocks -----

  lemma {:induction false} SumsAppend(a: seq<Block>, b: seq<Block>)
    ensures Total(a + b) == Total(a) + Total(b)
    ensures FreeSum(a + b) == FreeSum(a) + FreeSum(b)
    ensures FreeOf(a + b) == FreeOf(a) + FreeOf(b)
  {
    if a == [] {
      assert a + b == b;
    } else {
      assert (a + b)[1..] == a[1..] + b;
      SumsAppend(a[1..], b);
    }
  }

  lemma {:induction false} TilesAppend(a: seq<Block>, b: seq<Block>, lo: int, mid: int, hi: int)
    requires Tiles(a, lo, mid) && Tiles(b, mid, hi)
    ensures Tiles(a + b, lo, hi)
  {
    if a == [] {
      assert a + b == b;
    } else {
      assert (a + b)[1..] == a[1..] + b;
      TilesAppend(a[1..], b, lo + a[0].size, mid, hi);
    }
  }

  lemma {:induction false} TilesSplit(bs: seq<Block>, lo: int, hi: int, k: nat)
    requires Tiles(bs, lo, hi) && k < |bs|
    ensures Tiles(bs[..k], lo, bs[k].addr)
    ensures Tiles(bs[k + 1..], bs[k].addr + bs[k].size, hi)
    ensures bs[k].size >= HEAP_STRUCT_SIZE && bs[k].size % BYTE_ALIGNMENT == 0
  {
    if k > 0 {
      var t := bs[1..];
      TilesSplit(t, lo + bs[0].size, hi, k - 1);
      assert bs[..k][1..] == t[..k - 1];
      assert bs[k + 1..] == t[k..];
    }
  }

  lemma {:induction false} TilesTotal(bs: seq<Block>, lo: int, hi: int)
    requires Tiles(bs, lo, hi)
    ensures hi == lo + Total(bs)
    ensures 0 <= FreeSum(bs) <= Total(bs)
  {
    if bs != [] {
      TilesTotal(bs[1..], lo + bs[0].size, hi);
    }
  }

  lemma {:induction false} TilesBounds(bs: seq<Block>, lo: int, hi: int)
    requires Tiles(bs, lo, hi)
    ensures lo <= hi
    ensures forall i :: 0 <= i < |bs| ==>
      lo <= bs[i].addr && bs[i].size >= HEAP_STRUCT_SIZE && bs[i].addr + bs[i].size <= hi
      && bs[i].size % BYTE_ALIGNMENT == 0 && (bs[i].addr - lo) % BYTE_ALIGNMENT == 0
    ensures forall i, j :: 0 <= i < j < |bs| ==> bs[i].addr + bs[i].size <= bs[j].addr
  {
    if bs != [] {
      var t := bs[1..];
      TilesBounds(t, lo + bs[0].size, hi);
      forall i | 0 <= i < |bs|
        ensures lo <= bs[i].addr && bs[i].size >= HEAP_STRUCT_SIZE && bs[i].addr + bs[i].size <= hi
        ensures bs[i].size % BYTE_ALIGNMENT == 0 && (bs[i].addr - lo) % BYTE_ALIGNMENT == 0
      {
        if i > 0 { assert bs[i] == t[i - 1]; }
      }
      forall i, j | 0 <= i < j < |bs| ensures bs[i].addr + bs[i].size <= bs[j].addr {
        assert bs[j] == t[j - 1];
        if i > 0 { assert bs[i] == t[i - 1]; }
      }
    }
  }

  lemma {:induction false} FreeFitsSum(bs: seq<Block>, lo: int, hi: int, k: nat)
    requires Tiles(bs, lo, hi) && k < |bs| && bs[k].free
    ensures bs[k].size <= FreeSum(bs)
  {
    if k == 0 {
      TilesTotal(bs[1..], lo + bs[0].size, hi);
    } else {
      FreeFitsSum(bs[1..], lo + bs[0].size, hi, k - 1);
    }
  }

  /** A tiling cut around its block k. */
  lemma Around(bs: seq<Block>, lo: int, hi: int, k: nat)
    requires Tiles(bs, lo, hi) && k < |bs|
    ensures Tiles(bs[..k], lo, bs[k].addr)
    ensures Tiles(bs[k + 1..], bs[k].addr + bs[k].size, hi)
    ensures bs[k].size >= HEAP_STRUCT_SIZE && bs[k].size % BYTE_ALIGNMENT == 0
    ensures FreeSum(bs) == FreeSum(bs[..k]) + (if bs[k].free then bs[k].size else 0) + FreeSum(bs[k + 1..])
    ensures FreeOf(bs) == FreeOf(bs[..k]) + (if bs[k].free then [bs[k]] else []) + FreeOf(bs[k + 1..])
  {
    TilesSplit(bs, lo, hi, k);
    var pre, rest := bs[..k], bs[k..];
    assert bs == pre + rest && rest[1..] == bs[k + 1..] && rest[0] == bs[k];
    SumsAppend(pre, rest);
  }

  lemma JoinTiles(pre: seq<Block>, mid: seq<Block>, post: seq<Block>, lo: int, a: int, b: int, hi: int)
    requires Tiles(pre, lo, a) && Tiles(mid, a, b) && Tiles(post, b, hi)
    ensures Tiles(pre + mid + post, lo, hi)
  {
    TilesAppend(pre, mid, lo, a, b);
    TilesAppend(pre + mid, post, lo, b, hi);
  }

  lemma JoinSums(pre: seq<Block>, mid: seq<Block>, post: seq<Block>)
    ensures FreeSum(pre + mid + post) == FreeSum(pre) + FreeSum(mid) + FreeSum(post)
    ensures FreeOf(pre + mid + post) == FreeOf(pre) + FreeOf(mid) + FreeOf(post)
  {
    SumsAppend(pre, mid);
    SumsAppend(pre + mid, post);
  }

  lemma AtCut(bs: seq<Block>, k: nat)
    requires k < |bs|
    ensures bs == bs[..k] + [bs[k]] + bs[k + 1..]
  {
  }

  lemma UsedAround(bs: seq<Block>, k: nat)
    requires k < |bs|
    ensures UsedSet(bs) == UsedSet(bs[..k]) + UsedSet([bs[k]]) + UsedSet(bs[k + 1..])
  {
    AtCut(bs, k);
    UsedAppend(bs[..k], [bs[k]]);
    UsedAppend(bs[..k] + [bs[k]], bs[k + 1..]);
  }

  lemma UsedAppend(a: seq<Block>, b: seq<Block>)
    ensures UsedSet(a + b) == UsedSet(a) + UsedSet(b)
  {
  }

  lemma Neighbours(bs: seq<Block>, k: nat)
    requires NoTouchingFree(bs) && k < |bs| && bs[k].free
    ensures !EndsFree(bs[..k]) && !StartsFree(bs[k + 1..])
  {
  }

  // ----- malloc -----

  lemma RoundUpFacts(n: int)
    requires n > 0
    ensures n <= RoundUp(n) < n + BYTE_ALIGNMENT && RoundUp(n) % BYTE_ALIGNMENT == 0
  {
  }

  lemma CarveTiles(b: Block, want: int)
    requires b.size >= want >= HEAP_STRUCT_SIZE
    requires want % BYTE_ALIGNMENT == 0 && b.size % BYTE_ALIGNMENT == 0
    ensures Tiles(Carve(b, want), b.addr, b.addr + b.size)
    ensures FreeSum(Carve(b, want)) == b.size - Carve(b, want)[0].size
    ensures want <= Carve(b, want)[0].size <= want + HEAP_MINIMUM_BLOCK_SIZE
  {
    var c := Carve(b, want);
    if |c| == 2 {
      assert c[1..] == [c[1]];
      assert Tiles(c[1..], b.addr + want, b.addr + b.size);
      assert FreeSum(c[1..]) == b.size - want;
    }
  }

  lemma TakenKeepsInv(s: PoolState, lo: int, hi: int, want: int)
    requires Inv(s, lo, hi) && FirstFit(s.blocks, want) < |s.blocks|
    requires want >= HEAP_STRUCT_SIZE && want % BYTE_ALIGNMENT == 0
    ensures Inv(Taken(s, want), lo, hi)
  {
    var k := FirstFit(s.blocks, want);
    var b := s.blocks[k];
    Around(s.blocks, lo, hi, k);
    CarveTiles(b, want);
    JoinTiles(s.blocks[..k], Carve(b, want), s.blocks[k + 1..], lo, b.addr, b.addr + b.size, hi);
    JoinSums(s.blocks[..k], Carve(b, want), s.blocks[k + 1..]);
    TilesTotal(Taken(s, want).blocks, lo, hi);
  }

  /** malloc keeps the pool invariant. */
  lemma MallocKeepsInv(s: PoolState, lo: int, hi: int, n: int)
    requires Inv(s, lo, hi)
    ensures Inv(Malloc(s, n), lo, hi)
  {
    if Served(s, n) {
      RoundUpFacts(n + HEAP_STRUCT_SIZE);
      TakenKeepsInv(s, lo, hi, BlockSizeFor(n));
    }
  }

  /** For 0 < n < 2^31 malloc fails exactly when no free block fits, and then nothing
      changes; otherwise it takes the fitting block with the lowest address. */
  lemma MallocServesLowestFit(s: PoolState, lo: int, hi: int, n: int)
    requires Inv(s, lo, hi) && 0 < n < ALLOCATED_BIT && lo > 0
    ensures MallocPtr(s, n) == 0 <==> forall b <- s.blocks :: b.free ==> b.size < BlockSizeFor(n)
    ensures MallocPtr(s, n) == 0 ==> Malloc(s, n) == s
    ensures MallocPtr(s, n) != 0 ==>
      exists b <- s.blocks ::
        && Fits(b, BlockSizeFor(n))
        && MallocPtr(s, n) == b.addr + HEAP_STRUCT_SIZE
        && (forall c <- s.blocks :: Fits(c, BlockSizeFor(n)) ==> b.addr <= c.addr)
  {
    var want := BlockSizeFor(n);
    var k := FirstFit(s.blocks, want);
    TilesBounds(s.blocks, lo, hi);
    if k < |s.blocks| {
      assert s.blocks[k] in s.blocks;
      forall c | c in s.blocks && Fits(c, want) ensures s.blocks[k].addr <= c.addr {
        var i :| 0 <= i < |s.blocks| && s.blocks[i] == c;
      }
    }
  }

  /** A size in bytes: of the multiples of 4, the first that is large enough. */
  lemma RoundedIsNextMultiple(n: int, size: int)
    requires n > 0 && size % 4 == 0
    ensures size < BlockSizeFor(n) <==> size < n + 8
    ensures n + 8 <= BlockSizeFor(n) < n + 12 && BlockSizeFor(n) % 4 == 0
  {
    RoundUpFacts(n + HEAP_STRUCT_SIZE);
  }

  lemma {:induction false} SizesAligned(bs: seq<Block>, lo: int, hi: int)
    requires Tiles(bs, lo, hi)
    ensures forall b <- bs :: b.size % 4 == 0
    decreases |bs|
  {
    if bs != [] {
      SizesAligned(bs[1..], lo + bs[0].size, hi);
      forall b | b in bs ensures b.size % 4 == 0 {
        assert b == bs[0] || b in bs[1..];
      }
    }
  }

  /** The answer to a request of n bytes: NULL exactly if every free block is smaller than
      the bytes and a header of 8, else the first byte behind the header of the lowest free
      block that is not. */
  lemma MallocInBytes(s: PoolState, lo: int, hi: int, n: int)
    requires Inv(s, lo, hi) && 0 < n < 0x8000_0000 && lo > 0
    ensures MallocPtr(s, n) == 0 <==> forall b <- s.blocks :: b.free ==> b.size < n + 8
    ensures MallocPtr(s, n) != 0 ==>
      exists b <- s.blocks ::
        && b.free && b.size >= n + 8 && MallocPtr(s, n) == b.addr + 8
        && (forall c <- s.blocks :: c.free && c.size >= n + 8 ==> b.addr <= c.addr)
  {
    MallocServesLowestFit(s, lo, hi, n);
    SizesAligned(s.blocks, lo, hi);
    forall b | b in s.blocks ensures b.size < BlockSizeFor(n) <==> b.size < n + 8 {
      RoundedIsNextMultiple(n, b.size);
    }
  }

  /** What becomes of the block that serves a request: with r the first multiple of 4 from
      n + 8 on, its first r bytes are allocated and the rest is free if the rest is more
      than 16 bytes; else it is allocated as a whole. */
  lemma SplitInBytes(s: PoolState, lo: int, hi: int, n: int, b: Block) returns (r: int)
    requires Inv(s, lo, hi) && MallocPtr(s, n) != 0
    requires b in s.blocks && b.free && MallocPtr(s, n) == b.addr + 8
    ensures n + 8 <= r < n + 12 && r % 4 == 0 && r <= b.size
    ensures var after := Malloc(s, n).blocks;
      if b.size - r > 16 then Block(b.addr, r, false) in after && Block(b.addr + r, b.size - r, true) in after
      else Block(b.addr, b.size, false) in after
    ensures exists u <- Malloc(s, n).blocks ::
      u.addr + 8 == MallocPtr(s, n) && !u.free && n + 8 <= u.size < n + 8 + 4 + 16 + 1 && u.size % 4 == 0
  {
    r := BlockSizeFor(n);
    SizesAligned(s.blocks, lo, hi);
    var k := FirstFit(s.blocks, r);
    RoundedIsNextMultiple(n, 0);
    TilesBounds(s.blocks, lo, hi);
    SameAddress(s.blocks, lo, hi, k, b);
    var c := Carve(b, r);
    assert forall x <- c :: x in Malloc(s, n).blocks;
    assert c[0] in c && (|c| == 2 ==> c[1] in c);
  }

  lemma SameAddress(bs: seq<Block>, lo: int, hi: int, k: nat, b: Block)
    requires Tiles(bs, lo, hi) && k < |bs| && b in bs && b.addr == bs[k].addr
    ensures b == bs[k]
  {
    var i :| 0 <= i < |bs| && bs[i] == b;
    if i < k {
      AddrOrder(bs, lo, hi, i, k);
    } else if k < i {
      AddrOrder(bs, lo, hi, k, i);
    }
  }

  /** The live blocks after malloc are the live blocks before, and the new one. */
  lemma MallocAddsOneLiveBlock(s: PoolState, n: int)
    requires Served(s, n)
    ensures var k := FirstFit(s.blocks, BlockSizeFor(n));
      UsedSet(Malloc(s, n).blocks) == UsedSet(s.blocks) + {Carve(s.blocks[k], BlockSizeFor(n))[0]}
  {
    var k := FirstFit(s.blocks, BlockSizeFor(n));
    var pre, b, post := s.blocks[..k], s.blocks[k], s.blocks[k + 1..];
    var c := Carve(b, BlockSizeFor(n));
    UsedAppend(pre, c);
    UsedAppend(pre + c, post);
    UsedAround(s.blocks, k);
    assert UsedSet([b]) == {};
    assert UsedSet(c) == {c[0]};
  }

  /** The block handed out is as large as the rounded request, or larger by at most the size
      of two headers: a larger rest is split off. */
  lemma MallocWastesLittle(s: PoolState, n: int)
    requires Served(s, n)
    ensures exists b <- UsedSet(Malloc(s, n).blocks) ::
      && MallocPtr(s, n) == b.addr + HEAP_STRUCT_SIZE
      && BlockSizeFor(n) <= b.size <= BlockSizeFor(n) + HEAP_MINIMUM_BLOCK_SIZE
  {
    MallocAddsOneLiveBlock(s, n);
    assert Carve(s.blocks[FirstFit(s.blocks, BlockSizeFor(n))], BlockSizeFor(n))[0] in UsedSet(Malloc(s, n).blocks);
  }

  /** The block handed out holds n bytes behind its header and overlaps no live block. */
  lemma MallocIsDisjoint(s: PoolState, lo: int, hi: int, n: int, u: Block)
    requires Inv(s, lo, hi) && Served(s, n) && u in UsedSet(s.blocks)
    ensures var k := FirstFit(s.blocks, BlockSizeFor(n));
      var b := Carve(s.blocks[k], BlockSizeFor(n))[0];
      && b.addr + HEAP_STRUCT_SIZE == MallocPtr(s, n)
      && MallocPtr(s, n) + n <= b.addr + b.size
      && (u.addr + u.size <= b.addr || b.addr + b.size <= u.addr)
  {
    RoundUpFacts(n + HEAP_STRUCT_SIZE);
    TilesBounds(s.blocks, lo, hi);
    var i :| 0 <= i < |s.blocks| && s.blocks[i] == u;
  }

  // ----- free -----

  lemma LeftRestFacts(pre: seq<Block>, lo: int, hi: int)
    requires Tiles(pre, lo, hi)
    ensures Tiles(LeftRest(pre), lo, if EndsFree(pre) then pre[|pre| - 1].addr else hi)
    ensures EndsFree(pre) ==>
      var b := pre[|pre| - 1];
      && b.addr + b.size == hi && b.size >= HEAP_STRUCT_SIZE && b.size % BYTE_ALIGNMENT == 0
      && FreeSum(pre) == FreeSum(LeftRest(pre)) + b.size
      && FreeOf(pre) == FreeOf(LeftRest(pre)) + [b]
  {
    if EndsFree(pre) {
      Around(pre, lo, hi, |pre| - 1);
      assert pre[|pre|..] == [];
    }
  }

  lemma ReleaseTiles(pre: seq<Block>, u: Block, post: seq<Block>, lo: int, hi: int)
    requires Tiles(pre, lo, u.addr) && Tiles(post, u.addr + u.size, hi)
    requires u.size >= HEAP_STRUCT_SIZE && u.size % BYTE_ALIGNMENT == 0
    ensures Tiles(Release(pre, u, post), lo, hi)
  {
    var m := Merged(pre, u, post);
    LeftRestFacts(pre, lo, u.addr);
    OneBlock(m);
    JoinTiles(LeftRest(pre), [m], RightRest(post), lo, m.addr, m.addr + m.size, hi);
  }

  lemma ReleaseSums(pre: seq<Block>, u: Block, post: seq<Block>, lo: int, hi: int)
    requires Tiles(pre, lo, hi)
    ensures FreeSum(Release(pre, u, post)) == FreeSum(pre) + u.size + FreeSum(post)
    ensures FreeOf(Release(pre, u, post)) == FreeOf(LeftRest(pre)) + [Merged(pre, u, post)] + FreeOf(RightRest(post))
  {
    var m := Merged(pre, u, post);
    LeftRestFacts(pre, lo, hi);
    JoinSums(LeftRest(pre), [m], RightRest(post));
    assert [m][1..] == [];
  }

  lemma OneBlock(m: Block)
    requires m.size >= HEAP_STRUCT_SIZE && m.size % BYTE_ALIGNMENT == 0
    ensures Tiles([m], m.addr, m.addr + m.size)
    ensures FreeSum([m]) == if m.free then m.size else 0
  {
    assert [m][1..] == [];
  }

  lemma ReleaseNoTouching(pre: seq<Block>, u: Block, post: seq<Block>)
    requires NoTouchingFree(pre) && NoTouchingFree(post)
    ensures NoTouchingFree(Release(pre, u, post))
  {
  }

  lemma FreeAtKeepsInv(s: PoolState, lo: int, hi: int, k: nat)
    requires Inv(s, lo, hi) && k < |s.blocks| && !s.blocks[k].free
    ensures Inv(FreeAt(s, k), lo, hi)
  {
    Around(s.blocks, lo, hi, k);
    ReleaseTiles(s.blocks[..k], s.blocks[k], s.blocks[k + 1..], lo, hi);
    ReleaseSums(s.blocks[..k], s.blocks[k], s.blocks[k + 1..], lo, s.blocks[k].addr);
    ReleaseNoTouching(s.blocks[..k], s.blocks[k], s.blocks[k + 1..]);
  }

  /** Freeing a live pointer keeps the pool invariant. */
  lemma FreeKeepsInv(s: PoolState, lo: int, hi: int, ptr: int)
    requires Inv(s, lo, hi) && (ptr != 0 ==> IsLive(s, ptr))
    ensures Inv(Free(s, ptr), lo, hi)
  {
    if ptr != 0 {
      var k :| 0 <= k < |s.blocks| && UsedAt(s.blocks, k, ptr) && Free(s, ptr) == FreeAt(s, k);
      FreeAtKeepsInv(s, lo, hi, k);
    }
  }

  lemma AddrOrder(bs: seq<Block>, lo: int, hi: int, i: int, j: int)
    requires Tiles(bs, lo, hi) && 0 <= i < j < |bs|
    ensures bs[i].addr < bs[j].addr
  {
    TilesBounds(bs, lo, hi);
  }

  lemma SameAddrSameBlock(bs: seq<Block>, lo: int, hi: int, i: int, j: int)
    requires Tiles(bs, lo, hi) && 0 <= i < |bs| && 0 <= j < |bs| && bs[i].addr == bs[j].addr
    ensures i == j
  {
    if i < j {
      AddrOrder(bs, lo, hi, i, j);
    } else if j < i {
      AddrOrder(bs, lo, hi, j, i);
    }
  }

  /** A pointer names at most one live block, so Free does not depend on a choice. */
  lemma FreeIsFreeAt(s: PoolState, lo: int, hi: int, ptr: int, k: nat)
    requires Inv(s, lo, hi) && ptr != 0 && k < |s.blocks| && UsedAt(s.blocks, k, ptr)
    ensures IsLive(s, ptr) && Free(s, ptr) == FreeAt(s, k)
  {
    forall j | 0 <= j < |s.blocks| && UsedAt(s.blocks, j, ptr) ensures j == k {
      SameAddrSameBlock(s.blocks, lo, hi, j, k);
    }
  }

  lemma UsedRelease(pre: seq<Block>, u: Block, post: seq<Block>)
    ensures UsedSet(Release(pre, u, post)) == UsedSet(pre) + UsedSet(post)
  {
    var m := Merged(pre, u, post);
    UsedAppend(LeftRest(pre), [m]);
    UsedAppend(LeftRest(pre) + [m], RightRest(post));
    if EndsFree(pre) {
      assert pre == LeftRest(pre) + [pre[|pre| - 1]];
      UsedAppend(LeftRest(pre), [pre[|pre| - 1]]);
    }
    if StartsFree(post) {
      assert post == [post[0]] + RightRest(post);
      UsedAppend([post[0]], RightRest(post));
    }
  }

  lemma OnlyAt(bs: seq<Block>, lo: int, hi: int, k: nat)
    requires Tiles(bs, lo, hi) && k < |bs|
    ensures bs[k] !in bs[..k] && bs[k] !in bs[k + 1..]
  {
    var pre, post := bs[..k], bs[k + 1..];
    forall i | 0 <= i < |pre| ensures pre[i] != bs[k] {
      AddrOrder(bs, lo, hi, i, k);
    }
    forall i | 0 <= i < |post| ensures post[i] != bs[k] {
      AddrOrder(bs, lo, hi, k, k + 1 + i);
    }
  }

  /** The live blocks after free are the live blocks before, without the freed one. */
  lemma FreeRemovesOneLiveBlock(s: PoolState, lo: int, hi: int, k: nat)
    requires Inv(s, lo, hi) && k < |s.blocks| && !s.blocks[k].free
    ensures UsedSet(FreeAt(s, k).blocks) == UsedSet(s.blocks) - {s.blocks[k]}
  {
    var u := s.blocks[k];
    UsedRelease(s.blocks[..k], u, s.blocks[k + 1..]);
    UsedAround(s.blocks, k);
    OneUsed(u);
    OnlyAt(s.blocks, lo, hi, k);
    NotUsed(s.blocks[..k], u);
    NotUsed(s.blocks[k + 1..], u);
    UnionWithout(UsedSet(s.blocks[..k]), u, UsedSet(s.blocks[k + 1..]));
  }

  lemma OneUsed(u: Block)
    requires !u.free
    ensures UsedSet([u]) == {u}
  {
  }

  lemma NotUsed(bs: seq<Block>, u: Block)
    requires u !in bs
    ensures u !in UsedSet(bs)
  {
  }

  lemma UnionWithout<T>(a: set<T>, x: T, b: set<T>)
    requires x !in a && x !in b
    ensures a + b == a + {x} + b - {x}
  {
  }

  // ----- malloc against free -----

  lemma Cut(pre: seq<Block>, c: seq<Block>, post: seq<Block>)
    requires c != []
    ensures (pre + c + post)[..|pre|] == pre
    ensures (pre + c + post)[|pre|] == c[0]
    ensures (pre + c + post)[|pre| + 1..] == c[1..] + post
  {
  }

  lemma ReleaseCarved(pre: seq<Block>, b: Block, want: int, post: seq<Block>)
    requires b.free && !EndsFree(pre) && !StartsFree(post)
    ensures Release(pre, Carve(b, want)[0], Carve(b, want)[1..] + post) == pre + [b] + post
  {
    assert Carve(b, want)[1..] == [] ==> Carve(b, want)[1..] + post == post;
  }

  lemma MallocThenFreeAt(s: PoolState, n: int)
    requires NoTouchingFree(s.blocks) && Served(s, n)
    ensures var k := FirstFit(s.blocks, BlockSizeFor(n));
      && k < |Malloc(s, n).blocks|
      && Malloc(s, n).blocks[k] == Carve(s.blocks[k], BlockSizeFor(n))[0]
      && FreeAt(Malloc(s, n), k) == s.(minEver := Malloc(s, n).minEver)
  {
    var want := BlockSizeFor(n);
    var k := FirstFit(s.blocks, want);
    var pre, b, post := s.blocks[..k], s.blocks[k], s.blocks[k + 1..];
    Cut(pre, Carve(b, want), post);
    Neighbours(s.blocks, k);
    ReleaseCarved(pre, b, want, post);
    AtCut(s.blocks, k);
  }

  /** free undoes the malloc just before it: every block is as it was, whether or not
      the block had been split. Only the minimum-ever counter remembers. */
  lemma MallocThenFree(s: PoolState, lo: int, hi: int, n: int)
    requires Inv(s, lo, hi) && Served(s, n) && lo > 0
    ensures IsLive(Malloc(s, n), MallocPtr(s, n))
    ensures Free(Malloc(s, n), MallocPtr(s, n)) == s.(minEver := Malloc(s, n).minEver)
  {
    var k := FirstFit(s.blocks, BlockSizeFor(n));
    MallocThenFreeAt(s, n);
    MallocKeepsInv(s, lo, hi, n);
    TilesSplit(s.blocks, lo, hi, k);
    TilesTotal(s.blocks[..k], lo, s.blocks[k].addr);
    assert UsedAt(Malloc(s, n).blocks, k, MallocPtr(s, n));
    FreeIsFreeAt(Malloc(s, n), lo, hi, MallocPtr(s, n), k);
  }

  lemma FirstTwo(bs: seq<Block>)
    requires NoTouchingFree(bs) && |bs| >= 2
    ensures !bs[0].free || !bs[1].free
  {
  }

  lemma NoneUsed(bs: seq<Block>)
    requires UsedSet(bs) == {}
    ensures forall i :: 0 <= i < |bs| ==> bs[i].free
  {
    forall i | 0 <= i < |bs| ensures bs[i].free {
      var b := bs[i];
      assert b.free || b in UsedSet(bs);
    }
  }

  /** With nothing live, the invariant leaves only the one initial block. */
  lemma NothingLive(s: PoolState, lo: int, hi: int)
    requires Inv(s, lo, hi) && lo < hi && UsedSet(s.blocks) == {}
    ensures s.blocks == InitState(lo, hi).blocks && s.freeBytes == hi - lo
  {
    TilesTotal(s.blocks, lo, hi);
    NoneUsed(s.blocks);
    if |s.blocks| >= 2 {
      FirstTwo(s.blocks);
    } else {
      assert s.blocks == [s.blocks[0]];
    }
    assert s.blocks[1..] == [];
  }

  /** ptrs lists the live pointers of s, each once, in any order. */
  ghost predicate FreesEverything(s: PoolState, ptrs: seq<int>)
    decreases |ptrs|
  {
    if ptrs == [] then UsedSet(s.blocks) == {}
    else ptrs[0] != 0 && IsLive(s, ptrs[0]) && FreesEverything(Free(s, ptrs[0]), ptrs[1..])
  }

  ghost function FreeAll(s: PoolState, ptrs: seq<int>): PoolState
    requires FreesEverything(s, ptrs)
    decreases |ptrs|
  {
    if ptrs == [] then s else FreeAll(Free(s, ptrs[0]), ptrs[1..])
  }

  ghost function PtrsOf(us: set<Block>): set<int> {
    set b | b in us :: b.addr + HEAP_STRUCT_SIZE
  }

  ghost function LivePtrs(bs: seq<Block>): set<int> {
    PtrsOf(UsedSet(bs))
  }

  ghost predicate Distinct(xs: seq<int>) {
    forall i, j :: 0 <= i < j < |xs| ==> xs[i] != xs[j]
  }

  lemma PtrsWithout(us: set<Block>, b: Block)
    requires b in us && forall c <- us :: c.addr == b.addr ==> c == b
    ensures PtrsOf(us - {b}) == PtrsOf(us) - {b.addr + HEAP_STRUCT_SIZE}
  {
    forall p | p in PtrsOf(us) - {b.addr + HEAP_STRUCT_SIZE} ensures p in PtrsOf(us - {b}) {
      var c :| c in us && c.addr + HEAP_STRUCT_SIZE == p;
      assert c in us - {b};
    }
  }

  lemma LivePtrsAfterFree(s: PoolState, lo: int, hi: int, ptr: int)
    requires Inv(s, lo, hi) && lo > 0 && ptr in LivePtrs(s.blocks)
    ensures ptr != 0 && IsLive(s, ptr)
    ensures LivePtrs(Free(s, ptr).blocks) == LivePtrs(s.blocks) - {ptr}
  {
    var us := UsedSet(s.blocks);
    var b :| b in us && b.addr + HEAP_STRUCT_SIZE == ptr;
    var k :| 0 <= k < |s.blocks| && s.blocks[k] == b;
    assert UsedAt(s.blocks, k, ptr);
    TilesSplit(s.blocks, lo, hi, k);
    TilesTotal(s.blocks[..k], lo, b.addr);
    FreeIsFreeAt(s, lo, hi, ptr, k);
    FreeRemovesOneLiveBlock(s, lo, hi, k);
    forall c | c in us && c.addr == b.addr ensures c == b {
      var i :| 0 <= i < |s.blocks| && s.blocks[i] == c;
      SameAddrSameBlock(s.blocks, lo, hi, i, k);
    }
    PtrsWithout(us, b);
  }

  /** Freeing every live pointer once, in any order, gives back the pool as it was
      initialised (up to the minimum-ever counter). */
  lemma {:induction false} FreeingAllRestoresPool(s: PoolState, lo: int, hi: int, ptrs: seq<int>)
    requires Inv(s, lo, hi) && 0 < lo < hi
    requires Distinct(ptrs) && (set p | p in ptrs) == LivePtrs(s.blocks)
    ensures FreesEverything(s, ptrs)
    ensures FreeAll(s, ptrs) == InitState(lo, hi).(minEver := s.minEver)
    decreases |ptrs|
  {
    if ptrs == [] {
      assert forall b <- UsedSet(s.blocks) :: b.addr + HEAP_STRUCT_SIZE in LivePtrs(s.blocks);
      assert UsedSet(s.blocks) == {};
      NothingLive(s, lo, hi);
    } else {
      assert ptrs[0] in LivePtrs(s.blocks);
      LivePtrsAfterFree(s, lo, hi, ptrs[0]);
      FreeKeepsInv(s, lo, hi, ptrs[0]);
      assert (set p | p in ptrs[1..]) == LivePtrs(s.blocks) - {ptrs[0]};
      FreeingAllRestoresPool(Free(s, ptrs[0]), lo, hi, ptrs[1..]);
    }
  }

  // ----- whole runs -----

  datatype Op = OpMalloc(n: int) | OpFree(ptr: int)

  ghost predicate Legal(s: PoolState, op: Op) {
    op.OpFree? && op.ptr != 0 ==> IsLive(s, op.ptr)
  }

  ghost function Step(s: PoolState, op: Op): PoolState
    requires Legal(s, op)
  {
    match op
    case OpMalloc(n) => Malloc(s, n)
    case OpFree(ptr) => Free(s, ptr)
  }

  /** Every free in the run is of a pointer that is live at that time, or NULL. */
  ghost predicate LegalRun(s: PoolState, ops: seq<Op>)
    decreases |ops|
  {
    ops == [] || (Legal(s, ops[0]) && LegalRun(Step(s, ops[0]), ops[1..]))
  }

  ghost function Run(s: PoolState, ops: seq<Op>): PoolState
    requires LegalRun(s, ops)
    decreases |ops|
  {
    if ops == [] then s else Run(Step(s, ops[0]), ops[1..])
  }

  /** The smallest value of freeBytes in the states the run goes through. */
  ghost function LowWater(s: PoolState, ops: seq<Op>): int
    requires LegalRun(s, ops)
    decreases |ops|
  {
    if ops == [] then s.freeBytes
    else
      var rest := LowWater(Step(s, ops[0]), ops[1..]);
      if s.freeBytes < rest then s.freeBytes else rest
  }

  /** Over every run: the pool invariant holds, and the minimum-ever counter is the
      smaller of its start value and the low-water mark of the run. */
  lemma {:induction false} RunKeepsInv(s: PoolState, lo: int, hi: int, ops: seq<Op>)
    requires Inv(s, lo, hi) && LegalRun(s, ops)
    ensures Inv(Run(s, ops), lo, hi)
    ensures Run(s, ops).minEver == if s.minEver < LowWater(s, ops) then s.minEver else LowWater(s, ops)
    decreases |ops|
  {
    if ops != [] {
      var t := Step(s, ops[0]);
      match ops[0] {
        case OpMalloc(n) => MallocKeepsInv(s, lo, hi, n);
        case OpFree(ptr) => FreeKeepsInv(s, lo, hi, ptr);
      }
      RunKeepsInv(t, lo, hi, ops[1..]);
    }
  }

  /** From initialisation on, minEver is exactly the low-water mark, and allocated plus
      free bytes is the whole region. */
  lemma RunFromInit(lo: int, hi: int, ops: seq<Op>)
    requires 0 < lo && lo + HEAP_STRUCT_SIZE <= hi && (hi - lo) % BYTE_ALIGNMENT == 0
    requires LegalRun(InitState(lo, hi), ops)
    ensures Inv(Run(InitState(lo, hi), ops), lo, hi)
    ensures Run(InitState(lo, hi), ops).minEver == LowWater(InitState(lo, hi), ops)
    ensures Total(Run(InitState(lo, hi), ops).blocks) == hi - lo
  {
    var s := InitState(lo, hi);
    assert s.blocks[1..] == [];
    assert Tiles(s.blocks[1..], hi, hi);
    RunKeepsInv(s, lo, hi, ops);
    LowWaterBound(s, ops);
    TilesTotal(Run(s, ops).blocks, lo, hi);
  }

  lemma LowWaterBound(s: PoolState, ops: seq<Op>)
    requires LegalRun(s, ops)
    ensures LowWater(s, ops) <= s.freeBytes
  {
  }
}
