/** The allocator of heap_4.c over its memory: headers at addresses, an address-ordered
    free list threaded through them, and the per-pool records of heap_table. */
module Heap4 {
  import opened HeapBlocks

  const NULL := 0

  datatype BlockLink = BlockLink(pxNextFreeBlock: int, xBlockSize: int)

  /** The block headers in RAM, by address. Both pools live in the same RAM. */
  class Memory {
    var links: map<int, BlockLink>

    constructor ()
      ensures links == map[]
    {
      links := map[];
    }
  }

  // ----- the free list in memory -----

  /** The address a list starts at, if it is fs followed by `next`. */
  ghost function First(fs: seq<Block>, next: int): int {
    if fs == [] then next else fs[0].addr
  }

  /** The headers of fs chain from each block to the one after it, the last to `next`. */
  ghost predicate Chain(links: map<int, BlockLink>, fs: seq<Block>, next: int) {
    forall i :: 0 <= i < |fs| ==>
      fs[i].addr in links && links[fs[i].addr] == BlockLink(First(fs[i + 1..], next), fs[i].size)
  }

  /** The list head xStart, as a block of size 0. */
  ghost function Head(start: int): Block {
    Block(start, 0, true)
  }

  /** From the list head at `start`, the headers chain through fs to the end marker. */
  ghost predicate ListAt(links: map<int, BlockLink>, start: int, fs: seq<Block>, end: int) {
    Chain(links, [Head(start)] + fs, end) && end in links && links[end] == BlockLink(NULL, 0)
  }

  lemma {:induction false} ChainAppend(links: map<int, BlockLink>, a: seq<Block>, b: seq<Block>, next: int)
    ensures Chain(links, a + b, next) <==> Chain(links, a, First(b, next)) && Chain(links, b, next)
  {
    var ab := a + b;
    forall i | 0 <= i < |a| ensures ab[i] == a[i] && First(ab[i + 1..], next) == First(a[i + 1..], First(b, next)) {
    }
    forall i | 0 <= i < |b| ensures ab[|a| + i] == b[i] && First(ab[|a| + i + 1..], next) == First(b[i + 1..], next) {
    }
    if Chain(links, ab, next) {
      forall i | 0 <= i < |b|
        ensures b[i].addr in links && links[b[i].addr] == BlockLink(First(b[i + 1..], next), b[i].size)
      {
        assert ab[|a| + i] == b[i];
      }
    }
  }

  lemma ChainFrame(links: map<int, BlockLink>, links': map<int, BlockLink>, fs: seq<Block>, next: int)
    requires Chain(links, fs, next)
    requires forall f <- fs :: f.addr in links ==> f.addr in links' && links'[f.addr] == links[f.addr]
    ensures Chain(links', fs, next)
  {
  }

  /** Allocated headers carry the top bit and no successor. */
  ghost predicate UsedHeaders(links: map<int, BlockLink>, bs: seq<Block>) {
    forall b <- bs :: !b.free ==> b.addr in links && links[b.addr] == BlockLink(NULL, b.size + ALLOCATED_BIT)
  }

  ghost predicate Ascending(fs: seq<Block>, lo: int, hi: int) {
    && (forall i :: 0 <= i < |fs| ==> lo <= fs[i].addr && fs[i].size >= HEAP_STRUCT_SIZE && fs[i].addr + fs[i].size <= hi)
    && (forall i, j :: 0 <= i < j < |fs| ==> fs[i].addr + fs[i].size <= fs[j].addr)
  }

  // ----- insertion, on lists -----

  ghost predicate TouchesLeft(pre: seq<Block>, b: Block) {
    pre != [] && pre[|pre| - 1].addr + pre[|pre| - 1].size == b.addr
  }

  ghost predicate TouchesRight(b: Block, post: seq<Block>) {
    post != [] && b.addr + b.size == post[0].addr
  }

  ghost function Joined(pre: seq<Block>, b: Block, post: seq<Block>): Block {
    Block(if TouchesLeft(pre, b) then pre[|pre| - 1].addr else b.addr,
          (if TouchesLeft(pre, b) then pre[|pre| - 1].size else 0) + b.size
          + (if TouchesRight(b, post) then post[0].size else 0),
          true)
  }

  /** The free list pre + post with b put in between, joined to the neighbours it touches. */
  ghost function Insert(pre: seq<Block>, b: Block, post: seq<Block>): seq<Block> {
    (if TouchesLeft(pre, b) then pre[..|pre| - 1] else pre)
    + [Joined(pre, b, post)]
    + (if TouchesRight(b, post) then post[1..] else post)
  }

  /** The list head or the header of the last block of pre. */
  ghost function LastOf(pre: seq<Block>, start: int): Block {
    if pre == [] then Head(start) else pre[|pre| - 1]
  }

  /** The list head and pre, up to that block. */
  ghost function BeforeLast(pre: seq<Block>, start: int): seq<Block> {
    if pre == [] then [] else [Head(start)] + pre[..|pre| - 1]
  }

  /** The headers after b, whose header is already in memory, was linked in. */
  ghost function Linked(links: map<int, BlockLink>, start: int, pre: seq<Block>, b: Block, post: seq<Block>, end: int): map<int, BlockLink> {
    var next := First(if TouchesRight(b, post) then post[1..] else post, end);
    var j := Joined(pre, b, post);
    var p := LastOf(pre, start);
    if TouchesLeft(pre, b) then links[p.addr := BlockLink(next, j.size)]
    else links[b.addr := BlockLink(next, j.size)][p.addr := BlockLink(b.addr, p.size)]
  }

  ghost predicate Between(pre: seq<Block>, b: Block, post: seq<Block>, lo: int, hi: int) {
    && Ascending(pre, lo, b.addr) && Ascending(post, b.addr + b.size, hi)
    && lo <= b.addr && b.size >= HEAP_STRUCT_SIZE && b.addr + b.size <= hi
  }

  lemma HeadShape(start: int, pre: seq<Block>, post: seq<Block>)
    ensures [Head(start)] + (pre + post)
      == BeforeLast(pre, start) + ([LastOf(pre, start)] + post)
  {
    if pre == [] {
      assert pre + post == post;
    } else {
      assert pre == pre[..|pre| - 1] + [pre[|pre| - 1]];
    }
  }

  /** A list with its last block before b, and its first block after b, split off. */
  lemma SplitList(links: map<int, BlockLink>, start: int, pre: seq<Block>, post: seq<Block>, end: int)
    requires ListAt(links, start, pre + post, end)
    ensures var p := LastOf(pre, start);
      var q := BeforeLast(pre, start);
      && [Head(start)] + pre == q + [p]
      && Chain(links, q, p.addr) && Chain(links, post, end)
      && p.addr in links && links[p.addr] == BlockLink(First(post, end), p.size)
  {
    var p := LastOf(pre, start);
    var q := BeforeLast(pre, start);
    HeadShape(start, pre, post);
    ChainAppend(links, q, [p] + post, end);
    ChainAppend(links, [p], post, end);
    assert [p][0] == p;
  }

  /** Linking in leaves alone every chain that avoids b and the block before it. */
  lemma LinkedFrame(links: map<int, BlockLink>, start: int, pre: seq<Block>, b: Block, post: seq<Block>, end: int,
                    fs: seq<Block>, next: int)
    requires Chain(links, fs, next)
    requires forall f <- fs :: f.addr != b.addr && f.addr != LastOf(pre, start).addr
    ensures Chain(Linked(links, start, pre, b, post, end), fs, next)
  {
    ChainFrame(links, Linked(links, start, pre, b, post, end), fs, next);
  }

  lemma LinkedElsewhere(links: map<int, BlockLink>, start: int, pre: seq<Block>, b: Block, post: seq<Block>, end: int, a: int)
    requires a != b.addr && a != LastOf(pre, start).addr
    ensures a in Linked(links, start, pre, b, post, end) <==> a in links
    ensures a in links ==> Linked(links, start, pre, b, post, end)[a] == links[a]
  {
  }

  lemma OneLink(links: map<int, BlockLink>, f: Block, next: int)
    requires f.addr in links && links[f.addr] == BlockLink(next, f.size)
    ensures Chain(links, [f], next)
  {
  }

  /** The part of the new list from the inserted block on. */
  lemma LinkedTail(links: map<int, BlockLink>, start: int, pre: seq<Block>, b: Block, post: seq<Block>, lo: int, hi: int)
    requires Between(pre, b, post, lo, hi) && !(lo <= start <= hi) && Chain(links, post, hi)
    ensures var rest := if TouchesRight(b, post) then post[1..] else post;
      Chain(Linked(links, start, pre, b, post, hi), [Joined(pre, b, post)] + rest, hi)
  {
    var links' := Linked(links, start, pre, b, post, hi);
    var rest := if TouchesRight(b, post) then post[1..] else post;
    if TouchesRight(b, post) {
      assert post == [post[0]] + rest;
      ChainAppend(links, [post[0]], rest, hi);
    }
    LinkedFrame(links, start, pre, b, post, hi, rest, hi);
    OneLink(links', Joined(pre, b, post), First(rest, hi));
    ChainAppend(links', [Joined(pre, b, post)], rest, hi);
  }

  lemma InsertShape(start: int, pre: seq<Block>, b: Block, post: seq<Block>)
    ensures var p := LastOf(pre, start);
      var q := BeforeLast(pre, start);
      var tail := [Joined(pre, b, post)] + if TouchesRight(b, post) then post[1..] else post;
      [Head(start)] + Insert(pre, b, post) == if TouchesLeft(pre, b) then q + tail else q + ([p] + tail)
  {
    if pre == [] {
      assert [] + ([Head(start)] + Insert(pre, b, post)) == [Head(start)] + Insert(pre, b, post);
    } else {
      assert pre == pre[..|pre| - 1] + [pre[|pre| - 1]];
    }
  }

  lemma LinkedHeaders(links: map<int, BlockLink>, start: int, pre: seq<Block>, b: Block, post: seq<Block>, lo: int, hi: int)
    requires Between(pre, b, post, lo, hi) && !(lo <= start <= hi)
    requires hi in links
    ensures var links' := Linked(links, start, pre, b, post, hi);
      var p := LastOf(pre, start);
      && hi in links' && links'[hi] == links[hi]
      && (!TouchesLeft(pre, b) ==> p.addr in links' && links'[p.addr] == BlockLink(b.addr, p.size))
      && (TouchesLeft(pre, b) ==> p.addr == Joined(pre, b, post).addr)
  {
  }

  lemma LinkedIsList(links: map<int, BlockLink>, start: int, pre: seq<Block>, b: Block, post: seq<Block>, lo: int, hi: int)
    requires Between(pre, b, post, lo, hi) && !(lo <= start <= hi)
    requires ListAt(links, start, pre + post, hi)
    ensures ListAt(Linked(links, start, pre, b, post, hi), start, Insert(pre, b, post), hi)
  {
    var links' := Linked(links, start, pre, b, post, hi);
    var p := LastOf(pre, start);
    var q := BeforeLast(pre, start);
    var j := Joined(pre, b, post);
    var tail := [j] + if TouchesRight(b, post) then post[1..] else post;
    SplitList(links, start, pre, post, hi);
    LinkedTail(links, start, pre, b, post, lo, hi);
    LinkedFrame(links, start, pre, b, post, hi, q, p.addr);
    LinkedHeaders(links, start, pre, b, post, lo, hi);
    InsertShape(start, pre, b, post);
    if TouchesLeft(pre, b) {
      ChainAppend(links', q, tail, hi);
    } else {
      OneLink(links', p, j.addr);
      ChainAppend(links', [p], tail, hi);
      ChainAppend(links', q, [p] + tail, hi);
    }
  }

  /** What joining or linking the block at `blk` behind the one at `it` does to the headers. */
  ghost function JoinedBehind(links: map<int, BlockLink>, it: int, blk: int, end: int): map<int, BlockLink>
    requires it in links && blk in links && links[it].pxNextFreeBlock in links
  {
    var n := links[it].pxNextFreeBlock;
    var right := blk + links[blk].xBlockSize == n && n != end;
    var next := if right then links[n].pxNextFreeBlock else n;
    var size := links[blk].xBlockSize + if right then links[n].xBlockSize else 0;
    if it + links[it].xBlockSize == blk then links[it := BlockLink(next, links[it].xBlockSize + size)]
    else links[blk := BlockLink(next, size)][it := BlockLink(blk, links[it].xBlockSize)]
  }

  lemma JoinedIsLinked(links: map<int, BlockLink>, start: int, pre: seq<Block>, b: Block, post: seq<Block>, lo: int, hi: int)
    requires Between(pre, b, post, lo, hi) && !(lo <= start <= hi)
    requires ListAt(links, start, pre + post, hi)
    requires b.addr in links && links[b.addr].xBlockSize == b.size
    ensures var it := LastOf(pre, start).addr;
      && it in links && links[it].pxNextFreeBlock in links && it != b.addr
      && links[it].pxNextFreeBlock != it && links[it].pxNextFreeBlock != b.addr
      && JoinedBehind(links, it, b.addr, hi) == Linked(links, start, pre, b, post, hi)
  {
    SplitList(links, start, pre, post, hi);
    if post != [] {
      HeadLink(links, post, hi);
    }
    LastOfBefore(start, pre, b, lo, hi);
  }

  lemma HeadLink(links: map<int, BlockLink>, fs: seq<Block>, next: int)
    requires Chain(links, fs, next) && fs != []
    ensures fs[0].addr in links && links[fs[0].addr] == BlockLink(First(fs[1..], next), fs[0].size)
  {
  }

  lemma LastOfBefore(start: int, pre: seq<Block>, b: Block, lo: int, hi: int)
    requires Ascending(pre, lo, b.addr) && !(lo <= start <= hi) && lo <= b.addr && b.addr + b.size <= hi && b.size > 0
    ensures var p := LastOf(pre, start);
      && !(b.addr <= p.addr <= hi)
      && (TouchesLeft(pre, b) <==> p.addr + p.size == b.addr)
  {
  }

  lemma {:induction false} FreeOfAscending(bs: seq<Block>, lo: int, hi: int)
    requires Tiles(bs, lo, hi)
    ensures Ascending(FreeOf(bs), lo, hi)
    ensures forall f <- FreeOf(bs) :: f.free && f in bs
  {
    if bs != [] {
      TilesBounds(bs, lo, hi);
      FreeOfAscending(bs[1..], lo + bs[0].size, hi);
    }
  }

  /** Inside a tiling, the free list's neighbours touch a block exactly when the
      tiling's neighbours are free, so list insertion is Release. */
  lemma InsertIsRelease(pre: seq<Block>, u: Block, post: seq<Block>, lo: int, hi: int)
    requires Tiles(pre, lo, u.addr) && Tiles(post, u.addr + u.size, hi)
    ensures Insert(FreeOf(pre), u.(free := true), FreeOf(post)) == FreeOf(Release(pre, u, post))
  {
    LeftTouch(pre, u, lo);
    RightTouch(u, post, hi);
    assert TouchesLeft(FreeOf(pre), u.(free := true)) == TouchesLeft(FreeOf(pre), u);
    assert TouchesRight(u.(free := true), FreeOf(post)) == TouchesRight(u, FreeOf(post));
    ReleaseSums(pre, u, post, lo, u.addr);
  }

  lemma LeftTouch(pre: seq<Block>, u: Block, lo: int)
    requires Tiles(pre, lo, u.addr)
    ensures TouchesLeft(FreeOf(pre), u) <==> EndsFree(pre)
    ensures EndsFree(pre) ==> FreeOf(pre) == FreeOf(LeftRest(pre)) + [pre[|pre| - 1]]
  {
    LeftRestFacts(pre, lo, u.addr);
    if pre != [] && !EndsFree(pre) {
      var n := |pre| - 1;
      Around(pre, lo, u.addr, n);
      assert pre[n + 1..] == [];
      FreeOfAscending(pre[..n], lo, pre[n].addr);
    }
  }

  lemma RightTouch(u: Block, post: seq<Block>, hi: int)
    requires Tiles(post, u.addr + u.size, hi)
    ensures TouchesRight(u, FreeOf(post)) <==> StartsFree(post)
  {
    if post != [] && !StartsFree(post) {
      FreeOfAscending(post[1..], post[0].addr + post[0].size, hi);
    }
  }

  // ----- first fit, on the free list -----

  lemma {:induction false} FirstFitInList(bs: seq<Block>, want: int, i: nat)
    requires i <= |FreeOf(bs)|
    requires forall j :: 0 <= j < i ==> FreeOf(bs)[j].size < want
    requires i < |FreeOf(bs)| ==> FreeOf(bs)[i].size >= want
    ensures i == |FreeOf(bs)| <==> FirstFit(bs, want) == |bs|
    ensures i < |FreeOf(bs)| ==>
      var k := FirstFit(bs, want);
      k < |bs| && bs[k] == FreeOf(bs)[i] && FreeOf(bs)[..i] == FreeOf(bs[..k]) && FreeOf(bs)[i + 1..] == FreeOf(bs[k + 1..])
  {
    if bs != [] {
      var t := bs[1..];
      if !bs[0].free {
        FirstFitInList(t, want, i);
        var k := FirstFit(t, want);
        if k < |t| {
          assert bs[..k + 1][1..] == t[..k];
          assert bs[k + 2..] == t[k + 1..];
        }
      } else if i > 0 {
        assert FreeOf(bs)[0] == bs[0];
        forall j | 0 <= j < i - 1 ensures FreeOf(t)[j].size < want {
          assert FreeOf(t)[j] == FreeOf(bs)[j + 1];
        }
        FirstFitInList(t, want, i - 1);
        var k := FirstFit(t, want);
        if k < |t| {
          assert bs[..k + 1][1..] == t[..k];
          assert bs[k + 2..] == t[k + 1..];
          assert FreeOf(bs)[..i] == [bs[0]] + FreeOf(t)[..i - 1];
        }
      } else {
        assert Fits(bs[0], want);
      }
    }
  }

  // ----- one pool in memory -----

  ghost predicate Rep(links: map<int, BlockLink>, start: int, bs: seq<Block>, end: int) {
    ListAt(links, start, FreeOf(bs), end) && UsedHeaders(links, bs)
  }

  lemma ListFrame(links: map<int, BlockLink>, links': map<int, BlockLink>, start: int, fs: seq<Block>, end: int)
    requires ListAt(links, start, fs, end)
    requires forall a <- [start, end] :: a in links ==> a in links' && links'[a] == links[a]
    requires forall f <- fs :: f.addr in links ==> f.addr in links' && links'[f.addr] == links[f.addr]
    ensures ListAt(links', start, fs, end)
  {
    var hs := [Head(start)] + fs;
    assert hs[0] == Head(start) && start in [start, end] && end in [start, end];
    assert forall f <- hs :: f == Head(start) || f in fs;
    ChainFrame(links, links', hs, end);
  }

  /** One step along the list: the header of its i-th block, the list head being block -1. */
  lemma ListStep(links: map<int, BlockLink>, start: int, fs: seq<Block>, end: int, i: nat)
    requires ListAt(links, start, fs, end) && i <= |fs|
    ensures var p := LastOf(fs[..i], start);
      p.addr in links && links[p.addr] == BlockLink(if i < |fs| then fs[i].addr else end, p.size)
    ensures (if i < |fs| then fs[i].addr else end) in links
    ensures i > 0 ==> LastOf(fs[..i], start) == fs[i - 1]
  {
    assert fs[..i] + fs[i..] == fs;
    SplitList(links, start, fs[..i], fs[i..], end);
    if i < |fs| {
      HeadLink(links, fs[i..], end);
    }
  }

  // ----- taking a block off the list -----

  ghost function Unlinked(links: map<int, BlockLink>, start: int, pre: seq<Block>, post: seq<Block>, end: int): map<int, BlockLink> {
    links[LastOf(pre, start).addr := BlockLink(First(post, end), LastOf(pre, start).size)]
  }

  lemma UnlinkIsList(links: map<int, BlockLink>, start: int, pre: seq<Block>, b: Block, post: seq<Block>, lo: int, hi: int)
    requires Between(pre, b, post, lo, hi) && !(lo <= start <= hi)
    requires ListAt(links, start, pre + ([b] + post), hi)
    ensures var p := LastOf(pre, start);
      p.addr in links && links[p.addr] == BlockLink(b.addr, p.size) && p.addr != b.addr
    ensures b.addr in links && links[b.addr] == BlockLink(First(post, hi), b.size)
    ensures ListAt(Unlinked(links, start, pre, post, hi), start, pre + post, hi)
  {
    var p := LastOf(pre, start);
    var links' := Unlinked(links, start, pre, post, hi);
    SplitList(links, start, pre, [b] + post, hi);
    HeadLink(links, [b] + post, hi);
    ChainAppend(links, [b], post, hi);
    LastOfBefore(start, pre, b, lo, hi);
    ChainFrame(links, links', post, hi);
    BeforeLastAvoids(start, pre, b, lo, hi);
    ChainFrame(links, links', BeforeLast(pre, start), p.addr);
    OneLink(links', p, First(post, hi));
    GlueList(links', start, pre, post, hi);
  }

  lemma BeforeLastAvoids(start: int, pre: seq<Block>, b: Block, lo: int, hi: int)
    requires Ascending(pre, lo, b.addr) && !(lo <= start <= hi) && lo <= b.addr && b.addr + b.size <= hi && b.size > 0
    ensures forall f <- BeforeLast(pre, start) :: f.addr != LastOf(pre, start).addr && f.addr != b.addr
  {
  }

  /** The converse of SplitList. */
  lemma GlueList(links: map<int, BlockLink>, start: int, pre: seq<Block>, post: seq<Block>, end: int)
    requires Chain(links, BeforeLast(pre, start), LastOf(pre, start).addr)
    requires Chain(links, [LastOf(pre, start)], First(post, end))
    requires Chain(links, post, end) && end in links && links[end] == BlockLink(NULL, 0)
    ensures ListAt(links, start, pre + post, end)
  {
    var p := LastOf(pre, start);
    ChainAppend(links, [p], post, end);
    ChainAppend(links, BeforeLast(pre, start), [p] + post, end);
    HeadShape(start, pre, post);
  }

  lemma UsedApart(bs: seq<Block>, lo: int, hi: int, start: int, k: nat, u: Block)
    requires Tiles(bs, lo, hi) && k < |bs| && bs[k].free && !(lo <= start <= hi) && u in bs && !u.free
    ensures u.addr != LastOf(FreeOf(bs[..k]), start).addr
    ensures !(bs[k].addr <= u.addr < bs[k].addr + bs[k].size)
    ensures lo <= u.addr < hi
  {
    TilesBounds(bs, lo, hi);
    Around(bs, lo, hi, k);
    FreeOfAscending(bs[..k], lo, bs[k].addr);
    var fs := FreeOf(bs[..k]);
    var j :| 0 <= j < |bs| && bs[j] == u;
    if fs != [] {
      var f := fs[|fs| - 1];
      assert f in bs[..k];
      var i :| 0 <= i < k && bs[i] == f;
      if f.addr == u.addr {
        SameAddrSameBlock(bs, lo, hi, i, j);
      }
    }
  }

  /** A free block lies between its neighbours in the free list, touching neither. */
  lemma FreeBlockApart(bs: seq<Block>, lo: int, hi: int, k: nat)
    requires Tiles(bs, lo, hi) && NoTouchingFree(bs) && k < |bs| && bs[k].free
    ensures FreeOf(bs) == FreeOf(bs[..k]) + [bs[k]] + FreeOf(bs[k + 1..])
    ensures Between(FreeOf(bs[..k]), bs[k], FreeOf(bs[k + 1..]), lo, hi)
    ensures !TouchesLeft(FreeOf(bs[..k]), bs[k]) && !TouchesRight(bs[k], FreeOf(bs[k + 1..]))
  {
    Around(bs, lo, hi, k);
    TilesTotal(bs[..k], lo, bs[k].addr);
    TilesTotal(bs[k + 1..], bs[k].addr + bs[k].size, hi);
    FreeOfAscending(bs[..k], lo, bs[k].addr);
    FreeOfAscending(bs[k + 1..], bs[k].addr + bs[k].size, hi);
    Neighbours(bs, k);
    LeftTouch(bs[..k], bs[k], lo);
    RightTouch(bs[k], bs[k + 1..], hi);
  }

  /** So the remainder of a carved block is inserted without being joined to anything. */
  lemma RemainderStaysAlone(pre: seq<Block>, b: Block, post: seq<Block>, lo: int, hi: int, want: int)
    requires Between(pre, b, post, lo, hi) && !TouchesRight(b, post) && 0 < want && b.size - want > HEAP_MINIMUM_BLOCK_SIZE
    ensures var rem := Block(b.addr + want, b.size - want, true);
      Between(pre, rem, post, lo, hi) && Insert(pre, rem, post) == pre + [rem] + post
  {
  }

  /** The headers with b off the list and cut in two, the remainder not yet back on it. */
  ghost function Halved(links: map<int, BlockLink>, start: int, pre: seq<Block>, b: Block, post: seq<Block>, end: int, want: int): map<int, BlockLink> {
    var links1 := Unlinked(links, start, pre, post, end);
    links1[b.addr + want := Read(links1, b.addr + want).(xBlockSize := b.size - want)][b.addr := BlockLink(First(post, end), want)]
  }

  ghost function CarvedOff(links: map<int, BlockLink>, start: int, pre: seq<Block>, b: Block, post: seq<Block>, end: int, want: int): map<int, BlockLink> {
    if b.size - want > HEAP_MINIMUM_BLOCK_SIZE
    then Linked(Halved(links, start, pre, b, post, end, want), start, pre, Block(b.addr + want, b.size - want, true), post, end)
    else Unlinked(links, start, pre, post, end)
  }

  lemma OutsideOf(pre: seq<Block>, b: Block, post: seq<Block>, lo: int, hi: int)
    requires Between(pre, b, post, lo, hi)
    ensures forall f <- pre + post :: f.addr < b.addr || f.addr >= b.addr + b.size
  {
  }

  lemma HalvedIsList(links: map<int, BlockLink>, start: int, pre: seq<Block>, b: Block, post: seq<Block>, lo: int, hi: int, want: int)
    requires Between(pre, b, post, lo, hi) && 0 < want < b.size && !(lo <= start <= hi)
    requires ListAt(Unlinked(links, start, pre, post, hi), start, pre + post, hi)
    ensures ListAt(Halved(links, start, pre, b, post, hi, want), start, pre + post, hi)
  {
    OutsideOf(pre, b, post, lo, hi);
    ListFrame(Unlinked(links, start, pre, post, hi), Halved(links, start, pre, b, post, hi, want), start, pre + post, hi);
  }

  lemma CarvedOffIsList(links: map<int, BlockLink>, start: int, pre: seq<Block>, b: Block, post: seq<Block>, lo: int, hi: int, want: int)
    requires Between(pre, b, post, lo, hi) && !TouchesRight(b, post) && 0 < want && !(lo <= start <= hi)
    requires ListAt(Unlinked(links, start, pre, post, hi), start, pre + post, hi)
    ensures ListAt(CarvedOff(links, start, pre, b, post, hi, want), start, pre + Carve(b, want)[1..] + post, hi)
    ensures b.size - want > HEAP_MINIMUM_BLOCK_SIZE ==>
      ListAt(Halved(links, start, pre, b, post, hi, want), start, pre + post, hi)
      && Between(pre, Block(b.addr + want, b.size - want, true), post, lo, hi)
  {
    if b.size - want > HEAP_MINIMUM_BLOCK_SIZE {
      var rem := Block(b.addr + want, b.size - want, true);
      HalvedIsList(links, start, pre, b, post, lo, hi, want);
      RemainderStaysAlone(pre, b, post, lo, hi, want);
      LinkedIsList(Halved(links, start, pre, b, post, hi, want), start, pre, rem, post, lo, hi);
      assert Carve(b, want)[1..] == [rem];
    } else {
      assert Carve(b, want)[1..] == [] && pre + [] + post == pre + post;
    }
  }

  /** Only the header before b and headers inside b are written. */
  lemma CarvedOffFrame(links: map<int, BlockLink>, start: int, pre: seq<Block>, b: Block, post: seq<Block>, lo: int, hi: int, want: int)
    requires Between(pre, b, post, lo, hi) && 0 < want && !(lo <= start <= hi)
    requires b.addr in links && links[b.addr].xBlockSize == b.size && LastOf(pre, start).addr != b.addr
    ensures var links' := CarvedOff(links, start, pre, b, post, hi, want);
      && b.addr in links' && links'[b.addr].xBlockSize == Carve(b, want)[0].size
      && forall a :: a != LastOf(pre, start).addr && !(b.addr <= a < b.addr + b.size) ==>
        && (a in links' <==> a in links)
        && (a in links' ==> links'[a] == links[a])
  {
    if b.size - want > HEAP_MINIMUM_BLOCK_SIZE {
      LastOfBefore(start, pre, b, lo, hi);
      assert !TouchesLeft(pre, Block(b.addr + want, b.size - want, true));
    }
  }

  lemma RemainderAvoids(pre: seq<Block>, b: Block, post: seq<Block>, lo: int, hi: int, want: int)
    requires Between(pre, b, post, lo, hi) && 0 < want
    ensures forall f <- pre + Carve(b, want)[1..] + post :: f.addr != b.addr
  {
  }

  /** From the new free list and the new header to the representation of the carved pool. */
  lemma TakenRep(links: map<int, BlockLink>, links': map<int, BlockLink>, start: int, bs: seq<Block>, lo: int, hi: int, k: nat, want: int)
    requires Tiles(bs, lo, hi) && Rep(links, start, bs, hi) && !(lo <= start <= hi)
    requires k < |bs| && bs[k].free && 0 < want <= bs[k].size
    requires var c := Carve(bs[k], want);
      && c[0].addr in links' && links'[c[0].addr] == BlockLink(NULL, c[0].size + ALLOCATED_BIT)
      && ListAt(links', start, FreeOf(bs[..k]) + c[1..] + FreeOf(bs[k + 1..]), hi)
    requires forall a :: a in links && a != LastOf(FreeOf(bs[..k]), start).addr && !(bs[k].addr <= a < bs[k].addr + bs[k].size) ==>
        (a in links' && links'[a] == links[a])
    ensures Rep(links', start, bs[..k] + Carve(bs[k], want) + bs[k + 1..], hi)
  {
    var c := Carve(bs[k], want);
    var after := bs[..k] + c + bs[k + 1..];
    JoinSums(bs[..k], c, bs[k + 1..]);
    assert FreeOf(c) == c[1..] by {
      assert FreeOf(c[1..]) == c[1..] by {
        if |c| == 2 { assert c[1..][1..] == []; }
      }
    }
    forall u | u in after && !u.free ensures u.addr in links' && links'[u.addr] == BlockLink(NULL, u.size + ALLOCATED_BIT) {
      if u != c[0] {
        assert u in bs;
        UsedApart(bs, lo, hi, start, k, u);
      }
    }
  }

  /** A pool's representation depends only on the headers inside its own region. */
  lemma RepFrame(links: map<int, BlockLink>, links': map<int, BlockLink>, start: int, bs: seq<Block>, lo: int, hi: int)
    requires Tiles(bs, lo, hi) && Rep(links, start, bs, hi)
    requires forall a :: a in links && (a == start || lo <= a <= hi) ==> a in links' && links'[a] == links[a]
    ensures Rep(links', start, bs, hi)
  {
    FreeOfAscending(bs, lo, hi);
    TilesBounds(bs, lo, hi);
    forall b | b in bs && !b.free ensures b.addr in links' && links'[b.addr] == BlockLink(NULL, b.size + ALLOCATED_BIT) {
      var i :| 0 <= i < |bs| && bs[i] == b;
    }
  }

  lemma TakenCarves(links: map<int, BlockLink>, start: int, bs: seq<Block>, lo: int, hi: int, k: nat, want: int)
    requires Tiles(bs, lo, hi) && NoTouchingFree(bs) && Rep(links, start, bs, hi) && !(lo <= start <= hi)
    requires k < |bs| && bs[k].free && HEAP_STRUCT_SIZE <= want <= bs[k].size
    ensures var pre, b, post := FreeOf(bs[..k]), bs[k], FreeOf(bs[k + 1..]);
      var carved := CarvedOff(links, start, pre, b, post, hi, want);
      && Between(pre, b, post, lo, hi) && !TouchesRight(b, post) && ListAt(links, start, pre + ([b] + post), hi)
      && b.addr in links && links[b.addr].xBlockSize == b.size && LastOf(pre, start).addr != b.addr
      && ListAt(carved, start, pre + Carve(b, want)[1..] + post, hi)
  {
    var pre, b, post := FreeOf(bs[..k]), bs[k], FreeOf(bs[k + 1..]);
    FreeBlockApart(bs, lo, hi, k);
    assert pre + [b] + post == pre + ([b] + post);
    UnlinkIsList(links, start, pre, b, post, lo, hi);
    CarvedOffIsList(links, start, pre, b, post, lo, hi, want);
  }

  ghost function TakenLinks(links: map<int, BlockLink>, start: int, bs: seq<Block>, hi: int, k: nat, want: int): map<int, BlockLink>
    requires k < |bs|
  {
    CarvedOff(links, start, FreeOf(bs[..k]), bs[k], FreeOf(bs[k + 1..]), hi, want)
      [bs[k].addr := BlockLink(NULL, Carve(bs[k], want)[0].size + ALLOCATED_BIT)]
  }

  /** All that taking a block does to memory: the carved pool is represented, and nothing
      outside the pool is touched. */
  lemma TakenInMemory(links: map<int, BlockLink>, start: int, bs: seq<Block>, lo: int, hi: int, k: nat, want: int)
    requires Tiles(bs, lo, hi) && NoTouchingFree(bs) && Rep(links, start, bs, hi) && !(lo <= start <= hi)
    requires k < |bs| && bs[k].free && HEAP_STRUCT_SIZE <= want <= bs[k].size
    ensures Rep(TakenLinks(links, start, bs, hi, k, want), start, bs[..k] + Carve(bs[k], want) + bs[k + 1..], hi)
    ensures SameElsewhere(links, TakenLinks(links, start, bs, hi, k, want), start, lo, hi)
  {
    var pre, b, post := FreeOf(bs[..k]), bs[k], FreeOf(bs[k + 1..]);
    var carved := CarvedOff(links, start, pre, b, post, hi, want);
    var links' := TakenLinks(links, start, bs, hi, k, want);
    TakenCarves(links, start, bs, lo, hi, k, want);
    CarvedOffFrame(links, start, pre, b, post, lo, hi, want);
    RemainderAvoids(pre, b, post, lo, hi, want);
    ListFrame(carved, links', start, pre + Carve(b, want)[1..] + post, hi);
    TakenRep(links, links', start, bs, lo, hi, k, want);
    LastOfInRegion(start, pre, b, lo);
  }

  /** Everything TakeBlock relies on. */
  lemma TakePlan(links: map<int, BlockLink>, start: int, s: PoolState, lo: int, hi: int, want: int)
    requires Inv(s, lo, hi) && Rep(links, start, s.blocks, hi) && !(lo <= start <= hi)
    requires FirstFit(s.blocks, want) < |s.blocks| && want > HEAP_STRUCT_SIZE && want % BYTE_ALIGNMENT == 0
    ensures Inv(Taken(s, want), lo, hi)
    ensures var k := FirstFit(s.blocks, want);
      var pre, b, post := FreeOf(s.blocks[..k]), s.blocks[k], FreeOf(s.blocks[k + 1..]);
      && Between(pre, b, post, lo, hi) && !TouchesRight(b, post) && want <= b.size <= hi - lo
      && ListAt(links, start, pre + ([b] + post), hi)
      && Rep(TakenLinks(links, start, s.blocks, hi, k, want), start, Taken(s, want).blocks, hi)
      && SameElsewhere(links, TakenLinks(links, start, s.blocks, hi, k, want), start, lo, hi)
  {
    var k := FirstFit(s.blocks, want);
    TakenKeepsInv(s, lo, hi, want);
    TakenCarves(links, start, s.blocks, lo, hi, k, want);
    TakenInMemory(links, start, s.blocks, lo, hi, k, want);
  }

  /** Every live header is off the free list and inside the region. */
  lemma UsedOffList(bs: seq<Block>, lo: int, hi: int, start: int, k: nat)
    requires Tiles(bs, lo, hi) && k < |bs| && !bs[k].free && !(lo <= start <= hi)
    ensures FreeOf(bs) == FreeOf(bs[..k]) + FreeOf(bs[k + 1..])
    ensures Between(FreeOf(bs[..k]), bs[k], FreeOf(bs[k + 1..]), lo, hi)
    ensures 0 < bs[k].size <= hi - lo
  {
    Around(bs, lo, hi, k);
    TilesTotal(bs[..k], lo, bs[k].addr);
    TilesTotal(bs[k + 1..], bs[k].addr + bs[k].size, hi);
    FreeOfAscending(bs[..k], lo, bs[k].addr);
    FreeOfAscending(bs[k + 1..], bs[k].addr + bs[k].size, hi);
    assert FreeOf(bs[..k]) + [] + FreeOf(bs[k + 1..]) == FreeOf(bs[..k]) + FreeOf(bs[k + 1..]);
  }

  lemma UsedApartFromUsed(bs: seq<Block>, lo: int, hi: int, start: int, k: nat, u: Block)
    requires Tiles(bs, lo, hi) && k < |bs| && !bs[k].free && !(lo <= start <= hi)
    requires u in UsedSet(bs) - {bs[k]}
    ensures u.addr != LastOf(FreeOf(bs[..k]), start).addr && u.addr != bs[k].addr
  {
    TilesBounds(bs, lo, hi);
    Around(bs, lo, hi, k);
    FreeOfAscending(bs[..k], lo, bs[k].addr);
    var fs := FreeOf(bs[..k]);
    var j :| 0 <= j < |bs| && bs[j] == u;
    if u.addr == bs[k].addr {
      SameAddrSameBlock(bs, lo, hi, j, k);
    }
    if fs != [] {
      var f := fs[|fs| - 1];
      assert f in bs[..k];
      var i :| 0 <= i < k && bs[i] == f;
      if f.addr == u.addr {
        SameAddrSameBlock(bs, lo, hi, i, j);
      }
    }
  }

  ghost function ReleasedLinks(links: map<int, BlockLink>, start: int, bs: seq<Block>, hi: int, k: nat): map<int, BlockLink>
    requires k < |bs|
  {
    Linked(links[bs[k].addr := BlockLink(NULL, bs[k].size)], start, FreeOf(bs[..k]),
           bs[k].(free := true), FreeOf(bs[k + 1..]), hi)
  }

  lemma ReleasedStart(links: map<int, BlockLink>, start: int, bs: seq<Block>, lo: int, hi: int, k: nat)
    requires Tiles(bs, lo, hi) && ListAt(links, start, FreeOf(bs), hi) && !(lo <= start <= hi) && k < |bs| && !bs[k].free
    ensures ListAt(links[bs[k].addr := BlockLink(NULL, bs[k].size)], start, FreeOf(bs[..k]) + FreeOf(bs[k + 1..]), hi)
  {
    var pre, post := FreeOf(bs[..k]), FreeOf(bs[k + 1..]);
    UsedOffList(bs, lo, hi, start, k);
    OutsideOf(pre, bs[k], post, lo, hi);
    ListFrame(links, links[bs[k].addr := BlockLink(NULL, bs[k].size)], start, pre + post, hi);
  }

  /** Linking a live block back in represents the pool with that block released. */
  lemma ReleasedList(links: map<int, BlockLink>, start: int, bs: seq<Block>, lo: int, hi: int, k: nat)
    requires Tiles(bs, lo, hi) && ListAt(links, start, FreeOf(bs), hi) && !(lo <= start <= hi) && k < |bs| && !bs[k].free
    ensures ListAt(ReleasedLinks(links, start, bs, hi, k), start, FreeOf(Release(bs[..k], bs[k], bs[k + 1..])), hi)
  {
    ReleasedStart(links, start, bs, lo, hi, k);
    UsedOffList(bs, lo, hi, start, k);
    LinkedIsList(links[bs[k].addr := BlockLink(NULL, bs[k].size)], start, FreeOf(bs[..k]), bs[k].(free := true), FreeOf(bs[k + 1..]), lo, hi);
    TilesSplit(bs, lo, hi, k);
    InsertIsRelease(bs[..k], bs[k], bs[k + 1..], lo, hi);
  }

  lemma ReleasedElsewhere(links: map<int, BlockLink>, start: int, bs: seq<Block>, lo: int, hi: int, k: nat)
    requires Tiles(bs, lo, hi) && !(lo <= start <= hi) && k < |bs| && !bs[k].free
    ensures SameElsewhere(links, ReleasedLinks(links, start, bs, hi, k), start, lo, hi)
  {
    var pre, b, post := FreeOf(bs[..k]), bs[k].(free := true), FreeOf(bs[k + 1..]);
    UsedOffList(bs, lo, hi, start, k);
    LastOfInRegion(start, pre, b, lo);
    var links1 := links[b.addr := BlockLink(NULL, b.size)];
    forall a | !(a == start || lo <= a <= hi)
      ensures a in ReleasedLinks(links, start, bs, hi, k) <==> a in links
      ensures a in links ==> ReleasedLinks(links, start, bs, hi, k)[a] == links[a]
    {
      LinkedElsewhere(links1, start, pre, b, post, hi, a);
    }
  }

  lemma ReleasedHeader(links: map<int, BlockLink>, start: int, bs: seq<Block>, lo: int, hi: int, k: nat, u: Block)
    requires Tiles(bs, lo, hi) && UsedHeaders(links, bs) && !(lo <= start <= hi) && k < |bs| && !bs[k].free
    requires u in UsedSet(bs) - {bs[k]}
    ensures u.addr in ReleasedLinks(links, start, bs, hi, k)
    ensures ReleasedLinks(links, start, bs, hi, k)[u.addr] == BlockLink(NULL, u.size + ALLOCATED_BIT)
  {
    UsedApartFromUsed(bs, lo, hi, start, k, u);
    LinkedElsewhere(links[bs[k].addr := BlockLink(NULL, bs[k].size)], start, FreeOf(bs[..k]), bs[k].(free := true), FreeOf(bs[k + 1..]), hi, u.addr);
  }

  lemma ReleasedHeaders(links: map<int, BlockLink>, start: int, bs: seq<Block>, lo: int, hi: int, k: nat)
    requires Tiles(bs, lo, hi) && UsedHeaders(links, bs) && !(lo <= start <= hi) && k < |bs| && !bs[k].free
    ensures UsedHeaders(ReleasedLinks(links, start, bs, hi, k), Release(bs[..k], bs[k], bs[k + 1..]))
  {
    var after := Release(bs[..k], bs[k], bs[k + 1..]);
    UsedRelease(bs[..k], bs[k], bs[k + 1..]);
    UsedAround(bs, k);
    OnlyAt(bs, lo, hi, k);
    assert UsedSet(after) == UsedSet(bs) - {bs[k]};
    forall u | u in UsedSet(after)
      ensures u.addr in ReleasedLinks(links, start, bs, hi, k)
      ensures ReleasedLinks(links, start, bs, hi, k)[u.addr] == BlockLink(NULL, u.size + ALLOCATED_BIT)
    {
      ReleasedHeader(links, start, bs, lo, hi, k, u);
    }
    assert forall u <- after :: !u.free ==> u in UsedSet(after);
  }

  /** Everything vPortFree relies on. */
  lemma ReleasePlan(links: map<int, BlockLink>, start: int, s: PoolState, lo: int, hi: int, k: nat)
    requires Inv(s, lo, hi) && Rep(links, start, s.blocks, hi) && !(lo <= start <= hi)
    requires k < |s.blocks| && !s.blocks[k].free
    ensures Inv(FreeAt(s, k), lo, hi)
    ensures var u := s.blocks[k];
      && u.addr in links && links[u.addr] == BlockLink(NULL, u.size + ALLOCATED_BIT) && 0 < u.size <= hi - lo
      && Between(FreeOf(s.blocks[..k]), u.(free := true), FreeOf(s.blocks[k + 1..]), lo, hi)
      && ListAt(links[u.addr := BlockLink(NULL, u.size)], start, FreeOf(s.blocks[..k]) + FreeOf(s.blocks[k + 1..]), hi)
      && Rep(ReleasedLinks(links, start, s.blocks, hi, k), start, FreeAt(s, k).blocks, hi)
      && SameElsewhere(links, ReleasedLinks(links, start, s.blocks, hi, k), start, lo, hi)
  {
    FreeAtKeepsInv(s, lo, hi, k);
    UsedOffList(s.blocks, lo, hi, start, k);
    ReleasedList(links, start, s.blocks, lo, hi, k);
    ReleasedStart(links, start, s.blocks, lo, hi, k);
    ReleasedHeaders(links, start, s.blocks, lo, hi, k);
    ReleasedElsewhere(links, start, s.blocks, lo, hi, k);
    assert s.blocks[k] in s.blocks;
  }

  lemma LastOfInRegion(start: int, pre: seq<Block>, b: Block, lo: int)
    requires Ascending(pre, lo, b.addr)
    ensures var p := LastOf(pre, start); p.addr == start || lo <= p.addr < b.addr
  {
  }

  /** The header of the block at `a`, with garbage where nothing was ever written. */
  function Read(links: map<int, BlockLink>, a: int): BlockLink {
    if a in links then links[a] else BlockLink(NULL, 0)
  }

  /** The top bit of a 32-bit size word, tested and set as the source does with & and |. */
  predicate HasBit(w: int, bit: int)
    requires bit > 0
  {
    w / bit % 2 == 1
  }

  function SetBit(w: int, bit: int): int
    requires bit > 0
  {
    if HasBit(w, bit) then w else w + bit
  }

  function ClearBit(w: int, bit: int): int
    requires bit > 0
  {
    if HasBit(w, bit) then w - bit else w
  }

  lemma TopBit(w: int)
    requires 0 <= w < ALLOCATED_BIT
    ensures SetBit(w, ALLOCATED_BIT) == w + ALLOCATED_BIT
    ensures HasBit(w + ALLOCATED_BIT, ALLOCATED_BIT) && ClearBit(w + ALLOCATED_BIT, ALLOCATED_BIT) == w
  {
  }

  ghost predicate SameElsewhere(links: map<int, BlockLink>, links': map<int, BlockLink>, start: int, lo: int, hi: int) {
    && (forall a :: a in links && !(a == start || lo <= a <= hi) ==> (a in links' && links'[a] == links[a]))
    && (forall a :: a in links' && !(a == start || lo <= a <= hi) ==> a in links)
  }

  ghost function AlignUp(a: int): int {
    RoundUp(a)
  }

  ghost function AlignDown(a: int): int {
    a / BYTE_ALIGNMENT * BYTE_ALIGNMENT
  }

  /** One record of heap_table, and the region it manages. */
  class HeapPool {
    const mem: Memory
    const xStart: int               // address of the list head, inside heap_table
    const heapBase: int
    const configTOTAL_HEAP_SIZE: int
    var pxEnd: int
    var xFreeBytesRemaining: int
    var xMinimumEverFreeBytesRemaining: int
    var xBlockAllocatedBit: int
    ghost var blocks: seq<Block>

    ghost function Lo(): int {
      AlignUp(heapBase)
    }

    ghost function Hi(): int {
      AlignDown(heapBase + configTOTAL_HEAP_SIZE - HEAP_STRUCT_SIZE)
    }

    /** The pool reaches from the first word boundary of the region to the last one that
        leaves room for the end marker's header of 8 bytes. */
    lemma RegionInBytes()
      ensures Lo() % 4 == 0 && heapBase <= Lo() < heapBase + 4
      ensures Hi() % 4 == 0 && Hi() + 8 <= heapBase + configTOTAL_HEAP_SIZE < Hi() + 12
    {
    }

    /** What the linker script must provide: a region of less than 2^31 bytes below
        2^32, off address 0, with room for one block and the end marker. */
    ghost predicate Configured() {
      && 0 < heapBase && 0 <= configTOTAL_HEAP_SIZE < ALLOCATED_BIT
      && heapBase + configTOTAL_HEAP_SIZE <= ADDRESS_LIMIT
      && Lo() + HEAP_STRUCT_SIZE <= Hi()
      && !(Lo() <= xStart <= Hi())
    }

    ghost predicate Valid()
      reads this, mem
    {
      && Configured()
      && (pxEnd != NULL ==>
            && pxEnd == Hi()
            && xBlockAllocatedBit == ALLOCATED_BIT
            && Rep(mem.links, xStart, blocks, Hi())
            && Inv(PoolState(blocks, xFreeBytesRemaining, xMinimumEverFreeBytesRemaining), Lo(), Hi()))
    }

    /** A pool that was never used counts as already initialised. */
    ghost function State(): PoolState
      reads this
    {
      if pxEnd == NULL then InitState(Lo(), Hi())
      else PoolState(blocks, xFreeBytesRemaining, xMinimumEverFreeBytesRemaining)
    }

    constructor (mem: Memory, xStart: int, heapBase: int, configTOTAL_HEAP_SIZE: int)
      requires 0 < heapBase && 0 <= configTOTAL_HEAP_SIZE < ALLOCATED_BIT
      requires heapBase + configTOTAL_HEAP_SIZE <= ADDRESS_LIMIT
      requires AlignUp(heapBase) + HEAP_STRUCT_SIZE <= AlignDown(heapBase + configTOTAL_HEAP_SIZE - HEAP_STRUCT_SIZE)
      requires !(AlignUp(heapBase) <= xStart <= AlignDown(heapBase + configTOTAL_HEAP_SIZE - HEAP_STRUCT_SIZE))
      ensures this.mem == mem && this.xStart == xStart
      ensures this.heapBase == heapBase && this.configTOTAL_HEAP_SIZE == configTOTAL_HEAP_SIZE
      ensures Valid() && pxEnd == NULL
    {
      this.mem, this.xStart := mem, xStart;
      this.heapBase, this.configTOTAL_HEAP_SIZE := heapBase, configTOTAL_HEAP_SIZE;
      pxEnd, xFreeBytesRemaining, xMinimumEverFreeBytesRemaining, xBlockAllocatedBit := NULL, 0, 0, 0;
      blocks := [];
    }

    /** The region from its first aligned address on. */
    method AlignBase() returns (uxAddress: int, xTotalHeapSize: int)
      ensures uxAddress == Lo() && uxAddress + xTotalHeapSize == heapBase + configTOTAL_HEAP_SIZE
    {
      xTotalHeapSize := configTOTAL_HEAP_SIZE;
      uxAddress := heapBase;
      if uxAddress % BYTE_ALIGNMENT != 0 {
        uxAddress := uxAddress + (BYTE_ALIGNMENT - 1);
        uxAddress := uxAddress - uxAddress % BYTE_ALIGNMENT;
        xTotalHeapSize := xTotalHeapSize - (uxAddress - heapBase);
      }
    }

    method prvHeapInit()
      requires Valid() && pxEnd == NULL
      modifies this, mem
      ensures Valid() && pxEnd != NULL
      ensures State() == InitState(Lo(), Hi())
      ensures SameElsewhere(old(mem.links), mem.links, xStart, Lo(), Hi())
    {
      var pucAlignedHeap, xTotalHeapSize := AlignBase();
      mem.links := mem.links[xStart := BlockLink(pucAlignedHeap, 0)];
      var uxAddress := pucAlignedHeap + xTotalHeapSize;
      uxAddress := uxAddress - HEAP_STRUCT_SIZE;
      uxAddress := uxAddress - uxAddress % BYTE_ALIGNMENT;
      assert uxAddress == Hi();
      pxEnd := uxAddress;
      mem.links := mem.links[pxEnd := BlockLink(NULL, 0)];
      var pxFirstFreeBlock := pucAlignedHeap;
      mem.links := mem.links[pxFirstFreeBlock := BlockLink(pxEnd, uxAddress - pxFirstFreeBlock)];
      xMinimumEverFreeBytesRemaining := uxAddress - pxFirstFreeBlock;
      xFreeBytesRemaining := uxAddress - pxFirstFreeBlock;
      xBlockAllocatedBit := ALLOCATED_BIT;
      blocks := InitState(Lo(), Hi()).blocks;
      InitFacts(Lo(), Hi());
    }

    /** The search loop of prvInsertBlockIntoFreeList. */
    method FindInsertPoint(pxBlockToInsert: int, ghost pre: seq<Block>, ghost post: seq<Block>) returns (pxIterator: int)
      requires Configured()
      requires forall f <- pre :: f.addr < pxBlockToInsert
      requires forall f <- post :: f.addr > pxBlockToInsert
      requires pxBlockToInsert < Hi() && ListAt(mem.links, xStart, pre + post, Hi())
      ensures pxIterator == LastOf(pre, xStart).addr
    {
      ghost var hs := [Head(xStart)] + (pre + post);
      pxIterator := xStart;
      ghost var i := 0;
      assert hs[0].addr == xStart;
      while mem.links[pxIterator].pxNextFreeBlock < pxBlockToInsert
        invariant 0 <= i <= |pre|
        invariant pxIterator == hs[i].addr
        decreases |pre| - i
      {
        pxIterator := mem.links[pxIterator].pxNextFreeBlock;
        i := i + 1;
      }
    }

    /** The rest of prvInsertBlockIntoFreeList: join or link the block behind pxIterator. */
    method JoinBehind(pxIterator: int, pxBlock: int)
      requires pxIterator in mem.links && pxBlock in mem.links && mem.links[pxIterator].pxNextFreeBlock in mem.links
      requires pxIterator != pxBlock
      requires mem.links[pxIterator].pxNextFreeBlock != pxIterator && mem.links[pxIterator].pxNextFreeBlock != pxBlock
      modifies mem
      ensures mem.links == JoinedBehind(old(mem.links), pxIterator, pxBlock, pxEnd)
    {
      var pxBlockToInsert := pxBlock;
      var puc := pxIterator;
      if puc + mem.links[pxIterator].xBlockSize == pxBlockToInsert {
        mem.links := mem.links[pxIterator :=
          mem.links[pxIterator].(xBlockSize := mem.links[pxIterator].xBlockSize + mem.links[pxBlockToInsert].xBlockSize)];
        pxBlockToInsert := pxIterator;
      }
      puc := pxBlockToInsert;
      if puc + mem.links[pxBlockToInsert].xBlockSize == mem.links[pxIterator].pxNextFreeBlock {
        if mem.links[pxIterator].pxNextFreeBlock != pxEnd {
          var pxNext := mem.links[pxIterator].pxNextFreeBlock;
          mem.links := mem.links[pxBlockToInsert :=
            mem.links[pxBlockToInsert].(xBlockSize := mem.links[pxBlockToInsert].xBlockSize + mem.links[pxNext].xBlockSize)];
          mem.links := mem.links[pxBlockToInsert :=
            mem.links[pxBlockToInsert].(pxNextFreeBlock := mem.links[pxNext].pxNextFreeBlock)];
        } else {
          mem.links := mem.links[pxBlockToInsert := mem.links[pxBlockToInsert].(pxNextFreeBlock := pxEnd)];
        }
      } else {
        mem.links := mem.links[pxBlockToInsert :=
          mem.links[pxBlockToInsert].(pxNextFreeBlock := mem.links[pxIterator].pxNextFreeBlock)];
      }
      if pxIterator != pxBlockToInsert {
        mem.links := mem.links[pxIterator := mem.links[pxIterator].(pxNextFreeBlock := pxBlockToInsert)];
      }
    }

    /** Puts the block whose header is at pxBlock into the free list pre + post. */
    method prvInsertBlockIntoFreeList(pxBlockToInsert: int, ghost pre: seq<Block>, ghost post: seq<Block>)
      requires Configured() && pxEnd == Hi()
      requires pxBlockToInsert in mem.links
      requires Between(pre, Block(pxBlockToInsert, mem.links[pxBlockToInsert].xBlockSize, true), post, Lo(), Hi())
      requires ListAt(mem.links, xStart, pre + post, Hi())
      modifies mem
      ensures var b := Block(pxBlockToInsert, old(mem.links[pxBlockToInsert].xBlockSize), true);
        && mem.links == Linked(old(mem.links), xStart, pre, b, post, Hi())
        && ListAt(mem.links, xStart, Insert(pre, b, post), Hi())
    {
      ghost var b := Block(pxBlockToInsert, mem.links[pxBlockToInsert].xBlockSize, true);
      var pxIterator := FindInsertPoint(pxBlockToInsert, pre, post);
      JoinedIsLinked(mem.links, xStart, pre, b, post, Lo(), Hi());
      LinkedIsList(mem.links, xStart, pre, b, post, Lo(), Hi());
      JoinBehind(pxIterator, pxBlockToInsert);
    }

    /** The search loop of pvPortMalloc: the first block of adequate size, or the end marker. */
    method FindFirstFit(xWantedSize: int, ghost fs: seq<Block>) returns (pxPreviousBlock: int, pxBlock: int, ghost i: nat)
      requires Configured() && ListAt(mem.links, xStart, fs, Hi()) && Ascending(fs, Lo(), Hi()) && xWantedSize > 0
      ensures i <= |fs| && forall j :: 0 <= j < i ==> fs[j].size < xWantedSize
      ensures i == |fs| ==> pxBlock == Hi()
      ensures i < |fs| ==>
        && fs[i].size >= xWantedSize && pxBlock == fs[i].addr && pxBlock != Hi()
        && pxPreviousBlock == LastOf(fs[..i], xStart).addr
        && pxPreviousBlock in mem.links && mem.links[pxPreviousBlock].pxNextFreeBlock == pxBlock
    {
      pxPreviousBlock := xStart;
      i := 0;
      ListStep(mem.links, xStart, fs, Hi(), 0);
      pxBlock := mem.links[xStart].pxNextFreeBlock;
      while mem.links[pxBlock].xBlockSize < xWantedSize && mem.links[pxBlock].pxNextFreeBlock != NULL
        invariant 0 <= i <= |fs|
        invariant pxPreviousBlock == if i == 0 then xStart else fs[i - 1].addr
        invariant pxPreviousBlock in mem.links && mem.links[pxPreviousBlock].pxNextFreeBlock == pxBlock
        invariant pxBlock in mem.links && pxBlock == if i < |fs| then fs[i].addr else Hi()
        invariant forall j :: 0 <= j < i ==> fs[j].size < xWantedSize
        decreases |fs| - i
      {
        ListStep(mem.links, xStart, fs, Hi(), i + 1);
        pxPreviousBlock := pxBlock;
        pxBlock := mem.links[pxBlock].pxNextFreeBlock;
        i := i + 1;
      }
      if i < |fs| {
        ListStep(mem.links, xStart, fs, Hi(), i + 1);
      }
    }

    /** Takes the block b at pxBlock off the free list pre + [b] + post, and gives back
        what is left of it if that is more than two headers. */
    method UnlinkAndSplit(pxPreviousBlock: int, pxBlock: int, xWantedSize: int,
                          ghost pre: seq<Block>, ghost b: Block, ghost post: seq<Block>)
      requires Configured() && pxEnd == Hi() && Between(pre, b, post, Lo(), Hi())
      requires !TouchesRight(b, post) && 0 < xWantedSize <= b.size
      requires ListAt(mem.links, xStart, pre + ([b] + post), Hi())
      requires pxBlock == b.addr && pxPreviousBlock == LastOf(pre, xStart).addr
      modifies mem
      ensures mem.links == CarvedOff(old(mem.links), xStart, pre, b, post, Hi(), xWantedSize)
      ensures pxBlock in mem.links && mem.links[pxBlock].xBlockSize == Carve(b, xWantedSize)[0].size
    {
      UnlinkIsList(mem.links, xStart, pre, b, post, Lo(), Hi());
      CarvedOffFrame(mem.links, xStart, pre, b, post, Lo(), Hi(), xWantedSize);
      CarvedOffIsList(mem.links, xStart, pre, b, post, Lo(), Hi(), xWantedSize);
      mem.links := mem.links[pxPreviousBlock := mem.links[pxPreviousBlock].(pxNextFreeBlock := mem.links[pxBlock].pxNextFreeBlock)];
      if mem.links[pxBlock].xBlockSize - xWantedSize > HEAP_MINIMUM_BLOCK_SIZE {
        var pxNewBlockLink := pxBlock + xWantedSize;
        mem.links := mem.links[pxNewBlockLink := Read(mem.links, pxNewBlockLink).(xBlockSize := mem.links[pxBlock].xBlockSize - xWantedSize)];
        mem.links := mem.links[pxBlock := mem.links[pxBlock].(xBlockSize := xWantedSize)];
        prvInsertBlockIntoFreeList(pxNewBlockLink, pre, post);
      }
    }

    /** The free bytes and their minimum. */
    method CountDown(xBlockSize: int)
      modifies this`xFreeBytesRemaining, this`xMinimumEverFreeBytesRemaining
      ensures xFreeBytesRemaining == old(xFreeBytesRemaining) - xBlockSize
      ensures xMinimumEverFreeBytesRemaining
           == if xFreeBytesRemaining < old(xMinimumEverFreeBytesRemaining) then xFreeBytesRemaining else old(xMinimumEverFreeBytesRemaining)
    {
      xFreeBytesRemaining := xFreeBytesRemaining - xBlockSize;
      if xFreeBytesRemaining < xMinimumEverFreeBytesRemaining {
        xMinimumEverFreeBytesRemaining := xFreeBytesRemaining;
      }
    }

    /** Unlinking, counting, and marking the header as allocated. */
    method TakeFromList(pxPreviousBlock: int, pxBlock: int, xWantedSize: int,
                        ghost pre: seq<Block>, ghost b: Block, ghost post: seq<Block>)
      requires Configured() && pxEnd == Hi() && Between(pre, b, post, Lo(), Hi())
      requires !TouchesRight(b, post) && 0 < xWantedSize <= b.size < ALLOCATED_BIT
      requires xBlockAllocatedBit == ALLOCATED_BIT
      requires ListAt(mem.links, xStart, pre + ([b] + post), Hi())
      requires pxBlock == b.addr && pxPreviousBlock == LastOf(pre, xStart).addr
      modifies mem, this`xFreeBytesRemaining, this`xMinimumEverFreeBytesRemaining
      ensures var size := Carve(b, xWantedSize)[0].size;
        && mem.links == CarvedOff(old(mem.links), xStart, pre, b, post, Hi(), xWantedSize)[b.addr := BlockLink(NULL, size + ALLOCATED_BIT)]
        && xFreeBytesRemaining == old(xFreeBytesRemaining) - size
        && xMinimumEverFreeBytesRemaining
          == if xFreeBytesRemaining < old(xMinimumEverFreeBytesRemaining) then xFreeBytesRemaining else old(xMinimumEverFreeBytesRemaining)
    {
      UnlinkAndSplit(pxPreviousBlock, pxBlock, xWantedSize, pre, b, post);
      CountDown(mem.links[pxBlock].xBlockSize);
      TopBit(mem.links[pxBlock].xBlockSize);
      mem.links := mem.links[pxBlock := BlockLink(NULL, SetBit(mem.links[pxBlock].xBlockSize, xBlockAllocatedBit))];
    }

    /** The rest of pvPortMalloc, once pxBlock is found. */
    method TakeBlock(pxPreviousBlock: int, pxBlock: int, xWantedSize: int)
      requires Valid() && pxEnd != NULL
      requires xWantedSize > HEAP_STRUCT_SIZE && xWantedSize % BYTE_ALIGNMENT == 0
      requires var k := FirstFit(blocks, xWantedSize);
        k < |blocks| && pxBlock == blocks[k].addr && pxPreviousBlock == LastOf(FreeOf(blocks[..k]), xStart).addr
      modifies this, mem
      ensures Valid() && pxEnd != NULL
      ensures State() == Taken(old(State()), xWantedSize)
      ensures SameElsewhere(old(mem.links), mem.links, xStart, Lo(), Hi())
    {
      ghost var s, k := State(), FirstFit(blocks, xWantedSize);
      TakePlan(mem.links, xStart, s, Lo(), Hi(), xWantedSize);
      TakeFromList(pxPreviousBlock, pxBlock, xWantedSize, FreeOf(blocks[..k]), blocks[k], FreeOf(blocks[k + 1..]));
      blocks := Taken(s, xWantedSize).blocks;
    }

    /** pvPortMalloc once the request is rounded up. */
    method MallocRounded(xWantedSize: int) returns (pvReturn: int)
      requires Valid() && pxEnd != NULL
      requires xWantedSize > HEAP_STRUCT_SIZE && xWantedSize % BYTE_ALIGNMENT == 0
      modifies this, mem
      ensures Valid() && pxEnd != NULL
      ensures SameElsewhere(old(mem.links), mem.links, xStart, Lo(), Hi())
      ensures var s := old(State());
        var k := FirstFit(s.blocks, xWantedSize);
        if k < |s.blocks| then State() == Taken(s, xWantedSize) && pvReturn == s.blocks[k].addr + HEAP_STRUCT_SIZE
        else State() == s && pvReturn == NULL
    {
      pvReturn := NULL;
      EarlyTest(blocks, Lo(), Hi(), xWantedSize);
      if xWantedSize <= xFreeBytesRemaining {
        FreeOfAscending(blocks, Lo(), Hi());
        var pxPreviousBlock, pxBlock;
        ghost var i;
        pxPreviousBlock, pxBlock, i := FindFirstFit(xWantedSize, FreeOf(blocks));
        FirstFitInList(blocks, xWantedSize, i);
        if pxBlock != pxEnd {
          pvReturn := mem.links[pxPreviousBlock].pxNextFreeBlock + HEAP_STRUCT_SIZE;
          TakeBlock(pxPreviousBlock, pxBlock, xWantedSize);
        }
      }
    }

    method pvPortMalloc(xRequestedSize: int) returns (pvReturn: int)
      requires Valid() && 0 <= xRequestedSize < ADDRESS_LIMIT
      modifies this, mem
      ensures Valid() && pxEnd != NULL
      ensures State() == Malloc(old(State()), xRequestedSize)
      ensures pvReturn == MallocPtr(old(State()), xRequestedSize)
      ensures SameElsewhere(old(mem.links), mem.links, xStart, Lo(), Hi())
    {
      pvReturn := NULL;
      var xWantedSize := xRequestedSize;
      if pxEnd == NULL {
        prvHeapInit();
      }
      if !HasBit(xWantedSize, xBlockAllocatedBit) {
        if xWantedSize > 0 {
          xWantedSize := xWantedSize + HEAP_STRUCT_SIZE;
          if xWantedSize % BYTE_ALIGNMENT != 0 {
            xWantedSize := xWantedSize + (BYTE_ALIGNMENT - xWantedSize % BYTE_ALIGNMENT);
          }
          assert xWantedSize == BlockSizeFor(xRequestedSize);
        }
        if xWantedSize > 0 {
          pvReturn := MallocRounded(xWantedSize);
        }
      }
    }

    /** vPortFree on a header: if it is allocated, clear the bit, count and insert. */
    method FreeHeader(pxLink: int, ghost pre: seq<Block>, ghost u: Block, ghost post: seq<Block>)
      requires Configured() && pxEnd == Hi() && xBlockAllocatedBit == ALLOCATED_BIT
      requires u.free && pxLink == u.addr && 0 < u.size < ALLOCATED_BIT && Between(pre, u, post, Lo(), Hi())
      requires pxLink in mem.links && mem.links[pxLink] == BlockLink(NULL, u.size + ALLOCATED_BIT)
      requires ListAt(mem.links[u.addr := BlockLink(NULL, u.size)], xStart, pre + post, Hi())
      modifies mem, this`xFreeBytesRemaining
      ensures mem.links == Linked(old(mem.links)[u.addr := BlockLink(NULL, u.size)], xStart, pre, u, post, Hi())
      ensures xFreeBytesRemaining == old(xFreeBytesRemaining) + u.size
    {
      TopBit(u.size);
      if HasBit(mem.links[pxLink].xBlockSize, xBlockAllocatedBit) {
        if mem.links[pxLink].pxNextFreeBlock == NULL {
          mem.links := mem.links[pxLink := mem.links[pxLink].(xBlockSize := ClearBit(mem.links[pxLink].xBlockSize, xBlockAllocatedBit))];
          xFreeBytesRemaining := xFreeBytesRemaining + mem.links[pxLink].xBlockSize;
          prvInsertBlockIntoFreeList(pxLink, pre, post);
        }
      }
    }

    /** vPortFree on the k-th block of the pool. */
    method FreeBlock(pxLink: int, ghost k: nat)
      requires Valid() && pxEnd != NULL
      requires k < |blocks| && !blocks[k].free && blocks[k].addr == pxLink
      modifies this, mem
      ensures Valid() && pxEnd != NULL
      ensures State() == FreeAt(old(State()), k)
      ensures SameElsewhere(old(mem.links), mem.links, xStart, Lo(), Hi())
    {
      ghost var s := State();
      ReleasePlan(mem.links, xStart, s, Lo(), Hi(), k);
      FreeHeader(pxLink, FreeOf(blocks[..k]), blocks[k].(free := true), FreeOf(blocks[k + 1..]));
      blocks := FreeAt(s, k).blocks;
    }

    /** Callers may free NULL or a pointer that is live in this pool. */
    method vPortFree(pv: int)
      requires Valid() && (pv != NULL ==> IsLive(State(), pv))
      modifies this, mem
      ensures Valid()
      ensures State() == Free(old(State()), pv)
      ensures SameElsewhere(old(mem.links), mem.links, xStart, Lo(), Hi())
    {
      if pv != NULL {
        InitNothingLive(Lo(), Hi(), pv);
        ghost var k :| 0 <= k < |blocks| && UsedAt(blocks, k, pv);
        FreeIsFreeAt(State(), Lo(), Hi(), pv, k);
        FreeBlock(pv - HEAP_STRUCT_SIZE, k);
      }
    }
  }

  // ----- both pools -----

  datatype PoolId = HEAP_POOL_SYSTEM | HEAP_POOL_ETH_TX

  /** heap_table: two pools in one memory, in regions that do not meet. */
  class HeapTable {
    const system: HeapPool
    const ethTx: HeapPool

    ghost predicate Valid()
      reads this, system, ethTx, system.mem, ethTx.mem
    {
      && system != ethTx && system.mem == ethTx.mem
      && system.Valid() && ethTx.Valid()
      && Apart(system, ethTx) && Apart(ethTx, system)
    }

    constructor (system: HeapPool, ethTx: HeapPool)
      requires system != ethTx && system.mem == ethTx.mem && system.Valid() && ethTx.Valid()
      requires Apart(system, ethTx) && Apart(ethTx, system)
      ensures Valid() && this.system == system && this.ethTx == ethTx
    {
      this.system, this.ethTx := system, ethTx;
    }

    function Pool(id: PoolId): HeapPool {
      if id == HEAP_POOL_SYSTEM then system else ethTx
    }

    function Other(id: PoolId): HeapPool {
      if id == HEAP_POOL_SYSTEM then ethTx else system
    }

    /** malloc on one pool is Malloc on its state and leaves the other pool's state alone. */
    method pvPortMalloc(pool: PoolId, xWantedSize: int) returns (pvReturn: int)
      requires Valid() && 0 <= xWantedSize < ADDRESS_LIMIT
      modifies Pool(pool), system.mem
      ensures Valid()
      ensures Pool(pool).State() == Malloc(old(Pool(pool).State()), xWantedSize)
      ensures pvReturn == MallocPtr(old(Pool(pool).State()), xWantedSize)
      ensures Other(pool).State() == old(Other(pool).State())
    {
      ghost var links0 := system.mem.links;
      pvReturn := Pool(pool).pvPortMalloc(xWantedSize);
      PoolFrame(Other(pool), Pool(pool), links0);
    }

    method vPortFree(pool: PoolId, pv: int)
      requires Valid() && (pv != NULL ==> IsLive(Pool(pool).State(), pv))
      modifies Pool(pool), system.mem
      ensures Valid()
      ensures Pool(pool).State() == Free(old(Pool(pool).State()), pv)
      ensures Other(pool).State() == old(Other(pool).State())
    {
      ghost var links0 := system.mem.links;
      Pool(pool).vPortFree(pv);
      PoolFrame(Other(pool), Pool(pool), links0);
    }
  }

  /** No header of q's, list head included, lies where p may write. */
  ghost predicate Apart(p: HeapPool, q: HeapPool) {
    && (q.Hi() < p.Lo() || p.Hi() < q.Lo())
    && p.xStart != q.xStart && !(q.Lo() <= p.xStart <= q.Hi())
  }

  lemma PoolFrame(q: HeapPool, p: HeapPool, links0: map<int, BlockLink>)
    requires q.mem == p.mem && q.Configured() && Apart(p, q) && Apart(q, p)
    requires SameElsewhere(links0, p.mem.links, p.xStart, p.Lo(), p.Hi())
    requires q.pxEnd != NULL ==>
      && q.pxEnd == q.Hi() && q.xBlockAllocatedBit == ALLOCATED_BIT
      && Rep(links0, q.xStart, q.blocks, q.Hi())
      && Inv(PoolState(q.blocks, q.xFreeBytesRemaining, q.xMinimumEverFreeBytesRemaining), q.Lo(), q.Hi())
    ensures q.Valid()
  {
    if q.pxEnd != NULL {
      RepFrame(links0, p.mem.links, q.xStart, q.blocks, q.Lo(), q.Hi());
    }
  }

  /** The test against xFreeBytesRemaining turns away only requests that no block fits. */
  lemma EarlyTest(bs: seq<Block>, lo: int, hi: int, want: int)
    requires Tiles(bs, lo, hi)
    ensures want > FreeSum(bs) ==> FirstFit(bs, want) == |bs|
  {
    var k := FirstFit(bs, want);
    if k < |bs| {
      FreeFitsSum(bs, lo, hi, k);
    }
  }

  lemma InitNothingLive(lo: int, hi: int, ptr: int)
    ensures !IsLive(InitState(lo, hi), ptr)
  {
  }

  lemma InitFacts(lo: int, hi: int)
    requires lo + HEAP_STRUCT_SIZE <= hi && (hi - lo) % BYTE_ALIGNMENT == 0
    ensures Inv(InitState(lo, hi), lo, hi)
    ensures FreeOf(InitState(lo, hi).blocks) == InitState(lo, hi).blocks
  {
    var bs := InitState(lo, hi).blocks;
    assert bs[1..] == [];
    OneBlock(bs[0]);
  }
}
