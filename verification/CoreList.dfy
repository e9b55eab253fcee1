/** The linked list of core_list_join.c: nodes, data items and comparators. */
module CoreList {
  import opened RunOrder

  /** A 16-bit item: the backup byte times 256, plus the working byte. */
  newtype Data16 = d: int | 0 <= d < 0x1_0000

  class ListData {
    var data16: Data16
    var idx: int
  }

  class ListHead {
    var next: ListHead?
    var info: ListData

    constructor (info: ListData) {
      this.info := info;
      next := null;
    }
  }

  // ----- comparators -----

  /** cmp_idx with res == NULL (regen) or not, and cmp_complex. */
  datatype Cmp = CmpIdx(regen: bool) | CmpComplex

  function High(d: Data16): Data16 {
    d / 0x100
  }

  /** (d & 0xff00) | (0x00ff & (d >> 8)): the low byte restored from the backup byte. */
  function Regen(d: Data16): Data16 {
    High(d) * 0x100 + High(d)
  }

  predicate IsRegen(d: Data16) {
    d % 0x100 == High(d)
  }

  /** Bit 7: the low 7 bits hold the cached result of calc_func. */
  predicate IsCached(d: Data16) {
    d / 0x80 % 2 == 1
  }

  /** d & 0x007f */
  function Low7(d: Data16): Data16 {
    d % 0x80
  }

  /** (d & 0xff00) | 0x0080 | low7 */
  function Cached(d: Data16, low7: Data16): (c: Data16)
    requires low7 < 0x80
    ensures IsCached(c) && High(c) == High(d) && Low7(c) == low7
  {
    High(d) * 0x100 + 0x80 + low7
  }

  /** Another comparison will not change the data item any more. */
  predicate Settled(cmp: Cmp, d: Data16) {
    match cmp
    case CmpIdx(regen) => regen ==> IsRegen(d)
    case CmpComplex => IsCached(d)
  }

  /** What a settled item is ordered by. */
  function Key(cmp: Cmp, d: Data16, idx: int): int {
    match cmp
    case CmpIdx(_) => idx
    case CmpComplex => Low7(d) as int
  }

  lemma RegenFacts(d: Data16)
    ensures IsRegen(Regen(d)) && High(Regen(d)) == High(d)
    ensures IsRegen(d) ==> Regen(d) == d
  {
  }

  /** A restored item with the same backup byte is the same item if that was restored. */
  lemma RegenDetermined(d: Data16, e: Data16)
    requires IsRegen(e) && High(d) == High(e)
    ensures d == e <==> IsRegen(d)
  {
    RegenFacts(d);
    RegenFacts(e);
  }

  /** The result of calc_func is in the item: cached, or its own low bits. Types 0 and 1 of
      the operation run a benchmark instead. */
  predicate Plain(d: Data16) {
    IsCached(d) || d % 8 >= 2
  }

  /** What comparisons leave of an item `was`. */
  predicate Kept(cmp: Cmp, was: Data16, d: Data16) {
    && High(d) == High(was)
    && (cmp == CmpIdx(false) ==> d == was)
    && (cmp == CmpComplex && Plain(was) ==> Plain(d) && d % 0x80 == was % 0x80)
  }

  /** calc_func: the benchmark results of operation types 0 and 1 are arbitrary here. */
  method CalcFunc(pdata: ListData) returns (retval: Data16)
    modifies pdata`data16
    ensures var was := old(pdata.data16);
      was / 0x80 % 2 == 0 && was % 8 >= 2 ==> retval == was % 0x80 && pdata.data16 == was / 0x100 * 0x100 + 0x80 + was % 0x80
    ensures var was := old(pdata.data16);
      was / 0x80 % 2 == 1 ==> retval == was % 0x80 && pdata.data16 == was
    ensures Kept(CmpComplex, old(pdata.data16), pdata.data16)
    ensures IsCached(pdata.data16) && High(pdata.data16) == High(old(pdata.data16))
    ensures IsCached(old(pdata.data16)) ==> pdata.data16 == old(pdata.data16)
    ensures retval == Low7(pdata.data16)
  {
    var data := pdata.data16;
    if IsCached(data) {
      return Low7(data);
    }
    var flag := data % 8;
    if flag == 0 || flag == 1 {
      retval := *;
    } else {
      retval := data;
    }
    retval := Low7(retval);
    pdata.data16 := Cached(data, retval);
  }

  /** A comparison settles both items, changes no settled one, and its sign is that of
      the difference of the keys. */
  method Compare(cmp: Cmp, a: ListData, b: ListData) returns (r: int)
    requires a != b
    modifies a`data16, b`data16
    ensures Settled(cmp, a.data16) && Settled(cmp, b.data16)
    ensures Settled(cmp, old(a.data16)) ==> a.data16 == old(a.data16)
    ensures Settled(cmp, old(b.data16)) ==> b.data16 == old(b.data16)
    ensures Kept(cmp, old(a.data16), a.data16) && Kept(cmp, old(b.data16), b.data16)
    ensures r == Key(cmp, a.data16, a.idx) - Key(cmp, b.data16, b.idx)
  {
    match cmp
    case CmpIdx(regen) =>
      if regen {
        RegenFacts(a.data16);
        RegenFacts(b.data16);
        a.data16 := Regen(a.data16);
        b.data16 := Regen(b.data16);
      }
      r := a.idx - b.idx;
    case CmpComplex =>
      var val1 := CalcFunc(a);
      var val2 := CalcFunc(b);
      r := val1 as int - val2 as int;
  }

  // ----- lists in memory -----

  ghost function At(s: seq<ListHead>, i: nat): ListHead? {
    if i < |s| then s[i] else null
  }

  ghost function NodeSet(s: seq<ListHead>): set<ListHead> {
    set n | n in s
  }

  ghost function InfoSet(s: seq<ListHead>): set<ListData>
    reads s`info
  {
    set n | n in s :: n.info
  }

  /** The nodes are different and so are their data items. */
  ghost predicate Nodes(s: seq<ListHead>)
    reads s`info
  {
    Distinct(s) && forall i, j :: 0 <= i < j < |s| ==> s[i].info != s[j].info
  }

  /** The nodes s[lo..hi] link to their successors in s, the last of s to NULL. */
  ghost predicate LinksIn(s: seq<ListHead>, lo: nat, hi: nat)
    reads s`next
  {
    && (forall j, k :: lo <= j < hi && k == j + 1 < |s| ==> s[j].next == s[k])
    && (lo < hi == |s| ==> s[hi - 1].next == null)
  }

  ghost predicate LinksFrom(s: seq<ListHead>, i: nat)
    reads s`next
  {
    LinksIn(s, i, |s|)
  }

  /** The list that starts at `list` is exactly s. */
  ghost predicate IsList(list: ListHead?, s: seq<ListHead>)
    reads s`next, s`info
  {
    list == At(s, 0) && Nodes(s) && LinksFrom(s, 0)
  }

  /** The merged list so far: linked up to its tail, whose own link is still old. */
  ghost predicate Built(out: seq<ListHead>, list: ListHead?, tail: ListHead?)
    reads out`next
  {
    && list == At(out, 0) && tail == (if out == [] then null else out[|out| - 1])
    && forall j, k :: 0 <= j && k == j + 1 < |out| ==> out[j].next == out[k]
  }

  /** The order's keys are the items' current ones, settled where the order says so, and
      comparisons have left of the data in `was` what they must. */
  ghost predicate KeysAt(cmp: Cmp, o: Order<ListHead>, was: map<ListHead, Data16>, s: seq<ListHead>)
    reads s`info, InfoSet(s)`data16, InfoSet(s)`idx
  {
    && Covers(o, s)
    && forall n <- s ::
         && o.key[n] == Key(cmp, n.info.data16, n.info.idx)
         && (n in o.done ==> Settled(cmp, n.info.data16))
         && n in was && Kept(cmp, was[n], n.info.data16)
  }

  /** The data of the list's items. */
  ghost function Datas(s: seq<ListHead>): map<ListHead, Data16>
    reads s`info, InfoSet(s)`data16
  {
    map n | n in s :: n.info.data16
  }

  /** The backup bytes of the list's items. */
  ghost function Highs(s: seq<ListHead>): map<ListHead, Data16>
    reads s`info, InfoSet(s)`data16
  {
    map n | n in s :: High(n.info.data16)
  }
}
