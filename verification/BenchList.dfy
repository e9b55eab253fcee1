/** List surgery of core_list_join.c and the run of core_bench_list over it. */
module BenchList {
  import opened RunOrder
  import opened CoreList
  import opened MergeSort

  // ----- reverse -----

  ghost function Reversed<T>(s: seq<T>): (r: seq<T>)
    ensures |r| == |s|
  {
    if s == [] then [] else Reversed(s[1..]) + [s[0]]
  }

  lemma {:induction false} ReversedAt<T>(s: seq<T>, k: nat)
    requires k < |s|
    ensures Reversed(s)[k] == s[|s| - 1 - k]
  {
    if k < |s| - 1 {
      ReversedAt(s[1..], k);
    }
  }

  lemma {:induction false} ReversedSame<T>(s: seq<T>)
    ensures multiset(Reversed(s)) == multiset(s)
  {
    if s != [] {
      ReversedSame(s[1..]);
      assert s == [s[0]] + s[1..];
    }
  }

  lemma IsReversed<T>(s: seq<T>, r: seq<T>)
    requires |r| == |s| && forall k :: 0 <= k < |s| ==> r[k] == s[|s| - 1 - k]
    ensures r == Reversed(s)
  {
    forall k | 0 <= k < |s| ensures r[k] == Reversed(s)[k] {
      ReversedAt(s, k);
    }
  }

  lemma ReversedNodes(s: seq<ListHead>)
    requires Nodes(s)
    ensures Nodes(Reversed(s))
  {
    forall k | 0 <= k < |s| ensures Reversed(s)[k] == s[|s| - 1 - k] {
      ReversedAt(s, k);
    }
  }

  method core_list_reverse(list0: ListHead?, ghost s: seq<ListHead>) returns (next: ListHead?)
    requires IsList(list0, s)
    modifies NodeSet(s)`next
    ensures IsList(next, Reversed(s)) && multiset(Reversed(s)) == multiset(s)
  {
    var list := list0;
    next := null;
    ghost var r: seq<ListHead> := [];
    while list != null
      invariant |r| <= |s| && forall k :: 0 <= k < |r| ==> r[k] == s[|r| - 1 - k]
      invariant list == At(s, |r|) && LinksFrom(s, |r|)
      invariant next == At(r, 0) && LinksFrom(r, 0)
      decreases |s| - |r|
    {
      var tmp := list.next;
      assert forall k :: 0 <= k < |r| ==> r[k] != list;
      list.next := next;
      next := list;
      list := tmp;
      r := [next] + r;
    }
    IsReversed(s, r);
    ReversedNodes(s);
    ReversedSame(s);
  }

  // ----- find -----

  /** core_list_find looks for idx if it is not negative, else for the working byte. */
  predicate Matches(d: ListData, idx: int, data16: Data16)
    reads d
  {
    if idx >= 0 then d.idx == idx else d.data16 % 0x100 == data16
  }

  method core_list_find(list0: ListHead?, idx: int, data16: Data16, ghost s: seq<ListHead>) returns (list: ListHead?, ghost k: nat)
    requires IsList(list0, s)
    ensures k <= |s| && list == At(s, k)
    ensures forall j :: 0 <= j < k ==> !Matches(s[j].info, idx, data16)
    ensures k < |s| ==> Matches(s[k].info, idx, data16)
    ensures list != null ==> Matches(list.info, idx, data16)
  {
    list := list0;
    k := 0;
    if idx >= 0 {
      while list != null && list.info.idx != idx
        invariant k <= |s| && list == At(s, k)
        invariant forall j :: 0 <= j < k ==> !Matches(s[j].info, idx, data16)
        decreases |s| - k
      {
        list := list.next;
        k := k + 1;
      }
    } else {
      while list != null && list.info.data16 % 0x100 != data16
        invariant k <= |s| && list == At(s, k)
        invariant forall j :: 0 <= j < k ==> !Matches(s[j].info, idx, data16)
        decreases |s| - k
      {
        list := list.next;
        k := k + 1;
      }
    }
  }

  // ----- remove and undo -----

  ghost function Infos(s: seq<ListHead>): map<ListHead, ListData>
    reads s`info
  {
    map n | n in s :: n.info
  }

  /** Every node points to the item it has in the map. */
  ghost predicate InfosAre(infos: map<ListHead, ListData>)
    reads infos.Keys`info
  {
    forall n <- infos.Keys :: n.info == infos[n]
  }

  /** The node after item leaves the list with item's data, item keeps the other data. */
  method core_list_remove(item: ListHead, ghost list: ListHead?, ghost s: seq<ListHead>, ghost i: nat) returns (ret: ListHead)
    requires IsList(list, s) && i + 1 < |s| && item == s[i]
    modifies {s[i], s[i + 1]}
    ensures ret == s[i + 1] && ret.next == null
    ensures item.info == old(ret.info) && ret.info == old(item.info)
    ensures IsList(list, s[..i + 1] + s[i + 2..])
    ensures Nodes(s)
  {
    ret := item.next;
    assert ret == s[i + 1];
    var tmp := item.info;
    item.info := ret.info;
    ret.info := tmp;
    item.next := item.next.next;
    ret.next := null;
  }

  /** core_list_undo_remove exactly undoes core_list_remove: links and info pointers. */
  method core_list_undo_remove(item_removed: ListHead, item_modified: ListHead,
                               ghost list: ListHead?, ghost s: seq<ListHead>, ghost i: nat) returns (ret: ListHead)
    requires Nodes(s) && i + 1 < |s| && item_modified == s[i] && item_removed == s[i + 1]
    requires IsList(list, s[..i + 1] + s[i + 2..])
    modifies {s[i], s[i + 1]}
    ensures ret == item_removed && IsList(list, s)
    ensures item_removed.info == old(item_modified.info) && item_modified.info == old(item_removed.info)
  {
    ghost var t := s[..i + 1] + s[i + 2..];
    assert forall j :: 0 <= j <= i ==> t[j] == s[j];
    assert forall j :: i + 1 < j < |s| ==> s[j] == t[j - 1];
    var tmp := item_removed.info;
    item_removed.info := item_modified.info;
    item_modified.info := tmp;
    item_removed.next := item_modified.next;
    item_modified.next := item_removed;
    ret := item_removed;
  }

  // ----- the search loop -----

  /** "Cache next item at the head of the list": the successor of r[j] moves to just
      behind the head. */
  ghost function CacheNext<T>(r: seq<T>, j: nat): seq<T>
    requires j < |r|
  {
    if j + 1 < |r| then [r[0], r[j + 1]] + r[1..j + 1] + r[j + 2..] else r
  }

  lemma CacheNextSame<T>(r: seq<T>, j: nat)
    requires j < |r|
    ensures multiset(CacheNext(r, j)) == multiset(r)
  {
    if j + 1 < |r| {
      SplitAt(r, j);
      PiecesExchanged([r[0]], r[1..j + 1], [r[j + 1]], r[j + 2..]);
    }
  }

  lemma SplitAt<T>(r: seq<T>, j: nat)
    requires j + 1 < |r|
    ensures r == [r[0]] + r[1..j + 1] + [r[j + 1]] + r[j + 2..]
    ensures CacheNext(r, j) == [r[0]] + [r[j + 1]] + r[1..j + 1] + r[j + 2..]
  {
  }

  lemma PiecesExchanged<T>(a: seq<T>, b: seq<T>, c: seq<T>, d: seq<T>)
    ensures multiset(a + c + b + d) == multiset(a + b + c + d)
  {
    assert multiset(a + c + b) == multiset(a + b + c);
  }

  lemma Rearranged(s: seq<ListHead>, t: seq<ListHead>)
    requires Nodes(s) && multiset(t) == multiset(s)
    ensures Nodes(t)
  {
    SameMembers(s, t);
    DistinctSame(s, t);
    SameNodes(s, t);
  }

  lemma SameMembers<T>(s: seq<T>, t: seq<T>)
    requires multiset(t) == multiset(s)
    ensures forall x :: x in t <==> x in s
  {
    forall x ensures x in t <==> x in s {
      assert x in multiset(t) <==> x in multiset(s);
    }
  }

  lemma MembersKept<T>(s: seq<T>, t: seq<T>)
    requires multiset(t) == multiset(s)
    ensures |t| == |s| && forall x <- t :: x in s
  {
    assert |multiset(t)| == |multiset(s)|;
    forall x | x in t ensures x in s {
      assert x in multiset(t);
    }
  }

  lemma {:induction false} DistinctMultiset<T>(s: seq<T>)
    ensures Distinct(s) <==> forall x <- s :: multiset(s)[x] <= 1
  {
    if s != [] {
      var t := s[1..];
      DistinctMultiset(t);
      assert multiset(s) == multiset{s[0]} + multiset(t) by { assert s == [s[0]] + t; }
      assert s[0] in t <==> multiset(t)[s[0]] >= 1;
      if Distinct(s) {
        forall x | x in s ensures multiset(s)[x] <= 1 {
          assert x == s[0] || x in t;
        }
      }
      if forall x <- s :: multiset(s)[x] <= 1 {
        forall x | x in t ensures multiset(t)[x] <= 1 {
          assert x in s;
        }
        assert s[0] in s;
      }
    }
  }

  lemma DistinctSame<T>(s: seq<T>, t: seq<T>)
    requires Distinct(s) && multiset(t) == multiset(s)
    ensures Distinct(t)
  {
    SameMembers(s, t);
    DistinctMultiset(s);
    DistinctMultiset(t);
  }

  /** The three assignments behind a successful find, on the reversed list. */
  method Relink(list: ListHead, this_find: ListHead, ghost r: seq<ListHead>, ghost j: nat)
    requires Distinct(r) && LinksFrom(r, 0) && list == At(r, 0) && j < |r| - 1 && this_find == r[j]
    modifies {r[0], r[j], r[j + 1]}`next
    ensures j == 0 ==> LinksFrom(r, 0)
    ensures j > 0 ==> r[0].next == r[j + 1] && r[j + 1].next == r[1] && r[j].next == At(r, j + 2)
    ensures j > 0 ==> forall k, i :: 0 < k < |r| && k != j && k != j + 1 && i == k + 1 < |r| ==> r[k].next == r[i]
    ensures j + 2 < |r| ==> r[|r| - 1].next == null
  {
    assert r[j].next == r[j + 1] && r[j + 1].next == At(r, j + 2);
    var finder := this_find.next;
    this_find.next := finder.next;
    finder.next := list.next;
    list.next := finder;
  }

  /** "Cache next item at the head of the list", when there is a next item. */
  method CacheNextItem(list: ListHead, this_find: ListHead, ghost r: seq<ListHead>, ghost j: nat)
    requires IsList(list, r) && j < |r| && this_find == r[j]
    modifies NodeSet(r)`next
    ensures IsList(list, CacheNext(r, j)) && multiset(CacheNext(r, j)) == multiset(r)
  {
    CacheNextSame(r, j);
    Rearranged(r, CacheNext(r, j));
    if this_find.next != null {
      Relink(list, this_find, r, j);
      if j == 0 {
        assert CacheNext(r, 0) == r;
      } else {
        CachedLinks(r, j);
      }
    }
  }

  lemma CachedLinks(r: seq<ListHead>, j: nat)
    requires 0 < j < |r| - 1 && Distinct(r)
    requires r[0].next == r[j + 1] && r[j + 1].next == r[1] && r[j].next == At(r, j + 2)
    requires forall k, i :: 0 < k < |r| && k != j && k != j + 1 && i == k + 1 < |r| ==> r[k].next == r[i]
    requires j + 2 < |r| ==> r[|r| - 1].next == null
    ensures LinksFrom(CacheNext(r, j), 0) && At(CacheNext(r, j), 0) == r[0]
  {
    CacheNextAt(r, j);
    var c := CacheNext(r, j);
    forall k, i | 0 <= k && i == k + 1 < |c| ensures c[k].next == c[i] {
      if k == 0 {
      } else if k == 1 {
      } else if k < j + 1 {
        assert c[k] == r[k - 1] && c[i] == r[k];
      } else if k == j + 1 {
        assert c[k] == r[j] && c[i] == r[j + 2];
      }
    }
    assert j + 2 == |r| ==> c[|c| - 1] == r[j];
  }

  lemma CacheNextAt<T>(r: seq<T>, j: nat)
    requires j + 1 < |r|
    ensures var c := CacheNext(r, j);
      && |c| == |r| && c[0] == r[0] && c[1] == r[j + 1]
      && (forall k, i :: 2 <= k <= j + 1 && i == k - 1 ==> c[k] == r[i])
      && (forall k :: j + 2 <= k < |r| ==> c[k] == r[k])
  {
    var c, front, mid, back := CacheNext(r, j), [r[0], r[j + 1]], r[1..j + 1], r[j + 2..];
    assert c == front + (mid + back);
    forall k, i | 2 <= k <= j + 1 && i == k - 1 ensures c[k] == r[i] {
      assert c[k] == mid[k - 2];
    }
    forall k | j + 2 <= k < |r| ensures c[k] == r[k] {
      assert c[k] == back[k - j - 2];
    }
  }

  function Wrap16(x: int): nat {
    x % 0x1_0000
  }

  lemma WrapAdds(x: int, y: int)
    ensures Wrap16(Wrap16(x) + y) == Wrap16(x + y)
  {
  }

  /** A 16-bit counter steps past 0x7fff to -0x8000. */
  function Next16(i: int): int {
    if i == 0x7fff then -0x8000 else i + 1
  }

  /** The list after a turn that found place k, or nothing. */
  ghost function Turned<T>(s: seq<T>, k: nat): (r: seq<T>)
    ensures |r| == |s|
  {
    if k < |s| then CacheNext(Reversed(s), |s| - 1 - k) else Reversed(s)
  }

  /** The list after one turn for each place in ks. */
  ghost function Turns<T>(s: seq<T>, ks: seq<nat>): (r: seq<T>)
    ensures |r| == |s|
  {
    if ks == [] then s else Turned(Turns(s, ks[..|ks| - 1]), ks[|ks| - 1])
  }

  /** What the search can see of the items: index and data. */
  type Sight = ListHead -> (int, Data16)

  ghost function SightOf(s: seq<ListHead>): Sight
    reads s`info, InfoSet(s)
  {
    var items := map n | n in s :: (n.info.idx, n.info.data16);
    n => if n in items then items[n] else (0, 0)
  }

  ghost predicate Sees(seen: Sight, s: seq<ListHead>)
    reads s`info, InfoSet(s)
  {
    forall i :: 0 <= i < |s| ==> seen(s[i]) == (s[i].info.idx, s[i].info.data16)
  }

  lemma SeesAll(seen: Sight, s: seq<ListHead>, t: seq<ListHead>)
    requires Sees(seen, s) && multiset(t) == multiset(s)
    ensures Sees(seen, t)
  {
    MembersKept(s, t);
    forall i | 0 <= i < |t| ensures seen(t[i]) == (t[i].info.idx, t[i].info.data16) {
      assert t[i] in s;
    }
  }

  ghost predicate Hits(item: (int, Data16), idx: int, data16: Data16) {
    if idx >= 0 then item.0 == idx else item.1 % 0x100 == data16
  }

  ghost predicate FirstHit(seen: Sight, s: seq<ListHead>, idx: int, data16: Data16, k: nat) {
    && k <= |s| && (forall j :: 0 <= j < k ==> !Hits(seen(s[j]), idx, data16))
    && (k < |s| ==> Hits(seen(s[k]), idx, data16))
  }

  /** The index looked for in turn t. */
  function IdxAt(finder_idx: int, t: nat): int {
    if t == 0 then finder_idx
    else if IdxAt(finder_idx, t - 1) >= 0 then Next16(IdxAt(finder_idx, t - 1)) else IdxAt(finder_idx, t - 1)
  }

  function LowByte(i: int): Data16 {
    (i % 0x100) as Data16
  }

  /** Each turn found the first item that it looked for. */
  ghost predicate SearchedAs(seen: Sight, s0: seq<ListHead>, finder_idx: int, ks: seq<nat>)
    decreases |ks|
  {
    ks == [] ||
      var last := |ks| - 1;
      SearchedAs(seen, s0, finder_idx, ks[..last])
      && FirstHit(seen, Turns(s0, ks[..last]), IdxAt(finder_idx, last), LowByte(last), ks[last])
  }

  /** What a turn adds to the checksum: a bit of the found item if its lowest bit is set, or
      of the new second one if nothing was found. */
  ghost function TurnBit(seen: Sight, s: seq<ListHead>, k: nat): nat
    requires |s| >= 2
  {
    if k < |s| then (if seen(s[k]).1 % 2 == 1 then seen(s[k]).1 as int / 0x200 % 2 else 0)
    else seen(s[|s| - 2]).1 as int / 0x100 % 2
  }

  ghost function TurnBits(seen: Sight, s0: seq<ListHead>, finder_idx: int, ks: seq<nat>): nat
    requires |s0| >= 2 && SearchedAs(seen, s0, finder_idx, ks)
    decreases |ks|
  {
    if ks == [] then 0
    else
      var last := |ks| - 1;
      TurnBits(seen, s0, finder_idx, ks[..last]) + TurnBit(seen, Turns(s0, ks[..last]), ks[last])
  }

  /** k is the first place that matches. */
  ghost predicate FirstMatch(s: seq<ListHead>, idx: int, data16: Data16, k: nat)
    reads s`info, InfoSet(s)
  {
    && k <= |s| && (forall j :: 0 <= j < k ==> !Matches(s[j].info, idx, data16))
    && (k < |s| ==> Matches(s[k].info, idx, data16))
  }

  /** Find in the list, reverse it, and cache the item after the found one. */
  method FindAndTurn(list0: ListHead, idx: int, data16: Data16, ghost s0: seq<ListHead>)
    returns (list: ListHead?, this_find: ListHead?, ghost s: seq<ListHead>, ghost k: nat)
    requires IsList(list0, s0)
    modifies NodeSet(s0)`next
    ensures IsList(list, s) && multiset(s) == multiset(s0) && |s| == |s0|
    ensures k <= |s0| && this_find == At(s0, k)
    ensures forall j :: 0 <= j < k ==> !Matches(s0[j].info, idx, data16)
    ensures this_find != null ==> Matches(s0[k].info, idx, data16)
    ensures s == if k < |s0| then CacheNext(Reversed(s0), |s0| - 1 - k) else Reversed(s0)
  {
    this_find, k := core_list_find(list0, idx, data16, s0);
    list := core_list_reverse(list0, s0);
    s := Reversed(s0);
    MembersKept(s0, s);
    if this_find != null {
      ReversedAt(s0, |s0| - 1 - k);
      CacheNextItem(list, this_find, s, |s0| - 1 - k);
      s := CacheNext(s, |s0| - 1 - k);
    }
    MembersKept(s0, s);
  }

  /** One turn, and what it adds to the checksum. */
  method SearchTurn(list0: ListHead, idx: int, data16: Data16, ghost s0: seq<ListHead>)
    returns (list: ListHead?, hit: bool, bit: nat, ghost s: seq<ListHead>, ghost k: nat)
    requires IsList(list0, s0) && |s0| >= 2
    modifies NodeSet(s0)`next
    ensures FirstMatch(s0, idx, data16, k) && (hit <==> k < |s0|) && bit == ItemBit(s0, k)
    ensures s == Turned(s0, k) && IsList(list, s) && multiset(s) == multiset(s0)
  {
    var this_find;
    list, this_find, s, k := FindAndTurn(list0, idx, data16, s0);
    hit := this_find != null;
    if this_find == null {
      ReversedAt(s0, 1);
      bit := list.next.info.data16 as int / 0x100 % 2;
    } else {
      bit := if this_find.info.data16 % 2 == 1 then this_find.info.data16 as int / 0x200 % 2 else 0;
    }
  }

  ghost function ItemBit(s: seq<ListHead>, k: nat): nat
    requires |s| >= 2
    reads s`info, InfoSet(s)
  {
    if k < |s| then (if s[k].info.data16 % 2 == 1 then s[k].info.data16 as int / 0x200 % 2 else 0)
    else s[|s| - 2].info.data16 as int / 0x100 % 2
  }

  lemma SameNodeSet(s: seq<ListHead>, t: seq<ListHead>)
    requires multiset(t) == multiset(s)
    ensures NodeSet(t) == NodeSet(s)
  {
    SameMembers(s, t);
  }

  /** What a turn did, as far as it can be seen. */
  lemma SeenTurn(seen: Sight, s: seq<ListHead>, idx: int, data16: Data16, k: nat)
    requires Sees(seen, s) && |s| >= 2 && FirstMatch(s, idx, data16, k)
    ensures FirstHit(seen, s, idx, data16, k) && ItemBit(s, k) == TurnBit(seen, s, k)
  {
    forall j | 0 <= j < |s| ensures Hits(seen(s[j]), idx, data16) == Matches(s[j].info, idx, data16) {
    }
  }

  /** The loop over find_num searches, and what it adds to the checksum. */
  method SearchLoop(list0: ListHead, find_num: int, finder_idx: int, ghost s0: seq<ListHead>, ghost seen: Sight)
    returns (list: ListHead?, retval: nat, idx: int, ghost s: seq<ListHead>, ghost ks: seq<nat>)
    requires IsList(list0, s0) && |s0| >= 2 && Sees(seen, s0)
    modifies NodeSet(s0)`next
    ensures IsList(list, s) && multiset(s) == multiset(s0) && |s| == |s0| && forall n <- s :: n in s0
    ensures |ks| == (if find_num > 0 then find_num else 0) && idx == IdxAt(finder_idx, |ks|)
    ensures s == Turns(s0, ks) && SearchedAs(seen, s0, finder_idx, ks)
    ensures retval == WithCounts(TurnBits(seen, s0, finder_idx, ks), Found(ks, |s0|), Missed(ks, |s0|))
  {
    list, s, ks, idx, retval := list0, s0, [], finder_idx, 0;
    var found, missed := 0, 0;
    var i := 0;
    while i < find_num
      invariant i == |ks| && (if find_num > 0 then i <= find_num else i == 0)
      invariant IsList(list, s) && |s| == |s0| && multiset(s) == multiset(s0) && NodeSet(s) == NodeSet(s0) && Sees(seen, s)
      invariant Progress(seen, s0, s, finder_idx, ks, idx, retval, found, missed)
    {
      list, idx, retval, found, missed, s, ks := SearchOnce(list, i, idx, retval, found, missed, finder_idx, s0, s, seen, ks);
      SameNodeSet(s0, s);
      i := i + 1;
    }
    Outcome(seen, s0, s, finder_idx, ks, idx, retval, found, missed);
    MembersKept(s0, s);
    retval := WithCounts(retval, found, missed);
  }

  /** The body of the loop. */
  method SearchOnce(list0: ListHead, i: int, idx0: int, retval0: nat, found0: nat, missed0: nat, ghost finder_idx: int,
                    ghost s0: seq<ListHead>, ghost t: seq<ListHead>, ghost seen: Sight, ghost ks0: seq<nat>)
    returns (list: ListHead?, idx: int, retval: nat, found: nat, missed: nat, ghost s: seq<ListHead>, ghost ks: seq<nat>)
    requires IsList(list0, t) && |t| >= 2 && i == |ks0| && Sees(seen, t) && NodeSet(t) == NodeSet(s0)
    requires Progress(seen, s0, t, finder_idx, ks0, idx0, retval0, found0, missed0)
    modifies NodeSet(s0)`next
    ensures IsList(list, s) && |ks| == i + 1 && Sees(seen, s) && multiset(s) == multiset(t) && |s| == |t|
    ensures Progress(seen, s0, s, finder_idx, ks, idx, retval, found, missed)
  {
    var hit, bit;
    ghost var k;
    list, hit, bit, s, k := SearchTurn(list0, idx0, LowByte(i), t);
    SeenTurn(seen, t, idx0, LowByte(i), k);
    SeesAll(seen, t, s);
    NextProgress(seen, s0, t, finder_idx, ks0, k, idx0, retval0, found0, missed0, hit, bit);
    retval := Wrap16(retval0 + bit);
    found := if hit then found0 + 1 else found0;
    missed := if hit then missed0 else missed0 + 1;
    idx := if idx0 >= 0 then Next16(idx0) else idx0;
    ks := ks0 + [k];
  }

  /** The turns so far, the index, the checksum and the counts. */
  ghost predicate Progress(seen: Sight, s0: seq<ListHead>, s: seq<ListHead>, finder_idx: int, ks: seq<nat>,
                           idx: int, retval: nat, found: nat, missed: nat)
  {
    && |s0| >= 2 && s == Turns(s0, ks) && SearchedAs(seen, s0, finder_idx, ks) && idx == IdxAt(finder_idx, |ks|)
    && retval == Wrap16(TurnBits(seen, s0, finder_idx, ks)) && found == Found(ks, |s0|) && missed == Missed(ks, |s0|)
  }

  lemma NextProgress(seen: Sight, s0: seq<ListHead>, s: seq<ListHead>, finder_idx: int, ks: seq<nat>, k: nat,
                     idx: int, retval: nat, found: nat, missed: nat, hit: bool, bit: nat)
    requires |s| >= 2 && Progress(seen, s0, s, finder_idx, ks, idx, retval, found, missed)
    requires FirstHit(seen, s, idx, LowByte(|ks|), k) && hit == (k < |s|) && bit == TurnBit(seen, s, k)
    ensures Progress(seen, s0, Turned(s, k), finder_idx, ks + [k], if idx >= 0 then Next16(idx) else idx,
      Wrap16(retval + bit), if hit then found + 1 else found, if hit then missed else missed + 1)
  {
    TurnAdded(seen, s0, s, finder_idx, ks, k);
    WrapAdds(TurnBits(seen, s0, finder_idx, ks), TurnBit(seen, s, k));
  }

  lemma Outcome(seen: Sight, s0: seq<ListHead>, s: seq<ListHead>, finder_idx: int, ks: seq<nat>,
                idx: int, retval: nat, found: nat, missed: nat)
    requires Progress(seen, s0, s, finder_idx, ks, idx, retval, found, missed)
    ensures |s0| >= 2 && s == Turns(s0, ks) && SearchedAs(seen, s0, finder_idx, ks) && idx == IdxAt(finder_idx, |ks|)
    ensures WithCounts(retval, found, missed) == WithCounts(TurnBits(seen, s0, finder_idx, ks), Found(ks, |s0|), Missed(ks, |s0|))
  {
    CountsAdd(TurnBits(seen, s0, finder_idx, ks), found, missed);
  }

  /** retval += found * 4 - missed */
  function WithCounts(retval: int, found: int, missed: int): nat {
    Wrap16(retval + (found * 4 - missed))
  }

  lemma CountsAdd(x: int, found: int, missed: int)
    ensures WithCounts(Wrap16(x), found, missed) == WithCounts(x, found, missed)
  {
    WrapAdds(x, found * 4 - missed);
  }

  function Found(ks: seq<nat>, n: nat): (f: nat)
    ensures f <= |ks|
  {
    if ks == [] then 0 else Found(ks[..|ks| - 1], n) + if ks[|ks| - 1] < n then 1 else 0
  }

  function Missed(ks: seq<nat>, n: nat): nat {
    |ks| - Found(ks, n)
  }

  // ----- the loop's numbers -----

  /** The places below n are those of the items that were found. */
  lemma {:induction false} FoundCounts(ks: seq<nat>, n: nat)
    ensures Found(ks, n) == |set i | 0 <= i < |ks| && ks[i] < n|
    ensures Found(ks, n) + Missed(ks, n) == |ks|
    decreases |ks|
  {
    if ks != [] {
      var last := |ks| - 1;
      FoundCounts(ks[..last], n);
      var before := set i | 0 <= i < last && ks[..last][i] < n;
      var all := set i | 0 <= i < |ks| && ks[i] < n;
      assert all == if ks[last] < n then before + {last} else before;
    }
  }

  /** A negative index is not counted, and a positive one goes from 0x7fff on to -0x8000,
      where it stays. */
  lemma {:induction false} IndexCounts(finder_idx: int, t: nat)
    requires -0x8000 <= finder_idx <= 0x7fff
    ensures IdxAt(finder_idx, t) ==
      if finder_idx < 0 then finder_idx else if finder_idx + t <= 0x7fff then finder_idx + t else -0x8000
  {
    if t > 0 {
      IndexCounts(finder_idx, t - 1);
    }
  }

  /** In bits of the upper byte: bit 1 of a found item whose lower byte is odd, bit 0 of the
      item before the last when nothing was found. */
  lemma TurnBitIs(seen: Sight, s: seq<ListHead>, k: nat, upper: nat, lower: nat)
    requires |s| >= 2 && upper < 0x100 && lower < 0x100
    requires seen(if k < |s| then s[k] else s[|s| - 2]).1 as int == 0x100 * upper + lower
    ensures TurnBit(seen, s, k) == if k >= |s| then upper % 2 else if lower % 2 == 1 then upper / 2 % 2 else 0
  {
  }

  /** Four for what was found, one off for what was not, modulo 2^16. */
  lemma CountsAre(x: int, found: int, missed: int, q: int)
    ensures var r := x + 4 * found - missed - 0x1_0000 * q; 0 <= r < 0x1_0000 ==> WithCounts(x, found, missed) == r
  {
  }

  /** The data that turn i looks for. */
  lemma LowByteIs(upper: nat, lower: nat)
    requires lower < 0x100
    ensures LowByte(0x100 * upper + lower) as int == lower
  {
  }

  lemma TurnAdded(seen: Sight, s0: seq<ListHead>, s: seq<ListHead>, finder_idx: int, ks: seq<nat>, k: nat)
    requires |s0| >= 2 && s == Turns(s0, ks) && SearchedAs(seen, s0, finder_idx, ks)
    requires FirstHit(seen, s, IdxAt(finder_idx, |ks|), LowByte(|ks|), k)
    ensures Turns(s0, ks + [k]) == Turned(s, k) && SearchedAs(seen, s0, finder_idx, ks + [k])
    ensures Found(ks + [k], |s0|) == Found(ks, |s0|) + if k < |s0| then 1 else 0
    ensures TurnBits(seen, s0, finder_idx, ks + [k]) == TurnBits(seen, s0, finder_idx, ks) + TurnBit(seen, s, k)
  {
    LastTurn(ks, k);
  }

  lemma LastTurn(ks: seq<nat>, k: nat)
    ensures var more := ks + [k]; |more| - 1 == |ks| && more[..|ks|] == ks && more[|ks|] == k
  {
  }

  // ----- the whole benchmark on the list -----

  /** What no step changes about an item: backup byte and index. */
  datatype Fixed = Fixed(high: Data16, idx: int)

  ghost function FixedOf(items: set<ListData>): map<ListData, Fixed>
    reads items
  {
    map d | d in items :: Fixed(High(d.data16), d.idx)
  }

  /** A list of the original nodes, each with its original item, backup byte and index. */
  ghost predicate Bench(list: ListHead?, s: seq<ListHead>, s0: seq<ListHead>,
                        infos: map<ListHead, ListData>, items: map<ListData, Fixed>)
    reads s`next, s`info, s0`info, infos.Keys`info, items.Keys
  {
    && IsList(list, s) && multiset(s) == multiset(s0) && |s| == |s0| >= 3
    && infos.Keys == NodeSet(s0) && InfosAre(infos) && items.Keys == infos.Values
    && forall d <- items.Keys :: items[d] == Fixed(High(d.data16), d.idx)
  }

  lemma SameItemSet(s0: seq<ListHead>, s: seq<ListHead>)
    requires multiset(s) == multiset(s0)
    ensures NodeSet(s) == NodeSet(s0) && InfoSet(s) == InfoSet(s0) && |s| == |s0|
  {
    MembersKept(s0, s);
    MembersKept(s, s0);
  }

  method SearchStep(list0: ListHead, find_num: int, finder_idx: int,
                    ghost s0: seq<ListHead>, ghost infos: map<ListHead, ListData>, ghost items: map<ListData, Fixed>)
    returns (list: ListHead?, idx: int, ghost s: seq<ListHead>, ghost ks: seq<nat>)
    requires Bench(list0, s0, s0, infos, items)
    modifies NodeSet(s0)`next
    ensures Bench(list, s, s0, infos, items)
    ensures |ks| == (if find_num > 0 then find_num else 0) && s == Turns(s0, ks) && SearchedAs(old(SightOf(s0)), s0, finder_idx, ks)
  {
    var retval;
    list, retval, idx, s, ks := SearchLoop(list0, find_num, finder_idx, s0, SightOf(s0));
  }

  /** The outcome of sorting s1: s is sorted, stably, and every item is settled. */
  ghost predicate SortedFrom(cmp: Cmp, s: seq<ListHead>, s1: seq<ListHead>)
    reads s`info, InfoSet(s)
  {
    && Distinct(s1) && multiset(s) == multiset(s1) && (forall n <- s :: n in s1)
    && StablySorted(cmp, s, s1) && forall n <- s :: Settled(cmp, n.info.data16)
  }

  /** What a sort must keep of the recorded items: which node has which, and the indices. */
  ghost predicate Recorded(infos: map<ListHead, ListData>, items: map<ListData, Fixed>)
    reads infos.Keys`info, items.Keys`idx
  {
    InfosAre(infos) && items.Keys == infos.Values && forall d <- items.Keys :: d.idx == items[d].idx
  }

  /** Node by node, the backup bytes are the recorded ones. */
  ghost predicate HighsAre(s: seq<ListHead>, highs: map<ListHead, Data16>)
    reads s`info, InfoSet(s)`data16
  {
    forall n <- s :: n in highs && High(n.info.data16) == highs[n]
  }

  /** The sort, with the backup bytes recorded node by node. */
  method SortNodes(list1: ListHead, cmp: Cmp, ghost s1: seq<ListHead>, ghost infos: map<ListHead, ListData>, ghost items: map<ListData, Fixed>)
    returns (list: ListHead?, ghost s: seq<ListHead>, ghost highs: map<ListHead, Data16>)
    requires IsList(list1, s1) && |s1| >= 2 && Recorded(infos, items)
    modifies NodeSet(s1)`next, InfoSet(s1)`data16
    ensures IsList(list, s) && multiset(s) == multiset(s1) && SortedFrom(cmp, s, s1) && Recorded(infos, items)
    ensures highs == old(Highs(s1)) && HighsAre(s, highs)
  {
    highs := Highs(s1);
    ghost var was;
    list, s, was := core_list_mergesort(list1, cmp, s1);
  }

  method SortStep(list1: ListHead, cmp: Cmp, ghost s1: seq<ListHead>,
                  ghost s0: seq<ListHead>, ghost infos: map<ListHead, ListData>, ghost items: map<ListData, Fixed>)
    returns (list: ListHead?, ghost s: seq<ListHead>)
    requires Bench(list1, s1, s0, infos, items)
    modifies NodeSet(s0)`next, InfoSet(s0)`data16
    ensures Bench(list, s, s0, infos, items) && SortedFrom(cmp, s, s1)
  {
    BenchSorts(list1, s1, s0, infos, items);
    ghost var highs;
    list, s, highs := SortNodes(list1, cmp, s1, infos, items);
    ItemsKept(list, s, s0, infos, items, highs);
  }

  lemma BenchSorts(list: ListHead?, s: seq<ListHead>, s0: seq<ListHead>, infos: map<ListHead, ListData>, items: map<ListData, Fixed>)
    requires Bench(list, s, s0, infos, items)
    ensures IsList(list, s) && multiset(s) == multiset(s0) && |s| == |s0| >= 3
    ensures NodeSet(s) == NodeSet(s0) && InfoSet(s) == InfoSet(s0)
    ensures infos.Keys == NodeSet(s0) && Recorded(infos, items) && HighsRecorded(Highs(s), infos, items)
  {
    SameItemSet(s0, s);
    BenchItems(list, s, s0, infos, items);
  }

  ghost predicate HighsRecorded(highs: map<ListHead, Data16>, infos: map<ListHead, ListData>, items: map<ListData, Fixed>) {
    forall n <- infos.Keys :: n in highs && infos[n] in items && highs[n] == items[infos[n]].high
  }

  /** Indices are not touched by a sort, and backup bytes node by node neither. */
  lemma ItemsKept(list: ListHead?, s: seq<ListHead>, s0: seq<ListHead>, infos: map<ListHead, ListData>, items: map<ListData, Fixed>, highs: map<ListHead, Data16>)
    requires IsList(list, s) && multiset(s) == multiset(s0) && |s0| >= 3 && infos.Keys == NodeSet(s0)
    requires Recorded(infos, items) && HighsRecorded(highs, infos, items) && HighsAre(s, highs)
    ensures Bench(list, s, s0, infos, items)
  {
    SameItemSet(s0, s);
    forall d | d in items.Keys ensures items[d] == Fixed(High(d.data16), d.idx) {
      assert d in infos.Values;
      var n :| n in infos.Keys && infos[n] == d;
      assert n in NodeSet(s) && n in NodeSet(s0);
    }
  }

  /** Remove the node after the second one, look at the list, and put it back: nothing
      has changed. */
  method RemoveAndUndo(list: ListHead, idx: int, data16: Data16, ghost s: seq<ListHead>, ghost infos: map<ListHead, ListData>)
    returns (finder: ListHead?)
    requires IsList(list, s) && |s| >= 3
    requires InfosAre(infos) && infos.Keys == NodeSet(s)
    modifies {s[1], s[2]}
    ensures IsList(list, s)
    ensures InfosAre(infos)
  {
    ghost var s1 := s[..2] + s[3..];
    var remover := core_list_remove(list.next, list, s, 1);
    ghost var k;
    finder, k := core_list_find(list, idx, data16, s1);
    if finder == null {
      finder := list.next;
    }
    remover := core_list_undo_remove(remover, list.next, list, s, 1);
  }

  method RemoveStep(list: ListHead, idx: int, data16: Data16, ghost s: seq<ListHead>,
                    ghost s0: seq<ListHead>, ghost infos: map<ListHead, ListData>, ghost items: map<ListData, Fixed>)
    returns (finder: ListHead?)
    requires Bench(list, s, s0, infos, items)
    modifies NodeSet(s0)
    ensures Bench(list, s, s0, infos, items)
  {
    SameItemSet(s0, s);
    assert s[1] in NodeSet(s) && s[2] in NodeSet(s);
    finder := RemoveAndUndo(list, idx, data16, s, infos);
    BenchItemSet(list, s, s0, infos);
  }

  lemma BenchItemSet(list: ListHead?, s: seq<ListHead>, s0: seq<ListHead>, infos: map<ListHead, ListData>)
    requires infos.Keys == NodeSet(s0) && InfosAre(infos)
    ensures InfoSet(s0) == infos.Values
  {
    assert forall n <- s0 :: n in infos.Keys && n.info in infos.Values;
    forall d | d in infos.Values ensures d in InfoSet(s0) {
      var n :| n in infos.Keys && infos[n] == d;
      assert n in s0;
    }
  }

  /** In index order, strictly. */
  ghost predicate IdxAscending(s: seq<ListHead>)
    reads s`info, InfoSet(s)`idx
  {
    forall i, j :: 0 <= i < j < |s| ==> s[i].info.idx < s[j].info.idx
  }

  /** The same, by way of the recorded items. */
  ghost predicate RecordedAscending(s: seq<ListHead>, infos: map<ListHead, ListData>, items: map<ListData, Fixed>)
  {
    forall i, j :: 0 <= i < j < |s| ==>
      && s[i] in infos && s[j] in infos && infos[s[i]] in items && infos[s[j]] in items
      && items[infos[s[i]]].idx < items[infos[s[j]]].idx
  }

  ghost predicate RecordedDifferent(s: seq<ListHead>, infos: map<ListHead, ListData>, items: map<ListData, Fixed>)
  {
    forall i, j :: 0 <= i < j < |s| ==>
      && s[i] in infos && s[j] in infos && infos[s[i]] in items && infos[s[j]] in items
      && items[infos[s[i]]].idx != items[infos[s[j]]].idx
  }

  ghost predicate DifferentIdx(s: seq<ListHead>)
    reads s`info, InfoSet(s)`idx
  {
    forall i, j :: 0 <= i < j < |s| ==> s[i].info.idx != s[j].info.idx
  }

  lemma AscendingAsRecorded(list: ListHead?, s: seq<ListHead>, s0: seq<ListHead>, infos: map<ListHead, ListData>, items: map<ListData, Fixed>)
    requires Bench(list, s, s0, infos, items)
    ensures IdxAscending(s0) <==> RecordedAscending(s0, infos, items)
    ensures DifferentIdx(s0) <==> RecordedDifferent(s0, infos, items)
  {
    assert forall i :: 0 <= i < |s0| ==> s0[i] in infos.Keys && infos[s0[i]] in infos.Values;
  }

  /** Sorting by index brings a rearranged list back to its strictly ascending order. */
  lemma AscendingAgain(s0: seq<ListHead>, s1: seq<ListHead>, s: seq<ListHead>, regen: bool)
    requires IdxAscending(s0) && multiset(s1) == multiset(s0) && multiset(s) == multiset(s1)
    requires Distinct(s1) && (forall n <- s :: n in s1) && StablySorted(CmpIdx(regen), s, s1)
    ensures s == s0
  {
    var o := Order(map n | n in s0 :: n.info.idx, map n | n in s0 :: 0, {});
    MembersKept(s0, s);
    DistinctSame(s1, s);
    DistinctSame(s1, s0);
    forall i, j | 0 <= i < j < |s| ensures Before(o, s[i], s[j]) {
      assert s[i] in s0 && s[j] in s0;
      var p :| 0 <= p < |s0| && s0[p] == s[i];
      var q :| 0 <= q < |s0| && s0[q] == s[j];
      assert s0[p].info.idx != s0[q].info.idx;
    }
    SortedIsUnique(o, s, s0);
  }

  /** The steps of core_bench_list, with the items recorded at the start. */
  method BenchSteps(list0: ListHead, find_num: int, finder_idx: int,
                    ghost s0: seq<ListHead>, ghost infos: map<ListHead, ListData>, ghost items: map<ListData, Fixed>)
    returns (list: ListHead?, ghost s: seq<ListHead>, ghost s1: seq<ListHead>, ghost ks: seq<nat>)
    requires Bench(list0, s0, s0, infos, items)
    modifies NodeSet(s0), InfoSet(s0)`data16
    ensures Bench(list, s, s0, infos, items)
    ensures multiset(s1) == multiset(s0) && SortedFrom(CmpIdx(true), s, s1)
    ensures |ks| == (if find_num > 0 then find_num else 0) && SearchedAs(old(SightOf(s0)), s0, finder_idx, ks)
    ensures finder_idx <= 0 ==> s1 == Turns(s0, ks)
  {
    BenchItemSet(list0, s0, s0, infos);
    var idx;
    list, idx, s, ks := SearchStep(list0, find_num, finder_idx, s0, infos, items);
    if finder_idx > 0 {
      list, s := SortStep(list, CmpComplex, s, s0, infos, items);
    }
    var finder := RemoveStep(list, idx, 0, s, s0, infos, items);
    s1 := s;
    list, s := SortStep(list, CmpIdx(true), s1, s0, infos, items);
  }

  /** core_bench_list over its list, the checksums of the list left aside. The list needs
      three nodes: the head, the fake tail that core_list_remove relies on, and one in
      between. Whatever was searched for, the result is the same nodes with the same data
      items, sorted by index, with every working byte restored from its backup. With
      different indices the order is the old one exactly if that was ascending. */
  method core_bench_list(list0: ListHead, find_num: int, finder_idx: int, ghost s0: seq<ListHead>)
    returns (list: ListHead?, ghost s: seq<ListHead>, ghost s1: seq<ListHead>, ghost ks: seq<nat>)
    requires IsList(list0, s0) && |s0| >= 3
    modifies NodeSet(s0), InfoSet(s0)`data16
    ensures IsList(list, s) && multiset(s) == multiset(s0)
    ensures forall n <- s0 :: n.info == old(n.info)
    ensures forall n <- s0 :: IsRegen(n.info.data16) && High(n.info.data16) == High(old(n.info.data16))
    ensures forall n <- s0 :: n.info.data16 == old(n.info.data16) <==> IsRegen(old(n.info.data16))
    ensures multiset(s1) == multiset(s0) && SortedFrom(CmpIdx(true), s, s1)
    ensures forall i, j :: 0 <= i < j < |s| ==> s[i].info.idx <= s[j].info.idx
    ensures |ks| == (if find_num > 0 then find_num else 0) && SearchedAs(old(SightOf(s0)), s0, finder_idx, ks)
    ensures finder_idx <= 0 ==> s1 == Turns(s0, ks)
    ensures old(IdxAscending(s0)) ==> s == s0
    ensures old(DifferentIdx(s0)) ==> (s == s0 <==> old(IdxAscending(s0)))
  {
    ghost var infos, items, was := Infos(s0), FixedOf(InfoSet(s0)), Datas(s0);
    BenchItemSet(list0, s0, s0, infos);
    AscendingAsRecorded(list0, s0, s0, infos, items);
    DatasRecorded(list0, s0, infos, items);
    list, s, s1, ks := BenchSteps(list0, find_num, finder_idx, s0, infos, items);
    ItemsRestored(list, s, s0, infos, items, was);
    AscendingAsRecorded(list, s, s0, infos, items);
    SortedByIdx(s0, s1, s, true);
  }

  /** The backup bytes of the data are the recorded ones. */
  ghost predicate SameHighs(was: map<ListHead, Data16>, infos: map<ListHead, ListData>, items: map<ListData, Fixed>) {
    forall n <- infos.Keys :: n in was && infos[n] in items && items[infos[n]].high == High(was[n])
  }

  lemma DatasRecorded(list: ListHead?, s: seq<ListHead>, infos: map<ListHead, ListData>, items: map<ListData, Fixed>)
    requires Bench(list, s, s, infos, items)
    ensures SameHighs(Datas(s), infos, items)
  {
    BenchItems(list, s, s, infos, items);
  }

  lemma ItemsRestored(list: ListHead?, s: seq<ListHead>, s0: seq<ListHead>, infos: map<ListHead, ListData>, items: map<ListData, Fixed>,
                      was: map<ListHead, Data16>)
    requires Bench(list, s, s0, infos, items) && SameHighs(was, infos, items)
    requires forall n <- s :: IsRegen(n.info.data16)
    ensures IsList(list, s) && multiset(s) == multiset(s0)
    ensures forall n <- s0 :: n in infos && n in was && n.info == infos[n] && IsRegen(n.info.data16) && High(n.info.data16) == High(was[n])
    ensures forall n <- s0 :: n.info.data16 == was[n] <==> IsRegen(was[n])
  {
    BenchItems(list, s, s0, infos, items);
    forall n | n in s0 ensures n.info.data16 == was[n] <==> IsRegen(was[n]) {
      RegenDetermined(was[n], n.info.data16);
    }
  }

  /** Equal indices are not enough: with the indices 1, 1, 2 and one search for index 0,
      which finds nothing and reverses the list, the first two nodes come back exchanged. */
  method EqualIndicesExchanged(list0: ListHead, ghost s0: seq<ListHead>) returns (list: ListHead?, ghost s: seq<ListHead>)
    requires IsList(list0, s0) && |s0| == 3
    requires s0[0].info.idx == s0[1].info.idx == 1 && s0[2].info.idx == 2
    modifies NodeSet(s0), InfoSet(s0)`data16
    ensures IsList(list, s) && s == [s0[1], s0[0], s0[2]] != s0
  {
    ghost var seen := SightOf(s0);
    ghost var s1, ks;
    list, s, s1, ks := core_bench_list(list0, 1, 0, s0);
    NothingFound(seen, s0, ks);
    StableOfThree(s0, s, s1);
  }

  lemma NothingFound(seen: Sight, s: seq<ListHead>, ks: seq<nat>)
    requires |ks| == 1 && SearchedAs(seen, s, 0, ks) && forall i :: 0 <= i < |s| ==> seen(s[i]).0 > 0
    ensures Turns(s, ks) == Reversed(s)
  {
    assert ks[..0] == [] && FirstHit(seen, s, IdxAt(0, 0), LowByte(0), ks[0]);
    assert ks[0] == |s|;
  }

  lemma StableOrder(s1: seq<ListHead>, s: seq<ListHead>)
    requires SortedFrom(CmpIdx(true), s, s1)
    ensures Covers(OrderOf(s1), s) && Sorted(OrderOf(s1), s)
  {
    forall i, j | 0 <= i < j < |s| ensures Before(OrderOf(s1), s[i], s[j]) {
      assert s[i] in s1 && s[j] in s1;
      assert KeyOf(CmpIdx(true), s[i]) == s[i].info.idx && KeyOf(CmpIdx(true), s[j]) == s[j].info.idx;
    }
  }

  lemma StableOfThree(s0: seq<ListHead>, s: seq<ListHead>, s1: seq<ListHead>)
    requires |s0| == 3 && Distinct(s0) && s0[0].info.idx == s0[1].info.idx < s0[2].info.idx
    requires s1 == Reversed(s0) && SortedFrom(CmpIdx(true), s, s1)
    ensures s == [s0[1], s0[0], s0[2]]
  {
    ThreeReversed(s0);
    StableOrder(s1, s);
    var o := OrderOf(s1);
    assert o.pos[s1[0]] == 0 && o.pos[s1[1]] == 1 && o.pos[s1[2]] == 2;
    SortedThree(o, s0[1], s0[0], s0[2], s);
  }

  lemma ThreeReversed<T>(s: seq<T>)
    requires |s| == 3
    ensures Reversed(s)[0] == s[2] && Reversed(s)[1] == s[1] && Reversed(s)[2] == s[0]
    ensures multiset(Reversed(s)) == multiset{s[1], s[0], s[2]}
  {
    ReversedAt(s, 0);
    ReversedAt(s, 1);
    ReversedAt(s, 2);
    ReversedSame(s);
    ThreeItems(s);
  }

  lemma ThreeItems<T>(s: seq<T>)
    requires |s| == 3
    ensures multiset(s) == multiset{s[1], s[0], s[2]}
  {
    assert s == [s[0], s[1], s[2]];
  }

  /** By index, and then by place. */
  ghost function OrderOf(s: seq<ListHead>): (o: Order<ListHead>)
    requires Distinct(s)
    reads s`info, InfoSet(s)`idx
    ensures Covers(o, s) && forall i :: 0 <= i < |s| ==> o.key[s[i]] == s[i].info.idx && o.pos[s[i]] == i
  {
    Order(map n | n in s :: n.info.idx, map n | n in s :: IndexOf(s, n), {})
  }

  lemma SortedThree<T>(o: Order<T>, a: T, b: T, c: T, s: seq<T>)
    requires Covers(o, [a, b, c]) && Before(o, a, b) && Before(o, b, c)
    requires Covers(o, s) && Sorted(o, s) && multiset(s) == multiset{a, b, c}
    ensures s == [a, b, c]
  {
    SortedIsUnique(o, s, [a, b, c]);
  }

  lemma SortedByIdx(s0: seq<ListHead>, s1: seq<ListHead>, s: seq<ListHead>, regen: bool)
    requires multiset(s) == multiset(s1) == multiset(s0)
    requires Distinct(s1) && (forall n <- s :: n in s1) && StablySorted(CmpIdx(regen), s, s1)
    ensures forall i, j :: 0 <= i < j < |s| ==> s[i].info.idx <= s[j].info.idx
    ensures IdxAscending(s0) ==> s == s0
    ensures DifferentIdx(s0) && s == s0 ==> IdxAscending(s0)
  {
    forall i, j | 0 <= i < j < |s| ensures s[i].info.idx <= s[j].info.idx {
      assert KeyOf(CmpIdx(regen), s[i]) <= KeyOf(CmpIdx(regen), s[j]);
    }
    if IdxAscending(s0) {
      AscendingAgain(s0, s1, s, regen);
    }
  }

  lemma BenchItems(list: ListHead?, s: seq<ListHead>, s0: seq<ListHead>, infos: map<ListHead, ListData>, items: map<ListData, Fixed>)
    requires Bench(list, s, s0, infos, items)
    ensures forall n <- s0 :: n in s && n in infos && n.info == infos[n] && n.info in items && items[n.info] == Fixed(High(n.info.data16), n.info.idx)
    ensures IsList(list, s) && multiset(s) == multiset(s0)
  {
    SameItemSet(s0, s);
    assert forall n <- s0 :: n in NodeSet(s) && n in infos.Keys && infos[n] in infos.Values;
  }

  /** "At the end of this function, the list is back to original state": it is, down to
      every link and every data item, if at the start it was in ascending index order
      and every working byte equalled its backup. */
  method BenchRestoresList(list0: ListHead, find_num: int, finder_idx: int, ghost s0: seq<ListHead>) returns (list: ListHead?)
    requires IsList(list0, s0) && |s0| >= 3
    requires IdxAscending(s0) && forall n <- s0 :: IsRegen(n.info.data16)
    modifies NodeSet(s0), InfoSet(s0)`data16
    ensures list == list0
    ensures forall n <- s0 :: n.next == old(n.next) && n.info == old(n.info)
    ensures forall n <- s0 :: n.info.idx == old(n.info.idx) && n.info.data16 == old(n.info.data16)
  {
    ghost var s, s1, ks;
    NextByIndex(s0);
    list, s, s1, ks := core_bench_list(list0, find_num, finder_idx, s0);
    NextByIndex(s0);
  }

  lemma NextByIndex(s: seq<ListHead>)
    requires LinksFrom(s, 0)
    ensures forall n <- s :: n.next == At(s, IndexOf(s, n) + 1)
  {
    forall n | n in s ensures n.next == At(s, IndexOf(s, n) + 1) {
      assert n == s[IndexOf(s, n)];
    }
  }
}
