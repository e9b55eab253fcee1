/** core_list_mergesort: the bottom-up merge sort that relinks the list in place. */
module MergeSort {
  import opened RunOrder
  import opened CoreList

  // ----- one step of a merge -----

  /** The order after p and q have been compared. */
  ghost function Compared(o: Order<ListHead>, p: ListHead, kp: int, q: ListHead, kq: int): Order<ListHead> {
    o.(key := o.key[p := kp][q := kq], done := o.done + {p, q})
  }

  /** A comparison inside a merge leaves the merge well-formed: nothing was taken yet and
      the runs are whole. */
  lemma UntouchedRefined(o: Order<ListHead>, o': Order<ListHead>, p: seq<ListHead>, q: seq<ListHead>)
    requires Covers(o, p) && Covers(o, q) && Run(o, p) && Run(o, q) && Earlier(o, p, q) && Refines(o, o')
    ensures Covers(o', p) && Covers(o', q) && Merging(o', [], p, q)
  {
    RunRefined(o, o', p);
    RunRefined(o, o', q);
  }

  /** Or every key in it is final already. */
  lemma SettledRefined(o: Order<ListHead>, o': Order<ListHead>, m: seq<ListHead>, p: seq<ListHead>, q: seq<ListHead>)
    requires Covers(o, m) && Covers(o, p) && Covers(o, q) && Merging(o, m, p, q) && Refines(o, o')
    requires (forall x <- m :: x in o.done) && (forall x <- p :: x in o.done) && (forall x <- q :: x in o.done)
    ensures Covers(o', m) && Covers(o', p) && Covers(o', q) && Merging(o', m, p, q)
  {
    assert forall x <- m :: o'.key[x] == o.key[x];
    assert forall x <- p :: o'.key[x] == o.key[x];
    assert forall x <- q :: o'.key[x] == o.key[x];
  }

  /** Which elements of s[start..] the merge has moved into m. */
  ghost predicate Moved(s: seq<ListHead>, out: seq<ListHead>, m: seq<ListHead>, start: nat, pi: nat, mid: nat, qi: nat) {
    && start <= pi <= mid <= qi <= |s|
    && multiset(m) == multiset(s[start..pi]) + multiset(s[mid..qi])
    && (forall x <- out :: x !in s[start..])
  }

  lemma MoveP(s: seq<ListHead>, out: seq<ListHead>, m: seq<ListHead>, start: nat, pi: nat, mid: nat, qi: nat)
    requires Moved(s, out, m, start, pi, mid, qi) && pi < mid
    ensures Moved(s, out, m + [s[pi]], start, pi + 1, mid, qi)
  {
    assert s[start..pi + 1] == s[start..pi] + [s[pi]];
  }

  lemma MoveQ(s: seq<ListHead>, out: seq<ListHead>, m: seq<ListHead>, start: nat, pi: nat, mid: nat, qi: nat)
    requires Moved(s, out, m, start, pi, mid, qi) && qi < |s|
    ensures Moved(s, out, m + [s[qi]], start, pi, mid, qi + 1)
  {
    assert s[mid..qi + 1] == s[mid..qi] + [s[qi]];
  }

  /** What was moved, or was in out before, is not among the rest. */
  lemma MovedApart(s: seq<ListHead>, out: seq<ListHead>, m: seq<ListHead>, start: nat, pi: nat, mid: nat, qi: nat, i: nat)
    requires Moved(s, out, m, start, pi, mid, qi) && Distinct(s)
    requires pi <= i < mid || qi <= i < |s|
    ensures s[i] !in out + m
  {
    assert s[i] in s[start..];
    forall x | x in m ensures x != s[i] {
      assert x in multiset(m);
      var k :| (start <= k < pi || mid <= k < qi) && s[k] == x;
    }
  }

  lemma InfoApart(s: seq<ListHead>, i: nat, n: ListHead)
    requires Nodes(s) && i < |s| && n in s && n != s[i]
    ensures n.info != s[i].info
  {
    var j :| 0 <= j < |s| && s[j] == n;
  }

  /** cmp(p->info, q->info, res), and what it does to the order. */
  method CompareNodes(cmp: Cmp, ghost was: map<ListHead, Data16>, p: ListHead, q: ListHead, ghost s: seq<ListHead>, ghost i: nat, ghost j: nat, ghost o0: Order<ListHead>)
    returns (r: int, ghost o: Order<ListHead>)
    requires Nodes(s) && KeysAt(cmp, o0, was, s) && i < j < |s| && p == s[i] && q == s[j]
    modifies p.info`data16, q.info`data16
    ensures Refines(o0, o) && KeysAt(cmp, o, was, s)
    ensures o.done == o0.done + {p, q}
    ensures r <= 0 <==> o.key[p] <= o.key[q]
  {
    assert p in s && q in s;
    r := Compare(cmp, p.info, q.info);
    o := Compared(o0, p, Key(cmp, p.info.data16, p.info.idx), q, Key(cmp, q.info.data16, q.info.idx));
    forall n | n in s && n != p && n != q ensures n.info != p.info && n.info != q.info {
      InfoApart(s, i, n);
      InfoApart(s, j, n);
    }
  }

  /** Memory during a merge: current keys, the list built so far, and the old links of
      what is left of both runs. */
  ghost predicate MergeMemory(cmp: Cmp, was: map<ListHead, Data16>, s: seq<ListHead>, built: seq<ListHead>, pi: nat, mid: nat, qi: nat,
                              list: ListHead?, tail: ListHead?, q: ListHead?, o: Order<ListHead>)
    reads s`info, s`next, built`next, InfoSet(s)`data16, InfoSet(s)`idx
  {
    Nodes(s) && KeysAt(cmp, o, was, s) && Built(built, list, tail) && LinksIn(s, pi, mid) && LinksFrom(s, qi) && q == At(s, qi)
  }

  /** The next element comes from p, or from q, for a good reason. */
  ghost predicate Chosen(s: seq<ListHead>, pi: nat, mid: nat, qi: nat, end: nat, o0: Order<ListHead>, fromP: bool, o: Order<ListHead>)
    requires pi <= mid <= qi <= end <= |s|
  {
    var settled := Refines(o0, o) && if pi == mid || qi == end then o == o0 else o.done == o0.done + {s[pi], s[qi]};
    var reason :=
      if fromP then pi < mid && (qi < end ==> {s[pi], s[qi]} <= o.key.Keys && o.key[s[pi]] <= o.key[s[qi]])
      else qi < end && (pi < mid ==> {s[pi], s[qi]} <= o.key.Keys && o.key[s[qi]] < o.key[s[pi]]);
    var chosen := settled && reason;
    chosen
  }

  /** The chain of ifs that decides where the next element comes from, and takes it. */
  method TakeNext(cmp: Cmp, ghost was: map<ListHead, Data16>, p0: ListHead?, q0: ListHead?, psize0: int, qsize0: int,
                  ghost s: seq<ListHead>, ghost built: seq<ListHead>, ghost pi0: nat, ghost mid: nat, ghost qi0: nat, ghost end: nat,
                  ghost list: ListHead?, ghost tail: ListHead?, ghost o0: Order<ListHead>)
    returns (e: ListHead, p: ListHead?, q: ListHead?, psize: int, qsize: int,
             ghost fromP: bool, ghost pi: nat, ghost qi: nat, ghost o: Order<ListHead>)
    requires pi0 <= mid <= qi0 <= end <= |s| && (pi0 < mid || qi0 < end)
    requires psize0 == mid - pi0 && qsize0 >= 0 && (qi0 < end <==> qsize0 > 0 && q0 != null)
    requires (psize0 > 0 ==> p0 == s[pi0]) && MergeMemory(cmp, was, s, built, pi0, mid, qi0, list, tail, q0, o0)
    modifies InfoSet(s)`data16
    ensures Chosen(s, pi0, mid, qi0, end, o0, fromP, o)
    ensures e == (if fromP then s[pi0] else s[qi0])
    ensures pi == (if fromP then pi0 + 1 else pi0) && qi == (if fromP then qi0 else qi0 + 1)
    ensures psize == mid - pi && qsize - qsize0 == qi0 - qi
    ensures (psize > 0 ==> p == s[pi]) && MergeMemory(cmp, was, s, built, pi, mid, qi, list, tail, q, o)
  {
    p, q, psize, qsize := p0, q0, psize0, qsize0;
    o, fromP := o0, true;
    if psize == 0 {
      e := q;
      q := q.next;
      qsize := qsize - 1;
      fromP := false;
    } else if qsize == 0 || q == null {
      e := p;
      p := p.next;
      psize := psize - 1;
    } else {
      var r;
      r, o := CompareNodes(cmp, was, p, q, s, pi0, qi0, o0);
      if r <= 0 {
        e := p;
        p := p.next;
        psize := psize - 1;
      } else {
        e := q;
        q := q.next;
        qsize := qsize - 1;
        fromP := false;
      }
    }
    pi, qi := if fromP then pi0 + 1 else pi0, if fromP then qi0 else qi0 + 1;
  }

  /** Adds the next element to the merged list. The links of the nodes that are left in
      the two runs stay. */
  method Append(list0: ListHead?, tail: ListHead?, e: ListHead, ghost built: seq<ListHead>,
                ghost s: seq<ListHead>, ghost pi: nat, ghost mid: nat, ghost qi: nat, ghost q: ListHead?, ghost cmp: Cmp, ghost was: map<ListHead, Data16>, ghost o: Order<ListHead>)
    returns (list: ListHead?)
    requires MergeMemory(cmp, was, s, built, pi, mid, qi, list0, tail, q, o) && mid <= |s|
    requires Distinct(built) && e !in built
    requires forall i :: pi <= i < mid || qi <= i < |s| ==> s[i] != tail
    modifies (if tail == null then {} else {tail})`next
    ensures MergeMemory(cmp, was, s, built + [e], pi, mid, qi, list, e, q, o)
  {
    list := list0;
    if tail != null {
      tail.next := e;
    } else {
      list := e;
    }
  }

  // ----- one merge -----

  /** What stays true of the merge while elements are taken: the order part. */
  ghost predicate MergeOrder(o: Order<ListHead>, m: seq<ListHead>, s: seq<ListHead>, start: nat, pi: nat, mid: nat, qi: nat, end: nat)
    requires start <= pi <= mid <= qi <= end <= |s| && Covers(o, s)
  {
    && Covers(o, m)
    && Merging(o, m, s[pi..mid], s[qi..end])
    && (m == [] ==> pi == start && qi == mid)
    && (m == [] || mid == end || forall x <- s[start..end] :: x in o.done)
    && (forall x <- m :: x in s[start..end])
  }

  /** After the first comparison of a merge, both runs are settled to the last element. */
  lemma FirstCompareSettles(o0: Order<ListHead>, o: Order<ListHead>, p: seq<ListHead>, q: seq<ListHead>)
    requires Covers(o0, p) && Covers(o0, q) && Run(o0, p) && Run(o0, q) && p != [] && q != []
    requires o.done == o0.done + {p[0], q[0]}
    ensures (forall x <- p :: x in o.done) && (forall x <- q :: x in o.done)
  {
    if |p| == 1 { assert forall x <- p :: x == p[0]; }
    if |q| == 1 { assert forall x <- q :: x == q[0]; }
  }

  lemma SliceMembers<T>(s: seq<T>, start: nat, end: nat, i: nat, j: nat)
    requires start <= i <= j <= end <= |s|
    ensures forall x <- s[i..j] :: x in s[start..end]
  {
    forall x | x in s[i..j] ensures x in s[start..end] {
      var k :| i <= k < j && s[k] == x;
      assert s[start..end][k - start] == x;
    }
  }

  lemma RefineStep(o0: Order<ListHead>, o: Order<ListHead>, m: seq<ListHead>, s: seq<ListHead>,
                   start: nat, pi: nat, mid: nat, qi: nat, end: nat)
    requires start <= pi < mid <= qi < end <= |s| && Covers(o0, s)
    requires MergeOrder(o0, m, s, start, pi, mid, qi, end) && Refines(o0, o)
    requires Run(o0, s[start..mid]) && Run(o0, s[mid..end]) && Earlier(o0, s[start..mid], s[mid..end])
    requires o.done == o0.done + {s[pi], s[qi]}
    ensures Covers(o, s) && Covers(o, m) && Merging(o, m, s[pi..mid], s[qi..end])
    ensures forall x <- s[start..end] :: x in o.done
  {
    if m == [] {
      UntouchedRefined(o0, o, s[start..mid], s[mid..end]);
      FirstCompareSettles(o0, o, s[start..mid], s[mid..end]);
      assert s[start..end] == s[start..mid] + s[mid..end];
    } else {
      SliceMembers(s, start, end, pi, mid);
      SliceMembers(s, start, end, qi, end);
      SettledRefined(o0, o, m, s[pi..mid], s[qi..end]);
    }
  }

  lemma OrderStep(o0: Order<ListHead>, o: Order<ListHead>, m: seq<ListHead>, s: seq<ListHead>,
                  start: nat, pi: nat, mid: nat, qi: nat, end: nat, fromP: bool)
    requires start <= pi <= mid <= qi <= end <= |s| && start < mid && Covers(o0, s)
    requires MergeOrder(o0, m, s, start, pi, mid, qi, end) && Refines(o0, o)
    requires Run(o0, s[start..mid]) && Run(o0, s[mid..end]) && Earlier(o0, s[start..mid], s[mid..end])
    requires pi == mid || qi == end ==> o == o0
    requires pi < mid && qi < end ==> o.done == o0.done + {s[pi], s[qi]}
    requires fromP ==> pi < mid && (qi < end ==> o.key[s[pi]] <= o.key[s[qi]])
    requires !fromP ==> qi < end && (pi < mid ==> o.key[s[qi]] < o.key[s[pi]])
    ensures Covers(o, s)
    ensures if fromP then MergeOrder(o, m + [s[pi]], s, start, pi + 1, mid, qi, end)
            else MergeOrder(o, m + [s[qi]], s, start, pi, mid, qi + 1, end)
  {
    var p, q := s[pi..mid], s[qi..end];
    if pi < mid && qi < end {
      RefineStep(o0, o, m, s, start, pi, mid, qi, end);
    }
    if fromP {
      TakeP(o, m, p, q);
      assert p[1..] == s[pi + 1..mid];
      assert s[pi] in s[start..end];
    } else {
      TakeQ(o, m, p, q);
      assert q[1..] == s[qi + 1..end];
      assert s[qi] in s[start..end];
    }
  }

  /** Everything about a merge in progress that does not concern memory. */
  ghost predicate MergeState(s: seq<ListHead>, out: seq<ListHead>, m: seq<ListHead>, start: nat, pi: nat, mid: nat, qi: nat, end: nat,
                             o0: Order<ListHead>, o: Order<ListHead>) {
    && start <= pi <= mid <= qi <= end <= |s| && start < mid
    && Distinct(s) && Distinct(out + m) && (forall x <- out + m :: x in s)
    && MergeInputs(s, start, mid, end, o0)
    && Refines(o0, o) && Covers(o, s)
    && MergeProgress(s, out, m, start, pi, mid, qi, end, o)
  }

  /** The two runs as they were before the merge. */
  ghost predicate MergeInputs(s: seq<ListHead>, start: nat, mid: nat, end: nat, o: Order<ListHead>)
    requires start <= mid <= end <= |s|
  {
    Covers(o, s) && Run(o, s[start..mid]) && Run(o, s[mid..end]) && Earlier(o, s[start..mid], s[mid..end])
  }

  ghost predicate MergeProgress(s: seq<ListHead>, out: seq<ListHead>, m: seq<ListHead>, start: nat, pi: nat, mid: nat, qi: nat, end: nat,
                                o: Order<ListHead>)
    requires start <= pi <= mid <= qi <= end <= |s| && Covers(o, s)
  {
    Moved(s, out, m, start, pi, mid, qi) && MergeOrder(o, m, s, start, pi, mid, qi, end)
  }

  lemma MergeStateStep(s: seq<ListHead>, out: seq<ListHead>, m: seq<ListHead>, start: nat, pi: nat, mid: nat, qi: nat, end: nat,
                       o0: Order<ListHead>, o1: Order<ListHead>, o: Order<ListHead>, fromP: bool)
    requires MergeState(s, out, m, start, pi, mid, qi, end, o0, o1)
    requires Chosen(s, pi, mid, qi, end, o1, fromP, o)
    ensures if fromP then
              && s[pi] !in out + m && out + m + [s[pi]] == out + (m + [s[pi]])
              && MergeState(s, out, m + [s[pi]], start, pi + 1, mid, qi, end, o0, o)
            else
              && s[qi] !in out + m && out + m + [s[qi]] == out + (m + [s[qi]])
              && MergeState(s, out, m + [s[qi]], start, pi, mid, qi + 1, end, o0, o)
  {
    var e := if fromP then s[pi] else s[qi];
    RunRefined(o0, o1, s[start..mid]);
    RunRefined(o0, o1, s[mid..end]);
    OrderStep(o1, o, m, s, start, pi, mid, qi, end, fromP);
    MovedApart(s, out, m, start, pi, mid, qi, if fromP then pi else qi);
    AppendDistinct(out + m, e);
    assert out + m + [e] == out + (m + [e]);
    if fromP {
      MoveP(s, out, m, start, pi, mid, qi);
    } else {
      MoveQ(s, out, m, start, pi, mid, qi);
    }
  }

  lemma AppendDistinct(a: seq<ListHead>, e: ListHead)
    requires Distinct(a) && e !in a
    ensures Distinct(a + [e])
  {
  }

  lemma MergeDone(o0: Order<ListHead>, o: Order<ListHead>, out: seq<ListHead>, m: seq<ListHead>,
                  s: seq<ListHead>, start: nat, mid: nat, end: nat)
    requires MergeState(s, out, m, start, mid, mid, end, end, o0, o)
    ensures multiset(m) == multiset(s[start..end]) && Run(o, m)
  {
    assert s[start..end] == s[start..mid] + s[mid..end];
    if |m| >= 2 && mid == end {
      assert |multiset(m)| == |m| && |multiset(s[start..mid])| == mid - start;
      assert s[start..end] == s[start..mid];
    }
  }

  /** The unconsumed nodes, and the tail: the tail is in s but none of them. */
  lemma TailApart(s: seq<ListHead>, out: seq<ListHead>, m: seq<ListHead>, start: nat, pi: nat, mid: nat, qi: nat,
                  list: ListHead?, tail: ListHead?)
    requires Moved(s, out, m, start, pi, mid, qi) && Distinct(s) && Built(out + m, list, tail)
    requires forall x <- out + m :: x in s
    ensures forall i :: pi <= i < mid || qi <= i < |s| ==> s[i] != tail
    ensures tail != null ==> tail in s
  {
    forall i | pi <= i < mid || qi <= i < |s| ensures s[i] != tail {
      MovedApart(s, out, m, start, pi, mid, qi, i);
    }
  }

  /** All that a turn of the inner loop needs to know before the next element is appended. */
  lemma StepReady(s: seq<ListHead>, out: seq<ListHead>, m0: seq<ListHead>, start: nat, pi0: nat, mid: nat, qi0: nat, end: nat,
                  o0: Order<ListHead>, o1: Order<ListHead>, o: Order<ListHead>, fromP: bool, e: ListHead, pi: nat, qi: nat,
                  list: ListHead?, tail: ListHead?)
    requires MergeState(s, out, m0, start, pi0, mid, qi0, end, o0, o1)
    requires Chosen(s, pi0, mid, qi0, end, o1, fromP, o)
    requires e == (if fromP then s[pi0] else s[qi0])
    requires pi == (if fromP then pi0 + 1 else pi0) && qi == (if fromP then qi0 else qi0 + 1)
    requires Built(out + m0, list, tail)
    ensures MergeState(s, out, m0 + [e], start, pi, mid, qi, end, o0, o)
    ensures Distinct(out + m0) && e !in out + m0 && out + m0 + [e] == out + (m0 + [e])
    ensures forall i :: pi <= i < mid || qi <= i < |s| ==> s[i] != tail
    ensures tail != null ==> tail in s
  {
    MergeStateStep(s, out, m0, start, pi0, mid, qi0, end, o0, o1, o, fromP);
    TailApart(s, out, m0, start, pi0, mid, qi0, list, tail);
  }

  /** One turn of the inner while loop. */
  method MergeStep(cmp: Cmp, ghost was: map<ListHead, Data16>, p0: ListHead?, q0: ListHead?, psize0: int, qsize0: int, list0: ListHead?, tail0: ListHead?,
                   ghost s: seq<ListHead>, ghost start: nat, ghost pi0: nat, ghost mid: nat, ghost qi0: nat, ghost end: nat,
                   ghost out: seq<ListHead>, ghost m0: seq<ListHead>, ghost o0: Order<ListHead>, ghost o1: Order<ListHead>)
    returns (p: ListHead?, q: ListHead?, psize: int, qsize: int, list: ListHead?, tail: ListHead?,
             ghost m: seq<ListHead>, ghost pi: nat, ghost qi: nat, ghost o: Order<ListHead>)
    requires MergeState(s, out, m0, start, pi0, mid, qi0, end, o0, o1) && (pi0 < mid || qi0 < end)
    requires psize0 == mid - pi0 && qsize0 >= 0 && (qi0 < end <==> qsize0 > 0 && q0 != null)
    requires (psize0 > 0 ==> p0 == s[pi0]) && MergeMemory(cmp, was, s, out + m0, pi0, mid, qi0, list0, tail0, q0, o1)
    modifies NodeSet(s)`next, InfoSet(s)`data16
    ensures MergeState(s, out, m, start, pi, mid, qi, end, o0, o)
    ensures (pi == pi0 + 1 && qi == qi0) || (pi == pi0 && qi == qi0 + 1)
    ensures psize == mid - pi && qsize - qsize0 == qi0 - qi
    ensures (psize > 0 ==> p == s[pi]) && MergeMemory(cmp, was, s, out + m, pi, mid, qi, list, tail, q, o)
  {
    var e;
    ghost var fromP;
    e, p, q, psize, qsize, fromP, pi, qi, o :=
      TakeNext(cmp, was, p0, q0, psize0, qsize0, s, out + m0, pi0, mid, qi0, end, list0, tail0, o1);
    StepReady(s, out, m0, start, pi0, mid, qi0, end, o0, o1, o, fromP, e, pi, qi, list0, tail0);
    list := Append(list0, tail0, e, out + m0, s, pi, mid, qi, q, cmp, was, o);
    m := m0 + [e];
    tail := e;
  }

  /** The inner while loop: merges the runs s[start..mid] and s[mid..end] behind out. */
  method MergeRuns(cmp: Cmp, ghost was: map<ListHead, Data16>, p0: ListHead, q0: ListHead?, psize0: int, insize: int, list0: ListHead?, tail0: ListHead?,
                   ghost s: seq<ListHead>, ghost start: nat, ghost mid: nat, ghost end: nat,
                   ghost out: seq<ListHead>, ghost o0: Order<ListHead>)
    returns (list: ListHead?, tail: ListHead?, q: ListHead?, ghost m: seq<ListHead>, ghost o: Order<ListHead>)
    requires psize0 == mid - start && insize > 0
    requires end == if mid + insize < |s| then mid + insize else |s|
    requires MergeState(s, out, [], start, start, mid, mid, end, o0, o0)
    requires p0 == s[start] && MergeMemory(cmp, was, s, out, start, mid, mid, list0, tail0, q0, o0)
    modifies NodeSet(s)`next, InfoSet(s)`data16
    ensures MergeState(s, out, m, start, mid, mid, end, end, o0, o)
    ensures MergeMemory(cmp, was, s, out + m, mid, mid, end, list, tail, q, o)
  {
    var p: ListHead? := p0;
    q := q0;
    list, tail := list0, tail0;
    var psize, qsize := psize0, insize;
    m, o := [], o0;
    ghost var pi: nat, qi: nat := start, mid;
    assert out + m == out;
    while psize > 0 || (qsize > 0 && q != null)
      invariant MergeState(s, out, m, start, pi, mid, qi, end, o0, o)
      invariant psize == mid - pi && qsize == insize - (qi - mid)
      invariant (psize > 0 ==> p == s[pi]) && MergeMemory(cmp, was, s, out + m, pi, mid, qi, list, tail, q, o)
      decreases mid - pi + end - qi
    {
      p, q, psize, qsize, list, tail, m, pi, qi, o :=
        MergeStep(cmp, was, p, q, psize, qsize, list, tail, s, start, pi, mid, qi, end, out, m, o0, o);
    }
    assert pi == mid;
    assert qi == end;
  }

  // ----- one pass -----

  /** Everything about a pass in progress that does not concern memory: s[..start] has
      been merged into out, in full runs of twice the length unless s is exhausted. */
  ghost predicate PassState(s: seq<ListHead>, out: seq<ListHead>, start: nat, w: nat, o0: Order<ListHead>, o: Order<ListHead>)
    requires w > 0
  {
    && start <= |s| && Distinct(s) && Distinct(out) && multiset(out) == multiset(s[..start])
    && Refines(o0, o) && Covers(o, s) && Covers(o, out)
    && Runs(o, s[start..], w) && Earlier(o, out, s[start..])
    && if start < |s| then FullRuns(o, out, 2 * w) else Runs(o, out, 2 * w)
  }

  lemma OutApart(s: seq<ListHead>, out: seq<ListHead>, start: nat)
    requires start <= |s| && Distinct(s) && multiset(out) == multiset(s[..start])
    ensures forall x <- out :: x in s && x !in s[start..]
  {
    forall x | x in out ensures x in s && x !in s[start..] {
      assert x in multiset(out);
      assert x in s[..start];
      var i :| 0 <= i < start && s[i] == x;
    }
  }

  lemma FirstRunAt(o: Order<ListHead>, s: seq<ListHead>, a: nat, w: nat, e: nat)
    requires w > 0 && a <= |s| && Covers(o, s) && Runs(o, s[a..], w)
    requires e == if a + w < |s| then a + w else |s|
    ensures Run(o, s[a..e]) && Runs(o, s[e..], w) && Earlier(o, s[a..e], s[e..])
  {
    var rest := s[a..];
    FirstRun(o, rest, w);
    assert rest[..e - a] == s[a..e] && rest[e - a..] == s[e..];
  }

  lemma TwoRuns(o: Order<ListHead>, s: seq<ListHead>, start: nat, w: nat, mid: nat, end: nat)
    requires w > 0 && start < |s| && Covers(o, s) && Runs(o, s[start..], w)
    requires mid == if start + w < |s| then start + w else |s|
    requires end == if mid + w < |s| then mid + w else |s|
    ensures MergeInputs(s, start, mid, end, o)
    ensures Runs(o, s[end..], w) && Earlier(o, s[start..end], s[end..])
  {
    FirstRunAt(o, s, start, w, mid);
    FirstRunAt(o, s, mid, w, end);
    EarlierParts(o, s, start, mid, end);
  }

  lemma EarlierParts(o: Order<ListHead>, s: seq<ListHead>, start: nat, mid: nat, end: nat)
    requires start <= mid <= end <= |s| && Covers(o, s)
    requires Earlier(o, s[start..mid], s[mid..]) && Earlier(o, s[mid..end], s[end..])
    ensures Earlier(o, s[start..mid], s[mid..end]) && Earlier(o, s[start..end], s[end..])
  {
    assert s[mid..] == s[mid..end] + s[end..];
    assert s[start..end] == s[start..mid] + s[mid..end];
  }

  /** Nothing merged yet. */
  lemma FreshMerge(s: seq<ListHead>, out: seq<ListHead>, start: nat, mid: nat, end: nat, o: Order<ListHead>)
    requires start < mid <= end <= |s| && Covers(o, s) && MergeInputs(s, start, mid, end, o)
    requires Distinct(s) && Distinct(out) && forall x <- out :: x in s && x !in s[start..]
    ensures MergeState(s, out, [], start, start, mid, mid, end, o, o)
  {
    assert out + [] == out;
    assert s[start..start] == [] && s[mid..mid] == [];
    RunRefined(o, o, s[start..mid]);
  }

  lemma PassToMerge(s: seq<ListHead>, out: seq<ListHead>, start: nat, w: nat, mid: nat, end: nat, o0: Order<ListHead>, o: Order<ListHead>)
    requires w > 0 && PassState(s, out, start, w, o0, o) && start < |s|
    requires mid == if start + w < |s| then start + w else |s|
    requires end == if mid + w < |s| then mid + w else |s|
    ensures MergeState(s, out, [], start, start, mid, mid, end, o, o)
    ensures Runs(o, s[end..], w) && Earlier(o, s[start..end], s[end..])
  {
    TwoRuns(o, s, start, w, mid, end);
    OutApart(s, out, start);
    FreshMerge(s, out, start, mid, end, o);
  }

  lemma MergedEarlier(o1: Order<ListHead>, o: Order<ListHead>, s: seq<ListHead>, out: seq<ListHead>, m: seq<ListHead>, start: nat, end: nat)
    requires start <= end <= |s| && Covers(o1, s) && Covers(o1, out) && Refines(o1, o)
    requires Earlier(o1, out, s[start..]) && Earlier(o1, s[start..end], s[end..])
    requires multiset(m) == multiset(s[start..end])
    ensures Covers(o, out) && Covers(o, m) && Covers(o, s)
    ensures Earlier(o, out, m) && Earlier(o, out + m, s[end..])
  {
    forall x | x in m ensures x in s[start..end] && x in s {
      assert x in multiset(m);
    }
    assert s[start..] == s[start..end] + s[end..];
  }

  lemma MergeToPass(s: seq<ListHead>, out: seq<ListHead>, m: seq<ListHead>, start: nat, w: nat, mid: nat, end: nat,
                    o0: Order<ListHead>, o1: Order<ListHead>, o: Order<ListHead>)
    requires w > 0 && PassState(s, out, start, w, o0, o1) && start < |s|
    requires mid == if start + w < |s| then start + w else |s|
    requires end == if mid + w < |s| then mid + w else |s|
    requires MergeState(s, out, m, start, mid, mid, end, end, o1, o)
    requires Runs(o1, s[end..], w) && Earlier(o1, s[start..end], s[end..])
    ensures PassState(s, out + m, end, w, o0, o)
  {
    MergedNodes(s, out, m, start, mid, end, o1, o);
    MergedEarlier(o1, o, s, out, m, start, end);
    FullRunsRefined(o1, o, out, 2 * w);
    RunsRefined(o1, o, s[end..], w);
    if end < |s| {
      AppendFullRun(o, out, m, 2 * w);
    } else {
      AppendRuns(o, out, m, 2 * w);
    }
  }

  lemma MergedNodes(s: seq<ListHead>, out: seq<ListHead>, m: seq<ListHead>, start: nat, mid: nat, end: nat,
                    o1: Order<ListHead>, o: Order<ListHead>)
    requires MergeState(s, out, m, start, mid, mid, end, end, o1, o)
    requires multiset(out) == multiset(s[..start])
    ensures multiset(m) == multiset(s[start..end]) && Run(o, m) && |m| == end - start
    ensures Distinct(out + m) && multiset(out + m) == multiset(s[..end])
  {
    MergeDone(o1, o, out, m, s, start, mid, end);
    assert |m| == |multiset(m)| == end - start;
    assert s[..end] == s[..start] + s[start..end];
  }

  /** Steps insize places along from p, or to the end of the list: from the first run of
      a pair, at start, to the second one, at mid. */
  method StepAlong(p: ListHead, insize: int, ghost s: seq<ListHead>, ghost start: nat)
    returns (q: ListHead?, psize: int, ghost mid: nat, ghost end: nat)
    requires insize > 0 && start < |s| && p == s[start] && LinksFrom(s, start)
    ensures psize == mid - start && q == At(s, mid)
    ensures mid == if start + insize < |s| then start + insize else |s|
    ensures end == if mid + insize < |s| then mid + insize else |s|
    ensures end == if start + 2 * insize < |s| then start + 2 * insize else |s|
  {
    q := p;
    psize := 0;
    var i := 0;
    while i < insize
      invariant 0 <= i <= insize && psize == i && start + i <= |s|
      invariant q == At(s, start + i) && q != null
      decreases insize - i
    {
      psize := psize + 1;
      q := q.next;
      i := i + 1;
      assert q == At(s, start + i);
      if q == null {
        break;
      }
    }
    mid := start + psize;
    end := if mid + insize < |s| then mid + insize else |s|;
  }

  /** Memory between two merges of a pass. */
  ghost predicate PassMemory(cmp: Cmp, was: map<ListHead, Data16>, s: seq<ListHead>, out: seq<ListHead>, start: nat,
                             list: ListHead?, tail: ListHead?, p: ListHead?, o: Order<ListHead>)
    reads s`info, s`next, out`next, InfoSet(s)`data16, InfoSet(s)`idx
  {
    Nodes(s) && KeysAt(cmp, o, was, s) && Built(out, list, tail) && LinksFrom(s, start) && p == At(s, start)
  }

  lemma PassToMergeMemory(cmp: Cmp, was: map<ListHead, Data16>, s: seq<ListHead>, out: seq<ListHead>, start: nat, mid: nat,
                          list: ListHead?, tail: ListHead?, p: ListHead?, q: ListHead?, o: Order<ListHead>)
    requires PassMemory(cmp, was, s, out, start, list, tail, p, o) && start <= mid <= |s| && q == At(s, mid)
    ensures MergeMemory(cmp, was, s, out, start, mid, mid, list, tail, q, o)
  {
  }

  lemma MergeToPassMemory(cmp: Cmp, was: map<ListHead, Data16>, s: seq<ListHead>, out: seq<ListHead>, mid: nat, end: nat,
                          list: ListHead?, tail: ListHead?, q: ListHead?, o: Order<ListHead>)
    requires MergeMemory(cmp, was, s, out, mid, mid, end, list, tail, q, o)
    ensures PassMemory(cmp, was, s, out, end, list, tail, q, o)
  {
  }

  /** Merges the pair of runs that starts at p, the second one being found at q. */
  method MergeTwo(cmp: Cmp, ghost was: map<ListHead, Data16>, p: ListHead, q0: ListHead?, psize: int, insize: int, list0: ListHead?, tail0: ListHead?,
                  ghost s: seq<ListHead>, ghost start: nat, ghost mid: nat, ghost end: nat,
                  ghost out0: seq<ListHead>, ghost o0: Order<ListHead>, ghost o1: Order<ListHead>)
    returns (list: ListHead?, tail: ListHead?, q: ListHead?, ghost out: seq<ListHead>, ghost o: Order<ListHead>)
    requires insize > 0 && start < |s| && psize == mid - start
    requires mid == if start + insize < |s| then start + insize else |s|
    requires end == if mid + insize < |s| then mid + insize else |s|
    requires PassState(s, out0, start, insize, o0, o1) && PassMemory(cmp, was, s, out0, start, list0, tail0, p, o1)
    requires q0 == At(s, mid)
    modifies NodeSet(s)`next, InfoSet(s)`data16
    ensures PassState(s, out, end, insize, o0, o) && PassMemory(cmp, was, s, out, end, list, tail, q, o)
  {
    PassToMerge(s, out0, start, insize, mid, end, o0, o1);
    PassToMergeMemory(cmp, was, s, out0, start, mid, list0, tail0, p, q0, o1);
    ghost var m;
    list, tail, q, m, o := MergeRuns(cmp, was, p, q0, psize, insize, list0, tail0, s, start, mid, end, out0, o1);
    MergeToPass(s, out0, m, start, insize, mid, end, o0, o1, o);
    MergeToPassMemory(cmp, was, s, out0 + m, mid, end, list, tail, q, o);
    out := out0 + m;
  }

  /** One turn of the middle loop: step along, merge, and go on behind the pair. */
  method MergePair(cmp: Cmp, ghost was: map<ListHead, Data16>, p: ListHead, insize: int, list0: ListHead?, tail0: ListHead?,
                   ghost s: seq<ListHead>, ghost start0: nat, ghost out0: seq<ListHead>, ghost o0: Order<ListHead>, ghost o1: Order<ListHead>)
    returns (q: ListHead?, list: ListHead?, tail: ListHead?, ghost start: nat, ghost out: seq<ListHead>, ghost o: Order<ListHead>)
    requires insize > 0 && start0 < |s|
    requires PassState(s, out0, start0, insize, o0, o1) && PassMemory(cmp, was, s, out0, start0, list0, tail0, p, o1)
    modifies NodeSet(s)`next, InfoSet(s)`data16
    ensures start == if start0 + 2 * insize < |s| then start0 + 2 * insize else |s|
    ensures PassState(s, out, start, insize, o0, o) && PassMemory(cmp, was, s, out, start, list, tail, q, o)
  {
    var psize;
    ghost var mid;
    q, psize, mid, start := StepAlong(p, insize, s, start0);
    list, tail, q, out, o := MergeTwo(cmp, was, p, q, psize, insize, list0, tail0, s, start0, mid, start, out0, o0, o1);
  }

  lemma PassStarts(s: seq<ListHead>, w: nat, o: Order<ListHead>)
    requires w > 0 && s != [] && Distinct(s) && Covers(o, s) && Runs(o, s, w)
    ensures PassState(s, [], 0, w, o, o)
  {
    assert s[0..] == s && s[..0] == [];
  }

  lemma PassEnds(s: seq<ListHead>, out: seq<ListHead>, w: nat, o0: Order<ListHead>, o: Order<ListHead>)
    requires w > 0 && PassState(s, out, |s|, w, o0, o)
    ensures multiset(out) == multiset(s) && Distinct(out) && |out| == |s|
    ensures Refines(o0, o) && Covers(o, out) && Runs(o, out, 2 * w)
  {
    assert s[..|s|] == s;
    assert |multiset(out)| == |multiset(s)|;
  }

  /** A rearrangement of the nodes has the same nodes and items. */
  lemma SameNodes(s: seq<ListHead>, out: seq<ListHead>)
    requires multiset(out) == multiset(s)
    ensures forall x :: x in out <==> x in s
    ensures Nodes(s) && Distinct(out) ==> Nodes(out)
  {
    forall x ensures x in out <==> x in s {
      assert x in multiset(out) <==> x in multiset(s);
    }
    if Nodes(s) && Distinct(out) {
      forall i, j | 0 <= i < j < |out| ensures out[i].info != out[j].info {
        assert out[i] in s && out[j] in s && out[i] != out[j];
        var k :| 0 <= k < |s| && s[k] == out[i];
        InfoApart(s, k, out[j]);
      }
    }
  }

  lemma SameItems(s: seq<ListHead>, out: seq<ListHead>, cmp: Cmp, was: map<ListHead, Data16>, o: Order<ListHead>)
    requires multiset(out) == multiset(s) && Nodes(s) && Distinct(out)
    ensures NodeSet(out) == NodeSet(s) && InfoSet(out) == InfoSet(s) && Nodes(out)
    ensures KeysAt(cmp, o, was, s) ==> KeysAt(cmp, o, was, out)
  {
    SameNodes(s, out);
  }

  /** tail->next = NULL closes the merged list. */
  method Terminate(list: ListHead?, tail: ListHead?, ghost out: seq<ListHead>, ghost cmp: Cmp, ghost was: map<ListHead, Data16>, ghost o: Order<ListHead>)
    requires out != [] && Nodes(out) && Built(out, list, tail) && KeysAt(cmp, o, was, out)
    modifies NodeSet(out)`next
    ensures IsList(list, out) && KeysAt(cmp, o, was, out)
  {
    tail.next := null;
  }

  /** The middle loop: merges pair after pair until the list is used up. */
  method MergePairs(cmp: Cmp, ghost was: map<ListHead, Data16>, list0: ListHead, insize: int, ghost s: seq<ListHead>, ghost o0: Order<ListHead>)
    returns (list: ListHead?, tail: ListHead?, nmerges: int, ghost out: seq<ListHead>, ghost o: Order<ListHead>)
    requires insize > 0 && IsList(list0, s) && KeysAt(cmp, o0, was, s) && Runs(o0, s, insize)
    modifies NodeSet(s)`next, InfoSet(s)`data16
    ensures PassState(s, out, |s|, insize, o0, o) && PassMemory(cmp, was, s, out, |s|, list, tail, null, o)
    ensures nmerges <= 1 <==> |s| <= 2 * insize
  {
    var p: ListHead? := list0;
    list := null;
    tail := null;
    nmerges := 0;
    out, o := [], o0;
    ghost var start: nat := 0;
    PassStarts(s, insize, o0);
    while p != null
      invariant PassState(s, out, start, insize, o0, o) && PassMemory(cmp, was, s, out, start, list, tail, p, o)
      invariant nmerges == 0 ==> start == 0
      invariant nmerges == 1 ==> start == if 2 * insize < |s| then 2 * insize else |s|
      invariant nmerges >= 2 ==> |s| > 2 * insize
      invariant nmerges >= 0 && start <= |s|
      decreases |s| - start
    {
      nmerges := nmerges + 1;
      p, list, tail, start, out, o := MergePair(cmp, was, p, insize, list, tail, s, start, out, o0, o);
    }
    assert start == |s|;
  }

  /** The whole list is cut into runs. */
  ghost predicate InRuns(o: Order<ListHead>, s: seq<ListHead>, w: nat) {
    w > 0 && Covers(o, s) && Runs(o, s, w)
  }

  /** One round of the outer loop: pairs of runs of length insize become runs of twice
      that length. The number of merges tells whether one run is left. */
  method Pass(cmp: Cmp, ghost was: map<ListHead, Data16>, list0: ListHead, insize: int, ghost s: seq<ListHead>, ghost o0: Order<ListHead>)
    returns (list: ListHead?, nmerges: int, ghost out: seq<ListHead>, ghost o: Order<ListHead>)
    requires insize > 0 && IsList(list0, s) && KeysAt(cmp, o0, was, s) && InRuns(o0, s, insize)
    modifies NodeSet(s)`next, InfoSet(s)`data16
    ensures IsList(list, out) && multiset(out) == multiset(s) && |out| == |s|
    ensures forall n <- out :: n in s
    ensures Refines(o0, o) && KeysAt(cmp, o, was, out) && InRuns(o, out, 2 * insize)
    ensures nmerges <= 1 <==> |s| <= 2 * insize
  {
    var tail;
    list, tail, nmerges, out, o := MergePairs(cmp, was, list0, insize, s, o0);
    PassEnds(s, out, insize, o0, o);
    SameItems(s, out, cmp, was, o);
    Terminate(list, tail, out, cmp, was, o);
  }

  // ----- the sort -----

  /** The order at the start: keys as they are, positions in the list, nothing settled. */
  ghost function InitialOrder(cmp: Cmp, s: seq<ListHead>): (o: Order<ListHead>)
    requires Distinct(s)
    reads s`info, InfoSet(s)`data16, InfoSet(s)`idx
    ensures Covers(o, s) && o.done == {}
    ensures forall i :: 0 <= i < |s| ==> o.pos[s[i]] == i
    ensures KeysAt(cmp, o, Datas(s), s)
  {
    Order(map n | n in s :: Key(cmp, n.info.data16, n.info.idx),
          map n | n in s :: IndexOf(s, n), {})
  }

  ghost function IndexOf(s: seq<ListHead>, n: ListHead): (i: int)
    requires n in s
    ensures 0 <= i < |s| && s[i] == n
  {
    if s[0] == n then 0 else 1 + IndexOf(s[1..], n)
  }

  /** The key of a node as its item stands. */
  ghost function KeyOf(cmp: Cmp, n: ListHead): int
    reads n`info, n.info
  {
    Key(cmp, n.info.data16, n.info.idx)
  }

  /** Sorted by key, and nodes with equal keys in the order they had in s0. */
  ghost predicate StablySorted(cmp: Cmp, s: seq<ListHead>, s0: seq<ListHead>)
    requires forall n <- s :: n in s0
    reads s`info, InfoSet(s)
  {
    forall i, j :: 0 <= i < j < |s| ==>
      KeyOf(cmp, s[i]) < KeyOf(cmp, s[j])
      || (KeyOf(cmp, s[i]) == KeyOf(cmp, s[j]) && IndexOf(s0, s[i]) < IndexOf(s0, s[j]))
  }

  /** Sorted by the low seven bits that the items had, nodes with equal ones as they were. */
  ghost predicate SortedByLowBits(was: map<ListHead, Data16>, s: seq<ListHead>, s0: seq<ListHead>)
    requires forall n <- s :: n in s0 && n in was
  {
    forall i, j :: 0 <= i < j < |s| ==>
      was[s[i]] % 0x80 < was[s[j]] % 0x80
      || (was[s[i]] % 0x80 == was[s[j]] % 0x80 && IndexOf(s0, s[i]) < IndexOf(s0, s[j]))
  }

  /** The keys of items that run no benchmark are their own low bits. */
  lemma PlainKeys(was: map<ListHead, Data16>, s: seq<ListHead>, s0: seq<ListHead>)
    requires (forall n <- s :: n in s0) && StablySorted(CmpComplex, s, s0)
    requires forall n <- s :: n in was && Plain(was[n]) && Kept(CmpComplex, was[n], n.info.data16)
    ensures SortedByLowBits(was, s, s0)
  {
    forall i | 0 <= i < |s| ensures KeyOf(CmpComplex, s[i]) == (was[s[i]] % 0x80) as int {
      assert s[i] in s;
    }
  }

  /** One run is the whole list. */
  lemma LastPass(cmp: Cmp, was: map<ListHead, Data16>, s0: seq<ListHead>, out: seq<ListHead>, w: nat, o0: Order<ListHead>, o: Order<ListHead>)
    requires Distinct(s0) && multiset(out) == multiset(s0) && Refines(o0, o)
    requires o0.pos.Keys == NodeSet(s0) && forall i :: 0 <= i < |s0| ==> o0.pos[s0[i]] == i
    requires w > 0 && KeysAt(cmp, o, was, out) && Runs(o, out, w) && |out| <= w
    ensures forall n <- out :: n in s0
    ensures StablySorted(cmp, out, s0)
    ensures |out| >= 2 ==> forall n <- out :: Settled(cmp, n.info.data16)
  {
    forall n | n in out ensures n in s0 && o.pos[n] == IndexOf(s0, n) {
      assert n in multiset(out);
    }
    assert Run(o, out);
  }

  lemma SameSets(s: seq<ListHead>, out: seq<ListHead>)
    requires multiset(out) == multiset(s)
    ensures NodeSet(out) == NodeSet(s) && InfoSet(out) == InfoSet(s)
  {
    SameNodes(s, out);
  }

  /** A pass stays within the nodes and items of the list. */
  method PassInPlace(cmp: Cmp, ghost was: map<ListHead, Data16>, list0: ListHead, insize: int, ghost s: seq<ListHead>, ghost o0: Order<ListHead>)
    returns (list: ListHead?, nmerges: int, ghost out: seq<ListHead>, ghost o: Order<ListHead>)
    requires insize > 0 && IsList(list0, s) && KeysAt(cmp, o0, was, s) && InRuns(o0, s, insize)
    modifies NodeSet(s)`next, InfoSet(s)`data16
    ensures IsList(list, out) && multiset(out) == multiset(s) && |out| == |s|
    ensures NodeSet(out) == NodeSet(s) && InfoSet(out) == old(InfoSet(s))
    ensures Refines(o0, o) && KeysAt(cmp, o, was, out) && InRuns(o, out, 2 * insize)
    ensures nmerges <= 1 <==> |s| <= 2 * insize
  {
    list, nmerges, out, o := Pass(cmp, was, list0, insize, s, o0);
    SameSets(s, out);
  }

  /** The outer loop: passes with doubled run length until one run is left. */
  method RepeatPasses(list0: ListHead, cmp: Cmp, ghost was: map<ListHead, Data16>, ghost s0: seq<ListHead>, ghost o0: Order<ListHead>)
    returns (list: ListHead?, ghost s: seq<ListHead>, ghost w: nat, ghost o: Order<ListHead>)
    requires IsList(list0, s0) && KeysAt(cmp, o0, was, s0) && InRuns(o0, s0, 1)
    modifies NodeSet(s0)`next, InfoSet(s0)`data16
    ensures IsList(list, s) && multiset(s) == multiset(s0)
    ensures Refines(o0, o) && KeysAt(cmp, o, was, s) && |s| <= w && InRuns(o, s, w)
  {
    list, s, o := list0, s0, o0;
    var insize := 1;
    while true
      invariant IsList(list, s) && multiset(s) == multiset(s0) && list != null
      invariant NodeSet(s) == NodeSet(s0) && InfoSet(s) == old(InfoSet(s0))
      invariant Refines(o0, o) && KeysAt(cmp, o, was, s) && InRuns(o, s, insize)
      invariant 1 <= insize <= |s| == |s0|
      decreases |s0| - insize
    {
      var nmerges;
      list, nmerges, s, o := PassInPlace(cmp, was, list, insize, s, o);
      if nmerges <= 1 {
        w := 2 * insize;
        return;
      }
      insize := insize * 2;
    }
  }

  /** core_list_mergesort on a non-empty list (on an empty one the source would write
      through the NULL tail): terminates, and returns the same nodes, stably sorted by
      the final keys. With two nodes or more every item has been through the comparator,
      so every item is settled; no backup byte changes. */
  method core_list_mergesort(list0: ListHead, cmp: Cmp, ghost s0: seq<ListHead>) returns (list: ListHead?, ghost s: seq<ListHead>, ghost was: map<ListHead, Data16>)
    requires IsList(list0, s0)
    modifies NodeSet(s0)`next, InfoSet(s0)`data16
    ensures IsList(list, s) && multiset(s) == multiset(s0)
    ensures (forall n <- s :: n in s0) && StablySorted(cmp, s, s0) && was == old(Datas(s0))
    ensures |s0| >= 2 ==> forall n <- s :: Settled(cmp, n.info.data16)
    ensures forall n <- s :: Kept(cmp, old(n.info.data16), n.info.data16)
    ensures cmp == CmpComplex && (forall n <- s0 :: Plain(old(n.info.data16))) ==> SortedByLowBits(was, s, s0)
  {
    was := Datas(s0);
    ghost var o0 := InitialOrder(cmp, s0);
    SingleRuns(o0, s0);
    ghost var w, o;
    list, s, w, o := RepeatPasses(list0, cmp, was, s0, o0);
    LastPass(cmp, was, s0, s, w, o0, o);
    assert |multiset(s)| == |multiset(s0)|;
    if cmp == CmpComplex && forall n <- s0 :: Plain(old(n.info.data16)) {
      PlainKeys(was, s, s0);
    }
  }
}
