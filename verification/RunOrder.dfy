/** Sequences ordered by key and, among equal keys, by original position: what one
    bottom-up merge pass needs to know about its runs. No memory is involved here. */
module RunOrder {

  ghost predicate Distinct<T>(s: seq<T>) {
    forall i, j :: 0 <= i < j < |s| ==> s[i] != s[j]
  }

  /** The current keys, the original positions, and the elements whose key is final. */
  datatype Order<!T> = Order(key: map<T, int>, pos: map<T, int>, done: set<T>)

  ghost predicate Covers<T>(o: Order<T>, s: seq<T>) {
    forall x <- s :: x in o.key && x in o.pos
  }

  ghost predicate Before<T>(o: Order<T>, a: T, b: T)
    requires a in o.key && a in o.pos && b in o.key && b in o.pos
  {
    o.key[a] < o.key[b] || (o.key[a] == o.key[b] && o.pos[a] < o.pos[b])
  }

  ghost predicate Sorted<T>(o: Order<T>, s: seq<T>)
    requires Covers(o, s)
  {
    forall i, j :: 0 <= i < j < |s| ==> Before(o, s[i], s[j])
  }

  /** A run: sorted, and if it holds two or more elements, all their keys are final. */
  ghost predicate Run<T>(o: Order<T>, r: seq<T>)
    requires Covers(o, r)
  {
    Sorted(o, r) && (|r| >= 2 ==> forall x <- r :: x in o.done)
  }

  ghost predicate Earlier<T>(o: Order<T>, a: seq<T>, b: seq<T>)
    requires Covers(o, a) && Covers(o, b)
  {
    forall x <- a, y <- b :: o.pos[x] < o.pos[y]
  }

  /** s is cut into runs of length w, the last one possibly shorter, and positions only
      grow from run to run. */
  ghost predicate Runs<T>(o: Order<T>, s: seq<T>, w: nat)
    requires w > 0 && Covers(o, s)
    decreases |s|
  {
    if |s| <= w then Run(o, s)
    else Run(o, s[..w]) && Earlier(o, s[..w], s[w..]) && Runs(o, s[w..], w)
  }

  /** As Runs, with no short run at the end. */
  ghost predicate FullRuns<T>(o: Order<T>, s: seq<T>, w: nat)
    requires w > 0 && Covers(o, s)
    decreases |s|
  {
    s == [] || (|s| >= w && Run(o, s[..w]) && Earlier(o, s[..w], s[w..]) && FullRuns(o, s[w..], w))
  }

  lemma {:induction false} AppendRuns<T>(o: Order<T>, a: seq<T>, b: seq<T>, w: nat)
    requires w > 0 && Covers(o, a) && Covers(o, b)
    requires FullRuns(o, a, w) && Runs(o, b, w) && Earlier(o, a, b)
    ensures Covers(o, a + b) && Runs(o, a + b, w)
    decreases |a|
  {
    if a == [] {
      assert a + b == b;
    } else {
      AppendRuns(o, a[w..], b, w);
      assert (a + b)[..w] == a[..w] && (a + b)[w..] == a[w..] + b;
      if b == [] {
        assert a[w..] + b == a[w..];
      }
    }
  }

  lemma {:induction false} AppendFullRun<T>(o: Order<T>, a: seq<T>, b: seq<T>, w: nat)
    requires w > 0 && Covers(o, a) && Covers(o, b)
    requires FullRuns(o, a, w) && |b| == w && Run(o, b) && Earlier(o, a, b)
    ensures Covers(o, a + b) && FullRuns(o, a + b, w)
    decreases |a|
  {
    if a == [] {
      assert a + b == b;
      assert b[..w] == b && b[w..] == [];
    } else {
      AppendFullRun(o, a[w..], b, w);
      assert (a + b)[..w] == a[..w] && (a + b)[w..] == a[w..] + b;
    }
  }

  /** Later comparisons may settle more keys but change no final one. */
  ghost predicate Refines<T>(o: Order<T>, o': Order<T>) {
    && o'.pos == o.pos && o.done <= o'.done && o.key.Keys == o'.key.Keys
    && forall x <- o.done :: x in o.key ==> o'.key[x] == o.key[x]
  }

  lemma RunRefined<T>(o: Order<T>, o': Order<T>, r: seq<T>)
    requires Covers(o, r) && Run(o, r) && Refines(o, o')
    ensures Covers(o', r) && Run(o', r)
  {
  }

  lemma {:induction false} RunsRefined<T>(o: Order<T>, o': Order<T>, s: seq<T>, w: nat)
    requires w > 0 && Covers(o, s) && Runs(o, s, w) && Refines(o, o')
    ensures Covers(o', s) && Runs(o', s, w)
    decreases |s|
  {
    if |s| <= w {
      RunRefined(o, o', s);
    } else {
      RunRefined(o, o', s[..w]);
      RunsRefined(o, o', s[w..], w);
    }
  }

  lemma {:induction false} FullRunsRefined<T>(o: Order<T>, o': Order<T>, s: seq<T>, w: nat)
    requires w > 0 && Covers(o, s) && FullRuns(o, s, w) && Refines(o, o')
    ensures Covers(o', s) && FullRuns(o', s, w)
    decreases |s|
  {
    if s != [] {
      RunRefined(o, o', s[..w]);
      FullRunsRefined(o, o', s[w..], w);
    }
  }

  /** One-element runs are runs whatever the keys. */
  lemma {:induction false} SingleRuns<T>(o: Order<T>, s: seq<T>)
    requires Covers(o, s)
    requires forall i, j :: 0 <= i < j < |s| ==> o.pos[s[i]] < o.pos[s[j]]
    ensures Runs(o, s, 1)
    decreases |s|
  {
    if |s| > 1 {
      SingleRuns(o, s[1..]);
    }
  }

  /** The run at the front of s, and what is left. */
  lemma FirstRun<T>(o: Order<T>, s: seq<T>, w: nat)
    requires w > 0 && Covers(o, s) && Runs(o, s, w)
    ensures var e := if |s| < w then |s| else w;
      Run(o, s[..e]) && Runs(o, s[e..], w) && Earlier(o, s[..e], s[e..])
  {
    if |s| <= w {
      assert s[..|s|] == s;
    }
  }

  // ----- merging two runs -----

  /** The merge so far: m holds the consumed parts of p and q in order, and everything
      in it comes before everything still to come. */
  ghost predicate Merging<T>(o: Order<T>, m: seq<T>, p: seq<T>, q: seq<T>)
    requires Covers(o, m) && Covers(o, p) && Covers(o, q)
  {
    && Sorted(o, m) && Sorted(o, p) && Sorted(o, q)
    && (forall x <- m, y <- p :: Before(o, x, y))
    && (forall x <- m, y <- q :: Before(o, x, y))
    && Earlier(o, p, q)
  }

  /** The head of p is next if q is empty or the head of q has no smaller key. */
  lemma TakeP<T>(o: Order<T>, m: seq<T>, p: seq<T>, q: seq<T>)
    requires Covers(o, m) && Covers(o, p) && Covers(o, q) && Merging(o, m, p, q)
    requires p != [] && (q != [] ==> o.key[p[0]] <= o.key[q[0]])
    ensures Covers(o, m + [p[0]]) && Covers(o, p[1..]) && Merging(o, m + [p[0]], p[1..], q)
  {
    forall y | y in q ensures Before(o, p[0], y) {
      assert p[0] in p && q[0] in q;
      var j :| 0 <= j < |q| && q[j] == y;
    }
  }

  /** The head of q is next if p is empty or the head of p has a larger key. */
  lemma TakeQ<T>(o: Order<T>, m: seq<T>, p: seq<T>, q: seq<T>)
    requires Covers(o, m) && Covers(o, p) && Covers(o, q) && Merging(o, m, p, q)
    requires q != [] && (p != [] ==> o.key[q[0]] < o.key[p[0]])
    ensures Covers(o, m + [q[0]]) && Covers(o, q[1..]) && Merging(o, m + [q[0]], p, q[1..])
  {
    forall y | y in p ensures Before(o, q[0], y) {
      var j :| 0 <= j < |p| && p[j] == y;
    }
  }

  // ----- a sorted order is determined -----

  /** Two sorted arrangements of the same elements are the same sequence. */
  lemma {:induction false} SortedIsUnique<T>(o: Order<T>, a: seq<T>, b: seq<T>)
    requires Covers(o, a) && Covers(o, b) && Sorted(o, a) && Sorted(o, b)
    requires multiset(a) == multiset(b)
    ensures a == b
    decreases |a|
  {
    assert |a| == |multiset(a)| == |multiset(b)| == |b|;
    if a != [] {
      assert a[0] in multiset(b) && b[0] in multiset(a);
      assert a[0] == b[0];
      assert a == [a[0]] + a[1..] && b == [b[0]] + b[1..];
      assert multiset(a[1..]) == multiset(a) - multiset{a[0]};
      assert multiset(b[1..]) == multiset(b) - multiset{b[0]};
      SortedIsUnique(o, a[1..], b[1..]);
    }
  }
}
