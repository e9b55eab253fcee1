/** The search for a free local port always ends: there are more ports than sockets. */
module TcpPorts {
  import opened TcpModel

  lemma NextPort(first: Word, n: nat)
    requires PORT_START <= first <= PORT_END
    ensures PortAfter(first, n + 1) == if PortAfter(first, n) == PORT_END then PORT_START else PortAfter(first, n) + 1
  {
  }

  /** The distinct ports first, first + 1, ... are each used by a socket of their own: so
      there are fewer of them than other sockets. */
  lemma {:induction false} BusyPortsFew(socket: seq<Socket>, i: nat, first: Word, n: nat)
    requires |socket| == SOCKETS && i < SOCKETS && PORT_START <= first <= PORT_END
    requires forall j :: 0 <= j < n ==> Busy(socket, i, PortAfter(first, j))
    ensures n < SOCKETS
  {
    if n >= SOCKETS {
      var user := UsersOf(socket, i, first, SOCKETS);
      DistinctUsers(user, i, SOCKETS);
    }
  }

  lemma UsersOf(socket: seq<Socket>, i: nat, first: Word, n: nat) returns (user: seq<nat>)
    requires |socket| == SOCKETS && i < SOCKETS && PORT_START <= first <= PORT_END && n <= SOCKETS
    requires forall j :: 0 <= j < n ==> Busy(socket, i, PortAfter(first, j))
    ensures |user| == n && forall j :: 0 <= j < n ==> user[j] < SOCKETS && user[j] != i && socket[user[j]].localPort == PortAfter(first, j)
    ensures forall j, k :: 0 <= j < k < n ==> user[j] != user[k]
  {
    user := [];
    while |user| < n
      invariant |user| <= n
      invariant forall j :: 0 <= j < |user| ==> user[j] < SOCKETS && user[j] != i && socket[user[j]].localPort == PortAfter(first, j)
    {
      assert Busy(socket, i, PortAfter(first, |user|));
      var b :| 0 <= b < |socket| && b != i && socket[b].state != Closed && socket[b].localPort == PortAfter(first, |user|);
      user := user + [b];
    }
    forall j, k | 0 <= j < k < n ensures user[j] != user[k] {
      PortsDiffer(first, j, k);
    }
  }

  lemma PortsDiffer(first: Word, j: nat, k: nat)
    requires PORT_START <= first <= PORT_END && j < k < PORTS
    ensures PortAfter(first, j) != PortAfter(first, k)
  {
  }

  /** Different numbers below n other than i: fewer than n of them. */
  lemma DistinctUsers(user: seq<nat>, i: nat, n: nat)
    requires i < n
    requires forall j :: 0 <= j < |user| ==> user[j] < n && user[j] != i
    requires forall j, k :: 0 <= j < k < |user| ==> user[j] != user[k]
    ensures |user| < n
  {
    BelowSize(n);
    DistinctFit(user + [i], Below(n));
  }

  ghost function Below(n: nat): (s: set<nat>)
    ensures forall x: nat :: x in s <==> x < n
  {
    if n == 0 then {} else Below(n - 1) + {n - 1}
  }

  lemma {:induction false} BelowSize(n: nat)
    ensures |Below(n)| == n
  {
    if n > 0 {
      BelowSize(n - 1);
    }
  }

  lemma {:induction false} DistinctFit(xs: seq<nat>, range: set<nat>)
    requires forall j :: 0 <= j < |xs| ==> xs[j] in range
    requires forall j, k :: 0 <= j < k < |xs| ==> xs[j] != xs[k]
    ensures |xs| <= |range|
  {
    if xs != [] {
      DistinctFit(xs[..|xs| - 1], range - {xs[|xs| - 1]});
    }
  }

  lemma {:induction false} BusyPortsOthers(a: seq<Socket>, b: seq<Socket>, i: nat, first: Word, k: nat)
    requires PORT_START <= first <= PORT_END && k <= PORTS
    requires |a| == |b| && forall j :: 0 <= j < |a| && j != i ==> a[j] == b[j]
    ensures BusyPorts(a, i, first, k) == BusyPorts(b, i, first, k)
    decreases |a| + PORTS - k
  {
    if k < PORTS {
      BusyPortsOthers(a, b, i, first, k + 1);
    }
  }
}
