/** Directed attributed graphs as networkx's DiGraph holds them: a node set and
    the edge rows in insertion order, each edge carrying an amount and a count.
    The module also gives the reference notions every traversal is proved
    against: walks, hop-bounded reachability and hop distance. */
module Digraph {
  import opened Wrappers

  type Account = string

  /** One aggregated sender→receiver row; the same record is a graph edge. */
  datatype Edge = Edge(sender: Account, receiver: Account, amount: int, count: int)

  datatype Graph = Graph(nodes: set<Account>, edges: seq<Edge>)

  function Elems(s: seq<Account>): set<Account> {
    set x | x in s
  }

  predicate NoDup(s: seq<Account>) {
    forall i, j :: 0 <= i < j < |s| ==> s[i] != s[j]
  }

  predicate SamePair(a: Edge, b: Edge) {
    a.sender == b.sender && a.receiver == b.receiver
  }

  /** At most one row per ordered (sender, receiver) pair. */
  predicate UniquePairs(es: seq<Edge>) {
    forall i, j :: 0 <= i < j < |es| ==> !SamePair(es[i], es[j])
  }

  /** The first row of a list with distinct pairs shares its pair with no
      later row. */
  lemma UniqueHead(es: seq<Edge>)
    requires |es| > 0 && UniquePairs(es)
    ensures forall e :: e in es[1..] ==> !SamePair(es[0], e)
  {
    forall e | e in es[1..]
      ensures !SamePair(es[0], e)
    {
      var j :| 0 <= j < |es[1..]| && es[1..][j] == e;
      assert es[j + 1] == e;
    }
  }

  function Endpoints(es: seq<Edge>): set<Account> {
    (set e | e in es :: e.sender) + (set e | e in es :: e.receiver)
  }

  /** The shape every graph of the pipeline has: unique pairs, and every edge
      endpoint is a node. */
  predicate Valid(g: Graph) {
    UniquePairs(g.edges) && Endpoints(g.edges) <= g.nodes
  }

  predicate HasEdge(g: Graph, a: Account, b: Account) {
    exists e :: e in g.edges && e.sender == a && e.receiver == b
  }

  /** The row for pair (a, b), if there is one. */
  function FindEdge(es: seq<Edge>, a: Account, b: Account): (r: Option<Edge>)
    ensures r.Some? ==> r.value in es && r.value.sender == a && r.value.receiver == b
    ensures r.None? <==> forall e :: e in es ==> !(e.sender == a && e.receiver == b)
  {
    if |es| == 0 then None
    else if es[0].sender == a && es[0].receiver == b then Some(es[0])
    else
      assert forall e :: e in es <==> e == es[0] || e in es[1..];
      FindEdge(es[1..], a, b)
  }

  /** With unique pairs, the row for a pair is the only one. */
  lemma FindEdgeUnique(es: seq<Edge>, e: Edge)
    requires UniquePairs(es) && e in es
    ensures FindEdge(es, e.sender, e.receiver) == Some(e)
  {
    var f := FindEdge(es, e.sender, e.receiver).value;
    var i :| 0 <= i < |es| && es[i] == e;
    var j :| 0 <= j < |es| && es[j] == f;
    assert SamePair(es[i], es[j]);
  }

  /** Every node one out-edge away from some node of `from`. Written as a
      recursion over the rows so that membership is only unfolded on request
      (`SuccsMember`). */
  function Succs(g: Graph, from: set<Account>): set<Account> {
    Targets(g.edges, from)
  }

  function Targets(es: seq<Edge>, from: set<Account>): set<Account> {
    if |es| == 0 then {}
    else
      var x := es[|es| - 1];
      Targets(es[..|es| - 1], from) + (if x.sender in from then {x.receiver} else {})
  }

  lemma {:induction false} TargetsMember(es: seq<Edge>, from: set<Account>, w: Account)
    ensures w in Targets(es, from) <==> exists e :: e in es && e.sender in from && e.receiver == w
  {
    if |es| > 0 {
      TargetsMember(es[..|es| - 1], from, w);
      assert forall e :: e in es <==> e in es[..|es| - 1] || e == es[|es| - 1];
    }
  }

  lemma SuccsMember(g: Graph, from: set<Account>, w: Account)
    ensures w in Succs(g, from) <==> exists e :: e in g.edges && e.sender in from && e.receiver == w
  {
    TargetsMember(g.edges, from, w);
  }

  lemma SuccsIs(g: Graph, from: set<Account>)
    ensures Succs(g, from) == set e | e in g.edges && e.sender in from :: e.receiver
  {
    forall w
      ensures w in Succs(g, from) <==> w in set e | e in g.edges && e.sender in from :: e.receiver
    {
      SuccsMember(g, from, w);
    }
  }

  /** The successors of `v` in edge insertion order: the order in which
      networkx iterates a DiGraph's adjacency. */
  function Adj(es: seq<Edge>, v: Account): (r: seq<Account>)
    ensures Elems(r) == set e | e in es && e.sender == v :: e.receiver
  {
    if |es| == 0 then []
    else
      var head := if es[0].sender == v then [es[0].receiver] else [];
      var r := head + Adj(es[1..], v);
      assert forall e :: e in es <==> e == es[0] || e in es[1..];
      assert Elems(r) == Elems(head) + Elems(Adj(es[1..], v));
      r
  }

  lemma AdjIsSuccs(g: Graph, v: Account)
    ensures Elems(Adj(g.edges, v)) == Succs(g, {v})
  {
    SuccsIs(g, {v});
  }

  lemma SuccsUnion(g: Graph, a: set<Account>, b: set<Account>)
    ensures Succs(g, a + b) == Succs(g, a) + Succs(g, b)
  {
    TargetsUnion(g.edges, a, b);
  }

  lemma {:induction false} TargetsUnion(es: seq<Edge>, a: set<Account>, b: set<Account>)
    ensures Targets(es, a + b) == Targets(es, a) + Targets(es, b)
  {
    if |es| > 0 {
      TargetsUnion(es[..|es| - 1], a, b);
    }
  }

  lemma SuccsInNodes(g: Graph, from: set<Account>)
    requires Valid(g)
    ensures Succs(g, from) <= g.nodes
  {
    SuccsInEndpoints(g, from);
  }

  lemma SuccsInEndpoints(g: Graph, from: set<Account>)
    ensures Succs(g, from) <= Endpoints(g.edges)
  {
    forall w | w in Succs(g, from)
      ensures w in Endpoints(g.edges)
    {
      SuccsMember(g, from, w);
    }
  }

  lemma SuccsOfNone(g: Graph)
    ensures Succs(g, {}) == {}
  {
    forall w | w in Succs(g, {})
      ensures false
    {
      SuccsMember(g, {}, w);
    }
  }

  // ---------------------------------------------------------------------------
  // Sums over edge rows

  /** Which rows a sum ranges over. */
  datatype Selector = From(a: Account) | To(a: Account) | Pair(a: Account, b: Account) | AllRows

  /** Which quantity a sum adds up: the amount, the count, or 1 per row. */
  datatype Measure = Amount | Count | Rows

  predicate Selects(sel: Selector, sender: Account, receiver: Account) {
    match sel
    case From(a) => sender == a
    case To(a) => receiver == a
    case Pair(a, b) => sender == a && receiver == b
    case AllRows => true
  }

  function Weight(e: Edge, m: Measure): int {
    match m
    case Amount => e.amount
    case Count => e.count
    case Rows => 1
  }

  /** Sum of measure `m` over the rows `sel` picks. */
  function EdgeSum(es: seq<Edge>, sel: Selector, m: Measure): (r: int)
    ensures m == Rows ==> 0 <= r <= |es|
    ensures (forall e :: e in es ==> !Selects(sel, e.sender, e.receiver)) ==> r == 0
  {
    if |es| == 0 then 0
    else
      var e := es[|es| - 1];
      EdgeSum(es[..|es| - 1], sel, m) + (if Selects(sel, e.sender, e.receiver) then Weight(e, m) else 0)
  }

  predicate NonNegative(es: seq<Edge>) {
    forall e :: e in es ==> e.amount >= 0 && e.count >= 0
  }

  lemma {:induction false} EdgeSumAppend(es: seq<Edge>, x: Edge, sel: Selector, m: Measure)
    ensures EdgeSum(es + [x], sel, m)
            == EdgeSum(es, sel, m) + (if Selects(sel, x.sender, x.receiver) then Weight(x, m) else 0)
  {
    assert (es + [x])[..|es|] == es;
  }

  /** Replacing one row changes a sum by the difference of that row's
      contributions. */
  lemma {:induction false} EdgeSumUpdate(es: seq<Edge>, i: nat, x: Edge, sel: Selector, m: Measure)
    requires i < |es|
    ensures EdgeSum(es[i := x], sel, m)
            == EdgeSum(es, sel, m)
               - (if Selects(sel, es[i].sender, es[i].receiver) then Weight(es[i], m) else 0)
               + (if Selects(sel, x.sender, x.receiver) then Weight(x, m) else 0)
    decreases |es|
  {
    var n := |es| - 1;
    if i < n {
      EdgeSumUpdate(es[..n], i, x, sel, m);
      assert es[i := x][..n] == es[..n][i := x];
    } else {
      assert es[i := x][..n] == es[..n];
    }
  }

  /** With non-negative rows, a sum is at least any one row it ranges over. */
  lemma {:induction false} EdgeSumCovers(es: seq<Edge>, e: Edge, sel: Selector, m: Measure)
    requires NonNegative(es) && e in es && Selects(sel, e.sender, e.receiver)
    ensures EdgeSum(es, sel, m) >= Weight(e, m)
    decreases |es|
  {
    var n := |es| - 1;
    assert forall x :: x in es[..n] ==> x in es;
    if es[n] == e {
      if m != Rows {
        EdgeSumNonNegative(es[..n], sel, m);
      }
    } else {
      assert e in es[..n] by {
        var k :| 0 <= k < |es| && es[k] == e;
        assert k < n;
        assert es[..n][k] == e;
      }
      EdgeSumCovers(es[..n], e, sel, m);
    }
  }

  lemma {:induction false} EdgeSumNonNegative(es: seq<Edge>, sel: Selector, m: Measure)
    requires NonNegative(es)
    ensures EdgeSum(es, sel, m) >= 0
    decreases |es|
  {
    if |es| > 0 {
      var n := |es| - 1;
      assert forall x :: x in es[..n] ==> x in es;
      EdgeSumNonNegative(es[..n], sel, m);
    }
  }

  // ---------------------------------------------------------------------------
  // Walks, hop-bounded reachability and hop distance (the reference notions)

  /** A non-empty node sequence whose consecutive nodes are joined by edges. */
  ghost predicate IsWalk(g: Graph, p: seq<Account>) {
    |p| >= 1 && forall i :: 0 <= i < |p| - 1 ==> HasEdge(g, p[i], p[i + 1])
  }

  /** `v` can be reached from `s` by following at most `k` edges forward. */
  ghost predicate WithinHops(g: Graph, s: Account, v: Account, k: nat) {
    exists p :: IsWalk(g, p) && p[0] == s && p[|p| - 1] == v && |p| <= k + 1
  }

  /** `d` is the least number of edges on a directed walk from `s` to `v`. */
  ghost predicate IsDistance(g: Graph, s: Account, v: Account, d: nat) {
    WithinHops(g, s, v, d) && (d == 0 || !WithinHops(g, s, v, d - 1))
  }

  ghost predicate Reachable(g: Graph, s: Account, v: Account) {
    exists k: nat :: WithinHops(g, s, v, k)
  }

  /** Nodes within `k` hops, built one frontier at a time. */
  ghost function Ball(g: Graph, s: Account, k: nat): set<Account> {
    if k == 0 then {s} else Ball(g, s, k - 1) + Succs(g, Ball(g, s, k - 1))
  }

  /** Nodes at exactly `k` hops. */
  ghost function Sphere(g: Graph, s: Account, k: nat): set<Account> {
    if k == 0 then {s} else Ball(g, s, k) - Ball(g, s, k - 1)
  }

  lemma {:induction false} BallGrows(g: Graph, s: Account, j: nat, k: nat)
    requires j <= k
    ensures Ball(g, s, j) <= Ball(g, s, k)
    decreases k
  {
    if j < k {
      BallGrows(g, s, j, k - 1);
    }
  }

  lemma {:induction false} BallHasWalk(g: Graph, s: Account, k: nat, v: Account)
    requires v in Ball(g, s, k)
    ensures WithinHops(g, s, v, k)
    decreases k
  {
    if k == 0 {
      assert IsWalk(g, [s]);
      assert [s][0] == s && [s][|[s]| - 1] == v;
    } else if v in Ball(g, s, k - 1) {
      BallHasWalk(g, s, k - 1, v);
      var p :| IsWalk(g, p) && p[0] == s && p[|p| - 1] == v && |p| <= k;
      assert |p| <= k + 1;
    } else {
      SuccsMember(g, Ball(g, s, k - 1), v);
      var e :| e in g.edges && e.sender in Ball(g, s, k - 1) && e.receiver == v;
      BallHasWalk(g, s, k - 1, e.sender);
      var p :| IsWalk(g, p) && p[0] == s && p[|p| - 1] == e.sender && |p| <= k;
      var q := p + [v];
      assert HasEdge(g, e.sender, v);
      forall i | 0 <= i < |q| - 1
        ensures HasEdge(g, q[i], q[i + 1])
      {
        if i < |p| - 1 {
          assert q[i] == p[i] && q[i + 1] == p[i + 1];
        } else {
          assert q[i] == e.sender && q[i + 1] == v;
        }
      }
      assert IsWalk(g, q) && q[0] == s && q[|q| - 1] == v && |q| <= k + 1;
    }
  }

  lemma {:induction false} WalkInBall(g: Graph, p: seq<Account>, k: nat)
    requires IsWalk(g, p) && |p| <= k + 1
    ensures p[|p| - 1] in Ball(g, p[0], k)
    decreases k
  {
    if |p| == 1 {
      BallGrows(g, p[0], 0, k);
    } else {
      var q := p[..|p| - 1];
      forall i | 0 <= i < |q| - 1
        ensures HasEdge(g, q[i], q[i + 1])
      {
        assert q[i] == p[i] && q[i + 1] == p[i + 1];
      }
      WalkInBall(g, q, k - 1);
      var u := p[|p| - 2];
      assert q[|q| - 1] == u;
      assert HasEdge(g, u, p[|p| - 1]);
      var e :| e in g.edges && e.sender == u && e.receiver == p[|p| - 1];
      SuccsMember(g, Ball(g, p[0], k - 1), p[|p| - 1]);
      assert p[|p| - 1] in Succs(g, Ball(g, p[0], k - 1));
    }
  }

  /** The frontier construction agrees with the walk definition. */
  lemma BallIsWithinHops(g: Graph, s: Account, k: nat, v: Account)
    ensures v in Ball(g, s, k) <==> WithinHops(g, s, v, k)
  {
    if v in Ball(g, s, k) {
      BallHasWalk(g, s, k, v);
    }
    if WithinHops(g, s, v, k) {
      var p :| IsWalk(g, p) && p[0] == s && p[|p| - 1] == v && |p| <= k + 1;
      WalkInBall(g, p, k);
    }
  }

  lemma SphereIsDistance(g: Graph, s: Account, d: nat, v: Account)
    ensures v in Sphere(g, s, d) <==> IsDistance(g, s, v, d)
  {
    BallIsWithinHops(g, s, d, v);
    if d > 0 {
      BallIsWithinHops(g, s, d - 1, v);
    }
  }

  lemma WithinHopsGrows(g: Graph, s: Account, v: Account, j: nat, k: nat)
    requires j <= k && WithinHops(g, s, v, j)
    ensures WithinHops(g, s, v, k)
  {
    var p :| IsWalk(g, p) && p[0] == s && p[|p| - 1] == v && |p| <= j + 1;
    assert |p| <= k + 1;
  }

  /** Anything reachable within `k` hops has a hop distance of at most `k`. */
  lemma {:induction false} LeastHops(g: Graph, s: Account, v: Account, k: nat)
    requires WithinHops(g, s, v, k)
    ensures exists d: nat :: d <= k && IsDistance(g, s, v, d)
    decreases k
  {
    if k == 0 || !WithinHops(g, s, v, k - 1) {
      assert IsDistance(g, s, v, k);
    } else {
      LeastHops(g, s, v, k - 1);
    }
  }

  /** Hop distance is unique. */
  lemma DistanceUnique(g: Graph, s: Account, v: Account, d1: nat, d2: nat)
    requires IsDistance(g, s, v, d1) && IsDistance(g, s, v, d2)
    ensures d1 == d2
  {
  }

  /** The nodes first met at hop k+1 are the successors of hop k not met before. */
  lemma NextSphere(g: Graph, s: Account, k: nat)
    ensures Sphere(g, s, k + 1) == Succs(g, Sphere(g, s, k)) - Ball(g, s, k)
    ensures Ball(g, s, k + 1) == Ball(g, s, k) + Sphere(g, s, k + 1)
  {
    BallGrows(g, s, k, k + 1);
    if k > 0 {
      BallGrows(g, s, k - 1, k);
      assert Ball(g, s, k) == Ball(g, s, k - 1) + Sphere(g, s, k);
      SuccsUnion(g, Ball(g, s, k - 1), Sphere(g, s, k));
    }
  }

  /** Once a frontier step adds nothing, no later step does. */
  lemma {:induction false} BallStable(g: Graph, s: Account, k: nat, j: nat)
    requires Ball(g, s, k + 1) == Ball(g, s, k) && k <= j
    ensures Ball(g, s, j) == Ball(g, s, k)
    decreases j - k
  {
    if j > k {
      BallStable(g, s, k, j - 1);
    }
  }

  lemma NoSpheresBeyond(g: Graph, s: Account, k: nat)
    requires Ball(g, s, k + 1) == Ball(g, s, k)
    ensures forall d: nat :: d > k ==> Sphere(g, s, d) == {}
  {
    forall d: nat | d > k
      ensures Sphere(g, s, d) == {}
    {
      SphereBeyond(g, s, k, d);
    }
  }

  lemma SphereBeyond(g: Graph, s: Account, k: nat, d: nat)
    requires Ball(g, s, k + 1) == Ball(g, s, k) && d > k
    ensures Sphere(g, s, d) == {}
  {
    BallStable(g, s, k, d);
    BallStable(g, s, k, d - 1);
    SameSet(Ball(g, s, d), Ball(g, s, d - 1), Ball(g, s, k));
    EmptySphere(g, s, d);
  }

  lemma SameSet(x: set<Account>, y: set<Account>, z: set<Account>)
    requires x == z && y == z
    ensures x == y
  {
  }

  lemma UnionEmpty(x: set<Account>, y: set<Account>)
    requires y == {}
    ensures x + y == x
  {
  }

  lemma EmptySphere(g: Graph, s: Account, d: nat)
    requires d > 0 && Ball(g, s, d) == Ball(g, s, d - 1)
    ensures Sphere(g, s, d) == {}
  {
    assert Sphere(g, s, d) == Ball(g, s, d) - Ball(g, s, d - 1);
  }

  /** A ball that already holds every node stays put. */
  lemma BallFull(g: Graph, s: Account, k: nat)
    requires Valid(g) && s in g.nodes && Ball(g, s, k) == g.nodes
    ensures Ball(g, s, k + 1) == g.nodes
  {
    BallInNodes(g, s, k + 1);
    BallGrows(g, s, k, k + 1);
  }

  /** An empty frontier ends the search: no later frontier has a node. */
  lemma EmptySphereStops(g: Graph, s: Account, k: nat)
    requires k > 0 && Sphere(g, s, k) == {}
    ensures forall d: nat :: d > k ==> Sphere(g, s, d) == {}
  {
    EmptySphereStable(g, s, k);
    forall d: nat | d > k
      ensures Sphere(g, s, d) == {}
    {
      SphereBeyond(g, s, k - 1, d);
    }
  }

  lemma EmptySphereStable(g: Graph, s: Account, k: nat)
    requires k > 0 && Sphere(g, s, k) == {}
    ensures Ball(g, s, k) == Ball(g, s, k - 1)
  {
    NextSphere(g, s, k - 1);
    UnionEmpty(Ball(g, s, k - 1), Sphere(g, s, k));
    SameSet(Ball(g, s, k), Ball(g, s, k - 1), Ball(g, s, k - 1) + Sphere(g, s, k));
  }

  lemma {:induction false} BallInNodes(g: Graph, s: Account, k: nat)
    requires Valid(g) && s in g.nodes
    ensures Ball(g, s, k) <= g.nodes
    decreases k
  {
    if k > 0 {
      BallInNodes(g, s, k - 1);
      SuccsInNodes(g, Ball(g, s, k - 1));
    }
  }
}
