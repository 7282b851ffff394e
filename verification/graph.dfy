/** `build_graph` and `build_ego_graph` (src/sna/graph.py): the aggregated
    rows as a directed graph, and the subgraph induced by every node within
    `radius` forward hops of an alerted account. */
module Graphs {
  import opened Wrappers
  import opened Digraph
  import opened ConfigValues
  import opened ShortestPaths

  /** `nx.from_pandas_edgelist(..., create_using=nx.DiGraph())`: a node for
      every sender and receiver, an edge for every row carrying its amount
      and count. */
  function BuildGraph(rows: seq<Edge>): (g: Graph)
    ensures forall v :: v in g.nodes <==> exists e :: e in rows && (e.sender == v || e.receiver == v)
    ensures forall e :: e in rows ==> FindEdge(g.edges, e.sender, e.receiver).Some?
    ensures UniquePairs(rows) ==> Valid(g)
    ensures UniquePairs(rows) ==> forall e :: e in rows ==> FindEdge(g.edges, e.sender, e.receiver) == Some(e)
    ensures forall a, b :: HasEdge(g, a, b) ==> exists e :: e in rows && e.sender == a && e.receiver == b
  {
    var g := Graph(Endpoints(rows), rows);
    assert forall e :: e in rows ==> (UniquePairs(rows) ==> FindEdge(g.edges, e.sender, e.receiver) == Some(e)) by {
      forall e | e in rows && UniquePairs(rows) {
        FindEdgeUnique(rows, e);
      }
    }
    g
  }

  /** Edges run one way: a single row a→b gives no edge b→a. */
  lemma Directed()
    ensures var g := BuildGraph([Edge("A", "B", 300, 2)]);
            HasEdge(g, "A", "B") && !HasEdge(g, "B", "A")
  {
    var g := BuildGraph([Edge("A", "B", 300, 2)]);
    assert g.edges[0] in g.edges;
  }

  /** The edges whose two endpoints are both kept, in their original order. */
  function KeepEdges(es: seq<Edge>, keep: set<Account>): (r: seq<Edge>)
    ensures forall e :: e in r <==> e in es && e.sender in keep && e.receiver in keep
    ensures UniquePairs(es) ==> UniquePairs(r)
  {
    if |es| == 0 then []
    else
      var rest := KeepEdges(es[1..], keep);
      assert forall e :: e in es <==> e == es[0] || e in es[1..];
      if es[0].sender in keep && es[0].receiver in keep then
        assert UniquePairs(es) ==> forall e :: e in rest ==> !SamePair(es[0], e) by {
          if UniquePairs(es) {
            UniqueHead(es);
          }
        }
        [es[0]] + rest
      else
        rest
  }

  /** `G.subgraph(keep)`: the nodes of G that are kept and every edge of G
      between two of them, attributes unchanged. */
  function Induced(g: Graph, keep: set<Account>): (h: Graph)
    ensures h.nodes == g.nodes * keep
    ensures forall e :: e in h.edges <==> e in g.edges && e.sender in keep && e.receiver in keep
    ensures Valid(g) ==> Valid(h)
  {
    Graph(g.nodes * keep, KeepEdges(g.edges, keep))
  }

  /** `configs.get('radius')` as the cutoff networkx compares levels with:
      no key means no bound, a bool counts as 0 or 1, and a float bounds the
      levels by the levels below it. */
  function RadiusCutoff(cfg: map<string, ConfigValue>): (r: Result<Option<int>, Error>)
    ensures "radius" !in cfg ==> r == Success(None)
    ensures "radius" in cfg && cfg["radius"].IntVal? ==> r == Success(Some(cfg["radius"].i))
    ensures "radius" in cfg && cfg["radius"].BoolVal? ==> r == Success(Some(if cfg["radius"].b then 1 else 0))
    ensures "radius" in cfg && cfg["radius"].StrVal? ==> r == Failure(TypeError("radius"))
    ensures "radius" in cfg && cfg["radius"].FloatVal? ==>
              r.Success? && r.value.Some? &&
              cfg["radius"].r <= r.value.value as real < cfg["radius"].r + 1.0
  {
    if "radius" !in cfg then Success(None)
    else
      match cfg["radius"]
      case IntVal(n) => Success(Some(n))
      case BoolVal(b) => Success(Some(if b then 1 else 0))
      case FloatVal(x) => Success(Some(-((-x).Floor)))
      case StrVal(_) => Failure(TypeError("radius"))
  }

  /** `nx.ego_graph(G, source, radius)` with networkx's default
      `undirected=False`: the subgraph induced by the nodes the forward search
      reaches within the cutoff. */
  function EgoGraph(g: Graph, source: Account, cutoff: Option<int>): (r: Result<Graph, Error>)
    ensures source !in g.nodes <==> r == Failure(NodeNotFound(source))
    ensures r.Success? ==> source in r.value.nodes
  {
    var sp :- ShortestPathLengths(g, source, cutoff);
    assert sp[0] in sp;
    Success(Induced(g, KeySet(sp)))
  }

  /** `build_ego_graph(G, source_node, configs)`. The unknown source is
      reported before the radius is ever compared. */
  function BuildEgoGraph(g: Graph, source: Account, cfg: map<string, ConfigValue>): (r: Result<Graph, Error>)
    ensures source !in g.nodes ==> r == Failure(NodeNotFound(source))
    ensures source in g.nodes ==> (r.Success? <==> RadiusCutoff(cfg).Success?)
    ensures r.Success? ==> r == EgoGraph(g, source, RadiusCutoff(cfg).value)
  {
    if source !in g.nodes then Failure(NodeNotFound(source))
    else
      var cutoff :- RadiusCutoff(cfg);
      EgoGraph(g, source, cutoff)
  }

  /** The number of hops a cutoff allows; a negative cutoff allows none. */
  function Hops(r: int): nat {
    if r < 0 then 0 else r
  }

  /** The search keeps exactly the ball of radius `radius` around the
      source, so the ego graph is the subgraph that ball induces. */
  lemma EgoIsInducedBall(g: Graph, s: Account, r: int)
    requires Valid(g) && s in g.nodes
    ensures EgoGraph(g, s, Some(r)) == Success(Induced(g, Ball(g, s, Hops(r))))
  {
    var sp := ShortestPathLengths(g, s, Some(r)).value;
    ShortestPathLengthsCorrect(g, s, Some(r));
    var n := Hops(r);
    forall v
      ensures v in KeySet(sp) <==> v in Ball(g, s, n)
    {
      BallIsWithinHops(g, s, n, v);
      if v in KeySet(sp) {
        var p :| p in sp && p.0 == v;
        assert (v, p.1) in sp;
        WithinHopsGrows(g, s, v, p.1, n);
      }
      if WithinHops(g, s, v, n) {
        LeastHops(g, s, v, n);
        var d: nat :| d <= n && IsDistance(g, s, v, d);
        assert InRange(d, Some(r));
        assert (v, d) in sp;
      }
    }
    assert KeySet(sp) == Ball(g, s, n);
  }

  /** The ego graph's nodes are exactly those reachable from the source by at
      most `radius` forward edges; its edges are exactly G's edges between
      them, with their attributes. */
  lemma EgoNodes(g: Graph, s: Account, r: int)
    requires Valid(g) && s in g.nodes
    ensures EgoGraph(g, s, Some(r)).Success?
    ensures forall v :: v in EgoGraph(g, s, Some(r)).value.nodes <==> WithinHops(g, s, v, Hops(r))
    ensures forall e :: e in EgoGraph(g, s, Some(r)).value.edges
              <==> e in g.edges && e.sender in EgoGraph(g, s, Some(r)).value.nodes
                   && e.receiver in EgoGraph(g, s, Some(r)).value.nodes
    ensures Valid(EgoGraph(g, s, Some(r)).value)
  {
    EgoIsInducedBall(g, s, r);
    BallInNodes(g, s, Hops(r));
    forall v
      ensures v in Ball(g, s, Hops(r)) <==> WithinHops(g, s, v, Hops(r))
    {
      BallIsWithinHops(g, s, Hops(r), v);
    }
  }

  /** Whatever the cutoff, the ego graph is induced: its edges are exactly
      G's edges between its nodes, and it contains the source. */
  lemma EgoInduced(g: Graph, s: Account, c: Option<int>)
    requires Valid(g) && s in g.nodes
    ensures EgoGraph(g, s, c).Success?
    ensures s in EgoGraph(g, s, c).value.nodes && EgoGraph(g, s, c).value.nodes <= g.nodes
    ensures forall e :: e in EgoGraph(g, s, c).value.edges
              <==> e in g.edges && e.sender in EgoGraph(g, s, c).value.nodes
                   && e.receiver in EgoGraph(g, s, c).value.nodes
    ensures Valid(EgoGraph(g, s, c).value)
  {
  }

  /** With radius 0 (or below) the ego graph is the source alone. */
  lemma EgoRadiusZero(g: Graph, s: Account, r: int)
    requires Valid(g) && s in g.nodes && r <= 0
    ensures EgoGraph(g, s, Some(r)).Success? && EgoGraph(g, s, Some(r)).value.nodes == {s}
  {
    EgoNodes(g, s, r);
  }

  /** With no radius the ego graph holds everything reachable. */
  lemma EgoUnbounded(g: Graph, s: Account)
    requires Valid(g) && s in g.nodes
    ensures EgoGraph(g, s, None).Success?
    ensures forall v :: v in EgoGraph(g, s, None).value.nodes <==> Reachable(g, s, v)
  {
    var sp := ShortestPathLengths(g, s, None).value;
    ShortestPathLengthsCorrect(g, s, None);
    forall v
      ensures v in KeySet(sp) <==> Reachable(g, s, v)
      ensures Reachable(g, s, v) ==> v in g.nodes
    {
      if v in KeySet(sp) {
        var p :| p in sp && p.0 == v;
        assert (v, p.1) in sp;
        assert WithinHops(g, s, v, p.1);
      }
      if Reachable(g, s, v) {
        var k: nat :| WithinHops(g, s, v, k);
        LeastHops(g, s, v, k);
        var d: nat :| d <= k && IsDistance(g, s, v, d);
        assert (v, d) in sp;
        BallIsWithinHops(g, s, k, v);
        BallInNodes(g, s, k);
      }
    }
  }

  /** The successors of kept nodes, when all of them are kept, are the same
      in the induced subgraph. */
  lemma InducedSuccs(g: Graph, keep: set<Account>, x: set<Account>)
    requires x <= keep && Succs(g, x) <= keep
    ensures Succs(Induced(g, keep), x) == Succs(g, x)
  {
    var h := Induced(g, keep);
    forall w
      ensures w in Succs(h, x) <==> w in Succs(g, x)
    {
      SuccsMember(g, x, w);
      SuccsMember(h, x, w);
      if w in Succs(g, x) {
        var e :| e in g.edges && e.sender in x && e.receiver == w;
        assert e in h.edges;
      }
    }
  }

  /** A subgraph that keeps the ball of radius k keeps G's first k
      frontiers. */
  lemma {:induction false} InducedBall(g: Graph, keep: set<Account>, s: Account, k: nat)
    requires Ball(g, s, k) <= keep
    ensures Ball(Induced(g, keep), s, k) == Ball(g, s, k)
    decreases k
  {
    if k > 0 {
      BallGrows(g, s, k - 1, k);
      InducedBall(g, keep, s, k - 1);
      InducedSuccs(g, keep, Ball(g, s, k - 1));
    }
  }

  /** Inside the ego graph the first `radius` frontiers are G's, and past the
      cutoff the search finds nothing new. */
  lemma EgoBalls(g: Graph, s: Account, r: int, k: nat)
    requires Valid(g) && s in g.nodes
    ensures EgoGraph(g, s, Some(r)).Success?
    ensures Ball(EgoGraph(g, s, Some(r)).value, s, k) == Ball(g, s, if k <= Hops(r) then k else Hops(r))
  {
    EgoIsInducedBall(g, s, r);
    InducedBalls(g, s, Hops(r), k);
  }

  /** The subgraph induced by the n-ball reproduces G's balls up to n and
      stops growing after. */
  lemma {:induction false} InducedBalls(g: Graph, s: Account, n: nat, k: nat)
    requires Valid(g) && s in g.nodes
    ensures Ball(Induced(g, Ball(g, s, n)), s, k) == Ball(g, s, if k <= n then k else n)
    decreases k
  {
    var keep := Ball(g, s, n);
    if k <= n {
      BallGrows(g, s, k, n);
      InducedBall(g, keep, s, k);
    } else {
      var h := Induced(g, keep);
      InducedBalls(g, s, n, k - 1);
      BallInNodes(g, s, n);
      BallGrows(g, s, 0, n);
      assert h.nodes == keep;
      SameSet(Ball(h, s, k - 1), h.nodes, keep);
      BallFull(h, s, k - 1);
    }
  }

  /** Without a radius the ego graph keeps every ball of G. */
  lemma {:induction false} EgoBallsUnbounded(g: Graph, s: Account, h: Graph, k: nat)
    requires Valid(g) && s in g.nodes
    requires EgoGraph(g, s, None) == Success(h)
    ensures Ball(h, s, k) == Ball(g, s, k)
  {
    var sp := ShortestPathLengths(g, s, None).value;
    ShortestPathLengthsCorrect(g, s, None);
    forall v | v in Ball(g, s, k)
      ensures v in KeySet(sp)
    {
      BallIsWithinHops(g, s, k, v);
      LeastHops(g, s, v, k);
      var d: nat :| d <= k && IsDistance(g, s, v, d);
      assert (v, d) in sp;
    }
    InducedBall(g, KeySet(sp), s, k);
  }

  /** The frontiers of the ego graph are G's within the cutoff and empty
      past it. */
  lemma EgoSpheres(g: Graph, s: Account, c: Option<int>, h: Graph, d: nat)
    requires Valid(g) && s in g.nodes
    requires EgoGraph(g, s, c) == Success(h)
    ensures InRange(d, c) ==> Sphere(h, s, d) == Sphere(g, s, d)
    ensures !InRange(d, c) ==> Sphere(h, s, d) == {}
  {
    if d > 0 {
      var k: nat := d - 1;
      var bd := Ball(h, s, d);
      var bk := Ball(h, s, k);
      assert Sphere(h, s, d) == bd - bk;
      assert Sphere(g, s, d) == Ball(g, s, d) - Ball(g, s, k);
      match c
      case None =>
        EgoBallsUnbounded(g, s, h, d);
        EgoBallsUnbounded(g, s, h, k);
      case Some(r) =>
        EgoBalls(g, s, r, d);
        EgoBalls(g, s, r, k);
        if d <= Hops(r) {
          assert bd == Ball(g, s, d) && bk == Ball(g, s, k);
        } else {
          assert bd == bk;
        }
    }
  }
}
