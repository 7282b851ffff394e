/** `generate_neighbor_information` (src/sna/neighbors.py): every node the
    ego graph's source reaches, with its hop distance, the source itself
    left out. */
module Neighbors {
  import opened Wrappers
  import opened Digraph
  import opened ShortestPaths
  import opened Graphs

  /** The entries of a distance list whose node is not `s`, order kept. */
  function DropSource(ps: seq<(Account, nat)>, s: Account): (r: seq<(Account, nat)>)
    ensures forall p :: p in r <==> p in ps && p.0 != s
    ensures KeysNoDup(ps) ==> KeysNoDup(r)
    ensures KeySet(r) == KeySet(ps) - {s}
  {
    if |ps| == 0 then []
    else
      var rest := DropSource(ps[1..], s);
      assert forall p :: p in ps <==> p == ps[0] || p in ps[1..];
      if ps[0].0 == s then rest
      else
        assert KeysNoDup(ps) ==> ps[0].0 !in KeySet(rest);
        assert KeysNoDup(ps) ==> KeysNoDup([ps[0]]);
        assert KeySet([ps[0]]) == {ps[0].0};
        if KeysNoDup(ps) then
          KeysNoDupConcat([ps[0]], rest);
          [ps[0]] + rest
        else
          [ps[0]] + rest
  }

  /** `generate_neighbor_information(subgraph, source_node)`: an unbounded
      search from the source, then every entry but the source's. */
  function NeighborDistances(sub: Graph, source: Account): (r: Result<seq<(Account, nat)>, Error>)
    ensures source !in sub.nodes <==> r == Failure(NodeNotFound(source))
    ensures r.Success? ==> KeysNoDup(r.value) && source !in KeySet(r.value)
  {
    var sp :- ShortestPathLengths(sub, source, None);
    Success(DropSource(sp, source))
  }

  /** Only the source is zero hops from itself. */
  lemma ZeroHops(g: Graph, s: Account, v: Account)
    requires WithinHops(g, s, v, 0)
    ensures v == s
  {
    BallIsWithinHops(g, s, 0, v);
  }

  /** Each entry is a node other than the source with its hop distance, and
      every node the source reaches has its entry. */
  lemma NeighborDistancesCorrect(sub: Graph, s: Account)
    requires s in sub.nodes
    ensures NeighborDistances(sub, s).Success?
    ensures forall v, d: nat :: (v, d) in NeighborDistances(sub, s).value
              <==> v != s && IsDistance(sub, s, v, d)
    ensures forall v, d: nat :: (v, d) in NeighborDistances(sub, s).value ==> d >= 1
  {
    ShortestPathLengthsCorrect(sub, s, None);
    forall v, d: nat | v != s && IsDistance(sub, s, v, d)
      ensures d >= 1
    {
      if d == 0 {
        ZeroHops(sub, s, v);
      }
    }
  }

  /** On the ego graph, each neighbor's distance is its distance in the
      whole graph and lies within the cutoff; every ego node but the source
      is listed. */
  lemma EgoNeighbors(g: Graph, s: Account, c: Option<int>, h: Graph)
    requires Valid(g) && s in g.nodes
    requires EgoGraph(g, s, c) == Success(h)
    ensures NeighborDistances(h, s).Success?
    ensures forall v, d: nat :: (v, d) in NeighborDistances(h, s).value
              <==> v != s && InRange(d, c) && IsDistance(g, s, v, d)
    ensures KeySet(NeighborDistances(h, s).value) == h.nodes - {s}
  {
    NeighborDistancesCorrect(h, s);
    var ds := NeighborDistances(h, s).value;
    forall v, d: nat
      ensures IsDistance(h, s, v, d) <==> InRange(d, c) && IsDistance(g, s, v, d)
    {
      EgoSpheres(g, s, c, h, d);
      SphereIsDistance(h, s, d, v);
      SphereIsDistance(g, s, d, v);
    }
    var sp := ShortestPathLengths(g, s, c).value;
    ShortestPathLengthsCorrect(g, s, c);
    assert h == Induced(g, KeySet(sp));
    BallInNodes(g, s, 0);
    forall v | v in h.nodes && v != s
      ensures v in KeySet(ds)
    {
      var p :| p in sp && p.0 == v;
      assert (v, p.1) in sp;
      assert (v, p.1) in ds;
    }
    forall v | v in KeySet(ds)
      ensures v in h.nodes
    {
      var p :| p in ds && p.0 == v;
      assert (v, p.1) in ds;
      SphereIsDistance(h, s, p.1, v);
      BallInNodes(h, s, p.1);
      if p.1 > 0 {
        assert Sphere(h, s, p.1) == Ball(h, s, p.1) - Ball(h, s, p.1 - 1);
      }
    }
  }

}
