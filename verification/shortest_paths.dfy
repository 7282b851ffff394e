/** networkx's unweighted single-source shortest path lengths, which both
    `ego_graph` and `shortest_path_length` rely on: a level-by-level
    breadth-first search that visits successors in adjacency order, records
    each node at the level it is first met, and stops when a level is empty or
    `cutoff > level` fails. */
module ShortestPaths {
  import opened Wrappers
  import opened Digraph

  /** One pass over a node's successors: each one not yet seen is marked seen
      and queued for the next level. */
  function Visit(ws: seq<Account>, seen: set<Account>): (r: (seq<Account>, set<Account>))
    ensures Elems(r.0) == Elems(ws) - seen
    ensures r.1 == seen + Elems(r.0)
    ensures NoDup(r.0)
    decreases |ws|
  {
    if |ws| == 0 then ([], seen)
    else
      assert Elems(ws) == {ws[0]} + Elems(ws[1..]);
      if ws[0] in seen then Visit(ws[1..], seen)
      else
        var rest := Visit(ws[1..], seen + {ws[0]});
        var next := [ws[0]] + rest.0;
        assert Elems(next) == {ws[0]} + Elems(rest.0);
        (next, rest.1)
  }

  lemma NoDupConcat(a: seq<Account>, b: seq<Account>)
    requires NoDup(a) && NoDup(b) && Elems(a) !! Elems(b)
    ensures NoDup(a + b)
  {
    forall i, j | 0 <= i < j < |a + b|
      ensures (a + b)[i] != (a + b)[j]
    {
      if i < |a| && j >= |a| {
        assert (a + b)[i] in Elems(a) && (a + b)[j] in Elems(b);
      }
    }
  }

  /** All nodes of the current level, in order, expand into the next level. */
  function ExpandLevel(g: Graph, thislevel: seq<Account>, seen: set<Account>): (r: (seq<Account>, set<Account>))
    ensures Elems(r.0) == Succs(g, Elems(thislevel)) - seen
    ensures r.1 == seen + Elems(r.0)
    ensures NoDup(r.0)
    decreases |thislevel|
  {
    if |thislevel| == 0 then
      assert Elems(thislevel) == {};
      SuccsOfNone(g);
      ([], seen)
    else
      var v := thislevel[0];
      var first := Visit(Adj(g.edges, v), seen);
      var rest := ExpandLevel(g, thislevel[1..], first.1);
      AdjIsSuccs(g, v);
      assert Elems(thislevel) == {v} + Elems(thislevel[1..]);
      SuccsUnion(g, {v}, Elems(thislevel[1..]));
      NoDupConcat(first.0, rest.0);
      assert Elems(first.0 + rest.0) == Elems(first.0) + Elems(rest.0);
      (first.0 + rest.0, rest.1)
  }

  /** The loop test `cutoff > level`; no cutoff means no bound. */
  predicate Below(level: nat, cutoff: Option<int>) {
    cutoff.None? || level < cutoff.value
  }

  function Tag(vs: seq<Account>, d: nat): seq<(Account, nat)> {
    seq(|vs|, i requires 0 <= i < |vs| => (vs[i], d))
  }

  /** The nodes a result names, as a set. */
  function KeySet(ps: seq<(Account, nat)>): set<Account> {
    set p | p in ps :: p.0
  }

  /** No node is named twice: the result reads as a dictionary. */
  predicate KeysNoDup(ps: seq<(Account, nat)>) {
    forall i, j :: 0 <= i < j < |ps| ==> ps[i].0 != ps[j].0
  }

  lemma TagMember(vs: seq<Account>, d: nat, v: Account, e: nat)
    ensures (v, e) in Tag(vs, d) <==> v in vs && e == d
  {
    if v in vs && e == d {
      var i :| 0 <= i < |vs| && vs[i] == v;
      assert Tag(vs, d)[i] == (v, e);
    }
  }

  lemma TagKeys(vs: seq<Account>, d: nat)
    requires NoDup(vs)
    ensures KeySet(Tag(vs, d)) == Elems(vs)
    ensures KeysNoDup(Tag(vs, d))
  {
    var t := Tag(vs, d);
    forall v
      ensures v in KeySet(t) <==> v in Elems(vs)
    {
      TagMember(vs, d, v, d);
    }
  }

  lemma KeysNoDupConcat(a: seq<(Account, nat)>, b: seq<(Account, nat)>)
    requires KeysNoDup(a) && KeysNoDup(b) && KeySet(a) !! KeySet(b)
    ensures KeysNoDup(a + b)
    ensures KeySet(a + b) == KeySet(a) + KeySet(b)
  {
    forall i, j | 0 <= i < j < |a + b|
      ensures (a + b)[i].0 != (a + b)[j].0
    {
      if i < |a| && j >= |a| {
        var x, y := (a + b)[i], (a + b)[j];
        assert x == a[i] && y == b[j - |a|];
        assert x.0 in KeySet(a) && y.0 in KeySet(b);
      }
    }
  }

  /** How many edge endpoints the search has not met yet: the termination measure. */
  function Unseen(g: Graph, seen: set<Account>): nat {
    |Endpoints(g.edges) - seen|
  }

  /** A non-empty next level shrinks the set of endpoints not yet seen. */
  lemma Progress(g: Graph, thislevel: seq<Account>, seen: set<Account>, next: seq<Account>, seen': set<Account>)
    requires Elems(next) == Succs(g, Elems(thislevel)) - seen
    requires seen' == seen + Elems(next)
    requires |next| > 0
    ensures Unseen(g, seen') < Unseen(g, seen)
  {
    var e := Endpoints(g.edges);
    SuccsInEndpoints(g, Elems(thislevel));
    var a, b := e - seen', e - seen;
    assert next[0] in Elems(next);
    assert next[0] in b - a;
    assert b == a + (b - a) && a !! (b - a);
    assert |b| == |a| + |b - a|;
  }

  /** The levels after `level`: every node first met there, tagged with its
      level, in discovery order. */
  function Levels(g: Graph, seen: set<Account>, thislevel: seq<Account>, level: nat, cutoff: Option<int>)
    : (r: seq<(Account, nat)>)
    ensures KeysNoDup(r)
    ensures KeySet(r) !! seen
    decreases Unseen(g, seen)
  {
    if |thislevel| == 0 || !Below(level, cutoff) then []
    else
      var next := ExpandLevel(g, thislevel, seen);
      if |next.0| == 0 then []
      else
        Progress(g, thislevel, seen, next.0, next.1);
        var rest := Levels(g, next.1, next.0, level + 1, cutoff);
        TagKeys(next.0, level + 1);
        KeysNoDupConcat(Tag(next.0, level + 1), rest);
        Tag(next.0, level + 1) + rest
  }

  /** `single_source_shortest_path_length(g, source, cutoff)`: the source at
      level 0, then every node found within the cutoff with its level. */
  function ShortestPathLengths(g: Graph, source: Account, cutoff: Option<int>)
    : (r: Result<seq<(Account, nat)>, Error>)
    ensures source !in g.nodes <==> r == Failure(NodeNotFound(source))
    ensures r.Success? ==> |r.value| >= 1 && r.value[0] == (source, 0) && KeysNoDup(r.value)
  {
    if source !in g.nodes then Failure(NodeNotFound(source))
    else
      var rest := Levels(g, {source}, [source], 0, cutoff);
      assert KeySet([(source, 0)]) == {source};
      KeysNoDupConcat([(source, 0)], rest);
      Success([(source, 0)] + rest)
  }

  /** A hop count `d` lies within the cutoff. */
  predicate InRange(d: nat, cutoff: Option<int>) {
    d == 0 || Below(d - 1, cutoff)
  }

  lemma {:induction false} LevelsSpheres(g: Graph, s: Account, seen: set<Account>, thislevel: seq<Account>,
                                         level: nat, cutoff: Option<int>)
    requires seen == Ball(g, s, level)
    requires Elems(thislevel) == Sphere(g, s, level)
    ensures forall v, d: nat :: (v, d) in Levels(g, seen, thislevel, level, cutoff)
              <==> level < d && Below(d - 1, cutoff) && v in Sphere(g, s, d)
    decreases Unseen(g, seen), 1
  {
    if |thislevel| == 0 {
      EmptyLevel(g, s, thislevel, level);
      NothingBeyond(g, s, level, cutoff);
    } else if !Below(level, cutoff) {
      NothingBeyond(g, s, level, cutoff);
    } else {
      var next := ExpandLevel(g, thislevel, seen);
      NextSphere(g, s, level);
      if |next.0| == 0 {
        NoSpheresBeyond(g, s, level);
        NothingBeyond(g, s, level, cutoff);
      } else {
        LevelsRecurse(g, s, seen, thislevel, level, cutoff);
      }
    }
  }

  lemma {:induction false} LevelsRecurse(g: Graph, s: Account, seen: set<Account>, thislevel: seq<Account>,
                                         level: nat, cutoff: Option<int>)
    requires seen == Ball(g, s, level)
    requires Elems(thislevel) == Sphere(g, s, level)
    requires |thislevel| > 0 && Below(level, cutoff) && |ExpandLevel(g, thislevel, seen).0| > 0
    ensures forall v, d: nat :: (v, d) in Levels(g, seen, thislevel, level, cutoff)
              <==> level < d && Below(d - 1, cutoff) && v in Sphere(g, s, d)
    decreases Unseen(g, seen), 0
  {
    var next := ExpandLevel(g, thislevel, seen);
    NextSphere(g, s, level);
    Progress(g, thislevel, seen, next.0, next.1);
    var rest := Levels(g, next.1, next.0, level + 1, cutoff);
    assert Levels(g, seen, thislevel, level, cutoff) == Tag(next.0, level + 1) + rest;
    LevelsSpheres(g, s, next.1, next.0, level + 1, cutoff);
    LevelsStep(g, s, level, cutoff, next.0, rest);
  }

  /** An empty level can only come after the source's level, and nothing lies
      beyond it. */
  lemma EmptyLevel(g: Graph, s: Account, thislevel: seq<Account>, level: nat)
    requires Elems(thislevel) == Sphere(g, s, level) && |thislevel| == 0
    ensures forall d: nat :: d > level ==> Sphere(g, s, d) == {}
  {
    assert Elems(thislevel) == {};
    assert level > 0;
    EmptySphereStops(g, s, level);
  }

  /** No level after `level` is produced: either the cutoff stops the search
      or no node lies beyond. */
  lemma NothingBeyond(g: Graph, s: Account, level: nat, cutoff: Option<int>)
    requires !Below(level, cutoff) || forall d: nat :: d > level ==> Sphere(g, s, d) == {}
    ensures forall v, d: nat :: !(level < d && Below(d - 1, cutoff) && v in Sphere(g, s, d))
  {
  }

  lemma LevelsStep(g: Graph, s: Account, level: nat, cutoff: Option<int>, next: seq<Account>,
                   rest: seq<(Account, nat)>)
    requires Below(level, cutoff)
    requires Elems(next) == Sphere(g, s, level + 1)
    requires forall v, d: nat :: (v, d) in rest <==> level + 1 < d && Below(d - 1, cutoff) && v in Sphere(g, s, d)
    ensures forall v, d: nat :: (v, d) in Tag(next, level + 1) + rest
              <==> level < d && Below(d - 1, cutoff) && v in Sphere(g, s, d)
  {
    forall v, d: nat
      ensures (v, d) in Tag(next, level + 1) + rest <==> level < d && Below(d - 1, cutoff) && v in Sphere(g, s, d)
    {
      TagMember(next, level + 1, v, d);
    }
  }

  /** Every pair the search returns is a node and its hop distance, and every
      node whose hop distance lies within the cutoff is returned. */
  lemma ShortestPathLengthsCorrect(g: Graph, s: Account, cutoff: Option<int>)
    requires s in g.nodes
    ensures ShortestPathLengths(g, s, cutoff).Success?
    ensures forall v, d: nat :: (v, d) in ShortestPathLengths(g, s, cutoff).value
              <==> InRange(d, cutoff) && IsDistance(g, s, v, d)
  {
    var rest := Levels(g, {s}, [s], 0, cutoff);
    assert Elems([s]) == {s};
    LevelsSpheres(g, s, {s}, [s], 0, cutoff);
    forall v, d: nat
      ensures (v, d) in [(s, 0)] + rest <==> InRange(d, cutoff) && IsDistance(g, s, v, d)
    {
      SphereIsDistance(g, s, d, v);
    }
  }
}
