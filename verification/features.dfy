/** The per-neighbor feature rows of src/sna/feature.py: flows into and out
    of an account, the alerted source's direct share of what an account
    received, degrees, and the source's own features repeated on every row. */
module Features {
  import opened Wrappers
  import opened Digraph
  import opened ShortestPaths
  import opened Graphs
  import opened Neighbors

  /** The senders of the rows into `v`, in row order: networkx's
      `G.predecessors(v)`. */
  function Preds(es: seq<Edge>, v: Account): (r: seq<Account>)
    ensures Elems(r) == set e | e in es && e.receiver == v :: e.sender
    ensures UniquePairs(es) ==> NoDup(r)
  {
    if |es| == 0 then []
    else
      var init := es[..|es| - 1];
      var x := es[|es| - 1];
      var ps := Preds(init, v);
      assert forall e :: e in es <==> e in init || e == x;
      if x.receiver == v then
        assert UniquePairs(es) ==> x.sender !in Elems(ps);
        assert Elems(ps + [x.sender]) == Elems(ps) + {x.sender};
        ps + [x.sender]
      else
        ps
  }

  /** The receivers of the rows out of `v`, in row order: networkx's
      `G.successors(v)`. */
  function SuccList(es: seq<Edge>, v: Account): (r: seq<Account>)
    ensures Elems(r) == set e | e in es && e.sender == v :: e.receiver
    ensures UniquePairs(es) ==> NoDup(r)
  {
    if |es| == 0 then []
    else
      var init := es[..|es| - 1];
      var x := es[|es| - 1];
      var ws := SuccList(init, v);
      assert forall e :: e in es <==> e in init || e == x;
      if x.sender == v then
        assert UniquePairs(es) ==> x.receiver !in Elems(ws);
        assert Elems(ws + [x.receiver]) == Elems(ws) + {x.receiver};
        ws + [x.receiver]
      else
        ws
  }

  /** `(G.get_edge_data(a, b) or {}).get(attr, 0)`: the attribute of edge
      a→b, or 0 when there is no such edge. */
  function EdgeAttr(es: seq<Edge>, a: Account, b: Account, m: Measure): (r: int)
    ensures (forall e :: e in es ==> !(e.sender == a && e.receiver == b)) ==> r == 0
    ensures UniquePairs(es) ==> forall e :: e in es && e.sender == a && e.receiver == b ==> r == Weight(e, m)
  {
    assert UniquePairs(es) ==> forall e :: e in es && e.sender == a && e.receiver == b ==> FindEdge(es, a, b) == Some(e) by {
      forall e | UniquePairs(es) && e in es && e.sender == a && e.receiver == b {
        FindEdgeUnique(es, e);
      }
    }
    match FindEdge(es, a, b)
    case None => 0
    case Some(e) => Weight(e, m)
  }

  /** The attribute summed over the edges p→v, p ranging over `ps`. */
  function SumFrom(es: seq<Edge>, ps: seq<Account>, v: Account, m: Measure): int {
    if |ps| == 0 then 0
    else SumFrom(es, ps[..|ps| - 1], v, m) + EdgeAttr(es, ps[|ps| - 1], v, m)
  }

  /** The attribute summed over the edges v→w, w ranging over `ws`. */
  function SumTo(es: seq<Edge>, v: Account, ws: seq<Account>, m: Measure): int {
    if |ws| == 0 then 0
    else SumTo(es, v, ws[..|ws| - 1], m) + EdgeAttr(es, v, ws[|ws| - 1], m)
  }

  /** `_sum_in_edges(G, v, attr)`: the attribute summed over v's
      predecessors. */
  function InFlow(g: Graph, v: Account, m: Measure): (r: int)
    ensures UniquePairs(g.edges) ==> r == EdgeSum(g.edges, To(v), m)
  {
    assert UniquePairs(g.edges) ==> SumFrom(g.edges, Preds(g.edges, v), v, m) == EdgeSum(g.edges, To(v), m) by {
      if UniquePairs(g.edges) {
        SumFromRows(g.edges, g.edges, v, m);
      }
    }
    SumFrom(g.edges, Preds(g.edges, v), v, m)
  }

  /** `_sum_out_edges(G, v, attr)`: the attribute summed over v's
      successors. */
  function OutFlow(g: Graph, v: Account, m: Measure): (r: int)
    ensures UniquePairs(g.edges) ==> r == EdgeSum(g.edges, From(v), m)
  {
    assert UniquePairs(g.edges) ==> SumTo(g.edges, v, SuccList(g.edges, v), m) == EdgeSum(g.edges, From(v), m) by {
      if UniquePairs(g.edges) {
        SumToRows(g.edges, g.edges, v, m);
      }
    }
    SumTo(g.edges, v, SuccList(g.edges, v), m)
  }

  lemma {:induction false} SumFromRows(all: seq<Edge>, es: seq<Edge>, v: Account, m: Measure)
    requires UniquePairs(all) && forall e :: e in es ==> e in all
    ensures SumFrom(all, Preds(es, v), v, m) == EdgeSum(es, To(v), m)
    decreases |es|
  {
    if |es| > 0 {
      var init := es[..|es| - 1];
      var x := es[|es| - 1];
      assert forall e :: e in init ==> e in es;
      SumFromRows(all, init, v, m);
      if x.receiver == v {
        var ps := Preds(init, v) + [x.sender];
        assert ps[..|ps| - 1] == Preds(init, v);
      }
    }
  }

  lemma {:induction false} SumToRows(all: seq<Edge>, es: seq<Edge>, v: Account, m: Measure)
    requires UniquePairs(all) && forall e :: e in es ==> e in all
    ensures SumTo(all, v, SuccList(es, v), m) == EdgeSum(es, From(v), m)
    decreases |es|
  {
    if |es| > 0 {
      var init := es[..|es| - 1];
      var x := es[|es| - 1];
      assert forall e :: e in init ==> e in es;
      SumToRows(all, init, v, m);
      if x.sender == v {
        var ws := SuccList(init, v) + [x.receiver];
        assert ws[..|ws| - 1] == SuccList(init, v);
      }
    }
  }

  /** Summing over predecessors (or successors) and looking up each edge is
      summing the rows into (or out of) the node. */
  lemma FlowIsRowSum(g: Graph, v: Account, m: Measure)
    requires UniquePairs(g.edges)
    ensures InFlow(g, v, m) == EdgeSum(g.edges, To(v), m)
    ensures OutFlow(g, v, m) == EdgeSum(g.edges, From(v), m)
  {
    SumFromRows(g.edges, g.edges, v, m);
    SumToRows(g.edges, g.edges, v, m);
  }

  /** `G.in_degree(v)`, `G.out_degree(v)` and `G.degree(v)`: a DiGraph's
      degree is in-degree plus out-degree, so a self-loop counts twice. */
  function InDegree(g: Graph, v: Account): (r: nat)
    ensures UniquePairs(g.edges) ==> r == |set e | e in g.edges && e.receiver == v :: e.sender|
  {
    assert UniquePairs(g.edges) ==> |Elems(Preds(g.edges, v))| == |Preds(g.edges, v)| by {
      if UniquePairs(g.edges) {
        DistinctCount(Preds(g.edges, v));
      }
    }
    |Preds(g.edges, v)|
  }

  function OutDegree(g: Graph, v: Account): (r: nat)
    ensures UniquePairs(g.edges) ==> r == |Succs(g, {v})|
  {
    assert UniquePairs(g.edges) ==> |Elems(SuccList(g.edges, v))| == |SuccList(g.edges, v)| by {
      if UniquePairs(g.edges) {
        DistinctCount(SuccList(g.edges, v));
      }
    }
    SuccsIs(g, {v});
    assert Succs(g, {v}) == set e | e in g.edges && e.sender == v :: e.receiver;
    |SuccList(g.edges, v)|
  }

  function Degree(g: Graph, v: Account): (r: nat)
    ensures UniquePairs(g.edges) ==>
              r == |set e | e in g.edges && e.receiver == v :: e.sender| + |Succs(g, {v})|
  {
    InDegree(g, v) + OutDegree(g, v)
  }

  lemma {:induction false} DistinctCount(s: seq<Account>)
    requires NoDup(s)
    ensures |Elems(s)| == |s|
    decreases |s|
  {
    if |s| > 0 {
      var init := s[..|s| - 1];
      DistinctCount(init);
      assert Elems(s) == Elems(init) + {s[|s| - 1]};
      assert s[|s| - 1] !in Elems(init);
    }
  }

  /** The degrees count distinct neighbours: out-degree is the number of
      distinct successors, in-degree the number of distinct predecessors. */
  lemma DegreesCountNeighbours(g: Graph, v: Account)
    requires UniquePairs(g.edges)
    ensures OutDegree(g, v) == |Succs(g, {v})|
    ensures InDegree(g, v) == |set e | e in g.edges && e.receiver == v :: e.sender|
  {
    DistinctCount(Preds(g.edges, v));
    DistinctCount(SuccList(g.edges, v));
    SuccsIs(g, {v});
    assert Succs(g, {v}) == set e | e in g.edges && e.sender == v :: e.receiver;
  }

  /** ... and they are the number of rows into and out of the node. */
  lemma DegreesCountRows(g: Graph, v: Account)
    requires UniquePairs(g.edges)
    ensures OutDegree(g, v) == EdgeSum(g.edges, From(v), Rows)
    ensures InDegree(g, v) == EdgeSum(g.edges, To(v), Rows)
  {
    SumFromRows(g.edges, g.edges, v, Rows);
    SumToRows(g.edges, g.edges, v, Rows);
    var ps := Preds(g.edges, v);
    var ws := SuccList(g.edges, v);
    forall p | p in ps
      ensures exists e :: e in g.edges && e.sender == p && e.receiver == v
    {
      assert p in Elems(ps);
    }
    forall w | w in ws
      ensures exists e :: e in g.edges && e.sender == v && e.receiver == w
    {
      assert w in Elems(ws);
    }
    RowsCount(g.edges, ps, v);
    RowsCountOut(g.edges, v, ws);
  }

  lemma {:induction false} RowsCount(es: seq<Edge>, ps: seq<Account>, v: Account)
    ensures SumFrom(es, ps, v, Rows) <= |ps|
    ensures (forall p :: p in ps ==> exists e :: e in es && e.sender == p && e.receiver == v)
            ==> SumFrom(es, ps, v, Rows) == |ps|
    decreases |ps|
  {
    if |ps| > 0 {
      var init := ps[..|ps| - 1];
      assert forall p :: p in init ==> p in ps;
      RowsCount(es, init, v);
      var p := ps[|ps| - 1];
      assert p in ps;
      if exists e :: e in es && e.sender == p && e.receiver == v {
        var e :| e in es && e.sender == p && e.receiver == v;
        assert FindEdge(es, p, v).Some?;
      }
    }
  }

  lemma {:induction false} RowsCountOut(es: seq<Edge>, v: Account, ws: seq<Account>)
    ensures SumTo(es, v, ws, Rows) <= |ws|
    ensures (forall w :: w in ws ==> exists e :: e in es && e.sender == v && e.receiver == w)
            ==> SumTo(es, v, ws, Rows) == |ws|
    decreases |ws|
  {
    if |ws| > 0 {
      var init := ws[..|ws| - 1];
      assert forall w :: w in init ==> w in ws;
      RowsCountOut(es, v, init);
      var w := ws[|ws| - 1];
      assert w in ws;
      if exists e :: e in es && e.sender == v && e.receiver == w {
        var e :| e in es && e.sender == v && e.receiver == w;
        assert FindEdge(es, v, w).Some?;
      }
    }
  }

  /** A self-loop adds one to both the in- and the out-degree. */
  lemma SelfLoopCountsTwice(g: Graph, v: Account)
    requires UniquePairs(g.edges) && HasEdge(g, v, v)
    ensures InDegree(g, v) >= 1 && OutDegree(g, v) >= 1 && Degree(g, v) >= 2
  {
    var e :| e in g.edges && e.sender == v && e.receiver == v;
    assert v in Elems(Preds(g.edges, v)) && v in Elems(SuccList(g.edges, v));
  }

  /** The facts the feature records state, for any graph. */
  lemma RowSums(g: Graph, v: Account)
    ensures UniquePairs(g.edges) ==>
              && InFlow(g, v, Amount) == EdgeSum(g.edges, To(v), Amount)
              && InFlow(g, v, Count) == EdgeSum(g.edges, To(v), Count)
              && OutFlow(g, v, Amount) == EdgeSum(g.edges, From(v), Amount)
              && OutFlow(g, v, Count) == EdgeSum(g.edges, From(v), Count)
              && OutDegree(g, v) == |Succs(g, {v})|
  {
    if UniquePairs(g.edges) {
      FlowIsRowSum(g, v, Amount);
      FlowIsRowSum(g, v, Count);
      DegreesCountNeighbours(g, v);
    }
  }

  /** `distances.get(node, 0)`. */
  function HopsOf(ds: seq<(Account, nat)>, v: Account): (r: nat)
    ensures v !in KeySet(ds) ==> r == 0
    ensures KeysNoDup(ds) ==> forall d: nat :: (v, d) in ds ==> r == d
  {
    if |ds| == 0 then 0
    else if ds[0].0 == v then
      assert KeysNoDup(ds) ==> forall d: nat :: (v, d) in ds ==> d == ds[0].1 by {
        forall d: nat | KeysNoDup(ds) && (v, d) in ds
          ensures d == ds[0].1
        {
          var i :| 0 <= i < |ds| && ds[i] == (v, d);
          assert ds[i].0 == ds[0].0;
        }
      }
      ds[0].1
    else
      assert forall p :: p in ds <==> p == ds[0] || p in ds[1..];
      assert KeysNoDup(ds) ==> KeysNoDup(ds[1..]);
      HopsOf(ds[1..], v)
  }

  /** The source's features (`_retrieve_source_features`). */
  datatype SourceFeatures = SourceFeatures(
    account: Account, date: int, outDegree: nat,
    inAmount: int, inCount: int, outAmount: int, outCount: int)

  /** A neighbor's features (`_retrieve_node_features`). */
  datatype NodeFeatures = NodeFeatures(
    account: Account, hops: nat,
    inAmount: int, directAmount: int, indirectAmount: int,
    inCount: int, directCount: int, indirectCount: int,
    outAmount: int, outCount: int,
    degree: nat, outDegree: nat, inDegree: nat)

  /** One output row: the neighbor's features merged with its source's,
      and the popularity column once it has been added. */
  datatype Row = Row(node: NodeFeatures, source: SourceFeatures, popularity: Option<nat>)

  function RetrieveSourceFeatures(g: Graph, s: Account, date: int): (r: SourceFeatures)
    ensures r.account == s && r.date == date
    ensures UniquePairs(g.edges) ==>
              && r.outDegree == |Succs(g, {s})|
              && r.inAmount == EdgeSum(g.edges, To(s), Amount)
              && r.inCount == EdgeSum(g.edges, To(s), Count)
              && r.outAmount == EdgeSum(g.edges, From(s), Amount)
              && r.outCount == EdgeSum(g.edges, From(s), Count)
  {
    RowSums(g, s);
    SourceFeatures(s, date, OutDegree(g, s),
                   InFlow(g, s, Amount), InFlow(g, s, Count),
                   OutFlow(g, s, Amount), OutFlow(g, s, Count))
  }

  /** Totals and degrees are read in the whole graph, the direct flow in the
      ego graph, and the indirect flow is what remains. */
  function RetrieveNodeFeatures(g: Graph, sub: Graph, ds: seq<(Account, nat)>, s: Account, v: Account)
    : (r: NodeFeatures)
    ensures r.account == v
    ensures KeysNoDup(ds) ==> forall d: nat :: (v, d) in ds ==> r.hops == d
    ensures r.inAmount == r.directAmount + r.indirectAmount
    ensures r.inCount == r.directCount + r.indirectCount
    ensures r.degree == r.inDegree + r.outDegree
    ensures UniquePairs(g.edges) ==>
              && r.inAmount == EdgeSum(g.edges, To(v), Amount)
              && r.inCount == EdgeSum(g.edges, To(v), Count)
              && r.outAmount == EdgeSum(g.edges, From(v), Amount)
              && r.outCount == EdgeSum(g.edges, From(v), Count)
              && r.outDegree == |Succs(g, {v})|
              && r.inDegree == |set e | e in g.edges && e.receiver == v :: e.sender|
    ensures !HasEdge(sub, s, v) ==> r.directAmount == 0 && r.directCount == 0
  {
    RowSums(g, v);
    var directAmt := EdgeAttr(sub.edges, s, v, Amount);
    var directCnt := EdgeAttr(sub.edges, s, v, Count);
    var totalAmt := InFlow(g, v, Amount);
    var totalCnt := InFlow(g, v, Count);
    NodeFeatures(v, HopsOf(ds, v),
                 totalAmt, directAmt, totalAmt - directAmt,
                 totalCnt, directCnt, totalCnt - directCnt,
                 OutFlow(g, v, Amount), OutFlow(g, v, Count),
                 Degree(g, v), OutDegree(g, v), InDegree(g, v))
  }

  /** `export_allnodes_features`: one row per entry of the distances, in
      their order, each carrying the same source features. */
  function ExportAllnodesFeatures(g: Graph, sub: Graph, ds: seq<(Account, nat)>, s: Account, date: int)
    : (r: seq<Row>)
    ensures |r| == |ds|
    ensures forall i :: 0 <= i < |r| ==>
              && r[i].node.account == ds[i].0
              && r[i].source.account == s && r[i].source.date == date
              && r[i].popularity.None?
    ensures KeysNoDup(ds) ==> forall i :: 0 <= i < |r| ==> r[i].node.hops == ds[i].1
    ensures forall i, j :: 0 <= i < |r| && 0 <= j < |r| ==> r[i].source == r[j].source
  {
    var src := RetrieveSourceFeatures(g, s, date);
    var r := seq(|ds|, i requires 0 <= i < |ds| => Row(RetrieveNodeFeatures(g, sub, ds, s, ds[i].0), src, None));
    assert forall i :: 0 <= i < |r| ==> ds[i] in ds && ds[i] == (ds[i].0, ds[i].1);
    r
  }

  /** The rows list the distance entries: an (account, hops) pair is on some
      row exactly when it is an entry, and every row is a source's row. */
  lemma ExportMatchesDistances(g: Graph, sub: Graph, ds: seq<(Account, nat)>, s: Account, date: int)
    requires KeysNoDup(ds)
    ensures forall row :: row in ExportAllnodesFeatures(g, sub, ds, s, date) ==>
              && row.source == RetrieveSourceFeatures(g, s, date)
              && row.popularity.None?
              && (row.node.account, row.node.hops) in ds
              && row.node == RetrieveNodeFeatures(g, sub, ds, s, row.node.account)
    ensures forall v, d: nat ::
              (exists row :: row in ExportAllnodesFeatures(g, sub, ds, s, date) && row.node.account == v && row.node.hops == d)
              <==> (v, d) in ds
  {
    var rows := ExportAllnodesFeatures(g, sub, ds, s, date);
    forall row | row in rows
      ensures (row.node.account, row.node.hops) in ds
      ensures row.node == RetrieveNodeFeatures(g, sub, ds, s, row.node.account)
    {
      var i :| 0 <= i < |rows| && rows[i] == row;
      assert ds[i] == (row.node.account, row.node.hops);
    }
    forall v, d: nat | (v, d) in ds
      ensures exists row :: row in rows && row.node.account == v && row.node.hops == d
    {
      var i :| 0 <= i < |ds| && ds[i] == (v, d);
      assert rows[i] in rows;
    }
  }

  /** In the ego graph the direct flow into a neighbor is the flow on G's
      edge from the source, or 0 when there is none. */
  lemma DirectFlowInEgo(g: Graph, s: Account, c: Option<int>, v: Account, m: Measure)
    requires Valid(g) && s in g.nodes
    ensures EgoGraph(g, s, c).Success?
    ensures v in EgoGraph(g, s, c).value.nodes ==>
              EdgeAttr(EgoGraph(g, s, c).value.edges, s, v, m) == EdgeAttr(g.edges, s, v, m)
  {
    EgoInduced(g, s, c);
    var h := EgoGraph(g, s, c).value;
    if v in h.nodes {
      match FindEdge(g.edges, s, v)
      case None =>
      case Some(e) =>
        assert e in h.edges;
    }
  }

  /** The source only sends directly to its first-hop neighbors. */
  lemma DirectOnlyFirstHop(g: Graph, s: Account, v: Account, d: nat)
    requires v != s && HasEdge(g, s, v) && IsDistance(g, s, v, d)
    ensures d == 1
  {
    var p := [s, v];
    assert IsWalk(g, p);
    assert WithinHops(g, s, v, 1);
    assert !WithinHops(g, s, v, 0) by {
      if WithinHops(g, s, v, 0) {
        ZeroHops(g, s, v);
      }
    }
    DistanceUnique(g, s, v, d, 1);
  }

  /** An account paid by the source is at distance 1 from it. */
  lemma PaidAtDistanceOne(g: Graph, e: Edge)
    requires e in g.edges && e.sender != e.receiver
    ensures IsDistance(g, e.sender, e.receiver, 1)
  {
    assert IsWalk(g, [e.sender, e.receiver]);
    LeastHops(g, e.sender, e.receiver, 1);
    var d: nat :| d <= 1 && IsDistance(g, e.sender, e.receiver, d);
    DirectOnlyFirstHop(g, e.sender, e.receiver, d);
  }

  /** The record of an account the source paid: its direct flow is that
      payment edge and its inbound flow everything it received. */
  lemma PayeeFeatures(g: Graph, c: Option<int>, ds: seq<(Account, nat)>, e: Edge)
    requires Valid(g) && e in g.edges
    ensures EgoGraph(g, e.sender, c).Success?
    ensures e.receiver in EgoGraph(g, e.sender, c).value.nodes ==>
              var f := RetrieveNodeFeatures(g, EgoGraph(g, e.sender, c).value, ds, e.sender, e.receiver);
              && f.directAmount == e.amount && f.directCount == e.count
              && f.inAmount == EdgeSum(g.edges, To(e.receiver), Amount)
  {
    DirectFlowInEgo(g, e.sender, c, e.receiver, Amount);
    DirectFlowInEgo(g, e.sender, c, e.receiver, Count);
    FindEdgeUnique(g.edges, e);
  }

  /** With non-negative amounts and counts the indirect part is never
      negative: the direct edge is one of the edges counted in the total. */
  lemma IndirectNonNegative(g: Graph, s: Account, c: Option<int>, ds: seq<(Account, nat)>, v: Account)
    requires Valid(g) && s in g.nodes && NonNegative(g.edges)
    ensures EgoGraph(g, s, c).Success?
    ensures v in EgoGraph(g, s, c).value.nodes ==>
              var f := RetrieveNodeFeatures(g, EgoGraph(g, s, c).value, ds, s, v);
              f.indirectAmount >= 0 && f.indirectCount >= 0
  {
    EgoInduced(g, s, c);
    var h := EgoGraph(g, s, c).value;
    if v in h.nodes {
      DirectFlowInEgo(g, s, c, v, Amount);
      DirectFlowInEgo(g, s, c, v, Count);
      match FindEdge(g.edges, s, v)
      case None =>
        EdgeSumNonNegative(g.edges, To(v), Amount);
        EdgeSumNonNegative(g.edges, To(v), Count);
      case Some(e) =>
        EdgeSumCovers(g.edges, e, To(v), Amount);
        EdgeSumCovers(g.edges, e, To(v), Count);
    }
  }
}
