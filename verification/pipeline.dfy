/** `run_pipeline` (src/sna/pipeline.py): for every alert date, aggregate the
    window, build the graph, keep the alerted accounts that sent money in
    the window, and emit one feature table per kept account; then stack the
    tables and add the neighbor counts. */
module Pipeline {
  import opened Wrappers
  import opened Digraph
  import opened ConfigValues
  import opened ShortestPaths
  import opened Preprocessing
  import opened Graphs
  import opened Neighbors
  import opened Features
  import opened Postprocess

  /** One entry of the alert table: an alert date and its alerted accounts,
      in the table's order. */
  datatype AlertGroup = AlertGroup(date: int, accounts: seq<Account>)

  predicate IsSender(rows: seq<Edge>, a: Account) {
    exists e :: e in rows && e.sender == a
  }

  /** The alerted accounts that appear as a sender of some aggregated row,
      each kept as often and in the order it is listed. */
  function Retained(rows: seq<Edge>, accounts: seq<Account>): (r: seq<Account>)
    ensures forall a :: multiset(r)[a] == if IsSender(rows, a) then multiset(accounts)[a] else 0
    ensures forall a :: a in r <==> a in accounts && IsSender(rows, a)
  {
    if |accounts| == 0 then []
    else
      var init := accounts[..|accounts| - 1];
      var a := accounts[|accounts| - 1];
      assert accounts == init + [a];
      var rest := Retained(rows, init);
      if IsSender(rows, a) then rest + [a] else rest
  }

  /** Filtering keeps the listed order: the kept accounts of a
      concatenation are those of its first part followed by those of its
      second, and a single account is kept exactly when it sent money. */
  lemma {:induction false} RetainedConcat(rows: seq<Edge>, a: seq<Account>, b: seq<Account>)
    ensures Retained(rows, a + b) == Retained(rows, a) + Retained(rows, b)
    decreases |b|
  {
    if |b| == 0 {
      assert a + b == a;
    } else {
      var init := b[..|b| - 1];
      assert (a + b)[..|a + b| - 1] == a + init;
      assert (a + b)[|a + b| - 1] == b[|b| - 1];
      RetainedConcat(rows, a, init);
    }
  }

  lemma RetainedSingle(rows: seq<Edge>, x: Account)
    ensures Retained(rows, [x]) == if IsSender(rows, x) then [x] else []
  {
    assert [x][..0] == [];
  }

  /** Steps 3 and 4 of the loop body for one kept account: its ego graph,
      its neighbors' distances, and their feature table. */
  function AccountRows(g: Graph, a: Account, date: int, cfg: map<string, ConfigValue>): (r: Result<seq<Row>, Error>)
    ensures a in g.nodes ==> (r.Success? <==> RadiusCutoff(cfg).Success?)
    ensures a in g.nodes && r.Failure? ==> r.error == TypeError("radius")
  {
    var sub :- BuildEgoGraph(g, a, cfg);
    match NeighborDistances(sub, a)
    case Success(ds) => Success(ExportAllnodesFeatures(g, sub, ds, a, date))
    case Failure(e) => Failure(e)
  }

  /** Tables in order; the first failure stops the loop. */
  function Collect(rs: seq<Result<seq<Row>, Error>>): (r: Result<seq<seq<Row>>, Error>)
    ensures r.Success? <==> forall i :: 0 <= i < |rs| ==> rs[i].Success?
    ensures r.Success? ==> |r.value| == |rs|
    ensures r.Success? ==> forall i :: 0 <= i < |rs| ==> r.value[i] == rs[i].value
    ensures r.Failure? ==> exists i :: 0 <= i < |rs| && rs[i] == Failure(r.error)
  {
    if |rs| == 0 then Success([])
    else
      var first :- rs[0];
      var rest :- Collect(rs[1..]);
      assert forall i :: 1 <= i < |rs| ==> rs[i] == rs[1..][i - 1];
      Success([first] + rest)
  }

  /** The tables of several kept accounts; the first failure stops the loop. */
  function AccountTables(g: Graph, targets: seq<Account>, date: int, cfg: map<string, ConfigValue>)
    : (r: Result<seq<seq<Row>>, Error>)
    ensures r.Success? <==> forall i :: 0 <= i < |targets| ==> AccountRows(g, targets[i], date, cfg).Success?
    ensures r.Success? ==> |r.value| == |targets|
    ensures r.Success? ==> forall i :: 0 <= i < |targets| ==> r.value[i] == AccountRows(g, targets[i], date, cfg).value
    ensures r.Failure? ==> exists i :: 0 <= i < |targets| && AccountRows(g, targets[i], date, cfg) == Failure(r.error)
  {
    var rs := seq(|targets|, i requires 0 <= i < |targets| => AccountRows(g, targets[i], date, cfg));
    assert forall i :: 0 <= i < |targets| ==> rs[i] == AccountRows(g, targets[i], date, cfg);
    Collect(rs)
  }

  /** The loop body for one alert date. */
  function GroupTables(ts: seq<Txn>, grp: AlertGroup, cfg: map<string, ConfigValue>): (r: Result<seq<seq<Row>>, Error>)
    ensures WindowDays(cfg).Failure? ==> r == Failure(WindowDays(cfg).error)
  {
    var agg :- ProcessTransactions(ts, grp.date, cfg);
    AccountTables(BuildGraph(agg), Retained(agg, grp.accounts), grp.date, cfg)
  }

  /** What one date contributes: a failing key lookup or window length is
      raised first; otherwise an unusable radius is raised as soon as there
      is a kept account to search from, and on success every kept account
      of the date, in the order it is listed, gives one table, which is
      that account's rows. */
  lemma GroupTablesCorrect(ts: seq<Txn>, grp: AlertGroup, cfg: map<string, ConfigValue>)
    requires WindowDays(cfg).Success?
    ensures var agg := Aggregate(ts, grp.date, WindowDays(cfg).value);
            var targets := Retained(agg, grp.accounts);
            var r := GroupTables(ts, grp, cfg);
            && (r.Success? <==> |targets| == 0 || RadiusCutoff(cfg).Success?)
            && (r.Failure? ==> r.error == TypeError("radius"))
            && (r.Success? ==> |r.value| == |targets|)
            && (r.Success? ==> forall i :: 0 <= i < |targets| ==>
                                 AccountRows(BuildGraph(agg), targets[i], grp.date, cfg) == Success(r.value[i]))
  {
    var agg := Aggregate(ts, grp.date, WindowDays(cfg).value);
    KeptTables(agg, grp.accounts, grp.date, cfg);
  }

  /** The kept accounts are nodes of the graph, so their tables fail only
      on the radius, and only when there is an account to search from. */
  lemma KeptTables(agg: seq<Edge>, accounts: seq<Account>, date: int, cfg: map<string, ConfigValue>)
    requires UniquePairs(agg)
    ensures var r := AccountTables(BuildGraph(agg), Retained(agg, accounts), date, cfg);
            && (r.Success? <==> |Retained(agg, accounts)| == 0 || RadiusCutoff(cfg).Success?)
            && (r.Failure? ==> r.error == TypeError("radius"))
  {
    var g := BuildGraph(agg);
    var targets := Retained(agg, accounts);
    var r := AccountTables(g, targets, date, cfg);
    forall a | a in targets
      ensures a in g.nodes
    {
      RetainedIsSource(agg, accounts, a);
    }
    if |targets| > 0 {
      assert targets[0] in targets;
    }
    if r.Failure? {
      var i :| 0 <= i < |targets| && AccountRows(g, targets[i], date, cfg) == Failure(r.error);
      assert targets[i] in targets;
    }
  }

  /** Runs `f` on every item in order and appends the lists it returns;
      the first failure stops the loop. */
  function Gather<X, U>(xs: seq<X>, f: X -> Result<seq<U>, Error>): (r: Result<seq<U>, Error>)
  {
    if |xs| == 0 then Success([])
    else
      var first :- f(xs[0]);
      var rest :- Gather(xs[1..], f);
      Success(first + rest)
  }

  lemma {:induction false} GatherSucceeds<X, U>(xs: seq<X>, f: X -> Result<seq<U>, Error>)
    ensures Gather(xs, f).Success? <==> forall i :: 0 <= i < |xs| ==> f(xs[i]).Success?
    decreases |xs|
  {
    if |xs| > 0 {
      GatherSucceeds(xs[1..], f);
      assert forall i :: 1 <= i < |xs| ==> xs[i] == xs[1..][i - 1];
    }
  }

  lemma {:induction false} GatherHolds<X, U>(xs: seq<X>, f: X -> Result<seq<U>, Error>)
    requires Gather(xs, f).Success?
    ensures forall t :: t in Gather(xs, f).value <==>
              exists i :: 0 <= i < |xs| && f(xs[i]).Success? && t in f(xs[i]).value
    decreases |xs|
  {
    if |xs| > 0 {
      var first := f(xs[0]).value;
      var rest := Gather(xs[1..], f).value;
      GatherHolds(xs[1..], f);
      forall t
        ensures t in first + rest <==> exists i :: 0 <= i < |xs| && f(xs[i]).Success? && t in f(xs[i]).value
      {
        if t in rest {
          var i :| 0 <= i < |xs[1..]| && f(xs[1..][i]).Success? && t in f(xs[1..][i]).value;
          assert xs[1..][i] == xs[i + 1];
        }
        if exists i :: 0 <= i < |xs| && f(xs[i]).Success? && t in f(xs[i]).value {
          var i :| 0 <= i < |xs| && f(xs[i]).Success? && t in f(xs[i]).value;
          if i > 0 {
            assert xs[1..][i - 1] == xs[i];
          }
        }
      }
    }
  }

  lemma {:induction false} GatherFirstFailure<X, U>(xs: seq<X>, f: X -> Result<seq<U>, Error>)
    ensures Gather(xs, f).Failure? ==>
              exists i :: 0 <= i < |xs| && f(xs[i]) == Failure(Gather(xs, f).error)
                          && forall j :: 0 <= j < i ==> f(xs[j]).Success?
    decreases |xs|
  {
    if |xs| > 0 && Gather(xs, f).Failure? && f(xs[0]).Success? {
      var e := Gather(xs, f).error;
      GatherFirstFailure(xs[1..], f);
      var i :| 0 <= i < |xs[1..]| && f(xs[1..][i]) == Failure(e)
               && forall j :: 0 <= j < i ==> f(xs[1..][j]).Success?;
      assert forall j :: 1 <= j < i + 1 ==> xs[j] == xs[1..][j - 1];
      assert f(xs[i + 1]) == Failure(e);
    }
  }

  lemma {:induction false} GatherConcat<X, U>(a: seq<X>, b: seq<X>, f: X -> Result<seq<U>, Error>)
    ensures Gather(a + b, f)
            == if Gather(a, f).Failure? then Gather(a, f)
               else if Gather(b, f).Failure? then Gather(b, f)
               else Success(Gather(a, f).value + Gather(b, f).value)
    decreases |a|
  {
    if |a| == 0 {
      assert a + b == b;
      if Gather(b, f).Success? {
        assert [] + Gather(b, f).value == Gather(b, f).value;
      }
    } else {
      var first := f(a[0]);
      var rest := Gather(a[1..], f);
      var second := Gather(b, f);
      assert (a + b)[0] == a[0];
      assert (a + b)[1..] == a[1..] + b;
      GatherConcat(a[1..], b, f);
      if first.Success? && rest.Success? && second.Success? {
        assert first.value + (rest.value + second.value) == (first.value + rest.value) + second.value;
      }
    }
  }

  lemma GatherSingle<X, U>(x: X, f: X -> Result<seq<U>, Error>)
    ensures Gather([x], f) == f(x)
  {
    assert [x][1..] == [];
    if f(x).Success? {
      assert f(x).value + [] == f(x).value;
    }
  }

  /** The loop body of `run_pipeline` as a step over alert dates. */
  function DateStep(ts: seq<Txn>, cfg: map<string, ConfigValue>): AlertGroup -> Result<seq<seq<Row>>, Error> {
    grp => GroupTables(ts, grp, cfg)
  }

  /** All alert dates in order, the tables of each appended to `df_list`. */
  function CollectTables(ts: seq<Txn>, groups: seq<AlertGroup>, cfg: map<string, ConfigValue>)
    : (r: Result<seq<seq<Row>>, Error>)
    ensures |groups| == 0 ==> r == Success([])
    ensures |groups| > 0 && WindowDays(cfg).Failure? ==> r == Failure(WindowDays(cfg).error)
  {
    assert |groups| > 0 ==> DateStep(ts, cfg)(groups[0]) == GroupTables(ts, groups[0], cfg);
    Gather(groups, DateStep(ts, cfg))
  }

  /** The run over the dates succeeds exactly when every date's loop body
      does, and then holds exactly the tables of the dates; otherwise it
      raises the error of the first date whose loop body raises. */
  lemma CollectTablesCorrect(ts: seq<Txn>, groups: seq<AlertGroup>, cfg: map<string, ConfigValue>)
    ensures var r := CollectTables(ts, groups, cfg);
            && (r.Success? <==> forall i :: 0 <= i < |groups| ==> GroupTables(ts, groups[i], cfg).Success?)
            && (r.Success? ==> forall t :: t in r.value <==>
                                 exists i :: 0 <= i < |groups| && t in GroupTables(ts, groups[i], cfg).value)
            && (r.Failure? ==> exists i :: 0 <= i < |groups| && GroupTables(ts, groups[i], cfg) == Failure(r.error)
                                 && forall j :: 0 <= j < i ==> GroupTables(ts, groups[j], cfg).Success?)
  {
    var f := DateStep(ts, cfg);
    assert forall i :: 0 <= i < |groups| ==> f(groups[i]) == GroupTables(ts, groups[i], cfg);
    GatherSucceeds(groups, f);
    GatherFirstFailure(groups, f);
    if Gather(groups, f).Success? {
      GatherHolds(groups, f);
    }
  }

  /** The alert dates are processed in order: the tables of two runs of
      dates are those of the first followed by those of the second, and
      the first failure wins. */
  lemma CollectTablesConcat(ts: seq<Txn>, g1: seq<AlertGroup>, g2: seq<AlertGroup>, cfg: map<string, ConfigValue>)
    ensures CollectTables(ts, g1 + g2, cfg)
            == if CollectTables(ts, g1, cfg).Failure? then CollectTables(ts, g1, cfg)
               else if CollectTables(ts, g2, cfg).Failure? then CollectTables(ts, g2, cfg)
               else Success(CollectTables(ts, g1, cfg).value + CollectTables(ts, g2, cfg).value)
  {
    GatherConcat(g1, g2, DateStep(ts, cfg));
  }

  lemma CollectTablesSingle(ts: seq<Txn>, grp: AlertGroup, cfg: map<string, ConfigValue>)
    ensures CollectTables(ts, [grp], cfg) == GroupTables(ts, grp, cfg)
  {
    GatherSingle(grp, DateStep(ts, cfg));
  }

  /** `pd.concat(df_list, ignore_index=True)`: the rows of every table, in
      order. */
  function Flatten(tables: seq<seq<Row>>): (r: seq<Row>)
    ensures forall row :: row in r <==> exists t :: t in tables && row in t
    ensures |r| == 0 <==> forall t :: t in tables ==> |t| == 0
  {
    if |tables| == 0 then []
    else
      assert forall t :: t in tables <==> t == tables[0] || t in tables[1..];
      tables[0] + Flatten(tables[1..])
  }

  /** Stacking keeps the order and the multiplicity of the rows: the
      stack of two lists of tables is the first stack followed by the
      second, and one table stacks to itself. */
  lemma {:induction false} FlattenConcat(a: seq<seq<Row>>, b: seq<seq<Row>>)
    ensures Flatten(a + b) == Flatten(a) + Flatten(b)
    decreases |a|
  {
    if |a| == 0 {
      assert a + b == b;
    } else {
      assert (a + b)[0] == a[0];
      assert (a + b)[1..] == a[1..] + b;
      FlattenConcat(a[1..], b);
    }
  }

  lemma FlattenSingle(t: seq<Row>)
    ensures Flatten([t]) == t
  {
    assert [t][1..] == [];
  }

  /** `run_pipeline`. Concatenating no tables raises; so does reading the
      account column when every table is empty, since the stacked frame then
      has no columns at all. */
  function RunPipeline(ts: seq<Txn>, groups: seq<AlertGroup>, cfg: map<string, ConfigValue>)
    : (r: Result<seq<Row>, Error>)
    ensures |groups| == 0 ==> r == Failure(NoObjectsToConcatenate)
    ensures |groups| > 0 && WindowDays(cfg).Failure? ==> r == Failure(WindowDays(cfg).error)
    ensures r.Success? ==> |r.value| > 0
    ensures r.Success? ==> forall row :: row in r.value ==> row.popularity.Some? && row.popularity.value >= 1
    ensures r.Success? ==> forall i :: 0 <= i < |r.value| ==>
              r.value[i].popularity == Some(CountOf(r.value, r.value[i].node.account))
  {
    var tables :- CollectTables(ts, groups, cfg);
    if |tables| == 0 then Failure(NoObjectsToConcatenate)
    else
      var rows := Flatten(tables);
      if |rows| == 0 then Failure(KeyError("帳號"))
      else
        var out := AddNeighborCounts(rows);
        assert Accounts(out) == Accounts(rows);
        Success(out)
  }

  // ---------------------------------------------------------------------------
  // What the rows say

  /** The graph of an alert date holds, for every account, exactly the
      amounts and counts it received and sent inside that date's window. */
  lemma GraphFlowsAreWindowTotals(ts: seq<Txn>, date: int, days: int, a: Account)
    ensures var g := BuildGraph(Aggregate(ts, date, days));
            var w := Window(ts, date, days);
            && InFlow(g, a, Amount) == TxnSum(w, To(a), Amount)
            && InFlow(g, a, Count) == TxnSum(w, To(a), Count)
            && OutFlow(g, a, Amount) == TxnSum(w, From(a), Amount)
            && OutFlow(g, a, Count) == TxnSum(w, From(a), Count)
  {
    var g := BuildGraph(Aggregate(ts, date, days));
    AggregateTotals(ts, date, days, a);
    FlowIsRowSum(g, a, Amount);
    FlowIsRowSum(g, a, Count);
  }

  /** A kept account is a node of the graph with at least one successor. */
  lemma RetainedIsSource(agg: seq<Edge>, accounts: seq<Account>, a: Account)
    requires UniquePairs(agg) && a in Retained(agg, accounts)
    ensures a in BuildGraph(agg).nodes
    ensures OutDegree(BuildGraph(agg), a) >= 1
  {
    var e :| e in agg && e.sender == a;
    DegreesCountNeighbours(BuildGraph(agg), a);
    SuccsMember(BuildGraph(agg), {a}, e.receiver);
  }

  /** The table of a kept account: one row per account the search reaches
      within the radius, carrying its distance from the alerted account. */
  lemma AccountRowsCorrect(g: Graph, a: Account, date: int, cfg: map<string, ConfigValue>)
    requires Valid(g) && a in g.nodes && RadiusCutoff(cfg).Success?
    ensures AccountRows(g, a, date, cfg).Success?
    ensures forall row :: row in AccountRows(g, a, date, cfg).value ==>
              && row.source == RetrieveSourceFeatures(g, a, date)
              && row.popularity.None?
              && row.node.account != a
              && row.node.hops >= 1
    ensures forall v, d: nat ::
              (exists row :: row in AccountRows(g, a, date, cfg).value && row.node.account == v && row.node.hops == d)
              <==> v != a && InRange(d, RadiusCutoff(cfg).value) && IsDistance(g, a, v, d)
  {
    var c := RadiusCutoff(cfg).value;
    var h := EgoGraph(g, a, c).value;
    EgoNeighbors(g, a, c, h);
    var ds := NeighborDistances(h, a).value;
    ExportMatchesDistances(g, h, ds, a, date);
    forall v | v != a && IsDistance(g, a, v, 0)
      ensures false
    {
      ZeroHops(g, a, v);
    }
  }

  /** Every account the alerted account paid directly gets a row at distance
      1 whose direct amount and count are those of the payment edge. */
  lemma DirectPayeeRow(g: Graph, e: Edge, date: int, cfg: map<string, ConfigValue>)
    requires Valid(g) && e in g.edges && e.sender != e.receiver
    requires RadiusCutoff(cfg).Success?
    requires RadiusCutoff(cfg).value.None? || RadiusCutoff(cfg).value.value >= 1
    ensures AccountRows(g, e.sender, date, cfg).Success?
    ensures exists row :: row in AccountRows(g, e.sender, date, cfg).value
              && row.node.account == e.receiver && row.node.hops == 1
              && row.node.directAmount == e.amount && row.node.directCount == e.count
              && row.node.inAmount == EdgeSum(g.edges, To(e.receiver), Amount)
  {
    var a, b := e.sender, e.receiver;
    var c := RadiusCutoff(cfg).value;
    EgoInduced(g, a, c);
    var h := EgoGraph(g, a, c).value;
    PaidAtDistanceOne(g, e);
    AccountRowsCorrect(g, a, date, cfg);
    assert InRange(1, c);
    var rows := AccountRows(g, a, date, cfg).value;
    var row :| row in rows && row.node.account == b && row.node.hops == 1;
    var ds := NeighborDistances(h, a).value;
    ExportMatchesDistances(g, h, ds, a, date);
    EgoNeighbors(g, a, c, h);
    PayeeFeatures(g, c, ds, e);
  }

  /** Where a row comes from: an alerted account of its date that sent money
      inside the window, and a neighbor that is not that account. */
  predicate Sourced(row: Row, grp: AlertGroup, ts: seq<Txn>, days: int) {
    && row.source.date == grp.date
    && row.source.account in grp.accounts
    && (exists t :: t in ts && InWindow(t, grp.date, days) && t.sender == row.source.account)
    && row.source.outDegree >= 1
    && row.node.account != row.source.account
    && row.node.hops >= 1
  }

  lemma GroupTablesSourced(ts: seq<Txn>, grp: AlertGroup, cfg: map<string, ConfigValue>)
    requires GroupTables(ts, grp, cfg).Success?
    ensures WindowDays(cfg).Success?
    ensures forall t, row :: t in GroupTables(ts, grp, cfg).value && row in t
              ==> Sourced(row, grp, ts, WindowDays(cfg).value)
  {
    var days := WindowDays(cfg).value;
    var agg := ProcessTransactions(ts, grp.date, cfg).value;
    var g := BuildGraph(agg);
    var targets := Retained(agg, grp.accounts);
    var tables := GroupTables(ts, grp, cfg).value;
    AggregateWindow(ts, grp.date, days);
    forall t, row | t in tables && row in t
      ensures Sourced(row, grp, ts, days)
    {
      var i :| 0 <= i < |tables| && tables[i] == t;
      var a := targets[i];
      assert a in targets;
      RetainedIsSource(agg, grp.accounts, a);
      AccountRowsCorrect(g, a, grp.date, cfg);
      var e :| e in agg && e.sender == a;
      assert (e.sender, e.receiver) in TxnPairs(Window(ts, grp.date, days));
      var x :| x in Window(ts, grp.date, days) && (x.sender, x.receiver) == (e.sender, e.receiver);
      assert row.source == RetrieveSourceFeatures(g, a, grp.date);
      DegreesCountNeighbours(g, a);
    }
  }

  lemma CollectTablesSourced(ts: seq<Txn>, groups: seq<AlertGroup>, cfg: map<string, ConfigValue>)
    requires CollectTables(ts, groups, cfg).Success?
    ensures forall t, row :: t in CollectTables(ts, groups, cfg).value && row in t
              ==> WindowDays(cfg).Success? && exists grp :: grp in groups && Sourced(row, grp, ts, WindowDays(cfg).value)
  {
    var tables := CollectTables(ts, groups, cfg).value;
    CollectTablesCorrect(ts, groups, cfg);
    forall t, row | t in tables && row in t
      ensures WindowDays(cfg).Success? && exists grp :: grp in groups && Sourced(row, grp, ts, WindowDays(cfg).value)
    {
      var i :| 0 <= i < |groups| && t in GroupTables(ts, groups[i], cfg).value;
      GroupTablesSourced(ts, groups[i], cfg);
      assert groups[i] in groups;
    }
  }

  /** Every output row belongs to an alerted account of some alert date that
      sent money in that date's window, describes another account at least
      one hop away, and carries a neighbor count of at least one. */
  lemma RunPipelineRows(ts: seq<Txn>, groups: seq<AlertGroup>, cfg: map<string, ConfigValue>)
    requires RunPipeline(ts, groups, cfg).Success?
    ensures WindowDays(cfg).Success?
    ensures forall row :: row in RunPipeline(ts, groups, cfg).value ==>
              && row.popularity.Some? && row.popularity.value >= 1
              && exists grp :: grp in groups && Sourced(row, grp, ts, WindowDays(cfg).value)
  {
    var tables := CollectTables(ts, groups, cfg).value;
    CollectTablesSourced(ts, groups, cfg);
    var rows := Flatten(tables);
    var out := RunPipeline(ts, groups, cfg).value;
    assert out == AddNeighborCounts(rows);
    assert |rows| > 0;
    assert WindowDays(cfg).Success? by {
      var t :| t in tables && |t| > 0;
      assert t[0] in t;
    }
    forall row | row in out
      ensures exists grp :: grp in groups && Sourced(row, grp, ts, WindowDays(cfg).value)
    {
      var i :| 0 <= i < |out| && out[i] == row;
      assert rows[i] in rows;
      var t :| t in tables && rows[i] in t;
      var grp :| grp in groups && Sourced(rows[i], grp, ts, WindowDays(cfg).value);
      assert Sourced(row, grp, ts, WindowDays(cfg).value);
    }
  }

  /** The output is the stack of the date tables row for row: `add_neighbor_counts`
      only fills in the popularity column. */
  lemma RunPipelineStacks(ts: seq<Txn>, groups: seq<AlertGroup>, cfg: map<string, ConfigValue>)
    requires RunPipeline(ts, groups, cfg).Success?
    ensures CollectTables(ts, groups, cfg).Success?
    ensures var rows := Flatten(CollectTables(ts, groups, cfg).value);
            var out := RunPipeline(ts, groups, cfg).value;
            && |out| == |rows|
            && forall i :: 0 <= i < |out| ==>
                 && out[i].node == rows[i].node
                 && out[i].source == rows[i].source
                 && out[i].popularity == Some(CountOf(rows, rows[i].node.account))
  {
    var rows := Flatten(CollectTables(ts, groups, cfg).value);
    assert RunPipeline(ts, groups, cfg).value == AddNeighborCounts(rows);
  }

  /** Rows are stacked date by date: the stack for two runs of dates is the
      stack of the first followed by that of the second. */
  lemma StackByDate(ts: seq<Txn>, g1: seq<AlertGroup>, g2: seq<AlertGroup>, cfg: map<string, ConfigValue>)
    requires CollectTables(ts, g1 + g2, cfg).Success?
    ensures CollectTables(ts, g1, cfg).Success? && CollectTables(ts, g2, cfg).Success?
    ensures Flatten(CollectTables(ts, g1 + g2, cfg).value)
            == Flatten(CollectTables(ts, g1, cfg).value) + Flatten(CollectTables(ts, g2, cfg).value)
  {
    CollectTablesConcat(ts, g1, g2, cfg);
    FlattenConcat(CollectTables(ts, g1, cfg).value, CollectTables(ts, g2, cfg).value);
  }

  /** Within one alert date the tables follow the kept accounts in the
      order they are listed, one table each. */
  lemma StackByAccount(ts: seq<Txn>, grp: AlertGroup, cfg: map<string, ConfigValue>)
    requires CollectTables(ts, [grp], cfg).Success?
    ensures WindowDays(cfg).Success?
    ensures var agg := Aggregate(ts, grp.date, WindowDays(cfg).value);
            var targets := Retained(agg, grp.accounts);
            var tables := CollectTables(ts, [grp], cfg).value;
            && |tables| == |targets|
            && forall i :: 0 <= i < |targets| ==>
                 AccountRows(BuildGraph(agg), targets[i], grp.date, cfg) == Success(tables[i])
  {
    CollectTablesSingle(ts, grp, cfg);
    GroupTablesCorrect(ts, grp, cfg);
  }

  /** Nothing is dropped: after a successful run, every kept account of every
      alert date has a row for every account within the radius of it, naming
      that alert date and the distance. */
  lemma RunPipelineComplete(ts: seq<Txn>, groups: seq<AlertGroup>, cfg: map<string, ConfigValue>)
    requires RunPipeline(ts, groups, cfg).Success?
    ensures WindowDays(cfg).Success?
    ensures forall grp, a, v, d: nat ::
              && grp in groups
              && a in Retained(Aggregate(ts, grp.date, WindowDays(cfg).value), grp.accounts)
              && v != a
              && RadiusCutoff(cfg).Success? && InRange(d, RadiusCutoff(cfg).value)
              && IsDistance(BuildGraph(Aggregate(ts, grp.date, WindowDays(cfg).value)), a, v, d)
              ==> exists row :: row in RunPipeline(ts, groups, cfg).value
                                && row.source.account == a && row.source.date == grp.date
                                && row.node.account == v && row.node.hops == d
  {
    var days := WindowDays(cfg).value;
    forall grp, a, v, d: nat |
      && grp in groups
      && a in Retained(Aggregate(ts, grp.date, days), grp.accounts)
      && v != a
      && RadiusCutoff(cfg).Success? && InRange(d, RadiusCutoff(cfg).value)
      && IsDistance(BuildGraph(Aggregate(ts, grp.date, days)), a, v, d)
      ensures exists row :: row in RunPipeline(ts, groups, cfg).value
                            && row.source.account == a && row.source.date == grp.date
                            && row.node.account == v && row.node.hops == d
    {
      var row := TableRow(ts, groups, cfg, grp, a, v, d);
      StackedRow(ts, groups, cfg, row);
    }
  }

  /** The row of (v, d) in the table of kept account `a` of date `grp`, which
      is one of the tables collected over the dates. */
  lemma TableRow(ts: seq<Txn>, groups: seq<AlertGroup>, cfg: map<string, ConfigValue>,
                 grp: AlertGroup, a: Account, v: Account, d: nat) returns (row: Row)
    requires CollectTables(ts, groups, cfg).Success? && grp in groups
    requires WindowDays(cfg).Success?
    requires a in Retained(Aggregate(ts, grp.date, WindowDays(cfg).value), grp.accounts) && v != a
    requires RadiusCutoff(cfg).Success? && InRange(d, RadiusCutoff(cfg).value)
    requires IsDistance(BuildGraph(Aggregate(ts, grp.date, WindowDays(cfg).value)), a, v, d)
    ensures exists t :: t in CollectTables(ts, groups, cfg).value && row in t
    ensures row.source.account == a && row.source.date == grp.date
    ensures row.node.account == v && row.node.hops == d
  {
    var agg := Aggregate(ts, grp.date, WindowDays(cfg).value);
    var g := BuildGraph(agg);
    var targets := Retained(agg, grp.accounts);
    CollectTablesCorrect(ts, groups, cfg);
    var i :| 0 <= i < |groups| && groups[i] == grp;
    GroupTablesCorrect(ts, grp, cfg);
    var tables := GroupTables(ts, grp, cfg).value;
    var k :| 0 <= k < |targets| && targets[k] == a;
    RetainedIsSource(agg, grp.accounts, a);
    AccountRowsCorrect(g, a, grp.date, cfg);
    assert AccountRows(g, a, grp.date, cfg) == Success(tables[k]);
    row :| row in tables[k] && row.node.account == v && row.node.hops == d;
    assert tables[k] in tables;
  }

  lemma StackedRow(ts: seq<Txn>, groups: seq<AlertGroup>, cfg: map<string, ConfigValue>, row: Row)
    requires RunPipeline(ts, groups, cfg).Success?
    requires exists t :: t in CollectTables(ts, groups, cfg).value && row in t
    ensures exists r :: r in RunPipeline(ts, groups, cfg).value && r.source == row.source && r.node == row.node
  {
    RunPipelineStacks(ts, groups, cfg);
    var tables := CollectTables(ts, groups, cfg).value;
    SameRowAt(Flatten(tables), RunPipeline(ts, groups, cfg).value, row);
  }

  lemma SameRowAt(rows: seq<Row>, out: seq<Row>, row: Row)
    requires row in rows && |out| == |rows|
    requires forall i :: 0 <= i < |out| ==> out[i].node == rows[i].node && out[i].source == rows[i].source
    ensures exists r :: r in out && r.source == row.source && r.node == row.node
  {
    var j :| 0 <= j < |rows| && rows[j] == row;
    assert out[j] in out;
  }

  /** A string radius stops the run with the radius TypeError as soon as
      some alert date has an account to search from. */
  lemma RunPipelineRadiusError(ts: seq<Txn>, groups: seq<AlertGroup>, cfg: map<string, ConfigValue>, grp: AlertGroup)
    requires WindowDays(cfg).Success?
    requires "radius" in cfg && cfg["radius"].StrVal?
    requires grp in groups && |Retained(Aggregate(ts, grp.date, WindowDays(cfg).value), grp.accounts)| > 0
    ensures RunPipeline(ts, groups, cfg) == Failure(TypeError("radius"))
  {
    CollectTablesCorrect(ts, groups, cfg);
    GroupTablesCorrect(ts, grp, cfg);
    var r := CollectTables(ts, groups, cfg);
    var i :| 0 <= i < |groups| && GroupTables(ts, groups[i], cfg) == Failure(r.error);
    GroupTablesCorrect(ts, groups[i], cfg);
  }

  /** No alerted account of the date sent anything inside its window. */
  predicate SilentAlerts(ts: seq<Txn>, grp: AlertGroup, days: int) {
    forall a, t :: a in grp.accounts && t in ts && InWindow(t, grp.date, days) ==> t.sender != a
  }

  /** With no alerted account sending money inside its window there are no
      tables to stack. */
  lemma NothingRetained(ts: seq<Txn>, groups: seq<AlertGroup>, cfg: map<string, ConfigValue>)
    requires WindowDays(cfg).Success?
    requires forall grp :: grp in groups ==> SilentAlerts(ts, grp, WindowDays(cfg).value)
    ensures RunPipeline(ts, groups, cfg) == Failure(NoObjectsToConcatenate)
  {
    NothingRetainedTables(ts, groups, cfg);
  }

  lemma NothingRetainedTables(ts: seq<Txn>, groups: seq<AlertGroup>, cfg: map<string, ConfigValue>)
    requires WindowDays(cfg).Success?
    requires forall grp :: grp in groups ==> SilentAlerts(ts, grp, WindowDays(cfg).value)
    ensures CollectTables(ts, groups, cfg) == Success([])
  {
    forall i | 0 <= i < |groups|
      ensures GroupTables(ts, groups[i], cfg) == Success([])
    {
      assert groups[i] in groups;
      GroupRetainsNothing(ts, groups[i], cfg);
    }
    CollectTablesCorrect(ts, groups, cfg);
    var tables := CollectTables(ts, groups, cfg).value;
    if |tables| > 0 {
      assert tables[0] in tables;
    }
  }

  lemma GroupRetainsNothing(ts: seq<Txn>, grp: AlertGroup, cfg: map<string, ConfigValue>)
    requires WindowDays(cfg).Success?
    requires SilentAlerts(ts, grp, WindowDays(cfg).value)
    ensures GroupTables(ts, grp, cfg) == Success([])
  {
    var days := WindowDays(cfg).value;
    var agg := Aggregate(ts, grp.date, days);
    AggregateWindow(ts, grp.date, days);
    NoSenderNoTables(agg, grp.accounts, grp.date, cfg);
  }

  lemma NoSenderNoTables(agg: seq<Edge>, accounts: seq<Account>, date: int, cfg: map<string, ConfigValue>)
    requires forall a :: a in accounts ==> !IsSender(agg, a)
    ensures AccountTables(BuildGraph(agg), Retained(agg, accounts), date, cfg) == Success([])
  {
    assert Retained(agg, accounts) == [];
  }
}
