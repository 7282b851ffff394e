/** `process_transactions` (src/data/preprocessing.py): keep the
    transactions dated inside the inclusive window [date - txn_days, date], then
    group them by (sender, receiver) into one row per pair holding the summed
    amount and the number of transactions. */
module Preprocessing {
  import opened Wrappers
  import opened Digraph
  import opened ConfigValues

  /** One raw transaction; the date is a day number. */
  datatype Txn = Txn(date: int, sender: Account, receiver: Account, amount: int)

  predicate InWindow(t: Txn, date: int, days: int) {
    date - days <= t.date <= date
  }

  /** The date mask: the transactions inside the window, in input order. */
  function Window(ts: seq<Txn>, date: int, days: int): (r: seq<Txn>)
    ensures forall t :: multiset(r)[t] == if InWindow(t, date, days) then multiset(ts)[t] else 0
  {
    if |ts| == 0 then []
    else
      var n := |ts| - 1;
      assert ts == ts[..n] + [ts[n]];
      Window(ts[..n], date, days) + (if InWindow(ts[n], date, days) then [ts[n]] else [])
  }

  function TxnWeight(t: Txn, m: Measure): int {
    if m == Amount then t.amount else 1
  }

  /** Sum over the raw transactions `sel` picks: of their amounts, or 1 per
      transaction for `Count` and `Rows`. */
  function TxnSum(ts: seq<Txn>, sel: Selector, m: Measure): (r: int)
    ensures (forall t :: t in ts ==> !Selects(sel, t.sender, t.receiver)) ==> r == 0
  {
    if |ts| == 0 then 0
    else
      var t := ts[|ts| - 1];
      TxnSum(ts[..|ts| - 1], sel, m) + (if Selects(sel, t.sender, t.receiver) then TxnWeight(t, m) else 0)
  }

  function TxnPairs(ts: seq<Txn>): set<(Account, Account)> {
    set t | t in ts :: (t.sender, t.receiver)
  }

  function RowPairs(rows: seq<Edge>): set<(Account, Account)> {
    set e | e in rows :: (e.sender, e.receiver)
  }

  /** What a group-by of `ts` must be: one row per pair occurring in `ts` and
      no other, each holding the pair's summed amount and its transaction
      count. */
  predicate GroupedFrom(rows: seq<Edge>, ts: seq<Txn>) {
    && UniquePairs(rows)
    && RowPairs(rows) == TxnPairs(ts)
    && forall e :: e in rows ==>
         && e.amount == TxnSum(ts, Pair(e.sender, e.receiver), Amount)
         && e.count == TxnSum(ts, Pair(e.sender, e.receiver), Count)
         && e.count >= 1
  }

  /** Position of the row for pair (a, b), or |rows| when there is none. */
  function IndexOfPair(rows: seq<Edge>, a: Account, b: Account): (i: nat)
    ensures i <= |rows|
    ensures i < |rows| ==> rows[i].sender == a && rows[i].receiver == b
    ensures i == |rows| ==> forall e :: e in rows ==> !(e.sender == a && e.receiver == b)
  {
    if |rows| == 0 then 0
    else if rows[0].sender == a && rows[0].receiver == b then 0
    else 1 + IndexOfPair(rows[1..], a, b)
  }

  /** Fold one transaction into the grouped rows. */
  function AddTxn(rows: seq<Edge>, t: Txn): seq<Edge> {
    var i := IndexOfPair(rows, t.sender, t.receiver);
    if i < |rows| then rows[i := rows[i].(amount := rows[i].amount + t.amount, count := rows[i].count + 1)]
    else rows + [Edge(t.sender, t.receiver, t.amount, 1)]
  }

  /** `groupby([sender, receiver]).agg(sum, size)`, rows in order of first
      occurrence. */
  function GroupPairs(ts: seq<Txn>): (rows: seq<Edge>)
    ensures GroupedFrom(rows, ts)
  {
    if |ts| == 0 then []
    else
      var n := |ts| - 1;
      var prev := GroupPairs(ts[..n]);
      assert ts == ts[..n] + [ts[n]];
      AddTxnGroups(prev, ts[..n], ts[n]);
      AddTxn(prev, ts[n])
  }

  lemma TxnSumAppend(ts: seq<Txn>, t: Txn, sel: Selector, m: Measure)
    ensures TxnSum(ts + [t], sel, m) == TxnSum(ts, sel, m) + (if Selects(sel, t.sender, t.receiver) then TxnWeight(t, m) else 0)
  {
    assert (ts + [t])[..|ts|] == ts;
  }

  lemma AddTxnGroups(rows: seq<Edge>, ts: seq<Txn>, t: Txn)
    requires GroupedFrom(rows, ts)
    ensures GroupedFrom(AddTxn(rows, t), ts + [t])
  {
    var r := AddTxn(rows, t);
    forall e | e in r
      ensures e.amount == TxnSum(ts + [t], Pair(e.sender, e.receiver), Amount)
      ensures e.count == TxnSum(ts + [t], Pair(e.sender, e.receiver), Count)
      ensures e.count >= 1
    {
      AddTxnRow(rows, ts, t, e);
    }
    AddTxnPairs(rows, ts, t);
  }

  /** Each row after the fold holds the sums over the longer input. */
  lemma AddTxnRow(rows: seq<Edge>, ts: seq<Txn>, t: Txn, e: Edge)
    requires GroupedFrom(rows, ts) && e in AddTxn(rows, t)
    ensures e.amount == TxnSum(ts + [t], Pair(e.sender, e.receiver), Amount)
    ensures e.count == TxnSum(ts + [t], Pair(e.sender, e.receiver), Count)
    ensures e.count >= 1
  {
    var r := AddTxn(rows, t);
    var i := IndexOfPair(rows, t.sender, t.receiver);
    TxnSumAppend(ts, t, Pair(e.sender, e.receiver), Amount);
    TxnSumAppend(ts, t, Pair(e.sender, e.receiver), Count);
    if i < |rows| {
      var k :| 0 <= k < |r| && r[k] == e;
      if k != i {
        assert e == rows[k];
        assert !(e.sender == t.sender && e.receiver == t.receiver) by {
          if e.sender == t.sender && e.receiver == t.receiver {
            assert SamePair(rows[k], rows[i]);
          }
        }
      }
    } else if e !in rows {
      assert e == Edge(t.sender, t.receiver, t.amount, 1);
      assert (t.sender, t.receiver) !in TxnPairs(ts);
    } else {
      assert (e.sender, e.receiver) != (t.sender, t.receiver);
    }
  }

  /** The fold keeps one row per pair and adds the new pair, if any. */
  lemma AddTxnPairs(rows: seq<Edge>, ts: seq<Txn>, t: Txn)
    requires GroupedFrom(rows, ts)
    ensures UniquePairs(AddTxn(rows, t))
    ensures RowPairs(AddTxn(rows, t)) == TxnPairs(ts + [t])
  {
    var ts' := ts + [t];
    var r := AddTxn(rows, t);
    var i := IndexOfPair(rows, t.sender, t.receiver);
    assert forall x :: x in ts' <==> x in ts || x == t;
    assert TxnPairs(ts') == TxnPairs(ts) + {(t.sender, t.receiver)};
    if i < |rows| {
      assert forall k :: 0 <= k < |r| ==> SamePair(r[k], rows[k]);
      assert RowPairs(r) == RowPairs(rows) by {
        forall p | p in RowPairs(r) ensures p in RowPairs(rows) {
          var e :| e in r && p == (e.sender, e.receiver);
          var k :| 0 <= k < |r| && r[k] == e;
          assert rows[k] in rows;
        }
        forall p | p in RowPairs(rows) ensures p in RowPairs(r) {
          var e :| e in rows && p == (e.sender, e.receiver);
          var k :| 0 <= k < |rows| && rows[k] == e;
          assert r[k] in r;
        }
      }
    } else {
      assert forall x :: x in r <==> x in rows || x == Edge(t.sender, t.receiver, t.amount, 1);
    }
  }

  /** Folding in one transaction adds its contribution to every sum that
      looks only at the pairs. */
  lemma AddTxnSum(rows: seq<Edge>, t: Txn, sel: Selector, m: Measure)
    requires m != Rows
    ensures EdgeSum(AddTxn(rows, t), sel, m)
            == EdgeSum(rows, sel, m) + (if Selects(sel, t.sender, t.receiver) then TxnWeight(t, m) else 0)
  {
    var i := IndexOfPair(rows, t.sender, t.receiver);
    if i < |rows| {
      var x := rows[i].(amount := rows[i].amount + t.amount, count := rows[i].count + 1);
      assert AddTxn(rows, t) == rows[i := x];
      EdgeSumUpdate(rows, i, x, sel, m);
      assert Selects(sel, x.sender, x.receiver) == Selects(sel, rows[i].sender, rows[i].receiver)
                                                == Selects(sel, t.sender, t.receiver);
      assert Weight(x, m) == Weight(rows[i], m) + TxnWeight(t, m);
    } else {
      var x := Edge(t.sender, t.receiver, t.amount, 1);
      assert AddTxn(rows, t) == rows + [x];
      EdgeSumAppend(rows, x, sel, m);
      assert Weight(x, m) == TxnWeight(t, m);
    }
  }

  /** Every sum that looks only at the pairs is the same over the grouped rows
      as over the raw transactions. */
  lemma {:induction false} GroupPreservesSums(ts: seq<Txn>, sel: Selector, m: Measure)
    requires m != Rows
    ensures EdgeSum(GroupPairs(ts), sel, m) == TxnSum(ts, sel, m)
    decreases |ts|
  {
    if |ts| > 0 {
      var n := |ts| - 1;
      GroupPreservesSums(ts[..n], sel, m);
      AddTxnSum(GroupPairs(ts[..n]), ts[n], sel, m);
    }
  }

  lemma {:induction false} TxnCountAll(ts: seq<Txn>)
    ensures TxnSum(ts, AllRows, Count) == |ts|
  {
    if |ts| > 0 {
      TxnCountAll(ts[..|ts| - 1]);
    }
  }

  /** The date mask followed by the group-by, for a window of `days` days. */
  function Aggregate(ts: seq<Txn>, date: int, days: int): (rows: seq<Edge>)
    ensures GroupedFrom(rows, Window(ts, date, days))
  {
    GroupPairs(Window(ts, date, days))
  }

  /** A transaction counts toward the aggregate iff it lies in the inclusive
      window; an empty window gives no rows. */
  lemma AggregateWindow(ts: seq<Txn>, date: int, days: int)
    ensures forall t :: t in Window(ts, date, days) <==> t in ts && InWindow(t, date, days)
    ensures |Aggregate(ts, date, days)| == 0 <==> forall t :: t in ts ==> !InWindow(t, date, days)
  {
    var w := Window(ts, date, days);
    assert forall t :: t in w <==> multiset(w)[t] > 0;
    var rows := Aggregate(ts, date, days);
    if |rows| > 0 {
      assert (rows[0].sender, rows[0].receiver) in TxnPairs(w);
    }
    if exists t :: t in ts && InWindow(t, date, days) {
      var t :| t in ts && InWindow(t, date, days);
      assert (t.sender, t.receiver) in RowPairs(rows);
    }
  }

  /** Summed over any sender, any receiver or all rows, the aggregated
      amounts and counts equal the raw amounts and transaction counts in the
      window; in particular all counts add up to the number of window
      transactions. */
  lemma AggregateTotals(ts: seq<Txn>, date: int, days: int, a: Account)
    ensures EdgeSum(Aggregate(ts, date, days), From(a), Amount) == TxnSum(Window(ts, date, days), From(a), Amount)
    ensures EdgeSum(Aggregate(ts, date, days), From(a), Count) == TxnSum(Window(ts, date, days), From(a), Count)
    ensures EdgeSum(Aggregate(ts, date, days), To(a), Amount) == TxnSum(Window(ts, date, days), To(a), Amount)
    ensures EdgeSum(Aggregate(ts, date, days), To(a), Count) == TxnSum(Window(ts, date, days), To(a), Count)
    ensures EdgeSum(Aggregate(ts, date, days), AllRows, Count) == |Window(ts, date, days)|
  {
    var w := Window(ts, date, days);
    GroupPreservesSums(w, From(a), Amount);
    GroupPreservesSums(w, From(a), Count);
    GroupPreservesSums(w, To(a), Amount);
    GroupPreservesSums(w, To(a), Count);
    GroupPreservesSums(w, AllRows, Count);
    TxnCountAll(w);
  }

  lemma {:induction false} WindowOutside(ts: seq<Txn>, us: seq<Txn>, date: int, days: int)
    requires forall u :: u in us ==> !InWindow(u, date, days)
    ensures Window(ts + us, date, days) == Window(ts, date, days)
    decreases |us|
  {
    if |us| > 0 {
      var n := |us| - 1;
      assert (ts + us)[..|ts + us| - 1] == ts + us[..n];
      assert (ts + us)[|ts + us| - 1] == us[n];
      assert us[n] in us;
      WindowOutside(ts, us[..n], date, days);
    } else {
      assert ts + us == ts;
    }
  }

  /** Adding transactions dated outside the window changes nothing. */
  lemma OutsideWindowIgnored(ts: seq<Txn>, us: seq<Txn>, date: int, days: int)
    requires forall u :: u in us ==> !InWindow(u, date, days)
    ensures Aggregate(ts + us, date, days) == Aggregate(ts, date, days)
  {
    WindowOutside(ts, us, date, days);
  }

  /** The configuration keys `process_transactions` reads with `configs[...]`,
      in the order it reads them. */
  const RequiredKeys: seq<string> := [
    "date_column_name", "sender_column_name", "receiver_column_name",
    "raw_txn_amt_column_name", "txn_amt_column_name", "txn_cnt_column_name", "txn_days"
  ]

  /** The first of `keys` missing from `cfg`. */
  function FirstMissing(cfg: map<string, ConfigValue>, keys: seq<string>): (r: Option<string>)
    ensures r.None? <==> forall k :: k in keys ==> k in cfg
    ensures r.Some? ==> exists i :: 0 <= i < |keys| && keys[i] == r.value && r.value !in cfg
                                    && forall j :: 0 <= j < i ==> keys[j] in cfg
  {
    if |keys| == 0 then None
    else if keys[0] !in cfg then Some(keys[0])
    else
      var r := FirstMissing(cfg, keys[1..]);
      assert forall k :: k in keys <==> k == keys[0] || k in keys[1..];
      assert r.Some? ==> exists i :: 0 <= i < |keys| && keys[i] == r.value && r.value !in cfg
                                     && forall j :: 0 <= j < i ==> keys[j] in cfg by {
        if r.Some? {
          var i :| 0 <= i < |keys[1..]| && keys[1..][i] == r.value && r.value !in cfg
                   && forall j :: 0 <= j < i ==> keys[1..][j] in cfg;
          assert keys[i + 1] == r.value;
          assert forall j :: 1 <= j < i + 1 ==> keys[j] == keys[1..][j - 1];
        }
      }
      r
  }

  /** The largest number of days a `timedelta` holds, either way. */
  const MaxDeltaDays: int := 999999999

  /** `timedelta(days=v)` subtracted from a day number and compared with day
      numbers: ints and bools count whole days, a float's fractional part
      can never reach another whole day, a string is rejected, and a day
      count beyond the timedelta range overflows. */
  function WindowLength(v: ConfigValue): (r: Result<int, Error>)
    ensures v.StrVal? <==> r == Failure(TypeError("txn_days"))
    ensures r.Success? ==> -MaxDeltaDays <= r.value <= MaxDeltaDays
    ensures v.IntVal? ==> r == if -MaxDeltaDays <= v.i <= MaxDeltaDays then Success(v.i) else Failure(OverflowError("txn_days"))
    ensures v.BoolVal? ==> r == Success(if v.b then 1 else 0)
    ensures v.FloatVal? && r.Success? ==> r.value as real <= v.r < r.value as real + 1.0
    ensures v.FloatVal? ==> (r.Success? <==> -MaxDeltaDays as real <= v.r < MaxDeltaDays as real + 1.0)
  {
    match v
    case IntVal(n) => InDeltaRange(n)
    case BoolVal(b) => Success(if b then 1 else 0)
    case FloatVal(x) => InDeltaRange(x.Floor)
    case StrVal(_) => Failure(TypeError("txn_days"))
  }

  function InDeltaRange(n: int): (r: Result<int, Error>)
    ensures r.Success? <==> -MaxDeltaDays <= n <= MaxDeltaDays
    ensures r.Success? ==> r.value == n
    ensures r.Failure? ==> r.error == OverflowError("txn_days")
  {
    if -MaxDeltaDays <= n <= MaxDeltaDays then Success(n) else Failure(OverflowError("txn_days"))
  }

  /** The key lookups at the head of `process_transactions`: the first
      missing key, in the order they are read, is a KeyError raised before
      any transaction is looked at; then `txn_days` is turned into a window
      length. */
  function WindowDays(cfg: map<string, ConfigValue>): (r: Result<int, Error>)
    ensures (exists k :: k in RequiredKeys && k !in cfg) <==> r.Failure? && r.error.KeyError?
    ensures r.Failure? && r.error.KeyError? ==>
              exists i :: 0 <= i < |RequiredKeys| && RequiredKeys[i] == r.error.key && r.error.key !in cfg
                          && forall j :: 0 <= j < i ==> RequiredKeys[j] in cfg
    ensures (forall k :: k in RequiredKeys ==> k in cfg) ==> r == WindowLength(cfg["txn_days"])
    ensures r.Success? ==> "txn_days" in cfg && !cfg["txn_days"].StrVal?
  {
    match FirstMissing(cfg, RequiredKeys)
    case Some(k) => Failure(KeyError(k))
    case None =>
      assert RequiredKeys[6] == "txn_days";
      WindowLength(cfg["txn_days"])
  }

  /** `process_transactions(data_raw, date, configs)`. */
  function ProcessTransactions(ts: seq<Txn>, date: int, cfg: map<string, ConfigValue>): (r: Result<seq<Edge>, Error>)
    ensures r.Success? <==> WindowDays(cfg).Success?
    ensures r.Failure? ==> r.error == WindowDays(cfg).error
    ensures r.Success? ==> GroupedFrom(r.value, Window(ts, date, WindowDays(cfg).value))
  {
    var days :- WindowDays(cfg);
    Success(Aggregate(ts, date, days))
  }

  /** A fractional window keeps exactly the whole days it covers. */
  lemma FloatWindow(t: Txn, date: int, x: real)
    ensures (date as real - x <= t.date as real <= date as real) <==> InWindow(t, date, x.Floor)
  {
  }
}
