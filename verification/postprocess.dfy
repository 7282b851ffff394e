/** `add_neighbor_counts` (src/sna/postprocess.py): each row learns how many
    rows of the combined table share its neighbor account. */
module Postprocess {
  import opened Wrappers
  import opened Digraph
  import opened Features

  /** The neighbor account column. */
  function Accounts(rows: seq<Row>): (r: seq<Account>)
    ensures |r| == |rows|
    ensures forall i :: 0 <= i < |rows| ==> r[i] == rows[i].node.account
  {
    seq(|rows|, i requires 0 <= i < |rows| => rows[i].node.account)
  }

  /** How many rows name account `a`. */
  function CountOf(rows: seq<Row>, a: Account): nat {
    multiset(Accounts(rows))[a]
  }

  /** `df["帳號"].value_counts()`: a count for every account that occurs. */
  function Tally(accounts: seq<Account>): (r: map<Account, nat>)
    ensures forall a :: a in r <==> a in accounts
    ensures forall a :: a in r ==> r[a] == multiset(accounts)[a] && r[a] >= 1
  {
    if |accounts| == 0 then map[]
    else
      var init := accounts[..|accounts| - 1];
      var x := accounts[|accounts| - 1];
      assert accounts == init + [x];
      assert multiset(accounts) == multiset(init) + multiset{x};
      var t := Tally(init);
      t[x := if x in t then t[x] + 1 else 1]
  }

  /** `df["該帳戶同時為幾個警示戶的鄰居"] = df["帳號"].map(neighbor_counts)`:
      every row keeps its features and gains the count of its account. */
  function AddNeighborCounts(rows: seq<Row>): (r: seq<Row>)
    ensures |r| == |rows|
    ensures forall i :: 0 <= i < |r| ==>
              && r[i].node == rows[i].node
              && r[i].source == rows[i].source
              && r[i].popularity == Some(CountOf(rows, rows[i].node.account))
              && r[i].popularity.value >= 1
  {
    var accounts := Accounts(rows);
    var t := Tally(accounts);
    assert forall i :: 0 <= i < |rows| ==> accounts[i] in accounts;
    seq(|rows|, i requires 0 <= i < |rows| => rows[i].(popularity := Some(t[accounts[i]])))
  }

  /** Annotating twice gives what annotating once gives: the count depends
      only on the account column, which annotation leaves alone. */
  lemma AddNeighborCountsIdempotent(rows: seq<Row>)
    ensures AddNeighborCounts(AddNeighborCounts(rows)) == AddNeighborCounts(rows)
  {
    var once := AddNeighborCounts(rows);
    assert Accounts(once) == Accounts(rows);
  }

  /** Rows sharing an account get the same count, and the count is the
      number of positions naming that account. */
  lemma CountIsPositions(rows: seq<Row>, a: Account)
    ensures CountOf(rows, a) == |set i | 0 <= i < |rows| && rows[i].node.account == a|
  {
    var s := Accounts(rows);
    PositionsCount(s, a);
    assert (set i | 0 <= i < |s| && s[i] == a) == set i | 0 <= i < |rows| && rows[i].node.account == a;
  }

  lemma {:induction false} PositionsCount(s: seq<Account>, a: Account)
    ensures multiset(s)[a] == |set i | 0 <= i < |s| && s[i] == a|
    decreases |s|
  {
    if |s| > 0 {
      var init := s[..|s| - 1];
      PositionsCount(init, a);
      assert s == init + [s[|s| - 1]];
      var before := set i | 0 <= i < |init| && init[i] == a;
      var after := set i | 0 <= i < |s| && s[i] == a;
      if s[|s| - 1] == a {
        assert after == before + {|s| - 1};
      } else {
        assert after == before;
      }
    }
  }

  /** The distinct accounts, in order of first occurrence. */
  function Distinct(s: seq<Account>): (r: seq<Account>)
    ensures Elems(r) == Elems(s) && NoDup(r)
  {
    if |s| == 0 then []
    else
      var init := s[..|s| - 1];
      var x := s[|s| - 1];
      assert Elems(s) == Elems(init) + {x};
      var d := Distinct(init);
      if x in d then d
      else
        assert Elems(d + [x]) == Elems(d) + {x};
        d + [x]
  }

  /** The counts of the accounts in `ds`, added up. */
  function SumCounts(ds: seq<Account>, m: multiset<Account>): nat {
    if |ds| == 0 then 0
    else SumCounts(ds[..|ds| - 1], m) + m[ds[|ds| - 1]]
  }

  lemma {:induction false} SumCountsAddOne(ds: seq<Account>, m: multiset<Account>, x: Account)
    requires NoDup(ds)
    ensures SumCounts(ds, m + multiset{x}) == SumCounts(ds, m) + (if x in ds then 1 else 0)
    decreases |ds|
  {
    if |ds| > 0 {
      var init := ds[..|ds| - 1];
      assert forall a :: a in ds <==> a in init || a == ds[|ds| - 1];
      SumCountsAddOne(init, m, x);
    }
  }

  lemma {:induction false} DistinctCountsSum(s: seq<Account>)
    ensures SumCounts(Distinct(s), multiset(s)) == |s|
    decreases |s|
  {
    if |s| > 0 {
      var init := s[..|s| - 1];
      var x := s[|s| - 1];
      assert s == init + [x];
      assert multiset(s) == multiset(init) + multiset{x};
      DistinctCountsSum(init);
      var d := Distinct(init);
      SumCountsAddOne(d, multiset(init), x);
      if x !in d {
        assert x !in Elems(init);
        assert multiset(init)[x] == 0;
        assert (d + [x])[..|d|] == d;
      }
    }
  }

  /** Taking the count once per distinct account gives the number of rows. */
  lemma CountsSumToRows(rows: seq<Row>)
    ensures SumCounts(Distinct(Accounts(rows)), multiset(Accounts(rows))) == |rows|
  {
    DistinctCountsSum(Accounts(rows));
  }
}
