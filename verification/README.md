# SNA-driven fraud features, modelled in Dafny

This is a model of the feature pipeline of `sna-driven-financial-fraud-detection`. For every alert date, the pipeline works in five stages:

1. **Aggregate.** Keep the transactions inside a day window ending on that date, then group them by (sender, receiver), giving each pair an amount total and a count.
2. **Build the graph.** The aggregated rows become a directed money-flow graph.
3. **Search.** For each alerted account that sent money in the window, take its radius-bounded ego graph and the hop distance of every account in it.
4. **Emit features.** Write one feature row per neighbor: inbound and outbound flows, the alerted account's direct share of the inbound flow, the indirect remainder, degrees, and the alerted account's own features.
5. **Annotate.** Stack all tables and tag each row with the number of rows that name the same account.

Two small parsers are modelled as well:
- the loop that turns unknown `--key value` / `--flag` command-line tokens into a dictionary;
- the string-to-value coercion of the configuration loader.

Modules, one per source file or concept:

| module | source | contents |
|---|---|---|
| `Wrappers` | — | `Option`, `Result` and the Python exceptions the model raises (`KeyError`, `TypeError`, `OverflowError`, `NodeNotFound`, nothing to concatenate) |
| `Digraph` | — | accounts, edges `(sender, receiver, amount, count)`, graphs as a node set plus an edge sequence in insertion order, edge sums, and the walk-based reference notions `IsWalk`, `WithinHops`, `IsDistance`, `Reachable` |
| `ShortestPaths` | — | networkx's level-by-level single-source search with a cutoff, proved equal to the walk-based distance |
| `ConfigValues` | `src/utils/utils.py` | value coercion and the section-to-map loop |
| `Preprocessing` | `src/data/preprocessing.py` | window filter and group-by with sum and size |
| `Graphs` | `src/sna/graph.py` | graph construction, induced subgraphs, the radius lookup and `ego_graph` |
| `Neighbors` | `src/sna/neighbors.py` | distances without the source |
| `Features` | `src/sna/feature.py` | flows, degrees, source and neighbor records, the export |
| `Postprocess` | `src/sna/postprocess.py` | the popularity column |
| `Pipeline` | `src/sna/pipeline.py` | the per-date, per-account loop, the concatenation and its failures |
| `ExtraArgs` | `src/utils/args_parser.py` | the unknown-argument loop as a method with a loop invariant |

How the model represents things:
- Transaction dates are integer day numbers and amounts are integers.
- A configuration is a map from key to a typed `ConfigValue`: int, float as `real`, bool or string.
- The alert table is a sequence of `(date, accounts)` groups in its iteration order.
- The transaction table and the alert table are inputs, not generated data.

## Model

| member | source | states |
|---|---|---|
| ConfigValues.Coerce | src/utils/utils.py:18-27 | a value kept as a string is the input string unchanged |
| ConfigValues.CoerceClassifies | src/utils/utils.py:18-29 | the tests run in the order int, float, bool, string. Int ⇔ all ASCII digits and at most 4300 of them; a longer digit string makes `int()` raise, and the handler keeps the string. Float ⇔ a decimal form (digits, one dot, digits, at least one digit overall) that is not all digits. Bool ⇔ neither of those and the lower-cased string is "true" or "false", with the right truth value. String in every other case |
| ConfigValues.CoerceValue | src/utils/utils.py:18-21 | an int is the base-ten value of its digits; a float is the decimal number on either side of its dot |
| ConfigValues.FloatExamples | src/utils/utils.py:20-21 | "1.5", ".5" and "1." become floats 1.5, 0.5 and 1.0 |
| ConfigValues.StringExamples | src/utils/utils.py:20-27 | ".", "1.2.3" and the empty string stay strings |
| ConfigValues.BoolExamples | src/utils/utils.py:22-25 | the bool test ignores case: "TRUE" is true and "False" is false |
| ConfigValues.FloatTestSound | src/utils/utils.py:20 | a string that passes "remove one dot, then all digits" with fewer than two dots is in decimal form |
| ConfigValues.FloatTestComplete | src/utils/utils.py:20 | every string in decimal form passes that test |
| ConfigValues.IntRoundTrip | src/utils/utils.py:18-19 | the decimal rendering of any natural number below 10^4300 coerces back to that number |
| ConfigValues.ApplyItems | src/utils/utils.py:16-29 | the keys are exactly the section's keys, and each holds the coercion of the last value written for it |
| ConfigValues.LoadConfig | src/utils/utils.py:15-31 | a missing environment section gives the empty configuration; otherwise it behaves as ApplyItems on that section |
| Preprocessing.Window | src/data/preprocessing.py:24-29 | each transaction is kept as often as it occurs exactly when `date - days <= t.date <= date`; both ends are inclusive |
| Preprocessing.GroupPairs | src/data/preprocessing.py:30-39 | one row per distinct (sender, receiver) pair of the input and no other row. A row's amount is the pair's summed raw amount, and its count is the pair's number of transactions, which is at least 1 |
| Preprocessing.Aggregate | src/data/preprocessing.py:24-39 | the rows are the grouping of the in-window transactions |
| Preprocessing.AggregateWindow | src/data/preprocessing.py:28-29 | window membership is exact, and the result is empty iff no transaction falls in the window |
| Preprocessing.AggregateTotals | src/data/preprocessing.py:30-35 | for every account, the aggregated amounts and counts it sent and received equal the raw window totals. The counts of all rows add up to the number of window transactions |
| Preprocessing.GroupPreservesSums | src/data/preprocessing.py:34-35 | grouping preserves the amount and count sum selected by sender, receiver, pair or all rows |
| Preprocessing.TxnCountAll | src/data/preprocessing.py:35 | the counts of all transactions add up to their number |
| Preprocessing.OutsideWindowIgnored | src/data/preprocessing.py:28-29 | adding transactions outside the window leaves the aggregate unchanged |
| Preprocessing.FirstMissing | src/data/preprocessing.py:15-21 | the first key, in lookup order, that the configuration lacks; none iff every key is present |
| Preprocessing.WindowDays | src/data/preprocessing.py:15-24 | a KeyError iff some required key is missing, naming the first missing key in the lookup order of lines 15-21. With every key present, the result is the window length of `txn_days`; success implies `txn_days` is not a string |
| Preprocessing.WindowLength | src/data/preprocessing.py:21-24 | the days of `timedelta(days=txn_days)`: an int as is, a bool as 0 or 1, a float as its floor. A string raises TypeError, and a length beyond 999999999 days raises OverflowError |
| Preprocessing.InDeltaRange | src/data/preprocessing.py:24 | a day count is accepted iff it is within ±999999999, and unchanged; otherwise OverflowError |
| Preprocessing.ProcessTransactions | src/data/preprocessing.py:4-40 | fails exactly when the window length fails, with its error, before any filtering: a KeyError for the first missing key, a TypeError for a string `txn_days`, an OverflowError beyond 999999999 days. Otherwise it returns the grouping of the window of that length |
| Preprocessing.FloatWindow | src/data/preprocessing.py:24-28 | a fractional `txn_days` keeps the same day-numbered transactions as its floor |
| Graphs.BuildGraph | src/sna/graph.py:13-19 | the nodes are exactly the senders and receivers. Every row is found as the edge between its endpoints with its own amount and count. Every edge comes from a row. Distinct pairs give a well-formed graph |
| Graphs.Directed | src/sna/graph.py:13-19 | a row A→B gives no edge B→A |
| Graphs.Induced | src/sna/graph.py:31 | the nodes are the kept nodes of the graph. The edges are exactly the graph's edges between kept nodes, with their attributes. Well-formedness is preserved |
| Graphs.RadiusCutoff | src/sna/graph.py:31 | a missing `radius` means no cutoff. An int is used as is, a bool as 0 or 1, and a float as its ceiling. A string is a TypeError |
| Graphs.EgoGraph | src/sna/graph.py:31 | a source outside the graph raises NodeNotFound, and only then; otherwise the subgraph contains the source |
| Graphs.BuildEgoGraph | src/sna/graph.py:22-32 | NodeNotFound is raised before the radius is looked at. Success happens exactly when the radius is usable, and the result is then the ego graph for that cutoff |
| Graphs.EgoIsInducedBall | src/sna/graph.py:31 | the ego graph of radius r is the subgraph induced by the accounts reachable in at most r directed steps, with a negative radius acting as 0 |
| Graphs.EgoNodes | src/sna/graph.py:31 | a node is in the ego graph iff a directed walk of at most r edges reaches it. The edges are exactly the graph's edges between those nodes |
| Graphs.EgoInduced | src/sna/graph.py:31 | for every cutoff, the ego graph contains the source, and its edges are exactly the graph's edges between its nodes |
| Graphs.EgoRadiusZero | src/sna/graph.py:31 | with radius 0 or less the ego graph is the source alone |
| Graphs.EgoUnbounded | src/sna/graph.py:31 | with no radius, the ego graph holds exactly the accounts reachable from the source |
| Graphs.EgoBalls | src/sna/graph.py:31 | searching inside the ego graph reaches, within k steps, what the whole graph reaches within min(k, r) steps |
| Graphs.EgoSpheres | src/sna/graph.py:31 | the accounts at distance d inside the ego graph are those at distance d in the whole graph when d is within the cutoff, and none otherwise |
| ShortestPaths.ShortestPathLengths | src/sna/neighbors.py:11 | a missing source raises NodeNotFound, and only then. On success the source comes first at distance 0 and no account appears twice |
| ShortestPaths.ShortestPathLengthsCorrect | src/sna/neighbors.py:11 | (v, d) is listed iff d is within the cutoff and d is the length of a shortest directed walk from the source to v |
| Neighbors.DropSource | src/sna/neighbors.py:12-16 | keeps exactly the entries that are not the source, and keeps keys distinct |
| Neighbors.NeighborDistances | src/sna/neighbors.py:3-17 | fails only for a missing source. On success keys are distinct and the source is not among them |
| Neighbors.NeighborDistancesCorrect | src/sna/neighbors.py:11-16 | (v, d) is an entry iff v is not the source and d is v's directed distance from the source. Every distance is at least 1 |
| Neighbors.EgoNeighbors | src/sna/neighbors.py:11-16 | on an ego graph, the keys are every node except the source. (v, d) is an entry iff d is within the radius and is v's distance in the whole graph |
| Features.InFlow | src/sna/feature.py:4-9 | in a graph with one edge per pair, the in-flow of v is the attribute summed over every edge into v |
| Features.OutFlow | src/sna/feature.py:11-16 | in a graph with one edge per pair, the out-flow of v is the attribute summed over every edge out of v |
| Features.InDegree | src/sna/feature.py:63 | the number of distinct accounts with an edge into v |
| Features.OutDegree | src/sna/feature.py:62 | the number of distinct successors of v |
| Features.Degree | src/sna/feature.py:61 | the distinct senders into v plus the distinct successors of v, so a self-loop counts twice |
| Features.Preds | src/sna/feature.py:8 | the listed predecessors are exactly the senders of edges into v, each once |
| Features.SuccList | src/sna/feature.py:15 | the listed successors are exactly the receivers of edges out of v, each once |
| Features.EdgeAttr | src/sna/feature.py:18-20 | 0 when there is no a→b edge, otherwise that edge's attribute |
| Features.FlowIsRowSum | src/sna/feature.py:4-16 | the in-flow and out-flow of v equal the attribute summed over all edges into and out of v. An account with no such edge gets 0 |
| Features.DegreesCountNeighbours | src/sna/feature.py:61-63 | out-degree is the number of distinct receivers of v, and in-degree the number of distinct senders into v |
| Features.DegreesCountRows | src/sna/feature.py:61-63 | in-degree and out-degree equal the number of edges into and out of v |
| Features.SelfLoopCountsTwice | src/sna/feature.py:61 | a self-loop makes the account its own predecessor and successor, so its total degree is at least 2 |
| Features.HopsOf | src/sna/feature.py:52 | 0 for an account with no entry, otherwise the entry's distance |
| Features.RetrieveSourceFeatures | src/sna/feature.py:22-32 | carries the source and the alert date. The out-degree is the number of distinct receivers, and the four flows are the source's edge sums |
| Features.RetrieveNodeFeatures | src/sna/feature.py:34-64 | inbound amount = direct + indirect, and the same split for counts. degree = in + out, in-degree is the number of distinct senders into the node and out-degree the number of its distinct successors. Totals and degrees come from the whole graph. With no source→node edge in the ego graph, the direct flow is 0 |
| Features.ExportAllnodesFeatures | src/sna/feature.py:66-77 | one row per distance entry, in entry order (none for no entries). Each row carries the entry's account and distance, the source id and date, and the same source features on every row |
| Features.ExportMatchesDistances | src/sna/feature.py:70-75 | an (account, hops) pair appears on a row iff it is a distance entry. Every row merges that account's node features with the unchanged source features |
| Features.DirectFlowInEgo | src/sna/feature.py:46-47 | for every node of the ego graph, the direct flow read in the ego graph equals the source→node flow in the whole graph |
| Features.DirectOnlyFirstHop | src/sna/feature.py:19 | a neighbor that received directly from the source is at distance 1 |
| Features.IndirectNonNegative | src/sna/feature.py:46-58 | with non-negative edge attributes, indirect amount and indirect count are never negative |
| Features.PaidAtDistanceOne | src/sna/neighbors.py:11-16 | an account paid directly by a different account lies at shortest distance exactly 1 from the payer |
| Features.PayeeFeatures | src/sna/feature.py:46-49 | for a payee inside the ego graph, the direct amount and count are those of the payment edge, and the inbound amount is its whole-graph inbound sum |
| Postprocess.Tally | src/sna/postprocess.py:7 | `value_counts`: the keys are the accounts present, each mapped to its number of occurrences, at least 1 |
| Postprocess.AddNeighborCounts | src/sna/postprocess.py:7-8 | keeps the number and order of rows and all their features. Each row's popularity is the number of rows naming its account, at least 1 |
| Postprocess.AddNeighborCountsIdempotent | src/sna/postprocess.py:7-8 | annotating twice is annotating once |
| Postprocess.CountIsPositions | src/sna/postprocess.py:7-8 | an account's count is the number of row positions that name it |
| Postprocess.CountsSumToRows | src/sna/postprocess.py:7-8 | summed once per distinct account, the counts give the number of rows |
| Pipeline.Retained | src/sna/pipeline.py:32-35 | an alerted account is kept iff it sends on some aggregated row, as often as and in the order it is listed |
| Pipeline.RetainedConcat | src/sna/pipeline.py:32-35 | filtering keeps the listed order: the kept accounts of a concatenation are those of the first part followed by those of the second |
| Pipeline.RetainedSingle | src/sna/pipeline.py:32-35 | a single alerted account is kept iff it sends on some aggregated row |
| Pipeline.RetainedIsSource | src/sna/pipeline.py:32-35 | a kept account is a node of the date's graph with out-degree at least 1 |
| Pipeline.AccountRows | src/sna/pipeline.py:38-44 | for a node of the graph, succeeds exactly when the radius is usable and otherwise raises the radius TypeError |
| Pipeline.AccountRowsCorrect | src/sna/pipeline.py:38-44 | every row carries the alerted account's source features, names another account, and has distance at least 1. There is a row (v, d) iff v ≠ the account, d is within the radius, and d is v's directed distance in the date's graph |
| Pipeline.DirectPayeeRow | src/sna/pipeline.py:38-44 | with radius at least 1 or none, every account the alerted account paid has a row at distance 1. Its direct amount and count are that payment edge's, and its inbound amount is everything it received |
| Pipeline.Collect | src/sna/pipeline.py:38-44 | succeeds iff every per-account result does, keeping them in order. A failure carries the error of one of the results |
| Pipeline.AccountTables | src/sna/pipeline.py:38-44 | succeeds iff every account's table does, giving them in account order |
| Pipeline.GroupTables | src/sna/pipeline.py:28 | a failing window length of the date's aggregation stops the loop with that error |
| Pipeline.GroupTablesCorrect | src/sna/pipeline.py:27-44 | with a usable window, a date fails only with the radius TypeError, and only when it has a kept account. On success it gives one table per kept account, in the listed order, each that account's rows in the date's graph |
| Pipeline.KeptTables | src/sna/pipeline.py:32-44 | the kept accounts are nodes of the graph, so their tables fail only on the radius, and only when there is an account to search from |
| Pipeline.CollectTables | src/sna/pipeline.py:27-44 | no alert dates give no tables. With alert dates, a failing window length is the result |
| Pipeline.CollectTablesCorrect | src/sna/pipeline.py:27-44 | succeeds iff every date does, and then holds exactly the dates' tables. Otherwise the error is that of the first failing date |
| Pipeline.CollectTablesConcat | src/sna/pipeline.py:27-44 | the dates are processed in order: two runs of dates give the first run's tables followed by the second's, and the first failure wins |
| Pipeline.CollectTablesSingle | src/sna/pipeline.py:27-44 | one date gives exactly that date's tables or its error |
| Pipeline.Flatten | src/sna/pipeline.py:47 | a row is in the stack iff it is in one of the tables, and the stack is empty iff every table is |
| Pipeline.FlattenConcat | src/sna/pipeline.py:47 | stacking keeps order and multiplicity: the stack of two lists of tables is the first stack followed by the second |
| Pipeline.FlattenSingle | src/sna/pipeline.py:47 | one table stacks to itself |
| Pipeline.GraphFlowsAreWindowTotals | src/sna/pipeline.py:28-29 | the date's graph gives every account exactly the amounts and counts it sent and received in that date's window |
| Pipeline.GroupTablesSourced | src/sna/pipeline.py:27-44 | every row of a date's tables has that date as source date. Its source is an account alerted on that date that sent money in the window, with out-degree at least 1. The row names a different account, at distance at least 1 |
| Pipeline.CollectTablesSourced | src/sna/pipeline.py:27-44 | every row of all tables is sourced, in that sense, by one of the alert dates |
| Pipeline.RunPipeline | src/sna/pipeline.py:11-50 | no alert dates raise "no objects to concatenate", and a key lookup failure is propagated. A successful result is nonempty, and each row's popularity is the number of rows naming its account |
| Pipeline.RunPipelineStacks | src/sna/pipeline.py:47-48 | the output is the stack of the date tables row for row, with the same node and source features; only the popularity is filled in, counted over the whole stack |
| Pipeline.StackByDate | src/sna/pipeline.py:27-47 | rows come date by date: the stack for two runs of dates is the first run's stack followed by the second's |
| Pipeline.StackByAccount | src/sna/pipeline.py:32-44 | within one date the tables follow the kept accounts in their listed order, one table per account, each that account's rows |
| Pipeline.RunPipelineComplete | src/sna/pipeline.py:27-48 | nothing is dropped: after a successful run, every kept account of every date has a row for every other account within the radius, with that date and the account's distance |
| Pipeline.RunPipelineRadiusError | src/sna/pipeline.py:27-39 | with a usable window, a string radius stops the run with the radius TypeError as soon as some date has a kept account |
| Pipeline.RunPipelineRows | src/sna/pipeline.py:27-50 | every output row has popularity at least 1 and comes from a kept account of some alert date |
| Pipeline.NothingRetained | src/sna/pipeline.py:32-47 | when no alerted account sent anything on any date, the run fails because there is nothing to concatenate |
| ExtraArgs.ParseExtra | src/utils/args_parser.py:26-40 | the loop terminates and builds exactly `Extra(tokens)`, the flag-by-flag fold in which a later key overwrites an earlier one |
| ExtraArgs.AssignedKeys | src/utils/args_parser.py:29-30 | the keys are exactly the `--` tokens with their first two characters removed |
| ExtraArgs.LastFlagWins | src/utils/args_parser.py:30-36 | a key's value is the one set by its last occurrence |
| ExtraArgs.FlagWithValue | src/utils/args_parser.py:31-33 | `--k v` with v not a flag sets k to v and consumes both tokens |
| ExtraArgs.FlagAlone | src/utils/args_parser.py:34-36 | a trailing `--k`, or one followed by another flag, sets k to True |
| ExtraArgs.StraySkipped | src/utils/args_parser.py:37-38 | a lone non-flag token adds nothing |
| ExtraArgs.ExtraConcat | src/utils/args_parser.py:28-38 | splitting the tokens where no flag is waiting for a value parses each part separately and merges them, the later part winning |
| ExtraArgs.ExtraExample | src/utils/args_parser.py:26-40 | `x --a 1 --b --a 2` gives `{a: "2", b: True}` |

## Left out

- Directed search: reachability uses out-edges only. `ego_graph` is called without `undirected`, so networkx searches successors.
- networkx version: the search is that of networkx 3.x, whose level loop runs while `cutoff > level` over lists. There, a float radius acts as its ceiling, a negative radius keeps only the source, and results come in discovery order. networkx 2.x (`cutoff >= level`, over sets) would floor a float and give an empty ego graph for a negative radius; that behaviour is not modelled.
- Radius values: the code passes any configured value to networkx, so the model accepts any int, bool or float. A negative radius behaves like 0, and a string raises a TypeError.
- Group-by sort order: aggregated rows come out in first-occurrence order instead of pandas' sorted order. This changes only edge insertion order, and so only the order of accounts within one search level and of rows within a table. Membership, distances and all sums are unaffected.
- Data source: the fake transaction and alert generator is not part of this model. Transactions and alert groups are inputs.
- The program entry point, logging, the progress bar, the CSV export and the big5 encoding are not modelled. The top-level exception handler is not part of this model.
- Column names: the configured column names are not used to pick columns. The data schema is fixed, so only the presence of the seven required keys is checked. Edge attributes are always present, so `.get(attr, 0)` returns 0 only when the edge is missing.
- Number types: amounts are integers and float configuration values are exact reals. There is no floating-point rounding, NaN or NaN-key dropping in the group-by.
- Time: dates are whole day numbers with no time of day. Only day-level comparison is modelled.
- Preprocessing.WindowDays: the alert date minus the window can leave pandas' Timestamp range (roughly the years 1677 to 2262) and raise even for a length `timedelta` accepts. Day numbers are unbounded, so that error is not modelled. Neither is float rounding of a `txn_days` near 999999999.
- ConfigValues.Coerce: `isdigit` and `lower` are modelled for ASCII only. Unicode digits and case mappings are not covered. The limit `int()` puts on digit strings is taken to be CPython's default of 4300 digits (3.11 and later); an interpreter with another limit, or none, is not modelled. Past that limit `int()` raises and the `ValueError` fallback (src/utils/utils.py:28-29) keeps the string; under ASCII this is the only way that fallback is reached.
- ConfigValues.LoadConfig: takes a section's items as given. Several parser features are not modelled:
  - reading the file;
  - `DEFAULT` section inheritance;
  - lower-casing of keys;
  - value interpolation;
  - the duplicate-key error, which makes the whole configuration empty.

  A missing file or a parse error is not modelled; both return `{}` after printing.
- ExtraArgs: `argparse` itself and its defaults are not modelled. `True` is written `Flag` and string values `Text`. The dictionary's key order is not modelled.
- networkx search: the early exit once every node has been seen only saves work, so it is not modelled. Distances are reported in the order the level-by-level search finds them.
- `setup_logger` is not part of this model.
