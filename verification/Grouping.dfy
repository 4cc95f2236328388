/**
 * How the graph maker groups the parsed entries: by a key for the plots, keeping
 * the order of the entries, and by route and test type for the statistics table.
 */
module Grouping {
  import opened Common
  import opened Averages

  /** What the groupings look at in a parsed entry; `index` stands for the rest of it. */
  datatype Row = Row(route: string, testType: string, totalTransactions: int, index: nat)

  // ---- Selecting ----

  /** The rows that satisfy p, in order. */
  function Select(data: seq<Row>, p: Row -> bool): seq<Row> {
    if data == [] then []
    else Select(DropLast(data), p) + (if p(Last(data)) then [Last(data)] else [])
  }

  lemma {:induction false} SelectElements(data: seq<Row>, p: Row -> bool)
    ensures forall e :: e in Select(data, p) <==> e in data && p(e)
  {
    if data != [] {
      SelectElements(DropLast(data), p);
      assert data == DropLast(data) + [Last(data)];
    }
  }

  function GroupOf<K(==)>(data: seq<Row>, key: Row -> K, k: K): seq<Row> {
    Select(data, e => key(e) == k)
  }

  lemma GroupElements<K>(data: seq<Row>, key: Row -> K, k: K)
    ensures forall e :: e in GroupOf(data, key, k) <==> e in data && key(e) == k
  {
    SelectElements(data, e => key(e) == k);
  }

  /** The groups of the given keys, one after the other. */
  function Groups<K(==)>(data: seq<Row>, key: Row -> K, keys: seq<K>): seq<Row> {
    if keys == [] then [] else Groups(data, key, DropLast(keys)) + GroupOf(data, key, Last(keys))
  }

  /** Two selections that share no row and together select p's rows. */
  lemma {:induction false} SelectSplit(data: seq<Row>, p: Row -> bool, q: Row -> bool, both: Row -> bool)
    requires forall e :: both(e) <==> p(e) || q(e)
    requires forall e :: !(p(e) && q(e))
    ensures multiset(Select(data, both)) == multiset(Select(data, p)) + multiset(Select(data, q))
  {
    if data != [] {
      SelectSplit(DropLast(data), p, q, both);
    }
  }

  lemma {:induction false} GroupsSelect<K(!new)>(data: seq<Row>, key: Row -> K, keys: seq<K>)
    requires NoDup(keys)
    ensures multiset(Groups(data, key, keys)) == multiset(Select(data, e => key(e) in keys))
  {
    var all := e => key(e) in keys;
    if keys == [] {
      SelectElements(data, all);
      NoElements(Select(data, all));
    } else {
      var before, k := DropLast(keys), Last(keys);
      GroupsSelect(data, key, before);
      SelectSplit(data, e => key(e) in before, e => key(e) == k, all);
    }
  }

  lemma NoElements(s: seq<Row>)
    requires forall e :: e !in s
    ensures s == []
  {
    FirstIsIn(s);
  }

  lemma {:induction false} SelectAll(data: seq<Row>, p: Row -> bool)
    requires forall e :: e in data ==> p(e)
    ensures Select(data, p) == data
  {
    if data != [] {
      SelectAll(DropLast(data), p);
      assert data == DropLast(data) + [Last(data)];
    }
  }

  /** Grouping by keys without repetition that cover the data loses and repeats nothing. */
  lemma GroupsArePartition<K(!new)>(data: seq<Row>, key: Row -> K, keys: seq<K>)
    requires NoDup(keys) && forall e :: e in data ==> key(e) in keys
    ensures multiset(Groups(data, key, keys)) == multiset(data)
  {
    GroupsSelect(data, key, keys);
    SelectAll(data, e => key(e) in keys);
  }

  // ---- The groups of a plot ----

  /** The keys in the order of their first occurrence, as a Python dictionary keeps them. */
  function KeysInOrder<K(==)>(data: seq<Row>, key: Row -> K): seq<K> {
    if data == [] then []
    else
      var before := KeysInOrder(DropLast(data), key);
      if key(Last(data)) in before then before else before + [key(Last(data))]
  }

  lemma {:induction false} KeysInOrderExact<K>(data: seq<Row>, key: Row -> K)
    ensures NoDup(KeysInOrder(data, key))
    ensures forall e :: e in data ==> key(e) in KeysInOrder(data, key)
    ensures forall k :: k in KeysInOrder(data, key) ==> GroupOf(data, key, k) != []
  {
    if data != [] {
      KeysInOrderExact(DropLast(data), key);
      assert data == DropLast(data) + [Last(data)];
    }
  }

  lemma GroupSnoc<K>(data: seq<Row>, entry: Row, key: Row -> K, k: K)
    ensures GroupOf(data + [entry], key, k) ==
            if key(entry) == k then GroupOf(data, key, k) + [entry] else GroupOf(data, key, k)
  {
    assert DropLast(data + [entry]) == data && Last(data + [entry]) == entry;
    assert GroupOf(data, key, k) + [] == GroupOf(data, key, k);
  }

  /** The dictionary the loop builds: each entry is put into the group of its key. */
  function Dictionary<K(==)>(data: seq<Row>, key: Row -> K): map<K, seq<Row>> {
    if data == [] then map[]
    else
      var before, k := Dictionary(DropLast(data), key), key(Last(data));
      before[k := (if k in before then before[k] else []) + [Last(data)]]
  }

  /** Its keys are those that occur, and each stands for the data filtered by it. */
  lemma {:induction false} DictionaryAt<K>(data: seq<Row>, key: Row -> K, k: K)
    ensures k in Dictionary(data, key) <==> k in KeysInOrder(data, key)
    ensures GroupOf(data, key, k) == if k in Dictionary(data, key) then Dictionary(data, key)[k] else []
    ensures k in Dictionary(data, key) ==> Dictionary(data, key)[k] != []
  {
    if data != [] {
      assert data == DropLast(data) + [Last(data)];
      GroupSnoc(DropLast(data), Last(data), key, k);
      hide GroupOf;
      DictionaryAt(DropLast(data), key, k);
    }
  }

  lemma DictionaryEmpty<K>(data: seq<Row>, key: Row -> K)
    ensures KeysInOrder(data[..0], key) == [] && Dictionary(data[..0], key) == map[]
  {
  }

  /** What entry i changes. */
  lemma DictionaryNext<K>(data: seq<Row>, key: Row -> K, i: nat)
    requires i < |data|
    ensures Dictionary(data[..i + 1], key) ==
            var before, k := Dictionary(data[..i], key), key(data[i]);
            if k in before then before[k := before[k] + [data[i]]] else before[k := []][k := [] + [data[i]]]
    ensures KeysInOrder(data[..i + 1], key) ==
            var before, k := KeysInOrder(data[..i], key), key(data[i]);
            if k in before then before else before + [k]
  {
    assert DropLast(data[..i + 1]) == data[..i] && Last(data[..i + 1]) == data[i];
  }

  /**
   * The test_groups loop: each group is the data filtered by its key, the keys stand in
   * order of first occurrence, and the groups together are a permutation of the data.
   */
  method TestGroups<K(!new, ==)>(data: seq<Row>, key: Row -> K) returns (keys: seq<K>, groups: map<K, seq<Row>>)
    ensures keys == KeysInOrder(data, key) && NoDup(keys) && forall k :: k in groups <==> k in keys
    ensures forall k :: k in groups ==> groups[k] == GroupOf(data, key, k) && groups[k] != []
    ensures multiset(Groups(data, key, keys)) == multiset(data)
  {
    keys, groups := [], map[];
    hide *;
    DictionaryEmpty(data, key);
    for i := 0 to |data|
      invariant keys == KeysInOrder(data[..i], key) && groups == Dictionary(data[..i], key)
    {
      var entry := data[i];
      var k := key(entry);
      DictionaryNext(data, key, i);
      DictionaryAt(data[..i], key, k);
      if k !in groups {
        groups := groups[k := []];
        keys := keys + [k];
      }
      groups := groups[k := groups[k] + [entry]];
    }
    assert data[..|data|] == data;
    DictionaryExact(data, key);
  }

  lemma DictionaryExact<K(!new)>(data: seq<Row>, key: Row -> K)
    ensures NoDup(KeysInOrder(data, key)) && forall k :: k in Dictionary(data, key) <==> k in KeysInOrder(data, key)
    ensures forall k :: k in Dictionary(data, key) ==>
              Dictionary(data, key)[k] == GroupOf(data, key, k) && GroupOf(data, key, k) != []
    ensures multiset(Groups(data, key, KeysInOrder(data, key))) == multiset(data)
  {
    KeysInOrderExact(data, key);
    GroupsArePartition(data, key, KeysInOrder(data, key));
    hide *;
    forall k
      ensures k in Dictionary(data, key) <==> k in KeysInOrder(data, key)
      ensures k in Dictionary(data, key) ==> Dictionary(data, key)[k] == GroupOf(data, key, k)
    {
      DictionaryAt(data, key, k);
    }
  }

  // ---- The rows of the statistics table ----

  /** The value of a metric in an entry, if it has one. */
  type Metric = Row -> Option<real>

  /** A row of the table: a route, a test type, their entries, and the figures of each metric. */
  datatype Statistics = Statistics(
    route: string, testType: string, subset: seq<Row>, figures: seq<Option<Figures>>)

  function ValuesOf(rows: seq<Row>, metric: Metric): seq<real> {
    if rows == [] then []
    else ValuesOf(DropLast(rows), metric) + match metric(Last(rows)) case Some(x) => [x] case None => []
  }

  /** The values stand at the given places, which are in order and all that hold a value. */
  ghost predicate PlacesAre(rows: seq<Row>, metric: Metric, values: seq<real>, at: seq<nat>) {
    && |at| == |values|
    && (forall i :: 0 <= i < |at| ==> at[i] < |rows| && metric(rows[at[i]]) == Some(values[i]))
    && (forall i, j :: 0 <= i < j < |at| ==> at[i] < at[j])
    && (forall n :: 0 <= n < |rows| && metric(rows[n]).Some? ==> n in at)
  }

  lemma PlacesKept(rows: seq<Row>, e: Row, metric: Metric, values: seq<real>, at: seq<nat>)
    requires PlacesAre(rows, metric, values, at) && metric(e).None?
    ensures PlacesAre(rows + [e], metric, values, at)
  {
  }

  lemma PlacesAdded(rows: seq<Row>, e: Row, metric: Metric, values: seq<real>, at: seq<nat>)
    requires PlacesAre(rows, metric, values, at) && metric(e).Some?
    ensures PlacesAre(rows + [e], metric, values + [metric(e).value], at + [|rows|])
  {
    assert (at + [|rows|])[|at|] == |rows|;
    forall n | 0 <= n < |rows + [e]| && metric((rows + [e])[n]).Some?
      ensures n in at + [|rows|]
    {
      if n < |rows| {
        assert n in at;
      }
    }
  }

  /** The values are those of the rows that have one, in order. */
  lemma {:induction false} ValuesExact(rows: seq<Row>, metric: Metric) returns (at: seq<nat>)
    ensures PlacesAre(rows, metric, ValuesOf(rows, metric), at)
  {
    at := [];
    if rows != [] {
      var before, e := DropLast(rows), Last(rows);
      assert rows == before + [e];
      assert ValuesOf(before, metric) + [] == ValuesOf(before, metric);
      at := ValuesExact(before, metric);
      hide PlacesAre;
      if metric(e).Some? {
        PlacesAdded(before, e, metric, ValuesOf(before, metric), at);
        at := at + [|before|];
      } else {
        PlacesKept(before, e, metric, ValuesOf(before, metric), at);
      }
    }
  }

  /** Each value occurs as often as there are rows with it. */
  lemma {:induction false} ValuesCount(rows: seq<Row>, metric: Metric, x: real)
    ensures Occurrences(ValuesOf(rows, metric), x) == |Select(rows, e => metric(e) == Some(x))|
  {
    if rows != [] {
      ValuesCount(DropLast(rows), metric, x);
    }
  }

  /** There are no values exactly if no row has one. */
  lemma NoValues(rows: seq<Row>, metric: Metric)
    ensures ValuesOf(rows, metric) == [] <==> forall e :: e in rows ==> metric(e).None?
  {
    var at := ValuesExact(rows, metric);
    hide ValuesOf;
    if at != [] {
      assert rows[at[0]] in rows;
    }
  }

  function PairOf(e: Row): (string, string) {
    (e.route, e.testType)
  }

  function Pairs(table: seq<Statistics>): seq<(string, string)> {
    if table == [] then [] else Pairs(DropLast(table)) + [(Last(table).route, Last(table).testType)]
  }

  function TotalSize(table: seq<Statistics>): nat {
    if table == [] then 0 else TotalSize(DropLast(table)) + |Last(table).subset|
  }

  /**
   * There are no figures exactly if no row has a value; otherwise they are those of the
   * values of the rows that have one, in the order of the rows.
   */
  ghost predicate MetricExact(rows: seq<Row>, metric: Metric, figures: Option<Figures>) {
    && (figures.None? <==> forall e :: e in rows ==> metric(e).None?)
    && AreFigures(ValuesOf(rows, metric), figures)
    && exists at :: PlacesAre(rows, metric, ValuesOf(rows, metric), at)
  }

  /** The figures are those of the metrics in the rows. */
  ghost predicate FiguresExact(rows: seq<Row>, metrics: seq<Metric>, figures: seq<Option<Figures>>) {
    |figures| == |metrics| && forall k :: 0 <= k < |metrics| ==> MetricExact(rows, metrics[k], figures[k])
  }

  ghost predicate RowExact(data: seq<Row>, metrics: seq<Metric>, row: Statistics) {
    && row.subset == GroupOf(data, PairOf, (row.route, row.testType)) && row.subset != []
    && (forall e :: e in row.subset <==> e in data && e.route == row.route && e.testType == row.testType)
    && FiguresExact(row.subset, metrics, row.figures)
  }

  ghost predicate RowsExact(data: seq<Row>, metrics: seq<Metric>, table: seq<Statistics>) {
    forall i :: 0 <= i < |table| ==> RowExact(data, metrics, table[i])
  }

  lemma LastRow(data: seq<Row>, metrics: seq<Metric>, table: seq<Statistics>)
    requires table != [] && RowsExact(data, metrics, table)
    ensures RowsExact(data, metrics, DropLast(table)) && RowExact(data, metrics, Last(table))
  {
    hide RowExact;
    assert table[|table| - 1] == Last(table);
  }

  lemma LastSubset(data: seq<Row>, metrics: seq<Metric>, table: seq<Statistics>)
    requires table != [] && RowsExact(data, metrics, table)
    ensures Last(table).subset == GroupOf(data, PairOf, (Last(table).route, Last(table).testType))
  {
    hide GroupOf, FiguresExact;
    LastRow(data, metrics, table);
  }

  lemma {:induction false} PairsAre(table: seq<Statistics>)
    ensures |Pairs(table)| == |table|
    ensures forall i :: 0 <= i < |table| ==> Pairs(table)[i] == (table[i].route, table[i].testType)
  {
    if table != [] {
      PairsAre(DropLast(table));
    }
  }

  /** How the last row extends the groups. */
  lemma GroupsStep(data: seq<Row>, metrics: seq<Metric>, table: seq<Statistics>)
    requires table != [] && RowsExact(data, metrics, table)
    ensures RowsExact(data, metrics, DropLast(table)) && RowExact(data, metrics, Last(table))
    ensures Groups(data, PairOf, Pairs(table)) == Groups(data, PairOf, Pairs(DropLast(table))) + Last(table).subset
  {
    LastRow(data, metrics, table);
    LastSubset(data, metrics, table);
    hide RowsExact, GroupOf;
    assert DropLast(Pairs(table)) == Pairs(DropLast(table));
  }

  lemma {:induction false} SizesAreGroups(data: seq<Row>, metrics: seq<Metric>, table: seq<Statistics>)
    requires RowsExact(data, metrics, table)
    ensures TotalSize(table) == |Groups(data, PairOf, Pairs(table))|
  {
    hide RowsExact, GroupOf, PairOf, Pairs;
    if table == [] {
      PairsAre([]);
    } else {
      hide Groups;
      GroupsStep(data, metrics, table);
      SizesAreGroups(data, metrics, DropLast(table));
    }
  }

  /** The pairs of the table, and those still to come: the test types of one route, then the other routes. */
  ghost predicate TableSoFar(
      data: seq<Row>, metrics: seq<Metric>, table: seq<Statistics>,
      routes: set<string>, route: string, types: set<string>)
  {
    && RowsExact(data, metrics, table) && NoDup(Pairs(table))
    && forall e :: e in data ==>
         (PairOf(e) in Pairs(table) <==> e.route !in routes && (e.route != route || e.testType !in types))
  }

  lemma RowAdded(
      data: seq<Row>, metrics: seq<Metric>, table: seq<Statistics>,
      routes: set<string>, types: set<string>, row: Statistics)
    requires TableSoFar(data, metrics, table, routes, row.route, types)
    requires row.route !in routes && row.testType in types
    requires exists e :: e in data && PairOf(e) == (row.route, row.testType)
    requires row.subset == GroupOf(data, PairOf, (row.route, row.testType))
    requires FiguresExact(row.subset, metrics, row.figures)
    ensures TableSoFar(data, metrics, table + [row], routes, row.route, types - {row.testType})
  {
    hide FiguresExact, GroupOf;
    var pair := (row.route, row.testType);
    assert DropLast(table + [row]) == table;
    assert Pairs(table + [row]) == Pairs(table) + [pair];
    PairsAre(table);
    GroupElements(data, PairOf, pair);
    var e :| e in data && PairOf(e) == pair;
    assert e in row.subset;
    assert PairOf(e) !in Pairs(table);
  }

  // ---- What the whole table keeps ----

  function Total(rows: seq<Row>, metric: Metric): real {
    Sum(ValuesOf(rows, metric))
  }

  lemma TotalSnoc(rows: seq<Row>, e: Row, metric: Metric)
    ensures Total(rows + [e], metric) == Total(rows, metric) + metric(e).GetOr(0.0)
  {
    assert DropLast(rows + [e]) == rows;
    var values := ValuesOf(rows, metric);
    if metric(e).Some? {
      assert DropLast(values + [metric(e).value]) == values;
    } else {
      assert values + [] == values;
    }
  }

  lemma {:induction false} TotalConcat(a: seq<Row>, b: seq<Row>, metric: Metric)
    ensures Total(a + b, metric) == Total(a, metric) + Total(b, metric)
  {
    hide Total;
    if b == [] {
      assert a + b == a && Total([], metric) == 0.0 by {
        TotalNone(metric);
      }
    } else {
      assert a + b == a + DropLast(b) + [Last(b)] && b == DropLast(b) + [Last(b)];
      TotalConcat(a, DropLast(b), metric);
      TotalSnoc(a + DropLast(b), Last(b), metric);
      TotalSnoc(DropLast(b), Last(b), metric);
    }
  }

  lemma TotalNone(metric: Metric)
    ensures Total([], metric) == 0.0
  {
  }

  lemma TakeOut(rows: seq<Row>, i: nat)
    requires i < |rows|
    ensures multiset(rows[..i] + rows[i + 1..]) == multiset(rows) - multiset{rows[i]}
  {
    assert rows == rows[..i] + ([rows[i]] + rows[i + 1..]);
  }

  lemma TakeOneAway(a: seq<Row>, b: seq<Row>, i: nat)
    requires multiset(a) == multiset(b) && a != [] && i < |b| && b[i] == Last(a)
    ensures multiset(DropLast(a)) == multiset(b[..i] + b[i + 1..])
  {
    TakeOut(a, |a| - 1);
    TakeOut(b, i);
    assert DropLast(a) == a[..|a| - 1] + a[|a|..];
  }

  /** The total of a metric does not depend on the order of the rows. */
  lemma {:induction false} TotalOfPermutation(a: seq<Row>, b: seq<Row>, metric: Metric)
    requires multiset(a) == multiset(b)
    ensures Total(a, metric) == Total(b, metric)
  {
    hide Total;
    if a == [] {
      assert |multiset(b)| == 0;
      assert b == [];
    } else {
      var x := Last(a);
      assert a == DropLast(a) + [x];
      assert x in multiset(a) && x in multiset(b);
      var i :| 0 <= i < |b| && b[i] == x;
      assert b == b[..i] + [x] + b[i + 1..];
      TakeOneAway(a, b, i);
      TotalOfPermutation(DropLast(a), b[..i] + b[i + 1..], metric);
      TotalSnoc(DropLast(a), x, metric);
      TotalConcat(b[..i] + [x], b[i + 1..], metric);
      TotalSnoc(b[..i], x, metric);
      TotalConcat(b[..i], b[i + 1..], metric);
    }
  }

  /** The mean of metric k in a row, times the number of values behind it. */
  function WeightedMean(row: Statistics, metric: Metric, k: nat): real {
    if k < |row.figures| && row.figures[k].Some?
    then row.figures[k].value.mean * |ValuesOf(row.subset, metric)| as real
    else 0.0
  }

  function WeightedMeans(table: seq<Statistics>, metric: Metric, k: nat): real {
    if table == [] then 0.0
    else WeightedMeans(DropLast(table), metric, k) + WeightedMean(Last(table), metric, k)
  }

  lemma {:induction false} WeightedMeansAreTotals(
      data: seq<Row>, metrics: seq<Metric>, table: seq<Statistics>, k: nat)
    requires RowsExact(data, metrics, table) && k < |metrics|
    ensures WeightedMeans(table, metrics[k], k) == Total(Groups(data, PairOf, Pairs(table)), metrics[k])
  {
    hide RowsExact, RowExact, GroupOf, PairOf, Total, WeightedMean;
    if table == [] {
      TotalNone(metrics[k]);
    } else {
      hide Groups;
      GroupsStep(data, metrics, table);
      WeightedMeansAreTotals(data, metrics, DropLast(table), k);
      TotalConcat(Groups(data, PairOf, Pairs(DropLast(table))), Last(table).subset, metrics[k]);
      RowMean(data, metrics, Last(table), k);
    }
  }

  lemma RowMean(data: seq<Row>, metrics: seq<Metric>, row: Statistics, k: nat)
    requires RowExact(data, metrics, row) && k < |metrics|
    ensures WeightedMean(row, metrics[k], k) == Total(row.subset, metrics[k])
  {
    hide GroupOf, ValuesOf, IsMedian, IsMode;
    assert MetricExact(row.subset, metrics[k], row.figures[k]);
    assert Sum([]) == 0.0;
  }

  /**
   * A finished table covers the data: its rows are distinct pairs, their sizes add up, and so
   * do the means of every metric, weighted by the number of values behind each.
   */
  lemma TableComplete(data: seq<Row>, metrics: seq<Metric>, table: seq<Statistics>, route: string)
    requires TableSoFar(data, metrics, table, {}, route, {})
    ensures forall e :: e in data ==> PairOf(e) in Pairs(table)
    ensures TotalSize(table) == |data|
    ensures forall k :: 0 <= k < |metrics| ==> WeightedMeans(table, metrics[k], k) == Total(data, metrics[k])
  {
    hide RowExact, Groups;
    GroupsArePartition(data, PairOf, Pairs(table));
    SizesAreGroups(data, metrics, table);
    var groups := Groups(data, PairOf, Pairs(table));
    assert |multiset(groups)| == |multiset(data)|;
    forall k | 0 <= k < |metrics|
      ensures WeightedMeans(table, metrics[k], k) == Total(data, metrics[k])
    {
      WeightedMeansAreTotals(data, metrics, table, k);
      TotalOfPermutation(groups, data, metrics[k]);
    }
  }

  /**
   * The table has one row for each occurring pair of route and test type, with exactly
   * its entries and their figures, in whatever order the sets are walked.
   */
  method GenerateStatisticsTable(data: seq<Row>, metrics: seq<Metric>) returns (table: seq<Statistics>)
    ensures RowsExact(data, metrics, table) && NoDup(Pairs(table))
    ensures forall e :: e in data ==> PairOf(e) in Pairs(table)
    ensures TotalSize(table) == |data|
    ensures forall k :: 0 <= k < |metrics| ==> WeightedMeans(table, metrics[k], k) == Total(data, metrics[k])
  {
    hide RowsExact, NoDup, Pairs, TotalSize, Groups, Select, FiguresExact, Total;
    table := [];
    var routes := set e | e in data :: e.route;
    EmptyTable(data, metrics, routes);
    while routes != {}
      invariant TableSoFar(data, metrics, table, routes, "", {})
      invariant forall r :: r in routes ==> exists e :: e in data && e.route == r
    {
      var route :| route in routes;
      routes := routes - {route};
      var types := set e | e in data && e.route == route :: e.testType;
      assert TableSoFar(data, metrics, table, routes, route, types);
      while types != {}
        invariant TableSoFar(data, metrics, table, routes, route, types)
        invariant forall t :: t in types ==> exists e :: e in data && PairOf(e) == (route, t)
      {
        var testType :| testType in types;
        var subset := GroupOf(data, PairOf, (route, testType));
        var figures := ComputeFigures(subset, metrics);
        var row := Statistics(route, testType, subset, figures);
        RowAdded(data, metrics, table, routes, types, row);
        table := table + [row];
        types := types - {testType};
      }
    }
    TableComplete(data, metrics, table, "");
  }

  /** The figures of each metric in the entries of one row. */
  method ComputeFigures(subset: seq<Row>, metrics: seq<Metric>) returns (figures: seq<Option<Figures>>)
    ensures FiguresExact(subset, metrics, figures)
  {
    hide FiguresOf, ValuesOf, MetricExact;
    figures := [];
    for k := 0 to |metrics|
      invariant FiguresExact(subset, metrics[..k], figures)
    {
      MetricFigures(subset, metrics[k]);
      figures := figures + [FiguresOf(ValuesOf(subset, metrics[k]))];
    }
    assert metrics[..|metrics|] == metrics;
  }

  lemma NoFigures(values: seq<real>)
    ensures FiguresOf(values).None? <==> values == []
  {
  }

  lemma MetricFigures(rows: seq<Row>, metric: Metric)
    ensures MetricExact(rows, metric, FiguresOf(ValuesOf(rows, metric)))
  {
    hide FiguresOf, ValuesOf, PlacesAre, AreFigures;
    FiguresOfAre(ValuesOf(rows, metric));
    NoValues(rows, metric);
    var at := ValuesExact(rows, metric);
    NoFigures(ValuesOf(rows, metric));
  }

  lemma EmptyTable(data: seq<Row>, metrics: seq<Metric>, routes: set<string>)
    requires forall e :: e in data ==> e.route in routes
    ensures TableSoFar(data, metrics, [], routes, "", {})
  {
  }
}
