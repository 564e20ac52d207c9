/** `DataFrame.groupby(key).agg(...)` with the default `sort=True` and
    `dropna=True`: one output row per distinct non-missing key, keys ascending,
    and sum or mean reducers that skip missing values
    (sales_data_analysis.py:62, 76, 97, 152, 174, 195). */
module GroupBy {
  import opened Wrappers
  import opened Cells

  predicate StrictlyAscending(ks: seq<Cell>)
  {
    forall i, j :: 0 <= i < j < |ks| ==> CellLess(ks[i], ks[j])
  }

  /** Adds a key to an ascending key list, unless it is already there. */
  function InsertKey(ks: seq<Cell>, k: Cell): (r: seq<Cell>)
    requires StrictlyAscending(ks)
    ensures StrictlyAscending(r)
    ensures forall x :: x in r <==> x in ks || x == k
  {
    if ks == [] then [k]
    else if k == ks[0] then ks
    else if CellLess(k, ks[0]) then
      InsertBeforeAll(ks, k);
      [k] + ks
    else
      CellLessTotal(k, ks[0]);
      var rest := InsertKey(ks[1..], k);
      HeadBelowAll(ks, k, rest);
      [ks[0]] + rest
  }

  lemma InsertBeforeAll(ks: seq<Cell>, k: Cell)
    requires StrictlyAscending(ks) && ks != [] && CellLess(k, ks[0])
    ensures StrictlyAscending([k] + ks)
  {
    forall j | 0 < j < |ks|
      ensures CellLess(k, ks[j])
    {
      CellLessTransitive(k, ks[0], ks[j]);
    }
  }

  lemma HeadBelowAll(ks: seq<Cell>, k: Cell, rest: seq<Cell>)
    requires StrictlyAscending(ks) && ks != [] && CellLess(ks[0], k)
    requires StrictlyAscending(rest)
    requires forall x :: x in rest <==> x in ks[1..] || x == k
    ensures StrictlyAscending([ks[0]] + rest)
  {
    forall j | 0 <= j < |rest|
      ensures CellLess(ks[0], rest[j])
    {
      assert rest[j] in rest;
      if rest[j] != k {
        var m :| 0 <= m < |ks[1..]| && ks[1..][m] == rest[j];
        assert ks[m + 1] == rest[j];
      }
    }
  }

  /** The group keys: the distinct non-missing values of the key column, ascending. */
  function GroupKeys(keys: seq<Cell>): (r: seq<Cell>)
    ensures StrictlyAscending(r)
    ensures forall x :: x in r <==> x in keys && !x.Missing?
  {
    if keys == [] then []
    else
      var front, k := keys[..|keys| - 1], keys[|keys| - 1];
      assert keys == front + [k];
      var g := GroupKeys(front);
      if k.Missing? then g else InsertKey(g, k)
  }

  /** Ascending keys are distinct. */
  lemma AscendingDistinct(ks: seq<Cell>, i: int, j: int)
    requires StrictlyAscending(ks) && 0 <= i < |ks| && 0 <= j < |ks| && i != j
    ensures ks[i] != ks[j]
  {
    if i < j {
      CellLessIrreflexive(ks[i]);
    } else {
      CellLessIrreflexive(ks[j]);
    }
  }

  /** What a reducer adds for one row: the number in the cell, or nothing. */
  function Amount(c: Cell): real
  {
    if c.Num? then c.v else 0.0
  }

  /** The sum of the numbers of the rows whose key is `k`; missing values are
      skipped, so a group without numbers sums to zero, and a group of
      non-negative numbers to a non-negative total. */
  function GroupTotal(keys: seq<Cell>, vals: seq<Cell>, k: Cell): (r: real)
    requires |keys| == |vals|
    ensures (forall i :: 0 <= i < |keys| && keys[i] == k ==> !vals[i].Num?) ==> r == 0.0
    ensures (forall i :: 0 <= i < |keys| && keys[i] == k && vals[i].Num? ==> vals[i].v >= 0.0) ==> r >= 0.0
  {
    if keys == [] then 0.0
    else
      assert forall i :: 1 <= i < |keys| ==> keys[i] == keys[1..][i - 1] && vals[i] == vals[1..][i - 1];
      (if keys[0] == k then Amount(vals[0]) else 0.0) + GroupTotal(keys[1..], vals[1..], k)
  }

  /** The number of rows whose key is `k` and whose value is a number. */
  function GroupCount(keys: seq<Cell>, vals: seq<Cell>, k: Cell): nat
    requires |keys| == |vals|
  {
    if keys == [] then 0
    else (if keys[0] == k && vals[0].Num? then 1 else 0) + GroupCount(keys[1..], vals[1..], k)
  }

  /** A group holds no number exactly when its count is zero, and then its sum is zero. */
  lemma {:induction false} EmptyGroup(keys: seq<Cell>, vals: seq<Cell>, k: Cell)
    requires |keys| == |vals|
    ensures GroupCount(keys, vals, k) == 0 <==> forall i :: 0 <= i < |keys| && keys[i] == k ==> !vals[i].Num?
    ensures GroupCount(keys, vals, k) == 0 ==> GroupTotal(keys, vals, k) == 0.0
  {
    if keys != [] {
      EmptyGroup(keys[1..], vals[1..], k);
      assert forall i :: 1 <= i < |keys| ==> keys[i] == keys[1..][i - 1] && vals[i] == vals[1..][i - 1];
    }
  }

  /** The mean of the numbers of the rows whose key is `k`, missing when there are none. */
  function GroupMean(keys: seq<Cell>, vals: seq<Cell>, k: Cell): (r: Option<real>)
    requires |keys| == |vals|
    ensures r.None? <==> forall i :: 0 <= i < |keys| && keys[i] == k ==> !vals[i].Num?
    ensures r.Some? ==> r.value * GroupCount(keys, vals, k) as real == GroupTotal(keys, vals, k)
  {
    EmptyGroup(keys, vals, k);
    var n := GroupCount(keys, vals, k);
    if n == 0 then None
    else
      var t := GroupTotal(keys, vals, k);
      DivideTimes(t, n as real);
      Some(t / n as real)
  }

  lemma DivideTimes(t: real, n: real)
    requires n != 0.0
    ensures (t / n) * n == t
  {
  }

  /** `lo` added up `n` times. */
  function Times(n: nat, lo: real): real
  {
    if n == 0 then 0.0 else lo + Times(n - 1, lo)
  }

  /** Bounds of every number in the group bound the group's total. */
  lemma {:induction false} GroupTotalBounds(keys: seq<Cell>, vals: seq<Cell>, k: Cell, lo: real, hi: real)
    requires |keys| == |vals|
    requires forall i :: 0 <= i < |keys| && keys[i] == k && vals[i].Num? ==> lo <= vals[i].v <= hi
    ensures Times(GroupCount(keys, vals, k), lo) <= GroupTotal(keys, vals, k) <= Times(GroupCount(keys, vals, k), hi)
  {
    if keys != [] {
      var ks, vs := keys[1..], vals[1..];
      assert forall i :: 0 <= i < |ks| ==> ks[i] == keys[i + 1] && vs[i] == vals[i + 1];
      GroupTotalBounds(ks, vs, k, lo, hi);
    }
  }

  lemma {:induction false} TimesIsProduct(n: nat, x: real)
    ensures Times(n, x) == n as real * x
  {
    if n > 0 {
      TimesIsProduct(n - 1, x);
    }
  }

  /** A group's mean lies between the smallest and the largest number in the group. */
  lemma GroupMeanBounds(keys: seq<Cell>, vals: seq<Cell>, k: Cell, lo: real, hi: real)
    requires |keys| == |vals|
    requires forall i :: 0 <= i < |keys| && keys[i] == k && vals[i].Num? ==> lo <= vals[i].v <= hi
    ensures GroupMean(keys, vals, k).Some? ==> lo <= GroupMean(keys, vals, k).value <= hi
  {
    var n := GroupCount(keys, vals, k);
    var t := GroupTotal(keys, vals, k);
    GroupTotalBounds(keys, vals, k, lo, hi);
    if n > 0 {
      assert GroupMean(keys, vals, k) == Some(t / n as real);
      MeanOfBounded(t, n, lo, hi);
    }
  }

  lemma MeanOfBounded(t: real, n: nat, lo: real, hi: real)
    requires n > 0 && Times(n, lo) <= t <= Times(n, hi)
    ensures lo <= t / n as real <= hi
  {
    TimesIsProduct(n, lo);
    TimesIsProduct(n, hi);
    DivideBounds(t, n as real, lo, hi);
  }

  lemma DivideBounds(t: real, n: real, lo: real, hi: real)
    requires n > 0.0 && n * lo <= t <= n * hi
    ensures lo <= t / n <= hi
  {
    assert (t / n) * n == t;
  }

  /** The sum of the numbers of the rows whose key is not missing. */
  function KeyedTotal(keys: seq<Cell>, vals: seq<Cell>): real
    requires |keys| == |vals|
  {
    if keys == [] then 0.0
    else (if keys[0].Missing? then 0.0 else Amount(vals[0])) + KeyedTotal(keys[1..], vals[1..])
  }

  /** The group totals of the keys `ks`, added up. */
  function SumOverKeys(ks: seq<Cell>, keys: seq<Cell>, vals: seq<Cell>): real
    requires |keys| == |vals|
  {
    if ks == [] then 0.0 else GroupTotal(keys, vals, ks[0]) + SumOverKeys(ks[1..], keys, vals)
  }

  predicate NoDuplicates(ks: seq<Cell>)
  {
    forall i, j :: 0 <= i < j < |ks| ==> ks[i] != ks[j]
  }

  lemma {:induction false} SumOverNoRows(ks: seq<Cell>)
    ensures SumOverKeys(ks, [], []) == 0.0
  {
    if ks != [] {
      SumOverNoRows(ks[1..]);
    }
  }

  /** Dropping the first row takes its number out of exactly one of distinct groups. */
  lemma {:induction false} SumOverFirstRow(ks: seq<Cell>, keys: seq<Cell>, vals: seq<Cell>)
    requires |keys| == |vals| && keys != []
    requires NoDuplicates(ks)
    ensures SumOverKeys(ks, keys, vals)
         == SumOverKeys(ks, keys[1..], vals[1..]) + (if keys[0] in ks then Amount(vals[0]) else 0.0)
  {
    if ks != [] {
      assert NoDuplicates(ks[1..]) by {
        forall i, j | 0 <= i < j < |ks[1..]|
          ensures ks[1..][i] != ks[1..][j]
        {
          assert ks[1..][i] == ks[i + 1] && ks[1..][j] == ks[j + 1];
        }
      }
      SumOverFirstRow(ks[1..], keys, vals);
      assert keys[0] == ks[0] ==> keys[0] !in ks[1..];
      assert keys[0] in ks <==> keys[0] == ks[0] || keys[0] in ks[1..];
    }
  }

  /** The group totals over any distinct keys that take in every non-missing key
      add up to the total of the rows whose key is not missing. */
  lemma {:induction false} SumOverAllGroups(ks: seq<Cell>, keys: seq<Cell>, vals: seq<Cell>)
    requires |keys| == |vals|
    requires NoDuplicates(ks)
    requires forall x :: x in ks <==> x in keys && !x.Missing?
    ensures SumOverKeys(ks, keys, vals) == KeyedTotal(keys, vals)
  {
    SumOverKeysCovering(ks, keys, vals);
  }

  lemma {:induction false} SumOverKeysCovering(ks: seq<Cell>, keys: seq<Cell>, vals: seq<Cell>)
    requires |keys| == |vals|
    requires NoDuplicates(ks)
    requires Missing !in ks
    requires forall i :: 0 <= i < |keys| && !keys[i].Missing? ==> keys[i] in ks
    ensures SumOverKeys(ks, keys, vals) == KeyedTotal(keys, vals)
  {
    if keys == [] {
      SumOverNoRows(ks);
    } else {
      SumOverFirstRow(ks, keys, vals);
      assert forall i :: 1 <= i < |keys| ==> keys[i] == keys[1..][i - 1];
      SumOverKeysCovering(ks, keys[1..], vals[1..]);
      assert keys[0] in ks <==> !keys[0].Missing?;
    }
  }

  /** The two reducers the script uses. */
  datatype Reducer = Sum | Mean

  function Reduce(red: Reducer, keys: seq<Cell>, vals: seq<Cell>, k: Cell): Option<real>
    requires |keys| == |vals|
  {
    match red
    case Sum => Some(GroupTotal(keys, vals, k))
    case Mean => GroupMean(keys, vals, k)
  }

  /** One row of a grouped table: the key, then one aggregate per value column. */
  datatype GroupRow = GroupRow(key: Cell, aggs: seq<Option<real>>)

  predicate SameHeight(keys: seq<Cell>, cols: seq<seq<Cell>>)
  {
    forall c :: 0 <= c < |cols| ==> |cols[c]| == |keys|
  }

  function Aggregates(red: Reducer, keys: seq<Cell>, cols: seq<seq<Cell>>, k: Cell): (r: seq<Option<real>>)
    requires SameHeight(keys, cols)
    ensures |r| == |cols|
    ensures forall c :: 0 <= c < |cols| ==> r[c] == Reduce(red, keys, cols[c], k)
  {
    seq(|cols|, c requires 0 <= c < |cols| => Reduce(red, keys, cols[c], k))
  }

  function GroupRows(ks: seq<Cell>, red: Reducer, keys: seq<Cell>, cols: seq<seq<Cell>>): (r: seq<GroupRow>)
    requires SameHeight(keys, cols)
    ensures |r| == |ks|
    ensures forall g :: 0 <= g < |ks| ==> r[g] == GroupRow(ks[g], Aggregates(red, keys, cols, ks[g]))
  {
    if ks == [] then [] else [GroupRow(ks[0], Aggregates(red, keys, cols, ks[0]))] + GroupRows(ks[1..], red, keys, cols)
  }

  /** `df.groupby(key).agg({col: red, ...})`: one row per distinct non-missing
      key, ascending, each holding the reductions of its own group. */
  function GroupByAgg(keys: seq<Cell>, cols: seq<seq<Cell>>, red: Reducer): (r: seq<GroupRow>)
    requires SameHeight(keys, cols)
    ensures forall g, h :: 0 <= g < h < |r| ==> CellLess(r[g].key, r[h].key)
    ensures forall x :: (exists g :: 0 <= g < |r| && r[g].key == x) <==> x in keys && !x.Missing?
    ensures forall g, c :: 0 <= g < |r| && 0 <= c < |cols| ==>
      |r[g].aggs| == |cols| && r[g].aggs[c] == Reduce(red, keys, cols[c], r[g].key)
  {
    var ks := GroupKeys(keys);
    var r := GroupRows(ks, red, keys, cols);
    r
  }

  /** The aggregate in column `c` of a grouped table, added up over its rows. */
  function ColumnTotal(rows: seq<GroupRow>, c: nat): real
  {
    if rows == [] then 0.0
    else (if c < |rows[0].aggs| && rows[0].aggs[c].Some? then rows[0].aggs[c].value else 0.0) + ColumnTotal(rows[1..], c)
  }

  lemma {:induction false} ColumnTotalOfSums(ks: seq<Cell>, keys: seq<Cell>, cols: seq<seq<Cell>>, c: nat)
    requires SameHeight(keys, cols) && c < |cols|
    ensures ColumnTotal(GroupRows(ks, Sum, keys, cols), c) == SumOverKeys(ks, keys, cols[c])
  {
    if ks != [] {
      var rows := GroupRows(ks, Sum, keys, cols);
      assert rows[1..] == GroupRows(ks[1..], Sum, keys, cols);
      ColumnTotalOfSums(ks[1..], keys, cols, c);
    }
  }

  /** Summing by group conserves the total: the group sums of a value column add
      up to that column's sum over the rows whose key is not missing. */
  lemma GroupSumsConserveTotal(keys: seq<Cell>, cols: seq<seq<Cell>>, c: nat)
    requires SameHeight(keys, cols) && c < |cols|
    ensures ColumnTotal(GroupByAgg(keys, cols, Sum), c) == KeyedTotal(keys, cols[c])
  {
    var ks := GroupKeys(keys);
    ColumnTotalOfSums(ks, keys, cols, c);
    forall i, j | 0 <= i < j < |ks|
      ensures ks[i] != ks[j]
    {
      AscendingDistinct(ks, i, j);
    }
    SumOverAllGroups(ks, keys, cols[c]);
  }

  /** Sums are never missing: an empty or all-missing group sums to zero. */
  lemma GroupSumsPresent(keys: seq<Cell>, cols: seq<seq<Cell>>)
    requires SameHeight(keys, cols)
    ensures forall g, c :: 0 <= g < |GroupByAgg(keys, cols, Sum)| && 0 <= c < |cols| ==>
      GroupByAgg(keys, cols, Sum)[g].aggs[c].Some?
  {
  }
}
