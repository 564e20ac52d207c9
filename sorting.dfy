/** `sort_values(ascending=False)` on a grouped table, by its first aggregate
    column (sales_data_analysis.py:98, 195). Missing values go last, as with
    pandas' default `na_position='last'`. pandas' default sort is not stable,
    so only the order of the values and the permutation are specified; the
    insertion sort below is one order among those allowed. */
module Sorting {
  import opened Wrappers
  import opened Cells
  import opened GroupBy

  /** The value a row is sorted by. */
  function SortValue(r: GroupRow): Option<real>
  {
    if |r.aggs| > 0 then r.aggs[0] else None
  }

  /** `a` may come before `b` in descending order: missing values are the smallest. */
  predicate AtLeast(a: Option<real>, b: Option<real>)
  {
    b.None? || (a.Some? && a.value >= b.value)
  }

  predicate Descending(rows: seq<GroupRow>)
  {
    forall i, j :: 0 <= i < j < |rows| ==> AtLeast(SortValue(rows[i]), SortValue(rows[j]))
  }

  function InsertDescending(x: GroupRow, rows: seq<GroupRow>): (r: seq<GroupRow>)
    requires Descending(rows)
    ensures Descending(r)
    ensures multiset(r) == multiset(rows) + multiset{x}
  {
    if rows == [] then [x]
    else if AtLeast(SortValue(x), SortValue(rows[0])) then
      assert rows == [rows[0]] + rows[1..];
      [x] + rows
    else
      var rest := InsertDescending(x, rows[1..]);
      assert rows == [rows[0]] + rows[1..];
      HeadBoundsInsert(x, rows, rest);
      [rows[0]] + rest
  }

  /** Inserting below the head keeps the head first: it bounds every row of
      the insertion into the tail, so the head and that insertion are in
      descending order. */
  lemma HeadBoundsInsert(x: GroupRow, rows: seq<GroupRow>, rest: seq<GroupRow>)
    requires Descending(rows) && rows != [] && !AtLeast(SortValue(x), SortValue(rows[0]))
    requires Descending(rest) && multiset(rest) == multiset(rows[1..]) + multiset{x}
    ensures Descending([rows[0]] + rest)
  {
    forall j | 0 <= j < |rest|
      ensures AtLeast(SortValue(rows[0]), SortValue(rest[j]))
    {
      assert rest[j] in multiset(rest);
      if rest[j] != x {
        assert rest[j] in rows[1..];
        var m :| 0 <= m < |rows[1..]| && rows[1..][m] == rest[j];
        assert rows[m + 1] == rest[j];
      }
    }
  }

  /** The sorted table: the same rows, the values non-increasing, missing ones last. */
  function SortDescending(rows: seq<GroupRow>): (r: seq<GroupRow>)
    ensures Descending(r)
    ensures multiset(r) == multiset(rows)
  {
    if rows == [] then []
    else
      assert rows == [rows[0]] + rows[1..];
      InsertDescending(rows[0], SortDescending(rows[1..]))
  }

  /** Missing values come after every present one. */
  lemma MissingLast(rows: seq<GroupRow>, i: int, j: int)
    requires Descending(rows) && 0 <= i < j < |rows|
    requires SortValue(rows[i]).None?
    ensures SortValue(rows[j]).None?
  {
  }
}
