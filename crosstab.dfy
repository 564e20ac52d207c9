/** `pd.crosstab(df['Product'], df['Segment'])` (sales_data_analysis.py:163):
    a table of row counts, one row per product and one column per segment,
    labels ascending, rows where either value is missing left out, and zero
    where a pair never occurs. */
module CrossTab {
  import opened Cells
  import opened GroupBy

  /** The key column with every row whose partner value is missing masked out. */
  function PairedKeys(xs: seq<Cell>, ys: seq<Cell>): (r: seq<Cell>)
    requires |xs| == |ys|
    ensures |r| == |xs|
    ensures forall i :: 0 <= i < |r| ==> r[i] == if ys[i].Missing? then Missing else xs[i]
  {
    seq(|xs|, i requires 0 <= i < |xs| => if ys[i].Missing? then Missing else xs[i])
  }

  /** The number of rows holding exactly the pair (x, y). */
  function PairCount(xs: seq<Cell>, ys: seq<Cell>, x: Cell, y: Cell): nat
    requires |xs| == |ys|
  {
    if xs == [] then 0
    else (if xs[0] == x && ys[0] == y then 1 else 0) + PairCount(xs[1..], ys[1..], x, y)
  }

  /** The number of rows holding `x` whose partner value is not missing. */
  function LabelCount(xs: seq<Cell>, ys: seq<Cell>, x: Cell): nat
    requires |xs| == |ys|
  {
    if xs == [] then 0
    else (if xs[0] == x && !ys[0].Missing? then 1 else 0) + LabelCount(xs[1..], ys[1..], x)
  }

  /** The counts of `x` with each of the labels `ls`. */
  function CountsRow(xs: seq<Cell>, ys: seq<Cell>, x: Cell, ls: seq<Cell>): (r: seq<nat>)
    requires |xs| == |ys|
    ensures |r| == |ls|
    ensures forall b :: 0 <= b < |ls| ==> r[b] == PairCount(xs, ys, x, ls[b])
  {
    if ls == [] then [] else [PairCount(xs, ys, x, ls[0])] + CountsRow(xs, ys, x, ls[1..])
  }

  function RowSum(counts: seq<nat>): nat
  {
    if counts == [] then 0 else counts[0] + RowSum(counts[1..])
  }

  datatype CrossTable = CrossTable(rowLabels: seq<Cell>, colLabels: seq<Cell>, counts: seq<seq<nat>>)

  function CrossTabulate(xs: seq<Cell>, ys: seq<Cell>): (t: CrossTable)
    requires |xs| == |ys|
    ensures |t.counts| == |t.rowLabels|
    ensures forall a :: 0 <= a < |t.counts| ==> |t.counts[a]| == |t.colLabels|
  {
    var rl := GroupKeys(PairedKeys(xs, ys));
    var cl := GroupKeys(PairedKeys(ys, xs));
    CrossTable(rl, cl, seq(|rl|, a requires 0 <= a < |rl| => CountsRow(xs, ys, rl[a], cl)))
  }

  /** The labels are the values that occur with a non-missing partner, ascending;
      each cell counts the rows holding exactly its pair. */
  lemma CrossTabulateCells(xs: seq<Cell>, ys: seq<Cell>)
    requires |xs| == |ys|
    ensures var t := CrossTabulate(xs, ys);
      && StrictlyAscending(t.rowLabels) && StrictlyAscending(t.colLabels)
      && (forall x :: x in t.rowLabels <==>
            exists i :: 0 <= i < |xs| && xs[i] == x && !x.Missing? && !ys[i].Missing?)
      && (forall y :: y in t.colLabels <==>
            exists i :: 0 <= i < |ys| && ys[i] == y && !y.Missing? && !xs[i].Missing?)
      && (forall a, b :: 0 <= a < |t.rowLabels| && 0 <= b < |t.colLabels| ==>
            t.counts[a][b] == PairCount(xs, ys, t.rowLabels[a], t.colLabels[b]))
  {
    PairedLabels(xs, ys);
    PairedLabels(ys, xs);
  }

  /** The present values of the masked column are the values that occur with a
      present partner. */
  lemma PairedLabels(xs: seq<Cell>, ys: seq<Cell>)
    requires |xs| == |ys|
    ensures forall x :: x in PairedKeys(xs, ys) && !x.Missing? <==>
      exists i :: 0 <= i < |xs| && xs[i] == x && !x.Missing? && !ys[i].Missing?
  {
    var px := PairedKeys(xs, ys);
    forall x
      ensures x in px && !x.Missing? <==> exists i :: 0 <= i < |xs| && xs[i] == x && !x.Missing? && !ys[i].Missing?
    {
      if x in px && !x.Missing? {
        var i :| 0 <= i < |px| && px[i] == x;
      }
      if exists i :: 0 <= i < |xs| && xs[i] == x && !x.Missing? && !ys[i].Missing? {
        var i :| 0 <= i < |xs| && xs[i] == x && !x.Missing? && !ys[i].Missing?;
        assert px[i] == x;
      }
    }
  }

  lemma {:induction false} PairCountSymmetric(xs: seq<Cell>, ys: seq<Cell>, x: Cell, y: Cell)
    requires |xs| == |ys|
    ensures PairCount(xs, ys, x, y) == PairCount(ys, xs, y, x)
  {
    if xs != [] {
      PairCountSymmetric(xs[1..], ys[1..], x, y);
    }
  }

  lemma {:induction false} CountsNoRows(x: Cell, ls: seq<Cell>)
    ensures RowSum(CountsRow([], [], x, ls)) == 0
  {
    if ls != [] {
      CountsNoRows(x, ls[1..]);
    }
  }

  lemma {:induction false} CountsFirstRow(xs: seq<Cell>, ys: seq<Cell>, x: Cell, ls: seq<Cell>)
    requires |xs| == |ys| && xs != []
    requires NoDuplicates(ls)
    ensures RowSum(CountsRow(xs, ys, x, ls))
         == RowSum(CountsRow(xs[1..], ys[1..], x, ls)) + (if xs[0] == x && ys[0] in ls then 1 else 0)
  {
    if ls != [] {
      assert NoDuplicates(ls[1..]) by {
        forall i, j | 0 <= i < j < |ls[1..]|
          ensures ls[1..][i] != ls[1..][j]
        {
          assert ls[1..][i] == ls[i + 1] && ls[1..][j] == ls[j + 1];
        }
      }
      CountsFirstRow(xs, ys, x, ls[1..]);
      assert ys[0] == ls[0] ==> ys[0] !in ls[1..];
      assert ys[0] in ls <==> ys[0] == ls[0] || ys[0] in ls[1..];
    }
  }

  /** Counting `x` against distinct labels that take in every partner of `x`
      counts each of its rows with a non-missing partner exactly once. */
  lemma {:induction false} CountsRowSum(xs: seq<Cell>, ys: seq<Cell>, x: Cell, ls: seq<Cell>)
    requires |xs| == |ys|
    requires NoDuplicates(ls) && Missing !in ls
    requires forall i :: 0 <= i < |xs| && xs[i] == x && !ys[i].Missing? ==> ys[i] in ls
    ensures RowSum(CountsRow(xs, ys, x, ls)) == LabelCount(xs, ys, x)
  {
    if xs == [] {
      CountsNoRows(x, ls);
    } else {
      CountsFirstRow(xs, ys, x, ls);
      assert forall i :: 1 <= i < |xs| ==> xs[i] == xs[1..][i - 1] && ys[i] == ys[1..][i - 1];
      CountsRowSum(xs[1..], ys[1..], x, ls);
    }
  }

  lemma AscendingNoDuplicates(ks: seq<Cell>)
    requires StrictlyAscending(ks)
    ensures NoDuplicates(ks)
  {
    forall i, j | 0 <= i < j < |ks|
      ensures ks[i] != ks[j]
    {
      AscendingDistinct(ks, i, j);
    }
  }

  /** Each product's row of the table adds up to the number of rows of that
      product whose segment is not missing. */
  lemma CrossTabRowSums(xs: seq<Cell>, ys: seq<Cell>, a: nat)
    requires |xs| == |ys|
    requires a < |CrossTabulate(xs, ys).rowLabels|
    ensures RowSum(CrossTabulate(xs, ys).counts[a]) == LabelCount(xs, ys, CrossTabulate(xs, ys).rowLabels[a])
  {
    var t := CrossTabulate(xs, ys);
    var py := PairedKeys(ys, xs);
    AscendingNoDuplicates(t.colLabels);
    var x := t.rowLabels[a];
    assert !x.Missing?;
    forall i | 0 <= i < |xs| && xs[i] == x && !ys[i].Missing?
      ensures ys[i] in t.colLabels
    {
      assert py[i] == ys[i];
    }
    CountsRowSum(xs, ys, x, t.colLabels);
  }

  /** The counts in one column of the table. */
  function ColumnOf(t: CrossTable, b: nat): seq<nat>
    requires forall a :: 0 <= a < |t.counts| ==> b < |t.counts[a]|
  {
    seq(|t.counts|, a requires 0 <= a < |t.counts| => t.counts[a][b])
  }

  /** Each segment's column adds up to the number of rows of that segment whose
      product is not missing. */
  lemma CrossTabColumnSums(xs: seq<Cell>, ys: seq<Cell>, b: nat)
    requires |xs| == |ys|
    requires b < |CrossTabulate(xs, ys).colLabels|
    ensures RowSum(ColumnOf(CrossTabulate(xs, ys), b)) == LabelCount(ys, xs, CrossTabulate(xs, ys).colLabels[b])
  {
    var t := CrossTabulate(xs, ys);
    var px := PairedKeys(xs, ys);
    AscendingNoDuplicates(t.rowLabels);
    var y := t.colLabels[b];
    assert !y.Missing?;
    forall i | 0 <= i < |ys| && ys[i] == y && !xs[i].Missing?
      ensures xs[i] in t.rowLabels
    {
      assert px[i] == xs[i];
    }
    var col := ColumnOf(t, b);
    forall a | 0 <= a < |col|
      ensures col[a] == CountsRow(ys, xs, y, t.rowLabels)[a]
    {
      PairCountSymmetric(xs, ys, t.rowLabels[a], y);
    }
    assert col == CountsRow(ys, xs, y, t.rowLabels);
    CountsRowSum(ys, xs, y, t.rowLabels);
  }
}
