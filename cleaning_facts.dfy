/** What the clean-up and the date steps do to each column of the table. */
module CleaningFacts {
  import opened Wrappers
  import opened Cells
  import opened Coerce
  import opened Dates
  import opened GroupBy
  import opened Frames
  import opened Pipeline

  /** A column lookup is unaffected by appending a column of another name. */
  lemma {:induction false} IndexOfAppend(names: seq<string>, x: string, n: string)
    requires n in names
    ensures IndexOf(names + [x], n) == IndexOf(names, n)
  {
    if names[0] != n {
      assert (names + [x])[1..] == names[1..] + [x];
      IndexOfAppend(names[1..], x, n);
    }
  }

  /** A column appended under a new name is found at the end. */
  lemma {:induction false} IndexOfAppended(names: seq<string>, x: string)
    requires x !in names
    ensures IndexOf(names + [x], x) == Some(|names|)
  {
    if names != [] {
      assert (names + [x])[1..] == names[1..] + [x];
      IndexOfAppended(names[1..], x);
    }
  }

  /** What the clean-up leaves in a cell of column `n`: the listed numeric
      columns are cleaned, the discounts also filled, and the rest kept. */
  function CleanedCell(n: string, c: Cell): Cell
  {
    if n == "Discounts" then (if CleanCell(c).Missing? then Num(0.0) else CleanCell(c))
    else if n in NumericColumns then CleanCell(c)
    else c
  }

  /** Every cell of the cleaned table is `CleanedCell` of the same cell of the
      renamed table. */
  lemma CleanedColumns(p: Frame)
    requires WellFormed(p) && Cleaned(p).Ok?
    ensures forall n, i :: n in p.names && 0 <= i < p.height ==>
      Column(Cleaned(p).value, n).value[i] == CleanedCell(n, Column(p, n).value[i])
  {
    forall n, i | n in p.names && 0 <= i < p.height
      ensures Column(Cleaned(p).value, n).value[i] == CleanedCell(n, Column(p, n).value[i])
    {
      CleanedCellAt(p, n, i);
    }
  }

  lemma CleanedCellAt(p: Frame, n: string, i: nat)
    requires WellFormed(p) && Cleaned(p).Ok? && n in p.names && i < p.height
    ensures Column(Cleaned(p).value, n).value[i] == CleanedCell(n, Column(p, n).value[i])
  {
    if n == "Discounts" {
      CleanedDiscounts(p, i);
    } else if n in NumericColumns {
      CleanedListed(p, n, i);
    } else {
      CleanedOther(p, n);
    }
  }

  lemma CleanedDiscounts(p: Frame, i: nat)
    requires WellFormed(p) && Cleaned(p).Ok? && i < p.height
    ensures "Discounts" in p.names
    ensures var v := CleanCell(Column(p, "Discounts").value[i]);
      Column(Cleaned(p).value, "Discounts").value[i] == if v.Missing? then Num(0.0) else v
  {
    CleanedStages(p);
    HasNumericColumnsListed(p.names);
    CleanNumericCleans(p, NumericColumns, "Discounts");
  }

  lemma CleanedListed(p: Frame, n: string, i: nat)
    requires WellFormed(p) && Cleaned(p).Ok? && i < p.height && n in NumericColumns && n != "Discounts"
    ensures n in p.names
    ensures Column(Cleaned(p).value, n).value[i] == CleanCell(Column(p, n).value[i])
  {
    CleanedStages(p);
    HasNumericColumnsListed(p.names);
    CleanNumericCleans(p, NumericColumns, n);
  }

  lemma CleanedOther(p: Frame, n: string)
    requires WellFormed(p) && Cleaned(p).Ok? && n in p.names && n !in NumericColumns
    ensures Column(Cleaned(p).value, n) == Column(p, n)
  {
    CleanedStages(p);
    CleanNumericKeeps(p, NumericColumns, IndexOf(p.names, n).value);
    assert n != "Discounts";
  }

  /** How the clean-up is put together from the loop and the fill. */
  lemma CleanedStages(p: Frame)
    requires WellFormed(p) && Cleaned(p).Ok?
    ensures CleanNumeric(p, NumericColumns).missing.None?
    ensures Cleaned(p) == FillDiscounts(CleanNumeric(p, NumericColumns).frame)
  {
  }

  /** The date steps replace the Date column by its parse and put the month of
      each parsed date in the Year-Month column; every other column is kept. */
  lemma DatedColumns(f: Frame)
    requires WellFormed(f) && "Date" in f.names
    ensures var g := Dated(f).value;
      && (forall n :: n in f.names && n != "Date" && n != "Year-Month" ==> Column(g, n) == Column(f, n))
      && (forall i :: 0 <= i < f.height ==> Column(g, "Date").value[i] == ToDateCell(Column(f, "Date").value[i]))
      && (forall i :: 0 <= i < f.height ==> Column(g, "Year-Month").value[i] == ToPeriodCell(Column(g, "Date").value[i]))
  {
    var p := ParseDates(f).value;
    var g := Dated(f).value;
    if "Year-Month" !in f.names {
      IndexOfAppended(f.names, "Year-Month");
      IndexOfAppend(f.names, "Year-Month", "Date");
      forall n | n in f.names
        ensures IndexOf(g.names, n) == IndexOf(f.names, n)
      {
        IndexOfAppend(f.names, "Year-Month", n);
      }
    }
  }

  /** The sum of the numbers of the rows whose date text parses. */
  function ParsedTotal(dates: seq<Cell>, vals: seq<Cell>): real
    requires |dates| == |vals|
  {
    if dates == [] then 0.0
    else (if ToDateCell(dates[0]).Day? then Amount(vals[0]) else 0.0) + ParsedTotal(dates[1..], vals[1..])
  }

  /** Grouping by month keeps exactly the rows whose date parsed. */
  lemma {:induction false} MonthKeyedTotal(months: seq<Cell>, dates: seq<Cell>, vals: seq<Cell>)
    requires |months| == |dates| == |vals|
    requires forall i :: 0 <= i < |months| ==> (months[i].Missing? <==> !ToDateCell(dates[i]).Day?)
    ensures KeyedTotal(months, vals) == ParsedTotal(dates, vals)
  {
    if months != [] {
      MonthKeyedTotal(months[1..], dates[1..], vals[1..]);
    }
  }
}
