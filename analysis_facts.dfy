/** When the script raises `KeyError`, what its final table holds, and what
    its trend and monthly summaries add up to. */
module AnalysisFacts {
  import opened Wrappers
  import opened Cells
  import opened GroupBy
  import opened Frames
  import opened Pipeline
  import Dates
  import opened CleaningFacts

  /** How the analysis is put together: the clean-up, then the rest. */
  lemma AnalyseStages(f: Frame)
    requires WellFormed(f) && Analyse(f).Ok?
    ensures Cleaned(Prepare(f)).Ok? && Analyse(f) == AnalyseCleaned(Cleaned(Prepare(f)).value)
  {
  }

  /** How the rest of the analysis is put together from its stages. */
  lemma AnalyseCleanedStages(g: Frame)
    requires WellFormed(g) && HasNumericColumns(g.names) && AnalyseCleaned(g).Ok?
    ensures var a := AnalyseCleaned(g).value;
      && Totalled(g).Ok? && a.totals == Totalled(g).value
      && Dated(g).Ok? && a.frame == Dated(g).value
      && Summarised(a.frame).Ok? && a.summaries == Summarised(a.frame).value
  {
  }

  /** After the clean-up the script raises `KeyError` exactly when one of
      the grouping keys is not a column. */
  lemma AnalyseCleanedSucceeds(g: Frame)
    requires WellFormed(g) && HasNumericColumns(g.names)
    ensures AnalyseCleaned(g).Ok? <==>
      "Date" in g.names && "Segment" in g.names && "Country" in g.names && "Product" in g.names
    ensures AnalyseCleaned(g).KeyError? ==>
      AnalyseCleaned(g).column in ["Date", "Segment", "Country", "Product"] && AnalyseCleaned(g).column !in g.names
  {
    if Totalled(g).Ok? {
      assert Dated(g).Ok?;
    }
  }

  /** The script raises `KeyError` exactly when the loaded table, after the
      name clean-up, lacks a column it looks up, and it names such a column. */
  lemma AnalyseSucceeds(f: Frame)
    requires WellFormed(f)
    ensures var names := Prepare(f).names;
      Analyse(f).Ok? <==>
        HasNumericColumns(names) && "Date" in names && "Segment" in names && "Country" in names && "Product" in names
    ensures Analyse(f).KeyError? ==> Analyse(f).column in Required && Analyse(f).column !in Prepare(f).names
  {
    var p := Prepare(f);
    if Cleaned(p).Ok? {
      AnalyseCleanedSucceeds(Cleaned(p).value);
      assert Analyse(f) == AnalyseCleaned(Cleaned(p).value);
    }
  }

  lemma SalesProfitColumns(g: Frame)
    requires WellFormed(g) && "Sales" in g.names && "Profit" in g.names
    ensures Columns(g, SalesProfit) == Ok([Column(g, "Sales").value, Column(g, "Profit").value])
  {
    var v := Columns(g, SalesProfit).value;
    assert SalesProfit[0] == "Sales" && SalesProfit[1] == "Profit";
    assert v == [v[0], v[1]];
  }

  /** The trend summary groups the Sales and Profit columns by Date. */
  lemma TrendStage(g: Frame)
    requires WellFormed(g) && "Sales" in g.names && "Profit" in g.names && Totalled(g).Ok?
    ensures "Date" in g.names
    ensures Totalled(g).value.trend
      == GroupByAgg(Column(g, "Date").value, [Column(g, "Sales").value, Column(g, "Profit").value], Sum)
  {
    SalesProfitColumns(g);
  }

  /** The monthly summary groups the Sales and Profit columns by Year-Month. */
  lemma SummarisedMonthly(d: Frame)
    requires WellFormed(d) && "Year-Month" in d.names && "Segment" in d.names && "Sales" in d.names && "Profit" in d.names
    requires "Manufacturing_Price" in d.names && "Sale_Price" in d.names && Summarised(d).Ok?
    ensures Summarised(d).value.monthly == Aggregate(d, "Year-Month", SalesProfit, Sum).value
  {
  }

  /** Sales and Profit totals per key: one row per distinct present key, each
      holding the two group totals. */
  lemma SumsByKey(keys: seq<Cell>, sales: seq<Cell>, profit: seq<Cell>)
    requires |keys| == |sales| == |profit|
    ensures var rows := GroupByAgg(keys, [sales, profit], Sum);
      && (forall x :: (exists r :: 0 <= r < |rows| && rows[r].key == x) <==> x in keys && !x.Missing?)
      && (forall r :: 0 <= r < |rows| ==>
            rows[r].aggs == [Some(GroupTotal(keys, sales, rows[r].key)), Some(GroupTotal(keys, profit, rows[r].key))])
  {
    var rows := GroupByAgg(keys, [sales, profit], Sum);
    forall r | 0 <= r < |rows|
      ensures rows[r].aggs == [Some(GroupTotal(keys, sales, rows[r].key)), Some(GroupTotal(keys, profit, rows[r].key))]
    {
      assert rows[r].aggs[0] == Reduce(Sum, keys, sales, rows[r].key);
      assert rows[r].aggs[1] == Reduce(Sum, keys, profit, rows[r].key);
    }
  }

  /** The trend summary has one row per distinct Date value of the cleaned
      table (the dates are still raw text when it is grouped), holding that
      date's Sales and Profit totals. */
  lemma TrendOfCleaned(g: Frame)
    requires WellFormed(g) && HasNumericColumns(g.names) && AnalyseCleaned(g).Ok?
    ensures var trend := AnalyseCleaned(g).value.totals.trend;
      var dates := Column(g, "Date").value;
      var sales := Column(g, "Sales").value;
      var profit := Column(g, "Profit").value;
      && (forall x :: (exists r :: 0 <= r < |trend| && trend[r].key == x) <==> x in dates && !x.Missing?)
      && (forall r :: 0 <= r < |trend| ==>
            trend[r].aggs == [Some(GroupTotal(dates, sales, trend[r].key)), Some(GroupTotal(dates, profit, trend[r].key))])
  {
    AnalyseCleanedStages(g);
    TrendStage(g);
    SumsByKey(Column(g, "Date").value, Column(g, "Sales").value, Column(g, "Profit").value);
  }

  /** Grouping two columns by the month of each parsed date adds up the rows
      whose date parses. */
  lemma MonthlyTotals(months: seq<Cell>, dates: seq<Cell>, sales: seq<Cell>, profit: seq<Cell>)
    requires |months| == |dates| == |sales| == |profit|
    requires forall i :: 0 <= i < |months| ==> (months[i].Missing? <==> !Dates.ToDateCell(dates[i]).Day?)
    ensures var rows := GroupByAgg(months, [sales, profit], Sum);
      && ColumnTotal(rows, 0) == ParsedTotal(dates, sales)
      && ColumnTotal(rows, 1) == ParsedTotal(dates, profit)
  {
    var cols := [sales, profit];
    GroupSumsConserveTotal(months, cols, 0);
    GroupSumsConserveTotal(months, cols, 1);
    MonthKeyedTotal(months, dates, sales);
    MonthKeyedTotal(months, dates, profit);
  }

  /** After the date steps the Sales and Profit columns are unchanged and a
      month is missing exactly where the date text does not parse. */
  lemma DatedMonths(g: Frame)
    requires WellFormed(g) && "Date" in g.names && "Sales" in g.names && "Profit" in g.names
    ensures var d := Dated(g).value;
      && Column(d, "Sales") == Column(g, "Sales") && Column(d, "Profit") == Column(g, "Profit")
      && |Column(d, "Year-Month").value| == |Column(g, "Date").value|
      && (forall i :: 0 <= i < g.height ==>
            (Column(d, "Year-Month").value[i].Missing? <==> !Dates.ToDateCell(Column(g, "Date").value[i]).Day?))
  {
    DatedColumns(g);
  }

  /** The monthly summary adds up the Sales and the Profit of exactly the rows
      whose Date text parses. */
  lemma MonthlyOfCleaned(g: Frame)
    requires WellFormed(g) && HasNumericColumns(g.names) && AnalyseCleaned(g).Ok?
    ensures var monthly := AnalyseCleaned(g).value.summaries.monthly;
      var dates := Column(g, "Date").value;
      && ColumnTotal(monthly, 0) == ParsedTotal(dates, Column(g, "Sales").value)
      && ColumnTotal(monthly, 1) == ParsedTotal(dates, Column(g, "Profit").value)
  {
    AnalyseCleanedStages(g);
    var d := Dated(g).value;
    SummarisedMonthly(d);
    SalesProfitColumns(d);
    DatedMonths(g);
    MonthlyTotals(Column(d, "Year-Month").value, Column(g, "Date").value, Column(g, "Sales").value, Column(g, "Profit").value);
  }

  /** The analysis of a loaded table is the rest of the analysis run on its
      cleaned table, whose Date column is the loaded one. */
  lemma CleanedBridge(f: Frame)
    requires WellFormed(f) && Analyse(f).Ok?
    ensures Cleaned(Prepare(f)).Ok?
    ensures var g := Cleaned(Prepare(f)).value;
      && WellFormed(g) && HasNumericColumns(g.names) && g.height == f.height
      && Analyse(f) == AnalyseCleaned(g)
      && "Date" in Prepare(f).names && Column(g, "Date") == Column(Prepare(f), "Date")
  {
    AnalyseStages(f);
    CleanedDate(Prepare(f));
  }

  lemma CleanedDate(p: Frame)
    requires WellFormed(p) && Cleaned(p).Ok? && "Date" in p.names
    ensures Column(Cleaned(p).value, "Date") == Column(p, "Date")
  {
    DateNotNumeric();
    CleanedOther(p, "Date");
  }

  lemma DateNotNumeric()
    ensures "Date" !in NumericColumns
  {
  }

  /** The final table keeps the cleaned Sales and Profit columns. */
  lemma FrameSalesProfit(g: Frame)
    requires WellFormed(g) && HasNumericColumns(g.names) && AnalyseCleaned(g).Ok?
    ensures var d := AnalyseCleaned(g).value.frame;
      Column(d, "Sales") == Column(g, "Sales") && Column(d, "Profit") == Column(g, "Profit")
  {
    AnalyseCleanedStages(g);
    DatedMonths(g);
  }

  /** The final table, cell by cell: every column of the loaded table but the
      dates holds its cleaned cells, the Date column holds the parsed dates,
      and the Year-Month column holds their months (missing exactly where the
      date is). */
  lemma FinalTable(f: Frame)
    requires WellFormed(f) && Analyse(f).Ok?
    ensures var a := Analyse(f).value;
      var p := Prepare(f);
      && (forall n, i :: n in p.names && n != "Date" && n != "Year-Month" && 0 <= i < f.height ==>
            Column(a.frame, n).value[i] == CleanedCell(n, Column(p, n).value[i]))
      && (forall i :: 0 <= i < f.height ==>
            Column(a.frame, "Date").value[i] == Dates.ToDateCell(Column(p, "Date").value[i]))
      && (forall i :: 0 <= i < f.height ==>
            Column(a.frame, "Year-Month").value[i] == Dates.ToPeriodCell(Column(a.frame, "Date").value[i])
            && (Column(a.frame, "Year-Month").value[i].Missing? <==> Column(a.frame, "Date").value[i].Missing?))
  {
    var p := Prepare(f);
    CleanedBridge(f);
    var g := Cleaned(p).value;
    AnalyseCleanedStages(g);
    CleanedColumns(p);
    DatedColumns(g);
  }

  /** The trend summary, in terms of the loaded table: one row per distinct
      raw Date value, holding the totals of that date's cleaned Sales and
      Profit. */
  lemma TrendByRawDate(f: Frame)
    requires WellFormed(f) && Analyse(f).Ok?
    ensures var a := Analyse(f).value;
      var raw := Column(Prepare(f), "Date").value;
      var sales := Column(a.frame, "Sales").value;
      var profit := Column(a.frame, "Profit").value;
      && (forall x :: (exists r :: 0 <= r < |a.totals.trend| && a.totals.trend[r].key == x) <==> x in raw && !x.Missing?)
      && (forall r :: 0 <= r < |a.totals.trend| ==>
            var k := a.totals.trend[r].key;
            a.totals.trend[r].aggs == [Some(GroupTotal(raw, sales, k)), Some(GroupTotal(raw, profit, k))])
  {
    CleanedBridge(f);
    var g := Cleaned(Prepare(f)).value;
    TrendOfCleaned(g);
    FrameSalesProfit(g);
  }

  /** The monthly summary, in terms of the loaded table: it adds up the cleaned
      Sales and Profit of exactly the rows whose raw Date text parses. */
  lemma MonthlyCoversParsedDates(f: Frame)
    requires WellFormed(f) && Analyse(f).Ok?
    ensures var a := Analyse(f).value;
      var raw := Column(Prepare(f), "Date").value;
      && ColumnTotal(a.summaries.monthly, 0) == ParsedTotal(raw, Column(a.frame, "Sales").value)
      && ColumnTotal(a.summaries.monthly, 1) == ParsedTotal(raw, Column(a.frame, "Profit").value)
  {
    CleanedBridge(f);
    var g := Cleaned(Prepare(f)).value;
    MonthlyOfCleaned(g);
    FrameSalesProfit(g);
  }
}
