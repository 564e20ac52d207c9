/** The whole script as one computation on the loaded table: the clean-up
    steps, then the grouped summaries it charts (sales_data_analysis.py:62,
    :76, :97-98, :152, :163, :174, :195). Plotting, printing and the
    correlation matrix only read the table and are not modelled. */
module Pipeline {
  import opened Wrappers
  import opened Cells
  import opened GroupBy
  import opened Sorting
  import opened CrossTab
  import opened Frames
  import opened Tables

  /** The summaries drawn from the cleaned table, before its dates are parsed. */
  datatype Totals = Totals(
    trend: seq<GroupRow>,          // Sales and Profit totals per raw Date value
    segments: seq<GroupRow>,       // Sales and Profit totals per Segment
    countries: seq<GroupRow>)      // the same per Country, by Sales descending

  /** The summaries drawn from the table once the Year-Month column exists. */
  datatype Summaries = Summaries(
    monthly: seq<GroupRow>,        // Sales and Profit totals per Year-Month
    productSegments: CrossTable,   // row counts per Product and Segment
    prices: seq<GroupRow>,         // mean Manufacturing_Price and Sale_Price per Product
    segmentProfit: seq<GroupRow>)  // mean Profit per Segment, descending

  /** The final table and everything the script charts. */
  datatype Analysis = Analysis(frame: Frame, totals: Totals, summaries: Summaries)

  const SalesProfit: seq<string> := ["Sales", "Profit"]

  const Prices: seq<string> := ["Manufacturing_Price", "Sale_Price"]

  /** Every column name the script looks up in the table it loads. */
  const Required: seq<string> := NumericColumns + ["Date", "Segment", "Country", "Product"]

  /** The value columns an `.agg({v1: ..., v2: ...})` dictionary names: the
      columns, or `KeyError` for the first absent one. */
  function Columns(f: Frame, vals: seq<string>): (r: Result<seq<seq<Cell>>>)
    requires WellFormed(f)
    ensures r.Ok? <==> forall v :: v in vals ==> v in f.names
    ensures r.Ok? ==> |r.value| == |vals| && forall c :: 0 <= c < |vals| ==> r.value[c] == Column(f, vals[c]).value
    ensures r.KeyError? ==> r.column in vals && r.column !in f.names
  {
    if vals == [] then Ok([])
    else
      var first :- Column(f, vals[0]);
      var rest :- Columns(f, vals[1..]);
      Ok([first] + rest)
  }

  /** `df.groupby(key).agg({v: red for v in vals})`. */
  function Aggregate(f: Frame, key: string, vals: seq<string>, red: Reducer): (r: Result<seq<GroupRow>>)
    requires WellFormed(f)
    ensures r.Ok? <==> key in f.names && forall v :: v in vals ==> v in f.names
    ensures r.KeyError? ==> (r.column == key || r.column in vals) && r.column !in f.names
    ensures r.Ok? ==> r.value == GroupByAgg(Column(f, key).value, Columns(f, vals).value, red)
  {
    var keys :- Column(f, key);
    var cols :- Columns(f, vals);
    Ok(GroupByAgg(keys, cols, red))
  }

  /** The table after the name clean-up and rename (:16-20). */
  function Prepare(f: Frame): (r: Frame)
    requires WellFormed(f)
    ensures WellFormed(r) && r.cols == f.cols && r.height == f.height
  {
    f.(names := RenamedNames(NormalisedNames(f.names)))
  }

  /** The renamed table after the numeric cleaning and the discount fill
      (:39-57). It fails exactly when a listed numeric column is absent. */
  function Cleaned(f: Frame): (r: Result<Frame>)
    requires WellFormed(f)
    ensures r.Ok? <==> HasNumericColumns(f.names)
    ensures r.KeyError? ==> r.column in NumericColumns && r.column !in f.names
    ensures r.Ok? ==> WellFormed(r.value) && r.value.names == f.names && r.value.height == f.height
  {
    var c := CleanNumeric(f, NumericColumns);
    CleanNumericEffect(f, NumericColumns);
    HasNumericColumnsListed(f.names);
    if c.missing.Some? then KeyError(c.missing.value) else FillDiscounts(c.frame)
  }

  /** The table after the date parse and the Year-Month column (:142-147). */
  function Dated(f: Frame): (r: Result<Frame>)
    requires WellFormed(f)
    ensures r.Ok? <==> "Date" in f.names
    ensures r.Ok? ==> WellFormed(r.value) && r.value.height == f.height
    ensures r.Ok? ==> r.value.names == if "Year-Month" in f.names then f.names else f.names + ["Year-Month"]
  {
    var g :- ParseDates(f);
    AddYearMonth(g)
  }

  /** The three groupings of the cleaned table (:62, :76, :97-98); each
      raises `KeyError` when its key column is absent. */
  function Totalled(f: Frame): (r: Result<Totals>)
    requires WellFormed(f) && "Sales" in f.names && "Profit" in f.names
    ensures r.Ok? <==> "Date" in f.names && "Segment" in f.names && "Country" in f.names
    ensures r.KeyError? ==> r.column in ["Date", "Segment", "Country"] && r.column !in f.names
  {
    var trend :- Aggregate(f, "Date", SalesProfit, Sum);
    var segments :- Aggregate(f, "Segment", SalesProfit, Sum);
    var countries :- Aggregate(f, "Country", SalesProfit, Sum);
    Ok(Totals(trend, segments, SortDescending(countries)))
  }

  /** The summaries of the dated table (:152, :163, :174, :195). Every column
      they name but Product was found or added before, so only a missing
      Product column raises `KeyError`. */
  function Summarised(f: Frame): (r: Result<Summaries>)
    requires WellFormed(f)
    requires "Year-Month" in f.names && "Segment" in f.names && "Sales" in f.names && "Profit" in f.names
    requires "Manufacturing_Price" in f.names && "Sale_Price" in f.names
    ensures r.Ok? <==> "Product" in f.names
    ensures r.KeyError? ==> r.column == "Product"
  {
    var monthly := Aggregate(f, "Year-Month", SalesProfit, Sum).value;
    var products :- Column(f, "Product");
    var segs := Column(f, "Segment").value;
    var prices := Aggregate(f, "Product", Prices, Mean).value;
    var profits := Aggregate(f, "Segment", ["Profit"], Mean).value;
    Ok(Summaries(monthly, CrossTabulate(products, segs), prices, SortDescending(profits)))
  }

  /** The script from the cleaned table on: the groupings, the date steps
      and the summaries of the dated table (:62-195). */
  function AnalyseCleaned(f: Frame): (r: Result<Analysis>)
    requires WellFormed(f) && HasNumericColumns(f.names)
    ensures r.Ok? ==> "Date" in f.names && "Segment" in f.names && "Country" in f.names && "Product" in f.names
    ensures r.Ok? ==> WellFormed(r.value.frame) && r.value.frame.height == f.height
    ensures r.Ok? ==> r.value.frame.names == if "Year-Month" in f.names then f.names else f.names + ["Year-Month"]
    ensures r.Ok? ==> HasNumericColumns(r.value.frame.names) && "Year-Month" in r.value.frame.names
    ensures r.Ok? ==> "Date" in r.value.frame.names && "Segment" in r.value.frame.names && "Product" in r.value.frame.names
  {
    var totals :- Totalled(f);
    var f4 := Dated(f).value;
    var summaries :- Summarised(f4);
    Ok(Analysis(f4, totals, summaries))
  }

  /** The analysis of a table whose groupings succeed is decided by the
      summaries of its dated table. */
  lemma AnalyseCleanedSteps(f: Frame, f4: Frame)
    requires WellFormed(f) && HasNumericColumns(f.names) && Totalled(f).Ok? && Dated(f) == Ok(f4)
    ensures WellFormed(f4) && HasNumericColumns(f4.names) && "Year-Month" in f4.names && "Segment" in f4.names
    ensures AnalyseCleaned(f) == match Summarised(f4)
      case Ok(s) => Ok(Analysis(f4, Totalled(f).value, s))
      case KeyError(c) => KeyError(c)
  {
  }

  /** The script from the loaded table to its final table and summaries. */
  function Analyse(f: Frame): (r: Result<Analysis>)
    requires WellFormed(f)
    ensures r.Ok? ==> WellFormed(r.value.frame) && r.value.frame.height == f.height
    ensures r.Ok? ==> var names := Prepare(f).names;
      && HasNumericColumns(names) && "Date" in names && "Segment" in names && "Country" in names && "Product" in names
      && r.value.frame.names == if "Year-Month" in names then names else names + ["Year-Month"]
    ensures r.Ok? ==> HasNumericColumns(r.value.frame.names) && "Year-Month" in r.value.frame.names
    ensures r.Ok? ==> "Date" in r.value.frame.names && "Segment" in r.value.frame.names && "Product" in r.value.frame.names
  {
    var cleaned :- Cleaned(Prepare(f));
    AnalyseCleaned(cleaned)
  }

  /** The clean-up steps run on the table in place (:16-57). */
  method CleanUp(t: Table) returns (r: Result<()>)
    requires t.Valid()
    modifies t
    ensures t.Valid()
    ensures match Cleaned(Prepare(old(t.Value())))
      case Ok(f) => r.Ok? && t.Value() == f
      case KeyError(c) => r == KeyError(c)
  {
    ghost var f0 := t.Value();
    t.NormaliseColumnNames();
    t.RenameColumns();
    assert t.Value() == Prepare(f0);
    var missing := t.CleanNumericColumns();
    if missing.Some? {
      return KeyError(missing.value);
    }
    missing := t.FillDiscountColumn();
    if missing.Some? {
      return KeyError(missing.value);
    }
    r := Ok(());
  }

  /** The rest of the script run on the cleaned table in place (:62-195). */
  method RunCleaned(t: Table) returns (r: Result<Analysis>)
    requires t.Valid() && HasNumericColumns(t.names)
    modifies t
    ensures t.Valid()
    ensures r == AnalyseCleaned(old(t.Value()))
    ensures r.Ok? ==> t.Value() == r.value.frame
  {
    var f2 := t.Value();
    var totals := Totalled(f2);
    if totals.KeyError? {
      return KeyError(totals.column);
    }
    // The groupings found the Date column, so the date steps cannot fail.
    var missing := t.ParseDateColumn();
    assert missing.None?;
    missing := t.AddYearMonthColumn();
    assert missing.None?;
    var f4 := t.Value();
    assert Dated(f2) == Ok(f4);
    AnalyseCleanedSteps(f2, f4);
    var summaries := Summarised(f4);
    if summaries.KeyError? {
      return KeyError(summaries.column);
    }
    r := Ok(Analysis(f4, totals.value, summaries.value));
  }

  /** The script run on the table in place: the result is the analysis of
      the loaded table, or the `KeyError` it raises, and on success the table
      ends as the analysis's final table. */
  method Run(t: Table) returns (r: Result<Analysis>)
    requires t.Valid()
    modifies t
    ensures t.Valid()
    ensures r == Analyse(old(t.Value()))
    ensures r.Ok? ==> t.Value() == r.value.frame
  {
    var cleaned := CleanUp(t);
    if cleaned.KeyError? {
      return KeyError(cleaned.column);
    }
    r := RunCleaned(t);
  }
}
