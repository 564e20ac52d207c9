/** The script's `df`: one table whose column names and columns are changed
    in place, step by step (sales_data_analysis.py:16-20, :39-46, :57, :142,
    :147). Each method is proved against the step function of `Frames`. */
module Tables {
  import opened Wrappers
  import opened Cells
  import opened Coerce
  import opened Frames

  class Table {
    var names: seq<string>
    var cols: seq<seq<Cell>>
    var height: nat

    function Value(): Frame
      reads this
    {
      Frame(names, cols, height)
    }

    predicate Valid()
      reads this
    {
      WellFormed(Value())
    }

    /** The table `pd.read_csv` produced. */
    constructor (f: Frame)
      requires WellFormed(f)
      ensures Valid() && Value() == f
    {
      names := f.names;
      cols := f.cols;
      height := f.height;
    }

    /** `df.columns = df.columns.str.strip().str.replace(' ', '_')`. */
    method NormaliseColumnNames()
      requires Valid()
      modifies this
      ensures Valid() && Value() == old(Value()).(names := NormalisedNames(old(names)))
    {
      names := NormalisedNames(names);
    }

    /** `df = df.rename(columns={'Units_Sold': 'Un'})`: the script rebinds its
        table to the renamed copy, modelled as renaming the columns of the one
        table it goes on using. */
    method RenameColumns()
      requires Valid()
      modifies this
      ensures Valid() && Value() == old(Value()).(names := RenamedNames(old(names)))
    {
      names := RenamedNames(names);
    }

    /** The loop over the listed numeric columns: each one is stripped of
        symbols, blanks and dashes and coerced to numbers, in place. The
        first listed name that is not a column stops the loop and is
        returned; the columns cleaned before it stay cleaned. */
    method CleanNumericColumns() returns (missing: Option<string>)
      requires Valid()
      modifies this
      ensures Valid()
      ensures Cleaning(Value(), missing) == CleanNumeric(old(Value()), NumericColumns)
    {
      for k := 0 to |NumericColumns|
        invariant Valid() && names == old(names) && height == old(height)
        invariant CleanNumeric(Value(), NumericColumns[k..]) == CleanNumeric(old(Value()), NumericColumns)
      {
        var col := NumericColumns[k];
        var j := IndexOf(names, col);
        if j.None? {
          return Some(col);
        }
        cols := cols[j.value := CleanColumn(cols[j.value])];
        assert NumericColumns[k..][1..] == NumericColumns[k + 1..];
      }
      missing := None;
    }

    /** `df['Discounts'] = df['Discounts'].fillna(0)`; the table is unchanged
        when the column is absent. */
    method FillDiscountColumn() returns (missing: Option<string>)
      requires Valid()
      modifies this
      ensures Valid()
      ensures match FillDiscounts(old(Value()))
        case Ok(f) => missing.None? && Value() == f
        case KeyError(c) => missing == Some(c) && Value() == old(Value())
    {
      var j := IndexOf(names, "Discounts");
      if j.None? {
        return Some("Discounts");
      }
      cols := cols[j.value := FillMissing(cols[j.value])];
      missing := None;
    }

    /** `df['Date'] = pd.to_datetime(df['Date'], ..., errors='coerce')`. */
    method ParseDateColumn() returns (missing: Option<string>)
      requires Valid()
      modifies this
      ensures Valid()
      ensures match ParseDates(old(Value()))
        case Ok(f) => missing.None? && Value() == f
        case KeyError(c) => missing == Some(c) && Value() == old(Value())
    {
      var j := IndexOf(names, "Date");
      if j.None? {
        return Some("Date");
      }
      cols := cols[j.value := Frames.ParseDateColumn(cols[j.value])];
      missing := None;
    }

    /** `df['Year-Month'] = df['Date'].dt.to_period('M')`. */
    method AddYearMonthColumn() returns (missing: Option<string>)
      requires Valid()
      modifies this
      ensures Valid()
      ensures match AddYearMonth(old(Value()))
        case Ok(f) => missing.None? && Value() == f
        case KeyError(c) => missing == Some(c) && Value() == old(Value())
    {
      var d := IndexOf(names, "Date");
      if d.None? {
        return Some("Date");
      }
      var ym := PeriodColumn(cols[d.value]);
      var j := IndexOf(names, "Year-Month");
      if j.Some? {
        cols := cols[j.value := ym];
      } else {
        names := names + ["Year-Month"];
        cols := cols + [ym];
      }
      missing := None;
    }
  }
}
