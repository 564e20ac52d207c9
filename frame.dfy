/** The table as a value, and each step of the script's clean-up as a function
    of it: the column-name clean-up and rename (sales_data_analysis.py:16-20),
    the eight-column cleaning loop (:39-46), the discount fill (:57), the date
    parse (:142) and the monthly period column (:147). */
module Frames {
  import opened Wrappers
  import opened Cells
  import opened Text
  import opened Coerce
  import opened Dates

  /** Named columns of equal height, in order. */
  datatype Frame = Frame(names: seq<string>, cols: seq<seq<Cell>>, height: nat)

  predicate WellFormed(f: Frame)
  {
    |f.names| == |f.cols| && forall j :: 0 <= j < |f.cols| ==> |f.cols[j]| == f.height
  }

  /** The position of the first column called `n`. */
  function IndexOf(names: seq<string>, n: string): (r: Option<nat>)
    ensures r.None? <==> n !in names
    ensures r.Some? ==> r.value < |names| && names[r.value] == n && n !in names[..r.value]
  {
    if names == [] then None
    else if names[0] == n then Some(0)
    else
      match IndexOf(names[1..], n)
      case None => None
      case Some(j) =>
        assert names[..j + 1] == [names[0]] + names[1..][..j];
        Some(j + 1)
  }

  /** `df[n]`: the column called `n`, or `KeyError`. */
  function Column(f: Frame, n: string): (r: Result<seq<Cell>>)
    requires WellFormed(f)
    ensures r.Ok? <==> n in f.names
    ensures r.Ok? ==> |r.value| == f.height && r.value == f.cols[IndexOf(f.names, n).value]
    ensures r.KeyError? ==> r.column == n
  {
    match IndexOf(f.names, n)
    case None => KeyError(n)
    case Some(j) => Ok(f.cols[j])
  }

  /** `df.columns.str.strip().str.replace(' ', '_')`. */
  function NormalisedNames(names: seq<string>): (r: seq<string>)
    ensures |r| == |names|
    ensures forall i :: 0 <= i < |r| ==> r[i] == NormaliseName(names[i])
  {
    seq(|names|, i requires 0 <= i < |names| => NormaliseName(names[i]))
  }

  /** `df.rename(columns={'Units_Sold': 'Un'})`. */
  function RenamedNames(names: seq<string>): (r: seq<string>)
    ensures |r| == |names|
    ensures forall i :: 0 <= i < |r| ==> r[i] == Rename(names[i])
  {
    seq(|names|, i requires 0 <= i < |names| => Rename(names[i]))
  }

  /** After the clean-up no name has a space or whitespace at either end, a
      second clean-up changes nothing, and the rename turns `Units_Sold` into
      `Un` and leaves every other name alone. */
  lemma CleanNamesFacts(names: seq<string>)
    ensures var n := NormalisedNames(names);
      && (forall i :: 0 <= i < |n| ==> ' ' !in n[i])
      && (forall i :: 0 <= i < |n| ==> n[i] == [] || (!IsSpace(n[i][0]) && !IsSpace(n[i][|n[i]| - 1])))
      && NormalisedNames(n) == n
      && (forall i :: 0 <= i < |n| ==> (RenamedNames(n)[i] != n[i] <==> n[i] == "Units_Sold"))
      && (forall i :: 0 <= i < |n| && n[i] == "Units_Sold" ==> RenamedNames(n)[i] == "Un")
  {
    var n := NormalisedNames(names);
    forall i | 0 <= i < |n|
      ensures NormalisedNames(n)[i] == n[i]
    {
      NormaliseNameIdempotent(names[i]);
    }
  }

  /** The columns the script coerces to numbers, in the order it does so. */
  const NumericColumns: seq<string> :=
    ["Un", "Manufacturing_Price", "Sale_Price", "Gross_Sales", "Discounts", "Sales", "COGS", "Profit"]

  /** Every listed numeric column is present. */
  predicate HasNumericColumns(names: seq<string>)
  {
    && "Un" in names && "Manufacturing_Price" in names && "Sale_Price" in names && "Gross_Sales" in names
    && "Discounts" in names && "Sales" in names && "COGS" in names && "Profit" in names
  }

  lemma HasNumericColumnsListed(names: seq<string>)
    ensures HasNumericColumns(names) <==> forall n :: n in NumericColumns ==> n in names
  {
  }

  /** `df[col] = ...`: replace the column at position `j`. */
  function SetColumn(f: Frame, j: nat, col: seq<Cell>): (r: Frame)
    requires WellFormed(f) && j < |f.cols| && |col| == f.height
    ensures WellFormed(r) && r.names == f.names && r.height == f.height
  {
    f.(cols := f.cols[j := col])
  }

  /** The table after the cleaning loop, and the first listed column found
      missing, if one was (the loop stops there with `KeyError`). */
  datatype Cleaning = Cleaning(frame: Frame, missing: Option<string>)

  /** The cleaning loop: each listed column in turn is cleaned in place. */
  function CleanNumeric(f: Frame, ts: seq<string>): (r: Cleaning)
    requires WellFormed(f)
    ensures WellFormed(r.frame) && r.frame.names == f.names && r.frame.height == f.height
    decreases |ts|
  {
    if ts == [] then Cleaning(f, None)
    else
      match IndexOf(f.names, ts[0])
      case None => Cleaning(f, Some(ts[0]))
      case Some(j) => CleanNumeric(SetColumn(f, j, CleanColumn(f.cols[j])), ts[1..])
  }

  /** The longest prefix of `ts` whose names are all columns. */
  function Found(names: seq<string>, ts: seq<string>): (r: nat)
    ensures r <= |ts|
    ensures forall l :: 0 <= l < r ==> ts[l] in names
    ensures r < |ts| ==> ts[r] !in names
  {
    if ts == [] || ts[0] !in names then 0 else 1 + Found(names, ts[1..])
  }

  /** Column `j` is the one a lookup of its name finds, and its name is in `ts`. */
  predicate Targeted(names: seq<string>, ts: seq<string>, j: nat)
    requires j < |names|
  {
    names[j] in ts && names[j] !in names[..j]
  }

  /** What the loop does, as a whole: the columns named by the found prefix of
      the list are cleaned, every other column is untouched, and the loop
      reports the first listed name that is not a column. */
  lemma {:induction false} CleanNumericEffect(f: Frame, ts: seq<string>)
    requires WellFormed(f)
    ensures var r := CleanNumeric(f, ts);
      var k := Found(f.names, ts);
      && r.missing == (if k == |ts| then None else Some(ts[k]))
      && forall j :: 0 <= j < |f.cols| ==>
           r.frame.cols[j] == if Targeted(f.names, ts[..k], j) then CleanColumn(f.cols[j]) else f.cols[j]
    decreases |ts|
  {
    if ts != [] && ts[0] in f.names {
      var j0 := IndexOf(f.names, ts[0]).value;
      var f' := SetColumn(f, j0, CleanColumn(f.cols[j0]));
      CleanNumericEffect(f', ts[1..]);
      var k := Found(f.names, ts);
      assert ts[..k] == [ts[0]] + ts[1..][..k - 1];
      forall j | 0 <= j < |f.cols|
        ensures CleanNumeric(f, ts).frame.cols[j]
             == if Targeted(f.names, ts[..k], j) then CleanColumn(f.cols[j]) else f.cols[j]
      {
        if j == j0 {
          CleanColumnIdempotent(f.cols[j0]);
        }
      }
    }
  }

  /** When every listed column exists, each of them afterwards holds only
      numbers and missing markers, row for row the cleaning of what it held,
      and no other column changes. */
  lemma CleanNumericSucceeds(f: Frame, ts: seq<string>)
    requires WellFormed(f)
    requires forall t :: t in ts ==> t in f.names
    ensures var r := CleanNumeric(f, ts);
      && r.missing.None?
      && (forall t, i :: t in ts && 0 <= i < f.height ==>
            var j := IndexOf(f.names, t).value;
            r.frame.cols[j][i] == CleanCell(f.cols[j][i]) && (r.frame.cols[j][i].Num? || r.frame.cols[j][i].Missing?))
      && (forall j :: 0 <= j < |f.cols| && f.names[j] !in ts ==> r.frame.cols[j] == f.cols[j])
  {
    CleanNumericEffect(f, ts);
    var k := Found(f.names, ts);
    assert ts[..k] == ts;
  }

  /** A column whose name is not listed is untouched by the loop. */
  lemma CleanNumericKeeps(f: Frame, ts: seq<string>, j: nat)
    requires WellFormed(f) && j < |f.cols| && f.names[j] !in ts
    ensures CleanNumeric(f, ts).frame.cols[j] == f.cols[j]
  {
    CleanNumericEffect(f, ts);
  }

  /** The column a listed name finds is cleaned cell by cell, when the loop
      gets to it. */
  lemma CleanNumericCleans(f: Frame, ts: seq<string>, t: string)
    requires WellFormed(f) && t in ts
    requires forall u :: u in ts ==> u in f.names
    ensures var j := IndexOf(f.names, t).value;
      CleanNumeric(f, ts).frame.cols[j] == CleanColumn(f.cols[j])
  {
    CleanNumericEffect(f, ts);
    var k := Found(f.names, ts);
    assert ts[..k] == ts;
  }

  /** `df['Discounts'] = df['Discounts'].fillna(0)`. */
  function FillDiscounts(f: Frame): (r: Result<Frame>)
    requires WellFormed(f)
    ensures r.Ok? <==> "Discounts" in f.names
    ensures r.KeyError? ==> r.column == "Discounts"
    ensures r.Ok? ==> WellFormed(r.value) && r.value.names == f.names && r.value.height == f.height
  {
    match IndexOf(f.names, "Discounts")
    case None => KeyError("Discounts")
    case Some(j) => Ok(SetColumn(f, j, FillMissing(f.cols[j])))
  }

  /** After the fill the discount column has no missing cell, its other cells
      are as they were, and every other column is identical. */
  lemma FillDiscountsEffect(f: Frame)
    requires WellFormed(f) && "Discounts" in f.names
    ensures var g := FillDiscounts(f).value;
      var j := IndexOf(f.names, "Discounts").value;
      && (forall i :: 0 <= i < f.height ==> !g.cols[j][i].Missing?)
      && (forall i :: 0 <= i < f.height && !f.cols[j][i].Missing? ==> g.cols[j][i] == f.cols[j][i])
      && (forall i :: 0 <= i < f.height && f.cols[j][i].Missing? ==> g.cols[j][i] == Num(0.0))
      && (forall j' :: 0 <= j' < |f.cols| && j' != j ==> g.cols[j'] == f.cols[j'])
  {
  }

  /** `pd.to_datetime(df['Date'], format='%m/%d/%Y', errors='coerce')`, cell by cell. */
  function ParseDateColumn(col: seq<Cell>): (r: seq<Cell>)
    ensures |r| == |col|
    ensures forall i :: 0 <= i < |r| ==> r[i] == ToDateCell(col[i])
  {
    seq(|col|, i requires 0 <= i < |col| => ToDateCell(col[i]))
  }

  /** `df['Date'].dt.to_period('M')`, cell by cell. */
  function PeriodColumn(col: seq<Cell>): (r: seq<Cell>)
    ensures |r| == |col|
    ensures forall i :: 0 <= i < |r| ==> r[i] == ToPeriodCell(col[i])
  {
    seq(|col|, i requires 0 <= i < |col| => ToPeriodCell(col[i]))
  }

  /** `df['Date'] = pd.to_datetime(...)`: the Date column is replaced by its parse. */
  function ParseDates(f: Frame): (r: Result<Frame>)
    requires WellFormed(f)
    ensures r.Ok? <==> "Date" in f.names
    ensures r.KeyError? ==> r.column == "Date"
    ensures r.Ok? ==> WellFormed(r.value) && r.value.names == f.names && r.value.height == f.height
  {
    match IndexOf(f.names, "Date")
    case None => KeyError("Date")
    case Some(j) => Ok(SetColumn(f, j, ParseDateColumn(f.cols[j])))
  }

  /** `df['Year-Month'] = df['Date'].dt.to_period('M')`: assigns the column in
      place when it exists, and appends it otherwise. */
  function AddYearMonth(f: Frame): (r: Result<Frame>)
    requires WellFormed(f)
    ensures r.Ok? <==> "Date" in f.names
    ensures r.KeyError? ==> r.column == "Date"
    ensures r.Ok? ==> WellFormed(r.value) && r.value.height == f.height && "Year-Month" in r.value.names
    ensures r.Ok? ==> r.value.names == if "Year-Month" in f.names then f.names else f.names + ["Year-Month"]
  {
    match IndexOf(f.names, "Date")
    case None => KeyError("Date")
    case Some(d) =>
      var ym := PeriodColumn(f.cols[d]);
      match IndexOf(f.names, "Year-Month")
      case Some(j) => Ok(SetColumn(f, j, ym))
      case None =>
        var g := Frame(f.names + ["Year-Month"], f.cols + [ym], f.height);
        assert g.names[|f.names|] == "Year-Month";
        Ok(g)
  }

  /** The number of cells of one column that hold a number below zero. */
  function NegativeCells(col: seq<Cell>): (r: nat)
    ensures r <= |col|
  {
    if col == [] then 0 else (if col[0].Num? && col[0].v < 0.0 then 1 else 0) + NegativeCells(col[1..])
  }

  /** The negative-value check the script computes and discards
      (sales_data_analysis.py:51): the number of cells below zero over the
      listed columns, or `KeyError` for a listed name that is not a column.
      It reads the table and changes nothing. */
  function NegativeCount(f: Frame, ts: seq<string>): (r: Result<nat>)
    requires WellFormed(f)
    ensures r.Ok? <==> forall j :: 0 <= j < |ts| ==> ts[j] in f.names
    ensures r.KeyError? ==> r.column in ts && r.column !in f.names
    ensures r.Ok? ==> r.value <= |ts| * f.height
    ensures r.Ok? ==> (r.value == 0 <==> forall j :: 0 <= j < |ts| ==> NegativeCells(Column(f, ts[j]).value) == 0)
  {
    if ts == [] then Ok(0)
    else
      ListedSplit(f, ts);
      match Column(f, ts[0])
      case KeyError(c) => KeyError(c)
      case Ok(col) =>
        match NegativeCount(f, ts[1..])
        case KeyError(c) => KeyError(c)
        case Ok(rest) =>
          CountBound(NegativeCells(col), rest, f.height, |ts| - 1);
          Ok(NegativeCells(col) + rest)
  }

  /** A statement about every listed column is one about the first and one about the rest. */
  lemma ListedSplit(f: Frame, ts: seq<string>)
    requires WellFormed(f) && ts != []
    ensures (forall j :: 0 <= j < |ts| ==> ts[j] in f.names)
      <==> ts[0] in f.names && forall j :: 0 <= j < |ts| - 1 ==> ts[1..][j] in f.names
    ensures (forall j :: 0 <= j < |ts| ==> ts[j] in f.names) ==>
      ((forall j :: 0 <= j < |ts| ==> NegativeCells(Column(f, ts[j]).value) == 0)
        <==> (NegativeCells(Column(f, ts[0]).value) == 0
          && forall j :: 0 <= j < |ts| - 1 ==> NegativeCells(Column(f, ts[1..][j]).value) == 0))
  {
    assert forall j :: 1 <= j < |ts| ==> ts[j] == ts[1..][j - 1];
  }

  lemma CountBound(a: nat, b: nat, h: nat, n: nat)
    requires a <= h && b <= n * h
    ensures a + b <= (n + 1) * h
  {
  }

  lemma {:induction false} NegativeCellsZero(col: seq<Cell>)
    ensures NegativeCells(col) == 0 <==> forall i :: 0 <= i < |col| ==> !(col[i].Num? && col[i].v < 0.0)
  {
    if col != [] {
      NegativeCellsZero(col[1..]);
      assert forall i :: 1 <= i < |col| ==> col[i] == col[1..][i - 1];
    }
  }
}
