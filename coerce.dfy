/** The per-cell cleaning of the eight numeric columns (sales_data_analysis.py:39-46)
    and the fill of missing discounts (sales_data_analysis.py:57). */
module Coerce {
  import opened Wrappers
  import opened Cells
  import opened Text

  /** The three `Series.replace` calls on a text cell, as written: the regular
      expression removes every `$` and `,`; the two plain replacements match the
      WHOLE cell, so only a cell that is then exactly " " becomes "", and only
      one that is exactly "-" becomes "0". */
  function ReplaceText(s: string): (r: string)
    ensures r != " " && r != "-"
    ensures '$' !in r && ',' !in r
  {
    var t := StripSymbols(s);
    if t == " " then "" else if t == "-" then "0" else t
  }

  /** `pd.to_numeric(errors='coerce')` on one cell: text becomes the number it
      spells or the missing marker, a number stays, anything else is missing. */
  function ToNumeric(c: Cell): (r: Cell)
    ensures r.Num? || r.Missing?
    ensures c.Num? ==> r == c
    ensures c.Text? ==> (r.Num? <==> ParseDecimal(c.s).Some?)
    ensures c.Text? && r.Num? ==> ParseDecimal(c.s) == Some(r.v)
  {
    match c
    case Text(s) => (match ParseDecimal(s) case Some(v) => Num(v) case None => Missing)
    case Num(_) => c
    case _ => Missing
  }

  /** The whole cleaning of one cell of a target column. `Series.replace` leaves
      cells that are not strings alone. */
  function CleanCell(c: Cell): (r: Cell)
    ensures r.Num? || r.Missing?
    ensures c.Num? ==> r == c
    ensures c.Missing? ==> r == Missing
  {
    match c
    case Text(s) => ToNumeric(Text(ReplaceText(s)))
    case _ => ToNumeric(c)
  }

  /** The cleaning of a whole column, row by row. */
  function CleanColumn(col: seq<Cell>): (r: seq<Cell>)
    ensures |r| == |col|
    ensures forall i :: 0 <= i < |r| ==> r[i].Num? || r[i].Missing?
  {
    seq(|col|, i requires 0 <= i < |col| => CleanCell(col[i]))
  }

  /** Cleaning a cleaned cell changes nothing. */
  lemma CleanCellIdempotent(c: Cell)
    ensures CleanCell(CleanCell(c)) == CleanCell(c)
  {
  }

  /** Cleaning a cleaned column changes nothing. */
  lemma CleanColumnIdempotent(col: seq<Cell>)
    ensures CleanColumn(CleanColumn(col)) == CleanColumn(col)
  {
    var once := CleanColumn(col);
    forall i | 0 <= i < |col|
      ensures CleanColumn(once)[i] == once[i]
    {
      assert once[i] == CleanCell(col[i]);
      CleanCellIdempotent(col[i]);
    }
  }

  /** A money amount, however its `$` signs and thousands separators are placed,
      cleans to the number its digits spell. */
  lemma CleanMoney(s: string, n: nat)
    requires StripSymbols(s) == ShowNat(n)
    ensures CleanCell(Text(s)) == Num(n as real)
  {
    ParseShowNat(n);
  }

  /** The same for a negative amount written with a leading minus sign. */
  lemma CleanNegativeMoney(s: string, n: nat)
    requires StripSymbols(s) == "-" + ShowNat(n)
    ensures CleanCell(Text(s)) == if n == 0 then Num(0.0) else Num(-(n as real))
  {
    ParseShowNat(n);
    if n == 0 {
      assert ShowNat(0) == "0";
      assert StripSymbols(s) == "-0";
    }
  }

  /** A placeholder dash, with or without currency symbols around it, cleans to zero. */
  lemma CleanDash(s: string)
    requires StripSymbols(s) == "-"
    ensures CleanCell(Text(s)) == Num(0.0)
  {
    ParseShowNat(0);
    assert ShowNat(0) == "0";
  }

  /** The whole-cell replacements do not touch a cell that is not exactly " " or
      "-" once the symbols are gone: its spaces and dashes stay, and the
      conversion sees them. */
  lemma CleanKeepsInnerSpacesAndDashes(s: string)
    requires StripSymbols(s) != " " && StripSymbols(s) != "-"
    ensures CleanCell(Text(s)) == ToNumeric(Text(StripSymbols(s)))
  {
  }

  /** Text that spells no number becomes the missing marker: no digit, or a
      character a number cannot hold. */
  lemma CleanUnparseable(s: string)
    requires exists i :: 0 <= i < |s| && !IsNumeral(s[i]) && s[i] != '$' && s[i] != ','
    ensures CleanCell(Text(s)) == Missing
  {
    var i :| 0 <= i < |s| && !IsNumeral(s[i]) && s[i] != '$' && s[i] != ',';
    var t := StripSymbols(s);
    var j := StrippedPosition(s, i);
    if t != " " {
      assert t != "-";
      if ParseDecimal(t).Some? {
        ParsedCharacters(t);
        assert false;
      }
    }
  }

  /** A character other than `$` and `,` survives the symbol removal. */
  lemma StrippedPosition(s: string, i: nat) returns (j: nat)
    requires i < |s| && s[i] != '$' && s[i] != ','
    ensures j < |StripSymbols(s)| && StripSymbols(s)[j] == s[i]
  {
    assert multiset(s)[s[i]] > 0;
    StripSymbolsKeepsOthers(s, s[i]);
    assert s[i] in multiset(StripSymbols(s));
    j :| 0 <= j < |StripSymbols(s)| && StripSymbols(s)[j] == s[i];
  }

  /** `fillna(0)` on one column: every missing cell becomes zero. */
  function FillMissing(col: seq<Cell>): (r: seq<Cell>)
    ensures |r| == |col|
    ensures forall i :: 0 <= i < |r| ==> !r[i].Missing?
    ensures forall i :: 0 <= i < |r| ==> (r[i] != col[i] <==> col[i].Missing?)
    ensures forall i :: 0 <= i < |r| && col[i].Missing? ==> r[i] == Num(0.0)
  {
    seq(|col|, i requires 0 <= i < |col| => if col[i].Missing? then Num(0.0) else col[i])
  }
}
