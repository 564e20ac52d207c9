/** Cells of the sales table, and the order in which pandas sorts group keys. */
module Cells {

  /** A calendar date in the proleptic Gregorian calendar. */
  datatype Date = Date(year: int, month: int, day: int)

  /** A monthly period, the value `Series.dt.to_period('M')` gives a date. */
  datatype YearMonth = YearMonth(year: int, month: int)

  /** One cell: text as read from the file, a number, a parsed date, a monthly
      period, or the missing marker (pandas' NaN / NaT). */
  datatype Cell = Text(s: string) | Num(v: real) | Day(d: Date) | Month(ym: YearMonth) | Missing

  /** Python's comparison of two `str` values: code point by code point, and a
      proper prefix sorts first. */
  predicate StrLess(a: string, b: string)
  {
    if |a| == 0 then |b| > 0
    else if |b| == 0 then false
    else if a[0] == b[0] then StrLess(a[1..], b[1..])
    else a[0] < b[0]
  }

  predicate DateLess(a: Date, b: Date)
  {
    a.year < b.year
    || (a.year == b.year && a.month < b.month)
    || (a.year == b.year && a.month == b.month && a.day < b.day)
  }

  predicate YearMonthLess(a: YearMonth, b: YearMonth)
  {
    a.year < b.year || (a.year == b.year && a.month < b.month)
  }

  /** Keys of different kinds are ordered by kind, a choice of the model that
      makes the key order total. */
  function Rank(c: Cell): nat
  {
    match c
    case Num(_) => 0
    case Text(_) => 1
    case Day(_) => 2
    case Month(_) => 3
    case Missing => 4
  }

  /** The ascending order of group keys. */
  predicate CellLess(a: Cell, b: Cell)
  {
    if Rank(a) != Rank(b) then Rank(a) < Rank(b)
    else match a
      case Num(x) => x < b.v
      case Text(s) => StrLess(s, b.s)
      case Day(d) => DateLess(d, b.d)
      case Month(m) => YearMonthLess(m, b.ym)
      case Missing => false
  }

  lemma {:induction false} StrLessIrreflexive(a: string)
    ensures !StrLess(a, a)
  {
    if |a| > 0 {
      StrLessIrreflexive(a[1..]);
    }
  }

  lemma {:induction false} StrLessTransitive(a: string, b: string, c: string)
    requires StrLess(a, b) && StrLess(b, c)
    ensures StrLess(a, c)
  {
    if |a| > 0 && |b| > 0 && |c| > 0 && a[0] == b[0] && b[0] == c[0] {
      StrLessTransitive(a[1..], b[1..], c[1..]);
    }
  }

  lemma {:induction false} StrLessTotal(a: string, b: string)
    requires a != b
    ensures StrLess(a, b) || StrLess(b, a)
  {
    if |a| > 0 && |b| > 0 && a[0] == b[0] {
      assert a == [a[0]] + a[1..] && b == [b[0]] + b[1..];
      StrLessTotal(a[1..], b[1..]);
    }
  }

  /** CellLess is a strict total order on cells, so sorting keys by it is well defined. */
  lemma CellLessIrreflexive(a: Cell)
    ensures !CellLess(a, a)
  {
    if a.Text? {
      StrLessIrreflexive(a.s);
    }
  }

  lemma CellLessTransitive(a: Cell, b: Cell, c: Cell)
    requires CellLess(a, b) && CellLess(b, c)
    ensures CellLess(a, c)
  {
    if a.Text? && b.Text? && c.Text? {
      StrLessTransitive(a.s, b.s, c.s);
    }
  }

  lemma CellLessTotal(a: Cell, b: Cell)
    requires a != b
    ensures CellLess(a, b) || CellLess(b, a)
  {
    if a.Text? && b.Text? {
      StrLessTotal(a.s, b.s);
    }
  }

  lemma CellLessAsymmetric(a: Cell, b: Cell)
    requires CellLess(a, b)
    ensures !CellLess(b, a)
  {
    if CellLess(b, a) {
      CellLessTransitive(a, b, a);
      CellLessIrreflexive(a);
    }
  }
}
