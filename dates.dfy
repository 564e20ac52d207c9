/** `pd.to_datetime(format='%m/%d/%Y', errors='coerce')` and
    `.dt.to_period('M')` on one cell (sales_data_analysis.py:142-147). */
module Dates {
  import opened Wrappers
  import opened Cells
  import opened Text

  predicate IsLeapYear(y: int)
  {
    y % 4 == 0 && (y % 100 != 0 || y % 400 == 0)
  }

  function DaysInMonth(y: int, m: int): nat
    requires 1 <= m <= 12
  {
    if m == 2 then (if IsLeapYear(y) then 29 else 28)
    else if m == 4 || m == 6 || m == 9 || m == 11 then 30
    else 31
  }

  /** A day that exists in the calendar (year 1 is the first the library knows). */
  predicate ValidDate(d: Date)
  {
    1 <= d.year && 1 <= d.month <= 12 && 1 <= d.day <= DaysInMonth(d.year, d.month)
  }

  /** The format `%m/%d/%Y`: a month of one or two digits, a slash, a day of one
      or two digits, a slash, a year of four digits, and nothing else; the
      fields must name a real calendar day. */
  function ParseDate(s: string): (r: Option<Date>)
    ensures r.Some? ==> ValidDate(r.value) && r.value.year <= 9999
  {
    if |s| < 8 || |s| > 10 then None
    else
      var lm := if s[1] == '/' then 1 else 2;
      var ld := |s| - 6 - lm;
      if ld < 1 || ld > 2 || s[lm] != '/' || s[lm + 1 + ld] != '/' then None
      else
        var mf, df, yf := s[..lm], s[lm + 1..lm + 1 + ld], s[lm + ld + 2..];
        if !(AllDigits(mf) && AllDigits(df) && AllDigits(yf)) then None
        else
          var d := Date(DigitsValue(yf), DigitsValue(mf), DigitsValue(df));
          if ValidDate(d) then Some(d) else None
  }

  /** A month or day field: one digit, or two with a leading zero when `pad` is set. */
  function Field(n: nat, pad: bool): (r: string)
    requires 1 <= n <= 99
    ensures 1 <= |r| <= 2 && AllDigits(r) && DigitsValue(r) == n
  {
    if n < 10 then
      if pad then
        var r := ['0', Digit(n)];
        assert r[..1] == ['0'];
        r
      else [Digit(n)]
    else
      var r := [Digit(n / 10), Digit(n % 10)];
      assert r[..1] == [Digit(n / 10)];
      r
  }

  /** A year written with four digits. */
  function YearField(n: nat): (r: string)
    requires n <= 9999
    ensures |r| == 4 && AllDigits(r) && DigitsValue(r) == n
  {
    var q1 := n / 10;
    var q2 := q1 / 10;
    var q3 := q2 / 10;
    var r := [Digit(q3), Digit(q2 % 10), Digit(q1 % 10), Digit(n % 10)];
    FourDigitsValue(r);
    r
  }

  lemma FourDigitsValue(f: string)
    requires |f| == 4 && AllDigits(f)
    ensures DigitsValue(f) == 1000 * DigitValue(f[0]) + 100 * DigitValue(f[1]) + 10 * DigitValue(f[2]) + DigitValue(f[3])
  {
    var p1, p2, p3 := f[..1], f[..2], f[..3];
    assert p1[..0] == [] && p1[0] == f[0];
    assert DigitsValue(p1) == DigitValue(f[0]);
    assert p2[..1] == p1 && p2[1] == f[1];
    assert DigitsValue(p2) == 10 * DigitValue(f[0]) + DigitValue(f[1]);
    assert p3[..2] == p2 && p3[2] == f[2];
    assert DigitsValue(p3) == 100 * DigitValue(f[0]) + 10 * DigitValue(f[1]) + DigitValue(f[2]);
    assert f[..3] == p3;
  }

  lemma DivMod10(n: int, q: int, r: int)
    requires 0 <= r < 10 && n == q * 10 + r
    ensures n / 10 == q && n % 10 == r
  {
  }

  lemma DivMod100(n: int, q: int, r: int)
    requires 0 <= r < 100 && n == q * 100 + r
    ensures n / 100 == q
  {
  }

  lemma DivMod1000(n: int, q: int, r: int)
    requires 0 <= r < 1000 && n == q * 1000 + r
    ensures n / 1000 == q
  {
  }

  /** The ways a date can be written in the format. */
  function RenderDate(d: Date, padMonth: bool, padDay: bool): string
    requires ValidDate(d) && d.year <= 9999
  {
    Field(d.month, padMonth) + "/" + Field(d.day, padDay) + "/" + YearField(d.year)
  }

  /** Every spelling of a calendar date parses back to that date. */
  lemma ParseRenderDate(d: Date, padMonth: bool, padDay: bool)
    requires ValidDate(d) && d.year <= 9999
    ensures ParseDate(RenderDate(d, padMonth, padDay)) == Some(d)
  {
    ParseFields(Field(d.month, padMonth), Field(d.day, padDay), YearField(d.year));
  }

  /** Three digit fields of the right widths, joined by slashes, parse to the
      day they name when it is a calendar day. */
  lemma ParseFields(mf: string, df: string, yf: string)
    requires 1 <= |mf| <= 2 && 1 <= |df| <= 2 && |yf| == 4
    requires AllDigits(mf) && AllDigits(df) && AllDigits(yf)
    ensures var d := Date(DigitsValue(yf), DigitsValue(mf), DigitsValue(df));
      ParseDate(mf + "/" + df + "/" + yf) == if ValidDate(d) then Some(d) else None
  {
    var s := mf + "/" + df + "/" + yf;
    SplitFields(mf, df, yf);
    if |mf| == 1 {
      assert s[1] == '/';
    } else {
      assert s[1] == mf[1] && IsDigit(mf[1]);
    }
    ParseSplit(s, mf, df, yf);
  }

  /** `ParseDate` on a string already known to be split into three digit fields. */
  lemma ParseSplit(s: string, mf: string, df: string, yf: string)
    requires 1 <= |mf| <= 2 && 1 <= |df| <= 2 && |yf| == 4
    requires AllDigits(mf) && AllDigits(df) && AllDigits(yf)
    requires |s| == |mf| + |df| + 6 && (s[1] == '/' <==> |mf| == 1)
    requires s[|mf|] == '/' && s[|mf| + 1 + |df|] == '/'
    requires s[..|mf|] == mf && s[|mf| + 1..|mf| + 1 + |df|] == df && s[|mf| + |df| + 2..] == yf
    ensures var d := Date(DigitsValue(yf), DigitsValue(mf), DigitsValue(df));
      ParseDate(s) == if ValidDate(d) then Some(d) else None
  {
    var lm := if s[1] == '/' then 1 else 2;
    assert lm == |mf|;
    var ld := |s| - 6 - lm;
    assert ld == |df| && lm + ld + 2 == |mf| + |df| + 2;
    assert s[..lm] == mf && s[lm + 1..lm + 1 + ld] == df && s[lm + ld + 2..] == yf;
  }

  /** Where the slashes and the three fields sit in a joined date. */
  lemma SplitFields(mf: string, df: string, yf: string)
    requires 1 <= |mf| <= 2 && 1 <= |df| <= 2 && |yf| == 4
    ensures var s, lm, ld := mf + "/" + df + "/" + yf, |mf|, |df|;
      |s| == lm + ld + 6 && s[lm] == '/' && s[lm + 1 + ld] == '/' &&
      s[..lm] == mf && s[lm + 1..lm + 1 + ld] == df && s[lm + ld + 2..] == yf
  {
    var lm, ld := |mf|, |df|;
    var rest := df + "/" + yf;
    var s := mf + "/" + rest;
    assert s == mf + "/" + df + "/" + yf;
    assert s[..lm] == mf;
    assert s[lm + 1..] == rest;
    assert rest[..ld] == df;
    assert s[lm + 1..lm + 1 + ld] == rest[..ld];
    assert rest[ld + 1..] == yf;
    assert s[lm + ld + 2..] == rest[ld + 1..];
  }

  /** A field that parses to `n` is one of the spellings of `n`. */
  lemma FieldOfDigits(f: string)
    requires 1 <= |f| <= 2 && AllDigits(f) && 1 <= DigitsValue(f)
    ensures f == Field(DigitsValue(f), |f| == 2)
  {
    if |f| == 1 {
      DigitOfValue(f[0]);
      assert f[..0] == [];
    } else {
      TwoDigitField(f);
    }
  }

  lemma TwoDigitField(f: string)
    requires |f| == 2 && AllDigits(f) && 1 <= DigitsValue(f)
    ensures f == Field(DigitsValue(f), true)
  {
    assert f[..1] == [f[0]] && f[..1][..0] == [];
    var a, b := DigitValue(f[0]), DigitValue(f[1]);
    var n := DigitsValue(f);
    assert n == 10 * a + b;
    DigitOfValue(f[0]);
    DigitOfValue(f[1]);
    if a == 0 {
      assert Field(n, true) == ['0', Digit(b)];
    } else {
      assert n / 10 == a && n % 10 == b;
      assert Field(n, true) == [Digit(a), Digit(b)];
    }
  }

  lemma YearOfDigits(f: string)
    requires |f| == 4 && AllDigits(f)
    ensures DigitsValue(f) <= 9999 && f == YearField(DigitsValue(f))
  {
    var a, b, c, e := DigitValue(f[0]), DigitValue(f[1]), DigitValue(f[2]), DigitValue(f[3]);
    assert f[..1] == [f[0]] && f[..2] == [f[0], f[1]] && f[..3] == [f[0], f[1], f[2]];
    var n := DigitsValue(f);
    FourDigitsValue(f);
    DivMod1000(n, a, 100 * b + 10 * c + e);
    DivMod100(n, 10 * a + b, 10 * c + e);
    DivMod10(10 * a + b, a, b);
    DivMod10(n, 100 * a + 10 * b + c, e);
    DivMod10(100 * a + 10 * b + c, 10 * a + b, c);
    DigitOfValue(f[0]);
    DigitOfValue(f[1]);
    DigitOfValue(f[2]);
    DigitOfValue(f[3]);
  }

  /** Conversely, whatever parses is a spelling of the date it parses to. */
  lemma ParsedIsRendered(s: string)
    requires ParseDate(s).Some?
    ensures exists padMonth: bool, padDay: bool :: s == RenderDate(ParseDate(s).value, padMonth, padDay)
  {
    var d := ParseDate(s).value;
    var lm := if s[1] == '/' then 1 else 2;
    var ld := |s| - 6 - lm;
    var mf, df, yf := s[..lm], s[lm + 1..lm + 1 + ld], s[lm + ld + 2..];
    FieldOfDigits(mf);
    FieldOfDigits(df);
    YearOfDigits(yf);
    assert s == mf + "/" + df + "/" + yf;
    assert s == RenderDate(d, lm == 2, ld == 2);
  }

  /** The date conversion of one cell: text in the format becomes its date,
      anything else the missing marker; a cell already holding a date stays. */
  function ToDateCell(c: Cell): (r: Cell)
    ensures r.Day? || r.Missing?
    ensures c.Text? ==> (r.Day? <==> ParseDate(c.s).Some?)
    ensures c.Text? && r.Day? ==> ValidDate(r.d) && ParseDate(c.s) == Some(r.d)
    ensures c.Day? ==> r == c
  {
    match c
    case Text(s) => (match ParseDate(s) case Some(d) => Day(d) case None => Missing)
    case Day(_) => c
    case _ => Missing
  }

  /** The monthly period of one cell: missing exactly where the date is. */
  function ToPeriodCell(c: Cell): (r: Cell)
    ensures r.Month? || r.Missing?
    ensures r.Missing? <==> !c.Day?
    ensures c.Day? ==> r.ym.year == c.d.year && r.ym.month == c.d.month
  {
    if c.Day? then Month(YearMonth(c.d.year, c.d.month)) else Missing
  }
}
