/** String operations behind the script's column-name clean-up and the numeric
    coercion of text cells: Python's `str.strip`, substring replacement, the
    `[$,]` regular-expression removal, and a decimal-number grammar. */
module Text {
  import opened Wrappers

  /** Python's `str.isspace` for one character. */
  predicate IsSpace(c: char)
  {
    var n := c as int;
    (0x09 <= n <= 0x0D) || (0x1C <= n <= 0x20) || n == 0x85 || n == 0xA0
    || n == 0x1680 || (0x2000 <= n <= 0x200A) || n == 0x2028 || n == 0x2029
    || n == 0x202F || n == 0x205F || n == 0x3000
  }

  /** `str.lstrip()`: drop the longest all-whitespace prefix. */
  function LStrip(s: string): (r: string)
    ensures |r| <= |s| && r == s[|s| - |r|..]
    ensures forall i :: 0 <= i < |s| - |r| ==> IsSpace(s[i])
    ensures r == [] || !IsSpace(r[0])
  {
    if |s| > 0 && IsSpace(s[0]) then LStrip(s[1..]) else s
  }

  /** `str.rstrip()`: drop the longest all-whitespace suffix. */
  function RStrip(s: string): (r: string)
    ensures |r| <= |s| && r == s[..|r|]
    ensures forall i :: |r| <= i < |s| ==> IsSpace(s[i])
    ensures r == [] || !IsSpace(r[|r| - 1])
  {
    if |s| > 0 && IsSpace(s[|s| - 1]) then RStrip(s[..|s| - 1]) else s
  }

  /** `str.strip()`. */
  function Strip(s: string): (r: string)
    ensures r == [] || (!IsSpace(r[0]) && !IsSpace(r[|r| - 1]))
  {
    RStrip(LStrip(s))
  }

  /** The stripped string is a slice of `s` that drops only whitespace. */
  lemma StripIsSlice(s: string)
    ensures var r, i := Strip(s), |s| - |LStrip(s)|;
      && i + |r| <= |s| && r == s[i..][..|r|]
      && (forall k :: 0 <= k < i ==> IsSpace(s[k]))
      && (forall k :: i + |r| <= k < |s| ==> IsSpace(s[k]))
  {
    var l := LStrip(s);
    StripSlice(s, l, RStrip(l));
  }

  lemma StripSlice(s: string, l: string, r: string)
    requires |l| <= |s| && l == s[|s| - |l|..] && (forall k :: 0 <= k < |s| - |l| ==> IsSpace(s[k]))
    requires l == [] || !IsSpace(l[0])
    requires |r| <= |l| && r == l[..|r|] && (forall k :: |r| <= k < |l| ==> IsSpace(l[k]))
    requires r == [] || !IsSpace(r[|r| - 1])
    ensures var i := |s| - |l|;
      && i + |r| <= |s| && r == s[i..][..|r|]
      && (forall k :: 0 <= k < i ==> IsSpace(s[k]))
      && (forall k :: i + |r| <= k < |s| ==> IsSpace(s[k]))
    ensures r == [] || (!IsSpace(r[0]) && !IsSpace(r[|r| - 1]))
  {
    var i := |s| - |l|;
    assert l == s[i..];
    assert r == l[..|r|];
    forall k | i + |r| <= k < |s|
      ensures IsSpace(s[k])
    {
      assert s[k] == l[k - i];
    }
    if r != [] {
      assert r[0] == l[0];
    }
  }

  /** A string already free of whitespace at both ends is left as it is. */
  lemma StripKeepsTrimmed(s: string)
    requires s == [] || (!IsSpace(s[0]) && !IsSpace(s[|s| - 1]))
    ensures Strip(s) == s
  {
  }

  /** `str.replace(' ', '_')`: every space, and only a space, becomes an underscore. */
  function ReplaceSpaces(s: string): (r: string)
    ensures |r| == |s| && ' ' !in r
    ensures forall i :: 0 <= i < |s| ==> r[i] == if s[i] == ' ' then '_' else s[i]
  {
    seq(|s|, i requires 0 <= i < |s| => if s[i] == ' ' then '_' else s[i])
  }

  /** The clean-up of one column name: strip, then spaces to underscores. */
  function NormaliseName(name: string): (r: string)
    ensures var t := Strip(name);
      |r| == |t| && forall i :: 0 <= i < |t| ==> r[i] == if t[i] == ' ' then '_' else t[i]
    ensures ' ' !in r
    ensures r == [] || (!IsSpace(r[0]) && !IsSpace(r[|r| - 1]))
  {
    var t := Strip(name);
    assert t != [] ==> !IsSpace(t[0]) && !IsSpace(t[|t| - 1]);
    ReplaceSpaces(t)
  }

  /** Cleaning a name twice gives the same name as cleaning it once. */
  lemma NormaliseNameIdempotent(name: string)
    ensures NormaliseName(NormaliseName(name)) == NormaliseName(name)
  {
    var n := NormaliseName(name);
    StripKeepsTrimmed(n);
    assert ReplaceSpaces(n) == n;
  }

  /** The rename table `{'Units_Sold': 'Un'}`. */
  function Rename(name: string): (r: string)
    ensures r == name <==> name != "Units_Sold"
    ensures name == "Units_Sold" ==> r == "Un"
  {
    if name == "Units_Sold" then "Un" else name
  }

  /** `re.sub(r'[\$,]', '', s)`: every dollar sign and comma removed, every other
      character kept, in order. */
  function StripSymbols(s: string): (r: string)
    ensures |r| <= |s|
    ensures '$' !in r && ',' !in r
  {
    if s == [] then []
    else (if s[0] == '$' || s[0] == ',' then [] else [s[0]]) + StripSymbols(s[1..])
  }

  /** Every character other than `$` and `,` keeps its number of occurrences. */
  lemma {:induction false} StripSymbolsKeepsOthers(s: string, c: char)
    requires c != '$' && c != ','
    ensures multiset(StripSymbols(s))[c] == multiset(s)[c]
  {
    if s != [] {
      assert s == [s[0]] + s[1..];
      StripSymbolsKeepsOthers(s[1..], c);
    }
  }

  /** The removal works piece by piece, so the characters it keeps stay in their order. */
  lemma {:induction false} StripSymbolsAppend(a: string, b: string)
    ensures StripSymbols(a + b) == StripSymbols(a) + StripSymbols(b)
  {
    if a == [] {
      assert a + b == b;
    } else {
      assert (a + b)[1..] == a[1..] + b;
      StripSymbolsAppend(a[1..], b);
    }
  }

  /** The removal changes a string exactly when it holds a dollar sign or a comma. */
  lemma {:induction false} StripSymbolsUnchanged(s: string)
    ensures StripSymbols(s) == s <==> '$' !in s && ',' !in s
  {
    if s != [] {
      StripSymbolsUnchanged(s[1..]);
      assert s == [s[0]] + s[1..];
    }
  }

  predicate IsDigit(c: char)
  {
    '0' <= c <= '9'
  }

  predicate AllDigits(s: string)
  {
    forall i :: 0 <= i < |s| ==> IsDigit(s[i])
  }

  function DigitValue(c: char): nat
    requires IsDigit(c)
  {
    (c as int) - ('0' as int)
  }

  /** The value of a string of decimal digits, most significant first. */
  function DigitsValue(s: string): (r: nat)
    requires AllDigits(s)
    ensures r < Pow10(|s|)
  {
    if s == [] then 0 else DigitsValue(s[..|s| - 1]) * 10 + DigitValue(s[|s| - 1])
  }

  function Digit(n: nat): (c: char)
    requires n < 10
    ensures IsDigit(c) && DigitValue(c) == n
  {
    ('0' as int + n) as char
  }

  lemma DigitOfValue(c: char)
    requires IsDigit(c)
    ensures Digit(DigitValue(c)) == c
  {
  }

  /** The decimal spelling of a natural number, without leading zeros. */
  function ShowNat(n: nat): (r: string)
    ensures |r| > 0 && AllDigits(r)
    ensures |r| > 1 ==> r[0] != '0'
  {
    if n < 10 then [Digit(n)] else ShowNat(n / 10) + [Digit(n % 10)]
  }

  lemma {:induction false} ShowNatValue(n: nat)
    ensures DigitsValue(ShowNat(n)) == n
  {
    if n >= 10 {
      ShowNatValue(n / 10);
      var s := ShowNat(n);
      assert s[..|s| - 1] == ShowNat(n / 10);
    }
  }

  function Pow10(k: nat): (r: nat)
    ensures r >= 1
  {
    if k == 0 then 1 else 10 * Pow10(k - 1)
  }

  /** The length of the run of digits at the start of `s`. */
  function DigitRun(s: string): (k: nat)
    ensures k <= |s| && AllDigits(s[..k])
    ensures k < |s| ==> !IsDigit(s[k])
  {
    if |s| > 0 && IsDigit(s[0]) then
      var k := 1 + DigitRun(s[1..]);
      assert s[..k] == [s[0]] + s[1..][..k - 1];
      k
    else 0
  }

  /** Digits, optionally a point and more digits; at least one digit in all. */
  function ParseUnsigned(s: string): Option<real>
  {
    var k := DigitRun(s);
    if k == |s| then
      if k == 0 then None else Some(DigitsValue(s) as real)
    else if s[k] == '.' && AllDigits(s[k + 1..]) && (k > 0 || k + 1 < |s|) then
      Some(DigitsValue(s[..k]) as real + DigitsValue(s[k + 1..]) as real / Pow10(|s| - k - 1) as real)
    else None
  }

  /** The characters a number may be spelt with. */
  predicate IsNumeral(c: char)
  {
    IsDigit(c) || c == '.' || c == '+' || c == '-'
  }

  /** The number a text cell spells, in the grammar modelled for `pd.to_numeric`:
      an optional sign, then an unsigned decimal. */
  function ParseDecimal(s: string): Option<real>
  {
    if |s| > 0 && (s[0] == '-' || s[0] == '+') then
      match ParseUnsigned(s[1..])
      case None => None
      case Some(v) => Some(if s[0] == '-' then -v else v)
    else ParseUnsigned(s)
  }

  /** A text that parses holds a digit and nothing but digits, points and signs. */
  lemma ParsedCharacters(s: string)
    requires ParseDecimal(s).Some?
    ensures exists i :: 0 <= i < |s| && IsDigit(s[i])
    ensures forall i :: 0 <= i < |s| ==> IsNumeral(s[i])
  {
    if |s| > 0 && (s[0] == '-' || s[0] == '+') {
      assert forall i :: 1 <= i < |s| ==> s[i] == s[1..][i - 1];
    }
  }

  /** The spelling of a natural number parses back to it, with or without a minus sign. */
  lemma ParseShowNat(n: nat)
    ensures ParseDecimal(ShowNat(n)) == Some(n as real)
    ensures ParseDecimal("-" + ShowNat(n)) == Some(-(n as real))
  {
    var s := ShowNat(n);
    ShowNatValue(n);
    assert ("-" + s)[1..] == s;
  }

  /** A decimal number as written: a sign (none, `+` or `-`), the whole digits,
      whether a point follows them, and the digits after the point. */
  datatype Numeral = Numeral(sign: string, whole: string, point: bool, frac: string)

  /** The spellings the grammar accepts: at least one digit, and digits after
      the point only when there is a point. */
  predicate WellSpelt(n: Numeral)
  {
    && (n.sign == "" || n.sign == "+" || n.sign == "-")
    && AllDigits(n.whole) && AllDigits(n.frac)
    && (!n.point ==> n.frac == [])
    && |n.whole| + |n.frac| > 0
  }

  function Spell(n: Numeral): string
  {
    n.sign + Unsigned(n)
  }

  /** The spelling after the sign. */
  function Unsigned(n: Numeral): string
  {
    if n.point then n.whole + "." + n.frac else n.whole
  }

  /** The number a spelling denotes: whole part plus fraction over its power of ten, negated after a minus. */
  function NumeralValue(n: Numeral): real
    requires WellSpelt(n)
  {
    if n.sign == "-" then -Magnitude(n) else Magnitude(n)
  }

  function Magnitude(n: Numeral): real
    requires AllDigits(n.whole) && AllDigits(n.frac)
  {
    DigitsValue(n.whole) as real + DigitsValue(n.frac) as real / Pow10(|n.frac|) as real
  }

  lemma {:induction false} DigitRunOf(a: string, rest: string)
    requires AllDigits(a) && (rest == [] || !IsDigit(rest[0]))
    ensures DigitRun(a + rest) == |a|
  {
    if a != [] {
      assert (a + rest)[1..] == a[1..] + rest;
      DigitRunOf(a[1..], rest);
    } else {
      assert a + rest == rest;
    }
  }

  lemma UnsignedSpelt(n: Numeral)
    requires WellSpelt(n)
    ensures ParseUnsigned(Unsigned(n)) == Some(Magnitude(n))
  {
    var tail := if n.point then "." + n.frac else "";
    var u := Unsigned(n);
    assert u == n.whole + tail;
    DigitRunOf(n.whole, tail);
    var k := |n.whole|;
    assert u[..k] == n.whole;
    if n.point {
      assert u[k] == '.';
      assert u[k + 1..] == n.frac;
    } else {
      assert u == n.whole;
    }
  }

  /** Every well-formed spelling parses, to the number it denotes. */
  lemma ParseNumeral(n: Numeral)
    requires WellSpelt(n)
    ensures ParseDecimal(Spell(n)) == Some(NumeralValue(n))
  {
    var u := Unsigned(n);
    UnsignedSpelt(n);
    if n.sign == "" {
      assert Spell(n) == u;
      UnsignedHead(n, u);
      ParseUnsignedAlone(u);
    } else {
      assert Spell(n) == n.sign + u;
      ParseSigned(n.sign, u);
    }
  }

  lemma UnsignedHead(n: Numeral, u: string)
    requires WellSpelt(n) && u == Unsigned(n)
    ensures |u| > 0 && u[0] != '-' && u[0] != '+'
  {
    if n.whole != [] { assert u[0] == n.whole[0]; } else { assert u[0] == '.'; }
  }

  lemma ParseUnsignedAlone(u: string)
    requires |u| > 0 && u[0] != '-' && u[0] != '+'
    ensures ParseDecimal(u) == ParseUnsigned(u)
  {
  }

  lemma ParseSigned(sign: string, u: string)
    requires sign == "+" || sign == "-"
    requires ParseUnsigned(u).Some?
    ensures ParseDecimal(sign + u) == Some(if sign == "-" then -ParseUnsigned(u).value else ParseUnsigned(u).value)
  {
    assert (sign + u)[1..] == u;
  }

  /** Every text that parses is a well-formed spelling, and its value is the one that spelling denotes. */
  lemma ParsedNumeral(s: string)
    requires ParseDecimal(s).Some?
    ensures exists n :: WellSpelt(n) && Spell(n) == s && NumeralValue(n) == ParseDecimal(s).value
  {
    var sign := if |s| > 0 && (s[0] == '-' || s[0] == '+') then s[..1] else "";
    var u := s[|sign|..];
    assert s == sign + u;
    assert ParseUnsigned(u).Some?;
    var n := UnsignedNumeral(sign, u);
    ParseNumeral(n);
  }

  /** The spelling of a text the unsigned grammar accepts, behind a sign. */
  lemma UnsignedNumeral(sign: string, u: string) returns (n: Numeral)
    requires sign == "" || sign == "+" || sign == "-"
    requires ParseUnsigned(u).Some?
    ensures WellSpelt(n) && Spell(n) == sign + u
  {
    var k := DigitRun(u);
    if k == |u| {
      assert u[..k] == u;
      n := Numeral(sign, u, false, "");
    } else {
      assert u == u[..k] + "." + u[k + 1..];
      n := Numeral(sign, u[..k], true, u[k + 1..]);
    }
  }
}
