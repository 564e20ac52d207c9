/** Worked examples of the cell cleaning, one lemma per example. */
module CleaningExamples {
  import opened Cells
  import opened Text
  import opened Coerce

  /** "$1,234" loses its dollar sign and its thousands separator. */
  lemma StripExampleMoney()
    ensures StripSymbols("$1,234") == "1234"
  {
    var s := "$1,234";
    assert s[1..] == "1,234";
    assert s[1..][1..] == ",234";
    assert s[1..][1..][1..] == "234";
    assert StripSymbols("234") == "234";
  }

  lemma ShowNatExample()
    ensures ShowNat(1234) == "1234"
  {
    assert ShowNat(1) == "1";
    assert ShowNat(12) == ShowNat(1) + [Digit(2)];
    assert ShowNat(123) == ShowNat(12) + [Digit(3)];
    assert ShowNat(1234) == ShowNat(123) + [Digit(4)];
  }

  /** "$1,234" cleans to 1234. */
  lemma CleanExampleMoney()
    ensures CleanCell(Text("$1,234")) == Num(1234.0)
  {
    StripExampleMoney();
    ShowNatExample();
    CleanMoney("$1,234", 1234);
  }

  /** " $- " loses its dollar sign but keeps its spaces, so it is not the
      placeholder "-" and coerces to missing. */
  lemma CleanExampleSpacedDash()
    ensures CleanCell(Text(" $- ")) == Missing
  {
    var s := " $- ";
    assert s[0] == ' ' && ' ' != '$' && ' ' != ',' && !IsNumeral(' ');
    CleanUnparseable(s);
  }

  /** "abc" coerces to missing. */
  lemma CleanExampleText()
    ensures CleanCell(Text("abc")) == Missing
  {
    assert "abc"[0] == 'a' && !IsNumeral('a');
    CleanUnparseable("abc");
  }

  /** A lone space coerces to missing too: it becomes "", which spells no number. */
  lemma CleanExampleSpace()
    ensures CleanCell(Text(" ")) == Missing
  {
    assert " "[0] == ' ' && !IsNumeral(' ');
    CleanUnparseable(" ");
  }
}
