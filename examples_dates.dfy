/** Worked examples of the date parse and of the month taken from it. */
module DateExamples {
  import opened Wrappers
  import opened Cells
  import opened Text
  import opened Dates

  /** "3/4/2023" is the fourth of March 2023 (month first), in month 2023-03. */
  lemma ParseExampleMarch()
    ensures ToDateCell(Text("3/4/2023")) == Day(Date(2023, 3, 4))
    ensures ToPeriodCell(ToDateCell(Text("3/4/2023"))) == Month(YearMonth(2023, 3))
  {
    var d := Date(2023, 3, 4);
    ParseRenderDate(d, false, false);
    assert YearField(2023) == "2023";
    assert RenderDate(d, false, false) == "3/4/2023";
  }

  /** The 29th of February exists in the leap year 2024. */
  lemma ParseExampleLeapDay()
    ensures ToDateCell(Text("2/29/2024")) == Day(Date(2024, 2, 29))
  {
    var d := Date(2024, 2, 29);
    ParseRenderDate(d, false, false);
    assert YearField(2024) == "2024";
    assert Field(29, false) == "29";
    assert RenderDate(d, false, false) == "2/29/2024";
  }

  /** The 29th of February 2023 does not exist: it coerces to missing. */
  lemma ParseExampleNoLeapDay()
    ensures ToDateCell(Text("2/29/2023")) == Missing
  {
    var s := "2/29/2023";
    assert s[1] == '/' && s[4] == '/';
    assert s[..1] == "2" && s[2..4] == "29" && s[5..] == "2023";
    assert DigitsValue("29") == 29 by { assert "29"[..1] == "2"; }
  }

  /** Nor does the 30th of February in any year: missing, and so is its month. */
  lemma ParseExampleThirtiethFebruary()
    ensures ToDateCell(Text("2/30/2023")) == Missing
    ensures ToPeriodCell(ToDateCell(Text("2/30/2023"))) == Missing
  {
    var t := "2/30/2023";
    assert t[1] == '/' && t[4] == '/';
    assert t[..1] == "2" && t[2..4] == "30" && t[5..] == "2023";
    assert DigitsValue("30") == 30 by { assert "30"[..1] == "3"; }
  }

  /** Text that is not in the month/day/year format coerces to missing. */
  lemma ParseExampleNotADate()
    ensures ToDateCell(Text("not-a-date")) == Missing
  {
    var s := "not-a-date";
    assert s[1] != '/' && s[2] != '/';
  }
}
