/** Worked inputs for the ticker parser, `strptime`, the chain lookup and
    the key check,
    each derived from the general lemmas rather than by evaluating. */
module Scenarios {
  import opened Chars
  import opened Calendar
  import opened Strptime
  import opened OptionTicker
  import opened ContractSymbol
  import opened ApiKey

  /** `230616` in `%y%m%d` is 2023-06-16. */
  lemma ReadsShortDate()
    ensures ParseDate("230616", ShortYear) == Some(Date(2023, 6, 16))
  {
    var h := Groups("23", "06", "16");
    assert IsSplit("230616", ShortYear, h);
    NumeralOfTwo("23");
    NumeralOfTwo("06");
    NumeralOfTwo("16");
    assert DateOf(h, ShortYear) == Date(2023, 6, 16);
    ParseDateOfSplit("230616", ShortYear, h);
  }

  /** `23111` could be January 11 or November 1; the month alternative
      `1[0-2]` is tried first, so it is November 1. */
  lemma ReadsAmbiguousShortDate()
    ensures ParseDate("23111", ShortYear) == Some(Date(2023, 11, 1))
  {
    var h := Groups("23", "11", "1");
    assert IsSplit("23111", ShortYear, h);
    NumeralOfTwo("23");
    NumeralOfTwo("11");
    NumeralOfOne("1");
    assert DateOf(h, ShortYear) == Date(2023, 11, 1);
    ParseDateOfSplit("23111", ShortYear, h);
  }

  /** `20230616` is no `%y%m%d` date: its first match, year 20, month 2,
      day 30, stops before the end. */
  lemma RejectsLongDateAsShort()
    ensures ParseDate("20230616", ShortYear) == None
  {
    assert AllDigits("20230616"[..2]);
    assert !MonthPair('2', '3') && DayAt("20230616", 3) == Some(2);
    assert |Matched(FirstMatch("20230616", ShortYear).value)| == 5;
  }

  /** `20230616` in `%Y%m%d` is 2023-06-16. */
  lemma ReadsLongDate()
    ensures ParseDate("20230616", LongYear) == Some(Date(2023, 6, 16))
  {
    var h := Groups("2023", "06", "16");
    assert IsSplit("20230616", LongYear, h);
    NumeralOfTwo("06");
    NumeralOfTwo("16");
    assert NumeralValue("2023") == 2023 by {
      assert "2023"[..3] == "202" && "202"[..2] == "20";
      NumeralOfTwo("20");
    }
    assert DateOf(h, LongYear) == Date(2023, 6, 16);
    ParseDateOfSplit("20230616", LongYear, h);
  }

  /** `202311` has no `%y%m%d` match that reaches the end: the month `2` is
      followed by the day `31`, and `1` is left over. */
  lemma RejectsShortMonthAsShort()
    ensures ParseDate("202311", ShortYear) == None
  {
    assert AllDigits("202311"[..2]);
    assert !MonthPair('2', '3') && DayAt("202311", 3) == Some(2);
    assert |Matched(FirstMatch("202311", ShortYear).value)| == 5;
  }

  /** `202311` in `%Y%m%d` is 2023-01-01: no day follows the month `11`, so
      the engine backtracks to the month `1`. */
  lemma ReadsShortMonthLongDate()
    ensures ParseDate("202311", LongYear) == Some(Date(2023, 1, 1))
  {
    assert AllDigits("202311"[..4]);
    assert DayAt("202311", 6) == None && DayAt("202311", 5) == Some(1);
    var h := FirstMatch("202311", LongYear).value;
    assert h == Groups("2023", "1", "1");
    assert NumeralValue("2023") == 2023 by {
      assert "2023"[..3] == "202" && "202"[..2] == "20";
      NumeralOfTwo("20");
    }
    NumeralOfOne("1");
    assert DateOf(h, LongYear) == Date(2023, 1, 1);
  }

  /** `230230` is February 30 in `%y%m%d` and has no match in `%Y%m%d`. */
  lemma RejectsImpossibleDate()
    ensures ParseDate("230230", ShortYear) == None
    ensures ParseDate("230230", LongYear) == None
  {
    var h := Groups("23", "02", "30");
    assert IsSplit("230230", ShortYear, h);
    TwoCharacterMonthWins("230230", ShortYear, h);
    NumeralOfTwo("23");
    NumeralOfTwo("02");
    NumeralOfTwo("30");
    assert DateOf(h, ShortYear) == Date(2023, 2, 30);
    assert FirstMatch("230230", LongYear) == None;
  }

  /** The standard symbol of the 2023-06-16 AAPL call struck at 150. */
  lemma ParsesStandardSymbol()
    ensures ParseOptionTicker("AAPL230616C00150000") == Parsed(Contract("AAPL", Date(2023, 6, 16), 'C', "00150000"))
  {
    var g := TickerGroups("AAPL", "230616", 'C', "00150000");
    assert WellFormed(g);
    SpellsConcatenation(g);
    assert "AAPL230616C00150000" == g.underlying + g.expiration + [g.optionType] + g.strike;
    MatchTickerComplete("AAPL230616C00150000", "", g, "");
    ReadsShortDate();
  }

  /** A leading dot and lower-case letters are accepted and kept as they are. */
  lemma ParsesDottedLowerCaseSymbol()
    ensures ParseOptionTicker(".spy230616p400") == Parsed(Contract("spy", Date(2023, 6, 16), 'p', "400"))
  {
    var g := TickerGroups("spy", "230616", 'p', "400");
    assert Spells(".spy230616p400", ".", g, "");
    MatchTickerComplete(".spy230616p400", ".", g, "");
    ReadsShortDate();
  }

  /** A four-digit year is read when the two-digit reading fails. */
  lemma ParsesLongYearSymbol()
    ensures ParseOptionTicker("AAPL20230616C1") == Parsed(Contract("AAPL", Date(2023, 6, 16), 'C', "1"))
  {
    var g := TickerGroups("AAPL", "20230616", 'C', "1");
    assert Spells("AAPL20230616C1", "", g, "");
    MatchTickerComplete("AAPL20230616C1", "", g, "");
    RejectsLongDateAsShort();
    ReadsLongDate();
  }

  /** A `%Y%m%d` expiration with a one-character month. */
  lemma ParsesShortMonthSymbol()
    ensures ParseOptionTicker("AAPL202311C100") == Parsed(Contract("AAPL", Date(2023, 1, 1), 'C', "100"))
  {
    var g := TickerGroups("AAPL", "202311", 'C', "100");
    assert Spells("AAPL202311C100", "", g, "");
    OutcomeOfSpelling("AAPL202311C100", "", g, "");
    RejectsShortMonthAsShort();
    ReadsShortMonthLongDate();
  }

  /** The pattern matches but the expiration is no date. */
  lemma RejectsImpossibleExpiration()
    ensures ParseOptionTicker("AAPL230230C1") == InvalidExpiration("Invalid expiration date")
  {
    var g := TickerGroups("AAPL", "230230", 'C', "1");
    assert Spells("AAPL230230C1", "", g, "");
    MatchTickerComplete("AAPL230230C1", "", g, "");
    RejectsImpossibleDate();
  }

  /** A stock symbol is not an option. */
  lemma RejectsStockSymbol()
    ensures ParseOptionTicker("AAPL") == NotAnOption
  {
    LetterRunIs("AAPL", 0, 4);
  }

  /** Text after the strike that starts with a non-digit is ignored, as
      `re.match` only anchors the start. */
  lemma IgnoresTrailingText()
    ensures ParseOptionTicker("AAPL230616C150.5") == Parsed(Contract("AAPL", Date(2023, 6, 16), 'C', "150"))
  {
    var g := TickerGroups("AAPL", "230616", 'C', "150");
    assert Spells("AAPL230616C150.5", "", g, ".5");
    MatchTickerComplete("AAPL230616C150.5", "", g, ".5");
    ReadsShortDate();
  }

  /** The lower-case type letters the ticker pattern admits have no side:
      `AAPL230616c00150000` parses, and the lookup for its type fails. */
  lemma LowerCaseTypeHasNoSide()
    ensures ParseOptionTicker("AAPL230616c00150000").Parsed?
    ensures ChainSideAsWritten(ParseOptionTicker("AAPL230616c00150000").contract.optionType) == None
  {
    var g := TickerGroups("AAPL", "230616", 'c', "00150000");
    assert WellFormed(g);
    SpellsConcatenation(g);
    assert "AAPL230616c00150000" == g.underlying + g.expiration + [g.optionType] + g.strike;
    MatchTickerComplete("AAPL230616c00150000", "", g, "");
    ReadsShortDate();
  }

  /** `abc::def:` holds the keys `abc` and `def`: empty fields are dropped. */
  lemma SampleKeySet()
    ensures KeySet("abc::def:") == {"abc", "def"}
  {
    var fs := ["abc", "", "def", ""];
    assert SeparatorFree(fs, ':');
    assert Join(fs, ':') == "abc::def:";
    SplitOfJoin(fs, ':');
    assert fs[0] == "abc" && fs[2] == "def";
  }

  /** With `YFI_API_KEY` set to `abc::def:`, `def` is let through, the
      empty token and a token holding the separator are refused like any
      other, and without the variable the check fails. */
  lemma ChecksConfiguredKeys()
    ensures CheckApiKey("def", map["YFI_API_KEY" := "abc::def:"]) == Granted
    ensures CheckApiKey("", map["YFI_API_KEY" := "abc::def:"]) == Denied(401, "Invalid API Key")
    ensures CheckApiKey("abc:def", map["YFI_API_KEY" := "abc::def:"]) == Denied(401, "Invalid API Key")
    ensures CheckApiKey("def", map[]) == MissingVariable
  {
    SampleKeySet();
    assert map["YFI_API_KEY" := "abc::def:"][ApiKeyVariable] == "abc::def:";
  }
}
