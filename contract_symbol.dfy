/** The contract symbol the quote handler rebuilds from a parsed ticker,
    `<underlying><%y%m%d of the expiration><type upper-cased><strike>`, and
    the map from the type letter to the call or put side of an option
    chain. */
module ContractSymbol {
  import opened Chars
  import opened Calendar
  import opened Strptime
  import opened OptionTicker

  /** The three `%02d` fields `strftime("%y%m%d")` prints for `d`. */
  function ShortGroups(d: Date): (g: Groups)
    requires Valid(d)
    ensures |g.year| == 2 && |g.month| == 2 && |g.day| == 2
    ensures AllDigits(g.year) && AllDigits(g.month) && AllDigits(g.day)
    ensures NumeralValue(g.year) == d.year % 100 && NumeralValue(g.month) == d.month && NumeralValue(g.day) == d.day
  {
    Groups(TwoDigits(d.year % 100), TwoDigits(d.month), TwoDigits(d.day))
  }

  /** `d.strftime("%y%m%d")`: the year modulo 100, the month and the day,
      each zero-padded to two digits. */
  function FormatShortDate(d: Date): (s: string)
    requires Valid(d)
    ensures |s| == 6 && AllDigits(s)
  {
    Matched(ShortGroups(d))
  }

  /** The date `%y%m%d` reads back from `d` printed with `%y%m%d`: the same
      month and day, and the year of the 1969-2068 window with the same last two
      digits. */
  function Windowed(d: Date): (w: Date)
    requires Valid(d)
    ensures w == d <==> 1969 <= d.year <= 2068
  {
    Date(PivotYear(d.year % 100), d.month, d.day)
  }

  /** A valid date printed with `%y%m%d` splits into the tokens of `%y%m%d`
      with a two-character month. */
  lemma ShortGroupsSplit(d: Date)
    requires Valid(d)
    ensures IsSplit(FormatShortDate(d), ShortYear, ShortGroups(d))
    ensures DateOf(ShortGroups(d), ShortYear) == Windowed(d)
  {
    var g := ShortGroups(d);
    assert MonthPair(g.month[0], g.month[1]);
    assert DayPair(g.day[0], g.day[1]);
  }

  /** Moving a date to the year with the same last two digits in the
      1969-2068 window keeps it real: February 29 exists in both years or in
      neither, as the years agree modulo 4 and the window's only century year,
      2000, is a leap year. */
  lemma WindowedValid(d: Date)
    requires Valid(d)
    ensures Valid(Windowed(d))
  {
    var n := d.year % 100;
    var y := Windowed(d).year;
    var q := d.year / 100;
    var c := if n <= 68 then 20 else 19;
    assert d.year == 100 * q + n && y == 100 * c + n;
    assert y % 4 == d.year % 4 by {
      MultipleOfFourApart(100 * q + n, 25 * q, 100 * c + n, 25 * c);
    }
    if d.year % 100 == 0 {
      assert y == 2000;
    }
  }

  /** Numbers a multiple of four apart agree modulo four. */
  lemma MultipleOfFourApart(a: int, i: int, b: int, j: int)
    requires a - 4 * i == b - 4 * j
    ensures a % 4 == b % 4
  {
  }

  /** `strptime(d.strftime("%y%m%d"), "%y%m%d")` is `d` moved into the
      1969-2068 window, which is `d` itself exactly for the years of the
      window. */
  lemma ShortDateRoundTrip(d: Date)
    requires Valid(d)
    ensures ParseDate(FormatShortDate(d), ShortYear) == Some(Windowed(d))
  {
    ShortGroupsSplit(d);
    WindowedValid(d);
    ParseDateOfSplit(FormatShortDate(d), ShortYear, ShortGroups(d));
  }

  /** Six digits that `%y%m%d` reads as a date are printed back unchanged
      by `%y%m%d`. */
  lemma FormatOfShortParse(e: string)
    requires |e| == 6 && AllDigits(e) && ParseDate(e, ShortYear).Some?
    ensures FormatShortDate(ParseDate(e, ShortYear).value) == e
  {
    var h := FirstMatch(e, ShortYear).value;
    var d := ParseDate(e, ShortYear).value;
    assert |h.month| == 2 && |h.day| == 2;
    assert h.day == e[4..] && h.month == e[2..4] && h.year == e[..2];
    assert AllDigits(h.day) && AllDigits(h.month);
    TwoDigitsOfValue(h.year);
    TwoDigitsOfValue(h.month);
    TwoDigitsOfValue(h.day);
    assert ShortGroups(d) == h;
  }

  /** A contract as `parse_option_ticker` returns it. */
  predicate WellFormedContract(c: Contract) {
    && |c.underlying| > 0 && AllLetters(c.underlying)
    && Valid(c.expiration)
    && IsOptionType(c.optionType)
    && |c.strike| > 0 && AllDigits(c.strike)
  }

  /** The `option_code` f-string: underlying, expiration in `%y%m%d`, type
      letter upper-cased, strike. */
  function OptionCode(c: Contract): (s: string)
    requires Valid(c.expiration)
    ensures |s| == |c.underlying| + 7 + |c.strike|
    ensures s[..|c.underlying|] == c.underlying
    ensures AllDigits(s[|c.underlying|..|c.underlying| + 6])
    ensures IsOptionType(c.optionType) ==> s[|c.underlying| + 6] == 'C' || s[|c.underlying| + 6] == 'P'
    ensures s[|c.underlying| + 7..] == c.strike
  {
    var d := FormatShortDate(c.expiration);
    assert (c.underlying + d + [Upper(c.optionType)] + c.strike)[|c.underlying|..|c.underlying| + 6] == d;
    c.underlying + FormatShortDate(c.expiration) + [Upper(c.optionType)] + c.strike
  }

  /** The groups an option code spells. */
  function CodeGroups(c: Contract): (g: TickerGroups)
    requires WellFormedContract(c)
    ensures WellFormed(g)
  {
    TickerGroups(c.underlying, FormatShortDate(c.expiration), Upper(c.optionType), c.strike)
  }

  /** Parsing the option code of any contract the parser can return gives
      that contract with its type letter upper-cased and its expiration moved
      into the 1969-2068 window. */
  lemma OptionCodeParses(c: Contract)
    requires WellFormedContract(c)
    ensures ParseOptionTicker(OptionCode(c)) == Parsed(Contract(c.underlying, Windowed(c.expiration), Upper(c.optionType), c.strike))
  {
    var g := CodeGroups(c);
    SpellsConcatenation(g);
    ShortGroupsSplit(c.expiration);
    WindowedValid(c.expiration);
    ShortYearFirst(OptionCode(c), "", g, "", ShortGroups(c.expiration));
  }

  /** ... and so gives the contract itself when its type letter is upper
      case and its year is in the window. */
  lemma ParseOfOptionCode(c: Contract)
    requires WellFormedContract(c) && (c.optionType == 'C' || c.optionType == 'P')
    requires 1969 <= c.expiration.year <= 2068
    ensures ParseOptionTicker(OptionCode(c)) == Parsed(c)
  {
    OptionCodeParses(c);
  }

  /** A ticker written the way the option code writes it: no leading dot,
      an upper-case type letter, a six-digit expiration that `%y%m%d` reads
      as a date, and nothing after the strike. */
  predicate Canonical(s: string) {
    && MatchTicker(s).Some?
    && var g := MatchTicker(s).value;
    && LeadLength(s) == 0
    && (g.optionType == 'C' || g.optionType == 'P')
    && |g.expiration| == 6
    && ParseDate(g.expiration, ShortYear).Some?
    && Tail(s) == []
  }

  /** The option code rebuilt from a parsed ticker is the ticker itself
      exactly when the ticker is canonical. */
  lemma OptionCodeReproducesIff(s: string)
    requires ParseOptionTicker(s).Parsed?
    ensures OptionCode(ParseOptionTicker(s).contract) == s <==> Canonical(s)
  {
    if Canonical(s) {
      CanonicalReproduced(s);
    }
    if OptionCode(ParseOptionTicker(s).contract) == s {
      ReproducedCanonical(s);
    }
  }

  lemma CanonicalReproduced(s: string)
    requires ParseOptionTicker(s).Parsed? && Canonical(s)
    ensures OptionCode(ParseOptionTicker(s).contract) == s
  {
    var g := MatchTicker(s).value;
    var c := ParseOptionTicker(s).contract;
    assert c == Contract(g.underlying, ParseDate(g.expiration, ShortYear).value, g.optionType, g.strike);
    FormatOfShortParse(g.expiration);
    MatchTickerSound(s);
    assert s[..0] == "" && Tail(s) == "";
    BareSpelling(s, g);
  }

  /** A spelling with no dot and no tail is the groups written one after
      the other. */
  lemma BareSpelling(s: string, g: TickerGroups)
    requires Spells(s, "", g, "")
    ensures s == g.underlying + g.expiration + [g.optionType] + g.strike
  {
    assert "" + g.underlying == g.underlying;
  }

  lemma ReproducedCanonical(s: string)
    requires ParseOptionTicker(s).Parsed? && OptionCode(ParseOptionTicker(s).contract) == s
    ensures Canonical(s)
  {
    var c := ParseOptionTicker(s).contract;
    var g := CodeGroups(c);
    SpellsConcatenation(g);
    MatchTickerComplete(s, "", g, "");
    ShortDateRoundTrip(c.expiration);
    assert s[0] == c.underlying[0];
    MatchTickerSound(s);
  }

  /** `option_chain_index`: position of the calls (0) and the puts (1) in
      the pair an option chain is. */
  const OptionChainIndex: map<char, nat> := map['C' := 0, 'P' := 1]

  /** The map has exactly the upper-case letters as keys, calls first. */
  lemma ChainIndexKeys()
    ensures forall t :: t in OptionChainIndex <==> t == 'C' || t == 'P'
    ensures OptionChainIndex['C'] == 0 && OptionChainIndex['P'] == 1
  {
  }

  /** `option_chain_index[option_type]` as the quote handler writes it, with
      the raw type letter of the parsed ticker; `None` is the `KeyError` the
      lookup raises. */
  function ChainSideAsWritten(t: char): (r: Option<nat>)
    ensures r.Some? <==> t == 'C' || t == 'P'
    ensures r.Some? ==> r.value <= 1
  {
    if t in OptionChainIndex then Some(OptionChainIndex[t]) else None
  }

  /** The side looked up with the upper-cased type letter, the letter the
      option code carries. */
  function ChainSide(t: char): (r: nat)
    requires IsOptionType(t)
    ensures r == 0 <==> t == 'C' || t == 'c'
    ensures r == 1 <==> t == 'P' || t == 'p'
  {
    OptionChainIndex[Upper(t)]
  }

  /** The corrected lookup agrees with the written one wherever that one is
      defined, and for every parsed contract it is the side of the type
      letter in the contract's option code. */
  lemma ChainSideOfCode(c: Contract)
    requires WellFormedContract(c)
    ensures ChainSideAsWritten(c.optionType).Some? ==> ChainSideAsWritten(c.optionType).value == ChainSide(c.optionType)
    ensures ChainSideAsWritten(OptionCode(c)[|c.underlying| + 6]) == Some(ChainSide(c.optionType))
  {
    assert OptionCode(c)[|c.underlying| + 6] == Upper(c.optionType);
  }
}
