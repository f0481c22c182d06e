/** The option-ticker parser of the quote server: a ticker such as
    `AAPL230616C00150000` is read with the pattern
    `\.?([A-Za-z]+)(\d+)([CcPp])(\d+)` (applied with `re.match`, so anchored at
    the start only), and the digit run after the underlying is read as an
    expiration date, first with `%y%m%d`, then with `%Y%m%d`. */
module OptionTicker {
  import opened Chars
  import opened Calendar
  import opened Strptime

  /** The four groups of the ticker pattern. */
  datatype TickerGroups = TickerGroups(underlying: string, expiration: string, optionType: char, strike: string)

  /** A parsed option contract: the tuple `(underlying, expiration, type, strike)`. */
  datatype Contract = Contract(underlying: string, expiration: Date, optionType: char, strike: string)

  /** The three outcomes of `parse_option_ticker`: `None` (not an option),
      the dictionary `{'error': ...}`, or the contract tuple. */
  datatype ParseResult =
    | NotAnOption
    | InvalidExpiration(error: string)
    | Parsed(contract: Contract)

  const InvalidExpirationMessage: string := "Invalid expiration date"

  /** `[CcPp]`. */
  predicate IsOptionType(c: char) {
    c == 'C' || c == 'c' || c == 'P' || c == 'p'
  }

  /** Every character of `s` from `i` up to `j` is a letter. The matcher
      works on positions in the whole ticker, so the classes are stated here
      for the range `i..j` of `s` as well as by `AllLetters`/`AllDigits` of
      the slice `s[i..j]`, which the groups are; `ClassesOfSlices` shows
      that the two agree. */
  predicate LettersBetween(s: string, i: nat, j: nat)
    requires j <= |s|
  {
    forall k :: i <= k < j ==> IsLetter(s[k])
  }

  /** Every character of `s` from `i` up to `j` is a digit. */
  predicate DigitsBetween(s: string, i: nat, j: nat)
    requires j <= |s|
  {
    forall k :: i <= k < j ==> IsDigit(s[k])
  }

  /** The length of the longest run of letters of `s` starting at `i`. */
  function LetterRun(s: string, i: nat): (n: nat)
    requires i <= |s|
    ensures i + n <= |s|
    ensures LettersBetween(s, i, i + n)
    ensures i + n < |s| ==> !IsLetter(s[i + n])
    decreases |s| - i
  {
    if i < |s| && IsLetter(s[i]) then 1 + LetterRun(s, i + 1) else 0
  }

  /** The length of the longest run of digits of `s` starting at `i`. */
  function DigitRun(s: string, i: nat): (n: nat)
    requires i <= |s|
    ensures i + n <= |s|
    ensures DigitsBetween(s, i, i + n)
    ensures i + n < |s| ==> !IsDigit(s[i + n])
    decreases |s| - i
  {
    if i < |s| && IsDigit(s[i]) then 1 + DigitRun(s, i + 1) else 0
  }

  /** Where the groups of a match of the ticker pattern start and end: the
      underlying is `s[start..underlyingEnd]`, the expiration digits
      `s[underlyingEnd..typeAt]`, the type letter `s[typeAt]` and the strike
      `s[typeAt + 1..strikeEnd]`. */
  datatype Bounds = Bounds(start: nat, underlyingEnd: nat, typeAt: nat, strikeEnd: nat)

  /** 1 when the optional `.` is present, else 0. */
  function LeadLength(s: string): (n: nat)
    ensures n <= |s|
  {
    if |s| > 0 && s[0] == '.' then 1 else 0
  }

  /** The greedy scan of `\.?([A-Za-z]+)(\d+)([CcPp])(\d+)` from the start
      of `s`. No group can give back characters to the next one (a letter run
      is followed by a digit, a digit run by a type letter, and the strike is
      last), so the greedy runs are the regex match; an unmatched optional `.`
      would leave `[A-Za-z]+` facing a `.`, so taking the dot when it is there
      loses nothing. */
  function MatchBounds(s: string): (r: Option<Bounds>)
    ensures r.Some? ==> r.value.start == LeadLength(s)
    ensures r.Some? ==> r.value.start < r.value.underlyingEnd < r.value.typeAt < r.value.typeAt + 1 < r.value.strikeEnd <= |s|
  {
    var i := LeadLength(s);
    var j := i + LetterRun(s, i);
    var k := j + DigitRun(s, j);
    if j == i || k == j || k >= |s| || !IsOptionType(s[k]) then None
    else
      var e := k + 1 + DigitRun(s, k + 1);
      if e == k + 1 then None
      else Some(Bounds(i, j, k, e))
  }

  /** `b` delimits groups that meet the pattern: the optional dot, then
      non-empty runs of letters and digits, a type letter, and a non-empty
      digit run that is not followed by another digit. */
  predicate IsMatch(s: string, b: Bounds) {
    && b.start == LeadLength(s)
    && b.start < b.underlyingEnd < b.typeAt < b.typeAt + 1 < b.strikeEnd <= |s|
    && LettersBetween(s, b.start, b.underlyingEnd)
    && DigitsBetween(s, b.underlyingEnd, b.typeAt)
    && IsOptionType(s[b.typeAt])
    && DigitsBetween(s, b.typeAt + 1, b.strikeEnd)
    && (b.strikeEnd < |s| ==> !IsDigit(s[b.strikeEnd]))
  }

  /** The groups a match delimits, each of the class the pattern gives it. */
  function GroupsAt(s: string, b: Bounds): (g: TickerGroups)
    requires IsMatch(s, b)
    ensures WellFormed(g)
  {
    ClassesOfSlices(s, b.start, b.underlyingEnd);
    ClassesOfSlices(s, b.underlyingEnd, b.typeAt);
    ClassesOfSlices(s, b.typeAt + 1, b.strikeEnd);
    TickerGroups(s[b.start..b.underlyingEnd], s[b.underlyingEnd..b.typeAt], s[b.typeAt], s[b.typeAt + 1..b.strikeEnd])
  }

  /** Groups of the classes the pattern gives them: letters, digits, one of
      `CcPp`, digits, none of the runs empty. */
  predicate WellFormed(g: TickerGroups) {
    && |g.underlying| > 0 && AllLetters(g.underlying)
    && |g.expiration| > 0 && AllDigits(g.expiration)
    && IsOptionType(g.optionType)
    && |g.strike| > 0 && AllDigits(g.strike)
  }

  /** `option_ticker_regex.match(s).groups()`, or `None` when there is no
      match. */
  function MatchTicker(s: string): (r: Option<TickerGroups>)
    ensures r.Some? ==> WellFormed(r.value)
  {
    match MatchBounds(s)
    case None => None
    case Some(b) => MatchBoundsSound(s); Some(GroupsAt(s, b))
  }

  /** The independent reading of the pattern: `s` is an optional `.`, a
      letter run, a digit run, one of `CcPp`, a digit run, and a tail that does
      not continue the strike. */
  predicate Spells(s: string, lead: string, g: TickerGroups, rest: string) {
    && s == lead + g.underlying + g.expiration + [g.optionType] + g.strike + rest
    && (lead == "" || lead == ".")
    && WellFormed(g)
    && (rest == [] || !IsDigit(rest[0]))
  }

  /** The same reading by positions: each piece of a spelling is the slice
      of `s` that its length and the lengths before it give. */
  predicate Layout(s: string, lead: string, g: TickerGroups, rest: string) {
    var i := |lead|;
    var j := i + |g.underlying|;
    var k := j + |g.expiration|;
    var e := k + 1 + |g.strike|;
    && e + |rest| == |s|
    && (lead == "" || lead == ".")
    && WellFormed(g)
    && (rest == [] || !IsDigit(rest[0]))
    && s[..i] == lead && s[i..j] == g.underlying && s[j..k] == g.expiration
    && s[k] == g.optionType && s[k + 1..e] == g.strike && s[e..] == rest
  }

  lemma LayoutOfSpelling(s: string, lead: string, g: TickerGroups, rest: string)
    requires Spells(s, lead, g, rest)
    ensures Layout(s, lead, g, rest)
  {
    var p1 := lead + g.underlying;
    var p2 := p1 + g.expiration;
    var p3 := p2 + [g.optionType];
    var p4 := p3 + g.strike;
    assert s[..|p4|] == p4 && s[|p4|..] == rest;
    assert p4[..|p3|] == p3 && p4[|p3|..] == g.strike;
    assert p3[..|p2|] == p2 && p3[|p2|] == g.optionType;
    assert p2[..|p1|] == p1 && p2[|p1|..] == g.expiration;
    assert p1[..|lead|] == lead && p1[|lead|..] == g.underlying;
  }

  lemma SpellingOfLayout(s: string, lead: string, g: TickerGroups, rest: string)
    requires Layout(s, lead, g, rest)
    ensures Spells(s, lead, g, rest)
  {
    var i := |lead|;
    var j := i + |g.underlying|;
    var k := j + |g.expiration|;
    var e := k + 1 + |g.strike|;
    Pieces(s, i, j, k, e, lead, g.underlying, g.expiration, g.optionType, g.strike, rest);
  }

  /** Six slices of `s` that cover it in order glue back into `s`. */
  lemma Pieces(s: string, i: nat, j: nat, k: nat, e: nat,
               lead: string, u: string, x: string, c: char, t: string, rest: string)
    requires i <= j <= k < e <= |s|
    requires s[..i] == lead && s[i..j] == u && s[j..k] == x
    requires s[k] == c && s[k + 1..e] == t && s[e..] == rest
    ensures s == lead + u + x + [c] + t + rest
  {
    assert s[k..k + 1] == [c];
    Glue(s, i, j, lead, u);
    Glue(s, j, k, lead + u, x);
    Glue(s, k, k + 1, lead + u + x, [c]);
    Glue(s, k + 1, e, lead + u + x + [c], t);
    Glue(s, e, |s|, lead + u + x + [c] + t, rest);
    assert s == s[..|s|];
  }

  /** The class of a group, seen at its position in the whole string. */
  lemma PieceClasses(s: string, i: nat, j: nat, t: string)
    requires i <= j <= |s| && s[i..j] == t
    ensures AllLetters(t) ==> LettersBetween(s, i, j)
    ensures AllDigits(t) ==> DigitsBetween(s, i, j)
  {
    ClassesOfSlices(s, i, j);
  }

  /** Two adjacent slices of `s` taken from the start glue into one. */
  lemma Glue(s: string, i: nat, j: nat, a: string, b: string)
    requires i <= j <= |s| && s[..i] == a && s[i..j] == b
    ensures s[..j] == a + b
  {
    assert s[..j] == s[..i] + s[i..j];
  }

  /** The letters or digits of a slice, seen in the whole string. */
  lemma ClassesOfSlices(s: string, i: nat, j: nat)
    requires i <= j <= |s|
    ensures AllLetters(s[i..j]) <==> LettersBetween(s, i, j)
    ensures AllDigits(s[i..j]) <==> DigitsBetween(s, i, j)
  {
    assert forall m :: i <= m < j ==> s[m] == s[i..j][m - i];
  }

  /** What is not matched after the strike. */
  function Tail(s: string): (rest: string)
    requires MatchBounds(s).Some?
  {
    s[MatchBounds(s).value.strikeEnd..]
  }

  /** A match splits the input as the pattern says. */
  lemma MatchTickerSound(s: string)
    requires MatchTicker(s).Some?
    ensures Spells(s, s[..LeadLength(s)], MatchTicker(s).value, Tail(s))
  {
    MatchBoundsSound(s);
    var b := MatchBounds(s).value;
    BoundsLayout(s, b);
    SpellingOfLayout(s, s[..b.start], GroupsAt(s, b), s[b.strikeEnd..]);
  }

  /** Bounds that meet the pattern cut `s` into the layout of a spelling. */
  lemma BoundsLayout(s: string, b: Bounds)
    requires IsMatch(s, b)
    ensures Layout(s, s[..b.start], GroupsAt(s, b), s[b.strikeEnd..])
  {
    assert s[..b.start] == "" || s[..b.start] == ".";
    assert b.strikeEnd < |s| ==> s[b.strikeEnd..][0] == s[b.strikeEnd];
  }

  /** A run of letters that stops before a non-letter is the longest one. */
  lemma LetterRunIs(s: string, i: nat, n: nat)
    requires i + n <= |s| && LettersBetween(s, i, i + n)
    requires i + n < |s| ==> !IsLetter(s[i + n])
    ensures LetterRun(s, i) == n
  {
  }

  /** A run of digits that stops before a non-digit is the longest one. */
  lemma DigitRunIs(s: string, i: nat, n: nat)
    requires i + n <= |s| && DigitsBetween(s, i, i + n)
    requires i + n < |s| ==> !IsDigit(s[i + n])
    ensures DigitRun(s, i) == n
  {
  }

  /** The scan finds bounds that meet the pattern. */
  lemma MatchBoundsSound(s: string)
    requires MatchBounds(s).Some?
    ensures IsMatch(s, MatchBounds(s).value)
  {
  }

  /** Bounds that meet the pattern are the ones the scan finds. */
  lemma MatchBoundsUnique(s: string, b: Bounds)
    requires IsMatch(s, b)
    ensures MatchBounds(s) == Some(b)
  {
    RunsOfMatch(s, b);
  }

  /** The runs of bounds that meet the pattern are the longest ones. */
  lemma RunsOfMatch(s: string, b: Bounds)
    requires IsMatch(s, b)
    ensures LetterRun(s, b.start) == b.underlyingEnd - b.start
    ensures DigitRun(s, b.underlyingEnd) == b.typeAt - b.underlyingEnd
    ensures DigitRun(s, b.typeAt + 1) == b.strikeEnd - b.typeAt - 1
  {
    LetterRunIs(s, b.start, b.underlyingEnd - b.start);
    DigitRunIs(s, b.underlyingEnd, b.typeAt - b.underlyingEnd);
    DigitRunIs(s, b.typeAt + 1, b.strikeEnd - b.typeAt - 1);
  }

  /** The groups written one after the other, with no dot and no tail, read
      as themselves. */
  lemma SpellsConcatenation(g: TickerGroups)
    requires WellFormed(g)
    ensures Spells(g.underlying + g.expiration + [g.optionType] + g.strike, "", g, "")
  {
    var s := g.underlying + g.expiration + [g.optionType] + g.strike;
    assert s == "" + g.underlying + g.expiration + [g.optionType] + g.strike + "";
  }

  /** Every way of spelling `s` with the pattern is the match. */
  lemma MatchTickerComplete(s: string, lead: string, g: TickerGroups, rest: string)
    requires Spells(s, lead, g, rest)
    ensures MatchTicker(s) == Some(g)
  {
    LayoutOfSpelling(s, lead, g, rest);
    var b := LayoutBounds(s, lead, g, rest);
    MatchBoundsUnique(s, b);
  }

  /** The positions of a layout meet the pattern and delimit its groups. */
  lemma LayoutBounds(s: string, lead: string, g: TickerGroups, rest: string) returns (b: Bounds)
    requires Layout(s, lead, g, rest)
    ensures IsMatch(s, b) && GroupsAt(s, b) == g
  {
    var i := |lead|;
    var j := i + |g.underlying|;
    var k := j + |g.expiration|;
    var e := k + 1 + |g.strike|;
    b := Bounds(i, j, k, e);
    PieceClasses(s, i, j, g.underlying);
    PieceClasses(s, j, k, g.expiration);
    PieceClasses(s, k + 1, e, g.strike);
    assert LeadLength(s) == i by {
      if lead == "" { assert s[0] == s[i..j][0]; }
    }
    assert e < |s| ==> s[e] == s[e..][0];
  }

  /** `parse_option_ticker(s)`. */
  function ParseOptionTicker(s: string): (r: ParseResult)
    ensures r.InvalidExpiration? ==> r.error == InvalidExpirationMessage
    ensures r.Parsed? ==> Valid(r.contract.expiration)
    ensures r.Parsed? ==> IsOptionType(r.contract.optionType)
    ensures r.Parsed? ==> |r.contract.underlying| > 0 && AllLetters(r.contract.underlying)
    ensures r.Parsed? ==> |r.contract.strike| > 0 && AllDigits(r.contract.strike)
  {
    match MatchTicker(s)
    case None => NotAnOption
    case Some(g) =>
      match ParseDate(g.expiration, ShortYear)
      case Some(d) => Parsed(Contract(g.underlying, d, g.optionType, g.strike))
      case None =>
        match ParseDate(g.expiration, LongYear)
        case Some(d) => Parsed(Contract(g.underlying, d, g.optionType, g.strike))
        case None => InvalidExpiration(InvalidExpirationMessage)
  }

  /** A ticker is "not an option" exactly when no reading of the pattern
      spells it. */
  lemma NotAnOptionIffNoSpelling(s: string)
    ensures ParseOptionTicker(s).NotAnOption? <==> !exists lead, g, rest :: Spells(s, lead, g, rest)
  {
    if ParseOptionTicker(s).NotAnOption? {
      forall lead, g, rest | Spells(s, lead, g, rest)
        ensures false
      {
        MatchTickerComplete(s, lead, g, rest);
      }
    } else {
      MatchTickerSound(s);
    }
  }

  /** For a spelled ticker, the contract carries the spelled underlying,
      type letter and strike unchanged, and the error is returned exactly
      when the expiration digits read as a date in neither format. */
  lemma OutcomeOfSpelling(s: string, lead: string, g: TickerGroups, rest: string)
    requires Spells(s, lead, g, rest)
    ensures !ParseOptionTicker(s).NotAnOption?
    ensures ParseOptionTicker(s).Parsed? ==>
      var c := ParseOptionTicker(s).contract;
      c.underlying == g.underlying && c.optionType == g.optionType && c.strike == g.strike
    ensures ParseOptionTicker(s).InvalidExpiration? <==>
      !Readable(g.expiration, ShortYear) && !Readable(g.expiration, LongYear)
    ensures ParseDate(g.expiration, ShortYear).Some? ==>
      ParseOptionTicker(s) == Parsed(Contract(g.underlying, ParseDate(g.expiration, ShortYear).value, g.optionType, g.strike))

    ensures ParseDate(g.expiration, ShortYear).None? && ParseDate(g.expiration, LongYear).Some? ==>
      ParseOptionTicker(s) == Parsed(Contract(g.underlying, ParseDate(g.expiration, LongYear).value, g.optionType, g.strike))
  {
    MatchTickerComplete(s, lead, g, rest);
    ParseDateSucceedsIff(g.expiration, ShortYear);
    ParseDateSucceedsIff(g.expiration, LongYear);
  }

  /** The two-digit-year reading is tried first: when the expiration digits
      are a real date in `%y%m%d`, that date is the expiration. */
  lemma ShortYearFirst(s: string, lead: string, g: TickerGroups, rest: string, h: Groups)
    requires Spells(s, lead, g, rest)
    requires IsSplit(g.expiration, ShortYear, h) && |h.month| == 2 && Valid(DateOf(h, ShortYear))
    ensures ParseOptionTicker(s) == Parsed(Contract(g.underlying, DateOf(h, ShortYear), g.optionType, g.strike))
  {
    MatchTickerComplete(s, lead, g, rest);
    ParseDateOfSplit(g.expiration, ShortYear, h);
  }

  /** Digits that are no date in `%y%m%d` are read with `%Y%m%d`. */
  lemma LongYearFallback(s: string, lead: string, g: TickerGroups, rest: string, h: Groups)
    requires Spells(s, lead, g, rest) && !Readable(g.expiration, ShortYear)
    requires IsSplit(g.expiration, LongYear, h) && |h.month| == 2 && Valid(DateOf(h, LongYear))
    ensures ParseOptionTicker(s) == Parsed(Contract(g.underlying, DateOf(h, LongYear), g.optionType, g.strike))
  {
    MatchTickerComplete(s, lead, g, rest);
    ParseDateSucceedsIff(g.expiration, ShortYear);
    ParseDateOfSplit(g.expiration, LongYear, h);
  }
}
