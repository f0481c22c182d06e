/** `datetime.datetime.strptime` for the two formats the option parser tries,
    `%y%m%d` and `%Y%m%d`, following CPython's `_strptime`: the format is
    turned into a regular expression
      `%y` = `\d\d`, `%Y` = `\d\d\d\d`,
      `%m` = `1[0-2]|0[1-9]|[1-9]`,
      `%d` = `3[0-1]|[1-2]\d|0[1-9]|[1-9]| [1-9]`,
    which is applied with `match` (anchored at the start only, alternatives
    tried left to right, the first that lets the rest match wins); if the match
    stops before the end of the input the call fails ("unconverted data
    remains"); otherwise the groups are read as integers and
    `datetime.date(year, month, day)` rejects an impossible date. Every failure
    is a `ValueError`, modelled as `None`. */
module Strptime {
  import opened Chars
  import opened Calendar

  /** `%y%m%d` (two-digit year) or `%Y%m%d` (four-digit year). */
  datatype Format = ShortYear | LongYear

  function YearWidth(f: Format): nat {
    if f == ShortYear then 2 else 4
  }

  /** The text matched by the three groups of the format's regex. */
  datatype Groups = Groups(year: string, month: string, day: string)

  function Matched(g: Groups): string {
    g.year + g.month + g.day
  }

  /** A two-character alternative of `%m` (`1[0-2]` or `0[1-9]`) matches `a b`. */
  predicate MonthPair(a: char, b: char) {
    (a == '1' && '0' <= b <= '2') || (a == '0' && '1' <= b <= '9')
  }

  /** The one-character alternative of `%m` (`[1-9]`) matches `a`. */
  predicate MonthSingle(a: char) {
    '1' <= a <= '9'
  }

  /** One of the first three alternatives of `%d` (`3[0-1]`, `[1-2]\d`,
      `0[1-9]`) matches `a b`. */
  predicate DayPair(a: char, b: char) {
    (a == '3' && '0' <= b <= '1') || ('1' <= a <= '2' && IsDigit(b)) || (a == '0' && '1' <= b <= '9')
  }

  /** The alternative `[1-9]` of `%d` matches `a`. */
  predicate DaySingle(a: char) {
    '1' <= a <= '9'
  }

  /** `t` is entirely matched by one alternative of `%m`. */
  predicate IsMonthToken(t: string) {
    (|t| == 2 && MonthPair(t[0], t[1])) || (|t| == 1 && MonthSingle(t[0]))
  }

  /** `t` is entirely matched by one alternative of `%d`, the last of which is
      ` [1-9]`. */
  predicate IsDayToken(t: string) {
    || (|t| == 2 && DayPair(t[0], t[1]))
    || (|t| == 1 && DaySingle(t[0]))
    || (|t| == 2 && t[0] == ' ' && DaySingle(t[1]))
  }

  /** The length of the first alternative of `%d`, in the regex's order, that
      matches `s` at `i`. `%d` is the last group, so the engine has no reason to
      try a later one. */
  function DayAt(s: string, i: nat): (r: Option<nat>)
    ensures r.Some? ==> i + r.value <= |s| && IsDayToken(s[i..i + r.value])
    ensures r.None? ==> !(i + 1 <= |s| && IsDayToken(s[i..i + 1]))
    ensures r != Some(2) ==> !(i + 2 <= |s| && IsDayToken(s[i..i + 2]))
  {
    if i + 2 <= |s| && DayPair(s[i], s[i + 1]) then Some(2)
    else if i + 1 <= |s| && DaySingle(s[i]) then Some(1)
    else if i + 2 <= |s| && s[i] == ' ' && DaySingle(s[i + 1]) then Some(2)
    else None
  }

  /** `format_regex.match(s)`: the groups of the first match, which need not
      reach the end of `s`. The engine takes the fixed-width year, then tries
      the two-character month alternatives before `[1-9]`, backtracking into
      the month only when no day alternative matches after it. */
  function FirstMatch(s: string, f: Format): (r: Option<Groups>)
    ensures r.Some? ==> Matched(r.value) <= s
    ensures r.Some? ==> |r.value.year| == YearWidth(f) && AllDigits(r.value.year)
    ensures r.Some? ==> IsMonthToken(r.value.month) && IsDayToken(r.value.day)
  {
    var w := YearWidth(f);
    if !(w <= |s| && AllDigits(s[..w])) then None
    else if w + 2 <= |s| && MonthPair(s[w], s[w + 1]) && DayAt(s, w + 2).Some? then
      Some(Cut(s, w, 2, DayAt(s, w + 2).value))
    else if w + 1 <= |s| && MonthSingle(s[w]) && DayAt(s, w + 1).Some? then
      Some(Cut(s, w, 1, DayAt(s, w + 1).value))
    else None
  }

  /** The groups of widths `w`, `ml` and `dl` at the start of `s`. */
  function Cut(s: string, w: nat, ml: nat, dl: nat): (g: Groups)
    requires w + ml + dl <= |s|
    ensures Matched(g) <= s
    ensures g.year == s[..w] && g.month == s[w..w + ml] && g.day == s[w + ml..w + ml + dl]
  {
    assert s[..w + ml + dl] == s[..w] + s[w..w + ml] + s[w + ml..w + ml + dl];
    Groups(s[..w], s[w..w + ml], s[w + ml..w + ml + dl])
  }

  /** The year `%y` denotes: 00-68 are 2000-2068, 69-99 are 1969-1999. */
  function PivotYear(n: nat): (y: int)
    requires n < 100
    ensures 1969 <= y <= 2068 && y % 100 == n
  {
    if n <= 68 then 2000 + n else 1900 + n
  }

  /** The year a `%y` or `%Y` token denotes; a four-digit year is at most
      9999, so `datetime.date` can only reject the year 0. */
  function YearValue(y: string, f: Format): (v: int)
    requires |y| == YearWidth(f) && AllDigits(y)
    ensures f == LongYear ==> 0 <= v <= 9999 && v == NumeralValue(y)
    ensures f == ShortYear ==> 1969 <= v <= 2068 && v % 100 == NumeralValue(y)
  {
    assert Pow10(2) == 100 && Pow10(4) == 10000;
    if f == LongYear then NumeralValue(y) else PivotYear(NumeralValue(y))
  }

  function DayValue(t: string): (v: nat)
    requires IsDayToken(t)
  {
    if t[0] == ' ' then DigitValue(t[1]) else NumeralValue(t)
  }

  /** The date the three groups denote, before `datetime.date` checks it. */
  function DateOf(g: Groups, f: Format): (d: Date)
    requires |g.year| == YearWidth(f) && AllDigits(g.year) && IsMonthToken(g.month) && IsDayToken(g.day)
  {
    Date(YearValue(g.year, f), NumeralValue(g.month), DayValue(g.day))
  }

  /** `datetime.datetime.strptime(s, fmt)` for `fmt` in `%y%m%d`, `%Y%m%d`. */
  function ParseDate(s: string, f: Format): (r: Option<Date>)
    ensures r.Some? ==> Valid(r.value)
    ensures r.Some? ==> FirstMatch(s, f).Some? && IsSplit(s, f, FirstMatch(s, f).value)
    ensures r.Some? ==> r.value == DateOf(FirstMatch(s, f).value, f)
  {
    match FirstMatch(s, f)
    case None => None
    case Some(g) =>
      if |Matched(g)| != |s| then None
      else if Valid(DateOf(g, f)) then Some(DateOf(g, f))
      else None
  }

  /** `s` is made of a year, a month and a day token of format `f`, in this
      order and with nothing left over. */
  predicate IsSplit(s: string, f: Format, g: Groups) {
    && s == Matched(g)
    && |g.year| == YearWidth(f) && AllDigits(g.year)
    && IsMonthToken(g.month) && IsDayToken(g.day)
  }

  lemma MonthTokenRange(t: string)
    requires IsMonthToken(t)
    ensures 1 <= NumeralValue(t) <= 12
  {
    if |t| == 2 {
      NumeralOfTwo(t);
    } else {
      NumeralOfOne(t);
    }
  }

  lemma DayTokenRange(t: string)
    requires IsDayToken(t)
    ensures 1 <= DayValue(t) <= 31
    ensures |t| == 1 ==> DayValue(t) <= 9
  {
    if t[0] == ' ' {
    } else if |t| == 2 {
      NumeralOfTwo(t);
    } else {
      NumeralOfOne(t);
    }
  }

  /** Two splits of one string share their year token. */
  lemma SplitsShareYear(s: string, f: Format, g: Groups, h: Groups)
    requires IsSplit(s, f, g) && IsSplit(s, f, h)
    ensures g.year == h.year
  {
    assert g.year == s[..YearWidth(f)];
    assert h.year == s[..YearWidth(f)];
  }

  /** The first match of `match` reaches the end of the input whenever the
      input can be split into the format's tokens at all: the regex tries the
      two-character alternatives of `%m` and `%d` before the one-character
      ones, so stopping early never hides a complete match. */
  lemma FirstMatchIsComplete(s: string, f: Format, g: Groups)
    requires IsSplit(s, f, g)
    ensures FirstMatch(s, f).Some? && IsSplit(s, f, FirstMatch(s, f).value)
  {
    var w := YearWidth(f);
    var ml, dl := |g.month|, |g.day|;
    assert s[..w] == g.year;
    assert s[w..w + ml] == g.month;
    assert s[w + ml..] == g.day;
  }

  /** `strptime` succeeds exactly when the input splits into the format's
      tokens and the split denotes a real date: the success half. With the
      `ensures` of `ParseDate` this makes an if-and-only-if. */
  lemma ParseDateComplete(s: string, f: Format, g: Groups)
    requires IsSplit(s, f, g) && Valid(DateOf(g, f))
    ensures ParseDate(s, f).Some?
  {
    FirstMatchIsComplete(s, f, g);
    FirstSplitValid(s, f, g, FirstMatch(s, f).value);
  }

  /** When some split of `s` denotes a real date, so does the split that is
      read first. */
  lemma FirstSplitValid(s: string, f: Format, g: Groups, h: Groups)
    requires IsSplit(s, f, g) && Valid(DateOf(g, f))
    requires IsSplit(s, f, h) && FirstMatch(s, f) == Some(h)
    ensures Valid(DateOf(h, f))
  {
    var w := YearWidth(f);
    SplitsShareYear(s, f, g, h);
    MonthTokenRange(h.month);
    DayTokenRange(h.day);
    if |g.month| == 2 {
      TwoCharacterMonthWins(s, f, g);
    } else if |h.month| == 1 {
      assert h.month == s[w..w + 1] == g.month;
      assert h.day == s[w + 1..] == g.day;
    } else {
      // The month of `g` is one character and that of `h` two, so the day
      // of `h` is one character shorter than a day token: a single digit.
      assert |h.day| == 1;
    }
  }

  /** When a complete split with a two-character month exists, it is the one
      that is read, even if another split exists: "23111" is 2023-11-01, not
      2023-01-11. */
  lemma TwoCharacterMonthWins(s: string, f: Format, g: Groups)
    requires IsSplit(s, f, g) && |g.month| == 2
    ensures FirstMatch(s, f) == Some(g)
  {
    var w := YearWidth(f);
    assert s[..w] == g.year;
    assert s[w..w + 2] == g.month;
    assert s[w + 2..] == g.day;
    assert s[w] == g.month[0] && s[w + 1] == g.month[1];
    assert s[w + 2] == g.day[0];
    assert |g.day| == 2 ==> s[w + 3] == g.day[1];
    assert MonthPair(s[w], s[w + 1]);
    assert DayAt(s, w + 2) == Some(|g.day|);
    assert s[w + 2..w + 2 + |g.day|] == g.day;
  }

  /** `s` splits into the tokens of `f` in some way that denotes a real date. */
  ghost predicate Readable(s: string, f: Format) {
    exists g :: IsSplit(s, f, g) && Valid(DateOf(g, f))
  }

  /** `strptime(s, fmt)` succeeds if and only if `s` is readable in `fmt`. */
  lemma ParseDateSucceedsIff(s: string, f: Format)
    ensures ParseDate(s, f).Some? <==> Readable(s, f)
  {
    if ParseDate(s, f).Some? {
      var h := FirstMatch(s, f).value;
      assert IsSplit(s, f, h) && Valid(DateOf(h, f));
    }
    if Readable(s, f) {
      var g :| IsSplit(s, f, g) && Valid(DateOf(g, f));
      ParseDateComplete(s, f, g);
    }
  }

  /** A split with a two-character month that denotes a real date is the
      date `strptime` returns. */
  lemma ParseDateOfSplit(s: string, f: Format, g: Groups)
    requires IsSplit(s, f, g) && |g.month| == 2 && Valid(DateOf(g, f))
    ensures ParseDate(s, f) == Some(DateOf(g, f))
  {
    TwoCharacterMonthWins(s, f, g);
  }
}
