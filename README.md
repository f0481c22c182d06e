# Option tickers and API keys of the yfinance quote server

This project models the parts of the yfinance quote server (`server.py`) that
do real work, and proves properties about them:

- **The option-ticker parser** `parse_option_ticker`. It matches a ticker such
  as `AAPL230616C00150000` against `\.?([A-Za-z]+)(\d+)([CcPp])(\d+)`,
  anchored at the start only. It then reads the digit run after the
  underlying as an expiration date, first with `%y%m%d` and then with
  `%Y%m%d`. There are three outcomes:
  - not an option (`None`);
  - the error dictionary `{'error': 'Invalid expiration date'}`;
  - the tuple (underlying, expiration, type letter, strike).
- **`strptime` for those two formats.** It follows CPython's `_strptime`:
  - each directive becomes a group of regular-expression alternatives;
  - the expression is applied with `match`, so the first alternative that
    lets the rest match wins;
  - leftover input fails, as "unconverted data remains";
  - `datetime.date` rejects impossible dates, using the proleptic Gregorian
    calendar and years 1 to 9999.
- **The option code** the quote handler rebuilds from a parsed ticker: the
  underlying, the expiration printed with `%y%m%d`, the type letter
  upper-cased, and the strike.
- **The chain-side map** from the type letter to the calls (0) or puts (1) of
  an option chain.
- **The API-key check.** The variable `YFI_API_KEY` holds `:`-separated
  keys, empty fields are dropped, and a request passes only if its token is
  one of the remaining keys.

Modules, one per file:

| file | module | contents |
|---|---|---|
| `chars.dfy` | `Chars` | character classes, digits, numerals |
| `calendar.dfy` | `Calendar` | dates, leap years, the checks `datetime.date` makes |
| `strptime.dfy` | `Strptime` | the two date formats |
| `ticker.dfy` | `OptionTicker` | the ticker pattern and `parse_option_ticker` |
| `contract_symbol.dfy` | `ContractSymbol` | `%y%m%d` printing, the option code, the chain-side map |
| `api_key.dfy` | `ApiKey` | Python's `split`, the key set, `get_api_key` |
| `scenarios.dfy` | `Scenarios` | worked inputs, each derived from the general lemmas |

### How the ticker is specified

The matcher (`MatchBounds`) computes where each group ends. A ticker is
*spelled* (`Spells`) by an optional `.`, then:
- a non-empty run of letters;
- a non-empty run of digits;
- one of `CcPp`;
- a non-empty run of digits;
- a tail that does not begin with a digit.

The model proves that the matcher finds a spelling whenever one exists and
that spellings are unique. No group can give characters back to the next one,
so this spelling is what the regex engine returns.

### How `%y%m%d` and `%Y%m%d` are specified

A string is *split* (`IsSplit`) into a year token of the format's width, a
month token and a day token. The matcher of the date regex (`FirstMatch`)
follows the alternatives in the engine's order. The model proves that when
any split denotes a real date, the first match reaches the end of the input
and is such a split. So `strptime` succeeds exactly when some split is a
real date (`Readable`).

Some strings have two splits. `23111` can be read as 2023-01-11 or 2023-11-01,
and it is read as 2023-11-01, because `1[0-2]` is tried before `[1-9]`
(`TwoCharacterMonthWins`).

CPython's `%d` includes the alternative ` [1-9]`: a space, then a digit.
The model keeps it (`DayAt`). A ticker's expiration group holds only digits,
so that alternative never applies there.

## Model

| member | source | states |
|---|---|---|
| Chars.Upper | server.py:96 | `str.upper()` on one ASCII character: `a`-`z` become `A`-`Z` (32 code points lower), every other ASCII character is unchanged; it is applied only to the type letter, one of `CcPp` |
| Chars.NumeralValue | server.py:61 | `int()` of a run of decimal digits: a natural number with no more digits than the run has characters |
| Chars.TwoDigits | server.py:96 | the zero-padded field `strftime` prints for a number below 100: two digits that read back as that number |
| Chars.TwoDigitsOfValue | server.py:61 | a two-digit numeral is below 100 and prints back unchanged |
| Calendar.DaysInMonth | server.py:61 | every month has 28 to 31 days, and February has 29 exactly in a leap year |
| Calendar.IsValidDate | server.py:61 | `datetime.date` accepts only years 1-9999, months 1-12 and days 1-31; days 1-28 always; February 29 exactly in a leap year; the 31st exactly in a long month |
| Strptime.PivotYear | server.py:58 | `%y` puts two-digit years into 1969-2068 and keeps their last two digits |
| Strptime.YearValue | server.py:58-61 | a `%Y` year is the four digits' value, at most 9999; a `%y` year lies in 1969-2068 and ends in the two digits read |
| Strptime.DayAt | server.py:61 | the `%d` alternative tried first that matches: the token it covers, and that no match is missed |
| Strptime.FirstMatch | server.py:61 | `match` of a format's regex: a prefix of the input made of a year of the format's width, a month token and a day token |
| Strptime.ParseDate | server.py:61 | `strptime` succeeds only with a valid calendar date, read from the first match, and only if that match covers the whole input |
| Strptime.MonthTokenRange | server.py:61 | every month token denotes 1..12 |
| Strptime.DayTokenRange | server.py:61 | every day token denotes 1..31, and a one-character one denotes at most 9 |
| Strptime.SplitsShareYear | server.py:61 | all splits of a string have the same year token |
| Strptime.FirstMatchIsComplete | server.py:61 | if the input splits into the format's tokens at all, the first match is itself such a complete split |
| Strptime.ParseDateComplete | server.py:61 | a split that denotes a real date makes `strptime` succeed |
| Strptime.FirstSplitValid | server.py:61 | if one split is a real date, the split read first is a real date too |
| Strptime.TwoCharacterMonthWins | server.py:61 | a split with a two-character month is the one read, even when another split exists |
| Strptime.ParseDateSucceedsIff | server.py:58-64 | `strptime` with a format succeeds if and only if the input splits into a real date in that format |
| Strptime.ParseDateOfSplit | server.py:61 | a real-date split with a two-character month is the exact date returned |
| OptionTicker.LetterRun | server.py:33 | `[A-Za-z]+` is greedy: a run of letters followed by a non-letter |
| OptionTicker.DigitRun | server.py:33 | `\d+` is greedy: a run of digits followed by a non-digit |
| OptionTicker.LetterRunIs | server.py:33 | any letter run that ends before a non-letter is the greedy run |
| OptionTicker.DigitRunIs | server.py:33 | any digit run that ends before a non-digit is the greedy run |
| OptionTicker.MatchBounds | server.py:54 | a match starts after the optional dot, and the underlying, the expiration and the strike are non-empty and end in this order within the ticker |
| OptionTicker.MatchBoundsSound | server.py:54 | the positions the matcher finds delimit an optional dot, letters, digits, one of `CcPp`, and digits not followed by a digit |
| OptionTicker.RunsOfMatch | server.py:54 | for positions that meet the pattern, each group is a greedy run |
| OptionTicker.MatchBoundsUnique | server.py:54 | the positions that meet the pattern are unique, and they are the ones the matcher finds |
| OptionTicker.GroupsAt | server.py:54 | the groups a match delimits have the pattern's classes, none of them empty |
| OptionTicker.MatchTicker | server.py:54 | the match groups are letters, digits, one of `CcPp`, and digits, none empty |
| OptionTicker.MatchTickerSound | server.py:54 | a match spells the ticker: optional dot, the groups, and a tail not starting with a digit |
| OptionTicker.MatchTickerComplete | server.py:54 | every spelling of the ticker is the match; in particular the spelling is unique |
| OptionTicker.LayoutOfSpelling | server.py:54 | each piece of a spelling is the slice of the ticker at its position |
| OptionTicker.SpellingOfLayout | server.py:54 | slices at those positions glue back into a spelling |
| OptionTicker.BoundsLayout | server.py:54 | positions that meet the pattern cut the ticker as a spelling does |
| OptionTicker.LayoutBounds | server.py:54 | the positions of a spelling meet the pattern and delimit its groups |
| OptionTicker.SpellsConcatenation | server.py:33 | groups of the pattern's classes, written one after the other, spell themselves |
| OptionTicker.ParseOptionTicker | server.py:42-68 | the error carries exactly the message `Invalid expiration date`; a contract has a valid expiration, one of `CcPp`, a non-empty letter underlying and a non-empty digit strike |
| OptionTicker.NotAnOptionIffNoSpelling | server.py:53-56 | the result is "not an option" if and only if no reading of the pattern spells the ticker |
| OptionTicker.OutcomeOfSpelling | server.py:54-68 | a spelled ticker is never "not an option"; the contract keeps the spelled underlying, type letter and strike; the error is returned exactly when the expiration is a date in neither format; a `%y%m%d` date wins, and otherwise the `%Y%m%d` date is the one returned |
| OptionTicker.ShortYearFirst | server.py:58-62 | an expiration that is a `%y%m%d` date gives the contract with that date |
| OptionTicker.LongYearFallback | server.py:58-64 | an expiration that is no `%y%m%d` date is read with `%Y%m%d` (that a `%y%m%d` date is never re-read is OptionTicker.OutcomeOfSpelling) |
| ContractSymbol.ShortGroups | server.py:96 | the `%y`, `%m` and `%d` fields of a date are two digits each, denoting the year modulo 100, the month and the day |
| ContractSymbol.FormatShortDate | server.py:96 | `%y%m%d` prints six digits |
| ContractSymbol.Windowed | server.py:96 | moving a date into 1969-2068 leaves it unchanged if and only if its year is already in that window |
| ContractSymbol.ShortGroupsSplit | server.py:96 | a printed date splits into `%y%m%d` tokens that denote the windowed date |
| ContractSymbol.WindowedValid | server.py:96 | the windowed form of a valid date is valid, February 29 included |
| ContractSymbol.ShortDateRoundTrip | server.py:96 | reading a date printed with `%y%m%d` gives the windowed date |
| ContractSymbol.FormatOfShortParse | server.py:61 | six digits that read as a `%y%m%d` date print back unchanged |
| ContractSymbol.OptionCode | server.py:96 | the option code starts with the underlying, continues with six date digits and one type letter, and ends with the strike; for a type from the pattern that letter is `C` or `P` |
| ContractSymbol.CodeGroups | server.py:96 | the pieces of an option code have the classes of the ticker pattern |
| ContractSymbol.OptionCodeParses | server.py:96 | parsing any contract's option code gives that contract, with the type letter upper-cased and the year windowed |
| ContractSymbol.ParseOfOptionCode | server.py:96 | for an upper-case type and a year in 1969-2068, parsing the option code gives the contract itself |
| ContractSymbol.OptionCodeReproducesIff | server.py:96 | the option code rebuilt from a parse equals the input if and only if the input is canonical: no dot, upper-case type, six `%y%m%d` digits, nothing after the strike |
| ContractSymbol.CanonicalReproduced | server.py:96 | a canonical ticker is its own option code |
| ContractSymbol.ReproducedCanonical | server.py:96 | a ticker that is its own option code is canonical |
| ContractSymbol.BareSpelling | server.py:96 | a spelling with no dot and no tail is the groups written one after the other |
| ContractSymbol.ChainIndexKeys | server.py:34-37 | the chain-side map has exactly the keys `C` and `P`, sending them to 0 and 1 |
| ContractSymbol.ChainSideAsWritten | server.py:100 | the lookup with the raw type letter succeeds if and only if the letter is `C` or `P` |
| ContractSymbol.ChainSide | server.py:34-37 | the upper-cased lookup sends `C`/`c` to the calls (0) and `P`/`p` to the puts (1) |
| ContractSymbol.ChainSideOfCode | server.py:96-100 | the corrected lookup agrees with the written one wherever that one succeeds, and it is the side of the type letter in the option code |
| ApiKey.Split | server.py:73 | Python's `split`: at least one field, no field holds the separator, and the fields joined with it are the input |
| ApiKey.JoinInjective | server.py:73 | separator-free fields are determined by their join |
| ApiKey.SplitOfJoin | server.py:73 | splitting a join of separator-free fields gives those fields back |
| ApiKey.KeySet | server.py:72-74 | every key is non-empty and holds no `:` |
| ApiKey.KeySetIsFields | server.py:72-74 | a string is a key if and only if it is a non-empty field of the configured value |
| ApiKey.CheckApiKey | server.py:71-78 | every denial is 401 `Invalid API Key`; a failure for the missing variable happens exactly when the variable is absent; the empty token is never let through |
| ApiKey.GrantedIffKeyField | server.py:72-78 | a token passes if and only if it is a non-empty field of the configured value; otherwise it is denied with 401 |
| Scenarios.ReadsShortDate | server.py:61 | `230616` in `%y%m%d` is 2023-06-16 |
| Scenarios.ReadsAmbiguousShortDate | server.py:61 | `23111` in `%y%m%d` is 2023-11-01 |
| Scenarios.RejectsLongDateAsShort | server.py:61 | `20230616` is no `%y%m%d` date |
| Scenarios.ReadsLongDate | server.py:61 | `20230616` in `%Y%m%d` is 2023-06-16 |
| Scenarios.RejectsShortMonthAsShort | server.py:61 | `202311` is no `%y%m%d` date: the first match `20`, `2`, `31` leaves `1` over |
| Scenarios.ReadsShortMonthLongDate | server.py:61 | `202311` in `%Y%m%d` is 2023-01-01 |
| Scenarios.RejectsImpossibleDate | server.py:61-64 | `230230` is a date in neither format |
| Scenarios.ParsesStandardSymbol | server.py:42-68 | `AAPL230616C00150000` gives (`AAPL`, 2023-06-16, `C`, `00150000`) |
| Scenarios.ParsesDottedLowerCaseSymbol | server.py:42-68 | `.spy230616p400` gives (`spy`, 2023-06-16, `p`, `400`) |
| Scenarios.ParsesLongYearSymbol | server.py:58-64 | `AAPL20230616C1` falls back to `%Y%m%d` and gives 2023-06-16 |
| Scenarios.ParsesShortMonthSymbol | server.py:58-64 | `AAPL202311C100` falls back to `%Y%m%d` and gives 2023-01-01 |
| Scenarios.RejectsImpossibleExpiration | server.py:65-66 | `AAPL230230C1` gives the error `Invalid expiration date` |
| Scenarios.RejectsStockSymbol | server.py:53-56 | `AAPL` is not an option |
| Scenarios.IgnoresTrailingText | server.py:54 | `AAPL230616C150.5` gives strike `150` and ignores `.5` |
| Scenarios.LowerCaseTypeHasNoSide | server.py:100 | `AAPL230616c00150000` parses, but the lookup with its raw type letter fails |
| Scenarios.SampleKeySet | server.py:72-74 | the value `abc::def:` gives the keys `abc` and `def` |
| Scenarios.ChecksConfiguredKeys | server.py:71-78 | with that value, `def` passes; the empty token and `abc:def` get 401; with the variable unset the check fails |

## Left out

- FastAPI, uvicorn, argparse and the startup hook (server.py:17-30, 86-88, 109-111, 121-127) are framework and command-line plumbing. Raising `HTTPException` is modelled as the `Denied` outcome.
- An absent or empty `token` query parameter is refused by the framework's query-key dependency before `get_api_key` runs. That behaviour lives in the framework and is not modelled. `CheckApiKey` still refuses the empty token.
- `fastapi_cache` and its in-memory backend (server.py:81, 87, 110, 123) live entirely inside a library.
- The yfinance calls, the `yfi_tickers` dictionary they fill, and the pandas chain search (server.py:39, 82-83, 98-106) are a network client and foreign libraries. The model keeps only the chain-side lookup of line 100. The `%Y-%m-%d` date argument on that line is not modelled.
- Reading `os.environ` (server.py:73) is a parameter, a map from names to values. A missing `YFI_API_KEY` raises `KeyError`, modelled as `MissingVariable`.
- The handlers' unpacking of the parser result (server.py:90, 113) is not modelled. It catches only `TypeError`, so the error dictionary would make it raise `ValueError`. `async`/`await` has no logic of the code's own.
- Chars.Upper: models `str.upper()` only on ASCII characters; Python also upper-cases other letters (`é` to `É`). The only character it is applied to is the type letter, one of `CcPp`.
- `\d` in Python matches every Unicode decimal digit, in the ticker pattern and in `strptime` alike. The model accepts only ASCII `0`-`9`, and the letters are ASCII as in the pattern.
- `strptime` is modelled only for `%y%m%d` and `%Y%m%d`. A result is a calendar day, standing for the `datetime` at midnight that `strptime` returns.
- OptionTicker.ShortYearFirst: states the contract's date only for a split with a two-character month. For a one-character month, OutcomeOfSpelling gives the date as the one `strptime` returns.
- OptionTicker.LongYearFallback: likewise, only for a split with a two-character month;
  `OptionTicker.OutcomeOfSpelling` gives the `%Y%m%d` date for any expiration, one-character months included.
- Scenarios.ChecksConfiguredKeys: does not include a token that is a proper prefix of a key. That case follows from ApiKey.GrantedIffKeyField.

## Findings

| source | as written | input that shows it | evidently intended | confidence | as-written member | corrected member |
|---|---|---|---|---|---|---|
| server.py:100 | The chain side is looked up with the raw type letter, and the map has only `C` and `P`. The ticker pattern also admits `c` and `p`, so a lower-case ticker parses and then the lookup raises `KeyError`. | `AAPL230616c00150000` (Scenarios.LowerCaseTypeHasNoSide) | The lookup uses the upper-cased letter, as the option code on line 96 does. | not executed | ContractSymbol.ChainSideAsWritten | ContractSymbol.ChainSide |
