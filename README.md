# Duration — a Dafny model of `Gamez\Duration`

`Gamez\Duration` (src/Duration.php) is an immutable PHP value type for a
length of time. It holds one `DateInterval` and has four parts:

- **`make`**, a factory. It accepts an interval, `"a:b"` (minutes and
  seconds), `"a:b:c"` (hours, minutes and seconds), a designator string
  starting with `P`, or a free-form phrase.
- **The constructor's normaliser.** It anchors the interval at "now", adds
  it, and takes the difference back. So `PT24H` becomes `P1D` and
  `PT0H3600S` becomes `PT1H`.
- **Arithmetic and comparison.** `withAdded`, `withSubtracted`,
  `multipliedBy`, `dividedBy`, `diff`, `compareTo`, and `equals`,
  `isLargerThan` and `isSmallerThan` on top of `compareTo`. Each one anchors
  its operands at "now" and works on the resulting instants.
- **The serialiser** `toDateIntervalSpec`, reached through `__toString`. It
  writes the canonical designator string, for example `P1DT1H` or `PT0S`.

The model has these modules:

| file | module | what it holds |
|---|---|---|
| wrappers.dfy | `Wrappers` | `Option` and `Result` |
| errors.dfy | `Errors` | the failures: `InvalidDuration(reason)` with the source's two messages, the `DateInterval` constructor's rejection of a spec, and an unrecognised phrase |
| decimal.dfy | `Decimal` | decimal digits: PHP's `"{$n}"` (`NatToString`) and `intval` (`IntVal`) of a digit run |
| breakdown.dfy | `Breakdowns` | the six-field breakdown `y m d h i s`; its length in seconds; its canonical form |
| instants.dfy | `Instants` | UTC Unix timestamps and the calendar primitive's `add`, `sub`, `diff` and `<=>` on them |
| normalizer.dfy | `Normalizer` | `normalizeInterval` |
| designator.dfy | `Designator` | the serialiser as a function (`Spec`), and a reader of the designator subset `P[nY][nM][nD][T[nH][nM][nS]]` standing in for `new DateInterval($spec)` (section 4.4.3.2 of ISO 8601:2004, without weeks) |
| factory.dfy | `Factory` | `make` and `none` |
| rounding.dfy | `Rounding` | PHP's `round()`: to the nearest integer, halves away from zero |
| arithmetic.dfy | `Arithmetic` | the operations and comparisons, and the laws connecting them |
| duration.dfy | `Durations` | the class `Duration`, whose one immutable field is its normalised breakdown; its methods return freshly allocated durations; the serialiser is written out step by step, as the source appends to `$spec` |
| scenarios.dfy | `Scenarios` | the expected values of tests/DurationTest.php, proved for every reference instant |

Main modelling decisions:

- **Instants.** The source builds an instant as `new DateTimeImmutable('@'.time())`.
  That is a UTC timestamp. On UTC instants a day is always 86400 seconds.
  So adding a breakdown without years and months moves the timestamp by
  exactly that breakdown's length, and the model computes it that way.
- **The reference instant** is a parameter `now` of every operation.
  In the model no result depends on it (`Normalizer.NormalizeAnchorFree`,
  `Arithmetic.AnchorFree`). In the source that holds only for spans shorter
  than a calendar month. For a longer span PHP's `diff` (src/Duration.php:169,
  and lines 64, 78 and 130) counts whole months from the reference instant,
  so `make('PT960H')` is `P1M9D` on 1 January but `P1M12D` on 1 February of
  a common year. Such spans, and with them the source's re-reading of the
  clock on every call, are listed under "Left out".
- **The normaliser** carries months into years twelve at a time. It turns
  the day/time part into days, hours below 24, minutes below 60 and
  seconds below 60. That is `IsCanonical`.
- **Arithmetic** requires both operands to have no years and no months
  (`IsDayTime`).
- **The phrase parser** `DateInterval::createFromDateString` is a function
  parameter `phrase`. Where a test hands it a phrase, the scenario lemma
  takes what it returns for that phrase as given, and makes the operands
  from the phrases as the test does.
- **Factors and divisors** of `multipliedBy` and `dividedBy` are exact
  `real`s.
- **The regular expressions' `$`** lets one final `"\n"` through, and the
  model keeps that: `Factory.IsFinalGroup`, and the `newline` parameter of
  `Factory.MakeMinutesSeconds`.
- **Casting a `Duration` with `(string)`.** `make` given an existing
  `Duration` casts it with `(string)`, which calls `__toString`, and then
  reads the designator string again. In the model that is
  `Make(Text(Spec(v)))`, and `Factory.MakeRoundTrip` proves it returns `v`
  unchanged.

Notes on what src/Duration.php does, where the library's later
documentation describes `make` differently (the model follows the code):

- Here an empty string `""` goes to the phrase parser. There is no special
  zero rule for `""`, `0`, `null`, `false` or `true`.
- A bare digit string is not rejected. It too goes to the phrase parser.
- An unreadable spec fails with the `DateInterval` constructor's own error,
  not a wrapped `InvalidDuration`.
- A phrase the parser rejects fails with `Errors.UnrecognisedPhrase`. That one failure stands for both ways the source fails there: before PHP 8.3 `DateInterval::createFromDateString` returns `false` with a warning and the constructor then rejects `false` as not a `DateInterval`; from PHP 8.3 the parser throws.
- `make` of an existing `Duration` goes through its string, as described
  above.
- There is no process-wide cached reference instant.

## Model

| member | source | states |
|---|---|---|
| Breakdowns.FromSeconds | src/Duration.php:169 | the breakdown `diff` gives for a span of `n` seconds between UTC instants: no years or months, and canonical |
| Breakdowns.FromSecondsLength | src/Duration.php:164-170 | the days/hours/minutes/seconds breakdown of a second count has exactly that many seconds |
| Breakdowns.CanonicalUnique | src/Duration.php:164-170 | two canonical breakdowns with the same months and the same second count are equal: the normal form is unique per magnitude |
| Breakdowns.FromSecondsOfCanonical | src/Duration.php:164-170 | a canonical day/time breakdown is the breakdown of its own second count |
| Instants.Add | src/Duration.php:62 | `$t->add($b)` on a UTC instant: the timestamp moves forward by the day/time length of `b` |
| Instants.Sub | src/Duration.php:72 | `$t->sub($b)`: the timestamp moves back by that length |
| Instants.AbsDiff | src/Duration.php:130 | `$t->diff($u, true)`: the breakdown of the distance between the timestamps |
| Instants.Compare | src/Duration.php:141 | `$t <=> $u`: -1, 0 or 1 as the timestamps compare |
| Normalizer.Normalize | src/Duration.php:164-170 | the normalised breakdown is canonical (months < 12, hours < 24, minutes and seconds < 60), and has no years or months when the input had none |
| Normalizer.NormalizeMagnitude | src/Duration.php:164-170 | normalising keeps the number of months and the day/time length in seconds |
| Normalizer.NormalizeEqualIff | src/Duration.php:164-170 | two intervals normalise to the same breakdown if and only if they have the same months and the same second count |
| Normalizer.NormalizeFixesCanonical | src/Duration.php:164-170 | a canonical breakdown is left unchanged |
| Normalizer.NormalizeIdempotent | src/Duration.php:20-23 | normalising an already normalised breakdown, at any reference instant, changes nothing |
| Normalizer.NormalizeAnchorFree | src/Duration.php:159-170 | the normal form does not depend on the reference instant |
| Normalizer.NormalizeDayTime | src/Duration.php:164-170 | a day/time interval normalises to the canonical breakdown of its length (`PT24H` is `P1D`) |
| Decimal.NatToString | src/Duration.php:177-184 | PHP's decimal writing of a number: a digit run, `"0"` exactly for zero, and no leading zero otherwise |
| Decimal.IntVal | src/Duration.php:34 | PHP's `intval` of a string starting with digits: the value of its leading digit run |
| Decimal.DigitsValueOfNatToString | src/Duration.php:36 | reading back the decimal digits PHP writes for `n` gives `n` |
| Decimal.NatToStringInjective | src/Duration.php:177-184 | different numbers are written differently |
| Decimal.NatToStringOfDigitsValue | src/Duration.php:34 | a digit run without a leading zero (or the single `0`) is the decimal writing of its value |
| Decimal.PositiveDigitsValue | src/Duration.php:34 | a digit run starting with a non-zero digit has a positive value |
| Decimal.DigitRunOfConcat | src/Duration.php:33 | the digit run at the front of digits followed by a non-digit is exactly those digits |
| Decimal.IntValOfDigits | src/Duration.php:34 | `intval` of digits followed by what is not a digit is the value of the digits; leading zeros are dropped |
| Designator.Spec | src/Duration.php:176-195 | the serialiser: `P`, the non-zero date fields with `Y`, `M`, `D`, then `T` and the non-zero time fields with `H`, `M`, `S` when there is one, and `PT0S` when all fields are zero; its properties are the lemmas below |
| Designator.ParseSpec | src/Duration.php:46 | the reader standing in for `new DateInterval($spec)`: nothing for a string not starting with `P`, otherwise the fields after the `P` |
| Designator.ParseFields | src/Duration.php:46 | optional `nY`, `nM`, `nD` in that order, at least one field, then the end or a `T` followed by the time fields; anything else is rejected |
| Designator.ParseTimeFields | src/Duration.php:46 | optional `nH`, `nM`, `nS` in that order, at least one of them, and nothing after |
| Designator.SpecShape | src/Duration.php:176-195 | the serialised string starts with `P`, has at least two characters and never ends in `T` |
| Designator.SpecOfZero | src/Duration.php:190-192 | the all-zero breakdown serialises as `PT0S`, not `P` |
| Designator.SpecIsNoneIff | src/Duration.php:176-192 | the string is `PT0S` exactly when the breakdown is the zero breakdown |
| Designator.SpecHasTimeDesignator | src/Duration.php:181-192 | the string contains `T` exactly when some time field is non-zero or the breakdown is zero (`PT0S`) |
| Designator.ParseSpecOfSpec | src/Duration.php:176-195 | reading the serialiser's string back gives the breakdown it was written from |
| Designator.SpecInjective | src/Duration.php:176-195 | different breakdowns serialise differently |
| Designator.ParseMinutesSeconds | src/Duration.php:36 | the spec `PT<a>M<b>S` built for `"a:b"` reads as `a` minutes and `b` seconds |
| Designator.ParseHoursMinutesSeconds | src/Duration.php:42 | the spec `PT<a>H<b>M<c>S` built for `"a:b:c"` reads as `a` hours, `b` minutes and `c` seconds |
| Designator.ParseExplicit | src/Duration.php:45-46 | a spec writing out every field, zeros included (`P0Y0M0DT0H0M3600S`), reads as exactly those fields |
| Factory.Explode | src/Duration.php:34 | `explode(':', s)`: the groups between colons, at least one |
| Factory.IsFinalGroup | src/Duration.php:33 | what the final `(\d+)$` accepts: digits, or digits and one final newline |
| Factory.MatchesGroups | src/Duration.php:39 | the patterns `^(\d+):(\d+)$` (two groups) and `^(\d+):(\d+):(\d+)$` (three): exactly that many groups, all digits, the last one final |
| Factory.IntervalFromSpec | src/Duration.php:46 | `new DateInterval($spec)`: what the reader reads, or the failure `UnknownOrBadFormat` naming the spec |
| Factory.RawInterval | src/Duration.php:25-49 | the interval `make` hands the constructor, in the source's order: an interval as it is, `a:b`, `a:b:c`, a string starting with `P`, and otherwise the phrase parser's answer or `UnrecognisedPhrase` |
| Factory.None | src/Duration.php:52-55 | the normal form of the interval read from `PT0S`; `Factory.NoneIsZero` states its value |
| Factory.Make | src/Duration.php:25-50 | `make` succeeds exactly when the raw interval can be built, and what it returns is canonical |
| Factory.NoneIsZero | src/Duration.php:52-55 | `none()` is the zero breakdown and serialises as `PT0S` |
| Factory.ExplodeNoColon | src/Duration.php:34 | `explode(':', s)` of a string without a colon is `[s]` |
| Factory.ExplodeJoin | src/Duration.php:34 | `explode` splits off the group before the first colon |
| Factory.SpecNotColonForm | src/Duration.php:33-47 | a string starting with `P` never matches the colon patterns, so it reaches the designator branch |
| Factory.MakeInterval | src/Duration.php:27-29 | an interval is normalised and kept |
| Factory.ThreeGroups | src/Duration.php:39-40 | `"a:b:c"` splits into its three groups, does not match the two-group pattern and does match the three-group one, with or without one final newline |
| Factory.MakeMinutesSeconds | src/Duration.php:33-37 | `"a:b"` (and `"a:b\n"`) is the normal form of `a` minutes and `b` seconds, leading zeros dropped |
| Factory.MakeMinutesSecondsCount | src/Duration.php:33-37 | so it is the canonical breakdown of `60a + b` seconds |
| Factory.MakeHoursMinutesSeconds | src/Duration.php:39-43 | `"a:b:c"` is the normal form of `a` hours, `b` minutes and `c` seconds |
| Factory.MakeHoursMinutesSecondsCount | src/Duration.php:39-43 | so it is the canonical breakdown of `3600a + 60b + c` seconds |
| Factory.MakeDesignator | src/Duration.php:45-47 | a string starting with `P` is the normal form of what it reads as, and fails with the spec reader's error when it cannot be read |
| Factory.MakeDesignatorDayTime | src/Duration.php:45-47 | a readable spec without years and months gives the canonical breakdown of its second count |
| Factory.MakePhrase | src/Duration.php:49 | any other string is the normal form of what the phrase parser returns, and fails when the parser does not recognise it |
| Factory.MakeFromSpec | src/Duration.php:45-47 | making a duration from the string of any breakdown gives that breakdown's normal form |
| Factory.MakeFromDayTimeSpec | src/Duration.php:45-47 | for a day/time breakdown that is the canonical breakdown of its second count |
| Factory.MakeRoundTrip | src/Duration.php:31-47 | re-making a duration from its own string gives back the same breakdown and the same string |
| Factory.MakeSeconds | src/Duration.php:93 | `"<n> seconds"`, read by the parser as `n` seconds, is the canonical breakdown of `n` seconds |
| Rounding.RoundHalfAwayFromZero | src/Duration.php:91 | the result is within half of `x`; a tie goes away from zero |
| Rounding.RoundUnique | src/Duration.php:91 | no other integer satisfies that contract |
| Rounding.RoundWhole | src/Duration.php:91 | a whole number rounds to itself |
| Arithmetic.SecondsFrom | src/Duration.php:88-90 | the timestamp distance from `now` to `now + d` is the second count of `d` |
| Arithmetic.OfSeconds | src/Duration.php:93 | the duration made from `n` seconds is canonical and `n` seconds long |
| Arithmetic.RoundedProduct | src/Duration.php:91 | `(int) round(n * factor)` lies within half a second of the exact product |
| Arithmetic.RoundedQuotient | src/Duration.php:102 | `(int) round(n / divisor)` lies within half a second of the exact quotient |
| Arithmetic.WithAdded | src/Duration.php:57-65 | the sum is canonical and its length is the sum of the lengths |
| Arithmetic.WithSubtracted | src/Duration.php:67-79 | fails with "A duration cannot be smaller than zero" exactly when the subtrahend is longer; otherwise canonical with the difference of the lengths |
| Arithmetic.MultipliedBy | src/Duration.php:81-94 | fails with "A duration cannot be multiplied with a value smaller than zero" exactly when the factor is negative; otherwise canonical and as long as the rounded product of the second count and the factor |
| Arithmetic.DividedBy | src/Duration.php:96-105 | canonical, and within half a second of the second count divided by the divisor |
| Arithmetic.Diff | src/Duration.php:122-131 | canonical, and its length is the absolute difference of the lengths |
| Arithmetic.CompareTo | src/Duration.php:133-142 | -1, 0 or 1 exactly as the first length is smaller than, equal to or larger than the second |
| Arithmetic.IsLargerThan | src/Duration.php:107-110 | true exactly when the first duration is longer |
| Arithmetic.Equals | src/Duration.php:112-115 | true exactly when the durations are equally long |
| Arithmetic.IsSmallerThan | src/Duration.php:117-120 | true exactly when the first duration is shorter |
| Arithmetic.SubtractAfterAdd | src/Duration.php:57-79 | subtracting what was added gives back the duration |
| Arithmetic.AddAfterSubtract | src/Duration.php:57-79 | adding back what was subtracted gives back the duration |
| Arithmetic.AddZero | src/Duration.php:52-65 | the zero duration is the identity of addition on both sides |
| Arithmetic.AddCommutative | src/Duration.php:57-65 | addition is commutative |
| Arithmetic.AddAssociative | src/Duration.php:57-65 | addition is associative |
| Arithmetic.DiffSymmetric | src/Duration.php:122-131 | `a.diff(b)` equals `b.diff(a)` |
| Arithmetic.DiffBridges | src/Duration.php:122-131 | adding the difference to the shorter duration gives the longer one |
| Arithmetic.EqualsIsIdentity | src/Duration.php:112-115 | on normalised durations `equals` is equality of the breakdowns |
| Arithmetic.CompareAntisymmetric | src/Duration.php:133-142 | swapping the operands negates `compareTo` |
| Arithmetic.CompareTransitive | src/Duration.php:133-142 | `compareTo` is transitive, and a chain of two comparisons is 0 only when both are |
| Arithmetic.AddedIsSum | src/Duration.php:57-65 | the sum is the canonical breakdown of the summed second counts |
| Arithmetic.SubtractedIsDifference | src/Duration.php:67-79 | when the subtrahend is not longer, the result is the canonical breakdown of the difference |
| Arithmetic.DiffIsDistance | src/Duration.php:122-131 | `diff` is the canonical breakdown of the distance between the second counts |
| Arithmetic.MultiplyWhole | src/Duration.php:81-94 | multiplying by a whole number `k` is exact: `k` times the second count |
| Arithmetic.DivideExact | src/Duration.php:96-105 | dividing by a whole number that divides the second count is exact |
| Arithmetic.HalveOdd | src/Duration.php:96-105 | halving `2n + 1` seconds rounds the half second up, to `n + 1` seconds |
| Arithmetic.AnchorFree | src/Duration.php:57-142 | sum, difference, `diff` and `compareTo` do not depend on the reference instant |
| Durations.Duration.constructor | src/Duration.php:18-23 | the field holds the normal form of the interval given, so the new duration is `Valid` (its field canonical); every method below returns a `Valid` duration |
| Durations.Duration.Make | src/Duration.php:25-50 | returns a new duration holding what `Factory.Make` computes, or its failure |
| Durations.Duration.None | src/Duration.php:52-55 | returns a new duration holding the zero breakdown |
| Durations.Duration.WithAdded | src/Duration.php:57-65 | returns a new duration holding `Arithmetic.WithAdded` of the two fields |
| Durations.Duration.WithSubtracted | src/Duration.php:67-79 | returns a new duration holding `Arithmetic.WithSubtracted`, or fails with the negative-result error |
| Durations.Duration.MultipliedBy | src/Duration.php:81-94 | returns a new duration holding `Arithmetic.MultipliedBy`, or fails with the negative-factor error |
| Durations.Duration.DividedBy | src/Duration.php:96-105 | returns a new duration holding `Arithmetic.DividedBy` |
| Durations.Duration.Diff | src/Duration.php:122-131 | returns a new duration holding `Arithmetic.Diff` |
| Durations.Duration.MakeOfDuration | src/Duration.php:25-47 | `make` of an existing valid duration, through its string, returns a new duration holding the same breakdown |
| Durations.Duration.ToDateIntervalSpec | src/Duration.php:172-195 | the string built by successive appends, with the trailing `T` cut and a bare `P` replaced, is `Designator.Spec` of the field |
| Durations.Duration.ToString | src/Duration.php:154-157 | `__toString` is the same string |
| Durations.Appended | src/Duration.php:176-192 | trimming the appended string gives the serialiser's string |
| Scenarios.NoneMovesNothing | tests/DurationTest.php:15-21 | adding `none()` to an instant leaves it unchanged |
| Scenarios.EmptyIsNone | tests/DurationTest.php:35 | `""`, read by the phrase parser as zero, gives `PT0S` |
| Scenarios.TextualPhrase | tests/DurationTest.php:36 | `"13 minutes 37 seconds"` gives `PT13M37S` |
| Scenarios.MinutesSecondsForm | tests/DurationTest.php:37 | `"01:23"` gives one minute 23 seconds, `PT1M23S` |
| Scenarios.HoursMinutesSecondsForm | tests/DurationTest.php:38 | `"01:23:45"` gives `PT1H23M45S` |
| Scenarios.DesignatorKept | tests/DurationTest.php:39 | `"P1DT1H"` stays `P1DT1H` |
| Scenarios.IntervalOfDay | tests/DurationTest.php:40 | an interval of 24 hours is `P1D` |
| Scenarios.TextOfDay | tests/DurationTest.php:41 | `make('PT24H')` is one day, and making it again from that duration keeps it |
| Scenarios.TooVerbose | tests/DurationTest.php:42 | `P0Y0M0DT0H0M3600S` gives `PT1H` |
| Scenarios.Optimized | tests/DurationTest.php:46-50 | `PT24H60M` gives `P1DT1H` |
| Scenarios.Added | tests/DurationTest.php:52-60 | `make('22 hours')` plus `make('17 minutes')` equals `make('PT1337M')` |
| Scenarios.Subtracted | tests/DurationTest.php:62-70 | `make('23 hours')` minus `make('43 minutes')` succeeds and equals `make('PT1337M')` |
| Scenarios.NoneMinusSecondFails | tests/DurationTest.php:72-77 | `none()` minus `make('1 second')` fails with the negative-result error |
| Scenarios.Divided | tests/DurationTest.php:79-87 | `make('13 minutes')` divided by 2 equals `make('PT6M30S')` |
| Scenarios.Multiplied | tests/DurationTest.php:89-97 | `make('13 minutes')` multiplied by 2 succeeds and equals `make('PT26M')` |
| Scenarios.NegativeFactorFails | tests/DurationTest.php:99-104 | `none()` multiplied by -1.1 fails with the negative-factor error |
| Scenarios.DividedRounds | tests/DurationTest.php:106-114 | `make('13 seconds')` divided by 2 equals `make('PT7S')` |
| Scenarios.Compared | tests/DurationTest.php:116-127 | `make('60 minutes')` equals `make('1 hour')`, is larger than `make('59 minutes')` and smaller than `make('61 minutes')` |
| Scenarios.Difference | tests/DurationTest.php:129-140 | the `diff` of `make('58 minutes')` and `make('2 hours 5 minutes')` equals `make('1 hour 7 minutes')` |
| Scenarios.CastToString | tests/DurationTest.php:142-146 | `"1 hour"` gives `PT1H` |
| Scenarios.MakeLeetMinutes | tests/DurationTest.php:57 | `make('PT1337M')` is 22 hours 17 minutes |
| Scenarios.MakeSixThirty | tests/DurationTest.php:84 | `make('PT6M30S')` is six minutes 30 seconds |
| Scenarios.MakeTwentySix | tests/DurationTest.php:94 | `make('PT26M')` is 26 minutes |
| Scenarios.MakeSeven | tests/DurationTest.php:111 | `make('PT7S')` is seven seconds |
| Scenarios.MakeSixtyMinutes | tests/DurationTest.php:119 | `"60 minutes"`, read as 60 minutes, is one hour |

## Left out

- `DateInterval::createFromDateString`, the free-form phrase parser, is a foreign library. It is the parameter `phrase`. The scenarios assume what it answers for each phrase the tests use, and make every operand from its phrase through `Factory.Make`.
- The operands of `withAdded`, `withSubtracted`, `diff` and `compareTo` may be anything `make` accepts. The model takes durations; turning another value into one is `Factory.Make`.
- Calendar arithmetic with months and years is left out. Its unit lengths depend on the date. Arithmetic requires `y = m = 0`. The normaliser carries months into years twelve at a time. It does not resolve a month into days.
- A regrouping of long spans into months is also left out. For a span of a calendar month or more, PHP's `diff` returns months counted from the reference instant, so the result depends on the date and on when the clock is read. The model keeps such spans as days, and its anchor-freedom lemmas hold only in that reading.
- Arithmetic.OfSeconds: `multipliedBy` and `dividedBy` hand the phrase `"<n> seconds"` to the phrase parser (src/Duration.php:93 and 104). The model normalises `n` seconds directly. `Factory.MakeSeconds` shows the two agree whenever the parser reads that phrase as `n` seconds.
- Signed intervals are not modelled. A `DateInterval` can carry `invert = 1`, from a caller or from the phrase parser (`"5 minutes ago"`, `"-5 minutes"`). A breakdown has natural-number fields and no sign, and the phrase parameter returns breakdowns. In the source the non-absolute `diff` of the normaliser (src/Duration.php:169) keeps the sign. Such a duration prints without it (lines 177-184) but adds and compares as a negative length (lines 62, 88 and 138), so re-making it from its string does not give it back.
- Arithmetic.DividedBy: requires a positive divisor. The source does not guard against zero, and a negative divisor would hand a negative count to the phrase parser.
- Arithmetic.MultipliedBy: factors and divisors are exact reals, not PHP floats, so binary floating-point rounding is not modelled.
- PHP's integer width is not modelled (`intval` saturating at `PHP_INT_MAX`, overflowing timestamps). Integers are unbounded.
- PHP's type juggling in `make` is not modelled (`(string) $value` of numbers, booleans or other objects). The input is an interval or a string. A `Duration` argument is its `__toString` string.
- `jsonSerialize` is not modelled: it returns the same string as `__toString`, and `json_encode` quoting is a library call.
- The full grammar of `new DateInterval($spec)` (weeks, other spellings) is not modelled. The reader accepts the designator subset `P[nY][nM][nD][T[nH][nM][nS]]`, which covers every spec `make` builds or the serialiser writes.
- The wall clock `time()` is left out. It is the parameter `now`.
- `Gamez\Duration\Exception\InvalidDuration` as a class is not modelled. It is the failure `Errors.InvalidDuration(reason)`. The exceptions thrown by PHP's own date classes are `UnknownOrBadFormat` and `UnrecognisedPhrase`.
- `toDateInterval` has no contract of its own. It returns the field.
