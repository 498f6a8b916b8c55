/** The behaviour the repository's test suite pins down, stated for every
    reference instant. The free-form phrase parser is a parameter; where a
    test hands it a phrase, the lemma takes what the parser returns for that
    phrase as given, and every operand is made from its phrase (or its
    designator string) as the test makes it. Each scenario is assembled from single steps, each of
    which is one of the general lemmas applied to the test's values. */
module Scenarios {
  import opened Breakdowns
  import opened Decimal
  import opened Designator
  import opened Normalizer
  import Wrappers
  import Errors
  import Instants
  import Factory
  import Arithmetic

  function Hours(n: nat): Breakdown { Breakdown(0, 0, 0, n, 0, 0) }
  function Minutes(n: nat): Breakdown { Breakdown(0, 0, 0, 0, n, 0) }
  function Seconds(n: nat): Breakdown { Breakdown(0, 0, 0, 0, 0, n) }
  function HoursMinutes(h: nat, i: nat): Breakdown { Breakdown(0, 0, 0, h, i, 0) }

  /* The strings the tests hand to `make`. */

  const Empty: string := ""
  const Textual: string := "13 minutes 37 seconds"
  const MinutesSecondsText: string := "01:23"
  const HoursMinutesSecondsText: string := "01:23:45"
  const DayHourText: string := "P1DT1H"
  const DayOfHoursText: string := "PT24H"
  const VerboseText: string := "P0Y0M0DT0H0M3600S"
  const OverflowingText: string := "PT24H60M"
  const LeetMinutes: string := "PT1337M"
  const SixMinutesThirty: string := "PT6M30S"
  const TwentySixMinutes: string := "PT26M"
  const SevenSeconds: string := "PT7S"
  const OneHour: string := "1 hour"
  const SixtyMinutes: string := "60 minutes"

  /** A string `make` hands to the phrase parser: no colon, no leading `P`. */
  predicate Plain(s: string) {
    ':' !in s && (s == [] || s[0] != 'P')
  }

  /** A phrase the parser reads as a canonical breakdown gives that
      breakdown. */
  lemma MakeFromPhrase(now: Instants.Instant, phrase: Factory.PhraseParser, s: string, b: Breakdown)
    requires Plain(s) && phrase(s) == Wrappers.Some(b) && IsCanonical(b)
    ensures Factory.Make(now, phrase, Factory.Text(s)) == Wrappers.Ok(b)
  {
    Factory.ExplodeNoColon(s);
    Factory.MakePhrase(now, phrase, s);
    NormalizeFixesCanonical(now, b);
  }

  /** A phrase the parser reads as a day/time breakdown gives the canonical
      breakdown of its second count. */
  lemma MakeFromDayTimePhrase(now: Instants.Instant, phrase: Factory.PhraseParser, s: string, raw: Breakdown)
    requires Plain(s) && phrase(s) == Wrappers.Some(raw) && IsDayTime(raw)
    ensures Factory.Make(now, phrase, Factory.Text(s)) == Wrappers.Ok(FromSeconds(DayTimeSeconds(raw)))
  {
    Factory.ExplodeNoColon(s);
    Factory.MakePhrase(now, phrase, s);
  }

  /* it_can_be_none */

  /** Adding `none()` to an instant leaves it where it is. */
  lemma NoneMovesNothing(now: Instants.Instant)
    ensures Instants.Add(now, Factory.None(now)) == now
  {
    Factory.NoneIsZero(now);
    ZeroMovesNothing(now);
  }

  /** Adding the zero breakdown to an instant leaves it where it is. */
  lemma ZeroMovesNothing(now: Instants.Instant)
    ensures Instants.Add(now, Zero) == now
  {
  }

  /* it_parses_a_value, it_can_be_casted_to_a_date_interval_spec_string */

  /** `""`, which the phrase parser reads as the zero interval, is `PT0S`. */
  lemma EmptyIsNone(now: Instants.Instant, phrase: Factory.PhraseParser)
    requires phrase(Empty) == Wrappers.Some(Zero)
    ensures Factory.Make(now, phrase, Factory.Text(Empty)) == Wrappers.Ok(Zero)
    ensures Spec(Zero) == "PT0S"
  {
    MakeFromPhrase(now, phrase, Empty, Zero);
    SpecOfZero();
  }

  /** `"13 minutes 37 seconds"` is `PT13M37S`. */
  lemma TextualPhrase(now: Instants.Instant, phrase: Factory.PhraseParser)
    requires phrase(Textual) == Wrappers.Some(Breakdown(0, 0, 0, 0, 13, 37))
    ensures Factory.Make(now, phrase, Factory.Text(Textual)) == Wrappers.Ok(Breakdown(0, 0, 0, 0, 13, 37))
    ensures Spec(Breakdown(0, 0, 0, 0, 13, 37)) == "PT13M37S"
  {
    PlainTextual();
    MakeFromPhrase(now, phrase, Textual, Breakdown(0, 0, 0, 0, 13, 37));
    WrittenTextual();
  }

  /** `"01:23"` is one minute and 23 seconds, `PT1M23S`. */
  lemma MinutesSecondsForm(now: Instants.Instant, phrase: Factory.PhraseParser)
    ensures Factory.Make(now, phrase, Factory.Text(MinutesSecondsText)) == Wrappers.Ok(Breakdown(0, 0, 0, 0, 1, 23))
    ensures Spec(Breakdown(0, 0, 0, 0, 1, 23)) == "PT1M23S"
  {
    MakeMinutesSecondsText(now, phrase);
    SplitSeconds83();
    WrittenMinutesSeconds();
  }

  lemma MakeMinutesSecondsText(now: Instants.Instant, phrase: Factory.PhraseParser)
    ensures Factory.Make(now, phrase, Factory.Text(MinutesSecondsText)) == Wrappers.Ok(FromSeconds(83))
  {
    ColonDigits();
    Factory.MakeMinutesSecondsCount(now, phrase, "01", "23", false);
  }

  /** `"01:23:45"` is one hour, 23 minutes and 45 seconds, `PT1H23M45S`. */
  lemma HoursMinutesSecondsForm(now: Instants.Instant, phrase: Factory.PhraseParser)
    ensures Factory.Make(now, phrase, Factory.Text(HoursMinutesSecondsText))
            == Wrappers.Ok(Breakdown(0, 0, 0, 1, 23, 45))
    ensures Spec(Breakdown(0, 0, 0, 1, 23, 45)) == "PT1H23M45S"
  {
    MakeHoursMinutesSecondsText(now, phrase);
    SplitSeconds5025();
    WrittenHoursMinutesSeconds();
  }

  lemma MakeHoursMinutesSecondsText(now: Instants.Instant, phrase: Factory.PhraseParser)
    ensures Factory.Make(now, phrase, Factory.Text(HoursMinutesSecondsText)) == Wrappers.Ok(FromSeconds(5025))
  {
    ColonDigits();
    Factory.MakeHoursMinutesSecondsCount(now, phrase, "01", "23", "45", false);
  }

  /** `"P1DT1H"` is kept as it is. */
  lemma DesignatorKept(now: Instants.Instant, phrase: Factory.PhraseParser)
    ensures Factory.Make(now, phrase, Factory.Text(DayHourText)) == Wrappers.Ok(Breakdown(0, 0, 1, 1, 0, 0))
    ensures Spec(Breakdown(0, 0, 1, 1, 0, 0)) == DayHourText
  {
    WrittenDayHour();
    Factory.MakeRoundTrip(now, phrase, Breakdown(0, 0, 1, 1, 0, 0));
  }

  /** An interval of 24 hours is one day, `P1D`. */
  lemma IntervalOfDay(now: Instants.Instant, phrase: Factory.PhraseParser)
    ensures Factory.Make(now, phrase, Factory.Interval(Hours(24))) == Wrappers.Ok(Breakdown(0, 0, 1, 0, 0, 0))
    ensures Spec(Breakdown(0, 0, 1, 0, 0, 0)) == "P1D"
  {
    Factory.MakeInterval(now, phrase, Hours(24));
    NormalizeDay(now);
    WrittenDay();
  }

  lemma NormalizeDay(now: Instants.Instant)
    ensures Normalize(now, Hours(24)) == Breakdown(0, 0, 1, 0, 0, 0)
  {
    NormalizeDayTime(now, Hours(24));
    DayOfHoursSeconds();
  }

  /** So is a duration made from `PT24H`; handing that duration to `make`
      again, which reads its string, keeps it. */
  lemma TextOfDay(now: Instants.Instant, phrase: Factory.PhraseParser)
    ensures Factory.Make(now, phrase, Factory.Text(DayOfHoursText)) == Wrappers.Ok(Breakdown(0, 0, 1, 0, 0, 0))
    ensures Factory.Make(now, phrase, Factory.Text(Spec(Breakdown(0, 0, 1, 0, 0, 0))))
            == Wrappers.Ok(Breakdown(0, 0, 1, 0, 0, 0))
  {
    MakeDayOfHoursText(now, phrase);
    DayOfHoursSeconds();
    Factory.MakeRoundTrip(now, phrase, Breakdown(0, 0, 1, 0, 0, 0));
  }

  lemma MakeDayOfHoursText(now: Instants.Instant, phrase: Factory.PhraseParser)
    ensures Factory.Make(now, phrase, Factory.Text(DayOfHoursText))
            == Wrappers.Ok(FromSeconds(DayTimeSeconds(Hours(24))))
  {
    WrittenDayOfHours();
    Factory.MakeFromDayTimeSpec(now, phrase, Hours(24));
  }

  /** `P0Y0M0DT0H0M3600S`, with every zero spelt out, is `PT1H`. */
  lemma TooVerbose(now: Instants.Instant, phrase: Factory.PhraseParser)
    ensures Factory.Make(now, phrase, Factory.Text(VerboseText)) == Wrappers.Ok(Hours(1))
    ensures Spec(Hours(1)) == "PT1H"
  {
    MakeVerboseText(now, phrase);
    HourOfSeconds();
    WrittenHour();
  }

  lemma MakeVerboseText(now: Instants.Instant, phrase: Factory.PhraseParser)
    ensures Factory.Make(now, phrase, Factory.Text(VerboseText))
            == Wrappers.Ok(FromSeconds(DayTimeSeconds(Seconds(3600))))
  {
    VerboseParse();
    Factory.MakeDesignatorDayTime(now, phrase, VerboseText, Seconds(3600));
  }

  /** The verbose spec is the fully written-out spelling of 3600 seconds. */
  lemma VerboseParse()
    ensures |VerboseText| > 0 && VerboseText[0] == 'P'
    ensures ParseSpec(VerboseText) == Wrappers.Some(Seconds(3600))
  {
    WrittenVerbose();
    ParseExplicit(Seconds(3600));
  }

  /** `"1 hour"` is written `PT1H`. */
  lemma CastToString(now: Instants.Instant, phrase: Factory.PhraseParser)
    requires phrase(OneHour) == Wrappers.Some(Hours(1))
    ensures Factory.Make(now, phrase, Factory.Text(OneHour)) == Wrappers.Ok(Hours(1))
    ensures Spec(Hours(1)) == "PT1H"
  {
    PlainOneHour();
    MakeFromPhrase(now, phrase, OneHour, Hours(1));
    WrittenHour();
  }

  /* it_optimizes_the_date_interval_spec */

  /** `PT24H60M` is one day and one hour, `P1DT1H`. */
  lemma Optimized(now: Instants.Instant, phrase: Factory.PhraseParser)
    ensures Factory.Make(now, phrase, Factory.Text(OverflowingText)) == Wrappers.Ok(Breakdown(0, 0, 1, 1, 0, 0))
    ensures Spec(Breakdown(0, 0, 1, 1, 0, 0)) == DayHourText
  {
    MakeOverflowingText(now, phrase);
    DayHourSeconds();
    WrittenDayHour();
  }

  lemma MakeOverflowingText(now: Instants.Instant, phrase: Factory.PhraseParser)
    ensures Factory.Make(now, phrase, Factory.Text(OverflowingText))
            == Wrappers.Ok(FromSeconds(DayTimeSeconds(HoursMinutes(24, 60))))
  {
    WrittenOverflowing();
    Factory.MakeFromDayTimeSpec(now, phrase, HoursMinutes(24, 60));
  }

  /* The expected values the arithmetic tests build from designator strings. */

  lemma MakeLeetMinutes(now: Instants.Instant, phrase: Factory.PhraseParser)
    ensures Factory.Make(now, phrase, Factory.Text(LeetMinutes)) == Wrappers.Ok(HoursMinutes(22, 17))
  {
    MakeLeetText(now, phrase);
    LeetSeconds();
  }

  lemma MakeLeetText(now: Instants.Instant, phrase: Factory.PhraseParser)
    ensures Factory.Make(now, phrase, Factory.Text(LeetMinutes))
            == Wrappers.Ok(FromSeconds(DayTimeSeconds(Minutes(1337))))
  {
    WrittenLeet();
    Factory.MakeFromDayTimeSpec(now, phrase, Minutes(1337));
  }

  lemma MakeSixThirty(now: Instants.Instant, phrase: Factory.PhraseParser)
    ensures Factory.Make(now, phrase, Factory.Text(SixMinutesThirty)) == Wrappers.Ok(Breakdown(0, 0, 0, 0, 6, 30))
  {
    WrittenSixThirty();
    Factory.MakeRoundTrip(now, phrase, Breakdown(0, 0, 0, 0, 6, 30));
  }

  lemma MakeTwentySix(now: Instants.Instant, phrase: Factory.PhraseParser)
    ensures Factory.Make(now, phrase, Factory.Text(TwentySixMinutes)) == Wrappers.Ok(Minutes(26))
  {
    WrittenTwentySix();
    Factory.MakeRoundTrip(now, phrase, Minutes(26));
  }

  lemma MakeSeven(now: Instants.Instant, phrase: Factory.PhraseParser)
    ensures Factory.Make(now, phrase, Factory.Text(SevenSeconds)) == Wrappers.Ok(Seconds(7))
  {
    WrittenSeven();
    Factory.MakeRoundTrip(now, phrase, Seconds(7));
  }

  /** `"60 minutes"`, which the phrase parser reads as 60 minutes, is one
      hour. */
  lemma MakeSixtyMinutes(now: Instants.Instant, phrase: Factory.PhraseParser)
    requires phrase(SixtyMinutes) == Wrappers.Some(Minutes(60))
    ensures Factory.Make(now, phrase, Factory.Text(SixtyMinutes)) == Wrappers.Ok(Hours(1))
  {
    PlainSixtyMinutes();
    MakeFromDayTimePhrase(now, phrase, SixtyMinutes, Minutes(60));
    HourOfMinutes();
  }

  /* The arithmetic tests. Every operand is `make` of the test's string: a
     phrase, read as the parser is assumed to read it, or a designator spec. */

  const TwentyTwoHours: string := "22 hours"
  const SeventeenMinutes: string := "17 minutes"
  const TwentyThreeHours: string := "23 hours"
  const FortyThreeMinutes: string := "43 minutes"
  const OneSecond: string := "1 second"
  const ThirteenMinutes: string := "13 minutes"
  const ThirteenSeconds: string := "13 seconds"
  const SixtyOneMinutes: string := "61 minutes"
  const FiftyNineMinutes: string := "59 minutes"
  const FiftyEightMinutes: string := "58 minutes"
  const TwoHoursFiveMinutes: string := "2 hours 5 minutes"
  const OneHourSevenMinutes: string := "1 hour 7 minutes"

  /** `Duration::make($s)` */
  function MakeText(now: Instants.Instant, phrase: Factory.PhraseParser, s: string): Factory.Outcome {
    Factory.Make(now, phrase, Factory.Text(s))
  }

  /** `make` succeeded with a day/time duration `n` seconds long. */
  predicate Lasts(r: Factory.Outcome, n: nat) {
    r.Ok? && IsDayTime(r.value) && DayTimeSeconds(r.value) == n
  }

  /** A phrase read as a day/time breakdown makes a duration of its length. */
  lemma PhraseLasts(now: Instants.Instant, phrase: Factory.PhraseParser, s: string, raw: Breakdown)
    requires Plain(s) && phrase(s) == Wrappers.Some(raw) && IsDayTime(raw)
    ensures Lasts(MakeText(now, phrase, s), DayTimeSeconds(raw))
  {
    MakeFromDayTimePhrase(now, phrase, s, raw);
    FromSecondsLength(DayTimeSeconds(raw));
  }

  /** The string of a day/time breakdown makes a duration of its length. */
  lemma SpecLasts(now: Instants.Instant, phrase: Factory.PhraseParser, s: string, b: Breakdown)
    requires Spec(b) == s && IsDayTime(b)
    ensures Lasts(MakeText(now, phrase, s), DayTimeSeconds(b))
  {
    Factory.MakeFromDayTimeSpec(now, phrase, b);
    FromSecondsLength(DayTimeSeconds(b));
  }

  lemma PlainOperands()
    ensures Plain(TwentyTwoHours) && Plain(SeventeenMinutes) && Plain(TwentyThreeHours)
    ensures Plain(FortyThreeMinutes) && Plain(OneSecond) && Plain(ThirteenMinutes) && Plain(ThirteenSeconds)
  {
  }

  lemma PlainCompared()
    ensures Plain(SixtyMinutes) && Plain(OneHour) && Plain(SixtyOneMinutes) && Plain(FiftyNineMinutes)
    ensures Plain(FiftyEightMinutes) && Plain(TwoHoursFiveMinutes) && Plain(OneHourSevenMinutes)
  {
  }

  /* it_can_be_added */

  /** `make('PT1337M')` equals `make('22 hours')->withAdded(make('17 minutes'))`. */
  lemma Added(now: Instants.Instant, phrase: Factory.PhraseParser)
    requires phrase(TwentyTwoHours) == Wrappers.Some(Hours(22))
    requires phrase(SeventeenMinutes) == Wrappers.Some(Minutes(17))
    ensures var first, second := MakeText(now, phrase, TwentyTwoHours), MakeText(now, phrase, SeventeenMinutes);
            var expected := MakeText(now, phrase, LeetMinutes);
            Lasts(first, 79200) && Lasts(second, 1020) && Lasts(expected, 80220)
            && Arithmetic.Equals(now, expected.value, Arithmetic.WithAdded(now, first.value, second.value))
  {
    PlainOperands();
    PhraseLasts(now, phrase, TwentyTwoHours, Hours(22));
    PhraseLasts(now, phrase, SeventeenMinutes, Minutes(17));
    WrittenLeet();
    SpecLasts(now, phrase, LeetMinutes, Minutes(1337));
  }

  /* it_can_be_subtracted */

  /** `make('PT1337M')` equals `make('23 hours')->withSubtracted(make('43 minutes'))`. */
  lemma Subtracted(now: Instants.Instant, phrase: Factory.PhraseParser)
    requires phrase(TwentyThreeHours) == Wrappers.Some(Hours(23))
    requires phrase(FortyThreeMinutes) == Wrappers.Some(Minutes(43))
    ensures var first, second := MakeText(now, phrase, TwentyThreeHours), MakeText(now, phrase, FortyThreeMinutes);
            var expected := MakeText(now, phrase, LeetMinutes);
            Lasts(first, 82800) && Lasts(second, 2580) && Lasts(expected, 80220)
            && var r := Arithmetic.WithSubtracted(now, first.value, second.value);
               r.Ok? && IsDayTime(r.value) && Arithmetic.Equals(now, expected.value, r.value)
  {
    PlainOperands();
    PhraseLasts(now, phrase, TwentyThreeHours, Hours(23));
    PhraseLasts(now, phrase, FortyThreeMinutes, Minutes(43));
    WrittenLeet();
    SpecLasts(now, phrase, LeetMinutes, Minutes(1337));
  }

  /* it_can_not_result_in_a_negative_value */

  /** `none()->withSubtracted(make('1 second'))` fails. */
  lemma NoneMinusSecondFails(now: Instants.Instant, phrase: Factory.PhraseParser)
    requires phrase(OneSecond) == Wrappers.Some(Seconds(1))
    ensures var second := MakeText(now, phrase, OneSecond);
            Lasts(second, 1)
            && Arithmetic.WithSubtracted(now, Factory.None(now), second.value)
               == Wrappers.Err(Errors.InvalidDuration(Errors.NegativeResult))
  {
    PlainOperands();
    PhraseLasts(now, phrase, OneSecond, Seconds(1));
    Factory.NoneIsZero(now);
  }

  /* it_can_be_divided */

  /** `make('PT6M30S')` equals `make('13 minutes')->dividedBy(2)`. */
  lemma Divided(now: Instants.Instant, phrase: Factory.PhraseParser)
    requires phrase(ThirteenMinutes) == Wrappers.Some(Minutes(13))
    ensures var given, expected := MakeText(now, phrase, ThirteenMinutes), MakeText(now, phrase, SixMinutesThirty);
            Lasts(given, 780) && Lasts(expected, 390)
            && Arithmetic.Equals(now, expected.value, Arithmetic.DividedBy(now, given.value, 2.0))
  {
    PlainOperands();
    PhraseLasts(now, phrase, ThirteenMinutes, Minutes(13));
    WrittenSixThirty();
    SpecLasts(now, phrase, SixMinutesThirty, Breakdown(0, 0, 0, 0, 6, 30));
    var given := MakeText(now, phrase, ThirteenMinutes).value;
    Arithmetic.DivideExact(now, given, 2, 390);
    FromSecondsLength(390);
  }

  /* it_can_be_multiplied */

  /** `make('PT26M')` equals `make('13 minutes')->multipliedBy(2)`. */
  lemma Multiplied(now: Instants.Instant, phrase: Factory.PhraseParser)
    requires phrase(ThirteenMinutes) == Wrappers.Some(Minutes(13))
    ensures var given, expected := MakeText(now, phrase, ThirteenMinutes), MakeText(now, phrase, TwentySixMinutes);
            Lasts(given, 780) && Lasts(expected, 1560)
            && var r := Arithmetic.MultipliedBy(now, given.value, 2.0);
               r.Ok? && IsDayTime(r.value) && Arithmetic.Equals(now, expected.value, r.value)
  {
    PlainOperands();
    PhraseLasts(now, phrase, ThirteenMinutes, Minutes(13));
    WrittenTwentySix();
    SpecLasts(now, phrase, TwentySixMinutes, Minutes(26));
    var given := MakeText(now, phrase, ThirteenMinutes).value;
    Arithmetic.MultiplyWhole(now, given, 2);
    FromSecondsLength(1560);
  }

  /* it_can_not_be_multiplied_with_a_negative_value */

  /** `none()->multipliedBy(-1.1)` fails. */
  lemma NegativeFactorFails(now: Instants.Instant)
    ensures Arithmetic.MultipliedBy(now, Factory.None(now), -1.1)
            == Wrappers.Err(Errors.InvalidDuration(Errors.NegativeFactor))
  {
    Factory.NoneIsZero(now);
  }

  /* it_rounds_divided_seconds */

  /** `make('PT7S')` equals `make('13 seconds')->dividedBy(2)`: six and a half
      seconds round up. */
  lemma DividedRounds(now: Instants.Instant, phrase: Factory.PhraseParser)
    requires phrase(ThirteenSeconds) == Wrappers.Some(Seconds(13))
    ensures var given, expected := MakeText(now, phrase, ThirteenSeconds), MakeText(now, phrase, SevenSeconds);
            Lasts(given, 13) && Lasts(expected, 7)
            && Arithmetic.Equals(now, expected.value, Arithmetic.DividedBy(now, given.value, 2.0))
  {
    PlainOperands();
    PhraseLasts(now, phrase, ThirteenSeconds, Seconds(13));
    WrittenSeven();
    SpecLasts(now, phrase, SevenSeconds, Seconds(7));
    var given := MakeText(now, phrase, ThirteenSeconds).value;
    Arithmetic.HalveOdd(now, given, 6);
    FromSecondsLength(7);
  }

  /* it_can_be_compared */

  /** `make('60 minutes')` equals `make('1 hour')`, is larger than
      `make('59 minutes')` and smaller than `make('61 minutes')`. */
  lemma Compared(now: Instants.Instant, phrase: Factory.PhraseParser)
    requires phrase(SixtyMinutes) == Wrappers.Some(Minutes(60))
    requires phrase(OneHour) == Wrappers.Some(Hours(1))
    requires phrase(SixtyOneMinutes) == Wrappers.Some(Minutes(61))
    requires phrase(FiftyNineMinutes) == Wrappers.Some(Minutes(59))
    ensures var given, equal := MakeText(now, phrase, SixtyMinutes), MakeText(now, phrase, OneHour);
            var larger, smaller := MakeText(now, phrase, SixtyOneMinutes), MakeText(now, phrase, FiftyNineMinutes);
            Lasts(given, 3600) && Lasts(equal, 3600) && Lasts(larger, 3660) && Lasts(smaller, 3540)
            && Arithmetic.Equals(now, given.value, equal.value)
            && Arithmetic.IsLargerThan(now, given.value, smaller.value)
            && Arithmetic.IsSmallerThan(now, given.value, larger.value)
  {
    PlainCompared();
    PhraseLasts(now, phrase, SixtyMinutes, Minutes(60));
    PhraseLasts(now, phrase, OneHour, Hours(1));
    PhraseLasts(now, phrase, SixtyOneMinutes, Minutes(61));
    PhraseLasts(now, phrase, FiftyNineMinutes, Minutes(59));
  }

  /* it_knows_the_difference */

  /** `make('1 hour 7 minutes')` equals
      `make('58 minutes')->diff(make('2 hours 5 minutes'))`. */
  lemma Difference(now: Instants.Instant, phrase: Factory.PhraseParser)
    requires phrase(FiftyEightMinutes) == Wrappers.Some(Minutes(58))
    requires phrase(TwoHoursFiveMinutes) == Wrappers.Some(HoursMinutes(2, 5))
    requires phrase(OneHourSevenMinutes) == Wrappers.Some(HoursMinutes(1, 7))
    ensures var first, second := MakeText(now, phrase, FiftyEightMinutes), MakeText(now, phrase, TwoHoursFiveMinutes);
            var expected := MakeText(now, phrase, OneHourSevenMinutes);
            Lasts(first, 3480) && Lasts(second, 7500) && Lasts(expected, 4020)
            && Arithmetic.Equals(now, expected.value, Arithmetic.Diff(now, first.value, second.value))
  {
    PlainCompared();
    PhraseLasts(now, phrase, FiftyEightMinutes, Minutes(58));
    PhraseLasts(now, phrase, TwoHoursFiveMinutes, HoursMinutes(2, 5));
    PhraseLasts(now, phrase, OneHourSevenMinutes, HoursMinutes(1, 7));
  }

  /* The facts on constants the scenarios use, each worked out apart from
     `make`. */

  lemma PlainTextual()
    ensures Plain(Textual) && IsCanonical(Breakdown(0, 0, 0, 0, 13, 37))
  {
  }

  lemma PlainOneHour()
    ensures Plain(OneHour) && IsCanonical(Hours(1))
  {
  }

  lemma PlainSixtyMinutes()
    ensures Plain(SixtyMinutes) && IsDayTime(Minutes(60))
  {
  }

  lemma SplitSeconds83()
    ensures FromSeconds(83) == Breakdown(0, 0, 0, 0, 1, 23)
  {
  }

  lemma SplitSeconds5025()
    ensures FromSeconds(5025) == Breakdown(0, 0, 0, 1, 23, 45)
  {
  }

  lemma DayOfHoursSeconds()
    ensures FromSeconds(DayTimeSeconds(Hours(24))) == Breakdown(0, 0, 1, 0, 0, 0)
  {
    assert DayTimeSeconds(Hours(24)) == 86400;
  }

  lemma HourOfSeconds()
    ensures FromSeconds(DayTimeSeconds(Seconds(3600))) == Hours(1)
  {
    assert DayTimeSeconds(Seconds(3600)) == 3600;
  }

  lemma HourOfMinutes()
    ensures FromSeconds(DayTimeSeconds(Minutes(60))) == Hours(1)
  {
    assert DayTimeSeconds(Minutes(60)) == 3600;
  }

  lemma DayHourSeconds()
    ensures FromSeconds(DayTimeSeconds(HoursMinutes(24, 60))) == Breakdown(0, 0, 1, 1, 0, 0)
  {
    assert DayTimeSeconds(HoursMinutes(24, 60)) == 90000;
  }

  lemma LeetSeconds()
    ensures FromSeconds(DayTimeSeconds(Minutes(1337))) == HoursMinutes(22, 17)
  {
    assert DayTimeSeconds(Minutes(1337)) == 80220;
  }

  lemma ColonDigits()
    ensures IsDigitRun("01") && IsDigitRun("23") && IsDigitRun("45")
    ensures DigitsValue("01") == 1 && DigitsValue("23") == 23 && DigitsValue("45") == 45
    ensures "01" + ":" + "23" + "" == MinutesSecondsText
    ensures "01" + ":" + "23" + ":" + "45" + "" == HoursMinutesSecondsText
  {
    assert "01"[..1] == "0" && "23"[..1] == "2" && "45"[..1] == "4";
  }

  lemma WrittenTextual()
    ensures Spec(Breakdown(0, 0, 0, 0, 13, 37)) == "PT13M37S"
  {
    assert NatToString(13) == "13" && NatToString(37) == "37";
  }

  lemma WrittenMinutesSeconds()
    ensures Spec(Breakdown(0, 0, 0, 0, 1, 23)) == "PT1M23S"
  {
    assert NatToString(1) == "1" && NatToString(23) == "23";
  }

  lemma WrittenHoursMinutesSeconds()
    ensures Spec(Breakdown(0, 0, 0, 1, 23, 45)) == "PT1H23M45S"
  {
    assert NatToString(1) == "1" && NatToString(23) == "23" && NatToString(45) == "45";
  }

  lemma WrittenDayHour()
    ensures Spec(Breakdown(0, 0, 1, 1, 0, 0)) == DayHourText
  {
    assert NatToString(1) == "1";
  }

  lemma WrittenDay()
    ensures Spec(Breakdown(0, 0, 1, 0, 0, 0)) == "P1D"
  {
    assert NatToString(1) == "1";
  }

  lemma WrittenDayOfHours()
    ensures Spec(Hours(24)) == DayOfHoursText
  {
    assert NatToString(24) == "24";
  }

  lemma WrittenHour()
    ensures Spec(Hours(1)) == "PT1H"
  {
    assert NatToString(1) == "1";
  }

  lemma WrittenOverflowing()
    ensures Spec(HoursMinutes(24, 60)) == OverflowingText
  {
    assert NatToString(24) == "24" && NatToString(60) == "60";
  }

  lemma WrittenLeet()
    ensures Spec(Minutes(1337)) == LeetMinutes
  {
    Print1337();
  }

  lemma Print1337()
    ensures NatToString(1337) == "1337"
  {
    assert NatToString(13) == "13";
    assert NatToString(133) == "133";
  }

  lemma WrittenVerbose()
    ensures Explicit(Seconds(3600)) == VerboseText
  {
    assert NatToString(0) == "0";
    Print3600();
  }

  lemma Print3600()
    ensures NatToString(3600) == "3600"
  {
    assert NatToString(36) == "36";
    assert NatToString(360) == "360";
  }

  lemma WrittenSixThirty()
    ensures Spec(Breakdown(0, 0, 0, 0, 6, 30)) == SixMinutesThirty
  {
    assert NatToString(6) == "6" && NatToString(30) == "30";
  }

  lemma WrittenTwentySix()
    ensures Spec(Minutes(26)) == TwentySixMinutes
  {
    assert NatToString(26) == "26";
  }

  lemma WrittenSeven()
    ensures Spec(Seconds(7)) == SevenSeconds
  {
    assert NatToString(7) == "7";
  }
}
