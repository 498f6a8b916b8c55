/** `Duration::make` and `Duration::none`: from an input to the canonical
    breakdown a new duration holds. */
module Factory {
  import opened Decimal
  import opened Breakdowns
  import opened Errors
  import opened Designator
  import opened Normalizer
  import Wrappers
  import Instants

  /** What `make` is given: an existing `DateInterval`, or a string. */
  datatype Input = Interval(interval: Breakdown) | Text(text: string)

  /** `DateInterval::createFromDateString`, the platform's free-form phrase
      parser ("13 minutes 37 seconds"); it is not part of this model and is
      passed in. */
  type PhraseParser = string -> Wrappers.Option<Breakdown>

  type Outcome = Wrappers.Result<Breakdown, Failure>

  /** `explode(':', $s)` */
  function Explode(s: string): (r: seq<string>)
    ensures |r| >= 1
    decreases |s|
  {
    if s == [] then [[]]
    else
      var tail := Explode(s[1..]);
      if s[0] == ':' then [[]] + tail else [[s[0]] + tail[0]] + tail[1..]
  }

  /** What the final `(\d+)$` of the patterns accepts: digits, optionally
      followed by the one final newline that `$` lets through. */
  predicate IsFinalGroup(g: string) {
    IsDigitRun(g) || (|g| >= 2 && g[|g| - 1] == '\n' && IsDigitRun(g[..|g| - 1]))
  }

  /** `preg_match('/^(\d+):(\d+)$/', $s)` for `n == 2` and
      `preg_match('/^(\d+):(\d+):(\d+)$/', $s)` for `n == 3`. */
  predicate MatchesGroups(s: string, n: nat)
    requires n >= 1
  {
    var g := Explode(s);
    |g| == n && (forall k :: 0 <= k < n - 1 ==> IsDigitRun(g[k])) && IsFinalGroup(g[n - 1])
  }

  /** `new DateInterval($spec)` */
  function IntervalFromSpec(spec: string): Outcome {
    match ParseSpec(spec)
    case Some(b) => Wrappers.Ok(b)
    case None => Wrappers.Err(UnknownOrBadFormat(spec))
  }

  /** The interval `make` hands to the constructor, tried in the source's
      order: an interval as it is; `a:b` as minutes and seconds; `a:b:c` as
      hours, minutes and seconds; a designator spec starting with `P`; and
      anything else through the phrase parser. */
  function RawInterval(phrase: PhraseParser, input: Input): Outcome {
    match input
    case Interval(b) => Wrappers.Ok(b)
    case Text(s) =>
      if MatchesGroups(s, 2) then
        var g := Explode(s);
        IntervalFromSpec("PT" + Designated(IntVal(g[0]), 'M') + Designated(IntVal(g[1]), 'S'))
      else if MatchesGroups(s, 3) then
        var g := Explode(s);
        IntervalFromSpec("PT" + Designated(IntVal(g[0]), 'H') + Designated(IntVal(g[1]), 'M')
                         + Designated(IntVal(g[2]), 'S'))
      else if |s| > 0 && s[0] == 'P' then
        IntervalFromSpec(s)
      else
        match phrase(s)
        case Some(b) => Wrappers.Ok(b)
        case None => Wrappers.Err(UnrecognisedPhrase(s))
  }

  /** `Duration::make($value)`: the raw interval, normalised by the
      constructor. */
  function Make(now: Instants.Instant, phrase: PhraseParser, input: Input): (r: Outcome)
    ensures r.Ok? ==> IsCanonical(r.value)
    ensures r.Ok? <==> RawInterval(phrase, input).Ok?
  {
    match RawInterval(phrase, input)
    case Ok(b) => Wrappers.Ok(Normalize(now, b))
    case Err(e) => Wrappers.Err(e)
  }

  /** `Duration::none()`: a duration made from the spec `PT0S`. */
  function None(now: Instants.Instant): Breakdown {
    match IntervalFromSpec(NoneSpec)
    case Ok(b) => Normalize(now, b)
    case Err(_) => Zero
  }

  /** `none()` is the zero breakdown, and it serialises as `PT0S`. */
  lemma NoneIsZero(now: Instants.Instant)
    ensures None(now) == Zero
    ensures Spec(None(now)) == NoneSpec
  {
    ParseNoneSpec();
    NormalizeFixesCanonical(now, Zero);
    SpecOfZero();
  }

  /* Splitting on colons. */

  lemma {:induction false} ExplodeNoColon(s: string)
    requires ':' !in s
    ensures Explode(s) == [s]
    decreases |s|
  {
    if s != [] {
      ExplodeNoColon(s[1..]);
      assert [s[0]] + s[1..] == s;
    }
  }

  lemma {:induction false} ExplodeJoin(g: string, rest: string)
    requires ':' !in g
    ensures Explode(g + ":" + rest) == [g] + Explode(rest)
    decreases |g|
  {
    var s := g + ":" + rest;
    if g == [] {
      assert s[1..] == rest;
    } else {
      assert s[1..] == g[1..] + ":" + rest;
      ExplodeJoin(g[1..], rest);
      assert [g[0]] + g[1..] == g;
    }
  }

  lemma ExplodeFirst(s: string)
    requires |s| > 0 && s[0] != ':'
    ensures |Explode(s)[0]| > 0 && Explode(s)[0][0] == s[0]
  {
  }

  lemma DigitsHaveNoColon(g: string)
    requires AllDigits(g)
    ensures ':' !in g
  {
  }

  /** A designator string never matches the colon patterns. */
  lemma SpecNotColonForm(s: string)
    requires |s| > 0 && s[0] == 'P'
    ensures !MatchesGroups(s, 2) && !MatchesGroups(s, 3)
  {
    ExplodeFirst(s);
  }

  /* The branches of `make`. */

  /** An interval is normalised and kept. */
  lemma MakeInterval(now: Instants.Instant, phrase: PhraseParser, b: Breakdown)
    ensures Make(now, phrase, Interval(b)) == Wrappers.Ok(Normalize(now, b))
  {
  }

  /** A group before a colon: digits, which `intval` reads whole. */
  lemma InnerGroupOf(g: string)
    requires IsDigitRun(g)
    ensures ':' !in g && IntVal(g) == DigitsValue(g)
  {
    DigitsHaveNoColon(g);
    IntValOfDigits(g, []);
    assert g + [] == g;
  }

  /** The last group: digits, and the one newline `$` lets through. */
  lemma FinalGroupOf(g: string, nl: string)
    requires IsDigitRun(g) && (nl == "\n" || nl == "")
    ensures IsFinalGroup(g + nl) && ':' !in g + nl
    ensures IntVal(g + nl) == DigitsValue(g)
  {
    DigitsHaveNoColon(g);
    IntValOfDigits(g, nl);
    if nl == "\n" {
      assert (g + nl)[..|g + nl| - 1] == g;
    } else {
      assert g + nl == g;
    }
  }

  lemma TwoGroups(a: string, b: string, nl: string)
    requires IsDigitRun(a) && IsDigitRun(b) && (nl == "\n" || nl == "")
    ensures Explode(a + ":" + b + nl) == [a, b + nl]
    ensures MatchesGroups(a + ":" + b + nl, 2)
  {
    assert a + ":" + b + nl == a + ":" + (b + nl);
    InnerGroupOf(a);
    FinalGroupOf(b, nl);
    ExplodeJoin(a, b + nl);
    ExplodeNoColon(b + nl);
  }

  lemma ThreeGroups(a: string, b: string, c: string, nl: string)
    requires IsDigitRun(a) && IsDigitRun(b) && IsDigitRun(c) && (nl == "\n" || nl == "")
    ensures Explode(a + ":" + b + ":" + c + nl) == [a, b, c + nl]
    ensures !MatchesGroups(a + ":" + b + ":" + c + nl, 2)
    ensures MatchesGroups(a + ":" + b + ":" + c + nl, 3)
  {
    assert a + ":" + b + ":" + c + nl == a + ":" + (b + ":" + (c + nl));
    assert b + ":" + c + nl == b + ":" + (c + nl);
    InnerGroupOf(a);
    InnerGroupOf(b);
    FinalGroupOf(c, nl);
    ExplodeJoin(a, b + ":" + (c + nl));
    ExplodeJoin(b, c + nl);
    ExplodeNoColon(c + nl);
  }

  lemma RawMinutesSeconds(phrase: PhraseParser, a: string, b: string, nl: string)
    requires IsDigitRun(a) && IsDigitRun(b) && (nl == "\n" || nl == "")
    ensures RawInterval(phrase, Text(a + ":" + b + nl))
            == Wrappers.Ok(Breakdown(0, 0, 0, 0, DigitsValue(a), DigitsValue(b)))
  {
    TwoGroups(a, b, nl);
    InnerGroupOf(a);
    FinalGroupOf(b, nl);
    ParseMinutesSeconds(DigitsValue(a), DigitsValue(b));
  }

  lemma RawHoursMinutesSeconds(phrase: PhraseParser, a: string, b: string, c: string, nl: string)
    requires IsDigitRun(a) && IsDigitRun(b) && IsDigitRun(c) && (nl == "\n" || nl == "")
    ensures RawInterval(phrase, Text(a + ":" + b + ":" + c + nl))
            == Wrappers.Ok(Breakdown(0, 0, 0, DigitsValue(a), DigitsValue(b), DigitsValue(c)))
  {
    ThreeGroups(a, b, c, nl);
    InnerGroupOf(a);
    InnerGroupOf(b);
    FinalGroupOf(c, nl);
    ParseHoursMinutesSeconds(DigitsValue(a), DigitsValue(b), DigitsValue(c));
  }

  /** `"<a>:<b>"` is `a` minutes and `b` seconds, leading zeros dropped; a
      single final newline is let through. */
  lemma MakeMinutesSeconds(now: Instants.Instant, phrase: PhraseParser, a: string, b: string, newline: bool)
    requires IsDigitRun(a) && IsDigitRun(b)
    ensures var s := a + ":" + b + (if newline then "\n" else "");
            Make(now, phrase, Text(s))
            == Wrappers.Ok(Normalize(now, Breakdown(0, 0, 0, 0, DigitsValue(a), DigitsValue(b))))
  {
    RawMinutesSeconds(phrase, a, b, if newline then "\n" else "");
  }

  /** So `"<a>:<b>"` is the canonical breakdown of `60a + b` seconds. */
  lemma MakeMinutesSecondsCount(now: Instants.Instant, phrase: PhraseParser, a: string, b: string, newline: bool)
    requires IsDigitRun(a) && IsDigitRun(b)
    ensures var s := a + ":" + b + (if newline then "\n" else "");
            Make(now, phrase, Text(s)) == Wrappers.Ok(FromSeconds(60 * DigitsValue(a) + DigitsValue(b)))
  {
    var raw := Breakdown(0, 0, 0, 0, DigitsValue(a), DigitsValue(b));
    MakeMinutesSeconds(now, phrase, a, b, newline);
    NormalizeDayTime(now, raw);
    assert DayTimeSeconds(raw) == 60 * DigitsValue(a) + DigitsValue(b);
  }

  /** `"<a>:<b>:<c>"` is `a` hours, `b` minutes and `c` seconds. */
  lemma MakeHoursMinutesSeconds(now: Instants.Instant, phrase: PhraseParser,
                                a: string, b: string, c: string, newline: bool)
    requires IsDigitRun(a) && IsDigitRun(b) && IsDigitRun(c)
    ensures var s := a + ":" + b + ":" + c + (if newline then "\n" else "");
            Make(now, phrase, Text(s))
            == Wrappers.Ok(Normalize(now, Breakdown(0, 0, 0, DigitsValue(a), DigitsValue(b), DigitsValue(c))))
  {
    RawHoursMinutesSeconds(phrase, a, b, c, if newline then "\n" else "");
  }

  /** So `"<a>:<b>:<c>"` is the canonical breakdown of `3600a + 60b + c`
      seconds. */
  lemma MakeHoursMinutesSecondsCount(now: Instants.Instant, phrase: PhraseParser,
                                     a: string, b: string, c: string, newline: bool)
    requires IsDigitRun(a) && IsDigitRun(b) && IsDigitRun(c)
    ensures var s := a + ":" + b + ":" + c + (if newline then "\n" else "");
            Make(now, phrase, Text(s))
            == Wrappers.Ok(FromSeconds(3600 * DigitsValue(a) + 60 * DigitsValue(b) + DigitsValue(c)))
  {
    var raw := Breakdown(0, 0, 0, DigitsValue(a), DigitsValue(b), DigitsValue(c));
    MakeHoursMinutesSeconds(now, phrase, a, b, c, newline);
    NormalizeDayTime(now, raw);
    assert DayTimeSeconds(raw) == 3600 * DigitsValue(a) + 60 * DigitsValue(b) + DigitsValue(c);
  }

  /** A string that is neither colon form nor a designator goes to the phrase
      parser; when it does not recognise it, `make` fails. */
  lemma MakePhrase(now: Instants.Instant, phrase: PhraseParser, s: string)
    requires !MatchesGroups(s, 2) && !MatchesGroups(s, 3)
    requires |s| == 0 || s[0] != 'P'
    ensures phrase(s).Some? ==> Make(now, phrase, Text(s)) == Wrappers.Ok(Normalize(now, phrase(s).value))
    ensures phrase(s).None? ==> Make(now, phrase, Text(s)) == Wrappers.Err(UnrecognisedPhrase(s))
    ensures phrase(s).Some? && IsDayTime(phrase(s).value)
            ==> Make(now, phrase, Text(s)) == Wrappers.Ok(FromSeconds(DayTimeSeconds(phrase(s).value)))
  {
    if phrase(s).Some? && IsDayTime(phrase(s).value) {
      NormalizeDayTime(now, phrase(s).value);
    }
  }

  /** A string starting with `P` is read as a designator spec; one the reader
      rejects fails with the `DateInterval` constructor's error. */
  lemma MakeDesignator(now: Instants.Instant, phrase: PhraseParser, s: string)
    requires |s| > 0 && s[0] == 'P'
    ensures ParseSpec(s).Some? ==> Make(now, phrase, Text(s)) == Wrappers.Ok(Normalize(now, ParseSpec(s).value))
    ensures ParseSpec(s).None? ==> Make(now, phrase, Text(s)) == Wrappers.Err(UnknownOrBadFormat(s))
  {
    SpecNotColonForm(s);
  }

  /** A designator spec without years and months gives the canonical
      breakdown of its second count. */
  lemma MakeDesignatorDayTime(now: Instants.Instant, phrase: PhraseParser, s: string, b: Breakdown)
    requires |s| > 0 && s[0] == 'P'
    requires ParseSpec(s) == Wrappers.Some(b) && IsDayTime(b)
    ensures Make(now, phrase, Text(s)) == Wrappers.Ok(FromSeconds(DayTimeSeconds(b)))
  {
    MakeDesignator(now, phrase, s);
    NormalizeDayTime(now, b);
  }

  /** Making a duration from any breakdown's designator string gives that
      breakdown's normal form. */
  lemma MakeFromSpec(now: Instants.Instant, phrase: PhraseParser, b: Breakdown)
    ensures Make(now, phrase, Text(Spec(b))) == Wrappers.Ok(Normalize(now, b))
  {
    SpecShape(b);
    ParseSpecOfSpec(b);
    MakeDesignator(now, phrase, Spec(b));
  }

  /** For a day/time breakdown that is the canonical breakdown of its second
      count. */
  lemma MakeFromDayTimeSpec(now: Instants.Instant, phrase: PhraseParser, b: Breakdown)
    requires IsDayTime(b)
    ensures Make(now, phrase, Text(Spec(b))) == Wrappers.Ok(FromSeconds(DayTimeSeconds(b)))
  {
    MakeFromSpec(now, phrase, b);
    NormalizeDayTime(now, b);
  }

  /** Round trip: re-making a duration from its own string gives it back; so
      its string is unchanged too. */
  lemma MakeRoundTrip(now: Instants.Instant, phrase: PhraseParser, v: Breakdown)
    requires IsCanonical(v)
    ensures Make(now, phrase, Text(Spec(v))) == Wrappers.Ok(v)
    ensures Spec(Make(now, phrase, Text(Spec(v))).value) == Spec(v)
  {
    MakeFromSpec(now, phrase, v);
    NormalizeFixesCanonical(now, v);
  }

  /** `"<n> seconds"`, the string `multipliedBy` and `dividedBy` build, goes
      to the phrase parser; when that reads it as `n` seconds, the result is
      the canonical breakdown of `n` seconds. */
  lemma MakeSeconds(now: Instants.Instant, phrase: PhraseParser, n: nat)
    requires phrase(NatToString(n) + " seconds") == Wrappers.Some(Breakdown(0, 0, 0, 0, 0, n))
    ensures Make(now, phrase, Text(NatToString(n) + " seconds")) == Wrappers.Ok(FromSeconds(n))
  {
    var s := NatToString(n) + " seconds";
    DigitsHaveNoColon(NatToString(n));
    assert ':' !in " seconds";
    assert ':' !in s;
    ExplodeNoColon(s);
    assert s[0] == NatToString(n)[0];
    MakePhrase(now, phrase, s);
    NormalizeDayTime(now, Breakdown(0, 0, 0, 0, 0, n));
  }
}
