/** The normaliser the PHP constructor runs on every interval it is given:
    add the interval to the reference instant and take the difference back. */
module Normalizer {
  import opened Breakdowns
  import Instants

  /** `normalizeInterval`: anchor the day/time part at `now`, add it, and
      measure the distance back; months are carried into years twelve at a
      time. `NormalizeMagnitude` says that the magnitude is kept. */
  function Normalize(now: Instants.Instant, raw: Breakdown): (r: Breakdown)
    ensures IsCanonical(r)
    ensures IsDayTime(raw) ==> IsDayTime(r)
  {
    var dayTime := Breakdown(0, 0, raw.d, raw.h, raw.i, raw.s);
    var there := Instants.Add(now, dayTime);
    var t := Instants.AbsDiff(now, there);
    Breakdown(raw.y + raw.m / 12, raw.m % 12, t.d, t.h, t.i, t.s)
  }

  /** The normal form has the same months and the same second count as the
      interval it was made from. */
  lemma NormalizeMagnitude(now: Instants.Instant, raw: Breakdown)
    ensures Months(Normalize(now, raw)) == Months(raw)
    ensures DayTimeSeconds(Normalize(now, raw)) == DayTimeSeconds(raw)
  {
    var dayTime := Breakdown(0, 0, raw.d, raw.h, raw.i, raw.s);
    var there := Instants.Add(now, dayTime);
    FromSecondsLength(if now <= there then there - now else now - there);
  }

  /** Two intervals normalise to the same breakdown exactly when they have
      the same magnitude. */
  lemma NormalizeEqualIff(now: Instants.Instant, a: Breakdown, b: Breakdown)
    ensures Normalize(now, a) == Normalize(now, b)
        <==> Months(a) == Months(b) && DayTimeSeconds(a) == DayTimeSeconds(b)
  {
    NormalizeMagnitude(now, a);
    NormalizeMagnitude(now, b);
    if Months(a) == Months(b) && DayTimeSeconds(a) == DayTimeSeconds(b) {
      CanonicalUnique(Normalize(now, a), Normalize(now, b));
    }
  }

  /** A canonical breakdown is left as it is; so normalising twice is
      normalising once. */
  lemma NormalizeFixesCanonical(now: Instants.Instant, b: Breakdown)
    requires IsCanonical(b)
    ensures Normalize(now, b) == b
  {
    NormalizeMagnitude(now, b);
    CanonicalUnique(Normalize(now, b), b);
  }

  lemma NormalizeIdempotent(now: Instants.Instant, now': Instants.Instant, b: Breakdown)
    ensures Normalize(now', Normalize(now, b)) == Normalize(now, b)
  {
    NormalizeFixesCanonical(now', Normalize(now, b));
  }

  /** In the model, which keeps every span as days, hours, minutes and
      seconds, the result does not depend on the UTC instant it is anchored
      at. PHP's `diff` counts a span of a calendar month or more in months
      from that instant; README.md lists that regrouping under "Left out". */
  lemma NormalizeAnchorFree(now: Instants.Instant, now': Instants.Instant, b: Breakdown)
    ensures Normalize(now, b) == Normalize(now', b)
  {
    NormalizeMagnitude(now, b);
    NormalizeMagnitude(now', b);
    CanonicalUnique(Normalize(now, b), Normalize(now', b));
  }

  /** A day/time interval normalises to the canonical breakdown of its length. */
  lemma NormalizeDayTime(now: Instants.Instant, b: Breakdown)
    requires IsDayTime(b)
    ensures Normalize(now, b) == FromSeconds(DayTimeSeconds(b))
  {
    NormalizeMagnitude(now, b);
    FromSecondsLength(DayTimeSeconds(b));
    CanonicalUnique(Normalize(now, b), FromSeconds(DayTimeSeconds(b)));
  }
}
