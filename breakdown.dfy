/** The six-field breakdown a PHP `DateInterval` carries: years `y`, months
    `m`, days `d`, hours `h`, minutes `i` and seconds `s`, all non-negative. */
module Breakdowns {

  datatype Breakdown = Breakdown(y: nat, m: nat, d: nat, h: nat, i: nat, s: nat)

  const Zero := Breakdown(0, 0, 0, 0, 0, 0)

  /** No calendar units: the part of a duration whose length in seconds does
      not depend on the date it is counted from. */
  predicate IsDayTime(b: Breakdown) {
    b.y == 0 && b.m == 0
  }

  /** What the normaliser leaves behind: no field that overflows into the
      next larger one, except days, which are not regrouped (see Normalizer). */
  predicate IsCanonical(b: Breakdown) {
    b.m < 12 && b.h < 24 && b.i < 60 && b.s < 60
  }

  /** The calendar part of a breakdown, counted in months. */
  function Months(b: Breakdown): nat {
    12 * b.y + b.m
  }

  /** The length of the day/time part, in seconds. */
  function DayTimeSeconds(b: Breakdown): nat {
    ((b.d * 24 + b.h) * 60 + b.i) * 60 + b.s
  }

  /** The day/time breakdown of `n` seconds with hours below 24 and minutes and
      seconds below 60; `FromSecondsLength` says that it is `n` seconds long. */
  function FromSeconds(n: nat): (r: Breakdown)
    ensures IsDayTime(r) && IsCanonical(r)
  {
    var minutes := n / 60;
    var hours := minutes / 60;
    Breakdown(0, 0, hours / 24, hours % 24, minutes % 60, n % 60)
  }

  lemma FromSecondsLength(n: nat)
    ensures DayTimeSeconds(FromSeconds(n)) == n
  {
  }

  /** A canonical breakdown is determined by its months and its seconds: the
      normal form is unique per magnitude. */
  lemma CanonicalUnique(a: Breakdown, b: Breakdown)
    requires IsCanonical(a) && IsCanonical(b)
    requires Months(a) == Months(b)
    requires DayTimeSeconds(a) == DayTimeSeconds(b)
    ensures a == b
  {
    Split(12, a.y, a.m);
    Split(12, b.y, b.m);
    var hoursA := a.d * 24 + a.h;
    var hoursB := b.d * 24 + b.h;
    var minutesA := hoursA * 60 + a.i;
    var minutesB := hoursB * 60 + b.i;
    Split(60, minutesA, a.s);
    Split(60, minutesB, b.s);
    Split(60, hoursA, a.i);
    Split(60, hoursB, b.i);
    Split(24, a.d, a.h);
    Split(24, b.d, b.h);
  }

  /** Quotient and remainder of `q * k + r` by `k`, for a remainder below `k`. */
  lemma Split(k: nat, q: nat, r: nat)
    requires 0 <= r < k
    ensures (q * k + r) / k == q && (q * k + r) % k == r
  {
    var x := q * k + r;
    var d := x / k - q;
    assert d * k == (x / k) * k - q * k;
    assert d * k == r - x % k;
    SmallMultiple(d, k);
  }

  /** The only multiple of `k` strictly between `-k` and `k` is zero. */
  lemma SmallMultiple(d: int, k: int)
    requires k > 0 && -k < d * k < k
    ensures d == 0
  {
  }

  /** A canonical day/time breakdown is the `FromSeconds` of its length. */
  lemma FromSecondsOfCanonical(b: Breakdown)
    requires IsDayTime(b) && IsCanonical(b)
    ensures FromSeconds(DayTimeSeconds(b)) == b
  {
    FromSecondsLength(DayTimeSeconds(b));
    CanonicalUnique(FromSeconds(DayTimeSeconds(b)), b);
  }
}
