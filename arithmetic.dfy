/** The operations of a duration: `withAdded`, `withSubtracted`,
    `multipliedBy`, `dividedBy`, `diff` and `compareTo` with its three
    predicates. Each anchors its operands at the reference instant `now`,
    works on the instants, and the result goes through the constructor's
    normaliser. The operands are day/time durations (no years or months). */
module Arithmetic {
  import opened Breakdowns
  import opened Errors
  import opened Normalizer
  import opened Rounding
  import Instants
  import Wrappers

  type Outcome = Wrappers.Result<Breakdown, Failure>

  /** `$there->getTimestamp() - $now->getTimestamp()` for `$there = $now->add($b)`. */
  function SecondsFrom(now: Instants.Instant, b: Breakdown): (n: int)
    requires IsDayTime(b)
    ensures n == DayTimeSeconds(b)
  {
    Instants.Add(now, b) - now
  }

  /** `self::make($n.' seconds')`, taken as the duration of `n` seconds the
      phrase parser reads it as. */
  function OfSeconds(now: Instants.Instant, n: nat): (r: Breakdown)
    ensures IsDayTime(r) && IsCanonical(r) && DayTimeSeconds(r) == n
  {
    Normalize(now, Breakdown(0, 0, 0, 0, 0, n))
  }

  /** `(int) round($n * $factor)` */
  function RoundedProduct(n: nat, factor: real): (r: nat)
    requires factor >= 0.0
    ensures var x := n as real * factor; x - 0.5 < r as real <= x + 0.5
  {
    NonNegativeProduct(n as real, factor);
    RoundHalfAwayFromZero(n as real * factor)
  }

  /** `(int) round($n / $divisor)` */
  function RoundedQuotient(n: nat, divisor: real): (r: nat)
    requires divisor > 0.0
    ensures var x := n as real / divisor; x - 0.5 < r as real <= x + 0.5
  {
    NonNegativeQuotient(n as real, divisor);
    RoundHalfAwayFromZero(n as real / divisor)
  }

  lemma NonNegativeProduct(x: real, y: real)
    requires x >= 0.0 && y >= 0.0
    ensures x * y >= 0.0
  {
  }

  lemma NonNegativeQuotient(x: real, y: real)
    requires x >= 0.0 && y > 0.0
    ensures x / y >= 0.0
  {
  }

  /** `$this->withAdded($other)`: the sum of the two magnitudes. */
  function WithAdded(now: Instants.Instant, a: Breakdown, b: Breakdown): (r: Breakdown)
    requires IsDayTime(a) && IsDayTime(b)
    ensures IsDayTime(r) && IsCanonical(r)
    ensures DayTimeSeconds(r) == DayTimeSeconds(a) + DayTimeSeconds(b)
  {
    var there := Instants.Add(Instants.Add(now, a), b);
    Normalize(now, Instants.AbsDiff(there, now))
  }

  /** `$this->withSubtracted($other)`: the difference of the magnitudes,
      failing when the subtrahend is the larger one. */
  function WithSubtracted(now: Instants.Instant, a: Breakdown, b: Breakdown): (r: Outcome)
    requires IsDayTime(a) && IsDayTime(b)
    ensures r.Err? <==> DayTimeSeconds(b) > DayTimeSeconds(a)
    ensures r.Err? ==> r.error == InvalidDuration(NegativeResult)
    ensures r.Ok? ==> IsDayTime(r.value) && IsCanonical(r.value)
    ensures r.Ok? ==> DayTimeSeconds(r.value) == DayTimeSeconds(a) - DayTimeSeconds(b)
  {
    var there := Instants.Sub(Instants.Add(now, a), b);
    if there < now then Wrappers.Err(InvalidDuration(NegativeResult))
    else Wrappers.Ok(Normalize(now, Instants.AbsDiff(there, now)))
  }

  /** `$this->multipliedBy($factor)`: the second count times the factor,
      rounded to the nearest second with halves rounded up; a negative factor
      fails. */
  function MultipliedBy(now: Instants.Instant, a: Breakdown, factor: real): (r: Outcome)
    requires IsDayTime(a)
    ensures r.Err? <==> factor < 0.0
    ensures r.Err? ==> r.error == InvalidDuration(NegativeFactor)
    ensures r.Ok? ==> IsDayTime(r.value) && IsCanonical(r.value)
    ensures r.Ok? ==> DayTimeSeconds(r.value) == RoundedProduct(DayTimeSeconds(a), factor)
  {
    if factor < 0.0 then Wrappers.Err(InvalidDuration(NegativeFactor))
    else
      var result := RoundedProduct(SecondsFrom(now, a), factor);
      Wrappers.Ok(OfSeconds(now, result))
  }

  /** `$this->dividedBy($divisor)`: the second count divided by the divisor,
      rounded the same way. The source does not guard against a zero
      divisor. */
  function DividedBy(now: Instants.Instant, a: Breakdown, divisor: real): (r: Breakdown)
    requires IsDayTime(a)
    requires divisor > 0.0
    ensures IsDayTime(r) && IsCanonical(r)
    ensures var x := DayTimeSeconds(a) as real / divisor;
            x - 0.5 < DayTimeSeconds(r) as real <= x + 0.5
  {
    var result := RoundedQuotient(SecondsFrom(now, a), divisor);
    OfSeconds(now, result)
  }

  /** `$this->diff($other)`: the absolute difference of the magnitudes. */
  function Diff(now: Instants.Instant, a: Breakdown, b: Breakdown): (r: Breakdown)
    requires IsDayTime(a) && IsDayTime(b)
    ensures IsDayTime(r) && IsCanonical(r)
    ensures DayTimeSeconds(a) <= DayTimeSeconds(b) ==> DayTimeSeconds(r) == DayTimeSeconds(b) - DayTimeSeconds(a)
    ensures DayTimeSeconds(b) <= DayTimeSeconds(a) ==> DayTimeSeconds(r) == DayTimeSeconds(a) - DayTimeSeconds(b)
  {
    var here := Instants.Add(now, a);
    var there := Instants.Add(now, b);
    Normalize(now, Instants.AbsDiff(here, there))
  }

  /** `$this->compareTo($other)`: -1, 0 or 1 as the first magnitude is
      smaller than, equal to or larger than the second. */
  function CompareTo(now: Instants.Instant, a: Breakdown, b: Breakdown): (c: int)
    requires IsDayTime(a) && IsDayTime(b)
    ensures c == -1 || c == 0 || c == 1
    ensures c == -1 <==> DayTimeSeconds(a) < DayTimeSeconds(b)
    ensures c == 0 <==> DayTimeSeconds(a) == DayTimeSeconds(b)
    ensures c == 1 <==> DayTimeSeconds(a) > DayTimeSeconds(b)
  {
    var here := Instants.Add(now, a);
    var there := Instants.Add(now, b);
    Instants.Compare(here, there)
  }

  /** `isLargerThan`, `equals` and `isSmallerThan`: the three outcomes of
      `compareTo`. */
  predicate IsLargerThan(now: Instants.Instant, a: Breakdown, b: Breakdown)
    requires IsDayTime(a) && IsDayTime(b)
    ensures IsLargerThan(now, a, b) <==> DayTimeSeconds(a) > DayTimeSeconds(b)
  {
    1 == CompareTo(now, a, b)
  }

  predicate Equals(now: Instants.Instant, a: Breakdown, b: Breakdown)
    requires IsDayTime(a) && IsDayTime(b)
    ensures Equals(now, a, b) <==> DayTimeSeconds(a) == DayTimeSeconds(b)
  {
    0 == CompareTo(now, a, b)
  }

  predicate IsSmallerThan(now: Instants.Instant, a: Breakdown, b: Breakdown)
    requires IsDayTime(a) && IsDayTime(b)
    ensures IsSmallerThan(now, a, b) <==> DayTimeSeconds(a) < DayTimeSeconds(b)
  {
    -1 == CompareTo(now, a, b)
  }

  /* Properties relating the operations. */

  /** A canonical day/time duration is fixed by its second count. */
  lemma SameSeconds(a: Breakdown, b: Breakdown)
    requires IsDayTime(a) && IsCanonical(a) && IsDayTime(b) && IsCanonical(b)
    requires DayTimeSeconds(a) == DayTimeSeconds(b)
    ensures a == b
  {
    CanonicalUnique(a, b);
  }

  /** Subtracting what was added gives back the duration. */
  lemma SubtractAfterAdd(now: Instants.Instant, a: Breakdown, b: Breakdown)
    requires IsDayTime(a) && IsCanonical(a) && IsDayTime(b)
    ensures WithSubtracted(now, WithAdded(now, a, b), b) == Wrappers.Ok(a)
  {
    SameSeconds(WithSubtracted(now, WithAdded(now, a, b), b).value, a);
  }

  /** Adding back what was subtracted gives back the duration. */
  lemma AddAfterSubtract(now: Instants.Instant, a: Breakdown, b: Breakdown)
    requires IsDayTime(a) && IsCanonical(a) && IsDayTime(b)
    requires WithSubtracted(now, a, b).Ok?
    ensures WithAdded(now, WithSubtracted(now, a, b).value, b) == a
  {
    SameSeconds(WithAdded(now, WithSubtracted(now, a, b).value, b), a);
  }

  /** The zero duration is the identity of addition, on both sides. */
  lemma AddZero(now: Instants.Instant, d: Breakdown)
    requires IsDayTime(d) && IsCanonical(d)
    ensures WithAdded(now, Zero, d) == d
    ensures WithAdded(now, d, Zero) == d
  {
    ZeroLastsNothing();
    AddNothing(now, Zero, d);
  }

  /** Adding a duration zero seconds long, on either side, changes nothing. */
  lemma AddNothing(now: Instants.Instant, z: Breakdown, d: Breakdown)
    requires IsDayTime(z) && DayTimeSeconds(z) == 0
    requires IsDayTime(d) && IsCanonical(d)
    ensures WithAdded(now, z, d) == d
    ensures WithAdded(now, d, z) == d
  {
    SameSeconds(WithAdded(now, z, d), d);
    SameSeconds(WithAdded(now, d, z), d);
  }

  lemma ZeroLastsNothing()
    ensures DayTimeSeconds(Zero) == 0
  {
  }

  lemma AddCommutative(now: Instants.Instant, a: Breakdown, b: Breakdown)
    requires IsDayTime(a) && IsDayTime(b)
    ensures WithAdded(now, a, b) == WithAdded(now, b, a)
  {
    SameSeconds(WithAdded(now, a, b), WithAdded(now, b, a));
  }

  lemma AddAssociative(now: Instants.Instant, a: Breakdown, b: Breakdown, c: Breakdown)
    requires IsDayTime(a) && IsDayTime(b) && IsDayTime(c)
    ensures WithAdded(now, WithAdded(now, a, b), c) == WithAdded(now, a, WithAdded(now, b, c))
  {
    SameSeconds(WithAdded(now, WithAdded(now, a, b), c), WithAdded(now, a, WithAdded(now, b, c)));
  }

  /** `diff` is symmetric, and adding it to the smaller operand reaches the
      larger one. */
  lemma DiffSymmetric(now: Instants.Instant, a: Breakdown, b: Breakdown)
    requires IsDayTime(a) && IsDayTime(b)
    ensures Diff(now, a, b) == Diff(now, b, a)
  {
    SameSeconds(Diff(now, a, b), Diff(now, b, a));
  }

  lemma DiffBridges(now: Instants.Instant, a: Breakdown, b: Breakdown)
    requires IsDayTime(a) && IsDayTime(b) && IsCanonical(b)
    requires DayTimeSeconds(a) <= DayTimeSeconds(b)
    ensures WithAdded(now, a, Diff(now, a, b)) == b
  {
    SameSeconds(WithAdded(now, a, Diff(now, a, b)), b);
  }

  /** On canonical durations `equals` is equality of the breakdowns. */
  lemma EqualsIsIdentity(now: Instants.Instant, a: Breakdown, b: Breakdown)
    requires IsDayTime(a) && IsCanonical(a) && IsDayTime(b) && IsCanonical(b)
    ensures Equals(now, a, b) <==> a == b
  {
    if Equals(now, a, b) {
      SameSeconds(a, b);
    }
  }

  /** `compareTo` is a total order: antisymmetric and transitive. */
  lemma CompareAntisymmetric(now: Instants.Instant, a: Breakdown, b: Breakdown)
    requires IsDayTime(a) && IsDayTime(b)
    ensures CompareTo(now, a, b) == -CompareTo(now, b, a)
  {
  }

  lemma CompareTransitive(now: Instants.Instant, a: Breakdown, b: Breakdown, c: Breakdown)
    requires IsDayTime(a) && IsDayTime(b) && IsDayTime(c)
    requires CompareTo(now, a, b) <= 0 && CompareTo(now, b, c) <= 0
    ensures CompareTo(now, a, c) <= 0
    ensures CompareTo(now, a, c) == 0 ==> CompareTo(now, a, b) == 0 && CompareTo(now, b, c) == 0
  {
  }

  /** Each operation's result is the canonical breakdown of the second count
      it computes. */
  lemma AddedIsSum(now: Instants.Instant, a: Breakdown, b: Breakdown)
    requires IsDayTime(a) && IsDayTime(b)
    ensures WithAdded(now, a, b) == FromSeconds(DayTimeSeconds(a) + DayTimeSeconds(b))
  {
    FromSecondsOfCanonical(WithAdded(now, a, b));
  }

  lemma SubtractedIsDifference(now: Instants.Instant, a: Breakdown, b: Breakdown)
    requires IsDayTime(a) && IsDayTime(b)
    requires DayTimeSeconds(b) <= DayTimeSeconds(a)
    ensures WithSubtracted(now, a, b) == Wrappers.Ok(FromSeconds(DayTimeSeconds(a) - DayTimeSeconds(b)))
  {
    FromSecondsOfCanonical(WithSubtracted(now, a, b).value);
  }

  lemma DiffIsDistance(now: Instants.Instant, a: Breakdown, b: Breakdown)
    requires IsDayTime(a) && IsDayTime(b)
    ensures DayTimeSeconds(a) <= DayTimeSeconds(b) ==> Diff(now, a, b) == FromSeconds(DayTimeSeconds(b) - DayTimeSeconds(a))
    ensures DayTimeSeconds(b) <= DayTimeSeconds(a) ==> Diff(now, a, b) == FromSeconds(DayTimeSeconds(a) - DayTimeSeconds(b))
  {
    FromSecondsOfCanonical(Diff(now, a, b));
  }

  /** Multiplying by a whole number is exact. */
  lemma MultiplyWhole(now: Instants.Instant, a: Breakdown, k: nat)
    requires IsDayTime(a)
    ensures MultipliedBy(now, a, k as real) == Wrappers.Ok(FromSeconds(k * DayTimeSeconds(a)))
  {
    var n := SecondsFrom(now, a);
    RoundedProductWhole(n, k);
    var v := OfSeconds(now, k * n);
    assert MultipliedBy(now, a, k as real) == Wrappers.Ok(v);
    SameSeconds(v, FromSeconds(k * n));
  }

  lemma RoundedProductWhole(n: nat, k: nat)
    ensures RoundedProduct(n, k as real) == k * n
  {
    var p := k * n;
    WholeProduct(n, k, p);
    NearestWhole(p, RoundedProduct(n, k as real));
  }

  lemma NearestWhole(p: int, m: int)
    requires p as real - 0.5 < m as real <= p as real + 0.5
    ensures m == p
  {
  }

  lemma WholeProduct(n: nat, k: nat, p: nat)
    requires p == k * n
    ensures n as real * k as real == p as real
  {
  }

  lemma WholeQuotient(n: nat, k: nat, q: nat)
    requires k > 0 && n == k * q
    ensures n as real / k as real == q as real
  {
    WholeProduct(q, k, n);
  }

  /** Dividing by a whole number that divides the second count is exact. */
  lemma DivideExact(now: Instants.Instant, a: Breakdown, k: nat, q: nat)
    requires IsDayTime(a) && k > 0
    requires DayTimeSeconds(a) == k * q
    ensures DividedBy(now, a, k as real) == FromSeconds(q)
  {
    var n := DayTimeSeconds(a);
    var r := DividedBy(now, a, k as real);
    WholeQuotient(n, k, q);
    assert q as real - 0.5 < DayTimeSeconds(r) as real <= q as real + 0.5;
    assert DayTimeSeconds(r) == q;
    SameSeconds(r, FromSeconds(q));
  }

  /** Halving an odd second count `2n + 1` rounds the half second up, to
      `n + 1`. */
  lemma HalveOdd(now: Instants.Instant, a: Breakdown, n: nat)
    requires IsDayTime(a)
    requires DayTimeSeconds(a) == 2 * n + 1
    ensures DividedBy(now, a, 2.0) == FromSeconds(n + 1)
  {
    var r := DividedBy(now, a, 2.0);
    assert DayTimeSeconds(a) as real / 2.0 == n as real + 0.5;
    assert n as real < DayTimeSeconds(r) as real <= n as real + 1.0;
    assert DayTimeSeconds(r) == n + 1;
    SameSeconds(r, FromSeconds(n + 1));
  }

  /** The reference instant the operations anchor at does not change their
      results. */
  lemma AnchorFree(now: Instants.Instant, now': Instants.Instant, a: Breakdown, b: Breakdown)
    requires IsDayTime(a) && IsDayTime(b)
    ensures WithAdded(now, a, b) == WithAdded(now', a, b)
    ensures WithSubtracted(now, a, b) == WithSubtracted(now', a, b)
    ensures Diff(now, a, b) == Diff(now', a, b)
    ensures CompareTo(now, a, b) == CompareTo(now', a, b)
  {
    SameSeconds(WithAdded(now, a, b), WithAdded(now', a, b));
    SameSeconds(Diff(now, a, b), Diff(now', a, b));
    if WithSubtracted(now, a, b).Ok? {
      SameSeconds(WithSubtracted(now, a, b).value, WithSubtracted(now', a, b).value);
    }
  }
}
