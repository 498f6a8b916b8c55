/** The class `Gamez\Duration`: an immutable object whose one field, the
    normalised interval, is set once by the constructor. The operations that
    return a new duration allocate one, as `new self(...)` does; what its
    field then holds is given by the functions of Factory and Arithmetic. */
module Durations {
  import opened Breakdowns
  import opened Decimal
  import opened Designator
  import Errors
  import Wrappers
  import Instants
  import Normalizer
  import Factory
  import Arithmetic

  class Duration {
    /** `$value`, the normalised interval */
    const value: Breakdown

    ghost predicate Valid() {
      IsCanonical(value)
    }

    /** `new self($dateInterval)`: the constructor normalises what it is
        given. */
    constructor (now: Instants.Instant, dateInterval: Breakdown)
      ensures value == Normalizer.Normalize(now, dateInterval)
      ensures Valid()
    {
      value := Normalizer.Normalize(now, dateInterval);
    }

    /** `Duration::make($value)` */
    static method Make(now: Instants.Instant, phrase: Factory.PhraseParser, input: Factory.Input)
      returns (r: Wrappers.Result<Duration, Errors.Failure>)
      ensures r.Ok? <==> Factory.Make(now, phrase, input).Ok?
      ensures r.Err? ==> r.error == Factory.Make(now, phrase, input).error
      ensures r.Ok? ==> fresh(r.value) && r.value.value == Factory.Make(now, phrase, input).value
      ensures r.Ok? ==> r.value.Valid()
    {
      var raw := Factory.RawInterval(phrase, input);
      match raw {
        case Ok(dateInterval) =>
          var d := new Duration(now, dateInterval);
          r := Wrappers.Ok(d);
        case Err(e) =>
          r := Wrappers.Err(e);
      }
    }

    /** `Duration::make($duration)` for an existing duration: `(string)`
        casts it through `__toString`, and its designator string is read
        again. A valid duration comes back unchanged. */
    static method MakeOfDuration(now: Instants.Instant, phrase: Factory.PhraseParser, d: Duration)
      returns (r: Wrappers.Result<Duration, Errors.Failure>)
      requires d.Valid()
      ensures r.Ok? && fresh(r.value) && r.value.value == d.value
    {
      var stringValue := d.ToString();
      Factory.MakeRoundTrip(now, phrase, d.value);
      r := Make(now, phrase, Factory.Text(stringValue));
    }

    /** `Duration::none()` */
    static method None(now: Instants.Instant) returns (r: Duration)
      ensures fresh(r) && r.value == Factory.None(now) && r.value == Zero
      ensures r.Valid()
    {
      Factory.NoneIsZero(now);
      ParseNoneSpec();
      var interval := ParseSpec(NoneSpec);
      r := new Duration(now, interval.value);
    }

    /** `$this->withAdded($other)` */
    method WithAdded(now: Instants.Instant, other: Duration) returns (r: Duration)
      requires IsDayTime(value) && IsDayTime(other.value)
      ensures fresh(r) && r.value == Arithmetic.WithAdded(now, value, other.value)
      ensures r.Valid()
    {
      var there := Instants.Add(Instants.Add(now, value), other.value);
      r := new Duration(now, Instants.AbsDiff(there, now));
    }

    /** `$this->withSubtracted($other)` */
    method WithSubtracted(now: Instants.Instant, other: Duration)
      returns (r: Wrappers.Result<Duration, Errors.Failure>)
      requires IsDayTime(value) && IsDayTime(other.value)
      ensures r.Ok? <==> Arithmetic.WithSubtracted(now, value, other.value).Ok?
      ensures r.Err? ==> r.error == Errors.InvalidDuration(Errors.NegativeResult)
      ensures r.Ok? ==> fresh(r.value) && r.value.value == Arithmetic.WithSubtracted(now, value, other.value).value
      ensures r.Ok? ==> r.value.Valid()
    {
      var there := Instants.Sub(Instants.Add(now, value), other.value);
      if there < now {
        return Wrappers.Err(Errors.InvalidDuration(Errors.NegativeResult));
      }
      var d := new Duration(now, Instants.AbsDiff(there, now));
      r := Wrappers.Ok(d);
    }

    /** `$this->multipliedBy($factor)` */
    method MultipliedBy(now: Instants.Instant, factor: real)
      returns (r: Wrappers.Result<Duration, Errors.Failure>)
      requires IsDayTime(value)
      ensures r.Ok? <==> Arithmetic.MultipliedBy(now, value, factor).Ok?
      ensures r.Err? ==> r.error == Errors.InvalidDuration(Errors.NegativeFactor)
      ensures r.Ok? ==> fresh(r.value) && r.value.value == Arithmetic.MultipliedBy(now, value, factor).value
      ensures r.Ok? ==> r.value.Valid()
    {
      if factor < 0.0 {
        return Wrappers.Err(Errors.InvalidDuration(Errors.NegativeFactor));
      }
      var durationInSeconds := Arithmetic.SecondsFrom(now, value);
      var result := Arithmetic.RoundedProduct(durationInSeconds, factor);
      var d := new Duration(now, Breakdown(0, 0, 0, 0, 0, result));
      r := Wrappers.Ok(d);
    }

    /** `$this->dividedBy($divisor)` */
    method DividedBy(now: Instants.Instant, divisor: real) returns (r: Duration)
      requires IsDayTime(value)
      requires divisor > 0.0
      ensures fresh(r) && r.value == Arithmetic.DividedBy(now, value, divisor)
      ensures r.Valid()
    {
      var durationInSeconds := Arithmetic.SecondsFrom(now, value);
      var result := Arithmetic.RoundedQuotient(durationInSeconds, divisor);
      r := new Duration(now, Breakdown(0, 0, 0, 0, 0, result));
    }

    /** `$this->diff($other)` */
    method Diff(now: Instants.Instant, other: Duration) returns (r: Duration)
      requires IsDayTime(value) && IsDayTime(other.value)
      ensures fresh(r) && r.value == Arithmetic.Diff(now, value, other.value)
      ensures r.Valid()
    {
      var here := Instants.Add(now, value);
      var there := Instants.Add(now, other.value);
      r := new Duration(now, Instants.AbsDiff(here, there));
    }

    /** `$this->toDateInterval()` */
    function ToDateInterval(): Breakdown {
      value
    }

    /** `toDateIntervalSpec()`: append `P`, the non-zero date fields, `T` and
        the non-zero time fields; drop a trailing `T`; a bare `P` becomes
        `PT0S`. */
    method ToDateIntervalSpec() returns (spec: string)
      ensures spec == Spec(value)
    {
      var current := value;
      spec := "P";
      spec := spec + Field(current.y, 'Y');
      spec := spec + Field(current.m, 'M');
      spec := spec + Field(current.d, 'D');
      spec := spec + "T";
      spec := spec + Field(current.h, 'H');
      spec := spec + Field(current.i, 'M');
      spec := spec + Field(current.s, 'S');
      Appended(current, spec);
      if spec[|spec| - 1] == 'T' {
        spec := spec[..|spec| - 1];
      }
      if spec == "P" {
        spec := NoneSpec;
      }
    }

    /** `__toString()` */
    method ToString() returns (s: string)
      ensures s == Spec(value)
    {
      s := ToDateIntervalSpec();
    }
  }

  /** The string the serialiser has built before trimming. */
  lemma Appended(b: Breakdown, spec: string)
    requires spec == "P" + Field(b.y, 'Y') + Field(b.m, 'M') + Field(b.d, 'D') + "T"
                         + Field(b.h, 'H') + Field(b.i, 'M') + Field(b.s, 'S')
    ensures |spec| >= 2
    ensures var cut := if spec[|spec| - 1] == 'T' then spec[..|spec| - 1] else spec;
            (if cut == "P" then NoneSpec else cut) == Spec(b)
  {
    var date, time := DatePart(b), TimePart(b);
    Regroup(Field(b.y, 'Y'), Field(b.m, 'M'), Field(b.d, 'D'), Field(b.h, 'H'), Field(b.i, 'M'), Field(b.s, 'S'));
    if time != [] {
      Designator.TimePartEnd(b);
    }
    Trimmed(date, time);
  }

  lemma Regroup(a: string, b: string, c: string, d: string, e: string, f: string)
    ensures "P" + a + b + c + "T" + d + e + f == "P" + (a + b + c) + "T" + (d + e + f)
  {
  }

  /** Dropping a trailing `T` and replacing a bare `P` by `PT0S`. */
  lemma Trimmed(date: string, time: string)
    requires time == [] || time[|time| - 1] != 'T'
    ensures var full := "P" + date + "T" + time;
            var cut := if full[|full| - 1] == 'T' then full[..|full| - 1] else full;
            (if cut == "P" then NoneSpec else cut)
              == if date == [] && time == [] then NoneSpec
                 else "P" + date + (if time == [] then [] else "T" + time)
  {
    var full := "P" + date + "T" + time;
    if time == [] {
      assert full[..|full| - 1] == "P" + date;
    } else {
      assert full[|full| - 1] == time[|time| - 1];
      assert |full| > 1;
    }
  }
}
