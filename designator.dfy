/** The duration-designator text of section 4.4.3.2 of ISO 8601:2004, in the
    subset `P[nY][nM][nD][T[nH][nM][nS]]` without weeks: the canonical string
    the serialiser emits and a reader for that subset. */
module Designator {
  import opened Decimal
  import opened Breakdowns
  import opened Wrappers

  /** `Duration::NONE`, the text of the zero duration. */
  const NoneSpec := "PT0S"

  predicate IsUnit(c: char) {
    c == 'Y' || c == 'M' || c == 'D' || c == 'H' || c == 'S'
  }

  /** `<n><unit>`, the number without leading zeros. */
  function Designated(n: nat, unit: char): string {
    NatToString(n) + [unit]
  }

  /** What the serialiser appends for one field: nothing when it is zero. */
  function Field(n: nat, unit: char): (r: string)
    requires IsUnit(unit)
    ensures r == [] <==> n == 0
    ensures r != [] ==> IsDigit(r[0]) && r[|r| - 1] == unit
  {
    if n == 0 then [] else Designated(n, unit)
  }

  function DatePart(b: Breakdown): string {
    Field(b.y, 'Y') + Field(b.m, 'M') + Field(b.d, 'D')
  }

  function TimePart(b: Breakdown): string {
    Field(b.h, 'H') + Field(b.i, 'M') + Field(b.s, 'S')
  }

  /** The designator string of a breakdown: `P`, the non-zero date fields,
      then `T` and the non-zero time fields when there are any; the all-zero
      breakdown is `PT0S`. */
  function Spec(b: Breakdown): string {
    if DatePart(b) == [] && TimePart(b) == [] then NoneSpec
    else "P" + DatePart(b) + (if TimePart(b) == [] then [] else "T" + TimePart(b))
  }

  /** The serialiser's output starts with `P`, is never the bare `P`, and
      never ends in the designator `T`. */
  lemma SpecShape(b: Breakdown)
    ensures |Spec(b)| >= 2 && Spec(b)[0] == 'P'
    ensures Spec(b)[|Spec(b)| - 1] != 'T'
  {
    if TimePart(b) != [] {
      SpecShapeWithTime(b);
    } else if DatePart(b) != [] {
      SpecShapeDateOnly(b);
    }
  }

  lemma SpecShapeWithTime(b: Breakdown)
    requires TimePart(b) != []
    ensures |Spec(b)| >= 2 && Spec(b)[0] == 'P'
    ensures Spec(b)[|Spec(b)| - 1] != 'T'
  {
    TimePartEnd(b);
    SpecWithTime(b);
    ShapeWithTime(DatePart(b), TimePart(b));
  }

  lemma SpecShapeDateOnly(b: Breakdown)
    requires TimePart(b) == [] && DatePart(b) != []
    ensures |Spec(b)| >= 2 && Spec(b)[0] == 'P'
    ensures Spec(b)[|Spec(b)| - 1] != 'T'
  {
    DatePartEnd(b);
    SpecDateOnly(b);
    LastOfConcat("P", DatePart(b));
  }

  lemma DatePartEnd(b: Breakdown)
    requires DatePart(b) != []
    ensures IsUnit(DatePart(b)[|DatePart(b)| - 1])
  {
    UnitEnd(Field(b.y, 'Y'), Field(b.m, 'M'), Field(b.d, 'D'));
  }

  lemma TimePartEnd(b: Breakdown)
    requires TimePart(b) != []
    ensures IsUnit(TimePart(b)[|TimePart(b)| - 1])
  {
    UnitEnd(Field(b.h, 'H'), Field(b.i, 'M'), Field(b.s, 'S'));
  }

  /** Without a time field, the string is `P` and the date part. */
  lemma SpecDateOnly(b: Breakdown)
    requires TimePart(b) == [] && DatePart(b) != []
    ensures Spec(b) == "P" + DatePart(b)
  {
  }

  /** `P`, some text, `T` and a part ending in a unit, ends in that unit. */
  lemma ShapeWithTime(dp: string, tp: string)
    requires tp != [] && IsUnit(tp[|tp| - 1])
    ensures var s := "P" + (dp + ("T" + tp)); |s| >= 2 && s[0] == 'P' && s[|s| - 1] != 'T'
  {
    LastOfConcat("T", tp);
    LastOfConcat(dp, "T" + tp);
    LastOfConcat("P", dp + ("T" + tp));
  }

  /** Three serialised fields, when not all empty, end in a unit. */
  lemma UnitEnd(x: string, y: string, z: string)
    requires x == [] || IsUnit(x[|x| - 1])
    requires y == [] || IsUnit(y[|y| - 1])
    requires z == [] || IsUnit(z[|z| - 1])
    ensures var w := x + y + z; w == [] || IsUnit(w[|w| - 1])
  {
    if z != [] {
      LastOfConcat(x + y, z);
    } else if y != [] {
      assert x + y + z == x + y;
      LastOfConcat(x, y);
    } else {
      assert x + y + z == x;
    }
  }

  lemma LastOfConcat(x: string, y: string)
    requires y != []
    ensures (x + y)[|x + y| - 1] == y[|y| - 1]
  {
  }

  /** The zero breakdown serialises as `PT0S`. */
  lemma SpecOfZero()
    ensures Spec(Zero) == NoneSpec
  {
    assert DatePart(Zero) == [] && TimePart(Zero) == [];
  }

  /** An optional `<digits><unit>` at the front of a string. */
  datatype Scan = Scan(value: nat, present: bool, rest: string)

  function ScanField(s: string, unit: char): (r: Scan)
    ensures |r.rest| <= |s|
  {
    var k := DigitRun(s);
    if 0 < k < |s| && s[k] == unit then Scan(DigitsValue(s[..k]), true, s[k + 1..])
    else Scan(0, false, s)
  }

  /** `new DateInterval($spec)` on the designator subset: at least one field,
      and a `T` only when a time field follows it. */
  function ParseSpec(s: string): Option<Breakdown> {
    if |s| == 0 || s[0] != 'P' then None else ParseFields(s[1..])
  }

  /** The text after `P`. */
  function ParseFields(s: string): Option<Breakdown> {
    var y := ScanField(s, 'Y');
    var m := ScanField(y.rest, 'M');
    var d := ScanField(m.rest, 'D');
    if d.rest == [] then
      if y.present || m.present || d.present then Some(Breakdown(y.value, m.value, d.value, 0, 0, 0))
      else None
    else if d.rest[0] != 'T' then None
    else
      match ParseTimeFields(d.rest[1..])
      case Some(t) => Some(Breakdown(y.value, m.value, d.value, t.h, t.i, t.s))
      case None => None
  }

  /** The text after `T`: hours, minutes and seconds, at least one of them. */
  function ParseTimeFields(s: string): Option<Breakdown> {
    var h := ScanField(s, 'H');
    var i := ScanField(h.rest, 'M');
    var sec := ScanField(i.rest, 'S');
    if sec.rest == [] && (h.present || i.present || sec.present) then
      Some(Breakdown(0, 0, 0, h.value, i.value, sec.value))
    else None
  }

  /* Lemmas about scanning one field. */

  /** `s` does not start with `<digits><unit>`. */
  predicate Unled(s: string, unit: char) {
    var k := DigitRun(s);
    !(0 < k < |s| && s[k] == unit)
  }

  lemma ScanDesignated(n: nat, unit: char, rest: string)
    requires !IsDigit(unit)
    ensures ScanField(Designated(n, unit) + rest, unit) == Scan(n, true, rest)
  {
    var a := NatToString(n);
    var s := Designated(n, unit) + rest;
    assert s == a + ([unit] + rest);
    DigitRunOfConcat(a, [unit] + rest);
    DigitsValueOfNatToString(n);
    assert s[|a| + 1..] == rest;
  }

  lemma ScanUnled(s: string, unit: char)
    requires Unled(s, unit)
    ensures ScanField(s, unit) == Scan(0, false, s)
  {
  }

  lemma UnledField(n: nat, u: char, rest: string, unit: char)
    requires IsUnit(u) && u != unit
    requires Unled(rest, unit)
    ensures Unled(Field(n, u) + rest, unit)
  {
    var s := Field(n, u) + rest;
    if n != 0 {
      var a := NatToString(n);
      assert s == a + ([u] + rest);
      DigitRunOfConcat(a, [u] + rest);
      assert s[|a|] == u;
    } else {
      assert s == rest;
    }
  }

  lemma UnledStart(s: string, unit: char)
    requires s == [] || !IsDigit(s[0])
    ensures Unled(s, unit)
  {
  }

  /** Scanning the serialiser's piece for a field gives back the field. */
  lemma ScanFieldOf(n: nat, unit: char, rest: string)
    requires IsUnit(unit)
    requires Unled(rest, unit)
    ensures ScanField(Field(n, unit) + rest, unit) == Scan(n, n != 0, rest)
  {
    if n != 0 {
      ScanDesignated(n, unit, rest);
    } else {
      assert Field(n, unit) + rest == rest;
    }
  }

  /* The round trip. */

  /** The time fields `<h>H<i>M<s>S` emitted for non-zero fields parse back. */
  lemma {:induction false} ScanTimePart(b: Breakdown)
    ensures var h := ScanField(TimePart(b), 'H');
            var i := ScanField(h.rest, 'M');
            var sec := ScanField(i.rest, 'S');
            h.value == b.h && i.value == b.i && sec.value == b.s && sec.rest == []
            && (h.present || i.present || sec.present) == (TimePart(b) != [])
  {
    var fh, fi, fs := Field(b.h, 'H'), Field(b.i, 'M'), Field(b.s, 'S');
    assert TimePart(b) == fh + (fi + (fs + []));
    UnledStart([], 'H');
    UnledStart([], 'M');
    UnledStart([], 'S');
    ScanThreeFields(b.h, b.i, b.s, 'H', 'M', 'S', []);
  }

  /** The date fields parse back, leaving what follows them. */
  lemma {:induction false} ScanDatePart(b: Breakdown, tail: string)
    requires tail == [] || !IsDigit(tail[0])
    ensures var y := ScanField(DatePart(b) + tail, 'Y');
            var m := ScanField(y.rest, 'M');
            var d := ScanField(m.rest, 'D');
            y.value == b.y && m.value == b.m && d.value == b.d && d.rest == tail
            && (y.present || m.present || d.present) == (DatePart(b) != [])
  {
    DatePartThen(b, tail);
    DatePartEmpty(b);
    UnledStart(tail, 'Y');
    UnledStart(tail, 'M');
    UnledStart(tail, 'D');
    ScanThreeFields(b.y, b.m, b.d, 'Y', 'M', 'D', tail);
  }

  lemma DatePartThen(b: Breakdown, tail: string)
    ensures DatePart(b) + tail == Field(b.y, 'Y') + (Field(b.m, 'M') + (Field(b.d, 'D') + tail))
  {
  }

  lemma DatePartEmpty(b: Breakdown)
    ensures DatePart(b) == [] <==> b.y == 0 && b.m == 0 && b.d == 0
  {
    var fy, fm, fd := Field(b.y, 'Y'), Field(b.m, 'M'), Field(b.d, 'D');
    assert |DatePart(b)| == |fy| + |fm| + |fd|;
  }

  /** Three serialised fields with distinct units, followed by text that does
      not start with any of them, scan back one at a time. */
  lemma ScanThreeFields(p: nat, q: nat, r: nat, u: char, v: char, w: char, tail: string)
    requires IsUnit(u) && IsUnit(v) && IsUnit(w) && u != v && u != w && v != w
    requires Unled(tail, u) && Unled(tail, v) && Unled(tail, w)
    ensures var x := ScanField(Field(p, u) + (Field(q, v) + (Field(r, w) + tail)), u);
            var y := ScanField(x.rest, v);
            var z := ScanField(y.rest, w);
            x == Scan(p, p != 0, Field(q, v) + (Field(r, w) + tail))
            && y == Scan(q, q != 0, Field(r, w) + tail)
            && z == Scan(r, r != 0, tail)
  {
    UnledField(r, w, tail, v);
    UnledField(r, w, tail, u);
    UnledField(q, v, Field(r, w) + tail, u);
    ScanFieldOf(p, u, Field(q, v) + (Field(r, w) + tail));
    ScanFieldOf(q, v, Field(r, w) + tail);
    ScanFieldOf(r, w, tail);
  }

  lemma ParseTimeFieldsOf(b: Breakdown)
    requires TimePart(b) != []
    ensures ParseTimeFields(TimePart(b)) == Some(Breakdown(0, 0, 0, b.h, b.i, b.s))
  {
    ScanTimePart(b);
  }

  lemma ParseNoneSpec()
    ensures ParseSpec(NoneSpec) == Some(Zero)
  {
    assert NoneSpec[1..] == "T0S";
    assert "T0S"[1..] == "0S";
    ScanUnled("T0S", 'Y');
    ScanUnled("T0S", 'M');
    ScanUnled("T0S", 'D');
    ScanUnled("0S", 'H');
    ScanUnled("0S", 'M');
    assert "0S" == Designated(0, 'S') + [];
    ScanDesignated(0, 'S', []);
  }

  /** Reading back the serialiser's output gives the breakdown, for every
      breakdown (zero fields are left out and read back as zero). */
  lemma ParseSpecOfSpec(b: Breakdown)
    ensures ParseSpec(Spec(b)) == Some(b)
  {
    if DatePart(b) == [] && TimePart(b) == [] {
      assert b == Zero;
      ParseNoneSpec();
    } else if TimePart(b) == [] {
      ParseDateOnlySpec(b);
    } else {
      ParseDateTimeSpec(b);
    }
  }

  lemma ParseDateOnlySpec(b: Breakdown)
    requires DatePart(b) != [] && TimePart(b) == []
    ensures ParseSpec(Spec(b)) == Some(b)
  {
    var s := Spec(b);
    assert s == "P" + (DatePart(b) + []);
    assert s[1..] == DatePart(b) + [];
    ScanDatePart(b, []);
    assert b.h == 0 && b.i == 0 && b.s == 0;
  }

  lemma ParseDateTimeSpec(b: Breakdown)
    requires TimePart(b) != []
    ensures ParseSpec(Spec(b)) == Some(b)
  {
    SpecWithTime(b);
    ParseSpecAfterP(DatePart(b) + ("T" + TimePart(b)));
    ParseFieldsDateTime(b);
  }

  /** With a time field, the string is `P`, the date part, `T` and the time part. */
  lemma SpecWithTime(b: Breakdown)
    requires TimePart(b) != []
    ensures Spec(b) == "P" + (DatePart(b) + ("T" + TimePart(b)))
  {
  }

  /** The reader hands what follows the `P` to the field reader. */
  lemma ParseSpecAfterP(x: string)
    ensures ParseSpec("P" + x) == ParseFields(x)
  {
    assert ("P" + x)[1..] == x;
  }

  lemma ParseFieldsDateTime(b: Breakdown)
    requires TimePart(b) != []
    ensures ParseFields(DatePart(b) + ("T" + TimePart(b))) == Some(b)
  {
    var tail := "T" + TimePart(b);
    ScanDatePart(b, tail);
    assert tail[1..] == TimePart(b);
    ParseTimeFieldsOf(b);
  }


  /** Only the zero breakdown serialises as `PT0S`. */
  lemma SpecIsNoneIff(b: Breakdown)
    ensures Spec(b) == NoneSpec <==> b == Zero
  {
    ParseSpecOfSpec(b);
    ParseSpecOfSpec(Zero);
  }

  /** The serialiser is injective: different breakdowns print differently. */
  lemma SpecInjective(a: Breakdown, b: Breakdown)
    requires Spec(a) == Spec(b)
    ensures a == b
  {
    ParseSpecOfSpec(a);
    ParseSpecOfSpec(b);
  }

  /** The designator `T` stands exactly where a time field follows it, or in
      the zero literal. */
  lemma SpecHasTimeDesignator(b: Breakdown)
    ensures 'T' in Spec(b) <==> TimePart(b) != [] || b == Zero
  {
    assert 'T' !in DatePart(b) by {
      var fy, fm, fd := Field(b.y, 'Y'), Field(b.m, 'M'), Field(b.d, 'D');
      assert 'T' !in fy && 'T' !in fm && 'T' !in fd;
      assert DatePart(b) == fy + fm + fd;
    }
    SpecIsNoneIff(b);
    if DatePart(b) == [] && TimePart(b) == [] {
      assert b == Zero;
    } else if TimePart(b) != [] {
      assert Spec(b)[|DatePart(b)| + 1] == 'T';
    } else {
      assert Spec(b) == "P" + DatePart(b);
    }
  }

  /** `PT<m>M<s>S` and `PT<h>H<m>M<s>S` with every field written out, zeros
      included, read as those fields. */
  lemma ParseMinutesSeconds(m: nat, s: nat)
    ensures ParseSpec("PT" + Designated(m, 'M') + Designated(s, 'S')) == Some(Breakdown(0, 0, 0, 0, m, s))
  {
    var rest := Designated(m, 'M') + Designated(s, 'S');
    var t := "PT" + rest;
    assert t == "PT" + Designated(m, 'M') + Designated(s, 'S');
    assert t[1..] == "T" + rest;
    ScanUnled("T" + rest, 'Y');
    ScanUnled("T" + rest, 'M');
    ScanUnled("T" + rest, 'D');
    assert ("T" + rest)[1..] == rest;
    ParseTimeFieldsMinutesSeconds(m, s);
  }

  lemma ParseTimeFieldsMinutesSeconds(m: nat, s: nat)
    ensures ParseTimeFields(Designated(m, 'M') + Designated(s, 'S')) == Some(Breakdown(0, 0, 0, 0, m, s))
  {
    var rest := Designated(m, 'M') + Designated(s, 'S');
    assert rest == NatToString(m) + ("M" + Designated(s, 'S'));
    DigitRunOfConcat(NatToString(m), "M" + Designated(s, 'S'));
    ScanUnled(rest, 'H');
    ParseMinutesSecondsFields(m, s);
  }

  lemma ParseMinutesSecondsFields(m: nat, s: nat)
    ensures ScanField(Designated(m, 'M') + Designated(s, 'S'), 'M') == Scan(m, true, Designated(s, 'S'))
    ensures ScanField(Designated(s, 'S'), 'S') == Scan(s, true, [])
  {
    ScanDesignated(m, 'M', Designated(s, 'S'));
    assert Designated(s, 'S') == Designated(s, 'S') + [];
    ScanDesignated(s, 'S', []);
  }

  lemma ParseHoursMinutesSeconds(h: nat, m: nat, s: nat)
    ensures ParseSpec("PT" + Designated(h, 'H') + Designated(m, 'M') + Designated(s, 'S'))
         == Some(Breakdown(0, 0, 0, h, m, s))
  {
    var rest := Designated(h, 'H') + Designated(m, 'M') + Designated(s, 'S');
    var t := "PT" + rest;
    assert t == "PT" + Designated(h, 'H') + Designated(m, 'M') + Designated(s, 'S');
    assert t[1..] == "T" + rest;
    ScanUnled("T" + rest, 'Y');
    ScanUnled("T" + rest, 'M');
    ScanUnled("T" + rest, 'D');
    assert ("T" + rest)[1..] == rest;
    ParseTimeFieldsExplicit(h, m, s);
  }

  /** A spec with every field written out, zeros included:
      `P<y>Y<m>M<d>DT<h>H<i>M<s>S`. */
  function Explicit(b: Breakdown): string {
    "P" + (Designated(b.y, 'Y') + (Designated(b.m, 'M') + (Designated(b.d, 'D')
    + ("T" + (Designated(b.h, 'H') + (Designated(b.i, 'M') + Designated(b.s, 'S')))))))
  }

  /** Such a spec reads as exactly those fields. */
  lemma ParseExplicit(b: Breakdown)
    ensures ParseSpec(Explicit(b)) == Some(b)
  {
    var time := Designated(b.h, 'H') + (Designated(b.i, 'M') + Designated(b.s, 'S'));
    assert time == Designated(b.h, 'H') + Designated(b.i, 'M') + Designated(b.s, 'S');
    var fields := Designated(b.y, 'Y') + (Designated(b.m, 'M') + (Designated(b.d, 'D') + ("T" + time)));
    assert Explicit(b)[1..] == fields;
    ParseTimeFieldsExplicit(b.h, b.i, b.s);
    ParseDateExplicit(b.y, b.m, b.d, time);
  }

  lemma ParseDateExplicit(y: nat, m: nat, d: nat, time: string)
    requires ParseTimeFields(time).Some?
    ensures var t := ParseTimeFields(time).value;
            ParseFields(Designated(y, 'Y') + (Designated(m, 'M') + (Designated(d, 'D') + ("T" + time))))
            == Some(Breakdown(y, m, d, t.h, t.i, t.s))
  {
    var afterDays := "T" + time;
    var afterMonths := Designated(d, 'D') + afterDays;
    var afterYears := Designated(m, 'M') + afterMonths;
    ScanDesignated(y, 'Y', afterYears);
    ScanDesignated(m, 'M', afterMonths);
    ScanDesignated(d, 'D', afterDays);
    assert afterDays[1..] == time;
  }

  lemma ParseTimeFieldsExplicit(h: nat, m: nat, s: nat)
    ensures ParseTimeFields(Designated(h, 'H') + Designated(m, 'M') + Designated(s, 'S'))
         == Some(Breakdown(0, 0, 0, h, m, s))
  {
    var rest := Designated(h, 'H') + Designated(m, 'M') + Designated(s, 'S');
    assert rest == Designated(h, 'H') + (Designated(m, 'M') + Designated(s, 'S'));
    ScanDesignated(h, 'H', Designated(m, 'M') + Designated(s, 'S'));
    ScanDesignated(m, 'M', Designated(s, 'S'));
    assert Designated(s, 'S') == Designated(s, 'S') + [];
    ScanDesignated(s, 'S', []);
  }
}
