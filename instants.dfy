/** Points in time and the calendar primitive's day/time arithmetic on them.
    An instant is a UTC Unix timestamp in whole seconds, which is what
    `new DateTimeImmutable('@'.time())` builds. On UTC instants a day is always
    86400 seconds, so adding a breakdown without years and months moves the
    timestamp by that breakdown's length. */
module Instants {
  import opened Breakdowns

  type Instant = int

  /** `$t->add($b)` */
  function Add(t: Instant, b: Breakdown): Instant
    requires IsDayTime(b)
  {
    t + DayTimeSeconds(b)
  }

  /** `$t->sub($b)` */
  function Sub(t: Instant, b: Breakdown): Instant
    requires IsDayTime(b)
  {
    t - DayTimeSeconds(b)
  }

  /** `$t->diff($u, true)`, and `$t->diff($u)` when `$u` is not earlier than
      `$t`: the distance between the instants as days, hours, minutes and
      seconds. */
  function AbsDiff(t: Instant, u: Instant): Breakdown {
    FromSeconds(if t <= u then u - t else t - u)
  }

  /** `$t <=> $u` */
  function Compare(t: Instant, u: Instant): int {
    if t < u then -1 else if t == u then 0 else 1
  }
}
