/** Types shared by every service: identifiers and DateTime values. */
module Base {

  /** System.Guid; only equality of identifiers matters to the model. */
  type Guid = nat

  /** DateTime as a count of 100-nanosecond ticks since 0001-01-01T00:00:00. */
  type Ticks = int

  const TicksPerSecond: int := 10_000_000
  const TicksPerMinute: int := 60 * TicksPerSecond
  const TicksPerHour: int := 60 * TicksPerMinute
  const TicksPerDay: int := 24 * TicksPerHour

  /** DateTime.MaxValue.Ticks: the last tick of 9999-12-31. */
  const MaxTicks: int := 3155378975999999999

  /** DateTime.Date: midnight of the same day. */
  function DatePart(t: Ticks): (d: Ticks)
    ensures d <= t < d + TicksPerDay
    ensures d % TicksPerDay == 0
  {
    t - t % TicksPerDay
  }

  /** `d.AddDays(1).AddTicks(-1)` for a midnight `d`: the last tick of that day. */
  function EndOfDay(midnight: Ticks): Ticks {
    midnight + TicksPerDay - 1
  }

  /** `AddDays(1)` on the midnight of t's day leaves DateTime's range (and
      throws): t lies on 9999-12-31, or later. */
  predicate LastDay(t: Ticks) {
    DatePart(t) + TicksPerDay > MaxTicks
  }

  /** A tick lies in [DatePart(d), EndOfDay(DatePart(d))] exactly when it is on the same day as d. */
  lemma SameDay(t: Ticks, d: Ticks)
    ensures DatePart(d) <= t <= EndOfDay(DatePart(d)) <==> DatePart(t) == DatePart(d)
  {
    var m := DatePart(d);
    if m <= t <= EndOfDay(m) {
      assert t - m < TicksPerDay;
      assert (t - m) % TicksPerDay == t - m;
      assert m % TicksPerDay == 0;
      assert t % TicksPerDay == t - m by {
        assert t == m + (t - m);
        assert m == (m / TicksPerDay) * TicksPerDay;
      }
    }
  }

  /** A midnight is its own day, and so is the last tick of that day. */
  lemma WholeDay(m: Ticks)
    requires m % TicksPerDay == 0
    ensures DatePart(m) == m && DatePart(EndOfDay(m)) == m
  {
    assert DatePart(m) == m;
    SameDay(EndOfDay(m), m);
  }

  /** Being at or after a midnight is decided by the day alone. */
  lemma DatePartFrom(t: Ticks, midnight: Ticks)
    requires midnight % TicksPerDay == 0
    ensures t >= midnight <==> DatePart(t) >= midnight
  {
    var d := DatePart(t);
    if d < midnight {
      var k1, k2 := d / TicksPerDay, midnight / TicksPerDay;
      assert d == k1 * TicksPerDay;
      assert midnight == k2 * TicksPerDay;
      assert k1 < k2;
      assert (k1 + 1) * TicksPerDay <= k2 * TicksPerDay;
    }
  }
}
