/**
 * Instants and times of day.
 *
 * An instant is a whole number of milliseconds of local wall-clock time, so
 * that the calendar day of an instant is `now / DAY` (floor division, which is
 * what Dafny's `/` does for a positive divisor). A time of day such as "09:00"
 * is kept as the number of minutes past midnight. Anchoring a time of day to
 * "today" (the page builds a `Date` from `toDateString()` and "HH:MM") is
 * `Midnight(now) + m * MINUTE`.
 */
module Clock {

  const SECOND: int := 1000
  const MINUTE: int := 60 * SECOND
  const HOUR: int := 60 * MINUTE
  const DAY: int := 24 * HOUR

  /** A valid "HH:MM" value, as minutes past midnight. */
  type MinuteOfDay = m: int | 0 <= m < 24 * 60

  /** The calendar day an instant falls on (what `toDateString()` distinguishes). */
  function DayOf(now: int): int {
    now / DAY
  }

  /** The first instant of the day `now` falls on. */
  function Midnight(now: int): (r: int)
    ensures r <= now < r + DAY
    ensures r % DAY == 0
  {
    DayOf(now) * DAY
  }

  /** `new Date(today + " " + hhmm)`: the time of day `m` on the day of `now`. */
  function TodayAt(now: int, m: MinuteOfDay): (r: int)
    ensures Midnight(now) <= r < Midnight(now) + DAY
  {
    Midnight(now) + m * MINUTE
  }

  /** Reading an instant as a clock time: the milliseconds since its midnight. */
  function TimeOfDay(t: int): (r: int)
    ensures 0 <= r < DAY
  {
    t % DAY
  }

  lemma {:induction false} TimeOfDayShift(t: int, k: int)
    ensures TimeOfDay(t + k * DAY) == TimeOfDay(t)
  {
    var q := t / DAY;
    var r := t % DAY;
    assert t + k * DAY == (q + k) * DAY + r;
    DivModUnique(t + k * DAY, q + k, r);
  }

  /** Floor division and remainder are determined by the quotient and remainder that satisfy their defining equation. */
  lemma DivModUnique(n: int, q: int, r: int)
    requires 0 <= r < DAY
    requires n == q * DAY + r
    ensures n / DAY == q && n % DAY == r
  {
  }

  /**
   * The start-of-shift anchor (app.js:277-282): today's instant for `m`,
   * moved back one day when it lies after `now`. The result is the last
   * instant at or before `now` whose clock reading is `m`.
   */
  function StartAnchor(now: int, m: MinuteOfDay): (r: int)
    ensures now - DAY < r <= now
    ensures TimeOfDay(r) == m * MINUTE
  {
    var t := TodayAt(now, m);
    TimeOfDayShift(Midnight(now) + m * MINUTE, 0);
    DivModUnique(t, DayOf(now), m * MINUTE);
    if t > now then
      TimeOfDayShift(t, -1);
      t - DAY
    else
      t
  }

  /**
   * The end-of-shift anchor (app.js:360-365): today's instant for `m`, moved
   * forward one day when it lies before `now`. The result is the first
   * instant at or after `now` whose clock reading is `m`.
   */
  function EndAnchor(now: int, m: MinuteOfDay): (r: int)
    ensures now <= r < now + DAY
    ensures TimeOfDay(r) == m * MINUTE
  {
    var t := TodayAt(now, m);
    DivModUnique(t, DayOf(now), m * MINUTE);
    if t < now then
      TimeOfDayShift(t, 1);
      t + DAY
    else
      t
  }

  /** Within one day's span there is only one instant with a given clock reading. */
  lemma {:induction false} ClockReadingUnique(a: int, b: int)
    requires a <= b < a + DAY
    requires TimeOfDay(a) == TimeOfDay(b)
    ensures a == b
  {
    var qa, qb := a / DAY, b / DAY;
    assert a == qa * DAY + TimeOfDay(a);
    assert b == qb * DAY + TimeOfDay(b);
    assert (qb - qa) * DAY == b - a;
  }

  /**
   * The two anchors are characterised independently of how they are computed:
   * any instant in the day before `now` with clock reading `m` is the start
   * anchor, and any instant in the day from `now` on is the end anchor.
   */
  lemma {:induction false} AnchorsUnique(now: int, m: MinuteOfDay, t: int)
    requires TimeOfDay(t) == m * MINUTE
    ensures now - DAY < t <= now ==> t == StartAnchor(now, m)
    ensures now <= t < now + DAY ==> t == EndAnchor(now, m)
  {
    var s := StartAnchor(now, m);
    var e := EndAnchor(now, m);
    if now - DAY < t <= now {
      if s <= t { ClockReadingUnique(s, t); } else { ClockReadingUnique(t, s); }
    }
    if now <= t < now + DAY {
      if e <= t { ClockReadingUnique(e, t); } else { ClockReadingUnique(t, e); }
    }
  }
}
