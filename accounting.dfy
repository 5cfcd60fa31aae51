/**
 * Work-time accounting: how long the user has worked today, what that has
 * earned, how long is left until the end of the shift and how far the
 * daily goal is reached (calculateEarnings and the blocks of updateDisplay).
 */
module Accounting {
  import opened Wrappers
  import opened Clock
  import opened Session
  import opened Arith

  const MS_PER_HOUR: real := 3600000.0

  function Max0(x: int): (r: nat)
    ensures r >= x
    ensures x >= 0 ==> r == x
  {
    if x > 0 then x else 0
  }

  /** The length of a pause still running at `now` (app.js:288-291). */
  function CurrentPauseMs(s: Session, now: int): int {
    if s.paused && Truthy(s.pauseStartTime) then now - s.pauseStartTime.value else 0
  }

  /** Everything subtracted from the wall-clock time since the shift start. */
  function PausedMs(s: Session, now: int): int {
    s.totalPauseTime + CurrentPauseMs(s, now)
  }

  /** Work time before the clamp at 0; the quantity a pause lowers. */
  function UnclampedWorkMs(s: Session, now: int, m: MinuteOfDay): int {
    now - StartAnchor(now, m) - PausedMs(s, now)
  }

  /**
   * Milliseconds worked so far (app.js:277-295, repeated at app.js:337-348):
   * the time since the start anchor minus every pause, never negative. It
   * is less than a day whenever the recorded pauses are not negative.
   */
  function WorkMs(s: Session, now: int): (r: nat)
    ensures s.startTime.None? ==> r == 0
    ensures s.startTime.Some? ==> r >= UnclampedWorkMs(s, now, s.startTime.value)
    ensures s.startTime.Some? ==> r == 0 || r == UnclampedWorkMs(s, now, s.startTime.value)
    ensures s.startTime.Some? && PausedMs(s, now) >= 0 ==> r < DAY
  {
    match s.startTime
    case None => 0
    case Some(m) => Max0(UnclampedWorkMs(s, now, m))
  }

  /**
   * Money earned so far (app.js:270-302): nothing without a start time or a
   * positive wage, otherwise the hours worked times the hourly wage. It is
   * never negative and, while pauses are not negative, never a full day's pay.
   */
  function Earnings(s: Session, now: int): (e: real)
    ensures e >= 0.0
    ensures s.startTime.None? || s.hourlyWage <= 0.0 ==> e == 0.0
  {
    if s.startTime.None? || s.hourlyWage <= 0.0 then 0.0
    else Pay(WorkMs(s, now), s.hourlyWage)
  }

  /** Pay for `workMs` milliseconds at an hourly wage (app.js:298-299). */
  function Pay(workMs: nat, wage: real): (e: real)
    requires wage > 0.0
    ensures e >= 0.0
    ensures e * MS_PER_HOUR == workMs as real * wage
  {
    workMs as real / MS_PER_HOUR * wage
  }

  /**
   * Earnings accrue at the hourly wage per hour of work, and a day of work
   * never earns a full day's pay while the recorded pauses are not negative.
   */
  lemma {:induction false} EarningsAtHourlyRate(s: Session, now: int)
    requires s.startTime.Some? && s.hourlyWage > 0.0
    ensures Earnings(s, now) * MS_PER_HOUR == WorkMs(s, now) as real * s.hourlyWage
    ensures PausedMs(s, now) >= 0 ==> Earnings(s, now) < 24.0 * s.hourlyWage
  {
    var hours := WorkMs(s, now) as real / MS_PER_HOUR;
    assert Earnings(s, now) == Pay(WorkMs(s, now), s.hourlyWage) == hours * s.hourlyWage;
    if PausedMs(s, now) >= 0 {
      assert hours < 24.0;
      MulStrict(hours, 24.0, s.hourlyWage);
      assert Earnings(s, now) < 24.0 * s.hourlyWage;
    }
  }

  /** Within one shift, i.e. before the start time comes round again, the work time never goes down. */
  lemma {:induction false} WorkMonotoneWithinShift(s: Session, now1: int, now2: int)
    requires s.startTime.Some?
    requires now1 <= now2 < StartAnchor(now1, s.startTime.value) + DAY
    ensures WorkMs(s, now1) <= WorkMs(s, now2)
  {
    var m := s.startTime.value;
    AnchorsUnique(now2, m, StartAnchor(now1, m));
    assert StartAnchor(now2, m) == StartAnchor(now1, m);
    assert UnclampedWorkMs(s, now1, m) <= UnclampedWorkMs(s, now2, m);
  }

  /** Within one shift, earnings never go down. */
  lemma {:induction false} EarningsMonotoneWithinShift(s: Session, now1: int, now2: int)
    requires s.startTime.Some?
    requires now1 <= now2 < StartAnchor(now1, s.startTime.value) + DAY
    ensures Earnings(s, now1) <= Earnings(s, now2)
  {
    WorkMonotoneWithinShift(s, now1, now2);
    if s.hourlyWage > 0.0 {
      PayMonotone(WorkMs(s, now1), WorkMs(s, now2), s.hourlyWage);
    }
  }

  lemma PayMonotone(w1: nat, w2: nat, wage: real)
    requires w1 <= w2 && wage > 0.0
    ensures Pay(w1, wage) <= Pay(w2, wage)
  {
    var h1, h2 := w1 as real / MS_PER_HOUR, w2 as real / MS_PER_HOUR;
    assert Pay(w1, wage) == h1 * wage && Pay(w2, wage) == h2 * wage;
    MulMonotone(h1, h2, wage);
  }

  /** While a pause is running, the work time stands still. */
  lemma {:induction false} WorkFrozenWhilePaused(s: Session, now1: int, now2: int)
    requires s.startTime.Some? && s.paused && Truthy(s.pauseStartTime)
    requires now1 <= now2 < StartAnchor(now1, s.startTime.value) + DAY
    ensures WorkMs(s, now1) == WorkMs(s, now2)
    ensures Earnings(s, now1) == Earnings(s, now2)
  {
    AnchorsUnique(now2, s.startTime.value, StartAnchor(now1, s.startTime.value));
  }

  /**
   * The worked examples: a wage of 60 from 09:00 to 12:00 earns 180, a
   * completed half-hour pause brings it to 150, and a shift from 22:00
   * seen at 02:00 the next day has lasted four hours. They hold on every day.
   */
  lemma {:induction false} EarningsExamples(day: int)
    ensures
      var s := Session(60.0, 0.0, Some(9 * 60), None, false, None, 0, None, false, []);
      Earnings(s, day * DAY + 12 * HOUR) == 180.0
    ensures
      var s := Session(60.0, 0.0, Some(9 * 60), None, false, None, 1800000, None, false, []);
      Earnings(s, day * DAY + 12 * HOUR) == 150.0
    ensures
      var s := Session(60.0, 0.0, Some(22 * 60), None, false, None, 0, None, false, []);
      WorkMs(s, day * DAY + 2 * HOUR) == 4 * HOUR && Earnings(s, day * DAY + 2 * HOUR) == 240.0
  {
    AnchorsUnique(day * DAY + 12 * HOUR, 9 * 60, day * DAY + 9 * HOUR) by {
      TimeOfDayShift(9 * HOUR, day);
    }
    AnchorsUnique(day * DAY + 2 * HOUR, 22 * 60, day * DAY - 2 * HOUR) by {
      TimeOfDayShift(22 * HOUR, day - 1);
    }
  }

  /**
   * Because the start anchor follows the clock round, earnings fall back to
   * nothing when the start time comes round the next day: one minute before
   * 09:00 a 09:00 shift has earned almost a full day's pay, at 09:00 nothing.
   */
  lemma {:induction false} EarningsRestartAtNextStart(day: int)
    ensures
      var s := Session(60.0, 0.0, Some(9 * 60), None, false, None, 0, None, false, []);
      Earnings(s, day * DAY + 9 * HOUR - MINUTE) == 1439.0 && Earnings(s, day * DAY + 9 * HOUR) == 0.0
  {
    AnchorsUnique(day * DAY + 9 * HOUR - MINUTE, 9 * 60, day * DAY - 15 * HOUR) by {
      TimeOfDayShift(9 * HOUR, day - 1);
    }
    AnchorsUnique(day * DAY + 9 * HOUR, 9 * 60, day * DAY + 9 * HOUR) by {
      TimeOfDayShift(9 * HOUR, day);
    }
  }

  /** What the "time remaining" line shows: no end time, off duty, or a countdown. */
  datatype Countdown = Unset | OffDuty | Left(ms: int)

  /**
   * Time left until the end of the shift (app.js:357-376). The end anchor is
   * rolled forward to tomorrow once it has passed, so the countdown is always
   * less than a day and "off duty" is shown only at the very instant the end
   * time is reached.
   */
  function Remaining(s: Session, now: int): (r: Countdown)
    ensures r == Unset <==> s.endTime.None?
    ensures r.Left? ==> 0 < r.ms < DAY && TimeOfDay(now + r.ms) == s.endTime.value * MINUTE
    ensures r == OffDuty <==> s.endTime.Some? && TimeOfDay(now) == s.endTime.value * MINUTE
  {
    match s.endTime
    case None => Unset
    case Some(m) =>
      EndAnchorReachedNow(now, m);
      var remaining := EndAnchor(now, m) - now;
      if remaining > 0 then Left(remaining) else OffDuty
  }

  /** The end anchor is `now` itself exactly when the clock reads the end time. */
  lemma EndAnchorReachedNow(now: int, m: MinuteOfDay)
    ensures EndAnchor(now, m) == now <==> TimeOfDay(now) == m * MINUTE
  {
    if TimeOfDay(now) == m * MINUTE {
      AnchorsUnique(now, m, now);
    }
  }

  function Min100(x: real): real {
    if x < 100.0 then x else 100.0
  }

  /**
   * Percentage of the daily goal reached (app.js:379-386): 0 without a
   * positive goal, otherwise earnings as a percentage of the goal, capped
   * at 100, which it reaches exactly when the earnings reach the goal.
   */
  function Progress(earnings: real, dailyGoal: real): (p: real)
    ensures dailyGoal <= 0.0 ==> p == 0.0
    ensures earnings >= 0.0 ==> 0.0 <= p <= 100.0
    ensures dailyGoal > 0.0 ==> (p == 100.0 <==> earnings >= dailyGoal)
    ensures dailyGoal > 0.0 && earnings < dailyGoal ==> p * dailyGoal == earnings * 100.0
  {
    if dailyGoal > 0.0 then
      var ratio := earnings / dailyGoal * 100.0;
      RatioFacts(earnings, dailyGoal);
      Min100(ratio)
    else 0.0
  }

  lemma RatioFacts(earnings: real, goal: real)
    requires goal > 0.0
    ensures earnings >= 0.0 ==> earnings / goal * 100.0 >= 0.0
    ensures earnings / goal * 100.0 >= 100.0 <==> earnings >= goal
  {
    var q := earnings / goal;
    assert q * goal == earnings;
    if earnings >= goal {
      assert q >= 1.0;
    }
    if q >= 1.0 {
      MulMonotone(1.0, q, goal);
    }
  }

  /** More earnings never show less progress. */
  lemma ProgressMonotone(e1: real, e2: real, dailyGoal: real)
    requires e1 <= e2
    ensures Progress(e1, dailyGoal) <= Progress(e2, dailyGoal)
  {
    if dailyGoal > 0.0 {
      var q1, q2 := e1 / dailyGoal, e2 / dailyGoal;
      assert q1 * dailyGoal == e1 && q2 * dailyGoal == e2;
      assert q1 <= q2;
    }
  }
}
