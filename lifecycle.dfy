/**
 * The page as a whole: the tracker's state together with the stored
 * record, and what each event does to both — loading, the day check, a
 * frame of the display loop, the buttons, and start-up (init, app.js:47-55).
 */
module Lifecycle {
  import opened Wrappers
  import opened Clock
  import opened Session
  import opened Accounting
  import opened Pause
  import opened Milestones
  import opened Persistence
  import opened Format

  /** The in-memory state and the browser's stored record (None: nothing stored yet). */
  datatype Page = Page(state: Session, stored: Option<Record>)

  /** What one frame of updateDisplay shows. */
  datatype Frame = Frame(
    earnings: real,
    workTime: string,
    timeRemaining: string,
    progress: real,
    fired: seq<string>)

  /** The state, and the record saveSettings writes of it on the day of `now`. */
  function Saving(s: Session, now: int): (p: Page)
    ensures p.stored.Some? && p.stored.value.lastSaveDate == Some(DayOf(now))
  {
    Page(s, Some(Saved(s, DayOf(now))))
  }

  /** loadSettings (app.js:58-79): nothing happens when nothing is stored. */
  function LoadStep(p: Page, now: int): (r: Page)
    ensures r.stored == p.stored
    ensures p.stored.None? ==> r == p
    ensures p.stored.Some? ==> r.state == Loaded(p.state, p.stored.value, now)
  {
    match p.stored
    case None => p
    case Some(rec) => Page(Loaded(p.state, rec, now), p.stored)
  }

  /** Whether the stored record was written on another day than `now`'s (or carries no date). */
  predicate IsStale(p: Page, now: int) {
    p.stored.Some? && p.stored.value.lastSaveDate != Some(DayOf(now))
  }

  /** The reset button once confirmed (app.js:178-188). */
  function ResetDayStep(p: Page, now: int): (r: Page)
    ensures ConfigOf(r.state) == ConfigOf(p.state)
    ensures r.state.totalPauseTime == 0 && !r.state.paused && r.state.pauseStartTime == None
    ensures r.state == ResetTransient(p.state)
    ensures r.state.lastUpdateTime == None && r.state.milestones == DefaultMilestones()
    ensures r.stored == Some(Saved(r.state, DayOf(now)))
  {
    Saving(ResetTransient(p.state), now)
  }

  /**
   * checkNewDay (app.js:111-133): a record from another day resets the
   * per-day fields and is rewritten; afterwards the stored record, if any,
   * is dated today. The configuration never changes.
   */
  function CheckNewDayStep(p: Page, now: int): (r: Page)
    ensures !IsStale(p, now) ==> r == p
    ensures IsStale(p, now) ==> r.state == ResetTransient(p.state)
    ensures r.stored.None? || r.stored.value.lastSaveDate == Some(DayOf(now))
    ensures ConfigOf(r.state) == ConfigOf(p.state)
  {
    if IsStale(p, now) then ResetDayStep(p, now) else p
  }

  /** The manual reset does to the state exactly what the day rollover does. */
  lemma ResetDayMatchesRollover(p: Page, now: int)
    requires IsStale(p, now)
    ensures CheckNewDayStep(p, now) == ResetDayStep(p, now)
  {
  }

  /** The pause button (app.js:211-230): one toggle, then a save. */
  function TogglePauseStep(p: Page, now: int): (r: Page)
    ensures r.state == Toggled(p.state, now)
    ensures !p.state.paused ==> r.state.pauseStartTime == Some(now)
    ensures p.state.paused && Truthy(p.state.pauseStartTime) ==>
      r.state.pauseStartTime == None
      && r.state.totalPauseTime == p.state.totalPauseTime + (now - p.state.pauseStartTime.value)
    ensures r.state.paused == !p.state.paused
    ensures ConfigOf(r.state) == ConfigOf(p.state) && r.state.milestones == p.state.milestones
    ensures Earnings(r.state, now) == Earnings(p.state, now)
    ensures r.stored == Some(Saved(r.state, DayOf(now)))
  {
    Saving(Toggled(p.state, now), now)
  }

  /** The save button of the settings form (app.js:165-173). */
  function SettingsStep(p: Page, wage: Option<real>, goal: Option<real>,
                        startTime: Option<MinuteOfDay>, endTime: Option<MinuteOfDay>, now: int): (r: Page)
    ensures ConfigOf(r.state) == Config(OrZero(wage), OrZero(goal), startTime, endTime, p.state.darkMode)
    ensures r.state == AppliedSettings(p.state, wage, goal, startTime, endTime)
    ensures r.state.paused == p.state.paused && r.state.totalPauseTime == p.state.totalPauseTime
    ensures r.state.pauseStartTime == p.state.pauseStartTime && r.state.lastUpdateTime == p.state.lastUpdateTime
    ensures r.state.milestones == p.state.milestones
    ensures r.stored == Some(Saved(r.state, DayOf(now)))
  {
    Saving(AppliedSettings(p.state, wage, goal, startTime, endTime), now)
  }

  /**
   * The state change of one frame of updateDisplay (app.js:320, app.js:389):
   * the milestones are checked against the current earnings, and the page
   * is saved when one fired.
   */
  function TickStep(p: Page, now: int): (r: Page)
    ensures r.state == p.state.(milestones := Fire(p.state.milestones, Earnings(p.state, now)))
    ensures Earnings(r.state, now) == Earnings(p.state, now)
    ensures FiredMessages(p.state.milestones, Earnings(p.state, now)) == [] ==> r == p
    ensures FiredMessages(p.state.milestones, Earnings(p.state, now)) != [] ==>
      r.stored == Some(Saved(r.state, DayOf(now)))
  {
    var e := Earnings(p.state, now);
    var s := p.state.(milestones := Fire(p.state.milestones, e));
    NothingFiredMeansNothingChanged(p.state.milestones, e);
    if FiredMessages(p.state.milestones, e) == [] then p else Saving(s, now)
  }

  /**
   * A later frame whose earnings are no higher changes nothing: every
   * milestone is announced and saved at most once.
   */
  lemma TickAgainChangesNothing(p: Page, now1: int, now2: int)
    requires Earnings(p.state, now2) <= Earnings(p.state, now1)
    ensures TickStep(TickStep(p, now1), now2) == TickStep(p, now1)
  {
    var e1, e2 := Earnings(p.state, now1), Earnings(p.state, now2);
    var t := TickStep(p, now1);
    EarningsIgnoreMilestones(p.state, Fire(p.state.milestones, e1), now2);
    assert Earnings(t.state, now2) == e2;
    FiresAtMostOnce(p.state.milestones, e1, e2);
    assert FiredMessages(t.state.milestones, e2) == [];
  }

  /** The milestones play no part in what has been earned. */
  lemma EarningsIgnoreMilestones(s: Session, ms: seq<Milestone>, now: int)
    ensures Earnings(s.(milestones := ms), now) == Earnings(s, now)
  {
    assert WorkMs(s.(milestones := ms), now) == WorkMs(s, now);
  }

  /** The work-time line: HH:MM:SS, or 0:00:00 (one digit of hours) without a start time. */
  function WorkTimeText(s: Session, now: int): string {
    WorkLine(s.startTime.Some?, WorkMs(s, now))
  }

  function WorkLine(started: bool, ms: nat): string {
    if started then FormatTime(Seconds(ms)) else "0:00:00"
  }

  /**
   * The work-time line shows the whole seconds worked as hours, minutes and
   * seconds, or 0:00:00 without a start time.
   */
  lemma WorkTimeTextShowsWork(s: Session, now: int)
    ensures s.startTime.None? ==> WorkTimeText(s, now) == "0:00:00"
    ensures s.startTime.Some? ==> ShowsMillis(WorkTimeText(s, now), WorkMs(s, now))
  {
    WorkLineShows(s.startTime.Some?, WorkMs(s, now));
  }

  lemma WorkLineShows(started: bool, ms: nat)
    ensures started ==> ShowsMillis(WorkLine(started, ms), ms)
  {
    if started {
      FormatMillis(ms);
    }
  }

  /** The time-left line. */
  function RemainingText(c: Countdown): string {
    match c
    case Unset => "--:--:--"
    case OffDuty => "已下班"
    case Left(ms) => FormatTime(Seconds(ms))
  }

  /**
   * The time-left line: dashes without an end time, the off-duty notice at
   * the end time, and otherwise the whole seconds left as hours, minutes and
   * seconds.
   */
  lemma RemainingTextShowsCountdown(s: Session, now: int)
    ensures s.endTime.None? ==> RemainingText(Remaining(s, now)) == "--:--:--"
    ensures s.endTime.Some? && TimeOfDay(now) == s.endTime.value * MINUTE ==>
      RemainingText(Remaining(s, now)) == "已下班"
    ensures Remaining(s, now).Left? ==>
      0 < Remaining(s, now).ms < DAY && ShowsMillis(RemainingText(Remaining(s, now)), Remaining(s, now).ms)
  {
    var c := Remaining(s, now);
    if c.Left? {
      FormatMillis(c.ms);
    }
  }

  /**
   * The values one frame shows for the state `s` at `now` (app.js:319-389):
   * the earnings, the work time and the time left as texts, the goal
   * progress, which stays within 0..100, and the milestones announced.
   */
  function View(s: Session, now: int): (f: Frame)
    ensures f.earnings == Earnings(s, now) && 0.0 <= f.progress <= 100.0
    ensures f.fired == FiredMessages(s.milestones, f.earnings)
    ensures f.progress == Progress(f.earnings, s.dailyGoal)
    ensures f.workTime == WorkTimeText(s, now) && f.timeRemaining == RemainingText(Remaining(s, now))
  {
    var e := Earnings(s, now);
    Frame(e, WorkTimeText(s, now), RemainingText(Remaining(s, now)), Progress(e, s.dailyGoal), FiredMessages(s.milestones, e))
  }

  /**
   * Start-up as written (app.js:47-55): load, run the first frame of the
   * display loop (requestAnimationFrame's first call is immediate), and
   * only then check for a new day.
   */
  function InitAsWritten(p: Page, now: int): (r: Page)
    ensures r.stored.None? || r.stored.value.lastSaveDate == Some(DayOf(now))
  {
    CheckNewDayStep(TickStep(LoadStep(p, now), now), now)
  }

  /** Start-up with the day check before the first frame. */
  function Init(p: Page, now: int): (r: Page)
    ensures r.stored.None? || r.stored.value.lastSaveDate == Some(DayOf(now))
  {
    TickStep(CheckNewDayStep(LoadStep(p, now), now), now)
  }

  /**
   * On a new day start-up keeps the configuration that was stored and starts
   * the day afresh: no pause time, not paused, and only the milestones the
   * current earnings reach are shown.
   */
  lemma {:induction false} InitStartsNewDay(p: Page, now: int)
    requires IsStale(p, now)
    ensures var r := Init(p, now);
      var rec := p.stored.value;
      && ConfigOf(r.state) == Config(rec.hourlyWage, rec.dailyGoal, rec.startTime, rec.endTime, rec.darkMode)
      && r.state.totalPauseTime == 0 && !r.state.paused && r.state.pauseStartTime == None
      && r.state.milestones == Fire(DefaultMilestones(), Earnings(r.state, now))
  {
    var l := LoadStep(p, now);
    assert IsStale(l, now);
    var c := CheckNewDayStep(l, now);
    assert c.state == ResetTransient(l.state);
  }

  /** Whenever the stored record is from today, or there is none, both orders agree. */
  lemma InitAgreesOnSameDay(p: Page, now: int)
    requires !IsStale(p, now)
    ensures Init(p, now) == InitAsWritten(p, now)
  {
    var l := LoadStep(p, now);
    assert !IsStale(l, now);
    assert !IsStale(TickStep(l, now), now);
  }

  /**
   * As written, a milestone that fires on the first frame of a new day saves
   * the page with today's date before the day check, which then finds
   * nothing to reset: yesterday's pause time survives. Example: a wage of 60
   * from 09:00, 1 s of pause time stored yesterday, page opened at 12:00.
   */
  lemma {:induction false} InitAsWrittenSkipsRollover(day: int)
    ensures
      var rec := Record(60.0, 0.0, Some(9 * 60), None, false, 1000, false, None, None,
                        Some(DefaultMilestones()), Some(day - 1));
      var p := Page(DefaultSession(), Some(rec));
      var now := day * DAY + 12 * HOUR;
      && IsStale(p, now)
      && InitAsWritten(p, now).state.totalPauseTime == 1000
      && Init(p, now).state.totalPauseTime == 0
  {
    var rec := Record(60.0, 0.0, Some(9 * 60), None, false, 1000, false, None, None,
                      Some(DefaultMilestones()), Some(day - 1));
    var p := Page(DefaultSession(), Some(rec));
    var now := day * DAY + 12 * HOUR;
    assert DayOf(now) == day by { DivModUnique(now, day, 12 * HOUR); }
    var l := LoadStep(p, now);
    assert l.state.totalPauseTime == 1000 && l.state.startTime == Some(9 * 60);
    AnchorsUnique(now, 9 * 60, day * DAY + 9 * HOUR) by {
      TimeOfDayShift(9 * HOUR, day);
    }
    assert WorkMs(l.state, now) == 3 * HOUR - 1000;
    var e := Earnings(l.state, now);
    assert e >= 50.0;
    var ms := l.state.milestones;
    assert ms == DefaultMilestones();
    assert Fire(ms, e)[0].shown && !ms[0].shown;
    NothingFiredMeansNothingChanged(ms, e);
    var t := TickStep(l, now);
    assert t.stored == Some(Saved(t.state, day));
    assert !IsStale(t, now);
  }
}
