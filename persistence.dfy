/**
 * The stored record: what saveSettings writes (app.js:93-108), how
 * loadSettings reads it back with its `||` defaults and folds a pause left
 * running across the reload into the pause time (app.js:58-79), the reset of
 * the per-day fields (app.js:120-129, app.js:178-187) and the settings form
 * (app.js:165-170).
 */
module Persistence {
  import opened Wrappers
  import opened Clock
  import opened Session
  import opened Accounting

  /** The record saveSettings writes on day `today`. */
  function Saved(s: Session, today: int): (rec: Record)
    ensures rec.lastSaveDate == Some(today)
  {
    Record(s.hourlyWage, s.dailyGoal, s.startTime, s.endTime, s.darkMode,
           s.totalPauseTime, s.paused, s.pauseStartTime, s.lastUpdateTime,
           Some(s.milestones), Some(today))
  }

  /**
   * Restoring a pause that was running when the page was left
   * (app.js:74-78): the time since the recorded start becomes completed
   * pause time and the pause restarts at `now`. At the reload instant this
   * gains or loses no work time.
   */
  function Reconciled(s: Session, now: int): (r: Session)
    ensures PausedMs(r, now) == PausedMs(s, now)
    ensures WorkMs(r, now) == WorkMs(s, now) && Earnings(r, now) == Earnings(s, now)
    ensures s.paused && Truthy(s.pauseStartTime) ==> r.pauseStartTime == Some(now)
    ensures ConfigOf(r) == ConfigOf(s) && r.paused == s.paused && r.milestones == s.milestones
  {
    if s.paused && Truthy(s.pauseStartTime) then
      s.(totalPauseTime := s.totalPauseTime + (now - s.pauseStartTime.value),
         pauseStartTime := Some(now))
    else s
  }

  /**
   * loadSettings with a stored record: every field taken from the record,
   * a falsy timestamp read as null, the current milestones kept only when
   * the record has none, then a running pause reconciled.
   */
  function Loaded(current: Session, rec: Record, now: int): (r: Session)
    ensures ConfigOf(r) == Config(rec.hourlyWage, rec.dailyGoal, rec.startTime, rec.endTime, rec.darkMode)
    ensures r.paused == rec.paused
    ensures r.milestones == if rec.milestones.Some? then rec.milestones.value else current.milestones
  {
    var s := Session(
      rec.hourlyWage, rec.dailyGoal, rec.startTime, rec.endTime, rec.paused,
      OrNull(rec.pauseStartTime), rec.totalPauseTime, OrNull(rec.lastUpdateTime), rec.darkMode,
      if rec.milestones.Some? then rec.milestones.value else current.milestones);
    Reconciled(s, now)
  }

  /**
   * Loading what was saved gives back the saved session, up to the `||`
   * defaults (a zero timestamp reads as null) and the reconciliation of a
   * running pause; work time and earnings at the reload instant are
   * exactly those of the saved session.
   */
  lemma {:induction false} LoadAfterSave(current: Session, s: Session, today: int, now: int)
    ensures var r := Loaded(current, Saved(s, today), now);
      && ConfigOf(r) == ConfigOf(s) && r.milestones == s.milestones && r.paused == s.paused
      && r.lastUpdateTime == OrNull(s.lastUpdateTime)
      && (s.paused && Truthy(s.pauseStartTime) ==>
            r.pauseStartTime == Some(now)
            && r.totalPauseTime == s.totalPauseTime + (now - s.pauseStartTime.value))
      && (!(s.paused && Truthy(s.pauseStartTime)) ==>
            r.pauseStartTime == OrNull(s.pauseStartTime) && r.totalPauseTime == s.totalPauseTime)
      && WorkMs(r, now) == WorkMs(s, now)
      && Earnings(r, now) == Earnings(s, now)
  {
    var n := s.(pauseStartTime := OrNull(s.pauseStartTime), lastUpdateTime := OrNull(s.lastUpdateTime));
    assert PausedMs(n, now) == PausedMs(s, now);
    assert Loaded(current, Saved(s, today), now) == Reconciled(n, now);
  }

  /** A session saved in a consistent pause state loads in one (at a non-zero instant). */
  lemma LoadKeepsConsistency(current: Session, s: Session, today: int, now: int)
    requires PauseConsistent(s) && now != 0
    ensures PauseConsistent(Loaded(current, Saved(s, today), now))
  {
  }

  /**
   * Starting a new day (app.js:120-129, and the same for the reset button
   * at app.js:178-187): no pause time, not paused, no pause start, no last
   * update, and the default milestones none of which is shown; the
   * configuration is kept.
   */
  function ResetTransient(s: Session): (r: Session)
    ensures ConfigOf(r) == ConfigOf(s)
    ensures r.totalPauseTime == 0 && !r.paused && r.pauseStartTime == None && r.lastUpdateTime == None
    ensures r.milestones == DefaultMilestones()
    ensures PauseConsistent(r)
    ensures forall i :: 0 <= i < |r.milestones| ==> !r.milestones[i].shown
  {
    s.(totalPauseTime := 0, paused := false, pauseStartTime := None, lastUpdateTime := None,
       milestones := DefaultMilestones())
  }

  /** After a reset only the wall-clock time since the shift start counts as work. */
  lemma ResetCountsWholeShift(s: Session, now: int)
    requires s.startTime.Some?
    ensures WorkMs(ResetTransient(s), now) == now - StartAnchor(now, s.startTime.value)
  {
  }

  /** `parseFloat(text) || 0`: a number that did not parse (None, i.e. NaN) becomes 0. */
  function OrZero(parsed: Option<real>): (r: real)
    ensures parsed.Some? ==> r == parsed.value
    ensures parsed.None? ==> r == 0.0
  {
    if parsed.Some? then parsed.value else 0.0
  }

  /**
   * The save button of the settings form (app.js:166-169): the wage and the
   * goal as parsed or 0, the times as entered (an empty field is None).
   * Nothing about the running day changes.
   */
  function AppliedSettings(s: Session, wage: Option<real>, goal: Option<real>,
                           startTime: Option<MinuteOfDay>, endTime: Option<MinuteOfDay>): (r: Session)
    ensures ConfigOf(r) == Config(OrZero(wage), OrZero(goal), startTime, endTime, s.darkMode)
    ensures r.paused == s.paused && r.pauseStartTime == s.pauseStartTime
    ensures r.totalPauseTime == s.totalPauseTime && r.milestones == s.milestones
    ensures r.lastUpdateTime == s.lastUpdateTime
  {
    s.(hourlyWage := OrZero(wage), dailyGoal := OrZero(goal), startTime := startTime, endTime := endTime)
  }
}
