/**
 * The pause state machine (togglePause, app.js:211-230): each toggle flips
 * between running and paused, and a finished pause is added to the
 * accumulated pause time.
 */
module Pause {
  import opened Wrappers
  import opened Clock
  import opened Session
  import opened Accounting

  /**
   * The state after one press of the pause button at `now`. It always flips
   * `paused`, touches nothing but the pause fields, and neither gains nor
   * loses work time at the instant it happens.
   */
  function Toggled(s: Session, now: int): (r: Session)
    ensures r.paused == !s.paused
    ensures ConfigOf(r) == ConfigOf(s)
    ensures r.milestones == s.milestones && r.lastUpdateTime == s.lastUpdateTime
    ensures WorkMs(r, now) == WorkMs(s, now) && Earnings(r, now) == Earnings(s, now)
  {
    if !s.paused then
      s.(paused := true, pauseStartTime := Some(now))
    else if Truthy(s.pauseStartTime) then
      s.(paused := false,
         totalPauseTime := s.totalPauseTime + (now - s.pauseStartTime.value),
         pauseStartTime := None)
    else
      s.(paused := false)
  }

  /**
   * Pausing records the instant; resuming folds the finished pause into the
   * total and forgets the instant, or, when no truthy instant was recorded,
   * leaves both as they were.
   */
  lemma ToggledPauseFields(s: Session, now: int)
    ensures !s.paused ==>
      Toggled(s, now).pauseStartTime == Some(now) && Toggled(s, now).totalPauseTime == s.totalPauseTime
    ensures s.paused && Truthy(s.pauseStartTime) ==>
      Toggled(s, now).pauseStartTime == None
      && Toggled(s, now).totalPauseTime == s.totalPauseTime + (now - s.pauseStartTime.value)
    ensures s.paused && !Truthy(s.pauseStartTime) ==>
      Toggled(s, now).pauseStartTime == s.pauseStartTime && Toggled(s, now).totalPauseTime == s.totalPauseTime
  {
  }

  /**
   * A pause of length `d` followed by a resume lowers the work time by
   * exactly `d` at every instant (before the clamp at zero, and after it
   * too while at least `d` of work remains).
   */
  lemma {:induction false} PauseThenResume(s: Session, t0: int, d: nat, now: int)
    requires !s.paused && s.startTime.Some?
    requires t0 != 0
    ensures var r := Toggled(Toggled(s, t0), t0 + d);
      && !r.paused && r.pauseStartTime == None
      && r.totalPauseTime == s.totalPauseTime + d
      && UnclampedWorkMs(r, now, s.startTime.value) == UnclampedWorkMs(s, now, s.startTime.value) - d
      && (UnclampedWorkMs(s, now, s.startTime.value) >= d ==> WorkMs(r, now) == WorkMs(s, now) - d)
  {
    var p := Toggled(s, t0);
    assert p.paused && p.pauseStartTime == Some(t0);
    var r := Toggled(p, t0 + d);
    assert r.totalPauseTime == s.totalPauseTime + d;
  }

  /** A toggle at a non-zero instant keeps "a pause start is recorded exactly while paused". */
  lemma ToggleKeepsConsistency(s: Session, now: int)
    requires PauseConsistent(s) && now != 0
    ensures PauseConsistent(Toggled(s, now))
  {
  }

  /** With a clock that does not run backwards, a toggle never lowers the accumulated pause time. */
  lemma ToggleNeverLowersTotal(s: Session, now: int)
    requires PauseConsistent(s)
    requires s.paused ==> s.pauseStartTime.value <= now
    ensures Toggled(s, now).totalPauseTime >= s.totalPauseTime
  {
  }
}
