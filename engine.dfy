/**
 * The page's global `state` object and its event handlers, updating the
 * state in place (app.js:2-18, app.js:47-230, app.js:319-407). Each
 * handler is specified by the step function of module Lifecycle that it
 * carries out on the in-memory state and the stored record.
 */
module Engine {
  import opened Wrappers
  import opened Clock
  import opened Session
  import opened Accounting
  import opened Milestones
  import opened Persistence
  import opened Lifecycle

  /** A fresh array holding `s`. */
  method NewArray(s: seq<Milestone>) returns (a: array<Milestone>)
    ensures fresh(a) && a[..] == s
  {
    a := new Milestone[|s|](_ => Milestone(0.0, "", false));
    for i := 0 to |s|
      invariant forall k :: 0 <= k < i ==> a[k] == s[k]
    {
      a[i] := s[i];
    }
  }

  class Tracker {
    var hourlyWage: real
    var dailyGoal: real
    var startTime: Option<MinuteOfDay>
    var endTime: Option<MinuteOfDay>
    var paused: bool
    var pauseStartTime: Option<int>
    var totalPauseTime: int
    var lastUpdateTime: Option<int>
    var darkMode: bool
    var milestones: array<Milestone>
    /** The browser's stored record under the tracker's key. */
    var stored: Option<Record>

    function State(): Session
      reads this, milestones
    {
      Session(hourlyWage, dailyGoal, startTime, endTime, paused, pauseStartTime,
              totalPauseTime, lastUpdateTime, darkMode, milestones[..])
    }

    function Page(): Lifecycle.Page
      reads this, milestones
    {
      Lifecycle.Page(State(), stored)
    }

    /** The initial state (app.js:2-18), with whatever the browser has stored. */
    constructor (stored: Option<Record>)
      ensures Page() == Lifecycle.Page(DefaultSession(), stored)
      ensures fresh(milestones)
    {
      var ms := NewArray(DefaultMilestones());
      hourlyWage, dailyGoal := 0.0, 0.0;
      startTime, endTime := None, None;
      paused, pauseStartTime, totalPauseTime := false, None, 0;
      lastUpdateTime, darkMode := None, false;
      milestones := ms;
      this.stored := stored;
    }

    /** saveSettings (app.js:93-108). */
    method Save(now: int)
      modifies this`stored
      ensures Page() == Saving(State(), now)
    {
      stored := Some(Saved(State(), DayOf(now)));
    }

    /** loadSettings (app.js:58-79). */
    method Load(now: int)
      modifies this
      ensures Page() == LoadStep(old(Page()), now)
      ensures milestones == old(milestones) || fresh(milestones)
    {
      if stored.Some? {
        var rec := stored.value;
        hourlyWage, dailyGoal := rec.hourlyWage, rec.dailyGoal;
        startTime, endTime := rec.startTime, rec.endTime;
        darkMode := rec.darkMode;
        totalPauseTime := rec.totalPauseTime;
        paused := rec.paused;
        pauseStartTime := OrNull(rec.pauseStartTime);
        lastUpdateTime := OrNull(rec.lastUpdateTime);
        if rec.milestones.Some? {
          milestones := NewArray(rec.milestones.value);
        }
        if paused && Truthy(pauseStartTime) {
          totalPauseTime := totalPauseTime + (now - pauseStartTime.value);
          pauseStartTime := Some(now);
        }
      }
    }

    /** The reset button, once confirmed (app.js:176-192). */
    method ResetDay(now: int)
      modifies this
      ensures Page() == ResetDayStep(old(Page()), now)
      ensures milestones == old(milestones) || fresh(milestones)
    {
      totalPauseTime := 0;
      paused := false;
      pauseStartTime := None;
      lastUpdateTime := None;
      milestones := NewArray(DefaultMilestones());
      Save(now);
    }

    /** checkNewDay (app.js:111-133). */
    method CheckNewDay(now: int)
      modifies this
      ensures Page() == CheckNewDayStep(old(Page()), now)
      ensures milestones == old(milestones) || fresh(milestones)
    {
      if stored.Some? && stored.value.lastSaveDate != Some(DayOf(now)) {
        ResetDay(now);
      }
    }

    /** The save button of the settings form (app.js:165-173). */
    method ApplySettings(wage: Option<real>, goal: Option<real>,
                         start: Option<MinuteOfDay>, end: Option<MinuteOfDay>, now: int)
      modifies this
      ensures Page() == SettingsStep(old(Page()), wage, goal, start, end, now)
    {
      hourlyWage := OrZero(wage);
      dailyGoal := OrZero(goal);
      startTime := start;
      endTime := end;
      Save(now);
    }

    /** togglePause (app.js:211-230). */
    method TogglePause(now: int)
      modifies this
      ensures Page() == TogglePauseStep(old(Page()), now)
    {
      paused := !paused;
      if paused {
        pauseStartTime := Some(now);
      } else if Truthy(pauseStartTime) {
        totalPauseTime := totalPauseTime + (now - pauseStartTime.value);
        pauseStartTime := None;
      }
      Save(now);
    }

    /**
     * checkMilestones (app.js:399-407): walks the milestones in order,
     * latching and announcing each one the earnings have reached that was
     * not shown yet, and saving after each. Returns the announced messages.
     */
    method CheckMilestones(earnings: real, now: int) returns (fired: seq<string>)
      modifies this`stored, milestones
      ensures fired == FiredMessages(old(milestones[..]), earnings)
      ensures milestones[..] == Fire(old(milestones[..]), earnings)
      ensures stored == if fired == [] then old(stored) else Some(Saved(State(), DayOf(now)))
    {
      ghost var ms := milestones[..];
      fired := [];
      for i := 0 to milestones.Length
        invariant milestones[..i] == Fire(ms[..i], earnings)
        invariant forall k :: i <= k < milestones.Length ==> milestones[k] == ms[k]
        invariant fired == FiredMessages(ms[..i], earnings)
        invariant stored == if fired == [] then old(stored) else Some(Saved(State(), DayOf(now)))
      {
        var m := milestones[i];
        assert m == ms[i];
        FireStep(ms, i, earnings);
        if earnings >= m.amount && !m.shown {
          milestones[i] := m.(shown := true);
          fired := fired + [m.message];
          Save(now);
        }
        assert milestones[..i + 1] == milestones[..i] + [milestones[i]];
      }
      assert ms[..milestones.Length] == ms;
    }

    /**
     * One frame of the display loop (updateDisplay, app.js:319-396): what it
     * shows and the milestone check it runs.
     */
    method Tick(now: int) returns (frame: Frame)
      modifies this`stored, milestones
      ensures frame == View(old(State()), now)
      ensures Page() == TickStep(old(Page()), now)
    {
      var s := State();
      var e := Earnings(s, now);
      var fired := CheckMilestones(e, now);
      frame := Frame(e, WorkTimeText(s, now), RemainingText(Remaining(s, now)), Progress(e, s.dailyGoal), fired);
    }

    /** Start-up (init, app.js:47-55) with the day check before the first frame. */
    method Init(now: int) returns (frame: Frame)
      modifies this, milestones
      ensures Page() == Lifecycle.Init(old(Page()), now)
      ensures frame == View(CheckNewDayStep(LoadStep(old(Page()), now), now).state, now)
    {
      Load(now);
      CheckNewDay(now);
      frame := Tick(now);
    }
  }
}
