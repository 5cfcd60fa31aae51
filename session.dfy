/**
 * The tracker's state record (app.js:2-18) and the record it persists
 * (app.js:94-106), as values.
 */
module Session {
  import opened Wrappers
  import opened Clock

  /** One earnings threshold with its message and its once-per-day latch. */
  datatype Milestone = Milestone(amount: real, message: string, shown: bool)

  /** The global `state` object. Earnings are derived, never stored. */
  datatype Session = Session(
    hourlyWage: real,
    dailyGoal: real,
    startTime: Option<MinuteOfDay>,
    endTime: Option<MinuteOfDay>,
    paused: bool,
    pauseStartTime: Option<int>,
    totalPauseTime: int,
    lastUpdateTime: Option<int>,
    darkMode: bool,
    milestones: seq<Milestone>)

  /**
   * The JSON record under the storage key. Missing numbers and booleans load
   * exactly like 0 and false through the `||` defaults, so only the fields
   * whose absence behaves differently are optional.
   */
  datatype Record = Record(
    hourlyWage: real,
    dailyGoal: real,
    startTime: Option<MinuteOfDay>,
    endTime: Option<MinuteOfDay>,
    darkMode: bool,
    totalPauseTime: int,
    paused: bool,
    pauseStartTime: Option<int>,
    lastUpdateTime: Option<int>,
    milestones: Option<seq<Milestone>>,
    lastSaveDate: Option<int>)

  /** The configuration a day rollover must keep (everything the user set). */
  datatype Config = Config(
    hourlyWage: real,
    dailyGoal: real,
    startTime: Option<MinuteOfDay>,
    endTime: Option<MinuteOfDay>,
    darkMode: bool)

  function ConfigOf(s: Session): Config {
    Config(s.hourlyWage, s.dailyGoal, s.startTime, s.endTime, s.darkMode)
  }

  /** The four thresholds the page starts every day with (app.js:12-17). */
  function DefaultMilestones(): (ms: seq<Milestone>)
    ensures |ms| == 4
    ensures forall i :: 0 <= i < |ms| ==> !ms[i].shown
  {
    [ Milestone(50.0, "☕ 咖啡钱赚到了！", false),
      Milestone(100.0, "\U{1F354} 午餐钱赚到了！", false),
      Milestone(200.0, "\U{1F697} 通勤费赚到了！", false),
      Milestone(500.0, "\U{1F389} 小目标达成！", false) ]
  }

  /** The initial `state` (app.js:2-18). */
  function DefaultSession(): Session {
    Session(0.0, 0.0, None, None, false, None, 0, None, false, DefaultMilestones())
  }

  /** JavaScript truthiness of a nullable timestamp: `null` and `0` are falsy. */
  predicate Truthy(t: Option<int>) {
    t.Some? && t.value != 0
  }

  /** `x || null` for a nullable timestamp. */
  function OrNull(t: Option<int>): (r: Option<int>)
    ensures Truthy(t) ==> r == t
    ensures !Truthy(t) ==> r == None
  {
    if Truthy(t) then t else None
  }

  /**
   * A pause start is recorded exactly while the session is paused, and it
   * is a truthy timestamp. This is what the pause button relies on to add a
   * finished pause to the total; the page does not enforce it, and the
   * pause lemmas show which operations keep it.
   */
  predicate PauseConsistent(s: Session) {
    if s.paused then Truthy(s.pauseStartTime) else s.pauseStartTime.None?
  }
}
