/**
 * The milestone latch (checkMilestones, app.js:399-407): every threshold
 * the earnings have reached and that has not been shown yet is shown once,
 * and a shown milestone stays shown until the day is reset.
 */
module Milestones {
  import opened Session

  /** Whether `m` is announced when the earnings are `e`. */
  predicate Fires(m: Milestone, e: real) {
    e >= m.amount && !m.shown
  }

  /**
   * Every milestone after one check at earnings `e`: amounts and messages
   * stay, and a milestone is shown afterwards exactly when it was shown
   * before or its amount has been reached.
   */
  function Fire(ms: seq<Milestone>, e: real): (r: seq<Milestone>)
    ensures |r| == |ms|
    ensures forall i :: 0 <= i < |ms| ==>
      r[i].amount == ms[i].amount && r[i].message == ms[i].message
      && (r[i].shown <==> ms[i].shown || e >= ms[i].amount)
  {
    if ms == [] then []
    else
      var m := ms[|ms| - 1];
      Fire(ms[..|ms| - 1], e) + [if Fires(m, e) then m.(shown := true) else m]
  }

  /** The messages announced, in array order, by one check at earnings `e`. */
  function FiredMessages(ms: seq<Milestone>, e: real): (r: seq<string>)
    ensures |r| <= |ms|
  {
    if ms == [] then []
    else
      var m := ms[|ms| - 1];
      FiredMessages(ms[..|ms| - 1], e) + (if Fires(m, e) then [m.message] else [])
  }

  /** A check announces nothing exactly when no milestone fires. */
  lemma {:induction false} NothingAnnounced(ms: seq<Milestone>, e: real)
    ensures FiredMessages(ms, e) == [] <==> forall i :: 0 <= i < |ms| ==> !Fires(ms[i], e)
  {
    if ms != [] {
      var init := ms[..|ms| - 1];
      NothingAnnounced(init, e);
      assert forall i :: 0 <= i < |init| ==> init[i] == ms[i];
    }
  }

  /** The positions of the milestones a check at earnings `e` announces. */
  function FiringSet(ms: seq<Milestone>, e: real): set<nat> {
    set i: nat | i < |ms| && Fires(ms[i], e)
  }

  /**
   * A check announces the message of every milestone that fires and of no
   * other, one message per firing milestone.
   */
  lemma AnnouncedAreTheFiring(ms: seq<Milestone>, e: real)
    ensures forall i :: 0 <= i < |ms| && Fires(ms[i], e) ==> ms[i].message in FiredMessages(ms, e)
    ensures forall t :: t in FiredMessages(ms, e) ==> exists i :: 0 <= i < |ms| && Fires(ms[i], e) && ms[i].message == t
    ensures |FiredMessages(ms, e)| == |FiringSet(ms, e)|
  {
    AnnouncesEveryFiring(ms, e);
    AnnouncesOnlyFiring(ms, e);
    AnnouncesOncePerFiring(ms, e);
  }

  lemma {:induction false} AnnouncesEveryFiring(ms: seq<Milestone>, e: real)
    ensures forall i :: 0 <= i < |ms| && Fires(ms[i], e) ==> ms[i].message in FiredMessages(ms, e)
  {
    if ms != [] {
      var init, last := ms[..|ms| - 1], ms[|ms| - 1];
      AnnouncesEveryFiring(init, e);
      var r := FiredMessages(ms, e);
      assert r == FiredMessages(init, e) + (if Fires(last, e) then [last.message] else []);
      forall i | 0 <= i < |ms| && Fires(ms[i], e)
        ensures ms[i].message in r
      {
        if i < |init| {
          assert init[i] == ms[i];
        }
      }
    }
  }

  lemma {:induction false} AnnouncesOnlyFiring(ms: seq<Milestone>, e: real)
    ensures forall t :: t in FiredMessages(ms, e) ==> exists i :: 0 <= i < |ms| && Fires(ms[i], e) && ms[i].message == t
  {
    if ms != [] {
      var init, last := ms[..|ms| - 1], ms[|ms| - 1];
      AnnouncesOnlyFiring(init, e);
      var r := FiredMessages(ms, e);
      assert r == FiredMessages(init, e) + (if Fires(last, e) then [last.message] else []);
      forall t | t in r
        ensures exists i :: 0 <= i < |ms| && Fires(ms[i], e) && ms[i].message == t
      {
        if t in FiredMessages(init, e) {
          var i :| 0 <= i < |init| && Fires(init[i], e) && init[i].message == t;
          assert ms[i] == init[i];
        } else {
          assert ms[|ms| - 1] == last;
        }
      }
    }
  }

  lemma {:induction false} AnnouncesOncePerFiring(ms: seq<Milestone>, e: real)
    ensures |FiredMessages(ms, e)| == |FiringSet(ms, e)|
  {
    if ms != [] {
      var init := ms[..|ms| - 1];
      AnnouncesOncePerFiring(init, e);
      assert forall i :: 0 <= i < |init| ==> init[i] == ms[i];
      if Fires(ms[|ms| - 1], e) {
        assert FiringSet(ms, e) == FiringSet(init, e) + {|ms| - 1};
      } else {
        assert FiringSet(ms, e) == FiringSet(init, e);
      }
    }
  }

  /** One more milestone checked: the results for a prefix grow by that milestone's outcome. */
  lemma FireStep(ms: seq<Milestone>, i: nat, e: real)
    requires i < |ms|
    ensures Fire(ms[..i + 1], e) == Fire(ms[..i], e) + [if Fires(ms[i], e) then ms[i].(shown := true) else ms[i]]
    ensures FiredMessages(ms[..i + 1], e) == FiredMessages(ms[..i], e) + (if Fires(ms[i], e) then [ms[i].message] else [])
  {
    assert ms[..i + 1][..i] == ms[..i];
  }

  /** A check announces something exactly when it changes some milestone (and so saves). */
  lemma {:induction false} NothingFiredMeansNothingChanged(ms: seq<Milestone>, e: real)
    ensures FiredMessages(ms, e) == [] <==> Fire(ms, e) == ms
  {
    if ms != [] {
      var init := ms[..|ms| - 1];
      NothingFiredMeansNothingChanged(init, e);
      assert ms == init + [ms[|ms| - 1]];
      if Fire(ms, e) == ms {
        assert Fire(ms, e)[..|ms| - 1] == Fire(init, e);
      }
    }
  }

  /**
   * Once checked at earnings `e1`, checking again at the same or lower
   * earnings announces nothing and changes nothing: each milestone fires at
   * most once.
   */
  lemma {:induction false} FiresAtMostOnce(ms: seq<Milestone>, e1: real, e2: real)
    requires e2 <= e1
    ensures FiredMessages(Fire(ms, e1), e2) == []
    ensures Fire(Fire(ms, e1), e2) == Fire(ms, e1)
  {
    if ms != [] {
      var init := ms[..|ms| - 1];
      FiresAtMostOnce(init, e1, e2);
      var f := Fire(ms, e1);
      assert f[..|f| - 1] == Fire(init, e1);
    }
    NothingFiredMeansNothingChanged(Fire(ms, e1), e2);
  }

  /** Two checks in a row leave the milestones as one check at the higher earnings. */
  lemma FireTwice(ms: seq<Milestone>, e1: real, e2: real)
    ensures Fire(Fire(ms, e1), e2) == Fire(ms, if e1 >= e2 then e1 else e2)
  {
  }

  /**
   * Earnings rising from 0 through 75 to 130 and staying there, against
   * thresholds 50 and 100: the first check announces nothing, the second
   * the 50 milestone, the third the 100 milestone, the fourth nothing.
   */
  lemma {:induction false} RisingEarningsExample(a: string, b: string)
    ensures
      var ms0 := [Milestone(50.0, a, false), Milestone(100.0, b, false)];
      var ms1 := Fire(ms0, 0.0);
      var ms2 := Fire(ms1, 75.0);
      var ms3 := Fire(ms2, 130.0);
      && FiredMessages(ms0, 0.0) == []
      && FiredMessages(ms1, 75.0) == [a]
      && FiredMessages(ms2, 130.0) == [b]
      && FiredMessages(ms3, 130.0) == []
  {
    var ms0 := [Milestone(50.0, a, false), Milestone(100.0, b, false)];
    assert ms0[..1] == [ms0[0]];
    var ms1 := Fire(ms0, 0.0);
    assert ms1 == ms0 by { NothingFiredMeansNothingChanged(ms0, 0.0); }
    var ms2 := Fire(ms1, 75.0);
    assert ms2 == [Milestone(50.0, a, true), Milestone(100.0, b, false)];
    assert ms2[..1] == [ms2[0]];
    var ms3 := Fire(ms2, 130.0);
    FiresAtMostOnce(ms2, 130.0, 130.0);
  }
}
