/**
 * One progress bar of the daily quests: the clamped completion percentage and
 * the one-shot celebration that fires each time the bar enters the completed
 * region. The celebration itself (the confetti animation) is only recorded
 * as a `fired` event.
 */
module GoalProgress {

  /** `Math.min`. */
  function Min(a: real, b: real): (m: real)
    ensures m <= a && m <= b && (m == a || m == b)
  {
    if a <= b then a else b
  }

  /**
   * `goal > 0 ? Math.min((current / goal) * 100, 100) : 0`: no more than 100
   * however far `current` overshoots, and 0 for a goal that is not positive.
   */
  function Percentage(current: real, goal: real): (p: real)
    ensures goal <= 0.0 ==> p == 0.0
    ensures goal > 0.0 ==> p <= 100.0 && p <= current / goal * 100.0
    ensures goal > 0.0 ==> p == 100.0 || p == current / goal * 100.0
    ensures goal > 0.0 && current >= 0.0 ==> 0.0 <= p <= 100.0
  {
    if goal > 0.0 then Min(current / goal * 100.0, 100.0) else 0.0
  }

  /** A ratio of at least one is exactly a numerator at least as large as the denominator. */
  lemma RatioAtLeastOne(current: real, goal: real)
    requires goal > 0.0
    ensures current / goal * 100.0 >= 100.0 <==> current >= goal
  {
    var q := current / goal;
    assert (q - 1.0) * goal == current - goal;
  }

  /** The bar reads as completed exactly when the goal is positive and reached. */
  lemma CompletedIff(current: real, goal: real)
    ensures Percentage(current, goal) >= 100.0 <==> goal > 0.0 && current >= goal
  {
    if goal > 0.0 {
      RatioAtLeastOne(current, goal);
    }
  }

  /** One run of the effect: whether the celebration fires, and the new flag. */
  datatype StepOutcome = StepOutcome(fired: bool, hasFired: bool)

  /** The effect body as a function of the flag before it and the new percentage. */
  function Step(hasFired: bool, percentage: real): (o: StepOutcome)
    ensures o.fired <==> percentage >= 100.0 && !hasFired
    ensures o.hasFired <==> percentage >= 100.0
  {
    var isCompleted := percentage >= 100.0;
    if isCompleted && !hasFired then StepOutcome(true, true)
    else if !isCompleted then StepOutcome(false, false)
    else StepOutcome(false, hasFired)
  }

  /** The `hasFiredConfetti` ref and the effect that runs on each new percentage. */
  class ConfettiTrigger {
    var hasFiredConfetti: bool

    /** `useRef(false)`. */
    constructor ()
      ensures !hasFiredConfetti
    {
      hasFiredConfetti := false;
    }

    /** The effect: fire once on entering the completed region, re-arm on leaving it. */
    method OnPercentage(percentage: real) returns (fired: bool)
      modifies this
      ensures StepOutcome(fired, hasFiredConfetti) == Step(old(hasFiredConfetti), percentage)
    {
      var isCompleted := percentage >= 100.0;
      fired := false;
      if isCompleted && !hasFiredConfetti {
        hasFiredConfetti := true;
        fired := true;
      } else if !isCompleted {
        hasFiredConfetti := false;
      }
    }
  }

  /** The number of celebrations over a run of percentages, starting from the flag `hasFired`. */
  function Fires(hasFired: bool, ps: seq<real>): nat
    decreases |ps|
  {
    if ps == [] then 0
    else
      var o := Step(hasFired, ps[0]);
      (if o.fired then 1 else 0) + Fires(o.hasFired, ps[1..])
  }

  /** The flag after a run of percentages. */
  function FlagAfter(hasFired: bool, ps: seq<real>): bool
    decreases |ps|
  {
    if ps == [] then hasFired else FlagAfter(Step(hasFired, ps[0]).hasFired, ps[1..])
  }

  /** Index `i` enters the completed region: it is at least 100 and the value before it, if any, is not. */
  predicate IsEntry(ps: seq<real>, i: nat)
    requires i < |ps|
  {
    ps[i] >= 100.0 && (i == 0 || ps[i - 1] < 100.0)
  }

  /** Reference count: the number of entries into the completed region. */
  function Entries(ps: seq<real>): nat
  {
    if ps == [] then 0
    else Entries(ps[..|ps| - 1]) + (if IsEntry(ps, |ps| - 1) then 1 else 0)
  }

  /** After any non-empty run the flag says whether the last value was completed. */
  lemma {:induction false} FlagAfterIsLastCompleted(hasFired: bool, ps: seq<real>)
    requires ps != []
    ensures FlagAfter(hasFired, ps) <==> ps[|ps| - 1] >= 100.0
    decreases |ps|
  {
    if |ps| > 1 {
      FlagAfterIsLastCompleted(Step(hasFired, ps[0]).hasFired, ps[1..]);
    }
  }

  /** Running one more value adds that value's celebration to the count. */
  lemma {:induction false} FiresSnoc(hasFired: bool, ps: seq<real>, p: real)
    ensures FlagAfter(hasFired, ps + [p]) == Step(FlagAfter(hasFired, ps), p).hasFired
    ensures Fires(hasFired, ps + [p]) == Fires(hasFired, ps) + (if Step(FlagAfter(hasFired, ps), p).fired then 1 else 0)
    decreases |ps|
  {
    if ps == [] {
      assert [p][1..] == [];
    } else {
      assert (ps + [p])[1..] == ps[1..] + [p];
      FiresSnoc(Step(hasFired, ps[0]).hasFired, ps[1..], p);
    }
  }

  /** From a fresh flag, the celebration fires exactly once per entry into the completed region. */
  lemma {:induction false} FiresCountsEntries(ps: seq<real>)
    ensures Fires(false, ps) == Entries(ps)
  {
    if ps != [] {
      var init := ps[..|ps| - 1];
      var p := ps[|ps| - 1];
      assert ps == init + [p];
      FiresCountsEntries(init);
      FiresSnoc(false, init, p);
      if init != [] {
        FlagAfterIsLastCompleted(false, init);
      }
    }
  }

  /** A value repeated straight after itself never fires again and leaves the flag as it was. */
  lemma RepeatedValueIsQuiet(hasFired: bool, p: real)
    ensures !Step(Step(hasFired, p).hasFired, p).fired
    ensures Step(Step(hasFired, p).hasFired, p).hasFired == Step(hasFired, p).hasFired
  {
  }

  /** 50, 90, 100, 80, 100: the celebration fires twice, at each arrival at 100. */
  lemma TwoCelebrations()
    ensures Fires(false, [50.0, 90.0, 100.0, 80.0, 100.0]) == 2
    ensures Fires(false, [50.0, 90.0, 100.0, 100.0, 80.0, 100.0]) == 2
  {
    var a := [50.0, 90.0, 100.0, 80.0, 100.0];
    assert a[1..] == [90.0, 100.0, 80.0, 100.0];
    assert a[1..][1..] == [100.0, 80.0, 100.0];
    assert a[1..][1..][1..] == [80.0, 100.0];
    assert a[1..][1..][1..][1..] == [100.0];
    var b := [50.0, 90.0, 100.0, 100.0, 80.0, 100.0];
    assert b[1..] == [90.0, 100.0, 100.0, 80.0, 100.0];
    assert b[1..][1..] == [100.0, 100.0, 80.0, 100.0];
    assert b[1..][1..][1..] == a[1..][1..];
  }

  /** The flag starts lowered, so a bar already complete when first shown fires at once. */
  method FirstValueCompleted(p: real) returns (fired: bool)
    requires p >= 100.0
    ensures fired
  {
    var trigger := new ConfettiTrigger();
    fired := trigger.OnPercentage(p);
  }
}
