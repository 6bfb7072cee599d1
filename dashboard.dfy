/**
 * The values the dashboard derives from the log and its totals: net calories,
 * the nutrient bars, the three daily goals and the deltas its water and sleep
 * buttons send back to the store.
 */
module Dashboard {
  import opened Types
  import opened JsString
  import opened Reduce
  import opened App
  import opened GeminiService
  import opened GoalProgress

  /** `totalCalories - totalCaloriesBurned`. */
  function NetCalories(t: Totals): (net: real)
    ensures net + t.totalCaloriesBurned == t.totalCalories
    ensures net > 0.0 <==> t.totalCalories > t.totalCaloriesBurned
  {
    t.totalCalories - t.totalCaloriesBurned
  }

  /** The dashboard's net figure is the meal calories less the workout calories, as in the summary request. */
  lemma NetOfLog(log: DailyLog)
    ensures NetCalories(ComputeTotals(log.meals, log.workouts))
      == Sum(log.meals, MealCalories) - Sum(log.workouts, WorkoutCaloriesBurned)
    ensures NetCalories(ComputeTotals(log.meals, log.workouts)) == SummaryInputsOf(log).netCalorieBalance
  {
  }

  /** Logging a meal raises the net figure by its calories; logging a workout lowers it by what it burned. */
  lemma NetAfterRecords(log: DailyLog, m: Meal, w: Workout)
    ensures NetCalories(ComputeTotals(log.meals + [m], log.workouts))
      == NetCalories(ComputeTotals(log.meals, log.workouts)) + m.calories
    ensures NetCalories(ComputeTotals(log.meals, log.workouts + [w]))
      == NetCalories(ComputeTotals(log.meals, log.workouts)) - w.caloriesBurned
  {
    TotalsAfterMeal(log.meals, log.workouts, m);
    TotalsAfterWorkout(log.meals, log.workouts, w);
  }

  /** One bar of the macronutrient chart. */
  datatype NutrientDatum = NutrientDatum(name: string, value: real, color: string)

  /** The chart's bars: protein, carbs and fat in that order. */
  function NutrientData(t: Totals): (d: seq<NutrientDatum>)
    ensures |d| == 3
    ensures d[0].name == "Protein" && d[1].name == "Carbs" && d[2].name == "Fat"
    ensures d[0].value == t.totalProtein && d[1].value == t.totalCarbs && d[2].value == t.totalFat
  {
    [ NutrientDatum("Protein", t.totalProtein, "#34D399"),
      NutrientDatum("Carbs", t.totalCarbs, "#60A5FA"),
      NutrientDatum("Fat", t.totalFat, "#FBBF24") ]
  }

  /** The bars name protein, carbs and fat in that order and carry the sums of those fields over the meals. */
  lemma NutrientBarsOfMeals(meals: seq<Meal>, workouts: seq<Workout>)
    ensures |NutrientData(ComputeTotals(meals, workouts))| == 3
    ensures NutrientData(ComputeTotals(meals, workouts))[0]
      == NutrientDatum("Protein", Sum(meals, MealProtein), "#34D399")
    ensures NutrientData(ComputeTotals(meals, workouts))[1]
      == NutrientDatum("Carbs", Sum(meals, MealCarbs), "#60A5FA")
    ensures NutrientData(ComputeTotals(meals, workouts))[2]
      == NutrientDatum("Fat", Sum(meals, MealFat), "#FBBF24")
  {
  }

  /** Whether the goal text asks for weight gain: `goal.toLowerCase().includes('gain')`. */
  predicate WantsGain(goal: string)
    ensures WantsGain(goal) <==> OccursIn("gain", ToLower(goal))
  {
    IncludesIffOccurs(ToLower(goal), "gain");
    Includes(ToLower(goal), "gain")
  }

  /** 2500 kcal for a goal mentioning "gain" in any letter case, 2000 otherwise. */
  function CalorieGoal(goal: string): (r: int)
    ensures r == 2500 || r == 2000
    ensures r == 2500 <==> OccursIn("gain", ToLower(goal))
  {
    if WantsGain(goal) then 2500 else 2000
  }

  /** Lower-casing maps every character into its lower-case image, so doing it twice changes nothing. */
  lemma {:induction false} ToLowerIdempotent(s: string)
    ensures ToLower(ToLower(s)) == ToLower(s)
  {
    var l := ToLower(s);
    assert forall k :: 0 <= k < |l| ==> LowerChar(l[k]) == l[k];
  }

  /** Two texts that differ only in the case of their letters get the same calorie goal. */
  lemma CalorieGoalIgnoresCase(a: string, b: string)
    requires ToLower(a) == ToLower(b)
    ensures CalorieGoal(a) == CalorieGoal(b)
  {
  }

  /** In particular the goal of a text equals the goal of its lower-cased form. */
  lemma CalorieGoalOfLowered(goal: string)
    ensures CalorieGoal(ToLower(goal)) == CalorieGoal(goal)
  {
    ToLowerIdempotent(goal);
    CalorieGoalIgnoresCase(ToLower(goal), goal);
  }

  /** An occurrence survives lower-casing both strings. */
  lemma OccursLowered(sub: string, s: string, i: nat)
    requires OccursAt(sub, s, i)
    ensures OccursAt(ToLower(sub), ToLower(s), i)
  {
    var l, ls := ToLower(sub), ToLower(s);
    forall k | 0 <= k < |sub| ensures ls[i..i + |sub|][k] == l[k] {
      assert s[i..i + |sub|][k] == sub[k];
    }
    assert ls[i..i + |sub|] == l;
  }

  /** Any text holding "gain" in lower case asks for 2500 kcal. */
  lemma CalorieGoalOfMention(goal: string, i: nat)
    requires OccursAt("gain", goal, i)
    ensures CalorieGoal(goal) == 2500
  {
    OccursLowered("gain", goal, i);
    assert ToLower("gain") == "gain";
  }

  /** "GAIN" qualifies: the test ignores case. */
  lemma CalorieGoalUpperCase()
    ensures CalorieGoal("GAIN") == 2500
  {
    var l := ToLower("GAIN");
    assert l[0] == 'g' && l[1] == 'a' && l[2] == 'i' && l[3] == 'n';
    assert l[0..4] == "gain";
    assert OccursAt("gain", l, 0);
  }

  /** "again" qualifies: the test is a plain substring test. */
  lemma CalorieGoalSubstring()
    ensures CalorieGoal("again") == 2500
  {
    assert "again"[1..5] == "gain";
    CalorieGoalOfMention("again", 1);
  }

  /** The initial goal text mentions "gain", so it gets 2500 kcal. */
  lemma CalorieGoalOfInitialLog(date: nat)
    ensures CalorieGoal(InitialLog(date).goal) == 2500
  {
    var t := InitialLog(date).goal;
    assert t[19..23] == "gain";
    CalorieGoalOfMention(t, 19);
  }

  /** A text with no 'g' or 'G' early enough to start the word asks for 2000 kcal. */
  lemma CalorieGoalWithoutMention(goal: string)
    requires forall k :: 0 <= k && k + 4 <= |goal| ==> goal[k] != 'g' && goal[k] != 'G'
    ensures CalorieGoal(goal) == 2000
  {
    var l := ToLower(goal);
    assert forall i: nat :: OccursAt("gain", l, i) ==> l[i..i + 4][0] == l[i] == 'g';
  }

  /** "Lose weight" gets 2000 kcal: its only 'g' is too close to the end to start "gain". */
  lemma CalorieGoalLoseWeight()
    ensures CalorieGoal("Lose weight") == 2000
  {
    var w := "Lose weight";
    assert w[0] == 'L' && w[1] == 'o' && w[2] == 's' && w[3] == 'e';
    assert w[4] == ' ' && w[5] == 'w' && w[6] == 'e' && w[7] == 'i';
    CalorieGoalWithoutMention(w);
  }

  /** `Math.round`: the nearest integer, halves going up. */
  function Round(x: real): (n: int)
    ensures x - 0.5 < n as real <= x + 0.5
  {
    (x + 0.5).Floor
  }

  /** Any integer within half a unit below and up to half a unit above `x` is `Math.round(x)`. */
  lemma RoundUnique(x: real, n: int)
    requires x - 0.5 < n as real <= x + 0.5
    ensures Round(x) == n
  {
  }

  /** 1.6 g of protein per kilogram of base weight, rounded. */
  function ProteinGoal(baseWeight: real): (g: int)
    ensures baseWeight * 1.6 - 0.5 < g as real <= baseWeight * 1.6 + 0.5
  {
    Round(baseWeight * 1.6)
  }

  /** A base weight of 70 kg asks for 112 g of protein. */
  lemma ProteinGoalOf70()
    ensures ProteinGoal(70.0) == 112
  {
    assert 70.0 * 1.6 == 112.0;
    RoundUnique(112.0, 112);
  }

  /** Eight glasses of water. */
  const WaterGoal: int := 8

  /** The three quest targets. */
  datatype GoalTargets = GoalTargets(calorieGoal: int, proteinGoal: int, waterGoal: int)

  /** All three targets derived from one log. */
  function DailyGoals(log: DailyLog): (g: GoalTargets)
    ensures g.calorieGoal == 2500 <==> OccursIn("gain", ToLower(log.goal))
    ensures g.calorieGoal == 2500 || g.calorieGoal == 2000
    ensures log.baseWeight * 1.6 - 0.5 < g.proteinGoal as real <= log.baseWeight * 1.6 + 0.5
    ensures g.waterGoal == 8
  {
    GoalTargets(CalorieGoal(log.goal), ProteinGoal(log.baseWeight), WaterGoal)
  }

  /** The water quest is complete exactly from the eighth glass on. */
  lemma WaterQuestCompletedIff(log: DailyLog)
    ensures Percentage(log.waterIntake, DailyGoals(log).waterGoal as real) >= 100.0 <==> log.waterIntake >= 8.0
  {
    CompletedIff(log.waterIntake, 8.0);
  }

  /**
   * Two meals of 500 and 300 kcal with 40 and 20 g of protein against a 70 kg
   * base weight: 800 kcal, 60 g, and a protein bar at 60/112 of its goal.
   */
  lemma ProteinQuestScenario()
    ensures var meals := [Meal(1, "a", 500.0, 40.0, 50.0, 10.0), Meal(2, "b", 300.0, 20.0, 20.0, 5.0)];
      var t := ComputeTotals(meals, []);
      t.totalCalories == 800.0 && t.totalProtein == 60.0
      && ProteinGoal(70.0) == 112
      && Percentage(t.totalProtein, ProteinGoal(70.0) as real) == 60.0 / 112.0 * 100.0
      && Percentage(t.totalProtein, ProteinGoal(70.0) as real) < 100.0
  {
    var meals := [Meal(1, "a", 500.0, 40.0, 50.0, 10.0), Meal(2, "b", 300.0, 20.0, 20.0, 5.0)];
    assert meals[1..][1..] == [];
    ProteinGoalOf70();
    CompletedIff(60.0, 112.0);
  }

  /** The four buttons of the water and sleep trackers. */
  datatype Control = WaterDown | WaterUp | SleepDown | SleepUp

  /** What a click sends: `onWaterChange(-1)`, `onWaterChange(1)`, `onSleepChange(-0.5)`, `onSleepChange(0.5)`. */
  function Press(log: DailyLog, c: Control): (r: DailyLog)
    ensures r == log.(waterIntake := r.waterIntake, sleepHours := r.sleepHours)
    ensures c.WaterDown? || c.WaterUp? ==> r.sleepHours == log.sleepHours
    ensures c.SleepDown? || c.SleepUp? ==> r.waterIntake == log.waterIntake
    ensures c.WaterUp? && log.waterIntake >= 0.0 ==> r.waterIntake == log.waterIntake + 1.0
    ensures c.WaterDown? ==> r.waterIntake == (if log.waterIntake >= 1.0 then log.waterIntake - 1.0 else 0.0)
    ensures c.SleepUp? && log.sleepHours >= 0.0 ==> r.sleepHours == log.sleepHours + 0.5
    ensures c.SleepDown? ==> r.sleepHours == (if log.sleepHours >= 0.5 then log.sleepHours - 0.5 else 0.0)
  {
    match c
    case WaterDown => WithWaterChange(log, -1.0)
    case WaterUp => WithWaterChange(log, 1.0)
    case SleepDown => WithSleepChange(log, -0.5)
    case SleepUp => WithSleepChange(log, 0.5)
  }

  /**
   * A run of clicks, first to last. The clicks touch water and sleep only, and
   * clicks on the water buttons alone leave sleep as it was, and vice versa.
   */
  function PressAll(log: DailyLog, cs: seq<Control>): (r: DailyLog)
    ensures r == log.(waterIntake := r.waterIntake, sleepHours := r.sleepHours)
    ensures (forall k :: 0 <= k < |cs| ==> cs[k].WaterDown? || cs[k].WaterUp?) ==> r.sleepHours == log.sleepHours
    ensures (forall k :: 0 <= k < |cs| ==> cs[k].SleepDown? || cs[k].SleepUp?) ==> r.waterIntake == log.waterIntake
    decreases |cs|
  {
    if cs == [] then log else PressAll(Press(log, cs[0]), cs[1..])
  }

  /** A whole number of glasses. */
  predicate IsWhole(x: real)
  {
    x == x.Floor as real
  }

  /** A whole number of half hours. */
  predicate IsHalfHours(x: real)
  {
    IsWhole(2.0 * x)
  }

  /** A whole number moved by one glass and floored at 0 stays a non-negative whole number. */
  lemma WholeStep(x: real, d: real)
    requires x >= 0.0 && IsWhole(x) && (d == 1.0 || d == -1.0)
    ensures Max(0.0, x + d) >= 0.0 && IsWhole(Max(0.0, x + d))
  {
    var n := x.Floor;
    assert x + d == (n + d.Floor) as real;
  }

  /** A number of half hours moved by half an hour and floored at 0 stays a non-negative number of half hours. */
  lemma HalfStep(x: real, d: real)
    requires x >= 0.0 && IsHalfHours(x) && (d == 0.5 || d == -0.5)
    ensures Max(0.0, x + d) >= 0.0 && IsHalfHours(Max(0.0, x + d))
  {
    var h := (2.0 * x).Floor;
    assert 2.0 * (x + d) == (h + (2.0 * d).Floor) as real;
  }

  /** One click keeps water a non-negative whole number and sleep a non-negative number of half hours. */
  lemma PressKeepsSteps(log: DailyLog, c: Control)
    requires log.waterIntake >= 0.0 && IsWhole(log.waterIntake)
    requires log.sleepHours >= 0.0 && IsHalfHours(log.sleepHours)
    ensures Press(log, c).waterIntake >= 0.0 && IsWhole(Press(log, c).waterIntake)
    ensures Press(log, c).sleepHours >= 0.0 && IsHalfHours(Press(log, c).sleepHours)
  {
    match c
    case WaterDown => WholeStep(log.waterIntake, -1.0);
    case WaterUp => WholeStep(log.waterIntake, 1.0);
    case SleepDown => HalfStep(log.sleepHours, -0.5);
    case SleepUp => HalfStep(log.sleepHours, 0.5);
  }

  /** Whatever the clicks, water stays a non-negative whole number and sleep a non-negative number of half hours. */
  lemma {:induction false} ControlsKeepSteps(log: DailyLog, cs: seq<Control>)
    requires log.waterIntake >= 0.0 && IsWhole(log.waterIntake)
    requires log.sleepHours >= 0.0 && IsHalfHours(log.sleepHours)
    ensures PressAll(log, cs).waterIntake >= 0.0 && IsWhole(PressAll(log, cs).waterIntake)
    ensures PressAll(log, cs).sleepHours >= 0.0 && IsHalfHours(PressAll(log, cs).sleepHours)
    decreases |cs|
  {
    if cs != [] {
      PressKeepsSteps(log, cs[0]);
      ControlsKeepSteps(Press(log, cs[0]), cs[1..]);
    }
  }

  /** From the initial log (no water, 7.5 hours), any run of clicks gives whole glasses and half hours. */
  lemma ControlsFromInitialLog(date: nat, cs: seq<Control>)
    ensures PressAll(InitialLog(date), cs).waterIntake >= 0.0 && IsWhole(PressAll(InitialLog(date), cs).waterIntake)
    ensures PressAll(InitialLog(date), cs).sleepHours >= 0.0 && IsHalfHours(PressAll(InitialLog(date), cs).sleepHours)
  {
    assert (2.0 * 7.5).Floor == 15;
    ControlsKeepSteps(InitialLog(date), cs);
  }
}
