/**
 * The top-level component's state: the day's log, one loading flag per
 * analysis operation and the generated summary. Every handler replaces the
 * log wholesale with a new snapshot; the external analysers are passed in as
 * functions from their input to an `Analysis` outcome, and each handler runs
 * as one atomic step.
 */
module App {
  import opened Types
  import opened Reduce
  import opened GeminiService
  import opened JsString

  /** The five sums the `totals` memo computes. */
  datatype Totals = Totals(
    totalCalories: real,
    totalProtein: real,
    totalCarbs: real,
    totalFat: real,
    totalCaloriesBurned: real)

  /** The `totals` memo: five `reduce` folds over the meals and the workouts. */
  function ComputeTotals(meals: seq<Meal>, workouts: seq<Workout>): (t: Totals)
    ensures t.totalCalories == Sum(meals, MealCalories)
    ensures t.totalProtein == Sum(meals, MealProtein)
    ensures t.totalCarbs == Sum(meals, MealCarbs)
    ensures t.totalFat == Sum(meals, MealFat)
    ensures t.totalCaloriesBurned == Sum(workouts, WorkoutCaloriesBurned)
  {
    Totals(
      ReduceSum(meals, MealCalories),
      ReduceSum(meals, MealProtein),
      ReduceSum(meals, MealCarbs),
      ReduceSum(meals, MealFat),
      ReduceSum(workouts, WorkoutCaloriesBurned))
  }

  /** Appending a meal raises each nutrient total by exactly that meal's value; calories out stay put. */
  lemma TotalsAfterMeal(meals: seq<Meal>, workouts: seq<Workout>, m: Meal)
    ensures ComputeTotals(meals + [m], workouts).totalCalories == ComputeTotals(meals, workouts).totalCalories + m.calories
    ensures ComputeTotals(meals + [m], workouts).totalProtein == ComputeTotals(meals, workouts).totalProtein + m.protein
    ensures ComputeTotals(meals + [m], workouts).totalCarbs == ComputeTotals(meals, workouts).totalCarbs + m.carbs
    ensures ComputeTotals(meals + [m], workouts).totalFat == ComputeTotals(meals, workouts).totalFat + m.fat
    ensures ComputeTotals(meals + [m], workouts).totalCaloriesBurned == ComputeTotals(meals, workouts).totalCaloriesBurned
  {
    ReduceSnoc(meals, m, MealCalories);
    ReduceSnoc(meals, m, MealProtein);
    ReduceSnoc(meals, m, MealCarbs);
    ReduceSnoc(meals, m, MealFat);
  }

  /** Appending a workout raises calories out by exactly its value; the nutrient totals stay put. */
  lemma TotalsAfterWorkout(meals: seq<Meal>, workouts: seq<Workout>, w: Workout)
    ensures ComputeTotals(meals, workouts + [w]).totalCaloriesBurned == ComputeTotals(meals, workouts).totalCaloriesBurned + w.caloriesBurned
    ensures ComputeTotals(meals, workouts + [w]).totalCalories == ComputeTotals(meals, workouts).totalCalories
    ensures ComputeTotals(meals, workouts + [w]).totalProtein == ComputeTotals(meals, workouts).totalProtein
    ensures ComputeTotals(meals, workouts + [w]).totalCarbs == ComputeTotals(meals, workouts).totalCarbs
    ensures ComputeTotals(meals, workouts + [w]).totalFat == ComputeTotals(meals, workouts).totalFat
  {
    ReduceSnoc(workouts, w, WorkoutCaloriesBurned);
  }

  /** The totals do not depend on the order in which meals and workouts were logged. */
  lemma TotalsOrderIndependent(meals: seq<Meal>, meals': seq<Meal>, workouts: seq<Workout>, workouts': seq<Workout>)
    requires multiset(meals) == multiset(meals') && multiset(workouts) == multiset(workouts')
    ensures ComputeTotals(meals, workouts) == ComputeTotals(meals', workouts')
  {
    SumPermutation(meals, meals', MealCalories);
    SumPermutation(meals, meals', MealProtein);
    SumPermutation(meals, meals', MealCarbs);
    SumPermutation(meals, meals', MealFat);
    SumPermutation(workouts, workouts', WorkoutCaloriesBurned);
  }

  /** Records with no negative value give totals with no negative value. */
  lemma TotalsNonNegative(meals: seq<Meal>, workouts: seq<Workout>)
    requires forall k :: 0 <= k < |meals| ==> meals[k].calories >= 0.0 && meals[k].protein >= 0.0
    requires forall k :: 0 <= k < |meals| ==> meals[k].carbs >= 0.0 && meals[k].fat >= 0.0
    requires forall k :: 0 <= k < |workouts| ==> workouts[k].caloriesBurned >= 0.0
    ensures ComputeTotals(meals, workouts).totalCalories >= 0.0
    ensures ComputeTotals(meals, workouts).totalProtein >= 0.0
    ensures ComputeTotals(meals, workouts).totalCarbs >= 0.0
    ensures ComputeTotals(meals, workouts).totalFat >= 0.0
    ensures ComputeTotals(meals, workouts).totalCaloriesBurned >= 0.0
  {
    SumNonNegative(meals, MealCalories);
    SumNonNegative(meals, MealProtein);
    SumNonNegative(meals, MealCarbs);
    SumNonNegative(meals, MealFat);
    SumNonNegative(workouts, WorkoutCaloriesBurned);
  }

  /** `Math.max`. */
  function Max(a: real, b: real): (m: real)
    ensures m >= a && m >= b && (m == a || m == b)
  {
    if a >= b then a else b
  }

  /** `{ ...prev, waterIntake: Math.max(0, prev.waterIntake + amount) }`. */
  function WithWaterChange(log: DailyLog, amount: real): (r: DailyLog)
    ensures r.waterIntake >= 0.0 && r.waterIntake >= log.waterIntake + amount
    ensures r.waterIntake == 0.0 || r.waterIntake == log.waterIntake + amount
    ensures r == log.(waterIntake := r.waterIntake)
  {
    log.(waterIntake := Max(0.0, log.waterIntake + amount))
  }

  /** `{ ...prev, sleepHours: Math.max(0, prev.sleepHours + amount) }`. */
  function WithSleepChange(log: DailyLog, amount: real): (r: DailyLog)
    ensures r.sleepHours >= 0.0 && r.sleepHours >= log.sleepHours + amount
    ensures r.sleepHours == 0.0 || r.sleepHours == log.sleepHours + amount
    ensures r == log.(sleepHours := r.sleepHours)
  {
    log.(sleepHours := Max(0.0, log.sleepHours + amount))
  }

  /** `{ ...prev, currentWeight: newWeight }`: no check on the value. */
  function WithWeight(log: DailyLog, newWeight: real): (r: DailyLog)
    ensures r.currentWeight == newWeight
    ensures r == log.(currentWeight := newWeight)
  {
    log.(currentWeight := newWeight)
  }

  /** `{ ...prev, meals: [...prev.meals, newMeal] }`. */
  function WithMeal(log: DailyLog, m: Meal): (r: DailyLog)
    ensures |r.meals| == |log.meals| + 1 && r.meals[|log.meals|] == m
    ensures r.meals[..|log.meals|] == log.meals
    ensures r == log.(meals := r.meals)
  {
    log.(meals := log.meals + [m])
  }

  /** `{ ...prev, workouts: [...prev.workouts, newWorkout] }`. */
  function WithWorkout(log: DailyLog, w: Workout): (r: DailyLog)
    ensures |r.workouts| == |log.workouts| + 1 && r.workouts[|log.workouts|] == w
    ensures r.workouts[..|log.workouts|] == log.workouts
    ensures r == log.(workouts := r.workouts)
  {
    log.(workouts := log.workouts + [w])
  }

  /** A water adjustment is never negative, however far below zero the delta reaches. */
  lemma WaterNeverNegative(log: DailyLog, amount: real)
    requires log.waterIntake >= 0.0
    ensures WithWaterChange(log, amount).waterIntake >= 0.0
    ensures amount <= -log.waterIntake ==> WithWaterChange(log, amount).waterIntake == 0.0
    ensures amount >= -log.waterIntake ==> WithWaterChange(log, amount).waterIntake == log.waterIntake + amount
  {
  }

  /** The initial log of `useState`: no records, no water, 7.5 hours of sleep, 70 kg. */
  function InitialLog(date: nat): (log: DailyLog)
    ensures log.date == date && log.meals == [] && log.workouts == []
    ensures log.waterIntake == 0.0 && log.sleepHours == 7.5
    ensures log.baseWeight == log.currentWeight == 70.0
    ensures LogInvariant(log)
  {
    DailyLog(date, [], [], 0.0, 7.5, 70.0, 70.0, "Lose belly fat and gain lean muscle")
  }

  /** The `toast` a handler raises. */
  datatype Notice = Warn | Success | Info | Error

  /** What the log keeps true between handlers. */
  ghost predicate LogInvariant(log: DailyLog)
  {
    && log.waterIntake >= 0.0
    && log.sleepHours >= 0.0
    && (forall k :: 0 <= k < |log.meals| ==> log.meals[k].description != "")
    && (forall k :: 0 <= k < |log.workouts| ==> log.workouts[k].description != "")
  }

  /**
   * Because the handlers never store an empty description, the summary
   * request of any reachable log names every meal and every workout.
   */
  lemma SummaryNamesEveryRecord(log: DailyLog)
    requires LogInvariant(log)
    ensures forall k :: 0 <= k < |log.meals| ==> OccursIn(log.meals[k].description, SummaryInputsOf(log).mealNames)
    ensures forall k :: 0 <= k < |log.workouts| ==> OccursIn(log.workouts[k].description, SummaryInputsOf(log).workoutNames)
  {
    MealNamesCases(log);
    WorkoutNamesCases(log);
  }

  /** The `App` component's state cells and handlers. */
  class AppState {
    var log: DailyLog
    var mealLoading: bool
    var workoutLoading: bool
    var summaryLoading: bool
    var aiSummary: Option<string>

    ghost predicate Valid()
      reads this
    {
      LogInvariant(log)
    }

    /** The `useState` initial values; `date` stands for `new Date()`. */
    constructor (date: nat)
      ensures Valid()
      ensures log == InitialLog(date)
      ensures !mealLoading && !workoutLoading && !summaryLoading && aiSummary == None
    {
      log := InitialLog(date);
      mealLoading, workoutLoading, summaryLoading := false, false, false;
      aiSummary := None;
    }

    /**
     * `handleAddMeal`: an empty description is refused with a warning before
     * any analysis; otherwise the meal flag is raised, the analysis runs, a
     * successful result is appended as a new meal with `id` (the
     * `Date.now()` of the source), and the flag is lowered whatever happened.
     */
    method HandleAddMeal(description: string, analyzeMeal: string -> Analysis<Nutrients>, id: int)
      returns (notice: Notice)
      requires Valid()
      modifies this
      ensures Valid()
      ensures description == "" ==> notice == Warn && log == old(log) && mealLoading == old(mealLoading)
      ensures description != "" ==> !mealLoading
      ensures description != "" && analyzeMeal(description).Analysed? ==>
        notice == Success && log == WithMeal(old(log), MealOf(id, description, analyzeMeal(description).value))
      ensures description != "" && analyzeMeal(description).AnalysisFailed? ==>
        notice == Error && log == old(log)
      ensures workoutLoading == old(workoutLoading) && summaryLoading == old(summaryLoading)
      ensures aiSummary == old(aiSummary)
    {
      if description == "" {
        return Warn;
      }
      mealLoading := true;
      var outcome := analyzeMeal(description);
      match outcome {
        case Analysed(nutrients) =>
          var newMeal := MealOf(id, description, nutrients);
          log := WithMeal(log, newMeal);
          notice := Success;
        case AnalysisFailed =>
          notice := Error;
      }
      mealLoading := false;
    }

    /** `handleAddWorkout`: the same steps as `handleAddMeal`, for a workout. */
    method HandleAddWorkout(description: string, analyzeWorkout: string -> Analysis<WorkoutData>, id: int)
      returns (notice: Notice)
      requires Valid()
      modifies this
      ensures Valid()
      ensures description == "" ==> notice == Warn && log == old(log) && workoutLoading == old(workoutLoading)
      ensures description != "" ==> !workoutLoading
      ensures description != "" && analyzeWorkout(description).Analysed? ==>
        notice == Success && log == WithWorkout(old(log), WorkoutOf(id, description, analyzeWorkout(description).value))
      ensures description != "" && analyzeWorkout(description).AnalysisFailed? ==>
        notice == Error && log == old(log)
      ensures mealLoading == old(mealLoading) && summaryLoading == old(summaryLoading)
      ensures aiSummary == old(aiSummary)
    {
      if description == "" {
        return Warn;
      }
      workoutLoading := true;
      var outcome := analyzeWorkout(description);
      match outcome {
        case Analysed(data) =>
          var newWorkout := WorkoutOf(id, description, data);
          log := WithWorkout(log, newWorkout);
          notice := Success;
        case AnalysisFailed =>
          notice := Error;
      }
      workoutLoading := false;
    }

    /**
     * `handleGenerateSummary`: raises the summary flag, clears the previous
     * summary, asks the service for a new one from the current log and keeps
     * it only on success; the flag is lowered whatever happened.
     */
    method HandleGenerateSummary(generate: SummaryInputs -> Analysis<string>) returns (notice: Notice)
      requires Valid()
      modifies this
      ensures Valid()
      ensures log == old(log)
      ensures !summaryLoading
      ensures generate(SummaryInputsOf(old(log))).Analysed? ==>
        notice == Info && aiSummary == Some(generate(SummaryInputsOf(old(log))).value)
      ensures generate(SummaryInputsOf(old(log))).AnalysisFailed? ==>
        notice == Error && aiSummary == None
      ensures mealLoading == old(mealLoading) && workoutLoading == old(workoutLoading)
    {
      summaryLoading := true;
      aiSummary := None;
      var outcome := generate(SummaryInputsOf(log));
      match outcome {
        case Analysed(summary) =>
          aiSummary := Some(summary);
          notice := Info;
        case AnalysisFailed =>
          notice := Error;
      }
      summaryLoading := false;
    }

    /** `handleWaterChange`: the intake moves by `amount` but never below zero. */
    method HandleWaterChange(amount: real)
      requires Valid()
      modifies this`log
      ensures Valid()
      ensures log == WithWaterChange(old(log), amount)
    {
      log := WithWaterChange(log, amount);
    }

    /** `handleSleepChange`: the hours move by `amount` but never below zero. */
    method HandleSleepChange(amount: real)
      requires Valid()
      modifies this`log
      ensures Valid()
      ensures log == WithSleepChange(old(log), amount)
    {
      log := WithSleepChange(log, amount);
    }

    /** `handleWeightChange`: the current weight is replaced, whatever the value. */
    method HandleWeightChange(newWeight: real)
      requires Valid()
      modifies this`log
      ensures Valid()
      ensures log == WithWeight(old(log), newWeight)
    {
      log := WithWeight(log, newWeight);
    }
  }
}
