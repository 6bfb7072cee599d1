/**
 * The records of one tracked day. Every quantity is a JavaScript `number`,
 * modelled as a mathematical real; identifiers are the integers `Date.now()`
 * supplied, and the day's date is an opaque timestamp.
 */
module Types {

  /** The four values the meal analyser estimates. */
  datatype Nutrients = Nutrients(calories: real, protein: real, carbs: real, fat: real)

  /** A logged meal: an identifier, the user's text and the estimated nutrients. */
  datatype Meal = Meal(id: int, description: string, calories: real, protein: real, carbs: real, fat: real)

  /** What the workout analyser estimates. */
  datatype WorkoutData = WorkoutData(duration: real, caloriesBurned: real)

  /** A logged workout; `duration` is in minutes. */
  datatype Workout = Workout(id: int, description: string, duration: real, caloriesBurned: real)

  /**
   * The whole day: meals and workouts oldest first, water in glasses, sleep in
   * hours, weights in kilograms and the user's goal as free text.
   */
  datatype DailyLog = DailyLog(
    date: nat,
    meals: seq<Meal>,
    workouts: seq<Workout>,
    waterIntake: real,
    sleepHours: real,
    baseWeight: real,
    currentWeight: real,
    goal: string)

  /** `{ id, description, ...nutrients }`: a meal built from an analysis. */
  function MealOf(id: int, description: string, n: Nutrients): (m: Meal)
    ensures m.id == id && m.description == description
    ensures Nutrients(m.calories, m.protein, m.carbs, m.fat) == n
  {
    Meal(id, description, n.calories, n.protein, n.carbs, n.fat)
  }

  /** `{ id, description, ...workoutData }`: a workout built from an analysis. */
  function WorkoutOf(id: int, description: string, w: WorkoutData): (r: Workout)
    ensures r.id == id && r.description == description
    ensures WorkoutData(r.duration, r.caloriesBurned) == w
  {
    Workout(id, description, w.duration, w.caloriesBurned)
  }

  // The per-record values the totals add up, as the `reduce` callbacks read them.
  function MealCalories(m: Meal): real { m.calories }
  function MealProtein(m: Meal): real { m.protein }
  function MealCarbs(m: Meal): real { m.carbs }
  function MealFat(m: Meal): real { m.fat }
  function WorkoutCaloriesBurned(w: Workout): real { w.caloriesBurned }
}
