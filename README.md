# AuraFit core in Dafny

AuraFit is a one-page fitness tracker. The user logs meals and workouts in
free text. An AI service estimates their nutrients and burned calories. The
page keeps one day's log, shows totals and three daily goals ("quests"), and
asks the service for a written daily summary.

This project models the parts of that program that hold logic, and proves
properties of them:

- `types.dfy` (module `Types`): the records of one day (meals, workouts, the
  daily log).
- `reduce.dfy` (module `Reduce`): `Array.reduce` with `+` as a left fold,
  proved equal to a plain recursive sum that ignores order.
- `js_string.dfy` (module `JsString`): the JavaScript string built-ins the
  code relies on (`trim`, `startsWith`, `endsWith`, `includes`,
  `toLowerCase`, `join`).
- `app.dfy` (module `App`): the top-level component's state, as a class
  `AppState`. It holds the log, the three loading flags and the summary. Its
  handlers replace the log with snapshots built by pure update functions. The
  `totals` memo is a pure function.
- `gemini_service.dfy` (module `GeminiService`): `cleanJsonString` as an
  imperative method proved against a functional definition, how a cleaned
  response becomes a parse result, and the figures `getDailySummary` writes
  into its prompt.
- `dashboard.dfy` (module `Dashboard`): net calories, the nutrient bars, the
  calorie, protein and water goals, and the deltas the water and sleep
  buttons send.
- `goal_progress.dfy` (module `GoalProgress`): the clamped progress
  percentage, and the one-shot celebration flag as a class `ConfettiTrigger`
  stepped on each new percentage.

Modelling choices:

- Quantities are mathematical reals, not IEEE doubles.
- `Math.round(x)` is `Floor(x + 0.5)`.
- `Date.now()` ids and the `new Date()` of the log are parameters.
- The AI analysers are function parameters returning `Analysed(value)` or
  `AnalysisFailed`. `JSON.parse` is a function parameter returning an
  `Option`.
- Each asynchronous handler is one atomic step. The step raises its loading
  flag, calls the analyser, applies the outcome and lowers the flag.
- Toasts are the `Notice` value a handler returns.

## Model

| member | source | states |
|---|---|---|
| Reduce.FoldSum | App.tsx:85-89 | a left fold from an accumulator equals the accumulator plus the plain recursive sum of the elements |
| Reduce.ReduceSum | App.tsx:85-89 | `reduce((sum, x) => sum + f(x), 0)` equals the plain recursive sum |
| Reduce.SumConcat | App.tsx:85-89 | the sum over a concatenation is the sum of the two sums |
| Reduce.ReduceSnoc | App.tsx:85-89 | appending one element raises the fold by exactly that element's value |
| Reduce.SumRemoveAt | App.tsx:85-89 | taking one element out of a sum leaves its value plus the sum of the rest |
| Reduce.MultisetRemoveAt | App.tsx:85-89 | removing one element from two equal multisets leaves equal multisets |
| Reduce.SumPermutation | App.tsx:85-89 | the sum is the same for any reordering of the elements |
| Reduce.ReducePermutation | App.tsx:85-89 | the fold is the same for any reordering of the elements |
| Reduce.SumNonNegative | App.tsx:85-89 | a sum of non-negative values is non-negative |
| Types.MealOf | App.tsx:39 | the meal carries the given id and description and exactly the analysed nutrients |
| Types.WorkoutOf | App.tsx:58 | the workout carries the given id and description and exactly the analysed duration and calories burned |
| JsString.IsWhitespace | services/geminiService.ts:36 | no digit, ASCII letter, backtick, bracket, brace, double quote or minus sign counts as whitespace, so `trim` never eats into a fence or the first or last character of a JSON value |
| JsString.SkipWhitespace | services/geminiService.ts:36 | the first index at or after `i` that holds no whitespace; everything skipped is whitespace |
| JsString.SkipWhitespaceBack | services/geminiService.ts:46 | one past the last index before `j` that holds no whitespace; everything skipped is whitespace |
| JsString.TrimEndIndex | services/geminiService.ts:36 | the end of `trim`'s result is not before its start |
| JsString.Trim | services/geminiService.ts:36 | `trim`'s result has no whitespace at either end and is never longer than its argument |
| JsString.TrimRemovesOnlyWhitespace | services/geminiService.ts:36 | everything `trim` drops before and after its result is whitespace |
| JsString.TrimIsPiece | services/geminiService.ts:36 | `trim`'s result is the piece of its argument starting at the first non-whitespace index |
| JsString.TrimWithin | services/geminiService.ts:46 | trimming a piece of a string gives a piece of that string at the shifted offsets |
| JsString.TrimOfTrimmed | services/geminiService.ts:46 | trimming a string with no whitespace at its ends leaves it unchanged |
| JsString.TrimIdempotent | services/geminiService.ts:36-46 | trimming twice is trimming once |
| JsString.StartsWith | services/geminiService.ts:37 | `s.startsWith(p)` holds exactly when `s` is `p` followed by the rest of `s` |
| JsString.EndsWith | services/geminiService.ts:43 | `s.endsWith(p)` holds exactly when `s` is the rest of `s` followed by `p` |
| JsString.Includes | components/Dashboard.tsx:56 | an included string is no longer than the text, and a prefix of the text is always included |
| JsString.IncludesIffOccurs | components/Dashboard.tsx:56 | the left-to-right `includes` scan is true exactly when the substring occurs at some index |
| JsString.LowerChar | components/Dashboard.tsx:56 | an ASCII capital maps to its lower-case letter; every other character is left alone |
| JsString.ToLower | components/Dashboard.tsx:56 | the model's `toLowerCase` has the length of its argument and holds the model lowering of each character at the same index |
| JsString.Join | services/geminiService.ts:93-94 | no parts join to ""; a single part joins to itself; otherwise the join opens with the first part |
| JsString.JoinSnoc | services/geminiService.ts:93-94 | joining one more part to at least one part appends the separator and that part |
| JsString.JoinEmpty | services/geminiService.ts:93-94 | with a non-empty separator, a join is empty exactly for no parts or a single empty part |
| JsString.JoinContainsParts | services/geminiService.ts:93-94 | every part occurs in the joined string |
| App.ComputeTotals | App.tsx:84-92 | calories, protein, carbs and fat are the exact sums over the meals; calories burned is the exact sum over the workouts |
| App.TotalsAfterMeal | App.tsx:85-88 | appending a meal raises every nutrient total by exactly that meal's value and leaves calories burned unchanged |
| App.TotalsAfterWorkout | App.tsx:85-89 | appending a workout raises calories burned by exactly its value and leaves the nutrient totals unchanged |
| App.TotalsOrderIndependent | App.tsx:85-89 | the totals depend only on the multisets of meals and workouts, not on the order they were logged in |
| App.TotalsNonNegative | App.tsx:85-89 | records without negative values give totals without negative values |
| App.Max | App.tsx:95 | `Math.max` is at least both arguments and equal to one of them |
| App.WithWaterChange | App.tsx:94-96 | the new intake is never negative; it is either 0 or the old intake plus the delta; no other field changes |
| App.WithSleepChange | App.tsx:98-100 | the new sleep hours are never negative; they are either 0 or the old hours plus the delta; no other field changes |
| App.WithWeight | App.tsx:102-104 | the current weight becomes the given value, unchecked; no other field changes |
| App.WithMeal | App.tsx:40 | exactly one meal is appended at the end, earlier meals are kept, and no other field changes |
| App.WithWorkout | App.tsx:59 | exactly one workout is appended at the end, earlier workouts are kept, and no other field changes |
| App.WaterNeverNegative | App.tsx:95 | from any non-negative intake, a delta at or below minus the intake gives exactly 0, and any other delta adds up exactly |
| App.InitialLog | App.tsx:8-17 | the log starts with the given date, no meals or workouts, no water, 7.5 h sleep, both weights 70 kg, and satisfies the log invariant |
| App.SummaryNamesEveryRecord | App.tsx:31-35 | in any log the handlers can reach, the summary request names every meal and every workout |
| App.AppState.constructor | App.tsx:8-25 | the initial log (no records, no water, 7.5 h sleep, 70 kg, the default goal), all flags lowered and no summary |
| App.AppState.HandleAddMeal | App.tsx:31-48 | an empty description warns and changes neither the log nor the flag; otherwise the flag ends lowered; success appends the analysed meal and reports success; failure leaves the log exactly as it was and reports an error; the other flags and the summary are untouched |
| App.AppState.HandleAddWorkout | App.tsx:50-67 | the same as for meals, with workouts |
| App.AppState.HandleGenerateSummary | App.tsx:69-82 | the log is untouched and the flag ends lowered; success stores the summary of the current log; failure leaves the summary cleared |
| App.AppState.HandleWaterChange | App.tsx:94-96 | the log becomes the water-adjusted snapshot and the invariant is kept |
| App.AppState.HandleSleepChange | App.tsx:98-100 | the log becomes the sleep-adjusted snapshot and the invariant is kept |
| App.AppState.HandleWeightChange | App.tsx:102-104 | the log becomes the snapshot with the new weight and the invariant is kept |
| GeminiService.StripPrefix | services/geminiService.ts:37-42 | a string with the prefix is the prefix followed by the result; a string without it is returned unchanged |
| GeminiService.StripSuffix | services/geminiService.ts:43-45 | a string with the suffix is the result followed by the suffix; a string without it is returned unchanged |
| GeminiService.StripPrefixIsTail | services/geminiService.ts:37-42 | stripping a prefix leaves a tail of the string |
| GeminiService.StripSuffixIsHead | services/geminiService.ts:43-45 | stripping a suffix leaves a head of the string |
| GeminiService.Unfenced | services/geminiService.ts:37-45 | the fence checks never lengthen the string, and a string with no fence at either end is returned unchanged |
| GeminiService.Cleaned | services/geminiService.ts:35-47 | the cleaned text has no whitespace at either end and is never longer than the input |
| GeminiService.UnfencedIsSlice | services/geminiService.ts:37-45 | stripping the fences leaves a contiguous piece of the string, at the returned bounds; at most ten characters (the two openings) go from the front and at most three (one closing fence) from the back, for every input |
| GeminiService.UnfencedPiece | services/geminiService.ts:37-45 | stripping the fences from a piece of a string leaves a piece of that string |
| GeminiService.UnfencedTrimIsSlice | services/geminiService.ts:36-45 | trimming and then stripping the fences leaves a contiguous piece of the input |
| GeminiService.CleanedIsSlice | services/geminiService.ts:35-47 | the cleaned string is a contiguous piece of the input |
| GeminiService.CleanJsonString | services/geminiService.ts:35-47 | the result is the functional cleaning of the input; it has no whitespace at either end; it is a contiguous piece of the input and never longer than it |
| GeminiService.JsonFenceStartsWithFence | services/geminiService.ts:37-42 | a string that opens with "```json" also opens with "```" |
| GeminiService.CleanedUnfenced | services/geminiService.ts:35-47 | with no fence at either end of the trimmed input, cleaning is just trimming |
| GeminiService.CleanedJsonBlock | services/geminiService.ts:30-47 | "```json" + body + "```" cleans to the trimmed body |
| GeminiService.StripPrefixConcat | services/geminiService.ts:37-42 | a string that opens with the prefix loses exactly the prefix |
| GeminiService.StripSuffixConcat | services/geminiService.ts:43-45 | a string that ends with the suffix loses exactly the suffix |
| GeminiService.BacktickEndsTrimmed | services/geminiService.ts:36 | a string that opens and closes with a backtick is left alone by `trim` |
| GeminiService.ShortBacktickBody | services/geminiService.ts:40-42 | a body that opens with a fence only once a fence is appended has fewer than three characters, and the second prefix check gives it back unchanged |
| GeminiService.CleanedStripsBothOpenings | services/geminiService.ts:37-42 | the two prefix checks run one after the other: "```json" + "```" + body + "```" cleans to the trimmed body, whatever the body |
| GeminiService.CleanedStripsBothOpeningsExample | services/geminiService.ts:37-42 | "```json```{}```" cleans to "{}" |
| GeminiService.ElseIfWouldKeepFence | services/geminiService.ts:37-45 | with only the "```json" check and the closing check, the same response would clean to "```{}" |
| GeminiService.CleanedStripsOneClosing | services/geminiService.ts:43-45 | for a non-empty body that does not open with a backtick or whitespace, the body followed by two fences cleans to the body and one fence |
| GeminiService.CleanedTwoFencesAlone | services/geminiService.ts:40-45 | two fences with nothing between them clean to "": the first is stripped as an opening, the second as the closing |
| GeminiService.CleanedStripsOneClosingExample | services/geminiService.ts:43-45 | "{}``````" cleans to "{}```" |
| GeminiService.ParseResponse | services/geminiService.ts:60-66 | the analysis succeeds exactly when the cleaned text parses, and then carries the parsed value (the same code serves workouts at lines 79-85) |
| GeminiService.FencedResponseParsesLikeBare | services/geminiService.ts:60-66 | a trimmed unfenced body wrapped in a "```json" block parses exactly like the bare body |
| GeminiService.NamesOrNone | services/geminiService.ts:93-94 | the name list is never the empty string |
| GeminiService.NamesOrNoneCases | services/geminiService.ts:93-94 | with non-empty entries: no entries give "None"; otherwise the list is the entries joined with ", ", and every entry occurs in it |
| GeminiService.MapSeq | services/geminiService.ts:93-94 | `map` keeps the length and maps each element in place |
| GeminiService.SummaryInputsOf | services/geminiService.ts:88-109 | calories in and out and protein are the exact sums; net is in minus out; the name lists are the descriptions joined or "None"; the goal, weights, water and sleep are copied from the log |
| GeminiService.MealNamesCases | services/geminiService.ts:93 | a day with no meals lists "None"; otherwise every meal's non-empty description occurs in the list |
| GeminiService.WorkoutNamesCases | services/geminiService.ts:94 | a day with no workouts lists "None"; otherwise every workout's non-empty description occurs in the list |
| Dashboard.NetCalories | components/Dashboard.tsx:48 | net calories plus calories burned give calories eaten; net is positive exactly when more was eaten than burned |
| Dashboard.NetOfLog | components/Dashboard.tsx:48 | net calories are the meal calories less the workout calories, the same figure the summary request sends |
| Dashboard.NetAfterRecords | components/Dashboard.tsx:48 | a new meal raises net calories by its calories; a new workout lowers them by what it burned |
| Dashboard.NutrientData | components/Dashboard.tsx:49-53 | three bars, named Protein, Carbs and Fat in that order, carrying the protein, carbs and fat totals |
| Dashboard.NutrientBarsOfMeals | components/Dashboard.tsx:49-53 | there are three bars, Protein, Carbs and Fat in that order, carrying the sums of those fields over the meals |
| Dashboard.WantsGain | components/Dashboard.tsx:56 | the goal asks for gain exactly when "gain" occurs somewhere in the lower-cased goal text |
| Dashboard.CalorieGoal | components/Dashboard.tsx:56 | the goal is 2500 exactly when "gain" occurs in the lower-cased goal text, and 2000 otherwise |
| Dashboard.ToLowerIdempotent | components/Dashboard.tsx:56 | lower-casing twice is lower-casing once |
| Dashboard.CalorieGoalIgnoresCase | components/Dashboard.tsx:56 | texts that agree after lower-casing get the same calorie goal |
| Dashboard.CalorieGoalOfLowered | components/Dashboard.tsx:56 | a text and its lower-cased form get the same calorie goal |
| Dashboard.OccursLowered | components/Dashboard.tsx:56 | an occurrence of a substring survives lower-casing both strings |
| Dashboard.CalorieGoalOfMention | components/Dashboard.tsx:56 | any text containing "gain" gets 2500 |
| Dashboard.CalorieGoalUpperCase | components/Dashboard.tsx:56 | "GAIN" gets 2500 |
| Dashboard.CalorieGoalSubstring | components/Dashboard.tsx:56 | "again" gets 2500 |
| Dashboard.CalorieGoalOfInitialLog | components/Dashboard.tsx:56 | the default goal text gets 2500 |
| Dashboard.CalorieGoalWithoutMention | components/Dashboard.tsx:56 | a text with no 'g' or 'G' where "gain" could start gets 2000 |
| Dashboard.CalorieGoalLoseWeight | components/Dashboard.tsx:56 | "Lose weight" gets 2000 |
| Dashboard.Round | components/Dashboard.tsx:57 | `Math.round(x)` lies in (x − 0.5, x + 0.5] |
| Dashboard.RoundUnique | components/Dashboard.tsx:57 | the only integer in (x − 0.5, x + 0.5] is `Math.round(x)` |
| Dashboard.ProteinGoal | components/Dashboard.tsx:57 | the protein goal is within half a gram of 1.6 g per kilogram of base weight, halves rounding up |
| Dashboard.ProteinGoalOf70 | components/Dashboard.tsx:57 | a base weight of 70 kg gives 112 g |
| Dashboard.DailyGoals | components/Dashboard.tsx:56-58 | the calorie goal is 2500 exactly for a "gain" goal and 2000 otherwise; the protein goal rounds 1.6 × base weight; the water goal is 8 |
| Dashboard.WaterQuestCompletedIff | components/Dashboard.tsx:68 | the water bar reads completed exactly from 8 glasses on |
| Dashboard.ProteinQuestScenario | components/Dashboard.tsx:67 | meals of 500 kcal / 40 g and 300 kcal / 20 g give 800 kcal and 60 g; against 70 kg the protein bar stands at 60/112 of its goal, not completed |
| Dashboard.Press | components/Dashboard.tsx:139-149 | a click changes only water or only sleep: the water buttons add one glass or take one away down to 0, the sleep buttons add or take half an hour down to 0 |
| Dashboard.PressAll | components/Dashboard.tsx:139-149 | any run of clicks changes water and sleep and nothing else; water-only clicks leave sleep as it was, sleep-only clicks leave water as it was |
| Dashboard.WholeStep | components/Dashboard.tsx:139-141 | a non-negative whole number moved by ±1 and floored at 0 stays a non-negative whole number |
| Dashboard.HalfStep | components/Dashboard.tsx:147-149 | a non-negative number of half hours moved by ±0.5 and floored at 0 stays one |
| Dashboard.PressKeepsSteps | components/Dashboard.tsx:139-149 | one click of a tracker button keeps water whole and non-negative, and sleep a non-negative number of half hours |
| Dashboard.ControlsKeepSteps | components/Dashboard.tsx:139-149 | any run of clicks keeps water whole and non-negative, and sleep a non-negative number of half hours |
| Dashboard.ControlsFromInitialLog | components/Dashboard.tsx:139-149 | from the initial log, water stays a non-negative whole number of glasses and sleep a non-negative number of half hours |
| GoalProgress.Min | components/GoalProgress.tsx:13 | `Math.min` is at most both arguments and equal to one of them |
| GoalProgress.Percentage | components/GoalProgress.tsx:13 | 0 for a goal that is not positive; otherwise at most 100, at most the raw ratio, and either 100 or the raw ratio; in [0, 100] for a non-negative current value |
| GoalProgress.RatioAtLeastOne | components/GoalProgress.tsx:13 | for a positive goal, the raw percentage reaches 100 exactly when the current value reaches the goal |
| GoalProgress.CompletedIff | components/GoalProgress.tsx:13-17 | the bar reads completed exactly when the goal is positive and the current value has reached it |
| GoalProgress.Step | components/GoalProgress.tsx:16-32 | the celebration fires exactly when the percentage is at least 100 and the flag was down; afterwards the flag is up exactly when the percentage is at least 100 |
| GoalProgress.ConfettiTrigger.constructor | components/GoalProgress.tsx:14 | the flag starts down |
| GoalProgress.ConfettiTrigger.OnPercentage | components/GoalProgress.tsx:16-32 | the event and the new flag are exactly those of `Step` from the old flag |
| GoalProgress.FlagAfterIsLastCompleted | components/GoalProgress.tsx:17-31 | after any non-empty run of percentages the flag is up exactly when the last one was at least 100 |
| GoalProgress.FiresSnoc | components/GoalProgress.tsx:16-32 | one more percentage adds exactly its own celebration to the count |
| GoalProgress.FiresCountsEntries | components/GoalProgress.tsx:14-32 | from a fresh flag, the number of celebrations equals the number of entries into the completed region |
| GoalProgress.RepeatedValueIsQuiet | components/GoalProgress.tsx:19 | the same percentage twice in a row never fires the second time and leaves the flag as it was |
| GoalProgress.TwoCelebrations | components/GoalProgress.tsx:14-32 | 50, 90, 100, 80, 100 fires twice, and so does 50, 90, 100, 100, 80, 100 |
| GoalProgress.FirstValueCompleted | components/GoalProgress.tsx:14-20 | a fresh trigger whose first percentage is already 100 or more fires at once |

## Left out

- The Gemini network calls, the response schemas, the prompt text and the
  system instruction (services/geminiService.ts:8-28, 50-59, 69-78, 96-134).
  The analysers and the summary generator are function parameters.
- `JSON.parse` is a function parameter returning `None` on failure. Its
  grammar is not modelled.
- The module-load `API_KEY` check (services/geminiService.ts:4-6). It is
  start-up configuration, not logic.
- `console.error` and the toasts. A handler returns which kind of toast it
  raises as a `Notice`; the message texts are left out.
- Rendering: Card.tsx, LoggerForm.tsx, the JSX and the chart components of
  Dashboard.tsx, the colour choice for net calories and the markdown-heading
  regex (components/Dashboard.tsx:76).
- hooks/useCountUp.ts and hooks/usePrevious.ts. They drive an animation off
  `requestAnimationFrame` and floating-point easing.
- The confetti call itself (components/GoalProgress.tsx:21-27). Only the
  "fired" event is recorded.
- Interleaving of overlapping asynchronous requests. Each handler is one
  atomic step, so the loading flags are not modelled as a guard. The summary
  is generated from the log as it is when the handler starts.
- `Date.now()` and `new Date()`: ids and the date are parameters. Nothing
  claims the ids are unique.
- IEEE doubles: the model uses reals and has no NaN or infinities. It leaves
  out `parseFloat` of the weight field (components/Dashboard.tsx:159),
  `toFixed` in the prompt and in the sleep display, and rounding errors in
  the sums.
- JsString.LowerChar: lower-cases the ASCII letters only and leaves every
  other character unchanged, while JavaScript's `toLowerCase` applies the
  full Unicode case mapping. `Dashboard.CalorieGoal` still agrees with
  JavaScript on every text, for this reason: apart from the
  ASCII capitals, only two characters lower-case to ASCII letters. The
  Kelvin sign U+212A gives 'k', which is not in "gain". U+0130 gives 'i'
  followed by U+0307, so that 'i' is never followed by 'n'. Every occurrence
  of "gain" in JavaScript's result therefore comes from four adjacent source
  characters that are ASCII, and the model lowers those in the same way and
  never lowers a non-ASCII character to an ASCII one. The
  model's `ToLower` keeps the length, which JavaScript's does not for U+0130.
- GeminiService.CleanedJsonBlock: requires a body that does not itself open
  with "```". For such a body the second prefix check would strip that fence
  too, as GeminiService.CleanedStripsBothOpenings shows.
  GeminiService.ShortBacktickBody covers the bodies shorter than a fence.
- GeminiService.CleanedStripsOneClosing: requires a non-empty body that does
  not open with a backtick or whitespace. Other bodies are not covered: for
  the empty body the first fence is taken as an opening, and `Cleaned` of
  six backticks is "", as GeminiService.CleanedTwoFencesAlone shows. The
  bound that holds for every input, at most one closing fence removed, is the `|t| - 3 <= hi` clause of
  GeminiService.UnfencedIsSlice.
- App.AppState.HandleAddMeal: the numbers the analyser returns are not
  checked for being non-negative, because the source does not check them
  either. App.TotalsNonNegative assumes non-negative records.
- Types.MealOf: assumes the analyser returns exactly the four numeric
  fields. In the source the parsed JSON is cast `as Nutrients` without a check
  (services/geminiService.ts:62, 81). The spread `{ id, description,
  ...nutrients }` (App.tsx:39, 58) comes last, so a parsed `id` or
  `description` key would override the given ones. A missing field or one
  that holds a string would make the `reduce` totals NaN or a concatenated
  string. Types.WorkoutOf assumes the same of the workout analysis.
- App.AppState.HandleAddMeal: the guard rejects only the empty string, as the
  source does. A description of spaces alone passes it and is sent to the
  analyser.
- The progress bar's width from the percentage and its label text are
  rendering.
- The progress value in the code is a percentage: at most 100; in [0, 100]
  when the current value is non-negative; the code does not clamp below 0,
  so a negative total gives a negative value. The completed test is
  `>= 100`. The model follows the code, not a fraction in [0, 1].
