/**
 * The part of the generative-AI service wrapper that is the application's own
 * logic: cleaning a model response of markdown code fences before it is
 * parsed, and deriving the numbers and name lists the daily summary is built
 * from. The network calls themselves are abstract: an analysis either
 * succeeds with a value or fails.
 */
module GeminiService {
  import opened JsString
  import opened Reduce
  import opened Types

  /** The outcome of an external analysis: a parsed value, or a thrown error. */
  datatype Analysis<T> = Analysed(value: T) | AnalysisFailed

  /** What `JSON.parse` produces: a value, or nothing when it throws. */
  datatype Option<T> = None | Some(value: T)

  /** The opening fence of a JSON code block. */
  const JsonFence: string := "```json"

  /** A bare code fence. */
  const Fence: string := "```"

  /** `s.substring(|p|)` when `s.startsWith(p)`, otherwise `s`. */
  function StripPrefix(s: string, p: string): (r: string)
    ensures StartsWith(s, p) ==> s == p + r
    ensures !StartsWith(s, p) ==> r == s
  {
    if StartsWith(s, p) then s[|p|..] else s
  }

  /** `s.slice(0, -|p|)` when `s.endsWith(p)`, otherwise `s`. */
  function StripSuffix(s: string, p: string): (r: string)
    ensures EndsWith(s, p) ==> s == r + p
    ensures !EndsWith(s, p) ==> r == s
  {
    if EndsWith(s, p) then s[..|s| - |p|] else s
  }

  /** The three fence checks of `cleanJsonString`, in order, on an already trimmed string. */
  function Unfenced(t: string): (r: string)
    ensures |r| <= |t|
    ensures !StartsWith(t, Fence) && !EndsWith(t, Fence) ==> r == t
  {
    assert StartsWith(t, JsonFence) ==> t[..|Fence|] == t[..|JsonFence|][..|Fence|];
    StripSuffix(StripPrefix(StripPrefix(t, JsonFence), Fence), Fence)
  }

  /** What `cleanJsonString` returns: trim, drop the fences, trim again. */
  function Cleaned(s: string): (r: string)
    ensures IsTrimmed(r) && |r| <= |s|
  {
    Trim(Unfenced(Trim(s)))
  }

  /** Stripping a prefix leaves a tail of the string. */
  lemma StripPrefixIsTail(s: string, p: string) returns (k: nat)
    ensures k <= |s| && StripPrefix(s, p) == s[k..]
  {
    k := if StartsWith(s, p) then |p| else 0;
  }

  /** Stripping a suffix leaves a head of the string. */
  lemma StripSuffixIsHead(s: string, p: string) returns (k: nat)
    ensures k <= |s| && StripSuffix(s, p) == s[..k]
  {
    k := if EndsWith(s, p) then |s| - |p| else |s|;
  }

  /**
   * The fence checks only cut characters off the two ends: at most the two
   * openings from the front and at most one closing fence from the back.
   */
  lemma UnfencedIsSlice(t: string) returns (lo: nat, hi: nat)
    ensures lo <= hi <= |t| && Unfenced(t) == t[lo..hi]
    ensures lo <= |JsonFence| + |Fence| && |t| - |Fence| <= hi
  {
    var t1 := StripPrefix(t, JsonFence);
    var k1 := StripPrefixIsTail(t, JsonFence);
    var t2 := StripPrefix(t1, Fence);
    var k2 := StripPrefixIsTail(t1, Fence);
    var k3 := StripSuffixIsHead(t2, Fence);
    SliceOfSlice(t, k1, |t|, k2, |t| - k1);
    assert t2 == t[k1 + k2..|t|];
    SliceOfSlice(t, k1 + k2, |t|, 0, k3);
    lo, hi := k1 + k2, k1 + k2 + k3;
  }

  /** Dropping the fences from a piece of `s` leaves a piece of `s`. */
  lemma UnfencedPiece(s: string, t: string, i: nat) returns (a: nat)
    requires i + |t| <= |s| && t == s[i..i + |t|]
    ensures a + |Unfenced(t)| <= |s|
    ensures Unfenced(t) == s[a..a + |Unfenced(t)|]
  {
    var lo, hi := UnfencedIsSlice(t);
    SliceWithin(s, t, Unfenced(t), i, lo, hi);
    a := i + lo;
  }

  /** What is left after the fence checks is a piece of the raw response. */
  lemma UnfencedTrimIsSlice(s: string) returns (a: nat)
    ensures a + |Unfenced(Trim(s))| <= |s|
    ensures Unfenced(Trim(s)) == s[a..a + |Unfenced(Trim(s))|]
  {
    TrimIsPiece(s);
    a := UnfencedPiece(s, Trim(s), TrimStartIndex(s));
  }

  /** The cleaned string is a contiguous piece of the raw response. */
  lemma CleanedIsSlice(s: string)
    ensures IsSlice(Cleaned(s), s)
  {
    var u := Unfenced(Trim(s));
    var a := UnfencedTrimIsSlice(s);
    TrimWithin(s, u, a);
    assert Cleaned(s) == s[a + TrimStartIndex(u)..a + TrimEndIndex(u)];
  }

  /**
   * `cleanJsonString`: trims the raw response, drops an optional "```json"
   * opening, then an optional "```" opening, then an optional "```" closing,
   * and trims again. The result is a trimmed piece of the input.
   */
  method CleanJsonString(jsonString: string) returns (cleanedString: string)
    ensures cleanedString == Cleaned(jsonString)
    ensures IsTrimmed(cleanedString)
    ensures IsSlice(cleanedString, jsonString)
    ensures |cleanedString| <= |jsonString|
  {
    cleanedString := Trim(jsonString);
    if StartsWith(cleanedString, JsonFence) {
      cleanedString := cleanedString[7..];
    }
    if StartsWith(cleanedString, Fence) {
      cleanedString := cleanedString[3..];
    }
    if EndsWith(cleanedString, Fence) {
      cleanedString := cleanedString[..|cleanedString| - 3];
    }
    cleanedString := Trim(cleanedString);
    CleanedIsSlice(jsonString);
  }

  /** A string that opens with "```json" also opens with "```". */
  lemma JsonFenceStartsWithFence(s: string)
    requires StartsWith(s, JsonFence)
    ensures StartsWith(s, Fence)
  {
    assert s[..3] == s[..7][..3];
  }

  /** Without a fence at either end of the trimmed response, cleaning is just trimming. */
  lemma CleanedUnfenced(s: string)
    requires !StartsWith(Trim(s), Fence) && !EndsWith(Trim(s), Fence)
    ensures Cleaned(s) == Trim(s)
  {
    if StartsWith(Trim(s), JsonFence) {
      JsonFenceStartsWithFence(Trim(s));
    }
    TrimIdempotent(s);
  }

  /** A string that opens with `p` loses exactly `p`. */
  lemma StripPrefixConcat(p: string, rest: string)
    ensures StripPrefix(p + rest, p) == rest
  {
    assert (p + rest)[..|p|] == p;
    assert (p + rest)[|p|..] == rest;
  }

  /** A string that ends with `p` loses exactly `p`. */
  lemma StripSuffixConcat(rest: string, p: string)
    ensures StripSuffix(rest + p, p) == rest
  {
    assert (rest + p)[|rest|..] == p;
    assert (rest + p)[..|rest|] == rest;
  }

  /** A string opening and closing with a backtick has nothing for `trim` to remove. */
  lemma BacktickEndsTrimmed(x: string)
    requires x != [] && x[0] == '`' && x[|x| - 1] == '`'
    ensures Trim(x) == x
  {
    TrimOfTrimmed(x);
  }

  /**
   * A body that does not open with a fence but does once a fence is appended
   * is made of fewer than three backticks, and the second prefix check gives
   * it back unchanged.
   */
  lemma ShortBacktickBody(body: string)
    requires !StartsWith(body, Fence) && StartsWith(body + Fence, Fence)
    ensures |body| < 3 && StripPrefix(body + Fence, Fence) == body
  {
    var y := body + Fence;
    forall k | 0 <= k < |body| ensures y[3..][k] == body[k] {
      assert y[k] == y[..3][k] == '`';
      assert y[3 + k] == Fence[3 + k - |body|] == '`';
    }
  }

  /**
   * The promise of the doc comment: a response wrapped as "```json" + body + "```"
   * cleans to the trimmed body, provided the body does not itself open with a
   * fence (the second prefix check would remove that one too).
   */
  lemma CleanedJsonBlock(body: string)
    requires !StartsWith(body, Fence)
    ensures Cleaned(JsonFence + body + Fence) == Trim(body)
  {
    var y := body + Fence;
    var x := JsonFence + y;
    assert JsonFence + body + Fence == x;
    assert x[0] == '`' && x[|x| - 1] == y[|y| - 1] == '`';
    BacktickEndsTrimmed(x);
    StripPrefixConcat(JsonFence, y);
    if StartsWith(y, Fence) {
      ShortBacktickBody(body);
    } else {
      StripSuffixConcat(body, Fence);
    }
  }

  /** The two prefix checks run one after the other: "```json```" loses both fences. */
  lemma CleanedStripsBothOpenings(body: string)
    ensures Cleaned(JsonFence + Fence + body + Fence) == Trim(body)
  {
    var z := body + Fence;
    var y := Fence + z;
    var x := JsonFence + y;
    assert JsonFence + Fence + body + Fence == x;
    assert x[0] == '`' && x[|x| - 1] == z[|z| - 1] == '`';
    BacktickEndsTrimmed(x);
    StripPrefixConcat(JsonFence, y);
    StripPrefixConcat(Fence, z);
    StripSuffixConcat(body, Fence);
  }

  /** For example "```json```{}```" cleans to "{}". */
  lemma CleanedStripsBothOpeningsExample()
    ensures Cleaned("```json```{}```") == "{}"
  {
    assert "```json```{}```" == JsonFence + Fence + "{}" + Fence;
    CleanedStripsBothOpenings("{}");
    TrimOfTrimmed("{}");
  }

  /** Had the checks been an else-if, the same response would have kept its second fence. */
  lemma ElseIfWouldKeepFence()
    ensures Trim(StripSuffix(StripPrefix("```json```{}```", JsonFence), Fence)) == "```{}"
  {
    var x := "```json```{}```";
    assert x == JsonFence + ("```{}" + Fence);
    StripPrefixConcat(JsonFence, "```{}" + Fence);
    StripSuffixConcat("```{}", Fence);
    TrimOfTrimmed("```{}");
  }

  /** With an empty body the first of two fences is taken as an opening, and nothing is left. */
  lemma CleanedTwoFencesAlone()
    ensures Cleaned(Fence + Fence) == ""
  {
    var x := Fence + Fence;
    assert x[0] == '`' && x[|x| - 1] == '`';
    TrimOfTrimmed(x);
    assert !StartsWith(x, JsonFence) by { assert x[3] != JsonFence[3]; }
    StripPrefixConcat(Fence, Fence);
    StripSuffixConcat("", Fence);
  }

  /** At most one closing fence is removed: a body ending in one fence keeps it. */
  lemma CleanedStripsOneClosing(body: string)
    requires body != [] && body[0] != '`' && !IsWhitespace(body[0])
    ensures Cleaned(body + Fence + Fence) == body + Fence
  {
    var y := body + Fence;
    var x := y + Fence;
    assert body + Fence + Fence == x;
    assert x[0] == body[0] && x[|x| - 1] == '`';
    TrimOfTrimmed(x);
    assert x[..3][0] != Fence[0];
    assert x[..7][0] != JsonFence[0];
    StripSuffixConcat(y, Fence);
    assert y[0] == body[0] && y[|y| - 1] == '`';
    TrimOfTrimmed(y);
  }

  /** For example "{}``````" cleans to "{}```". */
  lemma CleanedStripsOneClosingExample()
    ensures Cleaned("{}``````") == "{}```"
  {
    assert "{}``````" == "{}" + Fence + Fence;
    assert "{}```" == "{}" + Fence;
    CleanedStripsOneClosing("{}");
  }

  /**
   * `analyzeMeal` and `analyzeWorkout` after the network call: the response
   * text is cleaned and handed to `JSON.parse`, whose failure becomes the
   * thrown "invalid JSON" error.
   */
  function ParseResponse<T>(responseText: string, parse: string -> Option<T>): (r: Analysis<T>)
    ensures r.Analysed? <==> parse(Cleaned(responseText)).Some?
    ensures r.Analysed? ==> Some(r.value) == parse(Cleaned(responseText))
  {
    match parse(Cleaned(responseText))
    case Some(v) => Analysed(v)
    case None => AnalysisFailed
  }

  /** A trimmed response wrapped in a "```json" block parses exactly like the bare response. */
  lemma FencedResponseParsesLikeBare<T>(body: string, parse: string -> Option<T>)
    requires !StartsWith(body, Fence) && !EndsWith(body, Fence)
    requires IsTrimmed(body)
    ensures ParseResponse(JsonFence + body + Fence, parse) == ParseResponse(body, parse)
  {
    TrimOfTrimmed(body);
    CleanedJsonBlock(body);
    CleanedUnfenced(body);
  }

  /** The value JavaScript's `||` picks for a name list: the join, or "None" when it is empty. */
  function NamesOrNone(names: seq<string>): (r: string)
    ensures r != ""
  {
    var joined := Join(names, ", ");
    if joined == "" then "None" else joined
  }

  /** With no entries the list reads "None"; otherwise it is the entries joined with ", ". */
  lemma NamesOrNoneCases(names: seq<string>)
    requires forall k :: 0 <= k < |names| ==> names[k] != ""
    ensures names == [] ==> NamesOrNone(names) == "None"
    ensures names != [] ==> NamesOrNone(names) == Join(names, ", ")
    ensures forall k :: 0 <= k < |names| ==> OccursIn(names[k], NamesOrNone(names))
  {
    JoinEmpty(names, ", ");
    forall k | 0 <= k < |names|
      ensures OccursIn(names[k], NamesOrNone(names))
    {
      JoinContainsParts(names, ", ", k);
    }
  }

  function MealDescription(m: Meal): string { m.description }

  function WorkoutDescription(w: Workout): string { w.description }

  /** `s.map(f)`. */
  function MapSeq<T>(s: seq<T>, f: T -> string): (r: seq<string>)
    ensures |r| == |s|
    ensures forall k :: 0 <= k < |s| ==> r[k] == f(s[k])
  {
    if s == [] then [] else [f(s[0])] + MapSeq(s[1..], f)
  }

  /** The numbers and text `getDailySummary` writes into its prompt. */
  datatype SummaryInputs = SummaryInputs(
    goal: string,
    baseWeight: real,
    currentWeight: real,
    totalCaloriesIn: real,
    mealNames: string,
    totalCaloriesOut: real,
    workoutNames: string,
    netCalorieBalance: real,
    totalProtein: real,
    waterIntake: real,
    sleepHours: real)

  /** The derivation at the top of `getDailySummary`, and the log fields the prompt quotes. */
  function SummaryInputsOf(log: DailyLog): (r: SummaryInputs)
    ensures r.totalCaloriesIn == Sum(log.meals, MealCalories)
    ensures r.totalCaloriesOut == Sum(log.workouts, WorkoutCaloriesBurned)
    ensures r.totalProtein == Sum(log.meals, MealProtein)
    ensures r.netCalorieBalance == r.totalCaloriesIn - r.totalCaloriesOut
    ensures r.mealNames == NamesOrNone(MapSeq(log.meals, MealDescription))
    ensures r.workoutNames == NamesOrNone(MapSeq(log.workouts, WorkoutDescription))
    ensures r.goal == log.goal && r.baseWeight == log.baseWeight && r.currentWeight == log.currentWeight
    ensures r.waterIntake == log.waterIntake && r.sleepHours == log.sleepHours
  {
    var caloriesIn := ReduceSum(log.meals, MealCalories);
    var caloriesOut := ReduceSum(log.workouts, WorkoutCaloriesBurned);
    var protein := ReduceSum(log.meals, MealProtein);
    SummaryInputs(
      log.goal, log.baseWeight, log.currentWeight,
      caloriesIn, NamesOrNone(MapSeq(log.meals, MealDescription)),
      caloriesOut, NamesOrNone(MapSeq(log.workouts, WorkoutDescription)),
      caloriesIn - caloriesOut, protein, log.waterIntake, log.sleepHours)
  }

  /** A day without meals reads "None"; otherwise every meal's description appears in the list. */
  lemma MealNamesCases(log: DailyLog)
    requires forall k :: 0 <= k < |log.meals| ==> log.meals[k].description != ""
    ensures log.meals == [] ==> SummaryInputsOf(log).mealNames == "None"
    ensures forall k :: 0 <= k < |log.meals| ==> OccursIn(log.meals[k].description, SummaryInputsOf(log).mealNames)
  {
    NamesOrNoneCases(MapSeq(log.meals, MealDescription));
  }

  /** A day without workouts reads "None"; otherwise every workout's description appears in the list. */
  lemma WorkoutNamesCases(log: DailyLog)
    requires forall k :: 0 <= k < |log.workouts| ==> log.workouts[k].description != ""
    ensures log.workouts == [] ==> SummaryInputsOf(log).workoutNames == "None"
    ensures forall k :: 0 <= k < |log.workouts| ==> OccursIn(log.workouts[k].description, SummaryInputsOf(log).workoutNames)
  {
    NamesOrNoneCases(MapSeq(log.workouts, WorkoutDescription));
  }
}
