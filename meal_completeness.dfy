/**
 * AIChatbox's same-day meal-completeness rule: which of 早餐 / 午餐 / 晚餐 the
 * user has recorded "today", with a 晚餐 logged between 00:00 and 05:59
 * counted on the previous day, and the decision ladder that turns the answer
 * into the next prompt.
 *
 * "Today" is the UTC date the component prints with toISOString(); each
 * record's date is read with local getters. Both are inputs here.
 */
module MealCompleteness {
  import opened Wrappers
  import opened CivilDates
  import opened MealRecords

  /** The meals that make a day complete, in the order the prompt asks for them. */
  const RequiredMeals: seq<string> := [Breakfast, Lunch, Dinner]

  /**
   * The day a record is bucketed into: its local date, or the day before for
   * a 晚餐 whose local hour is in [0, 6). None when `diet_time` does not parse.
   */
  function EffectiveDate(r: MealRecord): Option<Date> {
    match r.at
    case None => None
    case Some(t) =>
      if r.mealType == Dinner && t.localHour >= 0 && t.localHour < 6 then Some(PrevDay(t.localDate))
      else Some(t.localDate)
  }

  /** The filter both checks apply: a `diet_time` is present and it lands on `today`. */
  predicate CountsToday(r: MealRecord, today: Date) {
    r.dietTime != "" && EffectiveDate(r) == Some(today)
  }

  /** `meals.filter(...)`: today's records, in their original order. */
  function TodayMeals(meals: seq<MealRecord>, today: Date): (todays: seq<MealRecord>)
    ensures forall r :: r in todays <==> r in meals && CountsToday(r, today)
  {
    if |meals| == 0 then []
    else
      var rest := TodayMeals(meals[1..], today);
      assert forall r :: r in meals <==> r == meals[0] || r in meals[1..];
      if CountsToday(meals[0], today) then [meals[0]] + rest else rest
  }

  /** `new Set(todayMeals.map(meal => meal.diet_time_type))`. */
  function RecordedMeals(meals: seq<MealRecord>, today: Date): set<string> {
    set r | r in TodayMeals(meals, today) :: r.mealType
  }

  /** `required.every(meal => recorded.has(meal))`. */
  function Every(required: seq<string>, recorded: set<string>): bool {
    if |required| == 0 then true else required[0] in recorded && Every(required[1..], recorded)
  }

  /** `required.find(meal => !recorded.has(meal))`; None plays undefined. */
  function FirstMissing(required: seq<string>, recorded: set<string>): Option<string> {
    if |required| == 0 then None
    else if required[0] !in recorded then Some(required[0])
    else FirstMissing(required[1..], recorded)
  }

  /** checkMealCompleteness. */
  function CheckMealCompleteness(meals: seq<MealRecord>, today: Date): bool {
    Every(RequiredMeals, RecordedMeals(meals, today))
  }

  /** getMissingMeal. */
  function GetMissingMeal(meals: seq<MealRecord>, today: Date): Option<string> {
    FirstMissing(RequiredMeals, RecordedMeals(meals, today))
  }

  // ----- Facts about `every` and `find` -----

  lemma {:induction false} EveryMeansAll(required: seq<string>, recorded: set<string>)
    ensures Every(required, recorded) <==> forall i :: 0 <= i < |required| ==> required[i] in recorded
  {
    if |required| > 0 {
      EveryMeansAll(required[1..], recorded);
      assert forall i :: 1 <= i < |required| ==> required[i] == required[1..][i - 1];
    }
  }

  lemma {:induction false} FirstMissingIsFirstAbsent(required: seq<string>, recorded: set<string>)
    ensures FirstMissing(required, recorded).None? <==> forall i :: 0 <= i < |required| ==> required[i] in recorded
    ensures FirstMissing(required, recorded).Some? ==>
      exists k :: 0 <= k < |required| && required[k] == FirstMissing(required, recorded).value
        && required[k] !in recorded && forall j :: 0 <= j < k ==> required[j] in recorded
  {
    if |required| > 0 && required[0] in recorded {
      var tail := required[1..];
      FirstMissingIsFirstAbsent(tail, recorded);
      assert forall i :: 1 <= i < |required| ==> required[i] == tail[i - 1];
      if FirstMissing(tail, recorded).Some? {
        var k :| 0 <= k < |tail| && tail[k] == FirstMissing(tail, recorded).value
          && tail[k] !in recorded && forall j :: 0 <= j < k ==> tail[j] in recorded;
        assert required[k + 1] == tail[k];
        assert forall j :: 0 <= j < k + 1 ==> required[j] in recorded by {
          forall j | 0 <= j < k + 1 ensures required[j] in recorded {
            if j > 0 { assert required[j] == tail[j - 1]; }
          }
        }
      }
    }
  }

  /** Both checks read only which required meals are in the recorded set. */
  lemma {:induction false} ChecksReadOnlyRequired(required: seq<string>, a: set<string>, b: set<string>)
    requires forall i :: 0 <= i < |required| ==> (required[i] in a <==> required[i] in b)
    ensures Every(required, a) == Every(required, b)
    ensures FirstMissing(required, a) == FirstMissing(required, b)
  {
    if |required| > 0 {
      assert forall i :: 0 <= i < |required[1..]| ==> required[1..][i] == required[i + 1];
      ChecksReadOnlyRequired(required[1..], a, b);
    }
  }

  lemma RecordedMealsMeans(meals: seq<MealRecord>, today: Date, m: string)
    ensures m in RecordedMeals(meals, today) <==> exists r :: r in meals && CountsToday(r, today) && r.mealType == m
  {
    if m in RecordedMeals(meals, today) {
      var r :| r in TodayMeals(meals, today) && r.mealType == m;
    }
  }

  // ----- The properties of the evaluator -----

  /** Complete exactly when each of 早餐, 午餐 and 晚餐 has a record counted today. */
  lemma CompleteIffAllRequiredToday(meals: seq<MealRecord>, today: Date)
    ensures CheckMealCompleteness(meals, today) <==>
      forall m :: m in RequiredMeals ==> exists r :: r in meals && CountsToday(r, today) && r.mealType == m
  {
    var recorded := RecordedMeals(meals, today);
    EveryMeansAll(RequiredMeals, recorded);
    forall m | m in RequiredMeals
      ensures m in recorded <==> exists r :: r in meals && CountsToday(r, today) && r.mealType == m
    {
      RecordedMealsMeans(meals, today, m);
    }
  }

  /** The two checks agree: complete exactly when no meal is missing. */
  lemma CompleteIffNoneMissing(meals: seq<MealRecord>, today: Date)
    ensures CheckMealCompleteness(meals, today) <==> GetMissingMeal(meals, today).None?
  {
    var recorded := RecordedMeals(meals, today);
    EveryMeansAll(RequiredMeals, recorded);
    FirstMissingIsFirstAbsent(RequiredMeals, recorded);
  }

  /** The missing meal is the first of 早餐, 午餐, 晚餐, in that order, not recorded today. */
  lemma MissingMealPriority(meals: seq<MealRecord>, today: Date)
    ensures var recorded := RecordedMeals(meals, today);
      GetMissingMeal(meals, today) ==
        if Breakfast !in recorded then Some(Breakfast)
        else if Lunch !in recorded then Some(Lunch)
        else if Dinner !in recorded then Some(Dinner)
        else None
  {
    var recorded := RecordedMeals(meals, today);
    assert RequiredMeals[0] == Breakfast && RequiredMeals[1..] == [Lunch, Dinner];
    assert [Lunch, Dinner][0] == Lunch && [Lunch, Dinner][1..] == [Dinner];
    assert [Dinner][0] == Dinner && [Dinner][1..] == [];
    assert FirstMissing(RequiredMeals, recorded)
      == if Breakfast !in recorded then Some(Breakfast) else FirstMissing([Lunch, Dinner], recorded);
    assert FirstMissing([Lunch, Dinner], recorded)
      == if Lunch !in recorded then Some(Lunch) else FirstMissing([Dinner], recorded);
    assert FirstMissing([Dinner], recorded) == if Dinner !in recorded then Some(Dinner) else None;
  }

  /**
   * A 晚餐 logged at local hour h in [0, 6) counts toward the day before its
   * local date; at any other hour it counts on its own date.
   */
  lemma {:induction false} DinnerRollover(r: MealRecord, today: Date)
    requires r.mealType == Dinner && r.dietTime != "" && r.at.Some?
    ensures 0 <= r.at.value.localHour < 6 ==> (CountsToday(r, today) <==> r.at.value.localDate == NextDay(today))
    ensures !(0 <= r.at.value.localHour < 6) ==> (CountsToday(r, today) <==> r.at.value.localDate == today)
  {
    var d := r.at.value.localDate;
    PrevNextInverse(d);
    PrevNextInverse(today);
  }

  /** Only 晚餐 rolls back: every other meal type counts on its own local date, at any hour. */
  lemma OnlyDinnerRollsBack(r: MealRecord, today: Date)
    requires r.mealType != Dinner
    ensures CountsToday(r, today) <==> r.dietTime != "" && r.at.Some? && r.at.value.localDate == today
  {
  }

  /** 05:59 and 06:00 on the same local date put a 晚餐 on two different days. */
  lemma {:induction false} SixOClockBoundary(r: MealRecord, today: Date)
    requires r.mealType == Dinner && r.dietTime != "" && r.at.Some? && r.at.value.localHour == 5
    ensures var later := r.(at := Some(r.at.value.(localHour := 6)));
      !(CountsToday(r, today) && CountsToday(later, today))
  {
    var d := r.at.value.localDate;
    PrevNextInverse(d);
    DayNumberInjective(PrevDay(d), d);
    PrevDayNumber(d);
  }

  /** A record without `diet_time`, or whose time does not parse, is never today's. */
  lemma UntimedNeverToday(r: MealRecord, today: Date)
    requires r.dietTime == "" || r.at.None?
    ensures !CountsToday(r, today)
  {
  }

  /** Adding records never turns a complete day incomplete. */
  lemma CompletenessMonotone(meals: seq<MealRecord>, more: seq<MealRecord>, today: Date)
    ensures CheckMealCompleteness(meals, today) ==> CheckMealCompleteness(meals + more, today)
  {
    var a, b := RecordedMeals(meals, today), RecordedMeals(meals + more, today);
    forall m | m in a ensures m in b {
      RecordedMealsMeans(meals, today, m);
      RecordedMealsMeans(meals + more, today, m);
    }
    EveryMeansAll(RequiredMeals, a);
    EveryMeansAll(RequiredMeals, b);
  }

  /** Records of other meal types (下午茶, 宵夜, …) change neither result. */
  lemma OtherMealTypesIgnored(meals: seq<MealRecord>, extra: MealRecord, today: Date)
    requires extra.mealType !in RequiredMeals
    ensures CheckMealCompleteness(meals + [extra], today) == CheckMealCompleteness(meals, today)
    ensures GetMissingMeal(meals + [extra], today) == GetMissingMeal(meals, today)
  {
    var a, b := RecordedMeals(meals, today), RecordedMeals(meals + [extra], today);
    forall i | 0 <= i < |RequiredMeals| ensures RequiredMeals[i] in a <==> RequiredMeals[i] in b {
      RecordedMealsMeans(meals, today, RequiredMeals[i]);
      RecordedMealsMeans(meals + [extra], today, RequiredMeals[i]);
    }
    ChecksReadOnlyRequired(RequiredMeals, a, b);
  }

  /** A record's content plays no part: a skipped meal saved as ["沒吃"] counts like any other. */
  lemma ContentIgnored(meals: seq<MealRecord>, i: nat, c: Content, today: Date)
    requires i < |meals|
    ensures CheckMealCompleteness(meals[i := meals[i].(content := c)], today) == CheckMealCompleteness(meals, today)
    ensures GetMissingMeal(meals[i := meals[i].(content := c)], today) == GetMissingMeal(meals, today)
  {
    var edited := meals[i := meals[i].(content := c)];
    var a, b := RecordedMeals(meals, today), RecordedMeals(edited, today);
    forall m ensures m in a <==> m in b {
      RecordedMealsMeans(meals, today, m);
      RecordedMealsMeans(edited, today, m);
      if m in a {
        var r :| r in meals && CountsToday(r, today) && r.mealType == m;
        var j :| 0 <= j < |meals| && meals[j] == r;
        assert edited[j].mealType == m && CountsToday(edited[j], today);
      }
      if m in b {
        var r :| r in edited && CountsToday(r, today) && r.mealType == m;
        var j :| 0 <= j < |edited| && edited[j] == r;
        assert meals[j].mealType == m && CountsToday(meals[j], today);
      }
    }
    assert a == b;
  }

  /** Repeating a record (a duplicate for the same meal) changes neither result. */
  lemma DuplicatesIgnored(meals: seq<MealRecord>, i: nat, today: Date)
    requires i < |meals|
    ensures CheckMealCompleteness(meals + [meals[i]], today) == CheckMealCompleteness(meals, today)
    ensures GetMissingMeal(meals + [meals[i]], today) == GetMissingMeal(meals, today)
  {
    var a, b := RecordedMeals(meals, today), RecordedMeals(meals + [meals[i]], today);
    forall m ensures m in a <==> m in b {
      RecordedMealsMeans(meals, today, m);
      RecordedMealsMeans(meals + [meals[i]], today, m);
    }
    assert a == b;
  }

  /** The worked example: a 晚餐 at 2024-03-02 02:15 local counts toward 2024-03-01. */
  lemma LateDinnerExample(img: JsValues.JsValue)
    ensures var r := MealRecord("2024-03-02T02:15", Some(Instant(CivilDate(2024, 3, 2), 2, CivilDate(2024, 3, 1))),
                                Dinner, Items(["麵"]), img);
      CountsToday(r, CivilDate(2024, 3, 1)) && !CountsToday(r, CivilDate(2024, 3, 2))
  {
  }

  // ----- checkUserData: the decision ladder -----

  /** What `checkUserBaseData` yields: it threw (with its message), or it answered. */
  datatype ProfileOutcome = ProfileThrew(message: string) | ProfileChecked(hasProfile: bool)

  const LoginMessage: string := "請先登入"
  const ProfileMessage: string := "請先完成個人資料填寫"
  const CompleteMessage: string := "感謝您完整填寫資料～請至個人資料頁面生成個人化報告"
  const DefaultError: string := "系統發生錯誤，請稍後再試"

  function MealPrompt(meal: string): string {
    "感謝您完整填寫個人資料～現在來紀錄今天的" + meal + "，讓問診流程更加順利吧！"
  }

  /** The state of the chat box that checkUserData writes. */
  class Chatbox {
    var loading: bool
    var error: Option<string>
    var message: string
    var showMealButton: bool
    var selectedMeal: Option<string>
    var showNotification: bool
    var notificationPath: string
    var modalOpen: bool

    constructor ()
      ensures loading && error == None && message == "" && !showMealButton && selectedMeal == None
      ensures !showNotification && notificationPath == "" && !modalOpen
    {
      loading, error, message, showMealButton := true, None, "", false;
      selectedMeal, showNotification, notificationPath, modalOpen := None, false, "", false;
    }

    /**
     * checkUserData, with the stored userid, the profile check and the meals
     * fetch given as their outcomes.
     */
    method CheckUserData(userid: Option<string>, profile: ProfileOutcome, meals: FetchOutcome, today: Date)
      modifies this
      ensures !loading
      ensures userid.None? || userid.value == "" ==>
        && message == LoginMessage && notificationPath == "/login" && showNotification
        && error == None && !showMealButton
        && selectedMeal == old(selectedMeal) && modalOpen == old(modalOpen)
      ensures userid.Some? && userid.value != "" && profile.ProfileThrew? ==>
        && error == Some(if profile.message != "" then profile.message else DefaultError)
        && !showMealButton && message == old(message) && selectedMeal == old(selectedMeal)
        && showNotification == old(showNotification) && notificationPath == old(notificationPath)
        && modalOpen == old(modalOpen)
      ensures userid.Some? && userid.value != "" && profile == ProfileChecked(false) ==>
        && message == ProfileMessage && notificationPath == "/personal-info" && showNotification
        && error == None && !showMealButton
        && selectedMeal == old(selectedMeal) && modalOpen == old(modalOpen)
      ensures userid.Some? && userid.value != "" && profile == ProfileChecked(true) ==>
        && error == None
        && showNotification == old(showNotification) && notificationPath == old(notificationPath)
        && match meals
           case FetchThrew =>
             && selectedMeal == Some(Breakfast) && message == MealPrompt(Breakfast) && showMealButton
             && modalOpen == old(modalOpen)
           case FetchResponse(success, data) =>
             if success && data.Some? then
               if CheckMealCompleteness(data.value, today) then
                 && message == CompleteMessage && modalOpen && !showMealButton
                 && selectedMeal == old(selectedMeal)
               else
                 && GetMissingMeal(data.value, today).Some?
                 && selectedMeal == GetMissingMeal(data.value, today)
                 && message == MealPrompt(GetMissingMeal(data.value, today).value)
                 && showMealButton && modalOpen == old(modalOpen)
             else
               && !showMealButton && modalOpen == old(modalOpen)
               && message == old(message) && selectedMeal == old(selectedMeal)
    {
      loading := true;
      error := None;
      showMealButton := false;
      if userid.None? || userid.value == "" {
        message := LoginMessage;
        notificationPath := "/login";
        showNotification := true;
        loading := false;
        return;
      }
      match profile {
        case ProfileThrew(m) =>
          error := Some(if m != "" then m else DefaultError);
        case ProfileChecked(hasProfile) =>
          if !hasProfile {
            message := ProfileMessage;
            notificationPath := "/personal-info";
            showNotification := true;
          } else {
            match meals {
              case FetchThrew =>
                selectedMeal := Some(Breakfast);
                message := MealPrompt(Breakfast);
                showMealButton := true;
              case FetchResponse(success, data) =>
                if success && data.Some? {
                  if CheckMealCompleteness(data.value, today) {
                    message := CompleteMessage;
                    modalOpen := true;
                  } else {
                    var missing := GetMissingMeal(data.value, today);
                    CompleteIffNoneMissing(data.value, today);
                    selectedMeal := missing;
                    message := MealPrompt(missing.value);
                    showMealButton := true;
                  }
                }
            }
          }
      }
      loading := false;
    }
  }
}
