/**
 * DailyRecordForm: the page that picks a day, shows the seven days around it,
 * fetches that day's meal records and groups them by meal type into the
 * `dailyRecord` object that DietSection edits.
 */
module DailyRecordForm {
  import opened Wrappers
  import opened CivilDates
  import opened JsValues
  import opened MealRecords
  import opened MealGrouping

  /** generateDates: the centre day with the three days before it and the three after it. */
  method GenerateDates(center: Date) returns (dates: seq<Date>)
    ensures |dates| == 7 && dates[3] == center
    ensures forall k :: 0 <= k < 7 ==> dates[k] == AddDays(center, k - 3)
  {
    dates := [center];
    var i := 1;
    while i <= 3
      invariant 1 <= i <= 4
      invariant |dates| == 2 * i - 1
      invariant forall k :: 0 <= k < |dates| ==> dates[k] == AddDays(center, k - (i - 1))
    {
      dates := [AddDays(center, -i)] + dates;
      dates := dates + [AddDays(center, i)];
      i := i + 1;
    }
  }

  /** The day `n` days after `d`, one day further on, is the next day. */
  lemma AddDaysStep(d: Date, n: int)
    ensures AddDays(d, n + 1) == NextDay(AddDays(d, n))
  {
    AddDaysNumber(d, n + 1);
    AddDaysNumber(d, n);
    NextDayNumber(AddDays(d, n));
    DayNumberInjective(AddDays(d, n + 1), NextDay(AddDays(d, n)));
  }

  /** The seven days of the strip are consecutive and ascending. */
  lemma WeekIsConsecutive(center: Date, dates: seq<Date>)
    requires |dates| == 7
    requires forall k :: 0 <= k < 7 ==> dates[k] == AddDays(center, k - 3)
    ensures forall k :: 0 <= k < 6 ==> dates[k + 1] == NextDay(dates[k]) && Before(dates[k], dates[k + 1])
  {
    forall k | 0 <= k < 6
      ensures dates[k + 1] == NextDay(dates[k])
    {
      AddDaysStep(center, k - 3);
    }
  }

  // ----- Grouping the fetched records -----

  /**
   * The reduce in handleDateSelect: None when some record's time does not
   * parse (toISOString throws); otherwise the records of `day` grouped by
   * meal type.
   */
  method GroupByMeal(records: seq<MealRecord>, day: Date) returns (grouped: Option<map<string, MealEntry>>)
    ensures grouped.None? <==> exists i :: 0 <= i < |records| && records[i].at.None?
    ensures grouped.Some? ==> grouped.value == Grouped(records, day)
  {
    var acc: map<string, MealEntry> := map[];
    var n := 0;
    while n < |records|
      invariant 0 <= n <= |records|
      invariant forall i :: 0 <= i < n ==> records[i].at.Some?
      invariant acc == Grouped(records[..n], day)
    {
      var r := records[n];
      if r.at.None? {
        return None;
      }
      assert records[..n + 1][..n] == records[..n];
      if r.at.value.utcDate == day {
        acc := acc[r.mealType := EntryOf(r)];
      }
      n := n + 1;
    }
    assert records[..n] == records;
    grouped := Some(acc);
  }

  /**
   * What the grouping promises: a meal type is present exactly when a record
   * of that type falls on the day, and it holds the last such record's time,
   * content and image path.
   */
  lemma GroupingMeaning(records: seq<MealRecord>, day: Date)
    ensures forall t :: t in Grouped(records, day) <==>
      exists i :: 0 <= i < |records| && OnDay(records[i], day) && records[i].mealType == t
    ensures forall i :: 0 <= i < |records| && LastOfType(records, i, day) ==>
      Grouped(records, day)[records[i].mealType] == EntryOf(records[i])
  {
    forall t {
      GroupedKeys(records, day, t);
    }
    forall i | 0 <= i < |records| && LastOfType(records, i, day) {
      GroupedLastWins(records, day, i);
    }
  }

  /** The page's state: the selected day, the strip of days and the record object. */
  class DailyRecordFormState {
    var selectedDate: Date
    var weekDates: seq<Date>
    var dailyRecord: map<string, RecordValue>

    /** The state before the first load: today selected, no strip, no records. */
    constructor (today: Date)
      ensures selectedDate == today && weekDates == [] && dailyRecord == map[]
    {
      selectedDate, weekDates, dailyRecord := today, [], map[];
    }

    /**
     * handleDateSelect: `date` is the chosen date as parsed (None when it is
     * not a date, so formatting throws); `response` is what fetchDailyData
     * yields for it. Returns whether the fetch was made.
     */
    method HandleDateSelect(date: Option<Date>, storedUserid: Option<string>, response: FetchOutcome)
      returns (fetched: bool)
      modifies this
      ensures fetched <==> date.Some? && storedUserid.Some? && storedUserid.value != ""
      ensures date.None? ==>
        dailyRecord == map[] && selectedDate == old(selectedDate) && weekDates == old(weekDates)
      ensures date.Some? ==> selectedDate == date.value && |weekDates| == 7
      ensures date.Some? ==> forall k :: 0 <= k < 7 ==> weekDates[k] == AddDays(date.value, k - 3)
      ensures date.Some? && !fetched ==> dailyRecord == old(dailyRecord)
      ensures fetched && !(response.FetchResponse? && response.success && response.data.Some?) ==>
        dailyRecord == map[]
      ensures fetched && response.FetchResponse? && response.success && response.data.Some? ==>
        var records := response.data.value;
        dailyRecord == if exists i :: 0 <= i < |records| && records[i].at.None? then map[]
          else map t | t in Grouped(records, date.value) :: Meal(Grouped(records, date.value)[t])
    {
      fetched := false;
      if date.None? {
        dailyRecord := map[];
        return;
      }
      var day := date.value;
      selectedDate := day;
      weekDates := GenerateDates(day);
      if storedUserid.None? || storedUserid.value == "" {
        return;
      }
      fetched := true;
      if response.FetchResponse? && response.success && response.data.Some? {
        var grouped := GroupByMeal(response.data.value, day);
        if grouped.Some? {
          dailyRecord := map t | t in grouped.value :: Meal(grouped.value[t]);
        } else {
          dailyRecord := map[];
        }
      } else {
        dailyRecord := map[];
      }
    }

    /** handleInputChange: only the input's own key changes, to the typed text. */
    method HandleInputChange(name: string, value: string)
      modifies this
      ensures dailyRecord == old(dailyRecord)[name := Raw(value)]
      ensures selectedDate == old(selectedDate) && weekDates == old(weekDates)
    {
      dailyRecord := dailyRecord[name := Raw(value)];
    }

    /** handleDietUpdate / onUpdateDiet: only the saved meal type's entry changes; its image path is `diet_image`. */
    method HandleDietUpdate(u: DietUpdate)
      modifies this
      ensures dailyRecord == old(dailyRecord)[u.dietTimeType := Meal(MealEntry(u.dietTime, u.dietContent, u.dietImage))]
      ensures selectedDate == old(selectedDate) && weekDates == old(weekDates)
    {
      dailyRecord := dailyRecord[u.dietTimeType := Meal(MealEntry(u.dietTime, u.dietContent, u.dietImage))];
    }
  }
}
