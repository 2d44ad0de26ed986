/**
 * Grouping fetched meal records of one day by meal type, the later record of
 * a type replacing the earlier one. DailyRecordForm's reduce and the
 * report's three-day table both group this way.
 */
module MealGrouping {
  import opened CivilDates
  import opened MealRecords

  /** A record whose date part (UTC, as toISOString prints it) is `day`. */
  predicate OnDay(r: MealRecord, day: Date) {
    r.at.Some? && r.at.value.utcDate == day
  }

  /** The entry kept for a record: its time, content and image path. */
  function EntryOf(r: MealRecord): MealEntry {
    MealEntry(r.dietTime, r.content, r.imgPath)
  }

  /** The records of `day` keyed by meal type, taken in order so that the last one of a type stays. */
  function Grouped(records: seq<MealRecord>, day: Date): map<string, MealEntry> {
    if |records| == 0 then map[]
    else
      var before := Grouped(records[..|records| - 1], day);
      var r := records[|records| - 1];
      if OnDay(r, day) then before[r.mealType := EntryOf(r)] else before
  }

  /** Record `i` is the last record on `day` with its meal type. */
  predicate LastOfType(records: seq<MealRecord>, i: int, day: Date)
    requires 0 <= i < |records|
  {
    OnDay(records[i], day)
    && forall j :: i < j < |records| ==> !(OnDay(records[j], day) && records[j].mealType == records[i].mealType)
  }

  /** A meal type is grouped exactly when some record of that type falls on the day. */
  lemma {:induction false} GroupedKeys(records: seq<MealRecord>, day: Date, t: string)
    ensures t in Grouped(records, day) <==>
      exists i :: 0 <= i < |records| && OnDay(records[i], day) && records[i].mealType == t
  {
    if |records| > 0 {
      var init := records[..|records| - 1];
      GroupedKeys(init, day, t);
      if t in Grouped(init, day) {
        var i :| 0 <= i < |init| && OnDay(init[i], day) && init[i].mealType == t;
        assert records[i] == init[i];
      }
      if exists i :: 0 <= i < |records| && OnDay(records[i], day) && records[i].mealType == t {
        var i :| 0 <= i < |records| && OnDay(records[i], day) && records[i].mealType == t;
        if i < |init| {
          assert init[i] == records[i];
        }
      }
    }
  }

  /** The entry grouped under a meal type comes from the last record of that type on the day. */
  lemma {:induction false} GroupedLastWins(records: seq<MealRecord>, day: Date, i: int)
    requires 0 <= i < |records| && LastOfType(records, i, day)
    ensures records[i].mealType in Grouped(records, day)
    ensures Grouped(records, day)[records[i].mealType] == EntryOf(records[i])
  {
    var n := |records|;
    var init := records[..n - 1];
    if i < n - 1 {
      assert init[i] == records[i];
      assert LastOfType(init, i, day) by {
        forall j | i < j < |init|
          ensures !(OnDay(init[j], day) && init[j].mealType == init[i].mealType)
        {
          assert init[j] == records[j];
        }
      }
      GroupedLastWins(init, day, i);
    }
  }

  /** Only the records of the day matter. */
  lemma {:induction false} GroupedIgnoresOtherDays(records: seq<MealRecord>, r: MealRecord, day: Date)
    requires !OnDay(r, day)
    ensures Grouped(records + [r], day) == Grouped(records, day)
  {
    assert (records + [r])[..|records|] == records;
  }
}
