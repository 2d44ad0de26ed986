/**
 * The meal record as the server returns it and the client-side shapes built
 * from it. A record's `diet_time` string is kept as text; what `new Date(diet_time)`
 * reads back is given as an Instant (local date and hour, and the UTC date that
 * `toISOString()` prints), or None when the string does not parse.
 */
module MealRecords {
  import opened Wrappers
  import opened CivilDates
  import opened JsValues

  const Breakfast: string := "早餐"
  const Lunch: string := "午餐"
  const AfternoonTea: string := "下午茶"
  const Dinner: string := "晚餐"
  const LateSnack: string := "宵夜"

  /** A parsed `diet_time`: local calendar date and hour (getFullYear … getHours), and its UTC date. */
  datatype Instant = Instant(localDate: Date, localHour: int, utcDate: Date)

  /** `diet_content`: absent, a plain string (such as "不吃"), or a list of food items. */
  datatype Content = NoContent | Text(text: string) | Items(items: seq<string>)

  /** One meal record of the server's daily data. An absent `diet_time` is "". */
  datatype MealRecord = MealRecord(
    dietTime: string,
    at: Option<Instant>,
    mealType: string,
    content: Content,
    imgPath: JsValue)

  /**
   * What a `fetchDailyData` call yields: it threw, or it answered with a
   * `success` flag and a `data` list that may be missing.
   */
  datatype FetchOutcome = FetchThrew | FetchResponse(success: bool, data: Option<seq<MealRecord>>)

  /** A meal-type entry of the `dailyRecord` object. */
  datatype MealEntry = MealEntry(dietTime: string, dietContent: Content, dietImgPath: JsValue)

  /**
   * A value of the `dailyRecord` object: a meal entry under a meal type, or
   * the raw text `handleInputChange` stores under any other input name.
   */
  datatype RecordValue = Meal(entry: MealEntry) | Raw(value: string)

  /** What DietSection hands to its parent through `onUpdateDiet` after a save. */
  datatype DietUpdate = DietUpdate(
    userid: string,
    dietTime: string,
    dietTimeType: string,
    dietContent: Content,
    skipMeal: bool,
    dietImage: JsValue)
}
