# Nutri-AI front end: meal records, daily form, report and personal profile

This project models the logic of the React front end of a nutrition-coaching
web application. The model covers these parts of it:

- the chat box that checks whether today's three main meals are recorded, with
  dinners eaten between midnight and six o'clock counted for the day before
  (`AIChatbox.js`);
- the voice recorder that turns a transcript into a draft of meals and saves
  them one by one (`VoiceChatBox.jsx`);
- the diet section's meal editor: opening the dialog, editing, saving and the
  meal thumbnails (`DietSection.js`);
- the daily record form: the week strip around a date, fetching a day's records
  and grouping them by meal (`DailyRecordForm.js`);
- the report page: Chinese dates and ages, the questionnaire lists, and the diet
  table of the last three days (`ReportPage.js`);
- the personal information form: age in years and months, the Minguo-calendar
  date picker, validation, section expansion and submission
  (`PersonalInfoForm.js`).

Values that the browser or the server supplies are inputs to the model:

- A parsed `Date` is an `Option<Date>` or an `Instant`. `None` stands for an
  invalid date.
- `JSON.parse` is a function `string -> Option<JsValue>`. `None` means it throws.
- `localStorage.getItem("userid")` is an `Option<string>`.
- Every server call is an outcome datatype, or a function from the request to
  its outcome.

Component state becomes a class whose fields the methods update:
`MealCompleteness.Chatbox`, `VoiceDraft.VoiceChatBox`,
`DietSection.DietSectionState`, `DailyRecordForm.DailyRecordFormState` and
`PersonalInfoForm.PersonalInfoFormState`. The loops of the source are methods
with loop invariants, proved against recursive specification functions.

Shared modules:

- `CivilDates`: proleptic Gregorian dates. Day steps are proved against a
  day number.
- `JsText` and `JsNumbers`: the string built-ins, `parseInt` and `Number`.
- `JsValues`: loosely typed JSON values and their truthiness.
- `MealRecords`: the record types.
- `MealGrouping`: grouping records by meal type, where the last record wins.
- `Questionnaire`: the sections and fields of the questionnaire.

## Model

| member | source | states |
|---|---|---|
| CivilDates.PrevDay | src/components/AIChatbox.js:104 | `setDate(getDate() - 1)` gives a valid date strictly before the original, wrapping months and years |
| CivilDates.NextDay | src/components/DailyRecordForm.js:50-52 | `setDate(getDate() + 1)` gives a valid date strictly after the original |
| CivilDates.PrevNextInverse | src/components/DailyRecordForm.js:45-53 | stepping a day back and a day forward are inverse, in both orders |
| CivilDates.AddDaysNumber | src/components/DailyRecordForm.js:45-53 | shifting a date by n days moves its day number by exactly n |
| CivilDates.DayNumberInjective | src/components/DailyRecordForm.js:45-53 | two dates have the same day number exactly when they are equal |
| CivilDates.DayNumberOrder | src/components/DailyRecordForm.js:45-53 | a date is earlier than another exactly when its day number is smaller |
| CivilDates.WeekdayOfNextDay | src/pages/ReportPage.js:33 | the weekday (`getDay`) of the next day is one more, modulo 7 |
| MealCompleteness.TodayMeals | src/components/AIChatbox.js:91-125 | the filter keeps exactly the records with a time whose effective date (a dinner before 06:00 counts for the day before) is today |
| MealCompleteness.EveryMeansAll | src/components/AIChatbox.js:132 | `every` holds exactly when each required meal is recorded |
| MealCompleteness.FirstMissingIsFirstAbsent | src/components/AIChatbox.js:170 | `find` gives undefined exactly when all are recorded, else the first unrecorded meal in list order |
| MealCompleteness.ChecksReadOnlyRequired | src/components/AIChatbox.js:132 | completeness and the missing meal depend only on which required meals are recorded |
| MealCompleteness.RecordedMealsMeans | src/components/AIChatbox.js:127-129 | a meal type is recorded exactly when some record of it counts for today |
| MealCompleteness.CompleteIffAllRequiredToday | src/components/AIChatbox.js:82-135 | checkMealCompleteness holds exactly when breakfast, lunch and dinner each have a record counting for today |
| MealCompleteness.CompleteIffNoneMissing | src/components/AIChatbox.js:137-173 | the meals are complete exactly when getMissingMeal finds nothing |
| MealCompleteness.MissingMealPriority | src/components/AIChatbox.js:137-173 | the missing meal is breakfast, else lunch, else dinner, in that order of priority |
| MealCompleteness.DinnerRollover | src/components/AIChatbox.js:100-106 | a dinner logged between 00:00 and 05:59 counts for today exactly when it is dated tomorrow; a later one counts when it is dated today |
| MealCompleteness.OnlyDinnerRollsBack | src/components/AIChatbox.js:100 | every other meal type counts on its own local date |
| MealCompleteness.SixOClockBoundary | src/components/AIChatbox.js:102 | a dinner at 05:xx and the same dinner at 06:xx never count for the same day |
| MealCompleteness.UntimedNeverToday | src/components/AIChatbox.js:92 | a record without a time, or with an unparsable one, never counts |
| MealCompleteness.CompletenessMonotone | src/components/AIChatbox.js:82-135 | adding records never makes a complete day incomplete |
| MealCompleteness.OtherMealTypesIgnored | src/components/AIChatbox.js:84 | afternoon tea and late-night snacks change neither the verdict nor the missing meal |
| MealCompleteness.ContentIgnored | src/components/AIChatbox.js:82-173 | what was eaten does not matter, only the type and the time |
| MealCompleteness.DuplicatesIgnored | src/components/AIChatbox.js:127-129 | recording a meal twice changes nothing |
| MealCompleteness.LateDinnerExample | src/components/AIChatbox.js:100-106 | a dinner at 02:15 on 2 March counts for 1 March and not for 2 March |
| MealCompleteness.Chatbox.CheckUserData | src/components/AIChatbox.js:175-233 | no user: ask to log in; profile check throws: show its message or the default error; no profile: go to the profile page; fetch throws: prompt for breakfast; complete: open the report dialog; otherwise prompt for the missing meal |
| VoiceDraft.FirstMatchIsLeftmost | src/components/VoiceChatBox.jsx:24 | `match` finds no time exactly when there is no match anywhere, else the leftmost one |
| VoiceDraft.NormalizeTime | src/components/VoiceChatBox.jsx:22-29 | a normalised time is always two digits, a colon and two digits |
| VoiceDraft.NormalizeTimeNull | src/components/VoiceChatBox.jsx:23-25 | normalizeTime gives null exactly for an empty or missing text, or one holding no `h:mm` / `hh:mm` with either colon |
| VoiceDraft.NormalizeTimeFromLeftmostMatch | src/components/VoiceChatBox.jsx:24-28 | a non-null result is the leftmost match with the hour padded to two digits |
| VoiceDraft.NormalizeTimeIdempotent | src/components/VoiceChatBox.jsx:22-29 | normalising a normalised time changes nothing |
| VoiceDraft.NormalizeTimeExamples | src/components/VoiceChatBox.jsx:22-29 | "7:30" and "07：30" become "07:30"; the time is found inside "早上7:30"; "99:99" is kept although it is no clock time; "中午" and "" give null |
| VoiceDraft.Payloads | src/components/VoiceChatBox.jsx:128-139 | one payload per draft item, in order, with the photo uploaded for that index |
| VoiceDraft.PayloadTime | src/components/VoiceChatBox.jsx:130-131 | every saved time reads `<today>T<hh:mm>:00` |
| VoiceDraft.FirstRejected | src/components/VoiceChatBox.jsx:128-140 | the first payload the server refuses: every earlier one was accepted |
| VoiceDraft.SecondOfThreeRefused | src/components/VoiceChatBox.jsx:128-148 | when the second of three saves fails, the third is never sent |
| VoiceDraft.VoiceChatBox.OnSpeechResult | src/components/VoiceChatBox.jsx:79 | the transcript is stored trimmed and nothing else changes |
| VoiceDraft.VoiceChatBox.Analyse | src/components/VoiceChatBox.jsx:86-114 | an empty transcript or a failed reply changes nothing; an array reply becomes the draft, a single value a one-item draft, at step 4 |
| VoiceDraft.VoiceChatBox.OnUpload | src/components/VoiceChatBox.jsx:117-123 | a chosen file becomes the photo of that item; no file changes nothing |
| VoiceDraft.VoiceChatBox.Cancel | src/components/VoiceChatBox.jsx:253-257 | back to step 2 with no draft and no photos; the transcript stays |
| VoiceDraft.VoiceChatBox.Save | src/components/VoiceChatBox.jsx:126-149 | the saves sent are the payloads up to and including the first refused one; the state resets only when all were saved |
| DietSection.ToEditorTime | src/components/DietSection.js:72-74 | the editor time is at most 16 characters |
| DietSection.TimeRoundTrip | src/components/DietSection.js:72-74 | for a stored "YYYY-MM-DD hh:mm:ss" time, the editor shows "YYYY-MM-DDThh:mm", and saving gives back the stored time to the minute with ":00" seconds |
| DietSection.EditorToItems | src/components/DietSection.js:130 | splitting the content on commas gives at least one item, each trimmed and free of commas |
| DietSection.EditorToItemsAt | src/components/DietSection.js:130 | item i is piece i of the split, trimmed |
| DietSection.SplitJoinedItems | src/components/DietSection.js:78-79 | the text joined with ", " splits back into as many pieces as there were items |
| DietSection.ContentRoundTrip | src/components/DietSection.js:78-79 | opening a meal whose items are trimmed and comma-free and saving it unchanged gives the same items back |
| DietSection.ExtractImagePaths | src/components/DietSection.js:183-203 | no paths for a falsy value; an array is used as it is; a non-empty string gives exactly one path |
| DietSection.ImageUrl | src/components/DietSection.js:227-230 | a path starting with "http" is kept, any other path is put after "https://flaskapi.avatarmedicine.xyz/"; every address starts with "http" |
| DietSection.ImageUrlIdempotent | src/components/DietSection.js:227-230 | an address that already starts with "http" is kept, so prefixing twice changes nothing |
| DietSection.CollectImages | src/components/DietSection.js:135-139 | no images are attached to a skipped meal or when none were chosen; otherwise all chosen images, in order |
| DietSection.DietSectionState.constructor | src/components/DietSection.js:35-50 | no dialog, empty temp data, no error |
| DietSection.DietSectionState.OpenModal | src/components/DietSection.js:69-96 | an existing meal is loaded with its editor time and its items joined by ", "; a missing one starts at midnight of the selected date |
| DietSection.DietSectionState.CloseModal | src/components/DietSection.js:98-108 | no dialog, every temp field reset, no error |
| DietSection.DietSectionState.HandleTempChange | src/components/DietSection.js:164-175 | only the named field changes; ticking skip also sets the content to "沒吃", unticking clears it |
| DietSection.DietSectionState.HandleSave | src/components/DietSection.js:110-162 | no user: "請先登入"; no time: nothing is sent; otherwise the request sent and, by the server's answer, the parent update plus closed dialog, the server message (or "儲存失敗"), or "儲存失敗，請稍後再試" |
| MealGrouping.GroupedKeys | src/components/DailyRecordForm.js:87-101 | a meal type is in the grouped day exactly when a record of that type falls on that day |
| MealGrouping.GroupedLastWins | src/components/DailyRecordForm.js:94-98 | each meal type holds the last record of that type on the day |
| MealGrouping.GroupedIgnoresOtherDays | src/components/DailyRecordForm.js:91 | records of other days leave the grouping unchanged |
| DailyRecordForm.GenerateDates | src/components/DailyRecordForm.js:41-56 | seven dates, with the centre in the middle and date k being the centre shifted by k - 3 days |
| DailyRecordForm.AddDaysStep | src/components/DailyRecordForm.js:45-53 | shifting by n + 1 days is shifting by n and then one day more |
| DailyRecordForm.WeekIsConsecutive | src/components/DailyRecordForm.js:41-56 | the week strip is seven consecutive days in increasing order |
| DailyRecordForm.GroupByMeal | src/components/DailyRecordForm.js:87-101 | the reduce throws exactly when some record's time cannot be parsed; otherwise it gives the grouping of the day |
| DailyRecordForm.GroupingMeaning | src/components/DailyRecordForm.js:87-101 | the keys are the meal types recorded on the day, each holding its last record |
| DailyRecordForm.DailyRecordFormState.constructor | src/components/DailyRecordForm.js:33-38 | today selected, no week strip, an empty record |
| DailyRecordForm.DailyRecordFormState.HandleDateSelect | src/components/DailyRecordForm.js:70-113 | the date and its week are selected; without a user nothing is fetched; a good answer gives the grouped day, anything else an empty record |
| DailyRecordForm.DailyRecordFormState.HandleInputChange | src/components/DailyRecordForm.js:116-122 | only the named entry changes, to the raw value |
| DailyRecordForm.DailyRecordFormState.HandleDietUpdate | src/components/DailyRecordForm.js:125-134 | only the saved meal's entry changes, to the saved time, content and images |
| ReportPage.FormatChineseDate | src/pages/ReportPage.js:25-36 | "未填寫" for empty text; unparsable text is shown as it is; otherwise "Y年M月D日 星期W" with the weekday of that date |
| ReportPage.NextDayWeekdayName | src/pages/ReportPage.js:33 | the next day's weekday name is the next one in the week |
| ReportPage.FormatChineseDateExample | src/pages/ReportPage.js:25-36 | 2024-03-01 is shown as "2024年3月1日 星期五" |
| ReportPage.CalculateAge | src/pages/ReportPage.js:38-55 | "未填寫" for empty or unparsable text, else the whole years, one less before this year's birthday, followed by "歲" |
| ReportPage.AgeOnBirthday | src/pages/ReportPage.js:44-52 | on the n-th birthday the age is n |
| ReportPage.AgeDayBeforeBirthday | src/pages/ReportPage.js:44-52 | on the day before the n-th birthday the age is n - 1 |
| ReportPage.FutureBirthNegativeAge | src/pages/ReportPage.js:44-52 | a birth date after today gives a negative age, which the page shows as it is |
| ReportPage.GetRequiredFields | src/pages/ReportPage.js:82-95 | the nested loops collect the required fields section by section, in order |
| ReportPage.RequiredFieldsMembers | src/pages/ReportPage.js:82-95 | a caption and name are listed exactly when some required field has them |
| ReportPage.AllRequiredListsAll | src/pages/ReportPage.js:85-92 | when every field is required, all are listed in order |
| ReportPage.GetNonGeneralSections | src/pages/ReportPage.js:220-235 | the loop keeps the sections other than "一般資訊", in order, with their fields' captions and names |
| ReportPage.NonGeneralMembers | src/pages/ReportPage.js:220-235 | a view is listed exactly when some section other than "一般資訊" produces it |
| ReportPage.NonGeneralKeepsOthers | src/pages/ReportPage.js:220-235 | with no "一般資訊" section every section is kept, in order |
| ReportPage.AddRecordToTable | src/pages/ReportPage.js:304-312 | one record fills its meal cell on its own day, when that day is in the table, and changes nothing else |
| ReportPage.AddRecords | src/pages/ReportPage.js:300-315 | a response's records are added in order; it throws exactly when one has an unparsable time |
| ReportPage.BuildTable | src/pages/ReportPage.js:295-315 | the load fails with "載入飲食紀錄失敗" exactly when a successful response has no data or a record's time cannot be parsed; otherwise the table groups all records by day and meal |
| ReportPage.ReportDays | src/pages/ReportPage.js:286-292 | the days are today, yesterday and the day before, in that order |
| ReportPage.LoadDietRecords | src/pages/ReportPage.js:271-326 | without a user id "請先登入"; a rejected fetch or a broken response "載入飲食紀錄失敗"; otherwise the three days' table |
| ReportPage.TableHasEveryDay | src/pages/ReportPage.js:295-298 | each of the three days has a row, even an empty one |
| ReportPage.OtherDaysDropped | src/pages/ReportPage.js:307 | a record dated outside the three days changes nothing |
| ReportPage.RenderImages | src/pages/ReportPage.js:331-352 | no paths for a falsy value; an array is used as it is; a string that does not parse gives no paths |
| ReportPage.DialogAndReportPaths | src/pages/ReportPage.js:331-352 | the report and the meal dialog read the same paths, except for strings without a JSON `path` |
| ReportPage.ImageSrc | src/pages/ReportPage.js:358-362 | the trimmed path is kept when it starts with "/static" and is put after "/static/diet_img/" otherwise; every source is trimmed and starts with "/static" |
| ReportPage.ImageSrcIdempotent | src/pages/ReportPage.js:358-362 | building a source from a source changes nothing |
| JsText.Trim | src/components/VoiceChatBox.jsx:79 | `trim` leaves no space at either end and keeps trimmed text unchanged |
| JsText.SplitJoin | src/components/DietSection.js:78-79 | joining comma-free pieces and splitting again gives the pieces back |
| JsText.JoinSplit | src/components/DietSection.js:130 | splitting and joining with the same separator gives the text back |
| JsText.IndexOf | src/components/DietSection.js:73 | `indexOf` is -1 exactly when the character is absent, else its first position |
| JsText.ReplaceFirst | src/components/DietSection.js:73 | `replace` with a one-character pattern changes only the first occurrence |
| JsText.PadStart | src/components/PersonalInfoForm.js:113-116 | `padStart` gives the width, the text at the end, the fill before it |
| JsText.NatToString | src/components/AIChatbox.js:116 | `String(n)` gives digits without a leading zero that denote n |
| JsNumbers.ParseInt | src/components/PersonalInfoForm.js:112 | `parseInt` is NaN exactly when no digit follows the leading space and optional sign |
| JsNumbers.ParseIntOfDecimal | src/components/PersonalInfoForm.js:112 | `parseInt` reads back the decimal text of a number, whatever non-digit text follows it |
| JsNumbers.NaturalIsNumeric | src/components/PersonalInfoForm.js:246 | the decimal text of a natural number is a number |
| JsNumbers.FractionIsNumeric | src/components/PersonalInfoForm.js:246 | "a.b" is a number |
| JsNumbers.PaddedIsNumeric | src/components/PersonalInfoForm.js:246 | spaces around a number are ignored |
| JsNumbers.WordIsNotNumeric | src/components/PersonalInfoForm.js:246 | text starting with a letter other than the I of "Infinity" is NaN |
| JsNumbers.SuffixIsNotNumeric | src/components/PersonalInfoForm.js:246 | digits followed by a separator or a unit, such as "1,000" or "12kg", are NaN |
| PersonalInfoForm.AgeOf | src/components/PersonalInfoForm.js:48-67 | the months are below 12 and years × 12 + months is the whole months since birth, or 0 for a future birth date |
| PersonalInfoForm.CalculateAge | src/components/PersonalInfoForm.js:39-70 | "" for empty or unparsable text, else "<years> 歲 <months> 個月" |
| PersonalInfoForm.FutureBirthIsZero | src/components/PersonalInfoForm.js:60-63 | a birth date after today gives "0 歲 0 個月" |
| PersonalInfoForm.AgreesWithReport | src/components/PersonalInfoForm.js:48-67 | the form's years equal the report page's age whenever the birth date is not in the future |
| PersonalInfoForm.FormatChineseDate | src/components/PersonalInfoForm.js:73-81 | "" for empty text; unparsable text as it is; else "Y年M月D日" |
| PersonalInfoForm.ReportAddsWeekday | src/pages/ReportPage.js:25-36 | the report's date is the form's date followed by " 星期" and the weekday |
| PersonalInfoForm.UpdateGregorianDate | src/components/PersonalInfoForm.js:110-119 | a date is sent exactly when year, month and day are all chosen |
| PersonalInfoForm.GregorianOfDecimal | src/components/PersonalInfoForm.js:112 | Minguo year n is Gregorian year n + 1911 |
| PersonalInfoForm.UpdateOfDecimal | src/components/PersonalInfoForm.js:110-119 | the date sent is "<n + 1911>-<mm>-<dd>" with month and day padded to two digits |
| PersonalInfoForm.MinguoConversion | src/components/PersonalInfoForm.js:110-119 | one-digit months and days get a leading zero |
| PersonalInfoForm.MonthEdit | src/components/PersonalInfoForm.js:97-101 | a month change sends the date built from the current year, the new month and the current day |
| PersonalInfoForm.SplitBirthDate | src/components/PersonalInfoForm.js:84-88 | a stored "YYYY-MM-DD" splits on "-" into year, month and day |
| PersonalInfoForm.PickerStarts | src/components/PersonalInfoForm.js:84-88 | the picker starts with the Gregorian year as written, and with the Minguo year when corrected |
| PersonalInfoForm.MonthEditAsWritten | src/components/PersonalInfoForm.js:84-118 | as written, changing only the month of a stored date adds 1911 to the year a second time |
| PersonalInfoForm.MonthEditKeepsYear | src/components/PersonalInfoForm.js:84-118 | with the picker started from the Minguo year, changing only the month keeps the stored year and day |
| PersonalInfoForm.FieldError | src/components/PersonalInfoForm.js:243-249 | "必填" exactly for a required field with a falsy value; "請輸入有效的數字" exactly for a number field with a truthy value that is NaN; otherwise no error |
| PersonalInfoForm.ValidateForm | src/components/PersonalInfoForm.js:239-253 | the nested loops give the errors of all fields, section by section |
| PersonalInfoForm.ErrorKeys | src/components/PersonalInfoForm.js:239-253 | a name has an error exactly when some field of that name fails its check |
| PersonalInfoForm.ErrorOfUniqueField | src/components/PersonalInfoForm.js:239-253 | a failing field whose name no other field shares is listed |
| PersonalInfoForm.ExpandFieldsMeaning | src/components/PersonalInfoForm.js:271-275 | a section is opened exactly when one of its fields has an error |
| PersonalInfoForm.ExpandSectionsMeaning | src/components/PersonalInfoForm.js:270-276 | every section with an error ends up open; no other section is added |
| PersonalInfoForm.ExpandErrored | src/components/PersonalInfoForm.js:267-277 | the nested loops open the sections that have an error |
| PersonalInfoForm.NormalizeForSubmit | src/components/PersonalInfoForm.js:281-289 | empty strings become null, "calculated_age" is dropped, every other entry is kept |
| PersonalInfoForm.BuildSubmission | src/components/PersonalInfoForm.js:281-297 | the payload is the normalised form plus the user id, with no empty string left |
| PersonalInfoForm.PersonalInfoFormState.constructor | src/components/PersonalInfoForm.js:155-179 | every questionnaire field starts as ""; no section is open and there are no errors |
| PersonalInfoForm.PersonalInfoFormState.HandleChange | src/components/PersonalInfoForm.js:218-236 | the field takes the new value; a birth date also recomputes "calculated_age" |
| PersonalInfoForm.PersonalInfoFormState.ToggleSection | src/components/PersonalInfoForm.js:256-261 | the section flips between open and closed, and an unknown section opens |
| PersonalInfoForm.PersonalInfoFormState.HandleSubmit | src/components/PersonalInfoForm.js:264-297 | the errors and open sections are set; a payload is submitted exactly when there are no errors |

## Left out

- Time zones. Dates are proleptic Gregorian calendar dates. A record's time is
  an `Instant`: its local date, its local hour and its UTC date. The source
  calls `toISOString()` in UTC and `getHours()` / `getDate()` in local time.
  The model keeps that split but does not compute it from an offset.
- The chat box compares "YYYY-MM-DD" strings. The model compares calendar
  dates, which agree for four-digit years.
- "Today" is an input. The source reads the clock on each call; the voice
  recorder reads it once per saved item.
- Floating point. `JNum` holds integers. `Number()` of an array or an object
  is treated as NaN, and `parseInt` only reads decimal text (no "0x" prefix).
- `JSON.parse`, `fetch`, the OpenAI request, `fetchDailyData`,
  `submitDailyData`, `saveDietData`, `checkUserBaseData` and
  `submitPersonalInfo` are inputs: outcome datatypes or functions.
- Web Speech recognition, FileReader, FormData, `alert`, `console`, page
  reloads, the loading and submitting flags, and the JSX rendering.
- The picker's option ranges (Minguo years 113 down to −6, months 1–12,
  days 1–31) are not modelled. Any text is accepted.
- Loading the user's data through `fetchBaseData` in the personal form, and
  the report's RequiredInfo, AISummary and OthersInfo fetches.
- The liquid and exercise sections and the other pages. They are not part of
  this model.
- ReportPage.GetRequiredFields: a section without a `fields` list is skipped
  by `section.fields?.forEach` in the source. The model gives every section a
  field list.
- ReportPage.GetNonGeneralSections: a section other than "一般資訊" without a
  `fields` list makes `section.fields.map` throw in the source. The model
  gives every section a field list, so this failure is not modelled.
- VoiceDraft.VoiceChatBox.Save: the reply's items are assumed well-typed, each
  an object whose `time` is a string or missing. A `null` item or a truthy
  non-string `time` (such as the number 8) makes `normalizeTime` throw in the
  source, which ends the loop after the items already saved and shows the
  failure alert. The model does not capture that stop.
- VoiceDraft.VoiceChatBox.Save: the server's answer `accepts` is a function of
  the payload alone, so two identical payloads get the same answer. The source
  places no such constraint on the server; no lemma depends on it.
- MealCompleteness.Chatbox.CheckUserData: the fetched `data` is assumed to be
  an array of record objects. A truthy `data` that is not an array, or one
  holding `null`, makes `meals.filter` or `meal.diet_time` throw in the
  source. The inner catch then prompts for breakfast, as when the fetch itself
  throws. The model cannot express such data, so it does not capture that case.
- DailyRecordForm.DailyRecordFormState.HandleDateSelect: `selectedDate` is
  held as a calendar date, not as its "YYYY-MM-DD" text.

## Findings

| source | as written | input that shows it | evidently intended | confidence | as-written member | corrected member |
|---|---|---|---|---|---|---|
| src/components/PersonalInfoForm.js:84-88, 110-118 | the year selector starts from the first piece of the stored Gregorian date, and every change adds 1911 to it | stored "1996-11-11", then only the month is changed to "12": the date sent is "3907-12-11" | the selector starts from the Minguo year (Gregorian year − 1911), so the date sent is "1996-12-11" | not executed | PersonalInfoForm.MonthEditAsWritten | PersonalInfoForm.MonthEditKeepsYear |
