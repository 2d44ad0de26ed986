/**
 * PersonalInfoForm: the profile form. It shows the age in years and months,
 * converts the Minguo (ROC) year picked in the date picker to a Gregorian
 * date, validates required and number fields, expands the sections holding
 * errors, and normalises the data it submits.
 */
module PersonalInfoForm {
  import opened Wrappers
  import opened CivilDates
  import opened JsText
  import opened JsValues
  import opened JsNumbers
  import opened Questionnaire
  import ReportPage

  const BirthDate: string := "birth_date"
  const CalculatedAge: string := "calculated_age"
  const RequiredMessage: string := "必填"
  const NumberMessage: string := "請輸入有效的數字"

  // ----- Age -----

  /** Whole months from birth to now: 12 per year and 1 per month, less one before the day of the month. */
  function TotalMonths(birth: Date, now: Date): int {
    (now.year - birth.year) * 12 + (now.month - birth.month) - (if now.day < birth.day then 1 else 0)
  }

  /** An age split into whole years and the remaining months. */
  datatype Age = Age(years: nat, months: nat)

  /** calculateAge's numbers: the total clamped at 0, then years and months of it. */
  function AgeOf(birth: Date, now: Date): (a: Age)
    ensures a.months < 12
    ensures a.years * 12 + a.months == if TotalMonths(birth, now) < 0 then 0 else TotalMonths(birth, now)
  {
    var total := TotalMonths(birth, now);
    var clamped := if total < 0 then 0 else total;
    Age(clamped / 12, clamped % 12)
  }

  /** calculateAge: "" for an empty or unparseable birth date, else "<y> 歲 <m> 個月". */
  function CalculateAge(text: string, birth: Option<Date>, now: Date): (s: string)
    ensures text == "" || birth.None? ==> s == ""
    ensures text != "" && birth.Some? ==>
      s == NatToString(AgeOf(birth.value, now).years) + " 歲 " + NatToString(AgeOf(birth.value, now).months) + " 個月"
  {
    if text == "" || birth.None? then ""
    else
      var a := AgeOf(birth.value, now);
      NatToString(a.years) + " 歲 " + NatToString(a.months) + " 個月"
  }

  /** A birth date in the future reads "0 歲 0 個月". */
  lemma FutureBirthIsZero(text: string, birth: Date, now: Date)
    requires text != "" && Before(now, birth)
    ensures TotalMonths(birth, now) < 0
    ensures CalculateAge(text, Some(birth), now) == "0 歲 0 個月"
  {
  }

  lemma DivByTwelve(y: int, q: int, r: int)
    requires y == 12 * q + r && 0 <= r < 12
    ensures y / 12 == q
  {
    assert y == 12 * (y / 12) + y % 12;
  }

  /** For a birth date not in the future, the form's years are the report's age in years. */
  lemma AgreesWithReport(birth: Date, now: Date)
    requires TotalMonths(birth, now) >= 0
    ensures AgeOf(birth, now).years == ReportPage.AgeInYears(birth, now)
  {
    var yearDiff := now.year - birth.year;
    var monthDiff := now.month - birth.month;
    var late := if now.day < birth.day then 1 else 0;
    var total := TotalMonths(birth, now);
    if monthDiff - late >= 0 {
      DivByTwelve(total, yearDiff, monthDiff - late);
    } else {
      DivByTwelve(total, yearDiff - 1, monthDiff - late + 12);
    }
  }

  /** formatChineseDate: "" for an empty text, the text itself when unparseable, else "Y年M月D日". */
  function FormatChineseDate(text: string, parsed: Option<Date>): (s: string)
    ensures text == "" ==> s == ""
    ensures text != "" && parsed.None? ==> s == text
    ensures text != "" && parsed.Some? ==> s == IntToString(parsed.value.year) + "年" + ReportPage.ChineseMonthDay(parsed.value)
  {
    if text == "" then ""
    else if parsed.None? then text
    else IntToString(parsed.value.year) + "年" + ReportPage.ChineseMonthDay(parsed.value)
  }

  /** The report shows the same date text as the form, with the weekday after it. */
  lemma ReportAddsWeekday(text: string, d: Date)
    requires text != ""
    ensures ReportPage.FormatChineseDate(text, Some(d))
      == FormatChineseDate(text, Some(d)) + " 星期" + [ReportPage.WeekdayNames[Weekday(d)]]
  {
  }

  // ----- The Minguo date picker -----

  /** The picker's selects: Minguo year, month and day, as text. */
  datatype PickerState = PickerState(rocYear: string, month: string, day: string)

  /** Which select changed. */
  datatype PickerPart = YearPart | MonthPart | DayPart

  /** `parseInt(year) + 1911` as text: "NaN" when the year does not parse. */
  function GregorianYear(rocYear: string): string {
    match ParseInt(rocYear)
    case None => "NaN"
    case Some(y) => IntToString(y + 1911)
  }

  /**
   * updateGregorianDate: nothing unless year, month and day are all chosen;
   * then "<ROC year + 1911>-<month>-<day>", month and day padded to two digits.
   */
  function UpdateGregorianDate(rocYear: string, month: string, day: string): (r: Option<string>)
    ensures r.Some? <==> rocYear != "" && month != "" && day != ""
  {
    if rocYear != "" && month != "" && day != "" then
      Some(GregorianYear(rocYear) + "-" + PadStart(month, 2, '0') + "-" + PadStart(day, 2, '0'))
    else None
  }

  /** The decimal text of Minguo year n gives the text of n + 1911. */
  lemma GregorianOfDecimal(n: nat)
    ensures GregorianYear(NatToString(n)) == NatToString(n + 1911)
  {
    ParseIntOfDecimal(n, "");
    assert NatToString(n) + "" == NatToString(n);
  }

  /** The emitted date for a decimal Minguo year and a chosen month and day. */
  lemma UpdateOfDecimal(n: nat, month: string, day: string)
    requires month != "" && day != ""
    ensures UpdateGregorianDate(NatToString(n), month, day)
      == Some(NatToString(n + 1911) + "-" + PadStart(month, 2, '0') + "-" + PadStart(day, 2, '0'))
  {
    GregorianOfDecimal(n);
  }

  /** Minguo year n is Gregorian year n + 1911, and single-digit months and days gain a leading zero. */
  lemma MinguoConversion(n: nat, month: nat, day: nat)
    requires 1 <= month <= 9 && 1 <= day <= 9
    ensures UpdateGregorianDate(NatToString(n), NatToString(month), NatToString(day))
      == Some(NatToString(n + 1911) + "-0" + NatToString(month) + "-0" + NatToString(day))
  {
    UpdateOfDecimal(n, NatToString(month), NatToString(day));
    PadOneDigit(month);
    PadOneDigit(day);
    var g := NatToString(n + 1911);
    var m := NatToString(month);
    var d := NatToString(day);
    assert g + "-" + ("0" + m) + "-" + ("0" + d) == g + "-0" + m + "-0" + d;
  }

  lemma PadOneDigit(d: nat)
    requires 1 <= d <= 9
    ensures PadStart(NatToString(d), 2, '0') == "0" + NatToString(d)
  {
    var p := PadStart(NatToString(d), 2, '0');
    assert p[1..] == NatToString(d);
    assert p == [p[0]] + p[1..];
  }

  lemma PadTwoDigits(s: string)
    requires |s| == 2
    ensures PadStart(s, 2, '0') == s
  {
    var p := PadStart(s, 2, '0');
    assert p[0..] == p;
  }

  /** A picker edit: the new selects and the date it emits, if any. */
  function PickerEdit(state: PickerState, part: PickerPart, value: string): (PickerState, Option<string>) {
    var next := match part
      case YearPart => state.(rocYear := value)
      case MonthPart => state.(month := value)
      case DayPart => state.(day := value);
    (next, UpdateGregorianDate(next.rocYear, next.month, next.day))
  }

  /** A month edit emits the date of the kept year and day with the new month. */
  lemma MonthEdit(state: PickerState, month: string)
    ensures PickerEdit(state, MonthPart, month).1 == UpdateGregorianDate(state.rocYear, month, state.day)
  {
  }

  /** Piece `i` of the birth date split on "-", "" when it is missing (undefined). */
  function PieceOf(value: string, i: nat): string {
    var parts := Split(value, '-');
    if i < |parts| then parts[i] else ""
  }

  /** The picker's first selects as written: the year select starts from the stored Gregorian year. */
  function PickerStartAsWritten(value: string): PickerState {
    if value == "" then PickerState("", "", "")
    else PickerState(PieceOf(value, 0), PieceOf(value, 1), PieceOf(value, 2))
  }

  /** The picker's first selects as intended: the stored Gregorian year less 1911. */
  function PickerStart(value: string): PickerState {
    if value == "" then PickerState("", "", "")
    else
      var rocYear := match ParseInt(PieceOf(value, 0))
        case None => ""
        case Some(y) => IntToString(y - 1911);
      PickerState(rocYear, PieceOf(value, 1), PieceOf(value, 2))
  }

  /** A stored birth date "YYYY-MM-DD" with a year from 1912 on. */
  predicate StoredBirthDate(value: string, year: nat, mm: string, dd: string) {
    year >= 1912 && |mm| == 2 && |dd| == 2 && AllDigits(mm) && AllDigits(dd)
    && value == NatToString(year) + "-" + mm + "-" + dd
  }

  lemma NoDashInDigits(s: string)
    requires AllDigits(s)
    ensures '-' !in s
  {
  }

  lemma {:induction false} SplitBirthDate(value: string, year: nat, mm: string, dd: string)
    requires StoredBirthDate(value, year, mm, dd)
    ensures Split(value, '-') == [NatToString(year), mm, dd]
  {
    var ys := NatToString(year);
    NoDashInDigits(ys);
    NoDashInDigits(mm);
    NoDashInDigits(dd);
    assert value == ys + ['-'] + (mm + ['-'] + dd);
    SplitAfterPiece(ys, mm + ['-'] + dd, '-');
    SplitAfterPiece(mm, dd, '-');
    SplitOfPiece(dd, '-');
  }

  /** The selects the picker starts from for a stored birth date, as written and as intended. */
  lemma {:induction false} PickerStarts(value: string, year: nat, mm: string, dd: string)
    requires StoredBirthDate(value, year, mm, dd)
    ensures PickerStartAsWritten(value) == PickerState(NatToString(year), mm, dd)
    ensures PickerStart(value) == PickerState(NatToString(year - 1911), mm, dd)
  {
    SplitBirthDate(value, year, mm, dd);
    assert PieceOf(value, 0) == NatToString(year);
    assert PieceOf(value, 1) == mm;
    assert PieceOf(value, 2) == dd;
    ParseIntOfDecimal(year, "");
    assert NatToString(year) + "" == NatToString(year);
  }

  /**
   * As written, editing only the month of a stored birth date adds 1911 to
   * the Gregorian year a second time.
   */
  lemma MonthEditAsWritten(value: string, year: nat, mm: string, dd: string, month: string)
    requires StoredBirthDate(value, year, mm, dd) && month != ""
    ensures PickerEdit(PickerStartAsWritten(value), MonthPart, month).1
      == Some(NatToString(year + 1911) + "-" + PadStart(month, 2, '0') + "-" + dd)
  {
    PickerStarts(value, year, mm, dd);
    MonthEdit(PickerState(NatToString(year), mm, dd), month);
    UpdateOfDecimal(year, month, dd);
    PadTwoDigits(dd);
  }

  /** With the intended start, editing only the month keeps the stored year and day. */
  lemma MonthEditKeepsYear(value: string, roc: nat, mm: string, dd: string, month: string)
    requires StoredBirthDate(value, roc + 1911, mm, dd) && month != ""
    ensures PickerEdit(PickerStart(value), MonthPart, month).1
      == Some(NatToString(roc + 1911) + "-" + PadStart(month, 2, '0') + "-" + dd)
  {
    PickerStarts(value, roc + 1911, mm, dd);
    var start := PickerState(NatToString(roc), mm, dd);
    MonthEdit(start, month);
    UpdateOfDecimal(roc, month, dd);
    PadTwoDigits(dd);
  }

  // ----- Validation -----

  /** The value a form field reads: undefined (modelled as null) when the key is absent. */
  function ValueOf(data: map<string, JsValue>, name: string): JsValue {
    if name in data then data[name] else JNull
  }

  /** One field's check: "必填" when required and empty, else "請輸入有效的數字" for a non-numeric number field. */
  function FieldError(f: Field, data: map<string, JsValue>): (e: Option<string>)
    ensures e == Some(RequiredMessage) <==> f.required && !Truthy(ValueOf(data, f.name))
    ensures e == Some(NumberMessage) <==>
      !(f.required && !Truthy(ValueOf(data, f.name))) && f.kind == "number"
      && Truthy(ValueOf(data, f.name)) && !NumericValue(ValueOf(data, f.name))
    ensures e.None? || e == Some(RequiredMessage) || e == Some(NumberMessage)
  {
    var v := ValueOf(data, f.name);
    if f.required && !Truthy(v) then Some(RequiredMessage)
    else if f.kind == "number" && Truthy(v) && !NumericValue(v) then Some(NumberMessage)
    else None
  }

  /** Every field of every section, in order. */
  function AllFields(sections: seq<Section>): seq<Field> {
    if |sections| == 0 then []
    else AllFields(sections[..|sections| - 1]) + sections[|sections| - 1].fields
  }

  /** The error object the checks build, field after field. */
  function ErrorsOf(fields: seq<Field>, data: map<string, JsValue>): map<string, string> {
    if |fields| == 0 then map[]
    else
      var before := ErrorsOf(fields[..|fields| - 1], data);
      var f := fields[|fields| - 1];
      match FieldError(f, data)
      case None => before
      case Some(e) => before[f.name := e]
  }

  /** validateForm: checks each field of each section. */
  method ValidateForm(sections: seq<Section>, data: map<string, JsValue>) returns (errors: map<string, string>)
    ensures errors == ErrorsOf(AllFields(sections), data)
  {
    errors := map[];
    for i := 0 to |sections|
      invariant errors == ErrorsOf(AllFields(sections[..i]), data)
    {
      var fields := sections[i].fields;
      assert sections[..i + 1][..i] == sections[..i];
      ghost var done := AllFields(sections[..i]);
      assert done + fields[..0] == done;
      for j := 0 to |fields|
        invariant errors == ErrorsOf(done + fields[..j], data)
      {
        assert (done + fields[..j + 1])[..|done| + j] == done + fields[..j];
        match FieldError(fields[j], data) {
          case None =>
          case Some(e) => errors := errors[fields[j].name := e];
        }
      }
      assert fields[..|fields|] == fields;
    }
    assert sections[..|sections|] == sections;
  }

  /** A name has an error exactly when some field of that name fails its check. */
  lemma {:induction false} ErrorKeys(fields: seq<Field>, data: map<string, JsValue>, name: string)
    ensures name in ErrorsOf(fields, data) <==>
      exists k :: 0 <= k < |fields| && fields[k].name == name && FieldError(fields[k], data).Some?
  {
    if |fields| > 0 {
      var init := fields[..|fields| - 1];
      ErrorKeys(init, data, name);
      if exists k :: 0 <= k < |init| && init[k].name == name && FieldError(init[k], data).Some? {
        var k :| 0 <= k < |init| && init[k].name == name && FieldError(init[k], data).Some?;
        assert fields[k] == init[k];
      }
      if exists k :: 0 <= k < |fields| && fields[k].name == name && FieldError(fields[k], data).Some? {
        var k :| 0 <= k < |fields| && fields[k].name == name && FieldError(fields[k], data).Some?;
        if k < |init| {
          assert init[k] == fields[k];
        }
      }
    }
  }

  /** With field names unique, a field's error is its own check's message. */
  lemma {:induction false} ErrorOfUniqueField(fields: seq<Field>, data: map<string, JsValue>, k: int)
    requires 0 <= k < |fields| && FieldError(fields[k], data).Some?
    requires forall j :: 0 <= j < |fields| && j != k ==> fields[j].name != fields[k].name
    ensures fields[k].name in ErrorsOf(fields, data)
    ensures ErrorsOf(fields, data)[fields[k].name] == FieldError(fields[k], data).value
  {
    var init := fields[..|fields| - 1];
    if k < |fields| - 1 {
      assert init[k] == fields[k];
      forall j | 0 <= j < |init| && j != k
        ensures init[j].name != init[k].name
      {
        assert init[j] == fields[j];
      }
      ErrorOfUniqueField(init, data, k);
    }
  }

  // ----- Expanding sections with errors -----

  /** A section whose fields include one named in the errors. */
  predicate HasError(s: Section, errors: map<string, string>) {
    exists k :: 0 <= k < |s.fields| && s.fields[k].name in errors
  }

  /** The expansion flags after marking, field by field, every section that holds an errored field. */
  function ExpandFields(title: string, fields: seq<Field>, errors: map<string, string>, expanded: map<string, bool>): map<string, bool> {
    if |fields| == 0 then expanded
    else
      var before := ExpandFields(title, fields[..|fields| - 1], errors, expanded);
      if fields[|fields| - 1].name in errors then before[title := true] else before
  }

  function ExpandSections(sections: seq<Section>, errors: map<string, string>, expanded: map<string, bool>): map<string, bool> {
    if |sections| == 0 then expanded
    else
      var last := sections[|sections| - 1];
      ExpandFields(last.title, last.fields, errors, ExpandSections(sections[..|sections| - 1], errors, expanded))
  }

  lemma {:induction false} ExpandFieldsMeaning(title: string, fields: seq<Field>, errors: map<string, string>, expanded: map<string, bool>)
    ensures ExpandFields(title, fields, errors, expanded)
      == if HasError(Section(title, fields), errors) then expanded[title := true] else expanded
  {
    if |fields| > 0 {
      var init := fields[..|fields| - 1];
      ExpandFieldsMeaning(title, init, errors, expanded);
      if HasError(Section(title, init), errors) {
        var k :| 0 <= k < |init| && init[k].name in errors;
        assert fields[k] == init[k];
      }
    }
  }

  /**
   * After handleSubmit's marking, a section is expanded exactly when it holds
   * an errored field or was expanded before; the others keep their state.
   */
  lemma {:induction false} ExpandSectionsMeaning(sections: seq<Section>, errors: map<string, string>, expanded: map<string, bool>, t: string)
    ensures var r := ExpandSections(sections, errors, expanded);
      && (t in r <==> t in expanded || exists i :: 0 <= i < |sections| && sections[i].title == t && HasError(sections[i], errors))
      && (t in r && (exists i :: 0 <= i < |sections| && sections[i].title == t && HasError(sections[i], errors)) ==> r[t])
      && (t in r && !(exists i :: 0 <= i < |sections| && sections[i].title == t && HasError(sections[i], errors)) ==> r[t] == expanded[t])
  {
    if |sections| > 0 {
      var n := |sections|;
      var init := sections[..n - 1];
      var last := sections[n - 1];
      ExpandSectionsMeaning(init, errors, expanded, t);
      ExpandFieldsMeaning(last.title, last.fields, errors, ExpandSections(init, errors, expanded));
      assert last == Section(last.title, last.fields);
      if exists i :: 0 <= i < |init| && init[i].title == t && HasError(init[i], errors) {
        var i :| 0 <= i < |init| && init[i].title == t && HasError(init[i], errors);
        assert sections[i] == init[i];
      }
      if exists i :: 0 <= i < n && sections[i].title == t && HasError(sections[i], errors) {
        var i :| 0 <= i < n && sections[i].title == t && HasError(sections[i], errors);
        if i < n - 1 {
          assert init[i] == sections[i];
        }
      }
    }
  }

  /** handleSubmit's marking loop over the sections and their fields. */
  method ExpandErrored(sections: seq<Section>, errors: map<string, string>, expanded: map<string, bool>)
    returns (r: map<string, bool>)
    ensures r == ExpandSections(sections, errors, expanded)
  {
    r := expanded;
    for i := 0 to |sections|
      invariant r == ExpandSections(sections[..i], errors, expanded)
    {
      var s := sections[i];
      assert sections[..i + 1][..i] == sections[..i];
      ghost var start := r;
      for j := 0 to |s.fields|
        invariant r == ExpandFields(s.title, s.fields[..j], errors, start)
      {
        assert s.fields[..j + 1][..j] == s.fields[..j];
        if s.fields[j].name in errors {
          r := r[s.title := true];
        }
      }
      assert s.fields[..|s.fields|] == s.fields;
    }
    assert sections[..|sections|] == sections;
  }

  // ----- Submitting -----

  /** handleSubmit's copy of the data: every "" becomes null, and calculated_age is removed. */
  method NormalizeForSubmit(data: map<string, JsValue>) returns (r: map<string, JsValue>)
    ensures r.Keys == data.Keys - {CalculatedAge}
    ensures forall k :: k in r ==> r[k] == (if data[k] == JStr("") then JNull else data[k])
    ensures forall k :: k in r ==> r[k] != JStr("")
  {
    r := data;
    var pending := data.Keys;
    while pending != {}
      invariant pending <= data.Keys && r.Keys == data.Keys
      invariant forall k :: k in r && k !in pending ==> r[k] == (if data[k] == JStr("") then JNull else data[k])
      invariant forall k :: k in r && k in pending ==> r[k] == data[k]
      decreases |pending|
    {
      var k :| k in pending;
      if r[k] == JStr("") {
        r := r[k := JNull];
      }
      pending := pending - {k};
    }
    r := r - {CalculatedAge};
  }

  /** What handleSubmit sends for `data`: the normalised fields and the userid. */
  predicate IsSubmission(payload: map<string, JsValue>, data: map<string, JsValue>, userid: Option<string>) {
    && payload.Keys == (data.Keys - {CalculatedAge}) + {"userid"}
    && payload["userid"] == (if userid.Some? then JStr(userid.value) else JNull)
    && forall k :: k in data && k != CalculatedAge && k != "userid" ==>
         payload[k] == (if data[k] == JStr("") then JNull else data[k])
  }

  /** `{ ...updatedFormData, userid }`: the normalised copy with the userid added. */
  method BuildSubmission(data: map<string, JsValue>, userid: Option<string>) returns (payload: map<string, JsValue>)
    ensures IsSubmission(payload, data, userid)
    ensures forall k :: k in payload && k != "userid" ==> payload[k] != JStr("")
  {
    var updated := NormalizeForSubmit(data);
    var id := if userid.Some? then JStr(userid.value) else JNull;
    payload := updated["userid" := id];
  }

  /** The profile form's state. */
  class PersonalInfoFormState {
    var formData: map<string, JsValue>
    var expandedSections: map<string, bool>
    var errors: map<string, string>
    var userid: Option<string>

    /** Every question's name starts as "", no section is expanded, and the stored userid is read. */
    constructor (sections: seq<Section>, storedUserid: Option<string>)
      ensures formData.Keys == set f | f in AllFields(sections) :: f.name
      ensures forall k :: k in formData ==> formData[k] == JStr("")
      ensures expandedSections == map[] && errors == map[]
      ensures userid == if storedUserid.Some? && storedUserid.value != "" then storedUserid else None
    {
      var data: map<string, JsValue> := map[];
      for i := 0 to |sections|
        invariant data.Keys == set f | f in AllFields(sections[..i]) :: f.name
        invariant forall k :: k in data ==> data[k] == JStr("")
      {
        var fields := sections[i].fields;
        assert sections[..i + 1][..i] == sections[..i];
        ghost var done := AllFields(sections[..i]);
        for j := 0 to |fields|
          invariant data.Keys == set f | f in done + fields[..j] :: f.name
          invariant forall k :: k in data ==> data[k] == JStr("")
        {
          assert done + fields[..j + 1] == (done + fields[..j]) + [fields[j]];
          data := data[fields[j].name := JStr("")];
        }
        assert fields[..|fields|] == fields;
      }
      assert sections[..|sections|] == sections;
      formData := data;
      expandedSections := map[];
      errors := map[];
      userid := if storedUserid.Some? && storedUserid.value != "" then storedUserid else None;
    }

    /** handleChange: the field takes the typed text; a birth date also recomputes calculated_age. */
    method HandleChange(name: string, value: string, birth: Option<Date>, now: Date)
      modifies this
      ensures name != BirthDate ==> formData == old(formData)[name := JStr(value)]
      ensures name == BirthDate ==>
        formData == old(formData)[BirthDate := JStr(value)][CalculatedAge := JStr(CalculateAge(value, birth, now))]
      ensures expandedSections == old(expandedSections) && errors == old(errors) && userid == old(userid)
    {
      formData := formData[name := JStr(value)];
      if name == BirthDate {
        formData := formData[BirthDate := JStr(value)][CalculatedAge := JStr(CalculateAge(value, birth, now))];
      }
    }

    /** toggleSection: only the named section flips; an unset one becomes expanded. */
    method ToggleSection(title: string)
      modifies this
      ensures expandedSections == old(expandedSections)[title := !(title in old(expandedSections) && old(expandedSections)[title])]
      ensures formData == old(formData) && errors == old(errors) && userid == old(userid)
    {
      expandedSections := expandedSections[title := !(title in expandedSections && expandedSections[title])];
    }

    /**
     * handleSubmit: validates, expands the sections with errors, records the
     * errors, and returns the submitted data — the normalised copy with the
     * userid — only when there is no error.
     */
    method HandleSubmit(sections: seq<Section>) returns (submitted: Option<map<string, JsValue>>)
      modifies this
      ensures errors == ErrorsOf(AllFields(sections), old(formData))
      ensures expandedSections == ExpandSections(sections, errors, old(expandedSections))
      ensures formData == old(formData) && userid == old(userid)
      ensures submitted.Some? <==> |errors| == 0
      ensures submitted.Some? ==> IsSubmission(submitted.value, formData, userid)
    {
      var formErrors := ValidateForm(sections, formData);
      var newExpanded := ExpandErrored(sections, formErrors, expandedSections);
      expandedSections := newExpanded;
      errors := formErrors;
      if |formErrors| == 0 {
        var payload := BuildSubmission(formData, userid);
        submitted := Some(payload);
      } else {
        submitted := None;
      }
    }
  }
}
