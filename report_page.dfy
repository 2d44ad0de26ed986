/**
 * The personal report page: the required-field list with the birth date in
 * Chinese and the age in years, the other questionnaire sections, and the
 * three-day meal table with its thumbnails.
 */
module ReportPage {
  import opened Wrappers
  import opened CivilDates
  import opened JsText
  import opened JsValues
  import opened MealRecords
  import opened MealGrouping
  import opened Questionnaire
  import DietSection

  const Unfilled: string := "未填寫"

  // ----- Dates and age -----

  /** The weekday names from Sunday: 日 一 二 三 四 五 六. */
  const WeekdayNames: string := "日一二三四五六"

  /**
   * formatChineseDate: "未填寫" for an empty text, the text itself when it does
   * not parse (`parsed` is what `new Date(text)` reads back), otherwise
   * "Y年M月D日 星期W".
   */
  function FormatChineseDate(text: string, parsed: Option<Date>): (s: string)
    ensures text == "" ==> s == Unfilled
    ensures text != "" && parsed.None? ==> s == text
    ensures text != "" && parsed.Some? ==>
      s == IntToString(parsed.value.year) + "年" + ChineseMonthDay(parsed.value) + " 星期" + [WeekdayNames[Weekday(parsed.value)]]
  {
    if text == "" then Unfilled
    else if parsed.None? then text
    else
      var d := parsed.value;
      IntToString(d.year) + "年" + ChineseMonthDay(d) + " 星期" + [WeekdayNames[Weekday(d)]]
  }

  /** "M月D日" without zero padding. */
  function ChineseMonthDay(d: Date): string {
    NatToString(d.month) + "月" + NatToString(d.day) + "日"
  }

  /** A day after another is shown with the next weekday name. */
  lemma NextDayWeekdayName(d: Date)
    ensures WeekdayNames[Weekday(NextDay(d))] == WeekdayNames[(Weekday(d) + 1) % 7]
  {
    WeekdayOfNextDay(d);
  }

  /** 1 March 2024 was a Friday. */
  lemma FirstOfMarch2024IsFriday()
    ensures Weekday(CivilDate(2024, 3, 1)) == 5
  {
    assert DaysBeforeYear(2024) == 738885 by {
      assert 2023 / 4 == 505 && 2023 / 100 == 20 && 2023 / 400 == 5;
    }
    assert DaysBeforeMonth(2024, 2) == 31;
    assert DaysBeforeMonth(2024, 3) == 60;
    assert DayNumber(CivilDate(2024, 3, 1)) == 738946;
    DivModUnique(738946, 7, 105563, 5);
  }

  lemma YearText2024()
    ensures IntToString(2024) == "2024"
  {
    assert NatToString(2) == "2";
    assert NatToString(20) == "20";
    assert NatToString(202) == "202";
    assert NatToString(2024) == "2024";
  }

  lemma FormatChineseDateExample()
    ensures FormatChineseDate("2024-03-01", Some(CivilDate(2024, 3, 1))) == "2024年3月1日 星期五"
  {
    FirstOfMarch2024IsFriday();
    YearText2024();
    assert NatToString(3) == "3" && NatToString(1) == "1";
    assert WeekdayNames[5] == '五';
  }

  /** The report's age: the difference of the years, one less before this year's birthday. No clamp. */
  function AgeInYears(birth: Date, now: Date): int {
    var yearDiff := now.year - birth.year;
    var monthDiff := now.month - birth.month;
    if monthDiff < 0 || (monthDiff == 0 && now.day < birth.day) then yearDiff - 1 else yearDiff
  }

  /** calculateAge: "未填寫" for an empty or unparseable birth date, else "<years>歲". */
  function CalculateAge(text: string, birth: Option<Date>, now: Date): (s: string)
    ensures text == "" || birth.None? ==> s == Unfilled
    ensures text != "" && birth.Some? ==> s == IntToString(AgeInYears(birth.value, now)) + "歲"
  {
    if text == "" || birth.None? then Unfilled else IntToString(AgeInYears(birth.value, now)) + "歲"
  }

  /** On the n-th birthday the age is n. */
  lemma AgeOnBirthday(birth: Date, n: int)
    requires Valid(CivilDate(birth.year + n, birth.month, birth.day))
    ensures AgeInYears(birth, CivilDate(birth.year + n, birth.month, birth.day)) == n
  {
  }

  /** On the day before the n-th birthday the age is still n - 1. */
  lemma AgeDayBeforeBirthday(birth: Date, n: int)
    requires Valid(CivilDate(birth.year + n, birth.month, birth.day))
    ensures AgeInYears(birth, PrevDay(CivilDate(birth.year + n, birth.month, birth.day))) == n - 1
  {
  }

  /** A birth date in the future gives a negative age, since nothing clamps it. */
  lemma FutureBirthNegativeAge(birth: Date, now: Date)
    requires Before(now, birth)
    ensures AgeInYears(birth, now) < 0
  {
  }

  // ----- Questionnaire lists -----

  /** The required questions of some fields, as caption/name pairs, in order. */
  function RequiredIn(fields: seq<Field>): seq<FieldRef> {
    if |fields| == 0 then []
    else
      var last := fields[|fields| - 1];
      RequiredIn(fields[..|fields| - 1]) + (if last.required then [RefOf(last)] else [])
  }

  /** The required questions of every section, section by section. */
  function RequiredFields(sections: seq<Section>): seq<FieldRef> {
    if |sections| == 0 then []
    else RequiredFields(sections[..|sections| - 1]) + RequiredIn(sections[|sections| - 1].fields)
  }

  /** getRequiredFields: walks every field of every section and keeps the required ones. */
  method GetRequiredFields(sections: seq<Section>) returns (required: seq<FieldRef>)
    ensures required == RequiredFields(sections)
  {
    required := [];
    for i := 0 to |sections|
      invariant required == RequiredFields(sections[..i])
    {
      var fields := sections[i].fields;
      for j := 0 to |fields|
        invariant required == RequiredFields(sections[..i]) + RequiredIn(fields[..j])
      {
        assert fields[..j + 1][..j] == fields[..j];
        if fields[j].required {
          required := required + [RefOf(fields[j])];
        }
      }
      assert fields[..|fields|] == fields;
      assert sections[..i + 1][..i] == sections[..i];
    }
    assert sections[..|sections|] == sections;
  }

  lemma {:induction false} RequiredInMembers(fields: seq<Field>, x: FieldRef)
    ensures x in RequiredIn(fields) <==> exists k :: 0 <= k < |fields| && fields[k].required && RefOf(fields[k]) == x
  {
    if |fields| > 0 {
      var init := fields[..|fields| - 1];
      RequiredInMembers(init, x);
      if exists k :: 0 <= k < |init| && init[k].required && RefOf(init[k]) == x {
        var k :| 0 <= k < |init| && init[k].required && RefOf(init[k]) == x;
        assert fields[k] == init[k];
      }
      if exists k :: 0 <= k < |fields| && fields[k].required && RefOf(fields[k]) == x {
        var k :| 0 <= k < |fields| && fields[k].required && RefOf(fields[k]) == x;
        if k < |init| {
          assert init[k] == fields[k];
        }
      }
    }
  }

  /** A caption/name pair is listed exactly when some section has a required question with them. */
  lemma {:induction false} RequiredFieldsMembers(sections: seq<Section>, x: FieldRef)
    ensures x in RequiredFields(sections) <==>
      exists s, k :: 0 <= s < |sections| && 0 <= k < |sections[s].fields|
        && sections[s].fields[k].required && RefOf(sections[s].fields[k]) == x
  {
    if |sections| > 0 {
      var n := |sections|;
      var init := sections[..n - 1];
      RequiredFieldsMembers(init, x);
      RequiredInMembers(sections[n - 1].fields, x);
      if exists s, k :: 0 <= s < |init| && 0 <= k < |init[s].fields| && init[s].fields[k].required && RefOf(init[s].fields[k]) == x {
        var s, k :| 0 <= s < |init| && 0 <= k < |init[s].fields| && init[s].fields[k].required && RefOf(init[s].fields[k]) == x;
        assert sections[s] == init[s];
      }
      if exists s, k :: 0 <= s < n && 0 <= k < |sections[s].fields| && sections[s].fields[k].required && RefOf(sections[s].fields[k]) == x {
        var s, k :| 0 <= s < n && 0 <= k < |sections[s].fields| && sections[s].fields[k].required && RefOf(sections[s].fields[k]) == x;
        if s < n - 1 {
          assert init[s] == sections[s];
        }
      }
    }
  }

  /** When every question is required, every question is listed, in order. */
  lemma {:induction false} AllRequiredListsAll(fields: seq<Field>)
    requires forall k :: 0 <= k < |fields| ==> fields[k].required
    ensures RequiredIn(fields) == seq(|fields|, k requires 0 <= k < |fields| => RefOf(fields[k]))
  {
    if |fields| > 0 {
      AllRequiredListsAll(fields[..|fields| - 1]);
    }
  }

  /** The sections other than "一般資訊", in order. */
  function NonGeneral(sections: seq<Section>): seq<SectionView> {
    if |sections| == 0 then []
    else
      var last := sections[|sections| - 1];
      NonGeneral(sections[..|sections| - 1]) + (if last.title != GeneralSection then [ViewOf(last)] else [])
  }

  /** getNonGeneralSections: walks the sections and keeps every one not titled "一般資訊". */
  method GetNonGeneralSections(sections: seq<Section>) returns (views: seq<SectionView>)
    ensures views == NonGeneral(sections)
  {
    views := [];
    for i := 0 to |sections|
      invariant views == NonGeneral(sections[..i])
    {
      assert sections[..i + 1][..i] == sections[..i];
      if sections[i].title != GeneralSection {
        views := views + [ViewOf(sections[i])];
      }
    }
    assert sections[..|sections|] == sections;
  }

  /** A section is listed exactly when it is not the general one. */
  lemma {:induction false} NonGeneralMembers(sections: seq<Section>, v: SectionView)
    ensures v in NonGeneral(sections) <==>
      exists i :: 0 <= i < |sections| && sections[i].title != GeneralSection && ViewOf(sections[i]) == v
  {
    if |sections| > 0 {
      var init := sections[..|sections| - 1];
      NonGeneralMembers(init, v);
      if exists i :: 0 <= i < |init| && init[i].title != GeneralSection && ViewOf(init[i]) == v {
        var i :| 0 <= i < |init| && init[i].title != GeneralSection && ViewOf(init[i]) == v;
        assert sections[i] == init[i];
      }
      if exists i :: 0 <= i < |sections| && sections[i].title != GeneralSection && ViewOf(sections[i]) == v {
        var i :| 0 <= i < |sections| && sections[i].title != GeneralSection && ViewOf(sections[i]) == v;
        if i < |init| {
          assert init[i] == sections[i];
        }
      }
    }
  }

  /** Without a general section nothing is dropped and the order is kept. */
  lemma {:induction false} NonGeneralKeepsOthers(sections: seq<Section>)
    requires forall i :: 0 <= i < |sections| ==> sections[i].title != GeneralSection
    ensures NonGeneral(sections) == seq(|sections|, i requires 0 <= i < |sections| => ViewOf(sections[i]))
  {
    if |sections| > 0 {
      NonGeneralKeepsOthers(sections[..|sections| - 1]);
    }
  }

  // ----- The three-day meal table -----

  /** A table cell: the record's content and its image data. */
  datatype Cell = Cell(content: Content, images: JsValue)

  /** The table's load: failed with a message, or loaded as day → meal type → cell. */
  datatype TableLoad = LoadFailed(message: string) | Loaded(table: map<Date, map<string, Cell>>)

  function CellsOf(g: map<string, MealEntry>): map<string, Cell> {
    map t | t in g :: Cell(g[t].dietContent, g[t].dietImgPath)
  }

  /** The records a response contributes: its data when it succeeded, none otherwise. */
  function RecordsOf(response: FetchOutcome): seq<MealRecord> {
    if response.FetchResponse? && response.success && response.data.Some? then response.data.value else []
  }

  /** The contributed records of all responses, response by response. */
  function AllRecords(responses: seq<FetchOutcome>): seq<MealRecord> {
    if |responses| == 0 then []
    else AllRecords(responses[..|responses| - 1]) + RecordsOf(responses[|responses| - 1])
  }

  /** A successful response without data: reading its length throws. */
  predicate MissingData(response: FetchOutcome) {
    response.FetchResponse? && response.success && response.data.None?
  }

  /** Some response has no data, or some contributed record has a time that does not parse. */
  predicate Broken(responses: seq<FetchOutcome>) {
    (exists i :: 0 <= i < |responses| && MissingData(responses[i]))
    || exists k :: 0 <= k < |AllRecords(responses)| && AllRecords(responses)[k].at.None?
  }

  /** The table the loaded records give for the report's days: each day's records grouped by meal type. */
  function TableOf(days: seq<Date>, records: seq<MealRecord>): map<Date, map<string, Cell>> {
    map d | d in days :: CellsOf(Grouped(records, d))
  }

  /** One record added to the table: only its own day changes, under its meal type. */
  lemma AddRecordToTable(days: seq<Date>, records: seq<MealRecord>, r: MealRecord)
    requires r.at.Some?
    ensures TableOf(days, records + [r]) ==
      var t := TableOf(days, records);
      var u := r.at.value.utcDate;
      if u in t then t[u := t[u][r.mealType := Cell(r.content, r.imgPath)]] else t
  {
    var rs := records + [r];
    assert rs[..|records|] == records;
    var u := r.at.value.utcDate;
    var t := TableOf(days, records);
    var t' := TableOf(days, rs);
    forall d | d in days && d != u
      ensures t'[d] == t[d]
    {
      assert Grouped(rs, d) == Grouped(records, d);
    }
    if u in t {
      var g := Grouped(records, u);
      assert Grouped(rs, u) == g[r.mealType := EntryOf(r)];
      assert t'[u] == t[u][r.mealType := Cell(r.content, r.imgPath)];
      assert t' == t[u := t[u][r.mealType := Cell(r.content, r.imgPath)]];
    } else {
      assert t' == t;
    }
  }

  /**
   * One response's records added to the table in order; None when one of
   * them has a time that does not parse.
   */
  method AddRecords(days: seq<Date>, done: seq<MealRecord>, records: seq<MealRecord>, table: map<Date, map<string, Cell>>)
    returns (result: Option<map<Date, map<string, Cell>>>)
    requires table == TableOf(days, done)
    ensures result.None? <==> exists k :: 0 <= k < |records| && records[k].at.None?
    ensures result.Some? ==> result.value == TableOf(days, done + records)
  {
    var t := table;
    assert done + records[..0] == done;
    for j := 0 to |records|
      invariant forall k :: 0 <= k < j ==> records[k].at.Some?
      invariant t == TableOf(days, done + records[..j])
    {
      var r := records[j];
      if r.at.None? {
        return None;
      }
      assert done + records[..j + 1] == (done + records[..j]) + [r];
      AddRecordToTable(days, done + records[..j], r);
      var u := r.at.value.utcDate;
      if u in t {
        t := t[u := t[u][r.mealType := Cell(r.content, r.imgPath)]];
      }
    }
    assert records[..|records|] == records;
    result := Some(t);
  }

  /** A record of the last response that does not parse is a record of all responses that does not parse. */
  lemma BrokenByLast(responses: seq<FetchOutcome>, n: nat, k: nat)
    requires n < |responses| && k < |RecordsOf(responses[n])| && RecordsOf(responses[n])[k].at.None?
    ensures Broken(responses)
  {
    AllRecordsPrefix(responses, n + 1);
    assert responses[..n + 1][..n] == responses[..n];
    var before := AllRecords(responses[..n]);
    assert AllRecords(responses[..n + 1]) == before + RecordsOf(responses[n]);
    assert AllRecords(responses)[|before| + k] == RecordsOf(responses[n])[k];
  }

  /**
   * The grouping loop of DietRecord: every contributed record in order, put
   * under its date when that date is one of `days`. Fails as the page does
   * when a successful response lacks data or a record's time does not parse.
   */
  method BuildTable(days: seq<Date>, responses: seq<FetchOutcome>) returns (load: TableLoad)
    ensures load.LoadFailed? <==> Broken(responses)
    ensures load.LoadFailed? ==> load.message == LoadError
    ensures load.Loaded? ==> load.table == TableOf(days, AllRecords(responses))
  {
    var table := TableOf(days, []);
    for i := 0 to |responses|
      invariant forall i' :: 0 <= i' < i ==> !MissingData(responses[i'])
      invariant forall k :: 0 <= k < |AllRecords(responses[..i])| ==> AllRecords(responses[..i])[k].at.Some?
      invariant table == TableOf(days, AllRecords(responses[..i]))
    {
      var response := responses[i];
      assert responses[..i + 1][..i] == responses[..i];
      assert AllRecords(responses[..i + 1]) == AllRecords(responses[..i]) + RecordsOf(response);
      if MissingData(response) {
        assert Broken(responses);
        return LoadFailed(LoadError);
      }
      var added := AddRecords(days, AllRecords(responses[..i]), RecordsOf(response), table);
      if added.None? {
        var k :| 0 <= k < |RecordsOf(response)| && RecordsOf(response)[k].at.None?;
        BrokenByLast(responses, i, k);
        return LoadFailed(LoadError);
      }
      table := added.value;
    }
    assert responses[..|responses|] == responses;
    load := Loaded(table);
  }

  /** The records of a prefix of the responses come first among all records. */
  lemma {:induction false} AllRecordsPrefix(responses: seq<FetchOutcome>, n: nat)
    requires n <= |responses|
    ensures |AllRecords(responses[..n])| <= |AllRecords(responses)|
    ensures AllRecords(responses)[..|AllRecords(responses[..n])|] == AllRecords(responses[..n])
    decreases |responses| - n
  {
    if n < |responses| {
      var m := |responses|;
      var init := responses[..m - 1];
      assert init[..n] == responses[..n];
      AllRecordsPrefix(init, n);
    } else {
      assert responses[..n] == responses;
    }
  }

  const LoadError: string := "載入飲食紀錄失敗"

  /** The report's three days: today, yesterday and the day before, each as `setDate(getDate() - i)` gives it. */
  method ReportDays(today: Date) returns (days: seq<Date>)
    ensures days == [today, PrevDay(today), PrevDay(PrevDay(today))]
  {
    days := [];
    for i := 0 to 3
      invariant |days| == i
      invariant forall k :: 0 <= k < i ==> days[k] == AddDays(today, -k)
    {
      days := days + [AddDays(today, -i)];
    }
    assert AddDays(today, -2) == AddDays(PrevDay(today), -1);
  }

  /**
   * getDietRecords: without a user id (the page's, else the stored one) the
   * error is "請先登入"; otherwise the three days are fetched together (`fetch`
   * is the server), a rejected fetch fails the load, and the records are
   * grouped into the table.
   */
  method LoadDietRecords(pageUserId: Option<string>, storedUserid: Option<string>, today: Date, fetch: Date -> FetchOutcome)
    returns (load: TableLoad)
    ensures (pageUserId.None? || pageUserId.value == "") && (storedUserid.None? || storedUserid.value == "") ==>
      load == LoadFailed("請先登入")
    ensures !((pageUserId.None? || pageUserId.value == "") && (storedUserid.None? || storedUserid.value == "")) ==>
      var days := [today, PrevDay(today), PrevDay(PrevDay(today))];
      var responses := [fetch(days[0]), fetch(days[1]), fetch(days[2])];
      if exists i :: 0 <= i < 3 && responses[i].FetchThrew? then load == LoadFailed(LoadError)
      else if Broken(responses) then load == LoadFailed(LoadError)
      else load == Loaded(TableOf(days, AllRecords(responses)))
  {
    if (pageUserId.None? || pageUserId.value == "") && (storedUserid.None? || storedUserid.value == "") {
      return LoadFailed("請先登入");
    }
    var days := ReportDays(today);
    var responses := [fetch(days[0]), fetch(days[1]), fetch(days[2])];
    if responses[0].FetchThrew? || responses[1].FetchThrew? || responses[2].FetchThrew? {
      return LoadFailed(LoadError);
    }
    load := BuildTable(days, responses);
  }

  /** Each of the three days has its row, empty when it has no records. */
  lemma TableHasEveryDay(today: Date, records: seq<MealRecord>)
    ensures var days := [today, PrevDay(today), PrevDay(PrevDay(today))];
      var t := TableOf(days, records);
      today in t && PrevDay(today) in t && PrevDay(PrevDay(today)) in t && |t.Keys| == 3
    ensures TableOf([today, PrevDay(today), PrevDay(PrevDay(today))], []) == map d | d in [today, PrevDay(today), PrevDay(PrevDay(today))] :: map[]
  {
    var y := PrevDay(today);
    var z := PrevDay(y);
    assert Before(y, today) && Before(z, y);
    DayNumberOrder(y, today);
    DayNumberOrder(z, y);
    var t := TableOf([today, y, z], records);
    assert t.Keys == {today, y, z};
  }

  /** A record dated outside the three days leaves the table as it was. */
  lemma OtherDaysDropped(days: seq<Date>, records: seq<MealRecord>, r: MealRecord)
    requires r.at.Some? && r.at.value.utcDate !in days
    ensures TableOf(days, records + [r]) == TableOf(days, records)
  {
    AddRecordToTable(days, records, r);
  }

  // ----- Thumbnails -----

  /**
   * renderImages' path list: falsy → none; an array as it is; a string → [parsed.path]
   * when it parses to JSON with a truthy `path`, the string split on "," when it
   * parses otherwise, and none when it does not parse (the error is caught); an
   * object with a truthy `path` → [path]; anything else → none.
   */
  function RenderImages(v: JsValue, parse: string -> Option<JsValue>): (paths: seq<JsValue>)
    ensures !Truthy(v) ==> paths == []
    ensures v.JArr? ==> paths == v.items
    ensures v.JStr? && parse(v.s).None? ==> paths == []
    ensures v.JStr? && Truthy(v) && parse(v.s).Some? && !(Truthy(parse(v.s).value) && Truthy(Property(parse(v.s).value, "path"))) ==>
      |paths| == |Split(v.s, ',')| && forall k :: 0 <= k < |paths| ==> paths[k] == JStr(Split(v.s, ',')[k])
    ensures v.JObj? ==> paths == (if Truthy(Property(v, "path")) then [Property(v, "path")] else [])
    ensures v.JNum? || v.JBool? ==> paths == []
  {
    if !Truthy(v) then []
    else if v.JArr? then v.items
    else if v.JStr? then
      match parse(v.s)
      case None => []
      case Some(p) =>
        if Truthy(p) && Truthy(Property(p, "path")) then [Property(p, "path")]
        else
          var pieces := Split(v.s, ',');
          seq(|pieces|, k requires 0 <= k < |pieces| => JStr(pieces[k]))
    else if v.JObj? && Truthy(Property(v, "path")) then [Property(v, "path")]
    else []
  }

  /**
   * The report and the meal dialog read image data alike except for strings:
   * for arrays, objects, falsy values and JSON strings with a path they agree;
   * a string that is not JSON shows as itself in the dialog and as nothing in
   * the report; a JSON string without a path shows as itself in the dialog and
   * as its comma-separated pieces in the report.
   */
  lemma DialogAndReportPaths(v: JsValue, parse: string -> Option<JsValue>)
    ensures !v.JStr? ==> RenderImages(v, parse) == DietSection.ExtractImagePaths(v, parse)
    ensures v.JStr? && Truthy(v) && parse(v.s).Some? && Truthy(parse(v.s).value) && Truthy(Property(parse(v.s).value, "path")) ==>
      RenderImages(v, parse) == DietSection.ExtractImagePaths(v, parse) == [Property(parse(v.s).value, "path")]
    ensures v.JStr? && Truthy(v) && parse(v.s).None? ==>
      RenderImages(v, parse) == [] && DietSection.ExtractImagePaths(v, parse) == [v]
    ensures v.JStr? && Truthy(v) && parse(v.s).Some? && !(Truthy(parse(v.s).value) && Truthy(Property(parse(v.s).value, "path"))) ==>
      DietSection.ExtractImagePaths(v, parse) == [v] && |RenderImages(v, parse)| == |Split(v.s, ',')|
  {
  }

  const StaticPrefix: string := "/static"
  const DietImageDir: string := "/static/diet_img/"

  /** A thumbnail's source: the trimmed path, kept when it starts with "/static", else put under "/static/diet_img/". */
  function ImageSrc(path: string): (src: string)
    ensures StartsWith(src, StaticPrefix) && Trimmed(src)
    ensures StartsWith(Trim(path), StaticPrefix) ==> src == Trim(path)
    ensures !StartsWith(Trim(path), StaticPrefix) ==> src == DietImageDir + Trim(path)
  {
    var t := Trim(path);
    if StartsWith(t, StaticPrefix) then t
    else
      UnderDietImageDir(t);
      DietImageDir + t
  }

  /** A trimmed path put under "/static/diet_img/" starts with "/static" and stays trimmed. */
  lemma UnderDietImageDir(t: string)
    requires Trimmed(t)
    ensures StartsWith(DietImageDir + t, StaticPrefix) && Trimmed(DietImageDir + t)
  {
    var src := DietImageDir + t;
    assert src[..|StaticPrefix|] == StaticPrefix;
    assert src[0] == '/';
    assert |t| == 0 ==> src[|src| - 1] == '/';
    assert |t| > 0 ==> src[|src| - 1] == t[|t| - 1];
  }


  /** Resolving an already resolved source changes nothing. */
  lemma ImageSrcIdempotent(path: string)
    ensures ImageSrc(ImageSrc(path)) == ImageSrc(path)
  {
  }
}
