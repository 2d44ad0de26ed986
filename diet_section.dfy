/**
 * DietSection: the edit dialog of one meal. It converts between the stored
 * "YYYY-MM-DD HH:MM:SS" time and the editor's "YYYY-MM-DDTHH:MM", between a
 * list of food items and the comma-separated text the user edits, handles the
 * skip-meal sentinel, and reads image paths from loosely typed values.
 */
module DietSection {
  import opened Wrappers
  import opened JsText
  import opened JsValues
  import opened MealRecords

  const SkippedContent: string := "沒吃"
  const SkippedDisplay: string := "不吃"
  const ImageHost: string := "https://flaskapi.avatarmedicine.xyz/"

  // ----- Time -----

  /** openModal's time: the first " " becomes "T", cut to 16 characters; "" when absent. */
  function ToEditorTime(dietTime: string): (t: string)
    ensures |t| <= 16
  {
    if dietTime == "" then "" else Take(ReplaceFirst(dietTime, ' ', 'T'), 16)
  }

  /** handleSave's time: the first "T" becomes " ", then ":00" is appended. */
  function ToStoredTime(editorTime: string): string {
    ReplaceFirst(editorTime, 'T', ' ') + ":00"
  }

  /** A stored time "YYYY-MM-DD HH:MM…": the date part holds neither " " nor "T". */
  predicate StoredTimeShape(s: string) {
    |s| >= 16 && s[10] == ' ' && ' ' !in s[..10] && 'T' !in s[..10]
  }

  /** Opening and saving unchanged keeps date, hour and minute and sets the seconds to 00. */
  lemma TimeRoundTrip(s: string)
    requires StoredTimeShape(s)
    ensures ToEditorTime(s) == s[..10] + "T" + s[11..16]
    ensures ToStoredTime(ToEditorTime(s)) == s[..16] + ":00"
  {
    IndexOfAt(s, ' ', 10);
    var r := ReplaceFirst(s, ' ', 'T');
    var e := r[..16];
    var want := s[..10] + "T" + s[11..16];
    assert |want| == 16;
    forall i | 0 <= i < 16
      ensures e[i] == want[i]
    {
      if i < 10 {
        assert want[i] == s[i];
      } else if i > 10 {
        assert want[i] == s[i];
      }
    }
    assert e == want;
    assert e[..10] == s[..10];
    IndexOfAt(e, 'T', 10);
    var back := ReplaceFirst(e, 'T', ' ');
    forall i | 0 <= i < 16
      ensures back[i] == s[..16][i]
    {
      if i < 10 {
        assert e[i] == s[i];
      } else if i > 10 {
        assert e[i] == s[i];
      }
    }
    assert back == s[..16];
  }

  // ----- Content -----

  /** openModal's content: a list joined with ", ", a string as it is, nothing as "". */
  function ContentToEditor(c: Content): string {
    match c
    case Items(items) => Join(items, ", ")
    case Text(t) => t
    case NoContent => ""
  }

  /** The edited text split on "," with every piece trimmed. */
  function EditorToItems(text: string): (items: seq<string>)
    ensures |items| >= 1
    ensures forall i :: 0 <= i < |items| ==> ',' !in items[i] && Trimmed(items[i])
  {
    var parts := Split(text, ',');
    seq(|parts|, i requires 0 <= i < |parts| => Trim(parts[i]))
  }

  lemma EditorToItemsAt(text: string, i: nat)
    requires i < |Split(text, ',')|
    ensures |EditorToItems(text)| == |Split(text, ',')|
    ensures EditorToItems(text)[i] == Trim(Split(text, ',')[i])
  {
  }

  /** Splitting items joined by ", " on "," gives the first item, then each further item behind a space. */
  lemma {:induction false} SplitJoinedItems(items: seq<string>)
    requires |items| >= 1
    requires forall i :: 0 <= i < |items| ==> ',' !in items[i]
    ensures |Split(Join(items, ", "), ',')| == |items|
    ensures Split(Join(items, ", "), ',')[0] == items[0]
    ensures forall i :: 1 <= i < |items| ==> Split(Join(items, ", "), ',')[i] == " " + items[i]
  {
    if |items| == 1 {
      SplitOfPiece(items[0], ',');
    } else {
      var tail := items[1..];
      SplitJoinedItems(tail);
      var jt := Join(tail, ", ");
      var pt := Split(jt, ',');
      assert Join(items, ", ") == items[0] + [','] + (" " + jt);
      SplitAfterPiece(items[0], " " + jt, ',');
      assert (" " + jt)[1..] == jt;
      var ps := Split(" " + jt, ',');
      assert ps == [" " + pt[0]] + pt[1..];
      var p := Split(Join(items, ", "), ',');
      assert p == [items[0]] + ps;
      forall i | 1 <= i < |items|
        ensures p[i] == " " + items[i]
      {
        assert p[i] == ps[i - 1];
        assert tail[i - 1] == items[i];
      }
    }
  }

  lemma PieceTrimsToItem(items: seq<string>, text: string, i: nat)
    requires i < |items| && text == Join(items, ", ")
    requires |Split(text, ',')| == |items|
    requires i == 0 ==> Split(text, ',')[i] == items[i]
    requires i > 0 ==> Split(text, ',')[i] == " " + items[i]
    requires Trimmed(items[i])
    ensures |EditorToItems(text)| == |items|
    ensures EditorToItems(text)[i] == items[i]
  {
    EditorToItemsAt(text, i);
    if i > 0 {
      TrimDropsLeadingSpace(items[i]);
    }
  }

  /** Joining items with ", " and splitting again gives items back when none has a comma or outer space. */
  lemma ContentRoundTrip(items: seq<string>)
    requires |items| >= 1
    requires forall i :: 0 <= i < |items| ==> ',' !in items[i] && Trimmed(items[i])
    ensures EditorToItems(ContentToEditor(Items(items))) == items
  {
    var text := Join(items, ", ");
    SplitJoinedItems(items);
    var p := Split(text, ',');
    var out := EditorToItems(text);
    assert |out| == |items|;
    forall i | 0 <= i < |items|
      ensures out[i] == items[i]
    {
      PieceTrimsToItem(items, text, i);
    }
    assert out == items;
  }

  // ----- Image paths -----

  /**
   * extractImagePaths: falsy → [], an array as it is, a string → [parsed.path]
   * when it parses to JSON with a truthy `path` and [the string] otherwise, an
   * object with a truthy `path` → [path], anything else → []. `parse` is
   * JSON.parse, None when it throws.
   */
  function ExtractImagePaths(v: JsValue, parse: string -> Option<JsValue>): (paths: seq<JsValue>)
    ensures !Truthy(v) ==> paths == []
    ensures v.JArr? ==> paths == v.items
    ensures v.JStr? && Truthy(v) ==> |paths| == 1
    ensures v.JObj? ==> paths == (if Truthy(Property(v, "path")) then [Property(v, "path")] else [])
    ensures v.JNum? || v.JBool? ==> paths == []
  {
    if !Truthy(v) then []
    else if v.JArr? then v.items
    else if v.JStr? then
      match parse(v.s)
      case None => [v]
      case Some(p) => if Truthy(p) && Truthy(Property(p, "path")) then [Property(p, "path")] else [v]
    else if v.JObj? && Truthy(Property(v, "path")) then [Property(v, "path")]
    else []
  }

  /** The thumbnail source: kept when it starts with "http", otherwise put under the API host. */
  function ImageUrl(path: string): (url: string)
    ensures StartsWith(url, "http")
    ensures StartsWith(path, "http") ==> url == path
    ensures !StartsWith(path, "http") ==> url == ImageHost + path
  {
    if StartsWith(path, "http") then path
    else
      assert ImageHost[..4] == "http";
      assert (ImageHost + path)[..4] == ImageHost[..4];
      ImageHost + path
  }

  lemma ImageUrlIdempotent(path: string)
    ensures ImageUrl(ImageUrl(path)) == ImageUrl(path)
    ensures StartsWith(path, "http") ==> ImageUrl(path) == path
  {
  }

  // ----- The dialog -----

  /** `tempData`: the meal being edited. `dietImages` is the chosen FileList, by file. */
  datatype TempData = TempData(
    dietTime: string,
    dietTimeType: string,
    dietContent: string,
    dietImages: Option<seq<string>>,
    skipMeal: bool)

  const EmptyTemp: TempData := TempData("", "", "", None, false)

  /** One `handleTempChange(field, value)` call. */
  datatype TempChange =
    | SetDietTime(time: string)
    | SetDietTimeType(mealType: string)
    | SetDietContent(text: string)
    | SetDietImages(files: Option<seq<string>>)
    | SetSkipMeal(skip: bool)

  /** The JSON part of the form data handleSave posts. */
  datatype SaveData = SaveData(userid: string, dietTime: string, dietTimeType: string, dietContent: seq<string>)

  /** What handleSave posts: the JSON part and the files appended under "image". */
  datatype SubmitRequest = SubmitRequest(data: SaveData, images: seq<string>)

  /** What `submitDailyData` yields: it threw, or it answered. */
  datatype SubmitOutcome = SubmitThrew | SubmitAnswered(success: bool, message: string, newImages: JsValue)

  /** The saved content: ["沒吃"] for a skipped meal, else the edited items. */
  function SavedContent(temp: TempData): seq<string> {
    if temp.skipMeal then [SkippedContent] else EditorToItems(temp.dietContent)
  }

  /** The files handleSave appends: all of them, in order, unless the meal is skipped. */
  method CollectImages(temp: TempData) returns (images: seq<string>)
    ensures temp.skipMeal || temp.dietImages.None? ==> images == []
    ensures !temp.skipMeal && temp.dietImages.Some? ==> images == temp.dietImages.value
  {
    images := [];
    if !temp.skipMeal && temp.dietImages.Some? {
      var files := temp.dietImages.value;
      var i := 0;
      while i < |files|
        invariant 0 <= i <= |files|
        invariant images == files[..i]
      {
        images := images + [files[i]];
        i := i + 1;
      }
    }
  }

  class DietSectionState {
    var activeModal: Option<string>
    var temp: TempData
    var error: Option<string>

    constructor ()
      ensures activeModal == None && temp == EmptyTemp && error == None
    {
      activeModal, temp, error := None, EmptyTemp, None;
    }

    /** openModal: load an existing entry into the editor, or start an empty one on the selected date. */
    method OpenModal(mealId: string, dailyRecord: map<string, RecordValue>, selectedDate: string)
      modifies this
      ensures activeModal == Some(mealId) && error == None
      ensures temp.dietTimeType == mealId && temp.dietImages == None && !temp.skipMeal
      ensures mealId in dailyRecord && dailyRecord[mealId].Meal? ==>
        var e := dailyRecord[mealId].entry;
        temp.dietTime == ToEditorTime(e.dietTime) && temp.dietContent == ContentToEditor(e.dietContent)
      ensures mealId in dailyRecord && dailyRecord[mealId] != Raw("") && dailyRecord[mealId].Raw? ==>
        temp.dietTime == "" && temp.dietContent == ""
      ensures mealId !in dailyRecord || dailyRecord[mealId] == Raw("") ==>
        temp.dietTime == (if selectedDate != "" then selectedDate + "T00:00" else "") && temp.dietContent == ""
    {
      if mealId in dailyRecord && dailyRecord[mealId] != Raw("") {
        match dailyRecord[mealId] {
          case Meal(e) =>
            temp := TempData(ToEditorTime(e.dietTime), mealId, ContentToEditor(e.dietContent), None, false);
          case Raw(_) =>
            temp := TempData("", mealId, "", None, false);
        }
      } else {
        var initialTime := if selectedDate != "" then selectedDate + "T00:00" else "";
        temp := TempData(initialTime, mealId, "", None, false);
      }
      activeModal := Some(mealId);
      error := None;
    }

    /** closeModal: no dialog, every temp field reset, no error. */
    method CloseModal()
      modifies this
      ensures activeModal == None && temp == EmptyTemp && error == None
    {
      activeModal := None;
      temp := EmptyTemp;
      error := None;
    }

    /** handleTempChange: one field changes; ticking "skip" also sets the content to "沒吃" or "". */
    method HandleTempChange(change: TempChange)
      modifies this
      ensures activeModal == old(activeModal) && error == old(error)
      ensures temp == match change
        case SetDietTime(t) => old(temp).(dietTime := t)
        case SetDietTimeType(m) => old(temp).(dietTimeType := m)
        case SetDietContent(c) => old(temp).(dietContent := c)
        case SetDietImages(f) => old(temp).(dietImages := f)
        case SetSkipMeal(v) => old(temp).(skipMeal := v, dietContent := if v then SkippedContent else "")
    {
      match change {
        case SetDietTime(t) => temp := temp.(dietTime := t);
        case SetDietTimeType(m) => temp := temp.(dietTimeType := m);
        case SetDietContent(c) => temp := temp.(dietContent := c);
        case SetDietImages(f) => temp := temp.(dietImages := f);
        case SetSkipMeal(v) => temp := temp.(skipMeal := v, dietContent := if v then SkippedContent else "");
      }
    }

    /**
     * handleSave: nothing is sent without a stored userid (error "請先登入") or
     * without a time; otherwise one request is built and posted (`submit` is the
     * server), and on success the parent gets the saved meal and the dialog closes.
     */
    method HandleSave(storedUserid: Option<string>, submit: SubmitRequest -> SubmitOutcome)
      returns (sent: Option<SubmitRequest>, update: Option<DietUpdate>)
      modifies this
      ensures storedUserid.None? || storedUserid.value == "" ==>
        sent == None && update == None && error == Some("請先登入")
        && temp == old(temp) && activeModal == old(activeModal)
      ensures storedUserid.Some? && storedUserid.value != "" && old(temp).dietTime == "" ==>
        sent == None && update == None && temp == old(temp) && activeModal == old(activeModal) && error == old(error)
      ensures storedUserid.Some? && storedUserid.value != "" && old(temp).dietTime != "" ==>
        var t := old(temp);
        var data := SaveData(storedUserid.value, ToStoredTime(t.dietTime), t.dietTimeType, SavedContent(t));
        var images := if !t.skipMeal && t.dietImages.Some? then t.dietImages.value else [];
        && sent == Some(SubmitRequest(data, images))
        && match submit(sent.value)
           case SubmitThrew =>
             update == None && error == Some("儲存失敗，請稍後再試") && temp == t && activeModal == old(activeModal)
           case SubmitAnswered(success, message, newImages) =>
             if success then
               && update == Some(DietUpdate(data.userid, data.dietTime, data.dietTimeType,
                    if t.skipMeal then Text(SkippedDisplay) else Items(data.dietContent),
                    t.skipMeal, if Truthy(newImages) then newImages else JNull))
               && activeModal == None && temp == EmptyTemp && error == None
             else
               && update == None && temp == t && activeModal == old(activeModal)
               && error == Some(if message != "" then message else "儲存失敗")
    {
      sent, update := None, None;
      if storedUserid.None? || storedUserid.value == "" {
        error := Some("請先登入");
        return;
      }
      if temp.dietTime == "" {
        return;
      }
      var data := SaveData(storedUserid.value, ToStoredTime(temp.dietTime), temp.dietTimeType, SavedContent(temp));
      var images := CollectImages(temp);
      var request := SubmitRequest(data, images);
      sent := Some(request);
      error := None;
      match submit(request) {
        case SubmitThrew =>
          error := Some("儲存失敗，請稍後再試");
        case SubmitAnswered(success, message, newImages) =>
          if success {
            update := Some(DietUpdate(data.userid, data.dietTime, data.dietTimeType,
              if temp.skipMeal then Text(SkippedDisplay) else Items(data.dietContent),
              temp.skipMeal, if Truthy(newImages) then newImages else JNull));
            CloseModal();
          } else {
            error := Some(if message != "" then message else "儲存失敗");
          }
      }
    }
  }
}
