/**
 * VoiceChatBox: a spoken meal description becomes a list of draft items
 * (from the language-model reply, given here as its parsed value), the user
 * may attach one photo per item, and `save` persists the items one by one,
 * in order, stopping at the first failure.
 */
module VoiceDraft {
  import opened Wrappers
  import opened JsText

  // ----- normalizeTime -----

  predicate IsColon(c: char) {
    c == ':' || c == '：'
  }

  /**
   * The pattern (\d{1,2})[:：](\d{2}) tried at position i, with the hour
   * greedy: two hour digits if that matches, otherwise one. Yields the two
   * captured groups.
   */
  function MatchAt(s: string, i: nat): (g: Option<(string, string)>)
    ensures g.Some? ==> Groups(g.value)
  {
    if i + 5 <= |s| && IsDigit(s[i]) && IsDigit(s[i + 1]) && IsColon(s[i + 2])
       && IsDigit(s[i + 3]) && IsDigit(s[i + 4])
    then Some((s[i..i + 2], s[i + 3..i + 5]))
    else if i + 4 <= |s| && IsDigit(s[i]) && IsColon(s[i + 1]) && IsDigit(s[i + 2]) && IsDigit(s[i + 3])
    then Some((s[i..i + 1], s[i + 2..i + 4]))
    else None
  }

  /** What the two capture groups can hold: one or two hour digits, two minute digits. */
  predicate Groups(g: (string, string)) {
    (|g.0| == 1 || |g.0| == 2) && AllDigits(g.0) && |g.1| == 2 && AllDigits(g.1)
  }

  /** `s.match(...)` from position i on: the leftmost match. */
  function FirstMatch(s: string, i: nat): (g: Option<(string, string)>)
    ensures g.Some? ==> Groups(g.value)
    decreases |s| - i
  {
    if i >= |s| then None
    else if MatchAt(s, i).Some? then MatchAt(s, i)
    else FirstMatch(s, i + 1)
  }

  /** A canonical "HH:MM": two digits, an ASCII colon, two digits. */
  predicate IsCanonicalTime(t: string) {
    |t| == 5 && IsDigit(t[0]) && IsDigit(t[1]) && t[2] == ':' && IsDigit(t[3]) && IsDigit(t[4])
  }

  /** normalizeTime; None plays null. */
  function NormalizeTime(raw: Option<string>): (r: Option<string>)
    ensures r.Some? ==> IsCanonicalTime(r.value)
  {
    if raw.None? || raw.value == "" then None
    else match FirstMatch(raw.value, 0)
      case None => None
      case Some((h, mm)) => Some((if |h| == 1 then "0" + h else h) + ":" + mm)
  }

  lemma {:induction false} FirstMatchIsLeftmost(s: string, i: nat)
    ensures FirstMatch(s, i).None? <==> forall j :: i <= j < |s| ==> MatchAt(s, j).None?
    ensures FirstMatch(s, i).Some? ==>
      exists j :: i <= j < |s| && MatchAt(s, j) == FirstMatch(s, i) && forall k :: i <= k < j ==> MatchAt(s, k).None?
    decreases |s| - i
  {
    if i < |s| && MatchAt(s, i).None? {
      FirstMatchIsLeftmost(s, i + 1);
      if FirstMatch(s, i + 1).Some? {
        var j :| i + 1 <= j < |s| && MatchAt(s, j) == FirstMatch(s, i + 1)
          && forall k :: i + 1 <= k < j ==> MatchAt(s, k).None?;
        assert forall k :: i <= k < j ==> MatchAt(s, k).None?;
      }
    }
  }

  /** Null exactly for absent or empty input and for input in which the pattern occurs nowhere. */
  lemma NormalizeTimeNull(raw: Option<string>)
    ensures NormalizeTime(raw).None? <==>
      raw.None? || raw.value == "" || forall j :: 0 <= j < |raw.value| ==> MatchAt(raw.value, j).None?
  {
    if raw.Some? && raw.value != "" {
      FirstMatchIsLeftmost(raw.value, 0);
    }
  }

  /**
   * Otherwise the result is built from the leftmost match: the hour padded to
   * two digits, ":", and the two minute digits; text around the match is ignored
   * and no range check is made.
   */
  lemma NormalizeTimeFromLeftmostMatch(raw: Option<string>)
    requires NormalizeTime(raw).Some?
    ensures exists j ::
      && 0 <= j < |raw.value| && MatchAt(raw.value, j).Some?
      && (forall k :: 0 <= k < j ==> MatchAt(raw.value, k).None?)
      && NormalizeTime(raw).value == PadStart(MatchAt(raw.value, j).value.0, 2, '0') + ":" + MatchAt(raw.value, j).value.1
  {
    FirstMatchIsLeftmost(raw.value, 0);
    var j :| 0 <= j < |raw.value| && MatchAt(raw.value, j) == FirstMatch(raw.value, 0)
      && forall k :: 0 <= k < j ==> MatchAt(raw.value, k).None?;
    var h := FirstMatch(raw.value, 0).value.0;
    assert |h| == 1 ==> PadStart(h, 2, '0') == "0" + h;
  }

  /** Normalising a normalised time gives it back. */
  lemma NormalizeTimeIdempotent(raw: Option<string>)
    requires NormalizeTime(raw).Some?
    ensures NormalizeTime(NormalizeTime(raw)) == NormalizeTime(raw)
  {
    var t := NormalizeTime(raw).value;
    assert MatchAt(t, 0) == Some((t[0..2], t[3..5]));
    assert t[0..2] + ":" + t[3..5] == t;
  }

  lemma NormalizeTimeExamples()
    ensures NormalizeTime(Some("7:30")) == Some("07:30")
    ensures NormalizeTime(Some("07:30")) == Some("07:30")
    ensures NormalizeTime(Some("07：30")) == Some("07:30")
    ensures NormalizeTime(Some("早上7:30")) == Some("07:30")
    ensures NormalizeTime(Some("99:99")) == Some("99:99")
    ensures NormalizeTime(Some("中午")) == None
    ensures NormalizeTime(Some("")) == None
  {
    var a, b, c, d, e := "7:30", "07:30", "07：30", "早上7:30", "99:99";
    assert a[0] == '7' && a[1] == ':' && a[2] == '3' && a[3] == '0';
    assert a[0..1] == "7" && a[2..4] == "30";
    assert b[0] == '0' && b[1] == '7' && b[2] == ':' && b[3] == '3' && b[4] == '0';
    assert b[0..2] == "07" && b[3..5] == "30";
    assert c[0] == '0' && c[1] == '7' && c[2] == '：' && c[3] == '3' && c[4] == '0';
    assert c[0..2] == "07" && c[3..5] == "30";
    assert d[2] == '7' && d[3] == ':' && d[4] == '3' && d[5] == '0' && !IsDigit(d[0]) && !IsDigit(d[1]);
    assert d[2..3] == "7" && d[4..6] == "30";
    assert e[0] == '9' && e[1] == '9' && e[2] == ':' && e[3] == '9' && e[4] == '9';
    assert e[0..2] == "99" && e[3..5] == "99";
    assert MatchAt(a, 0) == Some(("7", "30"));
    assert MatchAt(b, 0) == Some(("07", "30"));
    assert MatchAt(c, 0) == Some(("07", "30"));
    assert MatchAt(d, 0).None? && MatchAt(d, 1).None?;
    assert MatchAt(d, 2) == Some(("7", "30"));
    assert MatchAt(e, 0) == Some(("99", "99"));
    assert FirstMatch(a, 0) == Some(("7", "30")) && "0" + "7" + ":" + "30" == "07:30";
    assert FirstMatch(b, 0) == Some(("07", "30")) && "07" + ":" + "30" == "07:30";
    assert FirstMatch(e, 0) == Some(("99", "99")) && "99" + ":" + "99" == "99:99";
    assert MatchAt("中午", 0).None? && MatchAt("中午", 1).None?;
  }

  // ----- The draft and its persistence -----

  /** One element of the model's reply: `{ meal_type, time, content }`. */
  datatype DraftItem = DraftItem(mealType: string, time: Option<string>, content: string)

  /** The parsed reply: the request or the parse failed, a JSON array, or a single value. */
  datatype AnalysisReply = AnalysisFailed | ParsedList(items: seq<DraftItem>) | ParsedOne(item: DraftItem)

  /** The argument of one `saveDietData` call. */
  datatype SavePayload = SavePayload(
    userid: Option<string>,
    dietTime: string,
    dietTimeType: string,
    dietContent: seq<string>,
    dietImgPath: Option<string>)

  const DefaultTime: string := "00:00"

  /** The payload `save` builds for item i: today's date, the item's time (or 00:00), its photo if any. */
  function PayloadFor(userid: Option<string>, today: string, item: DraftItem, photo: Option<string>): SavePayload {
    SavePayload(
      userid,
      today + "T" + NormalizeTime(item.time).GetOr(DefaultTime) + ":00",
      item.mealType,
      [item.content],
      if photo.Some? && photo.value != "" then photo else None)
  }

  function Photo(imageMap: map<nat, string>, i: nat): Option<string> {
    if i in imageMap then Some(imageMap[i]) else None
  }

  function Payloads(userid: Option<string>, today: string, preview: seq<DraftItem>, imageMap: map<nat, string>)
    : (ps: seq<SavePayload>)
    ensures |ps| == |preview|
    ensures forall i :: 0 <= i < |ps| ==> ps[i] == PayloadFor(userid, today, preview[i], Photo(imageMap, i))
  {
    seq(|preview|, i requires 0 <= i < |preview| => PayloadFor(userid, today, preview[i], Photo(imageMap, i)))
  }

  /** Every payload carries today's date and a canonical time, the item's own when it had one. */
  lemma PayloadTime(userid: Option<string>, today: string, item: DraftItem, photo: Option<string>)
    ensures var t := PayloadFor(userid, today, item, photo).dietTime;
      |t| == |today| + 9 && t[..|today| + 1] == today + "T" && t[|today| + 6..] == ":00"
      && IsCanonicalTime(t[|today| + 1..|today| + 6])
      && (NormalizeTime(item.time).None? ==> t[|today| + 1..|today| + 6] == DefaultTime)
      && (NormalizeTime(item.time).Some? ==> t[|today| + 1..|today| + 6] == NormalizeTime(item.time).value)
  {
    var hhmm := NormalizeTime(item.time).GetOr(DefaultTime);
    var t := today + "T" + hhmm + ":00";
    assert t[|today| + 1..|today| + 6] == hhmm;
    assert t[..|today| + 1] == today + "T";
    assert t[|today| + 6..] == ":00";
  }

  /** The index of the first payload the server refuses, or |ps| when it takes them all. */
  function FirstRejected(ps: seq<SavePayload>, accepts: SavePayload -> bool): (k: nat)
    ensures k <= |ps|
    ensures forall j :: 0 <= j < k ==> accepts(ps[j])
    ensures k < |ps| ==> !accepts(ps[k])
  {
    if |ps| == 0 || !accepts(ps[0]) then 0
    else 1 + FirstRejected(ps[1..], accepts)
  }

  /** The calls `save` makes: every payload up to and including the first refused one. */
  function SaveCalls(ps: seq<SavePayload>, accepts: SavePayload -> bool): seq<SavePayload> {
    var k := FirstRejected(ps, accepts);
    if k < |ps| then ps[..k + 1] else ps
  }

  /** Three items, the second refused: the first is saved, the second fails, the third is never sent. */
  lemma SecondOfThreeRefused(ps: seq<SavePayload>, accepts: SavePayload -> bool)
    requires |ps| == 3 && accepts(ps[0]) && !accepts(ps[1])
    ensures SaveCalls(ps, accepts) == ps[..2]
  {
    assert FirstRejected(ps[1..], accepts) == 0;
  }

  /** The component's state: the step shown, the transcript, the draft and the photos by item index. */
  class VoiceChatBox {
    var step: int
    var rawSpeech: string
    var preview: seq<DraftItem>
    var imageMap: map<nat, string>

    constructor ()
      ensures step == 2 && rawSpeech == "" && preview == [] && imageMap == map[]
    {
      step, rawSpeech, preview, imageMap := 2, "", [], map[];
    }

    /** `onresult`: the first final transcript, trimmed. */
    method OnSpeechResult(transcript: string)
      modifies this
      ensures rawSpeech == Trim(transcript)
      ensures step == old(step) && preview == old(preview) && imageMap == old(imageMap)
    {
      rawSpeech := Trim(transcript);
    }

    /**
     * analyse: nothing for an empty transcript; a list reply becomes the draft
     * and a single value a one-item draft, shown at step 4; a failure changes nothing.
     */
    method Analyse(reply: AnalysisReply)
      modifies this
      ensures rawSpeech == old(rawSpeech) && imageMap == old(imageMap)
      ensures old(rawSpeech) == "" || reply.AnalysisFailed? ==> step == old(step) && preview == old(preview)
      ensures old(rawSpeech) != "" && reply.ParsedList? ==> step == 4 && preview == reply.items
      ensures old(rawSpeech) != "" && reply.ParsedOne? ==> step == 4 && preview == [reply.item]
    {
      if rawSpeech == "" {
        return;
      }
      match reply {
        case AnalysisFailed =>
        case ParsedList(items) =>
          preview := items;
          step := 4;
        case ParsedOne(item) =>
          preview := [item];
          step := 4;
      }
    }

    /** onUpload: a chosen photo replaces whatever item `idx` had; no file, no change. */
    method OnUpload(idx: nat, file: Option<string>)
      modifies this
      ensures imageMap == if file.Some? then old(imageMap)[idx := file.value] else old(imageMap)
      ensures step == old(step) && rawSpeech == old(rawSpeech) && preview == old(preview)
    {
      if file.Some? {
        imageMap := imageMap[idx := file.value];
      }
    }

    /** Cancel: drop the draft and the photos and go back to step 2; the transcript stays. */
    method Cancel()
      modifies this
      ensures step == 2 && preview == [] && imageMap == map[] && rawSpeech == old(rawSpeech)
    {
      step, preview, imageMap := 2, [], map[];
    }

    /**
     * save: one `saveDietData` call per item, in index order, each awaited;
     * a refused call (saveDietData throws when `success` is false) ends the
     * loop with the state untouched and the earlier items left saved. Only
     * when all are saved is the state reset.
     */
    method Save(userid: Option<string>, today: string, accepts: SavePayload -> bool)
      returns (calls: seq<SavePayload>)
      modifies this
      ensures var ps := Payloads(userid, today, old(preview), old(imageMap));
        calls == SaveCalls(ps, accepts)
        && (FirstRejected(ps, accepts) == |ps| ==>
              step == 2 && rawSpeech == "" && preview == [] && imageMap == map[])
        && (FirstRejected(ps, accepts) < |ps| ==>
              step == old(step) && rawSpeech == old(rawSpeech)
              && preview == old(preview) && imageMap == old(imageMap))
    {
      ghost var ps := Payloads(userid, today, preview, imageMap);
      calls := [];
      var i := 0;
      while i < |preview|
        invariant 0 <= i <= |preview| && i <= FirstRejected(ps, accepts)
        invariant calls == ps[..i]
        invariant preview == old(preview) && imageMap == old(imageMap)
        invariant step == old(step) && rawSpeech == old(rawSpeech)
      {
        var p := PayloadFor(userid, today, preview[i], Photo(imageMap, i));
        calls := calls + [p];
        if !accepts(p) {
          assert ps[..i + 1] == calls;
          return;
        }
        i := i + 1;
      }
      step, rawSpeech, preview, imageMap := 2, "", [], map[];
    }
  }
}
