/** `getInfoList`: the label/value rows shown under a video. */
module VideoInfo {
  import opened Options
  import opened VideoTypes
  import JsText
  import ArrayOps

  datatype InfoRow = InfoRow(text: string, value: string)

  /** The calendar fields of a `Date` in the viewer's time zone:
      `getFullYear()`, `getMonth()` (0 for January) and `getDate()`. */
  datatype LocalDate = LocalDate(year: int, month: int, day: int)

  /** The fixed order of the rows: category, cast, director, definition,
      region, duration, publish date. */
  const Labels: seq<string> := ["分类", "演员", "导演", "清晰度", "地区", "时长", "发布时间"]

  /** The position of a label in `Labels`, or -1. */
  function LabelRank(text: string): (k: int)
    ensures -1 <= k < |Labels|
    ensures 0 <= k ==> Labels[k] == text
  {
    if text == "分类" then 0
    else if text == "演员" then 1
    else if text == "导演" then 2
    else if text == "清晰度" then 3
    else if text == "地区" then 4
    else if text == "时长" then 5
    else if text == "发布时间" then 6
    else -1
  }

  /** The publish date as "year-month-day", with month and day passed
      through `addZero`; empty when `published_at` is 0. `toLocalDate` maps
      milliseconds since the epoch to calendar fields. */
  function PublishedAt(v: Video, toLocalDate: int -> LocalDate, addZero: int -> string): (r: string)
    ensures r == "" <==> v.publishedAt == 0
    ensures v.publishedAt != 0 ==>
      var dt := toLocalDate(v.publishedAt * 1000);
      r == JsText.NumberToString(dt.year) + "-" + addZero(dt.month + 1) + "-" + addZero(dt.day)
  {
    if v.publishedAt == 0 then ""
    else
      var dt := toLocalDate(v.publishedAt * 1000);
      var joined := JsText.NumberToString(dt.year) + "-" + addZero(dt.month + 1) + "-" + addZero(dt.day);
      assert |joined| >= 2;
      joined
  }

  /** The value of the `k`-th row for a video. */
  function Field(v: Video, k: nat, publishedAt: string): string
    requires k < |Labels|
  {
    match k
    case 0 => v.category
    case 1 => v.actress
    case 2 => v.director
    case 3 => v.definition
    case 4 => v.area
    case 5 => v.duration
    case 6 => publishedAt
  }

  /** The array literal before filtering; with no video every value is
      `undefined`, written "" here (both are falsy). */
  function AllRows(video: Option<Video>, publishedAt: string): (rows: seq<InfoRow>)
    ensures |rows| == |Labels|
    ensures forall k :: 0 <= k < |rows| ==> rows[k].text == Labels[k]
    ensures forall k :: 0 <= k < |rows| ==>
      rows[k].value == if video.Some? then Field(video.value, k, publishedAt) else ""
  {
    match video
    case None => seq(|Labels|, k requires 0 <= k < |Labels| => InfoRow(Labels[k], ""))
    case Some(v) => seq(|Labels|, k requires 0 <= k < |Labels| => InfoRow(Labels[k], Field(v, k, publishedAt)))
  }

  function HasValue(row: InfoRow): bool {
    row.value != ""
  }

  /** `getInfoList(video)`: the rows of the literal whose value is truthy. */
  function GetInfoList(video: Option<Video>, toLocalDate: int -> LocalDate, addZero: int -> string): (r: seq<InfoRow>)
    ensures forall i :: 0 <= i < |r| ==> r[i].value != ""
    ensures video.None? ==> r == []
  {
    var publishedAt := if video.Some? then PublishedAt(video.value, toLocalDate, addZero) else "";
    var rows := AllRows(video, publishedAt);
    var r := ArrayOps.Filter(rows, HasValue);
    ArrayOps.FilterMembers(rows, HasValue);
    assert forall i :: 0 <= i < |r| ==> HasValue(r[i]);
    assert video.None? && r != [] ==> r[0] in rows && !HasValue(r[0]);
    r
  }

  lemma LabelRankOf(k: nat)
    requires k < |Labels|
    ensures LabelRank(Labels[k]) == k
  {
  }

  /** Each row is the row of the literal at its label's position: it
      carries its own label's field. */
  lemma InfoRowsFromLiteral(v: Video, toLocalDate: int -> LocalDate, addZero: int -> string)
    ensures var r := GetInfoList(Some(v), toLocalDate, addZero);
      forall i :: 0 <= i < |r| ==>
        0 <= LabelRank(r[i].text) &&
        r[i].value == Field(v, LabelRank(r[i].text), PublishedAt(v, toLocalDate, addZero))
  {
    var publishedAt := PublishedAt(v, toLocalDate, addZero);
    var rows := AllRows(Some(v), publishedAt);
    var r := GetInfoList(Some(v), toLocalDate, addZero);
    assert r == ArrayOps.Filter(rows, HasValue);
    ArrayOps.FilterMembers(rows, HasValue);
    forall i | 0 <= i < |r|
      ensures 0 <= LabelRank(r[i].text) && r[i].value == Field(v, LabelRank(r[i].text), publishedAt)
    {
      assert r[i] in rows;
      var k :| 0 <= k < |rows| && r[i] == rows[k];
      LabelRankOf(k);
    }
  }

  /** Rows whose labels are `Labels` in order. */
  predicate Labelled(rows: seq<InfoRow>) {
    |rows| == |Labels| && forall k :: 0 <= k < |rows| ==> LabelRank(rows[k].text) == k
  }

  lemma AllRowsLabelled(video: Option<Video>, publishedAt: string)
    ensures Labelled(AllRows(video, publishedAt))
  {
    var rows := AllRows(video, publishedAt);
    forall k | 0 <= k < |rows| ensures LabelRank(rows[k].text) == k {
      LabelRankOf(k);
    }
  }

  /** Filtering labelled rows keeps labelled rows, in label order. */
  lemma FilteredInOrder(rows: seq<InfoRow>)
    requires Labelled(rows)
    ensures forall i :: 0 <= i < |ArrayOps.Filter(rows, HasValue)| ==>
      0 <= LabelRank(ArrayOps.Filter(rows, HasValue)[i].text)
    ensures forall i, j :: 0 <= i < j < |ArrayOps.Filter(rows, HasValue)| ==>
      LabelRank(ArrayOps.Filter(rows, HasValue)[i].text) < LabelRank(ArrayOps.Filter(rows, HasValue)[j].text)
  {
    var r := ArrayOps.Filter(rows, HasValue);
    ArrayOps.FilterMembers(rows, HasValue);
    forall i | 0 <= i < |r| ensures 0 <= LabelRank(r[i].text) {
      assert r[i] in rows;
      var k :| 0 <= k < |rows| && rows[k] == r[i];
    }
    forall i, j | 0 <= i < j < |r| ensures LabelRank(r[i].text) < LabelRank(r[j].text) {
      FilteredPairInOrder(rows, i, j);
    }
  }

  lemma FilteredPairInOrder(rows: seq<InfoRow>, i: nat, j: nat)
    requires Labelled(rows)
    requires i < j < |ArrayOps.Filter(rows, HasValue)|
    ensures LabelRank(ArrayOps.Filter(rows, HasValue)[i].text) < LabelRank(ArrayOps.Filter(rows, HasValue)[j].text)
  {
    var r := ArrayOps.Filter(rows, HasValue);
    ArrayOps.FilterKeepsOrder(rows, HasValue, i, j);
    var a, b :| 0 <= a < b < |rows| && rows[a] == r[i] && rows[b] == r[j];
    assert LabelRank(rows[a].text) == a && LabelRank(rows[b].text) == b;
  }

  /** The rows keep the fixed label order. */
  lemma InfoRowsInOrder(video: Option<Video>, toLocalDate: int -> LocalDate, addZero: int -> string, r: seq<InfoRow>)
    requires r == GetInfoList(video, toLocalDate, addZero)
    ensures forall i :: 0 <= i < |r| ==> 0 <= LabelRank(r[i].text)
    ensures forall i, j :: 0 <= i < j < |r| ==> LabelRank(r[i].text) < LabelRank(r[j].text)
  {
    var publishedAt := if video.Some? then PublishedAt(video.value, toLocalDate, addZero) else "";
    var rows := AllRows(video, publishedAt);
    AllRowsLabelled(video, publishedAt);
    assert r == ArrayOps.Filter(rows, HasValue);
    FilteredInOrder(rows);
  }

  /** A label has a row exactly when its field is non-empty. */
  lemma InfoRowPresence(v: Video, toLocalDate: int -> LocalDate, addZero: int -> string, k: nat)
    requires k < |Labels|
    ensures var r := GetInfoList(Some(v), toLocalDate, addZero);
      Field(v, k, PublishedAt(v, toLocalDate, addZero)) != "" <==>
      exists i :: 0 <= i < |r| && r[i].text == Labels[k]
  {
    var publishedAt := PublishedAt(v, toLocalDate, addZero);
    var rows := AllRows(Some(v), publishedAt);
    var r := GetInfoList(Some(v), toLocalDate, addZero);
    assert r == ArrayOps.Filter(rows, HasValue);
    ArrayOps.FilterMembers(rows, HasValue);
    if Field(v, k, publishedAt) != "" {
      assert HasValue(rows[k]);
      assert rows[k] in r;
      var i :| 0 <= i < |r| && r[i] == rows[k];
      assert r[i].text == Labels[k];
    }
    if exists i :: 0 <= i < |r| && r[i].text == Labels[k] {
      var i :| 0 <= i < |r| && r[i].text == Labels[k];
      assert r[i] in rows;
      var k' :| 0 <= k' < |rows| && r[i] == rows[k'];
      LabelRankOf(k);
      LabelRankOf(k');
      assert HasValue(r[i]);
    }
  }

  /** The publish-date row is present exactly when `published_at` is
      non-zero. */
  lemma PublishedRowPresence(v: Video, toLocalDate: int -> LocalDate, addZero: int -> string)
    ensures var r := GetInfoList(Some(v), toLocalDate, addZero);
      (exists i :: 0 <= i < |r| && r[i].text == "发布时间") <==> v.publishedAt != 0
  {
    InfoRowPresence(v, toLocalDate, addZero, 6);
    assert Labels[6] == "发布时间";
  }

  /** The publish date's leading component reads back as the year. */
  lemma PublishedYearReadsBack(v: Video, toLocalDate: int -> LocalDate, addZero: int -> string)
    requires v.publishedAt != 0
    ensures JsText.ParseInt(PublishedAt(v, toLocalDate, addZero)) == Some(toLocalDate(v.publishedAt * 1000).year)
  {
    var dt := toLocalDate(v.publishedAt * 1000);
    var tail := "-" + addZero(dt.month + 1) + "-" + addZero(dt.day);
    var s := PublishedAt(v, toLocalDate, addZero);
    assert s == JsText.NumberToString(dt.year) + tail;
    JsText.ParseIntOfNumeral(dt.year, tail);
  }
}
