/** The decisions the play page takes on values: which video and entry are
    current, which entry follows when an episode ends, which engine and
    height a player gets, what the report and play-log calls carry, and
    what an action-sheet index selects. */
module PlayPage {
  import opened Options
  import opened VideoTypes
  import JsText
  import ArrayOps

  // ------------------------------------------------------ current entry

  /** `videoDetail`: the first video of the full list with the route's id. */
  function DetailFor(videoList: seq<VideoDetail>, videoId: int): (r: Option<VideoDetail>)
    ensures r.None? <==> forall i :: 0 <= i < |videoList| ==> videoList[i].video.id != videoId
    ensures r.Some? ==> exists i :: 0 <= i < |videoList| && videoList[i] == r.value &&
                          r.value.video.id == videoId &&
                          forall j :: 0 <= j < i ==> videoList[j].video.id != videoId
  {
    ArrayOps.Find(videoList, (d: VideoDetail) => d.video.id == videoId)
  }

  /** The value of `play`: `null` without a detail, `undefined` when no
      entry matches, otherwise the matching entry. */
  datatype Lookup = NoDetail | NoMatch | Found(entry: Play)

  function HasId(id: int): Play -> bool {
    (p: Play) => p.id == id
  }

  /** `play`: the first playlist entry whose id is the current play id. */
  function CurrentPlay(detail: Option<VideoDetail>, playId: int): (r: Lookup)
    ensures r.NoDetail? <==> detail.None?
    ensures r.NoMatch? <==> detail.Some? && forall i :: 0 <= i < |detail.value.playlist| ==> detail.value.playlist[i].id != playId
    ensures r.Found? ==>
              detail.Some? &&
              exists i :: 0 <= i < |detail.value.playlist| && detail.value.playlist[i] == r.entry &&
                r.entry.id == playId && forall j :: 0 <= j < i ==> detail.value.playlist[j].id != playId
  {
    match detail
    case None => NoDetail
    case Some(d) =>
      match ArrayOps.Find(d.playlist, HasId(playId))
      case None => NoMatch
      case Some(p) => Found(p)
  }

  // ----------------------------------------------------------- next entry

  function SameCircuit(c: int): Play -> bool {
    (p: Play) => p.circuitId == c
  }

  function CircuitAndId(c: int, id: int): Play -> bool {
    (p: Play) => p.circuitId == c && p.id == id
  }

  /** The step of `autoNextPlay` on the group of one circuit: the id of the
      entry after the first one with `id`, or nothing when that entry is
      missing or last. */
  function NextInGroup(group: seq<Play>, id: int): (r: Option<int>)
    ensures r.Some? ==> exists i :: 0 <= i < |group| - 1 && group[i].id == id && group[i + 1].id == r.value
    ensures r.Some? ==> forall i :: 0 <= i < |group| && group[i].id == id && (forall j :: 0 <= j < i ==> group[j].id != id) ==>
                          i < |group| - 1 && group[i + 1].id == r.value
    ensures r.None? <==> (forall i :: 0 <= i < |group| ==> group[i].id != id) ||
                         (exists i :: 0 <= i < |group| && group[i].id == id && i == |group| - 1 &&
                            forall j :: 0 <= j < i ==> group[j].id != id)
  {
    var index := ArrayOps.FindIndex(group, HasId(id));
    if index < 0 || index >= |group| - 1 then None else Some(group[index + 1].id)
  }

  /** A reference definition read off the whole playlist: find the first
      entry of circuit `c` with `id`, then the next entry of circuit `c`
      after it. */
  function NextInCircuit(s: seq<Play>, c: int, id: int): Option<int> {
    var i := ArrayOps.FindIndex(s, CircuitAndId(c, id));
    if i < 0 then None
    else
      var j := ArrayOps.FindIndex(s[i + 1..], SameCircuit(c));
      if j < 0 then None else Some(s[i + 1..][j].id)
  }

  /** An entry that is not the current one is passed over by the
      reference scan. */
  lemma ScanSkipsOther(s: seq<Play>, c: int, id: int)
    requires s != [] && !(s[0].circuitId == c && s[0].id == id)
    ensures NextInCircuit(s, c, id) == NextInCircuit(s[1..], c, id)
  {
    var t := s[1..];
    ArrayOps.FindIndexCons(s, CircuitAndId(c, id));
    var i' := ArrayOps.FindIndex(t, CircuitAndId(c, id));
    if i' >= 0 {
      assert s[i' + 2..] == t[i' + 1..];
    }
  }

  /** In a group, an entry with another id is passed over. */
  lemma GroupSkipsOtherId(group: seq<Play>, id: int)
    requires group != [] && group[0].id != id
    ensures NextInGroup(group, id) == NextInGroup(group[1..], id)
  {
    var rest := group[1..];
    ArrayOps.FindIndexCons(group, HasId(id));
    var index' := ArrayOps.FindIndex(rest, HasId(id));
    if 0 <= index' < |rest| - 1 {
      assert group[index' + 2] == rest[index' + 1];
    }
  }

  /** The group of a playlist starting with an entry of the circuit. */
  lemma GroupCons(s: seq<Play>, c: int)
    requires s != [] && s[0].circuitId == c
    ensures ArrayOps.Filter(s, SameCircuit(c)) == [s[0]] + ArrayOps.Filter(s[1..], SameCircuit(c))
  {
  }

  /** The current entry itself: both sides take the next entry of the
      circuit. */
  lemma AtCurrent(s: seq<Play>, c: int, id: int)
    requires s != [] && s[0].circuitId == c && s[0].id == id
    ensures NextInGroup(ArrayOps.Filter(s, SameCircuit(c)), id) == NextInCircuit(s, c, id)
  {
    var t := s[1..];
    var rest := ArrayOps.Filter(t, SameCircuit(c));
    var group := [s[0]] + rest;
    assert ArrayOps.Filter(s, SameCircuit(c)) == group;
    ArrayOps.FindIndexCons(group, HasId(id));
    ArrayOps.FindIndexCons(s, CircuitAndId(c, id));
    ArrayOps.FilterHead(t, SameCircuit(c));
    assert s[1..] == t;
  }

  /** Picking the next entry in the filtered group is the same as scanning
      the playlist forward from the current entry. */
  lemma {:induction false} NextInGroupOfCircuit(s: seq<Play>, c: int, id: int)
    ensures NextInGroup(ArrayOps.Filter(s, SameCircuit(c)), id) == NextInCircuit(s, c, id)
  {
    if s == [] {
    } else if s[0].circuitId != c {
      ScanSkipsOther(s, c, id);
      assert ArrayOps.Filter(s, SameCircuit(c)) == ArrayOps.Filter(s[1..], SameCircuit(c));
      NextInGroupOfCircuit(s[1..], c, id);
    } else if s[0].id != id {
      ScanSkipsOther(s, c, id);
      var group := ArrayOps.Filter(s, SameCircuit(c));
      GroupCons(s, c);
      assert group[1..] == ArrayOps.Filter(s[1..], SameCircuit(c));
      GroupSkipsOtherId(group, id);
      NextInGroupOfCircuit(s[1..], c, id);
    } else {
      AtCurrent(s, c, id);
    }
  }

  /** `autoNextPlay`'s choice: the play id to navigate to, if any. It acts
      only when auto-next is on, a detail exists and the current entry has a
      circuit; the target is the next entry of the same circuit after the
      current one. */
  function AutoNextTarget(autoNext: bool, detail: Option<VideoDetail>, current: Lookup): (r: Option<int>)
    ensures r.Some? ==> autoNext && detail.Some? && current.Found? && current.entry.circuitId != 0
    ensures autoNext && detail.Some? && current.Found? && current.entry.circuitId != 0 ==>
              r == NextInCircuit(detail.value.playlist, current.entry.circuitId, current.entry.id)
  {
    if autoNext && detail.Some? && current.Found? && current.entry.circuitId != 0 then
      var c := current.entry.circuitId;
      NextInGroupOfCircuit(detail.value.playlist, c, current.entry.id);
      NextInGroup(ArrayOps.Filter(detail.value.playlist, SameCircuit(c)), current.entry.id)
    else None
  }

  /** The reference scan moves forward and lands on the nearest entry of
      the same circuit. */
  lemma NextInCircuitForward(s: seq<Play>, c: int, id: int)
    requires NextInCircuit(s, c, id).Some?
    ensures exists i, k :: 0 <= i < k < |s| && s[i].circuitId == c && s[i].id == id &&
              (forall m :: 0 <= m < i ==> !(s[m].circuitId == c && s[m].id == id)) &&
              s[k].circuitId == c && s[k].id == NextInCircuit(s, c, id).value &&
              forall m :: i < m < k ==> s[m].circuitId != c
  {
    var i := ArrayOps.FindIndex(s, CircuitAndId(c, id));
    var j := ArrayOps.FindIndex(s[i + 1..], SameCircuit(c));
    var k := i + 1 + j;
    assert s[k] == s[i + 1..][j];
    forall m | i < m < k ensures s[m].circuitId != c {
      assert s[m] == s[i + 1..][m - i - 1];
    }
  }

  /** No wrap-around: when no entry of the circuit follows the current one,
      nothing is chosen. */
  lemma NoWrapAround(s: seq<Play>, c: int, id: int, i: nat)
    requires i < |s| && s[i].circuitId == c && s[i].id == id
    requires forall m :: 0 <= m < i ==> !(s[m].circuitId == c && s[m].id == id)
    requires forall m :: i < m < |s| ==> s[m].circuitId != c
    ensures NextInCircuit(s, c, id).None?
  {
    assert ArrayOps.FindIndex(s, CircuitAndId(c, id)) == i;
    var u := s[i + 1..];
    forall m | 0 <= m < |u| ensures u[m].circuitId != c {
      assert u[m] == s[i + 1 + m];
    }
  }

  /** One circuit of three episodes split by an entry of another circuit:
      the first goes to the second, and the last goes nowhere. */
  lemma AutoNextExample()
    ensures var e1, e2, x, e3 := Play(1, "1", "a", 7), Play(2, "2", "b", 7), Play(9, "1", "c", 8), Play(3, "3", "d", 7);
      var d := Some(VideoDetail(
        VideoTypes.Video("", "", "", 0, "", 0, "", "", "", "", 5, 0, ""), [e1, x, e2, e3]));
      AutoNextTarget(true, d, Found(e1)) == Some(2) &&
      AutoNextTarget(true, d, Found(e3)) == None &&
      AutoNextTarget(false, d, Found(e1)) == None
  {
    var e1, e2, x, e3 := Play(1, "1", "a", 7), Play(2, "2", "b", 7), Play(9, "1", "c", 8), Play(3, "3", "d", 7);
    var s := [e1, x, e2, e3];
    assert ArrayOps.FindIndex(s, CircuitAndId(7, 1)) == 0;
    assert ArrayOps.FindIndex(s[1..], SameCircuit(7)) == 1;
    NoWrapAround(s, 7, 3, 3);
  }

  // ------------------------------------------------------- player choices

  /** The two in-page engines: the HLS build and the standard player. */
  datatype Engine = HlsEngine | StandardEngine

  const HlsMarker := ".m3u8"

  /** `String(url).indexOf(".m3u8") !== -1`: the HLS engine exactly when
      the URL contains ".m3u8" somewhere. */
  function ChooseEngine(url: string): (e: Engine)
    ensures e == HlsEngine <==> exists i :: JsText.OccursAt(url, HlsMarker, i)
  {
    if JsText.IndexOf(url, HlsMarker) != -1 then HlsEngine else StandardEngine
  }

  lemma ChooseEngineExamples()
    ensures ChooseEngine("https://cdn.example/v/index.m3u8") == HlsEngine
    ensures ChooseEngine("") == StandardEngine
  {
    assert JsText.OccursAt("https://cdn.example/v/index.m3u8", HlsMarker, 27);
  }

  const FixWidth := "fixWidth"
  const HeightMargin := 70

  /** The player height: `undefined` for "fixWidth", otherwise the window's
      inner height less 70. */
  function PlayerHeight(fitVideoSize: string, innerHeight: int): (h: Option<int>)
    ensures h.None? <==> fitVideoSize == FixWidth
    ensures h.Some? ==> h.value + HeightMargin == innerHeight
  {
    if fitVideoSize == FixWidth then None else Some(innerHeight - HeightMargin)
  }

  /** The URL the in-page player is given: the entry's source, or "" when
      there is no entry. */
  function PlayerUrl(current: Lookup): (url: string)
    ensures current.Found? ==> url == current.entry.src
    ensures !current.Found? ==> url == ""
  {
    if current.Found? then current.entry.src else ""
  }

  /** `setTitle(videoDetail.title + " - " + play.title)`. */
  function PageTitle(d: VideoDetail, p: Play): (t: string)
    ensures |t| == |d.video.title| + 3 + |p.title|
    ensures t[..|d.video.title|] == d.video.title
    ensures t[|d.video.title| + 3..] == p.title
    ensures t[|d.video.title|..|d.video.title| + 3] == " - "
  {
    var t := d.video.title + " - " + p.title;
    assert t[..|d.video.title|] == d.video.title;
    t
  }

  // -------------------------------------------------- report and history

  /** A play-history entry: which video, which entry. */
  datatype PlayLog = PlayLog(videoId: int, playId: int)

  /** `sendPlayLog`: an entry only when both a detail and a current entry
      exist. */
  function PlayLogFor(detail: Option<VideoDetail>, current: Lookup): (r: Option<PlayLog>)
    ensures r.Some? <==> detail.Some? && current.Found?
    ensures r.Some? ==> r.value == PlayLog(detail.value.video.id, current.entry.id)
  {
    if detail.Some? && current.Found? then Some(PlayLog(detail.value.video.id, current.entry.id)) else None
  }

  /** What `postReport` is sent: the remark, the video and the current
      entry if there is one. */
  datatype Report = Report(remark: string, videoId: int, playId: Option<int>)

  /** The report guard: nothing is posted without a detail or with an empty
      remark. */
  function ReportFor(detail: Option<VideoDetail>, remark: string, current: Lookup): (r: Option<Report>)
    ensures r.None? <==> detail.None? || remark == ""
    ensures r.Some? ==> r.value.remark == remark && r.value.remark != "" &&
                        r.value.videoId == detail.value.video.id &&
                        (r.value.playId.Some? <==> current.Found?) &&
                        (current.Found? ==> r.value.playId == Some(current.entry.id))
  {
    if detail.None? || remark == "" then None
    else Some(Report(remark, detail.value.video.id, if current.Found? then Some(current.entry.id) else None))
  }

  // -------------------------------------------------------- action sheets

  /** How the native shell opens a source. */
  datatype OpenType = Native | Browser

  /** The open-type sheet: index 0 (cancel) and below do nothing, 2 opens
      in the browser, every other index natively. */
  function OpenTypeForIndex(index: int): (r: Option<OpenType>)
    ensures r.None? <==> index <= 0
    ensures r == Some(Browser) <==> index == 2
    ensures r == Some(Native) <==> index > 0 && index != 2
  {
    if index <= 0 then None else if index == 2 then Some(Browser) else Some(Native)
  }

  /** `playbackRates.slice(0, -1)`: every rate but the last. */
  function RateButtons(rates: seq<real>): (r: seq<real>)
    ensures |rates| > 0 ==> |r| == |rates| - 1
    ensures |rates| == 0 ==> r == []
    ensures forall i :: 0 <= i < |r| ==> r[i] == rates[i]
  {
    if |rates| == 0 then [] else rates[..|rates| - 1]
  }

  /** What the rate sheet does: nothing for index 0 (cancel) and below;
      otherwise it stores `list[index - 1]`, which is `undefined` past the
      end of the list. */
  datatype RateChoice = Ignore | Choose(rate: Option<real>)

  function RateForIndex(rates: seq<real>, index: int): (r: RateChoice)
    ensures r.Ignore? <==> index <= 0
    ensures r.Choose? && r.rate.Some? <==> 0 < index <= |RateButtons(rates)|
    ensures r.Choose? && r.rate.Some? ==> r.rate.value == rates[index - 1] && index - 1 < |rates| - 1
  {
    var list := RateButtons(rates);
    if index <= 0 then Ignore
    else if index <= |list| then Choose(Some(list[index - 1]))
    else Choose(None)
  }
}
