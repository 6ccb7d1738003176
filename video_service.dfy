/** The video service: the requests it issues, the way it shapes a video
    detail, and the module-level stores (`recommendVideos`,
    `recommendCategoryVideos`, `videoDetail`) its fetches write.
    A request is described by a `Request` value; what the back end answered
    is passed in as a `Response`, and the settled promise's value is the
    method's `result`. */
module VideoService {
  import opened Options
  import opened VideoTypes
  import JsText
  import ArrayOps
  import PlaylistOrder

  /** A GET request: the path under the back end's base URL and its query
      parameters (`category` and `page`, when present). */
  datatype Request = Request(path: string, category: Option<string>, page: Option<int>)

  const RecommendPath := "video/recommend"
  const CategoryPath := "video/category"
  const DetailPrefix := "video/"

  /** The request `getRecommendVideos(page)` issues. */
  function RecommendRequest(page: int): (r: Request)
    ensures r.path == RecommendPath && r.category.None? && r.page == Some(page)
  {
    Request(RecommendPath, None, Some(page))
  }

  /** The request `getCategoryVideos(category, page)` issues. */
  function CategoryVideosRequest(category: string, page: int): (r: Request)
    ensures r.path == CategoryPath && r.category == Some(category) && r.page == Some(page)
  {
    Request(CategoryPath, Some(category), Some(page))
  }

  /** The path of ``video/${id}``: the prefix and the id's numeral, from
      which the back end reads the id back. */
  function DetailPath(id: int): (r: string)
    ensures |r| > |DetailPrefix| && r[..|DetailPrefix|] == DetailPrefix
    ensures JsText.ParseInt(r[|DetailPrefix|..]) == Some(id)
  {
    JsText.ParseIntOfNumberString(id);
    var r := DetailPrefix + JsText.NumberToString(id);
    assert r[|DetailPrefix|..] == JsText.NumberToString(id);
    r
  }

  /** The guard of `getRecommendByCategoryId`: no request unless
      recommendations are on and some category has the id; otherwise the
      first page of the first such category. */
  function CategoryRequest(recommend: bool, categories: seq<Category>, categoryId: int): (r: Option<Request>)
    ensures r.None? <==> !recommend || forall i :: 0 <= i < |categories| ==> categories[i].id != categoryId
    ensures r.Some? ==> exists i :: 0 <= i < |categories| && categories[i].id == categoryId &&
                          (forall j :: 0 <= j < i ==> categories[j].id != categoryId) &&
                          r.value == CategoryVideosRequest(categories[i].url, 1)
  {
    if !recommend then None
    else
      match ArrayOps.Find(categories, (c: Category) => c.id == categoryId)
      case None => None
      case Some(c) => Some(CategoryVideosRequest(c.url, 1))
  }

  /** The record `getVideoDetail` makes of the back end's answer: every
      field copied, the cover made absolute by `fullUrl` (the helper
      `getFullUrl` applied to the configured base URL), and the playlist
      sorted by the playlist comparator without losing or adding an entry. */
  function NormalizeDetail(raw: VideoDetail, fullUrl: string -> string): (r: VideoDetail)
    ensures r.video == raw.video.(cover := fullUrl(raw.video.cover))
    ensures multiset(r.playlist) == multiset(raw.playlist)
  {
    VideoDetail(raw.video.(cover := fullUrl(raw.video.cover)), PlaylistOrder.SortPlaylist(raw.playlist))
  }

  /** The order of a normalised playlist: by number when every title is a
      number (entries with equal numbers in input order), by title when no
      title is. */
  lemma NormalizedPlaylistOrder(raw: VideoDetail, fullUrl: string -> string, k: int)
    ensures var s := NormalizeDetail(raw, fullUrl).playlist;
      PlaylistOrder.AllNumeric(PlaylistOrder.TitleNumber, raw.playlist) ==>
        PlaylistOrder.AllNumeric(PlaylistOrder.TitleNumber, s) &&
        PlaylistOrder.SortedByNumber(PlaylistOrder.TitleNumber, s) &&
        ArrayOps.Filter(s, PlaylistOrder.HasNumber(PlaylistOrder.TitleNumber, k)) ==
          ArrayOps.Filter(raw.playlist, PlaylistOrder.HasNumber(PlaylistOrder.TitleNumber, k))
    ensures PlaylistOrder.NoneNumeric(PlaylistOrder.TitleNumber, raw.playlist) ==>
      PlaylistOrder.SortedByTitle(NormalizeDetail(raw, fullUrl).playlist)
  {
    if PlaylistOrder.AllNumeric(PlaylistOrder.TitleNumber, raw.playlist) {
      PlaylistOrder.SortNumericSorted(raw.playlist);
      PlaylistOrder.SortNumericStable(raw.playlist, k);
    }
    if PlaylistOrder.NoneNumeric(PlaylistOrder.TitleNumber, raw.playlist) {
      PlaylistOrder.SortTitlesSorted(raw.playlist);
    }
  }

  /** The module-level refs the service writes. */
  class VideoStore {
    var recommendVideos: PageData
    var recommendCategoryVideos: seq<Video>
    var videoDetail: Option<VideoDetail>

    /** The refs as the module initialises them: `defaultPageData`, `[]`
        and `undefined`. */
    constructor (defaultPageData: PageData)
      ensures recommendVideos == defaultPageData
      ensures recommendCategoryVideos == [] && videoDetail == None
    {
      recommendVideos := defaultPageData;
      recommendCategoryVideos := [];
      videoDetail := None;
    }

    /** `getRecommendVideos(page)`: on success the page is stored and
        returned; a rejected request changes nothing. */
    method GetRecommendVideos(page: int, response: Response<PageData>)
      returns (request: Request, result: Option<PageData>)
      modifies this
      ensures request == RecommendRequest(page)
      ensures response.Resolved? ==> result == Some(response.body) && recommendVideos == response.body
      ensures response.Rejected? ==> result.None? && recommendVideos == old(recommendVideos)
      ensures recommendCategoryVideos == old(recommendCategoryVideos) && videoDetail == old(videoDetail)
    {
      request := RecommendRequest(page);
      match response
      case Resolved(data) =>
        recommendVideos := data;
        result := Some(data);
      case Rejected =>
        result := None;
    }

    /** `getRecommendByCategoryId(categoryId)`: `null` and no request when
        the guard fails; otherwise the first page of the category is
        requested and, on success, its list stored. */
    method GetRecommendByCategoryId(categoryId: int, recommend: bool, categories: seq<Category>,
                                    response: Response<PageData>)
      returns (request: Option<Request>, result: Option<PageData>)
      modifies this
      ensures request == CategoryRequest(recommend, categories, categoryId)
      ensures request.Some? && response.Resolved? ==>
        result == Some(response.body) && recommendCategoryVideos == response.body.data
      ensures request.None? || response.Rejected? ==>
        result.None? && recommendCategoryVideos == old(recommendCategoryVideos)
      ensures recommendVideos == old(recommendVideos) && videoDetail == old(videoDetail)
    {
      request := CategoryRequest(recommend, categories, categoryId);
      result := None;
      if request.Some? {
        match response
        case Resolved(data) =>
          recommendCategoryVideos := data.data;
          result := Some(data);
        case Rejected =>
      }
    }

    /** `getVideoDetail(id)`: on success the normalised record is stored
        and returned; a rejected request leaves the store as it was. */
    method GetVideoDetail(id: int, response: Response<VideoDetail>, fullUrl: string -> string)
      returns (request: Request, result: Option<VideoDetail>)
      modifies this
      ensures request == Request(DetailPath(id), None, None)
      ensures response.Resolved? ==>
        result == Some(NormalizeDetail(response.body, fullUrl)) && videoDetail == result
      ensures response.Rejected? ==> result.None? && videoDetail == old(videoDetail)
      ensures recommendVideos == old(recommendVideos) && recommendCategoryVideos == old(recommendCategoryVideos)
    {
      request := Request(DetailPath(id), None, None);
      match response
      case Resolved(raw) =>
        var detail := NormalizeDetail(raw, fullUrl);
        videoDetail := Some(detail);
        result := Some(detail);
      case Rejected =>
        result := None;
    }
  }
}
