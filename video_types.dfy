/** The records the video service exchanges with the back end. */
module VideoTypes {

  /** A video as the back end describes it (every field of `IVideo`). The
      duration field is spelled `druation` by the back end. */
  datatype Video = Video(
    actress: string,
    area: string,
    category: string,
    categoryId: int,
    cover: string,
    createdAt: int,
    definition: string,
    description: string,
    director: string,
    duration: string,
    id: int,
    publishedAt: int,
    title: string)

  /** One playlist entry (the fields of `IPlay` the core reads). A
      `circuitId` of 0 stands for every falsy value (absent, 0). */
  datatype Play = Play(id: int, title: string, src: string, circuitId: int)

  /** `IVideoDetail`: a video together with its playlist. */
  datatype VideoDetail = VideoDetail(video: Video, playlist: seq<Play>)

  /** A video category: its id and the name used to query it. */
  datatype Category = Category(id: int, url: string)

  /** One page of a paged list (only the list itself is modelled). */
  datatype PageData = PageData(data: seq<Video>)

  /** How an HTTP request settled: the decoded body, or a rejected promise. */
  datatype Response<T> = Resolved(body: T) | Rejected
}
