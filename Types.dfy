/**
 * Value types shared by every phase of the ingestion script: the search
 * entries and detail items that the video platform's API returns, and the
 * Video Record, one row of the accumulated table.
 */
module VideoTypes {

  datatype Option<+T> = None | Some(value: T)

  type VideoId = string

  /** The HTTP status the platform answers with when the API quota is
      exceeded. */
  const QuotaStatus: int := 403

  /** The three counters of a detail item's `statistics` part; a counter the
      platform hides (likes, comments) is absent. The platform sends the
      counts as decimal strings and the script stores what it receives. */
  datatype Statistics = Statistics(
    viewCount: Option<string>,
    likeCount: Option<string>,
    commentCount: Option<string>)

  /** One item of a search page: `id.videoId` and the `snippet` fields the
      script reads. `regionCode` is usually absent from search snippets. */
  datatype SearchEntry = SearchEntry(
    videoId: VideoId,
    title: string,
    description: string,
    publishedAt: string,
    regionCode: Option<string>)

  /** One item of a statistics response: its `id` and its `statistics`, which
      may be missing altogether. */
  datatype DetailItem = DetailItem(id: VideoId, statistics: Option<Statistics>)

  /** One row of the table, with the eleven columns in file order. A `None`
      in `transcription` or `detectedLanguage` is a missing cell. */
  datatype VideoRecord = VideoRecord(
    videoId: VideoId,
    title: string,
    description: string,
    publishedAt: string,
    viewCount: Option<string>,
    likeCount: Option<string>,
    commentCount: Option<string>,
    videoUrl: string,
    region: string,
    transcription: Option<string>,
    detectedLanguage: Option<string>)
}
