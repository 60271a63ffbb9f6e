/**
 * Record assembly (`process_videos`): one Video Record per search entry, in
 * entry order, built from the entry's snippet, the fetched statistics for
 * its id, a derived watch URL and, when enabled, its transcript. The
 * statistics are fetched by `VideoDetails.FetchDetails` beforehand; this
 * module receives the items that fetch gathered.
 */
module Records {
  import opened VideoTypes
  import VideoDetails
  import Transcripts

  const WatchUrlPrefix: string := "https://www.youtube.com/watch?v="

  /** The ids of the search entries, in entry order. */
  function EntryIds(entries: seq<SearchEntry>): (ids: seq<VideoId>)
    ensures |ids| == |entries|
    ensures forall i :: 0 <= i < |entries| ==> ids[i] == entries[i].videoId
  {
    seq(|entries|, i requires 0 <= i < |entries| => entries[i].videoId)
  }

  function WatchUrl(videoId: VideoId): string
  {
    WatchUrlPrefix + videoId
  }

  /** The id a watch URL was derived from. */
  function VideoIdOfUrl(url: string): Option<VideoId>
  {
    if |url| >= |WatchUrlPrefix| && url[..|WatchUrlPrefix|] == WatchUrlPrefix
    then Some(url[|WatchUrlPrefix|..])
    else None
  }

  /** The URL loses nothing: the id is recovered from it. */
  lemma UrlNamesVideo(videoId: VideoId)
    ensures VideoIdOfUrl(WatchUrl(videoId)) == Some(videoId)
  {
    assert WatchUrl(videoId)[..|WatchUrlPrefix|] == WatchUrlPrefix;
    assert WatchUrl(videoId)[|WatchUrlPrefix|..] == videoId;
  }

  /** The statistics of the fetched item with the id, with a missing
      part read as a statistics object that has no counter at all. */
  function StatisticsFor(details: map<VideoId, DetailItem>, videoId: VideoId): Statistics
  {
    if videoId in details && details[videoId].statistics.Some?
    then details[videoId].statistics.value
    else Statistics(None, None, None)
  }

  function MakeRecord(entry: SearchEntry, details: map<VideoId, DetailItem>, includeTranscripts: bool,
                      fetch: map<VideoId, seq<string>>, detect: map<string, string>): VideoRecord
  {
    var statistics := StatisticsFor(details, entry.videoId);
    var record := VideoRecord(
      entry.videoId, entry.title, entry.description, entry.publishedAt,
      statistics.viewCount, statistics.likeCount, statistics.commentCount,
      WatchUrl(entry.videoId),
      if entry.regionCode.Some? then entry.regionCode.value else "",
      Some(""), Some(""));
    if includeTranscripts then
      var t := Transcripts.TranscriptAndLanguage(entry.videoId, fetch, detect);
      record.(transcription := Some(t.text), detectedLanguage := Some(t.language))
    else record
  }

  /** The records `process_videos` returns for the entries, given the items
      the statistics fetch gathered for their ids. */
  function AssembleRecords(entries: seq<SearchEntry>, fetched: seq<DetailItem>, includeTranscripts: bool,
                           fetch: map<VideoId, seq<string>>, detect: map<string, string>): seq<VideoRecord>
  {
    if |entries| == 0 then []
    else
      var details := VideoDetails.DetailsMap(fetched);
      seq(|entries|, i requires 0 <= i < |entries| => MakeRecord(entries[i], details, includeTranscripts, fetch, detect))
  }

  /** Statistics of the entry's id as the fetch delivered them: null counters
      when no fetched item has the id; otherwise those of the last fetched
      item with that id, null when it has no statistics. */
  predicate CountsFrom(r: VideoRecord, videoId: VideoId, fetched: seq<DetailItem>)
  {
    var i := VideoDetails.LastIndex(fetched, videoId);
    && (i < 0 || fetched[i].statistics.None? ==>
          r.viewCount.None? && r.likeCount.None? && r.commentCount.None?)
    && (i >= 0 && fetched[i].statistics.Some? ==>
          && r.viewCount == fetched[i].statistics.value.viewCount
          && r.likeCount == fetched[i].statistics.value.likeCount
          && r.commentCount == fetched[i].statistics.value.commentCount)
  }

  lemma RecordCounts(entry: SearchEntry, fetched: seq<DetailItem>, includeTranscripts: bool,
                     fetch: map<VideoId, seq<string>>, detect: map<string, string>)
    ensures CountsFrom(MakeRecord(entry, VideoDetails.DetailsMap(fetched), includeTranscripts, fetch, detect),
                       entry.videoId, fetched)
  {
    var details := VideoDetails.DetailsMap(fetched);
    var statistics := StatisticsFor(details, entry.videoId);
    var r := MakeRecord(entry, details, includeTranscripts, fetch, detect);
    assert r.viewCount == statistics.viewCount && r.likeCount == statistics.likeCount
      && r.commentCount == statistics.commentCount;
  }

  /** Exactly one record per search entry, in entry order, carrying the
      entry's id and snippet fields, the watch URL of its id, the region or
      '' when the snippet has none, the fetched counters or null, and '' for
      transcript and language unless transcripts are enabled, in which case
      the transcript fetcher's pair. */
  lemma AssembleRecordsSpec(entries: seq<SearchEntry>, fetched: seq<DetailItem>, includeTranscripts: bool,
                            fetch: map<VideoId, seq<string>>, detect: map<string, string>)
    ensures var rs := AssembleRecords(entries, fetched, includeTranscripts, fetch, detect);
      && |rs| == |entries|
      && forall i :: 0 <= i < |entries| ==>
        && rs[i].videoId == entries[i].videoId
        && rs[i].title == entries[i].title
        && rs[i].description == entries[i].description
        && rs[i].publishedAt == entries[i].publishedAt
        && rs[i].videoUrl == "https://www.youtube.com/watch?v=" + entries[i].videoId
        && rs[i].region == (if entries[i].regionCode.Some? then entries[i].regionCode.value else "")
        && CountsFrom(rs[i], entries[i].videoId, fetched)
        && (!includeTranscripts ==> rs[i].transcription == Some("") && rs[i].detectedLanguage == Some(""))
        && (includeTranscripts ==>
              var t := Transcripts.TranscriptAndLanguage(entries[i].videoId, fetch, detect);
              rs[i].transcription == Some(t.text) && rs[i].detectedLanguage == Some(t.language))
  {
    var rs := AssembleRecords(entries, fetched, includeTranscripts, fetch, detect);
    forall i | 0 <= i < |entries|
      ensures CountsFrom(rs[i], entries[i].videoId, fetched)
    {
      RecordCounts(entries[i], fetched, includeTranscripts, fetch, detect);
    }
  }
}
