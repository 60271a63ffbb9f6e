# YouTube ingestion script, modelled in Dafny

The script `src/transcribe_videos.py` grows a table of Video Records, one
per YouTube video about a fixed query. A run of `main` goes through these
phases:

1. Load the table. Optionally refresh the view, like and comment counters
   of the rows already in it, and save.
2. Optionally refill the transcripts the table lacks, saving after every
   tenth refilled row and once at the end.
3. Page through the search results. Keep only the videos whose id the
   table did not hold at load.
4. Fetch the statistics of those videos in batches of 50, and transcribe
   each one when transcripts are enabled.
5. Append the new records after the existing rows and save.

The model covers the collection logic under that plumbing. The platform,
the transcript service and the language detector become inputs, as
described under "## Left out". The modules follow the script's functions:

- `VideoTypes` (Types.dfy): the Video Record and the API payloads.
- `VideoDetails` (VideoDetails.dfy): `fetch_video_details` and the id-keyed
  lookup built from its items.
  - Batching.
  - The quota stop at a 403.
  - A non-403 HTTP error skips its batch.
  - Any other exception escapes to the caller.
- `Search` (Search.dfy): `search_youtube_videos`.
  - Pagination.
  - The known-id filter.
  - A 403 ends the search early.
  - A retry repeats the same page token.
- `Transcripts` (Transcripts.dfy): `get_transcript_and_language`.
- `Records` (Records.dfy): the per-entry record of `process_videos`.
- `Table` (Table.dfy): the table as a class `VideoTable` whose rows are
  updated in place, with the two update loops.
  - `update_existing_stats` and `update_missing_transcripts`.
  - `save_data`, modelled as appending a snapshot of the rows to `saved`.
- `Pipeline` (Pipeline.dfy): `main`.
  - Its phases as functions (`IngestSpec`).
  - A method `Ingest` that runs them on a `VideoTable` and is proved to
    match.

The loops of the script are methods proved against specification
functions:

- `FetchDetails` against `FetchSpec`.
- `SearchVideos` against `SearchFrom`.
- `RefreshRows` against `Refreshed`.
- `BackfillTranscripts` against `Backfilled` and `Checkpoints`.

What the script promises is then proved about those functions.

Three behaviours of the code are worth stating outright:

- **Duplicate ids.** Search results are filtered only against the ids the
  table held at load. A video served on two pages is therefore added
  twice (`Search.DuplicatesAreKept`).
- **Counters.** The counters are stored as the strings the API returns.
  The model keeps them as `Option<string>`, with `None` for a missing
  counter.
- **Exceptions in the statistics fetch.** The statistics fetch catches only
  `HttpError`. Any other exception escapes to `main`, which then returns
  `None`. The model records this as `raised`.

## Model

| member | source | states |
|---|---|---|
| VideoDetails.Batches | src/transcribe_videos.py:90-91 | definition: the consecutive slices of `B` ids taken at offsets 0, B, 2B, ..., the last one possibly shorter |
| VideoDetails.Stops | src/transcribe_videos.py:102-106 | definition: a 403 or a non-HTTP exception, the answers after which no further batch is requested |
| VideoDetails.ItemsOf | src/transcribe_videos.py:98 | definition: a response's items, none for an error |
| VideoDetails.Gathered | src/transcribe_videos.py:88-98 | definition: the items of the given requests' answers concatenated in request order, request k answered by the oracle as request number k |
| VideoDetails.RequestedFrom | src/transcribe_videos.py:90-106 | from batch j on, the requests run up to and including the first that stops the fetch, or to the last batch; the count lies between j and the number of batches |
| VideoDetails.FetchSpec | src/transcribe_videos.py:83-107 | definition: the outcome of a fetch; the batches requested up to the first stopping answer, the items they gathered, and whether that answer was an escaping exception |
| VideoDetails.BatchesPartition | src/transcribe_videos.py:85-91 | the batches concatenate to the id list in order, each holds between 1 and `batch_size` ids, and their number is ceil(N / B) |
| VideoDetails.BatchesCover | src/transcribe_videos.py:90-91 | the batches concatenate back to the id list |
| VideoDetails.BatchesSized | src/transcribe_videos.py:90-91 | no batch is empty or larger than the batch size |
| VideoDetails.BatchesCount | src/transcribe_videos.py:90-91 | the number of batches n satisfies (n - 1) * B < N <= n * B |
| VideoDetails.BatchAt | src/transcribe_videos.py:90-91 | batch k is the slice `ids[k*B : k*B+B]` (clipped at the end) and starts inside the list |
| VideoDetails.OffsetIsProduct | src/transcribe_videos.py:90 | the k-th value of `range(0, N, B)` is k * B |
| VideoDetails.BatchAtOffset | src/transcribe_videos.py:90-91 | the loop offset is inside the list exactly while batches remain, and the slice taken there is the next batch |
| VideoDetails.RequestedCount | src/transcribe_videos.py:97-106 | at most every batch is requested, and at least one when there are ids |
| VideoDetails.RequestedSkip | src/transcribe_videos.py:97-106 | batches whose answers do not stop the loop are all requested before the rest |
| VideoDetails.NoneStopsAll | src/transcribe_videos.py:97-106 | the loop's record of non-stopping responses holds for each requested batch |
| VideoDetails.FetchSpecStopsAt | src/transcribe_videos.py:102-106 | the fetch ends at the first batch that answers 403 or raises, with the items gathered up to it |
| VideoDetails.FetchSpecRunsThrough | src/transcribe_videos.py:88-107 | without a stopping batch every batch is requested and nothing escapes |
| VideoDetails.ContinueStep | src/transcribe_videos.py:97-98 | a page extends the results by its items and a non-403 HTTP error by nothing, and the loop goes on |
| VideoDetails.StopStep | src/transcribe_videos.py:102-106 | a 403 ends the loop keeping the results; another exception escapes |
| VideoDetails.FetchDetails | src/transcribe_videos.py:83-107 | the loop's outcome (items, batches requested, whether an exception escaped) is the specification `FetchSpec` |
| VideoDetails.FetchWithoutStop | src/transcribe_videos.py:85-107 | an empty id list makes no request and returns []; with no stopping response every batch is requested and the result is all items in batch order; non-403 errors only skip their own batch |
| VideoDetails.QuotaStopsFetch | src/transcribe_videos.py:102-106 | when batch k is the first to answer 403, exactly batches 0..k are requested, none after, and the result is the items of the batches before k, in order, with nothing raised |
| VideoDetails.QuotaOnSecondOfThree | src/transcribe_videos.py:97-106 | of three batches whose second answers 403, only the first one's items are kept and the third is never requested |
| VideoDetails.QuotaOnRepeatedBatch | src/transcribe_videos.py:97-106 | the platform answers requests, not batches: a 403 on a repeat of an earlier, answered batch keeps the earlier items and stops after two requests |
| VideoDetails.NoExceptionNoRaise | src/transcribe_videos.py:92-106 | when no batch answers with a non-HTTP exception, nothing escapes the fetch |
| VideoDetails.LastIndex | src/transcribe_videos.py:191 | the index of the last fetched item carrying the id, or -1 when none does |
| VideoDetails.DetailsMap | src/transcribe_videos.py:191 | the lookup's keys are exactly the fetched ids, and each maps to the last item with that id |
| Search.Continues | src/transcribe_videos.py:136-139 | definition: a token continues the search only when present and non-empty |
| Search.SearchFrom | src/transcribe_videos.py:109-156 | definition: the search from a response sequence and a cursor; a page adds its kept entries and ends the search unless its token continues it, a 403 ends it keeping what was gathered, any other error repeats the request with the same token; the result is the videos, the tokens sent and why it stopped |
| Search.Final | src/transcribe_videos.py:136-147 | definition: a page without continuation or a 403, the responses that end the search |
| Search.NextCursor | src/transcribe_videos.py:136-154 | definition: a page moves the cursor to its token; an error leaves it in place |
| Search.Retried | src/transcribe_videos.py:144-154 | definition: a non-403 HTTP error or any other exception, the responses that are retried |
| Search.ItemsOf | src/transcribe_videos.py:127 | definition: a response's entries before filtering, none for an error |
| Search.PageItems | src/transcribe_videos.py:127 | definition: the unfiltered entries of the page responses, in response order |
| Search.KeptPages | src/transcribe_videos.py:127-131 | definition: each response's entries filtered against the known ids, concatenated in response order |
| Search.NewEntries | src/transcribe_videos.py:130 | an entry is kept if and only if it is on the page and its id is not known; the result is no longer than the page |
| Search.NewEntriesAppend | src/transcribe_videos.py:127-131 | filtering two pages back to back is filtering each and concatenating |
| Search.NewEntriesKeepsUnknown | src/transcribe_videos.py:130 | with no known id on the page, every entry is kept, in order and with duplicates |
| Search.ResumeStep | src/transcribe_videos.py:126-154 | one loop turn per response kind: a last page ends the search with its kept entries, a continued page appends them and moves the token, a 403 ends the search with what was gathered, and a retried error changes nothing but the request count |
| Search.SearchVideos | src/transcribe_videos.py:109-156 | the loop's videos, tokens sent and reason for stopping are those of the specification `SearchFrom` from no token |
| Search.KeptPagesFiltered | src/transcribe_videos.py:127-131 | filtering page by page equals filtering the concatenated pages |
| Search.KeptPagesCons | src/transcribe_videos.py:127-131 | the kept entries of consumed responses are those of the first followed by those of the rest |
| Search.SearchKeepsPages | src/transcribe_videos.py:127-131 | the result is the per-page filtered entries of exactly the responses consumed |
| Search.SearchIsFilteredPages | src/transcribe_videos.py:127-131 | the result is the concatenation, in page and within-page order, of every consumed page filtered against the known ids and nothing else |
| Search.SearchOnlyNew | src/transcribe_videos.py:130 | no returned entry has a known id |
| Search.SearchStep | src/transcribe_videos.py:126-154 | a final response ends the search with its own kept entries; any other contributes its kept entries and hands its cursor on |
| Search.SearchTermination | src/transcribe_videos.py:136-154 | the first request has no token, each next one carries the previous page's token or the same token after an error, and the search stops exactly at the first page without continuation, the first 403, or when the responses run out |
| Search.DropRetries | src/transcribe_videos.py:144-154 | the responses with every retried error removed hold no retried error |
| Search.RetriesAreInvisible | src/transcribe_videos.py:144-154 | retried errors change neither the videos gathered nor why the search ended |
| Search.TwoPages | src/transcribe_videos.py:115-156 | a continued page and then a last page, nothing known: every entry of both pages is returned, after two requests |
| Search.DuplicatesAreKept | src/transcribe_videos.py:130-131 | a new entry served on two pages is returned twice |
| Transcripts.Join | src/transcribe_videos.py:165 | definition: the segment texts joined with single spaces |
| Transcripts.Split | src/transcribe_videos.py:165 | splitting at single spaces always gives at least one piece |
| Transcripts.SplitAfterWord | src/transcribe_videos.py:165 | a space-free word followed by a space splits off as one piece |
| Transcripts.SplitJoin | src/transcribe_videos.py:165 | joining space-free segments with single spaces loses nothing: splitting gives them back |
| Transcripts.JoinLength | src/transcribe_videos.py:165 | the joined text has exactly one separator between neighbouring segments |
| Transcripts.JoinRecoverable | src/transcribe_videos.py:165 | the join of non-empty, space-free segments splits back into them |
| Transcripts.TranscriptAndLanguage | src/transcribe_videos.py:158-177 | an empty id or a failed request gives exactly ("Video Error", "unknown"); otherwise the text is the segments joined by single spaces, which splits back into them when there is at least one segment and none holds a space, and the language is the detected one, or "unknown" when detection fails, the text being kept |
| Records.WatchUrl | src/transcribe_videos.py:209 | definition: `https://www.youtube.com/watch?v=` followed by the id |
| Records.VideoIdOfUrl | src/transcribe_videos.py:209 | definition: the id that follows the watch-URL prefix, if the URL has that prefix |
| Records.StatisticsFor | src/transcribe_videos.py:197-198 | definition: the statistics of the fetched item with the id, no counter at all when the id was not fetched or its item has no statistics |
| Records.MakeRecord | src/transcribe_videos.py:196-225 | definition: one record from one entry, the lookup, and the transcript switch |
| Records.AssembleRecords | src/transcribe_videos.py:179-227 | definition: the records of all entries in entry order, built on the lookup of the fetched items |
| Records.CountsFrom | src/transcribe_videos.py:197-208 | definition: a record's counters are those of the last fetched item with the id, or null |
| Records.EntryIds | src/transcribe_videos.py:185 | one id per search entry, in order |
| Records.UrlNamesVideo | src/transcribe_videos.py:209 | the watch URL determines the id it was built from |
| Records.RecordCounts | src/transcribe_videos.py:196-208 | a record's counters are those of the last fetched item with its id, or null when there is none or it has no statistics |
| Records.AssembleRecordsSpec | src/transcribe_videos.py:179-227 | exactly one record per search entry, in order, with the entry's id, title, description and date, URL `https://www.youtube.com/watch?v=<id>`, region or '', fetched counters or null, and '' for transcript and language unless transcripts are enabled, in which case the transcript fetcher's pair |
| Table.IdList | src/transcribe_videos.py:235 | one id per row, in row order |
| Table.RowIds | src/transcribe_videos.py:305 | the set of ids is exactly the ids of the rows |
| Table.StatisticsOf | src/transcribe_videos.py:248 | definition: a fetched item's statistics, no counter at all when it has none |
| Table.RefreshedRow | src/transcribe_videos.py:246-251 | definition: a matched row with its three counters overwritten, an unmatched row as it was |
| Table.MatchedCount | src/transcribe_videos.py:244-252 | definition: the number of rows whose id was fetched |
| Table.Refreshed | src/transcribe_videos.py:245-252 | only the three counters of matched rows change: a match takes the fetched counters, null when the item has no statistics; unmatched rows and all other columns are unchanged |
| Table.MatchedCountBounds | src/transcribe_videos.py:244-252 | `updated_count` is at most the number of rows, equal to it exactly when every row matched, zero exactly when none did |
| Table.RefreshStep | src/transcribe_videos.py:245-252 | one loop turn refreshes row i only and counts it when matched |
| Table.NeedsTranscript | src/transcribe_videos.py:263-267 | definition: a missing, '' or "Video Error" transcription |
| Table.Filled | src/transcribe_videos.py:281-283 | definition: the row with the transcript fetcher's pair for its id written into transcription and language |
| Table.WithTranscript | src/transcribe_videos.py:282-283 | definition: the row with the given transcription and language |
| Table.Backfilled | src/transcribe_videos.py:257-296 | definition: every row that needs a transcript filled, every other row as it was |
| Table.Checkpoints | src/transcribe_videos.py:285-290 | definition: the snapshot saved after each selected row whose running count is a multiple of 10 |
| Table.MissingFrom | src/transcribe_videos.py:263-267 | the selected positions from a start on are increasing and are exactly the rows with a missing, '' or "Video Error" transcription |
| Table.MissingIndices | src/transcribe_videos.py:263-267 | the selection is exactly the rows with a missing, '' or "Video Error" transcription, in table order |
| Table.BackfilledUpTo | src/transcribe_videos.py:277-283 | processing selected rows keeps the number of rows |
| Table.BackfilledUpToAt | src/transcribe_videos.py:277-285 | after n selected rows, exactly those n rows carry the fetched transcript and language and every other row is as loaded |
| Table.BackfillStep | src/transcribe_videos.py:277-283 | processing selected row n overwrites transcription and language of that row only |
| Table.CheckpointsStep | src/transcribe_videos.py:287-290 | the loop saves after a row exactly when the running count is a multiple of 10 |
| Table.CheckpointsAt | src/transcribe_videos.py:285-290 | after n rows there are floor(n / 10) interim saves, save k taken right after row 10 * (k + 1) |
| Table.CheckpointsSpec | src/transcribe_videos.py:276-293 | for m selected rows there are floor(m / 10) interim saves, save k holding the table with the first 10 * (k + 1) selected rows refilled |
| Table.TwentyFiveMissingSavesTwice | src/transcribe_videos.py:287-290 | 25 selected rows give two interim saves |
| Table.BackfillComplete | src/transcribe_videos.py:277-296 | processing the whole selection refills exactly the selected rows |
| Table.NothingMissing | src/transcribe_videos.py:269-271 | the selection is empty exactly when no row needs a transcript, and then the table is returned unchanged |
| Table.NoneMissingFrom | src/transcribe_videos.py:263-271 | with no row needing a transcript from a start on, nothing is selected there |
| Table.FailedFillIsSelectedAgain | src/transcribe_videos.py:263-283 | a row whose transcript request fails gets "Video Error" and "unknown" and is selected again by the next backfill |
| Table.VideoTable.constructor | src/transcribe_videos.py:59-69 | the loaded table holds the given rows and has not been saved |
| Table.VideoTable.Save | src/transcribe_videos.py:71-81 | the current rows are saved as a snapshot and nothing else changes |
| Table.VideoTable.RefreshRows | src/transcribe_videos.py:243-252 | the loop leaves the rows refreshed from the lookup, counts the matched rows and saves nothing |
| Table.VideoTable.RefreshStats | src/transcribe_videos.py:229-255 | an empty table is returned unchanged; otherwise the statistics of every row's id are fetched, an escaping exception leaves the rows as they were, and otherwise the rows are refreshed and the matches counted |
| Table.VideoTable.BackfillTranscripts | src/transcribe_videos.py:257-296 | the rows become the backfilled table, the count is the size of the selection, and the saves are exactly the interim checkpoints |
| Pipeline.RefreshPhase | src/transcribe_videos.py:309-310 | definition: the table after the optional refresh, None when the fetch raised |
| Pipeline.RefreshSaves | src/transcribe_videos.py:309-311 | definition: the saved refreshed table when the refresh ran and raised nothing, else nothing |
| Pipeline.Backfills | src/transcribe_videos.py:314 | definition: the backfill is enabled and the table is not empty |
| Pipeline.BackfillPhase | src/transcribe_videos.py:314-316 | definition: the table after the optional backfill, with its interim snapshots and its final save |
| Pipeline.PreparePhase | src/transcribe_videos.py:308-316 | definition: the refresh, then the backfill, on the loaded table, with the snapshots saved on the way; None when the refresh raised |
| Pipeline.MergePhase | src/transcribe_videos.py:318-338 | definition: search against the load-time ids; nothing found keeps the table; otherwise the statistics fetch, None when it raised, then the records appended after the table and saved |
| Pipeline.IngestSpec | src/transcribe_videos.py:298-342 | definition: the prepare phases and then the merge phase, their saves in order, None as soon as a phase raised |
| Pipeline.SameIds | src/transcribe_videos.py:245-283 | definition: the same number of rows with the same ids position by position |
| Pipeline.RowsForFound | src/transcribe_videos.py:196-209 | definition: one row per found video, in order, with its id and watch URL, none among the known ids |
| Pipeline.RefreshKeepsIds | src/transcribe_videos.py:309-310 | the statistics phase keeps the rows, their order and their ids |
| Pipeline.PrepareKeepsIds | src/transcribe_videos.py:308-316 | both update phases keep the rows, their order and their ids |
| Pipeline.MergeAppendsFound | src/transcribe_videos.py:318-338 | the merged table is the prepared table followed by one row per found video, in search order, with its id and watch URL, none known at load |
| Pipeline.IngestAppendsFound | src/transcribe_videos.py:298-338 | what `main` returns is the loaded rows with their ids, in order, followed by one new row per found video, in search order, none with an id held at load; so the merge always happens when something was found |
| Pipeline.NothingFound | src/transcribe_videos.py:320-324 | a search that finds nothing returns the prepared table with no further save; with both update phases off, the loaded table unchanged and nothing saved |
| Pipeline.DefaultRun | src/transcribe_videos.py:298-338 | with the shipped configuration the loaded rows are untouched, each new row carries the transcript fetcher's pair, a failed run saves nothing, and a run saves once, the merged table, exactly when it found something |
| Pipeline.EmptyTableTwoPages | src/transcribe_videos.py:298-338 | an empty table and two pages of results give one row per entry of both pages, in order, each with its watch URL, saved once |
| Pipeline.BackfillRunSaves | src/transcribe_videos.py:314-316 | a run that only backfills saves floor(m / 10) interim snapshots and then the backfilled table |
| Pipeline.RefreshAndSave | src/transcribe_videos.py:309-311 | the table becomes the refreshed one, or stays as it was when the fetch raised, and the saves grow by `RefreshSaves` |
| Pipeline.BackfillAndSave | src/transcribe_videos.py:314-316 | the table becomes that of `BackfillPhase` and the saves grow by its snapshots |
| Pipeline.Prepare | src/transcribe_videos.py:308-316 | the refresh and backfill phases leave the table and the saves of `PreparePhase`; they report whether an exception escaped, in which case the table is as loaded |
| Pipeline.SearchAndMerge | src/transcribe_videos.py:318-338 | the search, record assembly and merge leave the table and the saves of `MergePhase`; on an escaping exception the table is as it was |
| Pipeline.Ingest | src/transcribe_videos.py:298-342 | the run's result and its saves are those of `IngestSpec`; the returned table is left in the table object; after an escaping exception the table object holds the prepared table, or the loaded one when the refresh raised |

## Left out

- Logging and the log-file name built from the clock: these are output
  only.
- API-key loading and client construction: these are environment access
  and a foreign library.
- The YouTube Data API, the transcript service and the language detector
  are inputs:
  - The statistics endpoint is a function from the request number within
    one fetch and the batch of ids to the response. There is one function
    per fetch.
  - The search endpoint is a finite sequence of responses, consumed in
    order.
  - The transcript service is a map from the ids whose request succeeds to
    their segment texts.
  - The detector is a map from the texts it can classify to their
    language.
- The search's query, time window and page size are not modelled. They
  are fixed request parameters the model does not see.
- Reading and writing CSV files, creating directories, and the backup file
  named from `time.time()` are file I/O. A save is modelled as appending a
  snapshot of the rows. A failed write is not modelled.
- `load_existing_data` is file I/O. The run starts from a `VideoTable`
  holding the loaded rows.
- Every `time.sleep` is left out: it only rate-limits.
- `Search.SearchVideos`: the unbounded retry on non-403 errors is bounded
  by the finite response sequence. When the responses run out, the search
  ends with what it has (`ResponsesExhausted`).
- The page counter `page_count` is left out: it is only logged.
- The top-level `except` of `main` is modelled as a `None` result.
  - The only exception the model raises is a non-HTTP exception in a
    statistics fetch.
  - Malformed responses (a missing `id` or `snippet` key) are not
    modelled.
- The pandas index labels are not modelled. The rows are addressed by
  position, which is what the index is for a table read from CSV or built
  by `concat(..., ignore_index=True)`.
- An empty or NaN cell read back from CSV is `None`. The types and
  coercions pandas applies when reading are not modelled.
- The view, like and comment counters are kept as the strings the API
  returns, without conversion to numbers.
- `main` builds a new DataFrame for the merged table. The model assigns the
  concatenation to the table object's rows instead, so object identity is
  not modelled.
