/**
 * The accumulated table and the two phases that change its rows in place:
 * `update_existing_stats` overwrites the three counters of the rows whose id
 * the statistics fetch returned, and `update_missing_transcripts` refills
 * the transcript and language of the rows that lack a transcript, saving
 * the table after every tenth refilled row. Saving (`save_data`) is modelled
 * as appending a snapshot of the rows to `saved`.
 */
module Table {
  import opened VideoTypes
  import VideoDetails
  import Transcripts

  /** The ids of the rows, in row order, as the statistics refresh sends
      them. */
  function IdList(rows: seq<VideoRecord>): (ids: seq<VideoId>)
    ensures |ids| == |rows|
    ensures forall i :: 0 <= i < |rows| ==> ids[i] == rows[i].videoId
  {
    seq(|rows|, i requires 0 <= i < |rows| => rows[i].videoId)
  }

  /** The set of ids the table holds, against which the search filters. */
  function RowIds(rows: seq<VideoRecord>): (ids: set<VideoId>)
    ensures forall i :: 0 <= i < |rows| ==> rows[i].videoId in ids
    ensures forall id :: id in ids ==> exists i :: 0 <= i < |rows| && rows[i].videoId == id
  {
    set r | r in rows :: r.videoId
  }

  // ---------------------------------------------------------------------------
  // Statistics refresh

  /** The statistics of a fetched item, no counter at all when it has none. */
  function StatisticsOf(item: DetailItem): Statistics
  {
    if item.statistics.Some? then item.statistics.value else Statistics(None, None, None)
  }

  function RefreshedRow(row: VideoRecord, details: map<VideoId, DetailItem>): VideoRecord
  {
    if row.videoId in details then
      var statistics := StatisticsOf(details[row.videoId]);
      row.(viewCount := statistics.viewCount, likeCount := statistics.likeCount,
           commentCount := statistics.commentCount)
    else row
  }

  /** The table after the refresh loop. Only the three counters of matched
      rows change: a matched row takes the fetched counters (null when the
      item has no statistics), an unmatched row is left as it was, and no
      other column of any row changes. */
  function Refreshed(rows: seq<VideoRecord>, details: map<VideoId, DetailItem>): (r: seq<VideoRecord>)
    ensures |r| == |rows|
    ensures forall i :: 0 <= i < |rows| ==>
      && r[i] == rows[i].(viewCount := r[i].viewCount, likeCount := r[i].likeCount, commentCount := r[i].commentCount)
      && (rows[i].videoId !in details ==> r[i] == rows[i])
      && (rows[i].videoId in details && details[rows[i].videoId].statistics.None? ==>
            r[i].viewCount.None? && r[i].likeCount.None? && r[i].commentCount.None?)
      && (rows[i].videoId in details && details[rows[i].videoId].statistics.Some? ==>
            && r[i].viewCount == details[rows[i].videoId].statistics.value.viewCount
            && r[i].likeCount == details[rows[i].videoId].statistics.value.likeCount
            && r[i].commentCount == details[rows[i].videoId].statistics.value.commentCount)
  {
    seq(|rows|, i requires 0 <= i < |rows| => RefreshedRow(rows[i], details))
  }

  /** The number of rows whose id is among `keys`. */
  function MatchedCount(rows: seq<VideoRecord>, keys: set<VideoId>): nat
  {
    if |rows| == 0 then 0
    else MatchedCount(rows[..|rows| - 1], keys) + (if rows[|rows| - 1].videoId in keys then 1 else 0)
  }

  /** `updated_count` is at most the number of rows; it is the number of rows
      exactly when every row is matched, and zero exactly when none is. */
  lemma {:induction false} MatchedCountBounds(rows: seq<VideoRecord>, keys: set<VideoId>)
    ensures MatchedCount(rows, keys) <= |rows|
    ensures MatchedCount(rows, keys) == |rows| <==> forall i :: 0 <= i < |rows| ==> rows[i].videoId in keys
    ensures MatchedCount(rows, keys) == 0 <==> forall i :: 0 <= i < |rows| ==> rows[i].videoId !in keys
  {
    if |rows| > 0 {
      var init := rows[..|rows| - 1];
      MatchedCountBounds(init, keys);
      assert forall i :: 0 <= i < |init| ==> init[i] == rows[i];
    }
  }

  /** One turn of the refresh loop: row i is refreshed and counted. */
  lemma RefreshStep(rows: seq<VideoRecord>, i: nat, details: map<VideoId, DetailItem>)
    requires i < |rows|
    ensures var cur := Refreshed(rows[..i], details) + rows[i..];
      && |cur| == |rows| && cur[i] == rows[i]
      && Refreshed(rows[..i + 1], details) + rows[i + 1..] == cur[i := RefreshedRow(rows[i], details)]
      && MatchedCount(rows[..i + 1], details.Keys)
         == MatchedCount(rows[..i], details.Keys) + (if rows[i].videoId in details then 1 else 0)
  {
    assert rows[..i + 1][..i] == rows[..i];
    var cur := Refreshed(rows[..i], details) + rows[i..];
    var next := Refreshed(rows[..i + 1], details) + rows[i + 1..];
    assert |next| == |cur[i := RefreshedRow(rows[i], details)]|;
    forall k | 0 <= k < |next|
      ensures next[k] == cur[i := RefreshedRow(rows[i], details)][k]
    {
    }
  }

  // ---------------------------------------------------------------------------
  // Transcript backfill

  /** A missing, empty or "Video Error" transcription. */
  predicate NeedsTranscript(row: VideoRecord)
  {
    row.transcription.None? || row.transcription == Some("") || row.transcription == Some(Transcripts.VideoError)
  }

  /** The positions, from `from` on, of the rows that need a transcript. */
  function MissingFrom(rows: seq<VideoRecord>, from: nat): (sel: seq<nat>)
    requires from <= |rows|
    ensures forall k :: 0 <= k < |sel| ==> from <= sel[k] < |rows| && NeedsTranscript(rows[sel[k]])
    ensures forall k, l :: 0 <= k < l < |sel| ==> sel[k] < sel[l]
    ensures forall i :: from <= i < |rows| && NeedsTranscript(rows[i]) ==> i in sel
    decreases |rows| - from
  {
    if from == |rows| then []
    else (if NeedsTranscript(rows[from]) then [from] else []) + MissingFrom(rows, from + 1)
  }

  /** The rows the backfill selects (`missing_transcripts`), in table order. */
  function MissingIndices(rows: seq<VideoRecord>): (sel: seq<nat>)
    ensures forall k :: 0 <= k < |sel| ==> sel[k] < |rows| && NeedsTranscript(rows[sel[k]])
    ensures forall k, l :: 0 <= k < l < |sel| ==> sel[k] < sel[l]
    ensures forall i :: 0 <= i < |rows| && NeedsTranscript(rows[i]) ==> i in sel
  {
    MissingFrom(rows, 0)
  }

  /** The row with its transcription and language overwritten by the
      transcript fetcher's pair for its id. */
  function Filled(row: VideoRecord, fetch: map<VideoId, seq<string>>, detect: map<string, string>): VideoRecord
  {
    WithTranscript(row, Transcripts.TranscriptAndLanguage(row.videoId, fetch, detect))
  }

  /** The row with its transcription and detected language overwritten. */
  function WithTranscript(row: VideoRecord, t: Transcripts.Transcript): VideoRecord
  {
    row.(transcription := Some(t.text), detectedLanguage := Some(t.language))
  }

  /** The table after the backfill: every selected row filled, every other
      row unchanged. */
  function Backfilled(rows: seq<VideoRecord>, fetch: map<VideoId, seq<string>>, detect: map<string, string>): seq<VideoRecord>
  {
    seq(|rows|, i requires 0 <= i < |rows| => if NeedsTranscript(rows[i]) then Filled(rows[i], fetch, detect) else rows[i])
  }

  ghost predicate ValidSelection(rows: seq<VideoRecord>, sel: seq<nat>)
  {
    && (forall k :: 0 <= k < |sel| ==> sel[k] < |rows|)
    && (forall k, l :: 0 <= k < l < |sel| ==> sel[k] < sel[l])
  }

  /** The table once the first n selected rows have been processed. */
  function BackfilledUpTo(rows: seq<VideoRecord>, sel: seq<nat>, n: nat,
                          fetch: map<VideoId, seq<string>>, detect: map<string, string>): (r: seq<VideoRecord>)
    requires ValidSelection(rows, sel) && n <= |sel|
    ensures |r| == |rows|
  {
    if n == 0 then rows
    else BackfilledUpTo(rows, sel, n - 1, fetch, detect)[sel[n - 1] := Filled(rows[sel[n - 1]], fetch, detect)]
  }

  /** After n selected rows, exactly those n rows are filled. */
  lemma {:induction false} BackfilledUpToAt(rows: seq<VideoRecord>, sel: seq<nat>, n: nat,
                                            fetch: map<VideoId, seq<string>>, detect: map<string, string>, i: nat)
    requires ValidSelection(rows, sel) && n <= |sel| && i < |rows|
    ensures BackfilledUpTo(rows, sel, n, fetch, detect)[i] == if i in sel[..n] then Filled(rows[i], fetch, detect) else rows[i]
  {
    if n > 0 {
      BackfilledUpToAt(rows, sel, n - 1, fetch, detect, i);
      assert sel[..n] == sel[..n - 1] + [sel[n - 1]];
      if i == sel[n - 1] {
        assert i !in sel[..n - 1];
      }
    }
  }

  /** Processing selected row n overwrites the two columns of that row of
      the current table, which is still as it was loaded. */
  lemma BackfillStep(rows: seq<VideoRecord>, sel: seq<nat>, n: nat,
                     fetch: map<VideoId, seq<string>>, detect: map<string, string>)
    requires ValidSelection(rows, sel) && n < |sel|
    ensures var current := BackfilledUpTo(rows, sel, n, fetch, detect);
      var t := Transcripts.TranscriptAndLanguage(current[sel[n]].videoId, fetch, detect);
      BackfilledUpTo(rows, sel, n + 1, fetch, detect) == current[sel[n] := WithTranscript(current[sel[n]], t)]
  {
    BackfilledUpToAt(rows, sel, n, fetch, detect, sel[n]);
    assert sel[n] !in sel[..n];
  }

  /** The backfill saves after every tenth refilled row. */
  const CheckpointEvery: nat := 10

  /** The snapshots saved while the first n selected rows are processed: one
      after each row whose position in the selection is a multiple of 10,
      the table at that moment. */
  function Checkpoints(rows: seq<VideoRecord>, sel: seq<nat>, n: nat,
                       fetch: map<VideoId, seq<string>>, detect: map<string, string>): (cs: seq<seq<VideoRecord>>)
    requires ValidSelection(rows, sel) && n <= |sel|
  {
    if n == 0 then []
    else Checkpoints(rows, sel, n - 1, fetch, detect)
         + (if n % CheckpointEvery == 0 then [BackfilledUpTo(rows, sel, n, fetch, detect)] else [])
  }

  lemma CheckpointsStep(rows: seq<VideoRecord>, sel: seq<nat>, n: nat,
                        fetch: map<VideoId, seq<string>>, detect: map<string, string>,
                        saved0: seq<seq<VideoRecord>>, saved: seq<seq<VideoRecord>>)
    requires ValidSelection(rows, sel) && n < |sel|
    requires saved == saved0 + Checkpoints(rows, sel, n, fetch, detect)
    ensures (n + 1) % CheckpointEvery == 0 ==>
      saved + [BackfilledUpTo(rows, sel, n + 1, fetch, detect)] == saved0 + Checkpoints(rows, sel, n + 1, fetch, detect)
    ensures (n + 1) % CheckpointEvery != 0 ==> saved == saved0 + Checkpoints(rows, sel, n + 1, fetch, detect)
  {
    var before := Checkpoints(rows, sel, n, fetch, detect);
    assert before + [] == before;
  }

  /** There are floor(n / 10) checkpoints, checkpoint k being taken right
      after the 10 * (k + 1)-th selected row. */
  lemma {:induction false} CheckpointsAt(rows: seq<VideoRecord>, sel: seq<nat>, n: nat,
                                         fetch: map<VideoId, seq<string>>, detect: map<string, string>)
    requires ValidSelection(rows, sel) && n <= |sel|
    ensures |Checkpoints(rows, sel, n, fetch, detect)| == n / 10
    ensures forall k :: 0 <= k < n / 10 ==>
      10 * (k + 1) <= n && Checkpoints(rows, sel, n, fetch, detect)[k] == BackfilledUpTo(rows, sel, 10 * (k + 1), fetch, detect)
  {
    if n > 0 {
      CheckpointsAt(rows, sel, n - 1, fetch, detect);
      if n % 10 == 0 {
        assert n / 10 == (n - 1) / 10 + 1;
        assert 10 * ((n - 1) / 10 + 1) == n;
      } else {
        assert n / 10 == (n - 1) / 10;
      }
    }
  }

  /** For m selected rows there are floor(m / 10) interim saves; checkpoint k
      holds the table with the first 10 * (k + 1) selected rows filled and
      every other row as it was. */
  lemma CheckpointsSpec(rows: seq<VideoRecord>, fetch: map<VideoId, seq<string>>, detect: map<string, string>)
    ensures var sel := MissingIndices(rows);
      var cs := Checkpoints(rows, sel, |sel|, fetch, detect);
      && |cs| == |sel| / 10
      && forall k, i :: 0 <= k < |cs| && 0 <= i < |rows| ==>
           10 * (k + 1) <= |sel| && |cs[k]| == |rows| &&
           cs[k][i] == if i in sel[..10 * (k + 1)] then Filled(rows[i], fetch, detect) else rows[i]
  {
    var sel := MissingIndices(rows);
    var cs := Checkpoints(rows, sel, |sel|, fetch, detect);
    CheckpointsAt(rows, sel, |sel|, fetch, detect);
    forall k: nat, i: nat | k < |cs| && i < |rows|
      ensures cs[k][i] == if i in sel[..10 * (k + 1)] then Filled(rows[i], fetch, detect) else rows[i]
    {
      BackfilledUpToAt(rows, sel, 10 * (k + 1), fetch, detect, i);
    }
  }

  /** A 25-row selection is saved twice during the loop, after rows 10 and 20. */
  lemma TwentyFiveMissingSavesTwice(rows: seq<VideoRecord>, fetch: map<VideoId, seq<string>>, detect: map<string, string>)
    requires |MissingIndices(rows)| == 25
    ensures |Checkpoints(rows, MissingIndices(rows), 25, fetch, detect)| == 2
  {
    CheckpointsAt(rows, MissingIndices(rows), 25, fetch, detect);
  }

  /** Processing every selected row gives exactly the backfilled table. */
  lemma BackfillComplete(rows: seq<VideoRecord>, fetch: map<VideoId, seq<string>>, detect: map<string, string>)
    ensures BackfilledUpTo(rows, MissingIndices(rows), |MissingIndices(rows)|, fetch, detect) == Backfilled(rows, fetch, detect)
  {
    var sel := MissingIndices(rows);
    var r := BackfilledUpTo(rows, sel, |sel|, fetch, detect);
    forall i | 0 <= i < |rows|
      ensures r[i] == Backfilled(rows, fetch, detect)[i]
    {
      BackfilledUpToAt(rows, sel, |sel|, fetch, detect, i);
      assert sel[..|sel|] == sel;
    }
  }

  /** With nothing to refill, the backfill leaves the table as it is and saves nothing. */
  lemma NothingMissing(rows: seq<VideoRecord>, fetch: map<VideoId, seq<string>>, detect: map<string, string>)
    ensures MissingIndices(rows) == [] <==> forall i :: 0 <= i < |rows| ==> !NeedsTranscript(rows[i])
    ensures MissingIndices(rows) == [] ==> Backfilled(rows, fetch, detect) == rows
  {
    if forall i :: 0 <= i < |rows| ==> !NeedsTranscript(rows[i]) {
      NoneMissingFrom(rows, 0);
    }
  }

  lemma {:induction false} NoneMissingFrom(rows: seq<VideoRecord>, from: nat)
    requires from <= |rows|
    requires forall i :: from <= i < |rows| ==> !NeedsTranscript(rows[i])
    ensures MissingFrom(rows, from) == []
    decreases |rows| - from
  {
    if from < |rows| {
      NoneMissingFrom(rows, from + 1);
    }
  }

  /** A row whose transcript request fails is left with the sentinel and
      is selected again by the next backfill. */
  lemma FailedFillIsSelectedAgain(row: VideoRecord, fetch: map<VideoId, seq<string>>, detect: map<string, string>)
    requires row.videoId == "" || row.videoId !in fetch
    ensures NeedsTranscript(Filled(row, fetch, detect))
    ensures Filled(row, fetch, detect).detectedLanguage == Some(Transcripts.Unknown)
  {
  }

  // ---------------------------------------------------------------------------
  // The table object

  class VideoTable {
    var rows: seq<VideoRecord>
    /** Every table written by `save_data`, in order. */
    var saved: seq<seq<VideoRecord>>

    constructor (initial: seq<VideoRecord>)
      ensures rows == initial && saved == []
    {
      rows := initial;
      saved := [];
    }

    /** `save_data`: the current rows are written. */
    method Save()
      modifies this
      ensures rows == old(rows) && saved == old(saved) + [rows]
    {
      saved := saved + [rows];
    }

    /** The loop of `update_existing_stats` over the rows, in table order,
        given the fetched items by id. */
    method RefreshRows(details: map<VideoId, DetailItem>) returns (updated: nat)
      modifies this
      ensures rows == Refreshed(old(rows), details)
      ensures updated == MatchedCount(old(rows), details.Keys)
      ensures saved == old(saved)
    {
      ghost var rows0 := rows;
      updated := 0;
      var i := 0;
      while i < |rows|
        invariant 0 <= i <= |rows0| == |rows|
        invariant rows == Refreshed(rows0[..i], details) + rows0[i..]
        invariant updated == MatchedCount(rows0[..i], details.Keys)
        invariant saved == old(saved)
      {
        RefreshStep(rows0, i, details);
        var row := rows[i];
        if row.videoId in details {
          var statistics := StatisticsOf(details[row.videoId]);
          rows := rows[i := row.(viewCount := statistics.viewCount, likeCount := statistics.likeCount,
                                 commentCount := statistics.commentCount)];
          updated := updated + 1;
        }
        i := i + 1;
      }
      assert rows0[..|rows0|] == rows0 && rows0[|rows0|..] == [];
    }

    /** `update_existing_stats`: fetch statistics for every row's id, then
        overwrite the counters of the matched rows. An exception escaping the
        fetch leaves the rows as they were. */
    method RefreshStats(api: VideoDetails.DetailsApi, size: nat)
      returns (updated: nat, raised: bool)
      requires size > 0
      modifies this
      ensures saved == old(saved)
      ensures |old(rows)| == 0 ==> rows == old(rows) && updated == 0 && !raised
      ensures |old(rows)| > 0 ==>
        var fetched := VideoDetails.FetchSpec(IdList(old(rows)), size, api);
        var details := VideoDetails.DetailsMap(fetched.items);
        && raised == fetched.raised
        && (raised ==> rows == old(rows))
        && (!raised ==> rows == Refreshed(old(rows), details) && updated == MatchedCount(old(rows), details.Keys))
    {
      if |rows| == 0 {
        return 0, false;
      }
      var fetched := VideoDetails.FetchDetails(IdList(rows), size, api);
      if fetched.raised {
        return 0, true;
      }
      var details := VideoDetails.DetailsMap(fetched.items);
      updated := RefreshRows(details);
      raised := false;
    }

    /** `update_missing_transcripts`: refill the selected rows in table order,
        saving after every tenth. */
    method BackfillTranscripts(fetch: map<VideoId, seq<string>>, detect: map<string, string>)
      returns (updated: nat)
      modifies this
      ensures rows == Backfilled(old(rows), fetch, detect)
      ensures updated == |MissingIndices(old(rows))|
      ensures saved == old(saved) + Checkpoints(old(rows), MissingIndices(old(rows)), updated, fetch, detect)
    {
      var missing := MissingIndices(rows);
      ghost var rows0, saved0 := rows, saved;
      assert ValidSelection(rows0, missing);
      updated := 0;
      // an empty table, or an empty selection, returns at once
      if |rows| > 0 && |missing| > 0 {
        while updated < |missing|
          invariant 0 <= updated <= |missing|
          invariant rows == BackfilledUpTo(rows0, missing, updated, fetch, detect)
          invariant saved == saved0 + Checkpoints(rows0, missing, updated, fetch, detect)
        {
          var index := missing[updated];
          BackfillStep(rows0, missing, updated, fetch, detect);
          var videoId := rows[index].videoId;
          var t := Transcripts.TranscriptAndLanguage(videoId, fetch, detect);
          rows := rows[index := WithTranscript(rows[index], t)];
          CheckpointsStep(rows0, missing, updated, fetch, detect, saved0, saved);
          updated := updated + 1;
          if updated % CheckpointEvery == 0 {
            Save();
          }
        }
      }
      BackfillComplete(rows0, fetch, detect);
    }
  }
}
