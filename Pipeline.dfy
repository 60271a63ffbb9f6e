/**
 * One run of the ingestion script (`main`): the optional statistics refresh
 * and transcript backfill of the loaded table, the search for new videos
 * against the ids the table held at load, the record assembly for what the
 * search found, and the merge that puts the new records after the existing
 * rows. An exception that escapes a phase ends the run with no table
 * (`main` returns None). The statistics fetch of the refresh and that of
 * the record assembly are two separate conversations with the platform and
 * get an oracle each.
 */
module Pipeline {
  import opened VideoTypes
  import VideoDetails
  import Search
  import Records
  import Table
  import Transcripts

  /** The switches of the script's configuration that decide its behaviour. */
  datatype Config = Config(batchSize: nat, updateExisting: bool, fetchTranscripts: bool, updateTranscripts: bool)

  /** The configuration as the script ships it. */
  const DefaultConfig: Config := Config(VideoDetails.BatchSize, false, true, false)

  /** What `main` returns (None when an exception reached its handler) and
      the snapshots it saved, in order. */
  datatype Outcome = Outcome(result: Option<seq<VideoRecord>>, saves: seq<seq<VideoRecord>>)

  /** The table after the optional statistics refresh; None when the fetch
      raised. */
  function RefreshPhase(cfg: Config, rows: seq<VideoRecord>, api: VideoDetails.DetailsApi)
    : Option<seq<VideoRecord>>
    requires cfg.batchSize > 0
  {
    if cfg.updateExisting && |rows| > 0 then
      var fetched := VideoDetails.FetchSpec(Table.IdList(rows), cfg.batchSize, api);
      if fetched.raised then None else Some(Table.Refreshed(rows, VideoDetails.DetailsMap(fetched.items)))
    else Some(rows)
  }

  /** Whether the transcript backfill runs on the table. */
  predicate Backfills(cfg: Config, rows: seq<VideoRecord>)
  {
    cfg.updateTranscripts && |rows| > 0
  }

  /** The table after the refresh and the backfill, with the snapshots
      saved on the way; None when the refresh raised. */
  function PreparePhase(cfg: Config, rows: seq<VideoRecord>,
                        statsApi: VideoDetails.DetailsApi,
                        fetch: map<VideoId, seq<string>>, detect: map<string, string>): Outcome
    requires cfg.batchSize > 0
  {
    var refreshed := RefreshPhase(cfg, rows, statsApi);
    if refreshed.None? then Outcome(None, [])
    else
      var backfill := BackfillPhase(cfg, refreshed.value, fetch, detect);
      Outcome(backfill.result, RefreshSaves(cfg, rows, statsApi) + backfill.saves)
  }

  /** The save after a refresh that ran and raised nothing. */
  function RefreshSaves(cfg: Config, rows: seq<VideoRecord>, api: VideoDetails.DetailsApi): seq<seq<VideoRecord>>
    requires cfg.batchSize > 0
  {
    var refreshed := RefreshPhase(cfg, rows, api);
    if cfg.updateExisting && |rows| > 0 && refreshed.Some? then [refreshed.value] else []
  }

  /** The table after the optional transcript backfill, with the interim
      snapshots and the final save. */
  function BackfillPhase(cfg: Config, rows: seq<VideoRecord>,
                         fetch: map<VideoId, seq<string>>, detect: map<string, string>): Outcome
  {
    if Backfills(cfg, rows) then
      var r2 := Table.Backfilled(rows, fetch, detect);
      Outcome(Some(r2), Table.Checkpoints(rows, Table.MissingIndices(rows), |Table.MissingIndices(rows)|, fetch, detect) + [r2])
    else Outcome(Some(rows), [])
  }

  /** The search, the record assembly and the merge, on the prepared table
      `prepared`; `known` are the ids the table held at load. */
  function MergePhase(cfg: Config, prepared: seq<VideoRecord>, known: set<VideoId>,
                      detailsApi: VideoDetails.DetailsApi,
                      responses: seq<Search.SearchResponse>,
                      fetch: map<VideoId, seq<string>>, detect: map<string, string>): Outcome
    requires cfg.batchSize > 0
  {
    var found := Search.SearchFrom(responses, None, known).videos;
    if |found| == 0 then Outcome(Some(prepared), [])
    else
      var fetched := VideoDetails.FetchSpec(Records.EntryIds(found), cfg.batchSize, detailsApi);
      if fetched.raised then Outcome(None, [])
      else
        var records := Records.AssembleRecords(found, fetched.items, cfg.fetchTranscripts, fetch, detect);
        if |records| > 0 then Outcome(Some(prepared + records), [prepared + records])
        else Outcome(Some(prepared), [])
  }

  /** The whole run, from the loaded table. */
  function IngestSpec(cfg: Config, rows: seq<VideoRecord>,
                      statsApi: VideoDetails.DetailsApi,
                      detailsApi: VideoDetails.DetailsApi,
                      responses: seq<Search.SearchResponse>,
                      fetch: map<VideoId, seq<string>>, detect: map<string, string>): Outcome
    requires cfg.batchSize > 0
  {
    var prep := PreparePhase(cfg, rows, statsApi, fetch, detect);
    if prep.result.None? then prep
    else
      var merged := MergePhase(cfg, prep.result.value, Table.RowIds(rows), detailsApi, responses, fetch, detect);
      Outcome(merged.result, prep.saves + merged.saves)
  }

  /** Both update phases keep the rows, their order and their ids. */
  predicate SameIds(a: seq<VideoRecord>, b: seq<VideoRecord>)
  {
    |a| == |b| && forall i :: 0 <= i < |a| ==> a[i].videoId == b[i].videoId
  }

  lemma RefreshKeepsIds(cfg: Config, rows: seq<VideoRecord>, statsApi: VideoDetails.DetailsApi)
    requires cfg.batchSize > 0
    ensures var refreshed := RefreshPhase(cfg, rows, statsApi);
      refreshed.Some? ==> SameIds(refreshed.value, rows)
  {
  }

  lemma PrepareKeepsIds(cfg: Config, rows: seq<VideoRecord>,
                        statsApi: VideoDetails.DetailsApi,
                        fetch: map<VideoId, seq<string>>, detect: map<string, string>)
    requires cfg.batchSize > 0
    ensures var prep := PreparePhase(cfg, rows, statsApi, fetch, detect);
      prep.result.Some? ==> SameIds(prep.result.value, rows)
  {
    var refreshed := RefreshPhase(cfg, rows, statsApi);
    RefreshKeepsIds(cfg, rows, statsApi);
    if refreshed.Some? {
      var r1 := refreshed.value;
      var r2 := Table.Backfilled(r1, fetch, detect);
      assert SameIds(r2, r1);
    }
  }

  /** One new row per found video, in search order, with that video's id
      and watch URL, none of them among the known ids. */
  predicate RowsForFound(newRows: seq<VideoRecord>, found: seq<SearchEntry>, known: set<VideoId>)
  {
    && |newRows| == |found|
    && forall i :: 0 <= i < |found| ==>
         && newRows[i].videoId == found[i].videoId
         && newRows[i].videoUrl == Records.WatchUrlPrefix + found[i].videoId
         && newRows[i].videoId !in known
  }

  /** The merge keeps the prepared table as its prefix and appends the rows
      of the found videos. */
  lemma MergeAppendsFound(cfg: Config, prepared: seq<VideoRecord>, known: set<VideoId>,
                          detailsApi: VideoDetails.DetailsApi,
                          responses: seq<Search.SearchResponse>,
                          fetch: map<VideoId, seq<string>>, detect: map<string, string>)
    requires cfg.batchSize > 0
    ensures var merged := MergePhase(cfg, prepared, known, detailsApi, responses, fetch, detect);
      merged.result.Some? ==>
        && |prepared| <= |merged.result.value|
        && merged.result.value[..|prepared|] == prepared
        && RowsForFound(merged.result.value[|prepared|..], Search.SearchFrom(responses, None, known).videos, known)
  {
    var merged := MergePhase(cfg, prepared, known, detailsApi, responses, fetch, detect);
    var found := Search.SearchFrom(responses, None, known).videos;
    if merged.result.Some? && |found| > 0 {
      var fetched := VideoDetails.FetchSpec(Records.EntryIds(found), cfg.batchSize, detailsApi);
      var records := Records.AssembleRecords(found, fetched.items, cfg.fetchTranscripts, fetch, detect);
      Records.AssembleRecordsSpec(found, fetched.items, cfg.fetchTranscripts, fetch, detect);
      Search.SearchOnlyNew(responses, None, known);
      var table := prepared + records;
      assert merged.result.value == table;
      assert table[..|prepared|] == prepared && table[|prepared|..] == records;
      forall i | 0 <= i < |found|
        ensures records[i].videoId !in known
      {
        assert found[i] in found;
      }
    } else if merged.result.Some? {
      assert prepared[..|prepared|] == prepared && prepared[|prepared|..] == [];
    }
  }

  /** What `main` returns is the loaded table, row for row with the same
      ids, followed by one new row per video the search found, in search
      order, carrying that video's id and watch URL; no new row has an id
      the table held at load. In particular the merge always happens when
      the search found something and the statistics fetch did not raise. */
  lemma IngestAppendsFound(cfg: Config, rows: seq<VideoRecord>,
                           statsApi: VideoDetails.DetailsApi,
                           detailsApi: VideoDetails.DetailsApi,
                           responses: seq<Search.SearchResponse>,
                           fetch: map<VideoId, seq<string>>, detect: map<string, string>)
    requires cfg.batchSize > 0
    ensures var o := IngestSpec(cfg, rows, statsApi, detailsApi, responses, fetch, detect);
      o.result.Some? ==>
        && |rows| <= |o.result.value|
        && SameIds(o.result.value[..|rows|], rows)
        && RowsForFound(o.result.value[|rows|..], Search.SearchFrom(responses, None, Table.RowIds(rows)).videos, Table.RowIds(rows))
  {
    var o := IngestSpec(cfg, rows, statsApi, detailsApi, responses, fetch, detect);
    var prep := PreparePhase(cfg, rows, statsApi, fetch, detect);
    PrepareKeepsIds(cfg, rows, statsApi, fetch, detect);
    if prep.result.Some? {
      var prepared := prep.result.value;
      var merged := MergePhase(cfg, prepared, Table.RowIds(rows), detailsApi, responses, fetch, detect);
      assert o.result == merged.result;
      MergeAppendsFound(cfg, prepared, Table.RowIds(rows), detailsApi, responses, fetch, detect);
    }
  }

  /** A search that finds nothing ends the run with the prepared table and
      no further save; with both update phases off, that is the loaded table
      unchanged and nothing saved at all. */
  lemma NothingFound(cfg: Config, rows: seq<VideoRecord>,
                     statsApi: VideoDetails.DetailsApi,
                     detailsApi: VideoDetails.DetailsApi,
                     responses: seq<Search.SearchResponse>,
                     fetch: map<VideoId, seq<string>>, detect: map<string, string>)
    requires cfg.batchSize > 0
    requires Search.SearchFrom(responses, None, Table.RowIds(rows)).videos == []
    ensures var o := IngestSpec(cfg, rows, statsApi, detailsApi, responses, fetch, detect);
      o == PreparePhase(cfg, rows, statsApi, fetch, detect)
    ensures !cfg.updateExisting && !cfg.updateTranscripts ==>
      IngestSpec(cfg, rows, statsApi, detailsApi, responses, fetch, detect) == Outcome(Some(rows), [])
  {
    var prep := PreparePhase(cfg, rows, statsApi, fetch, detect);
    assert prep.saves + [] == prep.saves;
  }

  /** With the shipped configuration the loaded rows are never touched: the
      run returns them followed by the new records, each carrying the
      transcript fetcher's pair, and saves once, the merged table, exactly
      when it found something and its statistics fetch did not raise. */
  lemma DefaultRun(rows: seq<VideoRecord>,
                   statsApi: VideoDetails.DetailsApi,
                   detailsApi: VideoDetails.DetailsApi,
                   responses: seq<Search.SearchResponse>,
                   fetch: map<VideoId, seq<string>>, detect: map<string, string>)
    ensures var o := IngestSpec(DefaultConfig, rows, statsApi, detailsApi, responses, fetch, detect);
      var found := Search.SearchFrom(responses, None, Table.RowIds(rows)).videos;
      && (o.result.None? ==> o.saves == [])
      && (o.result.Some? ==>
            && |rows| <= |o.result.value|
            && o.result.value[..|rows|] == rows
            && (forall i :: |rows| <= i < |o.result.value| ==>
                  var t := Transcripts.TranscriptAndLanguage(o.result.value[i].videoId, fetch, detect);
                  o.result.value[i].transcription == Some(t.text) && o.result.value[i].detectedLanguage == Some(t.language))
            && o.saves == if |found| > 0 then [o.result.value] else [])
  {
    var o := IngestSpec(DefaultConfig, rows, statsApi, detailsApi, responses, fetch, detect);
    var found := Search.SearchFrom(responses, None, Table.RowIds(rows)).videos;
    if o.result.Some? && |found| > 0 {
      var fetched := VideoDetails.FetchSpec(Records.EntryIds(found), DefaultConfig.batchSize, detailsApi);
      var records := Records.AssembleRecords(found, fetched.items, true, fetch, detect);
      Records.AssembleRecordsSpec(found, fetched.items, true, fetch, detect);
      assert o.result.value == rows + records;
      assert o.result.value[..|rows|] == rows;
      forall i | |rows| <= i < |o.result.value|
        ensures o.result.value[i] == records[i - |rows|]
      {
      }
    }
  }

  /** An empty table and a search of two pages, the first continued and
      the second not: with the shipped configuration and a statistics fetch
      that raises nothing, the table becomes one row per entry of both
      pages, in order, each with its watch URL, and is saved once. */
  lemma EmptyTableTwoPages(p1: seq<SearchEntry>, p2: seq<SearchEntry>, token: string,
                           statsApi: VideoDetails.DetailsApi,
                           detailsApi: VideoDetails.DetailsApi,
                           fetch: map<VideoId, seq<string>>, detect: map<string, string>)
    requires token != ""
    requires var bs := VideoDetails.Batches(Records.EntryIds(p1 + p2), VideoDetails.BatchSize);
      forall k :: 0 <= k < |bs| ==> !detailsApi(k, bs[k]).OtherError?
    ensures var o := IngestSpec(DefaultConfig, [], statsApi, detailsApi,
                                [Search.Page(p1, Some(token)), Search.Page(p2, None)], fetch, detect);
      && o.result.Some?
      && |o.result.value| == |p1| + |p2|
      && (forall i :: 0 <= i < |p1| + |p2| ==>
            o.result.value[i].videoId == (p1 + p2)[i].videoId
            && o.result.value[i].videoUrl == "https://www.youtube.com/watch?v=" + (p1 + p2)[i].videoId)
      && o.saves == (if |p1| + |p2| > 0 then [o.result.value] else [])
  {
    var responses := [Search.Page(p1, Some(token)), Search.Page(p2, None)];
    var rows: seq<VideoRecord> := [];
    assert Table.RowIds(rows) == {};
    Search.TwoPages(p1, p2, token, {});
    VideoDetails.NoExceptionNoRaise(Records.EntryIds(p1 + p2), VideoDetails.BatchSize, detailsApi);
    DefaultRun(rows, statsApi, detailsApi, responses, fetch, detect);
    IngestAppendsFound(DefaultConfig, rows, statsApi, detailsApi, responses, fetch, detect);
    var o := IngestSpec(DefaultConfig, rows, statsApi, detailsApi, responses, fetch, detect);
    assert o.result.value[|rows|..] == o.result.value;
  }

  /** A run that only backfills a non-empty table saves floor(m / 10) interim
      snapshots for its m selected rows and then the backfilled table, before
      any save of the merge. */
  lemma BackfillRunSaves(cfg: Config, rows: seq<VideoRecord>,
                         statsApi: VideoDetails.DetailsApi,
                         fetch: map<VideoId, seq<string>>, detect: map<string, string>)
    requires cfg.batchSize > 0
    requires !cfg.updateExisting && cfg.updateTranscripts && |rows| > 0
    ensures var prep := PreparePhase(cfg, rows, statsApi, fetch, detect);
      && prep.result == Some(Table.Backfilled(rows, fetch, detect))
      && |prep.saves| == |Table.MissingIndices(rows)| / 10 + 1
      && prep.saves[|prep.saves| - 1] == Table.Backfilled(rows, fetch, detect)
  {
    var sel := Table.MissingIndices(rows);
    Table.CheckpointsAt(rows, sel, |sel|, fetch, detect);
  }

  /** The refresh and backfill phases of `main`. */
  method Prepare(t: Table.VideoTable, cfg: Config,
                 statsApi: VideoDetails.DetailsApi,
                 fetch: map<VideoId, seq<string>>, detect: map<string, string>)
    returns (ok: bool)
    requires cfg.batchSize > 0
    modifies t
    ensures var prep := PreparePhase(cfg, old(t.rows), statsApi, fetch, detect);
      && ok == prep.result.Some?
      && (ok ==> t.rows == prep.result.value)
      && t.saved == old(t.saved) + prep.saves
    ensures !ok ==> t.rows == old(t.rows)
  {
    ghost var saved0, rows0 := t.saved, t.rows;
    ok := RefreshAndSave(t, cfg, statsApi);
    if !ok {
      return;
    }
    ghost var saves1 := RefreshSaves(cfg, rows0, statsApi);
    ghost var backfill := BackfillPhase(cfg, t.rows, fetch, detect);
    BackfillAndSave(t, cfg, fetch, detect);
    assert saved0 + saves1 + backfill.saves == saved0 + (saves1 + backfill.saves);
  }

  /** The statistics phase of `main` and its save. */
  method RefreshAndSave(t: Table.VideoTable, cfg: Config, statsApi: VideoDetails.DetailsApi)
    returns (ok: bool)
    requires cfg.batchSize > 0
    modifies t
    ensures var refreshed := RefreshPhase(cfg, old(t.rows), statsApi);
      && ok == refreshed.Some?
      && (ok ==> t.rows == refreshed.value)
      && (!ok ==> t.rows == old(t.rows))
      && t.saved == old(t.saved) + RefreshSaves(cfg, old(t.rows), statsApi)
  {
    if cfg.updateExisting && |t.rows| > 0 {
      var _, raised := t.RefreshStats(statsApi, cfg.batchSize);
      if raised {
        assert t.saved == old(t.saved) + [];
        return false;
      }
      t.Save();
    } else {
      assert t.saved == old(t.saved) + [];
    }
    return true;
  }

  /** The transcript backfill phase of `main` and its save. */
  method BackfillAndSave(t: Table.VideoTable, cfg: Config,
                         fetch: map<VideoId, seq<string>>, detect: map<string, string>)
    modifies t
    ensures var backfill := BackfillPhase(cfg, old(t.rows), fetch, detect);
      t.rows == backfill.result.value && t.saved == old(t.saved) + backfill.saves
  {
    if cfg.updateTranscripts && |t.rows| > 0 {
      ghost var saved0 := t.saved;
      var _ := t.BackfillTranscripts(fetch, detect);
      ghost var saved1 := t.saved;
      t.Save();
      assert saved1 + [t.rows] == saved0 + (saved1[|saved0|..] + [t.rows]);
    } else {
      assert t.saved == old(t.saved) + [];
    }
  }

  /** The search, record assembly and merge phases of `main`. */
  method SearchAndMerge(t: Table.VideoTable, cfg: Config, known: set<VideoId>,
                        detailsApi: VideoDetails.DetailsApi,
                        responses: seq<Search.SearchResponse>,
                        fetch: map<VideoId, seq<string>>, detect: map<string, string>)
    returns (result: Option<seq<VideoRecord>>)
    requires cfg.batchSize > 0
    modifies t
    ensures var merged := MergePhase(cfg, old(t.rows), known, detailsApi, responses, fetch, detect);
      && result == merged.result
      && t.saved == old(t.saved) + merged.saves
      && (result.Some? ==> t.rows == result.value)
    ensures result.None? ==> t.rows == old(t.rows)
  {
    var found, _, _ := Search.SearchVideos(responses, known);
    if |found| == 0 {
      assert t.saved == old(t.saved) + [];
      return Some(t.rows);
    }
    var fetched := VideoDetails.FetchDetails(Records.EntryIds(found), cfg.batchSize, detailsApi);
    if fetched.raised {
      assert t.saved == old(t.saved) + [];
      return None;
    }
    var records := Records.AssembleRecords(found, fetched.items, cfg.fetchTranscripts, fetch, detect);
    if |records| > 0 {
      t.rows := t.rows + records;
      t.Save();
    }
    return Some(t.rows);
  }

  /** `main`, on the table loaded into `t`; the returned table is also left in `t`. */
  method Ingest(t: Table.VideoTable, cfg: Config,
                statsApi: VideoDetails.DetailsApi,
                detailsApi: VideoDetails.DetailsApi,
                responses: seq<Search.SearchResponse>,
                fetch: map<VideoId, seq<string>>, detect: map<string, string>)
    returns (result: Option<seq<VideoRecord>>)
    requires cfg.batchSize > 0
    modifies t
    ensures var o := IngestSpec(cfg, old(t.rows), statsApi, detailsApi, responses, fetch, detect);
      result == o.result && t.saved == old(t.saved) + o.saves
    ensures result.Some? ==> t.rows == result.value
    ensures result.None? ==>
      var prep := PreparePhase(cfg, old(t.rows), statsApi, fetch, detect);
      t.rows == if prep.result.Some? then prep.result.value else old(t.rows)
  {
    ghost var prep := PreparePhase(cfg, t.rows, statsApi, fetch, detect);
    ghost var saved0 := t.saved;
    var existingIds := Table.RowIds(t.rows);
    var ok := Prepare(t, cfg, statsApi, fetch, detect);
    if !ok {
      return None;
    }
    ghost var merged := MergePhase(cfg, t.rows, existingIds, detailsApi, responses, fetch, detect);
    result := SearchAndMerge(t, cfg, existingIds, detailsApi, responses, fetch, detect);
    assert saved0 + prep.saves + merged.saves == saved0 + (prep.saves + merged.saves);
  }
}
