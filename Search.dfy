/**
 * The search paginator (`search_youtube_videos`). The platform's answers
 * are a finite sequence of responses, consumed one per request. A page keeps
 * the entries whose id is not already known and moves the cursor to its
 * continuation token; a page without one ends the search, a 403 ends it with
 * what was gathered, and any other error (HTTP or not) is answered by
 * repeating the request with the same token, so it does not move the cursor.
 */
module Search {
  import opened VideoTypes

  /** A page's `items` (absent items read as empty) and its `nextPageToken`;
      an `HttpError` with its status; or an exception of any other kind. */
  datatype SearchResponse =
    | Page(items: seq<SearchEntry>, nextPageToken: Option<string>)
    | HttpError(status: int)
    | OtherError

  datatype StopReason = NoMorePages | QuotaExceeded | ResponsesExhausted

  /** The videos gathered, the page token sent with each request in order
      (`None` for the first page), and why the search ended. */
  datatype SearchRun = SearchRun(videos: seq<SearchEntry>, sent: seq<Option<string>>, stop: StopReason)

  /** Whether a page's token continues the search: a missing token and an
      empty one both end it. */
  predicate Continues(token: Option<string>)
  {
    token.Some? && token.value != ""
  }

  /** The known-id filter of one page: the entries whose id is not known,
      in page order. */
  function NewEntries(items: seq<SearchEntry>, known: set<VideoId>): (r: seq<SearchEntry>)
    ensures |r| <= |items|
    ensures forall e :: e in r <==> e in items && e.videoId !in known
  {
    if |items| == 0 then []
    else (if items[0].videoId in known then [] else [items[0]]) + NewEntries(items[1..], known)
  }

  lemma {:induction false} NewEntriesAppend(a: seq<SearchEntry>, b: seq<SearchEntry>, known: set<VideoId>)
    ensures NewEntries(a + b, known) == NewEntries(a, known) + NewEntries(b, known)
  {
    if |a| == 0 {
      assert a + b == b;
    } else {
      assert (a + b)[0] == a[0];
      assert (a + b)[1..] == a[1..] + b;
      NewEntriesAppend(a[1..], b, known);
    }
  }

  /** The filter drops only known ids: when no entry is known, every entry is
      kept, duplicates and order included. */
  lemma {:induction false} NewEntriesKeepsUnknown(items: seq<SearchEntry>, known: set<VideoId>)
    requires forall i :: 0 <= i < |items| ==> items[i].videoId !in known
    ensures NewEntries(items, known) == items
  {
    if |items| > 0 {
      NewEntriesKeepsUnknown(items[1..], known);
    }
  }

  /** The search from response `rs[0]` on, with `token` as the cursor. */
  function SearchFrom(rs: seq<SearchResponse>, token: Option<string>, known: set<VideoId>): SearchRun
    decreases |rs|
  {
    if |rs| == 0 then SearchRun([], [], ResponsesExhausted)
    else match rs[0]
      case Page(items, next) =>
        var kept := NewEntries(items, known);
        if !Continues(next) then SearchRun(kept, [token], NoMorePages)
        else
          var rest := SearchFrom(rs[1..], next, known);
          SearchRun(kept + rest.videos, [token] + rest.sent, rest.stop)
      case HttpError(status) =>
        if status == QuotaStatus then SearchRun([], [token], QuotaExceeded)
        else
          var rest := SearchFrom(rs[1..], token, known);
          SearchRun(rest.videos, [token] + rest.sent, rest.stop)
      case OtherError =>
        var rest := SearchFrom(rs[1..], token, known);
        SearchRun(rest.videos, [token] + rest.sent, rest.stop)
  }

  /** The whole search `total` is what was gathered and sent so far,
      followed by the search that `rest` still makes. */
  ghost predicate Resumes(total: SearchRun, videos: seq<SearchEntry>, sent: seq<Option<string>>, rest: SearchRun)
  {
    total.videos == videos + rest.videos && total.sent == sent + rest.sent && total.stop == rest.stop
  }

  /** One turn of the loop, by the kind of response. */
  lemma ResumeStep(total: SearchRun, videos: seq<SearchEntry>, sent: seq<Option<string>>,
                   rs: seq<SearchResponse>, token: Option<string>, known: set<VideoId>)
    requires |rs| > 0 && Resumes(total, videos, sent, SearchFrom(rs, token, known))
    ensures rs[0].Page? && !Continues(rs[0].nextPageToken) ==>
      total == SearchRun(videos + NewEntries(rs[0].items, known), sent + [token], NoMorePages)
    ensures rs[0].Page? && Continues(rs[0].nextPageToken) ==>
      Resumes(total, videos + NewEntries(rs[0].items, known), sent + [token], SearchFrom(rs[1..], rs[0].nextPageToken, known))
    ensures rs[0] == HttpError(QuotaStatus) ==> total == SearchRun(videos, sent + [token], QuotaExceeded)
    ensures Retried(rs[0]) ==> Resumes(total, videos, sent + [token], SearchFrom(rs[1..], token, known))
  {
    var run := SearchFrom(rs, token, known);
    var rest := SearchFrom(rs[1..], NextCursor(rs[0], token), known);
    if rs[0].Page? {
      var kept := NewEntries(rs[0].items, known);
      if Continues(rs[0].nextPageToken) {
        assert run == SearchRun(kept + rest.videos, [token] + rest.sent, rest.stop);
        assert total.videos == (videos + kept) + rest.videos;
        assert total.sent == (sent + [token]) + rest.sent;
      } else {
        assert run == SearchRun(kept, [token], NoMorePages);
      }
    } else if rs[0] == HttpError(QuotaStatus) {
      assert run == SearchRun([], [token], QuotaExceeded);
      assert total.videos == videos + [];
    } else {
      assert run == SearchRun(rest.videos, [token] + rest.sent, rest.stop);
      assert total.sent == (sent + [token]) + rest.sent;
    }
  }

  /** The paging loop, which the script runs until a response ends it; the
      finite response sequence bounds it. */
  method SearchVideos(responses: seq<SearchResponse>, known: set<VideoId>)
    returns (allVideos: seq<SearchEntry>, sent: seq<Option<string>>, stop: StopReason)
    ensures SearchRun(allVideos, sent, stop) == SearchFrom(responses, None, known)
  {
    ghost var total := SearchFrom(responses, None, known);
    allVideos, sent := [], [];
    var nextPageToken: Option<string> := None;
    var j := 0;
    assert responses[0..] == responses;
    assert Resumes(total, allVideos, sent, total);
    while j < |responses|
      invariant 0 <= j <= |responses|
      invariant Resumes(total, allVideos, sent, SearchFrom(responses[j..], nextPageToken, known))
    {
      ResumeStep(total, allVideos, sent, responses[j..], nextPageToken, known);
      assert responses[j..][0] == responses[j] && responses[j..][1..] == responses[j + 1..];
      var response := responses[j];
      sent := sent + [nextPageToken];
      j := j + 1;
      match response {
        case Page(items, next) =>
          allVideos := allVideos + NewEntries(items, known);
          nextPageToken := next;
          if !Continues(nextPageToken) {
            stop := NoMorePages;
            return;
          }
        case HttpError(status) =>
          if status == QuotaStatus {
            stop := QuotaExceeded;
            return;
          }
        case OtherError =>
      }
    }
    assert responses[j..] == [];
    assert allVideos + [] == allVideos && sent + [] == sent;
    stop := ResponsesExhausted;
  }

  /** The entries of the page responses among `rs`, in response order. */
  function PageItems(rs: seq<SearchResponse>): seq<SearchEntry>
  {
    if |rs| == 0 then []
    else ItemsOf(rs[0]) + PageItems(rs[1..])
  }

  /** The kept entries of each response among `rs`, in response order. */
  function KeptPages(rs: seq<SearchResponse>, known: set<VideoId>): seq<SearchEntry>
  {
    if |rs| == 0 then []
    else NewEntries(ItemsOf(rs[0]), known) + KeptPages(rs[1..], known)
  }

  lemma {:induction false} KeptPagesFiltered(rs: seq<SearchResponse>, known: set<VideoId>)
    ensures KeptPages(rs, known) == NewEntries(PageItems(rs), known)
  {
    if |rs| > 0 {
      KeptPagesFiltered(rs[1..], known);
      NewEntriesAppend(ItemsOf(rs[0]), PageItems(rs[1..]), known);
    }
  }

  lemma KeptPagesCons(rs: seq<SearchResponse>, n: nat, known: set<VideoId>)
    requires 1 <= n <= |rs|
    ensures KeptPages(rs[..n], known) == NewEntries(ItemsOf(rs[0]), known) + KeptPages(rs[1..][..n - 1], known)
  {
    assert rs[..n][0] == rs[0];
    assert rs[..n][1..] == rs[1..][..n - 1];
  }

  lemma {:induction false} SearchKeepsPages(rs: seq<SearchResponse>, token: Option<string>, known: set<VideoId>)
    ensures |SearchFrom(rs, token, known).sent| <= |rs|
    ensures SearchFrom(rs, token, known).videos == KeptPages(rs[..|SearchFrom(rs, token, known).sent|], known)
  {
    if |rs| > 0 {
      var run := SearchFrom(rs, token, known);
      var n := |run.sent|;
      var kept := NewEntries(ItemsOf(rs[0]), known);
      SearchStep(rs, token, known);
      if Final(rs[0]) {
        KeptPagesCons(rs, n, known);
        assert rs[1..][..n - 1] == [];
        assert run.videos == kept + [];
      } else {
        var rest := SearchFrom(rs[1..], NextCursor(rs[0], token), known);
        SearchKeepsPages(rs[1..], NextCursor(rs[0], token), known);
        assert n - 1 == |rest.sent|;
        KeptPagesCons(rs, n, known);
        assert run.videos == kept + rest.videos;
      }
    }
  }

  /** The result is the concatenation, in page order and within-page order,
      of every page the search consumed, filtered against the known ids and
      against nothing else; the search consumes one response per request. */
  lemma SearchIsFilteredPages(rs: seq<SearchResponse>, token: Option<string>, known: set<VideoId>)
    ensures |SearchFrom(rs, token, known).sent| <= |rs|
    ensures SearchFrom(rs, token, known).videos
      == NewEntries(PageItems(rs[..|SearchFrom(rs, token, known).sent|]), known)
  {
    SearchKeepsPages(rs, token, known);
    KeptPagesFiltered(rs[..|SearchFrom(rs, token, known).sent|], known);
  }

  /** Every gathered entry has an id outside the known set. */
  lemma SearchOnlyNew(rs: seq<SearchResponse>, token: Option<string>, known: set<VideoId>)
    ensures forall e :: e in SearchFrom(rs, token, known).videos ==> e.videoId !in known
  {
    SearchIsFilteredPages(rs, token, known);
  }

  /** A response that ends the search: a page without continuation, or a 403. */
  predicate Final(r: SearchResponse)
  {
    (r.Page? && !Continues(r.nextPageToken)) || (r.HttpError? && r.status == QuotaStatus)
  }

  /** The cursor after response r: a page moves it to its token, an error
      leaves it where it was so that the same request is repeated. */
  function NextCursor(r: SearchResponse, token: Option<string>): Option<string>
  {
    if r.Page? then r.nextPageToken else token
  }

  /** The entries a response contributes before filtering. */
  function ItemsOf(r: SearchResponse): seq<SearchEntry>
  {
    if r.Page? then r.items else []
  }

  /** One response of the search: a final one ends it with its own kept
      entries; any other one contributes its kept entries (none for an
      error) and hands its cursor on to the rest. */
  lemma SearchStep(rs: seq<SearchResponse>, token: Option<string>, known: set<VideoId>)
    requires |rs| > 0
    ensures var run := SearchFrom(rs, token, known);
      var rest := SearchFrom(rs[1..], NextCursor(rs[0], token), known);
      && (Final(rs[0]) ==> run.sent == [token] && run.videos == NewEntries(ItemsOf(rs[0]), known))
      && (!Final(rs[0]) ==>
            && run.sent == [token] + rest.sent
            && run.videos == NewEntries(ItemsOf(rs[0]), known) + rest.videos
            && run.stop == rest.stop)
  {
    if !rs[0].Page? {
      var rest := SearchFrom(rs[1..], NextCursor(rs[0], token), known);
      assert [] + rest.videos == rest.videos;
    }
  }

  /** The search stops after the first page without continuation or at the
      first 403, and only then (or when the responses run out); the first
      request has no token and each next request carries the cursor left by
      the previous response, the same token again after an error. */
  lemma {:induction false} SearchTermination(rs: seq<SearchResponse>, token: Option<string>, known: set<VideoId>)
    ensures var run := SearchFrom(rs, token, known);
      && |run.sent| <= |rs|
      && (|rs| > 0 ==> |run.sent| > 0 && run.sent[0] == token)
      && (forall k :: 0 <= k < |run.sent| - 1 ==> !Final(rs[k]) && run.sent[k + 1] == NextCursor(rs[k], run.sent[k]))
      && (run.stop == NoMorePages ==> rs[|run.sent| - 1].Page? && !Continues(rs[|run.sent| - 1].nextPageToken))
      && (run.stop == QuotaExceeded ==> rs[|run.sent| - 1] == HttpError(QuotaStatus))
      && (run.stop == ResponsesExhausted ==> |run.sent| == |rs| && (|rs| > 0 ==> !Final(rs[|rs| - 1])))
  {
    if |rs| > 0 {
      var run := SearchFrom(rs, token, known);
      var next := NextCursor(rs[0], token);
      SearchTermination(rs[1..], next, known);
      var rest := SearchFrom(rs[1..], next, known);
      if !Final(rs[0]) {
        assert run.sent == [token] + rest.sent;
        assert run.stop == rest.stop;
        forall k | 0 <= k < |run.sent| - 1
          ensures !Final(rs[k]) && run.sent[k + 1] == NextCursor(rs[k], run.sent[k])
        {
          if k > 0 {
            assert rs[k] == rs[1..][k - 1];
          }
        }
      }
    }
  }

  /** Not a 403 and not a page: a response that is retried. */
  predicate Retried(r: SearchResponse)
  {
    (r.HttpError? && r.status != QuotaStatus) || r.OtherError?
  }

  function DropRetries(rs: seq<SearchResponse>): (r: seq<SearchResponse>)
    ensures forall k :: 0 <= k < |r| ==> !Retried(r[k])
  {
    if |rs| == 0 then []
    else (if Retried(rs[0]) then [] else [rs[0]]) + DropRetries(rs[1..])
  }

  /** Retried errors are invisible in the result: removing every one of them
      from the responses changes neither the videos nor why the search ended. */
  lemma {:induction false} RetriesAreInvisible(rs: seq<SearchResponse>, token: Option<string>, known: set<VideoId>)
    ensures SearchFrom(DropRetries(rs), token, known).videos == SearchFrom(rs, token, known).videos
    ensures SearchFrom(DropRetries(rs), token, known).stop == SearchFrom(rs, token, known).stop
  {
    if |rs| > 0 {
      var d := DropRetries(rs);
      if Retried(rs[0]) {
        assert d == DropRetries(rs[1..]);
        RetriesAreInvisible(rs[1..], token, known);
      } else {
        assert d == [rs[0]] + DropRetries(rs[1..]);
        assert d[0] == rs[0] && d[1..] == DropRetries(rs[1..]);
        RetriesAreInvisible(rs[1..], NextCursor(rs[0], token), known);
      }
    }
  }

  /** Two pages, the first with a continuation token and the second without,
      none of whose entries is known: every entry of both pages is kept. */
  lemma TwoPages(p1: seq<SearchEntry>, p2: seq<SearchEntry>, token: string, known: set<VideoId>)
    requires token != ""
    requires forall i :: 0 <= i < |p1| ==> p1[i].videoId !in known
    requires forall i :: 0 <= i < |p2| ==> p2[i].videoId !in known
    ensures SearchFrom([Page(p1, Some(token)), Page(p2, None)], None, known)
      == SearchRun(p1 + p2, [None, Some(token)], NoMorePages)
  {
    var rs := [Page(p1, Some(token)), Page(p2, None)];
    assert rs[1..] == [Page(p2, None)];
    NewEntriesKeepsUnknown(p1, known);
    NewEntriesKeepsUnknown(p2, known);
  }

  /** The search does not remove duplicates among its own results: a new
      entry served on two pages is gathered twice. */
  lemma DuplicatesAreKept(e: SearchEntry, token: string, known: set<VideoId>)
    requires token != "" && e.videoId !in known
    ensures SearchFrom([Page([e], Some(token)), Page([e], None)], None, known).videos == [e, e]
  {
    TwoPages([e], [e], token, known);
  }
}
