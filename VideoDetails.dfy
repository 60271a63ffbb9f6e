/**
 * The statistics fetcher (`fetch_video_details`): the id list is cut into
 * consecutive batches, one request is made per batch, and the items of the
 * answered batches are concatenated. A 403 (quota exceeded) stops the whole
 * fetch, any other HTTP error skips its batch, and any other exception
 * escapes to the caller. The platform is an oracle from a batch to its
 * response. Also the id-keyed lookup built from the fetched items.
 */
module VideoDetails {
  import opened VideoTypes

  /** The configured batch size, the platform's limit of ids per request. */
  const BatchSize: nat := 50

  /** What one statistics request can come back with: the response's
      `items` (an absent list is the empty list), an `HttpError` with its
      status, or an exception of any other kind. */
  datatype DetailsResponse = Items(items: seq<DetailItem>) | HttpError(status: int) | OtherError

  function Min(a: int, b: int): int { if a <= b then a else b }

  /** The consecutive slices of `size` ids, the last one possibly shorter. */
  function Batches(ids: seq<VideoId>, size: nat): seq<seq<VideoId>>
    requires size > 0
    decreases |ids|
  {
    if |ids| == 0 then []
    else if |ids| <= size then [ids]
    else [ids[..size]] + Batches(ids[size..], size)
  }

  function Flatten(bs: seq<seq<VideoId>>): seq<VideoId>
  {
    if |bs| == 0 then [] else bs[0] + Flatten(bs[1..])
  }

  /** The batches cover the ids in order, none is empty or larger than the
      batch size, and their number is the least n with n * size >= |ids|,
      that is, ceil(|ids| / size). */
  lemma BatchesPartition(ids: seq<VideoId>, size: nat)
    requires size > 0
    ensures Flatten(Batches(ids, size)) == ids
    ensures forall k :: 0 <= k < |Batches(ids, size)| ==> 0 < |Batches(ids, size)[k]| <= size
    ensures |ids| <= |Batches(ids, size)| * size
    ensures |ids| > 0 ==> (|Batches(ids, size)| - 1) * size < |ids|
  {
    BatchesCover(ids, size);
    BatchesSized(ids, size);
    BatchesCount(ids, size);
  }

  lemma {:induction false} BatchesCover(ids: seq<VideoId>, size: nat)
    requires size > 0
    ensures Flatten(Batches(ids, size)) == ids
    decreases |ids|
  {
    if |ids| == 0 {
    } else if |ids| <= size {
      assert Flatten(Batches(ids, size)) == ids + Flatten([]);
    } else {
      BatchesCover(ids[size..], size);
      assert ids[..size] + ids[size..] == ids;
    }
  }

  lemma {:induction false} BatchesSized(ids: seq<VideoId>, size: nat)
    requires size > 0
    ensures forall k :: 0 <= k < |Batches(ids, size)| ==> 0 < |Batches(ids, size)[k]| <= size
    decreases |ids|
  {
    if |ids| > size {
      BatchesSized(ids[size..], size);
      var bs := Batches(ids, size);
      assert forall k :: 1 <= k < |bs| ==> bs[k] == Batches(ids[size..], size)[k - 1];
    }
  }

  lemma {:induction false} BatchesCount(ids: seq<VideoId>, size: nat)
    requires size > 0
    ensures |ids| <= |Batches(ids, size)| * size
    ensures |ids| > 0 ==> (|Batches(ids, size)| - 1) * size < |ids|
    decreases |ids|
  {
    if |ids| > size {
      var n := |Batches(ids[size..], size)|;
      BatchesCount(ids[size..], size);
      assert |Batches(ids, size)| == n + 1;
      assert (n + 1) * size == n * size + size;
      assert n * size == (n - 1) * size + size;
    }
  }

  /** Batch k is exactly the slice starting at offset k * size. */
  lemma {:induction false} BatchAt(ids: seq<VideoId>, size: nat, k: nat)
    requires size > 0
    requires k < |Batches(ids, size)|
    ensures k * size < |ids|
    ensures Batches(ids, size)[k] == ids[k * size .. Min(k * size + size, |ids|)]
  {
    if k > 0 {
      BatchAt(ids[size..], size, k - 1);
      assert (k - 1) * size + size == k * size;
    }
  }

  /** A response after which no further batch is requested. */
  predicate Stops(r: DetailsResponse)
  {
    r.OtherError? || (r.HttpError? && r.status == QuotaStatus)
  }

  function ItemsOf(r: DetailsResponse): seq<DetailItem>
  {
    if r.Items? then r.items else []
  }

  /** The platform during one fetch: the answer to request number k, made
      with the given batch. */
  type DetailsApi = (nat, seq<VideoId>) -> DetailsResponse

  /** The items of the given requests' responses, concatenated in request
      order; a failed request contributes nothing. */
  function Gathered(requested: seq<seq<VideoId>>, api: DetailsApi): seq<DetailItem>
  {
    if |requested| == 0 then []
    else Gathered(requested[..|requested| - 1], api) + ItemsOf(api(|requested| - 1, requested[|requested| - 1]))
  }

  /** How many of the batches are requested when batch j is the next one:
      up to and including the first that stops the fetch, or all of them. */
  function RequestedFrom(bs: seq<seq<VideoId>>, j: nat, api: DetailsApi): (n: nat)
    requires j <= |bs|
    ensures j <= n <= |bs|
    ensures j < |bs| ==> j < n
    decreases |bs| - j
  {
    if j == |bs| then j
    else if Stops(api(j, bs[j])) then j + 1
    else RequestedFrom(bs, j + 1, api)
  }

  function RequestedCount(bs: seq<seq<VideoId>>, api: DetailsApi): (n: nat)
    ensures n <= |bs|
    ensures |bs| > 0 ==> n > 0
  {
    RequestedFrom(bs, 0, api)
  }

  /** The outcome of one fetch: the items gathered, the batches that were
      requested, in order, and whether an exception escaped. */
  datatype FetchResult = FetchResult(items: seq<DetailItem>, requested: seq<seq<VideoId>>, raised: bool)

  function FetchSpec(ids: seq<VideoId>, size: nat, api: DetailsApi): FetchResult
    requires size > 0
  {
    var bs := Batches(ids, size);
    var requested := bs[..RequestedCount(bs, api)];
    FetchResult(
      Gathered(requested, api),
      requested,
      |requested| > 0 && api(|requested| - 1, requested[|requested| - 1]).OtherError?)
  }

  /** Batches that do not stop the fetch are all requested before the rest. */
  lemma {:induction false} RequestedSkip(bs: seq<seq<VideoId>>, j: nat, m: nat, api: DetailsApi)
    requires j <= m <= |bs|
    requires forall k :: j <= k < m ==> !Stops(api(k, bs[k]))
    ensures RequestedFrom(bs, j, api) == RequestedFrom(bs, m, api)
    decreases m - j
  {
    if j < m {
      RequestedSkip(bs, j + 1, m, api);
    }
  }

  /** No response to the given batches stops the fetch. */
  predicate NoneStops(bs: seq<seq<VideoId>>, api: DetailsApi)
  {
    |bs| == 0 || (NoneStops(bs[..|bs| - 1], api) && !Stops(api(|bs| - 1, bs[|bs| - 1])))
  }

  lemma {:induction false} NoneStopsAll(bs: seq<seq<VideoId>>, api: DetailsApi)
    requires NoneStops(bs, api)
    ensures forall k :: 0 <= k < |bs| ==> !Stops(api(k, bs[k]))
  {
    if |bs| > 0 {
      NoneStopsAll(bs[..|bs| - 1], api);
      assert forall k :: 0 <= k < |bs| - 1 ==> bs[..|bs| - 1][k] == bs[k];
    }
  }

  /** The fetch ends at the first batch that stops it. */
  lemma FetchSpecStopsAt(ids: seq<VideoId>, size: nat, api: DetailsApi, k: nat)
    requires size > 0
    requires k < |Batches(ids, size)|
    requires forall j :: 0 <= j < k ==> !Stops(api(j, Batches(ids, size)[j]))
    requires Stops(api(k, Batches(ids, size)[k]))
    ensures FetchSpec(ids, size, api)
      == FetchResult(Gathered(Batches(ids, size)[..k + 1], api), Batches(ids, size)[..k + 1],
                     api(k, Batches(ids, size)[k]).OtherError?)
  {
    var bs := Batches(ids, size);
    RequestedSkip(bs, 0, k, api);
    assert RequestedCount(bs, api) == k + 1;
    assert bs[..k + 1][k] == bs[k];
  }

  /** Without a stopping batch, every batch is requested. */
  lemma FetchSpecRunsThrough(ids: seq<VideoId>, size: nat, api: DetailsApi)
    requires size > 0
    requires forall k :: 0 <= k < |Batches(ids, size)| ==> !Stops(api(k, Batches(ids, size)[k]))
    ensures FetchSpec(ids, size, api) == FetchResult(Gathered(Batches(ids, size), api), Batches(ids, size), false)
  {
    var bs := Batches(ids, size);
    RequestedSkip(bs, 0, |bs|, api);
    assert bs[..|bs|] == bs;
  }

  /** The offset of batch k, step by step. */
  function Offset(k: nat, size: nat): nat
  {
    if k == 0 then 0 else Offset(k - 1, size) + size
  }

  lemma {:induction false} OffsetIsProduct(k: nat, size: nat)
    ensures Offset(k, size) == k * size
  {
    if k > 0 {
      OffsetIsProduct(k - 1, size);
      assert (k - 1) * size + size == k * size;
    }
  }

  /** The offset of batch k is within the ids exactly while batches remain,
      and batch k is the slice at that offset. */
  lemma BatchAtOffset(ids: seq<VideoId>, size: nat, k: nat)
    requires size > 0 && k <= |Batches(ids, size)|
    ensures Offset(k, size) < |ids| <==> k < |Batches(ids, size)|
    ensures k < |Batches(ids, size)| ==>
      Batches(ids, size)[k] == ids[Offset(k, size)..Min(Offset(k, size) + size, |ids|)]
  {
    var n := |Batches(ids, size)|;
    BatchesPartition(ids, size);
    OffsetIsProduct(k, size);
    if k < n {
      assert k * size <= (n - 1) * size;
      BatchAt(ids, size, k);
    }
  }

  /** One turn of the loop when request k does not stop the fetch: the batch
      joins the requested ones and its items, if any, the results. */
  lemma ContinueStep(ids: seq<VideoId>, size: nat, api: DetailsApi, k: nat,
                     requested: seq<seq<VideoId>>, results: seq<DetailItem>, batch: seq<VideoId>)
    requires size > 0 && k < |Batches(ids, size)|
    requires requested == Batches(ids, size)[..k] && batch == Batches(ids, size)[k]
    requires NoneStops(requested, api) && results == Gathered(requested, api)
    requires !Stops(api(k, batch))
    ensures requested + [batch] == Batches(ids, size)[..k + 1]
    ensures NoneStops(requested + [batch], api)
    ensures Gathered(requested + [batch], api) == results + ItemsOf(api(k, batch))
  {
    var next := requested + [batch];
    assert next[..|next| - 1] == requested;
  }

  /** One turn of the loop when request k stops the fetch: the outcome is
      complete. */
  lemma StopStep(ids: seq<VideoId>, size: nat, api: DetailsApi, k: nat,
                 requested: seq<seq<VideoId>>, results: seq<DetailItem>, batch: seq<VideoId>)
    requires size > 0 && k < |Batches(ids, size)|
    requires requested == Batches(ids, size)[..k] && batch == Batches(ids, size)[k]
    requires NoneStops(requested, api) && results == Gathered(requested, api)
    requires Stops(api(k, batch))
    ensures FetchSpec(ids, size, api) == FetchResult(results, requested + [batch], api(k, batch).OtherError?)
  {
    var bs := Batches(ids, size);
    NoneStopsAll(requested, api);
    FetchSpecStopsAt(ids, size, api, k);
    var next := requested + [batch];
    assert next == bs[..k + 1];
    assert next[..k] == requested;
    assert Gathered(next, api) == results;
  }

  /** The loop of `fetch_video_details`, one batch per iteration: request k
      is made with the slice at offset k * size. */
  method FetchDetails(ids: seq<VideoId>, size: nat, api: DetailsApi) returns (r: FetchResult)
    requires size > 0
    ensures r == FetchSpec(ids, size, api)
  {
    if |ids| == 0 {
      return FetchResult([], [], false);
    }
    ghost var bs := Batches(ids, size);
    var results: seq<DetailItem> := [];
    var requested: seq<seq<VideoId>> := [];
    var i := 0;
    var k: nat := 0;
    while i < |ids|
      invariant k <= |bs| && i == Offset(k, size)
      invariant requested == bs[..k]
      invariant NoneStops(requested, api)
      invariant results == Gathered(requested, api)
      decreases |bs| - k
    {
      BatchAtOffset(ids, size, k);
      var batch := ids[i..Min(i + size, |ids|)];
      var response := api(k, batch);
      if Stops(response) {
        StopStep(ids, size, api, k, requested, results, batch);
        return FetchResult(results, requested + [batch], response.OtherError?);
      }
      // a page of items extends the results; an HTTP error other than 403
      // adds nothing and the loop goes on
      ContinueStep(ids, size, api, k, requested, results, batch);
      requested := requested + [batch];
      results := results + ItemsOf(response);
      i := i + size;
      k := k + 1;
    }
    BatchAtOffset(ids, size, k);
    assert requested == bs;
    NoneStopsAll(requested, api);
    FetchSpecRunsThrough(ids, size, api);
    r := FetchResult(results, requested, false);
  }

  /** An empty id list makes no request, and a fetch that meets no stopping
      response requests every batch and gathers all items of the answered
      ones; a non-403 HTTP error only skips its own batch. */
  lemma FetchWithoutStop(ids: seq<VideoId>, size: nat, api: DetailsApi)
    requires size > 0
    requires forall k :: 0 <= k < |Batches(ids, size)| ==> !Stops(api(k, Batches(ids, size)[k]))
    ensures FetchSpec(ids, size, api).requested == Batches(ids, size)
    ensures FetchSpec(ids, size, api).items == Gathered(Batches(ids, size), api)
    ensures !FetchSpec(ids, size, api).raised
    ensures |ids| == 0 ==> FetchSpec(ids, size, api) == FetchResult([], [], false)
  {
    FetchSpecRunsThrough(ids, size, api);
  }

  /** Quota stop: when request k is the first to answer with a 403, exactly
      the batches 0..k are requested, none after k, and the result is the
      items of the batches before k, in order. */
  lemma QuotaStopsFetch(ids: seq<VideoId>, size: nat, api: DetailsApi, k: nat)
    requires size > 0
    requires k < |Batches(ids, size)|
    requires forall j :: 0 <= j < k ==> !Stops(api(j, Batches(ids, size)[j]))
    requires api(k, Batches(ids, size)[k]) == HttpError(QuotaStatus)
    ensures FetchSpec(ids, size, api).requested == Batches(ids, size)[..k + 1]
    ensures FetchSpec(ids, size, api).items == Gathered(Batches(ids, size)[..k], api)
    ensures !FetchSpec(ids, size, api).raised
  {
    var bs := Batches(ids, size);
    FetchSpecStopsAt(ids, size, api, k);
    assert bs[..k + 1][..k] == bs[..k];
    assert Gathered(bs[..k], api) + [] == Gathered(bs[..k], api);
  }

  /** The scenario of three batches whose second answers 403: only the first
      batch's items are kept and the third batch is never requested. */
  lemma QuotaOnSecondOfThree(ids: seq<VideoId>, size: nat, api: DetailsApi)
    requires size > 0
    requires |Batches(ids, size)| == 3
    requires api(0, Batches(ids, size)[0]).Items?
    requires api(1, Batches(ids, size)[1]) == HttpError(QuotaStatus)
    ensures FetchSpec(ids, size, api).items == api(0, Batches(ids, size)[0]).items
    ensures FetchSpec(ids, size, api).requested == [Batches(ids, size)[0], Batches(ids, size)[1]]
    ensures !FetchSpec(ids, size, api).raised
  {
    var bs := Batches(ids, size);
    QuotaStopsFetch(ids, size, api, 1);
    assert bs[..2] == [bs[0], bs[1]];
    assert bs[..1] == [bs[0]] && bs[..1][..0] == [];
  }

  /** The platform answers requests, not batches: two equal batches can get
      different answers, the first its items and the repeat a 403, which
      keeps the first answer's items and stops there. */
  lemma QuotaOnRepeatedBatch(ids: seq<VideoId>, size: nat, api: DetailsApi)
    requires size > 0
    requires |Batches(ids, size)| == 3 && Batches(ids, size)[0] == Batches(ids, size)[1]
    requires api(0, Batches(ids, size)[0]).Items?
    requires api(1, Batches(ids, size)[1]) == HttpError(QuotaStatus)
    ensures FetchSpec(ids, size, api).items == api(0, Batches(ids, size)[0]).items
    ensures |FetchSpec(ids, size, api).requested| == 2
  {
    QuotaOnSecondOfThree(ids, size, api);
  }

  /** Only an exception other than an HTTP error escapes: when no request
      answers with one, the fetch does not raise. */
  lemma NoExceptionNoRaise(ids: seq<VideoId>, size: nat, api: DetailsApi)
    requires size > 0
    requires forall k :: 0 <= k < |Batches(ids, size)| ==> !api(k, Batches(ids, size)[k]).OtherError?
    ensures !FetchSpec(ids, size, api).raised
  {
    var bs := Batches(ids, size);
    var n := RequestedCount(bs, api);
    if n > 0 {
      assert bs[..n][n - 1] == bs[n - 1];
    }
  }

  /** The position of the last item with the given id, or -1 when no item
      has it. */
  function LastIndex(ds: seq<DetailItem>, id: VideoId): (i: int)
    ensures -1 <= i < |ds|
    ensures i >= 0 ==> ds[i].id == id
    ensures forall j :: i < j < |ds| ==> ds[j].id != id
  {
    if |ds| == 0 then -1
    else if ds[|ds| - 1].id == id then |ds| - 1
    else LastIndex(ds[..|ds| - 1], id)
  }

  /** The id-keyed lookup of the fetched items: the keys are exactly the fetched ids,
      and a key maps to the LAST item with that id (a later duplicate
      overwrites an earlier one). */
  function DetailsMap(ds: seq<DetailItem>): (m: map<VideoId, DetailItem>)
    ensures forall id :: id in m <==> LastIndex(ds, id) >= 0
    ensures forall id :: id in m ==> m[id] == ds[LastIndex(ds, id)]
  {
    if |ds| == 0 then map[]
    else DetailsMap(ds[..|ds| - 1])[ds[|ds| - 1].id := ds[|ds| - 1]]
  }
}
