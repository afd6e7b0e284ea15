/** The statistics fetcher: the video ids in consecutive batches of at most
    fifty, one `videos.list` request per batch, one statistics record per
    returned item. */
module Statistics {
  import opened Wrappers
  import opened Paging
  import Duration
  import Seqs
  /** The remote API's limit on ids per `videos.list` request. */
  const BatchSize: nat := 50

  function Min(a: int, b: int): int {
    if a <= b then a else b
  }

  /** The slices `ids[i:i+50]` for `i = 0, 50, 100, ...`, as the `range` loop cuts them. */
  function Batches(ids: seq<string>): (bs: seq<seq<string>>)
    ensures |bs| == (|ids| + BatchSize - 1) / BatchSize
    ensures forall k :: 0 <= k < |bs| ==> bs[k] == ids[BatchSize * k .. Min(BatchSize * k + BatchSize, |ids|)]
    ensures forall k :: 0 <= k < |bs| - 1 ==> |bs[k]| == BatchSize
    ensures forall k :: 0 <= k < |bs| ==> 0 < |bs[k]| <= BatchSize
    decreases |ids|
  {
    if |ids| == 0 then []
    else if |ids| <= BatchSize then [ids]
    else
      var rest := Batches(ids[BatchSize..]);
      assert forall k :: 0 < k < |rest| + 1 ==>
        ids[BatchSize..][BatchSize * (k - 1) .. Min(BatchSize * (k - 1) + BatchSize, |ids| - BatchSize)]
        == ids[BatchSize * k .. Min(BatchSize * k + BatchSize, |ids|)]
      by {
        forall k | 0 < k < |rest| + 1
          ensures ids[BatchSize..][BatchSize * (k - 1) .. Min(BatchSize * (k - 1) + BatchSize, |ids| - BatchSize)]
                  == ids[BatchSize * k .. Min(BatchSize * k + BatchSize, |ids|)]
        {
          SliceOfSuffix(ids, BatchSize, BatchSize * (k - 1), Min(BatchSize * (k - 1) + BatchSize, |ids| - BatchSize));
        }
      }
      [ids[..BatchSize]] + rest
  }

  lemma SliceOfSuffix<T>(xs: seq<T>, d: nat, lo: nat, hi: nat)
    requires d <= |xs| && lo <= hi <= |xs| - d
    ensures xs[d..][lo..hi] == xs[d + lo .. d + hi]
  {
  }

  /** Joined back together, the batches are the id list itself. */
  lemma {:induction false} BatchesConcat(ids: seq<string>)
    ensures Seqs.Concat(Batches(ids)) == ids
    decreases |ids|
  {
    if |ids| > BatchSize {
      var bs := Batches(ids);
      assert bs[1..] == Batches(ids[BatchSize..]);
      BatchesConcat(ids[BatchSize..]);
      assert ids == ids[..BatchSize] + ids[BatchSize..];
    } else if |ids| > 0 {
      assert Seqs.Concat(Batches(ids)) == ids + [];
    }
  }

  /** A counter the API may omit: its text as reported, or the default `0`. */
  datatype Count = Reported(text: string) | DefaultZero

  function CountOf(field: Option<string>): Count {
    match field
    case Some(t) => Reported(t)
    case None => DefaultZero
  }

  /** One returned item: its id, optional counters and the outcome of parsing its
      ISO 8601 duration (`None` when parsing failed). */
  datatype StatItem = StatItem(
    id: string,
    viewCount: Option<string>,
    likeCount: Option<string>,
    commentCount: Option<string>,
    parsedDuration: Option<nat>)

  datatype StatRecord = StatRecord(
    videoId: string,
    viewCount: Count,
    likeCount: Count,
    commentCount: Count,
    duration: string)

  /** Whether `r` is the record the tool builds for `item`. */
  predicate RecordOf(item: StatItem, r: StatRecord) {
    && r.videoId == item.id
    && (item.viewCount.Some? ==> r.viewCount == Reported(item.viewCount.value))
    && (item.viewCount.None? ==> r.viewCount == DefaultZero)
    && (item.likeCount.Some? ==> r.likeCount == Reported(item.likeCount.value))
    && (item.likeCount.None? ==> r.likeCount == DefaultZero)
    && (item.commentCount.Some? ==> r.commentCount == Reported(item.commentCount.value))
    && (item.commentCount.None? ==> r.commentCount == DefaultZero)
    && r.duration == Duration.ParseDuration(item.parsedDuration)
  }

  function ToRecord(item: StatItem): StatRecord {
    StatRecord(item.id, CountOf(item.viewCount), CountOf(item.likeCount), CountOf(item.commentCount),
               Duration.ParseDuration(item.parsedDuration))
  }

  /** One record per item, in response order. */
  function Records(items: seq<StatItem>): (rs: seq<StatRecord>)
    ensures |rs| == |items|
    ensures forall i :: 0 <= i < |items| ==> RecordOf(items[i], rs[i])
  {
    Seqs.Map(ToRecord, items)
  }

  /** The `videos.list` endpoint: the answer to a request for a batch of ids. */
  type VideosList = seq<string> -> Result<seq<StatItem>, ApiError>

  /** Requests the batches in order; the first failed request aborts the fetch. */
  function FetchBatches(bs: seq<seq<string>>, server: VideosList): (r: Result<seq<StatRecord>, FetchError>)
    ensures r.Success? <==> AllAnswered(bs, server)
    ensures r.Failure? ==> exists k :: 0 <= k < |bs| && FirstFailure(bs, server, k) && r.error == Upstream(server(bs[k]).error)
  {
    if |bs| == 0 then Success([])
    else match server(bs[0])
      case Failure(e) =>
        assert FirstFailure(bs, server, 0);
        Failure(Upstream(e))
      case Success(items) =>
        assert forall k :: 0 < k < |bs| ==> bs[1..][k - 1] == bs[k];
        match FetchBatches(bs[1..], server)
        case Failure(e) =>
          assert exists k :: 0 < k < |bs| && FirstFailure(bs, server, k) && e == Upstream(server(bs[k]).error) by {
            var k :| 0 <= k < |bs| - 1 && FirstFailure(bs[1..], server, k) && e == Upstream(server(bs[1..][k]).error);
            assert FirstFailure(bs, server, k + 1);
          }
          Failure(e)
        case Success(rest) => Success(Records(items) + rest)
  }

  /** Every batch's request was answered. */
  predicate AllAnswered(bs: seq<seq<string>>, server: VideosList) {
    forall k :: 0 <= k < |bs| ==> server(bs[k]).Success?
  }

  /** Batch `k` is the first whose request failed. */
  predicate FirstFailure(bs: seq<seq<string>>, server: VideosList, k: nat)
    requires k < |bs|
  {
    server(bs[k]).Failure? && forall j :: 0 <= j < k ==> server(bs[j]).Success?
  }

  /** The statistics of the listed ids: every batch answered, or the first failure. */
  function FetchVideoStatistics(ids: seq<string>, server: VideosList): (r: Result<seq<StatRecord>, FetchError>)
    ensures r.Success? <==> AllAnswered(Batches(ids), server)
    ensures r.Failure? ==> exists k :: 0 <= k < |Batches(ids)| && FirstFailure(Batches(ids), server, k)
                                       && r.error == Upstream(server(Batches(ids)[k]).error)
  {
    FetchBatches(Batches(ids), server)
  }

  /** The items answered for each batch; a failed answer contributes none. */
  function Answers(bs: seq<seq<string>>, server: VideosList): (xs: seq<seq<StatItem>>)
    ensures |xs| == |bs|
  {
    if |bs| == 0 then [] else [if server(bs[0]).Success? then server(bs[0]).value else []] + Answers(bs[1..], server)
  }

  lemma {:induction false} BatchesSucceed(bs: seq<seq<string>>, server: VideosList)
    requires forall k :: 0 <= k < |bs| ==> server(bs[k]).Success?
    ensures FetchBatches(bs, server) == Success(Records(Seqs.Concat(Answers(bs, server))))
  {
    if |bs| > 0 {
      assert forall k :: 0 <= k < |bs| - 1 ==> bs[1..][k] == bs[k + 1];
      BatchesSucceed(bs[1..], server);
      Seqs.MapAppend(ToRecord, server(bs[0]).value, Seqs.Concat(Answers(bs[1..], server)));
    }
  }

  lemma {:induction false} BatchesAbort(bs: seq<seq<string>>, server: VideosList, k: nat)
    requires k < |bs| && server(bs[k]).Failure?
    requires forall j :: 0 <= j < k ==> server(bs[j]).Success?
    ensures FetchBatches(bs, server) == Failure(Upstream(server(bs[k]).error))
  {
    if k > 0 {
      assert forall j :: 0 <= j < k - 1 ==> bs[1..][j] == bs[j + 1];
      assert bs[1..][k - 1] == bs[k];
      BatchesAbort(bs[1..], server, k - 1);
    }
  }

  lemma {:induction false} BatchesOnlyAsk(bs: seq<seq<string>>, s1: VideosList, s2: VideosList)
    requires forall k :: 0 <= k < |bs| ==> s1(bs[k]) == s2(bs[k])
    ensures FetchBatches(bs, s1) == FetchBatches(bs, s2)
  {
    if |bs| > 0 {
      assert forall k :: 0 <= k < |bs| - 1 ==> bs[1..][k] == bs[k + 1];
      BatchesOnlyAsk(bs[1..], s1, s2);
    }
  }

  /** When every batch is answered, the statistics are one record per answered item,
      batch after batch, each in response order. */
  lemma StatisticsSucceed(ids: seq<string>, server: VideosList)
    requires forall k :: 0 <= k < |Batches(ids)| ==> server(Batches(ids)[k]).Success?
    ensures FetchVideoStatistics(ids, server) == Success(Records(Seqs.Concat(Answers(Batches(ids), server))))
  {
    BatchesSucceed(Batches(ids), server);
  }

  /** The first failed batch decides the outcome, and no partial list is returned. */
  lemma StatisticsAbort(ids: seq<string>, server: VideosList, k: nat)
    requires k < |Batches(ids)| && server(Batches(ids)[k]).Failure?
    requires forall j :: 0 <= j < k ==> server(Batches(ids)[j]).Success?
    ensures FetchVideoStatistics(ids, server) == Failure(Upstream(server(Batches(ids)[k]).error))
  {
    BatchesAbort(Batches(ids), server, k);
  }

  /** Exactly the batches are requested: two endpoints that agree on them give the same
      outcome, so with no ids nothing is asked at all. */
  lemma OnlyBatchesRequested(ids: seq<string>, s1: VideosList, s2: VideosList)
    requires forall k :: 0 <= k < |Batches(ids)| ==> s1(Batches(ids)[k]) == s2(Batches(ids)[k])
    ensures FetchVideoStatistics(ids, s1) == FetchVideoStatistics(ids, s2)
    ensures |ids| == 0 ==> FetchVideoStatistics(ids, s1) == Success([])
  {
    BatchesOnlyAsk(Batches(ids), s1, s2);
  }

  /** A hundred and twenty ids go out as three requests of 50, 50 and 20. */
  lemma HundredTwentyIds(ids: seq<string>)
    requires |ids| == 120
    ensures |Batches(ids)| == 3
    ensures |Batches(ids)[0]| == 50 && |Batches(ids)[1]| == 50 && |Batches(ids)[2]| == 20
  {
  }
}
