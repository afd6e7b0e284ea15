/** The entry point's pipeline: resolve the handle, list the videos, fetch their
    statistics, merge, then fetch each video's comments, giving the two tables
    the spreadsheet would hold. */
module Pipeline {
  import opened Wrappers
  import opened Paging
  import Resolver
  import Listing
  import Statistics
  import Comments
  import Merge
  import Seqs

  /** The remote API as data: the answer to the channel search, the listing pages of
      each channel, the answer to each statistics batch, the comment pages of each video. */
  datatype Api = Api(
    search: Resolver.SearchQuery -> Result<Resolver.SearchResponse, ApiError>,
    channelVideos: string -> seq<Response<Listing.SearchVideo>>,
    videoStatistics: Statistics.VideosList,
    commentThreads: string -> seq<Response<Comments.CommentThread>>)

  /** The content of the two sheets, "Video Data" and "Comments Data". */
  datatype Export = Export(videoData: seq<Merge.VideoRow>, commentsData: seq<Comments.CommentRecord>)

  function VideoIds(videos: seq<Listing.VideoRecord>): seq<string> {
    seq(|videos|, i requires 0 <= i < |videos| => videos[i].videoId)
  }

  /** One video's comment fetch, with the default cap. */
  function VideoComments(id: string, threads: string -> seq<Response<Comments.CommentThread>>)
    : Result<seq<Comments.CommentRecord>, FetchError>
  {
    Comments.FetchComments(id, Comments.DefaultMaxComments, threads(id))
  }

  /** Every video's comment fetch succeeds. */
  predicate AllFetched(ids: seq<string>, threads: string -> seq<Response<Comments.CommentThread>>) {
    forall i :: 0 <= i < |ids| ==> VideoComments(ids[i], threads).Success?
  }

  /** Video `k` is the first whose comment fetch fails. */
  predicate FirstFailing(ids: seq<string>, threads: string -> seq<Response<Comments.CommentThread>>, k: nat)
    requires k < |ids|
  {
    VideoComments(ids[k], threads).Failure? && forall i :: 0 <= i < k ==> VideoComments(ids[i], threads).Success?
  }

  /** The records each video's fetch returned, video by video. */
  function PerVideo(ids: seq<string>, threads: string -> seq<Response<Comments.CommentThread>>)
    : seq<seq<Comments.CommentRecord>>
    requires AllFetched(ids, threads)
  {
    seq(|ids|, i requires 0 <= i < |ids| => VideoComments(ids[i], threads).value)
  }

  /** The comments of each video in turn; the first failure aborts. */
  function AllComments(ids: seq<string>, threads: string -> seq<Response<Comments.CommentThread>>)
    : (r: Result<seq<Comments.CommentRecord>, FetchError>)
    ensures r.Success? <==> AllFetched(ids, threads)
    ensures r.Success? ==> r.value == Seqs.Concat(PerVideo(ids, threads))
    ensures r.Failure? ==> exists k :: 0 <= k < |ids| && FirstFailing(ids, threads, k)
                                       && r.error == VideoComments(ids[k], threads).error
    ensures r.Success? ==> forall j :: 0 <= j < |r.value| ==> r.value[j].videoId in ids
  {
    if |ids| == 0 then Success([])
    else
      match VideoComments(ids[0], threads)
      case Failure(e) =>
        assert FirstFailing(ids, threads, 0);
        Failure(e)
      case Success(here) =>
        match AllComments(ids[1..], threads)
        case Failure(e) =>
          LaterFailure(ids, threads, e);
          Failure(e)
        case Success(rest) =>
          PerVideoCons(ids, threads);
          TailIds(ids, rest);
          Success(here + rest)
  }

  /** A first failure among the later videos is the first failure of the whole list
      when the first video's fetch succeeds. */
  lemma LaterFailure(ids: seq<string>, threads: string -> seq<Response<Comments.CommentThread>>, e: FetchError)
    requires |ids| > 0 && VideoComments(ids[0], threads).Success?
    requires exists k :: 0 <= k < |ids[1..]| && FirstFailing(ids[1..], threads, k)
                         && e == VideoComments(ids[1..][k], threads).error
    ensures exists k :: 0 <= k < |ids| && FirstFailing(ids, threads, k) && e == VideoComments(ids[k], threads).error
  {
    var k :| 0 <= k < |ids[1..]| && FirstFailing(ids[1..], threads, k)
             && e == VideoComments(ids[1..][k], threads).error;
    assert forall i :: 0 < i <= k ==> ids[1..][i - 1] == ids[i];
    assert FirstFailing(ids, threads, k + 1);
  }

  lemma PerVideoCons(ids: seq<string>, threads: string -> seq<Response<Comments.CommentThread>>)
    requires |ids| > 0 && AllFetched(ids, threads)
    ensures AllFetched(ids[1..], threads)
    ensures PerVideo(ids, threads) == [VideoComments(ids[0], threads).value] + PerVideo(ids[1..], threads)
  {
    assert forall i :: 0 <= i < |ids| - 1 ==> ids[1..][i] == ids[i + 1];
  }

  lemma TailIds(ids: seq<string>, rest: seq<Comments.CommentRecord>)
    requires |ids| > 0
    requires forall j :: 0 <= j < |rest| ==> rest[j].videoId in ids[1..]
    ensures forall j :: 0 <= j < |rest| ==> rest[j].videoId in ids
  {
    forall j | 0 <= j < |rest|
      ensures rest[j].videoId in ids
    {
      assert rest[j].videoId in ids[1..];
    }
  }

  function RowIds(rows: seq<Merge.VideoRow>): seq<string> {
    seq(|rows|, i requires 0 <= i < |rows| => rows[i].video.videoId)
  }

  /** Everything after resolution, for the resolved channel. */
  function Collect(channelId: string, api: Api): (r: Result<Export, FetchError>)
    ensures r.Success? ==> forall j :: 0 <= j < |r.value.commentsData| ==>
              r.value.commentsData[j].videoId in RowIds(r.value.videoData)
  {
    var videos :- Listing.FetchVideoData(api.channelVideos(channelId));
    var ids := VideoIds(videos);
    var stats :- Statistics.FetchVideoStatistics(ids, api.videoStatistics);
    var rows := Merge.MergeStats(videos, stats);
    var comments :- AllComments(ids, api.commentThreads);
    assert RowIds(rows) == ids;
    Success(Export(rows, comments))
  }

  /** The whole run for a channel URL; a failure anywhere means no export. */
  function Run(url: string, api: Api): (r: Result<Export, FetchError>)
    ensures !Resolver.IsHandle(Resolver.HandleOf(url)) ==> r == Failure(InvalidInput)
    ensures r.Success? ==> forall j :: 0 <= j < |r.value.commentsData| ==>
              r.value.commentsData[j].videoId in RowIds(r.value.videoData)
  {
    var channelId :- Resolver.ExtractChannelId(url, api.search);
    Collect(channelId, api)
  }

  /** Once the channel is resolved, the run is the collection for that channel. */
  lemma RunIsCollect(url: string, api: Api, channelId: string)
    requires Resolver.ExtractChannelId(url, api.search) == Success(channelId)
    ensures Run(url, api) == Collect(channelId, api)
  {
  }

  /** A successful run exports the merged rows of the listing and the statistics, and the
      comments of every listed video joined in listing order. */
  lemma RunExports(url: string, api: Api, channelId: string, videos: seq<Listing.VideoRecord>,
                   stats: seq<Statistics.StatRecord>)
    requires Resolver.ExtractChannelId(url, api.search) == Success(channelId)
    requires Listing.FetchVideoData(api.channelVideos(channelId)) == Success(videos)
    requires Statistics.FetchVideoStatistics(VideoIds(videos), api.videoStatistics) == Success(stats)
    requires AllFetched(VideoIds(videos), api.commentThreads)
    ensures Run(url, api) == Success(Export(Merge.MergeStats(videos, stats),
                                            Seqs.Concat(PerVideo(VideoIds(videos), api.commentThreads))))
  {
    RunIsCollect(url, api, channelId);
  }

  /** A successful run has one video row per listed video, in listing order, each
      carrying that video's listing fields. */
  lemma RunRows(url: string, api: Api, channelId: string, videos: seq<Listing.VideoRecord>)
    requires Resolver.ExtractChannelId(url, api.search) == Success(channelId)
    requires Listing.FetchVideoData(api.channelVideos(channelId)) == Success(videos)
    requires Run(url, api).Success?
    ensures |Run(url, api).value.videoData| == |videos|
    ensures forall i :: 0 <= i < |videos| ==> Run(url, api).value.videoData[i].video == videos[i]
  {
    RunIsCollect(url, api, channelId);
    CollectRows(channelId, api, videos);
  }

  lemma CollectRows(channelId: string, api: Api, videos: seq<Listing.VideoRecord>)
    requires Listing.FetchVideoData(api.channelVideos(channelId)) == Success(videos)
    requires Collect(channelId, api).Success?
    ensures |Collect(channelId, api).value.videoData| == |videos|
    ensures forall i :: 0 <= i < |videos| ==> Collect(channelId, api).value.videoData[i].video == videos[i]
  {
    var stats := Statistics.FetchVideoStatistics(VideoIds(videos), api.videoStatistics);
    assert stats.Success?;
    assert Collect(channelId, api).value.videoData == Merge.MergeStats(videos, stats.value);
  }

  /** Any failed stage fails the whole run: with the listing failing, no export exists. */
  lemma ListingFailureFailsRun(url: string, api: Api, channelId: string)
    requires Resolver.ExtractChannelId(url, api.search) == Success(channelId)
    requires Listing.FetchVideoData(api.channelVideos(channelId)).Failure?
    ensures Run(url, api) == Failure(Listing.FetchVideoData(api.channelVideos(channelId)).error)
  {
    RunIsCollect(url, api, channelId);
  }

  /** A failed statistics batch fails the whole run with its error: no export exists. */
  lemma StatisticsFailureFailsRun(url: string, api: Api, channelId: string, videos: seq<Listing.VideoRecord>)
    requires Resolver.ExtractChannelId(url, api.search) == Success(channelId)
    requires Listing.FetchVideoData(api.channelVideos(channelId)) == Success(videos)
    requires Statistics.FetchVideoStatistics(VideoIds(videos), api.videoStatistics).Failure?
    ensures Run(url, api) == Failure(Statistics.FetchVideoStatistics(VideoIds(videos), api.videoStatistics).error)
  {
    RunIsCollect(url, api, channelId);
  }

  /** The first video whose comment fetch fails decides the run's error: no export exists. */
  lemma CommentsFailureFailsRun(url: string, api: Api, channelId: string, videos: seq<Listing.VideoRecord>, k: nat)
    requires Resolver.ExtractChannelId(url, api.search) == Success(channelId)
    requires Listing.FetchVideoData(api.channelVideos(channelId)) == Success(videos)
    requires Statistics.FetchVideoStatistics(VideoIds(videos), api.videoStatistics).Success?
    requires k < |videos| && FirstFailing(VideoIds(videos), api.commentThreads, k)
    ensures Run(url, api) == Failure(VideoComments(videos[k].videoId, api.commentThreads).error)
  {
    var ids := VideoIds(videos);
    assert ids[k] == videos[k].videoId;
    FirstFailureDecides(ids, api.commentThreads, k);
    RunIsCollect(url, api, channelId);
    CollectCommentsFailure(channelId, api, videos);
  }

  /** The error AllComments reports is that of the first failing video. */
  lemma FirstFailureDecides(ids: seq<string>, threads: string -> seq<Response<Comments.CommentThread>>, k: nat)
    requires k < |ids| && FirstFailing(ids, threads, k)
    ensures AllComments(ids, threads) == Failure(VideoComments(ids[k], threads).error)
  {
    var r := AllComments(ids, threads);
    assert !AllFetched(ids, threads);
    var k' :| 0 <= k' < |ids| && FirstFailing(ids, threads, k')
              && r.error == VideoComments(ids[k'], threads).error;
    assert k' == k;
  }

  lemma CollectCommentsFailure(channelId: string, api: Api, videos: seq<Listing.VideoRecord>)
    requires Listing.FetchVideoData(api.channelVideos(channelId)) == Success(videos)
    requires Statistics.FetchVideoStatistics(VideoIds(videos), api.videoStatistics).Success?
    requires AllComments(VideoIds(videos), api.commentThreads).Failure?
    ensures Collect(channelId, api) == Failure(AllComments(VideoIds(videos), api.commentThreads).error)
  {
  }
}
