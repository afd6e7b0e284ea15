/** The listing fetcher: every page of a channel's video search, flattened
    into one video record per search item. */
module Listing {
  import opened Wrappers
  import opened Paging
  import Seqs

  /** One item of a video search page, with the fields the tool reads;
      the snippet's `description` may be absent. */
  datatype SearchVideo = SearchVideo(
    videoId: string,
    title: string,
    description: Option<string>,
    publishedAt: string,
    defaultThumbnailUrl: string)

  /** The flat listing record. */
  datatype VideoRecord = VideoRecord(
    videoId: string,
    title: string,
    description: string,
    publishedDate: string,
    thumbnailUrl: string)

  /** Whether `v` is the record the tool builds for `item`. */
  predicate RecordOf(item: SearchVideo, v: VideoRecord) {
    && v.videoId == item.videoId
    && v.title == item.title
    && (item.description.Some? ==> v.description == item.description.value)
    && (item.description.None? ==> v.description == "")
    && v.publishedDate == item.publishedAt
    && v.thumbnailUrl == item.defaultThumbnailUrl
  }

  function ToRecord(item: SearchVideo): VideoRecord {
    VideoRecord(item.videoId, item.title, item.description.GetOr(""), item.publishedAt, item.defaultThumbnailUrl)
  }

  /** One record per item, in item order. */
  function Records(items: seq<SearchVideo>): (vs: seq<VideoRecord>)
    ensures |vs| == |items|
    ensures forall i :: 0 <= i < |items| ==> RecordOf(items[i], vs[i])
  {
    Seqs.Map(ToRecord, items)
  }

  /** Follows the cursors from the first page until a page has none; any failed
      request aborts the whole listing. A listing is only ever the records of a
      cursor chain that ends. */
  function FetchVideoData(rs: seq<Response<SearchVideo>>): (r: Result<seq<VideoRecord>, FetchError>)
    ensures r.Failure? ==> r.error.Upstream?
    ensures r.Success? ==> exists n :: Complete(rs, n) && r.value == Records(ItemsUpTo(rs, n))
    decreases |rs|
  {
    if |rs| == 0 then Failure(Upstream(Unanswered))
    else match rs[0]
      case Failure(e) => Failure(Upstream(e))
      case Success(page) =>
        if !HasNext(page) then
          assert Complete(rs, 1) && ItemsUpTo(rs, 1) == page.items by {
            assert ItemsUpTo(rs[1..], 0) == [];
          }
          Success(Records(page.items))
        else match FetchVideoData(rs[1..])
          case Failure(e) => Failure(e)
          case Success(rest) =>
            assert exists n :: Complete(rs, n) && Records(page.items) + rest == Records(ItemsUpTo(rs, n)) by {
              var m: nat :| Complete(rs[1..], m) && rest == Records(ItemsUpTo(rs[1..], m));
              WalkedTail(rs, m + 1);
              Seqs.MapAppend(ToRecord, page.items, ItemsUpTo(rs[1..], m));
              assert Complete(rs, m + 1);
            }
            Success(Records(page.items) + rest)
  }

  /** When the cursor chain ends at page `n`, the listing is one record per item of
      pages 1..n, in page order. */
  lemma {:induction false} ListingOfCompleteChain(rs: seq<Response<SearchVideo>>, n: nat)
    requires Complete(rs, n)
    ensures FetchVideoData(rs) == Success(Records(ItemsUpTo(rs, n)))
  {
    var page := rs[0].value;
    if n == 1 {
      assert ItemsUpTo(rs[1..], 0) == [];
      assert ItemsUpTo(rs, 1) == page.items;
      assert !HasNext(page);
    } else {
      WalkedTail(rs, n);
      assert Complete(rs[1..], n - 1);
      ListingOfCompleteChain(rs[1..], n - 1);
      Seqs.MapAppend(ToRecord, page.items, ItemsUpTo(rs[1..], n - 1));
    }
  }

  /** When the cursor chain reaches a failed request (or runs past the given answers)
      before a final page, the listing fails with that error and returns nothing. */
  lemma {:induction false} ListingAborts(rs: seq<Response<SearchVideo>>, k: nat)
    requires Linked(rs, k)
    requires k == |rs| || rs[k].Failure?
    ensures FetchVideoData(rs) == Failure(Upstream(if k == |rs| then Unanswered else rs[k].error))
  {
    if k > 0 {
      LinkedTail(rs, k);
      ListingAborts(rs[1..], k - 1);
    }
  }
}
