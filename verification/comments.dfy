/** The comment fetcher: pages of comment threads, each thread flattened into
    its top-level comment followed by its replies, fetched while fewer records
    than the cap have been collected. */
module Comments {
  import opened Wrappers
  import opened Paging

  /** The default cap on collected records per video. */
  const DefaultMaxComments: int := 100

  datatype CommentSnippet = CommentSnippet(
    textDisplay: string,
    authorDisplayName: string,
    publishedAt: string,
    likeCount: nat)

  datatype Reply = Reply(id: string, snippet: CommentSnippet)

  /** A thread: its id, its top-level comment and, when present, its replies. */
  datatype CommentThread = CommentThread(id: string, topLevelComment: CommentSnippet, replies: Option<seq<Reply>>)

  /** The flat record; `replyTo` is the parent's text, or `None` for a top-level comment. */
  datatype CommentRecord = CommentRecord(
    videoId: string,
    commentId: string,
    text: string,
    author: string,
    publishedDate: string,
    likeCount: nat,
    replyTo: Option<string>)

  function RepliesOf(t: CommentThread): seq<Reply> {
    t.replies.GetOr([])
  }

  /** Whether `r` is the record of `snippet` with id `id`, for video `videoId`, replying to `replyTo`. */
  predicate RecordOf(videoId: string, id: string, snippet: CommentSnippet, replyTo: Option<string>, r: CommentRecord) {
    r == CommentRecord(videoId, id, snippet.textDisplay, snippet.authorDisplayName, snippet.publishedAt,
                       snippet.likeCount, replyTo)
  }

  function ReplyRecords(videoId: string, parentText: string, replies: seq<Reply>): (rs: seq<CommentRecord>)
    ensures |rs| == |replies|
    ensures forall j :: 0 <= j < |replies| ==>
              RecordOf(videoId, replies[j].id, replies[j].snippet, Some(parentText), rs[j])
  {
    if |replies| == 0 then []
    else
      [CommentRecord(videoId, replies[0].id, replies[0].snippet.textDisplay, replies[0].snippet.authorDisplayName,
                     replies[0].snippet.publishedAt, replies[0].snippet.likeCount, Some(parentText))]
      + ReplyRecords(videoId, parentText, replies[1..])
  }

  /** A thread with `r` replies gives `1 + r` records, the top-level one first. */
  function ThreadRecords(videoId: string, t: CommentThread): (rs: seq<CommentRecord>)
    ensures |rs| == 1 + |RepliesOf(t)|
    ensures RecordOf(videoId, t.id, t.topLevelComment, None, rs[0])
    ensures forall j :: 1 <= j < |rs| ==>
              RecordOf(videoId, RepliesOf(t)[j - 1].id, RepliesOf(t)[j - 1].snippet,
                       Some(t.topLevelComment.textDisplay), rs[j])
  {
    var top := t.topLevelComment;
    [CommentRecord(videoId, t.id, top.textDisplay, top.authorDisplayName, top.publishedAt, top.likeCount, None)]
    + ReplyRecords(videoId, top.textDisplay, RepliesOf(t))
  }

  function TotalReplies(ts: seq<CommentThread>): nat {
    if |ts| == 0 then 0 else |RepliesOf(ts[0])| + TotalReplies(ts[1..])
  }

  /** The records of a page of threads, thread after thread. */
  function PageRecords(videoId: string, ts: seq<CommentThread>): (rs: seq<CommentRecord>)
    ensures |rs| == |ts| + TotalReplies(ts)
    ensures forall j :: 0 <= j < |rs| ==> rs[j].videoId == videoId
  {
    if |ts| == 0 then [] else ThreadRecords(videoId, ts[0]) + PageRecords(videoId, ts[1..])
  }

  /** Record `j` is a reply whose parent text is that of an earlier top-level record. */
  ghost predicate ParentPrecedes(rs: seq<CommentRecord>, j: nat)
    requires j < |rs|
  {
    rs[j].replyTo.Some? ==>
      exists i :: 0 <= i < j && rs[i].replyTo.None? && rs[i].text == rs[j].replyTo.value
  }

  /** Every record's parent, when it has one, comes before it. */
  ghost predicate ParentsPrecede(rs: seq<CommentRecord>) {
    forall j :: 0 <= j < |rs| ==> ParentPrecedes(rs, j)
  }

  /** Joining two lists whose replies follow their parents keeps that order. */
  lemma ParentsAppend(a: seq<CommentRecord>, b: seq<CommentRecord>)
    requires ParentsPrecede(a) && ParentsPrecede(b)
    ensures ParentsPrecede(a + b)
  {
    var rs := a + b;
    forall j | 0 <= j < |rs|
      ensures ParentPrecedes(rs, j)
    {
      if j < |a| {
        assert rs[j] == a[j];
        if a[j].replyTo.Some? {
          assert ParentPrecedes(a, j);
          var i :| 0 <= i < j && a[i].replyTo.None? && a[i].text == a[j].replyTo.value;
          assert rs[i] == a[i];
        }
      } else if rs[j].replyTo.Some? {
        assert rs[j] == b[j - |a|];
        assert ParentPrecedes(b, j - |a|);
        var i :| 0 <= i < j - |a| && b[i].replyTo.None? && b[i].text == b[j - |a|].replyTo.value;
        assert rs[|a| + i] == b[i];
      }
    }
  }

  lemma ThreadParents(videoId: string, t: CommentThread)
    ensures ParentsPrecede(ThreadRecords(videoId, t))
  {
    var rs := ThreadRecords(videoId, t);
    forall j | 0 <= j < |rs|
      ensures ParentPrecedes(rs, j)
    {
      if j > 0 {
        assert rs[0].replyTo.None? && rs[0].text == t.topLevelComment.textDisplay;
      }
    }
  }

  /** Every reply record names the text of a top-level record met before it. */
  lemma {:induction false} RepliesFollowTheirParent(videoId: string, ts: seq<CommentThread>)
    ensures forall j :: 0 <= j < |PageRecords(videoId, ts)| ==> ParentPrecedes(PageRecords(videoId, ts), j)
  {
    if |ts| > 0 {
      ThreadParents(videoId, ts[0]);
      RepliesFollowTheirParent(videoId, ts[1..]);
      ParentsAppend(ThreadRecords(videoId, ts[0]), PageRecords(videoId, ts[1..]));
    }
  }

  // ---------------------------------------------------------------------------
  // The capped page loop
  // ---------------------------------------------------------------------------

  /** The loop, `fetched` records already collected: a page is requested only while
      fewer than `maxComments` records are held, and it is kept whole. */
  function FetchFrom(videoId: string, maxComments: int, rs: seq<Response<CommentThread>>, fetched: nat)
    : (r: Result<seq<CommentRecord>, FetchError>)
    ensures r.Success? ==> forall j :: 0 <= j < |r.value| ==> r.value[j].videoId == videoId
    ensures r.Failure? ==> r.error.Upstream?
    ensures fetched >= maxComments ==> r == Success([])
    decreases |rs|
  {
    if fetched >= maxComments then Success([])
    else if |rs| == 0 then Failure(Upstream(Unanswered))
    else match rs[0]
      case Failure(e) => Failure(Upstream(e))
      case Success(page) =>
        var here := PageRecords(videoId, page.items);
        if !HasNext(page) then Success(here)
        else match FetchFrom(videoId, maxComments, rs[1..], fetched + |here|)
          case Failure(e) => Failure(e)
          case Success(rest) => Success(here + rest)
  }

  /** The comments and replies of a video, up to the cap and the overshoot of the last page. */
  function FetchComments(videoId: string, maxComments: int, rs: seq<Response<CommentThread>>)
    : (r: Result<seq<CommentRecord>, FetchError>)
    ensures r.Success? ==> forall j :: 0 <= j < |r.value| ==> r.value[j].videoId == videoId
  {
    FetchFrom(videoId, maxComments, rs, 0)
  }

  /** The records of the first `n` pages, page after page. */
  function RecordsUpTo(videoId: string, rs: seq<Response<CommentThread>>, n: nat): seq<CommentRecord>
    requires n <= |rs|
  {
    if n == 0 then [] else PageRecords(videoId, ItemsOf(rs[0])) + RecordsUpTo(videoId, rs[1..], n - 1)
  }

  /** The loop, started with `fetched` records held, requests exactly pages 1..n:
      each was requested while the count was below the cap, each but the last
      pointed to the next, and the last either ended the chain or reached the cap. */
  ghost predicate StopsAfter(videoId: string, maxComments: int, rs: seq<Response<CommentThread>>, fetched: nat, n: nat) {
    && Walked(rs, n)
    && BelowCapBefore(videoId, maxComments, rs, fetched, n)
    && (n == 0 ==> fetched >= maxComments)
    && (n > 0 ==> !HasNext(rs[n - 1].value) || fetched + |RecordsUpTo(videoId, rs, n)| >= maxComments)
  }

  lemma RecordsUpToZero(videoId: string, rs: seq<Response<CommentThread>>)
    ensures RecordsUpTo(videoId, rs, 0) == []
  {
  }

  lemma RecordsUpToCons(videoId: string, rs: seq<Response<CommentThread>>, k: nat)
    requires 0 < k <= |rs| && rs[0].Success?
    ensures RecordsUpTo(videoId, rs, k) == PageRecords(videoId, rs[0].value.items) + RecordsUpTo(videoId, rs[1..], k - 1)
  {
  }

  /** Whether every page before page `n` was requested with fewer than `maxComments` records held. */
  ghost predicate BelowCapBefore(videoId: string, maxComments: int, rs: seq<Response<CommentThread>>, fetched: nat, n: nat)
    requires n <= |rs|
  {
    forall k :: 0 <= k < n ==> fetched + |RecordsUpTo(videoId, rs, k)| < maxComments
  }

  /** The counts before each page, seen from the second page on. */
  lemma CountsShift(videoId: string, maxComments: int, rs: seq<Response<CommentThread>>, fetched: nat, n: nat)
    requires 0 < n <= |rs| && rs[0].Success? && fetched < maxComments
    ensures BelowCapBefore(videoId, maxComments, rs, fetched, n) <==>
            BelowCapBefore(videoId, maxComments, rs[1..], fetched + |PageRecords(videoId, rs[0].value.items)|, n - 1)
  {
    var here := |PageRecords(videoId, rs[0].value.items)|;
    forall k | 0 < k <= n
      ensures |RecordsUpTo(videoId, rs, k)| == here + |RecordsUpTo(videoId, rs[1..], k - 1)|
    {
      RecordsUpToCons(videoId, rs, k);
    }
    RecordsUpToZero(videoId, rs);
    if BelowCapBefore(videoId, maxComments, rs, fetched, n) {
      forall k | 0 <= k < n - 1
        ensures fetched + here + |RecordsUpTo(videoId, rs[1..], k)| < maxComments
      {
        assert fetched + |RecordsUpTo(videoId, rs, k + 1)| < maxComments;
      }
    }
    if BelowCapBefore(videoId, maxComments, rs[1..], fetched + here, n - 1) {
      forall k | 0 <= k < n
        ensures fetched + |RecordsUpTo(videoId, rs, k)| < maxComments
      {
        if k > 0 {
          assert fetched + here + |RecordsUpTo(videoId, rs[1..], k - 1)| < maxComments;
        }
      }
    }
  }

  /** Past the first page, the loop continues as a loop over the remaining pages. */
  lemma StopsAfterTail(videoId: string, maxComments: int, rs: seq<Response<CommentThread>>, fetched: nat, n: nat)
    requires |rs| > 0 && rs[0].Success? && HasNext(rs[0].value) && fetched < maxComments && n > 0
    ensures StopsAfter(videoId, maxComments, rs, fetched, n) <==>
            StopsAfter(videoId, maxComments, rs[1..], fetched + |PageRecords(videoId, rs[0].value.items)|, n - 1)
  {
    var here := |PageRecords(videoId, rs[0].value.items)|;
    var rest := rs[1..];
    if n > 1 {
      WalkedTail(rs, n);
    }
    assert Walked(rs, n) <==> Walked(rest, n - 1);
    if n <= |rs| {
      CountsShift(videoId, maxComments, rs, fetched, n);
      RecordsUpToCons(videoId, rs, n);
      if n > 1 {
        assert rest[n - 2] == rs[n - 1];
      }
    }
  }

  lemma {:induction false} FetchFromStops(videoId: string, maxComments: int, rs: seq<Response<CommentThread>>, fetched: nat, n: nat)
    requires StopsAfter(videoId, maxComments, rs, fetched, n)
    ensures FetchFrom(videoId, maxComments, rs, fetched) == Success(RecordsUpTo(videoId, rs, n))
    decreases |rs|
  {
    RecordsUpToZero(videoId, rs);
    if fetched >= maxComments {
      assert n == 0;
    } else {
      var page := rs[0].value;
      var here := PageRecords(videoId, page.items);
      if !HasNext(page) {
        assert n == 1;
        RecordsUpToZero(videoId, rs[1..]);
        assert ItemsOf(rs[0]) == page.items;
        assert RecordsUpTo(videoId, rs, 1) == here + [];
        assert here + [] == here;
        assert FetchFrom(videoId, maxComments, rs, fetched) == Success(here);
      } else {
        StopsAfterTail(videoId, maxComments, rs, fetched, n);
        RecordsUpToCons(videoId, rs, n);
        FetchFromStops(videoId, maxComments, rs[1..], fetched + |here|, n - 1);
      }
    }
  }

  lemma {:induction false} FetchFromSuccess(videoId: string, maxComments: int, rs: seq<Response<CommentThread>>, fetched: nat)
    returns (n: nat)
    requires FetchFrom(videoId, maxComments, rs, fetched).Success?
    ensures StopsAfter(videoId, maxComments, rs, fetched, n)
    decreases |rs|
  {
    if fetched >= maxComments {
      n := 0;
    } else {
      var page := rs[0].value;
      var here := PageRecords(videoId, page.items);
      if !HasNext(page) {
        n := 1;
        RecordsUpToZero(videoId, rs);
        assert Walked(rs, 1);
      } else {
        assert FetchFrom(videoId, maxComments, rs[1..], fetched + |here|).Success?;
        var m := FetchFromSuccess(videoId, maxComments, rs[1..], fetched + |here|);
        n := m + 1;
        StopsAfterTail(videoId, maxComments, rs, fetched, n);
      }
    }
  }

  /** The fetch succeeds with `cs` exactly when some number `n` of pages is what the
      capped loop requests, and `cs` is then the records of those pages, in order. */
  lemma CommentsCharacterised(videoId: string, maxComments: int, rs: seq<Response<CommentThread>>, cs: seq<CommentRecord>)
    ensures FetchComments(videoId, maxComments, rs) == Success(cs) <==>
            exists n :: StopsAfter(videoId, maxComments, rs, 0, n) && cs == RecordsUpTo(videoId, rs, n)
  {
    if FetchComments(videoId, maxComments, rs) == Success(cs) {
      var n := FetchFromSuccess(videoId, maxComments, rs, 0);
      FetchFromStops(videoId, maxComments, rs, 0, n);
    }
    if exists n :: StopsAfter(videoId, maxComments, rs, 0, n) && cs == RecordsUpTo(videoId, rs, n) {
      var n :| StopsAfter(videoId, maxComments, rs, 0, n) && cs == RecordsUpTo(videoId, rs, n);
      FetchFromStops(videoId, maxComments, rs, 0, n);
    }
  }

  /** A cap of zero or less requests no page and yields no records. */
  lemma NonPositiveCapFetchesNothing(videoId: string, maxComments: int, rs: seq<Response<CommentThread>>)
    requires maxComments <= 0
    ensures FetchComments(videoId, maxComments, rs) == Success([])
  {
  }

  /** A result shorter than the cap means every page of the chain was consumed. */
  lemma ShortResultConsumedAllPages(videoId: string, maxComments: int, rs: seq<Response<CommentThread>>)
    requires FetchComments(videoId, maxComments, rs).Success?
    requires |FetchComments(videoId, maxComments, rs).value| < maxComments
    ensures exists n :: Complete(rs, n) && FetchComments(videoId, maxComments, rs).value == RecordsUpTo(videoId, rs, n)
  {
    var n := FetchFromSuccess(videoId, maxComments, rs, 0);
    FetchFromStops(videoId, maxComments, rs, 0, n);
    assert Complete(rs, n);
  }

  /** The cap is overshot only by the last page: before it was requested, fewer than
      `maxComments` records were held. */
  lemma OvershootOnlyWithinLastPage(videoId: string, maxComments: int, rs: seq<Response<CommentThread>>)
    requires FetchComments(videoId, maxComments, rs).Success?
    requires maxComments > 0
    ensures exists n :: 0 < n <= |rs| && |RecordsUpTo(videoId, rs, n - 1)| < maxComments
                        && FetchComments(videoId, maxComments, rs).value == RecordsUpTo(videoId, rs, n)
  {
    var n := FetchFromSuccess(videoId, maxComments, rs, 0);
    FetchFromStops(videoId, maxComments, rs, 0, n);
    assert |RecordsUpTo(videoId, rs, n - 1)| < maxComments;
  }

  /** When no page holds more than `bound` records, the result stays below `maxComments + bound`. */
  lemma OvershootBound(videoId: string, maxComments: int, rs: seq<Response<CommentThread>>, bound: nat)
    requires FetchComments(videoId, maxComments, rs).Success?
    requires maxComments > 0
    requires forall i :: 0 <= i < |rs| ==> |PageRecords(videoId, ItemsOf(rs[i]))| <= bound
    ensures |FetchComments(videoId, maxComments, rs).value| < maxComments + bound
  {
    var n := FetchFromSuccess(videoId, maxComments, rs, 0);
    FetchFromStops(videoId, maxComments, rs, 0, n);
    LastPageSize(videoId, rs, n);
  }

  lemma {:induction false} LastPageSize(videoId: string, rs: seq<Response<CommentThread>>, n: nat)
    requires 0 < n <= |rs|
    ensures |RecordsUpTo(videoId, rs, n)| == |RecordsUpTo(videoId, rs, n - 1)| + |PageRecords(videoId, ItemsOf(rs[n - 1]))|
  {
    if n > 1 {
      LastPageSize(videoId, rs[1..], n - 1);
      assert rs[1..][n - 2] == rs[n - 1];
    } else {
      assert RecordsUpTo(videoId, rs, 0) == [];
      assert RecordsUpTo(videoId, rs[1..], 0) == [];
    }
  }

  /** A failed request reached while below the cap aborts the fetch with its error. */
  lemma {:induction false} CommentsAbort(videoId: string, maxComments: int, rs: seq<Response<CommentThread>>, k: nat)
    requires Linked(rs, k) && k < |rs| && rs[k].Failure?
    requires forall j :: 0 <= j <= k ==> |RecordsUpTo(videoId, rs, j)| < maxComments
    ensures FetchComments(videoId, maxComments, rs) == Failure(Upstream(rs[k].error))
  {
    FetchFromAborts(videoId, maxComments, rs, 0, k);
  }

  lemma {:induction false} FetchFromAborts(videoId: string, maxComments: int, rs: seq<Response<CommentThread>>, fetched: nat, k: nat)
    requires Linked(rs, k) && k < |rs| && rs[k].Failure?
    requires forall j :: 0 <= j <= k ==> fetched + |RecordsUpTo(videoId, rs, j)| < maxComments
    ensures FetchFrom(videoId, maxComments, rs, fetched) == Failure(Upstream(rs[k].error))
    decreases k
  {
    assert RecordsUpTo(videoId, rs, 0) == [];
    if k > 0 {
      LinkedTail(rs, k);
      var here := |PageRecords(videoId, rs[0].value.items)|;
      forall j | 0 <= j <= k - 1
        ensures fetched + here + |RecordsUpTo(videoId, rs[1..], j)| < maxComments
      {
        RecordsUpToCons(videoId, rs, j + 1);
      }
      FetchFromAborts(videoId, maxComments, rs[1..], fetched + here, k - 1);
    }
  }

  lemma {:induction false} RecordsUpToParents(videoId: string, rs: seq<Response<CommentThread>>, n: nat)
    requires n <= |rs|
    ensures ParentsPrecede(RecordsUpTo(videoId, rs, n))
  {
    if n > 0 {
      RepliesFollowTheirParent(videoId, ItemsOf(rs[0]));
      RecordsUpToParents(videoId, rs[1..], n - 1);
      ParentsAppend(PageRecords(videoId, ItemsOf(rs[0])), RecordsUpTo(videoId, rs[1..], n - 1));
    }
  }

  /** Across all the pages of a video's fetch, every reply record comes after the
      top-level record it names. */
  lemma FetchedRepliesFollowTheirParent(videoId: string, maxComments: int, rs: seq<Response<CommentThread>>)
    requires FetchComments(videoId, maxComments, rs).Success?
    ensures forall j :: 0 <= j < |FetchComments(videoId, maxComments, rs).value| ==>
              ParentPrecedes(FetchComments(videoId, maxComments, rs).value, j)
  {
    var cs := FetchComments(videoId, maxComments, rs).value;
    CommentsCharacterised(videoId, maxComments, rs, cs);
    var n :| StopsAfter(videoId, maxComments, rs, 0, n) && cs == RecordsUpTo(videoId, rs, n);
    RecordsUpToParents(videoId, rs, n);
  }
}
