# youtube-data-fetcher, modelled in Dafny

The fetcher exports a YouTube channel's videos, their statistics and their
comment threads to a spreadsheet. Most of it is plumbing around the remote API
client. Under that plumbing are a few pure transformations. This project models
them, with the network replaced by plain data:

- **Resolver**: turns a channel URL into a channel id. It cleans the URL as
  `urllib.parse` does: leading control characters and spaces are stripped, and
  every tab, carriage return and line feed is deleted. It then takes the URL's
  path, drops any `;parameters`, strips `/` from both ends and requires a leading
  `@`. Finally it runs one channel search for that handle and returns the first
  hit's `channelId`.
- **Listing**: follows the video search's page cursors until a page has none.
  It emits one flat video record per item; a missing `description` becomes `""`.
- **Duration**: shows a whole number of seconds as `HH:MM:SS`, using two
  `divmod` steps and `{n:02}` padding. A parse failure shows as `"00:00:00"`.
- **Statistics**: cuts the id list into consecutive batches of at most 50 and
  sends one `videos.list` request per batch. Missing counters default to `0`.
- **Comments**: flattens each comment thread into its top-level comment
  followed by its replies. It fetches another page only while fewer records than
  the cap are held, and never truncates a page.
- **Merge**: enriches each video, in listing order, with the first statistics
  record carrying its id.
- **Pipeline**: composes the stages as the entry point does. The result is the
  content of the two sheets, or the first error.

The API is modelled as data. A paged endpoint is the sequence of answers
`seq<Result<Page<T>, ApiError>>`, where the k-th request of a loop receives the
k-th answer and each page holds its items and an optional cursor. The channel
search and the statistics endpoint are total functions from request to answer.
So "which requests are made" becomes "the result depends only on the answers to
these requests".

Modules, one file each: `Wrappers` (Option, Result), `Seqs` (map and concatenation
of sequences), `Paging` (pages, cursors, errors, cursor-chain predicates), `Resolver`, `Listing`, `Duration`,
`Statistics`, `Comments`, `Merge`, `Pipeline`.

Three behaviours of the code worth noting:
- The comment cap can be exceeded by the last page fetched. The code checks the
  count only before requesting a page.
- Hours are neither capped nor clamped: 100 hours or more gives three or more
  hour digits.
- The handle `@` on its own passes the check, since only the leading `@` is tested.

## Model

| member | source | states |
|---|---|---|
| Resolver.CleanUrl | youtube_fetcher.py:25 | The text that is split has no tab, carriage return or line feed, and does not start with a control character or space. |
| Resolver.RemoveUnsafe | youtube_fetcher.py:25 | Deleting tabs and line breaks leaves none, never lengthens the text, and leaves a text without them unchanged. |
| Resolver.DropParams | youtube_fetcher.py:25 | The path without its parameters is a prefix of the path, and a path without `;` is unchanged. |
| Resolver.UrlPath | youtube_fetcher.py:25 | The path taken from a URL never contains a query (`?`), a fragment (`#`), a tab or a line break. |
| Resolver.UrlPathOfAbsoluteUrl | youtube_fetcher.py:25 | For `scheme://authority/path` followed by an optional `?query` or `#fragment`, with no `;` in the path, the path is exactly `/path`. |
| Resolver.PlainLocatorIsPath | youtube_fetcher.py:25 | A locator with no colon, query, fragment, `;`, leading slash, tab or line break is all path. |
| Resolver.UnsafeCharsIgnored | youtube_fetcher.py:25 | For a URL starting with a visible character, the path is that of the URL with every tab and line break deleted. |
| Resolver.UnsafeBeforeHandle | youtube_fetcher.py:25-29 | A tab or line break typed between the host's `/` and a handle is deleted, so the handle found is that handle. |
| Resolver.TabBeforeHandle | youtube_fetcher.py:25-29 | `https://youtube.com/<tab>@name` yields the handle `@name`. |
| Resolver.ParamsAfterPath | youtube_fetcher.py:25 | For a scheme with parameters, such as `https`, the `;parameters` after the last path segment are not part of the path. |
| Resolver.ParamsAfterHandle | youtube_fetcher.py:25-29 | For such a scheme, `scheme://host/@name;params` yields the handle `@name`. |
| Resolver.ParamsExample | youtube_fetcher.py:25-29 | `https://youtube.com/@name;x` yields the handle `@name`. |
| Resolver.StripSlashes | youtube_fetcher.py:26 | The stripped handle neither starts nor ends with `/`. A text without slashes is unchanged. |
| Resolver.StripSlashesDecomposes | youtube_fetcher.py:26 | The input is some run of slashes, then the stripped text, then another run of slashes. |
| Resolver.StripSlashesUnique | youtube_fetcher.py:26 | Stripping any slashes surrounding a text that has no boundary slash gives back exactly that text. |
| Resolver.HandleOf | youtube_fetcher.py:25-26 | The handle neither starts nor ends with `/`, and holds no query, fragment, tab or line break. |
| Resolver.ExtractChannelId | youtube_fetcher.py:21-42 | Fails with InvalidInput exactly when the stripped path does not start with `@`. A failed search propagates as Upstream. Fails with NotFound exactly when the search answers with items absent or empty. Otherwise it succeeds with the first item's channelId. |
| Resolver.InvalidHandleSendsNoRequest | youtube_fetcher.py:28-37 | A handle without `@` gives InvalidInput whatever the search endpoint would answer: it is rejected before any request. |
| Resolver.OnlyChannelSearchIssued | youtube_fetcher.py:32-37 | The result depends only on the answer to the one request for the handle, with at most one result, type channel. |
| Resolver.SchemelessLocatorRejected | youtube_fetcher.py:25-29 | A locator written without a scheme (`youtube.com/@name`) keeps its host in the path and is rejected as InvalidInput. |
| Listing.Records | youtube_fetcher.py:59-68 | One record per item, in item order, with id, title, publish date and default thumbnail copied. The description is copied when present and `""` when absent. |
| Listing.ListingOfCompleteChain | youtube_fetcher.py:57-69 | If following cursors from the first page ends at page n, the listing is the records of every item of pages 1..n, in page order. |
| Listing.ListingAborts | youtube_fetcher.py:57-72 | If the cursor chain reaches a failed request, the whole listing fails with that error and returns no partial list. The same holds if the chain runs past the given answers. |
| Listing.FetchVideoData | youtube_fetcher.py:47-73 | A successful listing always comes from a cursor chain that ends at some page n, and it is the records of the items of pages 1..n. Failures are only ever failed requests. |
| Duration.SplitSeconds | youtube_fetcher.py:81-82 | The fields satisfy minutes < 60, seconds < 60 and hours*3600 + minutes*60 + seconds = total. |
| Duration.SplitSecondsUnique | youtube_fetcher.py:81-82 | The divmod split is the only split with minutes and seconds below 60. |
| Duration.Pad2 | youtube_fetcher.py:83 | A field is all digits and denotes the number. It is exactly two characters below 100, and the full numeral from 100 on. |
| Duration.FormatSeconds | youtube_fetcher.py:81-83 | The display has `:` before the two-digit minutes and seconds fields. It is exactly 8 characters if and only if the duration is under 100 hours. |
| Duration.ParseDuration | youtube_fetcher.py:76-86 | A parse failure yields exactly `"00:00:00"`. Any outcome has the `H..H:MM:SS` shape. |
| Duration.FormatRoundTrip | youtube_fetcher.py:81-83 | Reading the display string back gives exactly the number of seconds it was made from. |
| Duration.FormatInjective | youtube_fetcher.py:81-83 | Two different durations never share a display string. |
| Duration.HoursWidth | youtube_fetcher.py:83 | Hours are not capped: from 100 hours on, the hours field is the full numeral, so the string has 9 or more characters. |
| Duration.FailureShowsAsZero | youtube_fetcher.py:84-86 | A parse failure displays the same as a zero-second duration and reads back as 0. |
| Duration.TwoMinutesTwoSeconds | youtube_fetcher.py:77-83 | 122 seconds (`PT2M2S`) displays as `00:02:02`. |
| Statistics.Batches | youtube_fetcher.py:92-95 | There are ceil(n/50) batches. Batch k is the slice `ids[50k : min(50k+50, n)]`. Every batch but the last has exactly 50 ids, and none is empty. |
| Statistics.BatchesConcat | youtube_fetcher.py:92-95 | Concatenating the batches gives back the id list. |
| Statistics.Records | youtube_fetcher.py:97-105 | One record per returned item, in response order. video_id is the item's id. Each counter is the reported value, or 0 when absent. duration is the normalised display of the item's duration. |
| Statistics.FetchBatches | youtube_fetcher.py:92-108 | Succeeds exactly when every batch request is answered. A failure carries the error of the first failed batch, all batches before it having been answered. |
| Statistics.FetchVideoStatistics | youtube_fetcher.py:88-109 | Succeeds exactly when every batch of the id list is answered. A failure carries the error of the first failed batch. |
| Statistics.StatisticsSucceed | youtube_fetcher.py:92-105 | When every batch is answered, the result is one record per answered item, batch after batch, each batch in response order. |
| Statistics.StatisticsAbort | youtube_fetcher.py:92-108 | The first failed batch makes the whole fetch fail with its error; no partial list is returned. |
| Statistics.OnlyBatchesRequested | youtube_fetcher.py:92-96 | The result depends only on the answers to the batch requests. With no ids, no request is made and the result is empty. |
| Statistics.HundredTwentyIds | youtube_fetcher.py:92-95 | 120 ids go out as three requests of 50, 50 and 20 ids. |
| Comments.ReplyRecords | youtube_fetcher.py:140-155 | One record per reply, in order. Each carries the reply's id and snippet fields, the video id, and reply_to set to the parent's text. |
| Comments.ThreadRecords | youtube_fetcher.py:122-155 | A thread with r replies gives exactly 1 + r records. The first is the top-level comment with reply_to None; record j is reply j-1 with reply_to equal to the top-level textDisplay. |
| Comments.PageRecords | youtube_fetcher.py:122-155 | A page of threads gives one record per thread plus one per reply, and every record carries the given video id. |
| Comments.ParentsAppend | youtube_fetcher.py:120-156 | Joining two record lists in which every reply follows a parent gives a list in which every reply follows a parent. |
| Comments.RepliesFollowTheirParent | youtube_fetcher.py:125-155 | In the records of one page, every record with a reply_to text comes after a top-level record with that text. |
| Comments.FetchedRepliesFollowTheirParent | youtube_fetcher.py:120-156 | Across all pages a video's fetch returns, every record with a reply_to text comes after a top-level record with that text. |
| Comments.FetchFrom | youtube_fetcher.py:120-156 | The capped loop from a given count: every record carries the video id, a failure is always a failed request, and a count already at the cap requests nothing. |
| Comments.FetchComments | youtube_fetcher.py:111-160 | Every returned record carries the requested video id. |
| Comments.CommentsCharacterised | youtube_fetcher.py:120-156 | The fetch yields cs exactly when cs is the records of pages 1..n for some n, in order, and those pages are exactly the ones the capped loop requests. Each page was requested while the count was below the cap and followed a cursor. The last page ended the chain or reached the cap. |
| Comments.NonPositiveCapFetchesNothing | youtube_fetcher.py:120 | A cap of 0 or less requests no page and yields no records, whatever the endpoint would answer. |
| Comments.ShortResultConsumedAllPages | youtube_fetcher.py:120-156 | A result shorter than the cap means the cursor chain was followed to its end: the result is the records of every page. |
| Comments.OvershootOnlyWithinLastPage | youtube_fetcher.py:120-156 | Before the last page fetched was requested, fewer records than the cap were held. That last page is kept whole. |
| Comments.OvershootBound | youtube_fetcher.py:120-156 | If no page gives more than b records, the result has fewer than cap + b records. |
| Comments.CommentsAbort | youtube_fetcher.py:120-159 | A failed request reached while below the cap makes the fetch fail with that error; no partial list is returned. |
| Merge.FirstMatch | youtube_fetcher.py:185 | Finds the first statistics record with the video's id, or reports that none has it. |
| Merge.Enrich | youtube_fetcher.py:185 | A row keeps its listing fields. It gains statistics exactly when some record carries its id, and then the first such record. |
| Merge.MergeStats | youtube_fetcher.py:184-185 | Same length and order as the videos. Each row keeps its listing fields. A row gains statistics exactly when some record matches its id, and then gains the first such record. |
| Merge.MergeWithoutStats | youtube_fetcher.py:184-185 | Merging with no statistics leaves every video as listed and adds no statistics fields. |
| Merge.MergeIsKeyedLookup | youtube_fetcher.py:185 | With distinct statistics ids, a video gets record s exactly when s is in the list and carries the video's id, as a keyed lookup would. |
| Merge.MergeIsPointwise | youtube_fetcher.py:184-185 | Each row depends only on its own video: changing other videos does not affect it. |
| Pipeline.AllComments | youtube_fetcher.py:188-190 | Succeeds exactly when every video's comment fetch succeeds, and then is each video's records joined in id order. A failure carries the error of the first video whose fetch failed. Each comment belongs to one of the ids. |
| Pipeline.Collect | youtube_fetcher.py:179-193 | In the exported data, every comment row's video id is the id of some video row. |
| Pipeline.Run | youtube_fetcher.py:175-193 | A URL without an `@` handle fails the run with InvalidInput. In a successful run, every comment row belongs to an exported video. |
| Pipeline.RunRows | youtube_fetcher.py:179-185 | A successful run has one video row per listed video, in listing order, each holding that video's listing fields. |
| Pipeline.RunIsCollect | youtube_fetcher.py:178-193 | Once the channel is resolved, the run's outcome is the collection for that channel. |
| Pipeline.RunExports | youtube_fetcher.py:179-193 | When every stage succeeds, the run exports the merged rows of the listing and statistics, and every listed video's comments joined in listing order. |
| Pipeline.ListingFailureFailsRun | youtube_fetcher.py:178-181 | When the listing fails, the run fails with the listing's error and nothing is exported. |
| Pipeline.StatisticsFailureFailsRun | youtube_fetcher.py:179-181 | When a statistics batch fails, the run fails with that error and nothing is exported. |
| Pipeline.CommentsFailureFailsRun | youtube_fetcher.py:188-190 | When a video's comment fetch fails, the run fails with the error of the first such video and nothing is exported. |

## Left out

- Configuration loading and the module-level key, service name and version (youtube_fetcher.py:12-17): file I/O.
- Building the API client and executing requests (youtube_fetcher.py:177 and every `execute`/`list_next` call): network calls. They are replaced by given answers.
- A request that has no given answer fails as `Unanswered`. This error exists only in the model, because the real endpoint always answers.
- The cursor rule (`HasNext`) follows the client library: there is a next page only when the token is present and non-empty. The client library is not part of this model.
- ISO 8601 duration parsing by `isodate`, the float `total_seconds()` and its `int` truncation (youtube_fetcher.py:79-80): an external library. The model's input is the parsed whole number of seconds, or a parse failure. Negative, year and month durations are out of scope.
- `urllib.parse.urlparse` is a library. The model reproduces its cleaning of the URL, its splitting of scheme, `//authority`, `?query` and `#fragment`, and its `;params` split for the schemes in `uses_params`, as recent Python 3 releases do these.
- Resolver.UrlPath: does not model the ValueErrors `urlsplit` raises for some hosts. These are an unbalanced or invalid bracketed host, and the check that a non-ASCII host does not normalise (NFKC) into `/`, `?`, `#`, `@` or `:`. For such URLs Python fails the resolution, while the model still returns a path.
- The spreadsheet export through pandas/openpyxl (youtube_fetcher.py:163-172): library and file I/O. The pipeline returns the two tables it would write.
- Logging, `input()` and the catch-all in the entry point (youtube_fetcher.py:194-198): side effects only. The pipeline returns the error instead of logging it.
- Exception types and messages. Errors are the `FetchError` values InvalidInput, NotFound and Upstream.
- KeyErrors from response items that lack a documented field: items are assumed to carry the fields the API documents.
- Request hints that only the server interprets (`part`, `maxResults=50` and `maxResults=100` as page sizes): the given pages are whatever the server returned. The channel search request records its query, `maxResults=1` and type `channel`.
- The comma-joined `id` parameter: the statistics endpoint receives the batch as a list of ids.
- The statistics endpoint and each video's comment pages are functions of the request, so two identical requests get the same answer. For example, with 100 copies of one id, the two batches are equal. So the model cannot express a repeated batch failing after an identical earlier batch succeeded, and `Statistics.StatisticsAbort` says nothing about that case.
- Counter values are kept as the text the API reports (`Reported`). An absent counter is the integer 0 (`DefaultZero`), just as the source mixes a string value with an integer default.
