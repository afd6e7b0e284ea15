/** The merge in the entry point: each listed video enriched with the first
    statistics record carrying its id. */
module Merge {
  import opened Wrappers
  import Listing
  import Statistics

  /** A row of the video sheet: the listing fields, plus the statistics fields
      when a matching statistics record was found. */
  datatype VideoRow = VideoRow(video: Listing.VideoRecord, stats: Option<Statistics.StatRecord>)

  /** The position of the first statistics record for `id`, by linear search. */
  function FirstMatch(stats: seq<Statistics.StatRecord>, id: string): (r: Option<nat>)
    ensures r.Some? ==> r.value < |stats| && stats[r.value].videoId == id
    ensures r.Some? ==> forall j :: 0 <= j < r.value ==> stats[j].videoId != id
    ensures r.None? ==> forall j :: 0 <= j < |stats| ==> stats[j].videoId != id
  {
    if |stats| == 0 then None
    else if stats[0].videoId == id then Some(0)
    else match FirstMatch(stats[1..], id)
      case None => None
      case Some(i) => Some(i + 1)
  }

  /** The row of one video: its listing fields, and the first statistics record with its id. */
  function Enrich(video: Listing.VideoRecord, stats: seq<Statistics.StatRecord>): (row: VideoRow)
    ensures row.video == video
    ensures row.stats.None? <==> forall j :: 0 <= j < |stats| ==> stats[j].videoId != video.videoId
    ensures row.stats.Some? ==>
              exists j :: 0 <= j < |stats| && row.stats.value == stats[j] && stats[j].videoId == video.videoId
                          && forall j' :: 0 <= j' < j ==> stats[j'].videoId != video.videoId
  {
    match FirstMatch(stats, video.videoId)
    case None => VideoRow(video, None)
    case Some(i) => VideoRow(video, Some(stats[i]))
  }

  /** Every video, in order, with its first matching statistics record or none. */
  function MergeStats(videos: seq<Listing.VideoRecord>, stats: seq<Statistics.StatRecord>): (rows: seq<VideoRow>)
    ensures |rows| == |videos|
    ensures forall i :: 0 <= i < |videos| ==> rows[i].video == videos[i]
    ensures forall i :: 0 <= i < |videos| ==>
              (rows[i].stats.None? <==> forall j :: 0 <= j < |stats| ==> stats[j].videoId != videos[i].videoId)
    ensures forall i :: 0 <= i < |videos| && rows[i].stats.Some? ==>
              exists j :: 0 <= j < |stats| && rows[i].stats.value == stats[j] && stats[j].videoId == videos[i].videoId
                          && forall j' :: 0 <= j' < j ==> stats[j'].videoId != videos[i].videoId
  {
    if |videos| == 0 then [] else [Enrich(videos[0], stats)] + MergeStats(videos[1..], stats)
  }

  /** With no statistics, every video is kept as listed and gains no statistics fields. */
  lemma MergeWithoutStats(videos: seq<Listing.VideoRecord>)
    ensures MergeStats(videos, []) == seq(|videos|, i requires 0 <= i < |videos| => VideoRow(videos[i], None))
  {
  }

  predicate DistinctIds(stats: seq<Statistics.StatRecord>) {
    forall i, j :: 0 <= i < j < |stats| ==> stats[i].videoId != stats[j].videoId
  }

  /** With distinct statistics ids, first-match is the same as keyed lookup: a video
      gets a record exactly when the record is in the list and carries its id. */
  lemma {:induction false} MergeIsKeyedLookup(videos: seq<Listing.VideoRecord>, stats: seq<Statistics.StatRecord>,
                                              i: nat, s: Statistics.StatRecord)
    requires DistinctIds(stats) && i < |videos|
    ensures MergeStats(videos, stats)[i].stats == Some(s) <==> s in stats && s.videoId == videos[i].videoId
  {
    var rows := MergeStats(videos, stats);
    if s in stats && s.videoId == videos[i].videoId {
      var j :| 0 <= j < |stats| && stats[j] == s;
      assert rows[i].stats.Some?;
      var j' :| 0 <= j' < |stats| && rows[i].stats.value == stats[j'] && stats[j'].videoId == videos[i].videoId;
      assert j' == j;
    }
  }

  /** Each row depends on its own video only: changing other videos leaves it alone. */
  lemma MergeIsPointwise(videos: seq<Listing.VideoRecord>, others: seq<Listing.VideoRecord>,
                         stats: seq<Statistics.StatRecord>, i: nat)
    requires i < |videos| && i < |others| && videos[i] == others[i]
    ensures MergeStats(videos, stats)[i] == MergeStats(others, stats)[i]
  {
    RowIsEnrich(videos, stats, i);
    RowIsEnrich(others, stats, i);
  }

  lemma {:induction false} RowIsEnrich(videos: seq<Listing.VideoRecord>, stats: seq<Statistics.StatRecord>, i: nat)
    requires i < |videos|
    ensures MergeStats(videos, stats)[i] == Enrich(videos[i], stats)
  {
    if i > 0 {
      RowIsEnrich(videos[1..], stats, i - 1);
    }
  }
}
