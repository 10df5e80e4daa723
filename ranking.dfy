/** The ranking rules of `get_top_videos`: on a refresh, the fetched videos are sorted
    by views (stably, descending) and cut to three, and one history row per ranked video
    is recorded; on a cache hit, each cached video is compared with the three newest
    history rows that are at least a week old. */
module Ranking {
  import opened Common
  import opened Ordering
  import opened Freshness

  const TopCount: nat := 3

  /** A video as the API returns it (search result joined with its statistics). */
  datatype FetchedVideo = FetchedVideo(
    videoId: string, title: string, publishedAt: int, views: int, likes: int, comments: int)

  /** `rank_change`: 🆕, "⬆️ +d", "⬇️ d" (d negative) or ➡️. */
  datatype RankChange = New | Up(diff: int) | Down(diff: int) | Unchanged

  /** An entry of the top list, as cached and returned. */
  datatype TopVideo = TopVideo(
    videoId: string, title: string, publishedAt: int,
    views: int, likes: int, comments: int,
    rankChange: RankChange, viewsIncrease: int, likesIncrease: int, commentsIncrease: int)

  /** A row of `top_videos_history`. */
  datatype HistoryRow = HistoryRow(videoId: string, rank: int, views: int, likes: int, comments: int, timestamp: int)

  /** A value of the `last_week_data` dictionary. */
  datatype PriorStats = PriorStats(rank: int, views: int, likes: int, comments: int)

  function Views(v: TopVideo): int { v.views }

  function Stamp(r: HistoryRow): int { r.timestamp }

  // ------------------------------------------------------------------ refresh path

  /** A freshly fetched video: marked new, with no increases. */
  function FreshEntry(v: FetchedVideo): TopVideo
  {
    TopVideo(v.videoId, v.title, v.publishedAt, v.views, v.likes, v.comments, New, 0, 0, 0)
  }

  function Entries(fetched: seq<FetchedVideo>): (r: seq<TopVideo>)
    ensures |r| == |fetched| && forall i :: 0 <= i < |r| ==> r[i] == FreshEntry(fetched[i])
  {
    seq(|fetched|, i requires 0 <= i < |fetched| => FreshEntry(fetched[i]))
  }

  /** `videos.sort(key=views, reverse=True); videos[:3]`. */
  function TopVideos(fetched: seq<FetchedVideo>): seq<TopVideo>
  {
    TopN(Entries(fetched), Views, TopCount)
  }

  /** The top list holds min(3, n) of the fetched videos, never padded, by descending
      views, each marked new with zero increases; no video left out has more views than
      any ranked one; and among equal view counts the fetched order is kept. */
  lemma TopVideosSpec(fetched: seq<FetchedVideo>)
    ensures var top := TopVideos(fetched);
      && |top| == Min(TopCount, |fetched|)
      && SortedDesc(top, Views)
      && multiset(top) <= multiset(Entries(fetched))
      && (forall i :: 0 <= i < |top| ==>
            (top[i].rankChange == New && top[i].viewsIncrease == 0 &&
             top[i].likesIncrease == 0 && top[i].commentsIncrease == 0))
      && (forall v :: v in multiset(Entries(fetched)) - multiset(top) ==>
            forall i :: 0 <= i < |top| ==> top[i].views >= v.views)
      && (forall k :: KeyFilter(top, Views, k) <= KeyFilter(Entries(fetched), Views, k))
  {
    var entries := Entries(fetched);
    var top := TopVideos(fetched);
    TopNSpec(entries, Views, TopCount);
    forall i | 0 <= i < |top|
      ensures top[i].rankChange == New && top[i].viewsIncrease == 0 &&
              top[i].likesIncrease == 0 && top[i].commentsIncrease == 0
    {
      assert top[i] in multiset(entries);
    }
    forall k ensures KeyFilter(top, Views, k) <= KeyFilter(entries, Views, k) {
      TopNStable(entries, Views, TopCount, k);
    }
  }

  /** The history rows a refresh appends: ranks 1..k in list order, all stamped `now`. */
  function HistoryRows(top: seq<TopVideo>, now: int): (rows: seq<HistoryRow>)
    ensures |rows| == |top|
    ensures forall i :: 0 <= i < |top| ==> rows[i] == RankRow(top[i], i + 1, now)
  {
    seq(|top|, i requires 0 <= i < |top| => RankRow(top[i], i + 1, now))
  }

  function RankRow(v: TopVideo, rank: int, now: int): HistoryRow
  {
    HistoryRow(v.videoId, rank, v.views, v.likes, v.comments, now)
  }

  // ------------------------------------------------------------------ cache-hit path

  /** `WHERE timestamp <= datetime('now', '-7 days')`, in table order. */
  function OldRows(history: seq<HistoryRow>, now: int): (r: seq<HistoryRow>)
    ensures forall x :: x in r <==> x in history && x.timestamp <= now - Week
  {
    if history == [] then []
    else (if history[0].timestamp <= now - Week then [history[0]] else []) + OldRows(history[1..], now)
  }

  /** `... ORDER BY timestamp DESC LIMIT 3`; rows with equal stamps keep table order. */
  function PriorRows(history: seq<HistoryRow>, now: int): seq<HistoryRow>
  {
    TopN(OldRows(history, now), Stamp, TopCount)
  }

  /** The prior rows are the (at most three) newest rows at least a week old, newest
      first: every other such row is no newer than any of them. */
  lemma PriorRowsSpec(history: seq<HistoryRow>, now: int)
    ensures var prior := PriorRows(history, now);
      && |prior| == Min(TopCount, |OldRows(history, now)|)
      && (forall i :: 0 <= i < |prior| ==> prior[i] in history && prior[i].timestamp <= now - Week)
      && SortedDesc(prior, Stamp)
      && (forall x :: x in multiset(OldRows(history, now)) - multiset(prior) ==>
            forall i :: 0 <= i < |prior| ==> prior[i].timestamp >= x.timestamp)
  {
    var old_ := OldRows(history, now);
    var prior := PriorRows(history, now);
    TopNSpec(old_, Stamp, TopCount);
    forall i | 0 <= i < |prior| ensures prior[i] in history && prior[i].timestamp <= now - Week {
      assert prior[i] in multiset(old_);
    }
  }

  function PriorOf(r: HistoryRow): PriorStats
  {
    PriorStats(r.rank, r.views, r.likes, r.comments)
  }

  /** `{row[0]: {...} for row in rows}`: a later row overwrites an earlier one with the
      same video id, so every id maps to its last row. */
  function PriorMap(rows: seq<HistoryRow>): map<string, PriorStats>
  {
    if rows == [] then map[]
    else PriorMap(rows[..|rows| - 1])[rows[|rows| - 1].videoId := PriorOf(rows[|rows| - 1])]
  }

  /** The map has an entry for exactly the ids among the rows. */
  lemma {:induction false} PriorMapKeys(rows: seq<HistoryRow>)
    ensures forall i :: 0 <= i < |rows| ==> rows[i].videoId in PriorMap(rows)
    ensures forall id :: id in PriorMap(rows) ==> exists i :: 0 <= i < |rows| && rows[i].videoId == id
  {
    if rows != [] {
      var init := rows[..|rows| - 1];
      PriorMapKeys(init);
      forall i | 0 <= i < |rows| - 1 ensures rows[i].videoId in PriorMap(rows) {
        assert init[i] == rows[i];
      }
      forall id | id in PriorMap(rows) ensures exists i :: 0 <= i < |rows| && rows[i].videoId == id {
        if id != rows[|rows| - 1].videoId {
          var i :| 0 <= i < |init| && init[i].videoId == id;
          assert rows[i] == init[i];
        }
      }
    }
  }

  /** Each entry is made from the last row with that id. */
  lemma {:induction false} PriorMapLast(rows: seq<HistoryRow>, i: int)
    requires 0 <= i < |rows|
    requires forall j :: i < j < |rows| ==> rows[j].videoId != rows[i].videoId
    ensures rows[i].videoId in PriorMap(rows) && PriorMap(rows)[rows[i].videoId] == PriorOf(rows[i])
  {
    PriorMapKeys(rows);
    var init := rows[..|rows| - 1];
    if i < |rows| - 1 {
      assert init[i] == rows[i];
      forall j | i < j < |init| ensures init[j].videoId != init[i].videoId {
        assert init[j] == rows[j];
      }
      PriorMapLast(init, i);
    }
  }

  /** `rank_change` for the video at 1-based `position`. */
  function RankChangeFor(prior: map<string, PriorStats>, videoId: string, position: int): RankChange
  {
    if videoId !in prior then New
    else
      var diff := prior[videoId].rank - position;
      if diff > 0 then Up(diff) else if diff < 0 then Down(diff) else Unchanged
  }

  /** The rank a change says the video had a week ago, if it was ranked then. */
  function PriorRank(change: RankChange, position: int): Option<int>
  {
    match change
    case New => None
    case Up(d) => Some(position + d)
    case Down(d) => Some(position + d)
    case Unchanged => Some(position)
  }

  /** A change is NEW exactly when the video has no prior row; otherwise it records the
      prior rank exactly, and it is up, down or unchanged as the prior rank is below,
      above or equal to the current position. */
  lemma RankChangeSpec(prior: map<string, PriorStats>, videoId: string, position: int)
    ensures var c := RankChangeFor(prior, videoId, position);
      && (c.New? <==> videoId !in prior)
      && (videoId in prior ==> PriorRank(c, position) == Some(prior[videoId].rank))
      && (c.Up? <==> videoId in prior && prior[videoId].rank > position)
      && (c.Down? <==> videoId in prior && prior[videoId].rank < position)
      && (c.Unchanged? <==> videoId in prior && prior[videoId].rank == position)
      && (c.Up? ==> c.diff > 0) && (c.Down? ==> c.diff < 0)
  {
  }

  /** The prior value of a metric, 0 for a video without a prior row. */
  function PriorOrZero(prior: map<string, PriorStats>, videoId: string): PriorStats
  {
    if videoId in prior then prior[videoId] else PriorStats(0, 0, 0, 0)
  }

  /** One step of the annotation loop, for the cached video at 1-based `position`. */
  function Annotated(v: TopVideo, position: int, prior: map<string, PriorStats>,
                     publishDates: map<string, int>, now: int): TopVideo
  {
    var last := PriorOrZero(prior, v.videoId);
    v.(publishedAt := if v.videoId in publishDates then publishDates[v.videoId] else now,
       rankChange := RankChangeFor(prior, v.videoId, position),
       viewsIncrease := v.views - last.views,
       likesIncrease := v.likes - last.likes,
       commentsIncrease := v.comments - last.comments)
  }

  function AnnotateAll(vs: seq<TopVideo>, prior: map<string, PriorStats>,
                       publishDates: map<string, int>, now: int): (r: seq<TopVideo>)
    ensures |r| == |vs|
    ensures forall i :: 0 <= i < |vs| ==> r[i] == Annotated(vs[i], i + 1, prior, publishDates, now)
  {
    seq(|vs|, i requires 0 <= i < |vs| => Annotated(vs[i], i + 1, prior, publishDates, now))
  }

  /** Annotation keeps each video and its metrics, and adds what changed: the prior
      metrics plus the increases give the current metrics back, and the rank change is
      read against the video's 1-based position. */
  lemma AnnotateAllSpec(vs: seq<TopVideo>, prior: map<string, PriorStats>,
                        publishDates: map<string, int>, now: int)
    ensures var r := AnnotateAll(vs, prior, publishDates, now);
      forall i :: 0 <= i < |vs| ==>
        var id, last := vs[i].videoId, PriorOrZero(prior, vs[i].videoId);
        && r[i].videoId == id && r[i].title == vs[i].title
        && r[i].views == vs[i].views && r[i].likes == vs[i].likes && r[i].comments == vs[i].comments
        && last.views + r[i].viewsIncrease == vs[i].views
        && last.likes + r[i].likesIncrease == vs[i].likes
        && last.comments + r[i].commentsIncrease == vs[i].comments
        && (r[i].rankChange.New? <==> id !in prior)
        && (id in prior ==> PriorRank(r[i].rankChange, i + 1) == Some(prior[id].rank))
        && r[i].publishedAt == (if id in publishDates then publishDates[id] else now)
  {
    var r := AnnotateAll(vs, prior, publishDates, now);
    forall i | 0 <= i < |vs|
      ensures PriorRank(r[i].rankChange, i + 1) == (if vs[i].videoId in prior then Some(prior[vs[i].videoId].rank) else None)
    {
      RankChangeSpec(prior, vs[i].videoId, i + 1);
    }
  }

  /** A video ranked second now with no row a week ago is NEW; one ranked first a week
      ago and third now has dropped two places. */
  lemma RankMovementExample(x: TopVideo, y: TopVideo, z: TopVideo, now: int)
    requires x.videoId == "x" && y.videoId == "y" && z.videoId == "z"
    ensures var prior := PriorMap([HistoryRow("z", 1, 10, 1, 0, now - Week), HistoryRow("w", 2, 5, 0, 0, now - Week)]);
      var r := AnnotateAll([x, y, z], prior, map[], now);
      r[1].rankChange == New && r[2].rankChange == Down(-2)
  {
    var rows := [HistoryRow("z", 1, 10, 1, 0, now - Week), HistoryRow("w", 2, 5, 0, 0, now - Week)];
    assert rows[..1][..0] == [];
    assert rows[..1] == [rows[0]];
    assert rows[1].videoId == "w" && rows[0].videoId == "z";
    assert PriorMap(rows[..1]) == map["z" := PriorOf(rows[0])];
    assert PriorMap(rows) == PriorMap(rows[..1])["w" := PriorOf(rows[1])];
  }
}
