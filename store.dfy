/** The SQLite store `youtube_stats.db` as an object whose fields are its tables, and
    the operations of the bot that read and write them: the top-video refresh and cache
    hit, the cached channel name, the title-analysis report with its keyword upserts,
    and the cached reads used by the slash commands. Every clock reading, API result
    and the report month are parameters. */
module Store {
  import opened Common
  import opened Ordering
  import opened Freshness
  import opened ChannelStats
  import opened Ranking
  import opened TitleAnalysis
  import opened KeywordPerformance

  /** A row of `channel_info`, keyed by channel id. */
  datatype ChannelInfo = ChannelInfo(name: string, lastUpdated: int)

  /** A row of `video_stats`, keyed by video id. */
  datatype VideoRow = VideoRow(title: string, publishedAt: int, views: int, likes: int, comments: int, lastUpdated: int)

  /** The singleton row of `top_videos_cache`: when it was written and the top list. */
  datatype CacheRow = CacheRow(lastUpdated: int, videos: seq<TopVideo>)

  /** A video as the cached reads return it. */
  datatype RecentVideo = RecentVideo(videoId: string, title: string, publishedAt: int, views: int, likes: int, comments: int)

  /** What `get_cached_stats` returns: the newest snapshot in the window (its stamp is
      the `cache_age`), the channel name, and the newest video of the last day if any. */
  datatype CachedStats = CachedStats(snapshot: Snapshot, channelName: string, latestVideo: Option<RecentVideo>)

  /** What `get_title_analysis_report` returns. */
  datatype TitleReport = TitleReport(patternType: string, effectivenessScore: int, keywords: seq<string>, trending: seq<Trend>)

  function RecentOf(id: string, row: VideoRow): RecentVideo
  {
    RecentVideo(id, row.title, row.publishedAt, row.views, row.likes, row.comments)
  }

  function PublishedKey(v: RecentVideo): int { v.publishedAt }

  predicate PublishedNoEarlier(a: VideoRow, b: VideoRow) { a.publishedAt >= b.publishedAt }

  /** `{video_id: published_at}` over `video_stats`. */
  function PublishDates(videos: map<string, VideoRow>): (m: map<string, int>)
    ensures m.Keys == videos.Keys && forall id :: id in m ==> m[id] == videos[id].publishedAt
  {
    map id | id in videos :: videos[id].publishedAt
  }

  /** The first cache row written at or after `since`, in table order. */
  function FirstWrittenSince(rows: seq<CacheRow>, since: int): (r: Option<nat>)
    ensures r.None? <==> forall i :: 0 <= i < |rows| ==> rows[i].lastUpdated < since
    ensures r.Some? ==>
      (r.value < |rows| && rows[r.value].lastUpdated >= since &&
       forall i :: 0 <= i < r.value ==> rows[i].lastUpdated < since)
  {
    if rows == [] then None
    else if rows[0].lastUpdated >= since then Some(0)
    else match FirstWrittenSince(rows[1..], since)
      case None => None
      case Some(i) => Some(i + 1)
  }

  class Database {
    var channelStats: seq<Snapshot>
    var channelInfo: map<string, ChannelInfo>
    var videoStats: map<string, VideoRow>
    var topCache: seq<CacheRow>
    var topHistory: seq<HistoryRow>
    var titleAnalysis: map<string, Analysis>
    var keywordPerformance: map<Key, KeywordStats>

    /** `init_db` on a new database file: every table is created empty. */
    constructor ()
      ensures channelStats == [] && channelInfo == map[] && videoStats == map[]
      ensures topCache == [] && topHistory == [] && titleAnalysis == map[] && keywordPerformance == map[]
    {
      channelStats := [];
      channelInfo := map[];
      videoStats := map[];
      topCache := [];
      topHistory := [];
      titleAnalysis := map[];
      keywordPerformance := map[];
    }

    /** The cache row is used when it exists and is younger than a week. */
    predicate TopCacheHit(now: int)
      reads this
    {
      |topCache| > 0 && FreshStrict(topCache[0].lastUpdated, now, Week)
    }

    /** `get_top_videos`. On a cache hit the cached list is annotated against the history
        of a week ago and nothing is written; otherwise `fetched` (the API's videos) is
        ranked, one history row per ranked video is appended with ranks 1..k, and the
        cache table is emptied and given the one new row. */
    method GetTopVideos(fetched: seq<FetchedVideo>, now: int) returns (videos: seq<TopVideo>)
      modifies this`topCache, this`topHistory
      ensures old(TopCacheHit(now)) ==>
        && videos == AnnotateAll(old(topCache)[0].videos, PriorMap(PriorRows(old(topHistory), now)),
                                 PublishDates(videoStats), now)
        && topCache == old(topCache) && topHistory == old(topHistory)
      ensures !old(TopCacheHit(now)) ==>
        && videos == TopVideos(fetched)
        && topHistory == old(topHistory) + HistoryRows(videos, now)
        && topCache == [CacheRow(now, videos)]
        && (forall later :: now <= later < now + Week ==> TopCacheHit(later))
        && CachedTopVideos(12, now) == Some(videos)
    {
      if TopCacheHit(now) {
        videos := AnnotateCached(topCache[0].videos, PriorMap(PriorRows(topHistory, now)), PublishDates(videoStats), now);
        return;
      }
      videos := TopVideos(fetched);
      var rows := HistoryRows(videos, now);
      var i := 0;
      while i < |videos|
        invariant 0 <= i <= |videos|
        invariant topHistory == old(topHistory) + rows[..i]
        invariant topCache == old(topCache)
      {
        assert rows[..i + 1] == rows[..i] + [rows[i]];
        topHistory := topHistory + [RankRow(videos[i], i + 1, now)];
        i := i + 1;
      }
      assert rows[..|videos|] == rows;
      topCache := [];
      topCache := topCache + [CacheRow(now, videos)];
    }

    /** The cache-hit loop, which rewrites each cached video in place. */
    static method AnnotateCached(cached: seq<TopVideo>, prior: map<string, PriorStats>,
                                 publishDates: map<string, int>, now: int) returns (videos: seq<TopVideo>)
      ensures videos == AnnotateAll(cached, prior, publishDates, now)
    {
      var a := new TopVideo[|cached|](i requires 0 <= i < |cached| => cached[i]);
      for i := 0 to a.Length
        invariant forall j :: 0 <= j < i ==> a[j] == Annotated(cached[j], j + 1, prior, publishDates, now)
        invariant forall j :: i <= j < a.Length ==> a[j] == cached[j]
      {
        a[i] := Annotated(a[i], i + 1, prior, publishDates, now);
      }
      videos := a[..];
    }

    /** `get_channel_name`: the stored name while it is younger than 24 hours, otherwise
        `fetchedName` (the API's title), which replaces the row with a fresh stamp. */
    method ChannelName(channelId: string, fetchedName: string, now: int) returns (name: string)
      modifies this`channelInfo
      ensures old(channelId in channelInfo && FreshStrict(channelInfo[channelId].lastUpdated, now, Day)) ==>
        name == old(channelInfo[channelId].name) && channelInfo == old(channelInfo)
      ensures !old(channelId in channelInfo && FreshStrict(channelInfo[channelId].lastUpdated, now, Day)) ==>
        name == fetchedName && channelInfo == old(channelInfo)[channelId := ChannelInfo(fetchedName, now)]
    {
      if channelId in channelInfo && FreshStrict(channelInfo[channelId].lastUpdated, now, Day) {
        return channelInfo[channelId].name;
      }
      name := fetchedName;
      channelInfo := channelInfo[channelId := ChannelInfo(fetchedName, now)];
    }

    /** `get_title_analysis_report`: stores the title's analysis, upserts one keyword row
        per keyword for `month`, and reads the month's trending keywords. */
    method TitleAnalysisReport(videoId: string, title: string, views: int, month: string, cc: CharClasses)
      returns (report: TitleReport)
      modifies this`titleAnalysis, this`keywordPerformance
      ensures var a := AnalyzeTitle(title, cc);
        && titleAnalysis == old(titleAnalysis)[videoId := a]
        && keywordPerformance == UpsertAll(old(keywordPerformance), a.keywords, month, views)
        && report.patternType == a.patternType && report.effectivenessScore == a.effectivenessScore
        && report.keywords == a.keywords
        && IsTrending(keywordPerformance, month, report.trending)
    {
      var a := AnalyzeTitle(title, cc);
      titleAnalysis := titleAnalysis[videoId := a];
      UpsertKeywords(a.keywords, month, views);
      var trending := Trending(keywordPerformance, month);
      report := TitleReport(a.patternType, a.effectivenessScore, a.keywords, trending);
    }

    /** The keyword loop: one upsert per keyword, in order. */
    method UpsertKeywords(keywords: seq<string>, month: string, views: int)
      modifies this`keywordPerformance
      ensures keywordPerformance == UpsertAll(old(keywordPerformance), keywords, month, views)
    {
      for i := 0 to |keywords|
        invariant keywordPerformance == UpsertAll(old(keywordPerformance), keywords[..i], month, views)
      {
        assert keywords[..i + 1][..i] == keywords[..i];
        keywordPerformance := Upsert(keywordPerformance, keywords[i], month, views);
      }
      assert keywords[..|keywords|] == keywords;
    }

    /** `get_cached_stats`: nothing when the channel has no name row or no snapshot is in
        the window; otherwise the newest snapshot in the window with the channel name and
        the newest video published within the last day, if any. */
    method GetCachedStats(channelId: string, maxAgeHours: int, now: int) returns (r: Option<CachedStats>)
      ensures r.None? <==>
        (channelId !in channelInfo || forall s :: s in channelStats ==> !WithinWindow(s.timestamp, now, maxAgeHours * Hour))
      ensures r.Some? ==>
        && channelId in channelInfo && r.value.channelName == channelInfo[channelId].name
        && r.value.snapshot in channelStats && WithinWindow(r.value.snapshot.timestamp, now, maxAgeHours * Hour)
        && (forall s :: s in channelStats && WithinWindow(s.timestamp, now, maxAgeHours * Hour) ==>
              s.timestamp <= r.value.snapshot.timestamp)
        && (r.value.latestVideo.None? <==>
              forall id :: id in videoStats ==> !PublishedWithinDay(videoStats[id].publishedAt, now))
        && (r.value.latestVideo.Some? ==>
              var v := r.value.latestVideo.value;
              && v.videoId in videoStats && v == RecentOf(v.videoId, videoStats[v.videoId])
              && PublishedWithinDay(v.publishedAt, now)
              && forall id :: id in videoStats && PublishedWithinDay(videoStats[id].publishedAt, now) ==>
                   videoStats[id].publishedAt <= v.publishedAt)
    {
      var inWindow := Since(channelStats, now - maxAgeHours * Hour);
      if channelId !in channelInfo || inWindow == [] {
        if channelId in channelInfo {
          forall s | s in channelStats ensures !WithinWindow(s.timestamp, now, maxAgeHours * Hour) {
            assert s !in inWindow;
          }
        }
        return None;
      }
      var newest := Latest(inWindow).value;
      var recent := set id | id in videoStats && PublishedWithinDay(videoStats[id].publishedAt, now);
      var latest: Option<RecentVideo> := None;
      if recent != {} {
        ghost var best := MaximalExists(recent, videoStats, PublishedNoEarlier);
        var id :| id in recent && forall o :: o in recent ==> PublishedNoEarlier(videoStats[id], videoStats[o]);
        latest := Some(RecentOf(id, videoStats[id]));
        forall o | o in videoStats && PublishedWithinDay(videoStats[o].publishedAt, now)
          ensures videoStats[o].publishedAt <= videoStats[id].publishedAt
        {
          assert o in recent;
        }
      } else {
        forall o | o in videoStats ensures !PublishedWithinDay(videoStats[o].publishedAt, now) {
          assert o !in recent;
        }
      }
      r := Some(CachedStats(newest, channelInfo[channelId].name, latest));
    }

    /** `get_cached_videos("top")`: the videos of the first cache row written within the
        last `maxAgeHours` hours, if there is one. */
    function CachedTopVideos(maxAgeHours: int, now: int): (r: Option<seq<TopVideo>>)
      reads this
      ensures r.None? <==> forall i :: 0 <= i < |topCache| ==> !WithinWindow(topCache[i].lastUpdated, now, maxAgeHours * Hour)
      ensures r.Some? ==> exists i :: (0 <= i < |topCache| &&
        WithinWindow(topCache[i].lastUpdated, now, maxAgeHours * Hour) && r.value == topCache[i].videos)
    {
      match FirstWrittenSince(topCache, now - maxAgeHours * Hour)
      case None => None
      case Some(i) => Some(topCache[i].videos)
    }

    /** `get_cached_videos("recent")`: every video published within the last day whose
        row was refreshed within the last `maxAgeHours` hours, newest first, or nothing
        when there is none. */
    method CachedRecentVideos(maxAgeHours: int, now: int) returns (r: Option<seq<RecentVideo>>)
      ensures r.None? <==> RecentIds(videoStats, maxAgeHours, now) == {}
      ensures r.Some? ==>
        && SortedDesc(r.value, PublishedKey)
        && ListsExactly(videoStats, RecentIds(videoStats, maxAgeHours, now), r.value)
    {
      var matching := RecentIds(videoStats, maxAgeHours, now);
      if matching == {} {
        return None;
      }
      var rows := CollectRows(videoStats, matching);
      var sorted := SortedRecent(rows);
      SortedRecentKeepsRows(videoStats, matching, rows);
      r := Some(sorted);
    }

  }

  /** The filter of the recent-videos read. */
  predicate RecentlyRefreshed(row: VideoRow, maxAgeHours: int, now: int)
  {
    PublishedWithinDay(row.publishedAt, now) && WithinWindow(row.lastUpdated, now, maxAgeHours * Hour)
  }

  /** The videos the recent-videos read selects. */
  function RecentIds(videos: map<string, VideoRow>, maxAgeHours: int, now: int): (ids: set<string>)
    ensures ids <= videos.Keys
    ensures forall id :: id in ids <==> id in videos && RecentlyRefreshed(videos[id], maxAgeHours, now)
  {
    set id | id in videos && RecentlyRefreshed(videos[id], maxAgeHours, now)
  }

  /** The rows of `ids` are listed once each, with their ids. */
  ghost predicate ListsExactly(videos: map<string, VideoRow>, ids: set<string>, rows: seq<RecentVideo>)
    requires ids <= videos.Keys
  {
    && (forall i :: 0 <= i < |rows| ==>
          rows[i].videoId in ids && rows[i] == RecentOf(rows[i].videoId, videos[rows[i].videoId]))
    && (forall i, j :: 0 <= i < j < |rows| ==> rows[i].videoId != rows[j].videoId)
    && (forall id :: id in ids ==> exists i :: 0 <= i < |rows| && rows[i].videoId == id)
  }

  /** Reads the selected rows out one by one, in an order the engine chooses. */
  method CollectRows(videos: map<string, VideoRow>, ids: set<string>) returns (rows: seq<RecentVideo>)
    requires ids <= videos.Keys
    ensures ListsExactly(videos, ids, rows)
  {
    var left := ids;
    rows := [];
    while left != {}
      invariant left <= ids
      invariant forall i :: 0 <= i < |rows| ==>
        rows[i].videoId in ids && rows[i].videoId !in left && rows[i] == RecentOf(rows[i].videoId, videos[rows[i].videoId])
      invariant forall i, j :: 0 <= i < j < |rows| ==> rows[i].videoId != rows[j].videoId
      invariant forall id :: id in ids && id !in left ==> exists i :: 0 <= i < |rows| && rows[i].videoId == id
      decreases left
    {
      var id :| id in left;
      var next := rows + [RecentOf(id, videos[id])];
      assert next[|rows|].videoId == id;
      forall m | m in ids && m !in left - {id} ensures exists i :: 0 <= i < |next| && next[i].videoId == m {
        if m != id {
          var i :| 0 <= i < |rows| && rows[i].videoId == m;
          assert next[i] == rows[i];
        }
      }
      rows := next;
      left := left - {id};
    }
  }

  /** Sorting the collected rows lists the same rows, still once each. */
  lemma SortedRecentKeepsRows(videos: map<string, VideoRow>, ids: set<string>, rows: seq<RecentVideo>)
    requires ids <= videos.Keys && ListsExactly(videos, ids, rows)
    ensures ListsExactly(videos, ids, SortedRecent(rows))
  {
    var sorted := SortedRecent(rows);
    forall i, j | 0 <= i < j < |rows| ensures rows[i] != rows[j] {
      assert rows[i].videoId != rows[j].videoId;
    }
    PermutationKeepsDistinct(rows, sorted);
    forall i | 0 <= i < |sorted|
      ensures sorted[i].videoId in ids && sorted[i] == RecentOf(sorted[i].videoId, videos[sorted[i].videoId])
    {
      assert sorted[i] in multiset(rows);
    }
    forall i, j | 0 <= i < j < |sorted| ensures sorted[i].videoId != sorted[j].videoId {
      assert sorted[i] != sorted[j];
    }
    forall id | id in ids ensures exists i :: 0 <= i < |sorted| && sorted[i].videoId == id {
      var k :| 0 <= k < |rows| && rows[k].videoId == id;
      assert rows[k] in multiset(sorted);
    }
  }

  /** `ORDER BY published_at DESC` on collected rows: sorted, and the same rows. */
  function SortedRecent(rows: seq<RecentVideo>): (r: seq<RecentVideo>)
    ensures SortedDesc(r, PublishedKey)
    ensures multiset(r) == multiset(rows)
  {
    SortSorted(rows, PublishedKey);
    SortByKeyDesc(rows, PublishedKey)
  }

  /** The keyword rows a title report writes: one per distinct keyword of the title,
      counted once more (or starting at 1), with this video's views; others untouched. */
  lemma TitleReportKeywordRows(table: map<Key, KeywordStats>, title: string, cc: CharClasses, month: string, views: int)
    ensures var kws := AnalyzeTitle(title, cc).keywords;
      var r := UpsertAll(table, kws, month, views);
      && |kws| <= MaxKeywords
      && r.Keys == table.Keys + (set kw | kw in kws :: (kw, month))
      && (forall kw :: kw in kws ==> r[(kw, month)] == Upserted(table, (kw, month), views))
      && (forall k :: k in table && !(k.1 == month && k.0 in kws) ==> r[k] == table[k])
  {
    var kws := AnalyzeTitle(title, cc).keywords;
    AnalyzeTitleSpec(title, cc);
    UpsertAllSpec(table, kws, month, views);
  }
}
