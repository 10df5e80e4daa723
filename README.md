# youTubeRival bot core, in Dafny

`discordYoutube.py` is a Discord bot. It watches a rival YouTube channel, keeps what it
sees in a SQLite database, and posts reports. This project models the deterministic rules
inside that file and proves what they guarantee. The YouTube API, Discord, SQLite and
OpenCV are replaced by parameters and in-memory tables. Time is integer seconds in UTC.

What is modelled:

- `title_analysis.dfy` (`TitleAnalysis`) covers `analyze_title`:
  - word tokens of the lower-cased title;
  - the five most frequent tokens, in `Counter.most_common` order;
  - the three pattern checks, and `pattern_type`;
  - the length-based `effectiveness_score`.

  `\w`, `\d` and the per-character effect of `str.lower` are parameters (`CharClasses`).
- `ordering.dfy` (`Ordering`) is a stable descending sort by an integer key, as Python's
  `sort(reverse=True)` does it. It also holds its permutation, order and stability
  lemmas, and the existence of a maximal row, which the SQL `ORDER BY … LIMIT` reads
  rely on.
- `ranking.dfy` (`Ranking`) covers the rules of `get_top_videos`:
  - on a refresh, ranking by views and the history rows that are written;
  - on a cache hit, the prior map built from the history of a week ago, and the rank
    change and metric increases of each cached video.
- `keywords.dfy` (`KeywordPerformance`) covers the `keyword_performance` upsert and the
  trending-keywords query of `get_title_analysis_report`.
- `channel_stats.dfy` (`ChannelStats`) covers `get_stats_changes` and
  `calculate_engagement_rate`.
- `freshness.dfy` (`Freshness`) holds the cache windows: the strict Python-side checks and
  the inclusive SQL-side ones. It also holds both findings below.
- `posting_pace.dfy` (`PostingPace`) covers `calculate_posting_pace`, over publish times
  listed newest first.
- `thumbnail.dfy` (`Thumbnail`) covers the geometry in `analyze_thumbnail_image` after
  contour finding: the area filter, the normalised regions, the placement label and the
  composition score.
- `store.dfy` (`Store`) models the database as a class `Database`:
  - its fields are the tables;
  - its methods are the operations that read and write them: `get_top_videos`,
    `get_channel_name`, `get_title_analysis_report`, `get_cached_stats` and
    `get_cached_videos`.

How the tables are represented:

- `channel_stats` and `top_videos_history` are sequences in insertion order.
- The tables with a primary key are maps.
- `top_videos_cache` is a sequence of rows.

Where SQL leaves the order of equal rows open, the model says so:

- on sequences, ties keep table order;
- on maps, a method picks any of the tied rows.

Two behaviours of the code are easy to misread:

- equal view counts keep their fetched order; the code has no tie-break on publish time;
- the prior rank of a cached video comes from the three newest history rows that are at
  least a week old, over all videos. It is not a lookup of each video's own history.

## Model

Specification functions without a row of their own (`ChannelStats.StatsChanges`, `Ranking.Entries`, `Ranking.TopVideos`, `Ranking.PriorRows`, `Ranking.PriorMap`, `TitleAnalysis.TopKeywords`, `TitleAnalysis.AnalyzeTitle`, `KeywordPerformance.IsTrending`, `PostingPace.Classify`, `Thumbnail.Placement`, `Thumbnail.KeptRegions`, `Freshness.FreshStrict`, `Freshness.FreshAsWritten`, `Freshness.PublishedWithinDay`, `Store.PublishDates`) appear through the rows of the lemmas and methods that state their properties.

| member | source | states |
|---|---|---|
| TitleAnalysis.Lower | discordYoutube.py:614 | the lower-cased title has the same length, and each character is the lowered character at that position |
| TitleAnalysis.RunsTokens | discordYoutube.py:614 | splitting with a run of word characters already open yields only non-empty runs of word characters |
| TitleAnalysis.RunsConcat | discordYoutube.py:614 | the runs split off, joined back together, are the open run followed by exactly the word characters of the rest of the text |
| TitleAnalysis.WordsSpec | discordYoutube.py:614 | every token is a non-empty run of word characters, and the tokens together are exactly the word characters of the text, in order |
| TitleAnalysis.RunsOfToken | discordYoutube.py:614 | a text made only of word characters extends the open run to its end, as one token |
| TitleAnalysis.RunsSplit | discordYoutube.py:614 | a non-word character closes the open run, and the text after it is split independently |
| TitleAnalysis.WordsMaximal | discordYoutube.py:614 | the tokens are the maximal runs: no tokens for the empty text, one for a text that is a single run, and a non-word character splits the text into halves tokenised independently; these equations fix the split of every text |
| TitleAnalysis.FirstIndex | discordYoutube.py:615 | the first position of a word, or the length when the word is absent |
| TitleAnalysis.Dedup | discordYoutube.py:615 | the distinct words: the same membership as the input, with no repeats |
| TitleAnalysis.DedupOrder | discordYoutube.py:615 | the distinct words are in first-occurrence order, the key order of a `Counter` |
| TitleAnalysis.TopKeywordsRanked | discordYoutube.py:627 | the ranked word list holds exactly the title's words, each before every word it outranks: more occurrences, or as many and an earlier first occurrence |
| TitleAnalysis.TopKeywordsSpec | discordYoutube.py:627 | the keywords are min(5, distinct words) distinct words of the title, in count order with ties in first-occurrence order |
| TitleAnalysis.TopKeywordsMaximal | discordYoutube.py:627 | a word is left out only when all five places are taken, and then every keyword outranks it |
| TitleAnalysis.HasNumberedMarker | discordYoutube.py:619-620 | true exactly when a '#' is immediately followed by a digit |
| TitleAnalysis.ScanBracketsSpec | discordYoutube.py:621-622 | the scan succeeds exactly when a '【' is followed later by a '】' with no line break between them |
| TitleAnalysis.HasBracketedSegment | discordYoutube.py:621-622 | true exactly when a '【' … '】' pair with no line break inside exists |
| TitleAnalysis.HasDurationMention | discordYoutube.py:623-624 | true exactly when a digit is followed by '分', or "分間" occurs |
| TitleAnalysis.PatternTypeSpec | discordYoutube.py:631 | "standard" exactly when no check fires; different sets of fired checks give different strings |
| TitleAnalysis.PatternTypeNames | discordYoutube.py:617-631 | each of the eight outcomes as its string: the fired checks' names joined by "," in the order numbered series, bracketed, duration, or "standard" when none fires |
| TitleAnalysis.PatternTypeLength | discordYoutube.py:631 | the eight outcomes have eight different lengths, so the result identifies the set of fired checks |
| TitleAnalysis.AnalyzeTitleSpec | discordYoutube.py:612-634 | the whole record: at most 5 distinct keywords, each a lower-cased word token of the title, in most-common order; every keyword scores 1.0 and nothing else is scored; the pattern type is "standard" exactly when no check fires; the score is min(100, 2·length) |
| TitleAnalysis.NumberedBracketExample | discordYoutube.py:618-631 | any title containing "【#12】" and mentioning no duration gets "numbered_series,bracketed" |
| Ordering.Insert | discordYoutube.py:479 | inserting one element adds exactly that element to the multiset |
| Ordering.SortByKeyDesc | discordYoutube.py:479 | the sort returns a permutation of its input |
| Ordering.SortSorted | discordYoutube.py:479 | the result is in descending key order |
| Ordering.SortStable | discordYoutube.py:479 | for every key, the elements with that key keep their input order |
| Ordering.SortLex | discordYoutube.py:627 | when the input is in increasing tie-break order, equal keys come out in that order |
| Ordering.TopNSpec | discordYoutube.py:479-480 | the first n of the sort are min(n, length) input elements in descending order, and no element left out has a larger key than a chosen one |
| Ordering.TopNStable | discordYoutube.py:479-480 | for every key, the chosen elements with that key are the first ones with that key in the input |
| Ordering.MaximalExists | discordYoutube.py:767-768 | every non-empty finite set of rows has one that is at least every other under a total preorder |
| Ordering.DistinctCounts | discordYoutube.py:882 | a list has no repeated element exactly when no element occurs twice in its multiset |
| Ordering.PermutationKeepsDistinct | discordYoutube.py:882 | reordering a list without repeats leaves none |
| Ranking.TopVideosSpec | discordYoutube.py:479-480 | the top list holds min(3, n) fetched videos, never padded, by descending views, each marked new with zero increases; no video left out has more views than a ranked one; equal view counts keep fetched order |
| Ranking.HistoryRows | discordYoutube.py:483-487 | one history row per ranked video, ranks 1..k in list order, with its views, likes and comments, stamped now |
| Ranking.OldRows | discordYoutube.py:375-378 | exactly the history rows at least seven days old |
| Ranking.PriorRowsSpec | discordYoutube.py:375-381 | at most three rows, all at least a week old and from the history, newest first, and no other such row is newer than a chosen one |
| Ranking.PriorMapKeys | discordYoutube.py:382-383 | the prior map has an entry for exactly the video ids among the prior rows |
| Ranking.PriorMapLast | discordYoutube.py:382-383 | each entry comes from the last row with that id, which a dict comprehension keeps |
| Ranking.RankChangeSpec | discordYoutube.py:402-412 | NEW exactly when the id has no prior row; otherwise up iff the prior rank is below the position, down iff above, unchanged iff equal; the prior rank can be read back from the change |
| Ranking.AnnotateAll | discordYoutube.py:396-422 | each cached video is annotated for its 1-based position, in list order |
| Ranking.AnnotateAllSpec | discordYoutube.py:396-422 | annotation keeps each video's id, title and metrics; prior metric (0 when absent) plus increase gives the current metric; NEW exactly when there is no prior row; the publish time comes from the video table, or now |
| Ranking.RankMovementExample | discordYoutube.py:398-412 | a video absent a week ago is NEW; one ranked first a week ago and third now shows Down(-2) |
| KeywordPerformance.UpsertAllSpec | discordYoutube.py:744-758 | for distinct keywords: each keyword's row of the month is counted once more, or starts at 1; it takes this video's views; it keeps its engagement, or starts at 0; rows are added for exactly those keys; every other row is untouched |
| KeywordPerformance.UseCountGrows | discordYoutube.py:744-758 | no upsert removes a row or lowers a use count |
| KeywordPerformance.Trending | discordYoutube.py:763-770 | min(3, rows of the month) distinct rows of that month, as stored, by (use count desc, views desc); no row of the month that is left out outranks a chosen one |
| KeywordPerformance.SelectStepSets | discordYoutube.py:763-768 | taking a remaining row keeps the month's rows split between the chosen and the remaining ones |
| KeywordPerformance.SelectStepOrder | discordYoutube.py:763-768 | taking a best remaining row keeps the chosen rows in trending order, each outranking every remaining row |
| KeywordPerformance.SelectDone | discordYoutube.py:763-770 | when the selection stops, the chosen rows are the query's result |
| ChannelStats.Since | discordYoutube.py:204 | exactly the snapshots at or after the threshold |
| ChannelStats.Earliest | discordYoutube.py:205-206 | none exactly for no rows; otherwise a row with the smallest stamp |
| ChannelStats.Latest | discordYoutube.py:226-227 | none exactly for no rows; otherwise a row with the largest stamp |
| ChannelStats.GrowthPercent | discordYoutube.py:253-254 | 0 when the base is not positive; otherwise growth times base equals 100 times the change |
| ChannelStats.GrowthAtLeastMinusHundred | discordYoutube.py:253-254 | growth is at least -100% when the current value is not negative |
| ChannelStats.StatsChangesWithoutRecentSnapshot | discordYoutube.py:232-237 | with no snapshot in the last day every delta and growth is 0 |
| ChannelStats.ReferencesExist | discordYoutube.py:200-229 | one snapshot in the last day makes all three references exist, and week-ago ≤ yesterday ≤ current in time |
| ChannelStats.StatsChangesWithRecentSnapshot | discordYoutube.py:239-255 | otherwise the deltas are current minus each reference, field by field, and weekly growth is the weekly delta over the week-ago value |
| ChannelStats.WeeklyGrowthGuarded | discordYoutube.py:253-254 | weekly growth is 0 whenever the week-ago value is not positive or missing |
| ChannelStats.EngagementRate | discordYoutube.py:552-555 | 0 for no views; otherwise rate times views equals 100 times likes plus comments |
| ChannelStats.EngagementRateBounds | discordYoutube.py:552-555 | the rate is not negative, and at most 100 when likes plus comments do not exceed views |
| Freshness.BoundaryDiffers | discordYoutube.py:276 | the strict Python check and the inclusive SQL check differ only at age exactly the window; both accept fewer stamps as time passes |
| Freshness.OffsetMisjudges | discordYoutube.py:276 | on a host ahead of UTC by d seconds, every stamp whose true age is within d of the window's end is judged stale; behind UTC, stamps up to d past the window are judged fresh; any non-zero offset misjudges some stamp |
| Freshness.ChannelNameExpiresEarly | discordYoutube.py:276 | on a UTC+9 host a name cached 16 hours ago is treated as stale, though the intended check keeps it |
| Freshness.FreshStrictIsOffsetFree | discordYoutube.py:366 | the corrected check is the as-written one at offset 0; any other offset shifts the window by that offset |
| Freshness.SameDatePasses | discordYoutube.py:843 | any API stamp on the threshold's date passes the text comparison, whatever its time |
| Freshness.PublishedFilterCounterexample | discordYoutube.py:880 | a video published 36 hours before now passes the one-day filter as written, and fails the corrected one |
| Freshness.PublishedWithinDaySpec | discordYoutube.py:843 | the corrected filter compares (date, time of day) in order: a later date passes, an earlier one fails, and on the threshold's own date only a time at or after the threshold's passes |
| PostingPace.Intervals | discordYoutube.py:597-600 | one gap per consecutive pair, in hours, and the gaps sum to newest minus oldest |
| PostingPace.CalculatePostingPace | discordYoutube.py:590-610 | unknown exactly when there are fewer than two uploads; otherwise the mean gap (first − last)/(n − 1), in hours below 24 and in days otherwise |
| PostingPace.ClassifySpec | discordYoutube.py:606-610 | an hour figure is below 24; a day figure is at least 1 and is the mean gap over 24 |
| PostingPace.MeanGapBounds | discordYoutube.py:603 | the mean gap lies between the smallest and the largest gap |
| PostingPace.TelescopeBounds | discordYoutube.py:603 | k gaps between the same bounds sum to between k times each bound |
| Thumbnail.LargeEnoughInIntegers | discordYoutube.py:678 | the area filter is 100·w·h > width·height |
| Thumbnail.KeptRegionsSpec | discordYoutube.py:676-685 | a region is kept exactly when it comes from a box above the area filter; there are no more regions than boxes |
| Thumbnail.TextRegions | discordYoutube.py:676-685 | the loop collects the regions of the large-enough boxes, in contour order |
| Thumbnail.PlacementNameRoundTrip | discordYoutube.py:688-701 | every placement label reads back to the placement it names |
| Thumbnail.PlacementSpec | discordYoutube.py:688-701 | "center" exactly when there are no regions or the mean corner is central on both axes; otherwise the label is "left" exactly when the mean x is below 0.33, "right" exactly when above 0.66, and carries "top_" or "bottom_" exactly when the mean y is below 0.33 or above 0.66 |
| Thumbnail.CompositionScore | discordYoutube.py:713 | at most 100; 100 exactly from four regions on; otherwise 25 per region |
| Store.FirstWrittenSince | discordYoutube.py:870-875 | none exactly when no cache row is in the window; otherwise the first row in the window |
| Store.Database.constructor | discordYoutube.py:50-164 | a first start on a new database file: `CREATE TABLE IF NOT EXISTS` creates every table, empty |
| Store.Database.GetTopVideos | discordYoutube.py:357-506 | on a cache hit, the cached list annotated against the week-old history, with nothing written; otherwise the ranked fetched videos, their history rows appended, and the cache holding exactly one new row, used for the next week |
| Store.Database.AnnotateCached | discordYoutube.py:396-422 | the in-place loop over the cached videos yields the annotated list |
| Store.Database.ChannelName | discordYoutube.py:263-296 | the stored name while younger than 24 hours, with nothing written; otherwise the fetched name, stored with a fresh stamp |
| Store.Database.TitleAnalysisReport | discordYoutube.py:722-779 | stores the title's analysis, upserts its keywords for the month, and returns the month's trending keywords |
| Store.Database.UpsertKeywords | discordYoutube.py:744-758 | the keyword loop applies one upsert per keyword, in order |
| Store.TitleReportKeywordRows | discordYoutube.py:726-758 | a report's upserts touch one row per keyword of the title, at most five; each is counted once more, or starts at 1; all other rows are untouched |
| Store.Database.GetCachedStats | discordYoutube.py:812-863 | nothing when the channel has no name row or no snapshot is in the window; otherwise the newest snapshot in the window, the channel name, and the newest video of the last day if there is one |
| Store.Database.CachedTopVideos | discordYoutube.py:865-894 | nothing exactly when no cache row is in the window; otherwise the videos of a cache row in the window |
| Store.Database.CachedRecentVideos | discordYoutube.py:876-903 | nothing exactly when no video matches; otherwise every video published in the last day and refreshed in the window, once each, newest first |
| Store.CollectRows | discordYoutube.py:878-903 | the selected rows are read out once each, with their ids |
| Store.SortedRecent | discordYoutube.py:882 | the rows come out sorted newest first, and they are the same rows |
| Store.SortedRecentKeepsRows | discordYoutube.py:882 | sorting keeps the selected rows, once each |

## Left out

- I/O is left out: the YouTube API calls, the page-token loop and its 100-video cap, Discord, the scheduler and the SQLite connection. API results and clock readings are parameters:
  - `fetched` is the videos the API returns;
  - `fetchedName` is the channel title the API returns;
  - `now` is the clock;
  - `month` is the report's "YYYY-MM" text.
- `save_stats` and `get_channel_stats` are not modelled, because they only write rows that the API returned. So the model has no operation that fills `channel_stats` or `video_stats`: the reads work on any contents.
- JSON encoding and decoding of the cache row, and ISO text parsing and formatting of times, are not modelled. The cached list is stored as a value.
- Floating point is modelled with reals:
  - rounding to one or two decimals is not modelled (growth, engagement, pace, composition score);
  - the thresholds 0.33, 0.66 and 0.01 are exact;
  - colour percentages, k-means and `impact_score` are left out.
- Image download, decoding, Otsu thresholding and contour finding are left out. The bounding boxes are the input to `Thumbnail`.
- `views_per_hour` in `analyze_video_performance` is left out, because it depends on the wall clock.
- `TitleAnalysis.Lower`: `str.lower` is modelled per character. The few characters whose lower case is longer than one character are not modelled, nor is the context-dependent final-sigma rule (a capital sigma at the end of a word lowers to the final form), which a per-character mapping cannot express.
- `Store.Database.constructor`: models only the first start on a new database file. On a later start `init_db` keeps the existing rows; the model's operations accept any table contents, so that case needs no constructor of its own.
- `Store.Database.GetTopVideos`: the primary key `(video_id, timestamp)` of `top_videos_history` is not modelled. A repeated insert in the same second would raise an error in SQLite; the model appends it.
- `Store.Database.GetCachedStats`, `Store.Database.CachedRecentVideos` and `Ranking.PriorRowsSpec`: the engine's order among rows equal on the sort column is not modelled.
  - On maps, any tied row may be chosen.
  - On sequences, tied rows keep table order. The contracts of these three members say only what holds for every tie order.
- `Store.Database.GetTopVideos`: on a cache hit, the result is the one for table order among history rows with equal stamps. Each refresh writes its rows with one stamp, so ties are common there: when more than three week-old rows share the newest stamps, `ORDER BY timestamp DESC LIMIT 3` may return a different three, and a cached video's rank change may then differ (NEW in one order, a movement in another).
- `ChannelStats.StatsChanges`: `Earliest` and `Latest` take the first snapshot in table order among equal stamps, so the deltas are those for table order when two snapshots share a stamp.
- `Store.Database.ChannelName` and `Store.Database.GetTopVideos` use the corrected one-clock age check. `Store.Database.GetCachedStats` and `Store.Database.CachedRecentVideos` use the corrected published-at filter. The as-written forms are modelled under Findings.
- `KeywordPerformance.UpsertAllSpec` assumes distinct keywords, which `analyze_title` guarantees (`Store.TitleReportKeywordRows`). `KeywordPerformance.UseCountGrows` needs no such assumption.

## Findings

| source | as written | input that shows it | evidently intended | confidence | as-written member | corrected member |
|---|---|---|---|---|---|---|
| discordYoutube.py:276 | `datetime.now()` (local time) minus `last_updated`, which SQLite's CURRENT_TIMESTAMP writes in UTC; the same at line 366 for the top-video cache | on a UTC+9 host, a channel name stored 16 hours ago has a computed age of 25 hours, so it is refetched | the age on one clock, `now - written < 24h` (and `< 7 days`) | not executed | Freshness.ChannelNameExpiresEarly | Freshness.FreshStrictIsOffsetFree |
| discordYoutube.py:843 | `published_at >= datetime('now', '-1 day')` compares the API text "YYYY-MM-DDTHH:MM:SSZ" with SQLite text "YYYY-MM-DD HH:MM:SS"; 'T' sorts after ' ', so any video from the threshold's date passes (the same at line 880) | now 2024-05-02 20:00 UTC, published 2024-05-01T08:00:00Z (36 hours earlier): the row passes the one-day filter | a video passes only when published at most 24 hours before now | not executed | Freshness.PublishedFilterCounterexample | Freshness.PublishedWithinDaySpec |
