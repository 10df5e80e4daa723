/** The `keyword_performance` table of `get_title_analysis_report`: a row per
    (keyword, month), upserted once per keyword of an analysed title, and the
    "trending keywords" query over the current month. The month is the opaque
    "YYYY-MM" text of the report's clock. */
module KeywordPerformance {
  import opened Common
  import opened Ordering

  const TrendingCount: nat := 3

  /** A row's values; the key is `(keyword, month)`. */
  datatype KeywordStats = KeywordStats(useCount: int, avgViews: int, avgEngagement: real)

  type Key = (string, string)

  /** A row of the trending query: `(keyword, use_count, avg_views)`. */
  datatype Trend = Trend(keyword: string, useCount: int, avgViews: int)

  /** `INSERT OR REPLACE` with `use_count = COALESCE(old + 1, 1)`, `avg_views = views`
      and `avg_engagement = COALESCE(old, 0)`. */
  function Upsert(table: map<Key, KeywordStats>, keyword: string, month: string, views: int): map<Key, KeywordStats>
  {
    var k := (keyword, month);
    table[k := KeywordStats(
      if k in table then table[k].useCount + 1 else 1,
      views,
      if k in table then table[k].avgEngagement else 0.0)]
  }

  /** The upserts of a whole keyword list, in list order. */
  function UpsertAll(table: map<Key, KeywordStats>, keywords: seq<string>, month: string, views: int): map<Key, KeywordStats>
  {
    if keywords == [] then table
    else Upsert(UpsertAll(table, keywords[..|keywords| - 1], month, views), keywords[|keywords| - 1], month, views)
  }

  /** What one keyword's upsert does to its row. */
  function Upserted(table: map<Key, KeywordStats>, k: Key, views: int): KeywordStats
  {
    if k in table then KeywordStats(table[k].useCount + 1, views, table[k].avgEngagement)
    else KeywordStats(1, views, 0.0)
  }

  /** For distinct keywords: the table gains a row for each keyword of this month, each
      such row is counted once more (or starts at 1), takes this video's views and keeps
      its engagement (or starts at 0); every other row is untouched. */
  lemma {:induction false} UpsertAllSpec(table: map<Key, KeywordStats>, keywords: seq<string>, month: string, views: int)
    requires Distinct(keywords)
    ensures var r := UpsertAll(table, keywords, month, views);
      && r.Keys == table.Keys + (set kw | kw in keywords :: (kw, month))
      && (forall kw :: kw in keywords ==> r[(kw, month)] == Upserted(table, (kw, month), views))
      && (forall k :: k in table && !(k.1 == month && k.0 in keywords) ==> r[k] == table[k])
  {
    if keywords != [] {
      var init := keywords[..|keywords| - 1];
      var last := keywords[|keywords| - 1];
      assert keywords == init + [last];
      forall i | 0 <= i < |init| ensures init[i] != last {
        assert init[i] == keywords[i];
      }
      UpsertAllSpec(table, init, month, views);
    }
  }

  /** No upsert ever lowers a row's use count, nor removes a row. */
  lemma {:induction false} UseCountGrows(table: map<Key, KeywordStats>, keywords: seq<string>, month: string, views: int)
    ensures var r := UpsertAll(table, keywords, month, views);
      forall k :: k in table ==> k in r && r[k].useCount >= table[k].useCount
  {
    if keywords != [] {
      UseCountGrows(table, keywords[..|keywords| - 1], month, views);
    }
  }

  /** The trending order: more uses first, then more views. */
  predicate Outranks(a: KeywordStats, b: KeywordStats)
  {
    a.useCount > b.useCount || (a.useCount == b.useCount && a.avgViews >= b.avgViews)
  }

  function MonthKeys(table: map<Key, KeywordStats>, month: string): set<Key>
  {
    set k | k in table && k.1 == month
  }

  function TrendOf(k: Key, s: KeywordStats): Trend
  {
    Trend(k.0, s.useCount, s.avgViews)
  }

  /** `SELECT keyword, use_count, avg_views ... WHERE month_year = ? ORDER BY use_count
      DESC, avg_views DESC LIMIT 3`: min(3, rows of the month) distinct rows of the month,
      in trending order, and no row of the month left out outranks a chosen one. The
      order among rows equal on both columns is the engine's choice. */
  ghost predicate IsTrending(table: map<Key, KeywordStats>, month: string, result: seq<Trend>)
  {
    && |result| == Min(TrendingCount, |MonthKeys(table, month)|)
    && (forall i :: 0 <= i < |result| ==>
          (result[i].keyword, month) in table && result[i] == TrendOf((result[i].keyword, month), table[(result[i].keyword, month)]))
    && (forall i, j :: 0 <= i < j < |result| ==> result[i].keyword != result[j].keyword)
    && (forall i, j :: 0 <= i < j < |result| ==>
          Outranks(table[(result[i].keyword, month)], table[(result[j].keyword, month)]))
    && (forall k :: k in MonthKeys(table, month) && (forall i :: 0 <= i < |result| ==> result[i].keyword != k.0) ==>
          forall i :: 0 <= i < |result| ==> Outranks(table[(result[i].keyword, month)], table[k]))
  }

  /** What the selection loop keeps: `result` lists the `chosen` rows in trending order,
      and each of them outranks every row still `remaining`. */
  ghost predicate SelectionInv(table: map<Key, KeywordStats>, month: string, remaining: set<Key>,
                               chosen: set<Key>, result: seq<Trend>)
  {
    SelectionSets(table, month, remaining, chosen, result) && SelectionOrder(table, month, remaining, result)
  }

  /** The month's rows are split between `chosen` (the ones in `result`) and `remaining`. */
  ghost predicate SelectionSets(table: map<Key, KeywordStats>, month: string, remaining: set<Key>,
                                chosen: set<Key>, result: seq<Trend>)
  {
    var all := MonthKeys(table, month);
    && remaining <= all && chosen !! remaining && chosen + remaining == all
    && |chosen| == |result|
    && (forall i :: 0 <= i < |result| ==> (result[i].keyword, month) in chosen)
    && (forall k :: k in all && (forall i :: 0 <= i < |result| ==> result[i].keyword != k.0) ==> k in remaining)
  }

  /** `result` holds distinct rows of the table in trending order, each outranking every
      remaining row. */
  ghost predicate SelectionOrder(table: map<Key, KeywordStats>, month: string, remaining: set<Key>, result: seq<Trend>)
  {
    && remaining <= table.Keys
    && (forall i :: 0 <= i < |result| ==>
          (result[i].keyword, month) in table && result[i] == TrendOf((result[i].keyword, month), table[(result[i].keyword, month)]))
    && (forall i, j :: 0 <= i < j < |result| ==> result[i].keyword != result[j].keyword)
    && (forall i, j :: 0 <= i < j < |result| ==>
          Outranks(table[(result[i].keyword, month)], table[(result[j].keyword, month)]))
    && (forall i, k :: 0 <= i < |result| && k in remaining ==>
          Outranks(table[(result[i].keyword, month)], table[k]))
  }

  lemma SelectStepSets(table: map<Key, KeywordStats>, month: string, remaining: set<Key>,
                       chosen: set<Key>, result: seq<Trend>, k: Key)
    requires SelectionSets(table, month, remaining, chosen, result)
    requires k in remaining
    ensures SelectionSets(table, month, remaining - {k}, chosen + {k}, result + [TrendOf(k, table[k])])
  {
    var all := MonthKeys(table, month);
    assert k !in chosen && k.1 == month;
    var r := result + [TrendOf(k, table[k])];
    var rem, ch := remaining - {k}, chosen + {k};
    assert rem <= all && ch !! rem && ch + rem == all;
    assert |ch| == |r|;
    forall i | 0 <= i < |r| ensures (r[i].keyword, month) in ch {
      if i < |result| { assert r[i] == result[i]; }
    }
    forall q | q in all && (forall i :: 0 <= i < |r| ==> r[i].keyword != q.0) ensures q in rem {
      forall i | 0 <= i < |result| ensures result[i].keyword != q.0 { assert r[i] == result[i]; }
      assert r[|result|].keyword != q.0;
    }
  }

  lemma SelectStepOrder(table: map<Key, KeywordStats>, month: string, remaining: set<Key>,
                        chosen: set<Key>, result: seq<Trend>, k: Key)
    requires SelectionSets(table, month, remaining, chosen, result)
    requires SelectionOrder(table, month, remaining, result)
    requires k in remaining && forall o :: o in remaining ==> Outranks(table[k], table[o])
    ensures SelectionOrder(table, month, remaining - {k}, result + [TrendOf(k, table[k])])
  {
    assert k !in chosen && k.1 == month && k in table;
    var r := result + [TrendOf(k, table[k])];
    assert forall i :: 0 <= i < |result| ==> r[i] == result[i];
    assert r[|result|] == TrendOf(k, table[k]);
    forall i | 0 <= i < |result| ensures result[i].keyword != k.0 {
      assert (result[i].keyword, month) in chosen;
    }
    forall i, j | 0 <= i < j < |r|
      ensures r[i].keyword != r[j].keyword
      ensures Outranks(table[(r[i].keyword, month)], table[(r[j].keyword, month)])
    {
      if j == |result| {
        assert (r[j].keyword, month) == k;
      }
    }
    forall i, q | 0 <= i < |r| && q in remaining - {k} ensures Outranks(table[(r[i].keyword, month)], table[q]) {
      if i == |result| {
        assert (r[i].keyword, month) == k;
      }
    }
  }

  /** When the loop stops, the invariant gives the query's result. */
  lemma SelectDone(table: map<Key, KeywordStats>, month: string, remaining: set<Key>,
                   chosen: set<Key>, result: seq<Trend>)
    requires SelectionInv(table, month, remaining, chosen, result)
    requires |result| <= TrendingCount
    requires |result| == TrendingCount || remaining == {}
    ensures IsTrending(table, month, result)
  {
    if |result| == TrendingCount {
      SubsetSize(chosen, MonthKeys(table, month));
    }
  }

  /** The trending query, as a selection of the best remaining row, three times. */
  method Trending(table: map<Key, KeywordStats>, month: string) returns (result: seq<Trend>)
    ensures IsTrending(table, month, result)
  {
    var remaining := MonthKeys(table, month);
    ghost var chosen: set<Key> := {};
    result := [];
    while |result| < TrendingCount && remaining != {}
      invariant SelectionInv(table, month, remaining, chosen, result)
      invariant |result| <= TrendingCount
      decreases remaining
    {
      var best := MaximalExists(remaining, table, Outranks);
      var k :| k in remaining && forall o :: o in remaining ==> Outranks(table[k], table[o]);
      SelectStepSets(table, month, remaining, chosen, result, k);
      SelectStepOrder(table, month, remaining, chosen, result, k);
      result := result + [TrendOf(k, table[k])];
      chosen := chosen + {k};
      remaining := remaining - {k};
    }
    SelectDone(table, month, remaining, chosen, result);
  }

  lemma SubsetSize<T>(a: set<T>, b: set<T>)
    requires a <= b
    ensures |a| <= |b|
  {
    assert b == a + (b - a);
  }
}
