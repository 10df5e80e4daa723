/** Channel-level deltas (`get_stats_changes`) and the engagement rate
    (`calculate_engagement_rate`), over the append-only `channel_stats` table. */
module ChannelStats {
  import opened Common
  import opened Freshness

  /** One row of `channel_stats`. */
  datatype Snapshot = Snapshot(timestamp: int, subscribers: int, views: int, videos: int)

  datatype Counts = Counts(subscribers: int, views: int, videos: int)

  /** Weekly growth in percent; the rounding to one decimal is not modelled. */
  datatype Growth = Growth(subscribers: real, views: real)

  datatype Changes = Changes(daily: Counts, weekly: Counts, weeklyGrowth: Growth)

  const NoChanges := Changes(Counts(0, 0, 0), Counts(0, 0, 0), Growth(0.0, 0.0))

  /** The rows with `timestamp >= since`, in table order. */
  function Since(rows: seq<Snapshot>, since: int): (r: seq<Snapshot>)
    ensures forall s :: s in r <==> s in rows && s.timestamp >= since
  {
    if rows == [] then []
    else (if rows[0].timestamp >= since then [rows[0]] else []) + Since(rows[1..], since)
  }

  /** `ORDER BY timestamp ASC LIMIT 1`: a row with the smallest stamp (the first such row). */
  function Earliest(rows: seq<Snapshot>): (r: Option<Snapshot>)
    ensures r.None? <==> rows == []
    ensures r.Some? ==> r.value in rows && forall s :: s in rows ==> r.value.timestamp <= s.timestamp
  {
    if rows == [] then None
    else
      match Earliest(rows[1..])
      case None => Some(rows[0])
      case Some(b) => if rows[0].timestamp <= b.timestamp then Some(rows[0]) else Some(b)
  }

  /** `ORDER BY timestamp DESC LIMIT 1`: a row with the largest stamp (the first such row). */
  function Latest(rows: seq<Snapshot>): (r: Option<Snapshot>)
    ensures r.None? <==> rows == []
    ensures r.Some? ==> r.value in rows && forall s :: s in rows ==> s.timestamp <= r.value.timestamp
  {
    if rows == [] then None
    else
      match Latest(rows[1..])
      case None => Some(rows[0])
      case Some(b) => if rows[0].timestamp >= b.timestamp then Some(rows[0]) else Some(b)
  }

  function Delta(current: Snapshot, reference: Snapshot): Counts
  {
    Counts(current.subscribers - reference.subscribers,
           current.views - reference.views,
           current.videos - reference.videos)
  }

  /** `(change / base) * 100 if base > 0 else 0`. */
  function GrowthPercent(change: int, base: int): (g: real)
    ensures base <= 0 ==> g == 0.0
    ensures base > 0 ==> g * base as real == change as real * 100.0
  {
    if base > 0 then (change as real / base as real) * 100.0 else 0.0
  }

  /** A loss can never exceed the whole base: growth is at least -100% whenever the
      current value is not negative. */
  lemma GrowthAtLeastMinusHundred(change: int, base: int)
    requires base > 0 && base + change >= 0
    ensures GrowthPercent(change, base) >= -100.0
  {
    var g := GrowthPercent(change, base);
    assert g * base as real == change as real * 100.0;
    assert change as real * 100.0 >= -100.0 * base as real;
    if g < -100.0 {
      assert g * base as real < -100.0 * base as real;
    }
  }

  /** `get_stats_changes`: the "yesterday" reference is the earliest row of the last day,
      the "week ago" one the earliest of the last seven days, the current one the newest
      row; when any of the three is missing, everything is zero. */
  function StatsChanges(rows: seq<Snapshot>, now: int): Changes
  {
    var yesterday := Earliest(Since(rows, now - Day));
    var weekAgo := Earliest(Since(rows, now - Week));
    var current := Latest(rows);
    if yesterday.None? || weekAgo.None? || current.None? then NoChanges
    else
      var cur, w := current.value, weekAgo.value;
      var weekly := Delta(cur, w);
      Changes(Delta(cur, yesterday.value), weekly,
              Growth(GrowthPercent(weekly.subscribers, w.subscribers), GrowthPercent(weekly.views, w.views)))
  }

  /** With no snapshot at most a day old, every change is zero. */
  lemma StatsChangesWithoutRecentSnapshot(rows: seq<Snapshot>, now: int)
    requires forall s :: s in rows ==> s.timestamp < now - Day
    ensures StatsChanges(rows, now) == NoChanges
  {
    var daySince := Since(rows, now - Day);
    assert forall s :: s in daySince ==> s in rows && s.timestamp >= now - Day;
  }

  /** A snapshot at most a day old is also at most a week old, so all three references
      exist as soon as one snapshot is recent; the references are ordered in time. */
  lemma ReferencesExist(rows: seq<Snapshot>, now: int, recent: Snapshot)
    requires recent in rows && recent.timestamp >= now - Day
    ensures var y, w, cur := Earliest(Since(rows, now - Day)), Earliest(Since(rows, now - Week)), Latest(rows);
      && y.Some? && w.Some? && cur.Some?
      && y.value.timestamp >= now - Day && w.value.timestamp >= now - Week
      && w.value.timestamp <= y.value.timestamp <= cur.value.timestamp
  {
    var daySince := Since(rows, now - Day);
    assert recent in daySince;
    var y := Earliest(daySince).value;
    assert y in rows;
    assert y in Since(rows, now - Week);
  }

  /** With a snapshot at most a day old, the changes are the field-by-field differences
      between the newest snapshot and the two references, and the weekly growth is the
      weekly difference over the week-old value, or 0 when that value is not positive. */
  lemma StatsChangesWithRecentSnapshot(rows: seq<Snapshot>, now: int, recent: Snapshot)
    requires recent in rows && recent.timestamp >= now - Day
    ensures var y, w, cur := Earliest(Since(rows, now - Day)), Earliest(Since(rows, now - Week)), Latest(rows);
      var c := StatsChanges(rows, now);
      && y.Some? && w.Some? && cur.Some?
      && c.daily == Delta(cur.value, y.value)
      && c.weekly == Delta(cur.value, w.value)
      && c.weeklyGrowth == Growth(GrowthPercent(c.weekly.subscribers, w.value.subscribers),
                                  GrowthPercent(c.weekly.views, w.value.views))
  {
    ReferencesExist(rows, now, recent);
  }

  /** Growth is never a division by zero: it is 0 whenever the week-old value is not
      positive. */
  lemma WeeklyGrowthGuarded(rows: seq<Snapshot>, now: int)
    ensures var w, c := Earliest(Since(rows, now - Week)), StatsChanges(rows, now);
      (w.None? || w.value.subscribers <= 0 ==> c.weeklyGrowth.subscribers == 0.0) &&
      (w.None? || w.value.views <= 0 ==> c.weeklyGrowth.views == 0.0)
  {
  }

  /** `calculate_engagement_rate`: likes plus comments per view, in percent, and 0 for a
      video without views (rounding to two decimals is not modelled). */
  function EngagementRate(views: int, likes: int, comments: int): (r: real)
    ensures views == 0 ==> r == 0.0
    ensures views != 0 ==> r * views as real == (likes + comments) as real * 100.0
  {
    if views == 0 then 0.0 else ((likes + comments) as real / views as real) * 100.0
  }

  lemma EngagementRateBounds(views: int, likes: int, comments: int)
    requires views > 0 && likes >= 0 && comments >= 0
    ensures EngagementRate(views, likes, comments) >= 0.0
    ensures likes + comments <= views ==> EngagementRate(views, likes, comments) <= 100.0
  {
    var r := EngagementRate(views, likes, comments);
    assert r * views as real == (likes + comments) as real * 100.0;
  }
}
