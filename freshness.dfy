/** Freshness windows. Time is integer seconds since the epoch, in UTC. Two kinds of check
    exist side by side: the Python-side checks of `get_channel_name` (24 hours) and
    `get_top_videos` (7 days) are strict (`age < window`), while the SQL-side reads of
    `get_cached_stats`, `get_cached_videos` and the `channel_stats` reads of
    `get_stats_changes` accept `timestamp >= now - window` (inclusive). The history read of
    `get_top_videos` goes the other way (`timestamp <= now - 7 days`; see Ranking.OldRows). */
module Freshness {

  const Hour: int := 3600
  const Day: int := 24 * Hour
  const Week: int := 7 * Day

  /** `datetime.now() - written < timedelta(window)`. */
  predicate FreshStrict(written: int, now: int, window: int)
  {
    now - written < window
  }

  /** `timestamp >= datetime('now', '-window')`. */
  predicate WithinWindow(stamp: int, now: int, window: int)
  {
    stamp >= now - window
  }

  /** The two checks agree everywhere except at age exactly `window`, which only the SQL
      form accepts; and both accept fewer stamps as time passes. */
  lemma BoundaryDiffers(written: int, now: int, window: int, later: int)
    requires now <= later
    ensures WithinWindow(written, now, window) <==> FreshStrict(written, now, window) || now - written == window
    ensures FreshStrict(written, later, window) ==> FreshStrict(written, now, window)
    ensures WithinWindow(written, later, window) ==> WithinWindow(written, now, window)
  {
  }

  // ------------------------------------------------------------------------------------
  // Finding 1: the Python-side age mixes local time with UTC.
  // `datetime.now()` is the host's local wall clock, while the stored stamp comes from
  // SQLite's CURRENT_TIMESTAMP, which is UTC. The age computed at
  // discordYoutube.py:276 and :366 is therefore off by the host's UTC offset.

  /** The age as written: local "now" (UTC plus `utcOffset`) minus a UTC stamp, which is
      the true age plus the offset. */
  function AgeAsWritten(writtenUtc: int, nowUtc: int, utcOffset: int): int
  {
    (nowUtc - writtenUtc) + utcOffset
  }

  predicate FreshAsWritten(writtenUtc: int, nowUtc: int, utcOffset: int, window: int)
  {
    AgeAsWritten(writtenUtc, nowUtc, utcOffset) < window
  }

  /** On a host nine hours ahead of UTC, a channel name cached 16 hours ago is treated as
      stale (its computed age is 25 hours), though the intended 24-hour window keeps it. */
  lemma ChannelNameExpiresEarly(nowUtc: int)
    ensures !FreshAsWritten(nowUtc - 16 * Hour, nowUtc, 9 * Hour, Day)
    ensures FreshStrict(nowUtc - 16 * Hour, nowUtc, Day)
  {
  }

  /** Whatever the window, a host ahead of UTC drops every stamp whose true age lies in
      the last `offset` seconds of the window, and a host behind UTC keeps every stamp up
      to `-offset` seconds past it. */
  lemma OffsetMisjudges(writtenUtc: int, nowUtc: int, utcOffset: int, window: int)
    ensures utcOffset > 0 && window - utcOffset <= nowUtc - writtenUtc < window ==>
      FreshStrict(writtenUtc, nowUtc, window) && !FreshAsWritten(writtenUtc, nowUtc, utcOffset, window)
    ensures utcOffset < 0 && window <= nowUtc - writtenUtc < window - utcOffset ==>
      !FreshStrict(writtenUtc, nowUtc, window) && FreshAsWritten(writtenUtc, nowUtc, utcOffset, window)
    ensures utcOffset != 0 ==> exists w :: FreshStrict(w, nowUtc, window) != FreshAsWritten(w, nowUtc, utcOffset, window)
  {
    if utcOffset != 0 {
      var w := if utcOffset > 0 then nowUtc - window + 1 else nowUtc - window;
      assert FreshStrict(w, nowUtc, window) != FreshAsWritten(w, nowUtc, utcOffset, window);
    }
  }

  /** The corrected check measures the age on one clock, so it does not depend on where the
      host is: it is the as-written check on a host whose offset is zero, and it accepts a
      stamp exactly while its true age is below the window. */
  lemma FreshStrictIsOffsetFree(writtenUtc: int, nowUtc: int, window: int)
    ensures FreshStrict(writtenUtc, nowUtc, window) <==> FreshAsWritten(writtenUtc, nowUtc, 0, window)
    ensures forall offset :: offset != 0 ==>
      (FreshAsWritten(writtenUtc, nowUtc, offset, window) <==> FreshStrict(writtenUtc, nowUtc, window - offset))
  {
  }

  // ------------------------------------------------------------------------------------
  // Finding 2: `video_stats.published_at` holds the API's text "YYYY-MM-DDTHH:MM:SSZ",
  // and the queries at discordYoutube.py:843 and :880 compare it as TEXT with
  // datetime('now', '-1 day'), whose text is "YYYY-MM-DD HH:MM:SS". On the same date the
  // eleventh character decides: 'T' sorts after ' ', whatever the times are.

  /** SQLite's BINARY text comparison `a >= b`, on code points. */
  predicate TextAtLeast(a: string, b: string)
  {
    if b == [] then true
    else if a == [] then false
    else if a[0] != b[0] then a[0] > b[0]
    else TextAtLeast(a[1..], b[1..])
  }

  /** The published-at filter as written: a text comparison of the API stamp with the
      SQLite stamp. */
  predicate PublishedSinceAsWritten(apiStamp: string, sqliteStamp: string)
  {
    TextAtLeast(apiStamp, sqliteStamp)
  }

  function ApiStamp(date: string, time: string): string { date + "T" + time + "Z" }
  function SqliteStamp(date: string, time: string): string { date + " " + time }

  /** Any API stamp on the threshold's date passes the filter, whatever its time of day. */
  lemma {:induction false} SameDatePasses(date: string, apiTime: string, sqlTime: string)
    ensures PublishedSinceAsWritten(ApiStamp(date, apiTime), SqliteStamp(date, sqlTime))
    decreases |date|
  {
    var a, b := ApiStamp(date, apiTime), SqliteStamp(date, sqlTime);
    if date == [] {
      assert a[0] == 'T' && b[0] == ' ';
    } else {
      SameDatePasses(date[1..], apiTime, sqlTime);
      assert a[1..] == ApiStamp(date[1..], apiTime);
      assert b[1..] == SqliteStamp(date[1..], sqlTime);
    }
  }

  /** Concretely: with "now" at 2024-05-02 20:00:00 UTC the threshold is 2024-05-01
      20:00:00, and a video published at 2024-05-01 08:00 UTC, 36 hours earlier, passes. */
  lemma PublishedFilterCounterexample()
    ensures PublishedSinceAsWritten(ApiStamp("2024-05-01", "08:00:00"), SqliteStamp("2024-05-01", "20:00:00"))
    ensures !PublishedWithinDay(Day + 8 * Hour, 2 * Day + 20 * Hour)
  {
    SameDatePasses("2024-05-01", "08:00:00", "20:00:00");
  }

  /** The corrected filter compares instants: a video passes exactly when it was published
      at most one day before now. */
  predicate PublishedWithinDay(publishedAt: int, now: int)
  {
    WithinWindow(publishedAt, now, Day)
  }

  /** With both instants split into a day number and a second of that day, the corrected
      filter compares the dates first and, only on the threshold's own date, the times of
      day: an earlier time on that date fails, which the text comparison as written lets
      pass (SameDatePasses). */
  lemma PublishedWithinDaySpec(pubDay: int, pubSecond: int, thresholdDay: int, thresholdSecond: int)
    requires 0 <= pubSecond < Day && 0 <= thresholdSecond < Day
    ensures PublishedWithinDay(pubDay * Day + pubSecond, thresholdDay * Day + thresholdSecond + Day) <==>
      pubDay > thresholdDay || (pubDay == thresholdDay && pubSecond >= thresholdSecond)
  {
    if pubDay > thresholdDay {
      assert pubDay * Day >= thresholdDay * Day + Day;
    } else if pubDay < thresholdDay {
      assert pubDay * Day + Day <= thresholdDay * Day;
    }
  }
}
