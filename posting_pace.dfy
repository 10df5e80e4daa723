/** `calculate_posting_pace`: the mean gap between the publish times of a channel's most
    recent uploads (newest first), reported in hours below one day and in days from one
    day on. Publish times are integer seconds. */
module PostingPace {

  /** "不明", "N時間に1回" or "N日に1回", before rounding to one decimal. */
  datatype Pace = Unknown | EveryHours(hours: real) | EveryDays(days: real)

  /** Python's `sum`, folded from the back so that appending one element is one step. */
  function Sum(s: seq<real>): real
  {
    if s == [] then 0.0 else Sum(s[..|s| - 1]) + s[|s| - 1]
  }

  /** The gap, in hours, between upload `i` and the next older upload. */
  function Gap(dates: seq<int>, i: nat): real
    requires i + 1 < |dates|
  {
    (dates[i] - dates[i + 1]) as real / 3600.0
  }

  /** The mean gap, stated without intervals: the time from the oldest to the newest
      upload, divided by the number of gaps. */
  function MeanGap(dates: seq<int>): real
    requires |dates| >= 2
  {
    ((dates[0] - dates[|dates| - 1]) as real / 3600.0) / (|dates| - 1) as real
  }

  /** The list of consecutive gaps; its sum telescopes to the newest minus the oldest. */
  method Intervals(dates: seq<int>) returns (intervals: seq<real>)
    requires |dates| >= 1
    ensures |intervals| == |dates| - 1
    ensures forall i :: 0 <= i < |intervals| ==> intervals[i] == Gap(dates, i)
    ensures Sum(intervals) == (dates[0] - dates[|dates| - 1]) as real / 3600.0
  {
    intervals := [];
    var i := 0;
    while i < |dates| - 1
      invariant 0 <= i <= |dates| - 1
      invariant |intervals| == i
      invariant forall j :: 0 <= j < i ==> intervals[j] == Gap(dates, j)
      invariant Sum(intervals) == (dates[0] - dates[i]) as real / 3600.0
    {
      var next := intervals + [(dates[i] - dates[i + 1]) as real / 3600.0];
      assert next[..|next| - 1] == intervals;
      intervals := next;
      i := i + 1;
    }
  }

  /** The pace as reported: unknown for fewer than two uploads, otherwise the mean gap of
      the intervals, in hours when below 24 and in days otherwise. */
  method CalculatePostingPace(dates: seq<int>) returns (pace: Pace)
    ensures |dates| < 2 <==> pace == Unknown
    ensures |dates| >= 2 ==> pace == Classify(MeanGap(dates))
  {
    if |dates| < 2 {
      return Unknown;
    }
    var intervals := Intervals(dates);
    var avg := Sum(intervals) / |intervals| as real;
    if avg < 24.0 {
      pace := EveryHours(avg);
    } else {
      pace := EveryDays(avg / 24.0);
    }
  }

  /** Hours below a day, days from a day on. */
  function Classify(avg: real): (p: Pace)
    ensures p != Unknown
  {
    if avg < 24.0 then EveryHours(avg) else EveryDays(avg / 24.0)
  }

  /** The unit can always be read back: an hour figure is below 24, a day figure is at
      least 1, and either converts back to the mean gap in hours. */
  lemma ClassifySpec(avg: real)
    ensures Classify(avg).EveryHours? ==> Classify(avg).hours < 24.0 && Classify(avg).hours == avg
    ensures Classify(avg).EveryDays? ==> Classify(avg).days >= 1.0 && Classify(avg).days * 24.0 == avg
  {
  }

  /** For uploads listed newest first the mean gap is never negative, and it lies between
      the smallest and largest single gap. */
  lemma MeanGapBounds(dates: seq<int>, lo: real, hi: real)
    requires |dates| >= 2
    requires forall i :: 0 <= i < |dates| - 1 ==> lo <= Gap(dates, i) <= hi
    ensures lo <= MeanGap(dates) <= hi
  {
    var n := |dates| - 1;
    TelescopeBounds(dates, n, lo, hi);
  }

  lemma {:induction false} TelescopeBounds(dates: seq<int>, k: nat, lo: real, hi: real)
    requires 1 <= k < |dates|
    requires forall i :: 0 <= i < k ==> lo <= Gap(dates, i) <= hi
    ensures lo * k as real <= (dates[0] - dates[k]) as real / 3600.0 <= hi * k as real
  {
    if k > 1 {
      TelescopeBounds(dates, k - 1, lo, hi);
      assert lo <= Gap(dates, k - 1) <= hi;
      assert (dates[0] - dates[k]) as real / 3600.0 == (dates[0] - dates[k - 1]) as real / 3600.0 + Gap(dates, k - 1);
      assert lo * k as real == lo * (k - 1) as real + lo;
      assert hi * k as real == hi * (k - 1) as real + hi;
    } else {
      assert lo <= Gap(dates, 0) <= hi;
    }
  }
}
