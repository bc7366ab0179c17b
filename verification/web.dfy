/** The integer analytics and the asset-path choice inside the HTTP
    handlers of src/web.rs. Opening the database, routing and JSON are
    outside the model: each handler's query results are inputs. */
module Web {
  import opened Wrappers
  import opened Text

  // ------------------------------------------------------------ assets

  const IndexHtml: string := "index.html"

  /** `static_handler`'s choice of asset: the request path without its
      leading slashes, or the single-page app's "index.html" when that is
      empty or has no '.' (a client-side route rather than a file). */
  function SpaPath(uriPath: string): (r: string)
    ensures var p := TrimStartChars(uriPath, {'/'});
            ('.' in p ==> r == p) && ('.' !in p ==> r == IndexHtml)
    ensures '.' in r && |r| > 0 && r[0] != '/'
  {
    var p := TrimStartChars(uriPath, {'/'});
    IndexHtmlShape();
    if |p| == 0 || '.' !in p then IndexHtml else p
  }

  lemma IndexHtmlShape()
    ensures |IndexHtml| == 10 && IndexHtml[0] == 'i' && '.' in IndexHtml
  {
    assert IndexHtml[5] == '.';
  }

  /** Choosing the asset twice changes nothing. */
  lemma SpaPathIdempotent(uriPath: string)
    ensures SpaPath(SpaPath(uriPath)) == SpaPath(uriPath)
  {
    var r := SpaPath(uriPath);
    TrimNoSlash(r);
  }

  /** Extra leading slashes do not change the asset. */
  lemma SpaPathLeadingSlash(uriPath: string)
    ensures SpaPath("/" + uriPath) == SpaPath(uriPath)
  {
    TrimSlash(uriPath);
  }

  lemma TrimNoSlash(r: string)
    requires |r| > 0 && r[0] != '/'
    ensures TrimStartChars(r, {'/'}) == r
  {
  }

  lemma TrimSlash(u: string)
    ensures TrimStartChars("/" + u, {'/'}) == TrimStartChars(u, {'/'})
  {
    var s := "/" + u;
    assert s[0] == '/' && s[1..] == u;
  }

  // ------------------------------------------------------ hourly chart

  /** A row of `get_today_hourly_detailed`; the hour is a `u32`. */
  datatype HourDetail = HourDetail(hour: nat, activeSecs: int, passiveSecs: int)

  /** An entry of the hourly response. */
  datatype HourlyStat = HourlyStat(hour: nat, secs: int, activeSecs: int, passiveSecs: int)

  function StatOf(d: HourDetail): HourlyStat {
    HourlyStat(d.hour, d.activeSecs + d.passiveSecs, d.activeSecs, d.passiveSecs)
  }

  /** The last row for hour `h`, if any. */
  function LastFor(ds: seq<HourDetail>, h: nat): (r: Option<HourDetail>)
    ensures r.Some? ==> r.value in ds && r.value.hour == h
    ensures r.None? <==> forall k :: 0 <= k < |ds| ==> ds[k].hour != h
    ensures r.Some? ==> exists k :: 0 <= k < |ds| && ds[k] == r.value && forall j :: k < j < |ds| ==> ds[j].hour != h
    decreases |ds|
  {
    if |ds| == 0 then None
    else if ds[|ds| - 1].hour == h then Some(ds[|ds| - 1])
    else
      var r := LastFor(ds[..|ds| - 1], h);
      assert forall k :: 0 <= k < |ds| - 1 ==> ds[..|ds| - 1][k] == ds[k];
      r
  }

  /** What slot `h` of the response holds after reading `ds`: the last
      row for that hour, or zeros. */
  function Slot(ds: seq<HourDetail>, h: nat): (s: HourlyStat)
    ensures s.hour == h
  {
    match LastFor(ds, h)
    case None => HourlyStat(h, 0, 0, 0)
    case Some(d) => StatOf(d)
  }

  /** `api_today_hourly`: all 24 hours, in order, each filled from the
      rows for that hour; rows for hour 24 or later are dropped. */
  method HourlyFill(ds: seq<HourDetail>) returns (data: seq<HourlyStat>)
    ensures |data| == 24
    ensures forall h :: 0 <= h < 24 ==> data[h] == Slot(ds, h)
    ensures forall h :: 0 <= h < 24 ==> data[h].hour == h && data[h].secs == data[h].activeSecs + data[h].passiveSecs
  {
    data := [];
    for h := 0 to 24
      invariant |data| == h
      invariant forall k :: 0 <= k < h ==> data[k] == HourlyStat(k, 0, 0, 0)
    {
      data := data + [HourlyStat(h, 0, 0, 0)];
    }
    for i := 0 to |ds|
      invariant |data| == 24
      invariant forall h :: 0 <= h < 24 ==> data[h] == Slot(ds[..i], h)
    {
      assert ds[..i + 1][..i] == ds[..i];
      if ds[i].hour < 24 {
        data := data[ds[i].hour := StatOf(ds[i])];
      }
    }
    assert ds[..|ds|] == ds;
  }

  /** Rows for hours past the end of the day leave the response as it was. */
  lemma LateRowIgnored(ds: seq<HourDetail>, d: HourDetail, h: nat)
    requires d.hour >= 24 && h < 24
    ensures Slot(ds + [d], h) == Slot(ds, h)
  {
    assert (ds + [d])[..|ds|] == ds;
  }

  // ------------------------------------------------------ focus streak

  /** A row of `get_today_hourly`. */
  datatype HourTotal = HourTotal(hour: nat, totalSecs: int)

  /** The total of the first row for hour `h`, or 0 when there is none. */
  function SecsAt(hs: seq<HourTotal>, h: nat): (r: int)
    ensures (forall k :: 0 <= k < |hs| ==> hs[k].hour != h) ==> r == 0
    decreases |hs|
  {
    if |hs| == 0 then 0
    else if hs[0].hour == h then hs[0].totalSecs
    else
      var r := SecsAt(hs[1..], h);
      assert forall k :: 0 < k < |hs| ==> hs[1..][k - 1] == hs[k];
      r
  }

  /** When some row is for hour `h`, `SecsAt` is the total of the first
      such row. */
  lemma {:induction false} SecsAtFirstMatch(hs: seq<HourTotal>, h: nat)
    ensures (exists k :: 0 <= k < |hs| && hs[k].hour == h) ==>
              exists k :: 0 <= k < |hs| && hs[k].hour == h && SecsAt(hs, h) == hs[k].totalSecs
                          && forall j :: 0 <= j < k ==> hs[j].hour != h
    decreases |hs|
  {
    if |hs| > 0 && hs[0].hour == h {
      assert SecsAt(hs, h) == hs[0].totalSecs;
    } else if exists k :: 0 <= k < |hs| && hs[k].hour == h {
      var k :| 0 <= k < |hs| && hs[k].hour == h;
      var tail := hs[1..];
      assert tail[k - 1].hour == h;
      SecsAtFirstMatch(tail, h);
      var m :| 0 <= m < |tail| && tail[m].hour == h && SecsAt(tail, h) == tail[m].totalSecs
               && forall j :: 0 <= j < m ==> tail[j].hour != h;
      assert forall j :: 0 < j <= m ==> hs[j] == tail[j - 1];
      assert hs[m + 1] == tail[m];
    }
  }

  /** An hour with more than five minutes of activity. */
  const FocusThreshold: int := 300

  predicate Focused(hs: seq<HourTotal>, h: nat) {
    SecsAt(hs, h) > FocusThreshold
  }

  /** Hours `i` up to (not including) `j` of the day, all focused. */
  predicate IsRun(hs: seq<HourTotal>, i: nat, j: nat) {
    i <= j <= 24 && forall h :: i <= h < j ==> Focused(hs, h)
  }

  /** The seconds of hours `i` up to (not including) `j`. */
  function RunSum(hs: seq<HourTotal>, i: nat, j: nat): int
    requires i <= j
    decreases j - i
  {
    if i == j then 0 else RunSum(hs, i, j - 1) + SecsAt(hs, j - 1)
  }

  lemma {:induction false} RunSplit(hs: seq<HourTotal>, i: nat, k: nat, j: nat)
    requires i <= k <= j
    ensures RunSum(hs, i, j) == RunSum(hs, i, k) + RunSum(hs, k, j)
    decreases j - k
  {
    if k < j {
      RunSplit(hs, i, k, j - 1);
    }
  }

  lemma {:induction false} RunNonNegative(hs: seq<HourTotal>, i: nat, j: nat)
    requires IsRun(hs, i, j)
    ensures RunSum(hs, i, j) >= 0
    decreases j - i
  {
    if i < j {
      assert Focused(hs, j - 1);
      RunNonNegative(hs, i, j - 1);
    }
  }

  /** A run that ends inside the current run, which follows an unfocused
      hour (or the start of the day), lies inside it and sums to no more. */
  lemma WithinCurrentRun(hs: seq<HourTotal>, start: nat, e: nat, i: nat, j: nat)
    requires IsRun(hs, start, e) && (start > 0 ==> !Focused(hs, start - 1))
    requires IsRun(hs, i, j) && start < j <= e
    ensures start <= i
    ensures RunSum(hs, i, j) <= RunSum(hs, start, e)
  {
    RunSplit(hs, start, i, e);
    RunSplit(hs, i, j, e);
    RunNonNegative(hs, start, i);
    RunNonNegative(hs, j, e);
  }

  /** When the run `start..hour` is broken by the unfocused hour `hour`,
      every run ending by `hour + 1` is bounded by the larger of the best
      so far and the run just closed. */
  lemma RunsBoundedAtBreak(hs: seq<HourTotal>, start: nat, hour: nat, maxStreak: int, current: int)
    requires start <= hour < 24 && !Focused(hs, hour) && maxStreak >= 0
    requires IsRun(hs, start, hour) && current == RunSum(hs, start, hour)
    requires start > 0 ==> !Focused(hs, start - 1)
    requires forall i: nat, j: nat :: IsRun(hs, i, j) && j <= start ==> RunSum(hs, i, j) <= maxStreak
    ensures forall i: nat, j: nat :: IsRun(hs, i, j) && j <= hour + 1 ==>
              RunSum(hs, i, j) <= if maxStreak >= current then maxStreak else current
  {
    forall i: nat, j: nat | IsRun(hs, i, j) && j <= hour + 1
      ensures RunSum(hs, i, j) <= if maxStreak >= current then maxStreak else current
    {
      if j <= start {
      } else if j <= hour {
        WithinCurrentRun(hs, start, hour, i, j);
      } else {
        assert i == j;
      }
    }
  }

  /** At the end of the day the open run `start..24` is closed too. */
  lemma RunsBoundedAtEnd(hs: seq<HourTotal>, start: nat, maxStreak: int, best: int)
    requires start <= 24 && IsRun(hs, start, 24)
    requires start > 0 ==> !Focused(hs, start - 1)
    requires forall i: nat, j: nat :: IsRun(hs, i, j) && j <= start ==> RunSum(hs, i, j) <= maxStreak
    requires best >= maxStreak && best >= RunSum(hs, start, 24)
    ensures forall i: nat, j: nat :: IsRun(hs, i, j) ==> RunSum(hs, i, j) <= best
  {
    forall i: nat, j: nat | IsRun(hs, i, j) ensures RunSum(hs, i, j) <= best {
      if j > start {
        WithinCurrentRun(hs, start, 24, i, j);
      }
    }
  }

  /** The seconds behind `focus_streak_mins` in `api_analytics_summary`:
      the largest total of a run of consecutive focused hours. */
  method FocusStreakSecs(hs: seq<HourTotal>) returns (best: int)
    ensures best >= 0
    ensures forall i: nat, j: nat :: IsRun(hs, i, j) ==> RunSum(hs, i, j) <= best
    ensures exists i: nat, j: nat :: IsRun(hs, i, j) && RunSum(hs, i, j) == best
  {
    var maxStreak := 0;
    var current := 0;
    ghost var start: nat := 0;
    ghost var bi: nat, bj: nat := 0, 0;
    for hour := 0 to 24
      invariant start <= hour
      invariant IsRun(hs, start, hour) && current == RunSum(hs, start, hour)
      invariant start > 0 ==> !Focused(hs, start - 1)
      invariant IsRun(hs, bi, bj) && RunSum(hs, bi, bj) == maxStreak && maxStreak >= 0
      invariant forall i: nat, j: nat :: IsRun(hs, i, j) && j <= start ==> RunSum(hs, i, j) <= maxStreak
    {
      var secs := SecsAt(hs, hour);
      if secs > FocusThreshold {
        current := current + secs;
      } else {
        assert !Focused(hs, hour);
        RunsBoundedAtBreak(hs, start, hour, maxStreak, current);
        if current > maxStreak {
          maxStreak := current;
          bi, bj := start, hour;
        }
        current := 0;
        start := hour + 1;
      }
    }
    RunNonNegative(hs, start, 24);
    if current > maxStreak {
      best := current;
      bi, bj := start, 24;
    } else {
      best := maxStreak;
    }
    RunsBoundedAtEnd(hs, start, maxStreak, best);
    assert IsRun(hs, bi, bj) && RunSum(hs, bi, bj) == best;
  }

  /** `focus_streak_mins`: the longest focused run in whole minutes. */
  method FocusStreakMins(hs: seq<HourTotal>) returns (mins: int)
    ensures mins >= 0
    ensures forall i: nat, j: nat :: IsRun(hs, i, j) ==> RunSum(hs, i, j) / 60 <= mins
    ensures exists i: nat, j: nat :: IsRun(hs, i, j) && RunSum(hs, i, j) / 60 == mins
  {
    var best := FocusStreakSecs(hs);
    mins := best / 60;
    forall i: nat, j: nat | IsRun(hs, i, j) ensures RunSum(hs, i, j) / 60 <= mins {
      DivMonotone(RunSum(hs, i, j), best);
    }
  }

  lemma DivMonotone(a: int, b: int)
    requires a <= b
    ensures a / 60 <= b / 60
  {
  }

  // ----------------------------------------------------------- burnout

  /** More than ten hours of tracked time. */
  const LongDayThreshold: int := 10 * 3600

  /** The leading long days among the first `limit` entries. */
  function LeadingLong(days: seq<int>, limit: nat): (c: nat)
    ensures c <= limit && c <= |days|
    ensures forall k :: 0 <= k < c ==> days[k] > LongDayThreshold
    ensures c < limit && c < |days| ==> days[c] <= LongDayThreshold
    decreases limit
  {
    if limit == 0 || |days| == 0 || days[0] <= LongDayThreshold then 0
    else 1 + LeadingLong(days[1..], limit - 1)
  }

  /** `consecutive` in `api_analytics_burnout`: the long days at the head
      of the first seven history entries (one per day with activity, most
      recent first), stopping at the first that is not long. */
  function ConsecutiveLongDays(history: seq<int>): (c: nat)
    ensures c <= 7 && c <= |history|
    ensures forall k :: 0 <= k < c ==> history[k] > LongDayThreshold
    ensures c < 7 && c < |history| ==> history[c] <= LongDayThreshold
  {
    LeadingLong(history, 7)
  }

  /** Entries past the first seven do not change the count. */
  lemma ConsecutiveIgnoresOlderDays(week: seq<int>, older: seq<int>)
    requires |week| >= 7
    ensures ConsecutiveLongDays(week + older) == ConsecutiveLongDays(week)
  {
    assert forall k :: 0 <= k < 7 ==> (week + older)[k] == week[k];
  }

  function Sum(xs: seq<int>): int {
    if |xs| == 0 then 0 else xs[0] + Sum(xs[1..])
  }

  /** `weekly_secs`: the total of the first seven history entries, that is
      of the seven most recent days with activity. With no negative day it
      is at least each of those seven days. */
  function WeeklySecs(history: seq<int>): (r: int)
    ensures (forall k :: 0 <= k < |history| ==> history[k] >= 0) ==>
              forall k :: 0 <= k < |history| && k < 7 ==> 0 <= history[k] <= r
  {
    var week := if |history| <= 7 then history else history[..7];
    SumBoundsEach(week);
    Sum(week)
  }

  /** Every entry of a list without negatives is at most its sum. */
  lemma {:induction false} SumBoundsEach(xs: seq<int>)
    ensures (forall k :: 0 <= k < |xs| ==> xs[k] >= 0) ==> forall k :: 0 <= k < |xs| ==> xs[k] <= Sum(xs)
  {
    if |xs| > 0 && forall k :: 0 <= k < |xs| ==> xs[k] >= 0 {
      SumBoundsEach(xs[1..]);
      SumNonNegative(xs[1..]);
      forall k | 1 <= k < |xs| ensures xs[k] <= Sum(xs) {
        assert xs[1..][k - 1] == xs[k];
      }
    }
  }

  lemma {:induction false} SumNonNegative(xs: seq<int>)
    requires forall k :: 0 <= k < |xs| ==> xs[k] >= 0
    ensures Sum(xs) >= 0
  {
    if |xs| > 0 {
      SumNonNegative(xs[1..]);
    }
  }

  /** Entries past the first seven do not change the weekly total. */
  lemma WeeklySecsIgnoresOlderDays(week: seq<int>, older: seq<int>)
    requires |week| >= 7
    ensures WeeklySecs(week + older) == WeeklySecs(week)
  {
    var all := week + older;
    assert all[..7] == week[..7];
    assert |week| == 7 ==> week[..7] == week;
    assert |all| == 7 ==> all[..7] == all;
  }

  const U32Max: nat := 0xFFFF_FFFF

  /** `weekly_hours as u32`: the float quotient by 3600, cast with Rust's
      saturating float-to-integer conversion. Below 2^32 hours the float
      quotient never rounds across a whole number, so this is the integer
      quotient, clamped to the `u32` range. */
  function WeeklyHours(weeklySecs: int): (w: nat)
    ensures w <= U32Max
    ensures weeklySecs <= 0 ==> w == 0
    ensures 0 < weeklySecs ==> w == U32Max || w * 3600 <= weeklySecs < w * 3600 + 3600
    ensures 0 < weeklySecs < (U32Max + 1) * 3600 ==> w * 3600 <= weeklySecs < w * 3600 + 3600
  {
    if weeklySecs <= 0 then 0
    else if weeklySecs / 3600 > U32Max then U32Max
    else weeklySecs / 3600
  }

  datatype Level = Low | Medium | High | Critical

  function Rank(l: Level): nat {
    match l
    case Low => 0
    case Medium => 1
    case High => 2
    case Critical => 3
  }

  function LevelName(l: Level): (s: string)
    ensures |s| > 0
    ensures s != "unknown"
  {
    match l
    case Low => "low"
    case Medium => "medium"
    case High => "high"
    case Critical => "critical"
  }

  /** The four level names are distinct, so the name gives the level back. */
  lemma LevelNameInjective(a: Level, b: Level)
    requires LevelName(a) == LevelName(b)
    ensures a == b
  {
    assert LevelName(a)[0] == LevelName(b)[0];
  }

  /** The level match of `api_analytics_burnout`, from weekly hours `w`
      and consecutive long days `c`; the first arm that applies wins. */
  function BurnoutLevel(w: nat, c: nat): (l: Level)
    ensures l == Critical <==> w > 60 || c >= 5
    ensures l == High <==> w <= 60 && c < 5 && (w > 50 || c >= 3)
    ensures l == Medium <==> w <= 50 && c < 3 && w > 45
    ensures l == Low <==> w <= 45 && c < 3
  {
    if w > 60 || c >= 5 then Critical
    else if w > 50 || c >= 3 then High
    else if w > 45 then Medium
    else Low
  }

  /** More hours or more long days never lower the level. */
  lemma BurnoutMonotone(w1: nat, c1: nat, w2: nat, c2: nat)
    requires w1 <= w2 && c1 <= c2
    ensures Rank(BurnoutLevel(w1, c1)) <= Rank(BurnoutLevel(w2, c2))
  {
  }

  /** The level and long-day count `api_analytics_burnout` reports, from
      the per-day totals of the days with activity, most recent first;
      `None` is a database that could not be opened, reported as
      "unknown". */
  function Burnout(history: Option<seq<int>>): (r: (string, nat))
    ensures history.None? ==> r == ("unknown", 0)
    ensures history.Some? ==> r.1 <= 7 && r.0 != "unknown"
    ensures history.Some? ==> r.1 == ConsecutiveLongDays(history.value)
    ensures history.Some? ==> r.0 == LevelName(BurnoutLevel(WeeklyHours(WeeklySecs(history.value)), r.1))
    ensures history.Some? ==> var w := WeeklyHours(WeeklySecs(history.value));
              && (r.0 == "critical" <==> w > 60 || r.1 >= 5)
              && (r.0 == "high" <==> w <= 60 && r.1 < 5 && (w > 50 || r.1 >= 3))
              && (r.0 == "medium" <==> w <= 50 && r.1 < 3 && w > 45)
              && (r.0 == "low" <==> w <= 45 && r.1 < 3)
  {
    match history
    case None => ("unknown", 0)
    case Some(days) =>
      var c := ConsecutiveLongDays(days);
      (LevelName(BurnoutLevel(WeeklyHours(WeeklySecs(days)), c)), c)
  }

  /** Five long days in a row are critical whatever the weekly total. */
  lemma FiveLongDaysCritical(history: seq<int>)
    requires |history| >= 5
    requires forall k :: 0 <= k < 5 ==> history[k] > LongDayThreshold
    ensures Burnout(Some(history)).0 == "critical"
  {
  }
}
