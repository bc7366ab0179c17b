/** The read-side queries of src/storage.rs over today's window: the total,
    the per-app summary, the hourly buckets and the per-title breakdown. */
module StorageQueries {
  import opened Text
  import opened Storage

  /** The three counters a query can sum. */
  datatype Counter = Duration | Active | Passive

  function Value(r: Row, c: Counter): int {
    match c
    case Duration => r.durationSecs
    case Active => r.activeSecs
    case Passive => r.passiveSecs
  }

  /** SQL `SUM(column)` over a list of rows (0 for none, as `COALESCE`
      makes it in the total query). */
  function Sum(rows: seq<Row>, c: Counter): int {
    if |rows| == 0 then 0 else Value(rows[0], c) + Sum(rows[1..], c)
  }

  /** `WHERE started_at >= start AND started_at < end` for today's window. */
  function DayRows(rows: seq<Row>, dayStart: int): (r: seq<Row>)
    ensures forall x :: x in r <==> x in rows && InDay(x, dayStart)
    ensures forall i :: 0 <= i < |r| ==> InDay(r[i], dayStart)
    ensures |r| <= |rows|
  {
    if |rows| == 0 then []
    else if InDay(rows[0], dayStart) then [rows[0]] + DayRows(rows[1..], dayStart)
    else DayRows(rows[1..], dayStart)
  }

  /** `get_today_total_secs`: the summed durations of today's rows, and 0
      when today has none. */
  function TodayTotal(rows: seq<Row>, dayStart: int): (t: int)
    ensures |DayRows(rows, dayStart)| == 0 ==> t == 0
  {
    Sum(DayRows(rows, dayStart), Duration)
  }

  /** A table with no row started today has nothing in today's window. */
  lemma NoDayRows(rows: seq<Row>, dayStart: int)
    requires forall x :: x in rows ==> !InDay(x, dayStart)
    ensures DayRows(rows, dayStart) == []
  {
    if |rows| > 0 {
      assert rows[0] in rows;
      assert forall x :: x in rows[1..] ==> x in rows;
      NoDayRows(rows[1..], dayStart);
    }
  }

  // ---------------------------------------------------------------- grouping

  /** The two GROUP BY clauses: `app_name, category` and `app_name, window_title`. */
  datatype Grouping = ByAppCategory | ByAppTitle

  function GroupKey(r: Row, g: Grouping): (string, string) {
    match g
    case ByAppCategory => (r.appName, r.category)
    case ByAppTitle => (r.appName, r.windowTitle)
  }

  /** Some row carries the key `k`. */
  predicate HasKey(rows: seq<Row>, g: Grouping, k: (string, string)) {
    exists i :: 0 <= i < |rows| && GroupKey(rows[i], g) == k
  }

  lemma HasKeyCons(rows: seq<Row>, g: Grouping, k: (string, string))
    requires |rows| > 0
    ensures HasKey(rows, g, k) <==> GroupKey(rows[0], g) == k || HasKey(rows[1..], g, k)
  {
    if HasKey(rows[1..], g, k) {
      var i :| 0 <= i < |rows[1..]| && GroupKey(rows[1..][i], g) == k;
      assert rows[i + 1] == rows[1..][i];
    }
    if HasKey(rows, g, k) && GroupKey(rows[0], g) != k {
      var i :| 0 <= i < |rows| && GroupKey(rows[i], g) == k;
      assert rows[1..][i - 1] == rows[i];
    }
  }

  predicate Distinct<T(==)>(ks: seq<T>) {
    forall i, j :: 0 <= i < j < |ks| ==> ks[i] != ks[j]
  }

  lemma HeadNotInTail<T>(ks: seq<T>)
    requires |ks| > 0 && Distinct(ks)
    ensures ks[0] !in ks[1..] && Distinct(ks[1..])
  {
    forall j | 0 <= j < |ks| - 1 ensures ks[1..][j] != ks[0] {
      assert ks[1..][j] == ks[j + 1];
    }
  }

  /** The distinct group keys occurring in `rows`. */
  function Keys(rows: seq<Row>, g: Grouping): (ks: seq<(string, string)>)
    ensures Distinct(ks)
    ensures forall k :: k in ks <==> HasKey(rows, g, k)
  {
    if |rows| == 0 then []
    else
      var rest := Keys(rows[1..], g);
      forall k ensures HasKey(rows, g, k) <==> GroupKey(rows[0], g) == k || HasKey(rows[1..], g, k) {
        HasKeyCons(rows, g, k);
      }
      if GroupKey(rows[0], g) in rest then rest else [GroupKey(rows[0], g)] + rest
  }

  /** The rows of one group, in table order. */
  function Group(rows: seq<Row>, g: Grouping, k: (string, string)): (r: seq<Row>)
    ensures forall x :: x in r <==> x in rows && GroupKey(x, g) == k
  {
    if |rows| == 0 then []
    else if GroupKey(rows[0], g) == k then [rows[0]] + Group(rows[1..], g, k)
    else Group(rows[1..], g, k)
  }

  /** A key that no row carries has an empty group. */
  lemma {:induction false} EmptyGroup(rows: seq<Row>, g: Grouping, k: (string, string))
    requires !HasKey(rows, g, k)
    ensures Group(rows, g, k) == []
  {
    if |rows| > 0 {
      HasKeyCons(rows, g, k);
      EmptyGroup(rows[1..], g, k);
    }
  }

  lemma SumCons(x: Row, rows: seq<Row>, c: Counter)
    ensures Sum([x] + rows, c) == Value(x, c) + Sum(rows, c)
  {
    assert ([x] + rows)[1..] == rows;
  }

  /** The group of `k` in `rows` is its group in `rows[1..]`, plus the
      first row when that row carries `k`. */
  lemma GroupSumCons(rows: seq<Row>, g: Grouping, k: (string, string), c: Counter)
    requires |rows| > 0
    ensures Sum(Group(rows, g, k), c)
            == Sum(Group(rows[1..], g, k), c) + (if GroupKey(rows[0], g) == k then Value(rows[0], c) else 0)
  {
    if GroupKey(rows[0], g) == k {
      SumCons(rows[0], Group(rows[1..], g, k), c);
    }
  }

  /** The summed counter over the groups of a list of distinct keys. */
  function GroupSums(ks: seq<(string, string)>, rows: seq<Row>, g: Grouping, c: Counter): int {
    if |ks| == 0 then 0 else Sum(Group(rows, g, ks[0]), c) + GroupSums(ks[1..], rows, g, c)
  }

  /** Dropping the first row from every group takes its value away from
      exactly the one group it belongs to. */
  lemma {:induction false} GroupSumsTail(ks: seq<(string, string)>, rows: seq<Row>, g: Grouping, c: Counter)
    requires |rows| > 0 && Distinct(ks)
    ensures GroupSums(ks, rows, g, c)
            == GroupSums(ks, rows[1..], g, c) + (if GroupKey(rows[0], g) in ks then Value(rows[0], c) else 0)
  {
    if |ks| > 0 {
      HeadNotInTail(ks);
      GroupSumsTail(ks[1..], rows, g, c);
      GroupSumCons(rows, g, ks[0], c);
      assert GroupKey(rows[0], g) in ks <==> GroupKey(rows[0], g) == ks[0] || GroupKey(rows[0], g) in ks[1..];
    }
  }

  /** Grouping loses nothing: the group sums add up to the plain sum. */
  lemma {:induction false} GroupSumsTotal(rows: seq<Row>, g: Grouping, c: Counter)
    ensures GroupSums(Keys(rows, g), rows, g, c) == Sum(rows, c)
  {
    if |rows| > 0 {
      var rest := Keys(rows[1..], g);
      var k0 := GroupKey(rows[0], g);
      GroupSumsTotal(rows[1..], g, c);
      GroupSumsTail(rest, rows, g, c);
      if k0 !in rest {
        EmptyGroup(rows[1..], g, k0);
        GroupSumCons(rows, g, k0, c);
        assert ([k0] + rest)[1..] == rest;
      }
    }
  }

  // ------------------------------------------------------ grouped results

  /** One output row of a grouped query: the group key (app name first),
      the category it reports, and the sums of the group's counters. */
  datatype GroupTotal = GroupTotal(key: (string, string), category: string,
                                   totalSecs: int, activeSecs: int, passiveSecs: int)

  /** The two ORDER BY clauses: `total DESC` and `app_name, total DESC`. */
  datatype Order = TotalDesc | AppThenTotalDesc

  /** `a` may be listed before `b`. */
  predicate Before(a: GroupTotal, b: GroupTotal, o: Order) {
    match o
    case TotalDesc => a.totalSecs >= b.totalSecs
    case AppThenTotalDesc =>
      LexLe(a.key.0, b.key.0) && (a.key.0 == b.key.0 ==> a.totalSecs >= b.totalSecs)
  }

  lemma BeforeTotal(a: GroupTotal, b: GroupTotal, o: Order)
    ensures Before(a, b, o) || Before(b, a, o)
  {
    LexLeTotal(a.key.0, b.key.0);
    LexLeRefl(a.key.0);
  }

  lemma BeforeTrans(a: GroupTotal, b: GroupTotal, c: GroupTotal, o: Order)
    requires Before(a, b, o) && Before(b, c, o)
    ensures Before(a, c, o)
  {
    if o == AppThenTotalDesc {
      LexLeTrans(a.key.0, b.key.0, c.key.0);
      if a.key.0 == c.key.0 {
        LexLeAntisymmetric(a.key.0, b.key.0);
      }
    }
  }

  predicate Ordered(es: seq<GroupTotal>, o: Order) {
    forall i, j :: 0 <= i < j < |es| ==> Before(es[i], es[j], o)
  }

  predicate DistinctKeys(es: seq<GroupTotal>) {
    forall i, j :: 0 <= i < j < |es| ==> es[i].key != es[j].key
  }

  function SumTotals(es: seq<GroupTotal>): int {
    if |es| == 0 then 0 else es[0].totalSecs + SumTotals(es[1..])
  }

  lemma ConsOrdered(x: GroupTotal, es: seq<GroupTotal>, o: Order)
    requires Ordered(es, o) && forall y :: y in es ==> Before(x, y, o)
    ensures Ordered([x] + es, o)
  {
    forall i, j | 0 <= i < j < |es| + 1 ensures Before(([x] + es)[i], ([x] + es)[j], o) {
      assert ([x] + es)[j] == es[j - 1];
      if i > 0 { assert ([x] + es)[i] == es[i - 1]; }
    }
  }

  lemma TailOrdered(es: seq<GroupTotal>, o: Order)
    requires |es| > 0 && Ordered(es, o)
    ensures Ordered(es[1..], o) && forall y :: y in es[1..] ==> Before(es[0], y, o)
  {
    forall y | y in es[1..] ensures Before(es[0], y, o) {
      var j :| 0 <= j < |es[1..]| && es[1..][j] == y;
      assert es[j + 1] == y;
    }
  }

  lemma ConsDistinct(x: GroupTotal, es: seq<GroupTotal>)
    requires DistinctKeys(es) && forall y :: y in es ==> y.key != x.key
    ensures DistinctKeys([x] + es)
  {
    forall i, j | 0 <= i < j < |es| + 1 ensures ([x] + es)[i].key != ([x] + es)[j].key {
      assert ([x] + es)[j] == es[j - 1];
      if i > 0 { assert ([x] + es)[i] == es[i - 1]; }
    }
  }

  lemma TailDistinct(es: seq<GroupTotal>)
    requires |es| > 0 && DistinctKeys(es)
    ensures DistinctKeys(es[1..]) && forall y :: y in es[1..] ==> y.key != es[0].key
  {
    forall y | y in es[1..] ensures y.key != es[0].key {
      var j :| 0 <= j < |es[1..]| && es[1..][j] == y;
      assert es[j + 1] == y;
    }
  }

  /** One step of the insertion sort: `x` goes in front of the first entry
      it may precede. */
  function Insert(x: GroupTotal, es: seq<GroupTotal>, o: Order): (r: seq<GroupTotal>)
    ensures |r| == |es| + 1
    ensures forall y :: y in r <==> y == x || y in es
    ensures SumTotals(r) == x.totalSecs + SumTotals(es)
    ensures Ordered(es, o) ==> Ordered(r, o)
    ensures multiset(r) == multiset(es) + multiset{x}
  {
    if |es| == 0 || Before(x, es[0], o) then
      assert Ordered(es, o) ==> Ordered([x] + es, o) by {
        if Ordered(es, o) && |es| > 0 {
          TailOrdered(es, o);
          forall y | y in es ensures Before(x, y, o) {
            if y != es[0] {
              assert y in es[1..];
              BeforeTrans(x, es[0], y, o);
            }
          }
          ConsOrdered(x, es, o);
        }
      }
      [x] + es
    else
      BeforeTotal(x, es[0], o);
      var tail := Insert(x, es[1..], o);
      assert es == [es[0]] + es[1..];
      assert Ordered(es, o) ==> Ordered([es[0]] + tail, o) by {
        if Ordered(es, o) {
          TailOrdered(es, o);
          ConsOrdered(es[0], tail, o);
        }
      }
      [es[0]] + tail
  }

  lemma {:induction false} InsertDistinct(x: GroupTotal, es: seq<GroupTotal>, o: Order)
    requires DistinctKeys(es) && forall y :: y in es ==> y.key != x.key
    ensures DistinctKeys(Insert(x, es, o))
  {
    if |es| == 0 || Before(x, es[0], o) {
      ConsDistinct(x, es);
    } else {
      TailDistinct(es);
      assert forall y :: y in es[1..] ==> y in es;
      InsertDistinct(x, es[1..], o);
      assert es[0] in es;
      ConsDistinct(es[0], Insert(x, es[1..], o));
    }
  }

  /** Insertion sort. SQL leaves the order of ties open; this one keeps
      them in their incoming order. */
  function Sort(es: seq<GroupTotal>, o: Order): (r: seq<GroupTotal>)
    ensures |r| == |es|
    ensures forall y :: y in r <==> y in es
    ensures Ordered(r, o)
    ensures SumTotals(r) == SumTotals(es)
    ensures multiset(r) == multiset(es)
  {
    if |es| == 0 then []
    else
      assert es == [es[0]] + es[1..];
      Insert(es[0], Sort(es[1..], o), o)
  }

  lemma {:induction false} SortDistinct(es: seq<GroupTotal>, o: Order)
    requires DistinctKeys(es)
    ensures DistinctKeys(Sort(es, o))
  {
    if |es| > 0 {
      TailDistinct(es);
      SortDistinct(es[1..], o);
      InsertDistinct(es[0], Sort(es[1..], o), o);
    }
  }

  // ----------------------------------------------------------- date summary

  /** The summary row of one (app, category) group. */
  function SummaryOf(rows: seq<Row>, k: (string, string)): GroupTotal {
    var grp := Group(rows, ByAppCategory, k);
    GroupTotal(k, k.1, Sum(grp, Duration), Sum(grp, Active), Sum(grp, Passive))
  }

  function Summaries(ks: seq<(string, string)>, rows: seq<Row>): (es: seq<GroupTotal>)
    ensures |es| == |ks|
    ensures forall i :: 0 <= i < |ks| ==> es[i] == SummaryOf(rows, ks[i])
    ensures SumTotals(es) == GroupSums(ks, rows, ByAppCategory, Duration)
  {
    if |ks| == 0 then [] else [SummaryOf(rows, ks[0])] + Summaries(ks[1..], rows)
  }

  /** `get_date_summary`: one entry per (app, category) with rows in the
      day, carrying the sums of that group's three counters, largest total
      first; the totals add up to the day's total. */
  function DateSummary(rows: seq<Row>, dayStart: int): (r: seq<GroupTotal>)
    ensures Ordered(r, TotalDesc)
    ensures DistinctKeys(r)
    ensures forall e :: e in r ==>
              var grp := Group(DayRows(rows, dayStart), ByAppCategory, e.key);
              && |grp| > 0
              && e.category == e.key.1
              && e.totalSecs == Sum(grp, Duration)
              && e.activeSecs == Sum(grp, Active)
              && e.passiveSecs == Sum(grp, Passive)
    ensures forall x :: x in DayRows(rows, dayStart) ==>
              exists e :: e in r && e.key == GroupKey(x, ByAppCategory)
    ensures SumTotals(r) == TodayTotal(rows, dayStart)
  {
    var day := DayRows(rows, dayStart);
    var es := Summaries(Keys(day, ByAppCategory), day);
    SummariesDistinct(day);
    SummariesNonEmpty(day);
    SummariesCover(day);
    GroupSumsTotal(day, ByAppCategory, Duration);
    SortDistinct(es, TotalDesc);
    Sort(es, TotalDesc)
  }

  /** One summary per key, so no key twice. */
  lemma SummariesDistinct(day: seq<Row>)
    ensures DistinctKeys(Summaries(Keys(day, ByAppCategory), day))
  {
    var ks := Keys(day, ByAppCategory);
    var es := Summaries(ks, day);
    forall i, j | 0 <= i < j < |es| ensures es[i].key != es[j].key {
      assert es[i].key == ks[i] && es[j].key == ks[j];
    }
  }

  /** Every summary stands for a group with at least one row. */
  lemma SummariesNonEmpty(day: seq<Row>)
    ensures forall e :: e in Summaries(Keys(day, ByAppCategory), day) ==>
              |Group(day, ByAppCategory, e.key)| > 0
  {
    var ks := Keys(day, ByAppCategory);
    var es := Summaries(ks, day);
    forall e | e in es
      ensures |Group(day, ByAppCategory, e.key)| > 0
    {
      var i :| 0 <= i < |es| && es[i] == e;
      assert HasKey(day, ByAppCategory, ks[i]);
      var j :| 0 <= j < |day| && GroupKey(day[j], ByAppCategory) == ks[i];
      assert day[j] in Group(day, ByAppCategory, ks[i]);
    }
  }

  /** Every row's group has a summary. */
  lemma SummariesCover(day: seq<Row>)
    ensures forall x :: x in day ==>
              exists e :: e in Summaries(Keys(day, ByAppCategory), day) && e.key == GroupKey(x, ByAppCategory)
  {
    var ks := Keys(day, ByAppCategory);
    var es := Summaries(ks, day);
    forall x | x in day
      ensures exists e :: e in es && e.key == GroupKey(x, ByAppCategory)
    {
      var j :| 0 <= j < |day| && day[j] == x;
      var k := GroupKey(x, ByAppCategory);
      assert HasKey(day, ByAppCategory, k);
      var i :| 0 <= i < |ks| && ks[i] == k;
      assert es[i] in es && es[i].key == k;
    }
  }

  /** After `reset_today` the day's total is 0 and its summary is empty. */
  lemma ResetClearsToday(rows: seq<Row>, dayStart: int)
    ensures TodayTotal(ResetToday(rows, dayStart), dayStart) == 0
    ensures DateSummary(ResetToday(rows, dayStart), dayStart) == []
  {
    NoDayRows(ResetToday(rows, dayStart), dayStart);
  }

  // -------------------------------------------------------- detailed titles

  /** The detail row of one (app, title) group. SQLite reports the bare
      `category` column from one row of the group without saying which; the
      model takes the group's first row. Only the total is selected by the
      query; the other two sums ride along. */
  function DetailOf(rows: seq<Row>, k: (string, string)): (d: GroupTotal)
    ensures d.key == k
    ensures d.totalSecs == Sum(Group(rows, ByAppTitle, k), Duration)
    ensures |Group(rows, ByAppTitle, k)| > 0 ==>
              exists x :: x in Group(rows, ByAppTitle, k) && x.category == d.category
  {
    var grp := Group(rows, ByAppTitle, k);
    var category := if |grp| > 0 then grp[0].category else "";
    GroupTotal(k, category, Sum(grp, Duration), Sum(grp, Active), Sum(grp, Passive))
  }

  /** `HAVING total >= 5` over the groups of the listed keys. */
  function Details(ks: seq<(string, string)>, rows: seq<Row>): (ds: seq<GroupTotal>)
    ensures forall d :: d in ds ==> d.key in ks && d == DetailOf(rows, d.key) && d.totalSecs >= 5
    ensures forall k :: k in ks && Sum(Group(rows, ByAppTitle, k), Duration) >= 5 ==> DetailOf(rows, k) in ds
  {
    if |ks| == 0 then []
    else
      var rest := Details(ks[1..], rows);
      assert ks == [ks[0]] + ks[1..];
      if Sum(Group(rows, ByAppTitle, ks[0]), Duration) >= 5 then [DetailOf(rows, ks[0])] + rest else rest
  }

  lemma {:induction false} DetailsDistinct(ks: seq<(string, string)>, rows: seq<Row>)
    requires Distinct(ks)
    ensures DistinctKeys(Details(ks, rows))
  {
    if |ks| > 0 {
      HeadNotInTail(ks);
      DetailsDistinct(ks[1..], rows);
      if Sum(Group(rows, ByAppTitle, ks[0]), Duration) >= 5 {
        ConsDistinct(DetailOf(rows, ks[0]), Details(ks[1..], rows));
      }
    }
  }

  lemma EmptySum(rows: seq<Row>, c: Counter)
    requires |rows| == 0
    ensures Sum(rows, c) == 0
  {
  }

  /** `get_today_detailed`: one entry per (app, title) group of today whose
      durations sum to at least 5 seconds, ordered by app name and then by
      total, largest first. */
  function TodayDetailed(rows: seq<Row>, dayStart: int): (r: seq<GroupTotal>)
    ensures Ordered(r, AppThenTotalDesc)
    ensures DistinctKeys(r)
    ensures forall d :: d in r ==>
              var grp := Group(DayRows(rows, dayStart), ByAppTitle, d.key);
              && d.totalSecs == Sum(grp, Duration) >= 5
              && exists x :: x in grp && x.category == d.category
    ensures forall x :: x in DayRows(rows, dayStart) ==>
              var k := GroupKey(x, ByAppTitle);
              Sum(Group(DayRows(rows, dayStart), ByAppTitle, k), Duration) >= 5 ==>
                exists d :: d in r && d.key == k
  {
    var day := DayRows(rows, dayStart);
    var ks := Keys(day, ByAppTitle);
    var ds := Details(ks, day);
    forall d | d in ds
      ensures |Group(day, ByAppTitle, d.key)| > 0
    {
      if |Group(day, ByAppTitle, d.key)| == 0 {
        EmptySum(Group(day, ByAppTitle, d.key), Duration);
      }
    }
    forall x | x in day && Sum(Group(day, ByAppTitle, GroupKey(x, ByAppTitle)), Duration) >= 5
      ensures exists d :: d in ds && d.key == GroupKey(x, ByAppTitle)
    {
      var j :| 0 <= j < |day| && day[j] == x;
      assert HasKey(day, ByAppTitle, GroupKey(x, ByAppTitle));
      assert DetailOf(day, GroupKey(x, ByAppTitle)) in ds;
    }
    DetailsDistinct(ks, day);
    SortDistinct(ds, AppThenTotalDesc);
    Sort(ds, AppThenTotalDesc)
  }

  // ------------------------------------------------------------ hourly data

  /** Hour of the day a row started in, counted from the day's midnight. */
  function HourOf(r: Row, dayStart: int): (h: int)
    ensures InDay(r, dayStart) ==> 0 <= h < 24
  {
    (r.startedAt - dayStart) / 3600
  }

  /** Today's rows that started in hour `h`. */
  function HourRows(rows: seq<Row>, dayStart: int, h: int): (r: seq<Row>)
    ensures forall x :: x in r <==> x in rows && InDay(x, dayStart) && HourOf(x, dayStart) == h
  {
    if |rows| == 0 then []
    else if InDay(rows[0], dayStart) && HourOf(rows[0], dayStart) == h
    then [rows[0]] + HourRows(rows[1..], dayStart, h)
    else HourRows(rows[1..], dayStart, h)
  }

  /** One bucket of the hourly views: an hour and its summed counters. */
  datatype HourBucket = HourBucket(hour: int, totalSecs: int, activeSecs: int, passiveSecs: int)

  function BucketOf(rows: seq<Row>, dayStart: int, h: int): HourBucket {
    var hr := HourRows(rows, dayStart, h);
    HourBucket(h, Sum(hr, Duration), Sum(hr, Active), Sum(hr, Passive))
  }

  /** The buckets for hours `h..23` that have at least one row. */
  function HourlyFrom(rows: seq<Row>, dayStart: int, h: nat): (bs: seq<HourBucket>)
    requires h <= 24
    ensures forall i :: 0 <= i < |bs| ==> h <= bs[i].hour < 24
    ensures forall i, j :: 0 <= i < j < |bs| ==> bs[i].hour < bs[j].hour
    ensures forall i :: 0 <= i < |bs| ==>
              bs[i] == BucketOf(rows, dayStart, bs[i].hour) && |HourRows(rows, dayStart, bs[i].hour)| > 0
    decreases 24 - h
  {
    if h == 24 then []
    else
      var rest := HourlyFrom(rows, dayStart, h + 1);
      if |HourRows(rows, dayStart, h)| > 0 then
        var bs := [BucketOf(rows, dayStart, h)] + rest;
        assert forall i :: 1 <= i < |bs| ==> bs[i] == rest[i - 1];
        bs
      else rest
  }

  /** No hour with rows is skipped. */
  lemma {:induction false} HourlyFromComplete(rows: seq<Row>, dayStart: int, h: nat, k: nat)
    requires h <= k < 24 && |HourRows(rows, dayStart, k)| > 0
    ensures BucketOf(rows, dayStart, k) in HourlyFrom(rows, dayStart, h)
    decreases 24 - h
  {
    if k > h {
      HourlyFromComplete(rows, dayStart, h + 1, k);
    }
  }

  /** `get_today_hourly` and `get_today_hourly_detailed`: one bucket per
      hour that has rows today, in increasing hour order, each carrying the
      sums of that hour's rows. The first query reads the totals, the
      second the active and passive sums. */
  function Hourly(rows: seq<Row>, dayStart: int): (bs: seq<HourBucket>)
    ensures forall i :: 0 <= i < |bs| ==> 0 <= bs[i].hour < 24
    ensures forall i, j :: 0 <= i < j < |bs| ==> bs[i].hour < bs[j].hour
    ensures forall x :: x in DayRows(rows, dayStart) ==>
              exists i :: 0 <= i < |bs| && bs[i].hour == HourOf(x, dayStart)
    ensures forall i :: 0 <= i < |bs| ==>
              var hr := HourRows(rows, dayStart, bs[i].hour);
              && |hr| > 0
              && bs[i].totalSecs == Sum(hr, Duration)
              && bs[i].activeSecs == Sum(hr, Active)
              && bs[i].passiveSecs == Sum(hr, Passive)
  {
    var bs := HourlyFrom(rows, dayStart, 0);
    forall x | x in DayRows(rows, dayStart)
      ensures exists i :: 0 <= i < |bs| && bs[i].hour == HourOf(x, dayStart)
    {
      assert x in HourRows(rows, dayStart, HourOf(x, dayStart));
      HourlyFromComplete(rows, dayStart, 0, HourOf(x, dayStart));
      var i :| 0 <= i < |bs| && bs[i] == BucketOf(rows, dayStart, HourOf(x, dayStart));
    }
    bs
  }

  function BucketTotals(bs: seq<HourBucket>): int {
    if |bs| == 0 then 0 else bs[0].totalSecs + BucketTotals(bs[1..])
  }

  /** The summed durations of hours `h..23`. */
  function HourSums(rows: seq<Row>, dayStart: int, h: nat): int
    requires h <= 24
    decreases 24 - h
  {
    if h == 24 then 0 else Sum(HourRows(rows, dayStart, h), Duration) + HourSums(rows, dayStart, h + 1)
  }

  lemma {:induction false} BucketTotalsFrom(rows: seq<Row>, dayStart: int, h: nat)
    requires h <= 24
    ensures BucketTotals(HourlyFrom(rows, dayStart, h)) == HourSums(rows, dayStart, h)
    decreases 24 - h
  {
    if h < 24 {
      BucketTotalsFrom(rows, dayStart, h + 1);
      var hr := HourRows(rows, dayStart, h);
      if |hr| == 0 {
        EmptySum(hr, Duration);
      } else {
        assert HourlyFrom(rows, dayStart, h)[1..] == HourlyFrom(rows, dayStart, h + 1);
      }
    }
  }

  /** Dropping the first row from every hour takes its duration away from
      the one hour it started in, if it started today. */
  lemma {:induction false} HourSumsTail(rows: seq<Row>, dayStart: int, h: nat)
    requires |rows| > 0 && h <= 24
    ensures HourSums(rows, dayStart, h)
            == HourSums(rows[1..], dayStart, h)
               + (if InDay(rows[0], dayStart) && h <= HourOf(rows[0], dayStart) then rows[0].durationSecs else 0)
    decreases 24 - h
  {
    if h < 24 {
      HourSumsTail(rows, dayStart, h + 1);
      if InDay(rows[0], dayStart) && HourOf(rows[0], dayStart) == h {
        SumCons(rows[0], HourRows(rows[1..], dayStart, h), Duration);
      }
    }
  }

  lemma {:induction false} HourSumsEmpty(rows: seq<Row>, dayStart: int, h: nat)
    requires |rows| == 0 && h <= 24
    ensures HourSums(rows, dayStart, h) == 0
    decreases 24 - h
  {
    if h < 24 {
      HourSumsEmpty(rows, dayStart, h + 1);
    }
  }

  lemma {:induction false} HourSumsTotal(rows: seq<Row>, dayStart: int)
    ensures HourSums(rows, dayStart, 0) == TodayTotal(rows, dayStart)
  {
    if |rows| == 0 {
      HourSumsEmpty(rows, dayStart, 0);
    } else {
      HourSumsTotal(rows[1..], dayStart);
      HourSumsTail(rows, dayStart, 0);
      if InDay(rows[0], dayStart) {
        SumCons(rows[0], DayRows(rows[1..], dayStart), Duration);
      }
    }
  }

  /** The hourly buckets account for every second of today's total. */
  lemma HourlyMatchesTotal(rows: seq<Row>, dayStart: int)
    ensures BucketTotals(Hourly(rows, dayStart)) == TodayTotal(rows, dayStart)
  {
    BucketTotalsFrom(rows, dayStart, 0);
    HourSumsTotal(rows, dayStart);
  }
}
