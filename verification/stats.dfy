/**
 * The analytics page (app/stats/StatsClient.tsx): applications per week over the last eight
 * weeks, the status histogram, the offer and rejection rates, and the cumulative series of
 * applications per calendar day.
 *
 * The week label of a time (`${year}-W${week}` in local time) is the parameter `weekOf`.
 */
module Stats {
  import opened Wrappers
  import opened Text
  import opened Sorting
  import opened Domain

  // ---------------------------------------------------------------- applications per week

  /** One bar of the weekly chart. */
  datatype Week = Week(name: string, count: nat)

  const WeekCount: nat := 8

  /** The time `weeksAgo` weeks before `now`. */
  function WeeksBefore(now: int, weeksAgo: nat): int {
    now - weeksAgo * 7 * MsPerDay
  }

  /** The sum of the counts of the bars. */
  function Sum(weeks: seq<Week>): nat {
    if weeks == [] then 0 else weeks[0].count + Sum(weeks[1..])
  }

  /**
   * The eight bars, oldest first: bar `k` is labelled with the week of the day `7 - k` weeks
   * before now, and starts at 0.
   */
  method BuildWeeks(now: int, weekOf: int -> string) returns (weeks: seq<Week>)
    ensures |weeks| == WeekCount
    ensures forall k :: 0 <= k < |weeks| ==>
      weeks[k].name == weekOf(WeeksBefore(now, WeekCount - 1 - k)) && weeks[k].count == 0
    ensures Sum(weeks) == 0
  {
    weeks := [];
    var i: int := WeekCount - 1;
    while i >= 0
      invariant -1 <= i < WeekCount
      invariant |weeks| == WeekCount - 1 - i
      invariant forall k :: 0 <= k < |weeks| ==>
        weeks[k].name == weekOf(WeeksBefore(now, WeekCount - 1 - k)) && weeks[k].count == 0
    {
      weeks := weeks + [Week(weekOf(WeeksBefore(now, i)), 0)];
      i := i - 1;
    }
    ZeroSum(weeks);
  }

  /** The bars are in time order: a later bar is labelled with a later day. */
  lemma WeeksOldestFirst(now: int, i: nat, k: nat)
    requires i < k < WeekCount
    ensures WeeksBefore(now, WeekCount - 1 - i) < WeeksBefore(now, WeekCount - 1 - k)
  {
  }

  lemma {:induction false} ZeroSum(weeks: seq<Week>)
    requires forall k :: 0 <= k < |weeks| ==> weeks[k].count == 0
    ensures Sum(weeks) == 0
  {
    if weeks != [] {
      ZeroSum(weeks[1..]);
    }
  }

  /** `weeks.find((w) => w.label === l)`: the first bar labelled `l`, if any. */
  function FirstWithLabel(weeks: seq<Week>, l: string): (r: Option<nat>)
    ensures r.Some? ==> r.value < |weeks| && weeks[r.value].name == l
    ensures r.Some? ==> forall k :: 0 <= k < r.value ==> weeks[k].name != l
    ensures r.None? ==> forall k :: 0 <= k < |weeks| ==> weeks[k].name != l
  {
    if weeks == [] then None
    else if weeks[0].name == l then Some(0)
    else
      match FirstWithLabel(weeks[1..], l)
      case None => None
      case Some(k) => Some(k + 1)
  }

  /** The bar an application counts towards, if its week is one of the bars. */
  function TargetOf(weeks: seq<Week>, a: Job, weekOf: int -> string): Option<nat> {
    FirstWithLabel(weeks, weekOf(a.dateApplied.ms))
  }

  /** The number of applications that count towards bar `k`. */
  function Hits(weeks: seq<Week>, apps: seq<Job>, weekOf: int -> string, k: nat): (n: nat)
    ensures n <= |apps|
  {
    if apps == [] then 0
    else
      Hits(weeks, apps[..|apps| - 1], weekOf, k)
      + (if TargetOf(weeks, apps[|apps| - 1], weekOf) == Some(k) then 1 else 0)
  }

  /** The number of applications whose week is one of the bars. */
  function Matched(weeks: seq<Week>, apps: seq<Job>, weekOf: int -> string): (n: nat)
    ensures n <= |apps|
  {
    if apps == [] then 0
    else
      Matched(weeks, apps[..|apps| - 1], weekOf)
      + (if TargetOf(weeks, apps[|apps| - 1], weekOf).Some? then 1 else 0)
  }

  /** The bars after counting: each bar's count grows by the applications that land on it. */
  function Counted(weeks: seq<Week>, apps: seq<Job>, weekOf: int -> string): (r: seq<Week>)
    ensures |r| == |weeks|
    ensures forall k :: 0 <= k < |weeks| ==> r[k].name == weeks[k].name && r[k].count >= weeks[k].count
  {
    seq(|weeks|, k requires 0 <= k < |weeks| =>
      Week(weeks[k].name, weeks[k].count + Hits(weeks, apps, weekOf, k)))
  }

  /** The first bar with a label depends on the labels only, not on the counts. */
  lemma SameLabelsSameFirst(a: seq<Week>, b: seq<Week>, l: string)
    requires |a| == |b| && forall k :: 0 <= k < |a| ==> a[k].name == b[k].name
    ensures FirstWithLabel(a, l) == FirstWithLabel(b, l)
  {
  }

  /** Counting one more application adds one to its bar, or nothing when its week is not shown. */
  lemma CountedLast(weeks: seq<Week>, apps: seq<Job>, weekOf: int -> string)
    requires apps != []
    ensures var before := Counted(weeks, apps[..|apps| - 1], weekOf);
      Counted(weeks, apps, weekOf) ==
        match TargetOf(weeks, apps[|apps| - 1], weekOf)
        case None => before
        case Some(t) => before[t := Week(before[t].name, before[t].count + 1)]
  {
  }

  lemma {:induction false} SumBump(weeks: seq<Week>, t: nat)
    requires t < |weeks|
    ensures Sum(weeks[t := Week(weeks[t].name, weeks[t].count + 1)]) == Sum(weeks) + 1
  {
    var bumped := weeks[t := Week(weeks[t].name, weeks[t].count + 1)];
    if t == 0 {
      assert bumped[1..] == weeks[1..];
    } else {
      SumBump(weeks[1..], t - 1);
      assert bumped[1..] == weeks[1..][t - 1 := Week(weeks[t].name, weeks[t].count + 1)];
    }
  }

  /** Counting adds exactly one per application whose week is shown. */
  lemma {:induction false} SumCounted(weeks: seq<Week>, apps: seq<Job>, weekOf: int -> string)
    ensures Sum(Counted(weeks, apps, weekOf)) == Sum(weeks) + Matched(weeks, apps, weekOf)
  {
    if apps == [] {
      assert Counted(weeks, apps, weekOf) == weeks;
    } else {
      var prefix := apps[..|apps| - 1];
      var before := Counted(weeks, prefix, weekOf);
      var after := Counted(weeks, apps, weekOf);
      SumCounted(weeks, prefix, weekOf);
      CountedLast(weeks, apps, weekOf);
      assert Matched(weeks, apps, weekOf) == Matched(weeks, prefix, weekOf)
        + (if TargetOf(weeks, apps[|apps| - 1], weekOf).Some? then 1 else 0);
      match TargetOf(weeks, apps[|apps| - 1], weekOf)
      case None =>
        assert after == before;
      case Some(t) =>
        assert after == before[t := Week(before[t].name, before[t].count + 1)];
        SumBump(before, t);
    }
  }

  /**
   * The counting loop: for each application, add one to the first bar with its week's label,
   * if there is one. Each bar grows by the applications that land on it first, and the bars
   * together grow by the applications whose week is shown, which is at most all of them.
   */
  method CountApplications(weeks: seq<Week>, apps: seq<Job>, weekOf: int -> string) returns (counted: seq<Week>)
    ensures counted == Counted(weeks, apps, weekOf)
    ensures Sum(counted) == Sum(weeks) + Matched(weeks, apps, weekOf)
    ensures Sum(counted) <= Sum(weeks) + |apps|
  {
    counted := weeks;
    assert apps[..0] == [];
    assert Counted(weeks, apps[..0], weekOf) == weeks;
    for i := 0 to |apps|
      invariant counted == Counted(weeks, apps[..i], weekOf)
    {
      var a := apps[i];
      var target := FirstWithLabel(counted, weekOf(a.dateApplied.ms));
      SameLabelsSameFirst(counted, weeks, weekOf(a.dateApplied.ms));
      assert apps[..i + 1][..i] == apps[..i];
      assert apps[..i + 1][i] == a;
      CountedLast(weeks, apps[..i + 1], weekOf);
      if target.Some? {
        var t := target.value;
        counted := counted[t := Week(counted[t].name, counted[t].count + 1)];
      }
    }
    assert apps[..|apps|] == apps;
    SumCounted(weeks, apps, weekOf);
  }

  /**
   * The weekly chart: eight bars, oldest first; bar `k` counts the applications whose week
   * label is the bar's (and no earlier bar's), and the bars add up to the applications that fall
   * into one of the eight weeks, at most all of them.
   */
  method ApplicationsPerWeek(apps: seq<Job>, now: int, weekOf: int -> string) returns (weeks: seq<Week>)
    ensures |weeks| == WeekCount
    ensures forall k :: 0 <= k < |weeks| ==> weeks[k].name == weekOf(WeeksBefore(now, WeekCount - 1 - k))
    ensures forall k :: 0 <= k < |weeks| ==> weeks[k].count == Hits(weeks, apps, weekOf, k)
    ensures Sum(weeks) == Matched(weeks, apps, weekOf) <= |apps|
  {
    var empty := BuildWeeks(now, weekOf);
    weeks := CountApplications(empty, apps, weekOf);
    SameLabelsAll(empty, weeks, apps, weekOf);
  }

  /** Hits and matches depend on the labels of the bars only. */
  lemma {:induction false} SameLabelsAll(a: seq<Week>, b: seq<Week>, apps: seq<Job>, weekOf: int -> string)
    requires |a| == |b| && forall k :: 0 <= k < |a| ==> a[k].name == b[k].name
    ensures forall k: nat :: Hits(a, apps, weekOf, k) == Hits(b, apps, weekOf, k)
    ensures Matched(a, apps, weekOf) == Matched(b, apps, weekOf)
  {
    if apps != [] {
      SameLabelsAll(a, b, apps[..|apps| - 1], weekOf);
      SameLabelsSameFirst(a, b, weekOf(apps[|apps| - 1].dateApplied.ms));
    }
  }

  // ---------------------------------------------------------------- rates and histogram

  /**
   * `total ? Math.round((part / total) * 100) : 0` in exact arithmetic: 0 for no applications,
   * otherwise the whole percentage nearest to `100 * part / total`, halves rounded up.
   */
  function RoundPercent(part: nat, total: nat): (r: nat)
    ensures total == 0 ==> r == 0
    ensures total > 0 ==> 2 * total * r <= 200 * part + total < 2 * total * (r + 1)
    ensures part <= total ==> r <= 100
  {
    if total == 0 then 0
    else
      var r := (200 * part + total) / (2 * total);
      var m := (200 * part + total) % (2 * total);
      assert 200 * part + total == 2 * total * r + m;
      assert part <= total ==> r <= 100 by {
        if part <= total {
          assert 2 * total * r < 2 * total * 101;
          RatioBound(r, total);
        }
      }
      r
  }

  lemma RatioBound(r: nat, total: nat)
    requires total > 0 && 2 * total * r < 2 * total * 101
    ensures r <= 100
  {
    MulCancel(2 * total, r, 101);
  }

  /** A positive factor can be cancelled from both sides of `<=`, or of `<` turned into `<=`. */
  lemma MulCancel(t: nat, x: nat, y: nat)
    requires t > 0
    ensures t * x < t * y ==> x < y
    ensures t * x <= t * y ==> x <= y
  {
    if x > y {
      assert t * x == t * y + t * (x - y);
    } else if x == y {
    }
  }

  /**
   * The two rates of disjoint groups add up to at most 101: each is rounded by at most half a
   * point, so together they may overshoot 100 by one (3 of 8 and 5 of 8 show as 38% and 63%).
   */
  lemma RatesSumBound(offers: nat, rejections: nat, total: nat)
    requires offers + rejections <= total
    ensures RoundPercent(offers, total) + RoundPercent(rejections, total) <= 101
  {
    if total > 0 {
      var t := 2 * total;
      var a, b := RoundPercent(offers, total), RoundPercent(rejections, total);
      assert t * a <= 200 * offers + total;
      assert t * b <= 200 * rejections + total;
      assert t * (a + b) == t * a + t * b;
      assert t * 101 == 200 * total + 2 * total;
      MulCancel(t, a + b, 101);
    }
  }

  /** The bound is reached: 3 offers and 5 rejections out of 8 show as 38% and 63%. */
  lemma RatesMayReach101()
    ensures RoundPercent(3, 8) == 38 && RoundPercent(5, 8) == 63
  {
  }

  /** The headline numbers and the status histogram of the page. */
  datatype Summary = Summary(total: nat, offerRate: nat, rejectionRate: nat, statusCounts: map<Status, nat>)

  /**
   * The key figures: the number of applications, the offer and rejection rates, and the count
   * of each status, which add up to the total.
   */
  method Summarize(apps: seq<Job>) returns (s: Summary)
    ensures s.total == |apps|
    ensures s.offerRate == RoundPercent(|WithStatus(apps, Selected)|, |apps|) && s.offerRate <= 100
    ensures s.rejectionRate == RoundPercent(|WithStatus(apps, Rejected)|, |apps|) && s.rejectionRate <= 100
    ensures s.offerRate + s.rejectionRate <= 101
    ensures forall st :: st in s.statusCounts && s.statusCounts[st] == |WithStatus(apps, st)|
    ensures Total(s.statusCounts) == s.total
  {
    var total := |apps|;
    var offers := |WithStatus(apps, Selected)|;
    var rejections := |WithStatus(apps, Rejected)|;
    StatusPartition(apps);
    RatesSumBound(offers, rejections, total);
    var counts := TallyByStatus(apps);
    s := Summary(total, RoundPercent(offers, total), RoundPercent(rejections, total), counts);
  }

  // ---------------------------------------------------------------- cumulative series

  /** One point of the cumulative line: a calendar day and the applications up to it. */
  datatype Point = Point(date: string, count: nat)

  /** The calendar day of an application: the first ten characters of its ISO date. */
  function DayOf(a: Job): string {
    Prefix(a.dateApplied.iso, 10)
  }

  function Dates(points: seq<Point>): (r: seq<string>)
    ensures |r| == |points|
    ensures forall i :: 0 <= i < |points| ==> r[i] == points[i].date
  {
    seq(|points|, i requires 0 <= i < |points| => points[i].date)
  }

  function DaysOf(apps: seq<Job>): (r: seq<string>)
    ensures |r| == |apps|
  {
    seq(|apps|, i requires 0 <= i < |apps| => DayOf(apps[i]))
  }

  predicate Distinct(s: seq<string>) {
    forall i, j :: 0 <= i < j < |s| ==> s[i] != s[j]
  }

  /** The place of `date` among the keys of the map, if it is there. */
  function IndexOf(points: seq<Point>, date: string): (r: Option<nat>)
    ensures r.Some? ==> r.value < |points| && points[r.value].date == date
    ensures r.None? <==> date !in Dates(points)
  {
    if points == [] then None
    else if points[0].date == date then Some(0)
    else
      assert Dates(points) == [points[0].date] + Dates(points[1..]);
      match IndexOf(points[1..], date)
      case None => None
      case Some(k) => Some(k + 1)
  }

  /**
   * `map.set(date, count)` on a `Map` kept as its entries in insertion order: an existing key
   * keeps its place and takes the new count; a new key goes at the end.
   */
  function MapSet(points: seq<Point>, date: string, count: nat): (r: seq<Point>)
    ensures date in Dates(points) ==> Dates(r) == Dates(points)
    ensures date !in Dates(points) ==> r == points + [Point(date, count)]
    ensures forall i :: 0 <= i < |points| && points[i].date != date ==> r[i] == points[i]
    ensures Distinct(Dates(points)) ==>
      forall i :: 0 <= i < |points| && points[i].date == date ==> r[i] == Point(date, count)
  {
    match IndexOf(points, date)
    case None => points + [Point(date, count)]
    case Some(k) =>
      assert Distinct(Dates(points)) ==> forall i :: 0 <= i < |points| && points[i].date == date ==> i == k by {
        if Distinct(Dates(points)) {
          forall i | 0 <= i < |points| && points[i].date == date ensures i == k {
            assert Dates(points)[i] == Dates(points)[k];
          }
        }
      }
      points[k := Point(date, count)]
  }

  /** The entries of the map after counting the days of `sorted` one by one. */
  function Fold(sorted: seq<Job>): (r: seq<Point>)
  {
    if sorted == [] then []
    else MapSet(Fold(sorted[..|sorted| - 1]), DayOf(sorted[|sorted| - 1]), |sorted|)
  }

  /** The series of the page: the applications sorted by date, folded into the map. */
  function CumulativeSeries(apps: seq<Job>): seq<Point> {
    Fold(SortBy(apps, AppliedAt))
  }

  /** Appending a day that is not there keeps the days distinct. */
  lemma DistinctSnoc(days: seq<string>, day: string)
    requires Distinct(days) && day !in days
    ensures Distinct(days + [day])
  {
  }

  /** The map has one entry per distinct day, and its days are those of the applications. */
  lemma {:induction false} FoldDates(sorted: seq<Job>)
    ensures Distinct(Dates(Fold(sorted)))
    ensures forall d :: d in Dates(Fold(sorted)) <==> d in DaysOf(sorted)
  {
    if sorted != [] {
      var prefix := sorted[..|sorted| - 1];
      var day := DayOf(sorted[|sorted| - 1]);
      FoldDates(prefix);
      var before := Fold(prefix);
      assert Fold(sorted) == MapSet(before, day, |sorted|);
      assert DaysOf(sorted) == DaysOf(prefix) + [day];
      if day !in Dates(before) {
        assert Dates(Fold(sorted)) == Dates(before) + [day];
        DistinctSnoc(Dates(before), day);
      }
    }
  }

  /** Equal days of a sorted list lie next to each other. */
  ghost predicate DaysContiguous(sorted: seq<Job>) {
    forall i, j, k :: 0 <= i < j < k < |sorted| && DayOf(sorted[i]) == DayOf(sorted[k]) ==>
      DayOf(sorted[j]) == DayOf(sorted[i])
  }

  predicate Increasing(points: seq<Point>) {
    forall i, j :: 0 <= i < j < |points| ==> points[i].count < points[j].count
  }

  /** A new day at the end of a contiguous list is not among the earlier days. */
  lemma NewDayIsFresh(sorted: seq<Job>, n: nat)
    requires DaysContiguous(sorted) && 2 <= n <= |sorted|
    requires DayOf(sorted[n - 1]) != DayOf(sorted[n - 2])
    ensures DayOf(sorted[n - 1]) !in DaysOf(sorted[..n - 1])
  {
    var days := DaysOf(sorted[..n - 1]);
    forall i | 0 <= i < n - 1 ensures days[i] != DayOf(sorted[n - 1]) {
      assert days[i] == DayOf(sorted[i]);
    }
  }

  /** In a map with distinct days, the day of the last point is on no other point. */
  lemma OnlyLastHasDate(points: seq<Point>, day: string)
    requires Distinct(Dates(points)) && |points| > 0 && points[|points| - 1].date == day
    ensures forall i :: 0 <= i < |points| - 1 ==> points[i].date != day
  {
    forall i | 0 <= i < |points| - 1 ensures points[i].date != day {
      assert Dates(points)[i] != Dates(points)[|points| - 1];
    }
  }

  /** Appending a point above all counts keeps the counts increasing. */
  lemma AppendIncreasing(points: seq<Point>, p: Point)
    requires Increasing(points)
    requires forall i :: 0 <= i < |points| ==> points[i].count < p.count
    ensures Increasing(points + [p])
  {
  }

  /** Raising the last point above all counts keeps the counts increasing. */
  lemma RaiseLastIncreasing(points: seq<Point>, after: seq<Point>, p: Point)
    requires Increasing(points) && |points| > 0 && |after| == |points|
    requires forall i :: 0 <= i < |points| - 1 ==> after[i] == points[i]
    requires after[|points| - 1] == p
    requires forall i :: 0 <= i < |points| ==> points[i].count < p.count
    ensures Increasing(after)
  {
  }

  /** Every count in the map is at most the number of applications folded so far. */
  lemma {:induction false} FoldCountsBound(sorted: seq<Job>)
    ensures forall i :: 0 <= i < |Fold(sorted)| ==> Fold(sorted)[i].count <= |sorted|
  {
    if sorted != [] {
      var prefix := sorted[..|sorted| - 1];
      FoldCountsBound(prefix);
      var before := Fold(prefix);
      var day := DayOf(sorted[|sorted| - 1]);
      var after := Fold(sorted);
      forall i | 0 <= i < |after| ensures after[i].count <= |sorted| {
        if i < |before| && before[i].date != day {
          assert after[i] == before[i];
        } else if i < |before| {
          assert Dates(before)[i] == day;
          FoldDates(prefix);
          assert after[i] == Point(day, |sorted|);
        } else {
          assert after == before + [Point(day, |sorted|)];
        }
      }
    }
  }

  /** The last point of a non-empty map is the latest application's day with the running count. */
  ghost predicate EndsWith(points: seq<Point>, sorted: seq<Job>) {
    sorted != [] ==>
      |points| > 0 && points[|points| - 1] == Point(DayOf(sorted[|sorted| - 1]), |sorted|)
  }

  /** Folding one more application of the same day as the one before raises the last point. */
  lemma SameDayStep(sorted: seq<Job>)
    requires |sorted| >= 2
    requires Increasing(Fold(sorted[..|sorted| - 1])) && EndsWith(Fold(sorted[..|sorted| - 1]), sorted[..|sorted| - 1])
    requires DayOf(sorted[|sorted| - 1]) == DayOf(sorted[|sorted| - 2])
    ensures Increasing(Fold(sorted)) && EndsWith(Fold(sorted), sorted)
  {
    var n := |sorted|;
    var prefix := sorted[..n - 1];
    var before := Fold(prefix);
    var day := DayOf(sorted[n - 1]);
    FoldCountsBound(prefix);
    FoldDates(prefix);
    var after := MapSet(before, day, n);
    assert Fold(sorted) == after;
    assert prefix[n - 2] == sorted[n - 2];
    assert before[|before| - 1].date == day;
    assert Dates(before)[|before| - 1] == day;
    OnlyLastHasDate(before, day);
    assert |after| == |before|;
    RaiseLastIncreasing(before, after, Point(day, n));
  }

  /** Folding one more application of a new day appends a point. */
  lemma NewDayStep(sorted: seq<Job>, n: nat)
    requires DaysContiguous(sorted) && 2 <= n <= |sorted|
    requires Increasing(Fold(sorted[..n - 1])) && EndsWith(Fold(sorted[..n - 1]), sorted[..n - 1])
    requires DayOf(sorted[n - 1]) != DayOf(sorted[n - 2])
    ensures Increasing(Fold(sorted[..n])) && EndsWith(Fold(sorted[..n]), sorted[..n])
  {
    var s := sorted[..n];
    var prefix := sorted[..n - 1];
    assert s[..n - 1] == prefix;
    var before := Fold(prefix);
    var day := DayOf(s[n - 1]);
    FoldCountsBound(prefix);
    FoldDates(prefix);
    NewDayIsFresh(sorted, n);
    assert day !in Dates(before);
    assert Fold(s) == before + [Point(day, n)];
    AppendIncreasing(before, Point(day, n));
  }

  /**
   * When equal days are contiguous, each new application either raises the last point or adds a
   * new one: the counts increase strictly and the last one is the number of applications.
   */
  lemma FoldShape(sorted: seq<Job>)
    requires DaysContiguous(sorted)
    ensures Increasing(Fold(sorted)) && EndsWith(Fold(sorted), sorted)
  {
    FoldShapeUpTo(sorted, |sorted|);
    assert sorted[..|sorted|] == sorted;
  }

  /** The shape of the map after folding the first `n` applications of a contiguous list. */
  lemma {:induction false} FoldShapeUpTo(sorted: seq<Job>, n: nat)
    requires DaysContiguous(sorted) && n <= |sorted|
    ensures Increasing(Fold(sorted[..n])) && EndsWith(Fold(sorted[..n]), sorted[..n])
  {
    var s := sorted[..n];
    if n == 0 {
      assert s == [];
    } else if n == 1 {
      FoldOne(s);
    } else {
      FoldShapeUpTo(sorted, n - 1);
      assert s[..n - 1] == sorted[..n - 1];
      if DayOf(s[n - 1]) == DayOf(s[n - 2]) {
        SameDayStep(s);
      } else {
        NewDayStep(sorted, n);
      }
    }
  }

  /** One application gives one point with count 1. */
  lemma FoldOne(sorted: seq<Job>)
    requires |sorted| == 1
    ensures Increasing(Fold(sorted)) && EndsWith(Fold(sorted), sorted)
  {
    assert sorted[..0] == [];
    assert Dates([]) == [];
    assert Fold(sorted) == MapSet([], DayOf(sorted[0]), 1) == [Point(DayOf(sorted[0]), 1)];
  }

  /** A later time never falls on an earlier day number. */
  lemma DayNumberMonotone(a: int, b: int)
    requires a <= b
    ensures a / MsPerDay <= b / MsPerDay
  {
  }

  /**
   * The dates are ISO strings from `toISOString`: two of them share their first ten characters
   * exactly when they fall on the same UTC day.
   */
  ghost predicate IsoDates(apps: seq<Job>) {
    forall a, b :: a in apps && b in apps ==>
      (DayOf(a) == DayOf(b) <==> a.dateApplied.ms / MsPerDay == b.dateApplied.ms / MsPerDay)
  }

  /** The sorted copy holds the same applications. */
  lemma SortedMembers(apps: seq<Job>)
    ensures forall x :: x in SortBy(apps, AppliedAt) ==> x in apps
  {
    var sorted := SortBy(apps, AppliedAt);
    forall x | x in sorted ensures x in apps {
      assert x in multiset(sorted);
    }
  }

  /** Three ISO-dated applications in time order: when the outer two share a day, so does the middle one. */
  lemma MiddleSameDay(a: Job, b: Job, c: Job)
    requires a.dateApplied.ms <= b.dateApplied.ms <= c.dateApplied.ms
    requires DayOf(a) == DayOf(c) <==> a.dateApplied.ms / MsPerDay == c.dateApplied.ms / MsPerDay
    requires DayOf(a) == DayOf(b) <==> a.dateApplied.ms / MsPerDay == b.dateApplied.ms / MsPerDay
    ensures DayOf(a) == DayOf(c) ==> DayOf(b) == DayOf(a)
  {
    DayNumberMonotone(a.dateApplied.ms, b.dateApplied.ms);
    DayNumberMonotone(b.dateApplied.ms, c.dateApplied.ms);
  }

  /** Sorting ISO-dated applications by time keeps each day's applications together. */
  lemma SortedDaysContiguous(apps: seq<Job>)
    requires IsoDates(apps)
    ensures DaysContiguous(SortBy(apps, AppliedAt))
  {
    var sorted := SortBy(apps, AppliedAt);
    SortedMembers(apps);
    forall i, j, k | 0 <= i < j < k < |sorted| && DayOf(sorted[i]) == DayOf(sorted[k])
      ensures DayOf(sorted[j]) == DayOf(sorted[i])
    {
      assert sorted[i] in apps && sorted[j] in apps && sorted[k] in apps;
      assert AppliedAt(sorted[i]) <= AppliedAt(sorted[j]) <= AppliedAt(sorted[k]);
      MiddleSameDay(sorted[i], sorted[j], sorted[k]);
    }
  }

  /**
   * The series has one point per distinct day of the applications and is empty for none; for
   * ISO dates, its counts increase strictly and the last one is the number of applications.
   */
  lemma CumulativeShape(apps: seq<Job>)
    ensures Distinct(Dates(CumulativeSeries(apps)))
    ensures forall d :: d in Dates(CumulativeSeries(apps)) <==> d in DaysOf(apps)
    ensures apps == [] <==> CumulativeSeries(apps) == []
    ensures IsoDates(apps) ==> Increasing(CumulativeSeries(apps))
    ensures IsoDates(apps) && apps != [] ==>
      CumulativeSeries(apps)[|CumulativeSeries(apps)| - 1].count == |apps|
  {
    var sorted := SortBy(apps, AppliedAt);
    FoldDates(sorted);
    SameDays(apps, sorted);
    if IsoDates(apps) {
      SortedDaysContiguous(apps);
      FoldShape(sorted);
    }
    if apps != [] {
      assert DaysOf(sorted)[0] == DayOf(sorted[0]);
    }
  }

  /**
   * `buildCumulativeData`: sort a copy of the applications by date, count them one by one and
   * record the running count under each day, in a map that keeps its keys in insertion order.
   */
  method BuildCumulativeData(apps: seq<Job>) returns (series: seq<Point>)
    ensures series == CumulativeSeries(apps)
    ensures Distinct(Dates(series))
    ensures forall d :: d in Dates(series) <==> d in DaysOf(apps)
    ensures apps == [] <==> series == []
    ensures IsoDates(apps) ==> Increasing(series)
    ensures IsoDates(apps) && apps != [] ==> series[|series| - 1].count == |apps|
    ensures IsoDates(apps) ==> DaysInOrder(series, apps) && CountsToDay(series, apps)
  {
    var sorted := SortBy(apps, AppliedAt);
    var count := 0;
    series := [];
    assert sorted[..0] == [];
    for i := 0 to |sorted|
      invariant count == i
      invariant series == Fold(sorted[..i])
    {
      var date := DayOf(sorted[i]);
      count := count + 1;
      FoldSnoc(sorted, i);
      series := MapSet(series, date, count);
    }
    assert sorted[..|sorted|] == sorted;
    CumulativeFacts(apps);
  }

  /** Folding one more application sets its day to the new running count. */
  lemma FoldSnoc(sorted: seq<Job>, i: nat)
    requires i < |sorted|
    ensures Fold(sorted[..i + 1]) == MapSet(Fold(sorted[..i]), DayOf(sorted[i]), i + 1)
  {
    assert sorted[..i + 1][..i] == sorted[..i];
  }

  /** The properties of the series, gathered for `BuildCumulativeData`. */
  lemma CumulativeFacts(apps: seq<Job>)
    ensures Distinct(Dates(CumulativeSeries(apps)))
    ensures forall d :: d in Dates(CumulativeSeries(apps)) <==> d in DaysOf(apps)
    ensures apps == [] <==> CumulativeSeries(apps) == []
    ensures IsoDates(apps) ==> Increasing(CumulativeSeries(apps))
    ensures IsoDates(apps) && apps != [] ==>
      CumulativeSeries(apps)[|CumulativeSeries(apps)| - 1].count == |apps|
    ensures IsoDates(apps) ==>
      DaysInOrder(CumulativeSeries(apps), apps) && CountsToDay(CumulativeSeries(apps), apps)
  {
    CumulativeShape(apps);
    if IsoDates(apps) {
      CumulativeMeaning(apps);
    }
  }

  /** A permutation has the same days. */
  lemma SameDays(apps: seq<Job>, sorted: seq<Job>)
    requires multiset(sorted) == multiset(apps)
    ensures forall d :: d in DaysOf(sorted) <==> d in DaysOf(apps)
  {
    forall d ensures d in DaysOf(sorted) <==> d in DaysOf(apps) {
      if d in DaysOf(sorted) {
        var i :| 0 <= i < |sorted| && DaysOf(sorted)[i] == d;
        assert sorted[i] in multiset(apps);
        var k :| 0 <= k < |apps| && apps[k] == sorted[i];
        assert DaysOf(apps)[k] == d;
      }
      if d in DaysOf(apps) {
        var i :| 0 <= i < |apps| && DaysOf(apps)[i] == d;
        assert apps[i] in multiset(sorted);
        var k :| 0 <= k < |sorted| && sorted[k] == apps[i];
        assert DaysOf(sorted)[k] == d;
      }
    }
  }

  // ---------------------------------------------------------------- what the series means

  /** The UTC day number of an application. */
  function DayNumber(a: Job): int {
    a.dateApplied.ms / MsPerDay
  }

  /** How many of the applications fall on the given day number or before it. */
  function CountOnOrBefore(apps: seq<Job>, day: int): (n: nat)
    ensures n <= |apps|
  {
    if apps == [] then 0
    else CountOnOrBefore(apps[..|apps| - 1], day) + (if DayNumber(apps[|apps| - 1]) <= day then 1 else 0)
  }

  /** The points are in day order: every application of an earlier point falls on an earlier day. */
  ghost predicate DaysInOrder(points: seq<Point>, apps: seq<Job>) {
    forall i, k, a, b ::
      (0 <= i < k < |points| && a in apps && b in apps
       && DayOf(a) == points[i].date && DayOf(b) == points[k].date) ==> DayNumber(a) < DayNumber(b)
  }

  /** Each point counts the applications on its day or before it. */
  ghost predicate CountsToDay(points: seq<Point>, apps: seq<Job>) {
    forall k, a :: 0 <= k < |points| && a in apps && DayOf(a) == points[k].date ==>
      points[k].count == CountOnOrBefore(apps, DayNumber(a))
  }

  /** Counting works piece by piece. */
  lemma {:induction false} CountAppend(a: seq<Job>, b: seq<Job>, day: int)
    ensures CountOnOrBefore(a + b, day) == CountOnOrBefore(a, day) + CountOnOrBefore(b, day)
  {
    if b == [] {
      assert a + b == a;
    } else {
      CountAppend(a, b[..|b| - 1], day);
      assert (a + b)[..|a + b| - 1] == a + b[..|b| - 1];
      assert (a + b)[|a + b| - 1] == b[|b| - 1];
    }
  }

  /** Taking one application out of the list. */
  lemma CountRemove(t: seq<Job>, i: nat, day: int)
    requires i < |t|
    ensures CountOnOrBefore(t, day) ==
      CountOnOrBefore(t[..i] + t[i + 1..], day) + (if DayNumber(t[i]) <= day then 1 else 0)
  {
    assert t == t[..i] + ([t[i]] + t[i + 1..]);
    CountAppend(t[..i], [t[i]] + t[i + 1..], day);
    CountAppend([t[i]], t[i + 1..], day);
    CountAppend(t[..i], t[i + 1..], day);
    assert [t[i]][..0] == [];
  }

  /** Taking out one element takes it out of the multiset. */
  lemma MultisetRemove(t: seq<Job>, i: nat)
    requires i < |t|
    ensures multiset(t[..i] + t[i + 1..]) == multiset(t) - multiset{t[i]}
  {
    assert t == t[..i] + [t[i]] + t[i + 1..];
  }

  /** The count does not depend on the order of the applications. */
  lemma {:induction false} CountPermutation(s: seq<Job>, t: seq<Job>, day: int)
    requires multiset(s) == multiset(t)
    ensures CountOnOrBefore(s, day) == CountOnOrBefore(t, day)
    decreases |s|
  {
    if s == [] {
      assert |multiset(t)| == 0;
    } else {
      var x := s[|s| - 1];
      var init := s[..|s| - 1];
      assert s == init + [x];
      assert x in multiset(t);
      var i :| 0 <= i < |t| && t[i] == x;
      var rest := t[..i] + t[i + 1..];
      MultisetRemove(t, i);
      assert multiset(s) == multiset(init) + multiset{x};
      CountPermutation(init, rest, day);
      CountRemove(t, i, day);
      assert CountOnOrBefore(s, day) == CountOnOrBefore(init, day) + (if DayNumber(x) <= day then 1 else 0);
    }
  }

  /** When no application is after the day, all of them are counted. */
  lemma {:induction false} CountAll(s: seq<Job>, day: int)
    requires forall a :: a in s ==> DayNumber(a) <= day
    ensures CountOnOrBefore(s, day) == |s|
  {
    if s != [] {
      assert forall a :: a in s[..|s| - 1] ==> a in s;
      assert s[|s| - 1] in s;
      CountAll(s[..|s| - 1], day);
    }
  }

  /** How one more application changes the map: the points of its day take the running count, the others stay. */
  ghost predicate StepPoints(before: seq<Point>, after: seq<Point>, day: string, n: nat) {
    && |before| <= |after|
    && (forall k :: 0 <= k < |before| ==> after[k].date == before[k].date)
    && (forall k :: 0 <= k < |after| && after[k].date == day ==> after[k] == Point(day, n))
    && (forall k :: 0 <= k < |after| && after[k].date != day ==> k < |before| && after[k] == before[k])
  }

  /** `map.set` on a map with distinct days is such a step. */
  lemma MapSetStep(before: seq<Point>, day: string, n: nat)
    requires Distinct(Dates(before))
    ensures StepPoints(before, MapSet(before, day, n), day, n)
  {
    var after := MapSet(before, day, n);
    if day in Dates(before) {
      assert |after| == |Dates(after)| == |Dates(before)| == |before|;
      forall k | 0 <= k < |before| ensures after[k].date == before[k].date {
        assert Dates(after)[k] == Dates(before)[k];
      }
    } else {
      assert after == before + [Point(day, n)];
      forall k | 0 <= k < |before| ensures before[k].date != day {
        assert Dates(before)[k] == before[k].date;
      }
    }
  }

  /** One more application keeps every point counting the applications up to its day. */
  lemma CountsStep(p: seq<Job>, x: Job, before: seq<Point>, after: seq<Point>)
    requires IsoDates(p + [x])
    requires forall a :: a in p ==> DayNumber(a) <= DayNumber(x)
    requires CountsToDay(before, p)
    requires StepPoints(before, after, DayOf(x), |p| + 1)
    ensures CountsToDay(after, p + [x])
  {
    var sorted := p + [x];
    assert sorted[..|sorted| - 1] == p;
    assert forall a :: a in sorted ==> DayNumber(a) <= DayNumber(x);
    CountAll(sorted, DayNumber(x));
    forall k, a | 0 <= k < |after| && a in sorted && DayOf(a) == after[k].date
      ensures after[k].count == CountOnOrBefore(sorted, DayNumber(a))
    {
      if after[k].date == DayOf(x) {
        assert DayNumber(a) == DayNumber(x);
      } else {
        assert a in p;
        assert after[k] == before[k];
        assert DayNumber(a) != DayNumber(x);
      }
    }
  }

  /** One more application keeps the points in day order. */
  lemma OrderStep(p: seq<Job>, x: Job, before: seq<Point>, after: seq<Point>)
    requires IsoDates(p + [x])
    requires forall a :: a in p ==> DayNumber(a) <= DayNumber(x)
    requires DaysInOrder(before, p)
    requires StepPoints(before, after, DayOf(x), |p| + 1)
    requires Distinct(Dates(after))
    requires forall i :: 0 <= i < |before| ==> before[i].date in DaysOf(p)
    ensures DaysInOrder(after, p + [x])
  {
    var sorted := p + [x];
    var day := DayOf(x);
    forall i, k, a, b | 0 <= i < k < |after| && a in sorted && b in sorted
      && DayOf(a) == after[i].date && DayOf(b) == after[k].date
      ensures DayNumber(a) < DayNumber(b)
    {
      assert Dates(after)[i] != Dates(after)[k];
      if after[k].date == day {
        assert DayNumber(b) == DayNumber(x);
      } else if after[i].date == day {
        // An earlier point of the newest day would put an application of that day before `b`.
        assert false;
      } else {
        assert a in p && b in p;
        assert after[i] == before[i] && after[k] == before[k];
      }
    }
  }

  /** The applications are in time order. */
  ghost predicate TimeOrdered(sorted: seq<Job>) {
    forall i, j :: 0 <= i < j < |sorted| ==> sorted[i].dateApplied.ms <= sorted[j].dateApplied.ms
  }

  /** Folding time-ordered ISO-dated applications gives points in day order, each counting up to its day. */
  /** The prefix of time-ordered ISO-dated applications is time-ordered and ISO-dated too. */
  lemma PrefixOrdered(sorted: seq<Job>)
    requires sorted != [] && TimeOrdered(sorted) && IsoDates(sorted)
    ensures TimeOrdered(sorted[..|sorted| - 1]) && IsoDates(sorted[..|sorted| - 1])
  {
    assert forall a :: a in sorted[..|sorted| - 1] ==> a in sorted;
  }

  /** No application of a time-ordered list falls on a later day than the last one. */
  lemma LastIsLatest(sorted: seq<Job>)
    requires sorted != [] && TimeOrdered(sorted)
    ensures forall a :: a in sorted[..|sorted| - 1] ==> DayNumber(a) <= DayNumber(sorted[|sorted| - 1])
  {
    var n := |sorted|;
    var x := sorted[n - 1];
    forall a | a in sorted[..n - 1] ensures DayNumber(a) <= DayNumber(x) {
      var i :| 0 <= i < n - 1 && sorted[..n - 1][i] == a;
      assert sorted[i] == a;
      DayNumberMonotone(a.dateApplied.ms, x.dateApplied.ms);
    }
  }

  /** Every point of the map is the day of some application. */
  lemma FoldPointDays(sorted: seq<Job>)
    ensures forall i :: 0 <= i < |Fold(sorted)| ==> Fold(sorted)[i].date in DaysOf(sorted)
  {
    FoldDates(sorted);
    forall i | 0 <= i < |Fold(sorted)| ensures Fold(sorted)[i].date in DaysOf(sorted) {
      assert Dates(Fold(sorted))[i] == Fold(sorted)[i].date;
    }
  }

  /** Folding time-ordered ISO-dated applications gives points in day order, each counting up to its day. */
  lemma {:induction false} FoldMeaning(sorted: seq<Job>)
    requires TimeOrdered(sorted) && IsoDates(sorted)
    ensures DaysInOrder(Fold(sorted), sorted) && CountsToDay(Fold(sorted), sorted)
  {
    if sorted != [] {
      var p := sorted[..|sorted| - 1];
      var x := sorted[|sorted| - 1];
      assert sorted == p + [x];
      PrefixOrdered(sorted);
      FoldMeaning(p);
      FoldMeaningStep(p, x);
    }
  }

  /** The inductive step of `FoldMeaning`: folding the latest application keeps both properties. */
  lemma FoldMeaningStep(p: seq<Job>, x: Job)
    requires TimeOrdered(p + [x]) && IsoDates(p + [x])
    requires DaysInOrder(Fold(p), p) && CountsToDay(Fold(p), p)
    ensures DaysInOrder(Fold(p + [x]), p + [x]) && CountsToDay(Fold(p + [x]), p + [x])
  {
    var sorted := p + [x];
    var n := |sorted|;
    assert sorted[..n - 1] == p;
    var before := Fold(p);
    var after := Fold(sorted);
    FoldDates(p);
    FoldDates(sorted);
    FoldPointDays(p);
    LastIsLatest(sorted);
    MapSetStep(before, DayOf(x), n);
    assert after == MapSet(before, DayOf(x), n);
    CountsStep(p, x, before, after);
    OrderStep(p, x, before, after);
  }

  /**
   * For ISO dates, the series lists the days in order, and each point counts the applications
   * made on its day or before it.
   */
  lemma CumulativeMeaning(apps: seq<Job>)
    requires IsoDates(apps)
    ensures DaysInOrder(CumulativeSeries(apps), apps)
    ensures CountsToDay(CumulativeSeries(apps), apps)
  {
    var sorted := SortBy(apps, AppliedAt);
    var series := CumulativeSeries(apps);
    forall a ensures a in sorted <==> a in apps {
      assert a in sorted <==> a in multiset(sorted);
    }
    assert TimeOrdered(sorted) by {
      forall i, j | 0 <= i < j < |sorted| ensures sorted[i].dateApplied.ms <= sorted[j].dateApplied.ms {
        assert AppliedAt(sorted[i]) <= AppliedAt(sorted[j]);
      }
    }
    FoldMeaning(sorted);
    forall k, a | 0 <= k < |series| && a in apps && DayOf(a) == series[k].date
      ensures series[k].count == CountOnOrBefore(apps, DayNumber(a))
    {
      CountPermutation(sorted, apps, DayNumber(a));
    }
  }
}
