/**
 * The monthly earned-value curve (`calculateEarnedValue` in
 * utils/calculations.js): dated activities are grouped by the month of their
 * start date, the months are sorted, and the planned value, earned value and
 * actual cost are accumulated month by month.
 *
 * The month of a start date (`new Date(startDate)` formatted as `YYYY-MM`
 * in local time) depends on the runtime's date parser and time zone; it is
 * the parameter `monthKey` here, and everything below holds for any such
 * function.
 */
module EarnedValue {

  import opened Project
  import opened JsNumber
  import opened StringOrder
  import Calculations

  /** One point of the curve: cumulative amounts through `month`, and the cumulative indices. */
  datatype EVPoint = EVPoint(month: string, pv: real, ev: real, ac: real, spi: real, cpi: real)

  /** `!activity.startDate` leaves an activity out of the curve. */
  predicate IsDated(a: Activity) { a.startDate.Truthy() }

  /** The month a dated activity is booked to. */
  function MonthOf(monthKey: string -> string, a: Activity): string
  {
    monthKey(a.startDate.Or(""))
  }

  /** The months of the dated activities, each once, in order of first appearance (the timeline's keys). */
  function MonthKeys(acts: seq<Activity>, monthKey: string -> string): (ks: seq<string>)
    ensures Distinct(ks)
  {
    if acts == [] then []
    else
      var ks := MonthKeys(acts[..|acts| - 1], monthKey);
      var a := acts[|acts| - 1];
      if IsDated(a) && MonthOf(monthKey, a) !in ks then ks + [MonthOf(monthKey, a)] else ks
  }

  /** The sums over the dated activities booked to month `m`. */
  function MonthTotal(acts: seq<Activity>, monthKey: string -> string, m: string): Amounts
  {
    if acts == [] then NoAmounts
    else
      var a := acts[|acts| - 1];
      MonthTotal(acts[..|acts| - 1], monthKey, m).Plus(
        if IsDated(a) && MonthOf(monthKey, a) == m then AmountsOf(a) else NoAmounts)
  }

  /** The sums over the dated activities booked to a month strictly before `m`. */
  function Before(acts: seq<Activity>, monthKey: string -> string, m: string): Amounts
  {
    if acts == [] then NoAmounts
    else
      var a := acts[|acts| - 1];
      Before(acts[..|acts| - 1], monthKey, m).Plus(
        if IsDated(a) && Less(MonthOf(monthKey, a), m) then AmountsOf(a) else NoAmounts)
  }

  /** The sums over the dated activities booked to `m` or an earlier month: the reference for a cumulative point. */
  function Through(acts: seq<Activity>, monthKey: string -> string, m: string): Amounts
  {
    if acts == [] then NoAmounts
    else
      var a := acts[|acts| - 1];
      Through(acts[..|acts| - 1], monthKey, m).Plus(
        if IsDated(a) && LessEq(MonthOf(monthKey, a), m) then AmountsOf(a) else NoAmounts)
  }

  /** The sums over all dated activities. */
  function DatedTotal(acts: seq<Activity>): Amounts
  {
    if acts == [] then NoAmounts
    else
      var a := acts[|acts| - 1];
      DatedTotal(acts[..|acts| - 1]).Plus(if IsDated(a) then AmountsOf(a) else NoAmounts)
  }

  /** One point from cumulative sums: money rounded to 2 decimals, indices to 4, and an index is 0 without a positive denominator. */
  function PointAt(month: string, c: Amounts): EVPoint
  {
    EVPoint(month, RoundMoney(c.pv), RoundMoney(c.ev), RoundMoney(c.ac),
            if c.pv > 0.0 then RoundIndex(c.ev / c.pv) else 0.0,
            if c.ac > 0.0 then RoundIndex(c.ev / c.ac) else 0.0)
  }

  /** The points for the months `ms`, each from the sums through its month. */
  function Points(acts: seq<Activity>, monthKey: string -> string, ms: seq<string>): (ps: seq<EVPoint>)
    ensures |ps| == |ms|
  {
    if ms == [] then []
    else
      var m := ms[|ms| - 1];
      Points(acts, monthKey, ms[..|ms| - 1]) + [PointAt(m, Through(acts, monthKey, m))]
  }

  /** `Object.keys(timeline).sort()` */
  function Months(acts: seq<Activity>, monthKey: string -> string): seq<string>
  {
    SortStrings(MonthKeys(acts, monthKey))
  }

  /** The curve: one point per month that has a dated activity, in ascending month order. */
  function TimeSeries(acts: seq<Activity>, monthKey: string -> string): (s: seq<EVPoint>)
    ensures |s| == |MonthKeys(acts, monthKey)|
  {
    MonthsSorted(acts, monthKey);
    Points(acts, monthKey, Months(acts, monthKey))
  }

  // ---------------------------------------------------------------------
  // The month keys
  // ---------------------------------------------------------------------

  /** A month is a key exactly when some dated activity is booked to it. */
  lemma {:induction false} MonthKeysExactly(acts: seq<Activity>, monthKey: string -> string, m: string)
    ensures m in MonthKeys(acts, monthKey) <==>
            exists i :: 0 <= i < |acts| && IsDated(acts[i]) && MonthOf(monthKey, acts[i]) == m
  {
    if acts != [] {
      var init := acts[..|acts| - 1];
      MonthKeysExactly(init, monthKey, m);
      if m in MonthKeys(init, monthKey) {
        var i :| 0 <= i < |init| && IsDated(init[i]) && MonthOf(monthKey, init[i]) == m;
        assert acts[i] == init[i];
      }
      if exists i :: 0 <= i < |acts| && IsDated(acts[i]) && MonthOf(monthKey, acts[i]) == m {
        var i :| 0 <= i < |acts| && IsDated(acts[i]) && MonthOf(monthKey, acts[i]) == m;
        if i < |init| {
          assert init[i] == acts[i];
        }
      }
    }
  }

  /** The sorted months are strictly ascending and are exactly the keys. */
  lemma MonthsSorted(acts: seq<Activity>, monthKey: string -> string)
    ensures StrictlySorted(Months(acts, monthKey))
    ensures |Months(acts, monthKey)| == |MonthKeys(acts, monthKey)|
    ensures forall m :: m in Months(acts, monthKey) <==> m in MonthKeys(acts, monthKey)
  {
    SortStringsSorted(MonthKeys(acts, monthKey));
  }

  /** A month without a key has nothing booked to it. */
  lemma {:induction false} MonthTotalAbsent(acts: seq<Activity>, monthKey: string -> string, m: string)
    requires m !in MonthKeys(acts, monthKey)
    ensures MonthTotal(acts, monthKey, m) == NoAmounts
  {
    if acts != [] {
      MonthTotalAbsent(acts[..|acts| - 1], monthKey, m);
    }
  }

  // ---------------------------------------------------------------------
  // Cumulative sums
  // ---------------------------------------------------------------------

  /** Through a month = strictly before it + in it. */
  lemma {:induction false} ThroughSplit(acts: seq<Activity>, monthKey: string -> string, m: string)
    ensures Through(acts, monthKey, m) == Before(acts, monthKey, m).Plus(MonthTotal(acts, monthKey, m))
  {
    if acts != [] {
      var init, a := acts[..|acts| - 1], acts[|acts| - 1];
      var k := MonthOf(monthKey, a);
      ThroughSplit(init, monthKey, m);
      Irreflexive(k);
      var t, b, n := Through(init, monthKey, m), Before(init, monthKey, m), MonthTotal(init, monthKey, m);
      assert Through(acts, monthKey, m) == t.Plus(if IsDated(a) && LessEq(k, m) then AmountsOf(a) else NoAmounts);
      assert Before(acts, monthKey, m) == b.Plus(if IsDated(a) && Less(k, m) then AmountsOf(a) else NoAmounts);
      assert MonthTotal(acts, monthKey, m) == n.Plus(if IsDated(a) && k == m then AmountsOf(a) else NoAmounts);
    }
  }

  /** When the keys before `m` are exactly the keys up to `p`, the two sums agree. */
  lemma {:induction false} BeforeIsThrough(acts: seq<Activity>, monthKey: string -> string, m: string, p: string)
    requires forall k :: k in MonthKeys(acts, monthKey) ==> (Less(k, m) <==> LessEq(k, p))
    ensures Before(acts, monthKey, m) == Through(acts, monthKey, p)
  {
    if acts != [] {
      var init := acts[..|acts| - 1];
      assert forall k :: k in MonthKeys(init, monthKey) ==> k in MonthKeys(acts, monthKey);
      BeforeIsThrough(init, monthKey, m, p);
    }
  }

  /** No key before `m`: nothing accumulated before it. */
  lemma {:induction false} NothingBefore(acts: seq<Activity>, monthKey: string -> string, m: string)
    requires forall k :: k in MonthKeys(acts, monthKey) ==> !Less(k, m)
    ensures Before(acts, monthKey, m) == NoAmounts
  {
    if acts != [] {
      var init := acts[..|acts| - 1];
      assert forall k :: k in MonthKeys(init, monthKey) ==> k in MonthKeys(acts, monthKey);
      NothingBefore(init, monthKey, m);
    }
  }

  /** Through a month no key comes after, everything dated is counted. */
  lemma {:induction false} ThroughAll(acts: seq<Activity>, monthKey: string -> string, m: string)
    requires forall k :: k in MonthKeys(acts, monthKey) ==> LessEq(k, m)
    ensures Through(acts, monthKey, m) == DatedTotal(acts)
  {
    if acts != [] {
      var init := acts[..|acts| - 1];
      assert forall k :: k in MonthKeys(init, monthKey) ==> k in MonthKeys(acts, monthKey);
      ThroughAll(init, monthKey, m);
    }
  }

  /** In a strictly sorted list of months, no month comes before the first. */
  lemma NoneBeforeFirst(months: seq<string>, k: string)
    requires StrictlySorted(months) && months != [] && k in months
    ensures !Less(k, months[0])
  {
    var i :| 0 <= i < |months| && months[i] == k;
    SortedPositions(months, i, 0);
  }

  /** In a strictly sorted list of months, the months before the `j`-th are those up to the `j-1`-th. */
  lemma BeforeIsUpToPrevious(months: seq<string>, j: nat, k: string)
    requires StrictlySorted(months) && 0 < j < |months| && k in months
    ensures Less(k, months[j]) <==> LessEq(k, months[j - 1])
  {
    var i :| 0 <= i < |months| && months[i] == k;
    SortedPositions(months, i, j);
    SortedPositions(months, i, j - 1);
  }

  /** With every month sorted, the sums through a month are those through the previous month plus the month's own. */
  lemma ThroughStep(acts: seq<Activity>, monthKey: string -> string, months: seq<string>, j: nat)
    requires StrictlySorted(months) && j < |months|
    requires forall k :: k in MonthKeys(acts, monthKey) <==> k in months
    ensures Through(acts, monthKey, months[j]) ==
              (if j == 0 then NoAmounts else Through(acts, monthKey, months[j - 1])).Plus(MonthTotal(acts, monthKey, months[j]))
  {
    ThroughSplit(acts, monthKey, months[j]);
    var keys := MonthKeys(acts, monthKey);
    if j == 0 {
      forall k | k in keys ensures !Less(k, months[0]) {
        NoneBeforeFirst(months, k);
      }
      NothingBefore(acts, monthKey, months[0]);
    } else {
      forall k | k in keys ensures Less(k, months[j]) <==> LessEq(k, months[j - 1]) {
        BeforeIsUpToPrevious(months, j, k);
      }
      BeforeIsThrough(acts, monthKey, months[j], months[j - 1]);
    }
  }

  /** Cumulative sums of non-negative amounts grow with the month. */
  lemma {:induction false} ThroughMonotone(acts: seq<Activity>, monthKey: string -> string, m: string, m': string)
    requires NonNegative(acts) && LessEq(m, m')
    ensures var c, c' := Through(acts, monthKey, m), Through(acts, monthKey, m');
            c.pv <= c'.pv && c.ev <= c'.ev && c.ac <= c'.ac
  {
    if acts != [] {
      var a := acts[|acts| - 1];
      ThroughMonotone(acts[..|acts| - 1], monthKey, m, m');
      if LessEq(MonthOf(monthKey, a), m) {
        LessEqTransitive(MonthOf(monthKey, a), m, m');
      }
    }
  }

  // ---------------------------------------------------------------------
  // The curve
  // ---------------------------------------------------------------------

  /** Point `i` is the rounded sums through the `i`-th month. */
  lemma {:induction false} PointsAt(acts: seq<Activity>, monthKey: string -> string, ms: seq<string>, i: nat)
    requires i < |ms|
    ensures Points(acts, monthKey, ms)[i] == PointAt(ms[i], Through(acts, monthKey, ms[i]))
    decreases |ms|
  {
    if i < |ms| - 1 {
      PointsAt(acts, monthKey, ms[..|ms| - 1], i);
    }
  }

  /**
   * The curve has one point per month that has a dated activity; the
   * months ascend strictly, and each point holds the rounded sums over the
   * dated activities of that month and every earlier one.
   */
  lemma TimeSeriesShape(acts: seq<Activity>, monthKey: string -> string)
    ensures var s := TimeSeries(acts, monthKey);
            && |s| == |MonthKeys(acts, monthKey)|
            && (forall i, j :: 0 <= i < j < |s| ==> Less(s[i].month, s[j].month))
            && (forall i :: 0 <= i < |s| ==> s[i] == PointAt(s[i].month, Through(acts, monthKey, s[i].month)))
            && (forall i :: 0 <= i < |s| ==> s[i].month in MonthKeys(acts, monthKey))
  {
    var ms := Months(acts, monthKey);
    var s := TimeSeries(acts, monthKey);
    MonthsSorted(acts, monthKey);
    forall i | 0 <= i < |s| ensures s[i] == PointAt(ms[i], Through(acts, monthKey, ms[i])) {
      PointsAt(acts, monthKey, ms, i);
    }
  }

  /** The last point carries the sums over every dated activity. */
  lemma LastPointIsDatedTotal(acts: seq<Activity>, monthKey: string -> string)
    requires exists i :: 0 <= i < |acts| && IsDated(acts[i])
    ensures var s := TimeSeries(acts, monthKey);
            && s != []
            && s[|s| - 1].pv == RoundMoney(DatedTotal(acts).pv)
            && s[|s| - 1].ev == RoundMoney(DatedTotal(acts).ev)
            && s[|s| - 1].ac == RoundMoney(DatedTotal(acts).ac)
  {
    var i :| 0 <= i < |acts| && IsDated(acts[i]);
    var ms := Months(acts, monthKey);
    MonthKeysExactly(acts, monthKey, MonthOf(monthKey, acts[i]));
    MonthsSorted(acts, monthKey);
    var last := |ms| - 1;
    forall k | k in MonthKeys(acts, monthKey) ensures LessEq(k, ms[last]) {
      var j :| 0 <= j < |ms| && ms[j] == k;
      SortedPositions(ms, j, last);
    }
    ThroughAll(acts, monthKey, ms[last]);
    PointsAt(acts, monthKey, ms, last);
  }

  /** With no negative amounts the curve never goes down. */
  lemma TimeSeriesNonDecreasing(acts: seq<Activity>, monthKey: string -> string, i: nat, j: nat)
    requires NonNegative(acts)
    requires i <= j < |TimeSeries(acts, monthKey)|
    ensures var s := TimeSeries(acts, monthKey);
            s[i].pv <= s[j].pv && s[i].ev <= s[j].ev && s[i].ac <= s[j].ac
  {
    var ms := Months(acts, monthKey);
    MonthsSorted(acts, monthKey);
    assert LessEq(ms[i], ms[j]) by {
      if i < j {
        SortedPositions(ms, i, j);
      }
    }
    ThroughMonotone(acts, monthKey, ms[i], ms[j]);
    var c, c' := Through(acts, monthKey, ms[i]), Through(acts, monthKey, ms[j]);
    PointsAt(acts, monthKey, ms, i);
    PointsAt(acts, monthKey, ms, j);
    RoundToMonotone(c.pv, c'.pv, MoneyScale);
    RoundToMonotone(c.ev, c'.ev, MoneyScale);
    RoundToMonotone(c.ac, c'.ac, MoneyScale);
  }

  /** An activity without a start date does not change the curve, wherever it stands in the list. */
  lemma UndatedActivityIgnored(before: seq<Activity>, a: Activity, after: seq<Activity>, monthKey: string -> string)
    requires !IsDated(a)
    ensures TimeSeries(before + [a] + after, monthKey) == TimeSeries(before + after, monthKey)
  {
    UndatedKeepsKeys(before, a, after, monthKey);
    PointsWithoutUndated(before, a, after, monthKey, Months(before + after, monthKey));
  }

  /** Removing an undated activity keeps the month keys. */
  lemma {:induction false} UndatedKeepsKeys(before: seq<Activity>, a: Activity, after: seq<Activity>, monthKey: string -> string)
    requires !IsDated(a)
    ensures MonthKeys(before + [a] + after, monthKey) == MonthKeys(before + after, monthKey)
    decreases |after|
  {
    var with, without := before + [a] + after, before + after;
    if after == [] {
      assert with[..|with| - 1] == before && without == before;
    } else {
      var init := after[..|after| - 1];
      assert with[..|with| - 1] == before + [a] + init;
      assert without[..|without| - 1] == before + init;
      assert with[|with| - 1] == without[|without| - 1];
      UndatedKeepsKeys(before, a, init, monthKey);
    }
  }

  /** Removing an undated activity keeps every cumulative sum. */
  lemma {:induction false} UndatedKeepsSums(before: seq<Activity>, a: Activity, after: seq<Activity>, monthKey: string -> string, m: string)
    requires !IsDated(a)
    ensures Through(before + [a] + after, monthKey, m) == Through(before + after, monthKey, m)
    decreases |after|
  {
    if after == [] {
      var with := before + [a] + after;
      assert with[..|with| - 1] == before && with[|with| - 1] == a && before + after == before;
      assert Through(with, monthKey, m) == Through(before, monthKey, m).Plus(NoAmounts);
    } else {
      var init, last := after[..|after| - 1], after[|after| - 1];
      UndatedKeepsSums(before, a, init, monthKey, m);
      SameSumsAfterSnoc(before + [a] + init, before + init, last, monthKey, m);
      assert before + [a] + init + [last] == before + [a] + after;
      assert before + init + [last] == before + after;
    }
  }

  /** Appending the same activity to two lists with equal sums keeps them equal. */
  lemma SameSumsAfterSnoc(xs: seq<Activity>, ys: seq<Activity>, last: Activity, monthKey: string -> string, m: string)
    requires Through(xs, monthKey, m) == Through(ys, monthKey, m)
    ensures Through(xs + [last], monthKey, m) == Through(ys + [last], monthKey, m)
  {
    assert (xs + [last])[..|xs|] == xs;
    assert (ys + [last])[..|ys|] == ys;
  }

  lemma {:induction false} PointsWithoutUndated(before: seq<Activity>, a: Activity, after: seq<Activity>, monthKey: string -> string, ms: seq<string>)
    requires !IsDated(a)
    ensures Points(before + [a] + after, monthKey, ms) == Points(before + after, monthKey, ms)
    decreases |ms|
  {
    if ms != [] {
      PointsWithoutUndated(before, a, after, monthKey, ms[..|ms| - 1]);
      UndatedKeepsSums(before, a, after, monthKey, ms[|ms| - 1]);
    }
  }

  /** No activities, no points. */
  lemma NoActivitiesNoPoints(monthKey: string -> string)
    ensures TimeSeries([], monthKey) == []
  {
  }

  /** When every activity is dated, everything is counted. */
  lemma {:induction false} DatedTotalOfDated(acts: seq<Activity>)
    requires forall i :: 0 <= i < |acts| ==> IsDated(acts[i])
    ensures DatedTotal(acts) == Total(acts)
  {
    if acts != [] {
      DatedTotalOfDated(acts[..|acts| - 1]);
    }
  }

  /** When every activity is dated, the curve ends at the KPI totals. */
  lemma CurveEndsAtKpiTotals(project: ProjectData, monthKey: string -> string)
    requires project.activities != []
    requires forall i :: 0 <= i < |project.activities| ==> IsDated(project.activities[i])
    ensures var s := TimeSeries(project.activities, monthKey);
            var k := Calculations.CalculateKPIs(project);
            && s != []
            && s[|s| - 1].pv == k.totalPlannedValue
            && s[|s| - 1].ev == k.totalEarnedValue
            && s[|s| - 1].ac == k.totalActualCost
  {
    assert IsDated(project.activities[0]);
    LastPointIsDatedTotal(project.activities, monthKey);
    DatedTotalOfDated(project.activities);
  }

  // ---------------------------------------------------------------------
  // calculateEarnedValue
  // ---------------------------------------------------------------------

  /**
   * The grouping pass of `calculateEarnedValue`: every dated activity adds
   * its amounts to its month's entry, which is created at zero the first
   * time the month is seen. `order` lists the entries in creation order.
   */
  method GroupByMonth(acts: seq<Activity>, monthKey: string -> string)
    returns (timeline: map<string, Amounts>, order: seq<string>)
    ensures order == MonthKeys(acts, monthKey)
    ensures forall m :: m in timeline <==> m in order
    ensures forall m :: m in timeline ==> timeline[m] == MonthTotal(acts, monthKey, m)
  {
    timeline, order := map[], [];
    var i := 0;
    while i < |acts|
      invariant 0 <= i <= |acts|
      invariant order == MonthKeys(acts[..i], monthKey)
      invariant forall m :: m in timeline <==> m in order
      invariant forall m :: m in timeline ==> timeline[m] == MonthTotal(acts[..i], monthKey, m)
    {
      var a := acts[i];
      assert acts[..i + 1][..i] == acts[..i];
      if a.startDate.Truthy() {
        var key := monthKey(a.startDate.s);
        if key !in timeline {
          MonthTotalAbsent(acts[..i], monthKey, key);
          timeline := timeline[key := NoAmounts];
          order := order + [key];
        }
        var t := timeline[key];
        timeline := timeline[key := Amounts(t.pv + a.plannedValue, t.ev + a.earnedValue, t.ac + a.actualCost)];
      }
      i := i + 1;
    }
    assert acts[..i] == acts;
  }

  /**
   * The accumulating pass of `calculateEarnedValue`: over the months in
   * ascending order, running sums of the month entries, one point per
   * month.
   */
  method Accumulate(acts: seq<Activity>, monthKey: string -> string, timeline: map<string, Amounts>, months: seq<string>)
    returns (points: seq<EVPoint>)
    requires StrictlySorted(months)
    requires forall m :: m in MonthKeys(acts, monthKey) <==> m in months
    requires forall m :: m in months ==> m in timeline && timeline[m] == MonthTotal(acts, monthKey, m)
    ensures points == Points(acts, monthKey, months)
  {
    var cumulative := NoAmounts;
    points := [];
    var j := 0;
    while j < |months|
      invariant 0 <= j <= |months|
      invariant cumulative == if j == 0 then NoAmounts else Through(acts, monthKey, months[j - 1])
      invariant points == Points(acts, monthKey, months[..j])
    {
      var month := months[j];
      ThroughStep(acts, monthKey, months, j);
      var t := timeline[month];
      cumulative := Amounts(cumulative.pv + t.pv, cumulative.ev + t.ev, cumulative.ac + t.ac);
      points := points + [PointAt(month, cumulative)];
      assert months[..j + 1][..j] == months[..j];
      j := j + 1;
    }
    assert months[..j] == months;
  }

  /** `calculateEarnedValue`: group the dated activities by month, sort the months, accumulate. */
  method CalculateEarnedValue(project: ProjectData, monthKey: string -> string) returns (points: seq<EVPoint>)
    ensures points == TimeSeries(project.activities, monthKey)
  {
    var timeline, order := GroupByMonth(project.activities, monthKey);
    var months := SortStrings(order);
    MonthsSorted(project.activities, monthKey);
    points := Accumulate(project.activities, monthKey, timeline, months);
  }
}
