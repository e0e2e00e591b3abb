/**
 * The earned-value KPI engine (utils/calculations.js): aggregate KPIs with
 * zero-guarded indices, the three-tier health label, the four-tier project
 * health score, and the activity status summary.
 */
module Calculations {

  import opened Project
  import opened JsNumber
  import Xer

  /** `d || 1`: a zero denominator is replaced by 1. */
  function OrOne(d: real): real { if d == 0.0 then 1.0 else d }

  /** `num / (den || 1)`: the quotient when `den` is not zero, and `num` itself when it is. */
  function GuardedRatio(num: real, den: real): (r: real)
    ensures den != 0.0 ==> r == num / den && r * den == num
    ensures den == 0.0 ==> r == num
  {
    num / OrOne(den)
  }

  function Min(x: real, y: real): real { if x <= y then x else y }

  /** The unrounded schedule performance index: `totalEV / (totalPV || 1)`. */
  function SchedulePerformance(t: Amounts): real { GuardedRatio(t.ev, t.pv) }

  /** The unrounded cost performance index: `totalEV / (totalAC || 1)`. */
  function CostPerformance(t: Amounts): real { GuardedRatio(t.ev, t.ac) }

  /** The unrounded estimate at completion: `totalAC / (CPI || 1)`. */
  function EstimateAtCompletion(t: Amounts): real { GuardedRatio(t.ac, CostPerformance(t)) }

  /** The unrounded percent complete: earned over planned, in percent, or 0 without a positive plan. */
  function PercentComplete(t: Amounts): real { if t.pv > 0.0 then t.ev / t.pv * 100.0 else 0.0 }

  /**
   * The three-tier label, tested in the order "On Track", then "At Risk",
   * then "Warning". The order makes the label a function of the smaller of
   * the two indices alone.
   */
  function HealthLabel(spi: real, cpi: real): (verdict: string)
    ensures verdict == "On Track" <==> Min(spi, cpi) >= 0.95
    ensures verdict == "At Risk" <==> Min(spi, cpi) < 0.90
    ensures verdict == "Warning" <==> 0.90 <= Min(spi, cpi) < 0.95
  {
    if spi >= 0.95 && cpi >= 0.95 then "On Track"
    else if spi < 0.90 || cpi < 0.90 then "At Risk"
    else "Warning"
  }

  datatype KPISet = KPISet(
    totalPlannedValue: real,
    totalEarnedValue: real,
    totalActualCost: real,
    percentComplete: real,
    schedulePerformanceIndex: real,
    costPerformanceIndex: real,
    scheduleVariance: real,
    costVariance: real,
    estimateAtCompletion: real,
    varianceAtCompletion: real,
    budget: real,
    health: string)

  /**
   * `calculateKPIs`: money and percentages rounded to 2 decimals, indices to
   * 4; the health label is taken from the UNROUNDED indices.
   */
  function CalculateKPIs(project: ProjectData): (k: KPISet)
    ensures k.budget == k.totalPlannedValue
    ensures k.health == HealthLabel(SchedulePerformance(Total(project.activities)), CostPerformance(Total(project.activities)))
    ensures var t := Total(project.activities);
            && t.pv - 0.005 < k.totalPlannedValue <= t.pv + 0.005
            && t.ev - 0.005 < k.totalEarnedValue <= t.ev + 0.005
            && t.ac - 0.005 < k.totalActualCost <= t.ac + 0.005
    ensures var t := Total(project.activities);
            && k.totalPlannedValue == RoundMoney(t.pv) && k.totalEarnedValue == RoundMoney(t.ev)
            && k.totalActualCost == RoundMoney(t.ac)
            && k.scheduleVariance == RoundMoney(t.ev - t.pv) && k.costVariance == RoundMoney(t.ev - t.ac)
            && k.varianceAtCompletion == RoundMoney(t.pv - t.ev)
    ensures var t := Total(project.activities);
            && (t.pv > 0.0 ==> k.percentComplete == RoundMoney(t.ev / t.pv * 100.0))
            && (t.pv <= 0.0 ==> k.percentComplete == 0.0)
            && (t.pv != 0.0 ==> k.schedulePerformanceIndex == RoundIndex(t.ev / t.pv))
            && (t.pv == 0.0 ==> k.schedulePerformanceIndex == RoundIndex(t.ev))
            && (t.ac != 0.0 ==> k.costPerformanceIndex == RoundIndex(t.ev / t.ac))
            && (t.ac == 0.0 ==> k.costPerformanceIndex == RoundIndex(t.ev))
    ensures var t := Total(project.activities);
            && (t.ev == 0.0 ==> k.estimateAtCompletion == RoundMoney(t.ac))
            && (t.ev != 0.0 && t.ac == 0.0 ==> k.estimateAtCompletion == 0.0)
            && (t.ev != 0.0 && t.ac != 0.0 ==> k.estimateAtCompletion == RoundMoney(t.ac / (t.ev / t.ac)))
  {
    var t := Total(project.activities);
    var spi := SchedulePerformance(t);
    var cpi := CostPerformance(t);
    var pc := PercentComplete(t);
    var eac := EstimateAtCompletion(t);
    IndexFormulas(t);
    RoundToZero(MoneyScale);
    KPISet(
      totalPlannedValue := RoundMoney(t.pv),
      totalEarnedValue := RoundMoney(t.ev),
      totalActualCost := RoundMoney(t.ac),
      percentComplete := RoundMoney(pc),
      schedulePerformanceIndex := RoundIndex(spi),
      costPerformanceIndex := RoundIndex(cpi),
      scheduleVariance := RoundMoney(t.ev - t.pv),
      costVariance := RoundMoney(t.ev - t.ac),
      estimateAtCompletion := RoundMoney(eac),
      varianceAtCompletion := RoundMoney(t.pv - t.ev),
      budget := RoundMoney(t.pv),
      health := HealthLabel(spi, cpi))
  }

  /** The unrounded figures of `calculateKPIs`, with the guards spelled out case by case. */
  lemma IndexFormulas(t: Amounts)
    ensures t.pv > 0.0 ==> PercentComplete(t) == t.ev / t.pv * 100.0
    ensures t.pv <= 0.0 ==> PercentComplete(t) == 0.0
    ensures t.pv != 0.0 ==> SchedulePerformance(t) == t.ev / t.pv
    ensures t.pv == 0.0 ==> SchedulePerformance(t) == t.ev
    ensures t.ac != 0.0 ==> CostPerformance(t) == t.ev / t.ac
    ensures t.ac == 0.0 ==> CostPerformance(t) == t.ev
    ensures t.ev == 0.0 ==> EstimateAtCompletion(t) == t.ac
    ensures t.ev != 0.0 && t.ac == 0.0 ==> EstimateAtCompletion(t) == 0.0
    ensures t.ev != 0.0 && t.ac != 0.0 ==> EstimateAtCompletion(t) == t.ac / (t.ev / t.ac)
  {
  }

  /**
   * The estimate at completion, without the guards: the actual cost when
   * nothing is earned, 0 when something is earned at no cost, and AC^2/EV
   * otherwise.
   */
  lemma EstimateAtCompletionValue(t: Amounts)
    ensures EstimateAtCompletion(t) ==
              if t.ev == 0.0 then t.ac
              else if t.ac == 0.0 then 0.0
              else t.ac * t.ac / t.ev
  {
  }

  /**
   * VAC is the negated SV before rounding; after rounding they agree up to
   * sign except when the variance lies exactly on a half cent, where VAC
   * is one cent more.
   */
  lemma VarianceAtCompletionMirrorsScheduleVariance(project: ProjectData)
    ensures var k := CalculateKPIs(project);
            k.varianceAtCompletion == -k.scheduleVariance || k.varianceAtCompletion == -k.scheduleVariance + 0.01
    ensures var k := CalculateKPIs(project);
            var cents := (Total(project.activities).ev - Total(project.activities).pv) * MoneyScale;
            k.varianceAtCompletion == -k.scheduleVariance + 0.01 <==> (cents + 0.5).Floor as real == cents + 0.5
  {
    var t := Total(project.activities);
    var sv := t.ev - t.pv;
    RoundToDef(sv, MoneyScale);
    RoundToDef(-sv, MoneyScale);
    assert -sv * MoneyScale == -(sv * MoneyScale);
    MathRoundNegate(sv * MoneyScale);
  }

  /** An empty activity list gives all-zero figures and "At Risk". */
  lemma KpisOfNoActivities(project: ProjectData)
    requires project.activities == []
    ensures var k := CalculateKPIs(project);
            && k.totalPlannedValue == 0.0 && k.totalEarnedValue == 0.0 && k.totalActualCost == 0.0
            && k.percentComplete == 0.0 && k.schedulePerformanceIndex == 0.0 && k.costPerformanceIndex == 0.0
            && k.scheduleVariance == 0.0 && k.costVariance == 0.0 && k.estimateAtCompletion == 0.0
            && k.varianceAtCompletion == 0.0 && k.budget == 0.0 && k.health == "At Risk"
  {
  }

  /** A better schedule or cost index never gives a worse label. */
  lemma HealthLabelMonotone(spi: real, cpi: real, spi': real, cpi': real)
    requires spi <= spi' && cpi <= cpi'
    ensures HealthLabel(spi, cpi) == "On Track" ==> HealthLabel(spi', cpi') == "On Track"
    ensures HealthLabel(spi', cpi') == "At Risk" ==> HealthLabel(spi, cpi) == "At Risk"
  {
  }

  /**
   * The parser's `calculateMetrics` and `calculateKPIs` agree up to rounding
   * on the totals, and on the indices whenever the denominator is positive;
   * without a positive denominator the parser reports 0 where the KPI
   * engine divides by 1.
   */
  lemma MetricsAgreeWithKpis(project: ProjectData)
    ensures var m := Xer.MetricsOf(project.activities);
            var k := CalculateKPIs(project);
            && k.totalPlannedValue == RoundMoney(m.totalPlannedValue)
            && k.totalEarnedValue == RoundMoney(m.totalEarnedValue)
            && k.totalActualCost == RoundMoney(m.totalActualCost)
            && (m.totalPlannedValue > 0.0 ==> k.schedulePerformanceIndex == RoundIndex(m.schedulePerformanceIndex))
            && (m.totalActualCost > 0.0 ==> k.costPerformanceIndex == RoundIndex(m.costPerformanceIndex))
            && (m.totalPlannedValue == 0.0 ==> m.schedulePerformanceIndex == 0.0 && k.schedulePerformanceIndex == RoundIndex(m.totalEarnedValue))
  {
  }

  // ---------------------------------------------------------------------
  // calculateProjectHealth
  // ---------------------------------------------------------------------

  datatype HealthStatus = HealthStatus(status: string, color: string, score: int)

  const OnTrack := HealthStatus("On Track", "#10b981", 100)
  const Warning := HealthStatus("Warning", "#f59e0b", 75)
  const AtRisk := HealthStatus("At Risk", "#ef4444", 50)
  const Critical := HealthStatus("Critical", "#7f1d1d", 25)

  /**
   * `calculateProjectHealth`: four tiers tested from the best down; the
   * tier reached is fixed by the smaller of the two (rounded) indices.
   */
  function CalculateProjectHealth(k: KPISet): (h: HealthStatus)
    ensures h in {OnTrack, Warning, AtRisk, Critical}
    ensures var m := Min(k.schedulePerformanceIndex, k.costPerformanceIndex);
            && (h.score >= 100 <==> m >= 0.95)
            && (h.score >= 75 <==> m >= 0.90)
            && (h.score >= 50 <==> m >= 0.80)
  {
    var spi := k.schedulePerformanceIndex;
    var cpi := k.costPerformanceIndex;
    if spi >= 0.95 && cpi >= 0.95 then OnTrack
    else if spi >= 0.90 && cpi >= 0.90 then Warning
    else if spi >= 0.80 && cpi >= 0.80 then AtRisk
    else Critical
  }

  /** Better indices never lower the score. */
  lemma ProjectHealthMonotone(k: KPISet, k': KPISet)
    requires k.schedulePerformanceIndex <= k'.schedulePerformanceIndex
    requires k.costPerformanceIndex <= k'.costPerformanceIndex
    ensures CalculateProjectHealth(k).score <= CalculateProjectHealth(k').score
  {
  }

  /** A KPI set labelled "On Track" also scores 100: rounding to 4 decimals cannot take an index below 0.95. */
  lemma OnTrackScoresFull(project: ProjectData)
    requires CalculateKPIs(project).health == "On Track"
    ensures CalculateProjectHealth(CalculateKPIs(project)) == OnTrack
  {
    var t := Total(project.activities);
    assert 9500.0 / IndexScale == 0.95;
    RoundToKeepsThreshold(SchedulePerformance(t), 9500, IndexScale);
    RoundToKeepsThreshold(CostPerformance(t), 9500, IndexScale);
  }

  /**
   * The two health verdicts can disagree: an unrounded schedule index of
   * 0.89996 is "At Risk" for `calculateKPIs`, but rounds to 0.9, which
   * `calculateProjectHealth` scores as "Warning".
   */
  lemma HealthVerdictsCanDisagree()
    ensures var a := Activity(Undefined, Undefined, Undefined, Undefined, 0, 0.0, Undefined, Undefined,
                              100000.0, 89996.0, 89996.0, "Not Started");
            var project := Xer.BuildProjectData(map[]).(activities := [a]);
            && CalculateKPIs(project).health == "At Risk"
            && CalculateProjectHealth(CalculateKPIs(project)) == Warning
  {
    var a := Activity(Undefined, Undefined, Undefined, Undefined, 0, 0.0, Undefined, Undefined,
                      100000.0, 89996.0, 89996.0, "Not Started");
    var project := Xer.BuildProjectData(map[]).(activities := [a]);
    var t := Total(project.activities);
    assert project.activities == [a];
    assert Total([a]) == Total([]).Plus(AmountsOf(a)) by { assert [a][..0] == []; }
    assert t == Amounts(100000.0, 89996.0, 89996.0);
    assert SchedulePerformance(t) == 0.89996;
    assert CostPerformance(t) == 1.0;
    assert RoundIndex(0.89996) == 0.9 by {
      assert 0.89996 * IndexScale == 8999.6;
      assert MathRound(8999.6) == 9000;
    }
    assert RoundIndex(1.0) == 1.0 by {
      assert 1.0 * IndexScale == 10000.0;
      assert MathRound(10000.0) == 10000;
    }
  }

  // ---------------------------------------------------------------------
  // generateActivitySummary
  // ---------------------------------------------------------------------

  predicate IsCompleted(a: Activity) { a.percentComplete >= 100.0 }
  predicate IsInProgress(a: Activity) { a.percentComplete > 0.0 && a.percentComplete < 100.0 }
  predicate IsNotStarted(a: Activity) { a.percentComplete == 0.0 }
  predicate IsBelowZero(a: Activity) { a.percentComplete < 0.0 }

  /** `activities.filter(keep).length` */
  function Count(acts: seq<Activity>, keep: Activity -> bool): (n: nat)
    ensures n <= |acts|
  {
    if acts == [] then 0
    else Count(acts[..|acts| - 1], keep) + (if keep(acts[|acts| - 1]) then 1 else 0)
  }

  /** Every activity is completed, in progress, not started, or has a negative percentage: exactly one of the four. */
  lemma {:induction false} StatusPartition(acts: seq<Activity>)
    ensures Count(acts, IsCompleted) + Count(acts, IsInProgress) + Count(acts, IsNotStarted)
            + Count(acts, IsBelowZero) == |acts|
  {
    if acts != [] {
      StatusPartition(acts[..|acts| - 1]);
    }
  }

  /** `Math.round(completed / total * 100)` is a whole percentage, and 100 when everything is completed. */
  lemma CompletionRateBounds(completed: nat, total: nat)
    requires 0 < total && completed <= total
    ensures 0 <= MathRound(completed as real / total as real * 100.0) <= 100
    ensures completed == total ==> MathRound(completed as real / total as real * 100.0) == 100
  {
    var c, t := completed as real, total as real;
    var ratio := c / t;
    assert ratio * t == c;
    assert ratio <= 1.0;
    assert 0.0 <= ratio;
    assert completed == total ==> ratio == 1.0;
  }

  datatype ActivitySummary = ActivitySummary(total: nat, completed: nat, inProgress: nat, notStarted: nat, completionRate: int)

  /**
   * `generateActivitySummary`: the three status counts never exceed the
   * total, and the completion rate is a whole percentage between 0 and 100.
   */
  function GenerateActivitySummary(acts: seq<Activity>): (s: ActivitySummary)
    ensures s.total == |acts|
    ensures s.completed + s.inProgress + s.notStarted <= s.total
    ensures 0 <= s.completionRate <= 100
    ensures acts == [] ==> s.completionRate == 0
    ensures acts != [] && s.completed == s.total ==> s.completionRate == 100
    ensures s.completed == Count(acts, IsCompleted) && s.inProgress == Count(acts, IsInProgress)
    ensures s.notStarted == Count(acts, IsNotStarted)
    ensures acts != [] ==> s.completionRate == MathRound(s.completed as real / |acts| as real * 100.0)
  {
    var completed := Count(acts, IsCompleted);
    var inProgress := Count(acts, IsInProgress);
    var notStarted := Count(acts, IsNotStarted);
    StatusPartition(acts);
    var rate :=
      if |acts| > 0 then
        CompletionRateBounds(completed, |acts|);
        MathRound(completed as real / |acts| as real * 100.0)
      else 0;
    ActivitySummary(|acts|, completed, inProgress, notStarted, rate)
  }
}
