/**
 * The data the XER parser produces and the metrics engine consumes: raw
 * records, activities, resources and the project model, plus the sums of
 * planned value, earned value and actual cost over a list of activities.
 */
module Project {

  import opened Wrappers
  import JsNumber
  import StringOrder

  /** A property value as the parser passes it on unchanged: `undefined`, `null` or a string. */
  datatype Value = Undefined | Null | Str(s: string) {

    /** JavaScript truthiness: only a non-empty string is truthy. */
    predicate Truthy() { Str? && s != "" }

    /** `v || default` for a string default. */
    function Or(default: string): string { if Truthy() then s else default }

    /** `parseFloat(v) || 0`: `null`, `undefined` and unparsable text give 0. */
    function FloatOrZero(): real
    {
      if Str? then JsNumber.RealOrZero(JsNumber.ParseFloat(s)) else 0.0
    }

    /** `parseInt(v) || 0` */
    function IntOrZero(): int
    {
      if Str? then JsNumber.IntOrZero(JsNumber.ParseInt(s)) else 0
    }
  }

  /**
   * One raw XER record: its property names in insertion order, and the
   * stored value of each (None is `null`).
   */
  datatype Record = Record(keys: seq<string>, cells: map<string, Option<string>>) {

    /** The keys are listed once each, and exactly the keys that have a value. */
    ghost predicate WellFormed()
    {
      StringOrder.Distinct(keys) && (forall k :: k in keys <==> k in cells)
    }

    /** `record.field` */
    function Get(field: string): Value
    {
      if field !in cells then Undefined
      else if cells[field].None? then Null
      else Str(cells[field].value)
    }
  }

  /** The object `{}`. */
  const EmptyRecord := Record([], map[])

  /** One activity projected from a `TASK` record. */
  datatype Activity = Activity(
    id: Value,
    name: Value,
    startDate: Value,
    endDate: Value,
    duration: int,
    percentComplete: real,
    actualStart: Value,
    actualFinish: Value,
    plannedValue: real,
    earnedValue: real,
    actualCost: real,
    status: string)

  /** One resource projected from an `RSRC` record. */
  datatype Resource = Resource(id: Value, name: Value, resourceType: string, maxUnits: real, rate: real)

  /** The project model: the summary of the first `PROJNODE` record, the projected lists and the raw tables. */
  datatype ProjectData = ProjectData(
    projectId: Value,
    projectName: string,
    projectStatus: string,
    projectStartDate: Value,
    projectEndDate: Value,
    projectManager: string,
    activities: seq<Activity>,
    resources: seq<Resource>,
    taskResources: seq<Record>,
    tables: map<string, seq<Record>>)

  /** Planned value, earned value and actual cost, side by side. */
  datatype Amounts = Amounts(pv: real, ev: real, ac: real) {
    function Plus(other: Amounts): Amounts
    {
      Amounts(pv + other.pv, ev + other.ev, ac + other.ac)
    }
  }

  const NoAmounts := Amounts(0.0, 0.0, 0.0)

  /** What one activity contributes to the sums (`a.plannedValue || 0` and so on). */
  function AmountsOf(a: Activity): Amounts
  {
    Amounts(a.plannedValue, a.earnedValue, a.actualCost)
  }

  /** The `reduce` sums over a list of activities, accumulated from the first activity on. */
  function Total(acts: seq<Activity>): Amounts
  {
    if acts == [] then NoAmounts else Total(acts[..|acts| - 1]).Plus(AmountsOf(acts[|acts| - 1]))
  }

  /** The sums over two lists laid end to end add up. */
  lemma {:induction false} TotalAppend(xs: seq<Activity>, ys: seq<Activity>)
    ensures Total(xs + ys) == Total(xs).Plus(Total(ys))
    decreases |ys|
  {
    if ys == [] {
      assert xs + ys == xs;
    } else {
      var zs := xs + ys;
      assert zs[..|zs| - 1] == xs + ys[..|ys| - 1];
      TotalAppend(xs, ys[..|ys| - 1]);
    }
  }

  predicate NonNegative(acts: seq<Activity>)
  {
    forall i :: 0 <= i < |acts| ==> acts[i].plannedValue >= 0.0 && acts[i].earnedValue >= 0.0 && acts[i].actualCost >= 0.0
  }

  /** Sums of non-negative amounts are non-negative. */
  lemma {:induction false} TotalNonNegative(acts: seq<Activity>)
    requires NonNegative(acts)
    ensures Total(acts).pv >= 0.0 && Total(acts).ev >= 0.0 && Total(acts).ac >= 0.0
  {
    if acts != [] {
      TotalNonNegative(acts[..|acts| - 1]);
    }
  }
}
