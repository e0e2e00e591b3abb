/**
 * The XER parser (parsers/xer-parser.js): a single forward scan over the
 * lines of a Primavera P6 export that builds a table name -> records store,
 * driven by the two-character tags `%T` (table), `%F` (field), `%R` (record)
 * and `%E` (end), followed by the projection of the `PROJNODE`, `TASK`,
 * `RSRC` and `TASKRSRC` tables into a project model.
 *
 * The scan is specified by the state machine `Step`/`Scan`; the class
 * `XerParser` runs it as the source does, in a loop over local variables.
 */
module Xer {

  import opened Wrappers
  import opened Text
  import opened Project
  import StringOrder

  // ---------------------------------------------------------------------
  // Records
  // ---------------------------------------------------------------------

  /** `parts[index] || null`: a missing or empty piece is stored as null. */
  function Cell(pieces: seq<string>, i: nat): Option<string>
  {
    if i < |pieces| && pieces[i] != "" then Some(pieces[i]) else None
  }

  /** `record[field] = value`: a new key goes last, an existing key keeps its place and takes the new value. */
  function Assign(r: Record, field: string, value: Option<string>): (r': Record)
    ensures r.WellFormed() ==> r'.WellFormed()
    ensures r'.cells == r.cells[field := value]
  {
    Record(if field in r.cells then r.keys else r.keys + [field], r.cells[field := value])
  }

  /** The record a `%R` line yields: field i is assigned piece i, in declaration order. */
  function ZipRecord(fields: seq<string>, pieces: seq<string>): (r: Record)
    ensures r.WellFormed()
    ensures forall k :: k in r.cells <==> k in fields
  {
    if fields == [] then EmptyRecord
    else
      var n := |fields| - 1;
      assert forall k :: k in fields <==> k in fields[..n] || k == fields[n];
      Assign(ZipRecord(fields[..n], pieces), fields[n], Cell(pieces, n))
  }

  /** A field holds the piece at the last position where it is declared. */
  lemma {:induction false} ZipRecordValues(fields: seq<string>, pieces: seq<string>, i: nat)
    requires i < |fields| && fields[i] !in fields[i + 1..]
    ensures ZipRecord(fields, pieces).cells[fields[i]] == Cell(pieces, i)
  {
    var n := |fields| - 1;
    var prev := ZipRecord(fields[..n], pieces);
    assert ZipRecord(fields, pieces) == Assign(prev, fields[n], Cell(pieces, n));
    if i < n {
      assert fields[..n][i + 1..] == fields[i + 1..n];
      assert fields[n] in fields[i + 1..];
      assert fields[..n][i] == fields[i] != fields[n];
      ZipRecordValues(fields[..n], pieces, i);
    }
  }

  /** With distinct field names, the record's keys are the declared fields in declaration order, each holding its own piece. */
  lemma {:induction false} ZipRecordDistinct(fields: seq<string>, pieces: seq<string>)
    requires StringOrder.Distinct(fields)
    ensures ZipRecord(fields, pieces).keys == fields
    ensures forall i :: 0 <= i < |fields| ==> ZipRecord(fields, pieces).cells[fields[i]] == Cell(pieces, i)
  {
    if fields != [] {
      var n := |fields| - 1;
      ZipRecordDistinct(fields[..n], pieces);
      assert fields[n] !in fields[..n];
      assert fields[..n] + [fields[n]] == fields;
      forall i | 0 <= i < |fields|
        ensures ZipRecord(fields, pieces).cells[fields[i]] == Cell(pieces, i)
      {
        ZipRecordValues(fields, pieces, i);
      }
    }
  }

  // ---------------------------------------------------------------------
  // The scan as a state machine
  // ---------------------------------------------------------------------

  /** What a physical line is, once trimmed, by its two-character tag. */
  datatype Line =
    | Blank
    | TableLine(name: Option<string>)      // `%T`, with its second tab-separated token
    | FieldLine(name: Option<string>)      // `%F`, with its second tab-separated token
    | RecordLine(pieces: seq<string>)      // `%R`, with `line.substring(2).split('\t')`
    | EndLine                              // `%E`
    | Unknown                              // any other tag

  /** The branch of the scan loop a line takes; the tags are tested in the order `%T`, `%F`, `%R`, `%E`. */
  function Classify(raw: string): (r: Line)
    ensures r.Blank? <==> AllWhitespace(raw)
    ensures r.RecordLine? ==> |r.pieces| >= 1
  {
    TrimSpec(raw);
    var line := Trim(raw);
    if line == "" then Blank
    else if StartsWith(line, "%T") then TableLine(Piece(line, '\t', 1))
    else if StartsWith(line, "%F") then FieldLine(Piece(line, '\t', 1))
    else if StartsWith(line, "%R") then RecordLine(Split(line[2..], '\t'))
    else if StartsWith(line, "%E") then EndLine
    else Unknown
  }

  /** `currentTable`, `currentFields` and `data` of the scan, and whether `%E` has stopped it. */
  datatype ScanState = ScanState(table: Option<string>, fields: seq<string>, data: map<string, seq<Record>>, ended: bool)

  const Start := ScanState(None, [], map[], false)

  /** The property key a token names: a missing token (`undefined`) names the key "undefined". */
  function KeyOf(token: Option<string>): string { token.GetOr("undefined") }

  /** `currentTable` is truthy: a table name was given and it is not empty. */
  predicate Active(table: Option<string>) { table.Some? && table.value != "" }

  /** An active table always has its record list in the store. */
  predicate Inv(st: ScanState) { Active(st.table) ==> st.table.value in st.data }

  /** What one line does to the scan. */
  function Step(st: ScanState, line: Line): (st': ScanState)
    requires Inv(st)
    ensures Inv(st')
  {
    match line
    case TableLine(name) => ScanState(name, [], st.data[KeyOf(name) := []], st.ended)
    case FieldLine(name) => st.(fields := st.fields + [KeyOf(name)])
    case RecordLine(pieces) =>
      if Active(st.table) && |st.fields| > 0 then
        var table := st.table.value;
        st.(data := st.data[table := st.data[table] + [ZipRecord(st.fields, pieces)]])
      else st
    case EndLine => st.(ended := true)
    case _ => st
  }

  /** The scan of the remaining lines, which stops at the first `%E`. */
  function Run(st: ScanState, lines: seq<Line>): (r: ScanState)
    requires Inv(st)
    ensures Inv(r)
    ensures st.ended ==> r == st
    decreases |lines|
  {
    if st.ended || lines == [] then st else Run(Step(st, lines[0]), lines[1..])
  }

  /** The classification of each line, in order. */
  function Classified(raws: seq<string>): (lines: seq<Line>)
    ensures |lines| == |raws|
  {
    if raws == [] then [] else [Classify(raws[0])] + Classified(raws[1..])
  }

  /** The scan of physical lines. */
  function Scan(st: ScanState, raws: seq<string>): ScanState
    requires Inv(st)
  {
    Run(st, Classified(raws))
  }

  /** The scan state `parse` reaches on the whole text, split at line feeds. */
  function ScanText(content: string): ScanState
  {
    Scan(Start, Split(content, '\n'))
  }

  /** A line that is blank after trimming, or carries none of the four tags. */
  predicate IsIgnored(raw: string)
  {
    Classify(raw).Blank? || Classify(raw).Unknown?
  }

  lemma {:induction false} ClassifiedAppend(xs: seq<string>, ys: seq<string>)
    ensures Classified(xs + ys) == Classified(xs) + Classified(ys)
  {
    if xs == [] {
      assert xs + ys == ys;
    } else {
      assert (xs + ys)[0] == xs[0];
      assert (xs + ys)[1..] == xs[1..] + ys;
      ClassifiedAppend(xs[1..], ys);
    }
  }

  /** Running one more line is one more step, unless the scan has already ended. */
  lemma {:induction false} RunSnoc(st: ScanState, lines: seq<Line>, line: Line)
    requires Inv(st)
    ensures var mid := Run(st, lines);
            Run(st, lines + [line]) == if mid.ended then mid else Step(mid, line)
    decreases |lines|
  {
    if !st.ended {
      if lines == [] {
        assert Run(Step(st, line), []) == Step(st, line);
      } else {
        assert (lines + [line])[1..] == lines[1..] + [line];
        RunSnoc(Step(st, lines[0]), lines[1..], line);
      }
    }
  }

  lemma {:induction false} RunSkips(st: ScanState, before: seq<Line>, line: Line, after: seq<Line>)
    requires Inv(st) && (line.Blank? || line.Unknown?)
    ensures Run(st, before + [line] + after) == Run(st, before + after)
    decreases |before|
  {
    if !st.ended {
      if before == [] {
        assert Step(st, line) == st;
        assert ([line] + after)[1..] == after;
        assert before + [line] + after == [line] + after;
        assert before + after == after;
      } else {
        assert (before + [line] + after)[1..] == before[1..] + [line] + after;
        assert (before + after)[1..] == before[1..] + after;
        RunSkips(Step(st, before[0]), before[1..], line, after);
      }
    }
  }

  lemma {:induction false} RunStops(st: ScanState, before: seq<Line>, after: seq<Line>)
    requires Inv(st)
    ensures Run(st, before + [EndLine]).ended
    ensures Run(st, before + [EndLine] + after) == Run(st, before + [EndLine])
    decreases |before|
  {
    if !st.ended {
      if before == [] {
        assert ([EndLine] + after)[1..] == after;
        assert before + [EndLine] + after == [EndLine] + after;
        assert before + [EndLine] == [EndLine];
      } else {
        assert (before + [EndLine] + after)[1..] == before[1..] + [EndLine] + after;
        assert (before + [EndLine])[1..] == before[1..] + [EndLine];
        RunStops(Step(st, before[0]), before[1..], after);
      }
    }
  }

  /** Blank and unrecognised lines leave the scan unchanged, wherever they stand. */
  lemma IgnoredLineHasNoEffect(st: ScanState, before: seq<string>, raw: string, after: seq<string>)
    requires Inv(st) && IsIgnored(raw)
    ensures Scan(st, before + [raw] + after) == Scan(st, before + after)
  {
    ClassifiedAppend(before + [raw], after);
    ClassifiedAppend(before, [raw]);
    ClassifiedAppend(before, after);
    assert Classified([raw]) == [Classify(raw)];
    RunSkips(st, Classified(before), Classify(raw), Classified(after));
  }

  /** The first `%E` line ends the scan: nothing after it has any effect. */
  lemma EndLineStopsScan(st: ScanState, before: seq<string>, raw: string, after: seq<string>)
    requires Inv(st) && Classify(raw) == EndLine
    ensures Scan(st, before + [raw]).ended
    ensures Scan(st, before + [raw] + after) == Scan(st, before + [raw])
  {
    ClassifiedAppend(before + [raw], after);
    ClassifiedAppend(before, [raw]);
    assert Classified([raw]) == [Classify(raw)];
    RunStops(st, Classified(before), Classified(after));
  }

  /** `%T`: the table named by the second tab-separated token becomes current, with no fields and an empty record list; all other tables are kept. */
  lemma TableLineStep(st: ScanState, name: Option<string>)
    requires Inv(st)
    ensures var st' := Step(st, TableLine(name));
            && st'.table == name && st'.fields == []
            && st'.data.Keys == st.data.Keys + {KeyOf(name)}
            && st'.data[KeyOf(name)] == []
            && (forall k :: k in st.data && k != KeyOf(name) ==> st'.data[k] == st.data[k])
            && st'.ended == st.ended
  {
  }

  /** `%F`: exactly one field name, the second tab-separated token, is appended; nothing else changes. */
  lemma FieldLineStep(st: ScanState, name: Option<string>)
    requires Inv(st)
    ensures var st' := Step(st, FieldLine(name));
            && |st'.fields| == |st.fields| + 1 && st'.fields[..|st.fields|] == st.fields
            && st'.fields[|st.fields|] == KeyOf(name)
            && st'.table == st.table && st'.data == st.data && st'.ended == st.ended
  {
  }

  /**
   * `%R`: one record is appended to the current table exactly when a table is
   * active and at least one field is declared; otherwise nothing changes.
   */
  lemma RecordLineStep(st: ScanState, pieces: seq<string>)
    requires Inv(st)
    ensures var st' := Step(st, RecordLine(pieces));
            if Active(st.table) && |st.fields| > 0 then
              var table := st.table.value;
              && st'.data.Keys == st.data.Keys
              && st'.data[table] == st.data[table] + [ZipRecord(st.fields, pieces)]
              && (forall k :: k in st.data && k != table ==> st'.data[k] == st.data[k])
              && st'.table == st.table && st'.fields == st.fields && st'.ended == st.ended
            else st' == st
  {
  }

  /** A trimmed line tagged `%R` takes the record branch, with the pieces of the text after the tag. */
  lemma ClassifyRecordLine(line: string)
    requires Trim(line) == line && StartsWith(line, "%R")
    ensures Classify(line) == RecordLine(Split(line[2..], '\t'))
  {
  }

  /**
   * The values of a `%R` line are cut from the text after the tag, which
   * starts with the tab that follows it: piece 0 is empty, so the first
   * declared field is stored as null and every later field receives the
   * value one position to its left on the line.
   */
  lemma RecordValuesShifted(values: seq<string>, fields: seq<string>)
    requires |values| >= 1 && forall i :: 0 <= i < |values| ==> '\t' !in values[i]
    requires StringOrder.Distinct(fields) && |fields| >= 1
    requires Trim("%R\t" + Join(values, '\t')) == "%R\t" + Join(values, '\t')
    ensures Classify("%R\t" + Join(values, '\t')) == RecordLine([""] + values)
    ensures ZipRecord(fields, [""] + values).cells[fields[0]] == None
    ensures forall i :: 1 <= i < |fields| ==> ZipRecord(fields, [""] + values).cells[fields[i]] == Cell(values, i - 1)
  {
    var line := "%R\t" + Join(values, '\t');
    assert StartsWith(line, "%R") by {
      assert line[..2] == "%R";
    }
    ClassifyRecordLine(line);
    assert line[2..] == Join([""] + values, '\t') by {
      assert ([""] + values)[1..] == values;
    }
    SplitJoin([""] + values, '\t');
    ZipRecordDistinct(fields, [""] + values);
  }

  /** Declaring a table again discards the records gathered for it so far. */
  lemma RedeclaredTableIsEmptied(raws: seq<string>, raw: string)
    requires Classify(raw).TableLine? && !Scan(Start, raws).ended
    ensures KeyOf(Classify(raw).name) in Scan(Start, raws + [raw]).data
    ensures Scan(Start, raws + [raw]).data[KeyOf(Classify(raw).name)] == []
  {
    ClassifiedAppend(raws, [raw]);
    assert Classified([raw]) == [Classify(raw)];
    RunSnoc(Start, Classified(raws), Classify(raw));
  }

  // ---------------------------------------------------------------------
  // Projection into the project model
  // ---------------------------------------------------------------------

  /** `tables.NAME || []` */
  function TableOr(tables: map<string, seq<Record>>, name: string): seq<Record>
  {
    if name in tables then tables[name] else []
  }

  /** One activity per `TASK` record; its status is never empty. */
  function ToActivity(task: Record): (a: Activity)
    ensures a.status != ""
  {
    Activity(
      id := task.Get("task_id"),
      name := task.Get("task_name"),
      startDate := task.Get("start_date"),
      endDate := task.Get("end_date"),
      duration := task.Get("duration").IntOrZero(),
      percentComplete := task.Get("percent_complete").FloatOrZero(),
      actualStart := task.Get("actual_start_date"),
      actualFinish := task.Get("actual_finish_date"),
      plannedValue := task.Get("planned_value").FloatOrZero(),
      earnedValue := task.Get("earned_value").FloatOrZero(),
      actualCost := task.Get("actual_cost").FloatOrZero(),
      status := task.Get("status_code").Or("Not Started"))
  }

  /** One resource per `RSRC` record; its type is never empty. */
  function ToResource(rsrc: Record): (r: Resource)
    ensures r.resourceType != ""
  {
    Resource(
      id := rsrc.Get("rsrc_id"),
      name := rsrc.Get("rsrc_name"),
      resourceType := rsrc.Get("rsrc_type").Or("Material"),
      maxUnits := rsrc.Get("max_units").FloatOrZero(),
      rate := rsrc.Get("rate").FloatOrZero())
  }

  /** `buildProjectData`: one activity per `TASK` record and one resource per `RSRC` record, in order; the summary from the first `PROJNODE` record. */
  function BuildProjectData(tables: map<string, seq<Record>>): (p: ProjectData)
    ensures |p.activities| == |TableOr(tables, "TASK")|
    ensures forall i :: 0 <= i < |p.activities| ==> p.activities[i] == ToActivity(TableOr(tables, "TASK")[i])
    ensures |p.resources| == |TableOr(tables, "RSRC")|
    ensures forall i :: 0 <= i < |p.resources| ==> p.resources[i] == ToResource(TableOr(tables, "RSRC")[i])
    ensures p.taskResources == TableOr(tables, "TASKRSRC") && p.tables == tables
  {
    var projects := TableOr(tables, "PROJNODE");
    var project := if |projects| > 0 then projects[0] else EmptyRecord;
    var tasks := TableOr(tables, "TASK");
    var rsrcs := TableOr(tables, "RSRC");
    ProjectData(
      projectId := project.Get("proj_id"),
      projectName := project.Get("proj_short_name").Or("Unnamed Project"),
      projectStatus := project.Get("status_code").Or("Not Started"),
      projectStartDate := project.Get("start_date"),
      projectEndDate := project.Get("end_date"),
      projectManager := project.Get("project_manager").Or("N/A"),
      activities := seq(|tasks|, i requires 0 <= i < |tasks| => ToActivity(tasks[i])),
      resources := seq(|rsrcs|, i requires 0 <= i < |rsrcs| => ToResource(rsrcs[i])),
      taskResources := TableOr(tables, "TASKRSRC"),
      tables := tables)
  }

  /** What `parseFloat` makes of a field: None when it is absent, null or not a number. */
  function ParsedFloat(v: Value): Option<real>
  {
    if v.Str? then JsNumber.ParseFloat(v.s) else None
  }

  /** A numeric field that is absent, null or not a number reads as 0. */
  predicate NoNumber(v: Value)
  {
    v.Str? ==> JsNumber.ParseFloat(v.s).GetOr(0.0) == 0.0
  }

  /**
   * Each activity field is the record's own value: the text fields pass
   * through, a number is the one `parseFloat`/`parseInt` reads, and only a
   * field that is missing or reads as zero falls back to 0; the status is the
   * record's when it is non-empty and "Not Started" otherwise.
   */
  lemma ActivityDefaults(task: Record)
    ensures var a := ToActivity(task);
            && a.id == task.Get("task_id") && a.name == task.Get("task_name")
            && a.startDate == task.Get("start_date") && a.endDate == task.Get("end_date")
            && a.actualStart == task.Get("actual_start_date") && a.actualFinish == task.Get("actual_finish_date")
            && (task.Get("duration").Str? ==> a.duration == JsNumber.ParseInt(task.Get("duration").s).GetOr(0))
            && (!task.Get("duration").Str? ==> a.duration == 0)
            && (ParsedFloat(task.Get("percent_complete")).Some? ==> a.percentComplete == ParsedFloat(task.Get("percent_complete")).value)
            && (ParsedFloat(task.Get("planned_value")).Some? ==> a.plannedValue == ParsedFloat(task.Get("planned_value")).value)
            && (ParsedFloat(task.Get("earned_value")).Some? ==> a.earnedValue == ParsedFloat(task.Get("earned_value")).value)
            && (ParsedFloat(task.Get("actual_cost")).Some? ==> a.actualCost == ParsedFloat(task.Get("actual_cost")).value)
            && (NoNumber(task.Get("percent_complete")) <==> a.percentComplete == 0.0)
            && (NoNumber(task.Get("planned_value")) <==> a.plannedValue == 0.0)
            && (NoNumber(task.Get("earned_value")) <==> a.earnedValue == 0.0)
            && (NoNumber(task.Get("actual_cost")) <==> a.actualCost == 0.0)
            && (task.Get("status_code").Truthy() ==> a.status == task.Get("status_code").s)
            && (!task.Get("status_code").Truthy() ==> a.status == "Not Started")
  {
  }

  /**
   * Each resource field is the record's own value; only a number that is
   * missing or reads as zero falls back to 0, and only an empty or missing
   * type to "Material".
   */
  lemma ResourceDefaults(rsrc: Record)
    ensures var r := ToResource(rsrc);
            && r.id == rsrc.Get("rsrc_id") && r.name == rsrc.Get("rsrc_name")
            && (ParsedFloat(rsrc.Get("max_units")).Some? ==> r.maxUnits == ParsedFloat(rsrc.Get("max_units")).value)
            && (ParsedFloat(rsrc.Get("rate")).Some? ==> r.rate == ParsedFloat(rsrc.Get("rate")).value)
            && (NoNumber(rsrc.Get("max_units")) <==> r.maxUnits == 0.0)
            && (NoNumber(rsrc.Get("rate")) <==> r.rate == 0.0)
            && (rsrc.Get("rsrc_type").Truthy() ==> r.resourceType == rsrc.Get("rsrc_type").s)
            && (!rsrc.Get("rsrc_type").Truthy() ==> r.resourceType == "Material")
  {
  }

  /**
   * The summary comes from the first `PROJNODE` record: its id and dates as
   * they are, its name, status and manager when non-empty and the defaults
   * "Unnamed Project", "Not Started" and "N/A" otherwise.
   */
  lemma SummaryFromFirstProject(tables: map<string, seq<Record>>, first: Record, more: seq<Record>)
    requires "PROJNODE" in tables && tables["PROJNODE"] == [first] + more
    ensures var p := BuildProjectData(tables);
            && p.projectId == first.Get("proj_id")
            && p.projectStartDate == first.Get("start_date") && p.projectEndDate == first.Get("end_date")
            && (first.Get("proj_short_name").Truthy() ==> p.projectName == first.Get("proj_short_name").s)
            && (!first.Get("proj_short_name").Truthy() ==> p.projectName == "Unnamed Project")
            && (first.Get("status_code").Truthy() ==> p.projectStatus == first.Get("status_code").s)
            && (!first.Get("status_code").Truthy() ==> p.projectStatus == "Not Started")
            && (first.Get("project_manager").Truthy() ==> p.projectManager == first.Get("project_manager").s)
            && (!first.Get("project_manager").Truthy() ==> p.projectManager == "N/A")
  {
  }

  /** A `TASK` record with none of the numeric fields and no status yields zeros and "Not Started". */
  lemma MissingFieldsDefault(task: Record)
    requires forall f :: f in {"duration", "percent_complete", "planned_value", "earned_value", "actual_cost", "status_code"} ==> f !in task.cells
    ensures var a := ToActivity(task);
            && a.duration == 0 && a.percentComplete == 0.0 && a.plannedValue == 0.0
            && a.earnedValue == 0.0 && a.actualCost == 0.0 && a.status == "Not Started"
  {
  }

  /**
   * Each absent table projects to an empty list, and without a `PROJNODE`
   * record (the table absent or empty) the summary takes its defaults.
   */
  lemma AbsentTablesAreEmpty(tables: map<string, seq<Record>>)
    ensures var p := BuildProjectData(tables);
            && ("TASK" !in tables ==> p.activities == [])
            && ("RSRC" !in tables ==> p.resources == [])
            && ("TASKRSRC" !in tables ==> p.taskResources == [])
            && (TableOr(tables, "PROJNODE") == [] ==>
                  && p.projectId == Undefined && p.projectName == "Unnamed Project"
                  && p.projectStatus == "Not Started" && p.projectManager == "N/A"
                  && p.projectStartDate == Undefined && p.projectEndDate == Undefined)
  {
  }

  /** Only the first `PROJNODE` record feeds the summary: further project records change nothing. */
  lemma OnlyFirstProjectCounts(tables: map<string, seq<Record>>, first: Record, more: seq<Record>)
    ensures var p := BuildProjectData(tables["PROJNODE" := [first]]);
            var q := BuildProjectData(tables["PROJNODE" := [first] + more]);
            && q.projectId == p.projectId && q.projectName == p.projectName
            && q.projectStatus == p.projectStatus && q.projectStartDate == p.projectStartDate
            && q.projectEndDate == p.projectEndDate && q.projectManager == p.projectManager
            && q.activities == p.activities && q.resources == p.resources
  {
  }

  // ---------------------------------------------------------------------
  // calculateMetrics
  // ---------------------------------------------------------------------

  datatype Metrics = Metrics(
    totalPlannedValue: real,
    totalEarnedValue: real,
    totalActualCost: real,
    schedulePerformanceIndex: real,
    costPerformanceIndex: real)

  /** The parser's own totals: unrounded sums, and indices that are 0 unless their denominator is positive. */
  function MetricsOf(acts: seq<Activity>): (m: Metrics)
    ensures m.totalPlannedValue == Total(acts).pv && m.totalEarnedValue == Total(acts).ev
    ensures m.totalActualCost == Total(acts).ac
    ensures m.totalPlannedValue > 0.0 ==> m.schedulePerformanceIndex * m.totalPlannedValue == m.totalEarnedValue
    ensures m.totalPlannedValue <= 0.0 ==> m.schedulePerformanceIndex == 0.0
    ensures m.totalActualCost > 0.0 ==> m.costPerformanceIndex * m.totalActualCost == m.totalEarnedValue
    ensures m.totalActualCost <= 0.0 ==> m.costPerformanceIndex == 0.0
  {
    var t := Total(acts);
    Metrics(t.pv, t.ev, t.ac,
            if t.pv > 0.0 then t.ev / t.pv else 0.0,
            if t.ac > 0.0 then t.ev / t.ac else 0.0)
  }

  // ---------------------------------------------------------------------
  // The parser object
  // ---------------------------------------------------------------------

  class XerParser {
    var content: string
    var tables: map<string, seq<Record>>
    var metadata: map<string, string>

    constructor(content: string)
      ensures this.content == content && tables == map[] && metadata == map[]
    {
      this.content := content;
      tables := map[];
      metadata := map[];
    }

    /**
     * `parse()`: one pass over the lines, then the projection. It works on
     * local variables only, so the object is left as it was and two calls
     * give equal results.
     */
    method Parse() returns (r: Option<ProjectData>)
      ensures r == Some(BuildProjectData(ScanText(content).data))
    {
      var lines := Split(content, '\n');
      var currentTable: Option<string> := None;
      var currentFields: seq<string> := [];
      var data: map<string, seq<Record>> := map[];
      var i := 0;
      while i < |lines|
        invariant 0 <= i <= |lines|
        invariant Inv(ScanState(currentTable, currentFields, data, false))
        invariant Scan(ScanState(currentTable, currentFields, data, false), lines[i..]) == ScanText(content)
      {
        ghost var st := ScanState(currentTable, currentFields, data, false);
        assert Scan(st, lines[i..]) == Run(Step(st, Classify(lines[i])), Classified(lines[i + 1..])) by {
          assert lines[i..][1..] == lines[i + 1..];
        }
        var line := Trim(lines[i]);
        if line == "" {
          i := i + 1;
          continue;
        }
        if StartsWith(line, "%T") {
          currentTable := Piece(line, '\t', 1);
          data := data[KeyOf(currentTable) := []];
          currentFields := [];
        } else if StartsWith(line, "%F") {
          currentFields := currentFields + [KeyOf(Piece(line, '\t', 1))];
        } else if StartsWith(line, "%R") {
          if Active(currentTable) && |currentFields| > 0 {
            var parts := Split(line[2..], '\t');
            var record := EmptyRecord;
            var k := 0;
            while k < |currentFields|
              invariant 0 <= k <= |currentFields|
              invariant record == ZipRecord(currentFields[..k], parts)
            {
              assert currentFields[..k + 1][..k] == currentFields[..k];
              record := Assign(record, currentFields[k], Cell(parts, k));
              k := k + 1;
            }
            assert currentFields[..k] == currentFields;
            var name := currentTable.value;
            data := data[name := data[name] + [record]];
          }
        } else if StartsWith(line, "%E") {
          assert Scan(st, lines[i..]) == st.(ended := true);
          break;
        }
        i := i + 1;
      }
      assert data == ScanText(content).data;
      r := Some(BuildProjectData(data));
    }

    /** `calculateMetrics()`: parses the content again and totals the activities. */
    method CalculateMetrics() returns (m: Metrics)
      ensures m == MetricsOf(BuildProjectData(ScanText(content).data).activities)
    {
      var parsed := Parse();
      var activities := parsed.value.activities;
      var t := Total(activities);
      m := Metrics(t.pv, t.ev, t.ac,
                   if t.pv > 0.0 then t.ev / t.pv else 0.0,
                   if t.ac > 0.0 then t.ev / t.ac else 0.0);
    }
  }
}
