# XER parser and earned-value metrics, in Dafny

This project models the core of a web tool that reads Primavera P6 `.xer`
exports and reports earned-value figures. It has two parts:

- **The XER parser** (`parsers/xer-parser.js`). `XERParser.parse` is a
  single forward scan over the lines of the export. It is driven by the tags
  `%T` (table), `%F` (field), `%R` (record) and `%E` (end), and it fills a
  table name → records store. `buildProjectData` projects the `PROJNODE`,
  `TASK`, `RSRC` and `TASKRSRC` tables into a project model, with defaults.
  `calculateMetrics` re-parses the text and totals the activities.
- **The metrics engine** (`utils/calculations.js`). It computes:
  - aggregate KPIs with zero-guarded indices and a three-tier health label;
  - a monthly cumulative earned-value curve;
  - a four-tier project health score;
  - an activity status summary.

Modules:

| file | module | contents |
|---|---|---|
| `wrappers.dfy` | `Wrappers` | `Option` |
| `text.dfy` | `Text` | `split` with a one-character separator and its inverse `join`, `trim`, `startsWith` |
| `js_number.dfy` | `JsNumber` | `Math.round`, the `Math.round(x * s) / s` idiom, and decimal `parseInt` / `parseFloat` |
| `string_order.dfy` | `StringOrder` | the default string order of `Array.prototype.sort`, and a sort standing for it |
| `project.dfy` | `Project` | records, activities, resources, the project model, and amount totals |
| `xer.dfy` | `Xer` | the scan as a state machine (`Step`/`Scan`), the projection, and the class `XerParser` |
| `calculations.dfy` | `Calculations` | `calculateKPIs`, `calculateProjectHealth`, `generateActivitySummary` |
| `earned_value.dfy` | `EarnedValue` | `calculateEarnedValue`, as methods proved against a reference definition of the curve |

### How each part is specified

**The scan.** It is specified by the state machine `Xer.Step` over
classified lines. `Xer.ScanText` runs that machine over the whole text.
`XerParser.Parse` is the imperative loop of the source: `continue` on blank
lines, `break` on `%E`, and an inner loop that builds each record. Parse is
proved to return exactly the projection of `ScanText(content)`. Parse has no
`modifies` clause, so it cannot change the object. Two calls therefore give
equal results.

**The curve.** `EarnedValue.CalculateEarnedValue` is made of two passes:

- a pass that groups dated activities into a map from month to sums;
- a pass that accumulates those sums over the sorted months.

Both passes are proved against `EarnedValue.TimeSeries`. TimeSeries defines
point *i* directly: the rounded sums over every dated activity booked to the
*i*-th month or an earlier one.

**Numbers.** They are exact reals. `Math.round(y)` is `floor(y + 1/2)`.

**Month keys.** The month of a start date (`new Date(d)` formatted as
`YYYY-MM` in local time) is a function parameter `monthKey`. Every property
of the curve holds for any such function.

### Behaviour of the code as written

In each case the model follows the code.

- **`%R` values are shifted.** The values of a `%R` line are taken from
  `line.substring(2).split('\t')`. On a line `%R<TAB>v1<TAB>v2` that yields
  the pieces `["", "v1", "v2"]`. As a result:
  - the first declared field is stored as null;
  - each later field gets the value one position to its left.

  The comment on that branch (`parsers/xer-parser.js:34`) shows a record
  line `%R<TAB>1<TAB>task1…`, as if `1` were the first field's value. With
  the code as written the first field is null, `1` goes to the second field
  and `task1` to the third. `Xer.RecordValuesShifted` states what the code
  does.
- **Rounding direction.** `Math.round` rounds halves toward +infinity
  (−2.5 → −2), not away from zero (`JsNumber.MathRoundHalves`). One
  consequence: VAC and −SV can differ by one cent
  (`Calculations.VarianceAtCompletionMirrorsScheduleVariance`).
- **Negative durations.** A negative `duration` text parses to a negative
  duration (`JsNumber.ParseIntNegativeDecimal`). Nothing clamps it to zero.

## Model

| member | source | states |
|---|---|---|
| Xer.Assign | parsers/xer-parser.js:39 | setting a property keeps a record well formed (each key listed once, exactly the keys with values) and updates only that cell |
| Xer.ZipRecord | parsers/xer-parser.js:37-40 | a built record is well formed and its keys are exactly the declared fields |
| Xer.ZipRecordValues | parsers/xer-parser.js:38-40 | a field declared more than once holds the piece at its last declaration |
| Xer.ZipRecordDistinct | parsers/xer-parser.js:36-40 | with distinct field names, the keys are the fields in declaration order, and field i holds piece i, with a missing or empty piece stored as null |
| Xer.Step | parsers/xer-parser.js:24-46 | one line keeps the invariant that the current table, when truthy, has its record list in the store |
| Xer.Run | parsers/xer-parser.js:20-47 | the scan keeps that invariant, and a scan that has met `%E` changes nothing more |
| Xer.IgnoredLineHasNoEffect | parsers/xer-parser.js:20-23 | a line that is blank after trimming, or has none of the four tags, can be removed anywhere without changing the scan |
| Xer.EndLineStopsScan | parsers/xer-parser.js:43-46 | the first `%E` line ends the scan, and the lines after it have no effect |
| Xer.TableLineStep | parsers/xer-parser.js:24-28 | `%T` makes token 1 the current table (the key "undefined" when the token is missing), gives it an empty record list, clears the fields and keeps every other table |
| Xer.FieldLineStep | parsers/xer-parser.js:29-32 | `%F` appends exactly one field name, token 1, and changes nothing else |
| Xer.RecordLineStep | parsers/xer-parser.js:33-42 | `%R` appends exactly one record to the current table if and only if a table is active and at least one field is declared; otherwise the state is unchanged |
| Xer.Classify | parsers/xer-parser.js:21-46 | a line is skipped as blank exactly when it is all white space; a `%R` line always yields at least one piece |
| Xer.ClassifyRecordLine | parsers/xer-parser.js:33-36 | a trimmed `%R` line takes the record branch, with the pieces of the text after the tag |
| Xer.RecordValuesShifted | parsers/xer-parser.js:36-40 | on `%R<TAB>v1<TAB>…`, the first field is null and field i (i ≥ 1) holds value i−1 |
| Xer.RedeclaredTableIsEmptied | parsers/xer-parser.js:24-28 | declaring a table again leaves it with an empty record list, discarding earlier records |
| Xer.BuildProjectData | parsers/xer-parser.js:56-103 | one activity per `TASK` record and one resource per `RSRC` record, in order, element i being the projection of record i; `TASKRSRC` and the raw tables are passed through (the summary fields are stated by `SummaryFromFirstProject` with a `PROJNODE` record and by `AbsentTablesAreEmpty` without one) |
| Xer.ToActivity | parsers/xer-parser.js:63-76 | an activity's status is never empty (the full field-by-field statement is `ActivityDefaults`) |
| Xer.ToResource | parsers/xer-parser.js:80-86 | a resource's type is never empty (the full field-by-field statement is `ResourceDefaults`) |
| Xer.ActivityDefaults | parsers/xer-parser.js:63-76 | id, name, start and end dates and actual dates are the record's values; a number that parses is the parsed value, and a number is 0 exactly when its field is absent or null or does not parse to a non-zero number; duration is the `parseInt` value or 0; the status is the record's when non-empty and "Not Started" otherwise |
| Xer.ResourceDefaults | parsers/xer-parser.js:80-86 | id and name are passed through; max units and rate are the parsed values when they parse, and 0 exactly when absent or null or when they do not parse to a non-zero number; the type is the record's when non-empty and "Material" otherwise |
| Xer.SummaryFromFirstProject | parsers/xer-parser.js:58-97 | with a first `PROJNODE` record, the summary id and dates are that record's, and name, status and manager are its values when non-empty and "Unnamed Project", "Not Started", "N/A" otherwise |
| Xer.MissingFieldsDefault | parsers/xer-parser.js:68-75 | a task with none of the numeric fields and no status gives zeros and "Not Started" |
| Xer.AbsentTablesAreEmpty | parsers/xer-parser.js:56-101 | each absent `TASK`, `RSRC` or `TASKRSRC` table gives an empty list; with no `PROJNODE` record (table absent or empty) the summary is `undefined` id and dates, "Unnamed Project", "Not Started" and "N/A" |
| Xer.OnlyFirstProjectCounts | parsers/xer-parser.js:58-59 | project records after the first `PROJNODE` record change nothing in the summary |
| Xer.MetricsOf | parsers/xer-parser.js:109-118 | totals are the sums over the activities; each index times its denominator is EV when the denominator is positive, and the index is 0 otherwise |
| Xer.XerParser.constructor | parsers/xer-parser.js:7-11 | stores the content, with empty tables and metadata |
| Xer.XerParser.Parse | parsers/xer-parser.js:13-54 | the loop returns the projection of exactly the store the state machine reaches on the text split at line feeds |
| Xer.XerParser.CalculateMetrics | parsers/xer-parser.js:106-120 | the metrics of the activities of a fresh parse of the content |
| Text.TrimStartSpec | parsers/xer-parser.js:21 | removes exactly the leading run of white space |
| Text.TrimEndSpec | parsers/xer-parser.js:21 | removes exactly the trailing run of white space |
| Text.Trim | parsers/xer-parser.js:21 | the trimmed line is no longer than the line and neither starts nor ends with white space |
| Text.TrimSpec | parsers/xer-parser.js:21 | the trimmed line is the factor left when the white space at both ends is cut off: everything before and after it is white space and it neither starts nor ends with white space; it is empty exactly when the line is all white space |
| Text.TrimUnchanged | parsers/xer-parser.js:21 | a line without white space at either end is its own trim |
| Text.TrimIdempotent | parsers/xer-parser.js:21 | trimming twice is trimming once |
| Text.Split | parsers/xer-parser.js:15 | a split has at least one piece |
| Text.SplitPiecesLackSeparator | parsers/xer-parser.js:15 | no piece contains the separator |
| Text.JoinSplit | parsers/xer-parser.js:15 | joining the pieces of a split gives the text back |
| Text.SplitJoin | parsers/xer-parser.js:36 | splitting a join of separator-free pieces gives the pieces back |
| JsNumber.MathRound | utils/calculations.js:29-39 | the result is within half a unit of the argument (y − ½ < n ≤ y + ½) |
| JsNumber.RoundTo | utils/calculations.js:29-39 | scale-round-rescale stays within half a grid step of the value |
| JsNumber.MathRoundHalves | utils/calculations.js:29-39 | halves round up: 2.5 → 3, −2.5 → −2, −0.5 → 0 |
| JsNumber.MathRoundMonotone | utils/calculations.js:29-39 | rounding is monotone |
| JsNumber.MathRoundNegate | utils/calculations.js:29-39 | rounding −y gives −round(y), or one more exactly on halves |
| JsNumber.RoundToMonotone | utils/calculations.js:29-39 | scale-round-rescale is monotone |
| JsNumber.RoundToOnGrid | utils/calculations.js:29-39 | a value already on the grid is unchanged |
| JsNumber.RoundToKeepsThreshold | utils/calculations.js:33-34 | rounding never takes a value below a threshold that lies on the grid |
| JsNumber.RoundToZero | utils/calculations.js:32 | zero rounds to zero on every grid, so a percentage guarded to 0 stays 0 |
| JsNumber.ParseInt | parsers/xer-parser.js:68 | `NaN` exactly when no digit follows the leading white space and sign; the value is non-negative without a minus sign and non-positive with one; text starting with a digit always parses |
| JsNumber.ParseFloat | parsers/xer-parser.js:69 | `NaN` exactly when neither a digit nor a point followed by a digit follows the leading white space and sign; the sign of the value follows the sign in the text; text starting with a digit always parses |
| JsNumber.ParseIntDecimal | parsers/xer-parser.js:68 | `parseInt` reads back a decimal numeral followed by any non-digit text |
| JsNumber.ParseIntNegativeDecimal | parsers/xer-parser.js:68 | `parseInt` of "-n…" is −n, so a duration can be negative |
| JsNumber.ParseIntDigits | parsers/xer-parser.js:68 | `parseInt` of a digit run followed by a non-digit is the run's value |
| JsNumber.ParseFloatDecimal | parsers/xer-parser.js:69 | `parseFloat` reads back a decimal numeral followed by text that cannot continue a number |
| StringOrder.Irreflexive | utils/calculations.js:68 | no key sorts before itself |
| StringOrder.Transitive | utils/calculations.js:68 | the sort order is transitive |
| StringOrder.Connected | utils/calculations.js:68 | of two different keys, one sorts before the other |
| StringOrder.SortedPositions | utils/calculations.js:68 | in a strictly sorted list, key order is position order |
| StringOrder.InsertSorted | utils/calculations.js:68 | inserting a new key keeps a list strictly sorted |
| StringOrder.SortStrings | utils/calculations.js:68 | sorting is a permutation |
| StringOrder.SortStringsSorted | utils/calculations.js:68 | sorting distinct keys gives them strictly ascending, with the same length and the same elements |
| Project.TotalAppend | utils/calculations.js:9-11 | the sums over two lists laid end to end add up |
| Project.TotalNonNegative | utils/calculations.js:9-11 | sums of non-negative amounts are non-negative |
| Calculations.GuardedRatio | utils/calculations.js:17-21 | the ratio with 1 substituted for a zero denominator: `num / den` when `den` is not 0, and `num` itself when `den` is 0 |
| Calculations.HealthLabel | utils/calculations.js:40 | "On Track" iff min(SPI, CPI) ≥ 0.95; "At Risk" iff min < 0.90; "Warning" iff 0.90 ≤ min < 0.95 |
| Calculations.CalculateKPIs | utils/calculations.js:5-42 | totals, SV, CV, VAC and budget are the 2-decimal roundings of the sums and their differences; percent complete is round(EV/PV·100) when PV > 0 and 0 otherwise; SPI is round4(EV/PV), or round4(EV) when PV = 0; CPI likewise with AC; EAC is round(AC), 0, or round(AC/(EV/AC)) as EV and AC are zero or not; the label comes from the unrounded indices; each total is within half a cent of the exact sum |
| Calculations.IndexFormulas | utils/calculations.js:14-21 | the unrounded percentage, SPI, CPI and EAC with their zero guards resolved case by case |
| Calculations.EstimateAtCompletionValue | utils/calculations.js:18-21 | EAC is AC when EV = 0, 0 when AC = 0 and EV ≠ 0, and AC²/EV otherwise |
| Calculations.VarianceAtCompletionMirrorsScheduleVariance | utils/calculations.js:22-38 | the rounded VAC is the negated rounded SV or one cent more, and it is one cent more exactly when the variance in cents lies on a half |
| Calculations.KpisOfNoActivities | utils/calculations.js:5-42 | no activities give all-zero figures and "At Risk" |
| Calculations.HealthLabelMonotone | utils/calculations.js:40 | better indices never give a worse label |
| Calculations.MetricsAgreeWithKpis | utils/calculations.js:9-34 | `calculateMetrics` and `calculateKPIs` agree up to rounding on the totals, and on the indices when the denominator is positive; with PV = 0 one says 0 and the other says EV |
| Calculations.CalculateProjectHealth | utils/calculations.js:86-98 | one of the four fixed tiers (status, colour, score); score ≥ 100 / 75 / 50 iff min(SPI, CPI) ≥ 0.95 / 0.90 / 0.80 |
| Calculations.ProjectHealthMonotone | utils/calculations.js:86-98 | better indices never lower the score |
| Calculations.OnTrackScoresFull | utils/calculations.js:89-90 | a KPI set labelled "On Track" scores 100, because rounding cannot take an index below 0.95 |
| Calculations.HealthVerdictsCanDisagree | utils/calculations.js:91-92 | an unrounded SPI of 0.89996 is "At Risk" for the KPIs but rounds to 0.9 and scores "Warning" |
| Calculations.Count | utils/calculations.js:101-103 | a filtered count never exceeds the list length |
| Calculations.StatusPartition | utils/calculations.js:101-103 | completed, in progress, not started and negative percentages partition the activities |
| Calculations.CompletionRateBounds | utils/calculations.js:110 | the rounded completion percentage lies in [0, 100], and is 100 when every activity is completed |
| Calculations.GenerateActivitySummary | utils/calculations.js:100-112 | total is the list length; the three counts are the filtered counts of completed, in-progress and not-started activities, together at most the total; the rate is round(completed/total·100) for a non-empty list and 0 for an empty one, a whole percentage in [0, 100] that is 100 when all are completed |
| EarnedValue.MonthKeys | utils/calculations.js:49-57 | the timeline keys are distinct |
| EarnedValue.Points | utils/calculations.js:68-81 | one point per month |
| EarnedValue.TimeSeries | utils/calculations.js:44-84 | one point per month that has a dated activity (the full statement is `TimeSeriesShape`) |
| EarnedValue.MonthKeysExactly | utils/calculations.js:49-57 | a month is a key exactly when some dated activity is booked to it |
| EarnedValue.MonthsSorted | utils/calculations.js:68 | the sorted keys are strictly ascending and are exactly the keys |
| EarnedValue.MonthTotalAbsent | utils/calculations.js:55-57 | a month that is not yet a key has nothing booked to it, so its bucket starts at zero |
| EarnedValue.ThroughStep | utils/calculations.js:68-71 | the sums through a month are the sums through the previous month plus the month's own |
| EarnedValue.ThroughMonotone | utils/calculations.js:69-71 | with non-negative amounts, the sums through a later month are no smaller |
| EarnedValue.PointsAt | utils/calculations.js:73-80 | point i holds the rounded sums through month i, with each index 0 unless its cumulative denominator is positive |
| EarnedValue.TimeSeriesShape | utils/calculations.js:49-81 | one point per month that has a dated activity; months strictly ascending; each point is the rounded sums through its month |
| EarnedValue.LastPointIsDatedTotal | utils/calculations.js:64-77 | the last point carries the rounded sums over every dated activity |
| EarnedValue.TimeSeriesNonDecreasing | utils/calculations.js:69-77 | with non-negative amounts the curve never goes down |
| EarnedValue.UndatedActivityIgnored | utils/calculations.js:50 | an activity without a start date, wherever it stands in the list, does not change the curve |
| EarnedValue.UndatedKeepsKeys | utils/calculations.js:49-57 | removing an undated activity keeps the timeline keys |
| EarnedValue.UndatedKeepsSums | utils/calculations.js:64-71 | removing an undated activity keeps the sums through every month |
| EarnedValue.NoActivitiesNoPoints | utils/calculations.js:44-83 | no activities, no points |
| EarnedValue.CurveEndsAtKpiTotals | utils/calculations.js:75-77 | when every activity is dated, the last point equals the KPI totals |
| EarnedValue.GroupByMonth | utils/calculations.js:49-62 | the grouping loop gives each month exactly the sums over its dated activities, and lists the months in order of first appearance |
| EarnedValue.Accumulate | utils/calculations.js:64-81 | the accumulating loop emits, for each sorted month, the point of the sums through it |
| EarnedValue.CalculateEarnedValue | utils/calculations.js:44-84 | the result is exactly the reference curve `TimeSeries` |

## Left out

- The `catch` branch of `parse` (xer-parser.js:50-53) is not modelled. For string content nothing in the `try` body throws, so `Parse` always returns a model. Non-string content, where `split` would throw, is not modelled.
- Logging on error (`console.error`) is I/O and is not modelled.
- The key order of the table store (the scan's `data` object and the project's `tables`) is not kept: both are maps, while the JavaScript object lists tables in the order they were declared. Nothing in the core reads that order. Within a record, property order is kept.
- Keys that JavaScript objects treat specially are not modelled. This covers `__proto__` as a table or field name and inherited properties such as `constructor`. Record property order is insertion order; JavaScript's hoisting of integer-like keys to the front is not modelled.
- `parseInt` / `parseFloat` cover decimal notation: optional leading white space, an optional sign, digits, and for `parseFloat` a fraction and an exponent. Hexadecimal `0x` prefixes, `Infinity` and IEEE-754 overflow are not modelled.
- Numbers are exact reals. Floating-point representation error is not modelled, for example 1000.005 not being exactly representable.
- `new Date(startDate)` and the local-time `YYYY-MM` formatting, including the "NaN-NaN" key of an invalid date, are not modelled. They are the parameter `monthKey`.
- `Array.prototype.sort` compares UTF-16 code units; the model compares Unicode scalar values. The two orders differ only for characters outside the Basic Multilingual Plane.
- The sort is an insertion sort. On distinct keys every correct sort gives the same result.
- The `metadata` field is never written after construction and is carried only as state.
- The HTTP server, the PDF and PowerPoint generators, the remote model client and the browser script are outside the core and are not modelled.
