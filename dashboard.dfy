/**
 * The script's top-level flow over a loaded table: classify the status column
 * and reduce the location column to macro codes in place, filter, and derive
 * the KPI counts, the per-status chart data and the weekly backlog.
 */
module Dashboard {
  import opened Wrappers
  import opened Calendar
  import opened Orders
  import opened StatusClassifier
  import opened MacroCode
  import opened Filters
  import opened Kpis
  import opened Tally
  import opened Backlog
  import opened Charts

  /** The table after both column rewrites. */
  function Prepare(rows: seq<Row>): (out: seq<Row>)
    ensures |out| == |rows|
    ensures forall i :: 0 <= i < |out| ==>
      out[i].status == Some(ClassifyStatus(rows[i].status))
      && out[i].location == ExtractCode(rows[i].location)
      && out[i].centre == rows[i].centre && out[i].sortField == rows[i].sortField
      && out[i].due == rows[i].due
  {
    WithMacroCodes(WithStatusLabels(rows))
  }

  /** Everything the page shows, computed from the filtered table. */
  datatype Views = Views(
    summary: Summary,
    byMacroCode: seq<Group>,
    byWorkCentre: seq<Group>,
    bySortField: seq<Group>,
    weeklyBacklog: seq<Group>,
    filtered: seq<Row>)

  method Run(table: array<Row>, f: Selection, today: CalendarDate) returns (v: Views)
    modifies table
    ensures table[..] == Prepare(old(table[..]))
    ensures v.filtered == Select(table[..], f)
    ensures v.summary == Summarize(v.filtered, today)
    ensures v.byMacroCode == CountByStatus(v.filtered, Location)
    ensures v.byWorkCentre == CountByStatus(v.filtered, WorkCentre)
    ensures v.bySortField == CountByStatus(v.filtered, SortField)
    ensures v.weeklyBacklog == WeeklyBacklog(v.filtered)
  {
    AdjustStatus(table);
    KeepMacroCodes(table);
    var filtered := ApplyFilters(table[..], f);
    v := Views(
      Summarize(filtered, today),
      CountByStatus(filtered, Location),
      CountByStatus(filtered, WorkCentre),
      CountByStatus(filtered, SortField),
      WeeklyBacklog(filtered),
      filtered);
  }

  /** Once prepared, every status is a label and every location a macro code or missing. */
  lemma PreparedColumns(rows: seq<Row>)
    ensures forall r :: r in Prepare(rows) ==>
      r.status.Some? && IsLabel(r.status.value) && (r.location.Some? ==> IsMacroCode(r.location.value))
  {
  }
}
