/** One work order of the maintenance export: the columns the dashboard reads. */
module Orders {
  import opened Wrappers
  import opened Calendar

  /** The three labels the status column holds once it has been classified. */
  const CONFIRMED: string := "Confirmada"
  const OPEN: string := "Em aberto"
  const OTHER: string := "Outros"

  predicate IsLabel(s: string) {
    s == CONFIRMED || s == OPEN || s == OTHER
  }

  /**
   * A row of the table. Every cell may be missing: `status` is
   * "Status do sistema", `location` is "Local de instalação", `centre` is
   * "CenTrab.principal", `sortField` is "Campo de ordenação" and `due` is
   * "Conclusão desejada" after date parsing.
   */
  datatype Row = Row(
    status: Option<string>,
    location: Option<string>,
    centre: Option<string>,
    sortField: Option<string>,
    due: Option<CalendarDate>)

  /** The four text columns the filters and charts group by. */
  datatype Column = Location | Status | WorkCentre | SortField

  function Cell(r: Row, c: Column): Option<string> {
    match c
    case Location => r.location
    case Status => r.status
    case WorkCentre => r.centre
    case SortField => r.sortField
  }

  predicate IsConfirmed(r: Row) {
    r.status == Some(CONFIRMED)
  }
}
