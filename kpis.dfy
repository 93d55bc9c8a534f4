/** The four headline counts of the filtered table: total, confirmed, open and overdue orders. */
module Kpis {
  import opened Wrappers
  import opened Calendar
  import opened Orders

  function CountConfirmed(rows: seq<Row>): (n: nat)
    ensures n <= |rows|
  {
    if rows == [] then 0 else (if IsConfirmed(rows[0]) then 1 else 0) + CountConfirmed(rows[1..])
  }

  /** Rows whose status is anything but "Confirmada", a missing status included. */
  function CountNotConfirmed(rows: seq<Row>): (n: nat)
    ensures n <= |rows|
  {
    if rows == [] then 0 else (if IsConfirmed(rows[0]) then 0 else 1) + CountNotConfirmed(rows[1..])
  }

  /**
   * An order is overdue when it has a due date, that date is before the
   * reference day and it is not confirmed; a missing date never compares
   * as earlier.
   */
  predicate IsOverdue(r: Row, today: CalendarDate) {
    r.due.Some? && Before(r.due.value, today) && !IsConfirmed(r)
  }

  /** `atrasadas`: the overdue rows, never more than the rows. */
  function CountOverdue(rows: seq<Row>, today: CalendarDate): (n: nat)
    ensures n <= |rows|
  {
    if rows == [] then 0 else (if IsOverdue(rows[0], today) then 1 else 0) + CountOverdue(rows[1..], today)
  }

  datatype Summary = Summary(total: nat, confirmed: nat, open: int, overdue: nat)

  /** The KPI row: open orders are the total less the confirmed ones. */
  function Summarize(rows: seq<Row>, today: CalendarDate): (k: Summary)
    ensures k.total == |rows| && k.confirmed == CountConfirmed(rows)
    ensures k.confirmed <= k.total
    ensures k.open == CountNotConfirmed(rows)
    ensures k.overdue == CountOverdue(rows, today)
    ensures k.overdue <= k.open
  {
    ConfirmedPlusNotConfirmed(rows);
    OverdueAreNotConfirmed(rows, today);
    var total, confirmed := |rows|, CountConfirmed(rows);
    Summary(total, confirmed, total - confirmed, CountOverdue(rows, today))
  }

  /** Every order is either confirmed or not. */
  lemma {:induction false} ConfirmedPlusNotConfirmed(rows: seq<Row>)
    ensures CountConfirmed(rows) + CountNotConfirmed(rows) == |rows|
  {
    if rows != [] {
      ConfirmedPlusNotConfirmed(rows[1..]);
    }
  }

  /** Overdue orders are among the open ones. */
  lemma {:induction false} OverdueAreNotConfirmed(rows: seq<Row>, today: CalendarDate)
    ensures CountOverdue(rows, today) <= CountNotConfirmed(rows)
  {
    if rows != [] {
      OverdueAreNotConfirmed(rows[1..], today);
    }
  }

  /** Rows without a due date never count as overdue. */
  lemma {:induction false} UndatedNeverOverdue(rows: seq<Row>, today: CalendarDate)
    requires forall i :: 0 <= i < |rows| ==> rows[i].due.None?
    ensures CountOverdue(rows, today) == 0
  {
    if rows != [] {
      UndatedNeverOverdue(rows[1..], today);
    }
  }

  /** Overdue means strictly earlier on the time line, so a date due today is not overdue. */
  lemma OverdueIsEarlierDay(r: Row, today: CalendarDate)
    requires r.due.Some?
    ensures IsOverdue(r, today) <==> DayNumber(r.due.value) < DayNumber(today) && !IsConfirmed(r)
  {
    BeforeIsEarlier(r.due.value, today);
  }

  lemma OverdueExample()
    ensures IsOverdue(Row(Some(OPEN), None, None, None, Some(Date(2024, 5, 20))), Date(2024, 6, 1))
    ensures !IsOverdue(Row(Some(CONFIRMED), None, None, None, Some(Date(2024, 5, 20))), Date(2024, 6, 1))
  {
  }
}
