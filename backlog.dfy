/**
 * The weekly backlog: the open orders that have a due date, each labelled
 * "<ISO year>-W<ISO week, two digits>" after its due date, counted per label
 * in ascending label order.
 */
module Backlog {
  import opened Wrappers
  import opened Text
  import opened Calendar
  import opened Orders
  import opened Tally
  import Filters

  /** A backlog order: not confirmed and with a due date. */
  predicate InBacklog(r: Row) {
    !IsConfirmed(r) && r.due.Some?
  }

  /** The backlog rows, in table order. */
  function BacklogRows(rows: seq<Row>): (out: seq<Row>)
    ensures forall i :: 0 <= i < |out| ==> InBacklog(out[i])
  {
    if rows == [] then []
    else (if InBacklog(rows[0]) then [rows[0]] else []) + BacklogRows(rows[1..])
  }

  /** The backlog keeps, in order, exactly the open dated rows of the table. */
  lemma {:induction false} BacklogRowsAreOpenDatedRows(rows: seq<Row>, r: Row)
    ensures Filters.IsSubsequence(BacklogRows(rows), rows)
    ensures multiset(BacklogRows(rows))[r] == if InBacklog(r) then multiset(rows)[r] else 0
  {
    if rows != [] {
      BacklogRowsAreOpenDatedRows(rows[1..], r);
      var out := BacklogRows(rows);
      assert rows == [rows[0]] + rows[1..];
      if InBacklog(rows[0]) {
        assert out[0] == rows[0] && out[1..] == BacklogRows(rows[1..]);
      } else {
        assert out == BacklogRows(rows[1..]);
      }
    }
  }

  /** `str(week).zfill(2)`. */
  function WeekText(week: nat): string {
    Zfill(NatToString(week), 2)
  }

  /** The week part of a key is two digits that spell the week. */
  lemma WeekTextShape(week: nat)
    requires 1 <= week <= 53
    ensures |WeekText(week)| == 2 && AllDigits(WeekText(week))
    ensures DigitsValue(WeekText(week)) == week
  {
    var digits := NatToString(week);
    assert Pow10(1) == 10 && Pow10(2) == 100;
    if week < 10 {
      NatToStringLength(week, 1);
    } else {
      NatToStringLength(week, 2);
    }
    ZfillValue(digits, 2);
    NatToStringRoundTrip(week);
  }

  /**
   * `str(year) + "-W" + str(week).zfill(2)`: for a week from 1 to 53, the
   * year's text, then "-W", then two digits that spell the week.
   */
  function WeekKey(w: IsoWeek): (key: string)
    ensures 1 <= w.week <= 53 ==>
      |key| == |IntToString(w.isoYear)| + 4
      && key[..|key| - 4] == IntToString(w.isoYear)
      && key[|key| - 4..|key| - 2] == "-W"
      && AllDigits(key[|key| - 2..]) && DigitsValue(key[|key| - 2..]) == w.week
  {
    if 1 <= w.week <= 53 then
      WeekKeyLayout(IntToString(w.isoYear), w.week);
      IntToString(w.isoYear) + "-W" + WeekText(w.week)
    else
      IntToString(w.isoYear) + "-W" + WeekText(w.week)
  }

  lemma WeekKeyLayout(yearText: string, week: nat)
    requires 1 <= week <= 53
    ensures var key := yearText + "-W" + WeekText(week);
      |key| == |yearText| + 4 && key[..|key| - 4] == yearText
      && key[|key| - 4..|key| - 2] == "-W"
      && AllDigits(key[|key| - 2..]) && DigitsValue(key[|key| - 2..]) == week
  {
    WeekTextShape(week);
    KeyLayout(yearText, WeekText(week));
  }

  /** The key of a due date; it reads back as the date's ISO year and week. */
  function WeekKeyOf(d: CalendarDate): (key: string)
    ensures ParseWeekKey(key) == Some(IsoCalendar(d))
  {
    WeekKeyRoundTrip(IsoCalendar(d));
    WeekKey(IsoCalendar(d))
  }

  /** Reads a key back into its ISO year and week. */
  function ParseWeekKey(key: string): Option<IsoWeek> {
    if |key| < 5 then None
    else
      var yearText, marker, weekText := key[..|key| - 4], key[|key| - 4..|key| - 2], key[|key| - 2..];
      if marker != "-W" || !AllDigits(weekText) then None
      else
        match ParseInt(yearText)
        case None => None
        case Some(y) => Some(IsoWeek(y, DigitsValue(weekText)))
  }

  /** Where the year, the marker and the week sit in a key. */
  lemma KeyLayout(yearText: string, weekText: string)
    requires |weekText| == 2
    ensures var key := yearText + "-W" + weekText;
      |key| == |yearText| + 4 && key[..|key| - 4] == yearText
      && key[|key| - 4..|key| - 2] == "-W" && key[|key| - 2..] == weekText
  {
    var key := yearText + "-W" + weekText;
    assert key[..|key| - 4] == yearText;
    assert key[|key| - 4..|key| - 2] == "-W";
    assert key[|key| - 2..] == weekText;
  }

  lemma ParseWeekKeyParts(yearText: string, weekText: string)
    requires |yearText| >= 1 && |weekText| == 2 && AllDigits(weekText)
    ensures ParseWeekKey(yearText + "-W" + weekText) ==
      match ParseInt(yearText)
      case None => None
      case Some(y) => Some(IsoWeek(y, DigitsValue(weekText)))
  {
    KeyLayout(yearText, weekText);
  }

  /** Distinct ISO weeks get distinct keys: a key reads back as its week. */
  lemma WeekKeyRoundTrip(w: IsoWeek)
    requires 1 <= w.week <= 53
    ensures ParseWeekKey(WeekKey(w)) == Some(w)
  {
    WeekTextShape(w.week);
    IntToStringRoundTrip(w.isoYear);
    ParseWeekKeyParts(IntToString(w.isoYear), WeekText(w.week));
  }

  /** Keys with year parts of one length compare by year part, then by week part. */
  lemma KeyCompare(ya: string, wa: string, yb: string, wb: string)
    requires |ya| == |yb|
    ensures StrLess(ya + "-W" + wa, yb + "-W" + wb) <==> StrLess(ya, yb) || (ya == yb && StrLess(wa, wb))
  {
    assert ya + "-W" + wa == ya + ("-W" + wa);
    assert yb + "-W" + wb == yb + ("-W" + wb);
    StrLessConcat(ya, "-W" + wa, yb, "-W" + wb);
    StrLessConcat("-W", wa, "-W", wb);
    StrLessIrreflexive("-W");
  }

  /** For four-digit ISO years, ascending keys are chronological weeks. */
  lemma WeekKeyOrder(a: IsoWeek, b: IsoWeek)
    requires 1000 <= a.isoYear <= 9999 && 1000 <= b.isoYear <= 9999
    requires 1 <= a.week <= 53 && 1 <= b.week <= 53
    ensures StrLess(WeekKey(a), WeekKey(b)) <==>
      a.isoYear < b.isoYear || (a.isoYear == b.isoYear && a.week < b.week)
  {
    var ya, yb := NatToString(a.isoYear), NatToString(b.isoYear);
    assert Pow10(3) == 1000 && Pow10(4) == 10000;
    NatToStringLength(a.isoYear, 4);
    NatToStringLength(b.isoYear, 4);
    NatToStringRoundTrip(a.isoYear);
    NatToStringRoundTrip(b.isoYear);
    WeekTextShape(a.week);
    WeekTextShape(b.week);
    KeyCompare(ya, WeekText(a.week), yb, WeekText(b.week));
    StrLessDigits(ya, yb);
    StrLessDigits(WeekText(a.week), WeekText(b.week));
  }

  /**
   * The key of a due date names the date's ISO 8601 week: it reads back as
   * the week the date lies in, a week from 1 to 53 of a year within one of
   * the date's calendar year.
   */
  lemma WeekKeyOfNamesIsoWeek(d: CalendarDate)
    ensures ParseWeekKey(WeekKeyOf(d)).Some?
    ensures var w := ParseWeekKey(WeekKeyOf(d)).value;
      IsIsoWeekOf(DayNumber(d), w.isoYear, w.week)
      && 1 <= w.week <= 53 && d.year - 1 <= w.isoYear <= d.year + 1
  {
    WeekKeyRoundTrip(IsoCalendar(d));
    IsoCalendarIsIso8601(d);
  }

  lemma WeekKeyExample()
    ensures WeekKeyOf(Date(2023, 1, 1)) == "2022-W52"
  {
    IsoCalendarExamples();
    assert DigitChar(2) == '2' && DigitChar(0) == '0' && DigitChar(5) == '5';
    assert NatToString(2) == "2";
    assert NatToString(20) == "20";
    assert NatToString(202) == "202";
    assert NatToString(2022) == "2022";
    assert NatToString(5) == "5";
    assert NatToString(52) == "52";
    assert IntToString(2022) + "-W" + Zfill("52", 2) == "2022-W52";
  }

  /** The key column of the backlog, one key per backlog row. */
  function BacklogKeys(rows: seq<Row>): (keys: seq<Key>)
    ensures |keys| == |BacklogRows(rows)|
  {
    if rows == [] then []
    else if InBacklog(rows[0]) then [[WeekKeyOf(rows[0].due.value)]] + BacklogKeys(rows[1..])
    else BacklogKeys(rows[1..])
  }

  /** Key `i` of the key column is the week key of backlog row `i`'s due date. */
  lemma {:induction false} BacklogKeysAreWeekKeys(rows: seq<Row>, i: int)
    requires 0 <= i < |BacklogKeys(rows)|
    ensures BacklogKeys(rows)[i] == [WeekKeyOf(BacklogRows(rows)[i].due.value)]
  {
    assert rows != [];
    var keys, tail := BacklogKeys(rows), BacklogKeys(rows[1..]);
    var out, rest := BacklogRows(rows), BacklogRows(rows[1..]);
    if InBacklog(rows[0]) {
      assert keys == [[WeekKeyOf(rows[0].due.value)]] + tail;
      assert out == [rows[0]] + rest;
      if i > 0 {
        BacklogKeysAreWeekKeys(rows[1..], i - 1);
        assert keys[i] == tail[i - 1] && out[i] == rest[i - 1];
      }
    } else {
      assert keys == tail && out == rest;
      BacklogKeysAreWeekKeys(rows[1..], i);
    }
  }

  /** The backlog rows due in the week with key `k`. */
  function CountInWeek(rows: seq<Row>, k: string): nat {
    if rows == [] then 0
    else (if InBacklog(rows[0]) && WeekKeyOf(rows[0].due.value) == k then 1 else 0) + CountInWeek(rows[1..], k)
  }

  lemma {:induction false} BacklogKeysCount(rows: seq<Row>, k: string)
    ensures multiset(BacklogKeys(rows))[[k]] == CountInWeek(rows, k)
  {
    if rows != [] {
      BacklogKeysCount(rows[1..], k);
      if InBacklog(rows[0]) {
        var head := WeekKeyOf(rows[0].due.value);
        assert BacklogKeys(rows) == [[head]] + BacklogKeys(rows[1..]);
        assert [head] == [k] <==> head == k by {
          if [head] == [k] { assert [head][0] == [k][0]; }
        }
      }
    }
  }

  /**
   * The weekly backlog table: one group per week key, keys ascending, each
   * count the number of backlog rows due that week, counts summing to the
   * size of the backlog.
   */
  function WeeklyBacklog(rows: seq<Row>): (t: seq<Group>)
    ensures IsSorted(t) && AllNonEmpty(t)
    ensures Total(t) == |BacklogRows(rows)|
    ensures forall k :: SizeOf(t, [k]) == CountInWeek(rows, k)
  {
    forall k ensures multiset(BacklogKeys(rows))[[k]] == CountInWeek(rows, k) {
      BacklogKeysCount(rows, k);
    }
    TallyOf(BacklogKeys(rows))
  }
}
