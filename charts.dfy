/**
 * The data behind the bar charts: orders counted per (category, status),
 * where the category is the macro code, the work centre or the sort field.
 * Rows missing either value are dropped before grouping.
 */
module Charts {
  import opened Wrappers
  import opened Orders
  import opened Tally

  /** Row `r` has both grouping values. */
  predicate HasBothKeys(r: Row, c: Column) {
    Cell(r, c).Some? && r.status.Some?
  }

  /** The (category, status) key of each row that has both values, in table order. */
  function PairKeys(rows: seq<Row>, c: Column): (keys: seq<Key>)
    ensures forall i :: 0 <= i < |keys| ==> |keys[i]| == 2
  {
    if rows == [] then []
    else if HasBothKeys(rows[0], c) then [[Cell(rows[0], c).value, rows[0].status.value]] + PairKeys(rows[1..], c)
    else PairKeys(rows[1..], c)
  }

  /** The rows whose category is `v` and whose status is `s`. */
  function CountPair(rows: seq<Row>, c: Column, v: string, s: string): nat {
    if rows == [] then 0
    else (if Cell(rows[0], c) == Some(v) && rows[0].status == Some(s) then 1 else 0) + CountPair(rows[1..], c, v, s)
  }

  /** The rows that have both grouping values. */
  function CountKeyed(rows: seq<Row>, c: Column): nat {
    if rows == [] then 0 else (if HasBothKeys(rows[0], c) then 1 else 0) + CountKeyed(rows[1..], c)
  }

  lemma {:induction false} PairKeysCount(rows: seq<Row>, c: Column, v: string, s: string)
    ensures multiset(PairKeys(rows, c))[[v, s]] == CountPair(rows, c, v, s)
    ensures |PairKeys(rows, c)| == CountKeyed(rows, c)
  {
    if rows != [] {
      PairKeysCount(rows[1..], c, v, s);
      var r := rows[0];
      if HasBothKeys(r, c) {
        var head := [Cell(r, c).value, r.status.value];
        assert PairKeys(rows, c) == [head] + PairKeys(rows[1..], c);
        assert head == [v, s] <==> Cell(r, c) == Some(v) && r.status == Some(s) by {
          if head == [v, s] { assert head[0] == v && head[1] == s; }
        }
      } else {
        assert Cell(r, c) == Some(v) && r.status == Some(s) ==> HasBothKeys(r, c);
      }
    }
  }

  /**
   * `groupby([column, "Status do sistema"]).size()`: groups in ascending
   * (category, status) order, each count at least 1 and equal to the number
   * of rows with that category and status, counts summing to the rows that
   * have both values.
   */
  function CountByStatus(rows: seq<Row>, c: Column): (t: seq<Group>)
    ensures IsSorted(t) && AllNonEmpty(t)
    ensures Total(t) == CountKeyed(rows, c)
    ensures forall v, s :: SizeOf(t, [v, s]) == CountPair(rows, c, v, s)
  {
    forall v, s ensures multiset(PairKeys(rows, c))[[v, s]] == CountPair(rows, c, v, s) {
      PairKeysCount(rows, c, v, s);
    }
    PairKeysCount(rows, c, "", "");
    TallyOf(PairKeys(rows, c))
  }

  /** Every group key is a (category, status) pair. */
  lemma GroupsArePairs(rows: seq<Row>, c: Column)
    ensures forall i :: 0 <= i < |CountByStatus(rows, c)| ==> |CountByStatus(rows, c)[i].key| == 2
  {
    var keys := PairKeys(rows, c);
    var t := CountByStatus(rows, c);
    TallyMeaning(keys);
    forall i | 0 <= i < |t| ensures |t[i].key| == 2 {
      assert t[i].key in multiset(keys);
    }
  }
}
