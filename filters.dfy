/**
 * The filter engine: up to four multi-select facets, each narrowing the table
 * to the rows whose column value is one of the chosen values; an empty facet
 * narrows nothing.
 */
module Filters {
  import opened Wrappers
  import opened Orders

  /** `a` is `b` with some elements deleted, the rest kept in order. */
  predicate IsSubsequence<T(==)>(a: seq<T>, b: seq<T>)
    decreases |b|
  {
    a == [] || (b != [] && ((a[0] == b[0] && IsSubsequence(a[1..], b[1..])) || IsSubsequence(a, b[1..])))
  }

  /** `Series.isin(accepted)` on one cell: a missing cell is never a member. */
  predicate IsIn(v: Option<string>, accepted: seq<string>) {
    v.Some? && v.value in accepted
  }

  /** One filtering step, `df[df[c].isin(accepted)]`. */
  function Narrow(rows: seq<Row>, c: Column, accepted: seq<string>): (out: seq<Row>)
    ensures |out| <= |rows|
    ensures forall i :: 0 <= i < |out| ==> IsIn(Cell(out[i], c), accepted)
  {
    if rows == [] then []
    else (if IsIn(Cell(rows[0], c), accepted) then [rows[0]] else []) + Narrow(rows[1..], c, accepted)
  }

  /** The values chosen in the four multi-selects. */
  datatype Selection = Selection(
    locations: seq<string>,
    statuses: seq<string>,
    centres: seq<string>,
    sortFields: seq<string>)

  const NothingChosen := Selection([], [], [], [])

  function Chosen(f: Selection, c: Column): seq<string> {
    match c
    case Location => f.locations
    case Status => f.statuses
    case WorkCentre => f.centres
    case SortField => f.sortFields
  }

  /** `f` with the values chosen for column `c` replaced by `values`. */
  function Choose(f: Selection, c: Column, values: seq<string>): (g: Selection)
    ensures Chosen(g, c) == values
    ensures forall c' :: c' != c ==> Chosen(g, c') == Chosen(f, c')
  {
    match c
    case Location => f.(locations := values)
    case Status => f.(statuses := values)
    case WorkCentre => f.(centres := values)
    case SortField => f.(sortFields := values)
  }

  /** Row `r` passes the facet of column `c`: nothing chosen, or its value is chosen. */
  predicate Passes(f: Selection, r: Row, c: Column) {
    Chosen(f, c) == [] || IsIn(Cell(r, c), Chosen(f, c))
  }

  /** Row `r` passes every facet. */
  predicate Admits(f: Selection, r: Row) {
    Passes(f, r, Location) && Passes(f, r, Status) && Passes(f, r, WorkCentre) && Passes(f, r, SortField)
  }

  /** The rows that pass every facet, in table order. */
  function Select(rows: seq<Row>, f: Selection): seq<Row> {
    if rows == [] then []
    else (if Admits(f, rows[0]) then [rows[0]] else []) + Select(rows[1..], f)
  }

  /** The filter step by step: each non-empty facet narrows the working copy. */
  method ApplyFilters(rows: seq<Row>, f: Selection) returns (out: seq<Row>)
    ensures out == Select(rows, f)
  {
    out := rows;
    ghost var done := NothingChosen;
    SelectNothingChosen(rows);
    if f.locations != [] {
      NarrowIntoSelect(rows, done, Location, f.locations);
      out := Narrow(out, Location, f.locations);
      done := Choose(done, Location, f.locations);
    }
    if f.statuses != [] {
      NarrowIntoSelect(rows, done, Status, f.statuses);
      out := Narrow(out, Status, f.statuses);
      done := Choose(done, Status, f.statuses);
    }
    if f.centres != [] {
      NarrowIntoSelect(rows, done, WorkCentre, f.centres);
      out := Narrow(out, WorkCentre, f.centres);
      done := Choose(done, WorkCentre, f.centres);
    }
    if f.sortFields != [] {
      NarrowIntoSelect(rows, done, SortField, f.sortFields);
      out := Narrow(out, SortField, f.sortFields);
      done := Choose(done, SortField, f.sortFields);
    }
    assert done == f;
  }

  /** With nothing chosen the table comes back unchanged, in the same order. */
  lemma {:induction false} SelectNothingChosen(rows: seq<Row>)
    ensures Select(rows, NothingChosen) == rows
  {
    if rows != [] {
      SelectNothingChosen(rows[1..]);
      assert rows == [rows[0]] + rows[1..];
    }
  }

  /** Narrowing by a facet not yet chosen is selecting with that facet added. */
  lemma {:induction false} NarrowIntoSelect(rows: seq<Row>, f: Selection, c: Column, values: seq<string>)
    requires Chosen(f, c) == [] && values != []
    ensures Narrow(Select(rows, f), c, values) == Select(rows, Choose(f, c, values))
  {
    if rows != [] {
      NarrowIntoSelect(rows[1..], f, c, values);
      var g := Choose(f, c, values);
      var head := if Admits(f, rows[0]) then [rows[0]] else [];
      NarrowAppend(head, Select(rows[1..], f), c, values);
      assert Admits(g, rows[0]) <==> Admits(f, rows[0]) && IsIn(Cell(rows[0], c), values) by {
        assert Passes(g, rows[0], c) <==> IsIn(Cell(rows[0], c), values);
        assert forall c' :: c' != c ==> (Passes(g, rows[0], c') <==> Passes(f, rows[0], c'));
        assert Passes(f, rows[0], c);
      }
    }
  }

  lemma {:induction false} NarrowAppend(a: seq<Row>, b: seq<Row>, c: Column, values: seq<string>)
    ensures Narrow(a + b, c, values) == Narrow(a, c, values) + Narrow(b, c, values)
  {
    if a == [] {
      assert a + b == b;
    } else {
      var h := if IsIn(Cell(a[0], c), values) then [a[0]] else [];
      NarrowAppend(a[1..], b, c, values);
      assert a + b != [] && (a + b)[0] == a[0] && (a + b)[1..] == a[1..] + b;
      assert Narrow(a + b, c, values) == h + Narrow(a[1..] + b, c, values);
      assert Narrow(a, c, values) == h + Narrow(a[1..], c, values);
    }
  }

  /** Two facets give the same rows whichever is applied first. */
  lemma {:induction false} NarrowCommutes(rows: seq<Row>, c1: Column, v1: seq<string>, c2: Column, v2: seq<string>)
    ensures Narrow(Narrow(rows, c1, v1), c2, v2) == Narrow(Narrow(rows, c2, v2), c1, v1)
  {
    if rows != [] {
      NarrowCommutes(rows[1..], c1, v1, c2, v2);
      var h1 := if IsIn(Cell(rows[0], c1), v1) then [rows[0]] else [];
      var h2 := if IsIn(Cell(rows[0], c2), v2) then [rows[0]] else [];
      NarrowAppend(h1, Narrow(rows[1..], c1, v1), c2, v2);
      NarrowAppend(h2, Narrow(rows[1..], c2, v2), c1, v1);
    }
  }

  /** One filtering step keeps an ordered part of its input. */
  lemma {:induction false} NarrowIsSubsequence(rows: seq<Row>, c: Column, values: seq<string>)
    ensures IsSubsequence(Narrow(rows, c, values), rows)
  {
    if rows != [] {
      NarrowIsSubsequence(rows[1..], c, values);
      var out := Narrow(rows, c, values);
      if IsIn(Cell(rows[0], c), values) {
        assert out[0] == rows[0] && out[1..] == Narrow(rows[1..], c, values);
      } else {
        assert out == Narrow(rows[1..], c, values);
      }
    }
  }

  /** Applying two facets keeps an ordered part of what either facet alone keeps. */
  lemma BothWithinEither(rows: seq<Row>, c1: Column, v1: seq<string>, c2: Column, v2: seq<string>)
    ensures IsSubsequence(Narrow(Narrow(rows, c1, v1), c2, v2), Narrow(rows, c1, v1))
    ensures IsSubsequence(Narrow(Narrow(rows, c1, v1), c2, v2), Narrow(rows, c2, v2))
  {
    NarrowIsSubsequence(Narrow(rows, c1, v1), c2, v2);
    NarrowIsSubsequence(Narrow(rows, c2, v2), c1, v1);
    NarrowCommutes(rows, c1, v1, c2, v2);
  }

  /** The filtered table keeps an ordered part of the input. */
  lemma {:induction false} SelectIsSubsequence(rows: seq<Row>, f: Selection)
    ensures IsSubsequence(Select(rows, f), rows)
  {
    if rows != [] {
      SelectIsSubsequence(rows[1..], f);
      var out := Select(rows, f);
      if Admits(f, rows[0]) {
        assert out[0] == rows[0] && out[1..] == Select(rows[1..], f);
      } else {
        assert out == Select(rows[1..], f);
      }
    }
  }

  /** A row is kept, as often as it occurs, exactly when it passes every facet. */
  lemma {:induction false} SelectKeepsAdmitted(rows: seq<Row>, f: Selection, r: Row)
    ensures multiset(Select(rows, f))[r] == if Admits(f, r) then multiset(rows)[r] else 0
  {
    if rows != [] {
      SelectKeepsAdmitted(rows[1..], f, r);
      assert rows == [rows[0]] + rows[1..];
    }
  }
}
