/** The status classifier and the column rewrite that applies it to every row. */
module StatusClassifier {
  import opened Wrappers
  import opened Text
  import opened Orders

  /**
   * `str(value)` of a status cell: the text itself, or "nan" for a missing
   * cell, which holds none of the status codes.
   */
  function StatusText(raw: Option<string>): (s: string)
    ensures raw.Some? ==> s == raw.value
    ensures raw.None? ==> !Contains(s, "CNF") && !Contains(s, "ORDA") && !Contains(s, "MSPR")
  {
    NanHasNoCode();
    match raw
    case Some(s) => s
    case None => "nan"
  }

  /**
   * The label of a raw status: "CNF" anywhere means confirmed; otherwise
   * "ORDA" or "MSPR" anywhere means open; anything else is other.
   */
  function ClassifyStatus(raw: Option<string>): (category: string)
    ensures IsLabel(category)
    ensures category == CONFIRMED <==> Contains(StatusText(raw), "CNF")
    ensures category == OPEN <==>
      !Contains(StatusText(raw), "CNF")
      && (Contains(StatusText(raw), "ORDA") || Contains(StatusText(raw), "MSPR"))
    ensures raw.None? ==> category == OTHER
  {
    var s := StatusText(raw);
    if Contains(s, "CNF") then CONFIRMED
    else if Contains(s, "ORDA") || Contains(s, "MSPR") then OPEN
    else OTHER
  }

  lemma NanHasNoCode()
    ensures !Contains("nan", "CNF") && !Contains("nan", "ORDA") && !Contains("nan", "MSPR")
  {
    MismatchAt("nan", "CNF", 0, 0);
  }

  /** The labels are not status codes: classifying a label again gives "Outros". */
  lemma LabelsReclassifyAsOther(text: string)
    requires IsLabel(text)
    ensures ClassifyStatus(Some(text)) == OTHER
  {
    forall i | 0 <= i <= |text| - 3
      ensures !OccursAt(text, "CNF", i)
    {
      MismatchAt(text, "CNF", i, 1);
    }
    forall i | 0 <= i <= |text| - 4
      ensures !OccursAt(text, "ORDA", i) && !OccursAt(text, "MSPR", i)
    {
      MismatchAt(text, "ORDA", i, 1);
      MismatchAt(text, "MSPR", i, 1);
    }
  }

  /** The table after the status column has been replaced by its labels. */
  function WithStatusLabels(rows: seq<Row>): (out: seq<Row>)
    ensures |out| == |rows|
    ensures forall i :: 0 <= i < |rows| ==>
      out[i].status == Some(ClassifyStatus(rows[i].status))
      && out[i] == rows[i].(status := out[i].status)
  {
    if rows == [] then
      []
    else
      var last := rows[|rows| - 1];
      WithStatusLabels(rows[..|rows| - 1]) + [last.(status := Some(ClassifyStatus(last.status)))]
  }

  /** Every status of a table holds one of the three labels. */
  predicate Labelled(rows: seq<Row>) {
    forall i :: 0 <= i < |rows| ==> rows[i].status.Some? && IsLabel(rows[i].status.value)
  }

  lemma WithStatusLabelsLabels(rows: seq<Row>)
    ensures Labelled(WithStatusLabels(rows))
  {
  }

  /** The in-place rewrite of the status column, one row at a time. */
  method AdjustStatus(rows: array<Row>)
    modifies rows
    ensures rows[..] == WithStatusLabels(old(rows[..]))
  {
    ghost var original := rows[..];
    var i := 0;
    while i < rows.Length
      invariant 0 <= i <= rows.Length
      invariant rows[..i] == WithStatusLabels(original[..i])
      invariant rows[i..] == original[i..]
    {
      assert original[..i + 1][..i] == original[..i];
      rows[i] := rows[i].(status := Some(ClassifyStatus(rows[i].status)));
      assert rows[..i + 1] == rows[..i] + [rows[i]];
      i := i + 1;
    }
    assert original[..rows.Length] == original;
  }
}
