/**
 * The macro-code extractor: the leftmost run of two upper-case letters, a
 * hyphen and five digits in an installation-location text, and the column
 * rewrite that replaces every location by its macro code.
 */
module MacroCode {
  import opened Wrappers
  import opened Text
  import opened Orders

  /** The length of a macro code such as "AB-12345". */
  const CODE_LENGTH: nat := 8

  predicate IsUpper(c: char) {
    'A' <= c <= 'Z'
  }

  /** A macro code starts at index `i` of `s`. */
  predicate IsCodeAt(s: string, i: int) {
    0 <= i && i + CODE_LENGTH <= |s|
    && IsUpper(s[i]) && IsUpper(s[i + 1]) && s[i + 2] == '-'
    && IsDigit(s[i + 3]) && IsDigit(s[i + 4]) && IsDigit(s[i + 5])
    && IsDigit(s[i + 6]) && IsDigit(s[i + 7])
  }

  /** A string that is one macro code and nothing else. */
  predicate IsMacroCode(s: string) {
    |s| == CODE_LENGTH && IsCodeAt(s, 0)
  }

  /** The first index at or after `from` where a macro code starts, if any. */
  function SearchFrom(s: string, from: nat): (found: Option<nat>)
    ensures found.Some? ==>
      from <= found.value && IsCodeAt(s, found.value)
      && forall j :: from <= j < found.value ==> !IsCodeAt(s, j)
    ensures found.None? ==> forall j :: from <= j ==> !IsCodeAt(s, j)
    decreases |s| - from
  {
    if from + CODE_LENGTH > |s| then None
    else if IsCodeAt(s, from) then Some(from)
    else SearchFrom(s, from + 1)
  }

  /**
   * The macro code of a location cell: missing stays missing; otherwise the
   * leftmost match, or missing when there is none.
   */
  function ExtractCode(text: Option<string>): (code: Option<string>)
    ensures text.None? ==> code.None?
    ensures text.Some? ==> (code.Some? <==> exists i :: IsCodeAt(text.value, i))
    ensures code.Some? ==>
      exists i :: IsCodeAt(text.value, i) && code.value == text.value[i..i + CODE_LENGTH]
        && forall j :: 0 <= j < i ==> !IsCodeAt(text.value, j)
    ensures code.Some? ==> IsMacroCode(code.value)
  {
    match text
    case None => None
    case Some(s) =>
      match SearchFrom(s, 0)
      case None => None
      case Some(i) => Some(s[i..i + CODE_LENGTH])
  }

  /** An extracted code is a code by itself: extracting again changes nothing. */
  lemma ExtractCodeIdempotent(text: Option<string>)
    ensures ExtractCode(ExtractCode(text)) == ExtractCode(text)
  {
    var code := ExtractCode(text);
    if code.Some? {
      assert code.value[0..CODE_LENGTH] == code.value;
    }
  }

  lemma ExtractCodeExamples()
    ensures ExtractCode(Some("XX-99999 foo")) == Some("XX-99999")
    ensures ExtractCode(Some("no code here")) == None
    ensures ExtractCode(None) == None
  {
    assert IsCodeAt("XX-99999 foo", 0);
    assert SearchFrom("XX-99999 foo", 0) == Some(0);
    assert "XX-99999 foo"[0..CODE_LENGTH] == "XX-99999";
    forall i | 0 <= i < 12
      ensures !IsCodeAt("no code here", i)
    {
    }
  }

  /** The table after every location has been replaced by its macro code. */
  function WithMacroCodes(rows: seq<Row>): (out: seq<Row>)
    ensures |out| == |rows|
    ensures forall i :: 0 <= i < |rows| ==>
      out[i].location == ExtractCode(rows[i].location)
      && out[i] == rows[i].(location := out[i].location)
  {
    if rows == [] then
      []
    else
      var last := rows[|rows| - 1];
      WithMacroCodes(rows[..|rows| - 1]) + [last.(location := ExtractCode(last.location))]
  }

  /** The in-place rewrite of the location column, one row at a time. */
  method KeepMacroCodes(rows: array<Row>)
    modifies rows
    ensures rows[..] == WithMacroCodes(old(rows[..]))
  {
    ghost var original := rows[..];
    var i := 0;
    while i < rows.Length
      invariant 0 <= i <= rows.Length
      invariant rows[..i] == WithMacroCodes(original[..i])
      invariant rows[i..] == original[i..]
    {
      assert original[..i + 1][..i] == original[..i];
      rows[i] := rows[i].(location := ExtractCode(rows[i].location));
      assert rows[..i + 1] == rows[..i] + [rows[i]];
      i := i + 1;
    }
    assert original[..rows.Length] == original;
  }
}
