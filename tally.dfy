/**
 * Grouped counts: `groupby(keys).size()` with the groups in ascending key
 * order, as the dataframe library returns them. A key is the tuple of
 * grouping values, compared element by element.
 */
module Tally {
  import opened Text

  type Key = seq<string>

  /** Tuple order: the first differing component decides; a proper prefix is smaller. */
  predicate KeyLess(a: Key, b: Key)
    decreases |a|
  {
    |b| > 0 && (|a| == 0 || StrLess(a[0], b[0]) || (a[0] == b[0] && KeyLess(a[1..], b[1..])))
  }

  lemma {:induction false} KeyLessIrreflexive(a: Key)
    ensures !KeyLess(a, a)
  {
    if |a| > 0 {
      StrLessIrreflexive(a[0]);
      KeyLessIrreflexive(a[1..]);
    }
  }

  lemma {:induction false} KeyLessTransitive(a: Key, b: Key, c: Key)
    requires KeyLess(a, b) && KeyLess(b, c)
    ensures KeyLess(a, c)
  {
    if |a| > 0 {
      if StrLess(a[0], b[0]) && StrLess(b[0], c[0]) {
        StrLessTransitive(a[0], b[0], c[0]);
      } else if a[0] == b[0] && b[0] == c[0] {
        KeyLessTransitive(a[1..], b[1..], c[1..]);
      }
    }
  }

  lemma {:induction false} KeyLessTotal(a: Key, b: Key)
    ensures a == b || KeyLess(a, b) || KeyLess(b, a)
  {
    if |a| > 0 && |b| > 0 {
      StrLessTotal(a[0], b[0]);
      if a[0] == b[0] {
        KeyLessTotal(a[1..], b[1..]);
        if a[1..] == b[1..] {
          assert a == [a[0]] + a[1..] && b == [b[0]] + b[1..];
        }
      }
    }
  }

  /** One output row of the grouped counts: the key and its "Qtd". */
  datatype Group = Group(key: Key, size: nat)

  /** Each key is less than the next one. */
  predicate IsSorted(t: seq<Group>) {
    forall i :: 0 <= i < |t| - 1 ==> KeyLess(t[i].key, t[i + 1].key)
  }

  predicate AllNonEmpty(t: seq<Group>) {
    forall i :: 0 <= i < |t| ==> t[i].size >= 1
  }

  /** The count recorded for key `k` (0 when there is no group for it). */
  function SizeOf(t: seq<Group>, k: Key): nat {
    if t == [] then 0 else (if t[0].key == k then t[0].size else 0) + SizeOf(t[1..], k)
  }

  /** The sum of all counts. */
  function Total(t: seq<Group>): nat {
    if t == [] then 0 else t[0].size + Total(t[1..])
  }

  /** Count one more occurrence of `k`, keeping the groups in key order. */
  function Insert(t: seq<Group>, k: Key): (r: seq<Group>)
    ensures r != [] && (r[0].key == k || (t != [] && r[0].key == t[0].key))
    ensures Total(r) == Total(t) + 1
    ensures forall k' :: SizeOf(r, k') == SizeOf(t, k') + (if k' == k then 1 else 0)
  {
    if t == [] then [Group(k, 1)]
    else if t[0].key == k then [Group(k, t[0].size + 1)] + t[1..]
    else if KeyLess(k, t[0].key) then [Group(k, 1)] + t
    else [t[0]] + Insert(t[1..], k)
  }

  lemma InsertKeepsInvariant(t: seq<Group>, k: Key)
    requires IsSorted(t) && AllNonEmpty(t)
    ensures IsSorted(Insert(t, k)) && AllNonEmpty(Insert(t, k))
  {
    if t != [] && t[0].key != k && !KeyLess(k, t[0].key) {
      KeyLessTotal(k, t[0].key);
      InsertKeepsInvariant(t[1..], k);
      var r := Insert(t, k);
      assert r[1..] == Insert(t[1..], k);
    }
  }

  /**
   * The grouped counts of a list of keys: ascending keys, every count at
   * least 1, each key's count its number of occurrences.
   */
  function TallyOf(keys: seq<Key>): (t: seq<Group>)
    ensures IsSorted(t) && AllNonEmpty(t)
    ensures Total(t) == |keys|
    ensures forall k :: SizeOf(t, k) == multiset(keys)[k]
  {
    if keys == [] then []
    else
      var front, last := keys[..|keys| - 1], keys[|keys| - 1];
      InsertKeepsInvariant(TallyOf(front), last);
      assert keys == front + [last];
      Insert(TallyOf(front), last)
  }

  /** Sorted groups have strictly ascending, hence distinct, keys. */
  lemma {:induction false} SortedStrictly(t: seq<Group>, i: int, j: int)
    requires IsSorted(t) && 0 <= i < j < |t|
    ensures KeyLess(t[i].key, t[j].key)
    decreases j - i
  {
    if i + 1 < j {
      SortedStrictly(t, i + 1, j);
      KeyLessTransitive(t[i].key, t[i + 1].key, t[j].key);
    }
  }

  /** In sorted groups, the count recorded for a key is the count of its one group. */
  lemma {:induction false} SizeOfGroup(t: seq<Group>, i: int)
    requires IsSorted(t) && 0 <= i < |t|
    ensures SizeOf(t, t[i].key) == t[i].size
  {
    if i == 0 {
      forall j | 0 <= j < |t[1..]| ensures KeyLess(t[0].key, t[1..][j].key) {
        SortedStrictly(t, 0, j + 1);
      }
      SizeOfAbsent(t[1..], t[0].key);
    } else {
      SortedStrictly(t, 0, i);
      KeyLessIrreflexive(t[i].key);
      SizeOfGroup(t[1..], i - 1);
    }
  }

  lemma {:induction false} SizeOfAbsent(t: seq<Group>, k: Key)
    requires forall j :: 0 <= j < |t| ==> KeyLess(k, t[j].key)
    ensures SizeOf(t, k) == 0
  {
    if t != [] {
      KeyLessIrreflexive(k);
      SizeOfAbsent(t[1..], k);
    }
  }

  /** A key without a group has count 0. */
  lemma {:induction false} SizeOfMissing(t: seq<Group>, k: Key)
    requires forall j :: 0 <= j < |t| ==> t[j].key != k
    ensures SizeOf(t, k) == 0
  {
    if t != [] {
      SizeOfMissing(t[1..], k);
    }
  }

  /**
   * Reading the grouped counts of `keys`: the groups are in strictly
   * ascending key order, each group's count is the number of times its key
   * occurs, and a key that occurs has a group.
   */
  lemma TallyMeaning(keys: seq<Key>)
    ensures forall i, j :: 0 <= i < j < |TallyOf(keys)| ==> KeyLess(TallyOf(keys)[i].key, TallyOf(keys)[j].key)
    ensures forall i :: 0 <= i < |TallyOf(keys)| ==> TallyOf(keys)[i].size == multiset(keys)[TallyOf(keys)[i].key] >= 1
    ensures forall k :: k in keys ==> exists i :: 0 <= i < |TallyOf(keys)| && TallyOf(keys)[i].key == k
  {
    var t := TallyOf(keys);
    forall i, j | 0 <= i < j < |t| ensures KeyLess(t[i].key, t[j].key) {
      SortedStrictly(t, i, j);
    }
    forall i | 0 <= i < |t| ensures t[i].size == multiset(keys)[t[i].key] {
      SizeOfGroup(t, i);
    }
    forall k | k in keys ensures exists i :: 0 <= i < |t| && t[i].key == k {
      if forall j :: 0 <= j < |t| ==> t[j].key != k {
        SizeOfMissing(t, k);
      }
    }
  }
}
