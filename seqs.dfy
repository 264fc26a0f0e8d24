/** The optional value used for missing cells (a NaN in a pandas column). */
module Wrappers {
  datatype Option<T> = None | Some(value: T)
}

/**
 * Generic facts about sequences used by the table operations: distinctness,
 * the first occurrence of a value, and duplicate removal that keeps the first
 * occurrence of each value (pandas `drop_duplicates` with its default
 * `keep="first"`; also the insertion order of the keys of a Python `Counter`).
 */
module Seqs {

  /** No value occurs twice in `s`. */
  predicate Distinct<T(==)>(s: seq<T>) {
    forall i, j :: 0 <= i < j < |s| ==> s[i] != s[j]
  }

  /** The index at which `x` first occurs in `s`. */
  function FirstIndex<T(==)>(s: seq<T>, x: T): (k: nat)
    requires x in s
    ensures k < |s| && s[k] == x && x !in s[..k]
  {
    if s[0] == x then 0
    else
      var k' := FirstIndex(s[1..], x);
      assert s[..k' + 1] == [s[0]] + s[1..][..k'];
      k' + 1
  }

  /** Only one index holds `x` with no `x` before it. */
  lemma FirstIndexUnique<T>(s: seq<T>, x: T, k1: nat, k2: nat)
    requires k1 < |s| && s[k1] == x && x !in s[..k1]
    requires k2 < |s| && s[k2] == x && x !in s[..k2]
    ensures k1 == k2
  {
  }

  /** The first occurrence of `x` in a prefix of `s` is its first occurrence in `s`. */
  lemma FirstIndexOfPrefix<T>(s: seq<T>, m: nat, x: T)
    requires m <= |s| && x in s[..m]
    ensures FirstIndex(s, x) == FirstIndex(s[..m], x)
  {
    var k := FirstIndex(s[..m], x);
    assert s[..m][..k] == s[..k];
    FirstIndexUnique(s, x, FirstIndex(s, x), k);
  }

  /**
   * The values of `s` in the order of their first occurrence, each once:
   * a value is kept exactly when it does not occur earlier in `s`.
   */
  function Dedup<T(==)>(s: seq<T>): (r: seq<T>)
    ensures forall i :: 0 <= i < |r| ==> r[i] in s
    ensures forall i :: 0 <= i < |s| ==> s[i] in r
    ensures Distinct(r)
    ensures |r| <= |s|
  {
    if s == [] then []
    else
      var init, last := s[..|s| - 1], s[|s| - 1];
      assert s == init + [last];
      var d := Dedup(init);
      if last in init then d else d + [last]
  }

  /**
   * Dedup keeps the first occurrence of each value: the values it returns
   * appear in the order in which they first occur in `s`.
   */
  lemma {:induction false} DedupKeepsFirstOccurrenceOrder<T>(s: seq<T>)
    ensures forall i, j :: 0 <= i < j < |Dedup(s)| ==>
      FirstIndex(s, Dedup(s)[i]) < FirstIndex(s, Dedup(s)[j])
  {
    if s != [] {
      var n := |s|;
      var init, last := s[..n - 1], s[n - 1];
      assert s[..n - 1] == init;
      DedupKeepsFirstOccurrenceOrder(init);
      var d := Dedup(init);
      forall x | x in init
        ensures FirstIndex(s, x) == FirstIndex(init, x) && FirstIndex(init, x) < n - 1
      {
        FirstIndexOfPrefix(s, n - 1, x);
      }
      if last !in init {
        assert Dedup(s) == d + [last];
        assert FirstIndex(s, last) == n - 1;
      }
    }
  }

  /** DedupKeepsFirstOccurrenceOrder for one pair of positions. */
  lemma DedupFirstOccurrenceAt<T>(s: seq<T>, i: nat, j: nat)
    requires i < j < |Dedup(s)|
    ensures FirstIndex(s, Dedup(s)[i]) < FirstIndex(s, Dedup(s)[j])
  {
    DedupKeepsFirstOccurrenceOrder(s);
  }

  /** A value kept at a position no earlier than another's does not first occur before it. */
  lemma DedupFirstOccurrenceNoEarlier<T>(s: seq<T>, i: nat, j: nat)
    requires i <= j < |Dedup(s)|
    ensures FirstIndex(s, Dedup(s)[i]) <= FirstIndex(s, Dedup(s)[j])
  {
    if i < j {
      DedupFirstOccurrenceAt(s, i, j);
    }
  }

  /** A sequence that is already free of duplicates is left as it is. */
  lemma {:induction false} DedupOfDistinct<T>(s: seq<T>)
    requires Distinct(s)
    ensures Dedup(s) == s
  {
    if s != [] {
      var n := |s|;
      var init := s[..n - 1];
      assert Distinct(init);
      DedupOfDistinct(init);
      assert s[n - 1] !in init;
      assert s == init + [s[n - 1]];
    }
  }

  /** Removing duplicates twice is the same as removing them once. */
  lemma DedupIdempotent<T>(s: seq<T>)
    ensures Dedup(Dedup(s)) == Dedup(s)
  {
    DedupOfDistinct(Dedup(s));
  }
}
