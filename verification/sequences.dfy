/**
 Generic facts about sequences used by the locale chain and the ranked
 dictionaries: duplicate-freedom, first and last occurrences, and the
 order-preserving de-duplication `sorted(set(xs), key=xs.index)`.
 */
module Sequences {

  /** No element occurs twice. */
  predicate NoDuplicates<T(==)>(s: seq<T>) {
    forall p, q :: 0 <= p < q < |s| ==> s[p] != s[q]
  }

  /** The set of elements of `s`. */
  function Elements<T(==)>(s: seq<T>): set<T> {
    set x | x in s
  }

  /** Python's `s.index(x)`: the position of the first occurrence of `x`. */
  function FirstIndex<T(==)>(s: seq<T>, x: T): (k: nat)
    requires x in s
    ensures k < |s| && s[k] == x
    ensures forall p :: 0 <= p < k ==> s[p] != x
  {
    if s[0] == x then 0 else 1 + FirstIndex(s[1..], x)
  }

  /** `k` is the position of the last occurrence of `x` in `s`. */
  predicate IsLastIndex<T(==)>(s: seq<T>, x: T, k: int) {
    0 <= k < |s| && s[k] == x && forall p :: k < p < |s| ==> s[p] != x
  }

  /** `r` lists the distinct elements of `s`, each once, strictly ordered by first occurrence in `s`. */
  predicate OrderedByFirstOccurrence<T(==)>(r: seq<T>, s: seq<T>) {
    && NoDuplicates(r)
    && (forall x :: x in r ==> x in s)
    && (forall x :: x in s ==> x in r)
    && forall p, q :: 0 <= p < q < |r| ==> FirstIndex(s, r[p]) < FirstIndex(s, r[q])
  }

  /** The first occurrence of an element of a prefix is found inside that prefix. */
  lemma FirstIndexInPrefix<T>(s: seq<T>, n: nat, x: T)
    requires n <= |s| && x in s[..n]
    ensures FirstIndex(s, x) == FirstIndex(s[..n], x)
  {
    var k := FirstIndex(s, x);
    var k1 := FirstIndex(s[..n], x);
    assert s[k1] == x by {
      assert s[..n][k1] == s[k1];
    }
    assert k <= k1;
    assert s[..n][k] == x;
  }

  /** `sorted(set(s), key=s.index)`, computed by keeping each element at its first occurrence. */
  function Dedup<T(==)>(s: seq<T>): (r: seq<T>)
    ensures OrderedByFirstOccurrence(r, s)
    ensures |r| <= |s|
    ensures |s| > 0 ==> |r| > 0 && r[0] == s[0]
    decreases |s|
  {
    if |s| == 0 then []
    else
      var init := s[..|s| - 1];
      var last := s[|s| - 1];
      var d := Dedup(init);
      assert s == init + [last];
      assert forall p :: 0 <= p < |d| ==> FirstIndex(s, d[p]) == FirstIndex(init, d[p]) by {
        forall p | 0 <= p < |d| { FirstIndexInPrefix(s, |s| - 1, d[p]); }
      }
      if last in d then d
      else
        assert FirstIndex(s, last) == |s| - 1;
        d + [last]
  }

  /** A duplicate-free sequence has as many elements as its element set. */
  lemma {:induction false} NoDuplicatesCardinality<T>(s: seq<T>)
    requires NoDuplicates(s)
    ensures |Elements(s)| == |s|
  {
    if |s| > 0 {
      var init := s[..|s| - 1];
      NoDuplicatesCardinality(init);
      assert Elements(s) == Elements(init) + {s[|s| - 1]} by {
        assert s == init + [s[|s| - 1]];
      }
    }
  }

  /** Two duplicate-free sequences with the same elements, both ordered by first occurrence in `s`, are equal. */
  lemma {:induction false} SameOrderedElementsEqual<T>(a: seq<T>, b: seq<T>, s: seq<T>)
    requires NoDuplicates(a) && NoDuplicates(b)
    requires forall x :: x in a <==> x in b
    requires forall x :: x in a ==> x in s
    requires forall p, q :: 0 <= p < q < |a| ==> FirstIndex(s, a[p]) < FirstIndex(s, a[q])
    requires forall p, q :: 0 <= p < q < |b| ==> FirstIndex(s, b[p]) < FirstIndex(s, b[q])
    ensures a == b
    decreases |a|
  {
    assert |b| > 0 ==> b[0] in a;
    if |a| > 0 {
      assert a[0] in b;
      var q :| 0 <= q < |b| && b[q] == a[0];
      var p :| 0 <= p < |a| && a[p] == b[0];
      assert FirstIndex(s, a[0]) <= FirstIndex(s, b[0]);
      assert FirstIndex(s, b[0]) <= FirstIndex(s, a[0]);
      forall x
        ensures x in a[1..] <==> x in b[1..]
      {
        if x in a[1..] {
          assert x in a && x != a[0];
        }
        if x in b[1..] {
          assert x in b && x != b[0];
        }
      }
      SameOrderedElementsEqual(a[1..], b[1..], s);
      assert a == [a[0]] + a[1..];
      assert b == [b[0]] + b[1..];
    }
  }

  /** The specification pins the de-duplicated list down completely: `Dedup` is the only sequence meeting it. */
  lemma DedupUnique<T>(r: seq<T>, s: seq<T>)
    requires OrderedByFirstOccurrence(r, s)
    ensures r == Dedup(s)
  {
    SameOrderedElementsEqual(r, Dedup(s), s);
  }
}
