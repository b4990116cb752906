/**
 Candidate matches and the order `_omnimatch` returns them in:
 `sorted(matches, key=lambda x: (x['i'], x['j']))` (zxcvbn/zxcvbn_class.py:186).
 Python's `sorted` is stable, so matches on the same span keep the order the
 matchers produced them in; the sort is specified here by exactly that:
 ordered by span, and for every span the same subsequence of matches.
 */
module Matches {

  /** A match found by one of the matchers: its inclusive span `[i, j]` in the password, the
      matched token and the pattern tag. The pattern-specific fields belong to the matchers. */
  datatype Match = Match(i: int, j: int, token: string, pattern: string)

  /** The sort key `(i, j)` compared lexicographically. */
  predicate SpanLe(a: Match, b: Match) {
    a.i < b.i || (a.i == b.i && a.j <= b.j)
  }

  /** Non-decreasing by span. */
  predicate SortedBySpan(s: seq<Match>) {
    forall p, q :: 0 <= p < q < |s| ==> SpanLe(s[p], s[q])
  }

  /** The matches of `s` on span `[i, j]`, in their order in `s`. */
  function OnSpan(s: seq<Match>, i: int, j: int): seq<Match> {
    if |s| == 0 then []
    else (if s[0].i == i && s[0].j == j then [s[0]] else []) + OnSpan(s[1..], i, j)
  }

  /** Filtering a concatenation filters each part. */
  lemma {:induction false} OnSpanAppend(a: seq<Match>, b: seq<Match>, i: int, j: int)
    ensures OnSpan(a + b, i, j) == OnSpan(a, i, j) + OnSpan(b, i, j)
    decreases |a|
  {
    if |a| > 0 {
      assert (a + b)[0] == a[0];
      assert (a + b)[1..] == a[1..] + b;
      OnSpanAppend(a[1..], b, i, j);
    } else {
      assert a + b == b;
    }
  }

  /** Two matches on different spans may be swapped without changing any span's filter. */
  lemma SwapDifferentSpans(y: Match, x: Match, t: seq<Match>, i: int, j: int)
    requires y.i != x.i || y.j != x.j
    ensures OnSpan([y] + ([x] + t), i, j) == OnSpan([x] + ([y] + t), i, j)
  {
    OnSpanAppend([y], [x] + t, i, j);
    OnSpanAppend([x], t, i, j);
    OnSpanAppend([x], [y] + t, i, j);
    OnSpanAppend([y], t, i, j);
    var Y, X, T := OnSpan([y], i, j), OnSpan([x], i, j), OnSpan(t, i, j);
    assert OnSpan([y], i, j) == (if y.i == i && y.j == j then [y] else []) + OnSpan([y][1..], i, j);
    assert OnSpan([x], i, j) == (if x.i == i && x.j == j then [x] else []) + OnSpan([x][1..], i, j);
    assert [y][1..] == [] && [x][1..] == [];
    if Y == [] {
      assert Y + (X + T) == X + (Y + T);
    } else {
      assert X == [];
      assert Y + (X + T) == X + (Y + T);
    }
  }

  /** An element below the head of a sorted sequence is below everything it is inserted among. */
  lemma PrependSorted(y: Match, x: Match, t: seq<Match>, rest: seq<Match>)
    requires SortedBySpan([y] + t) && SpanLe(y, x)
    requires multiset(rest) == multiset(t) + multiset{x}
    requires SortedBySpan(rest)
    ensures SortedBySpan([y] + rest)
  {
    forall q | 0 <= q < |rest|
      ensures SpanLe(y, rest[q])
    {
      assert rest[q] in multiset(rest);
      if rest[q] != x {
        assert rest[q] in multiset(t);
        var p :| 0 <= p < |t| && t[p] == rest[q];
        assert ([y] + t)[0] == y && ([y] + t)[p + 1] == t[p];
      }
    }
  }

  /** The inductive step of `Insert`: an element of smaller span stays in front of the insertion into the tail. */
  lemma InsertStep(x: Match, s: seq<Match>, rest: seq<Match>)
    requires |s| > 0 && !SpanLe(x, s[0])
    requires multiset(rest) == multiset(s[1..]) + multiset{x}
    requires SortedBySpan(s[1..]) ==> SortedBySpan(rest)
    requires forall i, j :: OnSpan(rest, i, j) == OnSpan([x] + s[1..], i, j)
    ensures multiset([s[0]] + rest) == multiset(s) + multiset{x}
    ensures SortedBySpan(s) ==> SortedBySpan([s[0]] + rest)
    ensures forall i, j :: OnSpan([s[0]] + rest, i, j) == OnSpan([x] + s, i, j)
  {
    assert s == [s[0]] + s[1..];
    forall i, j
      ensures OnSpan([s[0]] + rest, i, j) == OnSpan([x] + s, i, j)
    {
      OnSpanAppend([s[0]], rest, i, j);
      OnSpanAppend([s[0]], [x] + s[1..], i, j);
      SwapDifferentSpans(s[0], x, s[1..], i, j);
    }
    if SortedBySpan(s) {
      assert SortedBySpan(s[1..]);
      PrependSorted(s[0], x, s[1..], rest);
    }
  }

  /** Places `x` before the first element whose span is not smaller than its own. */
  function Insert(x: Match, s: seq<Match>): (r: seq<Match>)
    ensures multiset(r) == multiset(s) + multiset{x}
    ensures SortedBySpan(s) ==> SortedBySpan(r)
    ensures forall i, j :: OnSpan(r, i, j) == OnSpan([x] + s, i, j)
  {
    if |s| == 0 || SpanLe(x, s[0]) then
      [x] + s
    else
      var rest := Insert(x, s[1..]);
      InsertStep(x, s, rest);
      [s[0]] + rest
  }

  /** Python's stable `sorted(..., key=(i, j))`: insertion from the back, each element going before its equals. */
  function SortBySpan(s: seq<Match>): (r: seq<Match>)
    ensures multiset(r) == multiset(s)
    ensures SortedBySpan(r)
    ensures forall i, j :: OnSpan(r, i, j) == OnSpan(s, i, j)
  {
    if |s| == 0 then []
    else
      var rest := SortBySpan(s[1..]);
      assert s == [s[0]] + s[1..];
      assert forall i, j :: OnSpan([s[0]] + rest, i, j) == OnSpan(s, i, j) by {
        forall i, j
          ensures OnSpan([s[0]] + rest, i, j) == OnSpan(s, i, j)
        {
          OnSpanAppend([s[0]], rest, i, j);
          OnSpanAppend([s[0]], s[1..], i, j);
        }
      }
      Insert(s[0], rest)
  }

  /** Some match lies on every span whose filter is non-empty. */
  lemma {:induction false} OnSpanWitness(s: seq<Match>, i: int, j: int)
    requires |OnSpan(s, i, j)| > 0
    ensures exists p :: 0 <= p < |s| && s[p].i == i && s[p].j == j
    decreases |s|
  {
    if !(s[0].i == i && s[0].j == j) {
      OnSpanWitness(s[1..], i, j);
      var p :| 0 <= p < |s[1..]| && s[1..][p].i == i && s[1..][p].j == j;
      assert s[p + 1] == s[1..][p];
    }
  }

  /** The specification is complete: two sequences sorted by span with the same matches on every span are
      equal, so `SortBySpan` is the one result a stable sort by `(i, j)` can give. */
  lemma {:induction false} StableSortUnique(a: seq<Match>, b: seq<Match>)
    requires SortedBySpan(a) && SortedBySpan(b)
    requires forall i, j :: OnSpan(a, i, j) == OnSpan(b, i, j)
    ensures a == b
    decreases |a|
  {
    assert |a| > 0 ==> |OnSpan(a, a[0].i, a[0].j)| > 0;
    assert |b| > 0 ==> |OnSpan(b, b[0].i, b[0].j)| > 0;
    if |a| > 0 && |b| > 0 {
      var x, y := a[0], b[0];
      assert OnSpan(a, x.i, x.j) == [x] + OnSpan(a[1..], x.i, x.j);
      assert OnSpan(b, y.i, y.j) == [y] + OnSpan(b[1..], y.i, y.j);
      OnSpanWitness(b, x.i, x.j);
      OnSpanWitness(a, y.i, y.j);
      assert SpanLe(y, x) && SpanLe(x, y);
      assert x.i == y.i && x.j == y.j;
      assert OnSpan(a, x.i, x.j)[0] == x;
      assert OnSpan(b, x.i, x.j)[0] == y;
      forall i, j
        ensures OnSpan(a[1..], i, j) == OnSpan(b[1..], i, j)
      {
        assert OnSpan(a, i, j) == OnSpan(a[..1], i, j) + OnSpan(a[1..], i, j) by {
          assert a == a[..1] + a[1..];
          OnSpanAppend(a[..1], a[1..], i, j);
        }
        assert OnSpan(b, i, j) == OnSpan(b[..1], i, j) + OnSpan(b[1..], i, j) by {
          assert b == b[..1] + b[1..];
          OnSpanAppend(b[..1], b[1..], i, j);
        }
        assert a[..1] == b[..1];
        var P := OnSpan(a[..1], i, j);
        assert (P + OnSpan(a[1..], i, j))[|P|..] == OnSpan(a[1..], i, j);
        assert (P + OnSpan(b[1..], i, j))[|P|..] == OnSpan(b[1..], i, j);
      }
      StableSortUnique(a[1..], b[1..]);
      assert a == [x] + a[1..];
      assert b == [y] + b[1..];
    }
  }
}
