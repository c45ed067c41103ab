/**
 Generic sequence operations behind the dashboard's queries: the boolean-mask
 filter, column sums, first-occurrence lookup and order-preserving de-duplication.
 */
module Seqs {

  /** The elements of `s` on which the mask `f` holds, in their original order. */
  function Filter<T(!new)>(s: seq<T>, f: T -> bool): (r: seq<T>)
    ensures |r| <= |s|
    ensures forall x :: x in r <==> x in s && f(x)
  {
    if |s| == 0 then []
    else if f(s[0]) then [s[0]] + Filter(s[1..], f)
    else Filter(s[1..], f)
  }

  /** The sum of column `g` over the records of `s`. */
  function Sum<T>(s: seq<T>, g: T -> int): int
  {
    if |s| == 0 then 0 else g(s[0]) + Sum(s[1..], g)
  }

  /** Masking a concatenation masks each part. */
  lemma {:induction false} FilterAppend<T(!new)>(a: seq<T>, b: seq<T>, f: T -> bool)
    ensures Filter(a + b, f) == Filter(a, f) + Filter(b, f)
  {
    if |a| == 0 {
      assert a + b == b;
    } else {
      assert (a + b)[0] == a[0];
      assert (a + b)[1..] == a[1..] + b;
      FilterAppend(a[1..], b, f);
    }
  }

  /**
   Masking keeps every accepted element as often as it occurs in `s` and drops
   every rejected one: duplicate rows are neither merged nor invented.
   */
  lemma {:induction false} FilterMultiset<T(!new)>(s: seq<T>, f: T -> bool, x: T)
    ensures multiset(Filter(s, f))[x] == if f(x) then multiset(s)[x] else 0
  {
    if |s| > 0 {
      FilterMultiset(s[1..], f, x);
      assert s == [s[0]] + s[1..];
      assert multiset(s) == multiset([s[0]]) + multiset(s[1..]);
    }
  }

  /** Masking a single element keeps it exactly when the mask accepts it. */
  lemma FilterSingleton<T(!new)>(x: T, f: T -> bool)
    ensures Filter([x], f) == if f(x) then [x] else []
  {
    assert [x][1..] == [];
  }

  /** Two masks that agree on every element select the same subsequence. */
  lemma {:induction false} FilterCongruent<T(!new)>(s: seq<T>, f: T -> bool, g: T -> bool)
    requires forall x :: x in s ==> f(x) == g(x)
    ensures Filter(s, f) == Filter(s, g)
  {
    if |s| > 0 {
      FilterCongruent(s[1..], f, g);
    }
  }

  /** Applying mask `f` and then mask `g` is applying their conjunction `h`. */
  lemma {:induction false} FilterFilter<T(!new)>(s: seq<T>, f: T -> bool, g: T -> bool, h: T -> bool)
    requires forall x :: x in s ==> h(x) == (f(x) && g(x))
    ensures Filter(Filter(s, f), g) == Filter(s, h)
  {
    if |s| > 0 {
      FilterFilter(s[1..], f, g, h);
      if f(s[0]) {
        assert ([s[0]] + Filter(s[1..], f))[1..] == Filter(s[1..], f);
      }
    }
  }

  /** Narrowing a selection first never increases the number of records a second mask counts. */
  lemma {:induction false} FilterNarrowedCount<T(!new)>(s: seq<T>, f: T -> bool, g: T -> bool)
    ensures |Filter(Filter(s, f), g)| <= |Filter(s, g)|
  {
    if |s| > 0 {
      FilterNarrowedCount(s[1..], f, g);
      if f(s[0]) {
        assert ([s[0]] + Filter(s[1..], f))[1..] == Filter(s[1..], f);
      }
    }
  }

  /**
   Two masks that never both accept an element, and each accept only elements
   a third mask accepts, together count at most what the third counts.
   */
  lemma {:induction false} FilterDisjointCount<T(!new)>(s: seq<T>, f: T -> bool, g: T -> bool, h: T -> bool)
    requires forall x :: x in s ==> !(f(x) && g(x)) && (f(x) ==> h(x)) && (g(x) ==> h(x))
    ensures |Filter(s, f)| + |Filter(s, g)| <= |Filter(s, h)|
  {
    if |s| > 0 {
      FilterDisjointCount(s[1..], f, g, h);
    }
  }

  /** A mask that accepts no element of `s` selects nothing. */
  lemma {:induction false} FilterNone<T(!new)>(s: seq<T>, f: T -> bool)
    requires forall x :: x in s ==> !f(x)
    ensures Filter(s, f) == []
  {
    if |s| > 0 {
      FilterNone(s[1..], f);
    }
  }

  /** The sum over a record followed by the rest. */
  lemma SumCons<T>(x: T, s: seq<T>, g: T -> int)
    ensures Sum([x] + s, g) == g(x) + Sum(s, g)
  {
    assert ([x] + s)[1..] == s;
  }

  /** The index of the first occurrence of `x` in `s`. */
  function FirstIndex<T(==)>(s: seq<T>, x: T): (i: nat)
    requires x in s
    ensures i < |s| && s[i] == x
    ensures forall j :: 0 <= j < i ==> s[j] != x
  {
    if s[0] == x then 0 else 1 + FirstIndex(s[1..], x)
  }

  /**
   The distinct values of `s`, each once, listed in the order of their first
   occurrence in `s` (the order of a hash-based `unique`).
   */
  method Unique<T(==)>(s: seq<T>) returns (r: seq<T>)
    ensures forall x :: x in r <==> x in s
    ensures forall i, j :: 0 <= i < j < |r| ==> r[i] != r[j]
    ensures forall i, j :: 0 <= i < j < |r| ==> FirstIndex(s, r[i]) < FirstIndex(s, r[j])
  {
    r := [];
    var seen: set<T> := {};
    for k := 0 to |s|
      invariant forall x :: x in seen <==> x in r
      invariant forall x :: x in r <==> x in s[..k]
      invariant forall i :: 0 <= i < |r| ==> r[i] in s && FirstIndex(s, r[i]) < k
      invariant forall i, j :: 0 <= i < j < |r| ==> FirstIndex(s, r[i]) < FirstIndex(s, r[j])
    {
      assert s[..k + 1] == s[..k] + [s[k]];
      if s[k] !in seen {
        var first := FirstIndex(s, s[k]);
        assert first == k;
        r := r + [s[k]];
        seen := seen + {s[k]};
      }
    }
    assert s[..|s|] == s;
  }
}
