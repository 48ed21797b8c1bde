/** Order-preserving selection over sequences, shared by the report views. */
module Seqs {

  /** `r` is obtained from `s` by deleting elements and keeping the rest in order. */
  ghost predicate SubsequenceOf<T>(r: seq<T>, s: seq<T>)
    decreases |s|
  {
    if r == [] then true
    else if s == [] then false
    else (r[0] == s[0] && SubsequenceOf(r[1..], s[1..])) || SubsequenceOf(r, s[1..])
  }

  /** The elements of `s` that satisfy `keep`, in their original order
      (a list comprehension with an `if`, or a queryset `.filter`). */
  function Filter<T>(s: seq<T>, keep: T -> bool): (r: seq<T>)
    ensures |r| <= |s|
    ensures forall i :: 0 <= i < |r| ==> r[i] in s && keep(r[i])
    ensures forall i :: 0 <= i < |s| && keep(s[i]) ==> s[i] in r
    ensures SubsequenceOf(r, s)
    decreases |s|
  {
    if s == [] then []
    else if keep(s[0]) then [s[0]] + Filter(s[1..], keep)
    else Filter(s[1..], keep)
  }

  /** The number of elements of `s` that satisfy `keep` (a queryset `.count()` after `.filter`). */
  function Count<T>(s: seq<T>, keep: T -> bool): nat
  {
    |Filter(s, keep)|
  }

  /** Filtering distributes over concatenation. */
  lemma {:induction false} FilterConcat<T>(a: seq<T>, b: seq<T>, keep: T -> bool)
    ensures Filter(a + b, keep) == Filter(a, keep) + Filter(b, keep)
    decreases |a|
  {
    if a == [] {
      assert a + b == b;
    } else {
      assert (a + b)[0] == a[0];
      assert (a + b)[1..] == a[1..] + b;
      FilterConcat(a[1..], b, keep);
    }
  }

  /** Every element satisfies exactly one of `keep` and its negation, so the two counts
      add up to the length. */
  lemma {:induction false} CountSplit<T>(s: seq<T>, keep: T -> bool, drop: T -> bool)
    requires forall x :: drop(x) <==> !keep(x)
    ensures Count(s, keep) + Count(s, drop) == |s|
    decreases |s|
  {
    if s != [] {
      CountSplit(s[1..], keep, drop);
    }
  }

  /** Filtering twice keeps exactly what satisfies both predicates. */
  lemma {:induction false} FilterFilter<T>(s: seq<T>, f: T -> bool, g: T -> bool, both: T -> bool)
    requires forall x :: both(x) <==> f(x) && g(x)
    ensures Filter(Filter(s, f), g) == Filter(s, both)
    decreases |s|
  {
    if s != [] {
      FilterFilter(s[1..], f, g, both);
      if f(s[0]) {
        var t := Filter(s[1..], f);
        assert Filter(s, f) == [s[0]] + t;
        assert ([s[0]] + t)[0] == s[0];
        assert ([s[0]] + t)[1..] == t;
      }
    }
  }

  /** An element that differs from every other position of the sequence occurs in it once. */
  lemma {:induction false} CountOnce<T>(s: seq<T>, j: nat)
    requires j < |s|
    requires forall k :: 0 <= k < |s| && k != j ==> s[k] != s[j]
    ensures multiset(s)[s[j]] == 1
    decreases |s|
  {
    assert s == [s[0]] + s[1..];
    if j == 0 {
      forall k | 0 <= k < |s[1..]|
        ensures s[1..][k] != s[0]
      {
        assert s[1..][k] == s[k + 1];
      }
      assert s[0] !in s[1..];
    } else {
      forall k | 0 <= k < |s[1..]| && k != j - 1
        ensures s[1..][k] != s[1..][j - 1]
      {
        assert s[1..][k] == s[k + 1];
      }
      CountOnce(s[1..], j - 1);
      assert s[0] != s[j];
    }
  }
}
