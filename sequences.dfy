/** Column-level sequence operations the pipeline is built from: boolean-mask
    selection (`df[mask]`), order-preserving subsequences, and dropping
    missing cells (what `value_counts`, `min`, `max` and `mode` do with NaN). */
module Sequences {
  import opened Wrappers

  /** The elements of `s` that satisfy `keep`, in their original order. */
  function Where<T(==, !new)>(s: seq<T>, keep: T -> bool): (r: seq<T>)
    ensures |r| <= |s|
    ensures forall x :: x in r <==> x in s && keep(x)
    ensures forall x :: multiset(r)[x] == if keep(x) then multiset(s)[x] else 0
  {
    assert s != [] ==> s == [s[0]] + s[1..];
    if s == [] then []
    else if keep(s[0]) then [s[0]] + Where(s[1..], keep)
    else Where(s[1..], keep)
  }

  /** `a` is `b` with some elements deleted and the rest left in order. */
  predicate IsSubsequence<T(==)>(a: seq<T>, b: seq<T>)
    decreases |b|
  {
    a == [] ||
    (b != [] &&
     ((a[0] == b[0] && IsSubsequence(a[1..], b[1..])) || IsSubsequence(a, b[1..])))
  }

  lemma {:induction false} WhereIsSubsequence<T(!new)>(s: seq<T>, keep: T -> bool)
    ensures IsSubsequence(Where(s, keep), s)
  {
    if s != [] {
      WhereIsSubsequence(s[1..], keep);
      if keep(s[0]) {
        assert Where(s, keep)[1..] == Where(s[1..], keep);
      }
    }
  }

  /** Selecting with a mask every element already satisfies changes nothing. */
  lemma {:induction false} WhereKeepsAll<T(!new)>(s: seq<T>, keep: T -> bool)
    requires forall x :: x in s ==> keep(x)
    ensures Where(s, keep) == s
  {
    if s != [] {
      WhereKeepsAll(s[1..], keep);
      assert s == [s[0]] + s[1..];
    }
  }

  /** Two masks applied one after the other select what their conjunction
      selects in one step. */
  lemma {:induction false} WhereWhere<T(!new)>(s: seq<T>, p: T -> bool, q: T -> bool, both: T -> bool)
    requires forall x :: both(x) == (p(x) && q(x))
    ensures Where(Where(s, p), q) == Where(s, both)
  {
    if s != [] {
      WhereWhere(s[1..], p, q, both);
      if p(s[0]) {
        assert Where(s, p) == [s[0]] + Where(s[1..], p);
        assert ([s[0]] + Where(s[1..], p))[1..] == Where(s[1..], p);
      }
    }
  }

  /** The present values of a column with missing cells, in order. */
  function Present<T(!new)>(s: seq<Option<T>>): (r: seq<T>)
    ensures forall x :: multiset(r)[x] == multiset(s)[Some(x)]
    ensures |r| == |s| - multiset(s)[None]
  {
    if s == [] then []
    else
      assert s == [s[0]] + s[1..];
      match s[0]
      case None => Present(s[1..])
      case Some(v) => [v] + Present(s[1..])
  }
}
