/** The pandas column reductions the statistics use: `mode()[0]`,
    `value_counts()`, `min()` and `max()`. Counts are multiset
    multiplicities: `multiset(s)[x]` is how often `x` occurs in `s`. */
module Aggregates {
  import opened Wrappers

  /** `x` occurs in `s` and no value occurs more often. */
  ghost predicate IsMostCommon<T(!new)>(s: seq<T>, x: T) {
    x in s && forall y :: multiset(s)[y] <= multiset(s)[x]
  }

  /** The first position among `s[..n]` holding a value of highest count in
      the whole of `s`. */
  function FirstModeIndex<T(==)>(s: seq<T>, n: nat): (k: nat)
    requires 0 < n <= |s|
    ensures k < n
    ensures forall j :: 0 <= j < n ==> multiset(s)[s[j]] <= multiset(s)[s[k]]
    ensures forall j :: 0 <= j < k ==> multiset(s)[s[j]] < multiset(s)[s[k]]
  {
    if n == 1 then 0
    else
      var k := FirstModeIndex(s, n - 1);
      if multiset(s)[s[n - 1]] > multiset(s)[s[k]] then n - 1 else k
  }

  lemma ModeAt<T(!new)>(s: seq<T>, k: nat)
    requires k < |s|
    requires forall j :: 0 <= j < |s| ==> multiset(s)[s[j]] <= multiset(s)[s[k]]
    requires forall j :: 0 <= j < k ==> multiset(s)[s[j]] < multiset(s)[s[k]]
    ensures IsMostCommon(s, s[k])
    ensures forall j :: 0 <= j < |s| && multiset(s)[s[j]] == multiset(s)[s[k]] ==> s[k] in s[..j + 1]
  {
    forall y ensures multiset(s)[y] <= multiset(s)[s[k]] {
      if y in s {
        var j :| 0 <= j < |s| && s[j] == y;
      }
    }
    forall j | 0 <= j < |s| && multiset(s)[s[j]] == multiset(s)[s[k]] ensures s[k] in s[..j + 1] {
      assert s[..j + 1][k] == s[k];
    }
  }

  /** `mode()[0]`: a most common value, `None` on an empty column (where the
      original raises). Among values tied for the highest count the one that
      occurs first wins: any position holding a tied value comes at or after
      the mode's first occurrence. */
  function Mode<T(==,!new)>(s: seq<T>): (m: Option<T>)
    ensures m.None? <==> s == []
    ensures m.Some? ==> IsMostCommon(s, m.value)
    ensures m.Some? ==> forall j :: 0 <= j < |s| && multiset(s)[s[j]] == multiset(s)[m.value] ==> m.value in s[..j + 1]
  {
    if s == [] then None
    else
      var k := FirstModeIndex(s, |s|);
      ModeAt(s, k);
      Some(s[k])
  }

  /** When the first row holds a most common value, that value is the mode. */
  lemma FirstRowTiedIsMode<T(!new)>(s: seq<T>)
    requires s != [] && IsMostCommon(s, s[0])
    ensures Mode(s) == Some(s[0])
  {
    var m := Mode(s).value;
    assert m in s[..1];
  }

  /** Two values tie at two occurrences each in `[b, a, a, b]`; `b`, seen
      first, wins. */
  lemma ModeTieBreakExample<T(!new)>(a: T, b: T)
    requires a != b
    ensures Mode([b, a, a, b]) == Some(b)
  {
    var s := [b, a, a, b];
    assert multiset(s) == multiset{a, a, b, b};
    FirstRowTiedIsMode(s);
  }

  /** `s` without any occurrence of `v`. */
  function RemoveAll<T(==,!new)>(s: seq<T>, v: T): (r: seq<T>)
    ensures |r| + multiset(s)[v] == |s|
    ensures forall x :: multiset(r)[x] == if x == v then 0 else multiset(s)[x]
  {
    if s == [] then []
    else
      assert s == [s[0]] + s[1..];
      if s[0] == v then RemoveAll(s[1..], v) else [s[0]] + RemoveAll(s[1..], v)
  }

  /** One line of `value_counts()`: a value and how often it occurs. */
  datatype Tally<T> = Tally(value: T, count: nat)

  function Total<T>(vc: seq<Tally<T>>): nat {
    if vc == [] then 0 else vc[0].count + Total(vc[1..])
  }

  /** `vc` is the value-count table of `s`: one line per distinct value of
      `s` with its exact count, highest count first, counts summing to |s|. */
  ghost predicate IsValueCounts<T(!new)>(vc: seq<Tally<T>>, s: seq<T>) {
    && (forall i :: 0 <= i < |vc| ==> vc[i].value in s && vc[i].count == multiset(s)[vc[i].value])
    && (forall x :: x in s ==> exists i :: 0 <= i < |vc| && vc[i].value == x)
    && (forall i, j :: 0 <= i < j < |vc| ==> vc[i].value != vc[j].value)
    && (forall i, j :: 0 <= i < j < |vc| ==> vc[i].count >= vc[j].count)
    && Total(vc) == |s|
  }

  /** `value_counts()`, built as: the mode with its count, then the table of
      what is left once every occurrence of the mode is removed. Each line
      therefore holds the value `Mode` picks among those not yet listed. */
  function ValueCounts<T(==, !new)>(s: seq<T>): (vc: seq<Tally<T>>)
    ensures IsValueCounts(vc, s)
    decreases |s|
  {
    if s == [] then []
    else
      var m := Mode(s).value;
      var rest := RemoveAll(s, m);
      var tail := ValueCounts(rest);
      PrependMode(s, m, rest, tail);
      [Tally(m, multiset(s)[m])] + tail
  }

  /** The step of ValueCounts: the mode's line in front of a correct
      table of the rest gives a correct table of the whole column. */
  lemma PrependMode<T(!new)>(s: seq<T>, m: T, rest: seq<T>, tail: seq<Tally<T>>)
    requires IsMostCommon(s, m)
    requires |rest| + multiset(s)[m] == |s|
    requires forall x :: multiset(rest)[x] == if x == m then 0 else multiset(s)[x]
    requires IsValueCounts(tail, rest)
    ensures IsValueCounts([Tally(m, multiset(s)[m])] + tail, s)
  {
    var vc := [Tally(m, multiset(s)[m])] + tail;
    TailLines(s, m, rest, tail);
    PrependedLines(s, m, tail);
    PrependedCovers(s, m, rest, tail);
    assert vc[1..] == tail;
  }

  /** Lines of the rest's table describe values of `s` other than `m`, with
      their counts in `s`, which are at most `m`'s. */
  lemma TailLines<T(!new)>(s: seq<T>, m: T, rest: seq<T>, tail: seq<Tally<T>>)
    requires IsMostCommon(s, m)
    requires forall x :: multiset(rest)[x] == if x == m then 0 else multiset(s)[x]
    requires forall i :: 0 <= i < |tail| ==> tail[i].value in rest && tail[i].count == multiset(rest)[tail[i].value]
    ensures forall i :: 0 <= i < |tail| ==>
      tail[i].value != m && tail[i].value in s && tail[i].count == multiset(s)[tail[i].value] <= multiset(s)[m]
  {
    forall i | 0 <= i < |tail|
      ensures tail[i].value != m && tail[i].value in s
      ensures tail[i].count == multiset(s)[tail[i].value] <= multiset(s)[m]
    {
      assert multiset(rest)[tail[i].value] > 0;
    }
  }

  lemma PrependedLines<T(!new)>(s: seq<T>, m: T, tail: seq<Tally<T>>)
    requires m in s
    requires forall i :: 0 <= i < |tail| ==>
      tail[i].value != m && tail[i].value in s && tail[i].count == multiset(s)[tail[i].value] <= multiset(s)[m]
    requires forall i, j :: 0 <= i < j < |tail| ==> tail[i].value != tail[j].value && tail[i].count >= tail[j].count
    ensures var vc := [Tally(m, multiset(s)[m])] + tail;
      && (forall i :: 0 <= i < |vc| ==> vc[i].value in s && vc[i].count == multiset(s)[vc[i].value])
      && (forall i, j :: 0 <= i < j < |vc| ==> vc[i].value != vc[j].value && vc[i].count >= vc[j].count)
  {
    var vc := [Tally(m, multiset(s)[m])] + tail;
    forall i | 0 <= i < |vc| ensures vc[i].value in s && vc[i].count == multiset(s)[vc[i].value] {
      if i > 0 { assert vc[i] == tail[i - 1]; }
    }
    forall i, j | 0 <= i < j < |vc| ensures vc[i].value != vc[j].value && vc[i].count >= vc[j].count {
      assert vc[j] == tail[j - 1];
      if i > 0 { assert vc[i] == tail[i - 1]; }
    }
  }

  lemma PrependedCovers<T(!new)>(s: seq<T>, m: T, rest: seq<T>, tail: seq<Tally<T>>)
    requires forall x :: multiset(rest)[x] == if x == m then 0 else multiset(s)[x]
    requires forall x :: x in rest ==> exists i :: 0 <= i < |tail| && tail[i].value == x
    ensures var vc := [Tally(m, multiset(s)[m])] + tail;
      forall x :: x in s ==> exists i :: 0 <= i < |vc| && vc[i].value == x
  {
    var vc := [Tally(m, multiset(s)[m])] + tail;
    forall x | x in s ensures exists i :: 0 <= i < |vc| && vc[i].value == x {
      if x == m {
        assert vc[0].value == x;
      } else {
        assert multiset(rest)[x] > 0;
        assert x in rest;
        var i :| 0 <= i < |tail| && tail[i].value == x;
        assert vc[i + 1].value == x;
      }
    }
  }

  /** `min()`: the least value of a non-empty column. */
  function Least(s: seq<int>): (m: int)
    requires s != []
    ensures m in s
    ensures forall x :: x in s ==> m <= x
  {
    if |s| == 1 then s[0]
    else
      var t := Least(s[1..]);
      assert s == [s[0]] + s[1..];
      if s[0] <= t then s[0] else t
  }

  /** `max()`: the greatest value of a non-empty column. */
  function Greatest(s: seq<int>): (m: int)
    requires s != []
    ensures m in s
    ensures forall x :: x in s ==> x <= m
  {
    if |s| == 1 then s[0]
    else
      var t := Greatest(s[1..]);
      assert s == [s[0]] + s[1..];
      if s[0] >= t then s[0] else t
  }
}
