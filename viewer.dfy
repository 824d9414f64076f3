/** `display_data`: on each "yes" show the next five rows of the frame. */
module Viewer {
  import opened Records
  import opened Calendar

  /** Rows shown per answer. */
  const PageSize: nat := 5

  function Min(a: int, b: int): int {
    if a <= b then a else b
  }

  /** `rows[lo:hi]` (pandas `iloc`): bounds past the end are cut back to it,
      so a slice that starts past the end is empty. */
  function Slice<T>(rows: seq<T>, lo: nat, hi: nat): (r: seq<T>)
    requires lo <= hi
    ensures |r| == if |rows| <= lo then 0 else Min(hi, |rows|) - lo
    ensures forall i :: 0 <= i < |r| ==> r[i] == rows[lo + i]
  {
    rows[Min(lo, |rows|)..Min(hi, |rows|)]
  }

  /** The rows shown in answer to the (k+1)-th "yes". */
  function Window<T>(rows: seq<T>, k: nat): (w: seq<T>)
    ensures |w| == Min(PageSize, if |rows| <= PageSize * k then 0 else |rows| - PageSize * k)
    ensures forall i :: 0 <= i < |w| ==> w[i] == rows[PageSize * k + i]
  {
    Slice(rows, PageSize * k, PageSize * k + PageSize)
  }

  /** Everything shown by a run of windows, in order. */
  function Flatten<T>(windows: seq<seq<T>>): seq<T> {
    if windows == [] then [] else Flatten(windows[..|windows| - 1]) + windows[|windows| - 1]
  }

  /** Consecutive windows tile the rows: the first k windows together are
      the first 5k rows (all of them once 5k passes the end). */
  lemma {:induction false} WindowsTile<T>(rows: seq<T>, k: nat)
    ensures rows[..Min(PageSize * k, |rows|)] + Window(rows, k) == rows[..Min(PageSize * (k + 1), |rows|)]
  {
    var lo, hi := Min(PageSize * k, |rows|), Min(PageSize * (k + 1), |rows|);
    assert Window(rows, k) == rows[lo..hi];
    assert rows[..lo] + rows[lo..hi] == rows[..hi];
  }

  /** Seven rows are shown as five, then two, then nothing on every later "yes". */
  lemma SevenRowsExample<T>(rows: seq<T>)
    requires |rows| == 7
    ensures Window(rows, 0) == rows[..5] && Window(rows, 1) == rows[5..]
    ensures forall k: nat :: k >= 2 ==> Window(rows, k) == []
  {
  }

  /** How many leading answers are "yes" in any letter case. */
  function LeadingYes(answers: seq<string>): (n: nat)
    ensures n <= |answers|
    ensures forall i :: 0 <= i < n ==> Lower(answers[i]) == "yes"
    ensures n < |answers| ==> Lower(answers[n]) != "yes"
  {
    if answers == [] || Lower(answers[0]) != "yes" then 0 else 1 + LeadingYes(answers[1..])
  }

  /** The viewer's state: the `start`/`end` pair of `display_data`, and the
      number of windows shown so far. */
  class Pager {
    const rows: seq<TripRecord>
    var start: nat
    var end: nat
    ghost var shown: nat

    ghost predicate Valid()
      reads this
    {
      start == PageSize * shown && end == start + PageSize
    }

    constructor (rows: seq<TripRecord>)
      ensures Valid() && this.rows == rows
      ensures start == 0 && end == PageSize && shown == 0
    {
      this.rows := rows;
      start, end := 0, PageSize;
      shown := 0;
    }

    /** Show `rows[start:end]` and move both bounds on by five. */
    method NextWindow() returns (w: seq<TripRecord>)
      requires Valid()
      modifies this
      ensures Valid() && shown == old(shown) + 1
      ensures start == old(start) + PageSize && end == old(end) + PageSize
      ensures w == Slice(rows, old(start), old(end)) == Window(rows, old(shown))
    {
      w := Slice(rows, start, end);
      start := start + PageSize;
      end := end + PageSize;
      shown := shown + 1;
    }
  }

  /** `display_data` with its answers given up front: while the next answer
      is "yes", show the next window. Returns the windows shown. */
  method DisplayData(rows: seq<TripRecord>, answers: seq<string>) returns (windows: seq<seq<TripRecord>>)
    ensures |windows| == LeadingYes(answers)
    ensures forall k :: 0 <= k < |windows| ==> windows[k] == Window(rows, k)
    ensures Flatten(windows) == rows[..Min(PageSize * |windows|, |rows|)]
  {
    var pager := new Pager(rows);
    var i := 0;
    windows := [];
    while i < |answers| && Lower(answers[i]) == "yes"
      invariant i <= |answers|
      invariant LeadingYes(answers) == i + LeadingYes(answers[i..])
      invariant pager.Valid() && pager.rows == rows && pager.shown == i
      invariant |windows| == i
      invariant forall k :: 0 <= k < i ==> windows[k] == Window(rows, k)
      invariant Flatten(windows) == rows[..Min(PageSize * i, |rows|)]
    {
      var w := pager.NextWindow();
      WindowsTile(rows, i);
      assert answers[i..][1..] == answers[i + 1..];
      ghost var before := windows;
      windows := windows + [w];
      assert windows[..i] == before;
      i := i + 1;
    }
  }
}
