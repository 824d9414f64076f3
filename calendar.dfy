/** The calendar fields of a parsed start time, the names `strftime` gives
    them, the lower-case names the prompts accept, and `str.lower`. */
module Calendar {

  /** Calendar month of the start time, January = 1. */
  type Month = m: int | 1 <= m <= 12 witness 1

  /** Day of the week of the start time, Monday = 0 (pandas' `dayofweek`). */
  type Weekday = d: int | 0 <= d <= 6 witness 0

  /** Hour of the start time. */
  type Hour = h: int | 0 <= h <= 23 witness 0

  /** Full English month names, as `strftime('%B')` writes them. */
  const MonthNames: seq<string> :=
    ["January", "February", "March", "April", "May", "June",
     "July", "August", "September", "October", "November", "December"]

  /** Full English weekday names from Monday, as `strftime('%A')` writes them. */
  const DayNames: seq<string> :=
    ["Monday", "Tuesday", "Wednesday", "Thursday", "Friday", "Saturday", "Sunday"]

  /** The month names a user may filter by (the data covers January to June). */
  const Months: seq<string> := ["january", "february", "march", "april", "may", "june"]

  const Days: seq<string> := ["monday", "tuesday", "wednesday", "thursday", "friday", "saturday", "sunday"]

  function LowerChar(c: char): char {
    if 'A' <= c <= 'Z' then (c as int + 32) as char else c
  }

  /** `str.lower()` on ASCII text: the same length, no upper-case letter
      left, every other character untouched. */
  function Lower(s: string): (r: string)
    ensures |r| == |s|
    ensures forall i :: 0 <= i < |r| ==> !('A' <= r[i] <= 'Z')
    ensures forall i :: 0 <= i < |s| && !('A' <= s[i] <= 'Z') ==> r[i] == s[i]
    ensures forall i :: 0 <= i < |s| && 'A' <= s[i] <= 'Z' ==> r[i] as int == s[i] as int + 32
  {
    seq(|s|, i requires 0 <= i < |s| => LowerChar(s[i]))
  }

  lemma LowerIdempotent(s: string)
    ensures Lower(Lower(s)) == Lower(s)
  {
  }

  /** Every lower-cased month and weekday name is the selector the user types. */
  lemma NamesMatchSelectors()
    ensures forall i :: 0 <= i < |Months| ==> Lower(MonthNames[i]) == Months[i]
    ensures forall i :: 0 <= i < |Days| ==> Lower(DayNames[i]) == Days[i]
  {
    assert Lower(MonthNames[0]) == Months[0];
    assert Lower(MonthNames[1]) == Months[1];
    assert Lower(MonthNames[2]) == Months[2];
    assert Lower(MonthNames[3]) == Months[3];
    assert Lower(MonthNames[4]) == Months[4];
    assert Lower(MonthNames[5]) == Months[5];
    assert Lower(DayNames[0]) == Days[0];
    assert Lower(DayNames[1]) == Days[1];
    assert Lower(DayNames[2]) == Days[2];
    assert Lower(DayNames[3]) == Days[3];
    assert Lower(DayNames[4]) == Days[4];
    assert Lower(DayNames[5]) == Days[5];
    assert Lower(DayNames[6]) == Days[6];
  }

  /** `strftime('%B')`: no other month has this name, and for January to
      June it lower-cases to the selector of that month. */
  function MonthName(m: Month): (name: string)
    ensures forall i :: 0 <= i < |MonthNames| && MonthNames[i] == name ==> i == m - 1
    ensures m <= 6 ==> Lower(name) == Months[m - 1]
  {
    NamesMatchSelectors();
    MonthNames[m - 1]
  }

  /** `strftime('%A')`: no other weekday has this name, and it lower-cases to
      the selector of that weekday. */
  function DayName(d: Weekday): (name: string)
    ensures forall i :: 0 <= i < |DayNames| && DayNames[i] == name ==> i == d
    ensures Lower(name) == Days[d]
  {
    NamesMatchSelectors();
    DayNames[d]
  }

  /** Different months and different weekdays get different names, so
      counting names is counting months (or weekdays). */
  lemma NamesAreDistinct()
    ensures forall m1: Month, m2: Month :: MonthName(m1) == MonthName(m2) ==> m1 == m2
    ensures forall d1: Weekday, d2: Weekday :: DayName(d1) == DayName(d2) ==> d1 == d2
  {
  }
}
