/** `load_data`: look the city up, read its trip log, and keep the rows whose
    start time falls in the selected month and on the selected weekday. */
module TimeWindow {
  import opened Wrappers
  import opened Records
  import opened Calendar
  import opened Selectors
  import opened Sequences

  /** The record's start time lies in the window the selectors describe. */
  predicate Matches(r: TripRecord, month: string, day: string)
    requires IsMonthSelector(month) && IsDaySelector(day)
  {
    (month == All || r.month == MonthIndex(month)) &&
    (day == All || r.weekday == DayIndex(day))
  }

  /** The two successive masks of `load_data`: by month unless `'all'`, then
      by weekday unless `'all'`. */
  function SelectWindow(rows: seq<TripRecord>, month: string, day: string): (r: seq<TripRecord>)
    requires IsMonthSelector(month) && IsDaySelector(day)
    ensures forall x :: x in r <==> x in rows && Matches(x, month, day)
    ensures forall x :: multiset(r)[x] == if Matches(x, month, day) then multiset(rows)[x] else 0
  {
    var byMonth :=
      if month == All then rows
      else var m := MonthIndex(month); Where(rows, (x: TripRecord) => x.month == m);
    if day == All then byMonth
    else var d := DayIndex(day); Where(byMonth, (x: TripRecord) => x.weekday == d)
  }

  /** The two masks select exactly what `Matches` selects, in one pass. */
  lemma SelectWindowIsWhere(rows: seq<TripRecord>, month: string, day: string)
    requires IsMonthSelector(month) && IsDaySelector(day)
    ensures SelectWindow(rows, month, day) == Where(rows, (x: TripRecord) => Matches(x, month, day))
  {
    var both := (x: TripRecord) => Matches(x, month, day);
    if month == All && day == All {
      WhereKeepsAll(rows, both);
    } else if month == All {
      var d := DayIndex(day);
      WhereWhere(rows, (x: TripRecord) => true, (x: TripRecord) => x.weekday == d, both);
      WhereKeepsAll(rows, (x: TripRecord) => true);
    } else if day == All {
      var m := MonthIndex(month);
      WhereWhere(rows, (x: TripRecord) => x.month == m, (x: TripRecord) => true, both);
      WhereKeepsAll(Where(rows, (x: TripRecord) => x.month == m), (x: TripRecord) => true);
    } else {
      var m := MonthIndex(month);
      var d := DayIndex(day);
      WhereWhere(rows, (x: TripRecord) => x.month == m, (x: TripRecord) => x.weekday == d, both);
    }
  }

  /** Filtering keeps the source order: the result is a subsequence of the rows. */
  lemma SelectWindowIsSubsequence(rows: seq<TripRecord>, month: string, day: string)
    requires IsMonthSelector(month) && IsDaySelector(day)
    ensures IsSubsequence(SelectWindow(rows, month, day), rows)
  {
    SelectWindowIsWhere(rows, month, day);
    WhereIsSubsequence(rows, (x: TripRecord) => Matches(x, month, day));
  }

  /** Filtering twice with the same selectors changes nothing. */
  lemma SelectWindowIdempotent(rows: seq<TripRecord>, month: string, day: string)
    requires IsMonthSelector(month) && IsDaySelector(day)
    ensures SelectWindow(SelectWindow(rows, month, day), month, day) == SelectWindow(rows, month, day)
  {
    var once := SelectWindow(rows, month, day);
    SelectWindowIsWhere(once, month, day);
    WhereKeepsAll(once, (x: TripRecord) => Matches(x, month, day));
  }

  /** `load_data(city, month, day)` with the CSV reader `read` mapping a file
      name to its frame. An unknown city gives `None` and nothing is read; an
      empty selection gives the column-less empty frame. */
  function LoadData(city: string, month: string, day: string, read: string -> Frame): (r: Option<Frame>)
    requires IsMonthSelector(month) && IsDaySelector(day)
    ensures r.None? <==> Lower(city) !in CityData
    ensures r.Some? ==>
      var source := read(CityData[Lower(city)]);
      && IsSubsequence(r.value.rows, source.rows)
      && (forall x :: x in r.value.rows <==> x in source.rows && Matches(x, month, day))
      && (forall x :: multiset(r.value.rows)[x] == if Matches(x, month, day) then multiset(source.rows)[x] else 0)
      && (r.value.rows == [] ==> !r.value.hasGender && !r.value.hasBirthYear)
      && (r.value.rows != [] ==>
            r.value.hasGender == source.hasGender && r.value.hasBirthYear == source.hasBirthYear)
  {
    match CityFile(city)
    case None => None
    case Some(file) =>
      var source := read(file);
      var rows := SelectWindow(source.rows, month, day);
      SelectWindowIsSubsequence(source.rows, month, day);
      if rows == [] then Some(Frame([], false, false))
      else Some(Frame(rows, source.hasGender, source.hasBirthYear))
  }

  /** With `'all'` for both selectors a non-empty log comes back unchanged. */
  lemma LoadAllKeepsEverything(city: string, read: string -> Frame)
    requires Lower(city) in CityData
    requires read(CityData[Lower(city)]).rows != []
    ensures LoadData(city, All, All, read) == Some(read(CityData[Lower(city)]))
  {
    var source := read(CityData[Lower(city)]);
    SelectWindowIsWhere(source.rows, All, All);
  }

  /** Answers the three prompts accept, lower-cased as `get_filters` returns
      them, always load: the city is found and the month and weekday are
      names `load_data` can index. */
  lemma AcceptedChoicesLoad(city: string, month: string, day: string, read: string -> Frame)
    requires IsCityChoice(city) && IsMonthChoice(month) && IsDayChoice(day)
    ensures IsMonthSelector(Lower(month)) && IsDaySelector(Lower(day))
    ensures LoadData(Lower(city), Lower(month), Lower(day), read).Some?
  {
    LowerIdempotent(city);
  }
}
