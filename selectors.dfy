/** The selector values the prompts accept and the lookups `load_data`
    performs on them: the city table, the month and weekday lists and their
    `'all'` sentinel. */
module Selectors {
  import opened Wrappers
  import opened Calendar

  /** City name to CSV file name. */
  const CityData: map<string, string> :=
    map["chicago" := "chicago.csv",
        "new york city" := "new_york_city.csv",
        "washington" := "washington.csv"]

  /** The sentinel meaning "do not filter on this field". */
  const All: string := "all"

  /** A selector value `load_data` accepts: a lower-case name from its list or `'all'`. */
  predicate IsMonthSelector(month: string) {
    month in Months || month == All
  }

  predicate IsDaySelector(day: string) {
    day in Days || day == All
  }

  /** The city prompt's test: the lower-cased answer is a key of the city
      table, so `load_data` finds a file for it. */
  predicate IsCityChoice(answer: string)
    ensures IsCityChoice(answer) <==> CityFile(answer).Some?
  {
    Lower(answer) in CityData
  }

  /** The month prompt's test: the answer, in any letter case, is `'all'` or
      the name of one of the months January to June. */
  predicate IsMonthChoice(answer: string)
    ensures IsMonthChoice(answer) <==>
      Lower(answer) == All || exists m: Month :: m <= 6 && Lower(MonthName(m)) == Lower(answer)
    ensures IsMonthChoice(answer) ==> IsMonthSelector(Lower(answer))
  {
    var a := Lower(answer);
    if a in Months then
      var m := MonthIndex(a);
      assert Lower(MonthName(m)) == a;
      true
    else a == All
  }

  /** The weekday prompt's test: the answer, in any letter case, is `'all'`
      or the name of a weekday. */
  predicate IsDayChoice(answer: string)
    ensures IsDayChoice(answer) <==>
      Lower(answer) == All || exists d: Weekday :: Lower(DayName(d)) == Lower(answer)
    ensures IsDayChoice(answer) ==> IsDaySelector(Lower(answer))
  {
    var a := Lower(answer);
    if a in Days then
      var d := DayIndex(a);
      assert Lower(DayName(d)) == a;
      true
    else a == All
  }

  /** `CITY_DATA.get(city.lower())`: the city's file, or `None` for a city
      outside the table. */
  function CityFile(city: string): (r: Option<string>)
    ensures r.Some? <==> Lower(city) in {"chicago", "new york city", "washington"}
    ensures Lower(city) == "chicago" ==> r == Some("chicago.csv")
    ensures Lower(city) == "new york city" ==> r == Some("new_york_city.csv")
    ensures Lower(city) == "washington" ==> r == Some("washington.csv")
  {
    if Lower(city) in CityData then Some(CityData[Lower(city)]) else None
  }

  /** The position of `x` in `s`: Python's `list.index`. */
  function IndexOf<T(==)>(s: seq<T>, x: T): (i: nat)
    requires x in s
    ensures i < |s| && s[i] == x
    ensures x !in s[..i]
  {
    if s[0] == x then 0 else 1 + IndexOf(s[1..], x)
  }

  /** `months.index(month) + 1`: january is 1 ... june is 6, and the month
      the filter keeps is the one `strftime('%B')` names `month`. */
  function MonthIndex(month: string): (m: Month)
    requires month in Months
    ensures m <= 6 && Months[m - 1] == month
    ensures Lower(MonthName(m)) == month
  {
    NamesMatchSelectors();
    IndexOf(Months, month) + 1
  }

  /** `days.index(day)`: monday is 0 ... sunday is 6, and the weekday the
      filter keeps is the one `strftime('%A')` names `day`. */
  function DayIndex(day: string): (d: Weekday)
    requires day in Days
    ensures Days[d] == day
    ensures Lower(DayName(d)) == day
  {
    NamesMatchSelectors();
    IndexOf(Days, day)
  }
}
