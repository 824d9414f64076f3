/** The four report groups: `time_stats`, `station_stats`,
    `trip_duration_stats` and `user_stats`. Each is a function of the frame
    that `load_data` returned; `None` stands for the exception the original
    raises on a frame without rows (that frame has no columns at all). */
module Statistics {
  import opened Wrappers
  import opened Records
  import opened Calendar
  import opened Aggregates
  import opened Sequences

  // Derived columns: the values `time_stats` and `station_stats` add to the frame.

  function MonthColumn(rows: seq<TripRecord>): (c: seq<string>)
    ensures |c| == |rows|
  {
    seq(|rows|, i requires 0 <= i < |rows| => MonthName(rows[i].month))
  }

  function DayColumn(rows: seq<TripRecord>): (c: seq<string>)
    ensures |c| == |rows|
  {
    seq(|rows|, i requires 0 <= i < |rows| => DayName(rows[i].weekday))
  }

  function HourColumn(rows: seq<TripRecord>): (c: seq<Hour>)
    ensures |c| == |rows|
  {
    seq(|rows|, i requires 0 <= i < |rows| => rows[i].hour)
  }

  function StartColumn(rows: seq<TripRecord>): (c: seq<string>)
    ensures |c| == |rows|
  {
    seq(|rows|, i requires 0 <= i < |rows| => rows[i].startStation)
  }

  function EndColumn(rows: seq<TripRecord>): (c: seq<string>)
    ensures |c| == |rows|
  {
    seq(|rows|, i requires 0 <= i < |rows| => rows[i].endStation)
  }

  /** The `'Trip'` column: start and end station of each row joined by " - ".
      Every key in it is the key of some row, and the key of a start and end
      station occurs at least as often as the rows with that pair. It can
      occur more often: two different pairs can join into the same text. */
  function TripColumn(rows: seq<TripRecord>): (c: seq<string>)
    ensures |c| == |rows|
    ensures forall k :: k in c ==>
              exists i :: 0 <= i < |rows| && k == TripKey(rows[i].startStation, rows[i].endStation)
    ensures forall start: string, end: string ::
              multiset(c)[TripKey(start, end)] >=
              |Where(rows, (x: TripRecord) => x.startStation == start && x.endStation == end)|
  {
    if rows == [] then []
    else [TripKey(rows[0].startStation, rows[0].endStation)] + TripColumn(rows[1..])
  }

  function UserTypeColumn(rows: seq<TripRecord>): (c: seq<string>)
    ensures |c| == |rows|
  {
    seq(|rows|, i requires 0 <= i < |rows| => rows[i].userType)
  }

  function GenderCells(rows: seq<TripRecord>): (c: seq<Option<string>>)
    ensures |c| == |rows|
  {
    seq(|rows|, i requires 0 <= i < |rows| => rows[i].gender)
  }

  /** The non-missing cells of the `'Gender'` column. */
  function Genders(rows: seq<TripRecord>): seq<string> {
    Present(GenderCells(rows))
  }

  /** The non-missing cells of the `'Birth Year'` column. */
  function BirthYears(rows: seq<TripRecord>): seq<int> {
    Present(seq(|rows|, i requires 0 <= i < |rows| => rows[i].birthYear))
  }

  datatype TimeReport = TimeReport(popularMonth: string, popularDay: string, popularHour: Hour)

  /** `time_stats`: most common month name, weekday name and start hour. */
  function TimeStats(f: Frame): (r: Option<TimeReport>)
    ensures r.None? <==> f.rows == []
    ensures r.Some? ==>
      && IsMostCommon(MonthColumn(f.rows), r.value.popularMonth)
      && IsMostCommon(DayColumn(f.rows), r.value.popularDay)
      && IsMostCommon(HourColumn(f.rows), r.value.popularHour)
  {
    if f.rows == [] then None
    else
      Some(TimeReport(
        Mode(MonthColumn(f.rows)).value,
        Mode(DayColumn(f.rows)).value,
        Mode(HourColumn(f.rows)).value))
  }

  /** Counting a month's name in the name column counts the rows of that
      month. */
  lemma {:induction false} MonthNameCount(rows: seq<TripRecord>, m: Month)
    ensures multiset(MonthColumn(rows))[MonthName(m)] == |Where(rows, (x: TripRecord) => x.month == m)|
  {
    if rows != [] {
      MonthNameCount(rows[1..], m);
      NamesAreDistinct();
      assert MonthColumn(rows) == [MonthName(rows[0].month)] + MonthColumn(rows[1..]);
    }
  }

  /** The number of trips started in month `m`. */
  function MonthTrips(rows: seq<TripRecord>, m: Month): nat {
    |Where(rows, (x: TripRecord) => x.month == m)|
  }

  /** A most common name in the name column is the name of a month with the
      most trips. */
  lemma MostCommonNameIsMostCommonMonth(rows: seq<TripRecord>, name: string)
    requires IsMostCommon(MonthColumn(rows), name)
    ensures exists m: Month :: name == MonthName(m) && MonthTrips(rows, m) > 0 &&
                               forall n: Month :: MonthTrips(rows, n) <= MonthTrips(rows, m)
  {
    var names := MonthColumn(rows);
    var i :| 0 <= i < |names| && names[i] == name;
    var m := rows[i].month;
    MonthNameCount(rows, m);
    forall n: Month ensures MonthTrips(rows, n) <= MonthTrips(rows, m) {
      MonthNameCount(rows, n);
    }
  }

  /** The month name `time_stats` reports is the name of a month with the
      most trips. */
  lemma PopularMonthNameIsPopularMonth(f: Frame)
    requires f.rows != []
    ensures exists m: Month :: TimeStats(f).value.popularMonth == MonthName(m) &&
                               MonthTrips(f.rows, m) > 0 &&
                               forall n: Month :: MonthTrips(f.rows, n) <= MonthTrips(f.rows, m)
  {
    MostCommonNameIsMostCommonMonth(f.rows, TimeStats(f).value.popularMonth);
  }

  /** The same for weekday names. */
  lemma {:induction false} DayNameCount(rows: seq<TripRecord>, d: Weekday)
    ensures multiset(DayColumn(rows))[DayName(d)] == |Where(rows, (x: TripRecord) => x.weekday == d)|
  {
    if rows != [] {
      DayNameCount(rows[1..], d);
      NamesAreDistinct();
      assert DayColumn(rows) == [DayName(rows[0].weekday)] + DayColumn(rows[1..]);
    }
  }

  datatype StationReport = StationReport(popularStart: string, popularEnd: string, popularTrip: string)

  /** `station_stats`: most common start station, end station and trip. */
  function StationStats(f: Frame): (r: Option<StationReport>)
    ensures r.None? <==> f.rows == []
    ensures r.Some? ==>
      && IsMostCommon(StartColumn(f.rows), r.value.popularStart)
      && IsMostCommon(EndColumn(f.rows), r.value.popularEnd)
      && IsMostCommon(TripColumn(f.rows), r.value.popularTrip)
  {
    if f.rows == [] then None
    else
      Some(StationReport(
        Mode(StartColumn(f.rows)).value,
        Mode(EndColumn(f.rows)).value,
        Mode(TripColumn(f.rows)).value))
  }

  /** The most common trip is a trip some row actually made. */
  lemma PopularTripIsARow(f: Frame)
    requires f.rows != []
    ensures exists i :: 0 <= i < |f.rows| &&
                        StationStats(f).value.popularTrip == TripKey(f.rows[i].startStation, f.rows[i].endStation)
  {
    var trips := TripColumn(f.rows);
    var i :| 0 <= i < |trips| && trips[i] == StationStats(f).value.popularTrip;
  }

  /** Sum of the `'Trip Duration'` column. */
  function TotalDuration(rows: seq<TripRecord>): (t: nat)
    ensures forall x :: x in rows ==> x.duration <= t
  {
    if rows == [] then 0 else rows[0].duration + TotalDuration(rows[1..])
  }

  lemma {:induction false} TotalDurationAppend(a: seq<TripRecord>, b: seq<TripRecord>)
    ensures TotalDuration(a + b) == TotalDuration(a) + TotalDuration(b)
  {
    if a != [] {
      TotalDurationAppend(a[1..], b);
      assert (a + b)[1..] == a[1..] + b;
    } else {
      assert a + b == b;
    }
  }

  /** Filtering can only lower the total travel time. */
  lemma {:induction false} TotalDurationOfSubsequence(a: seq<TripRecord>, b: seq<TripRecord>)
    requires IsSubsequence(a, b)
    ensures TotalDuration(a) <= TotalDuration(b)
    decreases |b|
  {
    if a != [] {
      if a[0] == b[0] && IsSubsequence(a[1..], b[1..]) {
        TotalDurationOfSubsequence(a[1..], b[1..]);
      } else {
        TotalDurationOfSubsequence(a, b[1..]);
      }
    }
  }

  /** `trip_duration_stats`: total travel time and the number of trips it is
      spread over (the mean is their quotient). */
  datatype DurationReport = DurationReport(total: nat, trips: nat)

  function DurationStats(f: Frame): (r: Option<DurationReport>)
    ensures r.None? <==> f.rows == []
    ensures r.Some? ==> r.value.trips == |f.rows| > 0 && r.value.total == TotalDuration(f.rows)
    ensures r.Some? ==> forall x :: x in f.rows ==> x.duration <= r.value.total
  {
    if f.rows == [] then None
    else Some(DurationReport(TotalDuration(f.rows), |f.rows|))
  }

  datatype BirthYearReport = BirthYearReport(earliest: int, mostRecent: int, mostCommon: int)

  /** Earliest, most recent and most common year of a column of present
      birth years; `None` when there are none (the original raises). */
  function BirthYearStats(years: seq<int>): (r: Option<BirthYearReport>)
    ensures r.None? <==> years == []
    ensures r.Some? ==>
      && r.value.earliest in years && r.value.mostRecent in years
      && (forall y :: y in years ==> r.value.earliest <= y <= r.value.mostRecent)
      && IsMostCommon(years, r.value.mostCommon)
      && r.value.earliest <= r.value.mostCommon <= r.value.mostRecent
  {
    if years == [] then None
    else Some(BirthYearReport(Least(years), Greatest(years), Mode(years).value))
  }

  /** `user_stats`: user-type counts always; gender counts and birth-year
      figures only when the frame has that column (`None` inside the report
      is "not available for this city"). */
  datatype UserReport = UserReport(
    userTypes: seq<Tally<string>>,
    genders: Option<seq<Tally<string>>>,
    birthYears: Option<BirthYearReport>)

  function UserStats(f: Frame): (r: Option<UserReport>)
    ensures r.None? <==> f.rows == [] || (f.hasBirthYear && BirthYears(f.rows) == [])
    ensures r.Some? ==> IsValueCounts(r.value.userTypes, UserTypeColumn(f.rows))
    ensures r.Some? ==> (r.value.genders.Some? <==> f.hasGender)
    ensures r.Some? && r.value.genders.Some? ==> IsValueCounts(r.value.genders.value, Genders(f.rows))
    ensures r.Some? ==> (r.value.birthYears.Some? <==> f.hasBirthYear)
    ensures r.Some? && r.value.birthYears.Some? ==>
      BirthYearStats(BirthYears(f.rows)) == r.value.birthYears
  {
    if f.rows == [] || (f.hasBirthYear && BirthYears(f.rows) == []) then None
    else
      Some(UserReport(
        ValueCounts(UserTypeColumn(f.rows)),
        if f.hasGender then Some(ValueCounts(Genders(f.rows))) else None,
        if f.hasBirthYear then BirthYearStats(BirthYears(f.rows)) else None))
  }

  /** The gender counts add up to the number of rows whose gender is not
      missing, and the user-type counts to the number of rows. */
  lemma CountsCoverRows(f: Frame)
    requires f.rows != [] && (!f.hasBirthYear || BirthYears(f.rows) != [])
    ensures Total(UserStats(f).value.userTypes) == |f.rows|
    ensures f.hasGender ==>
      Total(UserStats(f).value.genders.value) == |f.rows| - multiset(GenderCells(f.rows))[None]
  {
  }
}
