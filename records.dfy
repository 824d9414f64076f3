/** Trip records as the pipeline sees them after the CSV has been read and
    the start timestamp parsed: the calendar fields the filters and the
    time statistics use are already split out. */
module Records {
  import opened Wrappers
  import opened Calendar

  /** One row of a city's trip log. `gender` and `birthYear` are `None` for a
      missing cell (or for every row of a city without that column). */
  datatype TripRecord = TripRecord(
    month: Month,
    weekday: Weekday,
    hour: Hour,
    startStation: string,
    endStation: string,
    duration: nat,
    userType: string,
    gender: Option<string>,
    birthYear: Option<int>)

  /** A data frame of trip records together with which optional columns it
      has. A frame with no rows stands for the column-less `DataFrame()`
      that loading returns when the filters keep nothing. */
  datatype Frame = Frame(rows: seq<TripRecord>, hasGender: bool, hasBirthYear: bool)

  /** The key of a trip: start and end station joined by " - ". */
  function TripKey(start: string, end: string): (key: string)
    ensures |key| == |start| + 3 + |end|
    ensures key[..|start|] == start && key[|start|..|start| + 3] == " - " && key[|start| + 3..] == end
  {
    start + " - " + end
  }
}
