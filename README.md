# Bike-share trip statistics: filtering, aggregation and paging

This project models the core of `bikeshare_6.py`, a small program that
answers questions about bike-share trips in Chicago, New York City and
Washington. Given a city and an optional month and weekday, it looks the
city up in `CITY_DATA`, reads that city's trip log and keeps the trips in the
selected time window. It then reports four groups of statistics:

- popular travel times;
- popular stations and trips;
- total trip duration;
- user types, gender and birth years.

Finally it pages through the kept rows five at a time while the user answers
"yes".

The model is split into these modules:

- `Calendar` holds the month 1-12, weekday 0-6 (Monday = 0) and hour 0-23
  subset types, the English month and weekday names that `strftime('%B')` and
  `strftime('%A')` produce, and ASCII lower-casing.
- `Records` holds the already-parsed trip record. The gender and birth-year cells
  are `Option`s. `Frame` is a list of rows plus flags saying whether the city's
  file has the `Gender` and `Birth Year` columns.
- `Selectors` holds the city table and the month and weekday lists with their
  `'all'` sentinel. It also holds the tests the prompts apply and the
  name-to-index lookups that `load_data` uses.
- `Sequences` holds boolean-mask selection (`Where`), the order-preserving
  subsequence relation and the dropping of missing cells (`Present`).
- `Aggregates` holds the pandas reductions: `mode()[0]`, `value_counts()`,
  `min()` and `max()`.
- `TimeWindow` holds `load_data`: the city lookup, the month mask and the
  weekday mask.
- `Statistics` holds `time_stats`, `station_stats`, `trip_duration_stats` and
  `user_stats`, each as a function of the frame.
- `Viewer` holds `display_data`: a `Pager` class with the `start`/`end`
  counters, and a method that runs the "yes" loop over a given list of
  answers.

Where the program raises, the model returns `None`:

- `mode()[0]` of an empty column raises.
- A column missing from the frame raises `KeyError`.
- `int()` of a NaN birth year raises.

When the filters keep nothing, `load_data` returns `pd.DataFrame()`, a frame
with no columns at all, so every statistics group raises on it. The model
represents that frame as `Frame([], false, false)`, and every group returns
`None` for a frame without rows: the code raises there, and `None` is the
model's explicit "no data" outcome for it.

Mode tie-break: when several values share the highest count, the model picks
the one that occurs first in the column. pandas instead returns the tied
values sorted, so `[0]` is the least of them. Every contract about the mode
states the highest-count property, and `Aggregates.Mode` also states the
first-occurrence rule it uses.

Reading the CSV files is a parameter `read: string -> Frame` from a file name
to its frame. The user's answers to the paging prompt are a parameter
`answers: seq<string>`.

## Model

| member | source | states |
|---|---|---|
| `Selectors.CityFile` | bikeshare_6.py:60-63 | `CITY_DATA.get(city.lower())` finds a file exactly for chicago, new york city and washington, in any letter case; chicago gives `chicago.csv`, new york city gives `new_york_city.csv` and washington gives `washington.csv` |
| `Selectors.IsCityChoice` | bikeshare_6.py:21 | the city prompt accepts an answer exactly when its lower-cased form has an entry in `CITY_DATA` |
| `Selectors.IsMonthChoice` | bikeshare_6.py:29 | the month prompt accepts an answer exactly when, lower-cased, it is `'all'` or the lower-cased name of one of the months January to June; an accepted answer is a month selector `load_data` can use |
| `Selectors.IsDayChoice` | bikeshare_6.py:38 | the weekday prompt accepts an answer exactly when, lower-cased, it is `'all'` or the lower-cased name of a weekday; an accepted answer is a weekday selector `load_data` can use |
| `Selectors.IndexOf` | bikeshare_6.py:71 | `list.index`: the position holds the value and no earlier position does |
| `Selectors.MonthIndex` | bikeshare_6.py:70-71 | `months.index(month) + 1` lies in 1..6, and `strftime('%B')` of that month, lower-cased, is `month` again (january is 1 ... june is 6) |
| `Selectors.DayIndex` | bikeshare_6.py:75-76 | `days.index(day)` lies in 0..6, and `strftime('%A')` of that weekday, lower-cased, is `day` again (monday is 0 ... sunday is 6) |
| `Calendar.NamesMatchSelectors` | bikeshare_6.py:90-91 | the lower-cased full month and weekday names are exactly the selector lists of lines 70 and 75, position by position |
| `Sequences.Where` | bikeshare_6.py:72 | `df[mask]` keeps a row if and only if it was in the frame and passes the mask; a row that passes occurs exactly as many times as in the frame, duplicates included, and one that fails occurs zero times |
| `Sequences.WhereIsSubsequence` | bikeshare_6.py:77 | a masked frame keeps the surviving rows in their original order |
| `Sequences.WhereKeepsAll` | bikeshare_6.py:77 | a mask that every row passes leaves the frame unchanged |
| `Sequences.WhereWhere` | bikeshare_6.py:69-77 | applying the month mask and then the weekday mask equals one mask that is their conjunction |
| `Sequences.Present` | bikeshare_6.py:159 | dropping missing cells keeps every present value with its exact number of occurrences, and the count of remaining cells is the number of non-missing cells |
| `TimeWindow.SelectWindow` | bikeshare_6.py:69-77 | a row is kept if and only if it is in the log and its month is `index(month) + 1` (unless `'all'`) and its weekday is `index(day)` (unless `'all'`); each matching row is kept as many times as it occurs in the log, and no other row is |
| `TimeWindow.SelectWindowIsWhere` | bikeshare_6.py:69-77 | the two successive masks select exactly the rows that match both selectors, in one order-preserving pass |
| `TimeWindow.SelectWindowIsSubsequence` | bikeshare_6.py:69-77 | the filtered rows are an order-preserving subsequence of the city's log |
| `TimeWindow.SelectWindowIdempotent` | bikeshare_6.py:69-77 | filtering an already filtered frame with the same month and weekday changes nothing |
| `TimeWindow.LoadData` | bikeshare_6.py:60-83 | an unknown city gives `None`; otherwise the result is an order-preserving subsequence of the city's log holding exactly the matching rows, each as many times as it occurs in the log; an empty result has no optional columns; a non-empty one keeps the city's column flags |
| `TimeWindow.LoadAllKeepsEverything` | bikeshare_6.py:69-83 | with `'all'` for month and weekday, a non-empty log is returned unchanged |
| `TimeWindow.AcceptedChoicesLoad` | bikeshare_6.py:19-45 | answers that the three prompt checks accept, once lower-cased as `get_filters` returns them, are selectors `load_data` can index, and the city is found |
| `Aggregates.FirstModeIndex` | bikeshare_6.py:93 | the position returned holds a value whose count is the highest, and every earlier position holds a value with a strictly lower count |
| `Aggregates.Mode` | bikeshare_6.py:93 | `mode()[0]` is `None` exactly on an empty column; otherwise it occurs in the column, no value occurs more often, and it occurs no later than any value with the same count |
| `Aggregates.FirstRowTiedIsMode` | bikeshare_6.py:93 | when the first row holds a most common value, that value is the mode |
| `Aggregates.ModeTieBreakExample` | bikeshare_6.py:93 | in `[b, a, a, b]` the two values tie and `b`, which occurs first, is the mode |
| `Aggregates.RemoveAll` | bikeshare_6.py:153 | removing a value leaves every other count unchanged, the removed value with count zero, and the length reduced by its count |
| `Aggregates.ValueCounts` | bikeshare_6.py:153 | `value_counts()` lists each distinct value once with its exact count, covers every value of the column, orders counts from highest to lowest, and the counts sum to the column length |
| `Records.TripKey` | bikeshare_6.py:122 | `start + ' - ' + end` is the start name, then the three characters ` - `, then the end name, and nothing else |
| `Aggregates.Least` | bikeshare_6.py:167 | `min()` is a value of the column and no value is smaller |
| `Aggregates.Greatest` | bikeshare_6.py:170 | `max()` is a value of the column and no value is larger |
| `Calendar.NamesAreDistinct` | bikeshare_6.py:90-91 | different months (and different weekdays) get different `strftime` names |
| `Statistics.TimeStats` | bikeshare_6.py:86-101 | there is no report exactly for a frame without rows; otherwise the month name, weekday name and hour are each a most common value of their column |
| `Statistics.MonthNameCount` | bikeshare_6.py:90-93 | the number of times a month's name occurs in the name column is the number of rows in that month |
| `Statistics.MostCommonNameIsMostCommonMonth` | bikeshare_6.py:90-93 | a most common name in the name column is the name of a month with trips, and no month has more trips |
| `Statistics.PopularMonthNameIsPopularMonth` | bikeshare_6.py:90-94 | the month name `time_stats` reports is the name of a month with trips, and no month has more trips |
| `Statistics.DayNameCount` | bikeshare_6.py:91-96 | the number of times a weekday's name occurs in the name column is the number of rows on that weekday |
| `Statistics.StationStats` | bikeshare_6.py:107-124 | there is no report exactly for a frame without rows; otherwise the start station, end station and `start + " - " + end` trip are each a most common value of their column |
| `Statistics.TripColumn` | bikeshare_6.py:122-123 | the `Trip` column has one cell per row, every cell is `start - end` of some row, and the key of a start and end station occurs at least as often as the rows with that pair (more when two different pairs join into the same text) |
| `Statistics.PopularTripIsARow` | bikeshare_6.py:122-123 | the most common trip is `start - end` of some row of the frame |
| `Statistics.TotalDuration` | bikeshare_6.py:136 | the total is at least every single trip's duration |
| `Statistics.TotalDurationAppend` | bikeshare_6.py:136 | the total of two row lists joined is the sum of their totals |
| `Statistics.TotalDurationOfSubsequence` | bikeshare_6.py:136 | a subsequence of the rows, such as a filtered frame, never has a larger total |
| `Statistics.DurationStats` | bikeshare_6.py:130-141 | there is no report exactly for a frame without rows; otherwise the report is the total duration with the number of trips (the mean's divisor), and the total bounds every trip |
| `Statistics.BirthYearStats` | bikeshare_6.py:166-174 | there is no report exactly when no birth year is present; otherwise the earliest and most recent years occur and bound every year, the most common year is a mode, and earliest <= most common <= most recent |
| `Statistics.UserStats` | bikeshare_6.py:147-176 | there is no report exactly when the frame has no rows or has a birth-year column with no present value; otherwise the user-type counts are the value counts of the column; gender counts exist exactly when the city has that column and are the value counts of the present genders; birth-year figures exist exactly when the city has that column |
| `Statistics.CountsCoverRows` | bikeshare_6.py:153-161 | whenever there is a user report, user-type counts sum to the number of rows; gender counts sum to the number of rows whose gender is not missing |
| `Calendar.MonthName` | bikeshare_6.py:90 | no other month has the name `strftime('%B')` gives a month, and for January to June lower-casing that name gives the month selector |
| `Calendar.DayName` | bikeshare_6.py:91 | `strftime('%A')` gives a weekday the name at its own position and of no other, and lower-casing that name gives the weekday selector |
| `Calendar.Lower` | bikeshare_6.py:21 | `str.lower` keeps the length, leaves no upper-case ASCII letter, changes only upper-case letters, and maps each of those to its lower-case letter |
| `Viewer.Slice` | bikeshare_6.py:196 | `df.iloc[lo:hi]` has `max(0, min(hi, n) - lo)` rows, so it is empty from the end on, and holds rows `lo, lo+1, ...` in order |
| `Viewer.LeadingYes` | bikeshare_6.py:192-199 | the loop runs once for each answer up to the first one that, lower-cased, is not `"yes"`: all counted answers are "yes" and the next one, if any, is not |
| `Viewer.Window` | bikeshare_6.py:196 | `df.iloc[5k:5k+5]` has length `min(5, max(0, n - 5k))` and holds rows `5k, 5k+1, ...` in order, so past the end it is empty |
| `Viewer.WindowsTile` | bikeshare_6.py:194-198 | the first k windows followed by window k are the first `min(5(k+1), n)` rows: windows are consecutive and disjoint |
| `Viewer.SevenRowsExample` | bikeshare_6.py:194-198 | seven rows are shown as five, then two, then an empty window on every later request |
| `Viewer.Pager.constructor` | bikeshare_6.py:190-191 | paging starts with `start = 0`, `end = 5` and nothing shown |
| `Viewer.Pager.NextWindow` | bikeshare_6.py:196-198 | one "yes" shows `rows[start:end]`, which is window number `shown`, then moves both bounds on by 5, keeping `end - start = 5` |
| `Viewer.DisplayData` | bikeshare_6.py:182-201 | the number of windows shown is the number of leading "yes" answers (in any case); the k-th shown is window k, and together they are the first `min(5 * shown, n)` rows in order |

## Left out

- Console interaction (`input`, `print`), the retry loops of `get_filters` (bikeshare_6.py:19-41) and the restart loop of `main` (bikeshare_6.py:203-219) are left out. Only the membership tests the prompts apply are modelled (`IsCityChoice`, `IsMonthChoice`, `IsDayChoice`).
- `pd.read_csv` and `pd.to_datetime` (bikeshare_6.py:65-67) are file I/O and timestamp parsing. Records arrive with month, weekday and hour already split out, and reading is the `read` parameter.
- A source row whose timestamp fails to parse makes `pd.to_datetime` raise. The program has no skip-bad-row policy, and neither does the model.
- `strftime('%B')` and `strftime('%A')` are modelled as fixed English name tables.
- Timing with `time.time()` and all printed output are left out, including what a statistics group prints before it raises.
- The mean trip duration (bikeshare_6.py:140) is floating point. `DurationStats` reports the total and the trip count instead.
- The `int(...)` casts of pandas' float birth years are left out. Birth years are integers throughout.
- Aggregates.Mode: ties are broken by first occurrence in the column. pandas returns the least tied value, so for a tied column the model may name a different value. Both choices have the highest count.
- Aggregates.ValueCounts: among values with equal counts, the order follows the construction (each line holds the value `Mode` picks among the values not yet listed); no separate tie-order lemma is stated. pandas does not document its order for equal counts.
- Calendar.Lower: lower-cases ASCII letters only. Python's `str.lower` on other characters is not modelled.
- TimeWindow.LoadData: requires the month and weekday to be lower-case list entries or `'all'`. `months.index` and `days.index` raise otherwise, and the program only ever passes the lower-cased output of `get_filters`.
- A `Frame` without rows always stands for the column-less frame returned at bikeshare_6.py:81. A frame that has columns but zero rows is never produced by `load_data` and is not modelled separately.
- `main` passing `None` to the statistics when the city is unknown (bikeshare_6.py:206-208) cannot happen after `get_filters`, and is not modelled.
- The rule that a city without a `Gender` or `Birth Year` column has no such cell in any row is not enforced on `Frame`. The statistics read those cells only when the flag says the column exists.
- Viewer.DisplayData: when the list of answers runs out, paging stops. The real `input` would wait or raise at end of input.
