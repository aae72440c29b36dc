# Bike-share trip analysis, modelled in Dafny

A model of the analysis core of `bikesharedata/bikeshare.py`: a console tool
that loads the trips of one city (Chicago, New York City or Washington),
keeps the trips of a chosen month and weekday, reports the busiest travel
times, the busiest stations, the trip durations and the rider demographics,
and then pages through the raw rows five at a time.

Each trip is a `Trips.Trip` value whose month, weekday and start hour are
given fields rather than values parsed from a timestamp. The tool works on
pandas DataFrames; the model works on a `seq<Trip>` in file order.

- `Validation` holds the input checks of `get_city`, `get_month` and `get_day`:
  strip, lower-case, then test membership in a fixed set of names.
- `Filter` holds the month/weekday selection of `load_data`.
- `Frequency` and `Stats` hold the four report functions. Wherever pandas
  raises on the data, the report is `None`.
- `Pager` holds `raw_data` as a class with a cursor field. `Browse` runs the
  paging loop over a given list of answers.

Python's `str.strip`, `str.lower` and `str.title` are in `Text`. `strip` uses
the full white-space set of `str.isspace`. `lower` maps A–Z and U+212A KELVIN
SIGN, the only characters whose lower-case form is ASCII. `title` handles
ASCII letters.

Error cases follow the code:
- A month outside January–June makes `months.index` raise `ValueError`;
  `ApplyFilters` returns `Failure(UnknownMonth)`. An unknown day likewise gives
  `Failure(UnknownDay)`.
- An empty selection makes `time_stats` and `station_stats` raise; the model
  returns `None`. `trip_duration_stats` gives a total of 0 and a NaN mean;
  the model keeps the total 0 and returns the NaN mean as `None`.
- For a city other than Washington, when no trip has a birth year,
  `user_stats` raises at `int(birth_years.min())`; `UserStats` returns `None`.
- The pager's cursor starts at 1, so row 0 is never shown. Its first window
  is rows 1–5 counted from 0.

## Model

| member | source | states |
|---|---|---|
| `Text.StripLeft` | bikesharedata/bikeshare.py:20 | the result is a suffix of the input, does not start with white space, and everything cut off is white space |
| `Text.StripRight` | bikesharedata/bikeshare.py:20 | the result is a prefix of the input, does not end with white space, and everything cut off is white space |
| `Text.Strip` | bikesharedata/bikeshare.py:20 | `strip()` is no longer than its input and has no white space at either end |
| `Text.StripPadded` | bikesharedata/bikeshare.py:20 | stripping white space padding off a string with non-space ends gives back exactly that string |
| `Text.TitleAfter` | bikesharedata/bikeshare.py:220 | `title()` of a string's rest keeps the length; each non-letter is kept, a letter after a letter is lowered and any other letter is raised |
| `Text.Title` | bikesharedata/bikeshare.py:220 | `city.title()` keeps the length; at each position a non-letter is kept, a letter after a letter is lowered and any other letter is raised |
| `Text.TitleOfWord` | bikesharedata/bikeshare.py:220 | a word of letters in any case is title-cased to its lower-case form with the first letter raised |
| `Text.Lower` | bikesharedata/bikeshare.py:20 | `lower()` keeps the length, leaves no capital A–Z or KELVIN SIGN, replaces each of those by its small letter and keeps every other character |
| `Text.LowerKeepsSpace` | bikesharedata/bikeshare.py:20 | lower-casing keeps white space where it was, and lower-casing twice is lower-casing once |
| `Validation.Choose` | bikesharedata/bikeshare.py:18-22 | the input is accepted exactly when its stripped, lower-cased form is one of the names, and the value returned is that normalised form |
| `Validation.Normalize` | bikesharedata/bikeshare.py:20 | `input.strip().lower()` is no longer than the input, has no white space at either end and no capital A–Z |
| `Validation.ValidCity` | bikesharedata/bikeshare.py:18-22 | accepted iff `input.strip().lower()` is "new york city", "chicago" or "washington"; the value returned is that normalised name |
| `Validation.ValidMonth` | bikesharedata/bikeshare.py:33-36 | accepted iff the normalised input is january–june or "all"; returns the normalised name |
| `Validation.ValidDay` | bikesharedata/bikeshare.py:47-50 | accepted iff the normalised input is monday–sunday or "all"; returns the normalised name |
| `Validation.LetterEndsTrimmed` | bikesharedata/bikeshare.py:21 | names that start and end with a letter have no white space at their ends |
| `Validation.CitiesTrimmed` | bikesharedata/bikeshare.py:21 | no city name starts or ends with white space |
| `Validation.MonthChoicesTrimmed` | bikesharedata/bikeshare.py:35 | no month choice starts or ends with white space |
| `Validation.DayChoicesTrimmed` | bikesharedata/bikeshare.py:49 | no day choice starts or ends with white space |
| `Validation.NormalizeIdempotent` | bikesharedata/bikeshare.py:20 | `strip().lower()` applied twice is the same as applied once |
| `Validation.AcceptedIsFixedPoint` | bikesharedata/bikeshare.py:19-22 | an accepted value is accepted again as itself |
| `Validation.AcceptsPaddedAnyCase` | bikesharedata/bikeshare.py:19-22 | a name typed in any case, with any white space around it, is accepted as that name |
| `Validation.CityAcceptsPaddedAnyCase` | bikesharedata/bikeshare.py:19-22 | a city name typed in any case, with any white space around it, is accepted as that name |
| `Validation.MonthAcceptsPaddedAnyCase` | bikesharedata/bikeshare.py:33-36 | a month choice typed in any case, with any white space around it, is accepted as that name |
| `Validation.DayAcceptsPaddedAnyCase` | bikesharedata/bikeshare.py:47-50 | a day choice typed in any case, with any white space around it, is accepted as that name |
| `Trips.Where` | bikesharedata/bikeshare.py:98 | a boolean mask keeps an order-preserving subsequence of the records, and keeps each matching record as often as it occurred and no non-matching one |
| `Trips.WhereMembers` | bikesharedata/bikeshare.py:98 | a record is in the selection iff it was in the input and the mask holds for it |
| `Trips.WhereAll` | bikesharedata/bikeshare.py:94-105 | a mask that holds for every record changes nothing |
| `Trips.WhereWhere` | bikesharedata/bikeshare.py:98-105 | two masks applied one after the other are one mask of the conjunction |
| `Trips.ColumnMember` | bikesharedata/bikeshare.py:164 | every value of a column is the field of some record |
| `Filter.IndexOf` | bikesharedata/bikeshare.py:96 | `list.index` finds the first position of the name, and fails exactly when the name is absent |
| `Filter.MonthIndex` | bikesharedata/bikeshare.py:95-96 | a lower-cased month name january–june maps to 1–6; any other name has no index |
| `Filter.DayIndex` | bikesharedata/bikeshare.py:102-103 | a lower-cased day name monday–sunday maps to 0–6; any other name has no index |
| `Filter.ApplyFilters` | bikesharedata/bikeshare.py:93-107 | fails with the month error iff the month is not "all" and unknown; fails with the day error iff the month passes and the day is not "all" and unknown; "all"/"all" returns the input unchanged |
| `Filter.FilterIsConjunction` | bikesharedata/bikeshare.py:94-105 | the month mask followed by the weekday mask is a single selection by (month is "all" or matches) and (day is "all" or matches) |
| `Filter.FilterKeepsOrder` | bikesharedata/bikeshare.py:94-107 | the result is an order-preserving subsequence of the input; a record is in it iff it meets both constraints; a matching record keeps all its occurrences |
| `Filter.ValidatedChoicesNeverFail` | bikesharedata/bikeshare.py:33-105 | every month and day that the input checks accept is known to the filter, so `load_data` never raises on them |
| `Frequency.Count` | bikesharedata/bikeshare.py:212-213 | summing an equality mask gives the multiplicity of the label in the column |
| `Frequency.SmallestModeAmong` | bikesharedata/bikeshare.py:138 | the chosen candidate has the highest count, and is the smallest candidate with that count |
| `Frequency.SmallestMode` | bikesharedata/bikeshare.py:138 | `mode()[0]` is a most frequent value and the smallest of the tied ones; it fails exactly on an empty column |
| `Frequency.MostCommonAmong` | bikesharedata/bikeshare.py:164 | the chosen candidate has a count no other candidate exceeds |
| `Frequency.MostCommon` | bikesharedata/bikeshare.py:164 | `value_counts().idxmax()` is a value of the column that no other value outnumbers; it fails exactly on an empty column |
| `Frequency.Min` | bikesharedata/bikeshare.py:232 | `min()` is a value of the column and no value is smaller |
| `Frequency.Max` | bikesharedata/bikeshare.py:231 | `max()` is a value of the column and no value is larger |
| `Frequency.TwoLabelCounts` | bikesharedata/bikeshare.py:212-213 | the counts of two distinct labels add up to at most the column length, with equality iff no other label occurs |
| `Stats.TimeStats` | bikesharedata/bikeshare.py:137-147 | the most common month, weekday and start hour are each a value of highest frequency, the smallest of any tie; an empty selection raises |
| `Stats.TimeReportInRange` | bikesharedata/bikeshare.py:141-143 | the reported month, weekday and hour are in range, so the weekday-name lookup cannot fail |
| `Stats.FilteredTimeIsReported` | bikesharedata/bikeshare.py:98 | after a month (weekday) filter, a non-empty result reports the month (weekday) that was asked for |
| `Stats.StationStats` | bikesharedata/bikeshare.py:162-176 | the most common start station, end station and combination label are each a mode of their own column; the combination is a mode of the joint label, not two separate modes; an empty selection raises |
| `Stats.JointKey` | bikesharedata/bikeshare.py:173 | the combination label is the start station, " (start) and ", the end station and " (end).", in that order, 20 characters longer than the two names |
| `Stats.JointKeyInjective` | bikesharedata/bikeshare.py:173 | when the start stations contain no '(', equal combination labels mean equal start and end stations |
| `Stats.JointKeyCollision` | bikesharedata/bikeshare.py:173 | without that condition, two different (start, end) pairs can get the same label |
| `Stats.LabelCountIsPairCount` | bikesharedata/bikeshare.py:173-176 | with no '(' in start stations, counting a combination label counts the trips with that start and end station |
| `Stats.CommonTripIsModalPair` | bikesharedata/bikeshare.py:173-176 | with no '(' in start stations, the reported combination is the label of a most frequent (start, end) pair of some trip |
| `Stats.DurationStats` | bikesharedata/bikeshare.py:189-195 | total hours × 3600 is the summed duration; the mean exists iff the selection is non-empty, and mean × count is the total |
| `Stats.TotalAtLeast` | bikesharedata/bikeshare.py:190 | when every trip lasts at least `lo`, the summed duration is at least `lo` × count |
| `Stats.TotalAtMost` | bikesharedata/bikeshare.py:190 | when every trip lasts at most `hi`, the summed duration is at most `hi` × count |
| `Stats.MeanBetweenExtremes` | bikesharedata/bikeshare.py:194-195 | the mean in hours lies between the shortest and the longest trip in hours |
| `Stats.TotalSplits` | bikesharedata/bikeshare.py:190 | the total of a selection and of its complement add up to the total of all trips |
| `Stats.CountUserTypes` | bikesharedata/bikeshare.py:209-213 | the counts are the multiplicities of exactly "Subscriber" and "Customer"; their sum is at most the trip count, with equality iff no other label occurs |
| `Stats.CountGenders` | bikesharedata/bikeshare.py:219-223 | the counts are the multiplicities of exactly "Male" and "Female"; a missing value is in neither; their sum is at most the trip count, with equality iff every trip has one of the two |
| `Stats.PresentYears` | bikesharedata/bikeshare.py:230 | dropping missing years leaves at most one year per trip |
| `Stats.PresentYearsCounts` | bikesharedata/bikeshare.py:230 | `dropna()` keeps each present year as often as trips carry it, and is empty iff no trip has a year |
| `Stats.PresentYearsAppend` | bikesharedata/bikeshare.py:230 | `dropna()` of two concatenated tables is the concatenation of the two results |
| `Stats.BirthYearStats` | bikesharedata/bikeshare.py:229-239 | earliest and latest are the minimum and maximum of the present years, the most common is a mode of them, and earliest ≤ most common ≤ latest; with no present year it raises |
| `Stats.MissingBirthYearIgnored` | bikesharedata/bikeshare.py:230 | inserting a trip without a birth year anywhere leaves the birth-year report unchanged |
| `Stats.HasDemographics` | bikesharedata/bikeshare.py:220 | `city.title() != 'Washington'` holds exactly when the city does not lower-case to "washington" |
| `Stats.WashingtonInAnyCase` | bikesharedata/bikeshare.py:220 | `title()` gives "Washington" exactly for the spellings of washington in any mix of cases |
| `Stats.DemographicsForCatalogCities` | bikesharedata/bikeshare.py:220 | for the three catalogue cities, gender and birth-year figures are produced for every city but Washington |
| `Stats.UserStats` | bikesharedata/bikeshare.py:203-243 | user-type counts always; gender counts and birth years exactly when `city.title()` is not "Washington"; raises exactly when those are due and no trip has a year |
| `Pager.Window` | bikesharedata/bikeshare.py:266 | `df[i:i+5]` has at most 5 rows, all 5 when the data reaches that far, all remaining rows when fewer are left, none past the end, and its k-th row is row i+k |
| `Pager.PagesAreConsecutive` | bikesharedata/bikeshare.py:259-267 | the first k windows together are exactly rows 1 to 1+5k of the data, with no gap or overlap |
| `Pager.AllRowsButFirstShown` | bikesharedata/bikeshare.py:259-267 | once the cursor has passed the end, every row except row 0 has been shown |
| `Pager.LeadingYes` | bikesharedata/bikeshare.py:260-270 | counts the answers, from the first, that lower-case to "yes"; the next answer, if any, is something else |
| `Pager.RawRowPager.constructor` | bikesharedata/bikeshare.py:259 | the cursor starts at 1 and no window has been shown |
| `Pager.RawRowPager.Next` | bikesharedata/bikeshare.py:261-270 | on "yes" in any case, returns the window at the cursor and moves the cursor on by 5; on any other answer, stops and leaves the cursor alone |
| `Pager.Browse` | bikesharedata/bikeshare.py:256-270 | a session shows exactly one window per leading "yes", the k-th at row 1+5k; together these windows are rows 1 to 1+5k of the data |

## Left out

- Reading the city's CSV file (`pd.read_csv`, the `CITY_DATA` lookup) is file I/O. The model starts from the loaded records.
- Timestamp parsing with `pd.to_datetime` and the `.dt.month`, `.dt.weekday` and `.dt.hour` extraction belong to a foreign library. They are record fields, and `Trips.WellFormed` states their ranges.
- Console interaction is left out: `input`, `print`, the retry loops of `get_city`/`get_month`/`get_day`, `get_filters`, the restart loop of `main` and the `time.time()` timings. `Browse` takes the user's answers as a sequence. When the answers run out the session ends; Python would raise `EOFError` there.
- The first `raw_data` (lines 248-254) is not modelled. The second definition replaces it.
- The DataFrame columns added for display (`Start Hour`, `Station Combination`) are not modelled as table mutations. The combination label is the function `Stats.JointKey`.
- Turning month and weekday numbers into names for printing (`months_map`, `weekdays_map`) is display formatting. `Stats.TimeReportInRange` shows that the weekday lookup cannot fail.
- Floating point is not modelled. Durations are exact `real`s and birth years are `int`s. NaN for a missing value becomes `None`, and so does the NaN mean of an empty selection.
- `Text.Lower` covers A–Z and KELVIN SIGN, the only characters whose lower-case form is ASCII. `Text.Title` covers ASCII letters only and treats every other character, KELVIN SIGN included, as a non-letter. Neither difference changes a membership test or the Washington test.
- `Frequency.MostCommon`: states only that the value is a most frequent one. Which of several tied values pandas' `value_counts().idxmax()` returns depends on the order pandas sorts equal counts in, which the model does not reproduce. The function itself takes the first tied value in record order.
