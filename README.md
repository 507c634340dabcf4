# AirKorea city dashboard: the data pipeline, modelled in Dafny

The dashboard asks the AirKorea public API for the monitoring stations of four
provinces (서울, 인천, 대전, 부산), fetches each station's recent readings of one
pollutant, averages the stations of a province hour by hour over a trailing
window, and stacks the four city series into one table that it charts. Below the
chart it shows, for the latest hour, one row per city with the PM2.5 grade and a
colour.

This project models that pipeline as it is written in `airkorea_streamlit.py`:

- `Stations` — `list_stations`: the distinct `stationName`s of the directory
  response, sorted in Python's code-point string order (`Ordering.StringLess`),
  and the `stations[:max_stations]` sample.
- `StationSeries` — `station_recent_hours`: items become `(datetime, value,
  station)` rows; a row whose timestamp or value does not parse is dropped; an
  empty item list gives an empty table without column types; a non-empty list where no item has the
  timestamp field or the pollutant field raises, as selecting a missing pandas
  column does.
- `CityAggregate` — `city_hourly_series`: a loop over the sampled stations that
  skips a station whose call raises (`CityHourlySeries`), then the window
  `datetime >= tmax - n_hours` and `groupby("datetime").mean()` (`HourlySeries`).
- `MultiCity` — `SIDO_MAP` and `load_all_cities`: a loop over the four provinces
  in order that appends each city's table, then `pd.concat`.
- `Dashboard` — the city filter `ts["city"].isin(selected)`, the latest-hour
  snapshot and the per-city group of the summary.
- `Grading` — `pm25_grade` and `pm25_color`.
- `Ordering`, `Records` — string and time order, `sorted(set(...))`, the row
  types, and `pd.concat`.

The two HTTP endpoints are inputs. The directory response of a province and the
response for a station are given as total functions from a name to an
`Outcome<seq<Item>>`. `Failed` stands for a request that raised. `Item` is a JSON
record, with each field's text or `None` for null. The timestamp and number
parsers (`pd.to_datetime` and `pd.to_numeric` with `errors="coerce"`) are a
`Parsers` value of functions returning `Option`. Timestamps are whole hours since
an epoch. Values are `real`, so means are exact. A call that raises is
`Outcome.Failed`.

Failures propagate as the code places its `try`. `list_stations` is called outside
the `try` (`airkorea_streamlit.py:65`), so a failed directory request leaves
`city_hourly_series` and `load_all_cities`, and the whole load raises
(`MultiCity.DirectoryFailureFailsLoad`). A failed station request is caught at
lines 69-72 and that station is skipped (`CityAggregate.FailedStationSkipped`).

A station whose response holds no items gives a table built from the column names
alone (line 49), whose columns carry no timestamp type (`StationSeries.Frame`,
`Untyped`). When every collected table is empty and one of them is such a table,
`tmax` at line 79 is NaN rather than NaT, and line 80 raises. The model keeps this
behaviour (`CityAggregate.CityHourlySeriesSpec`, `CityAggregate.CityHourlySeries`,
`MultiCity.LoadAllSpec`), and also gives the evidently intended definition, see
"## Findings".

## Model

| member | source | states |
|---|---|---|
| `Ordering.SortedSet` | airkorea_streamlit.py:27 | `sorted(set(xs))`: the result is strictly increasing and holds exactly the elements of `xs`, never more entries than `xs` |
| `Ordering.Insert` | airkorea_streamlit.py:27 | inserting into a sorted repetition-free list keeps it sorted and repetition-free, adds exactly `x`, and grows it by one exactly when `x` was absent |
| `Ordering.IncreasingUnique` | airkorea_streamlit.py:27 | two strictly increasing sequences with the same elements are equal, so the sorted directory is determined by its set of names |
| `Ordering.StringOrder` | airkorea_streamlit.py:27 | Python's string comparison, modelled as code-point lexicographic order with a prefix first, is a strict total order |
| `Stations.Names` | airkorea_streamlit.py:26-27 | the names gathered hold exactly the `stationName`s the items carry, at most one per item |
| `Stations.ListStations` | airkorea_streamlit.py:24-27 | the directory is `Failed` exactly when the request failed or an item lacks a name; otherwise it is strictly increasing and a name is in it exactly when some item carries it |
| `Stations.ListStationsCanonical` | airkorea_streamlit.py:27 | any sorted, repetition-free list of exactly the item names is what `ListStations` returns |
| `Stations.Sample` | airkorea_streamlit.py:68 | `stations[:max_stations]` is a prefix of length `min(max_stations, len(stations))` |
| `Stations.SampleIsAlphabeticallyFirst` | airkorea_streamlit.py:27-68 | because the directory is sorted, every sampled station sorts before every station left out |
| `StationSeries.ParseRow` | airkorea_streamlit.py:52-57 | an item yields row `r` exactly when its `dataTime` and `<pollutant>Value` fields are present and parse to `r.time` and `r.value`, with `r.station` the station |
| `StationSeries.CleanRows` | airkorea_streamlit.py:51-58 | no more rows than items; every row carries the station; a row is present exactly when some item parses to it |
| `StationSeries.CleanRowsAppend` | airkorea_streamlit.py:51-58 | cleaning keeps item order: the rows of `a + b` are the rows of `a` followed by those of `b` |
| `StationSeries.CleanRowsKeepsParsed` | airkorea_streamlit.py:54-57 | when every item parses, there is one row per item, in place, each the parse of its item |
| `StationSeries.StationRecentHours` | airkorea_streamlit.py:44-58 | a failed request raises; no items give the untyped empty table; otherwise it raises exactly when the timestamp or pollutant column is missing altogether, and else returns exactly `CleanRows` of the items (every item that parses gives its row, in item order); at most one row per item, each the parse of some item |
| `CityAggregate.CollectFrames` | airkorea_streamlit.py:66-72 | at most one frame per station, and every row of every frame comes from one of the stations consulted |
| `CityAggregate.CollectFramesOne` | airkorea_streamlit.py:68-72 | a station whose call returns adds exactly its frame, one whose call raises adds nothing; with `CollectFramesAppend` this fixes the frames of any station list |
| `CityAggregate.CollectFramesAppend` | airkorea_streamlit.py:68-72 | stations are processed independently and in order: frames of `a + b` are those of `a` then those of `b` |
| `CityAggregate.FailedStationSkipped` | airkorea_streamlit.py:69-72 | a station whose call raises contributes nothing and does not stop the stations after it |
| `CityAggregate.AllFailedCollectsNothing` | airkorea_streamlit.py:68-74 | when every consulted station's call raises, no frame is collected |
| `CityAggregate.OnlyListedStationsConsulted` | airkorea_streamlit.py:68-70 | the frames depend only on the responses for the stations in the list |
| `CityAggregate.MaxTime` | airkorea_streamlit.py:79 | `tmax` is a timestamp of some row and no row is later |
| `CityAggregate.Window` | airkorea_streamlit.py:80-81 | a row is kept exactly when it is in the table and its timestamp is at or after the cutoff |
| `CityAggregate.WindowAppend` | airkorea_streamlit.py:81 | the window is applied row by row, keeping order and repeated rows: the window of `a + b` is the window of `a` followed by that of `b` |
| `CityAggregate.WindowOne` | airkorea_streamlit.py:81 | a single row is kept exactly when its timestamp is at or after the cutoff; with `WindowAppend` this fixes the window completely |
| `CityAggregate.ValuesAt` | airkorea_streamlit.py:83 | the group of a timestamp holds exactly the values of the rows at it, and is non-empty exactly when some row has that timestamp |
| `CityAggregate.ValuesAtAppend` | airkorea_streamlit.py:83 | a group is built row by row, keeping order and repeated values: the group of `a + b` is the group of `a` followed by that of `b` |
| `CityAggregate.ValuesAtOne` | airkorea_streamlit.py:83 | a single row adds its value to its own timestamp's group and to no other; with `ValuesAtAppend` this fixes each group, with multiplicities, so the mean counts every reading |
| `CityAggregate.MeanBounds` | airkorea_streamlit.py:83 | a mean lies between any lower and upper bound of the values it averages |
| `CityAggregate.DistinctTimes` | airkorea_streamlit.py:83 | the group keys are strictly increasing and are exactly the timestamps present |
| `CityAggregate.GroupMean` | airkorea_streamlit.py:83-84 | timestamps strictly increasing (so one row per timestamp), each a timestamp present in the rows, each value the arithmetic mean of that timestamp's values, every row labelled with the city |
| `CityAggregate.GroupMeanCoversTimes` | airkorea_streamlit.py:83 | a timestamp has a row in the grouped table exactly when some reading has it |
| `CityAggregate.HourlySeries` | airkorea_streamlit.py:79-84 | an empty table with a typed timestamp column (latest timestamp NaT) gives an empty series; every row carries the city; timestamps strictly increase |
| `CityAggregate.HourlySeriesWindow` | airkorea_streamlit.py:79-83 | every output timestamp lies in `[tmax - n_hours, tmax]`, both ends included; a timestamp is output exactly when some row has it inside that range; a non-negative window always keeps the latest hour |
| `CityAggregate.HourlySeriesMeans` | airkorea_streamlit.py:79-83 | each hourly value is the arithmetic mean of the windowed readings at that hour, and that hour has at least one such reading |
| `CityAggregate.HourlyMeanWithinReadings` | airkorea_streamlit.py:83 | each hourly value lies between any lower and upper bound of the readings at that hour |
| `CityAggregate.CityHourlySeriesSpec` | airkorea_streamlit.py:63-85 | as written: a failed directory lookup raises; otherwise the call raises exactly when the collected frames are all empty and one of them is untyped; a result has every row labelled with the city and timestamps strictly increasing |
| `CityAggregate.CityHourlySeriesIntended` | airkorea_streamlit.py:63-85 | as intended: the call raises exactly when the directory lookup fails; a result has every row labelled with the city and timestamps strictly increasing |
| `CityAggregate.AsWrittenAgreesWithIntended` | airkorea_streamlit.py:74-80 | whenever the code as written returns a table it is the intended one; where it raises and the intended call does not, the intended table is empty |
| `CityAggregate.EmptyStationResponseRaises` | airkorea_streamlit.py:48-49 | one station whose response holds no items: the code as written raises, the intended result is the empty table |
| `CityAggregate.AllStationsFailedGivesEmpty` | airkorea_streamlit.py:68-75 | if every sampled station's call raises, the city gets an empty table, not an error |
| `CityAggregate.CollectStationFrames` | airkorea_streamlit.py:66-72 | the loop over the stations that appends each returned frame and skips a station that raises computes exactly `CollectFrames` |
| `CityAggregate.CityHourlySeries` | airkorea_streamlit.py:63-85 | listing, sampling, collecting, the early empty return, the raise on an all-empty untyped collection, and the hourly means compute exactly `CityHourlySeriesSpec` |
| `MultiCity.Gather` | airkorea_streamlit.py:90-92 | the run succeeds exactly when every call succeeds, and then holds each call's table in order |
| `MultiCity.LoadAllSpec` | airkorea_streamlit.py:89-93 | loading raises exactly when the aggregator raises for some province of `SIDO_MAP` |
| `MultiCity.DirectoryFailureFailsLoad` | airkorea_streamlit.py:65-93 | a failed directory request for any one province makes the whole load raise |
| `MultiCity.LoadAllCities` | airkorea_streamlit.py:89-93 | the loop over `SIDO_MAP` that appends each city's table computes exactly `LoadAllSpec` |
| `MultiCity.DistinctLabels` | airkorea_streamlit.py:87 | the four city labels are distinct |
| `MultiCity.LabelledTables` | airkorea_streamlit.py:84-92 | every row of a city's table carries that city's label |
| `MultiCity.LoadAllIsConcatenation` | airkorea_streamlit.py:87-93 | a successful load is Seoul's, Incheon's, Daejeon's and Busan's tables end to end, and its length is the sum of theirs |
| `Dashboard.Where` | airkorea_streamlit.py:122 | a boolean mask keeps no more rows than the table has, and keeps a row exactly when it is in the table and passes the mask |
| `Dashboard.WhereAppend` | airkorea_streamlit.py:122 | masking keeps row order: masking `a + b` gives the masked `a` followed by the masked `b` |
| `Dashboard.WhereAll` | airkorea_streamlit.py:122 | a mask that every row passes returns the table unchanged, in order |
| `Dashboard.WhereNone` | airkorea_streamlit.py:122 | a mask that no row passes returns an empty table |
| `Dashboard.SelectCities` | airkorea_streamlit.py:122 | a row is selected exactly when it is in the table and its city is selected |
| `Dashboard.SelectingOneCity` | airkorea_streamlit.py:87-122 | selecting one city from the combined table gives back exactly that city's own table |
| `Dashboard.WhereKeepsOneRowPerCityHour` | airkorea_streamlit.py:122-175 | filtering a table with one row per city and hour keeps that property |
| `Dashboard.LoadAllOneRowPerCityHour` | airkorea_streamlit.py:83-93 | the combined table has at most one row per city and hour |
| `Dashboard.LatestTime` | airkorea_streamlit.py:174 | `latest_t` is a timestamp of some row and no row is later |
| `Dashboard.LatestSnapshot` | airkorea_streamlit.py:174-175 | the snapshot holds exactly the rows at the latest timestamp, and is empty exactly when the table is |
| `Dashboard.SnapshotOneRowPerCity` | airkorea_streamlit.py:175 | with one row per city and hour, the snapshot has at most one row per city |
| `Dashboard.DashboardSnapshotOneRowPerCity` | airkorea_streamlit.py:116-176 | the snapshot of the selected cities of a successful load has at most one row per city |
| `Dashboard.CityValues` | airkorea_streamlit.py:176 | a city's summary group holds exactly the values of that city's rows, and is empty exactly when the city has no row |
| `Dashboard.SummaryIsTheCityRow` | airkorea_streamlit.py:176 | when no city has two rows, a city's group is its single value, so the summary mean is that row's value |
| `Grading.Pm25Grade` | airkorea_streamlit.py:179-183 | "좋음" exactly for `v <= 15`, "보통" for `15 < v <= 35`, "나쁨" for `35 < v <= 75`, "매우나쁨" above 75 |
| `Grading.GradeMonotone` | airkorea_streamlit.py:179-183 | a higher level never gets a milder grade |
| `Grading.Pm25Color` | airkorea_streamlit.py:186-192 | each of the four grades gets its listed colour, and any other string gets "gray" |
| `Grading.ColorsDistinguishGrades` | airkorea_streamlit.py:186-195 | no graded level is shown gray, and levels of different grades get different colours |
| `Records.Concat` | airkorea_streamlit.py:77 | the concatenation's length is the sum of the table lengths, and a row is in it exactly when it is in one of the tables |
| `Records.ConcatSnoc` | airkorea_streamlit.py:77 | one more table is stacked after the rows so far, in order and with its repeated rows, which fixes the concatenation completely |
| `Records.ConcatAppend` | airkorea_streamlit.py:77-93 | concatenation distributes over appending lists of tables |

## Left out

- HTTP requests, URLs, query parameters (service key, `numOfRows` 100, `pageNo` 1, `dataTerm` "MONTH", `ver`), timeouts, `raise_for_status`, JSON decoding and `st.secrets`: network I/O. Each response is an input, with a failure as `Outcome.Failed`. Only the first page of 100 items is ever seen, and that is whatever the input holds.
- The bare `except: pass` as an exception mechanism: a station whose call raises is `Failed` and is skipped.
- Real date and number parsing: the parsers are parameters, applied item by item. `pd.to_datetime` infers one format for the whole column, so in the source whether one item's timestamp parses can depend on the other items; the model does not capture that. Timestamps are whole hours, as the API reports them. A parsed value is a finite real, so pandas' `inf` from texts like "inf" is not represented.
- Floating-point arithmetic: means are exact over `real`.
- `StationSeries.StationRecentHours`: items are assumed to have no field already named `datetime` or the bare pollutant key. A rename that would collide with such a field, giving duplicate columns, is not modelled.
- `Stations.ListStations`: a `stationName` holding JSON null counts as a missing name, so the call fails. In the source it fails only when the null has to be sorted against another name.
- `Stations.Sample`: `max_stations` is a natural number; Python's negative slice bounds are not modelled. The loader always passes the default 6.
- The Streamlit UI (page set-up, sliders, multiselect, refresh button and rerun, spinner, error/stop on an empty table, styled dataframe) and the Plotly chart with its mean line and min/max markers: presentation code over external libraries.
- The summary's standard deviation, `round(2)`, `:.1f` formatting and the order of the summary rows. Of the summary, only the per-city group and its mean are modelled (`Dashboard.CityValues`, `Dashboard.SummaryIsTheCityRow`). The max of a one-value group is that same value.
- The summary's `grade` and `color` columns (lines 194-195): only `Grading.Pm25Grade` and `Grading.Pm25Color` themselves are modelled, not their application to the summary means. The source applies the PM2.5 thresholds whatever pollutant is selected.

## Findings

| source | as written | input that shows it | evidently intended | confidence | as-written member | corrected member |
|---|---|---|---|---|---|---|
| airkorea_streamlit.py:48-49, 74-80 | a station with no items returns a table of column names only, with no timestamp type; if every collected table is empty and one is of that kind, `df["datetime"].max()` is NaN and `tmax - timedelta(hours=n_hours)` raises, so the city call and the whole load raise | one province whose directory lists one station, and that station's response has an empty `items` list | the empty city table, as line 75 returns when no frame was collected | not executed; rests on pandas' dtype rules for concatenating empty tables | `CityAggregate.EmptyStationResponseRaises` | `CityAggregate.CityHourlySeriesIntended` |

`CityAggregate.AsWrittenAgreesWithIntended` relates the two: when the city call
succeeds as written, its table is the intended one. The loader and the dashboard
lemmas are stated for the load as written (`MultiCity.LoadAllSpec`), not for a
load built from the intended city definition.
