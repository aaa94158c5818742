# WeatherPredictionPFA in Dafny

This project models the data and forecasting core of WeatherPredictionPFA, a
Streamlit weather dashboard, and proves properties of that model.

- **Loader.** `load_and_clean_data` takes six wide hourly CSV sources. Each has
  one column per city: temperature in Kelvin, humidity, pressure, wind speed,
  wind direction and a text description. The loader shifts the temperature to
  Celsius and aggregates every source per calendar day: a NaN-skipping mean, or
  the mode for descriptions. It then melts the daily tables into one long table
  keyed by (date, City), left-joins the five other parameters and, when
  available, the city attributes.
- **Extended loader.** The variant in `convert_european_dataset.py` can also
  outer-merge a secondary (European) set of daily tables on the date. It records
  whether that worked in `european_data_loaded` and chooses the attribute table
  to match.
- **City views.** `get_city_data` gives one city's date-sorted series.
  `get_city_info` gives its country and coordinates.
- **Forecaster.** `train_and_predict` is a heuristic. It combines a 30-day
  recent mean, a 60-day trend, a day-of-year seasonal effect and three gated
  covariate offsets, and emits the history followed by `periods` future days
  with a widening band.
- **Dashboard pieces.** `get_weather_emoji` chooses the dashboard's weather
  symbol. The current-weather card computes a feels-like temperature and shows
  min/max values.

`convert_european_dataset.py` repeats `get_city_data` (lines 173-191),
`train_and_predict` (lines 194-272) and `get_city_info` (lines 275-286) from
`models/weather_model.py`, statement for statement. Each is modelled once:
`CityData.GetCityData`, `Forecast.TrainAndPredict` and `CityData.GetCityInfo`
stand for both copies.

Modules, one file each:

| module | file | content |
|---|---|---|
| `Wrappers` | `wrappers.dfy` | `Option`, `Result`, the failure kinds |
| `Calendar` | `calendar.dfy` | dates as day ordinals and pandas' `dayofyear` |
| `Text` | `text.dfy` | `str.strip`, ASCII `str.lower`, `in` on strings, string order |
| `Aggregation` | `aggregation.dfy` | sum, mean, NaN-skipping mean, `mode()[0]` |
| `Tables` | `tables.dfy` | wide tables, the daily `groupby`, outer merge on date, `melt` |
| `LongForm` | `longform.dfy` | long-table rows, left joins, the reshaping |
| `WeatherModel` | `weather_model.dfy` | the primary `load_and_clean_data` |
| `EuropeanModel` | `european_model.dfy` | the extended `load_and_clean_data` |
| `CityData` | `city_data.dfy` | `get_city_data`, `get_city_info` |
| `Forecast` | `forecast.dfy` | `train_and_predict` |
| `App` | `app.dfy` | `get_weather_emoji` and the current-weather figures |

Representation:
- A pandas frame is a `Table`: row keys, an ordered list of city columns, and one
  `seq<Option<V>>` column per city. NaN is `None`.
- Timestamps arrive already parsed, as a calendar day and a time of day.
- Calendar days are integer ordinals, with 0001-01-01 as day 0.
- A `KeyError` raised by selecting a city column a source lacks becomes
  `Err(MissingColumn)`.
- The empty history, for which `pd.date_range` raises, becomes
  `Err(EmptySeries)`.

Facts about the code that a reader might not expect:
- **Mode ties.** A tie between equally frequent descriptions goes to the
  smallest label, because pandas' `mode()` returns its result sorted
  (`Aggregation.ModeTieSmallest`).
- **Seven symbols.** `get_weather_emoji` can return seven different symbols.
  ☀️, ☁️ and ❄️ are shared by the keyword chain and the temperature
  ladder. ⛈️ is reached only through keywords, and 🌡️ and ⛅ only through the
  ladder (`App.SevenSymbols`).
- **Secondary temperatures.** The extended loader subtracts 273.15 from the
  secondary temperature file again, although its comment says that file is
  already in Celsius. The model does the same (`EuropeanModel.ExtendedDailyTemperature`).
- **Secondary failures.** Any failure in the secondary block is caught, and the loader goes on with the primary data. The model treats as failing a secondary source that is absent, or one that lacks a city of its own temperature file, since selecting that city raises `KeyError` (`EuropeanModel.EuropeanLoads`).

## Model

| member | source | states |
|---|---|---|
| `Calendar.DayOfYear` | models/weather_model.py:122 | pandas' `dayofyear` of a date is between 1 and 366 |
| `Calendar.ToYearDayCorrect` | models/weather_model.py:122 | the year and day of year of a date lie within a real year, and counting the years before it plus the day within it gives the date back |
| `Calendar.FromYearDayCorrect` | models/weather_model.py:161 | every valid (year, day of year) is the decomposition of exactly the date built from it: the two conversions are inverse |
| `Calendar.DayOfYearNext` | models/weather_model.py:155-161 | for the consecutive future dates of the forecast, the day of year goes up by one, or restarts at 1 after the last day of a year |
| `Text.TrimStartSpec` | models/weather_model.py:87 | the left half of `str.strip()` removes exactly the white-space prefix: what remains is a suffix of the input that is empty or starts with a non-space |
| `Text.TrimEndSpec` | models/weather_model.py:87 | the right half removes exactly the white-space suffix: what remains is a prefix that is empty or ends with a non-space |
| `Text.Strip` | models/weather_model.py:87 | `str.strip()` never lengthens the name |
| `Text.StripSpec` | models/weather_model.py:87 | `str.strip()`: the result is a slice of the input with no leading or trailing white space, and only white space was removed on either side |
| `Text.StripIdempotent` | models/weather_model.py:87 | stripping a stripped name changes nothing |
| `Text.Lower` | app.py:403 | lower-casing keeps the length and maps each character on its own |
| `Text.LowerIdempotent` | app.py:403 | lower-casing twice is lower-casing once |
| `Text.ContainsAt` | app.py:404 | Python's `pattern in s` holds whenever the pattern occurs at some position of `s` |
| `Text.ContainsChar` | app.py:404 | if `s` contains a pattern, it also contains every character of that pattern |
| `Text.LexLeTotal` | models/weather_model.py:49 | the string order used by `mode()` is total |
| `Text.LexLeAntisymmetric` | models/weather_model.py:49 | the string order is antisymmetric |
| `Text.LexLeTransitive` | models/weather_model.py:49 | the string order is transitive |
| `Aggregation.NanMean` | models/weather_model.py:42-46 | the NaN-skipping daily mean is null exactly when a day has no non-null sample, and otherwise is the arithmetic mean of the samples |
| `Aggregation.MeanBounds` | models/weather_model.py:42 | a daily mean lies between any lower and upper bound of its samples |
| `Aggregation.MeanConstant` | models/weather_model.py:42 | the mean of equal samples is that sample |
| `Aggregation.MeanMinus` | models/weather_model.py:34-35 | lowering every sample by a constant lowers the mean by that constant, so shifting before averaging equals shifting the average |
| `Aggregation.Mode` | models/weather_model.py:49 | `mode()[0]` of a day's labels is null exactly when there is no label; otherwise it occurs in the labels, no label is more frequent, and among equally frequent labels it is the smallest |
| `Aggregation.ModeUnique` | models/weather_model.py:49 | the mode is unique |
| `Aggregation.ModeMostFrequent` | models/weather_model.py:49 | ["rain", "cloud", "rain"] gives "rain" |
| `Aggregation.ModeTieSmallest` | models/weather_model.py:49 | ["rain", "cloud"] gives "cloud": a tie goes to the smallest label, not to the first one seen |
| `Tables.DistinctDates` | models/weather_model.py:39-42 | the `groupby("date")` keys hold each calendar day present among the timestamps once, in ascending order, and no other day |
| `Tables.IndexOf` | models/weather_model.py:70 | a day's row in a daily table is its first and only position |
| `Tables.SamplesOnMembers` | models/weather_model.py:42 | every non-null cell of a row stamped on the day is among the day's samples, and every sample is such a cell |
| `Tables.DayRows` | models/weather_model.py:42 | the rows stamped on the day with a non-null cell, each once and in increasing order |
| `Tables.SamplesOnInOrder` | models/weather_model.py:42-46 | a day's samples are the cells of exactly those rows, one sample per row and in row order, so the mean counts repeated readings as often as they occur |
| `Tables.Aggregate` | models/weather_model.py:42-49 | selecting the city columns succeeds exactly when the source has them all, and otherwise raises; the result has one row per distinct day, strictly ascending, the requested columns, and each cell is the reduction of that day's non-null samples |
| `Tables.UnionDates` | convert_european_dataset.py:110 | the dates of an outer merge are the union of both sides' dates, strictly ascending |
| `Tables.OuterMerge` | convert_european_dataset.py:110-115 | `merge(on="date", how="outer")` of two daily tables with disjoint cities has the columns of both in order, the union of their days, and every cell of either side unchanged |
| `Tables.OuterMergeOneSided` | convert_european_dataset.py:110-115 | a day present on one side only is null for every city of the other side |
| `Tables.MeltColumn` | models/weather_model.py:60 | melting one city column gives one cell per day, carrying the city and that day's value |
| `Tables.MeltSound` | models/weather_model.py:60-68 | every melted cell is the table's value at its own (date, City), and no two cells share a key |
| `Tables.MeltComplete` | models/weather_model.py:60-68 | every (date, city) of the table appears among the melted cells |
| `LongForm.Filter` | models/weather_model.py:95 | boolean selection keeps only rows satisfying the condition and every such row, and is empty exactly when there is none |
| `LongForm.Matching` | models/weather_model.py:95 | the positions where the condition holds, each once and in increasing order |
| `LongForm.FilterSnoc` | models/weather_model.py:95 | selecting from a table with one more row appends that row exactly when it satisfies the condition |
| `LongForm.FilterInOrder` | models/weather_model.py:95 | the selection is the rows at the matching positions, in order: nothing dropped, repeated or moved |
| `LongForm.FilterMultiset` | models/weather_model.py:95 | each row occurs in the selection as often as in the table when it satisfies the condition, and not at all otherwise |
| `LongForm.FilterLast` | app.py:454-456 | the last selected row is the table's last row satisfying the condition |
| `LongForm.FilterLastAt` | app.py:454-456 | given the last position where the condition holds, the selection is non-empty exactly when there is one and ends with that row |
| `LongForm.LeftJoinKeepsRows` | models/weather_model.py:70-74 | a left join never drops a row |
| `LongForm.LeftJoinOneToOne` | models/weather_model.py:70-74 | when every row matches at most one right-hand row, a left join neither adds nor drops rows and attaches to each row its match, or null |
| `LongForm.MeltJoin` | models/weather_model.py:70-74 | a long-table row matches at most one melted cell of a daily table, and the joined value is that table's value at the row's date and city |
| `LongForm.TemperatureRecords` | models/weather_model.py:61 | `dropna(subset=["AvgTemperature"])` keeps only cells with a temperature, and each row comes from one of them |
| `LongForm.TemperatureRecordsComplete` | models/weather_model.py:61 | every cell with a temperature gives a row |
| `LongForm.TemperatureRecordsUnique` | models/weather_model.py:60-61 | unique melted keys give unique (date, City) rows |
| `LongForm.JoinTable` | models/weather_model.py:70-74 | joining a melted daily table keeps the row count and attaches each row's value at its own key |
| `LongForm.ReshapeSound` | models/weather_model.py:60-74 | the long table has exactly the keys of the non-null temperatures, its (date, City) pairs are unique, and each row holds the five parameters of its own day and city |
| `LongForm.ReshapeComplete` | models/weather_model.py:60-61 | every non-null daily temperature gives a row of the long table |
| `LongForm.WithAttributesKeepsRows` | models/weather_model.py:79 | the attribute left join keeps every row, including rows of cities without attributes |
| `LongForm.MatchCity` | models/weather_model.py:79 | with one attribute row per city, each row matches its own city's attributes, or nothing |
| `LongForm.WithAttributesOneToOne` | models/weather_model.py:79 | with one attribute row per city, the attribute join keeps the count, the keys and the parameters of every row, and gives each row its city's attributes or nulls |
| `WeatherModel.ShiftColumn` | models/weather_model.py:34-35 | `df_temp[col] - 273.15`: nulls stay null, and every value drops by exactly 273.15 |
| `WeatherModel.Celsius` | models/weather_model.py:33-35 | the converted sheet keeps its timestamps, its columns and its cities |
| `WeatherModel.ToCelsius` | models/weather_model.py:34-35 | the in-place loop over the city columns yields the converted sheet |
| `WeatherModel.InCelsius` | models/weather_model.py:33-35 | conversion keeps the cities and whether every source covers them |
| `WeatherModel.DailyTables` | models/weather_model.py:38-49 | the six daily aggregations succeed exactly when every source has every city of the temperature file, and otherwise raise `KeyError`; the tables are daily, their columns are the temperature file's cities, and the days are those of the temperature timestamps |
| `WeatherModel.Assemble` | models/weather_model.py:60-81 | the attribute columns are present exactly when the attribute join happened, and no row of the reshaped table is lost |
| `WeatherModel.Load` | models/weather_model.py:16-83 | loading succeeds exactly when every source has every city, and otherwise fails with `KeyError`; the attribute columns are present exactly when the attributes were read |
| `WeatherModel.AssembleLongTable` | models/weather_model.py:59-81 | the statement-by-statement rebinding of `df_long` builds the assembled table |
| `WeatherModel.LoadAndCleanData` | models/weather_model.py:16-83 | the imperative loader computes `Load` |
| `WeatherModel.AssembleSound` | models/weather_model.py:60-81 | every long-table row carries the daily values of its own key and, when joined, its city's attributes; the keys are unique |
| `WeatherModel.LoadSound` | models/weather_model.py:16-83 | the same for the loaded table and the daily tables of its Celsius sources |
| `WeatherModel.SamplesInCelsius` | models/weather_model.py:34-42 | a day's Celsius samples are its Kelvin samples each lowered by 273.15 |
| `WeatherModel.DailyTemperature` | models/weather_model.py:34-42 | a daily temperature comes from a city of the file and is the mean of that day's Kelvin samples minus 273.15 |
| `WeatherModel.RowTemperature` | models/weather_model.py:34-61 | every long-table row's `AvgTemperature` is its city's mean of that day's Kelvin samples minus 273.15 |
| `WeatherModel.KelvinExample` | models/weather_model.py:34-42 | two samples, 283.15 K and 293.15 K, on one day give 15.0 °C |
| `WeatherModel.TwoSampleMean` | models/weather_model.py:34-42 | the arithmetic behind it: the mean of 283.15 and 293.15, minus 273.15, is exactly 15.0 |
| `EuropeanModel.MergeDaily` | convert_european_dataset.py:110-115 | the six outer merges give valid daily tables whose temperature columns are the primary cities followed by the secondary ones, whose days are those of either side, and whose cells are those of each city's own source |
| `EuropeanModel.ExtendedDaily` | convert_european_dataset.py:23-128 | the daily stage succeeds exactly when the primary sources cover their cities, and otherwise fails with `KeyError`; a failing secondary source does not make it fail |
| `EuropeanModel.ExtendedDailyTables` | convert_european_dataset.py:63-128 | the flag `european_data_loaded` is set exactly when the secondary sources load and the merge happens |
| `EuropeanModel.AttributeChoice` | convert_european_dataset.py:148-167 | the combined file is used when it exists; otherwise there are attributes exactly when the primary file is read; the primary rows come first, any extra rows are the secondary rows, added only when `european_data_loaded` is set; when the flag is set and both files are read, the result is the primary rows followed by all secondary rows |
| `EuropeanModel.ChooseAttributes` | convert_european_dataset.py:148-162 | the conditional rebinding of `city_attrs` computes that choice |
| `EuropeanModel.LoadExtended` | convert_european_dataset.py:16-170 | the extended load succeeds exactly when the primary sources cover their cities, and the attribute columns are present exactly when an attribute table was chosen |
| `EuropeanModel.LoadAndCleanDataExtended` | convert_european_dataset.py:16-170 | the imperative extended loader computes `LoadExtended` |
| `EuropeanModel.DegradedIsPrimary` | convert_european_dataset.py:123-128 | when the secondary sources fail, the result is the primary-only load with the attribute choice of an unset flag |
| `EuropeanModel.MergedCalendar` | convert_european_dataset.py:110-118 | after the merge, the cities are the primary ones followed by the secondary ones, and the days are those on which either temperature file has a sample |
| `EuropeanModel.MergeOneSided` | convert_european_dataset.py:110-115 | in each of the six merged tables, a day present only in the secondary source is null for every primary city, and in the temperature table the reverse also holds |
| `EuropeanModel.ExtendedSound` | convert_european_dataset.py:131-167 | the combined long table has unique (date, City) pairs, and every row carries the merged daily values and attributes of its own key |
| `EuropeanModel.ExtendedDailyTemperature` | convert_european_dataset.py:84-89 | a merged daily temperature is the mean of its own source's Kelvin samples minus 273.15, for secondary cities too, and a secondary city appears only when the secondary sources loaded |
| `EuropeanModel.ExtendedRowTemperature` | convert_european_dataset.py:84-132 | a city appears in the combined table only on days on which its own source had a temperature sample, with the Celsius mean of those samples |
| `CityData.ProjectAll` | models/weather_model.py:89-99 | each row is restricted to the kept columns that exist and renamed, one for one |
| `CityData.Insert` | models/weather_model.py:100 | inserting into a date-sorted series keeps it sorted and adds exactly that row |
| `CityData.SortByDs` | models/weather_model.py:100 | `sort_values("ds")` gives a date-sorted permutation, strictly ascending when the days are distinct |
| `CityData.InsertStrict` | models/weather_model.py:100 | inserting a row of a new day into a strictly ascending series keeps it strictly ascending |
| `CityData.CityRows` | models/weather_model.py:95 | `df[df["City"] == name]` keeps exactly that city's rows, and is empty exactly when there are none |
| `CityData.CityRowsCons` | models/weather_model.py:95 | the selection of a table is the selection of its first row followed by that of the rest |
| `CityData.PrependDistinct` | models/weather_model.py:95 | a row placed before rows of its own city that share no (date, City) key with it keeps the days distinct |
| `CityData.CityRowsDistinct` | models/weather_model.py:95 | in a table with unique (date, City) pairs, one city's rows fall on distinct days |
| `CityData.GetCityData` | models/weather_model.py:85-103 | null exactly when no row has the stripped name; otherwise the city's rows, projected onto the kept columns the table has, as a date-sorted permutation, strictly ascending when the table's keys are unique |
| `CityData.ProjectDistinct` | models/weather_model.py:99 | rows on distinct dates still fall on distinct days after `date` is renamed to `ds` |
| `CityData.LastRow` | app.py:456 | the index of the city's last row: a row of the city with no row of the city after it, or -1 when there is none |
| `CityData.CityRowsLast` | app.py:454-456 | `iloc[-1]` of the city's selected rows is the row at `LastRow`, and the selection is empty exactly when there is none |
| `CityData.FirstRow` | models/weather_model.py:195 | `iloc[0]`: the first row of the city, or none |
| `CityData.CityInfoByName` | models/weather_model.py:195-203 | for an exact city name: null exactly when the table has no Country column or the city has no row; otherwise the country and coordinates of its first row, "N/A" for a missing coordinate column |
| `CityData.GetCityInfo` | models/weather_model.py:192-203 | null exactly when the table has no Country column or the stripped city has no row; otherwise the country and coordinates of the city's first row, with "N/A" for a missing coordinate column |
| `Forecast.WindowSize` | models/weather_model.py:110 | `min(30, N)` |
| `Forecast.Trend` | models/weather_model.py:114-118 | the trend is 0 with fewer than 60 days |
| `Forecast.YsAt` | models/weather_model.py:111 | the temperature column lists the `y` of every row, in order |
| `Forecast.TailAt` | models/weather_model.py:111 | `tail(n)` holds the last `n` elements in order |
| `Forecast.DayOfYearColumnAt` | models/weather_model.py:122 | the `day_of_year` column holds each row's day of year |
| `Forecast.OnDay` | models/weather_model.py:127 | a day of year has a group of temperatures exactly when it occurs in the history |
| `Forecast.OnDayMembers` | models/weather_model.py:127 | every grouped temperature is one of the history's |
| `Forecast.SeasonalTableKeys` | models/weather_model.py:127 | the seasonal table has an entry for exactly the days of year present in the history |
| `Forecast.SeasonalTableAt` | models/weather_model.py:127 | each entry of the seasonal table is the mean temperature of the history rows on that day of year |
| `Forecast.NonNullSpec` | models/weather_model.py:136 | `notna()` keeps exactly the present values, so a column has none of them exactly when every cell is null |
| `Forecast.FactorGate` | models/weather_model.py:135-151 | a covariate offset is 0 unless its column exists with more than 30 non-null values; if it counts, it is NaN exactly when the recent window holds no value |
| `Forecast.Plus` | models/weather_model.py:174 | NaN-propagating addition |
| `Forecast.MaxDsIsMax` | models/weather_model.py:154 | the last date is some row's date and no row is later |
| `Forecast.HalfWidth` | models/weather_model.py:177 | the uncertainty is at least 2 |
| `Forecast.FitHistory` | models/weather_model.py:109-154 | the statements before the loop compute the fitted statistics |
| `Forecast.Extrapolate` | models/weather_model.py:157-180 | the loop appends one prediction and one uncertainty per future step, each the prediction for that step's date and the half-width `2 + 0.5 i` |
| `Forecast.TrainAndPredict` | models/weather_model.py:105-190 | an empty history raises; otherwise N + periods rows, the first N echoing each input row with yhat = lower = upper = y, and then the future point of each step |
| `Forecast.FuturePointOf` | models/weather_model.py:183-188 | the future point of step `i` lies on the last date + i + 1, with the loop's prediction and uncertainty |
| `Forecast.FutureBand` | models/weather_model.py:154-155 | future step `i` is dated last date + i + 1; a prediction gives lower < yhat < upper with full width 4 + i, and NaN gives NaN bounds |
| `Forecast.BandWidens` | models/weather_model.py:177 | the band strictly widens from step to step |
| `Forecast.SevenDayHalfWidths` | models/weather_model.py:177 | with 7 periods the half-widths are 2, 2.5, …, 5 |
| `Forecast.NoSeasonWithoutHistory` | models/weather_model.py:161-174 | a target day of year that does not occur in the history gets no seasonal adjustment: the prediction is `base_pred` plus the covariate offsets |
| `Forecast.UnseasonedPrediction` | models/weather_model.py:167-174 | the same, stated on the fitted statistics |
| `Forecast.ConstantFitted` | models/weather_model.py:164-174 | with no trend or offsets, and every mean equal to `v`, the prediction is `v` |
| `Forecast.ConstantTrend` | models/weather_model.py:110-118 | a constant series of `v` has recent, older and overall means `v` and trend 0 |
| `Forecast.ConstantSeasons` | models/weather_model.py:127 | a constant series of `v` has every seasonal mean equal to `v` |
| `Forecast.NoCovariates` | models/weather_model.py:131-151 | without humidity, pressure and wind speed columns every offset is 0 |
| `Forecast.ConstantFit` | models/weather_model.py:109-151 | the statistics fitted to such a series |
| `Forecast.ConstantSeries` | models/weather_model.py:110-174 | a series whose temperature is always `v`, without covariate columns, forecasts exactly `v` on every future day |
| `App.SevenSymbols` | app.py:401-424 | the classifier's symbols are seven distinct strings |
| `App.KeywordSymbol` | app.py:404-413 | the keyword chain yields one of the symbols, or nothing |
| `App.FirstMatch` | app.py:404-413 | a reference chain as data: a first-match rule reports a rule whose keyword occurs, and reports none exactly when no rule has a keyword that occurs |
| `App.KeywordChainIsFirstMatch` | app.py:404-413 | the if/elif chain is the first-match rule over the priority table rain/drizzle, snow, cloud, clear/sun, storm/thunder |
| `App.TemperatureSymbol` | app.py:415-424 | the ladder yields one of the symbols, and ❄️ for a NaN temperature, for which every comparison is false |
| `App.Exceeded` | app.py:415-424 | at most as many thresholds exceeded as there are thresholds |
| `App.LadderByBands` | app.py:415-424 | the ladder picks the band given by how many of 0, 10, 20, 30 degrees the temperature strictly exceeds |
| `App.ExceededMonotone` | app.py:415-424 | a warmer temperature never falls into a colder band |
| `App.ThresholdsAreStrict` | app.py:415-424 | exactly 30, 20, 10 and 0 degrees fall into the band below |
| `App.WeatherEmoji` | app.py:401-424 | the result is one of the seven symbols; a non-empty description with a keyword decides, and otherwise the temperature decides |
| `App.EmojiByRules` | app.py:401-424 | the classifier is the first matching rule on the lower-cased description, else the band of the temperature |
| `App.RainWins` | app.py:402-405 | a description containing "rain" or "drizzle", in any case, gives 🌧️ whatever the temperature |
| `App.SnowBeforeCloud` | app.py:404-409 | "snow and cloud" gives ❄️ |
| `App.RainBeforeThunder` | app.py:404-413 | "thunderstorm with rain" gives 🌧️ |
| `App.NotContained` | app.py:404 | a keyword with a character missing from the description does not occur in it |
| `App.CaseInsensitive` | app.py:403 | lower-casing the description first changes nothing |
| `App.FallsThrough` | app.py:402-415 | with no description, an empty one, or one without any keyword, only the temperature decides |
| `App.FeelsLike` | app.py:481 | `temp - wind * 0.5`: NaN exactly when the wind is NaN, at most the temperature when the wind is not negative, and adding half the wind gives the temperature back |
| `App.WindOf` | app.py:460 | `.get("WindSpeed", 0)`: 0 when the table has no wind-speed column |
| `App.DescriptionOf` | app.py:461 | `.get("WeatherDesc", "")`: empty when the table has no description column |
| `App.CurrentCard` | app.py:453-482 | there is a card exactly when the city has a row; the card shows the city's last row in the table: its temperature, min and max 3 degrees either side, feels-like from that row's wind speed and the symbol of its temperature and description |
| `App.NoWindFeelsLikeTemperature` | app.py:460-481 | without a wind-speed column the feels-like temperature is the temperature |
| `App.NoDescriptionUsesLadder` | app.py:461-482 | without a description column the card's symbol comes from the temperature ladder |

## Left out

- Reading files (`pd.read_csv`, `Path.exists`), the European directory path and every `print`. The sources are parameters. The secondary source and the three attribute files are `Option` inputs, where `None` means the read raised.
- `pd.to_datetime` string parsing. Timestamps arrive as a calendar day and a second of the day.
- The `month` and `week_of_year` columns (models/weather_model.py:123-124). They are computed but never read.
- float64 rounding. All values are exact reals.
- Python's `str.lower` on non-ASCII letters. `Text.Lower` folds only A-Z, which covers every keyword of the chain.
- Tables.OuterMerge: pandas' `_x`/`_y` suffixes when both sources share a city name are not modelled. The merge requires disjoint city lists.
- Merges interrupted halfway by an exception (convert_european_dataset.py:110-115). A failure in the secondary block is all or nothing, which in the code happens when a read or a column selection raises before the first merge.
- The attribute join raising for reasons other than a missing file. It is modelled as a failed read (`None`), and the table then has no attribute columns.
- LongForm.WithAttributesOneToOne: stated only for an attribute table with one row per city (`DistinctCities`). With duplicates, the modelled join multiplies that city's rows, as pandas does, and only `LongForm.WithAttributesKeepsRows` covers that case.
- CityData.SortByDs: the order among rows with the same date is not fixed. pandas' default quicksort is not stable. The contract states sortedness and the permutation only.
- A missing `datetime` column in a source is not modelled. Every source is well formed.
- Negative `periods`. It is a `nat`.
- The dashboard's remaining code, UI and caching: Streamlit layout and CSS, Plotly charts, the share button, `st.cache_data`.
- `utils/api_client.py` (network calls and simulated data) is not part of this model.
- `config.py` holds path constants and `FORECAST_DAYS` only; `App.ForecastDays` is 7.
