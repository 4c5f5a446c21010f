# EU emissions tracker: forecasting, ETL transform and dashboard selection

This project models three parts of the EU emissions tracker and proves properties of the model.

- **Forecasting** (`analysis/forecast.py`):
  - the index normaliser `_ensure_year_period_index`;
  - the linear-trend fallback `_linear_trend_forecast`;
  - the fallback ladder of `forecast_series`: relaxed ARIMA fit, then Nelder-Mead ARIMA fit, then linear trend, then repeat the last value;
  - the batch loop `forecast_all` over every (country, sector) pair.
- **ETL transform** (`etl/transform.py`): `transform_emissions_data`. It parses years, filters the year range, drops missing and non-positive emissions, and fetches the population of the countries it saw. It then left-joins on (country code, year), maps codes to names, drops rows without population or country name, and computes per-capita emissions rounded to two decimals.
- **Dashboard** (`dashboard/app.py`):
  - the dropdown option encoding `f"{c}|||{s}"`;
  - the callback `update_charts`: it decodes the selection, exits early, queries, and chooses the figures and the message.

## Modules

| file | module | contents |
|---|---|---|
| `outcomes.dfy` | `Outcomes` | `Option`, `Result`, floats with NaN, and database cells (NULL, number, text) |
| `casts.dfy` | `Casts` | Python's `int()` on decimal text, and its inverse `str()` |
| `settings.dfy` | `Settings` | the sector and country name maps from `config/settings.py` |
| `forecast_index.dfy` | `ForecastIndex` | pandas index kinds; the normaliser as a function and as an in-place method on a series object |
| `forecast_trend.dfy` | `ForecastTrend` | the least-squares line that `np.polyfit` computes, and the trend forecast |
| `forecast_ladder.dfy` | `ForecastLadder` | `dropna`, the ARIMA estimator as a parameter, and the four-rung ladder |
| `forecast_batch.dfy` | `ForecastBatch` | one pair's outcome, the loop over pairs as a method, and its specification as a fold |
| `transform.dfy` | `Transform` | the transform pipeline step by step, with the caller's frame as a class |
| `dashboard.dfy` | `Dashboard` | `str.split` on the separator, the option encoding and the callback |

Inputs that come from outside the code are parameters of the model:
- the database tables (pairs, history rows, stored rows);
- the population dataset;
- the name maps;
- the ARIMA estimator, a function from (order, method, years, values, steps) to a fit outcome.

Numbers are exact reals. NaN is a separate constructor of `Float`.

## Model

| member | source | states |
|---|---|---|
| Casts.ParseInt | etl/transform.py:27 | `int(t)` accepts an optional sign followed by digits and nothing else: unsigned text parses only if it is all digits, to a non-negative value, and signed text parses exactly when at least one digit and only digits follow the sign. |
| Casts.ShowNat | etl/transform.py:27 | `str(n)` of a natural number is a non-empty run of decimal digits. |
| Casts.Show | etl/transform.py:27 | `str(n)` is non-empty, starts with `-` exactly when `n` is negative, and is all digits otherwise. |
| Casts.ParseShow | etl/transform.py:27 | Parsing inverts rendering: `int(str(n)) == n` for every integer. |
| ForecastIndex.CastAll | analysis/forecast.py:85 | `index.astype(int)` fails exactly when some label cannot be cast. Otherwise it yields one integer per label, each the cast of its label. |
| ForecastIndex.NormaliseIndex | analysis/forecast.py:74-90 | The intended normalisation, which the rest of the model uses. The result is always a period index with a frequency and the same length. A period index with a frequency is unchanged, and one without keeps its years and gets an annual frequency. A datetime index becomes annual periods of its years. A plain index is cast label by label, or renumbered 1..n if any label fails. |
| ForecastIndex.OneBadLabelRenumbersAll | analysis/forecast.py:84-90 | A single label that cannot be cast renumbers the whole index 1..n, even when the other labels are valid years. |
| ForecastIndex.NormaliseIdempotent | analysis/forecast.py:76-79 | Normalising a normalised index changes nothing. |
| ForecastIndex.PeriodsOf | analysis/forecast.py:81-89 | `pd.PeriodIndex(ys, freq='Y')` succeeds exactly when every year is at least 1000. On success it holds those years with an annual frequency. |
| ForecastIndex.NormaliseIndexAsWritten | analysis/forecast.py:74-90 | The code as written. Where it succeeds, it gives the intended index. On a non-empty plain index it succeeds exactly when every label casts to a year of at least 1000. A period or datetime index whose years are all at least 1000 also succeeds. |
| ForecastIndex.FallbackRaises | analysis/forecast.py:84-90 | On labels `['a', 2020]` the code as written raises, while the intended renumbering gives years 1, 2. On labels `[1, 2, 3]` it also raises. |
| ForecastIndex.AsWrittenAgreesOnYears | analysis/forecast.py:84-87 | On a plain index of integer years, each at least 1000, the code as written returns exactly those years as annual periods. |
| ForecastIndex.SeriesObject.EnsureYearPeriodIndex | analysis/forecast.py:74-90 | The method reassigns only the series' index, in place, to the intended normalised index. The values and the index/values length agreement are preserved. |
| ForecastTrend.TrendYears | analysis/forecast.py:50-53 | The years of the trend are `index.astype(int)` when that cast succeeds, else `0..n-1`. There is always one year per value. |
| ForecastTrend.ToFloats | analysis/forecast.py:54 | `np.array(values, dtype=float)` fails exactly when some cell is text. Otherwise it maps each cell to its float, and NULL to NaN. |
| ForecastTrend.Repeat | analysis/forecast.py:58-60 | It yields `steps` copies of the value, dated `last+1 .. last+steps`. |
| ForecastTrend.Undated | analysis/forecast.py:56-57 | It yields `steps` NaN values with a `None` index. |
| ForecastTrend.Extrapolate | analysis/forecast.py:64-68 | The k-th point is the line evaluated at year `last+1+k`. |
| ForecastTrend.LinearTrendForecast | analysis/forecast.py:47-71 | It fails exactly when some value is text. Otherwise: `steps` points; NaNs with no years for an empty series; years following the LAST index year; a single value repeated. The values for two or more points are stated by `TrendFallbackRepeatsLast` and `TrendExtrapolatesFit`. |
| ForecastTrend.PolyFitFailsIff | analysis/forecast.py:62-63 | `np.polyfit` raises exactly when some value is NaN or every year is 0. |
| ForecastTrend.TrendFallbackRepeatsLast | analysis/forecast.py:62-71 | With two or more values and no text, when some value is NaN or every year is 0, the trend repeats the last value after the last year. |
| ForecastTrend.TrendExtrapolatesFit | analysis/forecast.py:62-68 | With two or more numbers and some non-zero year, the fit succeeds and the trend extrapolates the fitted line after the last year. |
| ForecastTrend.FitSolvesNormalEquations | analysis/forecast.py:63 | With two distinct years the fitted line solves both least-squares normal equations: it minimises the squared error. |
| ForecastTrend.FitFailsIffYearsAllZero | analysis/forecast.py:63 | On real values the least-squares fit fails exactly when every year is 0. |
| ForecastTrend.ConstantYearsFitMean | analysis/forecast.py:63 | When all years equal a non-zero `c`, the fit passes through the mean value at year `c`, and it is the minimum-norm solution of `np.polyfit`'s column-scaled system: the slope times `c` equals the intercept, so each is half the mean. |
| ForecastTrend.FitRecoversLine | analysis/forecast.py:63 | For points on `y = a*x + b` with two distinct years, the least-squares line is exactly `(a, b)`. |
| ForecastTrend.CellsFitLine | analysis/forecast.py:54-63 | Cells holding points of a line convert without error and fit back to that line. |
| ForecastTrend.TrendContinuesLine | analysis/forecast.py:47-68 | A series lying on a line with two distinct years is forecast by continuing that line after its last year. |
| ForecastLadder.KeepPresent | analysis/forecast.py:99 | `dropna` on a column never lengthens it, keeps a column without NULLs whole and empties an all-NULL one. |
| ForecastLadder.DropNa | analysis/forecast.py:99 | `dropna` on a series keeps index and values aligned, never adds an entry, and leaves a series without NULLs unchanged. |
| ForecastLadder.TryArima | analysis/forecast.py:111-121 | An ARIMA rung fails on any text value. When it succeeds, every value is a number and the estimator fitted, with one point per forecast mean. |
| ForecastLadder.PrimaryFit | analysis/forecast.py:111-121 | The relaxed rung succeeds only when the estimator fits the kept numbers on the kept years with the default method. |
| ForecastLadder.RetryFit | analysis/forecast.py:129-137 | The second rung succeeds only when the estimator fits the kept numbers with Nelder-Mead, at most 500 iterations. |
| ForecastLadder.KeepPresentDropsNulls | analysis/forecast.py:99 | After `dropna` no cell is NULL and every cell comes from the series. A series without NULLs is unchanged. The result is empty exactly when every cell is NULL. |
| ForecastLadder.FitPoints | analysis/forecast.py:118-121 | A fit becomes a forecast exactly when it succeeded with as many years as means. Point k is `(years[k], mean[k])`. |
| ForecastLadder.RepeatLast | analysis/forecast.py:150-151 | The last rung fails exactly when the last kept value is text. Otherwise it repeats that value after the last year. |
| ForecastLadder.Kept | analysis/forecast.py:99-100 | The kept values hold no NULL. They are empty exactly when every value of the series is NULL. |
| ForecastLadder.ForecastSeries | analysis/forecast.py:93-151 | `forecast_series` fails exactly when values remain and the last one is text, with the `float()` error for it. A series with nothing left after `dropna` gives `steps` NaNs on a `None` index. |
| ForecastLadder.NoTextNeverRaises | analysis/forecast.py:110-151 | Without text values every estimation failure is absorbed by a later rung, so the call succeeds. |
| ForecastLadder.AllMissingNeedsNoFit | analysis/forecast.py:99-102 | An all-NULL series gives `steps` undated NaNs whatever the estimator does. |
| ForecastLadder.PrimarySuccessIsFinal | analysis/forecast.py:111-121 | When the relaxed fit succeeds, its forecast is returned. No later rung can change it. |
| ForecastLadder.RetrySuccessIsFinal | analysis/forecast.py:129-137 | When only the Nelder-Mead fit (at most 500 iterations) succeeds, its forecast is returned. |
| ForecastLadder.TrendAfterBothFitsFail | analysis/forecast.py:142-146 | When both fits fail on numeric data, the result is the linear trend of the kept values on their integer years. |
| ForecastLadder.TextFallsToLastValue | analysis/forecast.py:142-151 | A kept text value defeats both fits and the trend. When the last kept value is not text, the last rung repeats it after the last kept year. |
| ForecastLadder.LadderShape | analysis/forecast.py:93-151 | The estimator may continue the years it is given. When it does, every rung yields `steps` points dated `last+1 .. last+steps`, where `last` is the last normalised year. |
| ForecastBatch.HistoryIndex | analysis/forecast.py:170 | `set_index('year')` gives one label per history row. |
| ForecastBatch.HistoryIndexYears | analysis/forecast.py:170 | The labels of the history index cast back to the history years, in row order. |
| ForecastBatch.Years | analysis/forecast.py:170 | The `year` column holds each history row's year, in order. |
| ForecastBatch.KeptEmissionYears | analysis/forecast.py:99-105 | The years a pair's emissions forecast starts from are the history years whose emissions are present, in order. They are all the history years when none is missing. |
| ForecastBatch.EmissionsSeries | analysis/forecast.py:174 | The emissions series has the history index and each row's emissions cell. |
| ForecastBatch.PerCapitaSeries | analysis/forecast.py:181 | The per-capita series has the history index and each row's per-capita cell. |
| ForecastBatch.Substitute | analysis/forecast.py:177 | The substitute after a failed metric is `steps` NaNs dated after the last history year. |
| ForecastBatch.Recovered | analysis/forecast.py:173-184 | A metric goes on with the result of `forecast_series`, or, when it raised, `steps` NaNs dated after the last history year. |
| ForecastBatch.AllMissingUndated | analysis/forecast.py:99-102 | A measure with no value in the history is forecast as `steps` undated NaNs, whatever the estimator does. |
| ForecastBatch.Assemble | analysis/forecast.py:175-197 | Assembling raises `int(None)` exactly when one of the zipped emissions years is None. Otherwise it yields one row per zipped point, and the failures are the emissions failure, if any, then the per-capita one. |
| ForecastBatch.Failed | analysis/forecast.py:175-183 | A failed metric adds exactly one failure record, naming the pair, with the metric's prefix and the error. A successful metric adds none. |
| ForecastBatch.Present | analysis/forecast.py:195-196 | A NaN is stored as None, and any other value as itself. |
| ForecastBatch.ZipRows | analysis/forecast.py:187-197 | Zipping raises `int(None)` exactly when one of the first `n` emissions years is None. Otherwise it yields `n` rows of the pair, with each year and both values converted. |
| ForecastBatch.ZipInto | analysis/forecast.py:187-197 | The zip loop computes `ZipRows` over the shorter of the two forecasts. |
| ForecastBatch.CombinationOutcome | analysis/forecast.py:164-197 | With fewer than 3 history rows it records `insufficient_history` and no rows. The only exception is `int(None)`. There are at most two failures, all naming the pair with a known reason, and every row belongs to the pair. |
| ForecastBatch.RecoverMetric | analysis/forecast.py:173-184 | One `try`/`except` around `forecast_series` yields the forecast to go on with: the result, or the NaN substitute. When the call raised, the failure list is extended by exactly that error with the metric's prefix. |
| ForecastBatch.RecordPair | analysis/forecast.py:173-197 | Given the two `forecast_series` outcomes of a pair, the rows and failures gathered so far are extended by that pair's assembled rows and its failure records, or the run ends with the `int(None)` error. |
| ForecastBatch.ForecastPair | analysis/forecast.py:164-197 | One loop iteration appends that pair's rows and failures to the lists, or ends the run with its exception. |
| ForecastBatch.Extend | analysis/forecast.py:164-197 | Appending an outcome extends both lists, or propagates the exception. |
| ForecastBatch.AbortIsFinal | analysis/forecast.py:164-197 | Once a pair raises, later pairs change nothing. |
| ForecastBatch.BatchStep | analysis/forecast.py:164-197 | The result on the first `i+1` pairs is the result on the first `i` pairs extended by pair `i`. |
| ForecastBatch.ForecastAll | analysis/forecast.py:154-197 | The loop over all pairs computes the batch specification: the fold of the pair outcomes in order. |
| ForecastBatch.RecoveredShape | analysis/forecast.py:173-184 | With a continuing estimator, each metric yields `steps` points after recovery. A successful forecast is dated after the last kept year, or undated when nothing is kept. A raised one is replaced by NaNs dated after the last history year. |
| ForecastBatch.EmissionsKept | analysis/forecast.py:99 | The emissions series keeps no value exactly when every emissions cell is NULL. |
| ForecastBatch.AbortsIffEmissionsAllMissing | analysis/forecast.py:164-197 | With a continuing estimator, a pair raises exactly when it has at least 3 history rows, `steps > 0` and all its emissions NULL. |
| ForecastBatch.PairRows | analysis/forecast.py:164-197 | With a continuing estimator, a pair that does not raise adds `steps` rows when its history is long enough, and none otherwise. The rows are dated after the last year with an emissions value, or after the last history year when the emissions forecast raised. |
| ForecastBatch.PairColumns | analysis/forecast.py:173-197 | A pair's failures are the emissions failure, if any, then the per-capita one. A metric that raised is `None` in every row. Otherwise row k holds its k-th forecast value, `None` where it is NaN. |
| ForecastBatch.AssembledColumns | analysis/forecast.py:187-197 | The same column property for assembled rows, from the results of the two forecasts. |
| ForecastBatch.DatedForecastShape | analysis/forecast.py:99-151 | A forecast whose first point is dated comes from kept values and continues after the last kept year. |
| ForecastBatch.BatchErrIff | analysis/forecast.py:164-197 | The run raises exactly when some pair raises. Its error is that of a pair all of whose predecessors succeeded: the first pair that raises. |
| ForecastBatch.RunAbortsIff | analysis/forecast.py:154-197 | With a continuing estimator, `forecast_all` raises `int(None)` exactly when `steps > 0` and some pair has at least 3 history rows, all with NULL emissions. |
| ForecastBatch.Forecastable | analysis/forecast.py:165 | It counts the pairs with at least 3 history rows. |
| ForecastBatch.RunRowCount | analysis/forecast.py:154-197 | With a continuing estimator, a run that does not raise writes `steps` rows for every pair with enough history. |
| ForecastBatch.RunRecordsNamePairs | analysis/forecast.py:154-197 | Every failure record and every forecast row names one of the pairs processed. |
| ForecastBatch.Dated | analysis/forecast.py:187-192 | Every point receives a year. Points that had one keep it, and values never change. |
| ForecastBatch.CombinationIntended | analysis/forecast.py:164-197 | The corrected pair records `insufficient_history` for short histories, and every row it adds belongs to the pair. |
| ForecastBatch.IntendedAgreesWhenNoAbort | analysis/forecast.py:164-197 | The corrected pair agrees with the code wherever the code does not raise. |
| ForecastBatch.IntendedRows | analysis/forecast.py:164-197 | The corrected pair always adds `steps` rows with enough history. With all emissions missing, those rows are dated after the last history year and carry no emissions value. |
| ForecastBatch.AllMissingEmissionsAbort | analysis/forecast.py:192 | Three history rows with NULL emissions make the code raise `int(None)`. |
| Outcomes.Repr | analysis/forecast.py:60 | Python's `repr` of a str. The text is between matching quotes and at least as long. The quotes are double exactly when the text holds a single quote and no double quote. |
| Outcomes.ReprPlain | analysis/forecast.py:60 | Text without quotes, backslashes, newlines, carriage returns or tabs is written verbatim between single quotes. |
| Outcomes.ApostropheRepr | analysis/forecast.py:60 | `repr("it's")` is `"it's"`, in double quotes. |
| Outcomes.FloatConversionError | analysis/forecast.py:60 | The message of `float(t)`'s `ValueError` is `could not convert string to float: ` followed by `repr(t)`. For plain text that is `t` in single quotes. |
| Transform.IntError | etl/transform.py:27 | The message of `int(t)`'s `ValueError` is `invalid literal for int() with base 10: ` followed by `repr(t)`. For plain text that is `t` in single quotes. |
| Transform.ParseYears | etl/transform.py:27 | On success each row's year is `int(time)`. |
| Transform.ParseYearsFails | etl/transform.py:27 | The cast fails exactly when some `time` is not an integer literal. The error names the first such entry. |
| Transform.WithYears | etl/transform.py:27 | It adds the parsed year to every row. |
| Transform.InRange | etl/transform.py:28 | It keeps exactly the rows with `start <= year <= end`, and never adds a row. |
| Transform.Positive | etl/transform.py:31-41 | It keeps exactly the rows with a value greater than 0, as emission rows, and never adds a row. |
| Transform.UniqueCodes | etl/transform.py:44 | The codes are distinct, and a code is listed exactly when some row has it. |
| Transform.FetchPopulation | etl/extract.py:37-76 | A census row is returned exactly when it lies in the year range, has a population, and its country is requested (every country when the request is empty). |
| Transform.Matches | etl/transform.py:48-53 | It yields the populations of exactly the table rows with the given code and year. |
| Transform.Join | etl/transform.py:48-53 | The left join has at least as many rows as emission rows, and every emission row appears in at least one joined row. |
| Transform.JoinOne | etl/transform.py:48-53 | A left join gives at least one row per emission row, each row carrying a matching population or none. |
| Transform.JoinSound | etl/transform.py:48-53 | Every joined row comes from an emission row, and its population from a row with the same code and year. |
| Transform.JoinComplete | etl/transform.py:48-53 | Every emission row meets every population row with the same code and year. |
| Transform.NameOne | etl/transform.py:55-58 | A named row keeps its year, population and emissions. It has a sector name exactly when the sector code is mapped, and a country name exactly when the country code is mapped. |
| Transform.Name | etl/transform.py:55-58 | There is one named row per joined row, each named as `NameOne` states. |
| Transform.Lookup | etl/transform.py:56-57 | `Series.map(dict)` gives the mapped name, or a missing value for an unknown code. |
| Transform.RoundHalfEven | etl/transform.py:64 | It rounds to the nearest integer, and halves go to the even neighbour. |
| Transform.Round2 | etl/transform.py:64 | `round(x, 2)` lies within 0.005 of `x` and is a multiple of 0.01. |
| Transform.Round2Idempotent | etl/transform.py:64 | Rounding twice is rounding once. |
| Transform.PerCapitaOf | etl/transform.py:64 | Per-capita is infinite exactly when the population is 0. Otherwise it is within 0.005 of kilotonnes × 10⁶ / population. |
| Transform.Complete | etl/transform.py:61-64 | Completing never adds a row. It keeps every row when all have a population and a country name, and none when no row has both. |
| Transform.CompleteSound | etl/transform.py:61-64 | Every output row comes from a merged row with a population and a country name, with per-capita computed from it. |
| Transform.CompleteKeeps | etl/transform.py:61-64 | Every merged row with a population and a country name reaches the output. |
| Transform.TransformFails | etl/transform.py:27 | The transform raises exactly when some `time` is not an integer literal, with the `int()` message for the first one. Nothing later can fail. |
| Transform.EmissionsFrame.TransformEmissionsData | etl/transform.py:9-66 | The caller's frame gains the `year` column when parsing succeeds, and its rows are untouched. The result is the pipeline's. |
| Transform.OutputTracesBack | etl/transform.py:27-64 | Every output row is in the year range, has positive emissions and its per-capita value. It comes from one raw row and one population row of the same country and year. |
| Transform.OutputFromJoin | etl/transform.py:48-64 | Every output row is built from one emission row and one population row of the same country and year. |
| Transform.EmissionTracesBack | etl/transform.py:27-41 | Every cleaned emission row is a raw row that is in range, with a positive value. |
| Transform.RowSurvives | etl/transform.py:27-64 | A raw row reaches the output when it is in range, has a positive value and a known country, and its population is known. An unknown sector only leaves the sector name missing. |
| Transform.RowCleaned | etl/transform.py:28-41 | A kept raw row is one of the cleaned emission rows. |
| Transform.RowFetched | etl/transform.py:44-45 | The population row of a kept row's country and year is fetched. |
| Transform.JoinedSurvives | etl/transform.py:48-64 | A joined row with population and a known country reaches the output with its names and per-capita value. |
| Transform.RequestedCodes | etl/transform.py:44-45 | Population is requested for a code exactly when some kept row has it, and each code is requested once. |
| Transform.MatchesAtMostOne | etl/transform.py:48-53 | A table with unique (country, year) keys matches at most one row. |
| Transform.JoinLength | etl/transform.py:48-53 | With unique keys the left join keeps the row count. |
| Transform.FetchKeepsKeysUnique | etl/extract.py:71-75 | Filtering a census with unique keys keeps them unique. |
| Transform.RowBound | etl/transform.py:9-66 | With unique population keys the output has no more rows than the cleaned rows, which are no more than the raw rows. |
| Transform.Parse2020 | etl/transform.py:27 | `int("2020") == 2020`. |
| Transform.GermanyPerCapita | tests/test_transform.py:35 | 1000 kt for 83 000 000 people is 12.05 kg per person. |
| Transform.FrancePerCapita | etl/transform.py:64 | 800 kt for 67 000 000 people is 11.94 kg per person. |
| Transform.TwoCountryCleaned | etl/transform.py:27-45 | Both example rows survive cleaning, and both codes are requested. |
| Transform.TwoCountryRun | tests/test_transform.py:4-36 | The two-country example yields the German and French rows: year 2020, "Energy industries", the populations, the emissions, and per-capita 12.05 and 11.94. |
| Dashboard.FindSeparator | dashboard/app.py:115 | It finds the leftmost occurrence of `\|\|\|` at or after a position, or reports that there is none. |
| Dashboard.Split | dashboard/app.py:115 | `str.split("\|\|\|")` yields at least one piece. |
| Dashboard.JoinSplit | dashboard/app.py:115 | Joining the pieces with the separator gives the string back. |
| Dashboard.SplitPiecesClean | dashboard/app.py:115 | No piece holds the separator. |
| Dashboard.SplitOnePiece | dashboard/app.py:115 | There is a single piece exactly when the string holds no separator. |
| Dashboard.TwoSeparatorsThreePieces | dashboard/app.py:115 | Two non-overlapping separators give at least three pieces. |
| Dashboard.Encode | dashboard/app.py:61 | The option value is the country, then `\|\|\|`, then the sector. |
| Dashboard.Label | dashboard/app.py:61 | The option label is the country, then ` - `, then the sector. |
| Dashboard.Options | dashboard/app.py:56-61 | There is one option per query row. |
| Dashboard.Decode | dashboard/app.py:115 | Unpacking succeeds exactly when the split gives two pieces. |
| Dashboard.FirstSeparatorBetween | dashboard/app.py:61 | In an option value of clean names, the first separator is the one written between them. |
| Dashboard.DecodeEncode | dashboard/app.py:61-115 | The callback decodes an option value back to its pair exactly when the country has no separator and does not end in `\|`, and the sector has no separator. |
| Dashboard.DecodedNamesClean | dashboard/app.py:61-115 | An option value that decodes to its own pair has clean names. |
| Dashboard.SeparatorInNameFails | dashboard/app.py:61-115 | A separator in either name makes the unpacking fail with too many values. |
| Dashboard.TrailingBarMisread | dashboard/app.py:61-115 | A country ending in `\|` is misread: the bar moves to the sector. |
| Dashboard.OptionsRoundTrip | dashboard/app.py:56-115 | Option i is labelled `c - s` and its value is the encoding of row i. The value decodes to row i when the names are clean, and fails with too many values when either name holds the separator. |
| Dashboard.Query | dashboard/app.py:30-53 | A row is returned exactly when it is in the table and has the selected country and sector. |
| Dashboard.UpdateCharts | dashboard/app.py:105-159 | No selection, or an empty one, gives two blank figures and no message. A selection that does not unpack into two names makes the callback raise that unpacking error, and that is its only error. The two figures are blank together. |
| Dashboard.NoSelectionIgnoresData | dashboard/app.py:112-113 | Without a selection the result does not depend on the database. |
| Dashboard.SelectedOption | dashboard/app.py:115-159 | A selected pair without history shows the no-data message and blank figures. With history it draws both titled charts, a forecast trace exactly when forecast rows exist, and clears the message. |

## Left out

- The SQLite reads and writes are not modelled:
  - the queries of pairs and histories, whose results are parameters;
  - the failure-table write of `forecast_all` (analysis/forecast.py:200-215);
  - `load_forecasts_to_db`.
- `ORDER BY` sorting is not modelled: tables are taken in the order given.
- The Eurostat network download in `etl/extract.py` is not modelled. The population fetch is a filter over a census dataset given as a parameter.
- The statsmodels ARIMA estimator is not modelled. It is a parameter. Its numerics, warnings, `LinAlgError`/other exception split and stack-trace printing become "the fit succeeded / failed". `ContinuesYears` states, as a lemma hypothesis only, the one property of it that the ladder relies on.
- `ForecastLadder.RetryFit`: the model passes `fit(method='nm', disp=False, maxiter=500)` to the estimator as written. Whether the installed ARIMA class accepts those keywords, or always raises and so makes this rung always fail, depends on the statsmodels library, which is not part of this model.
- Floating point is not modelled:
  - values are exact reals, NaN is a separate value, and infinities and overflow are absent;
  - `np.polyfit` is modelled by the exact least-squares line, including its minimum-norm answer for constant non-zero years and its failure for all-zero years;
  - the poorly-conditioned cases where `lstsq` does not converge are not modelled.
- `print`, logging and the `traceback` output of `forecast_series` are not modelled.
- `_linear_trend_forecast`'s `else 0` branch (analysis/forecast.py:59) is not modelled: the years always have the same length as the values, so it cannot be taken.
- pandas integer width is not modelled: `astype(int)` on the population is exact (no 64-bit overflow).
- Fractional population counts truncated by `astype(int)` are not modelled: the population dataset holds integers.
- Plotly figure layout, traces, colours and fonts are not modelled. A figure is Blank, or a title with a flag for the forecast trace.
- Dash callback wiring is not modelled.
- `Casts.ParseInt`: Python's `int()` also accepts surrounding whitespace and `_` between digits. The model rejects both.
- `Casts.ParseInt`: Python's `int()` also accepts non-ASCII Unicode decimal digits, such as full-width `２０２０`. The model accepts only `0`-`9`.
- `Dashboard.UpdateCharts`: the text of the `ValueError` from unpacking is not modelled. The error is the `UnpackError` datatype.
- `ForecastLadder.ForecastSeries`: the years of an ARIMA forecast are whatever the estimator returns. Only under `ContinuesYears` does `LadderShape` date them.
- `ForecastIndex.NormaliseIndex`: pandas builds an annual `PeriodIndex` from integers by reading each as a four-digit year, and it raises `ValueError` for one below 1000. The model does not propagate that error. It treats every integer label as a valid year and lets the 1..n renumbering succeed, as the code intends. This concerns `ForecastIndex.NormaliseIndex`, `ForecastIndex.OneBadLabelRenumbersAll`, `ForecastIndex.SeriesObject.EnsureYearPeriodIndex`, `ForecastLadder.ForecastSeries` and `ForecastLadder.NoTextNeverRaises`. As written, analysis/forecast.py:86 raises for such a label, the fallback at line 89 always raises, and the error escapes `forecast_series` at line 105 into `forecast_all`'s error record and NaN substitute. `ForecastIndex.NormaliseIndexAsWritten` models that behaviour, as recorded under Findings.
- EnsureYearPeriodIndex (`ForecastIndex.SeriesObject.EnsureYearPeriodIndex`): never raises. As written, the reassignment raises when a plain index reaches the fallback or holds a year below 1000.
- NoTextNeverRaises (`ForecastLadder.NoTextNeverRaises`): holds for the intended normalisation. As written, a text-free series whose index has a label that cannot be cast, or a year below 1000, raises at analysis/forecast.py:105.
- ForecastSeries (`ForecastLadder.ForecastSeries`): "fails exactly when the last kept value is text" holds for the intended normalisation. As written, the index errors above are further failures.
- Python's `repr` also writes other non-printable characters as `\x..`, `\u....` or `\U........` escapes. `Outcomes.Escape` leaves them unescaped, so `Outcomes.FloatConversionError` and `Transform.IntError` differ from Python's message for such text.
- `extract.py`'s `fetch_emissions_data` and the pipeline driver are not part of this model.

## Findings

| source | as written | input that shows it | evidently intended | confidence | as-written member | corrected member |
|---|---|---|---|---|---|---|
| analysis/forecast.py:192 | `int(year)` is applied to the emissions forecast's index. When every emissions value of a pair is NULL, `forecast_series` returns an index of `None`, so `int(None)` raises `TypeError` outside any `try`. This ends `forecast_all` for all pairs, and nothing is written. The ETL never stores a NULL emissions value (etl/transform.py:39-40), so this needs a database filled by other means. | a pair with history years 2020, 2021, 2022 whose emissions are all NULL, with any forecast horizon of at least 1 | an all-missing metric is dated like a failed metric's NaN substitute: its rows are dated after the last history year with no emissions value, and the loop continues | not executed | ForecastBatch.AllMissingEmissionsAbort | ForecastBatch.CombinationIntended |
| analysis/forecast.py:89 | The fallback builds `pd.PeriodIndex(range(1, len(s) + 1), freq='Y')`. pandas reads each integer as a year and refuses those below 1000, so for any non-empty series this line raises `ValueError` instead of renumbering. The `except` at line 88 catches the failed cast, but then the fallback raises too. Line 86 likewise raises for any integer label below 1000. | a series with index `['a', 2020]`, or with years `[1, 2, 3]` | a plain index that cannot be read as years is renumbered as years 1..n, and `forecast_series` goes on to forecast | not executed | ForecastIndex.FallbackRaises | ForecastIndex.NormaliseIndex |
