# Almaty–Astana weather comparison, modelled in Dafny

The script `main.py` reads a table of daily weather observations with the
columns `date`, `city` and `temperature`, cleans it, builds one gap-free
daily temperature series per city, and says which of Astana and Almaty was
more comfortable on the latest day both series cover. This project models
that pipeline and proves what it promises:

- **The row normaliser** (lines 20-44) is modelled in `normalizer.dfy`. It
  checks the columns, strips the date and city texts, and drops the rows whose
  date is a sentinel (`''`, `'...'`, `'—'`, `'-'`, `'NaN'`, `'nan'`, or a
  missing cell). It parses the dates, collecting the first ten texts that do
  not parse for the diagnostic without aborting the run. Then it converts the
  temperatures, drops incomplete rows, and maps the Cyrillic aliases to
  `Astana` and `Almaty`. Each statement is a method with a loop over the rows.
  Each method is proved equal to a stage function, and the composed stages
  (`Clean`) are proved equal to a row-by-row definition of which rows survive.
- **`prepare_series`** (lines 46-54) is modelled in `series.dfy`. It selects
  one city's records and indexes them by day. It reindexes them to every day
  from the first to the last observation and fills the gap days by
  time-weighted linear interpolation between their nearest observed
  neighbours.
- **`season_by_month` and the comparison rule** (lines 59-81) are modelled in
  `comfort.dfy`. The comparison day is the earlier of the two last days. Both
  temperatures are read there; that lookup fails when a series starts after
  that day. The season of the day's month picks the rule, ties included.
- **The script** (lines 20-81) is modelled in `pipeline.dfy`, which chains
  the three parts above in the script's order of errors.

Support modules:

- `calendar.dfy` converts a day count to its month. It uses the
  proleptic Gregorian civil-from-days conversion and proves the round trip.
- `text.dfy` models Python's `str.strip()`.
- `seqs.dfy` holds the order-preserving filters that data-frame row
  selection amounts to.

Dates are day counts from 1970-01-01, the epoch of pandas timestamps.
Temperatures are `real`. The two pandas parsers, `pd.to_datetime` and
`pd.to_numeric`, are function parameters: `parseDate` and `parseNumber`.

Two records of one city on one date make `PrepareSeries` fail with
`DuplicateDates`, because `asfreq('D')` refuses to reindex an index with a
repeated date; a rule that keeps one of the two records is not modelled.

## Model

| member | source | states |
|---|---|---|
| Text.Trim | main.py:24-25 | `str.strip()`: the result has no whitespace at either end and is what lies between a whitespace prefix and a whitespace suffix (`TrimSlice`), and stripping twice changes nothing (`TrimIdempotent`) |
| Seqs.Take | main.py:34 | `head(10)`: at most `n` elements, and they are the first ones |
| Normalizer.Clean | main.py:20-44 | the normaliser fails, naming the columns found, exactly when `date`, `city` or `temperature` is missing; otherwise it yields records and the bad-date diagnostic |
| Normalizer.StripColumns | main.py:24-25 | overwriting the columns row by row yields every row with its date and city stripped, in order |
| Normalizer.DropSentinels | main.py:27-28 | the loop keeps, in order, exactly the rows whose date is neither missing nor a sentinel token |
| Normalizer.ParseDates | main.py:30-38 | the loop yields, in order, the rows whose date parses (the date replaced by its day), and the date texts that do not parse |
| Normalizer.DropIncomplete | main.py:39-40 | the loop keeps, in order, exactly the rows with a city and a temperature that converts to a number, as typed records |
| Normalizer.ReplaceAliases | main.py:42-44 | the loop replaces every record's city by its stripped canonical name, changing nothing else |
| Normalizer.Normalize | main.py:20-44 | running the statements in turn on one table variable gives exactly the normaliser's result |
| Normalizer.CanonicalCity | main.py:43-44 | `replace(city_map)` on one name; stated by `CanonicalCityResolves` |
| Normalizer.CanonicalCityResolves | main.py:43-44 | a name maps to `Astana` (`Almaty`) exactly when it is that name or one of its aliases; no alias survives replacement; only aliases are changed |
| Normalizer.CleanIsRowWise | main.py:24-44 | the records are, in order, those of the rows that survive on their own, and the diagnostic is the first ten bad dates in row order; the second strip of the city changes nothing |
| Normalizer.SurvivingRecord | main.py:24-44 | a record is output exactly when some row has a stripped, non-sentinel date that parses to its day, a city whose stripped name resolves to its city, and a temperature that converts to its value; there are never more records than rows |
| Normalizer.CleanCitiesCanonical | main.py:42-44 | no output record carries an unresolved alias |
| Normalizer.BadDateDiagnostic | main.py:27-36 | at most ten texts are shown; none are shown exactly when no row has a non-sentinel date that fails to parse; every text shown is such a row's stripped date, not a sentinel, and does not parse |
| Series.FirstDay | main.py:50-52 | the result is an observed day, and no observed day is earlier |
| Series.LastDay | main.py:50-52 | the result is an observed day, and no observed day is later |
| Series.ValueOn | main.py:50 | a value found for a day is an observation of that day; none is found only when the day was not observed |
| Series.Reindex | main.py:50-52 | the daily grid has one slot per day from the first to the last observed day, and both end slots are set |
| Series.PrevKnown | main.py:53 | the nearest set slot at or before a slot, with every slot between them unset |
| Series.NextKnown | main.py:53 | the nearest set slot at or after a slot, with every slot between them unset |
| Series.Interpolate | main.py:53 | `interpolate('time')` on the daily grid: one value per slot; what each slot holds is stated by `InterpolateKeeps` and `InterpolateGap` |
| Series.Fill | main.py:53 | the value of one slot after interpolation; stated by `InterpolateKeeps` and `InterpolateGap` |
| Series.InterpolateKeeps | main.py:53 | interpolation leaves every set slot's value unchanged |
| Series.LerpBetween | main.py:53 | a time-weighted interpolation between two values lies between them |
| Series.InterpolateGap | main.py:53 | an unset slot between set slots, with nothing set in between, gets their time-weighted interpolation, which lies between their values |
| Series.GapHasNeighbours | main.py:52-53 | every unset slot of an anchored grid has set slots on both sides with nothing set between, so no slot is left unset |
| Series.PrepareSeries | main.py:46-54 | a series that is built is never empty |
| Series.Observations | main.py:47 | the city's (date, temperature) pairs; stated by `ObservationOf` |
| Series.ObservationOf | main.py:47 | the observations are exactly the (day, temperature) pairs of the city's records |
| Series.ValueOnRecord | main.py:50-52 | without duplicate dates, the value indexed under a record's day is that record's temperature |
| Series.SlotSetIffObserved | main.py:50-52 | a day has a value before interpolation exactly when some record of the city has that day |
| Series.SeriesOutcome | main.py:46-52 | the build fails for want of data exactly when no record names the city, and for duplicate dates exactly when the city has records and two share a date |
| Series.SeriesSpan | main.py:50-52 | the series starts on an observed day and ends on an observed day, and every record of the city falls inside it |
| Series.SeriesKeepsObserved | main.py:50-53 | every observed day of the city keeps its observed temperature |
| Series.SeriesFillsGap | main.py:50-53 | a day strictly between two consecutive observed days gets their time-weighted interpolation, which lies between their temperatures |
| Series.SeriesDayCovered | main.py:50-53 | every day of the series is observed or lies strictly between two consecutive observed days |
| Calendar.FromDays | main.py:68 | the month of any day is between 1 and 12, and its day of month between 1 and 31; `FromDaysValid` and `DateRoundTrip` make it the civil date |
| Calendar.FromDaysValid | main.py:68 | the date of every day count is a calendar date: the day never runs past its month's length, 29 February only in Gregorian leap years |
| Calendar.DateRoundTrip | main.py:68 | every calendar date is the date of its own day count; with `RoundTrip`, `FromDays` is the one bijection between day counts and calendar dates, so `.month` is the civil month |
| Calendar.RoundTrip | main.py:68 | converting the civil date of a day count back gives the same count, so no day is lost |
| Calendar.FromDaysExamples | main.py:68 | days 19731, 19732, 19823 and 19919 are 2024-01-09, 2024-01-10, 2024-04-10 and 2024-07-15 |
| Comfort.SeasonByMonth | main.py:59-62 | `season_by_month`; its contract is stated by `SeasonByQuarter` |
| Comfort.SeasonByQuarter | main.py:59-62 | for months 1 to 12, December-February is winter, June-August summer, and the rest the shoulder season, by quarter of the meteorological year |
| Comfort.Winner | main.py:69-80 | the seasonal rule with its tie-breaks; its contract is stated by `WinnerByComfort` and `WinnerSwaps` |
| Comfort.WinnerByComfort | main.py:69-80 | Astana wins exactly when it is strictly more comfortable (warmer in winter, cooler in summer, nearer 20 °C otherwise), or ties in the shoulder season; the winner is never less comfortable than the other city |
| Comfort.WinnerSwaps | main.py:69-80 | when comfort differs, swapping the two temperatures swaps the winner |
| Comfort.Decide | main.py:64-81 | the comparison date, the two lookups and the decision; its contract is stated by `DecideSpec` |
| Comfort.DecideSpec | main.py:64-81 | the comparison day is the earlier last day; the decision fails exactly when a series starts after it, Astana checked first; otherwise it reads both series on that day, takes that month's season, and applies the seasonal rule with its tie-breaks |
| Comfort.WinterExample | main.py:64-72 | on 2024-01-10 at -5 °C against -2 °C, winter favours the warmer Almaty |
| Comfort.SummerExample | main.py:64-76 | on 2024-07-15 at 30 °C against 33 °C, summer favours the cooler Astana |
| Comfort.ShoulderExample | main.py:64-81 | on 2024-04-10 at 18 °C against 23 °C, the shoulder season favours Astana, nearer 20 °C |
| Comfort.ComparisonDayExamples | main.py:64-66 | series ending on different days are compared on the earlier last day, and a series starting after that day fails the lookup |
| Pipeline.Run | main.py:20-81 | the diagnostic never shows more than ten dates; the run fails with the missing-columns error exactly when a column is missing |
| Pipeline.Script | main.py:20-81 | running the script's statements in order gives the run's report |
| Pipeline.RunReportsBadDates | main.py:30-36 | whatever the outcome, a run on a well-formed table reports the first ten bad date texts in row order |
| Pipeline.RunWithoutAstana | main.py:46-56 | the run fails for want of Astana data exactly when no row survives normalisation as an Astana record |
| Pipeline.AstanaFailsFirst | main.py:56-57 | "no data for Astana" can only come from building the Astana series |
| Pipeline.NoRecordOfCity | main.py:24-48 | no cleaned record names a city exactly when no row survives normalisation as one of that city |
| Pipeline.RunDecision | main.py:56-66 | a decision is reached only when both series are built; each city has a record on or after its day, and some record of one of the two cities falls on it |
| Pipeline.SingleObservation | main.py:46-54 | a city observed once gets the one-day series of that observation |
| Pipeline.ExampleClean | main.py:20-44 | on a table with padded aliases, a sentinel date, a missing date and an impossible date, the aliases resolve and only the impossible date is reported |
| Pipeline.RunExample | main.py:20-81 | on that table the run reports the impossible date and, in winter, favours the warmer Almaty |

## Left out

- Reading the CSV file (line 19) is left out, and so is the search for it under two names (lines 11-17). The model starts from the table with its column names; a missing cell is `None`.
- Reconfiguring standard output (lines 5-9) is left out: it is I/O.
- The final message, the plot and the saved image (lines 83-93) are left out, and so are the window's `q` key handler and `plt.show()` (lines 96-102); so are the Russian reason texts (lines 72, 76, 81). They are output only: the model returns the decision that the message prints.
- `pd.to_datetime(..., format='mixed', dayfirst=True)` and `pd.to_numeric` are left out. They are the parameters `parseDate` and `parseNumber`; the guessing of formats is pandas code that is not part of this model.
- The time of day of a parsed timestamp is not modelled. Dates are whole days; a timestamp with a time component would not fall on the daily grid.
- Temperatures are `real`, not IEEE doubles: rounding, NaN and the infinities are left out. `pd.to_numeric` turns `'inf'` into an infinity that survives the `dropna` of line 40; here `parseNumber` can only return a finite value. A temperature that does not convert is `None`, as `errors='coerce'` followed by `dropna` drops it.
- A missing date cell is treated as a sentinel and dropped silently. The script lists `None` among the bad tokens.
- `dropna()` on the series (line 64) is not modelled as a step. Interpolation leaves no day unset, so it changes nothing (`Series.GapHasNeighbours`).
- `sort_index()` (line 51) is not a step of the model: the grid is laid out by day, so it is sorted by construction.
- Series.PrepareSeries: two records of one city on one date make it fail with `DuplicateDates`, as `asfreq` does; no rule choosing one of the two records is modelled.
- Series.Interpolate: its own contract states only the length. What it puts in each slot is stated by `Series.InterpolateKeeps` and `Series.InterpolateGap`.
