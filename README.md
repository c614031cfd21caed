# Air-quality feature pipeline, modelled in Dafny

This project models the two data steps of `algorithm1.py`. They turn the
Catalan air-quality table into monthly features for a NO forecast:

- `prepare_data`. It drops the rows measured in ppm. It converts mg/m3 and
  ng/m3 readings to µg/m3 and relabels every row in µg/m3. It keeps the days
  from 2010-01-01 on. It melts the 24 hour columns `01h`..`24h` into one row
  per reading, in chunks of `len(df) // 50` rows, dropping every row with a
  missing identifier or value. Then it derives the hour (1..24) and the
  timestamp (`DATA` plus that many hours, so hour 24 is midnight of the next
  day).
- `get_features`. It computes monthly means over several cross-sections:
  all rows, the NO rows, their altitudes, and one column per urban area.
  The area columns come from a pivot on the timestamp, so each timestamp is
  averaged first. It joins the cross-sections on the month, drops every
  month with a missing column, and returns the twelve exogenous columns X
  and the target y, the monthly NO mean.

Modules:

- `Calendar`: dates, the hour-24 rollover, calendar months.
- `Rows`: the wide input row, the melted cell and the prepared long row; the
  hour column names and their parsing.
- `Reshape`: the melt, as `pd.melt` orders it (hour-major), followed by
  `dropna`; the chunked melt.
- `Sequences`: filter, map and distinct on sequences, with their multiset
  facts.
- `Grouping`: `groupby(...).mean()` as a map from the keys that occur.
- `Prepare`: `prepare_data`. The table is an `array`: the filters build new
  arrays, and the unit scaling and relabelling rewrite the array in place.
  The chunk loop and the time derivation are loops. Each method is proved
  against a function on sequences (`Prepared`), and the properties are
  lemmas about that function.
- `Features`: `get_features`, as functions and lemmas.
- `PivotExample`: a three-row table on which the area column (1.5) differs
  from the plain monthly mean (1.0).
- `Pipeline`: the two steps composed.

Three facts about the code shape the model:

- The imputation at `algorithm1.py:60-67` is commented out. Missing readings
  are dropped by the melt's `dropna` and never imputed.
- Chunking does not change the multiset of melted rows
  (`Reshape.ChunkedMeltEquivalent`, `Prepare.PreparedMatchesUnchunked`).
- The chunk size `len(df) // 50` is zero for fewer than 50 rows, and `range`
  with a zero step raises. The model returns `Err(ZeroChunkSize)` exactly then.

## Model

| member | source | states |
|---|---|---|
| Prepare.PrepareData | algorithm1.py:34-69 | the array pipeline (filter out ppm, scale mg/m3 and ng/m3, relabel, filter the dates, melt in chunks, derive the times) returns exactly `Prepared` of the input table |
| Prepare.Prepared | algorithm1.py:51-53 | fails exactly when fewer than 50 rows are left before the melt, because the chunk size `len(df) // 50` is then 0 and `range` rejects a zero step |
| Prepare.FilterRows | algorithm1.py:39 | the new array holds, in order, exactly the rows that satisfy the condition |
| Prepare.ScaleUnit | algorithm1.py:42-43 | rewrites the hour values of the rows with the given unit, in place; every other row stays as it was |
| Prepare.RelabelUnits | algorithm1.py:45 | every row's unit becomes µg/m3 in place, and nothing else changes |
| Prepare.MeltInChunks | algorithm1.py:51-54 | the loop over `range(0, n, size)` concatenates the melts of the slices `[i, i+size)` in order |
| Prepare.DeriveTimes | algorithm1.py:56-58 | each melted cell gets its hour and timestamp, in order |
| Prepare.Derive | algorithm1.py:56-58 | the derived row keeps all six identifier columns and the value, its hour is the hour column's number in 1..24, and its timestamp is the date plus that many hours |
| Prepare.NormalizedRow | algorithm1.py:42-45 | after the unit steps, a row's unit is µg/m3; mg/m3 values are multiplied by 1000, ng/m3 values divided by 1000, other values unchanged; missing values stay missing; no other field changes |
| Prepare.NormalizeRowwise | algorithm1.py:42-45 | the unit steps on a table keep its length and act on each row independently |
| Prepare.DatedSource | algorithm1.py:39-49 | the rows left before the melt are, in their original order, the normalized input rows that are not in ppm and are dated 2010-01-01 or later, and every such input row is among them |
| Prepare.ExpectedCell | algorithm1.py:42-58 | a present hour value of a normalized row becomes the prepared row expected from the input row: converted value, hour h+1, timestamp date plus h+1 hours |
| Prepare.PreparedSource | algorithm1.py:34-69 | every output row comes from a present hour value of an input row that has all six identifiers, is not in ppm and is dated 2010-01-01 or later, converted to µg/m3 |
| Prepare.PreparedHas | algorithm1.py:34-69 | every present hour value of such an input row reaches the output |
| Prepare.PreparedMatchesUnchunked | algorithm1.py:51-54 | the chunked output equals the unchunked one as a multiset, with one row per surviving cell |
| Reshape.ChunkedMeltEquivalent | algorithm1.py:51-54 | melting chunk by chunk gives the same cells, with the same multiplicities, as melting the whole table |
| Reshape.ChunkedMeltStep | algorithm1.py:52-53 | the chunked melt from row i is the melt of the slice `[i, min(i+size, n))` followed by the chunked melt from the end of that slice |
| Reshape.MeltSource | algorithm1.py:52-53 | every melted cell is hour column h of some row that has all six identifiers and a value in that column |
| Reshape.MeltHas | algorithm1.py:52-53 | every present value of a row with all six identifiers appears in the melt |
| Reshape.MeltLength | algorithm1.py:52-53 | the melt has exactly one cell per present value of a row with all identifiers |
| Reshape.MeltIsRowMajor | algorithm1.py:52-53 | the hour-major melt and the row-by-row melt hold the same cells |
| Rows.ParseHourLabel | algorithm1.py:35-37 | dropping the trailing `h` from hour column h's name and reading the digits gives back h |
| Calendar.AddHours | algorithm1.py:58 | adding 1..23 hours stays on the date; adding 24 hours gives midnight of the next day; the result is a valid date with an hour in 0..23 |
| Calendar.NextDay | algorithm1.py:58 | the next day is a valid date after the given one, and it is the first of a month exactly when the given day is the last of its month |
| Calendar.NextDayIsSuccessor | algorithm1.py:58 | no valid date lies strictly between a date and its next day |
| Calendar.AddHoursMonth | algorithm1.py:58 | adding hours keeps a reading in its calendar month, except hour 24 of a month's last day, which falls in the next month (or the next year) |
| Calendar.DaysInMonth | algorithm1.py:48 | months have 28 to 31 days; February has 29 exactly in leap years |
| Grouping.GroupHas | algorithm1.py:85 | every key that occurs in the rows has a mean |
| Grouping.GroupSource | algorithm1.py:85 | every key that has a mean occurs in some row |
| Grouping.TallyFilter | algorithm1.py:85 | the count and sum of a group equal the length and the plain total of the rows selected by its key |
| Grouping.MeanIsAverage | algorithm1.py:85 | a key's mean is the total of the values of the rows with that key, divided by their number, which is positive |
| Grouping.MeanBounds | algorithm1.py:85 | a group's mean lies between any lower and upper bounds of its values |
| Grouping.GroupPermutation | algorithm1.py:85 | the group means do not depend on the order of the rows |
| Features.NoRowsExact | algorithm1.py:73 | `df_NO` holds the NO rows each as often as `df` does and no other rows, and row j of `df_NO` is row p[j] of `df` for strictly increasing positions p |
| Features.AreaHas | algorithm1.py:76-77 | area a has a value for month m when some row of area a falls in m |
| Features.AreaSource | algorithm1.py:76-77 | area a has a value for month m only when some row of area a falls in m |
| Features.AreaBounds | algorithm1.py:76-77 | the area column, a mean of per-timestamp means, lies between any bounds of the area's values in that month |
| Features.PivotPermutation | algorithm1.py:76 | the pivot column's entries, one per distinct timestamp, do not depend on the order of the rows |
| Features.AreaTablePermutation | algorithm1.py:76-82 | the area columns do not depend on the order of the rows |
| Features.SectionsPermutation | algorithm1.py:73-106 | none of the monthly cross-sections depends on the order of the rows |
| Features.SortedMonthsPermutation | algorithm1.py:108 | the joined month index does not depend on the order of the rows |
| Features.JoinedMonthsExact | algorithm1.py:108-109 | the joined index is increasing and holds exactly the months for which every column, including every area column, has a value |
| Features.FeaturesAligned | algorithm1.py:108-112 | when the six area columns exist, X and y share the increasing joined index, which holds exactly the complete months, and each row carries that month's columns |
| Features.FeaturesMonthRange | algorithm1.py:93 | X's month column lies in 1..12 |
| Features.FeaturesError | algorithm1.py:111 | selecting X fails exactly when rural, suburban or urban is absent from all rows or from the NO rows, and the error names at least one column |
| Features.FeaturesPermutation | algorithm1.py:71-118 | get_features does not depend on the order of its input rows |
| PivotExample.PivotAveragesTimestamps | algorithm1.py:76-77 | on a concrete table, the urban area column (1.5) differs from the plain monthly mean (1.0), because the pivot averages each timestamp first |
| PivotExample.ExamplePivotColumn | algorithm1.py:76 | the pivot column of that table has one entry per distinct timestamp, holding that timestamp's mean |
| PivotExample.ExampleRawMean | algorithm1.py:91 | the plain monthly mean of that table is 1.0 |
| Pipeline.FeaturesIgnoreChunking | algorithm1.py:51-54 | the features computed from the chunked preparation equal those computed from the table melted in one piece |

## Left out

- `get_input`, `algo`, the CSV reading, the SARIMAX fit and the pickled output are not part of this model. They are I/O and a foreign statistics library.
- `encode_time_indicators` (`month_sin`, `month_cos`) is not modelled: it is floating-point trigonometry. `FeatureVector` keeps the integer month in place of the pair.
- Parsing `DATA` with `%d/%m/%Y` and `pd.to_numeric(..., errors='coerce')` are not modelled. Dates arrive as `Date` values and readings as reals, missing ones as `None`.
- All arithmetic is on exact reals. Floating-point rounding of the unit conversion and of the means is not modelled.
- The commented-out imputation is not modelled because the code does not run it.
- `del` and `gc.collect()` only release memory, so they are not modelled.
- Features.FeaturesError: a KeyError's message and the pandas order of missing labels are not modelled. The error lists the missing X columns in X's order.
- Features.Sections: area labels are assumed not to collide with the other column names of the joined table.
- The month-end timestamps that `pd.Grouper(freq="M")` uses as the index are represented by the (year, month) pair.
- Empty months inside the grouped range are not represented, because the later `dropna` removes them. A month missing from a map plays the role of pandas' NaN row.
- Prepare.PrepareData: the table is an array of immutable row values. A column assignment over a pandas frame (a view or a copy) is modelled as rewriting the rows of the array.
