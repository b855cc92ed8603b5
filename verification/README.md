# FINN fire emissions to FF10: a Dafny model

`finn25_to_ff10.py` turns FINN v2.5 fire detections into SMOKE FF10 point
inventories. It groups the detections by site and day. It looks up each
site's region code in a boundary shapefile and remaps that code. It derives
the country, date and source classification code (SCC) of every row. It then
melts the table to one row per pollutant. The rows are routed by
`country_cd` to four national inventories (US, CA, MX, ONA), each written as a
daily and an annual FF10 file. Rows that no boundary polygon contains
(`country_cd` "NA") take the global branch instead:

- their region comes from a global raster and a cross-reference file;
- they are rolled up to coarser coordinates;
- three Central American regions are dropped;
- what remains is written as the two GEO files.

The model follows that structure, one module per concern:

| module | file | what it holds |
|---|---|---|
| `Outcomes` | outcomes.dfy | `Option`, `Result` with the three Python exceptions raised (KeyError, IndexError, ValueError), and an abort-at-first-failure map |
| `Text` | text.dfy | decimal digits, zero padding, Python `strip`, `split`, `find`, slicing |
| `Aggregate` | aggregate.dfy | rows as key plus value vector, `Total` of a weight over rows, pandas `groupby(...).sum()` as `GroupSum`, filters |
| `Regions` | regions.dfy | `fix_finn_fips`, `get_country`, the width trim and the SCC choice |
| `Calendar` | calendar.dfy | the Gregorian day-of-year, `set_date`, the `monthnum` and `dayvalN` derivations |
| `GeoGrid` | geogrid.dfy | `_get_code` (raster cell and composite key), `_load_fips_xref`, `get_fips` |
| `Detections` | detections.dfy | `get_finn_data` from the site-day grouping on: derivations, melt, country selection |
| `Daily` | daily.dfy | the daily pivot of `write_daily_ff10`, as written (mean) and corrected (sum) |
| `Annual` | annual.dfy | the annual group-by of `write_annual_ff10` |
| `GeoBranch` | geobranch.dfy | `fill_geocodes`, `roll_up_geo` and the deny-list filter |
| `Ff10` | ff10.dfy | column completion, the cells of daily and annual lines, headers and output paths |
| `Convert` | convert.dfy | `main` with the daily pivot corrected: the country loop, the global branch, the files written and what they conserve |
| `MainRun` | mainrun.dfy | `main` as written: the averaging daily writer, the KeyError of line 200 ending the run, and where it agrees with the corrected run |

Values are reals. Coordinates are integers in hundredths of a degree, because
the script rounds them to two decimals before any lookup. The roll-up's
rounding to one decimal is a parameter `coarsen`. The boundary lookup is a
parameter `locate`. The raster is a pair of integer matrices.

The central property is conservation, and it holds for the run with the
daily pivot corrected (`Convert`). There, the national daily files, the global
daily file and the dropped deny-listed rows together carry the total of every
value column of the detections read in. The same holds for the annual files
(`Convert.ConvertConserves`). Each aggregation along the way proves the same
two things: every key appears exactly once, and the total is kept.

The script as written does not meet it in general, and `MainRun` models that
run with its exceptions:

- The daily pivot uses `pd.pivot_table`'s default aggregation, the mean, not
  a sum, so colliding cells lose mass (see Findings).
- A day of month with no fire anywhere in an inventory is not filled with
  zero. Its column never exists, and selecting the 31 day columns raises
  KeyError (see Findings). Nothing catches that exception. The run stops
  there. Every file it has written belongs to an earlier country, and none
  to that country, a later one or the global branch (`MainRun.NationalAbort`).
  A single detection in the US already stops it before anything is written
  (`MainRun.OneFireAborts`).
- Where the script runs to its end and no inventory has two rows in one
  cell, it writes exactly the files of the corrected run, so conservation
  holds for what it writes (`MainRun.ScriptConserves`).

Two details of the written files:

- The five stack parameters are first set to "1" but are also in the list of
  columns blanked afterwards, so they are written empty (`Ff10.AnnualLineStack`).
- Each file has three header lines: format, country and year.

## Model

| member | source | states |
|---|---|---|
| Outcomes.MapAll | finn25_to_ff10.py:297-300 | a row-wise `apply` succeeds exactly when every row does; its results are the rows' results in order; a failure is the first failing row's exception |
| Text.Digits | finn25_to_ff10.py:170 | `'%s' % n` is a nonempty digit string without leading zeros that reads back as `n` |
| Text.ZeroPad | finn25_to_ff10.py:289-290 | `'%0.Nd'` padding is all digits, of width `max(N, digits of n)`, and reads back as `n` |
| Text.FormatIntParses | finn25_to_ff10.py:289-290 | a zero-padded number, negative ones included, is read back by `int()` as itself |
| Text.StripLeft | finn25_to_ff10.py:277 | the result is a suffix whose dropped prefix is all white space and which does not start with white space |
| Text.StripRight | finn25_to_ff10.py:277 | the result is a prefix whose dropped suffix is all white space and which does not end with white space |
| Text.StripUnchanged | finn25_to_ff10.py:277 | stripping a string that neither starts nor ends with white space returns it unchanged |
| Text.Find | finn25_to_ff10.py:277 | the result is the first position of the character, or -1 exactly when it is absent |
| Text.Split | finn25_to_ff10.py:277 | `split(',')` gives at least one part; no part holds the separator; there is one part exactly when the separator is absent; joining the parts gives back the string |
| Text.From | finn25_to_ff10.py:299 | `s[k:]` has length `|s| - k` (zero past the end) and holds the characters of `s` from `k` on |
| Regions.RemapEntry | finn25_to_ff10.py:106-117 | every value of the remap table is a six-character code starting with 1, 2 or 3 |
| Regions.Remap | finn25_to_ff10.py:102-124 | exactly three outcomes: a table key gives its table value; any other nonempty code gives "0" + code; a missing or empty code, and only such a code, gives "-9999"; the result is never empty |
| Regions.GetCountry | finn25_to_ff10.py:70-74 | an empty code or one starting with '-' gives NA; a first digit 0-3 picks US, CA, MX, ONA; a digit 4-9 raises IndexError; any other first character raises ValueError |
| Regions.RemapClassifies | finn25_to_ff10.py:160-163 | after the remap, classification never raises; it gives NA exactly when no code was found, and US exactly when the code went through the '0' fallback |
| Regions.TrimRegion | finn25_to_ff10.py:164 | a six-character code loses exactly its first character; a code of any other length is unchanged |
| Regions.RegionWidth | finn25_to_ff10.py:160-164 | table codes, "-9999" and five-character fallbacks all end up five characters wide, a fallback as the original code |
| Regions.ClassifyBeforeTrim | finn25_to_ff10.py:163-164 | the country must be taken before the trim: the unlisted code "48001" becomes "048001" and is classified US, but its trimmed form "48001" would raise IndexError |
| Regions.SccFor | finn25_to_ff10.py:166-168 | vegetation classes 1 and 9 get the agricultural code and every other integer class the wildfire code; a class that is not an integer raises ValueError |
| Calendar.Locate | finn25_to_ff10.py:77 | the month walk ends on a real day of a month at or after the start, at the same position in the year |
| Calendar.DaysBeforeGrows | finn25_to_ff10.py:77 | a month's last day comes before the first day of every later month |
| Calendar.DateOf | finn25_to_ff10.py:77 | every day-of-year 1..days-in-year names a valid date of that year whose position in the year is that number |
| Calendar.DayOfYearInjective | finn25_to_ff10.py:77 | two valid dates of one year at the same position in the year are the same date |
| Calendar.DateOfDayOfYear | finn25_to_ff10.py:77 | every valid date is the date its own day-of-year names |
| Calendar.YmdFields | finn25_to_ff10.py:169-170 | `%Y%m%d` of a date is eight digits whose slices `[:4]`, `[4:6]`, `[6:8]` read back as year, month and day |
| Calendar.SetDate | finn25_to_ff10.py:76-78 | `set_date` succeeds for day 1..days-in-year, and for day 366 of a common year before 9999, giving January 1 of the next year; it raises ValueError otherwise; within the year its month and day are the d-th day's |
| Calendar.SetDateInvertsDayOfYear | finn25_to_ff10.py:76-78 | `set_date` of a date's day-of-year gives back that date's month and day |
| Calendar.SetDateEdges | finn25_to_ff10.py:76-78 | day 1 is January 1; day 366 is December 31 in a leap year and January 1 of the next year otherwise |
| Calendar.DayLabelInjective | finn25_to_ff10.py:170 | distinct days of the month get distinct `dayvalN` labels |
| GeoGrid.TruncDiv | finn25_to_ff10.py:281-285 | Python's `int()` of a quotient truncates toward zero, for negative numerators too |
| GeoGrid.CellOf | finn25_to_ff10.py:280-288 | the raster row is the 0.1-degree band of `lat + 90`; the column is the band of `lon` east of Greenwich and of `360 + lon` west of it; longitude exactly 0 gives column 180 and raises the warning |
| GeoGrid.CellRanges | finn25_to_ff10.py:281-285 | in-range coordinates give rows 0..1799 and columns 0..3599, and a negative longitude shares its column with `lon + 360` |
| GeoGrid.ZeroLongitudeColumn | finn25_to_ff10.py:282-288 | the meridian goes to column 180, not to column 0 where its eastern neighbour goes, nor 3599 where its western neighbour goes |
| GeoGrid.AxisIndex | finn25_to_ff10.py:289-290 | a numpy index is valid from `-n` to `n - 1`; a negative one counts from the end |
| GeoGrid.RasterAt | finn25_to_ff10.py:289-290 | an in-range cell reads the raster value, and the only failure is IndexError |
| GeoGrid.GeoKeyRoundTrip | finn25_to_ff10.py:289-291 | the composite key `'%0.6d_%0.2d'` of (geocode, tz + 13) parses back to the geocode and time zone |
| GeoGrid.GeoKeyWidth | finn25_to_ff10.py:289-291 | for geocodes below one million and zones -13..86 the key is nine characters with '_' at position 6 |
| GeoGrid.CodeAt | finn25_to_ff10.py:280-291 | `_get_code` succeeds exactly when the point's cell is in range of both rasters, else IndexError; its result is the `'%0.6d_%0.2d'` key of the geocode and zone + 13 read there, which parses back to that pair |
| GeoGrid.LoadRowsOk | finn25_to_ff10.py:272-278 | loading succeeds exactly when every non-header line has two cells; otherwise it raises IndexError |
| GeoGrid.LoadRowsKeys | finn25_to_ff10.py:272-278 | the loaded table's keys are exactly the first cells of the non-header lines |
| GeoGrid.LoadRowsLastWins | finn25_to_ff10.py:278 | a key maps to the second cell of its last line: later duplicates overwrite earlier ones |
| GeoGrid.LoadRowsSkipsHeaders | finn25_to_ff10.py:276 | a line starting with "geo", wherever it is, changes nothing |
| GeoGrid.GetFips | finn25_to_ff10.py:293-295 | the lookup has no default: a cell off the raster raises IndexError, a key the table lacks raises KeyError, a present key gives its value |
| GeoGrid.FillRegion | finn25_to_ff10.py:299 | the region keeps the looked-up code minus exactly its first character |
| Aggregate.AddVec | finn25_to_ff10.py:155 | merging two rows adds them column by column, a missing column counting as zero |
| Aggregate.SumAddVec | finn25_to_ff10.py:185 | the row sum of a merged row is the sum of the two row sums |
| Aggregate.TotalConcat | finn25_to_ff10.py:155 | the total over two tables put together is the sum of their totals |
| Aggregate.TotalUpToSame | finn25_to_ff10.py:174 | tables with equal column totals have equal sums of those totals |
| Aggregate.IndexOf | finn25_to_ff10.py:155 | the lookup finds a row of the key, or reports that there is none |
| Aggregate.GroupSumShape | finn25_to_ff10.py:155 | a group-by-sum leaves each key exactly once and keeps the set of keys and the row width |
| Aggregate.GroupSumTotal | finn25_to_ff10.py:155 | a group-by-sum keeps the total of every additive weight |
| Aggregate.GroupSumValues | finn25_to_ff10.py:155 | each grouped value is the sum of that column over the key's input rows |
| Aggregate.GroupSumColumnTotal | finn25_to_ff10.py:155 | a group-by-sum keeps every column's total |
| Aggregate.GroupSumSelectTotal | finn25_to_ff10.py:155 | a group-by-sum keeps every column's total over any selection of keys |
| Aggregate.GroupSumRowSumTotal | finn25_to_ff10.py:185 | a group-by-sum keeps the total of the row sums |
| Aggregate.GroupSumDistinct | finn25_to_ff10.py:155 | grouping a table whose keys are already distinct returns it unchanged |
| Aggregate.TotalRowwise | finn25_to_ff10.py:155 | tables whose rows pair up with equal weights have equal totals |
| Aggregate.RekeyKeys | finn25_to_ff10.py:216 | the new keys are exactly the new grouping columns of some input row |
| Aggregate.Filter | finn25_to_ff10.py:26 | a boolean mask keeps only rows that pass |
| Aggregate.FilterMembers | finn25_to_ff10.py:26 | a boolean mask keeps exactly the rows that pass |
| Aggregate.FilterSplit | finn25_to_ff10.py:41 | a mask and its negation split the total between them |
| Aggregate.FilterSelect | finn25_to_ff10.py:26 | the total of the masked rows is the masked total of the table |
| Aggregate.GroupSumWeight | finn25_to_ff10.py:155 | the weight of a grouped row is the total weight of the key's input rows |
| Detections.GroupSites | finn25_to_ff10.py:154-155 | grouping by site and day leaves each key once, keeps the keys, sums each key's rows, and keeps every value column's total |
| Detections.DayOfYearOf | finn25_to_ff10.py:162 | `day.astype(int)` succeeds exactly on integer text, else ValueError |
| Detections.Assemble | finn25_to_ff10.py:157-170 | every derived row is the resolved form of its detection and is well formed |
| Detections.Resolve | finn25_to_ff10.py:157-170 | the derivations succeed exactly when every row's day and vegetation class parse and its date exists; failure is ValueError; each row gets the remapped and trimmed region, the country of the untrimmed code, the SCC, month and day, and keeps its values |
| Detections.DateFields | finn25_to_ff10.py:162-170 | `monthnum` is 1..12, the day of month 1..31, and they name the row's day of the year |
| Detections.CountryFields | finn25_to_ff10.py:163-164 | every derived `country_cd` is one of the five codes, and an NA row has region "-9999" |
| Detections.ResolvedRow | finn25_to_ff10.py:157-170 | one detection's derived row resolves it and is well formed |
| Detections.MeltColumn | finn25_to_ff10.py:174 | the melt of one value column gives each site once, labelled with the column name and carrying that column's value |
| Detections.MeltUpToLength | finn25_to_ff10.py:174 | melting `n` columns gives `n` rows per site |
| Detections.MeltUpToSites | finn25_to_ff10.py:174 | every melted row's site is an input site and carries a single value |
| Detections.Melt | finn25_to_ff10.py:172-174 | the long table has one row per site and value column, each from an input site |
| Detections.MeltUpToTotal | finn25_to_ff10.py:174 | after melting `n` columns, each pollutant's total is its column's total if melted, zero otherwise |
| Detections.MeltColumnTotal | finn25_to_ff10.py:174 | a melted column's block carries only that pollutant, with its column's total |
| Detections.MeltConserves | finn25_to_ff10.py:174 | each pollutant's `val` total in the long table is its column's total in the wide table |
| Detections.MeltUpToColumnTotal | finn25_to_ff10.py:174 | the total `val` of the melt is the sum of the melted columns' totals |
| Detections.LongTable | finn25_to_ff10.py:154-174 | `get_finn_data` from the grouping on succeeds exactly when every grouped row resolves, else ValueError; its rows number 13 per site and are all well formed |
| Detections.MeltWellFormed | finn25_to_ff10.py:172-174 | melting keeps every site well formed |
| Detections.LongTableConserves | finn25_to_ff10.py:153-175 | the long table's `val` total for each pollutant is that column's total over the detections read in, the property lines 153, 156 and 175 print as a cross-check |
| Detections.OneDetectionOneSite | finn25_to_ff10.py:154-174 | a single detection's long table has 13 rows, one per value column, all of one site and so of one day |
| Detections.LongTableTotal | finn25_to_ff10.py:154-174 | the long table's whole `val` total is the sum of all value columns' totals over the detections |
| Detections.CountryRows | finn25_to_ff10.py:26 | the country selection keeps exactly the rows of that country code |
| Detections.CountryPartition | finn25_to_ff10.py:24-38 | when every row has one of the five codes, the four national totals and the NA total add up to the whole |
| Detections.CountryRowsTotal | finn25_to_ff10.py:26 | a country's selected rows carry exactly its share of the total |
| Daily.SumOneHot | finn25_to_ff10.py:185 | the day columns of one placed row sum to its value |
| Daily.DailyPivotShape | finn25_to_ff10.py:182-186 | the corrected pivot has each index (country, region, facility, SCC, pollutant, month, process, unit) once, exactly the indices of the long rows, each with 31 day columns |
| Daily.DailyPivotCells | finn25_to_ff10.py:183-184 | each cell of the corrected pivot is the summed `val` of its index and day, and zero when no row falls there |
| Daily.DailyPivotMonthTotal | finn25_to_ff10.py:185 | in the corrected pivot, `monthtot` is the summed `val` of all the index's long rows (as written it is the sum of the day means) |
| Daily.DailyPivotConserves | finn25_to_ff10.py:183-185 | the month totals of the corrected pivot add up to the table's whole `val` total |
| Daily.DailyPivotAsWritten | finn25_to_ff10.py:183-200 | as written, the daily table raises KeyError exactly when some day of month has no row at all; otherwise it is the averaged pivot |
| Daily.OneDayTableFails | finn25_to_ff10.py:199-200 | as written, any table whose rows all fall on one day of the month, the empty one included, raises KeyError |
| Daily.NoThirtyFirstFails | finn25_to_ff10.py:199-200 | as written, any table none of whose rows falls on a 31st raises KeyError |
| Daily.CellPresent | finn25_to_ff10.py:183 | an occupied cell of the averaged pivot is the mean of the rows falling into it |
| Daily.CellAbsent | finn25_to_ff10.py:183-184 | an empty cell of the averaged pivot is the mean of no rows, zero |
| Daily.PivotMeansCells | finn25_to_ff10.py:183-184 | each cell of the pivot as written is the mean of the `val` of its rows, zero for none |
| Daily.PivotMeansWithoutCollision | finn25_to_ff10.py:183 | when no two long rows share an index and day, averaging and summing give the same table |
| Daily.AddOneHot | finn25_to_ff10.py:183 | two values placed on the same day merge into their sum on that day |
| Daily.PivotMeansOfPair | finn25_to_ff10.py:183 | two rows of values 1 and 3 in one cell are written as 2 |
| Daily.DailyPivotOfPair | finn25_to_ff10.py:183 | the corrected pivot writes the same pair as 4 |
| Daily.PivotMeansLosesMass | finn25_to_ff10.py:183 | the averaged and summed pivots of that pair differ, so the mean loses half the mass |
| Annual.AnnualShape | finn25_to_ff10.py:214-216 | the annual table has each (country, region, facility, SCC, pollutant, process, coordinates, unit) once, exactly those of the long rows |
| Annual.AnnualValues | finn25_to_ff10.py:216-217 | each `ann_value` is the summed `val` of its key's long rows |
| Annual.AnnualConserves | finn25_to_ff10.py:216 | the annual table carries each pollutant's whole total |
| Annual.AnnualTotal | finn25_to_ff10.py:216 | the annual table carries the whole `val` total |
| Ff10.Complete | finn25_to_ff10.py:203-205 | completion adds every missing output column as empty, and leaves the existing ones |
| Ff10.CompleteSettles | finn25_to_ff10.py:254-256 | completing an already complete record changes nothing |
| Ff10.SetEmptyAt | finn25_to_ff10.py:188-190 | blanking a list of columns empties those and leaves every other column as it was |
| Ff10.CsvLine | finn25_to_ff10.py:208 | a written line has one cell per output column, the record's cell or empty where it lacks the column |
| Ff10.DailyColumnsAt | finn25_to_ff10.py:192-197 | the daily column list has 46 names: `monthtot` at 13, `dayvalD` at 13 + D, `comment` last |
| Ff10.DailyRecordCell | finn25_to_ff10.py:186-205 | every column of a written daily line holds the index value, the derived release point, a day value, the month total, or empty |
| Ff10.DailyLineCells | finn25_to_ff10.py:192-208 | a daily line has the 46 cells of the format, each its column's cell |
| Ff10.DailyLineMonth | finn25_to_ff10.py:185 | cell 13 of a daily line is the month total |
| Ff10.DailyLineDay | finn25_to_ff10.py:199-200 | cell 13 + D of a daily line is the value of day D |
| Ff10.DailyInventoryCells | finn25_to_ff10.py:182-208 | in a line of the corrected daily table, day D holds the summed `val` of its index and day, and the month total the summed `val` of its index |
| Ff10.AnnualNullsApart | finn25_to_ff10.py:225-240 | the blanked annual columns are none of the derived ones except the stack parameters |
| Ff10.AnnualRecordCell | finn25_to_ff10.py:216-256 | every column of a written annual line holds the grouping value, the annual value, the facility as name, the coordinates, "EPA_FINN", the year, or empty |
| Ff10.AnnualLineCells | finn25_to_ff10.py:241-260 | an annual line has the 77 cells of the format, each its column's cell |
| Ff10.AnnualLineEmpty | finn25_to_ff10.py:228-240 | every column outside the derived ones is written empty |
| Ff10.AnnualLineStack | finn25_to_ff10.py:220-240 | the five stack parameters are written empty: the "1" placed first is overwritten by the blanking |
| Ff10.AnnualLineValue | finn25_to_ff10.py:217 | cell 13 of an annual line is the row's annual value |
| Ff10.Header | finn25_to_ff10.py:202-207 | the header is three lines: the format line, `#COUNTRY=` with the `cty_dict` name of the code, and `#YEAR=` with the year; an inventory code missing from the name table raises KeyError |
| Ff10.HeaderYear | finn25_to_ff10.py:207 | the text after `#YEAR=` is read back by `int()` as the year |
| Ff10.InventoryNamesDistinct | finn25_to_ff10.py:14 | all four countries and GEO have an inventory name, and no two share one |
| Ff10.OutputPathsDistinct | finn25_to_ff10.py:30-45 | no two of the ten output files share a path |
| GeoBranch.FillGeocodes | finn25_to_ff10.py:297-300 | filling succeeds exactly when every row's lookup does, else IndexError or KeyError; each row's region becomes its looked-up code minus the first character, nothing else changes |
| GeoBranch.FillConserves | finn25_to_ff10.py:297-300 | filling region codes keeps each pollutant's total |
| GeoBranch.FillTotal | finn25_to_ff10.py:297-300 | filling region codes keeps the whole `val` total |
| GeoBranch.RollUpShape | finn25_to_ff10.py:302-315 | the roll-up has each coarsened key once, exactly those of its input rows; every row has process "c" and its day label as unit |
| GeoBranch.RollUpValues | finn25_to_ff10.py:310-312 | each rolled value is the summed `val` of the rows that roll into it |
| GeoBranch.RollUpConserves | finn25_to_ff10.py:312 | the roll-up keeps each pollutant's total |
| GeoBranch.RollUpTotal | finn25_to_ff10.py:312 | the roll-up keeps the whole `val` total |
| GeoBranch.RollUpDays | finn25_to_ff10.py:302-315 | the roll-up keeps days of month in 1..31 |
| GeoBranch.DropDenied | finn25_to_ff10.py:41 | the deny-list filter keeps exactly the rows of regions outside 19116, 19221, 19176 |
| GeoBranch.DropDeniedTotal | finn25_to_ff10.py:41 | the kept rows and the dropped deny-listed rows split the total |
| GeoBranch.GeoTable | finn25_to_ff10.py:35-41 | the global branch succeeds exactly when the cross-reference loads and every NA row's lookup succeeds, else IndexError or KeyError |
| GeoBranch.GeoTableShape | finn25_to_ff10.py:35-41 | no global row has a deny-listed region; every one has process "c", its day label as unit, and a day in 1..31 |
| GeoBranch.DeniedRows | finn25_to_ff10.py:41 | the rows the filter drops are all of deny-listed regions |
| GeoBranch.GeoTableTotal | finn25_to_ff10.py:35-41 | the global table plus the dropped rows carry exactly the NA rows' total |
| Convert.DailyFile | finn25_to_ff10.py:178-208 | the corrected daily writer: the file is written exactly when the inventory code has a name, else KeyError; its path, its 46 columns and one line per row of the summed pivot |
| Convert.AnnualFile | finn25_to_ff10.py:210-260 | the annual file is written exactly when the inventory code has a name, else KeyError; its path, its 77 columns and one line per annual row |
| Convert.DailyFileLines | finn25_to_ff10.py:182-208 | in the corrected daily file, day D of line i is the summed `val` of its index and day, and its month total the summed `val` of its index |
| Convert.AnnualFileLines | finn25_to_ff10.py:214-260 | in the annual file, the annual value of line i is the summed `val` of its key |
| Convert.CountryRowsNonEmpty | finn25_to_ff10.py:26-27 | a country's selection is nonempty exactly when some row carries its code |
| Convert.NationalInventory | finn25_to_ff10.py:26-29 | a country has an inventory exactly when some row carries its code, and it holds exactly those rows; otherwise the country is skipped |
| Convert.GlobalInventory | finn25_to_ff10.py:35-46 | the global inventory exists exactly when the global branch succeeds, else IndexError or KeyError |
| Convert.RunOf | finn25_to_ff10.py:24-46 | the corrected run has a place for each of the four countries, filled exactly for those with rows, and a global outcome that succeeds exactly when the branch does |
| Convert.Convert | finn25_to_ff10.py:23-46 | the corrected conversion runs exactly when the long table can be built, else ValueError |
| Convert.WrittenTargets | finn25_to_ff10.py:24-46 | in the corrected run, every inventory is for its own target and both its files are written |
| Convert.RunPathsDistinct | finn25_to_ff10.py:30-45 | a corrected run's daily and annual files never share a path |
| Convert.RunPathsDistinctTargets | finn25_to_ff10.py:30-45 | in a corrected run, files of one kind written for two different targets never share a path |
| Convert.InventoryConserves | finn25_to_ff10.py:183-216 | an inventory's corrected daily month totals and its annual values both add up to its rows' whole total |
| Convert.CountryRowsDays | finn25_to_ff10.py:26 | a country's selection keeps days in 1..31 |
| Convert.NationalShare | finn25_to_ff10.py:24-34 | in the corrected run, a country's daily and annual files carry exactly its share of the total, and a skipped country has none |
| Convert.GlobalShare | finn25_to_ff10.py:35-46 | in the corrected run, the global files carry the NA rows' total less the dropped deny-listed regions |
| Convert.RunConservesDaily | finn25_to_ff10.py:24-46 | the daily files of the corrected run and the dropped rows account for the long table's whole total |
| Convert.RunConservesAnnual | finn25_to_ff10.py:24-46 | the annual files of the corrected run and the dropped rows account for the long table's whole total |
| Convert.ConvertRun | finn25_to_ff10.py:23-24 | a completed conversion is the run of its long table |
| Convert.LongTableSites | finn25_to_ff10.py:154-174 | every long row has a day of month and one of the five country codes |
| Convert.ConvertConserves | finn25_to_ff10.py:23-46 | the daily files of the corrected run and the dropped rows carry the total of all value columns of the detections read in, and so do the annual files |
| MainRun.DailyFileAsWritten | finn25_to_ff10.py:178-208 | the script's daily writer raises KeyError exactly when a day of month is missing from the inventory or its code has no name; otherwise its path, 46 columns and one line per row of the averaged pivot |
| MainRun.DailyFileAsWrittenCells | finn25_to_ff10.py:183-200 | as written, day D of line i is the mean `val` of its index and day, zero where there is none |
| MainRun.DailyFileAsWrittenAgrees | finn25_to_ff10.py:183-200 | with every day present and no two rows in one cell, the script's daily file is the corrected one |
| MainRun.WriteInventory | finn25_to_ff10.py:30-34 | an inventory's daily then annual file are written, at its two paths, exactly when neither writer raises; as written, a missing day writes neither |
| MainRun.CountryLoop | finn25_to_ff10.py:24-34 | the country loop runs to its end exactly when every country it reaches can be written; otherwise it stops with KeyError |
| MainRun.MainTrace | finn25_to_ff10.py:24-46 | the run ends without an exception exactly when every national inventory can be written, the global branch succeeds and the global inventory can be written; an exception is KeyError or the global branch's |
| MainRun.Script | finn25_to_ff10.py:16-46 | the script raises ValueError and writes nothing when the long table cannot be built; otherwise it runs to its end exactly when every inventory it reaches has all 31 day columns and the global branch succeeds |
| MainRun.RunOfNamed | finn25_to_ff10.py:13-14 | every inventory of a run has an inventory name, and each national one is at its country's place |
| MainRun.CorrectedLoop | finn25_to_ff10.py:24-34 | with the corrected pivot the country loop never raises and writes each country's two files in turn |
| MainRun.CorrectedTraceFiles | finn25_to_ff10.py:24-46 | with the corrected pivot the run fails only where the global branch does, and writes exactly the files of the corrected run |
| MainRun.CountryLoopAgrees | finn25_to_ff10.py:24-34 | where every inventory has all its days and no colliding cell, the script's country loop is the corrected one |
| MainRun.MainTraceAgrees | finn25_to_ff10.py:24-46 | where every inventory has all its days and no colliding cell, the script writes exactly what the corrected run writes |
| MainRun.CountryFileApart | finn25_to_ff10.py:30-45 | a file of one country is at no path of another country, nor at a global path |
| MainRun.LoopAbort | finn25_to_ff10.py:24-34 | as written, a country whose inventory lacks a day of month makes the loop raise KeyError |
| MainRun.LoopAbortFiles | finn25_to_ff10.py:24-34 | as written, every file written before that exception belongs to an earlier country |
| MainRun.EarlierFileApart | finn25_to_ff10.py:30-45 | a file of an earlier country is at no path of country k, of a later one, or of the global inventory |
| MainRun.NationalAbort | finn25_to_ff10.py:24-46 | as written, a country whose inventory lacks a day of month ends the run with KeyError: no file of it, of a later country or of the global branch is written |
| MainRun.OneDayAborts | finn25_to_ff10.py:24-34 | as written, a nonempty long table of US rows all on one day of the month ends the run with KeyError (its missing day columns, lines 199-200) before any file is written |
| MainRun.ScriptRuns | finn25_to_ff10.py:22-24 | where the long table can be built, the script is the as-written run of that table |
| MainRun.OneFireAborts | finn25_to_ff10.py:16-34 | as written, a single detection whose long rows the boundary lookup places in the US ends the script with KeyError before any file is written |
| MainRun.ScriptConserves | finn25_to_ff10.py:16-46 | where the script runs to its end and no inventory has two rows in one cell, it writes exactly the corrected run's files, whose daily files and the dropped rows carry the total of all value columns read in |

## Left out

- Reading the FINN file, the column renames and `usecols` (lines 134-145), the netCDF raster file and the shapefile are inputs. The detections, the raster and the cross-reference lines are parameters.
- `na_shape` (OGR point-in-polygon with an EPSG 4326 to 4267 transform) is the parameter `locate`. Its result is taken as given.
- `calc_mass` and the acreage filter (lines 80-100, 147-149) are floating-point unit conversions. The model starts from the 13 value columns they leave.
- Rounding to 2, 1 and 6 decimals is left out. Coordinates are already in hundredths of a degree. The roll-up's one-decimal rounding is the parameter `coarsen`. Values are not rounded. Binary floating point at cell edges is not modelled.
- CSV formatting is not modelled: float text, quoting, and the writing of lines to disk. A file is its path, header lines, column names and cell values.
- The `print` diagnostics are left out, and so is the warning on longitude 0. The model only records that it is raised.
- pandas row order is left out. `GroupSum` keeps first-appearance order, while pandas sorts the keys. No property depends on order.
- `strip_nocan.py` is not part of this model. It is a CSV filter on a bounding box.
- The command-line check and the year argument (lines 17-21) are left out. The year is an integer in 1000..9999, the range `%Y` accepts.
- `roll_up_geo`'s `rel_point_id` (line 313) is not modelled. Both writers overwrite it from `facility_id` (lines 187, 219).
- Columns that the group-by sums but no writer outputs are not modelled: `day` text, `monthnum` in the annual sum, and `latitude`/`longitude` in the daily pivot.
- GeoBranch.FillGeocodes, GeoBranch.GeoTable: an empty NA selection gives an empty table. In pandas, the row-wise `apply` of line 298 on an empty frame returns a frame, and `.str` on it then fails, so the script would raise there. That exception and what depends on it are not modelled.
- A column name is a datatype constructor, not a string. The output column lists are written out in their order.
- Convert.ConvertConserves: states conservation for runs whose global branch succeeds. When the global branch fails, the national files are written and the global ones are not.
- Convert.DailyFile, Convert.DailyFileLines, Ff10.DailyInventoryCells: model the corrected daily writer, which sums colliding cells and fills missing days with zero. As written, line 183 averages and line 200 raises KeyError for a missing day. That writer is MainRun.DailyFileAsWritten.
- Convert.RunOf, Convert.Convert, Convert.WrittenTargets: model the corrected run, in which no daily write raises. As written, a KeyError at line 200 ends the run before later countries and the global branch. That run is MainRun.MainTrace and MainRun.Script.
- Convert.InventoryConserves, Convert.NationalShare, Convert.GlobalShare, Convert.RunConservesDaily, Convert.RunConservesAnnual, Convert.ConvertConserves: state conservation for the corrected run. The script as written meets it only where it runs to its end and no inventory has colliding cells (MainRun.ScriptConserves).
- Convert.NationalInventory: states which countries have an inventory and its rows. Whether `main` reaches that country's writers is MainRun.CountryLoop's.
- Detections.LongTableConserves, Convert.ConvertConserves: count every detection given. `groupby` at line 155 drops rows whose key columns (DAY, POLYID, FIREID, GENVEG, LATI, LONGI) are blank, since `dropna` defaults to true. Blank keys are not modelled, because every key is a value here.
- Text.ParseInt: accepts surrounding white space, a sign and ASCII digits. Python's `int()` (lines 72, 162, 168) also accepts underscores between digits and non-ASCII decimal digits. Those texts raise ValueError here. The parse is unbounded, like Python's `int()` at line 72. The `astype(int)` conversions of lines 162 and 168 are bounded, and that bound is not modelled (next line).
- Detections.DayOfYearOf, Regions.SccFor: `astype(int)` at lines 162 and 168 converts to a 64-bit integer and raises OverflowError for integer text outside that range. Here such text parses. An out-of-range DAY then fails in `set_date` with ValueError. An out-of-range GENVEG gets the wildfire SCC. There is no OverflowError fault in the model.
- Detections.Resolve, Detections.LongTable, Convert.Convert, MainRun.Script: inherit that gap. Their "fails exactly when a day or vegetation class does not parse, with ValueError" does not cover the OverflowError of out-of-range integer text.

## Findings

| source | as written | input that shows it | evidently intended | confidence | as-written member | corrected member |
|---|---|---|---|---|---|---|
| finn25_to_ff10.py:183 | `pd.pivot_table` with no `aggfunc` averages the `val` of the long rows that share an index and day | two long rows with the same index and day, values 1.0 and 3.0: the cell is 2.0 | the cell is the sum, 4.0, so that `monthtot` and the annual value agree and the fire mass is kept | not executed; medium: needs two fires with the same facility, unit and process on one day | Daily.PivotMeansLosesMass | Daily.DailyPivotConserves |
| finn25_to_ff10.py:199-200 | `day_df[days]` selects all 31 `dayvalN` columns, but the pivot only creates those for days that occur | a single detection, whose 13 long rows share one day; or any inventory none of whose fires falls on a 31st: KeyError | days with no fire are written as zero, like the empty cells of existing columns | not executed; high | Daily.OneDayTableFails, Daily.NoThirtyFirstFails, MainRun.OneFireAborts | Daily.DailyPivotCells |
