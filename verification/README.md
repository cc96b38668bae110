# CLOC history handler: a verified model

This project models the data handler of SmartPlot. The handler imports a
line-count-history report, which is a text file of SQL statements written by
a CLOC-style report generator. It lists the languages found in the report as
a toggle menu, and on every menu choice it redraws a stacked bar chart of
"same", "modified", "added" and "removed" lines over time.

The model covers the handler's own logic:

- `MetaData`: which file lines are executed, and the toggle list built from
  the languages (every language except the aggregate `SUM`, inactive at first).
  It also covers how a menu choice changes the list. `ALL` activates every
  entry, `NONE` deactivates every entry, and any other key flips the entries
  whose key value matches.
- `Resolution`: the bar width. It is the smallest gap of at least one day
  between consecutively read snapshot timestamps, with `0x7FFFFFFF` when there
  is no such gap. The width is then rounded up to whole days. The code takes
  the minimum first and rounds it afterwards. It does not choose among gaps
  that are already whole days, and the model follows the code.
- `Series`: the five parallel vectors given to the chart. Snapshots are walked
  from the highest id down to 1. Filler points are inserted while the next
  timestamp lies more than 1.1 widths after the last date. Each real point sums
  the counts of the active languages, and the "removed" count is subtracted.
- `ClocHandler`: the import and the redraw composed from the above, plus the
  32-bit rounding as written (see Findings).
- `Sequences`: an order-preserving filter and the subsequence relation, shared
  by the import and the metadata build.

The database is replaced by data:

- The `snapshots` table is a sequence of `Snapshot(id, timestamp)` rows in the
  order the table returns them.
- `MAX(id)` of an empty table is 0.
- A snapshot id with no row has timestamp 0, which is what reading an invalid
  query result gives.
- The `results` table is a map from (snapshot id, type, language) to `nCode`.
  A missing key is a query with no row and contributes nothing.
- The languages the import sees are a parameter, because executing the file's
  statements is opaque.

The static `prevDateTime` of the scan keeps its value from one redraw to the
next. It is modelled as an explicit input and output (`Resolution.ScanResolution`,
`ClocHandler.DataPlot`), so the first comparison of a redraw is made against
the last timestamp of the previous one, as in the source. The comparison
`dateTime - dates.last() > resolution*1.1` is written in integers as
`10*(dateTime - last) > 11*resolution`.

Timestamps come from `toInt()` and are integers. The chart vectors hold them as
doubles, which represent them exactly.

Two consequences of the source follow from the model:

- With the corrected, positive width, fillers are only inserted when
  timestamps grow as the snapshot id falls. If no snapshot is newer than one
  with a higher id (timestamps never fall as the id grows), the walk never
  moves forward in time, the gap condition never holds, and the chart has
  exactly one point per snapshot (`Series.WalkBackwardsNoFillers`). It is not
  enough that the newest snapshot has the highest id: an older snapshot with
  a lower id can still lie more than 1.1 widths after the one before it in
  the walk.
  With the width as written this holds only when some gap of a day or more
  exists, because otherwise the 32-bit width is negative and the gap
  condition holds even backwards in time (see Findings).
- A language named `ALL` or `NONE` cannot be toggled on its own. Its menu
  action acts like "All Languages" or "No Languages".

## Model

| member | source | states |
|---|---|---|
| `MetaData.ImportStatements` | src/datahandlers/cloc_handler.cpp:320-329 | the executed statements are exactly the non-empty lines that do not start with the null character, each as often as in the file, in file order |
| `MetaData.BuildMetaData` | src/datahandlers/cloc_handler.cpp:333-344 | one entry per language other than "SUM", with multiplicity and in input order; each entry has key field = key value = the name and starts inactive |
| `MetaData.BuildMetaDataDistinct` | src/datahandlers/cloc_handler.cpp:333-344 | distinct languages give entries with distinct key values, so each language is listed once |
| `MetaData.BuildMetaDataMembership` | src/datahandlers/cloc_handler.cpp:333-344 | a name has an entry if and only if it is among the languages and is not "SUM" |
| `MetaData.KeyValuesInLanguages` | src/datahandlers/cloc_handler.cpp:340-341 | every built entry names one of the reported languages |
| `MetaData.ApplySelection` | src/datahandlers/cloc_handler.cpp:133-157 | the length and every key field and key value are unchanged; "ALL" makes every entry active; "NONE" makes every entry inactive; any other key flips exactly the entries whose key value matches and leaves the others as they were |
| `MetaData.SelectionInvolution` | src/datahandlers/cloc_handler.cpp:145-156 | choosing the same language twice restores the original list |
| `MetaData.SelectAllNoneIdempotent` | src/datahandlers/cloc_handler.cpp:137-144 | choosing "ALL" or "NONE" a second time changes nothing |
| `MetaData.TogglesCommute` | src/datahandlers/cloc_handler.cpp:145-156 | toggling two languages gives the same list in either order |
| `MetaData.SelectAfterImport` | src/datahandlers/cloc_handler.cpp:145-155 | after an import of distinct languages, choosing one language makes it the only active entry |
| `Resolution.Scan` | src/datahandlers/cloc_handler.cpp:181-190 | the result is at most the starting width and is either that width or one of the qualifying gaps; it is no larger than any gap of a day or more that follows a non-zero timestamp; the last timestamp read is kept |
| `Resolution.ScanStepMinimal` | src/datahandlers/cloc_handler.cpp:181-190 | a value below the first read's result and below every qualifying gap of the remaining reads is below every qualifying gap |
| `Resolution.ScanResolution` | src/datahandlers/cloc_handler.cpp:162-190 | the width is between 86400 and 0x7FFFFFFF; it is 0x7FFFFFFF or a qualifying gap, and it is the minimum over qualifying gaps; the static previous timestamp ends at the last one read |
| `Resolution.NoQualifyingGap` | src/datahandlers/cloc_handler.cpp:162-190 | with no gap of at least a day the width stays at 0x7FFFFFFF |
| `Resolution.RoundUpToDay` | src/datahandlers/cloc_handler.cpp:192-194 | the rounded width is a multiple of 86400, at least the input and less than one day above it; an exact multiple is unchanged |
| `Resolution.RoundUpToDayInt32` | src/datahandlers/cloc_handler.cpp:192-194 | in 32-bit arithmetic the rounding equals the exact one while that fits, and otherwise wraps to the exact value minus 2^32, which is negative |
| `Resolution.Int32RoundingExactIff` | src/datahandlers/cloc_handler.cpp:192-194 | for widths the scan can produce, the 32-bit rounding is exact if and only if the width is at most 24855 days |
| `Resolution.InitialResolutionOverflows` | src/datahandlers/cloc_handler.cpp:162-194 | 0x7FFFFFFF rounds to 2147558400, which the 32-bit int holds as -2147408896 |
| `Resolution.ChartResolution` | src/datahandlers/cloc_handler.cpp:180-194 | the chart width is a positive whole number of days, at least the scanned minimum and less than one day above it, and less than one day above every qualifying gap |
| `Series.MaxId` | src/datahandlers/cloc_handler.cpp:167-170 | the number of versions is an id of some row that no row exceeds, and 0 for an empty table |
| `Series.TimestampOf` | src/datahandlers/cloc_handler.cpp:198-201 | the timestamp of a version is that of the row at the first index holding that id, and 0 when no row holds it |
| `Series.TimestampOfFirstRow` | src/datahandlers/cloc_handler.cpp:198-201 | any row with the id and no earlier row with it gives the timestamp; with no such row the timestamp is 0 |
| `Series.AccumulatePoint` | src/datahandlers/cloc_handler.cpp:224-249 | the loop over the toggle list yields, for each column, the sum of the present counts of the active languages; the removed column is the negated sum |
| `Series.ActiveSumAppend` | src/datahandlers/cloc_handler.cpp:224-249 | the sum over the list a + b is the sum over a plus the sum over b |
| `Series.ActiveSumPermutation` | src/datahandlers/cloc_handler.cpp:224-249 | any reordering of the toggle list (the same multiset of entries) gives the same sums, so the point does not depend on the order of the menu |
| `Series.ActiveSumRemoveAt` | src/datahandlers/cloc_handler.cpp:224-249 | the sum over the list is the sum without any one entry plus that entry's contribution |
| `Series.ActiveSumNoneActive` | src/datahandlers/cloc_handler.cpp:227 | with no active language every sum is zero |
| `Series.ActiveSumFrame` | src/datahandlers/cloc_handler.cpp:226-248 | the sums read only the rows of active languages |
| `Series.PushFiller` | src/datahandlers/cloc_handler.cpp:208-213 | a filler is one width after the last date, carries same+modified+added as its "same" value, has zeros elsewhere, and leaves all five vectors equally long |
| `Series.FillGaps` | src/datahandlers/cloc_handler.cpp:203-215 | the vectors stay equally long and extend the input; every appended point is a filler whose predecessor still met the gap condition; afterwards 10*(d - last) <= 11*width |
| `Series.FillersCarryTotal` | src/datahandlers/cloc_handler.cpp:208-209 | every filler of one gap carries the total of the last real point |
| `Series.NoFillBackwards` | src/datahandlers/cloc_handler.cpp:204-206 | a timestamp not later than the last date adds no filler |
| `Series.FillGapsIncreasing` | src/datahandlers/cloc_handler.cpp:206-208 | filler dates increase strictly and stay before the next timestamp |
| `Series.PushPoint` | src/datahandlers/cloc_handler.cpp:217-249 | a real point is dated by its snapshot, extends all five vectors by one, and holds the active-language sums of its version in "same", "modified" and "added" and the negated sum in "removed" |
| `Series.Step` | src/datahandlers/cloc_handler.cpp:196-250 | one version adds fillers and then its real point; on a non-empty chart every added filler was added while the gap to the new date was still more than 1.1 widths, and the point before the real point is within 1.1 widths, so no filler is missing or extra; on an empty chart only the real point is added; the real point's columns are the sums over the active languages, with removed negated |
| `Series.StepShape` | src/datahandlers/cloc_handler.cpp:203-222 | one turn of the loop appends exactly the fillers of its gap and then the real point of its version |
| `Series.Walk` | src/datahandlers/cloc_handler.cpp:196-250 | the walk keeps the vectors equally long and the earlier points unchanged, and ends at the date of version 1; every version from v down to 1 has an appended real point with its snapshot's date and the active-language sums (removed negated); every other appended point is a filler; no appended point is more than 1.1 widths after its predecessor; and the appended points come in the walk's order: for each version from v down to 1, fillers exactly while the previous point is more than 1.1 widths before that version's date, then its real point, and nothing after version 1 |
| `Series.WalkTurn` | src/datahandlers/cloc_handler.cpp:196-250 | one turn of the loop followed by the rest of the walk keeps the walk's contents and its order |
| `Series.WalkStepShape` | src/datahandlers/cloc_handler.cpp:196-250 | the fillers and real point of one turn, followed by the walk's order for the lower versions, read as the walk's order from that version |
| `Series.ShapeFromGap` | src/datahandlers/cloc_handler.cpp:203-222 | fillers added while the gap test held, followed by the real point, read as the walk's order for that version |
| `Series.WalkStepContents` | src/datahandlers/cloc_handler.cpp:196-250 | one version's step followed by the walk of the remaining versions has a real point for every version and only real points or fillers |
| `Series.BuildSeries` | src/datahandlers/cloc_handler.cpp:165-250 | the five vectors are equally long, with at least one point per version; every version 1..MAX(id) has a real point with its snapshot's date and the active-language sums; every other point is a filler; no point is more than 1.1 widths after its predecessor; the points come in the walk's order from the highest id down to 1, with fillers exactly where the gap test holds |
| `Series.WalkShapeUnique` | src/datahandlers/cloc_handler.cpp:196-250 | two charts that agree on their first points and from there both follow the walk's order for the same versions, width and counts are equal, so that order fixes the number of fillers and every value |
| `Series.BuildSeriesExact` | src/datahandlers/cloc_handler.cpp:165-250 | a chart has the walk's order from the highest id if and only if it is the built chart |
| `Series.ShapeBackwardsLength` | src/datahandlers/cloc_handler.cpp:196-222 | if timestamps do not grow as the id falls, a chart in the walk's order has exactly one point per version |
| `Series.WalkIncreasing` | src/datahandlers/cloc_handler.cpp:196-222 | if timestamps grow as the id falls, the dates, fillers included, increase strictly |
| `Series.WalkBackwardsNoFillers` | src/datahandlers/cloc_handler.cpp:196-222 | if timestamps do not grow as the id falls, there is exactly one point per version |
| `Series.NoActivePointIsZero` | src/datahandlers/cloc_handler.cpp:217-249 | with no active language a real point is zero in every column |
| `ClocHandler.OpenDelimitedFile` | src/datahandlers/cloc_handler.cpp:303-346 | an unopened file changes nothing; otherwise the executed statements are exactly the statement lines of the file, each as often as in the file, and the old list is kept and followed by inactive entries; a name gets an appended entry if and only if it is a reported language other than "SUM"; every reported language other than "SUM" is appended as often as it is reported, and the appended names keep the reported order |
| `ClocHandler.DataPlot` | src/datahandlers/cloc_handler.cpp:125-250 | a redraw keeps the list length and every key; "ALL" activates every entry, "NONE" deactivates every entry, and any other key flips exactly the matching entries; the width is a whole number of days within one day above the scanned minimum; every version has a real point with its date and the active-language sums, every other point is a filler, and no point is more than 1.1 widths after its predecessor; the points come in the walk's order from the highest id down to 1; the last scanned timestamp is left in the static |
| `ClocHandler.DataPlotSeriesExact` | src/datahandlers/cloc_handler.cpp:196-250 | a chart has the walk's order for a redraw's width and toggle list if and only if it is the redraw's chart |
| `ClocHandler.SelectNoneDrawsZero` | src/datahandlers/cloc_handler.cpp:141-250 | after "No Languages" every value of every column, fillers included, is zero |
| `ClocHandler.ChartZero` | src/datahandlers/cloc_handler.cpp:203-249 | a chart made only of fillers and real points is zero everywhere when no language is active |
| `ClocHandler.DataPlotResolutionInt32` | src/datahandlers/cloc_handler.cpp:162-194 | the 32-bit width equals the chart width while the scanned width is at most 24855 days, and is negative above that |
| `ClocHandler.NegativeResolutionNeverStops` | src/datahandlers/cloc_handler.cpp:204-214 | with a negative width, a gap condition that holds keeps holding after any number of fillers |
| `ClocHandler.HourApartWrapsNegative` | src/datahandlers/cloc_handler.cpp:180-194 | two snapshots an hour apart give the 32-bit width -2147408896 |
| `ClocHandler.OverflowStallsGapFill` | src/datahandlers/cloc_handler.cpp:162-214 | for those two snapshots the 32-bit width is negative and the filling loop's condition holds forever, while the corrected redraw yields exactly two points |
| `ClocHandler.HourApartCorrected` | src/datahandlers/cloc_handler.cpp:196-222 | with the unbounded width the two snapshots give exactly two points |
| `ClocHandler.HourApartOnePointEach` | src/datahandlers/cloc_handler.cpp:196-222 | for any positive width the two snapshots give exactly two points |

## Findings

| source | as written | input that shows it | evidently intended | confidence | as-written member | corrected member |
|---|---|---|---|---|---|---|
| src/datahandlers/cloc_handler.cpp:162-214 | if no gap of at least one day exists, `resolution` stays `0x7FFFFFFF`, and `resolution += 86400 - resolution%86400` overflows the 32-bit `int` (to -2147408896 under two's-complement wrap-around). With the negative width the gap condition holds after every filler, so the filling loop never ends | two snapshots, id 1 at timestamp 1000 and id 2 at timestamp 4600 | a positive bar width of whole days, computed without overflow, so that filling stops | medium (signed overflow is undefined behaviour in C++; wrap-around assumed), not executed | `ClocHandler.OverflowStallsGapFill` | `Resolution.ChartResolution` |

`ClocHandler.DataPlot` uses the corrected width. `ClocHandler.HourApartCorrected`
shows that the same input then gives exactly two points.

## Left out

- Menu construction, the context-menu early return and the event filter that syncs icons (cloc_handler.cpp:9-53, 71-106): these are GUI toolkit behaviour.
- The file dialog, the remembered directory, the progress dialog and its cancel button, and file reading and decoding (cloc_handler.cpp:108-123, 303-323): these are I/O. The model takes the lines of a fully read file, so cancelling mid-read is not modelled.
- Executing the SQL statements, the database connection and every query (cloc_handler.cpp:327, 348-356, and the queries in `dataPlot`): these are replaced by snapshot rows, a count map and the list of reported languages. Language names that would break the quoted query text are not modelled.
- `dataImport` clearing the list before the import (cloc_handler.cpp:55-65) is outside the modelled core. `ClocHandler.OpenDelimitedFile` takes the list it appends to as input.
- Creating, stacking and scaling the bars, the axis labels and the date ticker (cloc_handler.cpp:173-177, 252-293): these belong to the plotting widget.
- Series.FillGaps: uses the exact integer comparison `10*(d - last) > 11*width` in place of the floating-point product `resolution*1.1`.
- Timestamps and `nCode` values are unbounded integers in the model. The source reads them with `toInt()` into a 32-bit `int`, and the model does not restrict them to that range. Only the width rounding is modelled in 32 bits, because that is where the overflow shows.
- The double-valued vectors: they are modelled as unbounded integers. Every value is an integer well inside a double's exact range.
