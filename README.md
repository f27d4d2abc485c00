# Glucose tracker: temporal aggregation, in Dafny

This project models the computational core of a small glucose-tracking
application. That core has five parts.

- **Server (`server.py`).**
  - The trapezoidal time-weighted mean of glucose readings.
  - The ISO 8601 weekly chart series. The week rule is section 4.1.4 of ISO 8601:2004: weeks start on Monday, and week 01 holds the year's first Thursday.
  - The per-intake summary: the nearest insulin dose, the last glucose level before the intake, hourly ±30 min averages for twelve hours, the events of the next twelve hours, and the AM/PM tag.
  - Intake creation, which derives kilocalories from the nutrition table or rejects an unknown nutrition id.
- **Command-line tool (`time-weighted-mean.py`).**
  - It parses a two-column CSV, sorts the samples by time and keeps the last level per timestamp.
  - It then splits the samples into ISO weeks or days and prints one time-weighted mean per period.
  - Its boundary rule differs from the server's buckets: the sample that opens a period is also the last sample of the period it closes.
- **Front-end helpers.**
  - The glucose colour bands (`getGlucoseColor`).
  - The `datetime-local` timestamp of the current time and its store form.
  - The default date ranges.
  - The fill-only-empty rule for datetime inputs.
- **CSV importer.** The timestamp conversion `parse_timestamp`.
- **Export converters.** The per-line column selection of `tools/extract.py` and `tools/extract-legacy.py`.

How things are modelled:

- **Store and timestamps.** The SQL store is a class whose fields are the tables. A query is a filter, a minimum or a sort over those sequences. A stored timestamp is a `DateTime` record, and its text form is the `YYYY-MM-DD HH:MM:SS` rendering.
- **Clocks.** Every clock reading is a parameter.
- **Numbers.** Levels are integers and means are reals. `round` is round-half-even on reals.

Modules, in dependency order:

- `Wrappers`, `Text`, `Calendar` (the proleptic Gregorian calendar, ordinals and the ISO week date), `Timestamps`;
- `TimeWeighted`, `Readings`, `Grouping`, `Sorting`, `Rounding`, `Tables`;
- `WeeklyChart`, `Summary`, `Store`;
- `MeanTool`, `Dashboard`, `FormUtils`, `CsvImport`;
- `Extract`, `ExtractLegacy`.

Where code that changes state is imperative, the model is too:

- loops become methods with invariants;
- `list.sort` is an in-place insertion sort on an array;
- the database and the date inputs are classes;
- `setCurrentTimestamp` updates an array in place.

Each method is proved equal to a function, and the properties are lemmas about that function.

## Model

| member | source | states |
|---|---|---|
| TimeWeighted.TimeWeightedMean | server.py:211-228 | the accumulating loop returns exactly the mean `TwMean`: none for under two readings or zero total time, else total trapezoid area over total time |
| TimeWeighted.TwMeanUndefined | server.py:211-227 | the mean is absent iff there are fewer than two readings or the last reading's time equals the first's (the gaps telescope) |
| TimeWeighted.ElapsedTelescopes | server.py:218-224 | the summed gaps `total_time` equal last time minus first time |
| TimeWeighted.TwoReadings | server.py:215-228 | two readings at distinct times average to the midpoint of their levels; 90 and 110 an hour apart give 100 |
| TimeWeighted.AreaWithin | server.py:218-223 | for time-ordered readings with levels in [lo, hi], the total area lies between lo·time and hi·time |
| TimeWeighted.TwMeanWithin | server.py:215-228 | for time-ordered readings, a defined mean lies between the lowest and highest level |
| TimeWeighted.TwMeanConstant | server.py:215-228 | readings of a single level have that level as their mean |
| TimeWeighted.AreaSplit | server.py:218-223 | the area of two runs joined end to end is the sum of their areas plus the trapezoid across the seam |
| TimeWeighted.ElapsedSplit | server.py:218-224 | the time of two runs joined end to end is the sum of their times plus the gap across the seam |
| TimeWeighted.TrapezoidCollinear | server.py:219-222 | a reading on the line through its neighbours splits their trapezoid into two that add up to it |
| TimeWeighted.TwMeanCollinear | server.py:215-228 | inserting a reading on the straight line between two consecutive readings leaves the mean unchanged (the curve is piecewise linear) |
| Calendar.IsoCalendarCorrect | server.py:198 | `isocalendar()` places a date in its ISO year and week: the day lies in week `w` counted from the Monday on or before January 4, and the week is at most 53 |
| Calendar.Week1HoldsFirstThursday | server.py:198 | week 01 of every ISO year holds the first Thursday of January |
| Calendar.IsoYearUnique | server.py:198 | a day belongs to only one ISO year |
| Calendar.SameIsoWeekIffSameMonday | server.py:198 | two dates share ISO year and week iff they have the same Monday |
| Calendar.IsoWeekCrossesYearEnd | server.py:198 | 2024-12-30 is in week 1 of 2025; 2025-01-02 is its Thursday |
| Calendar.OrdinalMonotone | server.py:221 | later dates have larger day ordinals, so elapsed seconds follow the date order |
| Calendar.BeforeIsSecondsLess | server.py:221 | the field order of date-times is the order of their seconds count |
| Calendar.SecondsInjective | server.py:221 | distinct valid date-times are distinct instants |
| Calendar.DaysInMonth | static/js/utils.js:81 | every month has 28 to 31 days |
| Calendar.LastDayOfMonth | static/js/utils.js:81 | the day after a month's last day is the first of the next month, or New Year's Day |
| Timestamps.Parse | server.py:197 | a parsed timestamp is a real date-time |
| Timestamps.ParseRender | server.py:197 | parsing the rendering of a date-time gives it back |
| Timestamps.RenderParse | server.py:197 | rendering a parsed text gives the text back |
| Timestamps.FormatDbShape | server.py:272 | the stored form is 19 characters and parses back to its date-time |
| Timestamps.FormatDbOrder | server.py:238 | text comparison of stored timestamps is date-time order, and equal texts are equal instants |
| Timestamps.DateTextOrder | time-weighted-mean.py:72 | `%Y/%m/%d` texts compare as their dates, and are equal iff the dates are |
| Timestamps.StartDateBound | server.py:238-240 | a stored timestamp is not below a bare start date iff the instant is at or after that day's midnight |
| Timestamps.EndDateBound | server.py:238-240 | `end_date + ' 23:59:59'` is the text of the day's last second, and a timestamp is at or below it iff the instant is at or before that second |
| Timestamps.LastSecondText | server.py:240 | the end-of-day suffix is the clock text of 23:59:59 |
| Rounding.RoundHalfEven | server.py:207 | the rounded integer is within one half of the value, and ties go to the even neighbour |
| Rounding.RoundToSpec | server.py:207 | `round(x, n)` is within half a unit of the n-th decimal place |
| Rounding.RoundToIdempotent | server.py:207 | rounding a rounded value changes nothing |
| Rounding.RoundTiesToEven | server.py:207 | 0.125 rounds to 0.12, 0.375 to 0.38, 2.5 to 2 |
| Rounding.RoundToWithin | server.py:282 | rounding keeps a value within integer bounds that enclose it |
| Rounding.RoundHalfEvenUnique | server.py:207 | an integer less than one half away is the rounding |
| Rounding.RoundHalfEvenOfInt | server.py:207 | an integer rounds to itself |
| Readings.Points | server.py:219-221 | each reading becomes the pair (seconds, level), in order |
| Readings.PointsOrdered | server.py:219-221 | chronological readings give time-ordered points |
| Readings.PointsWithin | server.py:219-221 | level bounds on the readings carry over to the points |
| Grouping.GroupsPartition | server.py:196-200 | the `defaultdict` lists together hold every row exactly once |
| Grouping.GroupMembers | server.py:200 | a row is in the list of its own key and in no other |
| Grouping.KeysInOrderMembers | server.py:194-200 | the dictionary's keys are exactly the keys of the rows |
| Grouping.GroupKeepsOrder | server.py:200 | appending keeps each list in row order |
| Sorting.SortInPlace | time-weighted-mean.py:43 | the in-place sort leaves the array as the stable key sort of its old contents |
| Sorting.SortBySorted | time-weighted-mean.py:43 | the result is in key order |
| Sorting.SortByStable | time-weighted-mean.py:43 | elements with equal keys keep their input order, and no element is lost or added |
| Sorting.SortBySortedIdentity | time-weighted-mean.py:43 | sorted input is left unchanged |
| Tables.KcalPerGram | init_db.py:41 | the generated column is `kcal / weight`, `NULL` exactly for zero weight |
| Tables.FindNutrition | server.py:98-100 | the lookup by id finds a row with that id, or none iff no row has it |
| Tables.FindUnique | server.py:98-100 | with unique ids, the lookup of a row's id finds that row |
| Tables.Filter | server.py:262-264 | a `WHERE` clause keeps exactly the rows that satisfy it |
| Tables.FilterSubsequence | server.py:262-264 | filtering keeps the relative order of the rows |
| WeeklyChart.Bucket | server.py:196-200 | a bucket holds exactly the rows with its ISO week label |
| WeeklyChart.FillBuckets | server.py:193-200 | the first loop leaves each label's list equal to its bucket, with the labels in order of first appearance |
| WeeklyChart.CalculateWeeklyMean | server.py:189-209 | the method returns exactly `WeeklyMeans(rows)` |
| WeeklyChart.WeeklyMeansSpec | server.py:189-209 | under two rows the result is empty; labels strictly ascend; each entry is a seen week with its bucket's rounded mean; every week with a defined mean appears |
| WeeklyChart.WeeklyMeansWithin | server.py:202-209 | for chronological rows, every weekly mean lies between the lowest and highest level |
| WeeklyChart.BucketsPartition | server.py:196-200 | every row lands in exactly one bucket |
| WeeklyChart.WeekKeySameWeek | server.py:197-199 | two rows share a label iff they share ISO year and week |
| WeeklyChart.WeekLabelInjective | server.py:199 | the label `"{y}/W{w:02d}"` determines year and week |
| WeeklyChart.SameBucketIffSameMonday | server.py:197-200 | two rows share a bucket iff their days have the same Monday |
| WeeklyChart.SortLabelsAscending | server.py:203 | `sorted(keys)` of distinct labels is strictly ascending and has the same members |
| WeeklyChart.MeansForComplete | server.py:203-207 | every label whose mean is defined yields an entry |
| WeeklyChart.MeansForSound | server.py:203-207 | every entry comes from a label and its mean is that label's rounded mean |
| WeeklyChart.FilledStep | server.py:196-200 | one more pass of the first loop keeps every label's list equal to its bucket over the rows seen so far |
| WeeklyChart.BucketChronological | server.py:200 | buckets of chronological rows are chronological, since appending keeps row order |
| WeeklyChart.SortLabels | server.py:203 | `sorted(weekly_data.keys())` has the same labels, each as often |
| WeeklyChart.InsertLabelAscending | server.py:203 | inserting a new label into a strictly ascending list keeps it strictly ascending |
| WeeklyChart.LookupBucket | server.py:203-207 | every sorted label has a list, and that list is its bucket, whose mean is the label's mean |
| WeeklyChart.MeansForAscending | server.py:203-207 | skipping labels with no mean keeps the entries strictly ascending |
| Summary.JoinNutritionMembers | server.py:235-237 | the join yields exactly the intakes with a matching nutrition row, carrying that row's name |
| Summary.SelectIntakesSpec | server.py:235-241 | the intake query returns the joined intakes in the date range, each once, sorted by time |
| Summary.SelectedInTextOrder | server.py:239 | the stored timestamps of the selected intakes never decrease |
| Summary.RangeIsWholeDays | server.py:238-240 | with bare dates as bounds, the range is midnight of the start date to the last second of the end date |
| Summary.NearestInsulin | server.py:248-256 | a dose nearest in absolute time, before or after; none iff the insulin table is empty |
| Summary.LatestAtOrBefore | server.py:262-267 | a latest reading at or before the intake, or none iff every reading is later |
| Summary.Average | server.py:278-281 | `AVG` is `NULL` iff the window is empty |
| Summary.AverageWithin | server.py:278-281 | an average lies between the lowest and highest level |
| Summary.HourlyMeanAbsent | server.py:270-282 | hour h is absent iff no reading is in the closed window [t+h−30 min, t+h+30 min] or its average is 0 |
| Summary.HourlyMeanWithin | server.py:278-282 | hour h's value is the one-decimal rounding of the window average, between the lowest and highest level |
| Summary.LevelsAround | server.py:259-282 | `glucose_levels` has one value per hour 1..12, each that hour's mean; this is what the loop produces when no window passes `datetime.max` |
| Summary.GetGlucoseLevels | server.py:259-282 | the hourly loop raises iff the last window, 12 h 30 min after the intake, passes the last second of year 9999; otherwise it returns exactly `LevelsAround` |
| Summary.EventsWithinSpec | server.py:285-290 | the events are those in [t, t+12 h], each once, in time order |
| Summary.Names | server.py:291 | one name per event, in order |
| Summary.SummaryOfSpec | server.py:293-303 | `am_pm` is AM iff the hour is under 12; date and times are the stored texts; dose absent iff no insulin; `before` absent iff every reading is later; each `+h` is hour h's mean |
| Summary.GetRecord | server.py:244-303 | the loop body raises iff the intake's hourly windows pass `datetime.max` (the twelve-hour event bound cannot raise first); otherwise it returns exactly the intake's record |
| Summary.GetRecords | server.py:243-303 | the loop raises iff some selected intake's windows pass `datetime.max`; otherwise it yields one record per selected intake, in order |
| Summary.GetSummary | server.py:230-308 | no summary iff a selected intake is too late to summarise; otherwise the summary holds, in order, the record of each intake the query selects |
| Summary.JoinNutritionKeepsAll | server.py:235-237 | when every intake has a nutrition row, the join keeps every intake, in order, with that row's name |
| Summary.SelectedValid | server.py:238-241 | every selected intake is in range and has a real date-time |
| Summary.DateIsPrefix | server.py:295 | the record's `date` is the first ten characters of the stored timestamp |
| Summary.HoursFitBoundary | server.py:270-285 | an intake can be summarised iff it is at or before 9999-12-31 11:29:59; at 9999-12-31 23:00:00 hour 1 already overflows |
| Summary.SummaryOverflowsIffLast | server.py:239-285 | the intakes come in time order, so the request fails iff the latest selected intake is too late |
| Store.IntakeOutcomeSpec | server.py:98-118 | an unknown nutrition id, and only that, gives status 400 with error "Nutrition not found"; a zero-weight row gives the `NULL` failure with no status; otherwise status 201 and the created intake has `amount × kcal / weight` kcal |
| Store.DerivedKcal | server.py:107-108 | the derived kcal times the weight is amount times kcal; 150 g of a 52 kcal / 100 g food is 78 kcal |
| Store.Database.PostIntake | server.py:94-118 | the response is the lookup's outcome; on success the intake table gains exactly one row with the derived kcal, otherwise it is unchanged; no other table changes |
| Store.Database.GetSummary | server.py:230-308 | no summary iff a selected intake is too late to summarise; otherwise the summary is that of the intakes the query selects from the current tables |
| MeanTool.ParseLine | time-weighted-mean.py:37-40 | a parsed line holds a real date-time |
| MeanTool.ParseAll | time-weighted-mean.py:36-40 | reading succeeds iff every line parses, with one value per line in order |
| MeanTool.ReadAll | time-weighted-mean.py:35-40 | the read loop, stopping at the first bad line, returns exactly `ParseAll` |
| MeanTool.ParsedValid | time-weighted-mean.py:39 | all parsed samples are real date-times |
| MeanTool.IndexOfTime | time-weighted-mean.py:44 | the index found is the first sample with that time, or the length if there is none |
| MeanTool.DictItemsDistinct | time-weighted-mean.py:44 | `dict(...).items()` has each timestamp once |
| MeanTool.DictItemsCover | time-weighted-mean.py:44 | every input timestamp survives the dictionary |
| MeanTool.DictItemsLast | time-weighted-mean.py:44 | each kept level is the last level its timestamp had in the input |
| MeanTool.DictItemsIncreasing | time-weighted-mean.py:43-44 | after the sort, the dictionary's items are strictly increasing in time |
| MeanTool.SortKeepsLast | time-weighted-mean.py:43 | the stable sort keeps the last level of each timestamp last |
| MeanTool.PrepareSpec | time-weighted-mean.py:42-44 | sort then dedup gives strictly increasing distinct times, each with its last input level, and every input timestamp appears |
| MeanTool.PeriodMonotone | time-weighted-mean.py:65 | a later instant never has a smaller (ISO year, week) or date key |
| MeanTool.PeriodFnMonotone | time-weighted-mean.py:64-72 | both modes' key functions are monotone in time |
| MeanTool.LabelInjective | time-weighted-mean.py:66 | two keys give the same label iff they are the same key, in both modes |
| MeanTool.MeanDefined | time-weighted-mean.py:11-25 | two or more samples whose first and last times differ have a mean |
| MeanTool.MeanDefinedOnRuns | time-weighted-mean.py:11-25 | the mean is defined on every such run and undefined on a single sample |
| MeanTool.Starts | time-weighted-mean.py:50-54 | the block starts are strictly increasing indices that begin at 0 |
| MeanTool.StartsMembers | time-weighted-mean.py:50-54 | an index starts a block iff it is 0 or its key differs from its predecessor's |
| MeanTool.RunProcessData | time-weighted-mean.py:46-60 | the loop returns exactly `ProcessData`; a failed format ends it |
| MeanTool.PartitionStuck | time-weighted-mean.py:56 | after the `:.2f` of a `None` mean raises, later samples change nothing |
| MeanTool.PartitionBlocks | time-weighted-mean.py:49-58 | after the loop, the printed periods are the closed blocks, and the open period holds exactly the samples of the last block |
| MeanTool.ProcessBlocks | time-weighted-mean.py:46-60 | empty input fails; the run ends normally iff the last block has two or more samples; then every block is printed in order, otherwise all but the last |
| MeanTool.FlushBlocks | time-weighted-mean.py:59-60 | the final statement prints the last block's mean iff that block has a mean |
| MeanTool.ClosedMean | time-weighted-mean.py:51-57 | a closed period is printed with the mean of its block plus the next block's first sample |
| MeanTool.StartKeys | time-weighted-mean.py:52-58 | each printed key is the key of the sample that opened its block |
| MeanTool.KeysAtStarts | time-weighted-mean.py:62-71 | the same for the weekly and daily keys and the time-weighted mean |
| MeanTool.ProcessKeysIncreasing | time-weighted-mean.py:52-58 | the printed keys strictly increase, for every input |
| MeanTool.LabelsDistinct | time-weighted-mean.py:56 | no label is printed twice |
| MeanTool.ProcessCompletes | time-weighted-mean.py:59-60 | prepared input ends normally iff it is non-empty and its last period holds two or more samples |
| MeanTool.Rows | time-weighted-mean.py:56 | one printed line per period |
| MeanTool.Tool | time-weighted-mean.py:32-73 | nothing is printed iff the input is empty, the header is wrong or a line does not parse |
| MeanTool.SortAndProcess | time-weighted-mean.py:43-73 | sorting in place, dedup and the loop give `ProcessData` of the prepared samples |
| MeanTool.RunTool | time-weighted-mean.py:32-73 | the script returns exactly `Tool(mode, input)` |
| MeanTool.ToolSpec | time-weighted-mean.py:32-73 | after a valid header and data the heading is printed, the prepared data strictly increase, completion is as in `ProcessCompletes`, and the labels are distinct |
| MeanTool.PrepareKeepsLast | time-weighted-mean.py:42-44 | every prepared sample is an input sample whose level is the last one for its timestamp |
| MeanTool.PreparedValid | time-weighted-mean.py:42-44 | preparing keeps every sample a real date-time |
| MeanTool.ToolRuns | time-weighted-mean.py:32-73 | after a valid header and data the output is the heading, then one line per processed period, with the loop's completion |
| Dashboard.GlucoseColor | static/js/dashboard.js:8-9 | the style is blank iff the level is falsy or `-` |
| Dashboard.StyleOfInjective | static/js/dashboard.js:13-27 | the seven bands have seven different styles |
| Dashboard.BandsPartition | static/js/dashboard.js:11-27 | every level lies in exactly one band |
| Dashboard.ChainFollowsBands | static/js/dashboard.js:13-27 | the if/else chain gives a level the style of its band and of no other |
| Dashboard.GlucoseColorBand | static/js/dashboard.js:8-28 | a readable, non-blank level is styled by its band |
| Dashboard.HundredIsTarget | static/js/dashboard.js:21-24 | exactly 100 gets the 60..100 style; 100.5 gets the light-green one |
| Dashboard.UnreadableIsLow | static/js/dashboard.js:11-26 | an unreadable string is styled as low; the number 0 is blank; the string "0" is low |
| FormUtils.CurrentTimestamp | static/js/utils.js:48-57 | for a four-digit year the text has 16 characters with `T` at index 10 |
| FormUtils.CurrentTimestampShape | static/js/utils.js:48-57 | the text is year, 1-based month, day, hours and minutes with two-digit padding, in `YYYY-MM-DDTHH:MM` form |
| FormUtils.ReplaceFirst | static/js/utils.js:65 | `replace('T', ' ')` changes only the first `T`, or nothing if there is none |
| FormUtils.ToDbTimestamp | static/js/utils.js:64-66 | the result is three characters longer and ends with `:00` |
| FormUtils.ToDbTimestampSplit | static/js/utils.js:64-66 | `date + "T" + time` becomes `date + " " + time + ":00"` |
| FormUtils.CurrentTimestampForStore | static/js/utils.js:48-66 | the store form of the current timestamp is the stored text of that minute, and it parses back to it |
| FormUtils.LastDayByRollover | static/js/utils.js:81 | `new Date(y, m + 1, 0).getDate()` is the number of days in the month of the constructor's year, which reads years 0..99 as 1900..1999 |
| FormUtils.RolloverAgrees | static/js/utils.js:81 | that count is the month's own length except, and only, in February of year 0, which gets 28 of its 29 days |
| FormUtils.DateInputs.Initialize | static/js/utils.js:71-84 | chart range Jan 1 to Dec 31 of the year; summary range the 1st to the last day of the month, as the `Date` constructor counts it |
| FormUtils.DefaultRanges | static/js/utils.js:77-83 | the four texts are the dates they name |
| FormUtils.SummaryEndIsLastDay | static/js/utils.js:81-83 | the summary end is the month's last day, so the next day starts the next month; in February of year 0 the end is the 28th, before the month's last day |
| FormUtils.FillEmptyElements | static/js/utils.js:92-96 | empty inputs get the timestamp; all others keep their value |
| FormUtils.FillEmptyIdempotent | static/js/utils.js:92-96 | afterwards no input is empty, and filling again changes nothing |
| FormUtils.FillEmptyInPlace | static/js/utils.js:92-96 | the loop leaves the inputs as `FillEmpty` of their old values |
| FormUtils.SetCurrentTimestamp | static/js/utils.js:89-97 | the empty inputs get the current timestamp |
| FormUtils.CurrentTimestampParts | static/js/utils.js:48-57 | the text splits at its only `T` into the dashed date and the padded `HH:MM` |
| FormUtils.WholeMinute | static/js/utils.js:65 | the `:00` suffix makes the clock text of the whole minute |
| FormUtils.FillEmpty | static/js/utils.js:92-96 | one value per input |
| CsvImport.ReadExport | tools/import_csv.py:9-12 | a date-time read in either form is valid |
| CsvImport.ParseTimestamp | tools/import_csv.py:6-13 | a result is 19 characters in the store form |
| CsvImport.ParseTimestampFields | tools/import_csv.py:8-13 | the conversion fails iff the stripped text is in neither form; otherwise it writes the same fields |
| CsvImport.ImportsTwoSpaceForm | tools/import_csv.py:8-13 | the two-space form, with surrounding whitespace, converts to the store form of its date-time |
| CsvImport.ImportsOneSpaceForm | tools/import_csv.py:8-13 | so does the one-space form |
| CsvImport.RejectsStoreForm | tools/import_csv.py:11-12 | a text already in the store form raises |
| CsvImport.RenderTrimmed | tools/import_csv.py:8-13 | a rendered timestamp has no surrounding whitespace, so stripping keeps it |
| Extract.ModeOf | tools/extract.py:18-25 | `glucose` and `insulin` select their modes |
| Extract.ExtractLines | tools/extract.py:19-24 | the read loop returns exactly `Extracted` |
| Extract.RunExtract | tools/extract.py:12-31 | the script returns exactly `ExtractScript` |
| Extract.LaterLinesIgnored | tools/extract.py:19-24 | after an uncaught error, later lines add nothing |
| Extract.ExtractedAppend | tools/extract.py:19-24 | the output of two parts of the input is the output of the first followed by that of the second |
| Extract.EmittedLineSplits | tools/extract.py:24 | a printed line is `timestamp,value` and splits back into those two fields |
| Extract.GlucoseLineShape | tools/extract.py:20-24 | a glucose line prints field 0 and field 11 if it is non-empty, else field 7, all stripped |
| Extract.InsulinLineShape | tools/extract.py:27-31 | an insulin line prints field 0 and the non-empty field 3, stripped |
| Extract.ShortLinesRaise | tools/extract.py:22-29 | a line with too few fields raises |
| Extract.Fields | tools/extract.py:20 | `split(",")` gives at least one field |
| Extract.EmitIfPresent | tools/extract.py:23-24 | emitting or skipping a line never raises |
| Extract.Extracted | tools/extract.py:19-24 | at most one printed line per input line |
| ExtractLegacy.RunLegacy | tools/extract-legacy.py:10-27 | the script returns exactly `LegacyScript` |
| ExtractLegacy.GlucoseLineShape | tools/extract-legacy.py:14-19 | a glucose line prints field 0 and the non-empty field 8, stripped |
| ExtractLegacy.InsulinLineShape | tools/extract-legacy.py:22-27 | an insulin line prints field 0 and the non-empty field 11, stripped |
| ExtractLegacy.HeaderIgnored | tools/extract-legacy.py:10-11 | the header never changes the output, unlike the checked converter |
| ExtractLegacy.ShortLinesRaise | tools/extract-legacy.py:17-25 | a line with too few fields raises |
| Text.Strip | tools/extract.py:21 | the result has no surrounding whitespace and is not longer than the input |
| Text.StripPadded | tools/import_csv.py:8 | stripping removes exactly the surrounding whitespace |
| Text.StripIdempotent | tools/extract.py:21 | stripping twice is stripping once |
| Text.SplitJoin | time-weighted-mean.py:37 | splitting the comma-join of comma-free fields gives back the fields |
| Text.JoinSplit | time-weighted-mean.py:37 | joining the split of a text with the separator gives back the text |
| Text.PadZerosParse | static/js/utils.js:51-54 | a zero-padded number reads back as that number |
| Text.PadZerosOrder | server.py:203 | fixed-width zero-padded numbers compare as text as they do as numbers |
| Text.IntToStringInjective | server.py:199 | distinct integers print differently |
| Text.Split | time-weighted-mean.py:37 | at least one part, and no part holds the separator |
| Text.StripFixedIffTrimmed | tools/extract.py:21 | stripping leaves a text unchanged iff it has no surrounding whitespace |
| Text.NatToStringValue | server.py:199 | the decimal text of a number reads back as that number |
| Text.PadZerosValue | static/js/utils.js:51-54 | `padStart(2, '0')` keeps the value, and a number below the width's power of ten gets exactly that width |

## Left out

- HTTP handling (request dispatch, headers, JSON, the socket server) and the plain insert handlers for glucose, insulin, supplements, events and nutrition: they are input/output plumbing.
- Reading standard input, `argparse`, `sys.argv` and printing: each script takes its input as a sequence of lines and a mode, and returns what it would print together with whether it ran to the end.
- A missing `sys.argv[1]` in the export converters: the mode is a parameter.
- The clock (`new Date()`, `date.today()`): the current time is a parameter.
- The DOM: the date inputs are a class with four string fields, and the datetime inputs are an array of their values.
- Floating point: levels are integers, means are reals, and `round` is round-half-even on exact reals. `:.2f` formatting is not modelled: a printed line keeps the real mean (`MeanTool.Row`).
- `julianday` arithmetic: instants are whole seconds from a fixed origin, which gives the same differences for whole-second timestamps.
- SQLite's order among rows with equal timestamps: the sorted queries are ordered by instant only.
- Summary.EventsWithinSpec: leaves out the `OverflowError` of `intake_dt + timedelta(hours=12)` (server.py:285). It can arise only for an intake whose hourly loop has already raised, and `Summary.GetRecord` models that failure and asserts the bound.
- Summary.NearestInsulin: returns some dose at minimum distance, not a particular tie-break, because `ORDER BY time_diff LIMIT 1` does not fix the order among ties.
- The leniency of `strptime` (unpadded fields, runs of whitespace) and of `int()` (underscores between digits): only the fixed-width forms and an optional sign with decimal digits are accepted.
- The CSV importer's fallback format (tools/import_csv.py:12) never succeeds in CPython where the first one failed, because the first format's double space matches any run of whitespace. The fixed-width model reads the one-space form in the fallback instead, with the same outcome.
- `parseFloat`: its result is part of the input to `GlucoseColor`, so the parse itself is not modelled.
- The intake id of the summary query: it is selected but never used in a record.
- Stored timestamps that are not text in the store form: the tables hold `DateTime` records. A record that is not a real date-time fails the range test and is not selected, where the server would raise on `strptime`.
- The AM/PM-windowed summary that the front end expects: it is not part of the server code shown.
- init_db.py's schema creation and the importer's `import_glucose`/`import_insulin`. The generated `kcal_per_gram` column is modelled (`Tables.KcalPerGram`).
- MeanTool.ProcessBlocks: stated for strictly increasing samples only. That is what sort-then-dedup produces (`MeanTool.PrepareSpec`); `MeanTool.ProcessKeysIncreasing` holds for every input.
- MeanTool.ClosedMean: stated for any monotone key function and any mean defined on runs. `MeanTool.PeriodFnMonotone` and `MeanTool.MeanDefinedOnRuns` show the tool's own functions are such.
