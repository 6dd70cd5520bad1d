# Cinema schedule: a verified model of the extraction and scheduling core

This project models the core of `cinema-schedule`, a small Python program. It
collects the screening lists of six Kraków cinemas and turns them into one
filtered schedule in text form. The model covers:

- the Polish locale tables and the day-range collapser (`dates.py`);
- the aggregation of the six sources, the screening filter and the counts
  (`core.py`);
- title normalisation and the schedule text (`formatting.py`);
- what each of the six cinema parsers does with the fragments its regular
  expressions capture (`parsers/*.py`).

Every operation that the source writes as a loop is a Dafny `method` with its
loop. Each method is proved equal to a specification function, and the
properties the program promises are proved about those functions as lemmas.

Modules, one per source file or shared concern:

| module | file | models |
|---|---|---|
| `Wrappers` | wrappers.dfy | `Option` (Python's `None`) and `Result` (an exception) |
| `Text` | text.dfy | `strip`, `lower`, `title`, `capitalize`, `split`, `join`, `int()`, `str()`, `f"{n:02d}"`, `zfill(2)`, string order |
| `Seqs` | seqs.dfy | keeping the present values of a sequence, collecting per-section results, stable sorting, dictionary key order |
| `Dates` | dates.dfy | the month and weekday tables, the proleptic Gregorian calendar behind `date`, `date.fromisoformat`, `weekday_name`, `weekday_short`, `collapse_days` |
| `Records` | records.dfy | the parser record `{title, date, time, day}` and the tagged screening that adds `cinema` |
| `Titles` | titles.dfy | `normalize_title` |
| `Core` | core.dfy | the registry, `fetch_all_screenings`, `filter_screenings`, `count_results` |
| `Formatting` | formatting.dfy | `format_schedule` |
| `Parsing` | parsing.dfy | the blocks between consecutive `finditer` matches, the weekday fallback, the message of a failed `int()` |
| `Kijow`, `Paradox`, `Kika`, `Mikro`, `Agrafka`, `Baranami` | one file each | the six `parse` functions |

How the Python is represented:

- **Dates.** The collapser takes day ordinals as `date.toordinal()` counts
  them: 0001-01-01 is day 1, a Monday. The weekday is `(ordinal + 6) % 7`.
  `date.fromisoformat` is `ParseIso`. It accepts exactly `YYYY-MM-DD` with
  years 1 to 9999 and a real calendar day, leap years included.
  `IsoRoundTrip` and `IsoCanonical` prove that it inverts `IsoFormat`.
- **Regular expressions.** They are not modelled. Each parser receives what
  its patterns capture:
  - kijow gets the list of `(Name, Date, Hour)` groups;
  - paradox and kika get the page with the start, end and group of every
    match, and `Parsing.BlockAfter` cuts the blocks between them;
  - mikro and baranami get the pieces `re.split` returns;
  - agrafka gets the table bodies `finditer` yields.

  The searches a parser runs inside one block are functions supplied in a
  `Finders` value. They return `None` where `re.search` finds nothing.
- **Exceptions.** `int()` on text that is not a number raises `ValueError`,
  and this aborts the whole parse in mikro, agrafka and baranami. Those
  parsers return `Result<seq<Record>, string>`, and `Err` carries the
  message. In `Core`, a source's outcome is `FetchFailed`,
  `ParseFailed(message)` or `Parsed(records)`.
- **The clock.** mikro reads `date.today()`. The model passes today's date
  to `Mikro.Parse` as a parameter.
- **Case mapping.** `lower`, `upper`, `title` and `capitalize` are defined
  over the one-to-one case pairs of ASCII, Latin-1 and Latin Extended-A,
  `ÿ`/`Ÿ` included. These pairs include every Polish letter. The letters of
  those blocks that Unicode counts as cased without such a partner (`ª`,
  `µ`, `º`, `ß`, `İ`, `ı`, `ĸ`, `ŉ`, `ſ`) are cased for `title`, so
  `Text.TitleSharpS` gives `"Großstadt"` for `"großstadt"`, as Python does;
  their own case mappings are left out (below). The short weekday labels are
  also given in explicit lower-case form, and `ShortLabelCases` proves that
  the case functions agree with that table.
- **Collapsed days.** The `collapse_days` docstring shows `"Pn, śr, pt"`
  and `"Pn-wt, cz-pt"`. The code writes an isolated day with its label
  unchanged and always capitalises the first day of a range. The model
  follows the code: `"Pn, Śr, Pt"` and `"Pn-wt, Cz-pt"`
  (`Dates.CollapseExampleSingles`).
- **Registry.** The display name of the Kijów cinema is `"KijÃ³w"`. That is
  how the bytes of `parsers/__init__.py` spell it, and the model keeps that
  spelling.

## Model

| member | source | states |
|---|---|---|
| `Dates.PolishMonthsBijective` | dates.py:5-9 | `POLISH_MONTHS` maps its twelve distinct names one to one onto the months 1 to 12, in calendar order |
| `Dates.PolishMonthsShortBijective` | dates.py:11-15 | `POLISH_MONTHS_SHORT` maps its twelve distinct abbreviations one to one onto 1 to 12 |
| `Dates.MonthTableBijective` | dates.py:5-15 | a month table that lists its names in order is a bijection between its keys and 1..12 |
| `Dates.MonthNumberOfTable` | parsers/agrafka.py:35 | `POLISH_MONTHS.get(name.lower(), 1)` is always in 1..12: the table's month for a known name, and 1 for any other |
| `Dates.WeekdayAnchor` | dates.py:17-28 | the tables are tied to the calendar: `weekday_name` of 24 January 2026 is "sobota" and `weekday_short` is "So" |
| `Dates.WeekdayNextDay` | dates.py:17-28 | the day after a date labelled with the i-th entry gets entry i + 1 of both tables, Sunday wrapping round to Monday |
| `Dates.WeekdayLabelsDetermined` | dates.py:17-28 | two dates get the same name, and the same short label, exactly when they fall on the same weekday |
| `Dates.WeekdayPeriodic` | dates.py:23 | the weekday repeats every seven days |
| `Dates.OrdinalOrder` | dates.py:43 | on calendar dates, date order is ordinal order, and equal ordinals mean equal dates |
| `Dates.OrdinalNextDay` | dates.py:54 | `(d - prev).days == 1` holds exactly when `d` is the calendar day after `prev` |
| `Dates.IsoRoundTrip` | core.py:69 | `date.fromisoformat(d.isoformat()) == d` for every date |
| `Dates.IsoCanonical` | core.py:69 | a string that `fromisoformat` accepts is the ISO text of the date it yields |
| `Dates.SortedDistinct` | dates.py:43 | `sorted(set(dates))` is strictly increasing and has exactly the elements of `dates` |
| `Dates.SortedDistinctOfElems` | dates.py:43 | two inputs with the same elements sort to the same sequence |
| `Dates.RunsFlatten` | dates.py:47-59 | the runs, put back together in order, are the sorted dates |
| `Dates.RunsAreMaximal` | dates.py:47-59 | every run is non-empty, its days are one day apart, and consecutive runs are more than one day apart |
| `Dates.GroupRuns` | dates.py:47-59 | the first loop of `collapse_days` builds exactly those maximal runs |
| `Dates.RangeLabel` | dates.py:64-73 | a run of two days and a run of three or more are both written as the first label lower-cased and capitalised, a hyphen, and the last label lower-cased |
| `Dates.ShortLabelCases` | dates.py:18 | lower-casing a short label and capitalising the result gives the label back |
| `Dates.CollapseDays` | dates.py:31-78 | `collapse_days`, with its single-date shortcut and both loops, returns `CollapsedDays(dates)`: `""` for no dates, otherwise the run labels joined with `", "` |
| `Dates.CollapseSetInvariant` | dates.py:43 | the result depends only on which dates occur: permuting or repeating them changes nothing |
| `Dates.CollapseSingle` | dates.py:44-45 | with one distinct date, the result is that date's short label as published |
| `Dates.CollapseIncreasing` | dates.py:47-78 | on increasing input, the result is the labels of its maximal runs joined with `", "` |
| `Dates.CollapseRange` | dates.py:64-73 | consecutive days give `"<Start>-<end>"` from the first and last label |
| `Dates.CollapseSeparate` | dates.py:74-76 | days that are pairwise non-adjacent each keep their own short label, joined with `", "` |
| `Dates.CollapseExampleRange` | dates.py:36 | Mon, Tue, Wed gives `"Pn-śr"` |
| `Dates.CollapseExamplePair` | dates.py:69-73 | Thu, Fri (in either order) gives `"Cz-pt"` |
| `Dates.CollapseExampleSingles` | dates.py:74-76 | Mon, Wed, Fri, Wed gives `"Pn, Śr, Pt"`, not the docstring's `"Pn, śr, pt"` |
| `Text.ParseUnsigned` | parsers/mikro.py:48 | `int()` of a digit string is its decimal value |
| `Text.IntToStringRoundTrip` | parsers/mikro.py:55 | `int(str(i)) == i` |
| `Text.Format02RoundTrip` | parsers/agrafka.py:36 | padding with `:02d` never changes the value of the number |
| `Text.ZFill2` | parsers/kijow.py:32 | `zfill(2)` pads to width two, after any leading sign, and never truncates |
| `Titles.NormalizeTitle` | formatting.py:7-9 | `normalize_title` is as long as the stripped title |
| `Titles.NormalizeTitleLetters` | formatting.py:9 | only the case of letters changes: the result equals the stripped title once both are lower-cased |
| `Titles.NormalizeTitleIdempotent` | formatting.py:9 | normalising a normalised title changes nothing |
| `Text.TitleSharpS` | formatting.py:9 | `str.title` counts `ß` as cased, so `"großstadt"` becomes `"Großstadt"` |
| `Titles.NormalizeTitleIgnoresPadding` | formatting.py:9 | surrounding whitespace is removed before title-casing, so padding does not change the result |
| `Titles.NormalizeTitleFirstUpper` | formatting.py:9 | a non-empty normalised title starts with the upper-case form of its first character, and that character is already upper case |
| `Titles.NormalizeTitleIgnoresCase` | formatting.py:9 | titles equal up to letter case and padding normalise to the same text |
| `Records.TagAll` | core.py:29-30 | `s["cinema"] = display_name` for every record: same length and order, and each screening is its record plus the cinema name |
| `Core.SourceStatus` | core.py:23-37 | one status line per source, and a second one exactly when the source parsed into zero records |
| `Core.SourceScreenings` | core.py:28-31 | a parsed source adds its records, each tagged with its name; a failed fetch or a failed parse adds none |
| `Core.HandleSource` | core.py:21-37 | the loop body for one source gives that source's screenings and its status lines |
| `Core.FetchAllScreenings` | core.py:9-39 | folds over the registry in order: the pooled screenings and the status lines are each source's contribution, concatenated in registry order |
| `Core.FoldAppend` | core.py:20-37 | the fold over two stretches of the registry is the first stretch's result followed by the second's |
| `Core.PooledByCinema` | core.py:29-31 | with distinct display names, the pooled screenings of one cinema are exactly that source's tagged records |
| `Core.PooledFromParsedSources` | core.py:27-31 | every pooled screening comes from a source that parsed, carries that source's name and is one of its records |
| `Core.RegistryNamesDistinct` | parsers/__init__.py:10-17 | the six display names of the registry are pairwise distinct |
| `Core.StatusLineCount` | core.py:20-37 | there are at least as many status lines as sources and at most twice as many |
| `Core.AggregationExampleScreenings` | core.py:20-37 | sources with 2, 0 and 1 records, a failed fetch, a failed parse and another failed fetch pool exactly three tagged screenings, in registry order |
| `Core.AggregationExampleStatus` | core.py:20-37 | the same run reports, in registry order, `"✓ KIKA (2)"`, `"✓ Mikro (0)"`, the zero-screening warning, the failed fetch, `"⚠ Paradox: parse failed (boom)"`, `"✓ Barany (1)"` and the second failed fetch |
| `Core.FilterScreenings` | core.py:42-88 | the loop of `filter_screenings` returns exactly the screenings that meet every active condition, in input order |
| `Core.FilteredMembers` | core.py:66-86 | a screening is in the result if and only if it is in the input and meets every active condition, so nothing that qualifies is dropped |
| `Core.FilteredInOrder` | core.py:64-88 | the result is a subsequence of the input: its elements sit at strictly increasing input positions, unchanged |
| `Core.FilteredDatesInRange` | core.py:68-74 | every kept screening has a calendar date `d` with `from_date <= d <= to_date`, both ends included |
| `Core.TimeBoundsInclusive` | core.py:77-80 | a time equal to `min_time` or `max_time` passes: "not before" is `>=` and "not after" is `<=` on strings |
| `Core.InactiveFiltersAgree` | core.py:77-84 | an empty `min_time`, an empty `max_time` and an empty cinema set filter exactly like `None`; then only a valid date in range is required |
| `Core.CountResults` | core.py:91-99 | `count_results` is (distinct titles, length); the first is at most the second and is zero only for the empty list |
| `Core.CountExample` | core.py:98-99 | Dune, Dune, Nope gives (2, 3) |
| `Formatting.TitleKeyOrder` | formatting.py:54 | `key=str.lower` orders titles by a total preorder |
| `Formatting.ShowingOrder` | formatting.py:67 | tuple order on (time, cinema) is a total preorder |
| `Formatting.ScheduleFilter` | formatting.py:25-38 | the schedule keeps a screening exactly when `filter_screenings` would with no upper time bound and no cinema set: the date range and the `min_time` floor only |
| `Formatting.GroupByTitle` | formatting.py:43-49 | the `movies` dictionary has one key per distinct title, in first-occurrence order, holding that title's screenings in input order |
| `Formatting.GroupByShowing` | formatting.py:57-63 | `time_cinema_groups` has one key per (time, cinema) pair, in first-occurrence order, holding that pair's dates in input order |
| `Formatting.ShowingParts` | formatting.py:65-69 | one part per (time, cinema) pair, in ascending tuple order, each `"<collapse_days(dates)> <time>, <cinema>"` |
| `Formatting.AppendBlock` | formatting.py:71-77 | a single part goes inline as `"<title> — <part>"`; otherwise the title stands alone followed by one line per part; then a separator |
| `Formatting.RenderBlocks` | formatting.py:54-77 | the title loop adds each title's block followed by `"---"`, in sorted title order |
| `Formatting.FormatSchedule` | formatting.py:12-83 | `format_schedule` returns `ScheduleText`: the no-screenings text, or the header and the title blocks with the trailing separator removed, joined with newlines |
| `Formatting.ScheduleTitlesSpec` | formatting.py:43-54 | every title of a kept screening appears exactly once, and titles ascend in case-insensitive order |
| `Formatting.ShowingKeysSpec` | formatting.py:57-67 | within a title, the (time, cinema) groups are distinct, strictly ascending, and exactly the pairs of its screenings |
| `Formatting.DatesOfShowingMembers` | formatting.py:61-63 | a day is passed to `collapse_days` for a group exactly when a screening of that group falls on it |
| `Formatting.EmptySchedule` | formatting.py:40-41 | when nothing passes the filter, the text is exactly `"# Cinema Schedule: {from} → {to}\n\nNo screenings found."` |
| `Formatting.ScheduleLayout` | formatting.py:52-83 | a non-empty schedule is the header line followed by the title blocks with `"---"` between consecutive titles and never as the last line, joined with `"\n"` |
| `Formatting.ScheduleStartsWithHeader` | formatting.py:41-52 | every schedule text starts with the header followed by a blank line |
| `Formatting.ScheduleListsKeptFilms` | formatting.py:25-49 | every screening in the date range and not before `min_time` has its title in the schedule |
| `Formatting.BlockLastSpaced` | formatting.py:71-76 | a title block never ends in a separator line, because its last line contains a group line |
| `Parsing.BlockAfter` | parsers/paradox.py:22-24 | a block is the text from the end of one match to the start of the next, or to the end of the page |
| `Parsing.TilesCover` | parsers/kika.py:20-24 | matches and their blocks cover the page from the first match on, in order, each character once |
| `Parsing.DayOfIso` | parsers/paradox.py:34-38 | the fallback day is `""` exactly when `fromisoformat` rejects the text, and is otherwise one of the seven weekday names |
| `Parsing.DayOfIsoNamed` | parsers/paradox.py:34-38 | a non-empty fallback day only comes from the canonical ISO text of a calendar date, and is that date's weekday name |
| `Parsing.DayOfIsoFormat` | parsers/kijow.py:35-37 | for the ISO text of a real date, the fallback is that date's weekday name |
| `Parsing.ToInt` | parsers/mikro.py:48 | `int()` succeeds exactly when the stripped text is an optional sign followed by ASCII digits; plain digits give their decimal value, a negative result needs a leading `-`, and a failure carries the `ValueError` message |
| `Kijow.Parse` | parsers/kijow.py:10-48 | the loop over data matches returns one record per match whose date has three dot-separated parts, in match order |
| `Kijow.ParseEntry` | parsers/kijow.py:21-46 | the loop body builds the record of one data match, or skips it |
| `Kijow.ParsedRecordsFromEntries` | parsers/kijow.py:20-46 | at most one record per match, and a record is in the result exactly when some match yields it |
| `Kijow.DottedParts` | parsers/kijow.py:27-32 | `D.M.Y` becomes `Y-zfill(M)-zfill(D)`, with the year kept verbatim |
| `Kijow.DottedDateIso` | parsers/kijow.py:27-32 | a real date written with one- or two-digit day and month becomes its ISO text |
| `Kijow.DottedDateRecord` | parsers/kijow.py:24-46 | such an entry becomes the record with the normalised unescaped name, the ISO date, the hour verbatim and the date's weekday name |
| `Kijow.UndottedDateSkipped` | parsers/kijow.py:27-29 | a date text whose number of dots is not two, so that it does not split into three parts, produces no record |
| `Kijow.NonCalendarDateKept` | parsers/kijow.py:34-46 | `"31.2.2026"` still produces a record, dated `"2026-02-31"` with day `""` |
| `Kijow.ZFillExamples` | parsers/kijow.py:32 | `"2".zfill(2) == "02"` and `"31".zfill(2) == "31"` |
| `Paradox.Parse` | parsers/paradox.py:9-59 | the loop over `data-date` matches returns the block records in match order |
| `Paradox.ParseBlock` | parsers/paradox.py:21-57 | the loop body builds the record of one block, or skips it |
| `Paradox.ParsedRecordsFromBlocks` | parsers/paradox.py:20-57 | at most one record per match, and a record is in the result exactly when some block yields it |
| `Paradox.DottedUnpadded` | parsers/paradox.py:27-31 | `D.M.Y` becomes `Y-M-D` with every part kept as written, without padding |
| `Paradox.UnpaddedExample` | parsers/paradox.py:31 | `"7.2.2026"` becomes `"2026-2-7"` |
| `Paradox.UndottedDateSkipped` | parsers/paradox.py:27-29 | a date text whose number of dots is not two, so that it does not split into three parts, produces no record |
| `Paradox.MissingFieldSkipped` | parsers/paradox.py:41-49 | a block with no `item-time` or no `item-title` produces no record |
| `Paradox.CompleteBlockRecord` | parsers/paradox.py:27-57 | a block with a three-part date, a time and a title gives the record with the reordered date, the time verbatim, the normalised title, and the weekday name or `""` |
| `Paradox.OneDigitFieldUnnamed` | parsers/paradox.py:31-38 | an unpadded one-digit day or month is never a valid ISO date, so such a record's day is `""` |
| `Kika.Parse` | parsers/kika.py:9-59 | the loop over `repertoire-once` matches returns the block records in match order |
| `Kika.ParseBlock` | parsers/kika.py:21-57 | the loop body, including the step-by-step weekday fallback, builds the record of one block, or skips it |
| `Kika.ParsedRecordsFromBlocks` | parsers/kika.py:20-57 | at most one record per block, and a record is in the result exactly when some block yields it |
| `Kika.BlockRecordWhen` | parsers/kika.py:21-57 | a block yields a record exactly when it has a ticket title and a `godz.` time; the date is the class attribute's text verbatim |
| `Kika.PageLabelWins` | parsers/kika.py:33-36 | a non-empty calendar label, stripped and lower-cased, is the day |
| `Kika.FallbackToDate` | parsers/kika.py:39-44 | without a label, the day is the weekday name of the date |
| `Kika.DayEmptyOnlyWithoutDate` | parsers/kika.py:33-44 | the day is empty exactly when there is no label and the date is not a calendar date |
| `Kika.PageLabelLowerCase` | parsers/kika.py:36 | a label taken from the page is in lower case |
| `Mikro.ParseHeading` | parsers/mikro.py:27-55 | the heading code gives today's date for "Dzisiaj", skips headings of the wrong shape, and fails on a non-numeric day or month |
| `Mikro.WrongShapeSkipped` | parsers/mikro.py:35-46 | a heading other than "Dzisiaj" that is not two sides of `" - "`, or whose date side is not two sides of `"/"`, is skipped: its section adds no records and does not fail |
| `Mikro.BadNumberFails` | parsers/mikro.py:48 | a heading of the right shape fails exactly when its day or month is not an integer literal, with the day's message when the day is bad and the month's otherwise |
| `Mikro.ParseItems` | parsers/mikro.py:59-79 | the item loop keeps every item that has an hour and a title, in order, under the section's date and day |
| `Mikro.ParseSection` | parsers/mikro.py:27-79 | one heading and its content give the section's records or `int()`'s error |
| `Mikro.Parse` | parsers/mikro.py:9-81 | the stride-2 loop pairs heading `i` with content `i + 1` and stops at the first failing section |
| `Mikro.ParseFailsOnBadNumber` | parsers/mikro.py:48 | the parse fails exactly when some visited heading has a day or month `int()` refuses, and with the first such heading's message |
| `Mikro.ParsedFromSections` | parsers/mikro.py:23-79 | on success, a record is in the result exactly when some section yields it |
| `Mikro.SectionRecordsDated` | parsers/mikro.py:59-79 | all records of a section share its heading's date and day |
| `Mikro.TrailingHeadingIgnored` | parsers/mikro.py:24-25 | a last heading with no content after it changes nothing |
| `Mikro.TodayHeading` | parsers/mikro.py:31-33 | "Dzisiaj" stands for today's ISO date and today's weekday name |
| `Mikro.LateInYearNotPast` | parsers/mikro.py:51-53 | from October on, an inferred date's month is never earlier than the current one in the current year |
| `Mikro.EarlyInYearSameYear` | parsers/mikro.py:51-53 | before October, the year is always the current year |
| `Mikro.DayMonthHeading` | parsers/mikro.py:36-55 | `"<weekday> - D/M"` gives the inferred year, zero-padded month and day, and the weekday lower-cased |
| `Mikro.HeadingLayers` | parsers/mikro.py:36-46 | a heading that splits into two sides of `" - "`, and a date side that splits into two sides of `"/"`, is read from those pieces |
| `Agrafka.ParseHeading` | parsers/agrafka.py:24-36 | the heading code skips a table without an `<h3>` or with fewer than four words, and fails on a non-numeric day |
| `Agrafka.ParseRows` | parsers/agrafka.py:40-61 | the row loop keeps every row that has an hour cell and a film link, in order |
| `Agrafka.ParseTable` | parsers/agrafka.py:21-61 | one table gives its records or `int()`'s error |
| `Agrafka.Parse` | parsers/agrafka.py:8-63 | the loop over tables concatenates their records and stops at the first failing table |
| `Agrafka.ParseFailsOnBadDay` | parsers/agrafka.py:36 | the parse fails exactly when some table heading has a day `int()` refuses, and with the first such heading's message |
| `Agrafka.ParsedFromTables` | parsers/agrafka.py:20-61 | on success, a record is in the result exactly when some table yields it |
| `Agrafka.TableRecordsFromRows` | parsers/agrafka.py:40-61 | every record of a table carries the table's date and day and comes from a row with an hour and a title |
| `Agrafka.ShortHeadingSkipped` | parsers/agrafka.py:24-32 | a table without a heading, or with fewer than four words in it, gives no records |
| `Agrafka.ExtraWordsIgnored` | parsers/agrafka.py:34 | words after the fourth do not matter |
| `Agrafka.FourWordsHeading` | parsers/agrafka.py:34-36 | day, month, year and weekday give `year-MM-DD` with the year verbatim, and the weekday lower-cased |
| `Agrafka.UnknownMonthJanuary` | parsers/agrafka.py:35 | a month name not in the table is read as January |
| `Agrafka.HeadingDayLowerCase` | parsers/agrafka.py:60 | the day of every record is in lower case |
| `Agrafka.SlashedHeaderWords` | parsers/agrafka.py:28-29 | `"24 stycznia 2026 /piątek/"` splits into its four words once the slashes are spaces |
| `Baranami.ParseHeading` | parsers/baranami.py:28-40 | the heading code gives the section year, the padded month and day, and the lower-cased weekday, or `int()`'s error |
| `Baranami.ParseItems` | parsers/baranami.py:45-55 | the item loop keeps every list item whose normalised title and stripped time are non-empty, in order |
| `Baranami.ParseSection` | parsers/baranami.py:28-55 | one tuple gives its section's records or `int()`'s error |
| `Baranami.Parse` | parsers/baranami.py:13-57 | the stride-4 loop visits every complete tuple and stops at the first failing section |
| `Baranami.ParseFailsOnBadDay` | parsers/baranami.py:40 | the parse fails exactly when some visited heading has a day number `int()` refuses, and with the first such heading's message |
| `Baranami.ParsedFromSections` | parsers/baranami.py:24-55 | on success, a record is in the result exactly when some section yields it |
| `Baranami.SectionRecordsFromItems` | parsers/baranami.py:45-55 | every record carries the section's date and day and comes from an item with a non-empty title and time |
| `Baranami.ItemKept` | parsers/baranami.py:49-55 | an item whose title and time are both non-empty is kept |
| `Baranami.TrailingPiecesIgnored` | parsers/baranami.py:24-26 | an incomplete tuple at the end of the split is ignored |
| `Baranami.DayLabelIsLower` | parsers/baranami.py:7-10 | every `DAYS_PL` value is its key lower-cased, so the day is always the raw label lower-cased |
| `Baranami.DigitsHeading` | parsers/baranami.py:34-40 | a numeric day gives the section year, the month of the name and the padded day |
| `Baranami.DefaultYearUsed` | parsers/baranami.py:37-38 | a section without an order-dialog handler is dated in 2026 |
| `Baranami.UnknownMonthJanuary` | parsers/baranami.py:34 | a month name not in the table is read as January |

## Left out

- Fetching: `fetch.py` is not part of this model. Its HTTP requests, on-disk
  cache and time-based expiry reach the core only as a source's
  `FetchFailed` outcome.
- User interfaces: `cinema.py` and `gui.py` are not part of this model.
  They hold the prompts, the web dashboard and the writing of the output
  file.
- Regular expressions: `re.finditer`, `re.search`, `re.split` and `re.sub`
  are not modelled. Their captures are inputs. The comment removal in
  agrafka (parsers/agrafka.py:16) is part of producing the table texts,
  which are given already found.
- `html.unescape`: it is a function parameter of `Kijow.Parse`, because its
  entity table is library code.
- Unicode case mapping: it is modelled only for ASCII, Latin-1 and Latin
  Extended-A. Other characters are left unchanged and treated as uncased.
- Case mappings that change length are not modelled: `ß` upper-cases to
  `SS` and title-cases to `Ss`, `ŉ` to `ʼN`, and `İ` lower-cases to `i`
  followed by a combining dot. The model leaves these letters unchanged.
- Case mappings that are not undone by the opposite mapping are not
  modelled: `ı` upper-cases to `I`, `ſ` to `S` and `µ` to the Greek `Μ`.
  The model leaves these letters unchanged, which keeps
  `Lower(Upper(c)) == Lower(c)` true for every character it maps.
- `int()` is modelled for ASCII digits with an optional sign and
  surrounding whitespace. Underscore separators and non-ASCII digits,
  which Python also accepts, are not modelled. Python also refuses a
  string of more than 4300 digits (its integer string conversion limit);
  the model accepts digit strings of any length. The error message in
  `Parsing.IntError` only approximates the `repr` Python puts in it.
- In-place tagging: `fetch_all_screenings` sets `s["cinema"]` on the
  parser's own dictionaries. The model builds new tagged values instead,
  so aliasing of those dictionaries is not captured.
- Core.FetchAllScreenings: the outcome of each source is a function of its
  key. The model does not capture a fetch or parse that behaves
  differently on a second call, or the exception text beyond a string.
- The total-failure condition that the caller derives when no source
  contributes records is in `cinema.py` and `gui.py`, not in `core.py`, so
  it is not modelled.
- Kika.Parse: the captured date always has the shape `dddd-dd-dd` in the
  source. The model accepts any date text and does not rely on that shape.
- Dates.CollapseDays: it takes day ordinals. Any integer is accepted, not
  only the ordinals of years 1 to 9999.
