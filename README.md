# Maintenance work-order dashboard — verified model of its data pipeline

The dashboard (`app.py`) loads a table of maintenance work orders. Each order has:

- a system status ("Status do sistema");
- an installation location ("Local de instalação");
- a main work centre ("CenTrab.principal");
- a sort field ("Campo de ordenação");
- a desired completion date ("Conclusão desejada").

Before showing anything, the script changes two columns in place:

- the status text becomes one of three labels: "Confirmada", "Em aberto" or "Outros";
- the location becomes its macro code (two capital letters, a hyphen and five digits), or missing.

The table then goes through up to four multi-select filters. From the filtered table the script derives:

- four KPI counts: total, confirmed, not confirmed and overdue;
- one of three bar charts, chosen by a tab, each counting orders per (category, status) pair (the model computes the data of all three);
- a weekly backlog, which counts open orders that have a due date per ISO week key `YYYY-Www`, in ascending key order.

This project models that pipeline and proves what each step promises.

Modules, one per file:

- `Wrappers`: `Option`.
- `Text`: Python string behaviour the script relies on:
  - the `in` substring test;
  - `str(int)`;
  - `str.zfill`;
  - code-point string order;
  - digit strings and their values.
- `Calendar`: Gregorian dates. It contains:
  - day numbers and weekdays;
  - a reference definition of ISO 8601 weeks (the week-1 Monday is the Monday of the week holding the year's first Thursday);
  - `IsoCalendar`, the estimate-and-correct computation the dataframe library uses for `dt.isocalendar()`, proved equal to that definition on every date.
- `Orders`: the row record, its columns and the three labels.
- `StatusClassifier`: `map_status`, and `ajustar_status` as an in-place loop over an array of rows.
- `MacroCode`: `manter_codigo_macro` and the in-place column rewrite.
- `Filters`: `aplicar_filtros`. It is a method that narrows step by step and is proved equal to a single-pass reference selection.
- `Kpis`: the four headline counts.
- `Tally`: grouped counts in ascending key order. This models `groupby(...).size()` and `sort_values`.
- `Backlog`: the weekly backlog and its week keys.
- `Charts`: the (category, status) counts behind the bar charts.
- `Dashboard`: the top-level flow from the loaded table to everything shown.

## Model

| member | source | states |
|---|---|---|
| StatusClassifier.StatusText | app.py:85 | `str(status)` is the status text itself for a present cell. For a missing cell it is a text ("nan") holding none of "CNF", "ORDA" and "MSPR", which is why ClassifyStatus gives "Outros" there. |
| StatusClassifier.ClassifyStatus | app.py:84-90 | The classifier is total and always returns one of the three labels. The result is "Confirmada" exactly when the status text contains "CNF", so CNF has priority. It is "Em aberto" exactly when there is no "CNF" but there is "ORDA" or "MSPR". A missing status (`str(NaN)` = "nan") gives "Outros". |
| StatusClassifier.LabelsReclassifyAsOther | app.py:84-90 | Classifying a label again gives "Outros", because none of the labels contains a status code. |
| StatusClassifier.WithStatusLabels | app.py:92 | The rewritten table has the same length. Row i's status is the label of the old status, and every other field of the row is unchanged. |
| StatusClassifier.WithStatusLabelsLabels | app.py:92 | After the rewrite, every status holds one of the three labels. |
| StatusClassifier.AdjustStatus | app.py:83-93 | The in-place loop leaves the array equal to `WithStatusLabels` of its old contents. |
| MacroCode.SearchFrom | app.py:116 | Returns the first position at or after `from` where `[A-Z]{2}-\d{5}` matches, or reports that no later position matches. |
| MacroCode.ExtractCode | app.py:113-117 | A missing cell gives missing. Otherwise there is a result exactly when some position matches, and the result is the slice at the leftmost match, a macro code by itself. |
| MacroCode.ExtractCodeIdempotent | app.py:113-117 | Extracting from an extracted code gives the same result. |
| MacroCode.ExtractCodeExamples | app.py:113-117 | "XX-99999 foo" gives "XX-99999", "no code here" gives missing, and missing gives missing. |
| MacroCode.WithMacroCodes | app.py:119 | The rewritten table has the same length. Row i's location is the extraction from the old location, and every other field is unchanged. |
| MacroCode.KeepMacroCodes | app.py:119 | The in-place loop leaves the array equal to `WithMacroCodes` of its old contents. |
| Filters.Choose | app.py:158-165 | Setting one facet's chosen values changes that facet only. |
| Filters.Narrow | app.py:158-165 | One `df_f[df_f[col].isin(values)]` step: never more rows than before, and every kept row's cell is one of the chosen values. NarrowIsSubsequence and NarrowCommutes state that it keeps rows in order and that steps commute. |
| Filters.ApplyFilters | app.py:156-166 | Applying each non-empty facet in turn gives exactly the single-pass selection of the rows that pass all four facets. |
| Filters.SelectNothingChosen | app.py:156-166 | With nothing chosen, the table comes back unchanged and in the same order. |
| Filters.NarrowIntoSelect | app.py:158-165 | Narrowing the current selection by a facet not yet chosen equals selecting with that facet added. |
| Filters.NarrowAppend | app.py:158-165 | Narrowing distributes over concatenation of tables. |
| Filters.NarrowCommutes | app.py:158-165 | Two narrowings give the same table in either order, so the order of the filters does not matter. |
| Filters.NarrowIsSubsequence | app.py:158-165 | One narrowing keeps an order-preserving subsequence of the rows. |
| Filters.BothWithinEither | app.py:158-165 | Applying two facets keeps an order-preserving subsequence of what either facet alone keeps. |
| Filters.SelectIsSubsequence | app.py:156-166 | The filtered table is an order-preserving subsequence of the input. |
| Filters.SelectKeepsAdmitted | app.py:156-166 | A row is kept, as often as it occurs, exactly when it passes every facet; otherwise it is dropped. A missing cell never passes a non-empty facet. |
| Kpis.CountConfirmed | app.py:174 | The number of confirmed rows is at most the number of rows. |
| Kpis.CountNotConfirmed | app.py:175 | The number of rows not confirmed is at most the number of rows. |
| Kpis.CountOverdue | app.py:178-181 | `atrasadas` never exceeds the number of rows. OverdueAreNotConfirmed bounds it by the not-confirmed count, and OverdueIsEarlierDay states which rows it counts. |
| Kpis.Summarize | app.py:173-181 | total is the number of rows and confirmed ≤ total. The open count is total − confirmed, which equals the number of rows not confirmed. overdue ≤ open. |
| Kpis.ConfirmedPlusNotConfirmed | app.py:173-175 | confirmed + not confirmed = total. |
| Kpis.OverdueAreNotConfirmed | app.py:178-181 | The overdue count is at most the not-confirmed count. |
| Kpis.UndatedNeverOverdue | app.py:179 | Rows without a due date never count as overdue. |
| Kpis.OverdueIsEarlierDay | app.py:177-181 | A dated row is overdue exactly when its due day is strictly earlier than today and it is not confirmed. |
| Kpis.OverdueExample | app.py:177-181 | An open order due 2024-05-20 is overdue on 2024-06-01. A confirmed order with the same date is not. |
| Calendar.MonthLayout | app.py:287 | Month offsets within a year: each month starts after the previous one, and the months fit in the year's length. |
| Calendar.MonthsIncrease | app.py:287 | Later months start later in the year. |
| Calendar.DayOfYear | app.py:287 | The day of year lies in 1..length of the year. Early-January and late-December days are located exactly. |
| Calendar.YearStartStep | app.py:287 | Consecutive years start 365 or 366 days apart, as the leap-year rule says. |
| Calendar.YearStartIncreases | app.py:287 | Later years start later. |
| Calendar.DayNumber | app.py:287 | A date's day number lies within its year's span of days. |
| Calendar.BeforeIsEarlier | app.py:179 | Comparing dates field by field agrees with comparing their day numbers, in both directions. |
| Calendar.FirstThursday | app.py:287 | The year's first Thursday is a Thursday within the first seven days of the year. |
| Calendar.NextThursday | app.py:287 | The first Thursday on or after any day lies less than seven days later. |
| Calendar.IsoYearLength | app.py:287 | An ISO year lasts 52 or 53 whole weeks. |
| Calendar.Week1MondayIncreases | app.py:287 | Later ISO years start later. |
| Calendar.IsoWeekUnique | app.py:287 | Every day lies in at most one ISO (year, week). |
| Calendar.ThursdayRule | app.py:287 | A day is on or after the start of ISO year Y exactly when the Thursday of its week is on or after January 1st of Y. Its week index counted from either start is the same. |
| Calendar.IsoCalendar | app.py:287 | The computed week is in 1..53, and the ISO year is within one of the calendar year. |
| Calendar.EstimateIsThursdayOffset | app.py:287 | The computation's week estimate is the offset of the week's Thursday from January 1st. |
| Calendar.IsoCalendarPreviousYear | app.py:287 | Early-January days whose Thursday lies in the previous year get that year's last week. |
| Calendar.IsoCalendarNextYear | app.py:287 | Late-December days whose Thursday lies in the next year get week 1 of that year. |
| Calendar.IsoCalendarSameYear | app.py:287 | All other days get the week counted from their own year's week-1 Monday. |
| Calendar.IsoCalendarIsIso8601 | app.py:287 | For every date, the computed (ISO year, week) is the date's week under the ISO 8601 definition. |
| Calendar.IsoYearOfThursday | app.py:287 | The computed ISO year is the calendar year of the Thursday of the date's week. |
| Calendar.IsoCalendarExamples | app.py:287 | 2023-01-01 is 2022-W52, 2021-01-01 is 2020-W53, 2024-12-30 is 2025-W01, and 2026-01-01 is 2026-W01. |
| Text.DigitChar | app.py:289-290 | A digit value prints as a decimal digit character. |
| Text.NatToString | app.py:289-290 | `str(n)` for n ≥ 0 is a non-empty digit string with no leading zero (except "0"). |
| Text.IntToString | app.py:289 | `str(i)` is non-empty and starts with '-' exactly when i is negative. |
| Text.NatToStringRoundTrip | app.py:289-290 | Reading back `str(n)` gives n. |
| Text.NatToStringLength | app.py:289 | When 10^(k-1) ≤ n < 10^k, `str(n)` has k digits. |
| Text.IntToStringRoundTrip | app.py:289 | Parsing `str(i)` back gives i. |
| Text.Zfill | app.py:290 | `zfill(width)` keeps the text as a suffix and pads with leading zeros to the width, never shortening. |
| Text.ZerosValue | app.py:290 | A run of zeros reads as 0. |
| Text.LeadingZerosValue | app.py:290 | Leading zeros do not change a digit string's value. |
| Text.ZfillValue | app.py:290 | Zero-padding a digit string keeps it a digit string with the same value. |
| Text.StrLessIrreflexive | app.py:297 | String order is irreflexive. |
| Text.StrLessTransitive | app.py:297 | String order is transitive. |
| Text.StrLessTotal | app.py:297 | Any two distinct strings are ordered one way or the other. |
| Text.StrLessConcat | app.py:297 | For prefixes of equal length, order is decided by the prefix, or by the rest when the prefixes are equal. |
| Text.DigitsInjective | app.py:297 | Equal-length digit strings with equal values are equal. |
| Text.StrLessDigits | app.py:297 | For equal-length digit strings, string order is numeric order. |
| Tally.KeyLessIrreflexive | app.py:222-224 | Key order is irreflexive. |
| Tally.KeyLessTransitive | app.py:222-224 | Key order is transitive. |
| Tally.KeyLessTotal | app.py:222-224 | Distinct keys are ordered one way or the other. |
| Tally.Insert | app.py:293-296 | Counting one more key raises that key's count by one and leaves the others unchanged. |
| Tally.InsertKeepsInvariant | app.py:293-297 | Counting one more key keeps the groups sorted and non-empty. |
| Tally.TallyOf | app.py:293-298 | Groups are in ascending key order and each count is ≥ 1. Each key's count is its number of occurrences, and the counts sum to the number of keys. |
| Tally.SortedStrictly | app.py:297 | Sorted groups have strictly ascending keys. |
| Tally.SizeOfGroup | app.py:293-298 | In sorted groups, the count recorded for a group's key is that group's count. |
| Tally.SizeOfAbsent | app.py:293-298 | A key below every group has count 0. |
| Tally.SizeOfMissing | app.py:293-298 | A key without a group has count 0. |
| Tally.TallyMeaning | app.py:293-298 | Group keys are distinct and ascending, and each group's count is its key's occurrences, at least 1. Every key that occurs has a group. |
| Backlog.BacklogRows | app.py:279-282 | Every backlog row is not confirmed and has a due date. |
| Backlog.BacklogRowsAreOpenDatedRows | app.py:279-282 | The backlog is an order-preserving subsequence of the filtered table. It keeps exactly the rows that are not confirmed and have a due date, each as often as it occurs. |
| Backlog.WeekTextShape | app.py:290 | For a week from 1 to 53, `str(week).zfill(2)` is two digits that spell the week. |
| Backlog.KeyLayout | app.py:288-291 | A key with a two-character week part holds the year text, then "-W" at the fourth- and third-last characters, then the week part in the last two characters. |
| Backlog.WeekKeyLayout | app.py:288-291 | For a week from 1 to 53, a key is the year text followed by "-W" and two digits that spell the week. |
| Backlog.WeekKey | app.py:288-291 | `str(year) + "-W" + str(week).zfill(2)`: for a week from 1 to 53, the key is `str(year)`, then "-W", then two digits whose value is the week. WeekKeyRoundTrip and WeekKeyOrder state that distinct weeks get distinct keys and that key order is week order. |
| Backlog.WeekKeyOf | app.py:287-291 | The key of a due date reads back as the ISO year and week the isocalendar computation gives for that date. WeekKeyOfNamesIsoWeek adds that this is the date's ISO 8601 week. |
| Backlog.ParseWeekKeyParts | app.py:288-291 | Reading a key back splits it into its year part and its two-digit week part. |
| Backlog.WeekKeyRoundTrip | app.py:288-291 | Reading back the key of any ISO week (week 1..53) gives that week. |
| Backlog.KeyCompare | app.py:297 | Keys whose year parts have equal length compare by year part, then by week part. |
| Backlog.WeekKeyOrder | app.py:288-297 | For four-digit ISO years, one key sorts before another exactly when its week is chronologically earlier. |
| Backlog.WeekKeyOfNamesIsoWeek | app.py:287-291 | A due date's key reads back as the ISO 8601 week containing that date. The week is in 1..53 and the ISO year is within one of the calendar year. |
| Backlog.WeekKeyExample | app.py:287-291 | 2023-01-01 gets the key "2022-W52". |
| Backlog.BacklogKeys | app.py:288-291 | There is one key per backlog row. |
| Backlog.BacklogKeysAreWeekKeys | app.py:287-291 | Key i of the "Ano-Semana" column is the week key of backlog row i's due date. |
| Backlog.BacklogKeysCount | app.py:288-296 | The number of times a key occurs in the key column is the number of backlog rows due in that week. |
| Backlog.WeeklyBacklog | app.py:279-298 | Groups are in ascending key order and each count is ≥ 1. Each week's count is the number of backlog rows due that week, and the counts sum to the size of the backlog. |
| Charts.PairKeys | app.py:222-224 | Every grouping key is a (category, status) pair. |
| Charts.PairKeysCount | app.py:222-224 | A pair occurs as often as there are rows with that category and status. The rows that have both values are exactly the ones keyed. |
| Charts.CountByStatus | app.py:222-224 | Groups are in ascending (category, status) order and each count is ≥ 1. Each count is the number of rows with that category and status. The counts sum to the rows that have both values, so rows missing either value are dropped. |
| Charts.GroupsArePairs | app.py:239-241 | Every group of the chart data is keyed by a (category, status) pair. |
| Dashboard.Prepare | app.py:104-119 | After both rewrites, each row has its status label and its macro code, and the other fields are unchanged. |
| Dashboard.Run | app.py:104-298 | The table is rewritten in place to `Prepare` of its old contents. The filtered table is the selection. The KPIs, the three chart tables (app.py:222-224, 239-241, 256-258) and the weekly backlog are computed from the filtered table. |
| Dashboard.PreparedColumns | app.py:105-119 | Every prepared row has a label as its status, and a location that is either missing or a macro code. |

## Left out

- Loading data (app.py:62-78) is not modelled: reading the spreadsheet, stripping column names, and the `st.cache_data` cache. Also left out is the missing-file path, where an empty table without columns reaches the status rewrite and fails there. The model starts from a table of rows whose dates are already parsed.
- Due dates are calendar days (`CalendarDate`).
  - An unparseable or missing date is a missing value, as `to_datetime(errors="coerce")` makes it.
  - A comparison with a missing date is false.
  - A time of day, which the comparison `due < today` would ignore on any earlier day, is not modelled.
- `datetime.today()` (app.py:177) is the parameter `today`. The clock itself is not modelled.
- These parts of the page are not modelled: page set-up, CSS, titles, the KPI widgets, the tab radio, the per-status histogram (app.py:209-219), the Plotly figures, colours and `st.info`.
- Filters.Selection: the options offered in the four multi-selects (app.py:133-154) are not modelled. The chosen values are any lists of strings. Which values could be offered does not change what `aplicar_filtros` keeps.
- The `df.empty` stop (app.py:107-108) and the empty-backlog message (app.py:284-285) are not modelled. The model computes an empty result instead, which is what the page would show as nothing.
- MacroCode.ExtractCode: `\d` matches ASCII digits only. Python's `re` also accepts other Unicode decimal digits for `\d`.
- Cells hold only strings or missing values. Non-string cells, which the source would convert with `str`, are not modelled.
- Text.Zfill models `zfill` on unsigned text only. Sign handling is not modelled, because week numbers are never negative.
- Calendar.IsoCalendar follows the dataframe library's isocalendar computation, but that library's own code is not part of this model. Its result is instead proved to be the ISO 8601 week.
- Backlog.WeekKeyOrder is stated only for ISO years 1000..9999. With years of different lengths, string order stops being chronological (for example, "999-W01" sorts after "1000-W01").
- Filters.SelectKeepsAdmitted: the model keeps rows, not dataframe indexes. Row-index labels are not modelled.
- In this file, the "Em aberto" KPI (app.py:175, 186) counts every row that is not confirmed, "Outros" included. The model states exactly that, and it does not equate the KPI with the "Em aberto" label.
