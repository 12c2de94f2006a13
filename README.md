# Pitching dashboard metrics, modelled in Dafny

This project models how the pitching dashboard in `doval_dashboard.py` derives
its year-keyed tables from a Statcast pitch table, and proves what those tables
mean. Each row of the table is one pitch (`PitchEvent`). A row carries:

- the year its game date parsed to, or none when `pd.to_datetime(..., errors='coerce')` gave NaT;
- release speed, spin rate, extension and `zone`, each possibly missing;
- pitch type, description and event, each possibly missing.

The dashboard computes, all before rounding:

- the yearly means of release speed and spin rate (`VelocitySpin`), release
  extension (`ExtensionSummary`) and the raw `zone` code (`ZonePct`). A mean
  skips missing cells. A year with no value has no mean (pandas shows NaN).
- the pitch-usage table (`PitchCounts`, `PitchPercent`). It counts each year
  and pitch type, fills absent pairs with zero, and divides each row by its
  total. Rows without a pitch type fall out of the group-by.
- the swing and whiff flags (`IsSwing`, `IsWhiff`). A missing description
  counts as `""`. A swing is a lower-cased description containing `"swing"`.
  A whiff is a description exactly equal to `"swinging_strike"`.
- the whiff rate (`WhiffRate`): whiffs per swing, over the swing rows only.
  Years without a swing are absent from it, not 0.
- the strikeout rate (`KRate`): rows whose event is `"strikeout"` per row of
  the year.

`Dashboard.Derive` collects all six tables into a `Report`.

The model follows what the code computes, not the captions the page shows:

- The strikeout rate is per pitch (line 122), although the caption at line 119 says plate appearances.
- Zone% is the mean of the raw zone code (line 141), although the caption at line 139 says a percentage of pitches in the zone.
- Usage values are fractions in [0, 1]. The page shows them multiplied by 100.

Modules:

- `Wrappers`: the `Option` type.
- `PitchEvents`: the row, its measures and flags, and the description tests.
- `Grouping`: the group-by machinery (years, groups, filters, counts, sums).
- `Metrics`: means and rates.
- `PitchUsage`: the usage table.
- `Dashboard`: the whole report, the properties that span several tables, and worked examples.

## Model

| member | source | states |
|---|---|---|
| PitchEvents.Contains | doval_dashboard.py:98 | the substring test is true exactly when the pattern occurs at some position of the text |
| PitchEvents.FilledDescription | doval_dashboard.py:97 | the filled description is "" exactly when the cell is missing or already empty; otherwise it is the recorded text |
| PitchEvents.IsSwing | doval_dashboard.py:98 | a row is a swing exactly when "swing" occurs at some position of its lower-cased filled description |
| PitchEvents.IsWhiff | doval_dashboard.py:99 | a row is a whiff exactly when its description is recorded and equals "swinging_strike"; a missing description is never a whiff |
| PitchEvents.IsStrikeout | doval_dashboard.py:121 | a row is a strikeout only when its event is recorded and equals "strikeout"; a missing event is never a strikeout |
| PitchEvents.WhiffIsSwing | doval_dashboard.py:97-99 | every row flagged as a whiff is also flagged as a swing |
| PitchEvents.MissingDescriptionIsNeither | doval_dashboard.py:97-99 | a row with a missing description (filled with "") is neither a swing nor a whiff |
| PitchEvents.FoulIsNotSwing | doval_dashboard.py:98-99 | "foul" and "foul_tip" are neither swings nor whiffs, since they do not contain "swing" |
| PitchEvents.SwingNotWhiff | doval_dashboard.py:98-99 | "swinging_strike_blocked" and "SWINGING_STRIKE" are swings (case-insensitive containment) but not whiffs (exact equality) |
| Grouping.Years | doval_dashboard.py:26-27 | the group-by keys are exactly the years of the rows whose date parsed |
| Grouping.Group | doval_dashboard.py:36 | a year's group holds only rows of that year and is non-empty exactly for the years that are keys |
| Grouping.GroupMembers | doval_dashboard.py:36 | a row is in the group of a year exactly when it is in the table with that year |
| Grouping.Dated | doval_dashboard.py:26-27 | the dated rows are exactly the rows whose date parsed |
| Grouping.Filter | doval_dashboard.py:101 | the boolean-mask selection keeps exactly the rows whose flag holds |
| Grouping.Count | doval_dashboard.py:102 | a flag count is at most the group size, 0 exactly when no row has the flag, and the full size exactly when every row has it |
| Grouping.PresentCount | doval_dashboard.py:36 | the count of non-missing cells is non-negative and 0 exactly when every cell is missing |
| Grouping.PresentSum | doval_dashboard.py:36 | the sum of the non-missing cells, which is 0 when every cell is missing |
| Grouping.CountInYear | doval_dashboard.py:101-102 | a year's group counts a flagged row exactly when the table has a flagged row in that year |
| Grouping.YearsOfFilter | doval_dashboard.py:101-102 | after the swing filter, the years left are exactly those with a flagged row |
| Grouping.GroupOfFilter | doval_dashboard.py:101-102 | grouping the filtered table equals filtering the year's group |
| Grouping.GroupOfDated | doval_dashboard.py:26-27 | dropping undated rows changes neither any group nor the set of years |
| Grouping.FilterOfDated | doval_dashboard.py:26-27 | filtering commutes with dropping undated rows |
| Grouping.DatedAppend | doval_dashboard.py:26-27 | the dated rows of a concatenation are the concatenation of the dated rows |
| Grouping.GroupAppend | doval_dashboard.py:36 | the group of a concatenation is the concatenation of the groups |
| Grouping.CountIsFilterLength | doval_dashboard.py:101-102 | the count of flagged rows is the length of the filtered table |
| Grouping.WhiffsAmongSwings | doval_dashboard.py:99-102 | the whiffs among a group's swings are all of the group's whiffs |
| Metrics.Mean | doval_dashboard.py:36 | the mean of a column is absent (NaN) exactly when every cell of the group is missing |
| Metrics.MeanWithin | doval_dashboard.py:36 | a mean lies within any bounds that hold of every non-missing value it averages |
| Metrics.PresentAppend | doval_dashboard.py:36 | the count and the sum of non-missing cells are additive over concatenation |
| Metrics.MeanIgnoresMissing | doval_dashboard.py:36 | inserting a row whose cell is missing leaves the mean unchanged |
| Metrics.GroupMean | doval_dashboard.py:36 | the yearly-mean table has exactly the years of dated rows as keys, and a year's mean is absent exactly when that year has no value |
| Metrics.AllMissingInGroup | doval_dashboard.py:36 | a year's mean is absent exactly when no row of that year has a value |
| Metrics.YearMeanBetweenExtremes | doval_dashboard.py:36 | a year's mean is at least one recorded value of that year and at most another |
| Metrics.GroupMeanIgnoresMissing | doval_dashboard.py:36 | inserting a row whose cell is missing changes no year's mean |
| Metrics.VelocitySpin | doval_dashboard.py:36 | one speed/spin pair per year of a dated row; each field is absent exactly when that year has no value for it |
| Metrics.ExtensionSummary | doval_dashboard.py:77 | one extension mean per year of a dated row, absent exactly when that year has no extension |
| Metrics.ZonePct | doval_dashboard.py:141 | one mean of the raw zone code per year of a dated row, absent exactly when that year has no zone |
| Metrics.Fraction | doval_dashboard.py:122 | the mean of a boolean column lies in [0, 1]; it is 0 exactly when no row is flagged and 1 exactly when all rows are |
| Metrics.Rate | doval_dashboard.py:122 | a per-year flag rate has the years of dated rows as keys and values in [0, 1] |
| Metrics.WhiffRate | doval_dashboard.py:101-102 | the whiff rate has as keys exactly the years with a swing (no swing: absent, not 0) and values in [0, 1] |
| Metrics.WhiffRateIsWhiffsPerSwing | doval_dashboard.py:101-102 | a year's whiff rate is its whiffs divided by its swings, and it has at least one swing |
| Metrics.WhiffRateAt | doval_dashboard.py:101-102 | a year's whiff rate is the whiff fraction of the year's swing rows |
| Metrics.AllSwingsWhiff | doval_dashboard.py:99-102 | the whiff fraction of a group's swings is 1 exactly when every swing in it is a whiff |
| Metrics.WhiffRateIsOne | doval_dashboard.py:97-102 | a year's whiff rate is 1 exactly when every swing thrown that year is a whiff |
| Metrics.KRate | doval_dashboard.py:121-122 | the strikeout rate has every year of a dated row as a key, lies in [0, 1], and is 0 exactly when no pitch of the year ended in a strikeout |
| PitchUsage.Columns | doval_dashboard.py:56 | the usage columns are distinct and are exactly the pitch types seen on dated rows |
| PitchUsage.CountType | doval_dashboard.py:56 | a type's count in a group is at most the group size and 0 exactly when no row has that type |
| PitchUsage.CountRow | doval_dashboard.py:56 | one year's count row has an entry for exactly the usage columns (zero fill), each at most the year's row count |
| PitchUsage.RowTotal | doval_dashboard.py:57 | a row's total over the columns is at least each entry of those columns |
| PitchUsage.Share | doval_dashboard.py:57 | dividing a count row by its positive total keeps the row's keys and puts every column's share in [0, 1] |
| PitchUsage.RowTotalIsTypedCount | doval_dashboard.py:56-57 | the sum of a year's usage-count row is the number of that year's rows with a pitch type |
| PitchUsage.PitchCounts | doval_dashboard.py:56 | the count table has a row for exactly the years with a typed pitch, every such row has every column (zero fill), and each row total is positive |
| PitchUsage.PitchPercent | doval_dashboard.py:57 | the usage table has a row for exactly the years with a typed pitch, with an entry for every pitch type seen |
| PitchUsage.ShareTotalIsQuotient | doval_dashboard.py:57 | summing a row's shares over some columns gives those columns' counts over the row total |
| PitchUsage.PercentSumsToOne | doval_dashboard.py:57 | each year's usage fractions add up to exactly 1 |
| PitchUsage.CountTypeAtMostTyped | doval_dashboard.py:56 | a type's count never exceeds the count of typed rows |
| PitchUsage.CountTypeInYear | doval_dashboard.py:56 | a type's count in a year is 0 exactly when that type was not thrown that year |
| PitchUsage.PercentEntry | doval_dashboard.py:56-57 | a usage entry is the type's count over the year's typed rows; it lies in [0, 1] and is 0 exactly when the type was not thrown that year |
| Dashboard.Derive | doval_dashboard.py:36-141 | the speed/spin, extension, strikeout and zone tables are keyed by exactly the years of dated rows; usage and whiff-rate keys are among them |
| Dashboard.GroupMeanOfDated | doval_dashboard.py:26-27 | yearly means ignore rows with no parsed date |
| Dashboard.RateOfDated | doval_dashboard.py:26-27 | yearly rates ignore rows with no parsed date |
| Dashboard.ColumnsOfDated | doval_dashboard.py:26-27 | the usage columns ignore rows with no parsed date |
| Dashboard.PitchCountsOfDated | doval_dashboard.py:26-27 | the usage counts ignore rows with no parsed date |
| Dashboard.UndatedRowsIgnored | doval_dashboard.py:26-27 | the whole report of a table equals the report of its dated rows |
| Dashboard.UndatedRowChangesNothing | doval_dashboard.py:26-27 | inserting a row with no parsed date anywhere leaves every table unchanged |
| Dashboard.DescriptionOnlyAffectsWhiffRate | doval_dashboard.py:97-141 | two tables that differ only in their descriptions have the same speed/spin, usage, extension, strikeout and zone tables: the swing filter feeds the whiff rate only |
| Dashboard.OneInTwo | doval_dashboard.py:122 | one flagged row in a group of two gives a rate of 0.5 |
| Dashboard.TwoSwingingStrikesRates | doval_dashboard.py:97-122 | two swinging strikes in 2020, the second a strikeout: whiff rate 1 and strikeout rate 0.5 |
| Dashboard.ThreeToOneShares | doval_dashboard.py:56-57 | a year with four typed pitches, three of one type and one of another, has usage 0.75 and 0.25 |
| Dashboard.ThreeToOneUsage | doval_dashboard.py:56-57 | three four-seamers and one slider in 2021 give usage 0.75 and 0.25 |
| Dashboard.MeanSkipsMissingSpeed | doval_dashboard.py:36 | speeds 95, missing and 97 average to 96, and a year with no spin rate has no mean spin rate |

## Left out

- Streamlit page setup, headers, captions and table display, and the matplotlib charts: presentation only.
- Reading the logo file and its base64 encoding, and reading the CSV: file I/O. The model takes the table as a sequence of rows.
- Date parsing with `pd.to_datetime(..., errors='coerce')`: a library call. Its outcome is supplied with each row as an optional year.
- `.round(2)`, `.round(3)` and the `* 100` scaling: floating-point presentation. All values are exact reals before rounding.
- Floating-point arithmetic in general: means and ratios are exact `real` quotients.
- The in-place column updates on `df` (lines 26-27, 97-99, 121): each added column depends only on its own row, so they are modelled as per-row functions and predicates (`FilledDescription`, `IsSwing`, `IsWhiff`, `IsStrikeout`), not as a mutated table.
- PitchEvents.IsSwing: lower-cases ASCII letters only. Python's case-insensitive match also folds some non-ASCII letters, and that is not modelled.
- PitchUsage.Columns: lists each pitch type at its last appearance in the table. pandas sorts the unstacked columns. The usage table is a map, so only this column order differs.
- The ascending year order of every output table: `groupby` sorts its keys, but each table here is a map keyed by year, so its rows have no order.
- `doval_intro.py`: a static HTML string with no logic, and it is not part of this model.
- A strikeouts-per-nine-innings metric: the dashboard code computes none, so none is modelled.
