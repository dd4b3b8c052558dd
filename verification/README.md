# Job-market salary pipeline: a Dafny model

This project models the two halves of a small salary-data pipeline.

**Clean and load** turns raw job-posting records into canonical records and replaces the `jobs` table with them.
- Experience codes are stripped, upper-cased and looked up (`EN`, `MI`, `SE`, `EX`). Anything else, including a missing code, becomes `Mid`.
- Titles are stripped and put in title case. A missing title becomes `Unknown`.
- Missing residence, location and company-size cells become `Unknown`.
- Salary and remote ratio are converted to integers column by column. One non-numeric cell aborts the whole load, and the old table is kept.
- Each row gets its position as `job_id`.

**The dashboard** computes aggregate views.
- The sidebar filter keeps the rows whose year and experience level are both selected.
- Three pandas group-bys run over the filtered rows: the salary trend per year, and the mean salary per experience level and per company size.
- Six SQL queries run over the whole table: counts and rounded means per level, per company size and per work type; rounded means per (year, level); the ten busiest locations; and locations with at least 50 postings.

## Modules

- `Wrappers`: `Option` and `Result`.
- `AsciiText`: Python's `strip`, `upper` and `title`, on ASCII text.
- `Normalize`: the field normalisers.
- `CleanAndLoad`: the raw and canonical records, the conversion to integers, the row transform and the full-replace load.
- `Sorting`: an insertion sort by a "may come first" relation, with the sortedness, permutation and distinctness facts; SQLite's binary text order.
- `Grouping`: `GROUP BY` with exact per-key counts and salary sums, exact mean comparison, and `ROUND(x, 0)`.
- `Dashboard`: the filter, every view, and the page as a whole.

Means are kept exact as a (salary total, row count) pair. Two means are compared by cross-multiplication. `ROUND(AVG(salary), 0)` is the integer nearest to total / count, with halves rounded away from zero.

## Behaviour worth knowing

In each case the model follows the code.

- `normalize_experiance` is not idempotent: `EN` gives `Junior`, and `Junior` is not a code, so it gives `Mid`. `Normalize.ExperienceNotIdempotentOnNames` proves that every normalised level normalises again to `Mid`.
- The year/level filter restricts only the three pandas views; the SQL queries always read the whole table. `Dashboard.SqlViewsIgnoreSelection` states this.
- `work_year` is copied without substitution, so it is the one canonical field a missing cell could leave null. The model takes the year as present (see "Left out").
- The pandas views (trend, by experience, by size) report unrounded means; the model keeps them exact. Only the SQL views round to whole numbers.
- Title case is Python's `title()`: a new word starts after every non-letter, and all other letters are lower-cased. `"ML engineer"` becomes `"Ml Engineer"`, and `"3d artist"` becomes `"3D Artist"`.

## Model

| member | source | states |
|---|---|---|
| AsciiText.Strip | etl/clean_and_load.py:21 | the stripped text has no whitespace at either end, is no longer than the input, and text without whitespace at its ends is returned unchanged |
| AsciiText.StripIsSlice | etl/clean_and_load.py:34 | the stripped text is the slice of the input starting at its first non-whitespace character, and everything before and after that slice is whitespace |
| AsciiText.StripPadding | etl/clean_and_load.py:34 | stripping undoes padding: any whitespace added around a trimmed non-empty text is removed again, and nothing more |
| AsciiText.Title | etl/clean_and_load.py:34 | `title()` changes only the case of letters (same length, equal up to case), and the result has the title shape: a letter is upper case exactly when it does not follow a letter |
| AsciiText.TitleUnique | etl/clean_and_load.py:34 | the title form is determined: any text equal to the input up to case and having the title shape is `title()` of the input |
| AsciiText.TitleIdempotent | etl/clean_and_load.py:34 | applying `title()` twice gives the same text as applying it once |
| AsciiText.TitleKeepsTrimmed | etl/clean_and_load.py:34 | `title()` leaves leading and trailing whitespace as it was, in both directions |
| AsciiText.Upper | etl/clean_and_load.py:21 | `upper()` changes only the case of letters (equal to the input up to case) and leaves no lower-case letter |
| AsciiText.UpperUnique | etl/clean_and_load.py:21 | the upper-case form is determined: any text equal to the input up to case with no lower-case letter is `upper()` of the input |
| Normalize.NormalizeExperience | etl/clean_and_load.py:17-29 | the level is always one of `Junior`, `Mid`, `Senior`; a missing code gives `Mid` |
| Normalize.UpperIsCode | etl/clean_and_load.py:21 | upper-casing yields a two-letter code exactly when the text has two characters that upper-case to that code's letters |
| Normalize.SpellingsOfCode | etl/clean_and_load.py:21 | the texts that upper-case to a two-letter code are exactly its four mixed-case spellings |
| Normalize.ExperienceByCode | etl/clean_and_load.py:21-29 | `Junior` exactly when the stripped text upper-cases to `EN`; `Senior` exactly when it upper-cases to `SE` or `EX` |
| Normalize.ExperienceTable | etl/clean_and_load.py:21-29 | the mapping stated without `upper()`: `Junior` for exactly the spellings of `EN`, `Senior` for exactly those of `SE` and `EX`, `Mid` for every other ASCII text, `MI` included |
| Normalize.TwoLetterCode | etl/clean_and_load.py:21-29 | two non-blank characters are looked up as their upper-cased pair; a pair outside the table gives `Mid` |
| Normalize.NotTwoLettersIsMid | etl/clean_and_load.py:29 | text whose stripped form is not two characters long is never a code, so it gives `Mid` |
| Normalize.ExperienceIgnoresPadding | etl/clean_and_load.py:21 | whitespace of any kind and amount around a code does not change its level |
| Normalize.MixedCaseCodeExample | etl/clean_and_load.py:21-27 | `"Se"` is `Senior` |
| Normalize.UnknownCodeExample | etl/clean_and_load.py:29 | `"XX"` falls back to `Mid` |
| Normalize.JuniorCode | etl/clean_and_load.py:24 | `EN` is `Junior` |
| Normalize.MidCode | etl/clean_and_load.py:25 | `MI` is `Mid` |
| Normalize.SeniorCode | etl/clean_and_load.py:26 | `SE` is `Senior` |
| Normalize.LevelCode | etl/clean_and_load.py:23-28 | every level has a code in the table that normalises back to it |
| Normalize.ExperienceIdempotentOnCodes | etl/clean_and_load.py:17-29 | normalising a level's own code again gives the same level |
| Normalize.ExperienceNotIdempotentOnNames | etl/clean_and_load.py:17-29 | normalising any normalised level again gives `Mid`, so the function is not idempotent on its own output |
| Normalize.NormalizeTitle | etl/clean_and_load.py:31-34 | a missing title is `Unknown`; otherwise the result equals the stripped title up to case; either way it has no surrounding whitespace and has the title shape |
| Normalize.FillUnknown | etl/clean_and_load.py:45-47 | `fillna("Unknown")`: a missing cell becomes `Unknown`, a present one is kept exactly as it was |
| Normalize.NormalizeTitleIdempotent | etl/clean_and_load.py:31-34 | normalising a normalised title again changes nothing |
| CleanAndLoad.AsInt | etl/clean_and_load.py:44 | a cell held as an exact decimal number converts, and a missing or text cell does not; the integer is the exact value truncated toward zero (bounds stated separately for positive and negative values) |
| CleanAndLoad.TruncationExample | etl/clean_and_load.py:44 | 1234.56 gives 1234, -1234.56 gives -1234, text and missing cells do not convert |
| CleanAndLoad.CoerceColumn | etl/clean_and_load.py:44 | a column converts exactly when every cell converts, and then each value is that cell's integer, position by position |
| CleanAndLoad.Transform | etl/clean_and_load.py:39-49 | success exactly when every salary and every remote-ratio cell is numeric; the salary error exactly when some salary is not; on success one canonical row per raw row, in order, each built field by field from its raw row |
| CleanAndLoad.CanonicalForUnique | etl/clean_and_load.py:39-49 | a raw row and its position determine the canonical row |
| CleanAndLoad.TransformWellFormed | etl/clean_and_load.py:42-43 | every loaded row has a level among the three and a trimmed, title-shaped title |
| CleanAndLoad.JobIdsContiguous | etl/clean_and_load.py:40 | the job ids of a load of N rows are exactly 0 to N-1, strictly increasing in input order |
| CleanAndLoad.MissingStringsBecomeUnknown | etl/clean_and_load.py:45-47 | a missing residence, location or size becomes `Unknown`, and a present one is kept exactly |
| CleanAndLoad.Load | etl/clean_and_load.py:39-51 | a failed conversion leaves the stored table as it was; the load succeeds exactly when all numeric cells convert, and then the table holds the canonical rows and the report counts them |
| CleanAndLoad.LoadReplaces | etl/clean_and_load.py:51 | after a successful load the table does not depend on what was stored before |
| CleanAndLoad.LoadTwice | etl/clean_and_load.py:50-51 | loading twice leaves the table of the second load when it succeeds, and the first one's otherwise |
| Sorting.SortBySorted | app/dashboard.py:88 | sorting by a relation that is total and transitive on the elements gives a sequence ordered by that relation, pairwise |
| Sorting.SortByDistinct | app/dashboard.py:88 | sorting keeps distinct elements distinct |
| Sorting.SortBy | app/dashboard.py:88 | `sort_values` and `ORDER BY` as a sort: the result is a permutation of the input (same elements, same multiplicities); its order is stated by `Sorting.SortBySorted` |
| Sorting.StrLe | app/dashboard.py:146 | SQLite's BINARY comparison of text: a prefix comes first, and a text never comes before its own proper prefix |
| Sorting.StrLeTotal | app/dashboard.py:146 | the binary text order compares any two strings |
| Sorting.StrLeTransitive | app/dashboard.py:146 | the binary text order is transitive |
| Sorting.StrLeAntisymmetric | app/dashboard.py:146 | two strings each at most the other are equal |
| Grouping.CountPositive | app/dashboard.py:131 | a key has rows exactly when it occurs in the table |
| Grouping.GroupBy | app/dashboard.py:131 | one group per key present, and no other keys; each group's count and salary total are those of exactly its key's rows |
| Grouping.GroupingSize | app/dashboard.py:68-73 | a grouping has exactly as many groups as there are distinct keys |
| Grouping.GroupingPermuted | app/dashboard.py:88 | reordering a grouping keeps it a grouping of the same rows |
| Grouping.GroupCountsSum | app/dashboard.py:128 | the group counts of a grouping add up to the number of rows |
| Grouping.MeanAtLeastTransitive | app/dashboard.py:88 | comparing exact means is transitive |
| Grouping.MeanOrderIsTotalPreorder | app/dashboard.py:88 | comparing exact means orders any set of non-empty groups |
| Grouping.RoundHalfAway | app/dashboard.py:129 | the rounded mean is the integer nearest to total / count, a half rounded away from zero, for totals of either sign |
| Grouping.RoundingExamples | app/dashboard.py:129 | 450000/3 gives 150000; 1.5 gives 2; -1.5 gives -2; 4/3 gives 1 |
| Grouping.Avg | app/dashboard.py:129 | the rounded mean of a group with rows is within half a unit of the exact mean total / count |
| Grouping.Averages | app/dashboard.py:127-129 | the select list: one output row per group, in the same order, carrying its key, its `COUNT(*)` and its rounded mean |
| Grouping.AveragesOfGroups | app/dashboard.py:127-131 | turning groups into output rows keeps each key's count, and the rounded mean of that key's salaries |
| Dashboard.Filter | app/dashboard.py:42-45 | a row is kept exactly when it is in the table and both its year and its level are selected; the kept rows stay in table order |
| Dashboard.FilterAppend | app/dashboard.py:42-45 | filtering distributes over concatenation of tables |
| Dashboard.DefaultSelection | app/dashboard.py:28-40 | the sidebar defaults select every row of the table, and hold only years and levels that occur in it |
| Dashboard.FilterDefaultIsIdentity | app/dashboard.py:28-45 | with the default selection (every year and level present) the filter keeps the whole table |
| Dashboard.FilterThenAggregate | app/dashboard.py:42-45 | counting and summing a key's rows after filtering equals counting and summing the selected rows of that key in the unfiltered table |
| Dashboard.SalaryTrend | app/dashboard.py:68-73 | one point per year present in the filtered rows, with that year's count and salary total, years strictly ascending |
| Dashboard.SalaryTrendExample | app/dashboard.py:68-73 | three rows of 2023 with salaries 100000, 150000 and 200000 give a single point, 2023 with mean 150000 |
| Dashboard.MeanView | app/dashboard.py:84-89 | one group per key present with exact count and total, exact means non-increasing along the result |
| Dashboard.SalaryByExperience | app/dashboard.py:84-89 | mean salary per experience level of the filtered rows, means non-increasing |
| Dashboard.SalaryBySize | app/dashboard.py:100-105 | mean salary per company size of the filtered rows, means non-increasing |
| Dashboard.FilteredExperienceMean | app/dashboard.py:84-89 | with one level selected, the experience view has at most one group; it is that level, with the count and salary total of exactly the selected rows of that level |
| Dashboard.SortedByAvg | app/dashboard.py:132 | ordering groups by rounded mean keeps them a grouping of the same keys, rounded means non-increasing |
| Dashboard.ByAvgDesc | app/dashboard.py:126-133 | output rows carry each key's count and rounded mean, keys distinct, same keys as the groups, rounded means non-increasing |
| Dashboard.AvgView | app/dashboard.py:126-133 | one row per key of the whole table, with its count and rounded mean; the counts add up to the table size; rounded means non-increasing |
| Dashboard.ExperienceSummary | app/dashboard.py:126-133 | one row per level in the table with count and rounded mean, counts adding up to the table size, by non-increasing rounded mean |
| Dashboard.SizeSummary | app/dashboard.py:159-166 | one row per company size in the table with count and rounded mean, counts adding up to the table size, by non-increasing rounded mean |
| Dashboard.LevelThenYearIsTotalPreorder | app/dashboard.py:146 | ordering by level and then year compares any two groups and is transitive |
| Dashboard.ExperienceOverTime | app/dashboard.py:140-147 | one row per (year, level) pair present in the table with its rounded mean, strictly ordered by level in binary text order and then by year |
| Dashboard.TopOfSorted | app/dashboard.py:173-180 | the first ten groups of a grouping sorted by count have correct counts, distinct locations, non-increasing counts, and no location left out has more rows than the tenth |
| Dashboard.TopLocations | app/dashboard.py:173-180 | at most ten locations, each with its true row count, distinct, counts non-increasing; a location is left out only when ten are shown and it has no more rows than the tenth |
| Dashboard.Having | app/dashboard.py:194 | keeps exactly the groups with at least the minimum count, and keeps them distinct |
| Dashboard.LocationSalary | app/dashboard.py:188-196 | a location appears exactly when it has at least 50 rows, with its count and rounded mean, by non-increasing rounded mean |
| Dashboard.WorkType | app/dashboard.py:205-208 | a row is "Same country" exactly when its residence equals its company location as text, and "Different country" exactly otherwise |
| Dashboard.SameCountryCounted | app/dashboard.py:205-207 | the "Same country" class counts the rows whose residence equals the company location exactly; "Different country" counts the rest |
| Dashboard.RemoteGroups | app/dashboard.py:204-213 | grouping by work type yields at most the two classes, with the same-country and different-country counts |
| Dashboard.RemoteComparison | app/dashboard.py:204-213 | at most two rows, keys among the two classes, true counts and rounded means, counts adding up to the table size |
| Dashboard.Render | app/dashboard.py:42-213 | on one page the pandas views account for every filtered row and the SQL summaries for every table row |
| Dashboard.SqlViewsIgnoreSelection | app/dashboard.py:126-213 | the SQL views do not depend on the sidebar selection |
| Dashboard.DefaultSelectionSeesTable | app/dashboard.py:28-45 | with the default selection the pandas views equal the views of the whole table |

## Left out

- Reading the CSV, writing SQLite and the `print` of the load are I/O. The model takes the raw rows as a sequence and the store as a value.
- The Streamlit page layout, the charts and the raw-data preview are presentation only.
- `Dashboard.Render`: assumes the frame `load_data` returns is the current `jobs` table. `@st.cache_data` (app/dashboard.py:16-23) keeps the first frame it read, so after a later load the filter and the three pandas views still see the old rows, while each SQL view re-reads `jobs` (app/dashboard.py:118-122). The model passes one table to both halves.
- The three metrics at app/dashboard.py:49-62 (count, mean and median of the filtered rows) are not modelled. With an empty selection the mean and median are NaN and `int()` raises; that error path is left out too.
- The `ml/salary_model.py` trainer is not part of this model.
- `CANONICAL_COLUMNS` at etl/clean_and_load.py:4-15 is never used by the code, so it is not modelled. Its missing comma joins two names into one, but nothing reads the list.
- `AsciiText.Strip`: only ASCII whitespace is removed. Python's `strip()` also removes Unicode spaces such as U+00A0 and U+2028.
- `AsciiText.Upper`: only ASCII letters are upper-cased. Python's `upper()` uses full Unicode case mapping: it maps `ſ` (U+017F) to `S` and `ß` to `SS`, and the model leaves both unchanged.
- `AsciiText.Title`: only ASCII letters are cased. Python's `title()` uses full Unicode case mapping, under which some characters change length.
- `Normalize.NormalizeExperience`: `AsciiText.Upper` upper-cases only ASCII letters. Python's `upper()` uses full Unicode case mapping, so `"ſe"` (U+017F) upper-cases to `SE` and gives `Senior` in the program, while the model gives `Mid`; `Normalize.ExperienceTable` is stated for ASCII text only.
- `Normalize.NormalizeExperience`: a raw value is taken as text. `str()` of a non-text cell, such as the float `1.0`, is not modelled.
- `Normalize.NormalizeTitle`: a title is taken as text. A non-text title raises in `strip()`; that case is not modelled.
- `CleanAndLoad.Transform`: the year is a present integer. A missing `work_year` would be copied as NaN, and that is not modelled.
- `CleanAndLoad.AsInt`: a numeric cell is an exact decimal, also in a column pandas reads as float64 (one that has a cell with a decimal point or an exponent). In such a column pandas rounds each value to the nearest double before `astype(int)` truncates it: `2.9999999999999999` reads as 3.0 and loads as 3, where the model gives 2, and integers above 2^53 in that column are rounded too. A column of integers only is read as exact int64, as the model has it.
- `CleanAndLoad.AsInt`: every text cell is rejected. One text cell makes the whole column text, and `astype(int)` then applies Python's `int()` to each string, which accepts some of them (`"1_000"`, `" 42 "`) and rejects others (`"1234.56"`). That parsing is not modelled.
- `CleanAndLoad.AsInt`: no 64-bit bound. A value outside the int64 range makes `astype(int)` overflow or raise; the model's integers are unbounded. Non-finite floats (infinity) are not modelled either.
- `Dashboard.MeanView`: means are exact rationals, not floating point. Ties are broken in an unspecified order, and the contract only promises non-increasing means.
- `Grouping.RoundHalfAway`: rounds the exact quotient. SQLite rounds the floating-point `AVG`, which can differ when the quotient is within a rounding error of a half.
- `Dashboard.TopLocations`: which of several locations tied at the tenth count is shown is not specified by the query, and the contract does not fix it.
- `Dashboard.ExperienceOverTime`: the output rows also carry a row count, which this query does not select.
- `Dashboard.RemoteComparison`: SQLite returns the two classes in an order it does not promise, and the contract does not fix one.
