# Sales data analysis: a verified model of the cleaning and aggregation

`sales_data_analysis.py` loads a table of sales records and makes several passes over it:

- It normalises the column names.
- It cleans eight money and count columns of currency symbols, separators and placeholder dashes, then coerces them to numbers.
- It fills missing discounts with zero.
- It groups the table by date, segment and country.
- It parses the dates and derives a year-month key.
- It computes monthly totals, a product-by-segment count table, mean prices per product and mean profit per segment.

This project models those steps in Dafny and proves what each of them does. It does not model the loading, the charts or the printing.

The model is split into modules that follow the script:

- `Cells` (`cells.dfy`): the cells of the table. A cell is text, a number, a parsed date, a month, or missing. The module also defines the order in which pandas sorts group keys.
- `Text` (`text.dfy`) and `Coerce` (`coerce.dfy`): the string operations, the per-cell cleaning and `to_numeric`.
- `Dates` (`dates.dfy`): `to_datetime` with format `%m/%d/%Y`, and `to_period('M')`.
- `GroupBy` (`groupby.dfy`), `Sorting` (`sorting.dfy`) and `CrossTab` (`crosstab.dfy`): `groupby().agg`, `sort_values(ascending=False)` and `crosstab`.
- `Frames` (`frame.dfy`): the table as a value, and each clean-up step as a function of it.
- `Tables` (`table.dfy`): the script's `df` as a class. Its methods rewrite the column names and the columns in place, with the cleaning `for` loop kept as a loop. Each method is proved to leave the table equal to the matching `Frames` function of the old table.
- `Pipeline` (`pipeline.dfy`): the script run end to end. It covers the `KeyError` the script raises when a column it looks up is absent, and a method that drives a `Table` through every step.
- `CleaningFacts`, `AnalysisFacts`, `CleaningExamples` and `DateExamples`: what the whole run does to the loaded table, and worked examples.

Amounts are unbounded reals, so sums and means are exact.

Two details follow the code closely. The replacements of `" "` by `""` and of `"-"` by `"0"` (`sales_data_analysis.py:43-44`) replace whole cells only, so they fire only on a cell that is exactly `" "` or `"-"` once `$` and `,` are gone; `"- "` keeps its dash and space and becomes missing. The name clean-up (`:16`) replaces each space by one underscore, so two spaces give two underscores.

## Model

| member | source | states |
|---|---|---|
| Text.Strip | sales_data_analysis.py:16 | `str.strip()` leaves no whitespace at either end of a name |
| Text.StripIsSlice | sales_data_analysis.py:16 | the stripped name is one contiguous slice of the name, and every character dropped before or after it is whitespace |
| Text.ReplaceSpaces | sales_data_analysis.py:16 | every space, and only a space, becomes `_`; the length is kept, so two spaces give two underscores |
| Text.NormaliseName | sales_data_analysis.py:16 | a cleaned name is the stripped name, character for character, with each space (and nothing else) turned into `_`; it has no space and no whitespace at either end |
| Text.NormaliseNameIdempotent | sales_data_analysis.py:16 | cleaning a name twice gives what cleaning it once gives |
| Text.Rename | sales_data_analysis.py:20 | the rename changes a name exactly when it is `Units_Sold`, and then gives `Un` |
| Frames.NormalisedNames | sales_data_analysis.py:16 | the name list keeps its length and each name is cleaned in its place |
| Frames.RenamedNames | sales_data_analysis.py:20 | the name list keeps its length and each name is renamed in its place |
| Frames.CleanNamesFacts | sales_data_analysis.py:16-20 | after the clean-up no name has a space or edge whitespace, a second clean-up changes nothing, and the rename turns exactly the `Units_Sold` names into `Un` |
| Tables.Table.constructor | sales_data_analysis.py:10 | the table starts as the loaded table |
| Tables.Table.NormaliseColumnNames | sales_data_analysis.py:16 | the column names are replaced by their cleaned forms; the columns and the height are unchanged |
| Tables.Table.RenameColumns | sales_data_analysis.py:20 | only the names change, by the rename; every cell is unchanged |
| Text.StripSymbols | sales_data_analysis.py:42 | the regex `[\$,]` leaves no `$` and no `,` |
| Text.StripSymbolsKeepsOthers | sales_data_analysis.py:42 | every other character keeps its number of occurrences |
| Text.StripSymbolsAppend | sales_data_analysis.py:42 | the removal works piece by piece: the removal from a concatenation is the concatenation of the removals, so the kept characters stay in their order |
| Text.StripSymbolsUnchanged | sales_data_analysis.py:42 | the removal changes a string exactly when it holds a `$` or a `,` |
| Coerce.ReplaceText | sales_data_analysis.py:42-44 | after the three replacements no `$` or `,` is left, and the text is never exactly `" "` or `"-"` (those became `""` and `"0"`) |
| Text.ParsedCharacters | sales_data_analysis.py:46 | text that parses contains a digit and only digits, `.`, `+` and `-` |
| Text.ParseNumeral | sales_data_analysis.py:46 | every well-formed spelling (an optional sign, whole digits, optionally a point and fraction digits, at least one digit in all) parses, to the whole part plus the fraction digits over their power of ten, negated after a minus |
| Text.ParsedNumeral | sales_data_analysis.py:46 | conversely, every text that parses is a well-formed spelling, and parses to the value that spelling denotes |
| Text.ParseShowNat | sales_data_analysis.py:46 | the decimal spelling of a natural number parses back to it, with or without a minus sign |
| Coerce.ToNumeric | sales_data_analysis.py:46 | coercion always gives a number or missing; a number stays as it is; text becomes a number exactly when it parses, and that number is the parsed value |
| Coerce.CleanCell | sales_data_analysis.py:40-46 | a cleaned cell is a number or missing; a number stays as it is; a missing cell stays missing |
| Coerce.CleanColumn | sales_data_analysis.py:40-46 | the column keeps its length, and every cell becomes a number or missing |
| Coerce.CleanCellIdempotent | sales_data_analysis.py:40-46 | cleaning a cleaned cell changes nothing |
| Coerce.CleanColumnIdempotent | sales_data_analysis.py:40-46 | cleaning a cleaned column changes nothing |
| Coerce.CleanMoney | sales_data_analysis.py:42-46 | an amount whose symbols strip to the digits of `n` cleans to the number `n` |
| Coerce.CleanNegativeMoney | sales_data_analysis.py:42-46 | the same holds for a leading minus sign |
| Coerce.CleanDash | sales_data_analysis.py:44-46 | a placeholder dash, with or without `$` and `,`, cleans to zero |
| Coerce.CleanKeepsInnerSpacesAndDashes | sales_data_analysis.py:43-44 | text that is not exactly `" "` or `"-"` once stripped keeps its spaces and dashes; the conversion sees them |
| Coerce.CleanUnparseable | sales_data_analysis.py:46 | text with a character no number can hold coerces to missing |
| CleaningExamples.StripExampleMoney | sales_data_analysis.py:42 | `"$1,234"` strips to `"1234"` |
| CleaningExamples.CleanExampleMoney | sales_data_analysis.py:42-46 | `"$1,234"` cleans to 1234 |
| CleaningExamples.CleanExampleSpacedDash | sales_data_analysis.py:43-46 | `" $- "` is not the placeholder once stripped, so it becomes missing, not zero |
| CleaningExamples.CleanExampleText | sales_data_analysis.py:46 | `"abc"` becomes missing |
| CleaningExamples.CleanExampleSpace | sales_data_analysis.py:43-46 | a lone space becomes `""` and then missing |
| Frames.HasNumericColumnsListed | sales_data_analysis.py:27-36 | the presence test holds exactly when every listed column is a column of the table |
| Frames.IndexOf | sales_data_analysis.py:41 | a name is found exactly when it is a column, and then at its first position |
| Frames.Column | sales_data_analysis.py:41 | `df[col]` succeeds exactly when `col` is a column and gives the column at the first position of that name, of the table's height; otherwise `KeyError` names `col` |
| Frames.CleanNumeric | sales_data_analysis.py:39-46 | the loop keeps the names and the height of the table |
| Frames.CleanNumericEffect | sales_data_analysis.py:39-46 | the loop cleans exactly the columns found before the first absent listed name, leaves every other column alone, and reports that name |
| Frames.CleanNumericSucceeds | sales_data_analysis.py:39-46 | when all eight columns exist, each one afterwards holds, row by row, the cleaning of what it held (numbers or missing only), and no other column changes |
| Frames.CleanNumericKeeps | sales_data_analysis.py:39-46 | a column whose name is not listed is untouched |
| Frames.CleanNumericCleans | sales_data_analysis.py:39-46 | the column a listed name finds is the cleaned column |
| Tables.Table.CleanNumericColumns | sales_data_analysis.py:39-46 | the `for` loop, run in place, leaves the table the loop function gives and reports the first absent column |
| Coerce.FillMissing | sales_data_analysis.py:57 | `fillna(0)` leaves no missing cell, replaces exactly the missing cells, and replaces them with 0 |
| Frames.FillDiscounts | sales_data_analysis.py:57 | the fill fails with `KeyError` exactly when `Discounts` is absent, and keeps the names and the height |
| Frames.FillDiscountsEffect | sales_data_analysis.py:57 | afterwards `Discounts` has no missing cell, its other cells are unchanged, missing cells became 0, and every other column is identical |
| Tables.Table.FillDiscountColumn | sales_data_analysis.py:57 | in place, the table becomes the fill of the old table, or is unchanged and `Discounts` is reported |
| Frames.NegativeCells | sales_data_analysis.py:51 | the count of negative numbers in one column is at most the column's length |
| Frames.NegativeCellsZero | sales_data_analysis.py:51 | one column's count is zero exactly when no cell of it is a negative number |
| Frames.NegativeCount | sales_data_analysis.py:51 | `(df[cols_to_convert] < 0).values.sum()`: `KeyError` exactly when a listed name is not a column, naming such a name; otherwise the count is at most the number of listed columns times the height, and zero exactly when no listed column holds a negative number |
| Dates.ParseDate | sales_data_analysis.py:142 | whatever parses is a real calendar day with a four-digit year |
| Dates.ParseRenderDate | sales_data_analysis.py:142 | every `m/d/yyyy` spelling of a calendar day, with or without leading zeros, parses back to that day |
| Dates.ParsedIsRendered | sales_data_analysis.py:142 | conversely, any text that parses is such a spelling of the day it parses to |
| Dates.ToDateCell | sales_data_analysis.py:142 | a parsed cell is a day or missing; text becomes a day exactly when it parses, and that day is the parsed, valid day; a day stays as it is |
| Dates.ToPeriodCell | sales_data_analysis.py:147 | the month is missing exactly when the date is, and otherwise has the date's year and month |
| DateExamples.ParseExampleMarch | sales_data_analysis.py:142-147 | `"3/4/2023"` is 4 March 2023, month first, in month 2023-03 |
| DateExamples.ParseExampleLeapDay | sales_data_analysis.py:142 | `"2/29/2024"` parses in the leap year 2024 |
| DateExamples.ParseExampleNoLeapDay | sales_data_analysis.py:142 | `"2/29/2023"` is missing |
| DateExamples.ParseExampleThirtiethFebruary | sales_data_analysis.py:142-147 | `"2/30/2023"` and its month are missing |
| DateExamples.ParseExampleNotADate | sales_data_analysis.py:142 | `"not-a-date"` is missing |
| Frames.ParseDateColumn | sales_data_analysis.py:142 | the Date column is parsed cell by cell and keeps its length |
| Frames.PeriodColumn | sales_data_analysis.py:147 | the month column is derived cell by cell and keeps its length |
| Frames.ParseDates | sales_data_analysis.py:142 | the parse fails with `KeyError` exactly when `Date` is absent, and keeps the names and the height |
| Frames.AddYearMonth | sales_data_analysis.py:147 | the assignment replaces an existing `Year-Month` column or appends one, keeps the height, and fails exactly when `Date` is absent |
| Tables.Table.ParseDateColumn | sales_data_analysis.py:142 | in place, the table becomes the parsed table, or is unchanged and `Date` is reported |
| Tables.Table.AddYearMonthColumn | sales_data_analysis.py:147 | in place, the table gains or replaces `Year-Month`, or is unchanged and `Date` is reported |
| CleaningFacts.DatedColumns | sales_data_analysis.py:142-147 | after the date steps the Date cells are the parses of the old ones, each Year-Month cell is the month of its Date cell, and every other column is unchanged |
| Cells.StrLessTransitive | sales_data_analysis.py:62 | Python's string order is transitive |
| Cells.StrLessTotal | sales_data_analysis.py:62 | any two different strings are ordered one way or the other |
| Cells.CellLessIrreflexive | sales_data_analysis.py:62 | the key order is strict |
| Cells.CellLessTransitive | sales_data_analysis.py:62 | the key order is transitive |
| Cells.CellLessTotal | sales_data_analysis.py:62 | any two different keys are ordered, so sorting the keys is well defined |
| Cells.CellLessAsymmetric | sales_data_analysis.py:62 | no two keys are ordered both ways |
| GroupBy.InsertKey | sales_data_analysis.py:62 | inserting a key keeps the key list strictly ascending and adds exactly that key |
| GroupBy.GroupKeys | sales_data_analysis.py:62 | the group keys are strictly ascending and are exactly the distinct non-missing values of the key column |
| GroupBy.EmptyGroup | sales_data_analysis.py:62 | a group counts no number exactly when none of its values is a number, and then it sums to 0 |
| GroupBy.GroupByAgg | sales_data_analysis.py:62 | a grouped table has one row per distinct non-missing key, in ascending order, and each row holds its own group's reductions |
| GroupBy.GroupTotal | sales_data_analysis.py:62 | the `'sum'` reducer skips missing values: a group with no number sums to 0, and a group of non-negative numbers has a non-negative sum |
| GroupBy.GroupSumsPresent | sales_data_analysis.py:62 | sums are never missing: an empty or all-missing group sums to 0 |
| GroupBy.GroupSumsConserveTotal | sales_data_analysis.py:62 | the group sums of a column add up to that column's total over the rows whose key is not missing |
| GroupBy.GroupMean | sales_data_analysis.py:174 | a group's mean is missing exactly when none of its values is a number; otherwise the mean times the count of numbers is the group's sum |
| GroupBy.GroupMeanBounds | sales_data_analysis.py:195 | a group's mean lies between any lower and upper bounds of the numbers in the group |
| Sorting.InsertDescending | sales_data_analysis.py:98 | inserting a row into a descending table keeps it descending and adds exactly that row |
| Sorting.SortDescending | sales_data_analysis.py:98 | the sorted table is a permutation of the grouped one, with its first aggregate non-increasing and missing values last |
| Sorting.MissingLast | sales_data_analysis.py:195 | in a sorted table, a row with a missing mean is followed only by rows with missing means |
| CrossTab.PairedKeys | sales_data_analysis.py:163 | a row whose partner is missing is masked out of the label column |
| CrossTab.PairedLabels | sales_data_analysis.py:163 | the present values of the masked column are exactly the values that occur in a row whose partner is present |
| CrossTab.CrossTabulate | sales_data_analysis.py:163 | the count table is rectangular: one row per product label, one count per segment label |
| CrossTab.CrossTabulateCells | sales_data_analysis.py:163 | the labels are ascending and are exactly the values that occur with a non-missing partner; each cell counts the rows holding exactly its (Product, Segment) pair |
| CrossTab.PairCountSymmetric | sales_data_analysis.py:163 | counting the pair (x, y) over (Product, Segment) equals counting (y, x) over (Segment, Product) |
| CrossTab.CrossTabRowSums | sales_data_analysis.py:163 | each product's row adds up to the number of rows of that product whose segment is not missing |
| CrossTab.CrossTabColumnSums | sales_data_analysis.py:163 | each segment's column adds up to the number of rows of that segment whose product is not missing |
| Pipeline.Columns | sales_data_analysis.py:62 | the value columns the `.agg({...})` dictionary names: the selection succeeds exactly when every named column exists, and gives those columns in order; otherwise it names an absent one |
| Pipeline.Aggregate | sales_data_analysis.py:62 | a grouping fails exactly when its key or one of its value columns is absent, and otherwise groups those columns |
| Pipeline.Prepare | sales_data_analysis.py:16-20 | the name clean-up keeps every column and the height |
| Pipeline.Cleaned | sales_data_analysis.py:39-57 | the clean-up fails exactly when one of the eight columns or `Discounts` is absent, names such a column, and keeps the names and the height |
| Pipeline.Dated | sales_data_analysis.py:142-147 | the date steps fail exactly when `Date` is absent; otherwise they keep the height and add `Year-Month` unless it already exists |
| Pipeline.Totalled | sales_data_analysis.py:62-98 | the three groupings fail exactly when `Date`, `Segment` or `Country` is absent, and name that column |
| Pipeline.Summarised | sales_data_analysis.py:152-195 | after the date steps only a missing `Product` column can raise `KeyError` |
| Pipeline.AnalyseCleaned | sales_data_analysis.py:62-195 | a successful run needs `Date`, `Segment`, `Country` and `Product`, and ends with a table of the same height whose names gain `Year-Month` |
| Pipeline.Analyse | sales_data_analysis.py:16-195 | a successful run starts from a table that has, after the name clean-up, every column the script looks up, and keeps every row |
| Pipeline.CleanUp | sales_data_analysis.py:16-57 | driving the table object through the clean-up leaves it equal to the clean-up function of the loaded table, or reports its `KeyError` |
| Pipeline.RunCleaned | sales_data_analysis.py:62-195 | driving the cleaned table through the rest gives the result of the analysis function, leaves the table equal to its final table, and leaves it well-formed whatever the outcome |
| Pipeline.Run | sales_data_analysis.py:16-195 | the whole script run on a table object gives the analysis of the loaded table, leaves the object holding its final table, and leaves it well-formed whatever the outcome |
| AnalysisFacts.AnalyseSucceeds | sales_data_analysis.py:16-163 | the script raises `KeyError` exactly when a column it looks up is absent after the name clean-up, and then it names such a column |
| AnalysisFacts.AnalyseCleanedSucceeds | sales_data_analysis.py:62-163 | after the clean-up, `KeyError` is raised exactly when `Date`, `Segment`, `Country` or `Product` is absent |
| CleaningFacts.CleanedColumns | sales_data_analysis.py:39-57 | after the clean-up every listed column holds its cleaned cells, `Discounts` has 0 where cleaning left a gap, and every other column is as loaded |
| CleaningFacts.CleanedDiscounts | sales_data_analysis.py:46-57 | each `Discounts` cell is the cleaning of the loaded cell, with missing replaced by 0 |
| CleaningFacts.CleanedListed | sales_data_analysis.py:39-46 | each cell of the other seven listed columns is the cleaning of the loaded cell |
| CleaningFacts.CleanedOther | sales_data_analysis.py:39-57 | a column outside the list is as loaded |
| AnalysisFacts.FinalTable | sales_data_analysis.py:39-147 | the final table cell by cell: cleaned cells in the cleaned columns, loaded cells elsewhere, parsed dates in `Date`, and in `Year-Month` the month of each date, missing exactly where the date is |
| AnalysisFacts.SumsByKey | sales_data_analysis.py:62 | Sales and Profit summed by a key give one row per distinct present key, holding that key's two totals |
| AnalysisFacts.TrendOfCleaned | sales_data_analysis.py:62 | the trend groups by the raw Date text, one row per distinct present date string, holding that date's Sales and Profit totals |
| AnalysisFacts.TrendByRawDate | sales_data_analysis.py:62 | the same in terms of the loaded table: the raw dates of the loaded table and the cleaned Sales and Profit |
| CleaningFacts.MonthKeyedTotal | sales_data_analysis.py:147-152 | when a month is missing exactly where the date text does not parse, the rows with a month add up to the rows whose date parses |
| AnalysisFacts.MonthlyTotals | sales_data_analysis.py:152 | grouping Sales and Profit by such months, the two column totals are the totals over the rows whose date parses |
| AnalysisFacts.DatedMonths | sales_data_analysis.py:142-147 | the date steps keep Sales and Profit and make a month missing exactly where the date text does not parse |
| AnalysisFacts.MonthlyOfCleaned | sales_data_analysis.py:142-152 | the monthly summary adds up the Sales and the Profit of exactly the rows whose date text parses |
| AnalysisFacts.MonthlyCoversParsedDates | sales_data_analysis.py:142-152 | the same in terms of the loaded table: rows whose raw date does not parse drop out of the monthly totals |

## Left out

- Reading the CSV file, creating the image folder, every `print`, and all plotting and `savefig` calls (:7, :10, :12-13, :17, :21, :23-24, :48, :53, :56, :58, :64-72, :78-93, :100-125, :133-136, :138-139, :143-144, :148, :153-159, :165-170, :176-191, :197-204). These are file and console I/O and drawing.
- The correlation matrix (:130). It needs floating-point division and square roots.
- Floating-point rounding. Amounts are exact reals.
- The full grammar of `pd.to_numeric`. The model accepts an optional sign, then digits with an optional decimal point, and at least one digit. It does not accept exponents, `inf`, `nan` or surrounding whitespace. So `" 12 "` is missing in the model, while the library may read it as 12.
- pandas' datetime internals. The nanosecond `Timestamp` range turns dates before 22 September 1677 and after 11 April 2262 into `NaT`; the model has no such range and parses `1/1/1000` to a day. `strptime`'s acceptance of a space-padded day is not modelled either. The date model is `m/d/yyyy` with one- or two-digit month and day, a four-digit year from 1, and a real calendar day.
- Duplicate column names. A lookup takes the first column with that name, where pandas would return a sub-table.
- Group keys of mixed kinds in one column. The model orders them by kind (`Cells.Rank`), which is a choice of the model, not a behaviour of the script.
- Sorting.SortDescending: the order of tied values is not specified, because pandas' default sort is not stable. The model fixes one order, and its contract states only non-increasing order and the permutation.
- The label loop at :184-187. It indexes the mean-price table by position for plotting only.
- Data types. Columns are not typed, and the `dtypes` checks are not modelled.
