# Confectionary sales pipeline — a Dafny model of its cleaning and aggregation core

The script `data_visualisation_confectionary.py` does four things:

1. It reads a spreadsheet of confectionary sales.
2. It normalises the header, turning `Revenue(£)` into `RevenueGBP` for example.
3. It cleans the rows:
   - exact duplicate rows are dropped;
   - rows without a parseable date are dropped;
   - the rows are sorted by date;
   - the columns `Year`, `Month` and `Profit_Margin_%` are added.
4. It computes four summaries and plots them:
   - the mean profit margin per confectionary type, largest first;
   - the total revenue per country, largest first;
   - the (year, month) with the largest revenue;
   - a month-by-country revenue grid for a heatmap.

This project models steps 2 to 4 up to the plotting, and proves what each step promises.

- `column_names.dfy`
  - Module `ColumnNames` is the header normaliser. `Strip` is Python's `str.strip()` over the characters `str.isspace` accepts. It is followed by a literal space-to-`_` replace, a literal, non-overlapping, left-to-right replace of the token `(£)` by `GBP`, and deletion of every `(` and `)`.
  - Module `ColumnNameFacts` pins `Strip` down and proves several things:
    - normalisation ignores surrounding whitespace;
    - it never leaves a space or a parenthesis;
    - it is idempotent on those of its results that have no whitespace at either end (a whitespace character next to a deleted parenthesis can end up at an edge: `(\tx` becomes `\tx`, which becomes `x`);
    - it maps the sheet's header names to the names the later stages read.
    - It also shows that two different names can collide.
- `sales.dfy`: the row of the sheet (`Row`) and the cleaned record with its derived columns (`Record`). It defines the profit margin and the orders on dates.
- `cleaner.dfy`: the cleaning stage.
  - The method `Clean` rebinds the table step by step, as the script does.
  - It is proved against the function `Cleaned`.
  - Lemmas about `Cleaned` state what the stage guarantees.
- `seqs.dfy`, `sorting.dfy` and `groups.dfy` are generic helpers:
  - duplicate removal that keeps the first occurrence;
  - a sort by a total preorder that promises only sortedness and permutation;
  - group-by with sum and mean.
- `aggregates.dfy`: the four summaries and their properties.

Choices the model makes where the code leaves room:

- **Zero revenue.** The script divides profit by revenue on floating-point columns (line 41). A zero revenue gives NaN when the profit is zero too, and an infinity otherwise. The model gives such a row no margin (`None`) and the mean per type skips it. That matches pandas for NaN, which `mean` skips. It does not match for an infinity, which `mean` keeps (see "## Left out"). A type with no margin at all gets no mean and sorts last, as NaN does in `sort_values`.
- **Collision-free names.** The intended behaviour asks the normalised header to be collision-free. The code does not guarantee that, and the model follows the code: `ColumnNameFacts.NormaliseNotInjective` shows that `Units_Sold` and `Units Sold` both become `Units_Sold`.
- **The currency replace.**
  - `.str.replace("(£)", "GBP")` has no `regex` argument. It is modelled as a literal replace, which is the default of current pandas.
  - Older pandas read the pattern as a regular expression. That version replaces only the `£` and leaves the parentheses, which the next step deletes.
  - For the sheet's names (`Revenue(£)`, `Profit(£)`, `Revenue (£)`) both readings give the same result.
- **Date parsing.** The date parser (`to_datetime`, day first, unparseable values become missing) is an input to the model. A `Row` carries the parsed `Option<Date>`, and the parser itself is not modelled. The model assumes the date cells hold a day and no time of day (see "## Left out").

## Model

| member | source | states |
|---|---|---|
| ColumnNames.LeadingWhitespaceSpec | data_visualisation_confectionary.py:23 | the leading-whitespace count covers only whitespace, and the character after it is not whitespace |
| ColumnNames.TrailingWhitespaceSpec | data_visualisation_confectionary.py:23 | the trailing-whitespace count covers only whitespace, and the character before it is not whitespace |
| ColumnNameFacts.StripCharacterised | data_visualisation_confectionary.py:23 | a cut with only whitespace outside it and non-whitespace ends (or empty) is exactly what strip returns |
| ColumnNameFacts.StripIsCut | data_visualisation_confectionary.py:23 | strip's result is such a cut of the input: whitespace outside, non-whitespace at both ends unless empty |
| ColumnNameFacts.StripIgnoresSurroundingWhitespace | data_visualisation_confectionary.py:23 | adding whitespace on either side of a name does not change its stripped form |
| ColumnNameFacts.StripKeeps | data_visualisation_confectionary.py:23 | a name with non-whitespace ends is left unchanged by strip |
| ColumnNames.ReplaceChar | data_visualisation_confectionary.py:24 | same length; each space becomes `_`, every other character is kept in place |
| ColumnNameFacts.ReplaceCharAbsent | data_visualisation_confectionary.py:24 | a name without spaces is unchanged by the space replace |
| ColumnNameFacts.SpaceJoined | data_visualisation_confectionary.py:24 | two space-free words joined by a space come out joined by `_` |
| ColumnNameFacts.ReplaceAllAt | data_visualisation_confectionary.py:25 | an occurrence of the token preceded by text that cannot start it is replaced, the text before it kept |
| ColumnNameFacts.ReplaceAllAbsent | data_visualisation_confectionary.py:25 | a name missing any character of the token is unchanged by the token replace |
| ColumnNameFacts.ReplaceAllChars | data_visualisation_confectionary.py:25 | every character after the token replace comes from the name or from the replacement |
| ColumnNameFacts.DeleteCharsMembers | data_visualisation_confectionary.py:26 | a character survives the deletion exactly when it was in the name and is not a parenthesis |
| ColumnNameFacts.DeleteCharsAppend | data_visualisation_confectionary.py:26 | deleting from a concatenation is deleting from each part |
| ColumnNameFacts.DeleteCharsAbsent | data_visualisation_confectionary.py:26 | a name without parentheses is unchanged by the deletion |
| ColumnNameFacts.DeleteBrackets | data_visualisation_confectionary.py:26 | `a(b)` loses exactly its two parentheses when `a` and `b` hold none |
| ColumnNameFacts.NormaliseCharset | data_visualisation_confectionary.py:22-27 | a normalised name contains no space and no parenthesis |
| ColumnNameFacts.NormaliseHeaderCharset | data_visualisation_confectionary.py:22-27 | a normalised header keeps its number of columns, and none of its names contains a space or a parenthesis |
| ColumnNameFacts.NormaliseIgnoresSurroundingWhitespace | data_visualisation_confectionary.py:22-27 | the normalised name does not depend on whitespace around the original |
| ColumnNameFacts.NormaliseIdempotent | data_visualisation_confectionary.py:22-27 | normalising a normalised name with non-whitespace ends changes nothing |
| ColumnNameFacts.NormaliseWithoutParentheses | data_visualisation_confectionary.py:22-27 | a stripped name without parentheses only has its spaces turned into `_` |
| ColumnNameFacts.NormalNameFixed | data_visualisation_confectionary.py:22-27 | a name without spaces, parentheses or surrounding whitespace is already normal |
| ColumnNameFacts.CurrencyName | data_visualisation_confectionary.py:22-27 | a word followed by `(£)` becomes the word followed by `GBP` |
| ColumnNameFacts.SpacedCurrency | data_visualisation_confectionary.py:22-27 | a word, a space and `(£)` become the word, `_` and `GBP` |
| ColumnNameFacts.QualifiedName | data_visualisation_confectionary.py:22-27 | a word with a parenthesised qualifier loses only the parentheses |
| ColumnNameFacts.SalesHeader | data_visualisation_confectionary.py:22-27 | the sheet's header `Date`, `Confectionary`, `Country(UK)`, `Units Sold`, `Revenue(£)`, `Profit(£)` becomes `Date`, `Confectionary`, `CountryUK`, `Units_Sold`, `RevenueGBP`, `ProfitGBP`, in that order |
| ColumnNameFacts.SalesHeaderNames | data_visualisation_confectionary.py:22-27 | `Revenue(£)`, `Profit(£)`, `Country(UK)` and `Units Sold` become `RevenueGBP`, `ProfitGBP`, `CountryUK` and `Units_Sold`, the names read at lines 41, 66 and 123 |
| ColumnNameFacts.SpacedCurrencyName | data_visualisation_confectionary.py:22-27 | `Revenue (£)` becomes `Revenue_GBP` |
| ColumnNameFacts.NormaliseNotInjective | data_visualisation_confectionary.py:22-27 | two different names, `Units_Sold` and `Units Sold`, normalise to the same name |
| Sales.Margin | data_visualisation_confectionary.py:41 | no margin exactly when revenue is zero; otherwise margin times revenue equals 100 times profit |
| Sales.Enrich | data_visualisation_confectionary.py:39-41 | the record keeps every original column and its year, month name and margin agree with its date, revenue and profit |
| SalesFacts.EnrichBase | data_visualisation_confectionary.py:39-41 | a record whose derived columns hold is the enrichment of its own original columns |
| SalesFacts.DateOrder | data_visualisation_confectionary.py:36 | date order is total, transitive and antisymmetric |
| SalesFacts.RowDateOrder | data_visualisation_confectionary.py:36 | date order with undated rows last is a total preorder, so the sort is well defined |
| SalesFacts.MonthNamesDistinct | data_visualisation_confectionary.py:40 | there are twelve month names and no two are equal |
| SalesFacts.MonthNameInjective | data_visualisation_confectionary.py:40 | two months have the same name exactly when they are the same month |
| SalesFacts.SameMonthGroup | data_visualisation_confectionary.py:75 | two records share the (Year, Month) group exactly when their dates fall in the same calendar month |
| Seqs.Dedup | data_visualisation_confectionary.py:33 | the result has the same elements as the input and no duplicates |
| Seqs.DedupCount | data_visualisation_confectionary.py:33 | each input row occurs exactly once after duplicate removal, any other row never |
| Seqs.DedupOfDistinct | data_visualisation_confectionary.py:33 | duplicate removal leaves a duplicate-free table unchanged |
| Cleaner.Dated | data_visualisation_confectionary.py:33 | a row is kept exactly when it is in the input and has a date |
| Cleaner.DatedCount | data_visualisation_confectionary.py:33 | a dated row is kept as often as it occurs; an undated row never |
| Cleaner.DatedKeepsNoDuplicates | data_visualisation_confectionary.py:33 | dropping undated rows keeps the table free of duplicates |
| Cleaner.DatedOfAllDated | data_visualisation_confectionary.py:33 | a table whose rows are all dated loses nothing |
| Sorting.Insert | data_visualisation_confectionary.py:36 | inserting into a sorted sequence keeps it sorted and adds exactly the one element |
| Sorting.SortBy | data_visualisation_confectionary.py:36 | the result is sorted and a permutation of the input |
| Sorting.PermutationMembers | data_visualisation_confectionary.py:36 | a permutation has the same elements as the original |
| Cleaner.Derive | data_visualisation_confectionary.py:39-41 | one record per row, in order, each keeping the row's columns with correct derived columns |
| Cleaner.DeriveMembers | data_visualisation_confectionary.py:39-41 | the derived table holds exactly the correctly derived records of its rows |
| Cleaner.Clean | data_visualisation_confectionary.py:33-41 | the table after the rebinding steps is the cleaned table: sorted by date, derived columns correct, only input rows, every dated input row exactly once, no two equal records |
| Cleaner.CleanedSorted | data_visualisation_confectionary.py:36 | the cleaned table is in non-decreasing date order |
| Cleaner.CleanedRowsFromInput | data_visualisation_confectionary.py:33-41 | every cleaned record is an input row with correct derived columns |
| Cleaner.CleanedCount | data_visualisation_confectionary.py:33 | a row occurs once in the cleaned table if it is a dated input row, otherwise not at all |
| Cleaner.CleanedNoDuplicates | data_visualisation_confectionary.py:33 | no two cleaned records are equal |
| Cleaner.CleanedBases | data_visualisation_confectionary.py:33 | the original columns of the cleaned table are all dated and free of duplicates |
| Cleaner.CleanedOfDistinctDated | data_visualisation_confectionary.py:33-41 | cleaning distinct dated rows keeps every one of them |
| Cleaner.CleanTwice | data_visualisation_confectionary.py:33-41 | cleaning a cleaned table again gives the same records, the same number of them |
| Cleaner.ScenarioDedup | data_visualisation_confectionary.py:33 | `[a, a, b]` with `a != b` loses the second `a` |
| Cleaner.ScenarioDated | data_visualisation_confectionary.py:33 | of a dated and an undated row only the dated one is kept |
| Cleaner.ThreeRowScenario | data_visualisation_confectionary.py:33-41 | a duplicated dated row and an undated row leave a single record, made from the dated row |
| GroupFacts.KeysOfMembers | data_visualisation_confectionary.py:57 | a key occurs exactly when some entry carries it |
| Groups.Totals | data_visualisation_confectionary.py:66-67 | one entry per key given, holding that key's sum |
| GroupFacts.SumForAbsent | data_visualisation_confectionary.py:66-67 | a key no entry carries sums to zero |
| GroupFacts.GroupKeysStep | data_visualisation_confectionary.py:66-67 | a new key opens a group at the end; a known key adds none |
| GroupFacts.TotalsStep | data_visualisation_confectionary.py:66-67 | one more entry adds its value to the total of the group sums exactly when its key is grouped |
| GroupFacts.GroupSumsEntries | data_visualisation_confectionary.py:66-67 | one group per distinct key, no key twice, each holding its key's sum |
| GroupFacts.GroupSumsTotal | data_visualisation_confectionary.py:66-67 | the group sums add up to the sum of all values |
| Seqs.SumValuesPermutation | data_visualisation_confectionary.py:68 | reordering entries does not change the sum of their values |
| GroupFacts.PresentForMembers | data_visualisation_confectionary.py:57-58 | a value is among a group's present values exactly when an entry of the group holds it |
| GroupFacts.PresentForCount | data_visualisation_confectionary.py:57-58 | each value occurs among a group's present values exactly as often as the group's entries hold it, so the mean weighs every entry |
| Groups.Mean | data_visualisation_confectionary.py:58 | no mean exactly for an empty group; otherwise mean times count equals the sum |
| Groups.Means | data_visualisation_confectionary.py:57-58 | one entry per key given, holding the mean of that key's present values |
| GroupFacts.GroupMeansEntries | data_visualisation_confectionary.py:57-58 | one group per distinct key, no key twice, each holding its key's mean |
| Groups.Min | data_visualisation_confectionary.py:58 | the smallest value of a non-empty group is one of its values and bounds all from below |
| Groups.Max | data_visualisation_confectionary.py:58 | the largest value of a non-empty group is one of its values and bounds all from above |
| GroupFacts.MeanWithin | data_visualisation_confectionary.py:58 | the mean of values between two bounds lies between them |
| GroupFacts.MeanBounds | data_visualisation_confectionary.py:58 | a mean lies between the smallest and the largest value |
| GroupFacts.MeanSkipsMissing | data_visualisation_confectionary.py:57-58 | values 10, missing and 30 of one group have mean 20 |
| Groups.ValueDescOrder | data_visualisation_confectionary.py:68 | "larger value first" is a total preorder |
| Groups.MeanDescOrder | data_visualisation_confectionary.py:59 | "larger mean first, missing means last" is a total preorder |
| GroupFacts.ReorderedGroups | data_visualisation_confectionary.py:59 | sorting groups keeps their keys distinct and the same |
| GroupFacts.ReorderedValues | data_visualisation_confectionary.py:59 | sorting groups keeps each group's value tied to its key |
| GroupFacts.PeakIsMaximal | data_visualisation_confectionary.py:74-80 | at most one group, none exactly for no entries; it is a real group with its own sum, and no key's sum exceeds it |
| GroupFacts.GroupSumsEmpty | data_visualisation_confectionary.py:74-80 | there are groups exactly when there are entries |
| GroupFacts.GroupEntry | data_visualisation_confectionary.py:66-67 | every group entry carries an input key and that key's sum |
| GroupFacts.SortedHeadBound | data_visualisation_confectionary.py:78-79 | the first of the groups sorted largest first bounds every key's sum |
| GroupFacts.PeakOfTwo | data_visualisation_confectionary.py:74-80 | of two groups with sums 500 and 700 the peak is the 700 one |
| AggregateFacts.RevenueByTotal | data_visualisation_confectionary.py:66 | the revenue entries carry the table's whole revenue |
| AggregateFacts.RevenueKeys | data_visualisation_confectionary.py:66 | a key occurs among the revenue entries exactly when some record has it |
| AggregateFacts.MarginKeys | data_visualisation_confectionary.py:57 | a type occurs among the margin entries exactly when some record has it |
| AggregateFacts.TypeMarginsMembers | data_visualisation_confectionary.py:57-58 | a margin is among a type's margins exactly when some record of that type has it |
| AggregateFacts.TypeMarginsCount | data_visualisation_confectionary.py:57-58 | a margin occurs among a type's margins exactly as often as the (type, margin) pair occurs among the records, so the mean is taken over every record's margin, repeats included |
| AggregateFacts.AvgMarginEntries | data_visualisation_confectionary.py:56-60 | one entry per type of the table, no type twice; each is the mean of that type's present margins; largest first, missing last |
| AggregateFacts.AvgMarginBounds | data_visualisation_confectionary.py:56-60 | each type's mean margin lies between its smallest and largest margin |
| AggregateFacts.RegionRevenueEntries | data_visualisation_confectionary.py:65-69 | one entry per country, no country twice, each its revenue sum, largest first, all adding up to the total revenue |
| AggregateFacts.PeakMonthIsMaximal | data_visualisation_confectionary.py:74-80 | at most one (year, month) row, none exactly for an empty table; it is some record's month with its revenue sum, and no record's month has more |
| AggregateFacts.PivotCells | data_visualisation_confectionary.py:111-113 | one cell per (month name, country) pair that occurs, no pair twice, each its revenue sum with the years of a month name added together, all adding up to the total revenue |

## Left out

- Reading the spreadsheet, `print`, `describe` and every chart (lines 12-16, 43-50, 61-62, 70-71, 81-82, 87 onward) are I/O or rendering. They are not modelled.
- `to_datetime` (line 30): the parsing of the date text is left out. The model's input row already carries the parsed date or its absence.
- Sales.Date: holds a calendar day only. This assumes the date cells carry no time of day, but `to_datetime` keeps one when a cell has it. Two things are then lost. Two rows that differ only in their time of day are distinct to `drop_duplicates` (line 33) but equal in the model. The sort by date (line 36) orders same-day rows by their time, where the model leaves their order open.
- Floating point: revenues, profits and margins are exact reals. A zero revenue gives a missing margin where the script produces an infinity or NaN.
- AggregateFacts.AvgMarginEntries: a record with zero revenue and a non-zero profit is skipped by the model's mean. In the script its margin is an infinity (line 41), which pandas' `mean` does not skip. That type's mean becomes an infinity, or NaN when infinities of both signs occur. It then sorts first or last (lines 58-59), where the model ranks the type by its other margins.
- Integer columns: `Units_Sold` is an unbounded integer that is carried along and never checked.
- Columns: a row holds only the six columns the pipeline reads. Duplicate removal in the script compares every column of the sheet. The model compares these six.
- Missing values other than the date, such as an empty type or country cell or a missing revenue, are not modelled. Every row has a type, a country, a revenue and a profit.
- Sorting.SortBy: promises only sortedness and permutation. The order of ties is left open because the script's sort is not stable. So `CleanTwice` states the same records but not the same order, and `PeakIsMaximal` does not say which of several tied groups is the peak.
- Groups.GroupSums: the groups come out in order of first appearance, where pandas sorts group keys. Every result that reaches a caller is re-sorted by value, except the pivot.
- AggregateFacts.PivotCells: the pivot is modelled as its list of non-empty cells. The grid layout is not modelled: row and column order, and the NaN shown for an absent (month, country) pair.
- Sales.Margin: states the margin through `margin * revenue == profit * 100`. It does not model floating-point rounding of the division.
