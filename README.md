# Sales dashboard aggregates, in Dafny

This project models the aggregation layer of a Dash sales dashboard (`main.py`). The dashboard loads a table of transactions. Each row holds a store, a product family, a city, a state and a store type, plus calendar columns (week, month, year, day of week), the sales amount and the number of items on promotion. It then shows:

- On the overview sheet:
  - the average sales per weekday;
  - the weekly and monthly trends (`avg_sales` and `max_sales`);
  - the ten best-selling families;
  - the ten best-selling families on promotion;
  - the store-type shares;
  - the summary counts.
- Three selector views, which filter the table to one store, one state or one product family and feed summary cards and charts.
- On the family view, the family's place in the product ranking. It is written as an English ordinal by a one-line formatter.

Everything is modelled as pure functions over sequences. Sales are exact `real` numbers. Each in-place `sort_values` becomes a new sorted sequence. The product ranking's ascending sort and its later descending re-sort are kept as two distinct values.

Modules:

- `Tables` (`tables.dfy`): the pandas operations the dashboard uses, generic in the row type:
  - boolean-mask selection, `nunique`;
  - group-by with sum, mean and max, and key lookup;
  - sorting by one column, Python's tail slice `[-n:]`;
  - the sort-then-tail-slice "top N" pipeline;
  - the first and last rows of sorted totals, the 1-based rank in a descending ranking, and `Series.mode()`.
- `Masks` (`masks.dfy`): how a view's filtered rows relate to the whole table. Grouping the rows of one store, state or family by a key is grouping the whole table by the pair of columns.
- `Periods` (`periods.dfy`): the weekly and monthly trend tables. They sum per (period, year), take the mean over years, and sort by period. The module also holds the `max_sales` column, both as written and as intended.
- `Ordinal` (`ordinal.dfy`): the formatter `"%d%s" % (n, "tsnrhtdd"[...::4])` of l.747.
- `Dashboard` (`dashboard.dfy`): the transaction row, the overview tables, and the store, state and family views with their cards.

Where the selected rows are empty, the source raises on `.iloc[0]`, `.iloc[-1]` or `.index[0]`. A view then returns `Err(EmptySelection)`. Three points follow the program's own behaviour rather than a tidier reading of it:

- Ties between equal totals. The program leaves their order to pandas' sort, which is not stable, so no property here depends on tie order.
- The modal store type. `mode()` returns every most frequent value, and the program shows all of them, so the model returns all of them too.
- The trend charts' `max_sales` column. As written it is aligned by row position instead of by period. `Periods` models both that column and the intended one; see "## Findings". The dashboard's trend charts draw the intended one.

## Model

| member | source | states |
|---|---|---|
| Tables.Select | main.py:571 | a boolean mask keeps every row satisfying it, as often as it occurs, and no other row |
| Tables.SelectConcat | main.py:571 | the mask keeps the rows' order: selecting from two tables placed one after the other is selecting from each and concatenating the results |
| Tables.SelectFirst | main.py:620 | the first selected row is the first row of the table satisfying the mask, so `.iloc[0]` reads the earliest matching row |
| Tables.SelectDropsZeros | main.py:642 | leaving out rows with zero sales keeps the total sales |
| Tables.DistinctCount | main.py:241-318 | `nunique` is the number of distinct values of the column; it is at most the number of rows, and zero only for an empty table |
| Tables.GroupSum | main.py:136 | group-by-sum gives exactly one row per distinct key, for exactly the keys present, each holding the sum over that key's rows |
| Tables.GroupSumPartitions | main.py:136 | the group totals add up to the table's total |
| Tables.GroupMean | main.py:30 | group-by-mean gives one row per distinct key present; each group has a row, and its mean times its row count is the group's sum |
| Tables.MeanWithinGroup | main.py:30 | a group's mean lies between the smallest and the largest value in the group |
| Tables.GroupMax | main.py:57 | group-by-max gives one row per key present, holding a value of the group that no value of the group exceeds |
| Tables.LookupMax | main.py:57 | looking up a present key in the group maxima finds the largest value of that key's rows |
| Tables.Lookup | main.py:57 | looking up a label finds nothing (NaN) exactly when no row carries it, and otherwise finds that label's row |
| Tables.SortBy | main.py:137 | sorting gives a permutation of the rows that is ascending in the sort column |
| Tables.TailSlice | main.py:139 | Python's `[-n:]` gives the last `min(n, len)` elements, the whole sequence when `n` is 0, and never pads |
| Tables.TailSliceLargest | main.py:137-139 | of an ascending sequence, the tail slice stays ascending and every element before it is no larger than any element in it |
| Tables.SortedTotals | main.py:136-137 | the family totals, one row per family present with its sum, in ascending order of total |
| Tables.TopN | main.py:137-139 | the top-N bar chart has exactly `min(N, number of groups)` rows, ascending, with distinct present keys and their totals; every key left out totals no more than every key kept |
| Tables.DescendingTotals | main.py:662-663 | the state's family totals, one row per family with its sum, by decreasing total |
| Tables.FirstIsLargest | main.py:679 | the first row of the descending totals is a present key whose total is at least every key's total |
| Tables.LastIsLargest | main.py:767 | the last row of the ascending totals is a present key whose total is at least every key's total |
| Tables.RankedTotals | main.py:163 | re-sorting the ascending family totals in descending order keeps one row per family with its sum, now by decreasing total |
| Tables.RankOf | main.py:745 | the rank is one plus the position of the first row with the key, and there is none exactly when no row has the key |
| Tables.RankBounds | main.py:745 | a family has a rank exactly when it occurs, and the rank lies between 1 and the number of distinct families |
| Tables.RankOrder | main.py:745 | a family with a strictly larger total gets a strictly smaller rank |
| Tables.RankOneIsLargest | main.py:745 | the family ranked first has the largest total |
| Tables.Modes | main.py:715 | `mode()` has values exactly when the rows are not empty, and each is a value of the column |
| Tables.ModesAreMostCommon | main.py:715 | every mode occurs at least as often as any other value, and every value of maximal frequency is a mode |
| Periods.TrendPeriods | main.py:54-55 | the trend has a row for exactly the periods present in the data |
| Periods.TrendAscending | main.py:58 | the trend lists its periods in strictly increasing order |
| Periods.TrendIsMeanOverYears | main.py:54-56 | a trend row is the mean over the years in which its period has rows: there is such a year, and the value times their number is the period's total over all years |
| Periods.AlignByPosition | main.py:57 | assigning a keyed series to a table indexed by row position: row `i` gets nothing (NaN) exactly when the series has no entry keyed `i`, and otherwise gets the value of the entry keyed `i` |
| Periods.AlignByKey | main.py:57 | the intended alignment: row `i` gets nothing exactly when the series has no entry keyed by that row's own period, and otherwise gets that entry's value |
| Periods.MaxColumnMisaligned | main.py:57 | as written, the first trend row gets no maximum (NaN), since periods are numbered from 1, while the intended column has one |
| Periods.MaxColumnIsPeriodMax | main.py:57 | in the intended column every trend row has a maximum: one of its period's yearly sums, and no smaller than any of them |
| Periods.MaxColumnAboveMean | main.py:98 | the intended maximum line never runs below the average line |
| Ordinal.Decimal | main.py:747 | `"%d"` writes digits only, without a leading zero, and a single digit exactly below 10 |
| Ordinal.DecimalRoundTrip | main.py:747 | reading back the digits of `n` gives `n` |
| Ordinal.DecimalInjective | main.py:747 | different numbers are written with different digits |
| Ordinal.SuffixSlices | main.py:747 | the four stride slices of "tsnrhtdd" are "th", "st", "nd" and "rd" |
| Ordinal.SuffixIndexIsEnglish | main.py:747 | the source's index expression lies in 0..3 and selects the English ordinal suffix: "th" for 11 to 13 in the last two digits, otherwise "st", "nd", "rd" after 1, 2, 3 and "th" after anything else |
| Ordinal.Format | main.py:747 | the place is the decimal digits of the rank followed by its English ordinal suffix |
| Ordinal.FormatInjective | main.py:747 | different ranks are never written alike |
| Ordinal.FormatOneDigit | main.py:747 | a rank below 10 is written as one digit and its suffix |
| Ordinal.FormatThreeDigits | main.py:747 | a rank from 100 to 999 is written as its three digits and its suffix |
| Ordinal.SuffixExamples | main.py:747 | 1st, 2nd, 3rd, 4th, 11th, 12th, 13th, 21st, 22nd, 33rd, 101st, 111th, 112th |
| Ordinal.FormatFirst | main.py:747 | rank 1 is written "1st" |
| Ordinal.FormatHundredTwelfth | main.py:747 | rank 112 is written "112th" |
| Dashboard.WeekdayAverageIsMean | main.py:30 | each weekday's average is a mean over that day's rows: there is one, and the average times their number is the day's total |
| Dashboard.WeekdayAverageWithinDay | main.py:30 | each weekday's average lies between that day's smallest and largest sale |
| Dashboard.WeeklyChartPoints | main.py:54-58 | the weekly chart has one point per week present, in increasing week order; each average times the number of years with that week is the week's total; the intended maximum line has a point for each and lies on or above it |
| Dashboard.MonthlyChartPoints | main.py:95-99 | the same for the monthly chart |
| Dashboard.PromotionTotalsArePromotedSales | main.py:166-173 | the promotion ranking lists exactly the families with a row whose `onpromotion`, read as a bool, is true; each value, in the ranking and in its top ten, is the sales of those rows only |
| Dashboard.StoreTypeSharesPartition | main.py:198 | the store-type shares of the pie chart add up to the total sales |
| Dashboard.OverviewMonthsCoverYears | main.py:277-336 | the "years" card never exceeds the "months" card, which never exceeds the number of rows |
| Dashboard.StoreViewDefined | main.py:571-620 | the store view has cards exactly when the store has rows |
| Dashboard.StoreViewProducts | main.py:584-642 | the product card counts the pie chart's slices, which are the families the store sold with non-zero sales; the slices add up to the store's sales |
| Dashboard.StoreViewType | main.py:620 | the type card shows the store type of the store's earliest row |
| Dashboard.StoreViewSales | main.py:571-602 | the sales card is the store's total; the yearly bars add up to it, and each bar holds the store's sales for its year and promotion status |
| Dashboard.StoreViewYearlyBars | main.py:572 | there is one yearly bar per (year, promoted) pair occurring among the store's rows, and no other bar |
| Dashboard.StateViewDefined | main.py:660-679 | the state view has cards exactly when the state has rows |
| Dashboard.StateBestFamily | main.py:662-679 | the best-family card shows a family sold in the state whose sales there are at least those of every other family there |
| Dashboard.StateViewTotal | main.py:697 | the sales card is the state's total |
| Dashboard.StateTopStores | main.py:665-728 | each bar holds that store's sales within the state |
| Dashboard.StateTopStoresAreBest | main.py:665-728 | the store chart has `min(5, number of stores in the state)` bars, ascending, one per store, each a store of the state; every store of the state left off sold there no more than every store shown |
| Dashboard.StateCommonStoreTypes | main.py:715 | the store-type card shows at least one type, and each type shown occurs among the state's rows at least as often as any other type |
| Dashboard.StateCommonStoreTypesComplete | main.py:715 | every store type of maximal frequency in the state is shown |
| Dashboard.FamilyViewDefined | main.py:745-749 | the family view has cards exactly when the family has rows |
| Dashboard.FamilyViewPlace | main.py:745-802 | the place card shows the family's rank, between 1 and the number of families, as digits and an English ordinal suffix |
| Dashboard.FamilyBestState | main.py:754-767 | the best-state card shows a state where the family sold at least as much as in every other state |
| Dashboard.FamilyViewTotal | main.py:784 | the sales card is the family's total |
| Dashboard.FamilyTopCities | main.py:751-814 | each bar of the city chart holds the family's sales in that city |
| Dashboard.FamilyTopCitiesAreBest | main.py:751-814 | the city chart has `min(10, number of cities selling the family)` bars, ascending, one per city, each a city where the family was sold; every city left off sold the family no more than every city shown |

## Left out

- Reading and concatenating the two CSV files (main.py:15-17) is file I/O. The model takes the concatenated rows as its input.
- The Dash and Bootstrap layout, callbacks, tab dispatch and HTTP server are user-interface plumbing, and so are the Plotly figures and their styling, including the average reference lines. None of this is modelled.
- The random card colours (`random.choice`) are random and cosmetic.
- Floating-point arithmetic is not modelled. Sales are exact reals, so sums and means are exact.
- pandas sorts group-by keys; the model keeps keys in order of first appearance. No property here depends on that order:
  - most grouped tables are re-sorted, shown as a pie, or looked up by key;
  - the store view's (year, promoted) bars (l.572, 633) are placed by their keys;
  - the per-(period, year) sums that are grouped again by period (l.54 to l.55, l.95 to l.96) give the same groups in any order.
  
  The one place where the order matters, the positional alignment of `max_sales`, uses the trend sorted by period. That is also the order `groupby("week")` produces.
- The order among equal totals is left to an insertion sort. pandas' default sort is not stable, and no property here depends on tie order.
- Converting `store_nbr` to a string (l.666) is display-only and is left out. So is concatenating the modes with " type" (l.715). The model keeps the list of modes.
- Cards render numbers with `str(...)`; the model keeps the numbers. The exception is the place card, whose ordinal string is modelled exactly.
- Selecting a store, state or family that has no rows raises `IndexError` in the source. The model returns `Err(EmptySelection)` instead.
- Tables.RankBounds: proves only that a rank exists for exactly the present keys and that it lies within bounds. Where the rank points is stated by Tables.RankOf, and how it relates to the totals by Tables.RankOrder and Tables.RankOneIsLargest.
- Tables.Modes: its own contract states only non-emptiness and membership. Maximal frequency and completeness are stated by Tables.ModesAreMostCommon.
- Tables.Modes: lists the modes in order of first appearance, whereas pandas' `mode()` returns them sorted. The store-type card of l.715 may therefore list tied types in a different order. No property here depends on that order.
- Dashboard.WeeklyChart and Dashboard.MonthlyChart draw the intended `max_sales` line (Periods.MaxColumn), not the misaligned column that l.57 and l.98 assign. The as-written column is Periods.MaxColumnAsWritten, and Periods.MaxColumnMisaligned shows how it differs.

## Findings

| source | as written | input that shows it | evidently intended | confidence | as-written member | corrected member |
|---|---|---|---|---|---|---|
| main.py:57 | the weekly maxima, a series indexed by week number, are assigned to the weekly trend table, which is indexed by row position 0, 1, ...; row `i` gets the maximum of week number `i` | any non-empty data: weeks start at 1, so the first row gets NaN; with weeks 1, 2, ... without gaps, row `i` shows week `i`'s maximum next to week `i + 1`'s average | each row gets the maximum of its own week's yearly sums, which is never below that row's average | not executed | Periods.MaxColumnAsWritten (Periods.MaxColumnMisaligned) | Periods.MaxColumn (Periods.MaxColumnIsPeriodMax, Periods.MaxColumnAboveMean) |
| main.py:98 | the same assignment for months: the monthly maxima, indexed by month number, are aligned onto row positions | any non-empty data: months start at 1, so the first row gets NaN; with all twelve months present, row `i` shows month `i`'s maximum next to month `i + 1`'s average | each row gets the maximum of its own month's yearly sums | not executed | Periods.MaxColumnAsWritten (Periods.MaxColumnMisaligned) | Periods.MaxColumn (Periods.MaxColumnIsPeriodMax, Periods.MaxColumnAboveMean) |
