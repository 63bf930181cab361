# Promo-performance dashboard: data pipeline model

This project models the data pipeline of a one-page Streamlit dashboard
about promotions at a retail store. The dashboard reads a promo-period
table and a daily sales table. From them it computes:

- a per-UPC summary: rows grouped by UPC, with the first item name, the mean
  profit difference and mean lift, the summed promo revenue and promo profit,
  and the number of promotion periods;
- the summary rows kept by the "minimum number of promotions" slider, and the
  scatter chart's axis domains (minimum and maximum of average profit
  difference and of average lift over the kept rows);
- for the item chosen in the selector: the selector's options, that item's
  sales rows ordered by date, and that item's promo rows.

Everything is modelled as pure functions over already-parsed rows, in four
modules:

- `PromoTables` (`tables.dfy`): the row types `PromoRow`, `SalesRow` and
  `UpcSummary`. UPCs are integers, money and lift are reals, and dates are
  day numbers.
- `UpcAggregation` (`aggregation.dfy`): the group-by. `Summarize` takes two
  passes over the rows. One pass keeps per-UPC totals in a map
  (`Accumulate`). The other collects the distinct UPCs in ascending order
  (`SortedUpcs`). A separate reference definition works directly on the
  rows (`Group`, `Total`, `Mean`, `FirstIndex`), and the lemmas prove that
  the two agree.
- `PromoFilter` (`promo_filter.dfy`): the slider's upper end (`MaxCount`),
  the filter (`KeepFrequent`), and the axis domains (`Domains`).
- `ItemSelection` (`item_selection.dfy`): the selector's options
  (`ItemOptions`), the chosen item's sales by date (`ItemSales`), and its
  promo rows (`ItemPromos`).

Python compares strings lexicographically by code point, a proper prefix
first. Dafny's `<` on strings means "proper prefix", so the options are
ordered by `NameLess`, which is proved to be a strict total order.

The selector returns no item (Python `None`) when it has no options. The
chosen item is therefore an `Option<string>`, and no item matches no row.
This is what comparing a column with `None` does in the script.

## Model

| member | source | states |
|---|---|---|
| UpcAggregation.Group | streamlit_app.py:9 | reference: the rows carrying UPC u, in input order; every one carries u and there are no more of them than input rows |
| UpcAggregation.Total | streamlit_app.py:13-14 | reference: the sum of one column over the rows, zero for an empty table |
| UpcAggregation.TotalAppend | streamlit_app.py:13-14 | the column sum of a concatenation is the sum of the two parts' sums |
| UpcAggregation.Mean | streamlit_app.py:11-12 | reference: the mean of a column over a non-empty group, the value that times the group size gives the column sum |
| UpcAggregation.Accumulate | streamlit_app.py:9-16 | the one-pass group-by holds an accumulator for exactly the input's UPCs, each with a positive count; AccumulateIsGroup proves each accumulator equal to the reference figures |
| UpcAggregation.Summarize | streamlit_app.py:9-16 | the summary has exactly one row per distinct UPC of the input, in strictly ascending UPC order |
| UpcAggregation.RowUpcsInSummary | streamlit_app.py:9-16 | every UPC that occurs in the input has a summary row |
| UpcAggregation.SummaryUpcsInRows | streamlit_app.py:9-16 | every summary row's UPC occurs in the input |
| UpcAggregation.SummaryRowIsGroup | streamlit_app.py:9-16 | for every summary row: promo_count is the number of input rows with its UPC and is at least 1; item_name is the name on the earliest such row, which is the first row of its group; avg_profit and avg_lift are the group's sums of profit_difference and lift divided by its size; total_revenue and total_profit are the group's sums |
| UpcAggregation.AccumulateIsGroup | streamlit_app.py:9-16 | the one-pass accumulator of a UPC equals the reference figures of that UPC's rows: first name, the four column sums, and the row count |
| UpcAggregation.FirstIndex | streamlit_app.py:10 | the position returned carries the UPC, and no earlier row carries it |
| UpcAggregation.SortedUpcs | streamlit_app.py:9 | the UPC list is strictly ascending, has no duplicates, holds exactly the UPCs of the input, and its length is their number |
| UpcAggregation.GroupNonEmpty | streamlit_app.py:11-12 | a UPC's group is non-empty exactly when the UPC occurs in the input, so no mean divides by zero |
| UpcAggregation.CountsCoverRows | streamlit_app.py:15 | the promo counts of the summary add up to the number of input rows |
| UpcAggregation.SameUpcPair | streamlit_app.py:9-16 | two rows with one UPC give one summary row: the first row's name, the halves of the summed profit differences and lifts, the summed revenue and profit, and count 2 |
| PromoFilter.MaxCount | streamlit_app.py:22 | the slider's upper end is a promo count of some summary row and is at least every row's count; an empty summary has none |
| PromoFilter.KeepFrequent | streamlit_app.py:23 | the rows kept by the promo_count mask: no more than the input, each with promo_count >= min_promos; KeepFrequentCounts and KeepFrequentAppend fix its exact contents and order |
| PromoFilter.KeepFrequentCounts | streamlit_app.py:23 | a summary row with promo_count >= min_promos is kept as often as it occurs; every other row is dropped |
| PromoFilter.KeepFrequentAppend | streamlit_app.py:23 | filtering a concatenation is the concatenation of the filtered parts, so kept rows keep their order |
| PromoFilter.KeepFrequentAscending | streamlit_app.py:23 | rows kept from a table in ascending UPC order stay in ascending UPC order |
| PromoFilter.KeepFrequentAtOne | streamlit_app.py:22-23 | when every count is at least 1, a threshold of 1 keeps the whole table |
| PromoFilter.SliderKeepsSome | streamlit_app.py:22-23 | any threshold up to the slider's upper end keeps at least one row |
| PromoFilter.SliderDefined | streamlit_app.py:22 | a non-empty promo table gives a slider with an upper end of at least 1 |
| PromoFilter.DefaultShowsAll | streamlit_app.py:22-23 | at the slider's default of 1 the filtered table equals the whole summary |
| PromoFilter.MinOf | streamlit_app.py:26-27 | the minimum is at most every element and is one of the elements |
| PromoFilter.MaxOf | streamlit_app.py:26-27 | the maximum is at least every element and is one of the elements |
| PromoFilter.Domains | streamlit_app.py:26-27 | over the kept rows, x_min <= avg_profit <= x_max and y_min <= avg_lift <= y_max for every row, and each bound is some kept row's value; an empty selection has no domains |
| PromoFilter.SliderGivesDomains | streamlit_app.py:22-27 | for a non-empty promo table and any slider position in [1, max count], the kept rows are non-empty and the axis domains exist |
| ItemSelection.NameLessIrreflexive | streamlit_app.py:52 | no name sorts before itself |
| ItemSelection.NameLessTransitive | streamlit_app.py:52 | the name order is transitive |
| ItemSelection.NameLessTotal | streamlit_app.py:52 | of two different names, one sorts before the other |
| ItemSelection.InsertName | streamlit_app.py:52 | inserting a name into an ascending list of distinct names keeps it ascending and adds exactly that name |
| ItemSelection.ItemOptions | streamlit_app.py:52 | the options are strictly ascending, so they hold no duplicates; every non-missing sales name is an option; every option is the name of some sales row |
| ItemSelection.MatchingSales | streamlit_app.py:55 | a sales row occurs in the chosen item's rows as often as in the table when it carries the chosen name, and not at all otherwise |
| ItemSelection.InsertByDate | streamlit_app.py:55 | inserting a row into a date-sorted list keeps it sorted by date and adds one row |
| ItemSelection.InsertByDateCounts | streamlit_app.py:55 | inserting adds exactly the new row to the multiset of rows |
| ItemSelection.SortByDate | streamlit_app.py:55 | the result is sorted by non-decreasing date and is a permutation of the input |
| ItemSelection.ItemSales | streamlit_app.py:55 | the chosen item's sales are sorted by non-decreasing SaleDate and are a permutation of exactly the sales rows carrying the chosen name |
| ItemSelection.OptionHasSales | streamlit_app.py:52-55 | an item picked from the options has at least one sales row |
| ItemSelection.ItemPromos | streamlit_app.py:58 | the promo rows of the chosen item: no more than the table, each carrying the chosen name; ItemPromosCounts and ItemPromosAppend fix its exact contents and order |
| ItemSelection.ItemPromosCounts | streamlit_app.py:58 | a promo row occurs in the chosen item's promo rows as often as in the table when its Long_Desc is the chosen name, and not at all otherwise |
| ItemSelection.ItemPromosAppend | streamlit_app.py:58 | selecting from a concatenation is the concatenation of the selections, so the promo rows keep their table order |
| ItemSelection.ItemPromosEmpty | streamlit_app.py:58-65 | the chosen item's promo table is empty exactly when no promo row carries its name |

## Left out

- Reading the two CSV files (lines 6 and 41) is file I/O. The model takes the parsed rows as input.
- Date parsing (lines 44-46) is a library call. Dates are day numbers, so the order by date is the integer order.
- Streamlit and Altair (titles, slider, selectbox, tables, chart encodings and layering, lines 19-38 and 49-86) are presentation only. The slider position and the selected item are parameters.
- Missing values are not modelled. pandas' `first` and `count` skip missing values, and `groupby` drops rows with a missing UPC. Promo rows are assumed complete. Only the sales table's item name may be missing, because line 52 drops missing names explicitly.
- UpcAggregation.SummaryRowIsGroup: the sums (total_revenue, total_profit and the numerators of avg_profit and avg_lift) are exact real sums, and the means exact real quotients. The script computes them in floating point, and the model does not capture rounding.
- PromoFilter.MaxCount: on an empty promo table the script stops with an error when it converts the missing maximum to an integer (line 22). The model only reports that there is no maximum (`None`). It does not model the abort.
- ItemSelection.ItemSales: pandas' default sort is not stable, so the order of sales rows with the same date is not fixed by the script. The model promises only sorted order and permutation. Its own insertion sort happens to keep table order for equal dates.
- Sales and promo rows are matched to the chosen item by name only, as in the script. Two different products with the same name would be merged. The model keeps that behaviour.
- The script shows no quadrant classification, highlight list or recommendation text, so none is modelled.
