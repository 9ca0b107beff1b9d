# AUM dashboard pipeline in Dafny

This project models the data pipeline of the Streamlit AUM dashboard (`Dashboard.py`). The dashboard works on one consolidated table of monthly AUM records. Each record gives a year, a month, a segment (`Segmento Mesa`), a desk (`Mesa`), an advisor, a client identifier, the AUM at month end, and a 0/1 client flag (`No.Clientes`). From that table the dashboard:

- adds two columns, `Fecha` and `Mes_Nombre`, at load time;
- keeps the rows that pass the sidebar filter (year, month, segment, desk and an optional advisor list);
- computes the KPI dictionary of `calcular_metricas` on the filtered table;
- computes the yearly totals and their `pct_change` (`calcular_crecimiento`);
- builds three `groupby` rollups: by segment, by year and month in date order, and the top advisors;
- computes the unique-clients-per-year series of the retention section and its percentage change.

Every piece is a pure function over `seq<Record>`. AUM is a `real`. pandas' NaN becomes `None`: the mean and median of an empty column, and the first entry of a `pct_change`.

Files and modules:

- `options.dfy`, module `Options`: the `Option` type.
- `seqs.dfy`, module `Seqs`: the dataframe primitives the dashboard relies on.
  - Boolean-mask selection and `unique` with order of first appearance.
  - An insertion sort by a real rank, used for `sort_values`, proved sorted and a permutation.
  - `head`, and counting.
- `table.dfy`, module `Table`:
  - the `Record` type;
  - column sums, one group of a `groupby`, `unique` and `nunique`;
  - the `Fecha` / `Mes_Nombre` derivation.
- `filters.dfy`, module `Filters`: the sidebar filter and its initial selection.
- `metrics.dfy`, module `Metrics`: `calcular_metricas`.
- `rollups.dfy`, module `Rollups`: the segment, temporal and advisor rollups.
- `growth.dfy`, module `Growth`: `calcular_crecimiento` and the unique-clients-per-year series.
- `dashboard.dfy`, module `Dashboard`: how `main` wires them together.
  - The sidebar advisor list comes from the whole table.
  - Every view comes from the filtered table.

`Fecha` is the first day of (year, month). The model represents it by the month ordinal `12 * year + month - 1`. For months in 1..12 this ordering is the calendar ordering, and `Table.FechaOrder` proves it.

`sort_values` (lines 300 and 393) uses pandas' default sort, which is not stable. So the model promises no order among advisors or segments with equal sums.

## Model

| member | source | states |
|---|---|---|
| Table.Keys | Dashboard.py:148 | `unique()`: each observed value of the column exactly once, and nothing else; as many as `nunique()` |
| Table.NUniqueBounds | Dashboard.py:110-111 | a distinct count is at most the number of rows, and is 0 exactly on an empty table |
| Table.NUniqueOfSubtable | Dashboard.py:298 | a sub-table never has more distinct values in a column than the table |
| Table.SumsConcat | Dashboard.py:107-108 | the AUM and client-flag sums are additive over a split of the table |
| Table.FechaOrder | Dashboard.py:85-88 | for months in 1..12, `Fecha` order and equality coincide with (year, month) lexicographic order and equality |
| Table.MonthName | Dashboard.py:91-96 | the month-name lookup is defined exactly on months 1..12 |
| Table.DeriveColumns | Dashboard.py:85-96 | deriving `Fecha`/`Mes_Nombre` succeeds exactly when every month is in 1..12; then each row gets its own first-of-month date and its month's name |
| Filters.ApplyFilter | Dashboard.py:189-197 | a row is kept iff its year, month, segment and desk are selected and (no advisor selected or its advisor is selected); kept rows keep their multiplicity and their input order |
| Filters.DefaultSelection | Dashboard.py:148-185 | the initial selection lists every observed year, month, segment and desk once each and nothing else, and selects no advisor |
| Filters.DefaultSelectionKeepsEverything | Dashboard.py:148-197 | with every observed year, month, segment and desk selected and no advisor, the filtered table is the input table |
| Filters.EmptyDimensionSelectsNothing | Dashboard.py:189-194 | an empty year, month, segment or desk list yields no rows; only the advisor list means "no restriction" when empty |
| Filters.FilterIdempotent | Dashboard.py:189-197 | filtering the filtered table again with the same selection changes nothing |
| Metrics.MeanAum | Dashboard.py:112 | the mean is undefined exactly on an empty table, and otherwise times the row count gives the AUM total |
| Metrics.Median | Dashboard.py:113 | the median is undefined exactly on an empty column; for an odd count `n` it is the `n/2 + 1`-th smallest value, for an even count the mean of the `n/2`-th and `n/2 + 1`-th smallest values; at most half the values lie strictly below it, at most half strictly above, and it lies between the smallest and largest value |
| Metrics.SortedRank | Dashboard.py:113 | the value at index `i` of the sorted column is its `i + 1`-th smallest value: fewer than `i + 1` values lie below it and at least `i + 1` at or below it |
| Metrics.MiddleRankOdd | Dashboard.py:113 | for an odd count `n` the middle of the sorted column is a value of the column and its `n/2 + 1`-th smallest |
| Metrics.MiddleRankEven | Dashboard.py:113 | for an even count `n` the middle of the sorted column is the mean of two values of the column, its `n/2`-th and `n/2 + 1`-th smallest |
| Metrics.MiddleSpread | Dashboard.py:113 | at most half the values lie strictly below the middle of the sorted column and at most half strictly above it |
| Metrics.MiddleWithinRange | Dashboard.py:113 | the middle of the sorted column lies between the smallest and the largest value |
| Metrics.SummaryMetrics | Dashboard.py:105-115 | the totals are the column sums, the counts are the distinct advisors and segments, the mean and median are those of the AUM column; an empty table gives 0, 0, 0, 0 and undefined mean and median; a non-empty one gives counts of at least 1 and a defined mean and median |
| Metrics.ThreeRowScenarioMetrics | Dashboard.py:105-115 | three rows with AUM 10, 20 and 0 and flags 1, 1, 0 give total 30, 2 clients, 2 advisors, 1 segment, mean 10 and median 10 |
| Metrics.ClientFlagSumIsNotDistinctClients | Dashboard.py:109 | `total_clientes` sums the flag: one client flagged in two months counts twice |
| Rollups.GroupsOf | Dashboard.py:295-299 | one group row per requested key, carrying the sums over exactly the rows with that key |
| Rollups.GroupTotalsPartition | Dashboard.py:295-299 | over duplicate-free keys covering every row, the group sums add up to the ungrouped sums |
| Rollups.GroupTotalsOverAllKeys | Dashboard.py:295-299 | over all distinct keys, in any order, the group sums add up to the ungrouped sums |
| Rollups.KeysByAumDescending | Dashboard.py:300 | every distinct key once, ordered by non-increasing summed AUM |
| Rollups.SegmentRollup | Dashboard.py:295-300 | one row per distinct segment with that segment's AUM and client sums and distinct-advisor count, in non-increasing AUM order |
| Rollups.SegmentRollupTotals | Dashboard.py:295-299 | the segment rows add up to the AUM and client totals of the table |
| Rollups.SegmentAdvisorsBounded | Dashboard.py:298 | each segment has at least one advisor and no more than the table has |
| Rollups.KeysByFecha | Dashboard.py:337-340 | every distinct (year, month) once, in non-decreasing `Fecha` order |
| Rollups.TemporalRollup | Dashboard.py:337-340 | one row per distinct (year, month) with its sums, in `Fecha` order |
| Rollups.TemporalRollupChronological | Dashboard.py:337-340 | on a loaded table the temporal rows are strictly increasing in (year, month) |
| Rollups.ChronologicalPair | Dashboard.py:85-88 | two distinct (year, month) keys of a loaded table in `Fecha` order are in calendar order |
| Rollups.TemporalRollupTotals | Dashboard.py:337-339 | the temporal rows add up to the AUM and client totals of the table |
| Rollups.AdvisorRanking | Dashboard.py:390-393 | every advisor once with its own sums, in non-increasing AUM order |
| Rollups.PrefixKeepsLargest | Dashboard.py:393 | `head(n)` of a list in non-increasing AUM order leaves out only rows whose AUM is at most the last kept row's |
| Rollups.TopOfRankingKept | Dashboard.py:390-393 | the advisors kept by `head(n)` are distinct advisors of the table, each with its own sums |
| Rollups.TopOfRankingExcluded | Dashboard.py:390-393 | an advisor left out by `head(n)` means `n` rows were kept, none with a smaller sum than the left-out advisor |
| Rollups.ExcludedAdvisor | Dashboard.py:390-393 | any advisor missing from the first `n` rows of the ranking has a sum no larger than the `n`-th row's, and then `n` rows were kept |
| Rollups.TopAdvisors | Dashboard.py:390-393 | `min(n, advisors)` distinct advisors with their own sums, in non-increasing AUM order; no left-out advisor has a larger sum than the last kept one |
| Rollups.TopAdvisorTable | Dashboard.py:390-393 | `min(10, advisors)` distinct advisors with their own sums, in non-increasing AUM order; an advisor left out means 10 were kept, and its sum is at most the tenth's |
| Rollups.SidebarAdvisors | Dashboard.py:181 | `min(20, advisors)` distinct advisors of the whole table, in non-increasing order of summed AUM; an advisor left out means 20 were kept, and its sum is at most the twentieth's |
| Growth.PctChange | Dashboard.py:125-126 | the change is defined exactly when the previous value is not 0 |
| Growth.PctChangeInverse | Dashboard.py:125-126 | growing the previous value by the change gives the current value; from a positive previous value the change is positive iff the value rose and 0 iff it stayed |
| Growth.PctChangeSeries | Dashboard.py:125-126 | the series of changes has one entry per value; the first is undefined and each other one is measured against the entry before it |
| Growth.CompoundRecoversSeries | Dashboard.py:125-126 | compounding the changes from the first value gives back the last value while no earlier value is 0 |
| Growth.YearsAscending | Dashboard.py:120 | every distinct year once, strictly ascending |
| Growth.YearlyTotals | Dashboard.py:120-123 | one row per distinct year, strictly ascending, with that year's AUM and client sums |
| Growth.YearlyTotalsPartition | Dashboard.py:120-123 | the yearly sums add up to the AUM and client totals of the table |
| Growth.WithGrowth | Dashboard.py:125-126 | the rows keep their sums; the first has undefined growth and each later one is the change from the row before |
| Growth.YearlyGrowth | Dashboard.py:118-128 | the yearly totals, with undefined growth for the first year and, for each later year, the change from the previous row of the series, not the previous calendar year |
| Growth.GrowthAgainstPreviousEntry | Dashboard.py:125 | years 2019 (AUM 100) and 2021 (AUM 150) give 2021 an AUM growth of 50 and a client growth of 0 |
| Growth.RetentionRows | Dashboard.py:423-439 | each year's distinct-client count, with its change from the row before |
| Growth.UniqueClientsPerYear | Dashboard.py:423-439 | one row per distinct year, ascending, with that year's distinct clients, between 1 and its row count; every row after the first has a defined change from the row before |
| Growth.UniqueClientsBounds | Dashboard.py:423 | a year present in the table has between one and as many distinct clients as rows |
| Dashboard.Page | Dashboard.py:179-207 | the advisor options come from the whole table and every view (metrics, growth, segment, temporal, top-advisor and retention rollups) from the filtered table; the filtered table holds exactly the passing rows; its distinct advisor and segment counts never exceed the whole table's; at most 10 top advisors and at most 20 advisor options, all advisors of the whole table |
| Dashboard.FirstLoadShowsWholeTable | Dashboard.py:148-207 | with the initial selection the metrics, the growth series and the top advisors are those of the whole table |

## Left out

- Streamlit and Plotly: page setup, CSS, widgets, metric formatting and every chart. These are user interface and foreign rendering.
- Loading (`cargar_datos`): reading the Excel sheets, concatenating them, `fillna(0)` and the `st.cache_data` memoisation are file I/O and a library cache. The model starts from the consolidated table, with missing AUM already 0. Only the two derived columns are modelled.
- Export and the clock: the CSV/Excel downloads and `datetime.now()` in file names and the footer are I/O and wall-clock time.
- Floating point: AUM is `float32` in the source and mean, median and growth are floats. The model uses exact `real` arithmetic.
- Growth.PctChange: when the previous value is 0, pandas yields +inf or -inf (or NaN for 0 to 0). The model returns `None` for all of these, the same as for the first entry.
- Filters.DefaultSelection: the sidebar lists are `sorted(unique())`. The model keeps the distinct values in order of first appearance, because the list order only affects display and `isin` ignores it.
- Tie order: `sort_values` in the segment, top-advisor and detail rollups is not stable. The model promises nothing about the relative order of rows with equal sums.
- Rollups.SidebarAdvisors: when several advisors tie at the twentieth sum, `nlargest(20)` keeps the ones that come first in the name-sorted `groupby` index. The model does not say which tied advisors are kept; it keeps them in order of first appearance in the table.
- Rollups.TopAdvisorTable: likewise, which advisors tied at the tenth sum are kept is not promised, because the unstable `sort_values` decides it.
- Table.DeriveColumns: the model states failure for a month outside 1..12. It does not model `pd.to_datetime` rejecting years outside its supported range.
- The detail table (lines 462-483: `sort_values(by=…).head(num_registros)` on a user-chosen column) is not modelled; it is a display of the filtered table.
- The retention section is drawn only when the filtered table has at least two years (line 418). The model computes `UniqueClientsPerYear` unconditionally.
- `generar_datos_demo.py`, `crear_screenshots.py` and `test_dashboard.py` are not part of this model. They cover random demo data, browser automation and environment checks.
