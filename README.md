# ExploraALMG analysis core in Dafny

ExploraALMG explores the propositions of the Legislative Assembly of Minas
Gerais (ALMG). Its analysis scripts turn a table of propositions into two
things:

- a daily series: how many propositions were published each day, with a
  trailing moving average over a window of days (`window`, 5 by default);
- a per-type table: the propositions counted by type (`TipoProposicao`).
  Types holding less than one percent of the records are folded into one
  category, "Outras", and the table is sorted by count.

The scripts also format numbers the Brazilian way, with '.' between
thousands and ',' before the decimals.

This project models that core as pure functions over values, and proves
what each step promises.

- `wrappers.dfy` (`Wrappers`): `Option` and `Result`.
- `calendar.dfy` (`Calendar`): Gregorian days and the `%d/%m/%Y` format that
  the date column is parsed with. Each field accepts the texts that Python's
  `strptime` accepts:
  - day `3[01]|[12]\d|0[1-9]|[1-9]| [1-9]`;
  - month `1[0-2]|0[1-9]|[1-9]`;
  - year: exactly four digits.

  The day must exist in its month and year. A text parses exactly when it
  is these three fields joined by '/', with nothing before or after, and
  the day exists.
- `daily_series.dfy` (`DailySeries`) models
  `preprocessar_proposicao_media_movel`:
  - the date column is converted all at once; the first bad text aborts
    the conversion;
  - records are grouped by calendar day and counted, in date order;
  - the trailing mean is computed with `min_periods=1`. The model keeps
    pandas' running window sum, which adds the new count and drops the one
    that leaves the window, and proves that it equals the mean of the
    window.

  The failures are a missing column (`KeyError`), a text that is not a date,
  and a window below one row.
- `teste.dfy` (`Teste`): the script's own copy, `preprocess_proposicao_simple`,
  written step by step and proved to give the same result on every table,
  column name and window.
- `number_format.dfy` (`NumberFormat`): the separator swap of
  `formatar_numero_brl`. As in the source, an 'X' already in the text
  comes out as '.'; the output of `{:,.Nf}` never holds one.
- `category_fold.dfy` (`CategoryFold`): the type table.
  - `value_counts`, with and without `normalize`, gives the count of each
    type and its share of the records that have a type.
  - `np.where` relabels the rows whose share is below 0.01 as "Outras".
  - `groupby(index).sum()` adds the rows up again per label, in label order.
  - `sort_values('count', ascending=True)` sorts the rows by count.

A cell is `Option<string>`, where `None` stands for a missing value. A table
is a map from column name to its cells. Shares and averages are exact
`real`s.

## Model

| member | source | states |
|---|---|---|
| Calendar.ParseDate | funcoes/utils.py:21 | every day read from a text is a real Gregorian day of the years 1 to 9999 |
| Calendar.ParseFields | funcoes/utils.py:21 | text made of a day field, '/', a month field, '/' and a four-digit year parses exactly when the day exists in that month and year |
| Calendar.ParseFormatRoundTrip | funcoes/utils.py:21 | the zero-padded `dd/mm/yyyy` text of any valid day parses back to that day |
| Calendar.ParseDateSpells | funcoes/utils.py:21 | every text that parses is a day field, '/', a month field, '/' and a year field with nothing around them, and gives the day those fields spell |
| Calendar.DayFieldSpellings | funcoes/utils.py:21 | the `%d` field accepts exactly the days 1 to 31 written with two digits, or below ten with one digit or a blank and one digit, and reads each as its day |
| Calendar.MonthFieldSpellings | funcoes/utils.py:21 | the `%m` field accepts exactly the months 1 to 12 written with two digits or, below ten, with one digit, and reads each as its month |
| Calendar.YearFieldSpellings | funcoes/utils.py:21 | the `%Y` field accepts exactly the four-digit spellings of 0 to 9999, and reads each as its number |
| Calendar.RejectsFiveDigitYear | funcoes/utils.py:21 | `01/01/20201` is refused: text left after the year is an error |
| Calendar.LeapDayParsesIffLeapYear | funcoes/utils.py:21 | `29/02/yyyy` is a day if and only if the year is a leap year |
| Calendar.RejectsLeapDayOf2021 | funcoes/utils.py:21 | `29/02/2021` is not a day |
| Calendar.RejectsLeapDayOf1900 | funcoes/utils.py:21 | `29/02/1900` is not a day (century rule) |
| Calendar.AcceptsLeapDayOf2000 | funcoes/utils.py:21 | `29/02/2000` is the 29th of February 2000 (400-year rule) |
| Calendar.RejectsMonthThirteen | funcoes/utils.py:21 | `31/13/2020` is not a day |
| Calendar.UnpaddedExample | funcoes/utils.py:21 | `1/1/2020` is accepted without leading zeros |
| Calendar.NoSlashNoDate | funcoes/utils.py:21 | a text without '/' never parses |
| Calendar.RejectsIsoLayout | funcoes/utils.py:21 | `2020-01-01` is refused |
| DailySeries.ParseCell | funcoes/utils.py:21 | a missing, empty or "NaT"/"nan" cell gives no date. Any other text that parses converts to the day it spells. Any other text that does not parse raises a parse error naming it. No other error can arise |
| DailySeries.ToDatetime | funcoes/utils.py:21 | the conversion succeeds if and only if every cell converts. On success each position holds that cell's date, or none for a missing or "NaT" cell. On failure the error names the first cell that does not convert |
| DailySeries.AddRecord | funcoes/utils.py:22-25 | adding one record keeps the buckets strictly ascending by day and non-empty, and creates no day other than the record's |
| DailySeries.AddRecordCounts | funcoes/utils.py:22 | adding a record raises the count of its own day by one and leaves every other day's count alone |
| DailySeries.GroupByDay | funcoes/utils.py:22-25 | the buckets are strictly ascending by day and have no empty bucket. Each day's count is its number of records, and the counts add up to the dated records |
| DailySeries.GroupingIsCanonical | funcoes/utils.py:22-25 | two ascending, non-empty bucket lists that give every day the same count are equal, so the grouping has one possible result |
| DailySeries.ConvertedCounts | funcoes/utils.py:21-22 | after a successful conversion, each day's occurrences are the cells that parse to it, and the dated entries are the cells with a date |
| DailySeries.SlideSum | funcoes/utils.py:26 | adding the new count and dropping the count that leaves the window gives the sum of the window ending at the new position, and that sum over the window length is its mean |
| DailySeries.RollingFrom | funcoes/utils.py:26 | the running-sum computation yields, at each position, the mean of the window ending there |
| DailySeries.RollingMean | funcoes/utils.py:26 | position `i` holds the mean of the counts at positions `max(0, i-w+1)..i`; the result has one entry per row |
| DailySeries.SeriesOf | funcoes/utils.py:22-26 | the rows of some converted dates are strictly ascending by day; each counts the dates on its day, at least one, and averages the window of totals that ends at it |
| DailySeries.Preprocess | funcoes/utils.py:19-27 | a missing column raises `KeyError`. A column with a cell that does not convert fails with a parse error that names the first such cell. An all-convertible column succeeds if and only if the window is at least one, and otherwise fails with the window error |
| DailySeries.SeriesDays | funcoes/utils.py:22-25 | the rows' days are strictly ascending, and a day has a row if and only if some record falls on it |
| DailySeries.SeriesOfDays | funcoes/utils.py:22-25 | the same two facts for the series of any converted dates |
| DailySeries.SeriesCounts | funcoes/utils.py:22-23 | each row's total is the number of records on its day, at least one; the totals add up to the records that have a date |
| DailySeries.SeriesMovingAverage | funcoes/utils.py:26 | on success the window is at least one, and each row's average is the mean of the totals of the window ending at that row |
| DailySeries.MovingAverageOfWindowOne | funcoes/utils.py:26 | with a window of one row each average equals its own day's total |
| DailySeries.MovingAverageWarmUp | funcoes/utils.py:26 | before the window fills, a row averages all rows so far (`min_periods=1`) |
| DailySeries.NoDatesNoBuckets | funcoes/utils.py:22 | without dated records there are no buckets |
| DailySeries.EmptySeries | funcoes/utils.py:19-27 | an all-missing column gives an empty series |
| DailySeries.FormattedCellParses | funcoes/utils.py:21 | the cell holding the zero-padded `DD/MM/YYYY` text of any day converts to that day |
| DailySeries.ScenarioThreeDays | funcoes/utils.py:19-27 | six records on three days, listed out of order, give three rows in date order: totals 3, 1, 2 and five-row averages 3, 2, 2 |
| DailySeries.ScenarioJanuary2020 | funcoes/utils.py:19-27 | that scenario on `01/01/2020`, `02/01/2020` and `05/01/2020` |
| DailySeries.SecondCellFails | funcoes/utils.py:21 | when the first cell converts and the second does not, the conversion fails with the second cell's error |
| DailySeries.MonthThirteenCell | funcoes/utils.py:21 | the cell `31/13/2020` raises a parse error naming it |
| DailySeries.ScenarioBadMonth | funcoes/utils.py:19-27 | one bad text among good ones makes the whole aggregation fail with that text; no partial series is returned |
| Teste.PreprocessSimple | teste.py:19-27 | the script's copy, computed step by step, gives exactly the library function's result, including its failures |
| NumberFormat.ReplaceChar | funcoes/utils.py:16 | `str.replace` of one character: same length, and every occurrence of the old character and nothing else is replaced |
| NumberFormat.FormatBrl | funcoes/utils.py:16 | the chain of three replacements keeps the length. Each ',' becomes '.', each '.' becomes ',', and every other character except 'X' is kept in place; no 'X' is left |
| NumberFormat.SwapInvolution | funcoes/utils.py:16 | on text without 'X' the swap undoes itself |
| NumberFormat.SeparatorCounts | funcoes/utils.py:16 | the result has as many ',' as the input had '.', and as many '.' as the input had ',' and 'X' together |
| NumberFormat.MillionsExample | funcoes/utils.py:13-17 | `1,234,567.89` becomes `1.234.567,89` |
| CategoryFold.LabelBeforeTotal | teste.py:56 | the label order used by the grouping is total on distinct labels |
| CategoryFold.LabelBeforeTransitive | teste.py:56 | the label order is transitive |
| CategoryFold.Merge | teste.py:56 | adding one row into a table grouped by label keeps the labels strictly ascending and adds only the row's label |
| CategoryFold.GroupSum | teste.py:56 | summing rows per label leaves labels strictly ascending and keeps exactly the labels that were there |
| CategoryFold.GroupSumSums | teste.py:56 | summing per label keeps each label's count and share totals and the table's totals |
| CategoryFold.GroupSumRows | teste.py:56 | after summing each label has one row, and no row has a zero count |
| CategoryFold.TypeCountsLabels | teste.py:47-50 | the counted table has one row per type, its labels are exactly the types that occur, and no count is zero. Without typed records the table is empty |
| CategoryFold.TypeCountsRow | teste.py:47-50 | each row's count is the number of records of its type, and its share is that count over the number of typed records |
| CategoryFold.TypeCountsTotals | teste.py:47-50 | the counts add up to the typed records and the shares add up to one |
| CategoryFold.TypeCounts | teste.py:47-50 | the counted table's labels are exactly the types that occur, and each row's share is its count over the number of typed records |
| CategoryFold.ShareBelowCutoff | teste.py:52 | a share is below 0.01 exactly when a hundred times its count is below the number of typed records |
| CategoryFold.RelabelRow | teste.py:52 | a row is labelled "Outras" exactly when its share is below 0.01 or it is already so called; otherwise it keeps its label. Its count and share are unchanged |
| CategoryFold.RelabelLabels | teste.py:52-54 | relabelling brings in no label other than "Outras" |
| CategoryFold.Relabel | teste.py:52-54 | relabelling keeps the length and rewrites each row by the cutoff rule |
| CategoryFold.RelabelIff | teste.py:52-54 | a row is labelled "Outras" exactly when its type has under one hundredth of the typed records or is itself called "Outras". Otherwise its label is kept, and its count and share never change |
| CategoryFold.RelabelSums | teste.py:52-56 | after relabelling, "Outras" sums the folded rows, every other label sums only the rows that kept it, and the totals are unchanged |
| CategoryFold.FoldedSumIsFoldedCount | teste.py:52 | the folded rows are exactly those with a hundred times their count below the total |
| CategoryFold.Regrouped | teste.py:56 | after regrouping, the labels are strictly ascending and so distinct, and each is a type that occurs or "Outras" |
| CategoryFold.RegroupedTotals | teste.py:56 | after regrouping, each label has one row, no count is zero, the counts still add up to the typed records, and "Outras" holds the records of every folded type |
| CategoryFold.KeptLabel | teste.py:52-56 | a regrouped row other than "Outras" is a type that occurs. It holds exactly that type's records, at least one hundredth of the typed records, and a share of at least 0.01 |
| CategoryFold.InsertByCount | teste.py:58 | inserting into a table sorted by count keeps it sorted, adds one row, and brings in no other row |
| CategoryFold.InsertContents | teste.py:58 | insertion adds exactly that row to the multiset of rows |
| CategoryFold.SortByCount | teste.py:58 | the result is in ascending order of count |
| CategoryFold.SortContents | teste.py:58 | sorting is a permutation: same multiset of rows, same labels, one row per label still |
| CategoryFold.FoldCategories | teste.py:47-58 | the final table is sorted by count, is a reordering of the regrouped table, and keeps its labels, one row each |
| CategoryFold.FoldCategoriesResult | teste.py:47-58 | the final table is sorted by count, is a reordering of the regrouped table, and has distinct labels. Its "Outras" row holds the records of all folded types; every other row is a type with its own count, at least one hundredth of the typed records, and a share of at least 0.01 |
| CategoryFold.FoldedRow | teste.py:47-58 | the same two row facts for one row of the final table |

## Left out

- Floating point: shares, sums of shares and averages are exact reals. A
  share that rounds across 0.01 in binary floating point is not modelled.
- `formatar_numero_brl`'s first step, `"{:,.Nf}".format(numero)`
  (funcoes/utils.py:13-14), is taken as the input text. Digit grouping and
  rounding of floats are not modelled; only the separator swap is.
- pandas' nanosecond timestamp range (years 1677 to 2262) is not modelled.
  Days of the years 1 to 9999 are accepted, as Python's `date` accepts them.
- `strptime`'s `\d` also matches non-ASCII decimal digits; the model
  accepts ASCII digits only.
- Cells that are not text (numbers, timestamps already parsed) are not
  modelled: a cell is a text or missing.
- The `DataFrame` copy (`df.copy()`, line 20), the column renaming
  (line 23) and the second `pd.to_datetime` on the grouped days (line 24)
  change no value the model keeps. The model returns a new sequence of rows.
  The sort on line 25 is the identity, because the grouping already returns
  the days in order.
- CategoryFold.SortByCount: `sort_values` uses quicksort, which does not fix
  the order of rows with equal counts. The model sorts stably, keeping
  label order among equal counts. The contract states only order by count
  and permutation, which is all quicksort promises.
- `value_counts` returns types in descending order of count. That order is
  not modelled because `groupby(...).sum()` re-sorts by label right after.
- Reading the yearly CSV files (teste.py:7-17), concatenating them,
  building and showing the charts (`fig.show`, `funcoes/Figuras.py`), and
  the database and download scripts are I/O and are not part of this model.
- funcoes/Figuras.py is not part of this model.
