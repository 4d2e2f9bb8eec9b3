# Budgeting engine of Tech4Good, modelled in Dafny

The Flask service in `app.py` keeps a table of bank transactions and a
single rule triple. This project models the deterministic engine behind its
two routes.

- **The super-category classifier.** It maps (type, category) to Needs,
  Wants, Income or Other. The labelling step adds that label to every row.
- **The filter chain of `/transactions`.** It applies a date range (only
  when both bounds are given), an exact category and an exact
  super-category, each only when present, and keeps the rows in table order.
- **The computation of `/savings`.** This includes the same date filter and
  the default-window rule: when a bound is missing, start is the latest
  date and end the earliest. It also covers the day count, the credit,
  debit, savings, needs and wants sums, the ratios to total credit (0 when
  credit is not positive), the gaps (rule − ratio), the pass/fail status
  texts and the monthly averages (amount / days × 30).
- **Optional extras.** A strict `YYYY-MM-DD` parser and formatter, day
  ordinals and the whole-day difference of two dates.

Files:
- `wrappers.dfy`: Option and Result.
- `dates.dfy`: module `Dates`. It parses the date text format (the
  full-date of section 5.6 of RFC 3339, with the limits of section 5.7) and
  maps dates to day ordinals, with day 1 being 0001-01-01 as in Python's
  `toordinal`.
- `categorize.dfy`: module `Categorize`. It holds the classifier and the
  labelling loop.
- `filtering.dfy`: module `Filtering`. It holds the generic order-keeping
  filter `Where`, the step-by-step chain `GetTransactions` and its one-pass
  specification `Select`.
- `savings.dfy`: module `Savings`. It holds the sums, the window, the
  ratios, the status texts, the averages, `GetSavings`, the as-written
  variant and a worked example.

Representation choices:
- A row's date is a day ordinal. The ordinal order is the calendar order
  (`Dates.OrdinalOrder`), so comparing ordinals is comparing dates.
- Amounts are integers, for example cents.
- Ratios, rules and averages are exact `real`s.
- The transaction table and the rule triple (`df_rules[...][0]`) are
  parameters.

Quirks kept as the source has them:
- The default window is backwards, so its day count is never positive
  (`Savings.DefaultWindowNonPositive`).
- A single date bound is ignored, both by the listing and by the summary.
- The needs and wants sums select by super-category without selecting
  Debit rows. In a labelled table this gives the same sums
  (`Savings.NeedsAndWantsAreDebits`), because only Debit rows are labelled
  Needs or Wants.
- The gap is rule − ratio in all three dimensions. Its sign therefore means
  "short of target" for savings and "room left" for needs and wants.
- The source divides by a day count of 0 without a guard. The model makes
  that case the error `ZeroLengthWindow`.
- A missing bound on an empty table makes the source take `max()` of an
  empty series, which raises. The model makes that case the error
  `EmptyDataset`.

The day count is the code's `(end - start).days`. For the window from
2024-01-01 to 2024-01-31 that is 30 days, not 31, so the monthly credit
average of that example is 1000 / 30 × 30 = 1000 (`Savings.ExampleJanuary`).

## Model

| member | source | states |
|---|---|---|
| `Categorize.Classify` | app.py:15-23 | Needs exactly for Debit with a category on the needs list; Wants exactly for Debit with a category on the wants list and not on the needs list; Income exactly for Credit, whatever the category; Other exactly for Debit with an unlisted category or for any other type |
| `Categorize.LabelAll` | app.py:26 | the labelled table has one record per row, in the same order, with the row's fields unchanged and the classifier's label for that row |
| `Categorize.CategoryListsDisjoint` | app.py:17-19 | no category is on both lists, so the order of the two membership tests does not affect any label |
| `Categorize.NameInjective` | app.py:26 | two labels have the same column text exactly when they are the same label |
| `Categorize.LabelImpliesType` | app.py:16-22 | in a labelled table, Needs and Wants records are Debit rows, and Income records are exactly the Credit rows |
| `Filtering.Where` | app.py:42-50 | a boolean-mask filter is no longer than its input, and everything it keeps comes from the input and passes the mask |
| `Filtering.WhereIsSubsequence` | app.py:42-50 | the filtered rows are a subsequence of the input, in the input's order |
| `Filtering.WhereCount` | app.py:42-50 | every occurrence of a passing row is kept, and no occurrence of a failing row |
| `Filtering.WhereFusion` | app.py:41-50 | filtering by one mask and then another is filtering once by their conjunction |
| `Filtering.WhereCommutes` | app.py:41-50 | two successive filters give the same rows in either order |
| `Filtering.GetTransactions` | app.py:37-50 | the chain (date range if both bounds are given, then category, then super-category) yields exactly the one-pass selection of the records that meet every present criterion |
| `Filtering.SelectCharacterized` | app.py:41-50 | the listing is an order-preserving subsequence of the table; a record is in it exactly when it is in the table and meets every present criterion, with every occurrence kept |
| `Filtering.NoCriteriaIsIdentity` | app.py:38 | with no criteria the listing is the whole table, unchanged |
| `Filtering.HalfRangeIgnored` | app.py:41 | a range with a missing bound filters nothing |
| `Filtering.RangeInclusive` | app.py:42 | a table record is in the date-range listing exactly when start <= date <= end |
| `Filtering.CombinedCriteria` | app.py:45-50 | category and super-category together select the same as one followed by the other, in either order |
| `Filtering.WhereKeepsLabels` | app.py:26 | a filtered labelled table is still labelled |
| `Savings.TotalWhere` | app.py:78-83 | summing the AMOUNT column of the selected rows equals summing, over all rows, the amounts of those that pass the selection |
| `Savings.CreditTotal` | app.py:78 | total_credit is the sum of the amounts of the Credit rows |
| `Savings.DebitTotal` | app.py:79 | total_debit is the sum of the amounts of the Debit rows |
| `Savings.NeedsTotal` | app.py:82 | needs is the sum of the amounts of the rows labelled Needs |
| `Savings.WantsTotal` | app.py:83 | wants is the sum of the amounts of the rows labelled Wants |
| `Savings.DebitSplit` | app.py:79-83 | in a labelled table, needs + wants + the unlisted (Other) debits = total debit |
| `Savings.NeedsAndWantsAreDebits` | app.py:82-83 | the needs and wants sums, which do not select Debit rows, equal the same sums over the Debit rows of a labelled table |
| `Savings.MaxDate` | app.py:69 | the latest date: bounds every record's date and is the date of some record |
| `Savings.MinDate` | app.py:70 | the earliest date: lower bound of all dates and attained by a record |
| `Savings.Window` | app.py:65-70 | both bounds given: the window is those bounds; otherwise an error exactly for an empty table, and else a start that is the latest date and an end that is the earliest, both attained |
| `Savings.DaysAreDaysBetween` | app.py:75 | for a window of two calendar dates, no_of_days is the whole-day difference of the dates, and it is positive when start is before end |
| `Savings.DefaultWindowNonPositive` | app.py:68-75 | with a bound missing, the day count is at most 0, and it is 0 exactly when all records fall on one day |
| `Savings.ExplicitWindowNonNegative` | app.py:65-75 | explicit bounds with start <= end give that window, and the window's day count is >= 0 |
| `Savings.Rate` | app.py:86-93 | with positive total credit the ratio times total credit is the amount; otherwise the ratio is exactly 0 |
| `Savings.MonthlyAverage` | app.py:112-113 | the average times the day count is 30 times the amount; there is no value for a day count of 0 |
| `Savings.SavingsStatus` | app.py:100 | the "above threshold" text exactly when rate >= rule, the "below" text exactly when rate < rule |
| `Savings.ExpenseStatus` | app.py:101-102 | the "below threshold" text exactly when rate <= rule, the "above" text exactly when rate > rule |
| `Savings.Assess` | app.py:104-106 | a dimension keeps its amount and status, its threshold is the rule, its guarded ratio and its gap add up to the rule, and its average meets the monthly-average equation |
| `Savings.Summarize` | app.py:75-136 | an error exactly for a zero-day window; otherwise total credit and total debit are the Credit and Debit sums, savings = credit − debit, needs and wants are the sums by super-category, every ratio, gap and average meets its equation, and each status is the pass text exactly when the comparison holds |
| `Savings.GetSavings` | app.py:62-75 | with a bound missing, an empty-dataset error exactly for an empty table; with both bounds, an error exactly when start = end; with a bound missing and a non-empty table, an error exactly when every date is the same; every other error is the zero-length-window error; a summary is the summary of the date-selected records over the resolved window |
| `Savings.ByDateIsSelect` | app.py:65-66 | the date step of get_savings is the date-only selection of the listing |
| `Savings.NoDateSelectIsIdentity` | app.py:62-66 | without both bounds the summary works on the whole table |
| `Savings.SummaryDebitSplit` | app.py:78-83 | for a labelled table, the summary's needs + wants + the window's Other debits = its total debit |
| `Savings.DefaultWindowComputes` | app.py:68-75 | with a bound missing and two records on different days, the summary exists and its day count is negative |
| `Savings.SavingsAsWritten` | app.py:68-73 | as written, every request with a missing bound ends in an error; with both bounds it is GetSavings |
| `Savings.ExampleJanuary` | app.py:62-136 | worked example (dates as the ordinals of January 2024, see `Savings.ExampleTableDates`): credit 1000, debits 200 (Groceries) and 100 (Eating Out), rules 0.2/0.5/0.3 and window 2024-01-01..2024-01-31 give savings 700 at 0.7 (pass), needs 0.2 (pass), wants 0.1 (pass) and a monthly credit average of 1000 |
| `Savings.ExampleTableDates` | app.py:9 | the example's ordinals 738890, 738895 and 738900 are 2024-01-05, 2024-01-10 and 2024-01-15 |
| `Savings.ExampleNoBounds` | app.py:68-73 | the same transactions without bounds: the as-written service fails at strptime, while the window rule on date values gives 2024-01-15 back to 2024-01-05 and a monthly credit average of −3000 |
| `Dates.DaysInMonth` | app.py:72-73 | a month has 28 to 31 days, and 29 only for February of a leap year |
| `Dates.Ordinal` | app.py:9 | dates map to positive day numbers |
| `Dates.FirstOrdinal` | app.py:9 | 0001-01-01 has ordinal 1 |
| `Dates.NextDay` | app.py:75 | the calendar successor of a date (not the last one) is a valid date after it |
| `Dates.OrdinalNextDay` | app.py:75 | consecutive calendar days have consecutive ordinals, so the whole-day difference of a date and the next day is 1 |
| `Dates.DaysBeforeYearClosed` | app.py:75 | the days before year y are 365 × (y − 1) plus the leap days (y − 1)/4 − (y − 1)/100 + (y − 1)/400 |
| `Dates.DaysBetweenNewYear` | app.py:75 | 2024-01-01 has ordinal 738886, and 2023-12-31 to 2024-01-01 is one day |
| `Dates.OrdinalOrder` | app.py:42 | the ordinal order is exactly the calendar order, and equal ordinals mean equal dates |
| `Dates.DaysBetween` | app.py:75 | the whole-day difference is positive, zero or negative exactly when the first date is before, equal to or after the second; its value is fixed by `Dates.OrdinalNextDay` and `Dates.DaysBeforeYearClosed` |
| `Dates.Parse` | app.py:72-73 | a string is accepted only as ten characters `YYYY-MM-DD` naming a date that exists |
| `Dates.ParseFormat` | app.py:72-73 | formatting a valid date and parsing the result gives the date back |
| `Dates.FormatParse` | app.py:72-73 | every accepted string is the formatted form of the date it parses to |

## Left out

- HTTP routing, request argument reading, `jsonify` and `app.run` (app.py:1, 5, 29-35, 55-59, 109, 141-142) are transport. The model takes the criteria and the bounds as `Option` values.
- CSV loading and `pd.to_datetime` (app.py:8-9, 12) are file input. The table and the rule triple are parameters. The table is built as a new value by `Categorize.LabelAll`, not changed in place.
- The `str(x*100)+'%'` renderings (app.py:116-134) depend on Python's float formatting. The model returns the numeric ratios, gaps and rules.
- IEEE floating point is not modelled. Amounts are integers and ratios are exact rationals. Where the source's numpy division by 0 would give inf or nan, the model returns `ZeroLengthWindow`.
- Date strings in requests: pandas' comparison with a string (app.py:42, 66) and `strptime` (app.py:72-73) also accept other spellings, such as one-digit months. The model's `Dates.Parse` accepts only the strict ten-character form. The filter functions take dates that are already parsed.
- Time of day in TRANSACTION_DATE is not modelled: dates are whole days.
- Missing values in the CSV (NaN types, categories or amounts) are not modelled, nor is pandas' handling of them.
- Filtering.Where: its own contract states only length and membership. The order and the multiplicities are stated by `Filtering.WhereIsSubsequence` and `Filtering.WhereCount`.
- Savings.GetSavings: it models the window rule on date values and does not stop at `strptime` as the source does; `Savings.SavingsAsWritten` models that failure (see Findings).

## Findings

| source | as written | input that shows it | evidently intended | confidence | as-written member | corrected member |
|---|---|---|---|---|---|---|
| app.py:68-73 | when a bound is missing, start and end become pandas Timestamps from `max`/`min`, and `datetime.strptime` is then called on them; it accepts only strings, so every such request fails | `/savings` with no `start_date`/`end_date` over a non-empty table, such as the three January 2024 transactions of `Savings.ExampleTable` | use the date values directly as the window (kept backwards, as written) | not executed; high (strptime's first argument must be a str) | `Savings.SavingsAsWritten` with `Savings.ExampleNoBounds` | `Savings.GetSavings` with `Savings.DefaultWindowComputes` |
