# MoneyBoard core in Dafny

MoneyBoard is a personal-finance dashboard (Next.js/TypeScript). All its data
lives in one mock-data module: transactions, categories with budgets, stocks and
dividends. The pages derive figures from that data:

- the **data module** filters transactions by period, totals expenses per
  category, computes the investment summary and lists one stock's dividends;
- the **categories page** filters transactions by period, category and a
  case-insensitive search term. It also computes per-category totals with
  rounded percentages, sorts them, builds budget cards (status, remaining,
  progress bar, preview) and computes the six-month trend table;
- the **dividend timeline page** filters the monthly history by year. It
  computes the total, the average and the highest and lowest month, the
  running total drawn by the chart, the year selector's options and the
  month-over-month variation column;
- the **import page** runs a simulated upload lifecycle: uploading, then
  processing, then completed or error. Each file has two timers. The page
  also removes files, previews a file and shows the success-rate and total
  statistics;
- the **dividends page** filters by stock and computes the yearly total, the
  per-month grouping and monthly average, and the newest-first table with its
  paid/pending and kind badges;
- the **stocks page** shows the portfolio cards, the per-stock rows and the
  signed `toFixed(2)` percentage text.

The model works as follows.

- Every computation is a pure function over immutable datatypes.
- The module-level arrays of the data module become parameters.
- Money is an exact `real`; an instant is an `int` count of milliseconds.
- A calendar date becomes a `Calendar.Date`. `Timestamp` places it at UTC
  midnight, as `new Date('YYYY-MM-DD')` does.
- The current time is a `Clock` parameter. It holds `now` and the local
  "same day last month / last year" instants the source builds.
- An unguarded JavaScript division returns a `Ratio`. It is `Finite(v)`
  for a non-zero divisor. For a zero divisor it is `NaN` when the dividend
  is 0 too, and otherwise `PosInf` or `NegInf`, following the dividend's
  sign.
- `Math.round` is `floor(x + 0.5)`.
- The falsy `||` defaults are modelled literally. An empty colour becomes
  `'#DDD'`; a missing or zero budget becomes 1000; a missing stock becomes
  quantity 0.
- `Array.prototype.sort` is stable. It is modelled as a stable insertion sort
  over any total preorder. `localeCompare` is represented by a code-point
  lexicographic order, which is proved to be one.
- Grouping results come out in first-insertion order, modelled by
  `Collections.Dedup`. A `Set` iterates in insertion order for every value.
  A plain object does so only for keys that are not array indices, and the
  keys here are category names and 'YYYY-MM' strings. Category names that
  are array indices or `Object.prototype` member names are not modelled
  (see "Left out").

Modules, one per source concern:

- `Numbers`, `Text`, `Calendar`, `Collections`, `Grouping`, `Sorting`:
  shared vocabulary. This covers rounding, lower-casing, dates, filtering,
  de-duplication, the `acc[k] = (acc[k] || 0) + v` grouping fold and stable
  sorting.
- `MockData`: `frontend/src/data/mockData.ts`.
- `CategoriesPage`, `TimelinePage`, `ImportPage`, `DividendsPage`,
  `StocksPage`: the pages of the same names.

## Model

| member | source | states |
|---|---|---|
| MockData.GetTransactionsByPeriod | frontend/src/data/mockData.ts:221-242 | The result keeps the transactions in their original order. Each transaction is kept with its full multiplicity exactly when its date is at or after the period's cutoff, or when the period token is unrecognised. |
| MockData.PeriodCutoffs | frontend/src/data/mockData.ts:227-237 | 'week' keeps exactly the transactions dated at or after now minus 604800000 ms. Any unrecognised period returns the list unchanged. |
| MockData.ColorOf | frontend/src/data/mockData.ts:254-258 | The colour is that of the first category with the name. It is '#DDD' when there is no such category or its colour is empty. |
| MockData.GetExpensesByCategory | frontend/src/data/mockData.ts:245-262 | There is one row per category that has an expense, with no duplicates, in first-occurrence order. Each row's amount is the sum of the absolute amount over that category's expenses. Its percentage is 0 and its colour is looked up by name. The rows add up to the total expense. |
| MockData.GainsSumToReturn | frontend/src/data/mockData.ts:387-389 | The sum of the per-stock gains equals the current value minus the amount invested. |
| MockData.QuantityHeld | frontend/src/data/mockData.ts:392-393 | The quantity is that of the first stock with the id, or 0 when none matches. |
| MockData.UnmatchedDividendsContributeNothing | frontend/src/data/mockData.ts:391-394 | Dividend income is unchanged when the dividends of stocks not in the portfolio are dropped. |
| MockData.GetInvestmentSummary | frontend/src/data/mockData.ts:386-405 | The summary holds the invested, current and return sums and the dividend income. The return percentage is finite exactly when something is invested, and then percentage × invested = return × 100. The monthly yield is finite exactly when the current value is non-zero, and then yield × value × 12 = dividends × 100. With a zero divisor each percentage is NaN when its dividend is 0, and otherwise an infinity with the dividend's sign. |
| MockData.EmptyPortfolioReturnNotFinite | frontend/src/data/mockData.ts:390-395 | With no stocks, both summary percentages are NaN. |
| MockData.GuardedPercentage | frontend/src/app/investments/stocks/page.tsx:51 | The result is 0 when the whole is not positive. Otherwise percentage × whole = part × 100. |
| MockData.GetInvestmentSummaryGuarded | frontend/src/data/mockData.ts:386-405 | The corrected summary always has finite percentages. They equal the unguarded ones whenever the denominators are positive, and are 0 otherwise. All sums are unchanged. |
| MockData.GetDividendsByStock | frontend/src/data/mockData.ts:408-410 | The result is an order-preserving sublist holding exactly the dividends of that stock, with their multiplicities. |
| CategoriesPage.FilterTransactions | frontend/src/app/categories/page.tsx:24-51 | The result is an order-preserving sublist. It keeps each transaction, with full multiplicity, exactly when all four tests pass: the period test, the category test (or 'all'), the case-insensitive substring search over description and category, and being an expense. |
| CategoriesPage.UnfilteredKeepsExpenses | frontend/src/app/categories/page.tsx:28-49 | With an unrecognised period, category 'all' and an empty search, exactly the expenses are shown. |
| CategoriesPage.SearchIgnoresCase | frontend/src/app/categories/page.tsx:46-47 | Lower-casing the search term does not change which transactions match. |
| CategoriesPage.Percentage | frontend/src/app/categories/page.tsx:56-61 | The percentage is 0 when the total is not positive. Otherwise it is within half a point of amount/total × 100, and between 0 and 100 when 0 ≤ amount ≤ total. |
| CategoriesPage.PercentagesSumToHundred | frontend/src/app/categories/page.tsx:56-61 | The rounded percentages of n categories sum to within n/2 of 100. |
| CategoriesPage.ComparatorIsTotalPreorder | frontend/src/app/categories/page.tsx:63-70 | Every sort key and order gives a total preorder. |
| CategoriesPage.SortExpenses | frontend/src/app/categories/page.tsx:63-70 | The result is a permutation of the rows, ordered by amount or by category name in the chosen direction. An unknown key leaves the order unchanged. |
| CategoriesPage.CategoryExpenses | frontend/src/app/categories/page.tsx:54-71 | There is one row per category with a filtered expense, with no duplicates. Each row carries that category's spend, its rounded share and its colour. The rows add up to the filtered expense total and come out sorted as requested. |
| CategoriesPage.BudgetOf | frontend/src/app/categories/page.tsx:385-387 | The budget is the first matching category's budget. It is 1000 when there is no such category or the budget is missing or zero, so it is never zero. |
| CategoriesPage.StatusPartitionsSpending | frontend/src/app/categories/page.tsx:403-411 | With a positive budget, the card is over budget exactly when spent > budget. It warns exactly when 80% of the budget < spent ≤ budget, and is within budget otherwise. |
| CategoriesPage.ToneAgreesWithIcon | frontend/src/app/categories/page.tsx:418-420 | The colour of the remaining amount agrees with the status icon. |
| CategoriesPage.CategoryCard | frontend/src/app/categories/page.tsx:385-462 | The card's fields fit together: remaining + spent = budget; usage × budget = spent × 100; the bar is min(usage, 100). The count is that of the category's filtered transactions. The preview is their first three, and the "+n" label appears exactly when there are more than three, with n = count − 3. |
| CategoriesPage.PreviewBelongsToCategory | frontend/src/app/categories/page.tsx:446 | Every previewed transaction is a filtered transaction of the card's category. |
| CategoriesPage.TrendFold | frontend/src/app/categories/page.tsx:74-86 | There is one bucket per distinct (two-digit year, month) label, in first-appearance order, as the short month-and-year label groups them. Each bucket groups that month's transactions by category, summing the absolute amount. |
| CategoriesPage.MonthlyTrends | frontend/src/app/categories/page.tsx:87 | The table is the last min(6, months) buckets. |
| CategoriesPage.TrendCellsAreBucketSums | frontend/src/app/categories/page.tsx:74-88 | Every cell is the sum of the absolute amount over the transactions of its month and category. Categories are distinct within a month, and every month occurs in the data. |
| TimelinePage.FilterByYear | frontend/src/app/investments/timeline/page.tsx:43-45 | 'all' keeps the history unchanged. Otherwise the result is an order-preserving sublist of exactly the months whose string starts with the year. |
| TimelinePage.Average | frontend/src/app/investments/timeline/page.tsx:48-49 | The average is 0 with no months; otherwise average × count = total. |
| TimelinePage.HighestMonth | frontend/src/app/investments/timeline/page.tsx:50 | The placeholder is returned when there are no months. Otherwise the result is the first month holding the maximum amount. |
| TimelinePage.LowestMonth | frontend/src/app/investments/timeline/page.tsx:51 | The placeholder is returned when there are no months. Otherwise the result is the first month holding the minimum amount. |
| TimelinePage.ExtremesAreUnique | frontend/src/app/investments/timeline/page.tsx:50-51 | The first maximum and the first minimum are each unique. |
| TimelinePage.AverageBetweenExtremes | frontend/src/app/investments/timeline/page.tsx:48-51 | The average lies between the lowest and the highest month. |
| TimelinePage.Cumulative | frontend/src/app/investments/timeline/page.tsx:54-65 | Row i carries month i and the sum of months 0..i. |
| TimelinePage.CumulativeEndsAtTotal | frontend/src/app/investments/timeline/page.tsx:61-65 | The last running total is the page total. |
| TimelinePage.CumulativeNonDecreasing | frontend/src/app/investments/timeline/page.tsx:61-65 | With non-negative amounts, the running total never decreases. |
| TimelinePage.AvailableYears | frontend/src/app/investments/timeline/page.tsx:68 | The result holds each distinct 4-character month prefix exactly once, and nothing else. |
| TimelinePage.AvailableYearsInFirstAppearanceOrder | frontend/src/app/investments/timeline/page.tsx:68 | The years appear in the order of their first month. |
| TimelinePage.Variation | frontend/src/app/investments/timeline/page.tsx:375-376 | The variation is 0 unless the previous amount is positive. Then previous × (1 + v/100) = current. |
| TimelinePage.VariationSign | frontend/src/app/investments/timeline/page.tsx:374-392 | The first row is 0. The badge is positive exactly when the month grew from a positive previous month, and negative exactly when it shrank. |
| ImportPage.HandleFiles | frontend/src/app/import/page.tsx:125-168 | The new files are appended after the old ones, each uploading with its id, name, size, type and its own clock reading. One processing timer is scheduled per new file. |
| ImportPage.MarkProcessing | frontend/src/app/import/page.tsx:142-146 | Only the file with the id changes, and it becomes processing. |
| ImportPage.Finish | frontend/src/app/import/page.tsx:150-160 | Only status, transaction count, amount and error message are replaced. Every other field (id, name, size, type, upload time) is kept. The file succeeds exactly when the draw exceeds 0.2. A completed file gets 10..59 transactions, an amount in [1000, 6000) and no error. A failed file gets the fixed message and no totals. |
| ImportPage.Complete | frontend/src/app/import/page.tsx:152-162 | Only the file with the id changes, and it is finished, keeping its id, name, size, type and upload time. |
| ImportPage.FireTimer | frontend/src/app/import/page.tsx:141-164 | A processing timer marks its file processing and schedules the completion timer. A completion timer finishes the file. The fired timer is removed. |
| ImportPage.RemoveFile | frontend/src/app/import/page.tsx:170-176 | Exactly the files with the id are removed, in order. The selection and preview are cleared exactly when the selected file had that id. |
| ImportPage.OpenPreview | frontend/src/app/import/page.tsx:395-401 | Opening a completed file's preview selects it and shows the preview. |
| ImportPage.EmptyPageIsConsistent | frontend/src/app/import/page.tsx:20-30 | The initial page satisfies the lifecycle invariant. The invariant is: distinct ids; an uploading file has exactly one processing timer; a processing file has exactly one completion timer; completed and error files carry their fields. |
| ImportPage.HandleFilesPreservesConsistency | frontend/src/app/import/page.tsx:125-168 | Adding files with fresh ids keeps the invariant. |
| ImportPage.FireTimerPreservesConsistency | frontend/src/app/import/page.tsx:141-164 | Firing any pending timer, in any order, keeps the invariant. |
| ImportPage.RemoveFilePreservesConsistency | frontend/src/app/import/page.tsx:170-176 | Removing a file keeps the invariant. |
| ImportPage.FireTimerFollowsLifecycle | frontend/src/app/import/page.tsx:141-164 | A timer moves one file forward by one step of the lifecycle: uploading, then processing, then completed or error. Other files, and finished files, stay unchanged. |
| ImportPage.CompletedFiles | frontend/src/app/import/page.tsx:215 | The result is an order-preserving sublist holding exactly the completed files. |
| ImportPage.SuccessRate | frontend/src/app/import/page.tsx:271 | The rate is 0 with no files. Otherwise it lies between 0 and 100, within half a point of completed/all × 100. |
| ImportPage.CompletedTotalsCoverAllFiles | frontend/src/app/import/page.tsx:215-217 | On well-formed files, summing over the completed files gives the same as summing the zero default over all files. |
| ImportPage.TotalsBoundedByCompleted | frontend/src/app/import/page.tsx:157-158 | With c completed files, there are between 10c and 59c transactions and between 1000c and 6000c in amount. |
| ImportPage.StatusTextInjective | frontend/src/app/import/page.tsx:200-213 | The four statuses get four distinct labels. |
| ImportPage.ProgressWidth | frontend/src/app/import/page.tsx:428-433 | A progress bar shows exactly while uploading or processing: 30% while uploading and 70% while processing. |
| ImportPage.ProgressFollowsLifecycle | frontend/src/app/import/page.tsx:428-433 | Along a lifecycle step the bar never shrinks, and once it has gone it does not come back. |
| ImportPage.ConfidenceTone | frontend/src/app/import/page.tsx:484-489 | Confidence ≥ 95 is green, 80..95 yellow and < 80 red. |
| ImportPage.ConfidenceToneMonotone | frontend/src/app/import/page.tsx:484-489 | The tone never gets worse as the confidence rises. |
| DividendsPage.FilteredDividends | frontend/src/app/investments/dividends/page.tsx:35-37 | 'all' returns every dividend. Otherwise the result is an order-preserving sublist of exactly the selected stock's dividends. |
| DividendsPage.TotalMatchesIncomeForSingleShares | frontend/src/app/investments/dividends/page.tsx:55 | The total card adds per-share amounts as they are. It equals the data module's dividend income whenever every dividend's stock is held with one share. |
| DividendsPage.TotalIgnoresSharesHeld | frontend/src/app/investments/dividends/page.tsx:55 | With two shares held, a 1.00 per-share dividend is 1.00 on the total card but 2.00 in the investment summary. |
| DividendsPage.YearTotalWithinTotal | frontend/src/app/investments/dividends/page.tsx:55-61 | The year's total plus the other years' total is the total. With non-negative amounts, 0 ≤ year total ≤ total. |
| DividendsPage.DividendsByMonth | frontend/src/app/investments/dividends/page.tsx:63-67 | There is one entry per distinct (year, month), in first-appearance order. The entries add up to the total. |
| DividendsPage.MonthEntryIsMonthSum | frontend/src/app/investments/dividends/page.tsx:63-67 | Each month's entry is the sum of the amounts paid in that month. |
| DividendsPage.MonthlyAverage | frontend/src/app/investments/dividends/page.tsx:69-71 | The average is 0 with no dividends. Otherwise average × months = total. |
| DividendsPage.MonthlyAverageBounds | frontend/src/app/investments/dividends/page.tsx:69-71 | With non-negative amounts, total/count ≤ average ≤ total. |
| DividendsPage.SortByPaymentDate | frontend/src/app/investments/dividends/page.tsx:268-269 | The result is a permutation with payment dates non-increasing. |
| DividendsPage.SortByPaymentDateIdempotent | frontend/src/app/investments/dividends/page.tsx:268-269 | Sorting again changes nothing. |
| Sorting.SortIsStable | frontend/src/app/investments/dividends/page.tsx:268-269 | Elements the comparator ranks equal, such as dividends paid on the same day, keep their input order. |
| DividendsPage.StatusBadge | frontend/src/app/investments/dividends/page.tsx:271-288 | The badge reads 'Paid' exactly when the payment date is not after now, and 'Pending' exactly otherwise. |
| DividendsPage.PaidRowsFormSuffix | frontend/src/app/investments/dividends/page.tsx:268-271 | In the newest-first table, once a row is paid every later row is paid. |
| DividendsPage.KindBadge | frontend/src/app/investments/dividends/page.tsx:277-278 | 'Dividend' exactly for cash dividends; 'JCP' for every other kind. |
| DividendsPage.GetStockName | frontend/src/app/investments/dividends/page.tsx:50-53 | The name is the first matching stock's company name, or 'Desconhecido' when none matches. |
| DividendsPage.HandleAddDividendForgetsInput | frontend/src/app/investments/dividends/page.tsx:21-33 | Submitting leaves the same state whatever was typed: the closed blank form. Submitting from that state changes nothing. |
| StocksPage.ComputeTotals | frontend/src/app/investments/stocks/page.tsx:46-51 | The cards show the invested and current sums and their difference. The percentage is 0 unless something is invested, and then percentage × invested = gain × 100. |
| StocksPage.PercentageHasSignOfGain | frontend/src/app/investments/stocks/page.tsx:51 | With money invested, the percentage is positive (negative) exactly when the gain is. |
| StocksPage.StockRowAsWritten | frontend/src/app/investments/stocks/page.tsx:252-257 | The row's percentage is finite exactly when its invested value is non-zero. With nothing invested it is NaN for a zero gain, +Infinity for a gain and -Infinity for a loss. |
| StocksPage.ZeroQuantityRowNotFinite | frontend/src/app/investments/stocks/page.tsx:257 | A position of zero shares gets a NaN row percentage, while the totals card shows 0 for it. |
| StocksPage.StockRowGuarded | frontend/src/app/investments/stocks/page.tsx:252-257 | The corrected row always has a finite percentage. It equals the unguarded one for a positive invested value and is 0 otherwise. |
| StocksPage.GuardedRows | frontend/src/app/investments/stocks/page.tsx:252-257 | The corrected table holds one guarded row per stock, in portfolio order. |
| StocksPage.RowGainsSumToTotal | frontend/src/app/investments/stocks/page.tsx:252-256 | The gain/loss column adds up to the gain/loss card. |
| StocksPage.ToneOf | frontend/src/app/investments/stocks/page.tsx:280-283 | The cell is green exactly when the value is ≥ 0. |
| StocksPage.ToneOfRatio | frontend/src/app/investments/stocks/page.tsx:289-292 | The percentage cell is green exactly when the percentage is a finite number ≥ 0 or +Infinity. NaN and -Infinity are red. |
| StocksPage.ZeroQuantityRowTones | frontend/src/app/investments/stocks/page.tsx:257-292 | A position of zero shares has a green gain/loss cell but a red percentage cell. |
| StocksPage.ZeroCostRowInfinite | frontend/src/app/investments/stocks/page.tsx:252-292 | Shares bought at price 0 that now have a positive price get a +Infinity percentage in a green cell. The guarded row shows 0. |
| StocksPage.FormatPercentageReadsBack | frontend/src/app/investments/stocks/page.tsx:41-43 | The text starts with '+' exactly when the value is ≥ 0, and with '-' exactly when it is negative. It ends with '%'. The part in between reads back as the magnitude of the value × 100 rounded to the nearest integer. |
| StocksPage.ParseFixedOfFixed | frontend/src/app/investments/stocks/page.tsx:42 | Writing a count of hundredths as '<units>.<dd>' and reading it back gives the count. |
| StocksPage.HandleAddStockForgetsInput | frontend/src/app/investments/stocks/page.tsx:20-32 | Submitting leaves the same state whatever was typed: the closed blank form. Submitting from that state changes nothing. |

## Left out

- Time zones: `getFullYear`, `toLocaleDateString` and the local-time `new Date(y, m, d)` are not modelled. Dates are UTC calendar days. The 'month' and 'year' cutoffs are supplied in the `Clock`.
- Locale formatting (`Intl.NumberFormat`, `formatDate`, `formatMonth`): display only.
- Floating point: money is an exact `real`, so rounding noise in sums is not modelled. Signed zero is not modelled either. A divisor of -0, such as a negative quantity times a zero price, gives an infinity of the opposite sign in JavaScript. `Ratio` takes the divisor as +0.
- StocksPage.FormatPercentageReadsBack: `toFixed(2)` is modelled on exact reals only. The exponent form for magnitudes ≥ 1e21 and the text of NaN and Infinity are not produced.
- CategoriesPage.SearchIgnoresCase: `toLowerCase` is modelled for ASCII and Latin-1 capitals only; other Unicode case mappings are left out.
- MockData.GetExpensesByCategory: category names that are array indices (such as "2024") are not modelled. `Object.entries` lists such keys first, in ascending numeric order, and the model keeps first-occurrence order for every name. Names of `Object.prototype` members are not modelled either. With "constructor" or "toString" the `|| 0` default reads an inherited function and the sum becomes string concatenation; with "__proto__" the assignment is ignored and the category disappears. The model adds the numbers for every name.
- CategoriesPage.CategoryExpenses: inherits the two limits above from `MockData.GetExpensesByCategory`. They show in the row order when the comparator ties or the sort key is unknown.
- CategoriesPage.TrendFold: the per-month category accumulator is a plain object, so the same two limits apply to its category keys. Array-index names are not reordered, and `Object.prototype` names are summed as numbers. The row is built as `{ month, ...categories }`, so a category named "month" would overwrite the month label. The model keeps the month and the category totals apart.
- CategoriesPage.SortExpenses: `localeCompare` is represented by code-point lexicographic order. The sort is proved for any total preorder, so a locale collation can take its place.
- ImportPage.HandleFilesPreservesConsistency: file ids are parameters required to be fresh. A collision between `Math.random` ids is not modelled.
- ImportPage.FireTimer: the 1 s and 2 s `setTimeout` delays are not modelled. Pending timers form a list that may fire in any order, which includes the real order.
- ImportPage.Finish: the three `Math.random` draws are a `Draws` parameter, each in [0, 1).
- The preview transactions and confidence values of the import page are hard-coded sample data. Only the confidence colouring is modelled.
- Charts, JSX markup, icons, drag-and-drop events and `formatFileSize`: presentation only.
- The dashboard, about, contact and investments overview pages, and the header, layout and sidebar components: outside the modelled core.
- `console.log` in the two form handlers: output only.
- The dividends table calls `.sort`, which reorders the module-level array in place. The model returns a sorted copy, so this side effect is not modelled.
- The add-stock and add-dividend forms' input events only copy field values. The submission is not stored by the source, and the model does not store it either.

## Findings

| source | as written | input that shows it | evidently intended | confidence | as-written member | corrected member |
|---|---|---|---|---|---|---|
| frontend/src/data/mockData.ts:390-395 | The return percentage divides by the invested total, and the monthly yield by the current value, without a guard. | an empty portfolio gives 0/0 = NaN for both | 0 when nothing is invested or held, as the stocks page does | not executed | MockData.EmptyPortfolioReturnNotFinite | MockData.GetInvestmentSummaryGuarded |
| frontend/src/app/investments/stocks/page.tsx:257 | The per-row percentage divides by the row's invested value without a guard. | a stock with quantity 0 gives NaN, while the totals card shows 0 | 0 when the invested value is not positive, like the totals card at line 51 | not executed | StocksPage.ZeroQuantityRowNotFinite | StocksPage.StockRowGuarded |
