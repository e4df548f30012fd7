# Aplikasi-Ku finance engine in Dafny

Aplikasi-Ku is a single-page personal finance app. Its logic lives in `app.js`. Most of that file is page and chart plumbing. Inside it sits a small deterministic engine, and this project models that engine:

- **Currency text** (`currency.dfy`, module `Currency`): the comma grouping of `formatNumberWithComma`, and the digit stripping of `parseFormattedCurrency` and `parseCurrency`. It also covers the normalisation that `formatCurrencyInput` applies to an amount field. Amounts are digit strings and natural numbers.
- **Monday-start weeks** (`calendar.dfy`, module `Calendar`): `getWeekRange` over absolute day numbers. Day 0 is Thursday 1 January 1970, so `getDay` is `(d + 4) % 7`.
- **The ledger** (`transactions.dfy`, module `Transactions`): a `Ledger` class holding the page's transaction list. Submitting appends; deleting filters by id. This file also has the week filter `getWeekTransactions` and the category labels.
- **The dashboard** (`dashboard.dfy`, module `Dashboard`):
  - the weekly income and expense cards;
  - the all-time balance;
  - the five most recent entries;
  - the Monday..Sunday bar series, filled in place in two seven-slot arrays.
- **The emergency-fund calculator** (`emergency.dfy`, module `EmergencyFund`): months of cover by household status, target, shortage, progress percentage and the two monthly saving rates.
- **The ETF projector** (`investment.dfy`, module `Investment`):
  - the closed-form future value;
  - invested total, profit, ROI and the inflation-adjusted value;
  - the month-by-month recurrence behind the yearly table and the chart.
- **The market session** (`market.dfy`, module `Market`): the New York session classifier.
- **Shared pieces**: `seqs.dfy` (module `Seqs`) holds a generic filter, the subsequence relation and sums. `numbers.dfy` (module `Numbers`) holds the slice of JavaScript number semantics the calculators reach: division by zero gives an infinity or NaN, and `Math.min` passes NaN through.

The calculators use exact reals. The ledger and the currency text use integers.

## Model

| member | source | states |
|---|---|---|
| Currency.NatToDigits | app.js:72 | `num.toString()` for a whole number: a canonical digit string (no leading zero) whose value is the number |
| Currency.StripNonDigits | app.js:77 | removing every non-digit leaves only digits and never lengthens the text |
| Currency.StripKeepsDigits | app.js:77 | the stripped text is a subsequence of the input that keeps every digit as often as it occurs and drops every other character |
| Currency.ParseFormattedCurrency | app.js:75-78 | for any text the result is the decimal value of the digits it contains, read in order; on a pure digit string that is the string's own value, and a text with no digit (the empty text included) gives 0 |
| Currency.ParseCurrency | app.js:460-462 | `parseCurrency` agrees with `parseFormattedCurrency` on every text, the empty text included |
| Currency.FormatNumberWithComma | app.js:71-73 | inserting separators never shortens the digit string |
| Currency.FormatStripsBack | app.js:71-78 | removing the commas from a formatted digit string gives the digits back unchanged |
| Currency.FormatGroups | app.js:71-73 | up to three digits stay as they are; longer strings are the formatting of all but the last three digits, then a comma, then those three: one comma before every group of three from the right and none in front |
| Currency.FormatLength | app.js:71-73 | a formatted string of `k > 0` digits has exactly `(k - 1) / 3` commas |
| Currency.FormatParseRoundTrip | app.js:71-78 | for every natural `n`, parsing the formatted decimal form of `n` gives `n` back |
| Currency.StripLeadingZeros | app.js:56 | dropping leading zeros keeps the value and leaves no leading `0` |
| Currency.CanonicalRoundTrip | app.js:56-58 | a digit string without a leading zero is exactly the decimal form of its own value |
| Currency.NormalizeCurrencyInput | app.js:54-58 | the normalised field is the formatted decimal form of the amount the field parses to (`"0"` when there is no digit) |
| Currency.NormalizeKeepsAmount | app.js:54-58 | normalising a field never changes the amount it parses to |
| Currency.NormalizeIdempotent | app.js:54-58 | normalising an already normalised field changes nothing |
| Calendar.GetDay | app.js:466 | the weekday number is in 0..6 |
| Calendar.GetWeekRange | app.js:464-477 | the window starts on a Monday, ends six days later and holds the day `today + 7 * offset` |
| Calendar.WeekRangeUnique | app.js:464-477 | the start is the only Monday whose seven-day window holds `today + 7 * offset` |
| Calendar.WeekRangeShift | app.js:467-470 | offset `k` moves both ends by exactly `7k` days, for negative and positive `k` alike |
| Calendar.SundayClosesItsWeek | app.js:467 | on a Sunday the current week began six days earlier and ends that same day |
| Calendar.WeeksAdjacent | app.js:469-474 | week `k + 1` starts the day after week `k` ends: the weeks tile the calendar |
| Transactions.WithoutId | app.js:550 | an entry survives the delete filter exactly when it was in the ledger and carries another id |
| Transactions.DeleteKeepsOthersInOrder | app.js:549-550 | deleting keeps every other entry as often as before and in ledger order, and removes every copy carrying the id |
| Transactions.DeleteAbsentIsNoOp | app.js:549-550 | deleting an id no entry carries leaves the ledger unchanged |
| Transactions.DeleteUndoesAdd | app.js:522-550 | deleting the entry just pushed, under a fresh id, restores the previous ledger |
| Transactions.WeekTransactions | app.js:487-494 | an entry is in the week's list exactly when it is in the ledger and dated between the week's start and end, both included |
| Transactions.WeekTransactionsInOrder | app.js:487-494 | the week's list is a subsequence of the ledger, keeping every in-week entry as often as it occurs |
| Transactions.SundayEntryStaysInItsWeek | app.js:464-494 | an entry dated on the closing Sunday belongs to that week and not to the next one |
| Transactions.Ledger.constructor | app.js:2 | the ledger starts as the stored list |
| Transactions.Ledger.Submit | app.js:521-533 | the ledger grows by exactly one entry at the end: the clock reading as id, the parsed amount and the other form fields |
| Transactions.Ledger.Delete | app.js:549-550 | the ledger becomes the delete filter of the old ledger |
| Transactions.CategoryLabel | app.js:584-601 | a known category key gives its (non-empty) label; any other category is shown unchanged |
| Transactions.CategoryLabelIdempotent | app.js:584-601 | labelling a label changes nothing, because no label is itself a key |
| Dashboard.SumAmountsAppend | app.js:607-608 | the reduce sum over two lists joined is the sum of the two sums |
| Dashboard.BalanceSplit | app.js:614-616 | the balance equals the sum of all "income" amounts minus the sum of every other entry's amount, whatever its type |
| Dashboard.ExpenseWithinNonIncome | app.js:606-616 | the expense card never exceeds the non-income total, with equality when every entry is typed "income" or "expense" |
| Dashboard.BalanceOfTypedLedger | app.js:606-616 | on a ledger typed only "income" or "expense", the balance is income total minus expense total |
| Dashboard.BalanceAppend | app.js:614-616 | the balance of two lists joined is the sum of their balances |
| Dashboard.BalancePermutation | app.js:614-616 | the balance does not depend on the order of the ledger |
| Dashboard.InsertByDate | app.js:633 | one insertion step of the sort adds exactly that entry to the list and nothing else |
| Dashboard.InsertKeepsSorted | app.js:633 | inserting into a latest-first list keeps it latest first |
| Dashboard.InsertStable | app.js:633 | the insertion keeps the relative order of the entries of every date, placing the new entry ahead of those of its own date already in the list, which the sort inserts from the ledger's end |
| Dashboard.SortByDateDesc | app.js:633 | the sort gives a latest-first permutation of the ledger |
| Dashboard.SortStable | app.js:633 | entries sharing a date keep their ledger order, as the stable `Array.prototype.sort` keeps them |
| Dashboard.SortedPrefixIsLatest | app.js:633 | every copy of an entry later than a shown one is itself shown |
| Dashboard.SortedPrefix | app.js:633 | a prefix of the sorted list is latest-first and drawn from the ledger |
| Dashboard.RecentTransactions | app.js:631-633 | the recent list has `min(5, ledger size)` entries, latest first, drawn from the ledger, and every copy of an entry later than one shown is shown, so no entry left out is later than one shown; for every date, the entries shown of that date are the first ones of that date in ledger order, as the stable sort leaves them |
| Dashboard.PrefixOfSortedDate | app.js:633 | cutting the sorted list after `n` entries leaves, for each date, a prefix of that date's entries in ledger order |
| Dashboard.DayIndex | app.js:696-698 | the bar index is in 0..6 and is the `getDay` number moved one back, Sunday to 6 |
| Dashboard.DayIndexInWeek | app.js:688-698 | inside any week window, the bar index is the number of days since that week's Monday |
| Dashboard.DayTotals | app.js:690-705 | there are always seven bars |
| Dashboard.DayTotalsAt | app.js:690-705 | bar `j` holds the amounts of exactly the entries of weekday `j` on its side; the expense side takes every non-income entry |
| Dashboard.DayTotalsSum | app.js:690-705 | the income bars add up to the income total and the expense bars to the total of every non-income entry |
| Dashboard.DayTotalsSnoc | app.js:695-705 | adding one entry changes at most the one bar of its weekday on its side |
| Dashboard.AddToBars | app.js:696-704 | one entry adds its amount to the bar of its weekday on its side, so both arrays go from the bars of the entries before it to the bars including it |
| Dashboard.AddUpByWeekday | app.js:690-705 | the two arrays filled in place end as the income and the expense bars of the entries given |
| Dashboard.WeeklySeries | app.js:683-705 | the chart shows the bars of the current week; the income bars total the income card and the expense bars total all non-income entries of the week |
| Dashboard.UpdateDashboard | app.js:603-616 | the income card is the sum of the amounts of the current week's "income" entries and the expense card that of its "expense" entries; the income card equals the total of the income bars, the expense card is at most the total of the expense bars, and the balance is all-time income minus everything else |
| Numbers.Divide | app.js:790 | a non-zero divisor gives the exact quotient; a zero divisor gives +Infinity for a positive dividend, -Infinity for a negative one and NaN for 0/0 |
| Numbers.Scale | app.js:845 | multiplying by a positive constant scales a finite value and passes NaN and the infinities through |
| Numbers.Min | app.js:790 | `Math.min(k, x)` is NaN exactly when `x` is NaN, caps a finite value at `k`, turns +Infinity into `k` and keeps -Infinity |
| EmergencyFund.MonthsOfCover | app.js:773-786 | single 6 months, married 9, family 12, any other status 6 |
| EmergencyFund.ProgressPercent | app.js:790 | for a positive target the percentage is in [0, 100], is 100 exactly when savings reach the target and is otherwise `100 * savings / target`; a zero target gives 100 with savings and NaN without |
| EmergencyFund.EmergencyPlan | app.js:768-793 | target = expense times months; the shortage is 0 exactly when savings cover the target and otherwise closes the gap exactly; 12 or 24 monthly payments of the two rates make up the shortage |
| EmergencyFund.FullExactlyWhenNoShortage | app.js:788-790 | with a positive expense the bar shows 100 % exactly when nothing is missing |
| EmergencyFund.MoreSavingsHelp | app.js:788-790 | more savings never raise the shortage nor lower the percentage |
| EmergencyFund.SingleHouseholdExample | app.js:768-793 | a single household spending 5,000,000 a month with 10,000,000 saved: target 30,000,000, shortage 20,000,000, one third of the way |
| Investment.SimulateSplit | app.js:873-880 | `a` months of the loop then `c` more equal `a + c` months: the yearly rows continue one recurrence without restarting |
| Investment.SimulateTimesRate | app.js:878-879 | after `n` months, `r * balance = (r * initial + m) * (1 + r)^n - m`, for every rate |
| Investment.AnnuityClosedForm | app.js:878-879 | for a non-zero rate the loop's balance is `initial * (1 + r)^n + m * ((1 + r)^n - 1) / r` |
| Investment.SimulateZeroRate | app.js:878-879 | at a zero rate the loop gives `initial + m * n` |
| Investment.SimulateSeparates | app.js:878-879 | the capital and the contributions grow independently: `initial * (1 + r)^n` plus the balance started from 0 |
| Investment.ClosedFormValue | app.js:833-841 | the closed form as written (see Findings) |
| Investment.ClosedFormOvershootsLoop | app.js:833-841 | for a positive rate the closed form exceeds the loop by exactly `m * ((1 + r)^n - 1)`, strictly when `m > 0` and `n > 0` |
| Investment.ClosedFormAgreesAtZeroRate | app.js:835-841 | at a zero rate the closed form and the loop both give `initial + m * n` |
| Investment.ShrinkingContributions | app.js:878-879 | at a rate in [-1, 0) the contributions alone stay positive and fall strictly below `m * n` from two months on |
| Investment.ClosedFormOvershootsLoopWhenNegative | app.js:838-840 | at a rate in [-1, 0) with contributions, the closed form's `m * n` term exceeds the loop's balance from two months on |
| Investment.LoopClosedForm | app.js:878-879 | the corrected closed form equals the loop's balance for every rate |
| Investment.Project | app.js:823-848 | the handler as written: the final value is the closed form of app.js:833-841 at the monthly rate `annualReturn / 12` over `12 * years` months; invested = initial + 12 * monthly * years; the profit is their difference; the ROI is the profit as a percentage of what was invested; the real value is the deflated final value and the real profit its difference from what was invested |
| Investment.CorrectedProject | app.js:842-848 | the same figures computed from the loop's balance after `12 * years` months, the value the yearly table (app.js:879) and the chart (app.js:916) reach |
| Investment.ProjectOvershootsTable | app.js:833-841 | for a positive return the handler's final value exceeds the corrected one by exactly `monthly * ((1 + r)^months - 1)`, strictly with contributions and at least one year |
| Investment.ProjectOvershootsTableWhenNegative | app.js:838-840 | for a return in [-1200 %, 0) a year, with contributions and at least one year, the handler's final value exceeds the corrected one |
| Investment.ProjectReturnOnInvestment | app.js:843-845 | for the handler and for the corrected projection alike, the ROI times what was invested is 100 times the profit, and the ROI is NaN exactly when nothing was invested |
| Investment.ClosedFormNothingInvested | app.js:833-841 | with no capital, and no contributions or no months, the closed form gives 0 |
| Investment.ZeroReturnNoProfit | app.js:830-844 | at a zero return the handler's final value is what was put in and the profit is 0 |
| Investment.Percent | app.js:845 | `(part / whole) * 100` times `whole` is `100 * part` for a non-zero whole; a zero whole gives +Infinity for a positive part, -Infinity for a negative part and NaN for a zero part |
| Investment.Deflate | app.js:847 | the real value grown back by `(1 + inflation)^years` is the nominal value |
| Investment.NothingInvestedNothingGained | app.js:843-845 | with no capital and no contributions the balance stays 0 |
| Investment.GrowOneYear | app.js:878-880 | the twelve-month inner loop leaves the balance the recurrence gives after twelve months from where the year started |
| Investment.YearlyBreakdown | app.js:869-896 | one row per year; row `y` reports year `y`, invested `initial + 12 * m * y`, the loop's balance after `12y` months and the difference as profit |
| Investment.ChartSeries | app.js:898-921 | `years + 1` points; point `y` is invested `initial + 12 * m * y` and the loop's balance after `12y` months, point 0 being the capital |
| Market.ClassifySession | app.js:361-383 | regular session exactly on weekdays in minutes [570, 960), pre-market in [240, 570), after-hours in [960, 1200), closed otherwise and all weekend |
| Market.OpenOnTheClock | app.js:357-366 | on the clock face: open from 9:30 up to 16:00, pre-market from 4:00 up to 9:30, after-hours from 16:00 up to 20:00 |
| Market.SessionsInOrder | app.js:371-383 | through a weekday the sessions only move forward: pre-market, regular, after-hours, closed |

`Dashboard.SumAmounts`, `Dashboard.IncomeTotal`, `Dashboard.ExpenseTotal` and `Dashboard.NonIncomeTotal` (app.js:606-612), `Dashboard.Balance` (app.js:614-616) and `Investment.Simulate` (app.js:878-879, 916) are the specification functions of the rows above. They carry no contract of their own. What they mean is stated by `SumAmountsAppend`, `BalanceSplit`, `BalanceAppend`, `BalancePermutation`, `ExpenseWithinNonIncome`, `DayTotalsSum` and `UpdateDashboard` for the totals and the balance, and by `SimulateSplit`, `SimulateTimesRate`, `AnnuityClosedForm`, `SimulateSeparates`, `YearlyBreakdown` and `ChartSeries` for the recurrence.

Some helpers model source expressions and are covered by the rows of the members that use them:

- `Investment.Figures` (app.js:843-848): the invested total, profit, ROI and inflation-adjusted figures computed from a final value. `Project` and `CorrectedProject` state them.
- `Investment.Pow` (`Math.pow`, app.js:833, 837, 847): a whole-number power. `AnnuityClosedForm`, `SimulateTimesRate` and `Deflate` state what the model needs of it.
- `Currency.InsertCommas` and `Currency.CommaBefore` (the regular expression of app.js:72): a comma before every position other than the first from which a multiple of three digits runs to the end. `FormatGroups`, `FormatLength` and `FormatStripsBack` state their result.
- `Market.MarketTime` (app.js:362): the minute of the day, `hours * 60 + minutes`. `OpenOnTheClock` states the sessions over it on the clock face.

## Left out

- Page plumbing is not modelled: DOM reads and writes, `innerHTML` templates, event listeners, navigation, toasts, and the cursor repositioning with `setTimeout` in `formatCurrencyInput`.
- Chart.js chart construction and destruction is not modelled. The model stops at the data arrays handed to the chart.
- `localStorage` loading and saving is not modelled. `Ledger.constructor` takes the stored list as a parameter.
- Network feeds, mock market data built on `Math.random`, and `setInterval` polling are left out. They are I/O, timers and randomness.
- Locale output (`Intl.NumberFormat`, `toLocaleString`, `toFixed`, `formatDate`, `formatVolume`) is left out. It comes from a foreign library.
- The recommendation text generators produce presentation HTML and are left out.
- The chart's day labels and year labels ("Awal", "Tahun y") are left out.
- The clock is a parameter: `Ledger.Submit` takes the `Date.now()` reading as `now`, and the week functions take `today` as a day number.
- The time-zone conversion in `updateMarketStatus` is left out. `Market.ClassifySession` takes the New York weekday and minute of day.
- Time zones are left out for dates too. `new Date('YYYY-MM-DD')` parses as UTC midnight while the week bounds are local midnight and 23:59:59.999. The model works on whole day numbers, so it does not capture a date landing in a neighbouring day.
- `renderTransactions` (the week table) is left out. Its sort is the one modelled in `Dashboard.SortByDateDesc`; the rest is HTML.
- The model is not bounded the way JavaScript numbers are:
  - amounts are unbounded naturals, with no `parseInt` precision loss above 2^53;
  - `toString` is the plain decimal form, with no exponent form from 10^21 on;
  - the ETF and percentage math is over exact reals, with no floating-point rounding.
- Currency.FormatNumberWithComma: requires a pure digit string. Its only callers hand it the output of the digit strip, so other text is not modelled.
- Investment.Project: requires `1 + inflation != 0`. At exactly -100 % inflation the source divides by `0^years`, and the model does not cover that case.
- Investment.Project: the period is a natural number, so a negative or non-numeric period (`parseInt` giving NaN) is not modelled.
- Investment.Project: the amounts are naturals, as `parseFormattedCurrency` returns them, and the rates are reals, as `parseFloat(...) / 100` would give them. The parsing of the rate fields is not modelled.
- Investment.ProjectOvershootsTableWhenNegative: requires an annual return of at least -1200 %, so that the monthly rate is at least -1. Below that the growth factor `1 + r` is negative, and the model states no ordering there.
- The category lookup does not model keys inherited from `Object.prototype` such as `"constructor"`. In the source these would return a function rather than the key.
- At a zero target the source divides by zero. The model follows the code's JavaScript semantics there: the progress is NaN with no savings and 100 with savings (`Math.min(100, Infinity)`). The ROI is likewise NaN when nothing was invested. A policy that shows 0 % at a zero target is not what the model states.

## Findings

| source | as written | input that shows it | evidently intended | confidence | as-written member | corrected member |
|---|---|---|---|---|---|---|
| app.js:837 | the closed form multiplies the contribution annuity by `(1 + monthlyReturn)`, paying each contribution at the start of the month, while the yearly table and the chart (app.js:879, 916) grow the balance first and add the contribution after | initial 0, monthly 1,000,000, 8 % a year, 10 years: the headline final value exceeds the table's last row by `m * ((1 + r)^120 - 1)`, about 1.22 million | the headline final value agrees with the last row of the yearly table | not executed | Investment.Project, Investment.ClosedFormValue, Investment.ProjectOvershootsTable | Investment.CorrectedProject, Investment.LoopClosedForm |
| app.js:838-840 | for a zero or negative rate the closed form falls back to `monthly * totalMonths`, ignoring the shrinkage the loop applies | initial 0, monthly 1,000,000, -12 % a year, 1 year: closed form 12,000,000, loop about 11.36 million | the headline final value agrees with the loop for every rate | not executed | Investment.Project, Investment.ClosedFormValue, Investment.ProjectOvershootsTableWhenNegative | Investment.CorrectedProject, Investment.LoopClosedForm |

`Investment.Project` models the submit handler as written, so its final value is the closed form. `Investment.CorrectedProject` computes the same figures from `LoopClosedForm`. Its final value is therefore the value the yearly table and the chart show, and `Investment.AnnuityClosedForm` gives it in closed form. `ClosedFormOvershootsLoop` and `ClosedFormOvershootsLoopWhenNegative` state the gap on the bare formulas; `ProjectOvershootsTable` and `ProjectOvershootsTableWhenNegative` state it between the two projections.
