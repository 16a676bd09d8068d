# ETF return and trend dashboard — verified model

`WebApp.py` is a Streamlit page. The user types an ETF ticker into the
sidebar and presses "분석 시작" (start analysis). The page then:

- downloads two years of daily history for the ticker;
- shows the latest close and its date;
- shows a table of trailing returns for 1 to 12 months back, each marked 🔥
  (positive) or 💧 (not positive);
- shows a table of 20- to 200-day moving averages, each saying whether the
  latest close is at or above it ("상승 (정배열)", an uptrend) or below it
  ("하락 (역배열)", a downtrend);
- draws a chart of the last 252 closes.

This project models that analysis in Dafny and proves what it computes.

- `options.dfy` (`Options`): the optional value used for lookups and table rows.
- `calendar.dfy` (`Calendar`): proleptic Gregorian dates.
  - The day number follows Python's `date.toordinal`, so a difference of two day numbers is `timedelta.days`.
  - `MonthsBefore` is `relativedelta(months=n)` subtracted from a date: the day of the month is kept, or clamped to the last day of the target month.
- `ticker.dfy` (`Ticker`): the sidebar's `.upper().strip()`.
- `series.dfy` (`PriceSeries`): the close series.
  - `LastOnOrBefore` and `Truncate` give the last trading day on or before a date, which is what `truncate(after=...)` leaves last.
  - `ChartTail` is `tail(252)`.
- `returns.dfy` (`TrailingReturns`): the trailing-return rule, plus the loop over months 1 to 12 as a method proved against the table function.
- `averages.dfy` (`MovingAverages`): the moving-average rule, plus the loop over the ten windows as a method proved against the table function.
- `dashboard.dfy` (`Dashboard`): one press of the button.
  - It covers the idle page, the missing-ticker warning, the provider error, the empty-history error and the full report.
  - The data provider is a function parameter.

## Model

| member | source | states |
|---|---|---|
| Ticker.ToUpper | WebApp.py:17 | a lower-case ASCII letter maps to its capital, every other character is kept, and whitespace stays whitespace |
| Ticker.Upper | WebApp.py:17 | `.upper()` keeps the length and upper-cases each character in place |
| Ticker.TrimStart | WebApp.py:17 | the result is a suffix of the input, everything removed is whitespace, and the result does not start with whitespace |
| Ticker.TrimEnd | WebApp.py:17 | the result is a prefix of the input, everything removed is whitespace, and the result does not end with whitespace |
| Ticker.Strip | WebApp.py:17 | `.strip()`: drops leading then trailing whitespace; what it keeps and removes is stated by StripIsTrimmedInfix, StripEnds, StripEmptyIff and StripIdempotent |
| Ticker.StripIsTrimmedInfix | WebApp.py:17 | `.strip()` returns a contiguous slice of its input with only whitespace before and after it |
| Ticker.StripEnds | WebApp.py:17 | a non-empty stripped text neither starts nor ends with whitespace |
| Ticker.Normalize | WebApp.py:17 | the ticker as `.upper().strip()` leaves it; NormalizeEmptyIff, NormalizeIsUpperCase and NormalizeIdempotent state what it promises |
| Ticker.StripEmptyIff | WebApp.py:17 | the stripped text is empty exactly when the input is all whitespace |
| Ticker.NormalizeEmptyIff | WebApp.py:17-23 | the normalised ticker is empty, so the page warns instead of fetching, exactly when the typed text is all whitespace |
| Ticker.StripKeepsUpperCase | WebApp.py:17 | stripping an upper-case text leaves it upper-case |
| Ticker.NormalizeIsUpperCase | WebApp.py:17 | a normalised ticker contains no lower-case letter |
| Ticker.StripIdempotent | WebApp.py:17 | stripping twice gives the same result as stripping once |
| Ticker.NormalizeIdempotent | WebApp.py:17 | normalising an already normalised ticker changes nothing |
| Calendar.DaysInMonth | WebApp.py:52 | every month has 28 to 31 days, and February has 29 exactly in leap years |
| Calendar.MonthsBefore | WebApp.py:52 | subtracting n months lands exactly n months earlier, keeps the day when that month has it, and otherwise clamps to that month's last day |
| Calendar.DaysBeforeNextYear | WebApp.py:58 | consecutive year starts are exactly one year length apart |
| Calendar.Ordinal | WebApp.py:58 | the day number of a date, as Python's `toordinal`; OrdinalNextDay proves it counts days and OrdinalRespectsMonths that it respects month order |
| Calendar.DaysBeforeNextMonth | WebApp.py:58 | each month starts right after the previous one ends |
| Calendar.OrdinalNextDay | WebApp.py:58-60 | the next calendar day has the next day number, so the difference of two day numbers is the number of days between the dates, which is what `.days` gives and the `<= 15` test compares |
| Calendar.OrdinalRespectsMonths | WebApp.py:58 | any date in an earlier month has a smaller day number |
| Calendar.MonthsBeforeIsEarlier | WebApp.py:52 | each target date lies strictly before the latest date |
| Calendar.MonthsBeforeDecreasing | WebApp.py:51-52 | going more months back gives a strictly earlier target date |
| PriceSeries.Closes | WebApp.py:35 | the close column has one entry per observation, in the same order |
| PriceSeries.LastOnOrBefore | WebApp.py:54-57 | the index found is dated on or before the target and every later observation is after it; nothing is found exactly when every observation is after the target |
| PriceSeries.Truncate | WebApp.py:54 | truncation keeps only observations whose closes are positive when the input's are |
| PriceSeries.TruncateIsPrefix | WebApp.py:54 | on an ascending series, `truncate(after=t)` keeps exactly the prefix up to the last observation on or before t, and keeps nothing when there is none |
| PriceSeries.TruncateLast | WebApp.py:54-57 | the truncation is non-empty exactly when some observation is on or before t, and its last element is the latest such observation |
| PriceSeries.ChartTail | WebApp.py:94 | the chart shows the last min(n, 252) closes in order, and the whole series when it has at most 252 closes |
| TrailingReturns.Return | WebApp.py:61 | the return is positive exactly when the latest close is above the past close, and zero exactly when they are equal |
| TrailingReturns.FlagOf | WebApp.py:62 | 🔥 for a strictly positive return, 💧 otherwise; RowValue and ReturnRowsPrices state it as "🔥 exactly when the latest close is higher" |
| TrailingReturns.Targets | WebApp.py:51-52 | there are twelve month targets |
| TrailingReturns.TargetBeforeLatest | WebApp.py:51-52 | the month-i target lies strictly before the latest date |
| TrailingReturns.TargetsBeforeLatest | WebApp.py:51-52 | all twelve targets lie strictly before the latest date |
| TrailingReturns.RowAt | WebApp.py:54-67 | a row emitted for month i is labelled with month i |
| TrailingReturns.RowEmittedIff | WebApp.py:56-60 | month i has a row exactly when some trading day falls within the 15 days up to and including its target date |
| TrailingReturns.RowValue | WebApp.py:57-62 | a row's return compares the latest close with the close of the latest trading day on or before the target, which is never the latest day itself; the flag is 🔥 exactly when the latest close is higher |
| TrailingReturns.RowPrice | WebApp.py:54-62 | an emitted row for a target before the latest date is priced against the close LastOnOrBefore finds: within 15 days of the target, not the latest day, ret = latest / past - 1, 🔥 exactly when latest > past |
| TrailingReturns.RowFromTruncate | WebApp.py:54-62 | the row equals the script's own steps: truncate, look at the last day kept, test the gap, compute the return and the flag |
| TrailingReturns.CollectShape | WebApp.py:51-67 | collecting numbered candidates gives at most one row per month, in increasing month order, each row being its month's candidate |
| TrailingReturns.CollectComplete | WebApp.py:51-67 | collecting drops no emitted candidate |
| TrailingReturns.ReturnRows | WebApp.py:49-67 | the return table: the rows of the months in month order, skipping months without one; ReturnRowsOrdered, ReturnRowsSound, ReturnRowsComplete and ReturnRowsPrices state its properties |
| TrailingReturns.ReturnRowsOrdered | WebApp.py:51-67 | the return table has at most one row per month, all in range, in strictly increasing month order |
| TrailingReturns.ReturnRowsSound | WebApp.py:51-67 | every row of the return table is the row its month calls for |
| TrailingReturns.ReturnRowsComplete | WebApp.py:51-67 | every month that calls for a row has that row in the table |
| TrailingReturns.TableRowPriced | WebApp.py:54-67 | for any targets before the latest date, each table row is priced against its own month's target as RowPrice states |
| TrailingReturns.ReturnRowsPrices | WebApp.py:51-67 | every row of the twelve-month table compares the latest close with the close of the last trading day on or before its month's target, at most 15 days earlier and never the latest day, with 🔥 exactly when the latest close is higher |
| TrailingReturns.ReturnTable | WebApp.py:49-67 | the loop builds exactly the return table for the twelve targets: at most 12 rows, months 1 to 12, in increasing order |
| MovingAverages.SumAtMost | WebApp.py:80 | a sum of values that are all at most hi is at most count × hi |
| MovingAverages.SumAtLeast | WebApp.py:80 | a sum of values that are all at least lo is at least count × lo |
| MovingAverages.Mean | WebApp.py:80 | `.mean()`: the sum over the count; MeanBounds and MeanAtMost state that it lies within the bounds of its values |
| MovingAverages.MeanBounds | WebApp.py:80 | a mean lies between any lower and upper bound of its values |
| MovingAverages.MeanAtMost | WebApp.py:80 | a mean is at most any upper bound of its values |
| MovingAverages.Tail | WebApp.py:80 | `tail(days)` is the last `days` closes, in order |
| MovingAverages.TrendOf | WebApp.py:81-82 | uptrend exactly when the latest close is at or above the average, as AverageRowMeaning states for each row |
| MovingAverages.AverageRowFor | WebApp.py:79-88 | a window has a row exactly when the history holds at least that many closes, and the row carries that window length |
| MovingAverages.AveragesStep | WebApp.py:78-88 | each further window appends its row when the history fills it, and appends nothing otherwise |
| MovingAverages.Averages | WebApp.py:75-88 | the average table over the ten windows; AveragesCount, AveragesOrdered, AveragesSound, AveragesComplete and AverageRowPresentIff state its properties |
| MovingAverages.WindowsAreMultiples | WebApp.py:75 | the windows are 20, 40, …, 200 |
| MovingAverages.AveragesCount | WebApp.py:75-88 | the first n windows give min(n, ⌊len/20⌋) rows |
| MovingAverages.AveragesOrdered | WebApp.py:75-88 | the rows are in strictly increasing window order |
| MovingAverages.AveragesSound | WebApp.py:75-88 | every row is for one of the fixed windows that the history fills, and is that window's row |
| MovingAverages.AveragesComplete | WebApp.py:75-88 | every fixed window the history fills has its row in the table |
| MovingAverages.AverageRowPresentIff | WebApp.py:75-88 | a row for d days appears exactly when d is one of the fixed windows and the history has at least d closes |
| MovingAverages.AverageRowMeaning | WebApp.py:80-81 | the average is the mean of the last `days` closes, and the trend is up exactly when the latest close is at or above it |
| MovingAverages.HighestCloseIsUptrend | WebApp.py:80-82 | when the latest close is the highest in the window, the row reports an uptrend |
| MovingAverages.AverageTable | WebApp.py:76-88 | the loop builds exactly the average table, with min(10, ⌊len/20⌋) rows in increasing window order |
| Dashboard.PageFor | WebApp.py:21-94 | what one press (or none) leads to; IdleIff, MissingTickerIff, FailedIff, NoDataIff, ReportSource and ReportWhen characterise each outcome |
| Dashboard.IdleIff | WebApp.py:21 | nothing is shown exactly when the button is not pressed |
| Dashboard.MissingTickerIff | WebApp.py:17-23 | the missing-ticker warning appears exactly when the button is pressed on blank input |
| Dashboard.FailedIff | WebApp.py:25-97 | the error is shown, with the provider's message, exactly when a press on a non-blank ticker meets a provider failure |
| Dashboard.NoDataIff | WebApp.py:31-32 | "no data" (no tables, no chart) is shown exactly when a press on a non-blank ticker gets an empty history |
| Dashboard.ReportSource | WebApp.py:17-37 | a report comes from a button press on non-blank input; it is for the normalised, upper-case, non-empty ticker; the provider returned a non-empty history for that ticker, and the report shows that history's last date and close |
| Dashboard.ReportWhen | WebApp.py:31-94 | a press on a non-blank ticker with a non-empty history always gives a report: the converse of ReportSource |
| Dashboard.TablesShape | WebApp.py:49-94 | from a non-empty history: at most 12 return rows in month order, at most 10 average rows in window order, and a non-empty chart of at most 252 closes ending at the latest close |
| Dashboard.ReportShape | WebApp.py:31-94 | every report's tables and chart have the shapes TablesShape proves |
| Dashboard.Analyze | WebApp.py:17-94 | running the script's steps gives exactly PageFor: idle without a press, the warning for a blank ticker, the provider's error message, "no data" for an empty history, otherwise the report built by the two table loops and the chart tail |

## Left out

- The page itself is not modelled: layout, widgets, spinner, messages and table rendering (`st.*`, `pd.DataFrame`).
- Number formatting is not modelled: `:+.2f%`, `$…:,.2f` and `strftime`. The model keeps exact values and dates.
- Floating point is not modelled. Closes, returns and means are exact reals.
- The data provider (`yfinance`) is not modelled. It is the `fetch` parameter of `Dashboard.Analyze`.
  - Its history is assumed to hold ascending, distinct trading days with positive closes (the `History` type).
  - Missing (NaN) closes and zero or negative closes are not modelled. With those, pandas would return NaN or infinities rather than raise.
- Dashboard.Analyze models only the provider error inside the `try` block. The model has no other exception source: the arithmetic is exact and all dates stay in range.
  - As a result, dates beyond the range pandas `Timestamp` supports, where `relativedelta` would raise, are not modelled.
- Time-of-day and time zone are not modelled. The provider's index carries an exchange time zone, and `(target - day).days` is computed on timestamps. The model uses calendar dates and takes all timestamps to share a time of day. Across a spring-forward daylight-saving change, `.days` between two local midnights is one less than the calendar gap. So a past day 16 calendar days before the target passes the script's `<= 15` test, while the model drops that row. Across a fall-back change, `.days` still equals the calendar gap, because the extra hour is dropped.
- Ticker.ToUpper upper-cases only the ASCII letters. Python's `str.upper` also maps other scripts and expands characters such as 'ß'. Tickers are ASCII symbols.
