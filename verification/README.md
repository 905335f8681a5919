# ce2 per-service cost report: a Dafny model

`ce2.py` is a one-shot script that asks a cloud billing API for month-to-date
amortized cost per service and prints a table (estimated monthly cost, running
total, daily average, variance, latest day), then an end-of-month forecast.
This project models the pure core of that script and proves properties of it:

- **Calendar windows** (`calendar.dfy`, `date_window.dfy`, `iso_date.dfy`):
  proleptic Gregorian arithmetic on `(year, month, day)` records with `now`
  passed in explicitly. It covers `days_this_month`,
  `start_of_month_from_yesterday`, `today`, `tomorrow`,
  `start_of_next_month` (the "day 28 plus 4 days" trick) and the last-day
  guard of `get_forecast`. Dates render in the ISO 8601 calendar-date format
  `YYYY-MM-DD`, the extended complete representation of section 4.1.2.2 of
  ISO 8601:2004. Python's `datetime` covers years 1 to 9999. Where the
  script's arithmetic leaves that range it raises `OverflowError`, and the
  model returns `None` there.
- **Grouping** (`grouping.dfy`): the nested loop of `get_month_to_date` folds
  the time-ordered result buckets into a per-service list of amounts. Python
  dicts keep insertion order, and that order later breaks ties in the sort.
  So the map is an association list in order of first appearance.
- **Selection and layout** (`selection.dfy`, `layout.dfy`, `stats.dfy`,
  `report.dfy`): the stable descending sort by total, the positive-total
  filter, the name-column width, `str.ljust`, the per-row statistics and
  `safe_variance`, and the whole table as one function `BuildTable`.

Amounts are integers in cents, already rounded. Means, estimates and
variances are exact reals. `wrappers.dfy` holds the `Option` type.

Two consequences of the code are worth stating up front:
- The name column is sized from the service names only, so the header
  `"Service".ljust(w)` is wider than the rows whenever every name is shorter
  than 7 characters (`Layout.HeaderNameColumn`).
- The order is non-increasing, not strictly descending: equal totals are
  possible, and the stable sort keeps them in dict order
  (`Selection.SortDescSpec`).

## Model

| member | source | states |
|---|---|---|
| Calendar.DaysInMonth | ce2.py:13-14 | the exact month length: February has 29 days in Gregorian leap years (divisible by 4, and not by 100 unless by 400) and 28 otherwise; April, June, September and November have 30; the other months have 31 |
| Calendar.MonthsFillYear | ce2.py:13-14 | the twelve month lengths add up to 366 in leap years and 365 otherwise |
| DateWindow.DaysThisMonth | ce2.py:13-14 | `days_this_month()` is the exact length of `now`'s month: 29 or 28 in February as the year is leap or not, 30 in April, June, September and November, 31 otherwise; and it is at least today's day |
| Calendar.NextDayOrdinal | ce2.py:25-26 | adding one day advances the proleptic day number (0001-01-01 is day 1) by exactly one |
| Calendar.PrevDayOrdinal | ce2.py:17-18 | subtracting one day lowers the day number by exactly one |
| Calendar.PrevNextInverse | ce2.py:17-26 | "minus one day" and "plus one day" undo each other |
| Calendar.AddDaysOrdinal | ce2.py:30 | adding `n` days advances the day number by `n` |
| Calendar.BeforeIffOrdinalLess | ce2.py:42 | the (year, month, day) order of dates is the order of their day numbers, in both directions |
| Calendar.OrdinalInjective | ce2.py:42 | two valid dates with the same day number are equal |
| Calendar.DaysBeforeYearClosedForm | ce2.py:17-26 | the year-by-year count of days before year `y` equals the closed form (y−1)·365 + ⌊(y−1)/4⌋ − ⌊(y−1)/100⌋ + ⌊(y−1)/400⌋ on which Python's date arithmetic rests |
| IsoDate.Format | ce2.py:21-22 | `strftime("%Y-%m-%d")` gives 10 characters: digits, with dashes at positions 4 and 7 |
| IsoDate.ParseFormat | ce2.py:21-22 | reading back a rendered date gives the same date |
| IsoDate.FormatParse | ce2.py:21-22 | every string that parses as a date is exactly that date's rendering |
| DateWindow.StartOfMonthFromYesterday | ce2.py:17-18 | day 1 of `now`'s month when `now.day > 1`; on the 1st, day 1 of the previous month, with January going to December of the year before; always strictly before today; `OverflowError` exactly on 0001-01-01 |
| DateWindow.Tomorrow | ce2.py:25-26 | the next date (day number one higher), strictly after today, in the same month exactly when today is not the month's last day; `OverflowError` exactly on 9999-12-31 |
| DateWindow.Day28PlusFour | ce2.py:30 | day 28 plus four days lands on day 1 to 4 of the next month, whatever the month's length, with December going to January of the next year |
| DateWindow.StartOfNextMonthSpec | ce2.py:29-31 | `start_of_next_month()` is day 1 of the month after `now`'s; `OverflowError` exactly in December 9999 |
| DateWindow.MonthToDateWindow | ce2.py:42 | the month-to-date period runs from `start_of_month_from_yesterday()`, which is strictly earlier, to today; `OverflowError` exactly on 0001-01-01 |
| DateWindow.MonthToDateLength | ce2.py:42 | the month-to-date period `[start, today)` is never empty: it spans `now.day - 1` days, or the whole previous month on the 1st |
| DateWindow.WindowText | ce2.py:68 | both ends of a query period render as strings that read back as those dates |
| DateWindow.LastDayGuard | ce2.py:64 | "tomorrow's month differs from this month" holds exactly when today is the month's last day |
| DateWindow.ForecastPlanSpec | ce2.py:63-68 | no query exactly on the last day of a month; otherwise the period runs from tomorrow to the first of next month, is non-empty, and spans exactly the days left in the month; `OverflowError` exactly in December 9999 |
| DateWindow.GetForecast | ce2.py:63-79 | the triple is `("N/A","N/A","N/A")` on the last day of the month and the API's answer otherwise |
| Grouping.AddSpec | ce2.py:57-59 | one loop step keeps keys distinct with non-empty lists, appends the amount to its service's list only, adds the key at the end when it is new, and adds one value in total |
| Grouping.GroupAllSpec | ce2.py:50-59 | the map has distinct keys in order of first appearance; each key's list is exactly its service's amounts in arrival order and is non-empty; the lists hold as many values as there were groups |
| Grouping.FirstSeenMembership | ce2.py:53-58 | a service is a key exactly when some group names it |
| Grouping.AmountsOfCount | ce2.py:53-59 | a service's list has one entry per group of that service |
| Grouping.MonthToDate | ce2.py:48-60 | the nested bucket-then-group loop builds that map, with every list in bucket-then-group order |
| Stats.Mean | ce2.py:104 | the mean times the number of points is the total |
| Stats.MonthlyEstimate | ce2.py:108 | the estimate times the number of points is `days_this_month()` times the total, so the estimate is `days * mean` |
| Stats.SampleVariance | ce2.py:37 | the sample variance is non-negative, and zero exactly when every point equals the mean |
| Stats.SampleVarianceReference | ce2.py:37 | the sample variance equals the textbook definition of `statistics.variance`: the squared deviations of the points from their mean (`SqDev`), summed over the reals and divided by `n - 1` |
| Stats.SafeVariance | ce2.py:34-37 | no value ("N/A") exactly when there are fewer than 2 points; otherwise a non-negative number |
| Stats.VarianceZeroIffConstant | ce2.py:34-37 | for two or more points the variance is 0 exactly when all points are equal |
| Selection.SortDescSpec | ce2.py:86 | `sorted(key=sum, reverse=True)` returns a permutation in non-increasing order of total; for every total, the entries with that total stay in input order (stability) |
| Selection.PositiveMembers | ce2.py:87 | the filter keeps exactly the entries whose total is positive |
| Selection.PositiveWithKey | ce2.py:87 | for each total, the filter keeps all entries with that total in their input order when the total is positive, and none otherwise |
| Selection.PositiveSubsequence | ce2.py:87 | the filter's output is the positive-total entries in their input order: its `j`-th entry is the entry at the `j`-th ascending position of the input whose total is positive, and it has one entry per such position |
| Selection.SelectRowsSpec | ce2.py:85-87 | the rows are exactly the services with positive total, none twice and none invented, in non-increasing order of total, ties in dict order |
| Layout.MaxNameWidth | ce2.py:89 | no width (`max()` raises `ValueError`) exactly when there are no rows; otherwise at least every name's length and equal to one of them |
| Layout.LJust | ce2.py:107-112 | `s.ljust(w)` has length `max(len(s), w)`, starts with `s` and continues with spaces only, so nothing is truncated |
| Layout.RowNameColumn | ce2.py:105-113 | in a row whose name fits, the name is printed whole, padded with spaces to the width, and the double-bar separator starts at column `w` |
| Layout.HeaderNameColumn | ce2.py:92-101 | in the header, the double-bar separator starts at column `max(7, w)`, so the header lines up with the rows only when some name has 7 or more characters |
| Layout.RowMatchesHeaderWhenValuesFit | ce2.py:90-113 | when every value fits under its column title and `w >= 7`, a row is exactly as long as the header (`w + 65`) |
| Report.BuildTableNoneIff | ce2.py:84-89 | the script has no table (it aborts at `max()`) exactly when no service has a positive total |
| Report.BuildTableMembers | ce2.py:85-87 | the table's services are exactly the services seen in the response whose total is positive |
| Report.BuildTableContents | ce2.py:103-113 | each row carries its service's positive total, its latest amount, its mean, its estimate `days_this_month() * mean` and its sample variance, which is "N/A" exactly when the service has fewer than 2 points |
| Report.BuildTableOrder | ce2.py:86-87 | rows are in non-increasing order of total with no service twice; for each total, the services appear in the order they first arrived |
| Report.BuildTableWidth | ce2.py:89 | the name column is as wide as the longest reported name |
| Report.RenderedRowsAligned | ce2.py:103-113 | every printed row starts with its full service name, and the double-bar separator follows at the name-column width |
| Report.Ec2AndS3Example | ce2.py:82-113 | EC2 at $10.00 and $12.50 and S3 at $0.00 twice in a 30-day month: only EC2 is reported, with total 22.50, mean 11.25, estimate 337.50, variance 3.125 and latest 12.50 |

## Left out

- The billing API client and both calls (`ce.get_cost_and_usage`,
  `ce.get_cost_forecast`) are network I/O. The grouping takes the result
  buckets as a parameter. The forecast answer is a parameter of
  `GetForecast`, and `ForecastPlan` states the query period.
- The outer `{"AmortizedCost": ...}` map of `get_month_to_date` has a single
  constant key, so the model is the inner per-service map.
- Parsing the amount strings and `round(float(...), 2)` use binary floating
  point and are not modelled. Amounts arrive as integer cents. The
  `sum(y) > 0.0` filter is modelled on exact integer totals.
- Stats.Mean: does not model `round(..., 2)` on the mean, because that
  rounding is binary floating point; the model keeps the exact mean.
- Stats.MonthlyEstimate: is `days * mean` on the exact mean, without either
  `round(..., 2)`, for the same reason.
- Stats.SampleVariance: is the exact sample variance, without
  `round(..., 2)`, for the same reason.
- `str()` of numbers is not modelled: `RenderRow` takes the number-to-text
  function as a parameter.
- `print` is not modelled, and neither are the fixed `"---------"` separator,
  the title lines or the three forecast lines. The header and row lines are
  modelled as strings.
- The capture of `now` by `datetime.datetime.now()` is replaced by an
  explicit `now` date parameter. Time of day plays no role.
- IsoDate.Format: pads the year to four digits as ISO 8601 requires. The C
  library behind `strftime("%Y")` does not always pad years below 1000, so
  the rendering of such years is not modelled.
- Python's `len` counts code points, and so does Dafny's `string` length. No
  Unicode normalisation or display width is modelled.
