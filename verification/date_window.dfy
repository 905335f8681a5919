/**
 The query windows of the report, all derived from one captured instant
 `now` (only its date matters). Python's `datetime` covers years 1 to 9999;
 arithmetic that leaves that range raises OverflowError in the script, which
 is modelled here as `None`.
 */
module DateWindow {
  import opened Wrappers
  import opened Calendar
  import IsoDate

  const MinYear := 1
  const MaxYear := 9999

  /** A date Python's `datetime` can hold. */
  predicate InRange(d: Date) {
    Valid(d) && MinYear <= d.year <= MaxYear
  }

  /** The result of datetime arithmetic: the date, or None for OverflowError. */
  function Checked(d: Date): (r: Option<Date>)
    requires Valid(d)
    ensures r.Some? <==> InRange(d)
    ensures r.Some? ==> r.value == d
  {
    if MinYear <= d.year <= MaxYear then Some(d) else None
  }

  /** A half-open range of days `[start, end)`, as sent in a `TimePeriod`. */
  datatype Window = Window(start: Date, end: Date)

  /** Both ends rendered as `YYYY-MM-DD`. */
  function WindowText(w: Window): (t: (string, string))
    requires InRange(w.start) && InRange(w.end)
    ensures IsoDate.Parse(t.0) == Some(w.start) && IsoDate.Parse(t.1) == Some(w.end)
  {
    IsoDate.ParseFormat(w.start);
    IsoDate.ParseFormat(w.end);
    (IsoDate.Format(w.start), IsoDate.Format(w.end))
  }

  /** `days_this_month()`: the length of `now`'s month. */
  function DaysThisMonth(now: Date): (n: int)
    requires InRange(now)
    ensures 28 <= n <= 31
    ensures now.month == 2 ==> n <= 29 && (n == 29 <==> IsLeapYear(now.year))
    ensures now.month != 2 ==> n >= 30 && (n == 30 <==> now.month in {4, 6, 9, 11})
    ensures now.day <= n
  {
    DaysInMonth(now.year, now.month)
  }

  /** `start_of_month_from_yesterday()`: the first day of yesterday's month. */
  function StartOfMonthFromYesterday(now: Date): (r: Option<Date>)
    requires InRange(now)
    ensures r.None? <==> now == Date(1, 1, 1)
    ensures r.Some? ==> InRange(r.value) && r.value.day == 1
    ensures r.Some? && now.day > 1 ==> r.value == Date(now.year, now.month, 1)
    ensures r.Some? && now.day == 1 && now.month > 1 ==> r.value == Date(now.year, now.month - 1, 1)
    ensures r.Some? && now.day == 1 && now.month == 1 ==> r.value == Date(now.year - 1, 12, 1)
    ensures r.Some? ==> Before(r.value, now)
  {
    match Checked(PrevDay(now))
    case None => None
    case Some(yesterday) => Some(FirstOfMonth(yesterday))
  }

  /** `tomorrow()`: the day after `now`. */
  function Tomorrow(now: Date): (r: Option<Date>)
    requires InRange(now)
    ensures r.None? <==> now == Date(MaxYear, 12, 31)
    ensures r.Some? ==> InRange(r.value) && Before(now, r.value)
    ensures r.Some? ==> (r.value.month == now.month <==> now.day < DaysThisMonth(now))
    ensures r.Some? ==> Ordinal(r.value) == Ordinal(now) + 1
  {
    NextDayOrdinal(now);
    Checked(NextDay(now))
  }

  /** `start_of_next_month()`: day 28 of `now`'s month plus four days,
      truncated to the first of the month it lands in. */
  function StartOfNextMonth(now: Date): (r: Option<Date>)
    requires InRange(now)
  {
    match Checked(AddDays(now.(day := 28), 4))
    case None => None
    case Some(probe) => Some(FirstOfMonth(probe))
  }

  /** The month after `m` of year `y`, as its first day. */
  function MonthAfter(y: int, m: int): (r: Date)
    requires 1 <= m <= 12
    ensures Valid(r) && r.day == 1
  {
    if m < 12 then Date(y, m + 1, 1) else Date(y + 1, 1, 1)
  }

  /** Day 28 plus four days lands in the next month, whatever the month's length. */
  lemma Day28PlusFour(d: Date)
    requires Valid(d)
    ensures AddDays(d.(day := 28), 4).year == MonthAfter(d.year, d.month).year
    ensures AddDays(d.(day := 28), 4).month == MonthAfter(d.year, d.month).month
    ensures 1 <= AddDays(d.(day := 28), 4).day <= 4
  {
    var p0 := d.(day := 28);
    var p1 := NextDay(p0);
    var p2 := NextDay(p1);
    var p3 := NextDay(p2);
    var p4 := NextDay(p3);
    assert AddDays(p3, 1) == p4;
    assert AddDays(p2, 2) == p4;
    assert AddDays(p1, 3) == p4;
  }

  /** `start_of_next_month()` is the first day of the following month; it
      overflows exactly in December 9999. */
  lemma StartOfNextMonthSpec(now: Date)
    requires InRange(now)
    ensures StartOfNextMonth(now).None? <==> now.year == MaxYear && now.month == 12
    ensures StartOfNextMonth(now).Some? ==>
              StartOfNextMonth(now).value == MonthAfter(now.year, now.month)
  {
    Day28PlusFour(now);
  }

  /** The month-to-date query period of `get_month_to_date`. */
  function MonthToDateWindow(now: Date): (r: Option<Window>)
    requires InRange(now)
    ensures r.None? <==> now == Date(1, 1, 1)
    ensures r.Some? ==> InRange(r.value.start) && r.value.end == now
    ensures r.Some? ==> Some(r.value.start) == StartOfMonthFromYesterday(now)
    ensures r.Some? ==> Before(r.value.start, r.value.end)
  {
    match StartOfMonthFromYesterday(now)
    case None => None
    case Some(start) => Some(Window(start, now))
  }

  /** The month-to-date period is never empty: it spans the days of this month
      before today, or the whole previous month when today is the first. */
  lemma MonthToDateLength(now: Date)
    requires InRange(now)
    requires MonthToDateWindow(now).Some?
    ensures var w := MonthToDateWindow(now).value;
            Before(w.start, w.end)
            && Ordinal(w.end) - Ordinal(w.start)
               == if now.day > 1 then now.day - 1
                  else if now.month > 1 then DaysInMonth(now.year, now.month - 1)
                  else 31
  {
    var w := MonthToDateWindow(now).value;
    if now.day == 1 {
      var y := PrevDay(now);
      PrevDayOrdinal(now);
      AddDaysOrdinal(w.start, y.day - 1);
      AddDaysFromFirst(w.start, y.day - 1);
      OrdinalInjective(AddDays(w.start, y.day - 1), y);
    }
  }

  /** Within a month, adding days only moves the day field. */
  lemma {:induction false} AddDaysFromFirst(d: Date, n: nat)
    requires Valid(d) && d.day + n <= DaysInMonth(d.year, d.month)
    ensures AddDays(d, n) == d.(day := d.day + n)
    decreases n
  {
    if n > 0 {
      AddDaysFromFirst(NextDay(d), n - 1);
    }
  }

  /** What `get_forecast` does before or instead of calling the API. */
  datatype ForecastStep = LastDayOfMonth | Query(window: Window)

  /** The guard of `get_forecast` and, when it passes, its query period. */
  function ForecastPlan(now: Date): (r: Option<ForecastStep>)
    requires InRange(now)
  {
    match Checked(NextDay(now))
    case None => None
    case Some(next) =>
      if next.month != now.month then Some(LastDayOfMonth)
      else
        match (Tomorrow(now), StartOfNextMonth(now))
        case (Some(t), Some(s)) => Some(Query(Window(t, s)))
        case _ => None
  }

  /** "Tomorrow is in another month" holds exactly on the last day of the month. */
  lemma LastDayGuard(now: Date)
    requires Valid(now)
    ensures NextDay(now).month != now.month <==> now.day == DaysInMonth(now.year, now.month)
  {
  }

  /** The forecast plan: overflow exactly in December 9999, no query exactly on
      the last day of a month, otherwise a non-empty period from tomorrow to
      the first of next month covering the days left in the month. */
  lemma ForecastPlanSpec(now: Date)
    requires InRange(now)
    ensures ForecastPlan(now).None? <==> now.year == MaxYear && now.month == 12
    ensures ForecastPlan(now) == Some(LastDayOfMonth)
            <==> now.day == DaysThisMonth(now) && !(now.year == MaxYear && now.month == 12)
    ensures ForecastPlan(now).Some? && ForecastPlan(now).value.Query? ==>
              var w := ForecastPlan(now).value.window;
              && w.start == NextDay(now)
              && w.end == MonthAfter(now.year, now.month)
              && Before(w.start, w.end)
              && Ordinal(w.end) - Ordinal(w.start) == DaysThisMonth(now) - now.day
  {
    StartOfNextMonthSpec(now);
    LastDayGuard(now);
    var plan := ForecastPlan(now);
    if plan.Some? && plan.value.Query? {
      var w := plan.value.window;
      var last := now.(day := DaysThisMonth(now));
      AddDaysFromFirst(w.start, DaysThisMonth(now) - now.day - 1);
      NextDayOrdinal(now);
      NextDayOrdinal(last);
      AddDaysOrdinal(w.start, DaysThisMonth(now) - now.day - 1);
      assert NextDay(last) == w.end;
    }
  }

  /** The forecast triple as the script returns it. */
  datatype Forecast = Forecast(mean: string, lower: string, upper: string)

  const NotAvailable := Forecast("N/A", "N/A", "N/A")

  /** `get_forecast()`, with `answer` standing for what the forecast API
      returns for the query period; None stands for OverflowError. */
  function GetForecast(now: Date, answer: Forecast): (r: Option<Forecast>)
    requires InRange(now)
    ensures r.None? <==> now.year == MaxYear && now.month == 12
    ensures r.Some? ==> (r.value == (if now.day == DaysThisMonth(now) then NotAvailable else answer))
  {
    ForecastPlanSpec(now);
    match ForecastPlan(now)
    case None => None
    case Some(LastDayOfMonth) => Some(NotAvailable)
    case Some(Query(_)) => Some(answer)
  }
}
