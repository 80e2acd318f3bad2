/**
 Billing periods on the Gregorian calendar (apps/worker/src/renewal/renewal-calendar.ts).

 A Date is its time value: milliseconds since 1 January 1970, UTC.
 */
module BillingPeriods {
  import opened Gregorian

  datatype Period = Monthly | Quarterly | Annual

  function Months(period: Period): (k: nat)
    ensures 1 <= k <= 12
  {
    match period
    case Monthly => 1
    case Quarterly => 3
    case Annual => 12
  }

  function Day(t: int): int {
    t / MS_PER_DAY
  }

  function TimeInDay(t: int): int {
    t % MS_PER_DAY
  }

  /** What getUTCFullYear, getUTCMonth and getUTCDate read. */
  function DateOf(t: int): (c: Civil)
    ensures IsDate(c)
  {
    CivilOf(Day(t))
  }

  /** Date.UTC takes the years 0 to 99 for 1900 to 1999. */
  function UtcYear(year: int): int {
    if 0 <= year <= 99 then 1900 + year else year
  }

  function Utc(year: int, month: int, day: int, hours: int, minutes: int, seconds: int, milliseconds: int): int {
    MakeDay(UtcYear(year), month, day) * MS_PER_DAY
    + hours * 3_600_000 + minutes * 60_000 + seconds * 1_000 + milliseconds
  }

  function Least(a: int, b: int): int {
    if a < b then a else b
  }

  /** The same time of day in another month, on the same day or the last one there is. */
  function InMonth(t: int, year: int, month: int): int {
    var lastDay := DateOf(Utc(year, month + 1, 0, 0, 0, 0, 0)).day;
    Utc(year, month, Least(DateOf(t).day, lastDay),
        t / 3_600_000 % 24, t / 60_000 % 60, t / 1_000 % 60, t % 1_000)
  }

  function AddMonths(t: int, k: nat): int {
    var targetMonth := DateOf(t).month + k;
    InMonth(t, DateOf(t).year + targetMonth / 12, (targetMonth % 12 + 12) % 12)
  }

  function AddBillingPeriod(t: int, period: Period): int {
    AddMonths(t, Months(period))
  }

  // ----- the target month ---------------------------------------------------------------------

  /** Months counted through the years. */
  function MonthIndex(c: Civil): int {
    12 * c.year + c.month
  }

  function Length(index: int): (days: int)
    ensures 28 <= days <= 31
  {
    DaysInMonth(index / 12, index % 12)
  }

  /** The day in a month that stands for a day of another month. */
  function Clamped(index: int, day: int): Civil {
    Civil(index / 12, index % 12, Least(day, Length(index)))
  }

  lemma HoursMinutesSeconds(t: int)
    ensures t / 3_600_000 % 24 * 3_600_000 + t / 60_000 % 60 * 60_000 + t / 1_000 % 60 * 1_000 + t % 1_000
         == TimeInDay(t)
  {
    var s, m, h := t / 1_000, t / 60_000, t / 3_600_000;
    assert s / 60 == m && m / 60 == h && h / 24 == Day(t);
    assert t == 1_000 * s + t % 1_000;
    assert s == 60 * m + s % 60;
    assert m == 60 * h + m % 60;
    assert h == 24 * Day(t) + h % 24;
  }

  lemma DayAndTime(day: int, time: int)
    requires 0 <= time < MS_PER_DAY
    ensures Day(day * MS_PER_DAY + time) == day && TimeInDay(day * MS_PER_DAY + time) == time
  {
  }

  /** Day 0 of the next month is the last day of this one. */
  lemma LastDayOfMonth(y: int, m: int)
    requires 0 <= m < 12
    ensures CivilOf(MakeDay(y, m + 1, 0)) == Civil(y, m, DaysInMonth(y, m))
  {
    hide DayFromYear, MonthStart, CivilOf;
    NextMonth(y, m);
    var last := Civil(y, m, DaysInMonth(y, m));
    ShiftDays(y, m, 1, last.day);
    ShiftDays(y, m + 1, 0, 1);
    assert DayNumber(last) == MakeDay(y, m + 1, 0);
    DayRoundTrip(last);
  }

  lemma ShiftDays(y: int, m: int, d: int, e: int)
    ensures MakeDay(y, m, e) == MakeDay(y, m, d) + e - d
  {
  }

  lemma CarriedMonth(y: int, m: int, k: nat)
    requires 0 <= m < 12
    ensures (12 * y + m + k) / 12 == y + (m + k) / 12 && (12 * y + m + k) % 12 == (m + k) % 12
    ensures ((m + k) % 12 + 12) % 12 == (m + k) % 12
  {
  }

  lemma Midnight(y: int, m: int, d: int)
    ensures Day(Utc(y, m, d, 0, 0, 0, 0)) == MakeDay(UtcYear(y), m, d)
  {
  }

  /** Date.UTC with a date and the time of day of another moment. */
  lemma MomentOf(date: Civil, t: int)
    requires IsDate(date)
    ensures var moment := DayNumber(date) * MS_PER_DAY + TimeInDay(t);
      DateOf(moment) == date && Day(moment) == DayNumber(date) && TimeInDay(moment) == TimeInDay(t)
  {
    hide MakeDay, CivilOf, IsDate;
    DayAndTime(DayNumber(date), TimeInDay(t));
    DayRoundTrip(date);
  }

  lemma LastDayRead(year: int, month: int)
    requires 0 <= month < 12
    ensures DateOf(Utc(year, month + 1, 0, 0, 0, 0, 0)).day == DaysInMonth(UtcYear(year), month)
  {
    hide MakeDay, CivilOf, DaysInMonth, Utc, UtcYear;
    Midnight(year, month + 1, 0);
    LastDayOfMonth(UtcYear(year), month);
  }

  lemma ClockKept(year: int, month: int, day: int, t: int)
    ensures Utc(year, month, day, t / 3_600_000 % 24, t / 60_000 % 60, t / 1_000 % 60, t % 1_000)
         == MakeDay(UtcYear(year), month, day) * MS_PER_DAY + TimeInDay(t)
  {
    hide MakeDay, UtcYear;
    HoursMinutesSeconds(t);
  }

  /** The date AddMonths computes, before it is told which month index that is. */
  function Landing(c: Civil, k: nat): Civil
    requires 0 <= c.month < 12
  {
    var year, month := UtcYear(c.year + (c.month + k) / 12), (c.month + k) % 12;
    Civil(year, month, Least(c.day, DaysInMonth(year, month)))
  }

  lemma InMonthLands(t: int, year: int, month: int)
    requires 0 <= month < 12
    ensures InMonth(t, year, month)
         == MakeDay(UtcYear(year), month, Least(DateOf(t).day, DaysInMonth(UtcYear(year), month))) * MS_PER_DAY
            + TimeInDay(t)
  {
    hide MakeDay, CivilOf, DaysInMonth, Utc, UtcYear, Least, TimeInDay, DateOf;
    LastDayRead(year, month);
    ClockKept(year, month, Least(DateOf(t).day, DaysInMonth(UtcYear(year), month)), t);
  }

  lemma AddMonthsLands(t: int, k: nat)
    ensures AddMonths(t, k) == DayNumber(Landing(DateOf(t), k)) * MS_PER_DAY + TimeInDay(t)
  {
    hide MakeDay, CivilOf, DaysInMonth, UtcYear, Least, TimeInDay, InMonth;
    var c := DateOf(t);
    CarriedMonth(c.year, c.month, k);
    InMonthLands(t, c.year + (c.month + k) / 12, (c.month + k) % 12);
  }

  lemma LandingIsDate(c: Civil, k: nat)
    requires IsDate(c)
    ensures IsDate(Landing(c, k))
  {
  }

  lemma LandingMonth(c: Civil, k: nat)
    requires 0 <= c.month < 12
    ensures var index := MonthIndex(c) + k;
      Landing(c, k) == Clamped(12 * UtcYear(index / 12) + index % 12, c.day)
  {
    hide DaysInMonth, UtcYear;
    CarriedMonth(c.year, c.month, k);
    CarriedMonth(UtcYear((MonthIndex(c) + k) / 12), (c.month + k) % 12, 0);
  }

  lemma LandsOn(t: int, k: nat)
    ensures DateOf(AddMonths(t, k)) == Landing(DateOf(t), k)
    ensures Day(AddMonths(t, k)) == DayNumber(Landing(DateOf(t), k))
    ensures TimeInDay(AddMonths(t, k)) == TimeInDay(t)
  {
    hide MakeDay, CivilOf, AddMonths, Landing, TimeInDay, Day, DaysInMonth;
    AddMonthsLands(t, k);
    LandingIsDate(DateOf(t), k);
    MomentOf(Landing(DateOf(t), k), t);
  }

  /**
   A period moves a date to the month it names, on the same day or on the last one there is, and keeps
   the time of day, exactly when the target year is not one of the hundred that Date.UTC moves to the
   twentieth century.
   */
  lemma AddBillingPeriodMeaning(t: int, period: Period)
    ensures var index := MonthIndex(DateOf(t)) + Months(period);
      && TimeInDay(AddBillingPeriod(t, period)) == TimeInDay(t)
      && (DateOf(AddBillingPeriod(t, period)) == Clamped(index, DateOf(t).day) <==> !(0 <= index / 12 <= 99))
  {
    hide AddMonths, CivilOf, DaysInMonth, Landing, Length, DateOf, UtcYear, MonthIndex;
    LandsOn(t, Months(period));
    LandingMonth(DateOf(t), Months(period));
    SameCentury(MonthIndex(DateOf(t)) + Months(period));
  }

  lemma SameCentury(index: int)
    ensures 12 * UtcYear(index / 12) + index % 12 == index <==> !(0 <= index / 12 <= 99)
    ensures var other := 12 * UtcYear(index / 12) + index % 12; other != index ==> other / 12 != index / 12
  {
  }

  // ----- how long a period is -----------------------------------------------------------------

  /** The first day of a month, numbered. */
  function FirstDay(index: int): int {
    MakeDay(index / 12, index % 12, 1)
  }

  lemma MonthFollows(index: int)
    ensures FirstDay(index + 1) == FirstDay(index) + Length(index)
  {
    hide DayFromYear, MonthStart, IsLeap;
    NextMonth(index / 12, index % 12);
  }

  lemma {:induction false} MonthsFollow(index: int, k: nat)
    ensures FirstDay(index) + 28 * k <= FirstDay(index + k)
    decreases k
  {
    hide MakeDay;
    if k > 0 {
      MonthsFollow(index, k - 1);
      MonthFollows(index + k - 1);
    }
  }

  lemma DayInMonth(c: Civil)
    requires IsDate(c)
    ensures DayNumber(c) == FirstDay(MonthIndex(c)) + c.day - 1
    ensures 1 <= c.day <= Length(MonthIndex(c))
  {
    hide DayFromYear, MonthStart, DaysInMonth, MakeDay;
    CarriedMonth(c.year, c.month, 0);
    ShiftDays(c.year, c.month, 1, c.day);
  }

  lemma ClampedDay(index: int, day: int)
    requires day >= 1
    ensures IsDate(Clamped(index, day)) && MonthIndex(Clamped(index, day)) == index
    ensures DayNumber(Clamped(index, day)) == FirstDay(index) + Least(day, Length(index)) - 1
  {
  }

  lemma LaterMonth(c: Civil, k: nat)
    requires c.year >= 100 && 0 <= c.month < 12
    ensures var index := MonthIndex(c) + k;
      index / 12 >= c.year && 12 * UtcYear(index / 12) + index % 12 == index
  {
  }

  /** From year 100 on, k months later is a day number in the month with the k-th index after this one. */
  lemma MonthsLater(t: int, k: nat)
    requires DateOf(t).year >= 100
    ensures var c := DateOf(t); var r := AddMonths(t, k);
      && MonthIndex(DateOf(r)) == MonthIndex(c) + k
      && DateOf(r).day == Least(c.day, Length(MonthIndex(c) + k))
      && Day(r) == FirstDay(MonthIndex(c) + k) + DateOf(r).day - 1
      && TimeInDay(r) == TimeInDay(t)
      && DateOf(r).year >= c.year
  {
    hide MakeDay, CivilOf, DaysInMonth, AddMonths, Landing, FirstDay, Day, TimeInDay, DateOf, UtcYear, MonthIndex, Length;
    var c := DateOf(t);
    LandsOn(t, k);
    LandingMonth(c, k);
    LaterMonth(c, k);
    ClampedDay(MonthIndex(c) + k, c.day);
  }

  lemma DayOfMonth(t: int)
    ensures var c := DateOf(t);
      && Day(t) == FirstDay(MonthIndex(c)) + c.day - 1
      && 1 <= c.day <= Length(MonthIndex(c))
  {
    hide MakeDay, CivilOf, DaysInMonth, FirstDay, Length, Day, MonthIndex;
    CivilRoundTrip(Day(t));
    DayInMonth(DateOf(t));
  }

  // ----- the span of a period -----------------------------------------------------------------

  /** Days from the first of a month to the first of the one k later, for the three periods. */
  lemma MonthsAhead(index: int)
    ensures FirstDay(index + 1) - FirstDay(index) == Length(index)
    ensures FirstDay(index + 3) - FirstDay(index) == Length(index) + Length(index + 1) + Length(index + 2)
  {
    hide FirstDay, Length;
    MonthFollows(index);
    MonthFollows(index + 1);
    MonthFollows(index + 2);
  }

  lemma YearAhead(index: int)
    ensures var leapDay := if index % 12 <= 1 then IsLeap(index / 12) else IsLeap(index / 12 + 1);
      FirstDay(index + 12) - FirstDay(index) == if leapDay then 366 else 365
  {
    hide DayFromYear, IsLeap;
    var y, m := index / 12, index % 12;
    YearStep(y);
    MonthStarts(y);
    MonthStarts(y + 1);
  }

  lemma ThreeMonths(index: int)
    ensures var total := Length(index) + Length(index + 1) + Length(index + 2);
      89 <= total <= 92 && 89 <= total - Length(index) + Length(index + 3)
  {
    hide IsLeap;
  }

  /** The one day a year's step can cost, from 29 February to the 28th, is the leap day passed on the way. */
  lemma AnnualClamp(index: int)
    ensures Length(index + 12) < Length(index) ==>
      Length(index + 12) == Length(index) - 1 && index % 12 == 1 && IsLeap(index / 12)
  {
  }

  function MonthSpan(period: Period): (int, int) {
    match period
    case Monthly => (28, 31)
    case Quarterly => (89, 92)
    case Annual => (365, 366)
  }

  /** A period takes 28 to 31, 89 to 92 or 365 to 366 days, and not a millisecond more or less. */
  lemma PeriodSpan(t: int, period: Period)
    requires DateOf(t).year >= 100
    ensures var days := Day(AddBillingPeriod(t, period)) - Day(t);
      && AddBillingPeriod(t, period) == t + days * MS_PER_DAY
      && MonthSpan(period).0 <= days <= MonthSpan(period).1
      && t < AddBillingPeriod(t, period)
  {
    hide MakeDay, CivilOf, DateOf, AddMonths, Length, FirstDay, MonthIndex, IsLeap;
    var index := MonthIndex(DateOf(t));
    DayOfMonth(t);
    MonthsLater(t, Months(period));
    MonthsAhead(index);
    ThreeMonths(index);
    YearAhead(index);
    AnnualClamp(index);
  }

  // ----- one period against several -----------------------------------------------------------

  /**
   Two steps end in the month one step does and never later.  They end together exactly when the month
   between is long enough for the day the single step ends on.
   */
  lemma SplitPeriods(t: int, a: nat, b: nat)
    requires DateOf(t).year >= 100
    ensures AddMonths(AddMonths(t, a), b) <= AddMonths(t, a + b)
    ensures AddMonths(AddMonths(t, a), b) == AddMonths(t, a + b) <==>
      DateOf(AddMonths(t, a + b)).day <= Length(MonthIndex(DateOf(t)) + a)
  {
    hide MakeDay, CivilOf, DateOf, AddMonths, Length, FirstDay, MonthIndex;
    MonthsLater(t, a);
    MonthsLater(AddMonths(t, a), b);
    MonthsLater(t, a + b);
  }

  // ----- order --------------------------------------------------------------------------------

  lemma MonthsApart(i: int, j: int)
    requires i < j
    ensures FirstDay(i) + Length(i) <= FirstDay(j)
  {
    hide FirstDay, Length;
    MonthFollows(i);
    MonthsFollow(i + 1, j - i - 1);
  }

  lemma EarlierMonth(t: int, u: int)
    requires t <= u
    ensures MonthIndex(DateOf(t)) <= MonthIndex(DateOf(u))
    ensures DateOf(u).year >= DateOf(t).year
  {
    hide DateOf, FirstDay, Length;
    DayOfMonth(t);
    DayOfMonth(u);
    if MonthIndex(DateOf(u)) < MonthIndex(DateOf(t)) { MonthsApart(MonthIndex(DateOf(u)), MonthIndex(DateOf(t))); }
  }

  lemma ByDayThenTime(t: int, u: int)
    ensures t <= u <==> Day(t) < Day(u) || (Day(t) == Day(u) && TimeInDay(t) <= TimeInDay(u))
  {
  }

  /**
   Adding keeps the order of two moments except when both fall past the end of the target month and the
   earlier one has the later time of day.
   */
  lemma AddingIsMonotone(t: int, u: int, k: nat)
    requires DateOf(t).year >= 100 && t <= u
    ensures var index := MonthIndex(DateOf(t));
      AddMonths(t, k) <= AddMonths(u, k) <==>
      !(index == MonthIndex(DateOf(u)) && Length(index + k) <= DateOf(t).day && Length(index + k) <= DateOf(u).day
        && TimeInDay(u) < TimeInDay(t))
  {
    hide DateOf, FirstDay, Length, MonthIndex, AddMonths, Day, TimeInDay;
    EarlierMonth(t, u);
    DayOfMonth(t);
    DayOfMonth(u);
    MonthsLater(t, k);
    MonthsLater(u, k);
    ByDayThenTime(t, u);
    ByDayThenTime(AddMonths(t, k), AddMonths(u, k));
    var i, j := MonthIndex(DateOf(t)), MonthIndex(DateOf(u));
    if i < j { MonthsApart(i + k, j + k); }
  }

  /** Paying for a list of periods one after another. */
  function Renewed(t: int, periods: seq<Period>): int {
    if periods == [] then t
    else AddBillingPeriod(Renewed(t, periods[..|periods| - 1]), periods[|periods| - 1])
  }

  function TotalMonths(periods: seq<Period>): nat {
    if periods == [] then 0 else TotalMonths(periods[..|periods| - 1]) + Months(periods[|periods| - 1])
  }

  /** Any renewals together end in the month one step of their total length ends in, and never later. */
  lemma {:induction false} RenewalsNeverPass(t: int, periods: seq<Period>)
    requires DateOf(t).year >= 100
    ensures DateOf(Renewed(t, periods)).year >= 100
    ensures MonthIndex(DateOf(Renewed(t, periods))) == MonthIndex(DateOf(t)) + TotalMonths(periods)
    ensures TimeInDay(Renewed(t, periods)) == TimeInDay(t)
    ensures Renewed(t, periods) <= AddMonths(t, TotalMonths(periods))
  {
    hide DateOf, AddMonths, MonthIndex, TimeInDay, Months;
    MonthsLater(t, TotalMonths(periods));
    if periods == [] {
      SameMoment(t);
    } else {
      var front, k := periods[..|periods| - 1], Months(periods[|periods| - 1]);
      RenewalsNeverPass(t, front);
      MonthsLater(Renewed(t, front), k);
      MonthsLater(t, TotalMonths(front));
      AddingIsMonotone(Renewed(t, front), AddMonths(t, TotalMonths(front)), k);
      SplitPeriods(t, TotalMonths(front), k);
    }
  }

  lemma SameMoment(t: int)
    requires DateOf(t).year >= 100
    ensures AddMonths(t, 0) == t
  {
    hide DateOf, FirstDay, Length, MonthIndex, AddMonths, Day, TimeInDay;
    DayOfMonth(t);
    MonthsLater(t, 0);
    ByDayThenTime(t, AddMonths(t, 0));
    ByDayThenTime(AddMonths(t, 0), t);
  }
}
