/**
 The proleptic Gregorian calendar as section 21.4.1 of ECMA-262 defines it: day numbers counted from
 1 January 1970, and the year, month and day they fall in.
 */
module Gregorian {

  const MS_PER_DAY: int := 86_400_000

  /** Month is 0 to 11 and day starts at 1, as in the Date methods. */
  datatype Civil = Civil(year: int, month: int, day: int)

  predicate IsLeap(y: int) {
    y % 4 == 0 && (y % 100 != 0 || y % 400 == 0)
  }

  function DaysInYear(y: int): int {
    if IsLeap(y) then 366 else 365
  }

  /** The day number of 1 January of a year. */
  function DayFromYear(y: int): int {
    365 * (y - 1970) + (y - 1969) / 4 - (y - 1901) / 100 + (y - 1601) / 400
  }

  function DaysInMonth(y: int, m: int): int
    requires 0 <= m < 12
  {
    if m == 1 then if IsLeap(y) then 29 else 28
    else if m == 3 || m == 5 || m == 8 || m == 10 then 30
    else 31
  }

  /** Days of the year before a month; month 12 is the end of the year. */
  function MonthStart(y: int, m: int): int
    requires 0 <= m <= 12
    decreases m
  {
    if m == 0 then 0 else MonthStart(y, m - 1) + DaysInMonth(y, m - 1)
  }

  predicate IsDate(c: Civil) {
    0 <= c.month < 12 && 1 <= c.day <= DaysInMonth(c.year, c.month)
  }

  /** MakeDay: months outside a year carry over, and so do days outside a month. */
  function MakeDay(year: int, month: int, day: int): int {
    DayFromYear(year + month / 12) + MonthStart(year + month / 12, month % 12) + day - 1
  }

  function DayNumber(c: Civil): int {
    MakeDay(c.year, c.month, c.day)
  }

  // ----- years --------------------------------------------------------------------------------

  lemma YearStep(y: int)
    ensures DayFromYear(y + 1) == DayFromYear(y) + DaysInYear(y)
  {
    FloorStep(y - 1969, 4);
    FloorStep(y - 1901, 100);
    FloorStep(y - 1601, 400);
  }

  lemma FloorStep(n: int, k: int)
    requires k > 0
    ensures (n + 1) / k == n / k + (if (n + 1) % k == 0 then 1 else 0)
  {
    var q, r := n / k, n % k;
    assert n == k * q + r;
    if r == k - 1 {
      Quotient(n + 1, k, q + 1, 0);
    } else {
      Quotient(n + 1, k, q, r + 1);
    }
  }

  lemma Quotient(n: int, k: int, q: int, r: int)
    requires k > 0 && n == k * q + r && 0 <= r < k
    ensures n / k == q && n % k == r
  {
    var d := n / k - q;
    assert n == k * (n / k) + n % k;
    assert k * d == r - n % k;
    if d >= 1 { assert k * d == k + k * (d - 1); NotNegative(k, d - 1); }
    if d <= -1 { assert k * d == -k - k * (-1 - d); NotNegative(k, -1 - d); }
  }

  lemma NotNegative(k: int, d: int)
    requires k > 0 && d >= 0
    ensures k * d >= 0
  {
  }

  lemma {:induction false} YearsGrow(y: int, z: int)
    requires y < z
    ensures DayFromYear(y) + DaysInYear(y) <= DayFromYear(z)
    decreases z - y
  {
    YearStep(y);
    if y + 1 < z { YearsGrow(y + 1, z); }
  }

  /** Looking upwards and downwards for the year that holds a day. */
  function YearUp(day: int, y: int): (r: int)
    requires DayFromYear(y) <= day
    ensures DayFromYear(r) <= day < DayFromYear(r + 1)
    decreases day - DayFromYear(y)
  {
    YearStep(y);
    if DayFromYear(y + 1) <= day then YearUp(day, y + 1) else y
  }

  function YearDown(day: int, y: int): (r: int)
    requires day < DayFromYear(y)
    ensures DayFromYear(r) <= day < DayFromYear(r + 1)
    decreases DayFromYear(y) - day
  {
    YearStep(y - 1);
    if DayFromYear(y - 1) <= day then y - 1 else YearDown(day, y - 1)
  }

  /** YearFromTime: the year whose days include this one. */
  function YearOf(day: int): (y: int)
    ensures DayFromYear(y) <= day < DayFromYear(y + 1)
  {
    if DayFromYear(1970) <= day then YearUp(day, 1970) else YearDown(day, 1970)
  }

  lemma YearIsUnique(day: int, y: int)
    requires DayFromYear(y) <= day < DayFromYear(y + 1)
    ensures YearOf(day) == y
  {
    hide DayFromYear, DaysInYear;
    var z := YearOf(day);
    YearStep(y);
    YearStep(z);
    if z < y { YearsGrow(z, y); }
    if y < z { YearsGrow(y, z); }
  }

  // ----- months -------------------------------------------------------------------------------

  lemma MonthStarts(y: int)
    ensures MonthStart(y, 0) == 0 && MonthStart(y, 1) == 31
    ensures var feb := DaysInMonth(y, 1); var leap := feb - 28;
      && MonthStart(y, 2) == 59 + leap && MonthStart(y, 3) == 90 + leap && MonthStart(y, 4) == 120 + leap
      && MonthStart(y, 5) == 151 + leap && MonthStart(y, 6) == 181 + leap && MonthStart(y, 7) == 212 + leap
      && MonthStart(y, 8) == 243 + leap && MonthStart(y, 9) == 273 + leap && MonthStart(y, 10) == 304 + leap
      && MonthStart(y, 11) == 334 + leap && MonthStart(y, 12) == 365 + leap
  {
  }

  /** Twelve months make the year. */
  lemma MonthsFillYear(y: int)
    ensures MonthStart(y, 12) == DaysInYear(y)
  {
    MonthStarts(y);
  }

  lemma {:induction false} MonthsGrow(y: int, m: int, n: int)
    requires 0 <= m < n <= 12
    ensures MonthStart(y, m) + DaysInMonth(y, m) <= MonthStart(y, n)
    decreases n
  {
    if m < n - 1 { MonthsGrow(y, m, n - 1); }
  }

  /** The month, from m on, that holds day d of a year. */
  function MonthFrom(y: int, d: int, m: int): (r: int)
    requires 0 <= m < 12 && MonthStart(y, m) <= d < MonthStart(y, 12)
    ensures 0 <= r < 12 && MonthStart(y, r) <= d < MonthStart(y, r + 1)
    decreases 12 - m
  {
    if d < MonthStart(y, m + 1) then m else MonthFrom(y, d, m + 1)
  }

  lemma MonthIsUnique(y: int, d: int, m: int)
    requires 0 <= m < 12 && MonthStart(y, m) <= d < MonthStart(y, m + 1) && d < MonthStart(y, 12)
    ensures MonthStart(y, 0) <= d && MonthFrom(y, d, 0) == m
  {
    assert MonthStart(y, 0) == 0;
    if m > 0 { MonthsGrow(y, 0, m); }
    var n := MonthFrom(y, d, 0);
    if n < m { MonthsGrow(y, n, m); }
    if m < n { MonthsGrow(y, m, n); }
  }

  // ----- dates and day numbers ----------------------------------------------------------------

  /** The date a day number stands for. */
  function CivilOf(day: int): (c: Civil)
    ensures IsDate(c) && c.year == YearOf(day)
  {
    var y := YearOf(day);
    YearStep(y);
    MonthsFillYear(y);
    var d := day - DayFromYear(y);
    var m := MonthFrom(y, d, 0);
    Civil(y, m, d - MonthStart(y, m) + 1)
  }

  lemma DayNumberOf(c: Civil)
    requires 0 <= c.month < 12
    ensures DayNumber(c) == DayFromYear(c.year) + MonthStart(c.year, c.month) + c.day - 1
  {
    hide DayFromYear, MonthStart;
  }

  /** Dates and day numbers are in one-to-one correspondence. */
  lemma CivilRoundTrip(day: int)
    ensures DayNumber(CivilOf(day)) == day
  {
    DayNumberOf(CivilOf(day));
  }

  lemma DayRoundTrip(c: Civil)
    requires IsDate(c)
    ensures CivilOf(DayNumber(c)) == c
  {
    hide DayFromYear, MonthFrom, YearOf, MakeDay, IsLeap;
    var day := DayNumber(c);
    DayNumberOf(c);
    YearStep(c.year);
    MonthsFillYear(c.year);
    MonthsGrow(c.year, c.month, 12);
    if c.month > 0 { MonthsGrow(c.year, 0, c.month); }
    YearIsUnique(day, c.year);
    MonthIsUnique(c.year, day - DayFromYear(c.year), c.month);
  }

  predicate Before(a: Civil, b: Civil) {
    a.year < b.year || (a.year == b.year && (a.month < b.month || (a.month == b.month && a.day < b.day)))
  }

  /** Calendar order is the order of day numbers. */
  lemma OrderOfDays(a: Civil, b: Civil)
    requires IsDate(a) && IsDate(b)
    ensures Before(a, b) <==> DayNumber(a) < DayNumber(b)
  {
    if Before(a, b) { EarlierDay(a, b); }
    if Before(b, a) { EarlierDay(b, a); }
  }

  lemma EarlierDay(a: Civil, b: Civil)
    requires IsDate(a) && IsDate(b) && Before(a, b)
    ensures DayNumber(a) < DayNumber(b)
  {
    hide DayFromYear, IsLeap;
    DayNumberOf(a);
    DayNumberOf(b);
    if a.year < b.year {
      YearsGrow(a.year, b.year);
      MonthsFillYear(a.year);
      MonthsGrow(a.year, a.month, 12);
      if b.month > 0 { MonthsGrow(b.year, 0, b.month); }
    } else if a.month < b.month {
      MonthsGrow(a.year, a.month, b.month);
    }
  }

  /** Month m + k of a year, wherever it falls, begins where the months before it end. */
  lemma NextMonth(y: int, m: int)
    requires 0 <= m < 12
    ensures MakeDay(y, m + 1, 1) == MakeDay(y, m, 1) + DaysInMonth(y, m)
  {
    hide DayFromYear, IsLeap;
    if m == 11 {
      YearStep(y);
      MonthsFillYear(y);
    }
  }
}
