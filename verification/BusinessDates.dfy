/**
 Business dates: days of a time zone written YYYY-MM-DD, the arithmetic on them, and the database
 filters that fetch candidates for the exact date tests (apps/worker/src/renewal/renewal-calendar.ts,
 renewal-processor.service.ts and notifications/notification-projection.service.ts).

 A time zone is a function from a moment to the offset in force then, in milliseconds.
 */
module BusinessDates {
  import opened CodeUnits
  import opened Gregorian
  import opened BillingPeriods
  import Sorting

  /** The largest day number a Date can hold: 8.64e15 milliseconds. */
  const MAX_DAY: int := 100_000_000

  datatype Outcome = Ok(text: Text) | DateInvalid | RangeError

  type Zone = int -> int

  // ----- dates as text ------------------------------------------------------------------------

  function Two(n: int): (t: Text)
    requires 0 <= n < 100
    ensures |t| == 2
  {
    [ZERO + n / 10, ZERO + n % 10]
  }

  function Four(n: int): (t: Text)
    requires 0 <= n < 10_000
    ensures |t| == 4
  {
    Two(n / 100) + Two(n % 100)
  }

  function MonthAndDay(c: Civil): (t: Text)
    requires IsDate(c)
    ensures |t| == 6
  {
    [MINUS] + Two(c.month + 1) + [MINUS] + Two(c.day)
  }

  predicate FourDigitYear(c: Civil) {
    IsDate(c) && 0 <= c.year <= 9999
  }

  function DateText(c: Civil): (t: Text)
    requires FourDigitYear(c)
    ensures |t| == 10
  {
    Four(c.year) + MonthAndDay(c)
  }

  /** The date part of toISOString: other years take a sign and six digits. */
  function IsoDate(c: Civil): (t: Text)
    requires IsDate(c) && -1_000_000 < c.year < 1_000_000
    ensures |t| >= 10
  {
    if 0 <= c.year <= 9999 then DateText(c)
    else if c.year > 0 then [PLUS] + Two(c.year / 10_000) + Four(c.year % 10_000) + MonthAndDay(c)
    else [MINUS] + Two((0 - c.year) / 10_000) + Four((0 - c.year) % 10_000) + MonthAndDay(c)
  }

  function Number2(t: Text): int
    requires |t| == 2
  {
    10 * (t[0] - ZERO) + (t[1] - ZERO)
  }

  predicate LooksLikeDate(t: Text) {
    && |t| == 10 && t[4] == MINUS && t[7] == MINUS
    && AllDigits(t[..4]) && AllDigits(t[5..7]) && AllDigits(t[8..])
  }

  lemma SixDigitYears(day: int)
    requires -MAX_DAY <= day <= MAX_DAY
    ensures -1_000_000 < CivilOf(day).year < 1_000_000
  {
    hide DayFromYear, CivilOf;
    assert DayFromYear(1_000_000) > MAX_DAY && DayFromYear(-1_000_000) < -MAX_DAY - 366 by { FarYears(); }
    var y := YearOf(day);
    YearStep(y);
    if y >= 1_000_000 { if y > 1_000_000 { YearsGrow(1_000_000, y); } }
    if y <= -1_000_000 { if y < -1_000_000 { YearsGrow(y, -1_000_000); } }
  }

  lemma FarYears()
    ensures DayFromYear(1_000_000) > MAX_DAY && DayFromYear(-1_000_000) < -MAX_DAY - 366
  {
  }

  function AddBusinessDays(date: Text, days: int): Outcome {
    if !LooksLikeDate(date) then DateInvalid
    else
      var year := 100 * Number2(date[..2]) + Number2(date[2..4]);
      var day := MakeDay(UtcYear(year), Number2(date[5..7]) - 1, Number2(date[8..]) + days);
      if day < -MAX_DAY || MAX_DAY < day then RangeError
      else
        SixDigitYears(day);
        Ok(IsoDate(CivilOf(day))[..10])
  }

  /** String comparison, as `left >= right` does it. */
  predicate IsOnOrAfter(left: Text, right: Text) {
    !Sorting.TextLess(left, right)
  }

  // ----- text and calendar --------------------------------------------------------------------

  lemma TwoReads(n: int)
    requires 0 <= n < 100
    ensures AllDigits(Two(n)) && Number2(Two(n)) == n
  {
  }

  lemma DateTextParts(c: Civil)
    requires FourDigitYear(c)
    ensures var t := DateText(c);
      && t[..2] == Two(c.year / 100) && t[2..4] == Two(c.year % 100) && t[..4] == Four(c.year)
      && t[4] == MINUS && t[5..7] == Two(c.month + 1) && t[7] == MINUS && t[8..] == Two(c.day)
  {
    hide Two, DaysInMonth;
  }

  lemma DateTextReads(c: Civil)
    requires FourDigitYear(c)
    ensures LooksLikeDate(DateText(c))
    ensures var t := DateText(c);
      && 100 * Number2(t[..2]) + Number2(t[2..4]) == c.year
      && Number2(t[5..7]) == c.month + 1 && Number2(t[8..]) == c.day
  {
    hide Two, IsLeap, Number2, DateText;
    DateTextParts(c);
    TwoReads(c.year / 100);
    TwoReads(c.year % 100);
    TwoReads(c.month + 1);
    TwoReads(c.day);
  }

  /** Days whose date has a four-digit year, and the text of that date. */
  predicate Writable(day: int) {
    0 <= CivilOf(day).year <= 9999
  }

  function DayText(day: int): (t: Text)
    requires Writable(day)
  {
    DateText(CivilOf(day))
  }

  /** For the dates of the years 100 to 9999 the sum is the date that many days away. */
  lemma AddBusinessDaysShifts(day: int, days: int)
    requires Writable(day) && CivilOf(day).year >= 100 && Writable(day + days)
    ensures AddBusinessDays(DayText(day), days) == Ok(DayText(day + days))
  {
    hide DateText, MakeDay, CivilOf, IsLeap, Number2, LooksLikeDate, Two, Four, DaysInMonth, DayFromYear, YearOf, MonthAndDay;
    var c := CivilOf(day);
    DateTextReads(c);
    CivilRoundTrip(day);
    ShiftDays(c.year, c.month, c.day, c.day + days);
    NearDays(CivilOf(day + days));
    CivilRoundTrip(day + days);
  }

  lemma NearDays(c: Civil)
    requires FourDigitYear(c)
    ensures -MAX_DAY <= DayNumber(c) <= MAX_DAY
  {
    hide DayFromYear;
    assert DayFromYear(10_000) < MAX_DAY && DayFromYear(0) > -MAX_DAY by { FourDigitBounds(); }
    DayNumberOf(c);
    YearStep(c.year);
    MonthsFillYear(c.year);
    MonthsGrow(c.year, c.month, 12);
    if c.month > 0 { MonthsGrow(c.year, 0, c.month); }
    if c.year > 0 { YearsGrow(0, c.year); }
    YearsGrow(c.year, 10_000);
  }

  lemma FourDigitBounds()
    ensures DayFromYear(10_000) < MAX_DAY && DayFromYear(0) > -MAX_DAY
  {
  }

  /** Adding days twice adds their sum, and adding none changes nothing. */
  lemma AddBusinessDaysAdds(day: int, m: int, n: int)
    requires Writable(day) && Writable(day + m) && Writable(day + m + n)
    requires CivilOf(day).year >= 100 && CivilOf(day + m).year >= 100
    ensures AddBusinessDays(DayText(day), m).Ok?
    ensures AddBusinessDays(AddBusinessDays(DayText(day), m).text, n) == AddBusinessDays(DayText(day), m + n)
    ensures AddBusinessDays(DayText(day), 0) == Ok(DayText(day))
  {
    hide *;
    AddBusinessDaysShifts(day, m);
    AddBusinessDaysShifts(day + m, n);
    AddBusinessDaysShifts(day, m + n);
    AddBusinessDaysShifts(day, 0);
  }

  lemma TwoOrder(a: int, b: int, x: Text, y: Text)
    requires 0 <= a < 100 && 0 <= b < 100
    ensures Sorting.TextLess(Two(a) + x, Two(b) + y) <==> a < b || (a == b && Sorting.TextLess(x, y))
  {
    var s, t := Two(a) + x, Two(b) + y;
    assert s[1..][1..] == x && t[1..][1..] == y;
  }

  lemma SameStart(u: CodeUnit, x: Text, y: Text)
    ensures Sorting.TextLess([u] + x, [u] + y) <==> Sorting.TextLess(x, y)
  {
    assert ([u] + x)[1..] == x && ([u] + y)[1..] == y;
  }

  lemma NothingLess()
    ensures !Sorting.TextLess([], [])
  {
  }

  /** Comparing the texts compares the days: string order is calendar order. */
  lemma TextOrderIsCalendarOrder(a: Civil, b: Civil)
    requires FourDigitYear(a) && FourDigitYear(b)
    ensures Sorting.TextLess(DateText(a), DateText(b)) <==> DayNumber(a) < DayNumber(b)
  {
    hide Two, MakeDay, IsLeap, Sorting.TextLess;
    OrderOfDays(a, b);
    var da, db := Two(a.day), Two(b.day);
    var ma, mb := [MINUS] + da, [MINUS] + db;
    var ta, tb := Two(a.month + 1) + ma, Two(b.month + 1) + mb;
    var ra, rb := [MINUS] + ta, [MINUS] + tb;
    var ya, yb := Two(a.year % 100) + ra, Two(b.year % 100) + rb;
    assert DateText(a) == Two(a.year / 100) + ya && DateText(b) == Two(b.year / 100) + yb;
    TwoOrder(a.year / 100, b.year / 100, ya, yb);
    TwoOrder(a.year % 100, b.year % 100, ra, rb);
    SameStart(MINUS, ta, tb);
    TwoOrder(a.month + 1, b.month + 1, ma, mb);
    SameStart(MINUS, da, db);
    TwoOrder(a.day, b.day, [], []);
    assert da + [] == da && db + [] == db;
    assert !Sorting.TextLess([], []) by { NothingLess(); }
  }

  lemma DayTextOrder(a: int, b: int)
    requires Writable(a) && Writable(b)
    ensures Sorting.TextLess(DayText(a), DayText(b)) <==> a < b
    ensures IsOnOrAfter(DayText(a), DayText(b)) <==> a >= b
    ensures DayText(a) == DayText(b) <==> a == b
  {
    hide DateText, MakeDay, CivilOf, Sorting.TextLess, IsDate;
    TextOrderIsCalendarOrder(CivilOf(a), CivilOf(b));
    CivilRoundTrip(a);
    CivilRoundTrip(b);
    TextOrderIsCalendarOrder(CivilOf(b), CivilOf(a));
    Sorting.TextLessIsStrict(DayText(a), DayText(b));
  }

  // ----- days of a zone -----------------------------------------------------------------------

  /** The day a moment falls on in a zone; businessDate writes it as text. */
  function ZoneDay(t: int, zone: Zone): int {
    Day(t + zone(t))
  }

  /** Both four-digit padding and the two-digit years of Date.UTC stay out of play. */
  predicate Ordinary(day: int) {
    1000 <= CivilOf(day).year <= 9998
  }

  function BusinessDate(t: int, zone: Zone): Text
    requires Ordinary(ZoneDay(t, zone))
  {
    DayText(ZoneDay(t, zone))
  }

  ghost predicate WithinADay(zone: Zone) {
    forall t, u :: zone(t) - zone(u) <= MS_PER_DAY
  }

  lemma NearbyYear(day: int, days: int)
    requires -365 <= days <= 365
    ensures CivilOf(day).year - 1 <= CivilOf(day + days).year <= CivilOf(day).year + 1
  {
    hide DayFromYear, CivilOf, IsLeap;
    var y, z := YearOf(day), YearOf(day + days);
    YearStep(y);
    YearStep(z);
    YearStep(y - 1);
    YearStep(y + 1);
    if z > y + 1 { if z > y + 2 { YearsGrow(y + 2, z); } }
    if z < y - 1 { YearsGrow(z, y - 1); }
  }

  lemma NearbyWritable(day: int, days: int)
    requires Ordinary(day) && -365 <= days <= 365
    ensures CivilOf(day).year >= 100 && Writable(day) && Writable(day + days)
  {
    hide CivilOf, IsDate, YearOf, DayFromYear;
    NearbyYear(day, days);
  }

  /** Comparing one business date with a shifted other is comparing day numbers. */
  lemma ShiftedComparison(a: int, b: int, days: int)
    requires Ordinary(a) && Ordinary(b) && -365 <= days <= 365
    ensures var shifted := AddBusinessDays(DayText(b), days);
      shifted.Ok? && (IsOnOrAfter(DayText(a), shifted.text) <==> b + days <= a)
    ensures Writable(a) && Writable(b)
  {
    hide *;
    NearbyWritable(a, 0);
    NearbyWritable(b, days);
    AddBusinessDaysShifts(b, days);
    DayTextOrder(a, b + days);
  }

  lemma ShiftedEquality(a: int, m: int, b: int, n: int)
    requires Ordinary(a) && Ordinary(b) && -365 <= m <= 365 && -365 <= n <= 365
    ensures Writable(a) && Writable(b)
    ensures AddBusinessDays(DayText(a), m) == AddBusinessDays(DayText(b), n) <==> a + m == b + n
  {
    hide *;
    NearbyWritable(a, m);
    NearbyWritable(b, n);
    AddBusinessDaysShifts(a, m);
    AddBusinessDaysShifts(b, n);
    DayTextOrder(a + m, b + n);
  }

  // ----- the invoice window -------------------------------------------------------------------

  /** createDueInvoices: the business date has reached the due date less the lead time. */
  predicate InvoiceDue(now: int, due: int, zone: Zone, lead: int)
    requires Ordinary(ZoneDay(now, zone)) && Ordinary(ZoneDay(due, zone)) && 1 <= lead <= 90
  {
    var invoiceDate := AddBusinessDays(BusinessDate(due, zone), -lead);
    invoiceDate.Ok? && IsOnOrAfter(BusinessDate(now, zone), invoiceDate.text)
  }

  /** The filter on nextDueAt that picks candidates. */
  predicate Fetched(now: int, due: int, lead: int) {
    due <= now + (lead + 2) * MS_PER_DAY
  }

  /** The exact test is a comparison of days in the zone. */
  lemma InvoiceDueMeaning(now: int, due: int, zone: Zone, lead: int)
    requires Ordinary(ZoneDay(now, zone)) && Ordinary(ZoneDay(due, zone)) && 1 <= lead <= 90
    ensures InvoiceDue(now, due, zone, lead) <==> ZoneDay(due, zone) - lead <= ZoneDay(now, zone)
  {
    hide CivilOf, DayText, AddBusinessDays, ZoneDay, IsOnOrAfter, Writable, Ordinary;
    ShiftedComparison(ZoneDay(now, zone), ZoneDay(due, zone), -lead);
  }

  /** No service whose invoice is due is missed by the filter. */
  lemma DueInvoicesAreFetched(now: int, due: int, zone: Zone, lead: int)
    requires WithinADay(zone) && 1 <= lead <= 90
    requires Ordinary(ZoneDay(now, zone)) && Ordinary(ZoneDay(due, zone))
    requires InvoiceDue(now, due, zone, lead)
    ensures Fetched(now, due, lead)
  {
    hide CivilOf, InvoiceDue;
    InvoiceDueMeaning(now, due, zone, lead);
    assert zone(now) - zone(due) <= MS_PER_DAY;
  }

  /** Between fixed offsets: the day-level test and the filter. */
  predicate DueBetween(now: int, due: int, offsetNow: int, offsetDue: int, lead: int) {
    Day(due + offsetDue) - lead <= Day(now + offsetNow)
  }

  /** Two days to spare are exactly what offsets a day (and a millisecond) apart can use up. */
  lemma InvoiceWindowIsExact(offsetNow: int, offsetDue: int, lead: int)
    ensures (forall now, due | DueBetween(now, due, offsetNow, offsetDue, lead) :: Fetched(now, due, lead))
        <==> offsetNow - offsetDue <= MS_PER_DAY + 1
  {
    var now, due := -offsetNow, (lead + 1) * MS_PER_DAY - 1 - offsetDue;
    assert DueBetween(now, due, offsetNow, offsetDue, lead);
    assert Fetched(now, due, lead) <==> offsetNow - offsetDue <= MS_PER_DAY + 1;
  }

  // ----- the final warning --------------------------------------------------------------------

  /** processOpenRenewals: suspension may be requested once the business date reaches this text. */
  function SuspensionDate(due: int, zone: Zone, grace: int): Outcome
    requires Ordinary(ZoneDay(due, zone))
  {
    AddBusinessDays(BusinessDate(due, zone), grace + 1)
  }

  predicate SuspensionAllowed(now: int, due: int, zone: Zone, grace: int)
    requires Ordinary(ZoneDay(now, zone)) && Ordinary(ZoneDay(due, zone))
  {
    var date := SuspensionDate(due, zone, grace);
    date.Ok? && IsOnOrAfter(BusinessDate(now, zone), date.text)
  }

  /** calendar: the final warning goes out when tomorrow is the suspension date. */
  predicate WarningDue(now: int, due: int, zone: Zone, grace: int)
    requires Ordinary(ZoneDay(now, zone)) && Ordinary(ZoneDay(due, zone))
  {
    SuspensionDate(due, zone, grace) == AddBusinessDays(BusinessDate(now, zone), 1)
  }

  lemma SuspensionMeaning(now: int, due: int, zone: Zone, grace: int)
    requires Ordinary(ZoneDay(now, zone)) && Ordinary(ZoneDay(due, zone)) && 0 <= grace <= 60
    ensures SuspensionAllowed(now, due, zone, grace) <==> ZoneDay(due, zone) + grace + 1 <= ZoneDay(now, zone)
    ensures WarningDue(now, due, zone, grace) <==> ZoneDay(now, zone) == ZoneDay(due, zone) + grace
  {
    hide CivilOf, DayText, AddBusinessDays, ZoneDay, IsOnOrAfter, Writable, Ordinary;
    ShiftedComparison(ZoneDay(now, zone), ZoneDay(due, zone), grace + 1);
    ShiftedEquality(ZoneDay(due, zone), grace + 1, ZoneDay(now, zone), 1);
  }

  /** The warning day is the day before the first day on which suspension may be requested. */
  lemma WarningPrecedesSuspension(now: int, later: int, due: int, zone: Zone, grace: int)
    requires Ordinary(ZoneDay(now, zone)) && Ordinary(ZoneDay(later, zone)) && Ordinary(ZoneDay(due, zone))
    requires 0 <= grace <= 60 && WarningDue(now, due, zone, grace)
    ensures SuspensionAllowed(later, due, zone, grace) <==> ZoneDay(now, zone) + 1 <= ZoneDay(later, zone)
    ensures !SuspensionAllowed(now, due, zone, grace)
  {
    hide CivilOf, ZoneDay, SuspensionAllowed, WarningDue;
    SuspensionMeaning(now, due, zone, grace);
    SuspensionMeaning(later, due, zone, grace);
  }

  /** The range of dueAt from which warnings are picked. */
  predicate InWarningRange(now: int, due: int, grace: int) {
    now - (grace + 2) * MS_PER_DAY <= due <= now
  }

  /** The lower end of the range loses no warning; with two days of grace the upper end loses none either. */
  lemma DueWarningsAreFetched(now: int, due: int, zone: Zone, grace: int)
    requires WithinADay(zone) && 0 <= grace <= 60
    requires Ordinary(ZoneDay(now, zone)) && Ordinary(ZoneDay(due, zone))
    requires WarningDue(now, due, zone, grace)
    ensures now - (grace + 2) * MS_PER_DAY <= due
    ensures grace >= 2 ==> InWarningRange(now, due, grace)
  {
    hide CivilOf, WarningDue;
    SuspensionMeaning(now, due, zone, grace);
    assert zone(now) - zone(due) <= MS_PER_DAY && zone(due) - zone(now) <= MS_PER_DAY;
  }

  predicate WarnedBetween(now: int, due: int, offsetNow: int, offsetDue: int, grace: int) {
    Day(now + offsetNow) == Day(due + offsetDue) + grace
  }

  /**
   The range loses no warning exactly when the offsets stay within these bounds.  With no grace at all
   the upper end fails even in a zone of one offset: an invoice due later today is warned about today,
   but is picked only once its due moment has passed.
   */
  lemma WarningRangeIsExact(offsetNow: int, offsetDue: int, grace: int)
    ensures (forall now, due | WarnedBetween(now, due, offsetNow, offsetDue, grace) :: InWarningRange(now, due, grace))
        <==> -MS_PER_DAY - 1 <= offsetNow - offsetDue <= (grace - 1) * MS_PER_DAY + 1
  {
    var first, last := -offsetNow, MS_PER_DAY - 1 - offsetNow;
    var early, late := (0 - grace) * MS_PER_DAY - offsetDue, (1 - grace) * MS_PER_DAY - 1 - offsetDue;
    assert WarnedBetween(first, late, offsetNow, offsetDue, grace);
    assert WarnedBetween(last, early, offsetNow, offsetDue, grace);
  }

  // ----- domain expiry ------------------------------------------------------------------------

  /** calendar: a domain is announced 14, 7, 1 and 0 days before its expiry date. */
  predicate AnnouncedBetween(now: int, expiry: int, offsetNow: int, offsetExpiry: int) {
    var ahead := Day(expiry + offsetExpiry) - Day(now + offsetNow);
    ahead == 14 || ahead == 7 || ahead == 1 || ahead == 0
  }

  /** The range of expiresAt from which domains are picked. */
  predicate InExpiryRange(now: int, expiry: int) {
    now - MS_PER_DAY <= expiry <= now + 15 * MS_PER_DAY
  }

  /**
   This range has no day to spare: it loses no announcement exactly while the two offsets are equal, or a
   millisecond apart.
   */
  lemma ExpiryRangeIsExact(offsetNow: int, offsetExpiry: int)
    ensures (forall now, expiry | AnnouncedBetween(now, expiry, offsetNow, offsetExpiry) :: InExpiryRange(now, expiry))
        <==> -1 <= offsetNow - offsetExpiry <= 1
  {
    var first, last := -offsetNow, MS_PER_DAY - 1 - offsetNow;
    var early, late := -offsetExpiry, 15 * MS_PER_DAY - 1 - offsetExpiry;
    assert AnnouncedBetween(first, late, offsetNow, offsetExpiry);
    assert AnnouncedBetween(last, early, offsetNow, offsetExpiry);
  }
}
