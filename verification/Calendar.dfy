/** The date arithmetic of `init_time` in kernel/time/time.c against the calendar it stands for. */
module Calendar {

  datatype Date = Date(year: nat, month: nat, day: nat)

  predicate Leap(year: nat)
  {
    year % 4 == 0 && (year % 100 != 0 || year % 400 == 0)
  }

  function MonthLength(year: nat, month: nat): (n: nat)
    requires 1 <= month <= 12
    ensures 28 <= n <= 31
  {
    if month == 2 then (if Leap(year) then 29 else 28)
    else if month == 4 || month == 6 || month == 9 || month == 11 then 30
    else 31
  }

  predicate Valid(d: Date)
  {
    1 <= d.month <= 12 && 1 <= d.day <= MonthLength(d.year, d.month)
  }

  /** The calendar day after `d`. */
  function Tomorrow(d: Date): (r: Date)
    requires Valid(d)
    ensures Valid(r)
  {
    if d.day < MonthLength(d.year, d.month) then d.(day := d.day + 1)
    else if d.month < 12 then Date(d.year, d.month + 1, 1)
    else Date(d.year + 1, 1, 1)
  }

  /** Days before the first of January of `year`, counted from 1970. */
  function YearStart(year: nat): nat
    requires year >= 1970
  {
    if year == 1970 then 0 else YearStart(year - 1) + (if Leap(year - 1) then 366 else 365)
  }

  /** Days of `year` before the first of `month`. */
  function MonthStart(year: nat, month: nat): nat
    requires 1 <= month <= 12
  {
    if month == 1 then 0 else MonthStart(year, month - 1) + MonthLength(year, month - 1)
  }

  /** Days since 1970-01-01 by counting years, months and days. */
  function DayCount(d: Date): nat
    requires Valid(d) && d.year >= 1970
  {
    YearStart(d.year) + MonthStart(d.year, d.month) + d.day - 1
  }

  /** The closed form of the code, in the order it is evaluated; every quotient has a non-negative dividend. */
  function DaysSinceUnix(d: Date): int
    requires 1 <= d.month <= 12
  {
    var a := (14 - d.month) / 12;
    var y := d.year + 4800 - a;
    var m := d.month + 12 * a - 3;
    var days := d.day + (153 * m + 2) / 5 + 365 * y + y / 4 - y / 100 + y / 400 - 32045;
    days - 2440588
  }

  /** Leap days counted by quotients. */
  function LeapDays(y: nat): int
  {
    y / 4 - y / 100 + y / 400
  }

  lemma QuotientStep(y: nat)
    requires y > 0
    ensures LeapDays(y) == LeapDays(y - 1) + (if Leap(y) then 1 else 0)
  {
    QuotientOne(y, 4);
    QuotientOne(y, 100);
    QuotientOne(y, 400);
    Centuries(y);
  }

  lemma Centuries(y: nat)
    ensures y % 400 == 0 ==> y % 100 == 0
    ensures y % 100 == 0 ==> y % 4 == 0
  {
    if y % 400 == 0 { assert y == 100 * (4 * (y / 400)); }
    if y % 100 == 0 { assert y == 4 * (25 * (y / 100)); }
  }

  /** Days before the m-th month of a year that begins in March. */
  function Marched(m: nat): nat
  {
    (153 * m + 2) / 5
  }

  lemma MarchedStep(m: nat)
    requires m < 11
    ensures Marched(m + 1) == Marched(m) + if m == 1 || m == 3 || m == 6 || m == 8 then 30 else 31
  {
    if m < 3 { assert Marched(0) == 0 && Marched(1) == 31 && Marched(2) == 61 && Marched(3) == 92; }
    else if m < 6 { assert Marched(3) == 92 && Marched(4) == 122 && Marched(5) == 153 && Marched(6) == 184; }
    else if m < 9 { assert Marched(6) == 184 && Marched(7) == 214 && Marched(8) == 245 && Marched(9) == 275; }
    else { assert Marched(9) == 275 && Marched(10) == 306 && Marched(11) == 337; }
  }

  /** Days in `y` years of the closed form. */
  function YearDays(y: nat): int
  {
    365 * y + LeapDays(y)
  }

  /** The closed form, taken apart. */
  lemma Shape(d: Date)
    requires 1 <= d.month <= 12
    ensures d.month <= 2 ==> DaysSinceUnix(d) == d.day + Marched(d.month + 9) + YearDays(d.year + 4799) - 2472633
    ensures d.month > 2 ==> DaysSinceUnix(d) == d.day + Marched(d.month - 3) + YearDays(d.year + 4800) - 2472633
  {
    var a := (14 - d.month) / 12;
    assert a == if d.month <= 2 then 1 else 0;
  }

  lemma QuotientOne(y: nat, n: nat)
    requires y > 0 && (n == 4 || n == 100 || n == 400)
    ensures y / n == (y - 1) / n + (if y % n == 0 then 1 else 0)
  {
  }

  /** The first of January: the code counts it as month ten of the year before. */
  lemma {:induction false} JanuaryFirst(year: nat)
    requires year >= 1970
    ensures DaysSinceUnix(Date(year, 1, 1)) == YearStart(year)
  {
    if year > 1970 {
      JanuaryFirst(year - 1);
      Shape(Date(year, 1, 1));
      Shape(Date(year - 1, 1, 1));
      QuotientStep(year + 4799);
      LeapShift(year - 1);
    }
  }

  lemma LeapShift(year: nat)
    ensures Leap(year + 4800) == Leap(year)
  {
    Multiple(year, 4, 1200);
    Multiple(year, 100, 48);
    Multiple(year, 400, 12);
  }

  lemma {:induction false} Multiple(x: nat, n: nat, k: nat)
    requires n == 4 || n == 100 || n == 400
    ensures (x + n * k) % n == x % n
  {
    if k > 0 {
      Multiple(x, n, k - 1);
      OnceMore(x + n * (k - 1), n);
      assert x + n * k == x + n * (k - 1) + n;
    }
  }

  lemma OnceMore(y: nat, n: nat)
    requires n == 4 || n == 100 || n == 400
    ensures (y + n) % n == y % n
  {
  }

  /** Within a year, the months add up. */
  lemma MonthsAddUp(year: nat, month: nat)
    requires 1 <= month <= 12 && year >= 1970
    ensures DaysSinceUnix(Date(year, month, 1)) == DaysSinceUnix(Date(year, 1, 1)) + MonthStart(year, month)
  {
    if month > 1 {
      MonthsAddUp(year, month - 1);
      MonthStep(year, month - 1);
    }
  }

  lemma MonthStep(year: nat, month: nat)
    requires 1 <= month < 12
    ensures DaysSinceUnix(Date(year, month + 1, 1)) == DaysSinceUnix(Date(year, month, 1)) + MonthLength(year, month)
  {
    Shape(Date(year, month, 1));
    Shape(Date(year, month + 1, 1));
    if month != 2 { MarchedStep(if month < 2 then month + 9 else month - 3); }
    if month == 2 {
      QuotientStep(year + 4800);
      LeapShift(year);
    }
  }

  /** The closed form is the calendar count, for every valid date from 1970 on. */
  lemma ClosedFormCounts(d: Date)
    requires Valid(d) && d.year >= 1970
    ensures DaysSinceUnix(d) == DayCount(d)
  {
    JanuaryFirst(d.year);
    MonthsAddUp(d.year, d.month);
    Shape(d);
    Shape(Date(d.year, d.month, 1));
    assert DaysSinceUnix(d) == DaysSinceUnix(Date(d.year, d.month, 1)) + d.day - 1;
  }

  /** The next calendar day is one more, across months, leap years and centuries. */
  lemma TomorrowAddsOne(d: Date)
    requires Valid(d) && d.year >= 1970
    ensures DaysSinceUnix(Tomorrow(d)) == DaysSinceUnix(d) + 1
  {
    ClosedFormCounts(d);
    ClosedFormCounts(Tomorrow(d));
    if d.month == 12 { YearLength(d.year); }
  }

  lemma YearLength(year: nat)
    ensures MonthStart(year, 12) + 31 == if Leap(year) then 366 else 365
  {
    MonthTable(year, 6);
    MonthTable(year, 12);
  }

  /** The month starts, half a year at a time. */
  lemma MonthTable(year: nat, month: nat)
    requires month == 6 || month == 12
    ensures MonthStart(year, month) == (if month == 6 then 151 else 334) + if Leap(year) then 1 else 0
  {
    if month == 6 {
      assert MonthStart(year, 2) == MonthStart(year, 1) + 31;
      assert MonthStart(year, 3) == MonthStart(year, 2) + MonthLength(year, 2);
      assert MonthStart(year, 4) == MonthStart(year, 3) + 31;
      assert MonthStart(year, 5) == MonthStart(year, 4) + 30;
      assert MonthStart(year, 6) == MonthStart(year, 5) + 31;
    } else {
      MonthTable(year, 6);
      assert MonthStart(year, 7) == MonthStart(year, 6) + 30;
      assert MonthStart(year, 8) == MonthStart(year, 7) + 31;
      assert MonthStart(year, 9) == MonthStart(year, 8) + 31;
      assert MonthStart(year, 10) == MonthStart(year, 9) + 30;
      assert MonthStart(year, 11) == MonthStart(year, 10) + 31;
      assert MonthStart(year, 12) == MonthStart(year, 11) + 30;
    }
  }

  /** 1970-01-01 is day 0. */
  lemma EpochIsZero()
    ensures DaysSinceUnix(Date(1970, 1, 1)) == 0
  {
    JanuaryFirst(1970);
  }

  // ---- timestamps -------------------------------------------------------------------------------------------

  datatype Clock = Clock(hour: nat, minute: nat, second: nat)

  predicate ValidClock(t: Clock)
  {
    t.hour < 24 && t.minute < 60 && t.second < 60
  }

  /** `unix_boot_timestamp`. */
  function Timestamp(d: Date, t: Clock): int
    requires 1 <= d.month <= 12
  {
    DaysSinceUnix(d) * 86400 + t.hour * 3600 + t.minute * 60 + t.second
  }

  predicate EarlierDay(d: Date, e: Date)
  {
    d.year < e.year || (d.year == e.year && (d.month < e.month || (d.month == e.month && d.day < e.day)))
  }

  predicate Earlier(d: Date, t: Clock, e: Date, u: Clock)
  {
    EarlierDay(d, e) || (d == e &&
      (t.hour < u.hour || (t.hour == u.hour && (t.minute < u.minute || (t.minute == u.minute && t.second < u.second)))))
  }

  lemma {:induction false} YearsGrow(a: nat, b: nat)
    requires 1970 <= a <= b
    ensures YearStart(a) <= YearStart(b)
    ensures a < b ==> YearStart(a) + (if Leap(a) then 366 else 365) <= YearStart(b)
  {
    if a < b { YearsGrow(a, b - 1); }
  }

  lemma {:induction false} MonthsGrow(year: nat, a: nat, b: nat)
    requires 1 <= a <= b <= 12
    ensures MonthStart(year, a) <= MonthStart(year, b)
    ensures a < b ==> MonthStart(year, a) + MonthLength(year, a) <= MonthStart(year, b)
  {
    if a < b { MonthsGrow(year, a, b - 1); }
  }

  lemma DaysGrow(d: Date, e: Date)
    requires Valid(d) && Valid(e) && d.year >= 1970 && EarlierDay(d, e)
    ensures DaysSinceUnix(d) < DaysSinceUnix(e)
  {
    ClosedFormCounts(d);
    ClosedFormCounts(e);
    if d.year < e.year {
      YearsGrow(d.year, e.year);
      MonthsGrow(d.year, d.month, 12);
      YearLength(d.year);
    } else if d.month < e.month {
      MonthsGrow(d.year, d.month, e.month);
    }
  }

  lemma TimestampsGrow(d: Date, t: Clock, e: Date, u: Clock)
    requires Valid(d) && Valid(e) && ValidClock(t) && ValidClock(u) && d.year >= 1970 && Earlier(d, t, e, u)
    ensures Timestamp(d, t) < Timestamp(e, u)
  {
    if EarlierDay(d, e) { DaysGrow(d, e); }
  }

  /** Timestamps order moments exactly as the calendar and the clock do. */
  lemma TimestampOrder(d: Date, t: Clock, e: Date, u: Clock)
    requires Valid(d) && Valid(e) && ValidClock(t) && ValidClock(u) && d.year >= 1970 && e.year >= 1970
    ensures Timestamp(d, t) < Timestamp(e, u) <==> Earlier(d, t, e, u)
    ensures Timestamp(d, t) == Timestamp(e, u) <==> d == e && t == u
  {
    if Earlier(d, t, e, u) {
      TimestampsGrow(d, t, e, u);
    } else if Earlier(e, u, d, t) {
      TimestampsGrow(e, u, d, t);
    }
  }

  /** The moment one second later, carrying into minutes, hours and days. */
  function NextSecond(d: Date, t: Clock): (r: (Date, Clock))
    requires Valid(d) && ValidClock(t)
    ensures Valid(r.0) && ValidClock(r.1)
  {
    if t.second < 59 then (d, t.(second := t.second + 1))
    else if t.minute < 59 then (d, Clock(t.hour, t.minute + 1, 0))
    else if t.hour < 23 then (d, Clock(t.hour + 1, 0, 0))
    else (Tomorrow(d), Clock(0, 0, 0))
  }

  /** The timestamp is 0 at 1970-01-01 00:00:00. */
  lemma TimestampStartsAtZero()
    ensures Timestamp(Date(1970, 1, 1), Clock(0, 0, 0)) == 0
  {
    EpochIsZero();
  }

  /** The timestamp counts seconds: the next one adds exactly one. */
  lemma TimestampCountsSeconds(d: Date, t: Clock, e: Date, u: Clock)
    requires Valid(d) && ValidClock(t) && d.year >= 1970 && (e, u) == NextSecond(d, t)
    ensures Valid(e) && ValidClock(u) && Timestamp(e, u) == Timestamp(d, t) + 1
  {
    if t == Clock(23, 59, 59) {
      TomorrowAddsOne(d);
      Midnight(DaysSinceUnix(d));
    } else {
      WithinDay(t, u);
    }
  }

  lemma Midnight(days: int)
    ensures (days + 1) * 86400 == days * 86400 + 23 * 3600 + 59 * 60 + 59 + 1
  {
  }

  /** Within a day the clock advances by one second. */
  lemma WithinDay(t: Clock, u: Clock)
    requires ValidClock(t)
    requires
      || (t.second < 59 && u == t.(second := t.second + 1))
      || (t.second == 59 && t.minute < 59 && u == Clock(t.hour, t.minute + 1, 0))
      || (t.second == 59 && t.minute == 59 && u == Clock(t.hour + 1, 0, 0))
    ensures u.hour * 3600 + u.minute * 60 + u.second == t.hour * 3600 + t.minute * 60 + t.second + 1
  {
  }
}
