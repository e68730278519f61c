/** The proleptic Gregorian calendar the time package counts in: day 0 is Monday, 1 January of year 1. */
module Calendar {

  datatype Date = Date(year: int, month: int, day: int)

  predicate Leap(y: int) {
    y % 4 == 0 && (y % 100 != 0 || y % 400 == 0)
  }

  function MonthLength(y: int, m: int): int {
    if m == 2 then (if Leap(y) then 29 else 28)
    else if m == 4 || m == 6 || m == 9 || m == 11 then 30
    else 31
  }

  predicate ValidDate(d: Date) {
    1 <= d.month <= 12 && 1 <= d.day <= MonthLength(d.year, d.month)
  }

  function NextDate(d: Date): Date {
    if d.day < MonthLength(d.year, d.month) then d.(day := d.day + 1)
    else if d.month < 12 then Date(d.year, d.month + 1, 1)
    else Date(d.year + 1, 1, 1)
  }

  function PrevDate(d: Date): Date {
    if d.day > 1 then d.(day := d.day - 1)
    else if d.month > 1 then Date(d.year, d.month - 1, MonthLength(d.year, d.month - 1))
    else Date(d.year - 1, 12, 31)
  }

  /** The date of a day, counted forwards and backwards one day at a time. */
  function DateOf(n: int): (d: Date)
    ensures ValidDate(d)
    decreases if n < 0 then -n else n
  {
    if n == 0 then Date(1, 1, 1)
    else if n > 0 then NextDate(DateOf(n - 1))
    else PrevDate(DateOf(n + 1))
  }

  /** Sunday is 0. */
  function Weekday(n: int): int {
    (n + 1) % 7
  }

  lemma DateAfter(n: int)
    ensures DateOf(n + 1) == NextDate(DateOf(n))
  {
  }

  // ---------------------------------------------------------------- the closed form

  function DaysBeforeYear(y: int): int {
    365 * (y - 1) + (y - 1) / 4 - (y - 1) / 100 + (y - 1) / 400
  }

  function DaysBeforeMonth(y: int, m: int): int
    requires 1 <= m <= 12
  {
    [0, 31, 59, 90, 120, 151, 181, 212, 243, 273, 304, 334][m - 1] + if m > 2 && Leap(y) then 1 else 0
  }

  function DayNumber(d: Date): int
    requires ValidDate(d)
  {
    DaysBeforeYear(d.year) + DaysBeforeMonth(d.year, d.month) + d.day - 1
  }

  function YearLength(y: int): int {
    if Leap(y) then 366 else 365
  }

  lemma FourthYears(y: int)
    ensures y / 4 == (y - 1) / 4 + if y % 4 == 0 then 1 else 0
  {
  }

  lemma HundredthYears(y: int)
    ensures y / 100 == (y - 1) / 100 + if y % 100 == 0 then 1 else 0
    ensures y % 100 == 0 ==> y % 4 == 0
  {
    assert y == 100 * (y / 100) + y % 100;
  }

  lemma FourHundredthYears(y: int)
    ensures y / 400 == (y - 1) / 400 + if y % 400 == 0 then 1 else 0
    ensures y % 400 == 0 ==> y % 100 == 0
  {
    assert y == 400 * (y / 400) + y % 400;
  }

  lemma YearAfter(y: int)
    ensures DaysBeforeYear(y + 1) == DaysBeforeYear(y) + YearLength(y)
  {
    FourthYears(y);
    HundredthYears(y);
    FourHundredthYears(y);
  }

  lemma NextDayNumber(d: Date)
    requires ValidDate(d)
    ensures ValidDate(NextDate(d)) && DayNumber(NextDate(d)) == DayNumber(d) + 1
  {
    YearAfter(d.year);
  }

  lemma PrevDayNumber(d: Date)
    requires ValidDate(d)
    ensures ValidDate(PrevDate(d)) && NextDate(PrevDate(d)) == d && DayNumber(PrevDate(d)) == DayNumber(d) - 1
  {
    NextDayNumber(PrevDate(d));
  }

  lemma NumberOfNext(n: int, d: Date, e: Date)
    requires ValidDate(d) && DayNumber(d) == n && e == NextDate(d)
    ensures ValidDate(e) && DayNumber(e) == n + 1
  {
    NextDayNumber(d);
  }

  lemma NumberOfPrev(n: int, d: Date, e: Date)
    requires ValidDate(d) && DayNumber(d) == n && e == PrevDate(d)
    ensures ValidDate(e) && DayNumber(e) == n - 1
  {
    PrevDayNumber(d);
  }

  /** Counting day by day agrees with the closed form. */
  lemma {:induction false} NumberOfDate(n: int)
    ensures DayNumber(DateOf(n)) == n
    decreases if n < 0 then -n else n
  {
    if n > 0 {
      NumberOfDate(n - 1);
      NumberOfNext(n - 1, DateOf(n - 1), DateOf(n));
    } else if n < 0 {
      NumberOfDate(n + 1);
      NumberOfPrev(n + 1, DateOf(n + 1), DateOf(n));
    }
  }

  lemma {:induction false} YearsGrow(y: int, z: int)
    requires y <= z
    ensures DaysBeforeYear(y) <= DaysBeforeYear(z)
    decreases z - y
  {
    if y < z {
      YearsGrow(y, z - 1);
      YearAfter(z - 1);
    }
  }

  lemma DayOfYearFits(d: Date)
    requires ValidDate(d)
    ensures DaysBeforeYear(d.year) <= DayNumber(d) < DaysBeforeYear(d.year + 1)
  {
    YearAfter(d.year);
  }

  /** Two dates with the same number are the same date. */
  lemma SameNumberSameDate(a: Date, b: Date)
    requires ValidDate(a) && ValidDate(b) && DayNumber(a) == DayNumber(b)
    ensures a == b
  {
    DayOfYearFits(a);
    DayOfYearFits(b);
    if a.year < b.year { YearsGrow(a.year + 1, b.year); }
    if b.year < a.year { YearsGrow(b.year + 1, a.year); }
    assert a.year == b.year;
    MonthOfDay(a, b);
  }

  lemma MonthOfDay(a: Date, b: Date)
    requires ValidDate(a) && ValidDate(b) && a.year == b.year && DayNumber(a) == DayNumber(b)
    ensures a == b
  {
    if a.month < b.month { MonthsGrow(a.year, a.month, b.month); }
    if b.month < a.month { MonthsGrow(a.year, b.month, a.month); }
  }

  lemma MonthsGrow(y: int, m: int, k: int)
    requires 1 <= m < k <= 12
    ensures DaysBeforeMonth(y, m) + MonthLength(y, m) <= DaysBeforeMonth(y, k)
  {
  }

  /** Every date comes up, on the day of its number. */
  lemma DateOfNumber(d: Date)
    requires ValidDate(d)
    ensures DateOf(DayNumber(d)) == d
  {
    NumberOfDate(DayNumber(d));
    SameNumberSameDate(DateOf(DayNumber(d)), d);
  }

  // ---------------------------------------------------------------- recurrences

  lemma {:induction false} LaterInMonth(n: int, k: nat)
    requires DateOf(n).day + k <= MonthLength(DateOf(n).year, DateOf(n).month)
    ensures DateOf(n + k) == DateOf(n).(day := DateOf(n).day + k)
  {
    if k > 0 {
      LaterInMonth(n, k - 1);
      DateAfter(n + k - 1);
    }
  }

  /** The first of the next month, and how far away it is. */
  lemma NextMonthStart(n: int) returns (k: nat)
    ensures k == MonthLength(DateOf(n).year, DateOf(n).month) - DateOf(n).day + 1
    ensures DateOf(n + k).day == 1
  {
    var d := DateOf(n);
    k := MonthLength(d.year, d.month) - d.day + 1;
    LaterInMonth(n, k - 1);
    DateAfter(n + (k - 1));
    assert n + (k - 1) + 1 == n + k;
  }

  /** Any 31 days in a row hold each day of the month up to 28. */
  lemma DayWithinMonth(n: int, day: int) returns (k: nat)
    requires 1 <= day <= 28
    ensures k <= 30 && DateOf(n + k).day == day
  {
    var d := DateOf(n);
    if d.day <= day {
      k := day - d.day;
      LaterInMonth(n, k);
    } else {
      var first := NextMonthStart(n);
      LaterInMonth(n + first, day - 1);
      k := first + (day - 1);
      assert n + first + (day - 1) == n + k;
    }
  }

  /** The year from a date on, the date included, holds a leap day. */
  predicate LeapDayAhead(y: int, month: int) {
    if month <= 2 then Leap(y) else Leap(y + 1)
  }

  lemma SameDateNextYear(y: int, month: int, day: int)
    requires ValidDate(Date(y, month, day)) && !(month == 2 && day == 29)
    ensures ValidDate(Date(y + 1, month, day))
    ensures DayNumber(Date(y + 1, month, day)) ==
            DayNumber(Date(y, month, day)) + if LeapDayAhead(y, month) then 366 else 365
  {
    YearAfter(y);
  }

  lemma {:induction false} SameDateLaterYears(y: int, z: int, month: int, day: int)
    requires y < z && ValidDate(Date(y, month, day)) && !(month == 2 && day == 29)
    ensures ValidDate(Date(z, month, day))
    ensures DayNumber(Date(z, month, day)) >= DayNumber(Date(y, month, day))
            + if LeapDayAhead(y, month) then 366 else 365
    decreases z - y
  {
    SameDateNextYear(y, month, day);
    if y + 1 < z {
      SameDateLaterYears(y + 1, z, month, day);
    }
  }

  lemma LeapDayLaterYears(y: int, z: int)
    requires y < z && Leap(y) && Leap(z)
    ensures DayNumber(Date(z, 2, 29)) >= DayNumber(Date(y, 2, 29)) + 366
  {
    YearAfter(y);
    YearsGrow(y + 1, z);
  }

  lemma DateLaterYears(a: Date, b: Date)
    requires ValidDate(a) && ValidDate(b) && a.month == b.month && a.day == b.day && a.year < b.year
    ensures DayNumber(b) >= DayNumber(a) + if LeapDayAhead(a.year, a.month) then 366 else 365
  {
    if a.month == 2 && a.day == 29 {
      LeapDayLaterYears(a.year, b.year);
    } else {
      SameDateLaterYears(a.year, b.year, a.month, a.day);
    }
  }

  /** A date comes back no sooner than a year later, a leap day no sooner than 366 days later. */
  lemma SameDateApart(n: int, k: int)
    requires n < k && DateOf(n).month == DateOf(k).month && DateOf(n).day == DateOf(k).day
    ensures k >= n + if LeapDayAhead(DateOf(n).year, DateOf(n).month) then 366 else 365
  {
    NumberOfDate(n);
    NumberOfDate(k);
    if DateOf(n).year < DateOf(k).year {
      DateLaterYears(DateOf(n), DateOf(k));
    } else if DateOf(k).year < DateOf(n).year {
      DateLaterYears(DateOf(k), DateOf(n));
    }
  }

  lemma DateWithNumber(n: int, d: Date)
    requires ValidDate(d) && DayNumber(d) == n
    ensures DateOf(n) == d
  {
    DateOfNumber(d);
  }

  lemma NumberNextYear(n: int, d: Date) returns (again: Date)
    requires ValidDate(d) && DayNumber(d) == n && !(d.month == 2 && d.day == 29)
    ensures again == d.(year := d.year + 1) && ValidDate(again)
    ensures DayNumber(again) == n + if LeapDayAhead(d.year, d.month) then 366 else 365
  {
    SameDateNextYear(d.year, d.month, d.day);
    again := d.(year := d.year + 1);
  }

  /** A date comes back exactly one year later. */
  lemma SameDateAgain(n: int)
    requires !(DateOf(n).month == 2 && DateOf(n).day == 29)
    ensures DateOf(n + if LeapDayAhead(DateOf(n).year, DateOf(n).month) then 366 else 365) ==
            DateOf(n).(year := DateOf(n).year + 1)
  {
    var d := DateOf(n);
    NumberOfDate(n);
    var again := NumberNextYear(n, d);
    DateWithNumber(n + if LeapDayAhead(d.year, d.month) then 366 else 365, again);
  }

  lemma DateBounds(n: int)
    ensures 1 <= DateOf(n).day <= 31 && 1 <= DateOf(n).month <= 12
  {
    assert ValidDate(DateOf(n));
  }
}
