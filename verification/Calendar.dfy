/** The Gregorian calendar: dates one day after another, and the closed form that counts them. */
module Calendar {

  datatype Date = Date(year: int, month: int, day: int)

  predicate Leap(y: int) {
    y % 4 == 0 && (y % 100 != 0 || y % 400 == 0)
  }

  function DaysIn(y: int, m: int): int {
    if m == 2 then if Leap(y) then 29 else 28
    else if m == 4 || m == 6 || m == 9 || m == 11 then 30
    else 31
  }

  predicate ValidDate(d: Date) {
    1 <= d.month <= 12 && 1 <= d.day <= DaysIn(d.year, d.month)
  }

  function NextDay(d: Date): Date {
    if d.day < DaysIn(d.year, d.month) then d.(day := d.day + 1)
    else if d.month < 12 then Date(d.year, d.month + 1, 1)
    else Date(d.year + 1, 1, 1)
  }

  function PreviousDay(d: Date): Date {
    if d.day > 1 then d.(day := d.day - 1)
    else if d.month > 1 then Date(d.year, d.month - 1, DaysIn(d.year, d.month - 1))
    else Date(d.year - 1, 12, 31)
  }

  /** The date n days after 1 January 1970. */
  function DateOf(n: int): (d: Date)
    ensures ValidDate(d)
    decreases if n < 0 then -n else n
  {
    if n == 0 then Date(1970, 1, 1)
    else if n > 0 then NextDay(DateOf(n - 1))
    else PreviousDay(DateOf(n + 1))
  }

  /** 0 is Sunday; 1 January 1970 was a Thursday. */
  function Weekday(n: int): int {
    (n + 4) % 7
  }

  lemma NextOfPrevious(d: Date)
    requires ValidDate(d)
    ensures ValidDate(PreviousDay(d)) && NextDay(PreviousDay(d)) == d
  {
  }

  lemma DateOfNext(n: int)
    ensures DateOf(n + 1) == NextDay(DateOf(n))
  {
    if n < 0 {
      NextOfPrevious(DateOf(n + 1));
    }
  }

  // ---- The closed form ----

  function DaysBeforeYear(y: int): int {
    365 * (y - 1) + (y - 1) / 4 - (y - 1) / 100 + (y - 1) / 400
  }

  function DaysBeforeMonth(y: int, m: int): int
    requires 1 <= m <= 12
  {
    [0, 31, 59, 90, 120, 151, 181, 212, 243, 273, 304, 334][m - 1] + if m > 2 && Leap(y) then 1 else 0
  }

  /** The day number of a date whose month or day may run over, as mktime counts it. */
  function DayNumber(y: int, m: int, d: int): int {
    var year, month := y + (m - 1) / 12, (m - 1) % 12 + 1;
    DaysBeforeYear(year) + DaysBeforeMonth(year, month) + d - 1 - DaysBeforeYear(1970)
  }

  lemma Quotients(y: int)
    ensures y / 4 - (y - 1) / 4 == if y % 4 == 0 then 1 else 0
    ensures y / 100 - (y - 1) / 100 == if y % 100 == 0 then 1 else 0
    ensures y / 400 - (y - 1) / 400 == if y % 400 == 0 then 1 else 0
  {
  }

  lemma Divisible(y: int)
    ensures y % 400 == 0 ==> y % 100 == 0
    ensures y % 100 == 0 ==> y % 4 == 0
  {
  }

  lemma YearLength(y: int)
    ensures DaysBeforeYear(y + 1) - DaysBeforeYear(y) == if Leap(y) then 366 else 365
  {
    Quotients(y);
    Divisible(y);
  }

  lemma DayNumberInYear(y: int, m: int, d: int)
    requires 1 <= m <= 12
    ensures DayNumber(y, m, d) == DaysBeforeYear(y) + DaysBeforeMonth(y, m) + d - 1 - DaysBeforeYear(1970)
  {
    assert (m - 1) / 12 == 0 && (m - 1) % 12 == m - 1;
  }

  lemma NextDayOfMonth(y: int, m: int, d: int)
    ensures DayNumber(y, m, d + 1) == DayNumber(y, m, d) + 1
  {
  }

  lemma AfterDecember(y: int)
    ensures DayNumber(y, 13, 1) == DayNumber(y + 1, 1, 1)
  {
  }

  /** The next month begins where this one ends, in the next year after December. */
  lemma NextMonth(y: int, m: int, d: int)
    requires 1 <= m <= 12
    ensures DayNumber(y, m + 1, 1) == DayNumber(y, m, d) + DaysIn(y, m) - d + 1
    ensures m < 12 ==> DayNumber(y, m + 1, 1) == DayNumber(y, m, DaysIn(y, m)) + 1
    ensures m == 12 ==> DayNumber(y, m + 1, 1) == DayNumber(y + 1, 1, 1)
  {
    hide DayNumber, DaysBeforeYear;
    DayNumberInYear(y, m, d);
    DayNumberInYear(y, m, DaysIn(y, m));
    if m < 12 {
      DayNumberInYear(y, m + 1, 1);
    } else {
      YearLength(y);
      DayNumberInYear(y + 1, 1, 1);
      AfterDecember(y);
    }
  }

  lemma NextDayNumber(d: Date)
    requires ValidDate(d)
    ensures var e := NextDay(d); DayNumber(e.year, e.month, e.day) == DayNumber(d.year, d.month, d.day) + 1
  {
    hide DaysBeforeYear, DayNumber, Leap;
    NextMonth(d.year, d.month, d.day);
    DayNumberInYear(d.year, d.month, d.day);
    if d.day < DaysIn(d.year, d.month) {
      DayNumberInYear(d.year, d.month, d.day + 1);
    }
  }

  /** The closed form counts the days: it is the inverse of DateOf. */
  lemma {:induction false} DayNumberOf(n: int)
    ensures var d := DateOf(n); DayNumber(d.year, d.month, d.day) == n
    decreases if n < 0 then -n else n
  {
    hide DayNumber, NextDay, PreviousDay;
    if n == 0 {
      DayNumberInYear(1970, 1, 1);
    } else if n > 0 {
      DayNumberOf(n - 1);
      NextDayNumber(DateOf(n - 1));
    } else {
      DayNumberOf(n + 1);
      NextOfPrevious(DateOf(n + 1));
      NextDayNumber(DateOf(n));
    }
  }

  /** The days from n to the end of its month are that month's. */
  lemma {:induction false} WithinMonth(n: int, k: nat)
    requires DateOf(n).day + k <= DaysIn(DateOf(n).year, DateOf(n).month)
    ensures DateOf(n + k) == DateOf(n).(day := DateOf(n).day + k)
  {
    if k > 0 {
      WithinMonth(n, k - 1);
      DateOfNext(n + k - 1);
    }
  }

  /** mktime's first day of the next month: the month's last day is the one before it. */
  lemma MonthEnd(n: int)
    ensures var d := DateOf(n);
            DayNumber(d.year, d.month + 1, 1) == n + DaysIn(d.year, d.month) - d.day + 1
  {
    DayNumberOf(n);
    NextMonth(DateOf(n).year, DateOf(n).month, DateOf(n).day);
  }

  /** The days of the week follow one another: 1 January 1970 was a Thursday, so 5 January 2024 was a Friday. */
  lemma WeekdayTurns(n: int)
    ensures 0 <= Weekday(n) < 7 && Weekday(n + 1) == (Weekday(n) + 1) % 7
    ensures Weekday(DayNumber(1970, 1, 1)) == 4 && Weekday(DayNumber(2024, 1, 5)) == 5
  {
  }
}
