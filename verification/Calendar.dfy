/** The proleptic Gregorian calendar behind Go's date formatting and parsing. Day 0 is 0000-01-01. */
module Calendar {

  datatype Date = Date(year: int, month: nat, day: nat)

  predicate IsLeap(y: int) {
    y % 4 == 0 && (y % 100 != 0 || y % 400 == 0)
  }

  function YearLength(y: int): (n: nat)
    ensures 365 <= n <= 366
  {
    if IsLeap(y) then 366 else 365
  }

  /** Days of year `y` before the first of month `m`; month 13 is the next January. */
  function DaysBeforeMonth(y: int, m: nat): nat
    requires 1 <= m <= 13
  {
    var leap := if IsLeap(y) then 1 else 0;
    if m == 1 then 0 else if m == 2 then 31
    else leap + (if m == 3 then 59 else if m == 4 then 90 else if m == 5 then 120
                 else if m == 6 then 151 else if m == 7 then 181 else if m == 8 then 212
                 else if m == 9 then 243 else if m == 10 then 273 else if m == 11 then 304
                 else if m == 12 then 334 else 365)
  }

  function MonthLength(y: int, m: nat): (n: nat)
    requires 1 <= m <= 12
    ensures 28 <= n <= 31
  {
    DaysBeforeMonth(y, m + 1) - DaysBeforeMonth(y, m)
  }

  predicate ValidDate(d: Date) {
    1 <= d.month <= 12 && 1 <= d.day <= MonthLength(d.year, d.month)
  }

  function DaysBeforeYear(y: nat): nat {
    if y == 0 then 0 else DaysBeforeYear(y - 1) + YearLength(y - 1)
  }

  function DayNumber(d: Date): nat
    requires d.year >= 0 && ValidDate(d)
  {
    DaysBeforeYear(d.year) + DaysBeforeMonth(d.year, d.month) + d.day - 1
  }

  function MonthOf(y: int, n: nat): (m: nat)
    requires n < YearLength(y)
    ensures 1 <= m <= 12 && DaysBeforeMonth(y, m) <= n < DaysBeforeMonth(y, m + 1)
  {
    var leap := if IsLeap(y) then 1 else 0;
    if n < 31 then 1 else if n < 59 + leap then 2 else if n < 90 + leap then 3
    else if n < 120 + leap then 4 else if n < 151 + leap then 5 else if n < 181 + leap then 6
    else if n < 212 + leap then 7 else if n < 243 + leap then 8 else if n < 273 + leap then 9
    else if n < 304 + leap then 10 else if n < 334 + leap then 11 else 12
  }

  /** The date `n` days after the first of January of year `y`. */
  function DateFrom(y: nat, n: nat): (d: Date)
    ensures d.year >= y && ValidDate(d)
    decreases n
  {
    if n < YearLength(y) then
      var m := MonthOf(y, n);
      Date(y, m, n - DaysBeforeMonth(y, m) + 1)
    else
      DateFrom(y + 1, n - YearLength(y))
  }

  const DAYS_PER_ERA := 146097

  /** The date of any day number; days before year 0 repeat the 400-year cycle. */
  function DateOf(n: int): (d: Date)
    ensures ValidDate(d)
  {
    if n >= 0 then DateFrom(0, n)
    else
      var eras := (DAYS_PER_ERA - 1 - n) / DAYS_PER_ERA;
      var d := DateFrom(0, n + eras * DAYS_PER_ERA);
      SameLeapYears(d.year, eras);
      Date(d.year - 400 * eras, d.month, d.day)
  }

  lemma SameLeapYear(y: int)
    ensures IsLeap(y - 400) == IsLeap(y)
  {
    assert (y - 400) % 4 == y % 4;
    assert (y - 400) % 100 == y % 100;
    assert (y - 400) % 400 == y % 400;
  }

  lemma {:induction false} SameLeapYears(y: int, eras: nat)
    ensures IsLeap(y - 400 * eras) == IsLeap(y)
    decreases eras
  {
    if eras > 0 {
      SameLeapYear(y);
      SameLeapYears(y - 400, eras - 1);
    }
  }

  predicate Before(a: Date, b: Date) {
    a.year < b.year || (a.year == b.year && (a.month < b.month || (a.month == b.month && a.day < b.day)))
  }

  /** Counting the days of a date gives back the day number it was made from. */
  lemma {:induction false} DateFromDayNumber(y: nat, n: nat)
    ensures DayNumber(DateFrom(y, n)) == DaysBeforeYear(y) + n
    decreases n
  {
    if n >= YearLength(y) {
      DateFromDayNumber(y + 1, n - YearLength(y));
    }
  }

  lemma {:induction false} DaysBeforeYearMonotone(y: nat, z: nat)
    requires y < z
    ensures DaysBeforeYear(y) + YearLength(y) <= DaysBeforeYear(z)
    decreases z
  {
    if y < z - 1 {
      DaysBeforeYearMonotone(y, z - 1);
    }
  }

  /** Later dates have larger day numbers, so a day has one date and dates sort as days. */
  lemma DayNumberOrder(a: Date, b: Date)
    requires a.year >= 0 && b.year >= 0 && ValidDate(a) && ValidDate(b)
    ensures Before(a, b) <==> DayNumber(a) < DayNumber(b)
    ensures a == b <==> DayNumber(a) == DayNumber(b)
  {
    if a.year < b.year {
      DaysBeforeYearMonotone(a.year, b.year);
    } else if b.year < a.year {
      DaysBeforeYearMonotone(b.year, a.year);
    }
  }

  /** Formatting a day as a date and reading the date as a day are inverse. */
  lemma DateOfDayNumber(d: Date)
    requires d.year >= 0 && ValidDate(d)
    ensures DateOf(DayNumber(d)) == d
  {
    DateFromDayNumber(0, DayNumber(d));
    DayNumberOrder(DateOf(DayNumber(d)), d);
  }

  lemma DateOrder(m: nat, n: nat)
    ensures Before(DateOf(m), DateOf(n)) <==> m < n
    ensures DateOf(m) == DateOf(n) <==> m == n
  {
    DateFromDayNumber(0, m);
    DateFromDayNumber(0, n);
    DayNumberOrder(DateOf(m), DateOf(n));
  }

  /** Leap years among the years 0 to y - 1. */
  function LeapsBelow(y: nat): int {
    (y + 3) / 4 - (y + 99) / 100 + (y + 399) / 400
  }

  lemma MultiplesOf4(y: nat)
    ensures (y + 4) / 4 == (y + 3) / 4 + (if y % 4 == 0 then 1 else 0)
  {
  }

  lemma MultiplesOf100(y: nat)
    ensures (y + 100) / 100 == (y + 99) / 100 + (if y % 100 == 0 then 1 else 0)
  {
  }

  lemma MultiplesOf400(y: nat)
    ensures (y + 400) / 400 == (y + 399) / 400 + (if y % 400 == 0 then 1 else 0)
  {
  }

  lemma Divisibility(y: nat)
    ensures y % 100 == 0 ==> y % 4 == 0
    ensures y % 400 == 0 ==> y % 100 == 0
  {
    var q, r := y / 100, y / 400;
    assert y % 100 == 0 ==> y == 4 * (25 * q);
    assert y % 400 == 0 ==> y == 100 * (4 * r);
  }

  lemma LeapsBelowStep(y: nat)
    ensures LeapsBelow(y + 1) == LeapsBelow(y) + (if IsLeap(y) then 1 else 0)
  {
    MultiplesOf4(y);
    MultiplesOf100(y);
    MultiplesOf400(y);
    Divisibility(y);
  }

  lemma {:induction false} DaysBeforeYearClosedForm(y: nat)
    ensures DaysBeforeYear(y) == 365 * y + LeapsBelow(y)
  {
    if y > 0 {
      DaysBeforeYearClosedForm(y - 1);
      LeapsBelowStep(y - 1);
    }
  }

  const EPOCH_DAY := 719528

  /** The day Go's Unix seconds count from is 1970-01-01. */
  lemma EpochDate(n: nat, epoch: Date)
    requires n == EPOCH_DAY && epoch == Date(1970, 1, 1)
    ensures DateOf(n) == epoch && DateOf(n + 1) == Date(1970, 1, 2)
  {
    YearBoundary(epoch, n);
    DateOfDayNumber(epoch);
    NextDay(epoch);
    DateOfDayNumber(Date(1970, 1, 2));
  }

  lemma NextDay(d: Date)
    requires d.year >= 0 && ValidDate(d) && d.day < MonthLength(d.year, d.month)
    ensures DayNumber(d.(day := d.day + 1)) == DayNumber(d) + 1
  {
  }

  /** The first of January of year `y` is day 365y plus the leap days before it. */
  lemma YearBoundary(d: Date, n: nat)
    requires d.year >= 0 && d.month == 1 && d.day == 1
    requires n == 365 * d.year + LeapsBelow(d.year)
    ensures DayNumber(d) == n
  {
    assert DaysBeforeMonth(d.year, 1) == 0;
    assert DaysBeforeYear(d.year) == n by { DaysBeforeYearClosedForm(d.year); }
  }

  lemma YearBelow(n: nat, d: Date)
    requires d.year >= 0 && d.month == 1 && d.day == 1
    ensures DateFrom(0, n).year < d.year <==> n < DayNumber(d)
  {
    DateFromDayNumber(0, n);
    DayNumberOrder(DateFrom(0, n), d);
  }

  /** Years 0 to 9999 are exactly the days 0 to 3652424. */
  lemma FourDigitYears(n: int)
    ensures 0 <= DateOf(n).year < 10000 <==> 0 <= n < 3652425
  {
    var d := if n >= 0 then Date(10000, 1, 1) else Date(400, 1, 1);
    if n >= 0 {
      YearBoundary(d, 3652425);
      YearBelow(n, d);
    } else {
      var eras := (DAYS_PER_ERA - 1 - n) / DAYS_PER_ERA;
      var k := n + eras * DAYS_PER_ERA;
      YearBoundary(d, DAYS_PER_ERA);
      YearBelow(k, d);
    }
  }
}
