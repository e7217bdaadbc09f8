/** The proleptic Gregorian calendar of Python's `datetime`. Day 0 is 0001-01-01, a Monday. */
module Calendar {

  datatype Date = Date(year: int, month: int, day: int)

  /** The last day a `datetime.date` can hold: 9999-12-31. */
  const MAX_DAY := 3_652_058

  predicate IsLeap(y: int) {
    y % 4 == 0 && (y % 100 != 0 || y % 400 == 0)
  }

  function DaysInYear(y: int): (d: int)
    ensures 365 <= d <= 366
  {
    if IsLeap(y) then 366 else 365
  }

  function DaysInMonth(y: int, m: int): (d: int)
    ensures 28 <= d <= 31
  {
    if m == 2 then (if IsLeap(y) then 29 else 28)
    else if m in {4, 6, 9, 11} then 30
    else 31
  }

  /** Length of the month in the years that make it longest. */
  function LongestMonth(m: int): (d: int)
    ensures 29 <= d <= 31
  {
    if m == 2 then 29 else if m in {4, 6, 9, 11} then 30 else 31
  }

  function YearStart(y: int): int
    requires y >= 1
  {
    365 * (y - 1) + (y - 1) / 4 - (y - 1) / 100 + (y - 1) / 400
  }

  function MonthStart(y: int, m: int): (d: int)
    requires 1 <= m <= 13
    ensures 28 * (m - 1) <= d <= 31 * (m - 1)
  {
    if m == 1 then 0 else MonthStart(y, m - 1) + DaysInMonth(y, m - 1)
  }

  predicate ValidDate(date: Date) {
    date.year >= 1 && 1 <= date.month <= 12 && 1 <= date.day <= DaysInMonth(date.year, date.month)
  }

  function DayNumber(date: Date): int
    requires ValidDate(date)
  {
    YearStart(date.year) + MonthStart(date.year, date.month) + date.day - 1
  }

  lemma StepOver4(z: int)
    ensures (z + 1) / 4 == z / 4 + (if (z + 1) % 4 == 0 then 1 else 0)
  {
  }

  lemma StepOver100(z: int)
    ensures (z + 1) / 100 == z / 100 + (if (z + 1) % 100 == 0 then 1 else 0)
  {
  }

  lemma StepOver400(z: int)
    ensures (z + 1) / 400 == z / 400 + (if (z + 1) % 400 == 0 then 1 else 0)
  {
  }

  lemma HundredIsFours(y: int)
    requires y % 100 == 0
    ensures y % 4 == 0
  {
    var q := 25 * (y / 100);
    assert y == 4 * q;
  }

  lemma FourHundredIsHundreds(y: int)
    requires y % 400 == 0
    ensures y % 100 == 0
  {
    var q := 4 * (y / 400);
    assert y == 100 * q;
  }

  lemma YearStep(y: int)
    requires y >= 1
    ensures YearStart(y + 1) == YearStart(y) + DaysInYear(y)
  {
    StepOver4(y - 1);
    StepOver100(y - 1);
    StepOver400(y - 1);
    if y % 100 == 0 {
      HundredIsFours(y);
    }
    if y % 400 == 0 {
      FourHundredIsHundreds(y);
    }
  }

  lemma MonthsFillYear(y: int)
    ensures MonthStart(y, 13) == DaysInYear(y)
  {
    assert MonthStart(y, 3) == 31 + DaysInMonth(y, 2);
    assert MonthStart(y, 5) == MonthStart(y, 3) + 61;
    assert MonthStart(y, 7) == MonthStart(y, 5) + 61;
    assert MonthStart(y, 9) == MonthStart(y, 7) + 62;
    assert MonthStart(y, 11) == MonthStart(y, 9) + 61;
    assert MonthStart(y, 13) == MonthStart(y, 11) + 61;
  }

  lemma {:induction false} MonthOrder(y: int, m: int, m': int)
    requires 1 <= m < m' <= 13
    ensures MonthStart(y, m) + DaysInMonth(y, m) <= MonthStart(y, m')
    decreases m'
  {
    if m' > m + 1 {
      MonthOrder(y, m, m' - 1);
    }
  }

  lemma {:induction false} YearOrder(y: int, y': int)
    requires 1 <= y < y'
    ensures YearStart(y) + DaysInYear(y) <= YearStart(y')
    decreases y'
  {
    if y' == y + 1 {
      YearStep(y);
    } else {
      YearOrder(y, y' - 1);
      YearStep(y' - 1);
    }
  }

  /** A date lies inside its year. */
  lemma InYear(date: Date)
    requires ValidDate(date)
    ensures YearStart(date.year) <= DayNumber(date) < YearStart(date.year) + DaysInYear(date.year)
  {
    MonthsFillYear(date.year);
    MonthOrder(date.year, date.month, 13);
  }

  ghost predicate Earlier(a: Date, b: Date) {
    a.year < b.year || (a.year == b.year && (a.month < b.month || (a.month == b.month && a.day < b.day)))
  }

  /** Day numbers sort as (year, month, day) do. */
  lemma DayOrder(a: Date, b: Date)
    requires ValidDate(a) && ValidDate(b)
    ensures DayNumber(a) < DayNumber(b) <==> Earlier(a, b)
    ensures DayNumber(a) == DayNumber(b) <==> a == b
  {
    if Earlier(a, b) {
      DayForward(a, b);
    } else if Earlier(b, a) {
      DayForward(b, a);
    }
  }

  lemma DayForward(a: Date, b: Date)
    requires ValidDate(a) && ValidDate(b) && Earlier(a, b)
    ensures DayNumber(a) < DayNumber(b)
  {
    if a.year < b.year {
      InYear(a);
      InYear(b);
      YearOrder(a.year, b.year);
    } else if a.month < b.month {
      MonthOrder(a.year, a.month, b.month);
    }
  }

  /** The year, at or after `from`, that holds day `n`. */
  function YearFrom(n: int, from: int): (y: int)
    requires from >= 1 && YearStart(from) <= n
    ensures y >= from && YearStart(y) <= n < YearStart(y) + DaysInYear(y)
    decreases n - YearStart(from)
  {
    YearStep(from);
    if n < YearStart(from) + DaysInYear(from) then from else YearFrom(n, from + 1)
  }

  function MonthFrom(y: int, rest: int, from: int): (m: int)
    requires 1 <= from <= 12 && MonthStart(y, from) <= rest < MonthStart(y, 13)
    ensures from <= m <= 12 && MonthStart(y, m) <= rest < MonthStart(y, m) + DaysInMonth(y, m)
    decreases 12 - from
  {
    if rest < MonthStart(y, from + 1) then from else MonthFrom(y, rest, from + 1)
  }

  /** The date with day number `n`: `date.fromordinal(n + 1)` and `date + timedelta(days)`. */
  function DateOf(n: nat): (date: Date)
    ensures ValidDate(date) && DayNumber(date) == n
  {
    var y := YearFrom(n, 1);
    MonthsFillYear(y);
    var m := MonthFrom(y, n - YearStart(y), 1);
    Date(y, m, n - YearStart(y) - MonthStart(y, m) + 1)
  }

  /** Each day number is one date and each date one day number. */
  lemma DateOfDayNumber(date: Date)
    requires ValidDate(date)
    ensures DayNumber(date) >= 0 && DateOf(DayNumber(date)) == date
  {
    InYear(date);
    DayOrder(DateOf(DayNumber(date)), date);
  }

  lemma LastDayNumber()
    ensures DayNumber(Date(9999, 12, 31)) == MAX_DAY
  {
    MonthsFillYear(9999);
    assert MonthStart(9999, 13) == MonthStart(9999, 12) + 31;
    assert YearStart(9999) + 365 - 1 == MAX_DAY;
  }

  lemma YearInRange(n: nat)
    ensures n <= MAX_DAY <==> DateOf(n).year <= 9999
  {
    hide DateOf, DayNumber, DaysInMonth;
    var last := Date(9999, 12, 31);
    LastDayNumber();
    DecemberLast(DateOf(n));
    DayOrder(DateOf(n), last);
    DayOrder(last, DateOf(n));
  }

  lemma DecemberLast(date: Date)
    requires ValidDate(date)
    ensures ValidDate(Date(9999, 12, 31)) && !(date.year <= 9999 && Earlier(Date(9999, 12, 31), date))
    ensures date.year > 9999 ==> Earlier(Date(9999, 12, 31), date)
  {
  }

  lemma LastDay()
    ensures DayNumber(Date(9999, 12, 31)) == MAX_DAY
    ensures forall n: nat :: n <= MAX_DAY <==> DateOf(n).year <= 9999
  {
    hide DateOf, DayNumber;
    LastDayNumber();
    forall n: nat
      ensures n <= MAX_DAY <==> DateOf(n).year <= 9999
    {
      YearInRange(n);
    }
  }

  /** `date.weekday()`: Monday is 0. */
  function Weekday(n: nat): (d: int)
    ensures 0 <= d < 7
  {
    n % 7
  }
}
