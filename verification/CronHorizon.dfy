/** How far apart the days of a schedule can be: the arithmetic behind the fixed search horizon. */
module CronHorizon {
  import opened Calendar
  import opened CronFields
  import opened CronMatch

  /** `CRON_SEARCH_YEARS * 366 + 1` */
  const HORIZON_DAYS := 8 * 366 + 1

  /** The widest gap: from 29 February across a non-leap century to the next. */
  const WIDEST_GAP := 2921

  /** Some day can match: only a day-of-month rule on too short months cannot. */
  ghost predicate Possible(f: Fields) {
    DomFree(f) || !DowFree(f) || exists m, d :: m in f.month && d in f.dom && d <= LongestMonth(m)
  }

  lemma ImpossibleNeverMatches(f: Fields, day: nat)
    requires !Possible(f)
    ensures !DayMatches(f, day)
  {
    var date := DateOf(day);
    assert date.day <= LongestMonth(date.month);
  }

  predicate EveryYear(m: int, d: int) {
    1 <= m <= 12 && 1 <= d <= (if m == 2 then 28 else LongestMonth(m))
  }

  /** A date that every year has comes round within 366 days. */
  lemma NextYearly(n: nat, m: int, d: int) returns (k: nat)
    requires EveryYear(m, d)
    ensures n < k <= n + 366 && DateOf(k).month == m && DateOf(k).day == d
  {
    hide DateOf, DayNumber, YearStart, MonthStart;
    var y := DateOf(n).year;
    var here, next := Date(y, m, d), Date(y + 1, m, d);
    InYear(DateOf(n));
    InYear(here);
    OneYearOn(here);
    DateOfDayNumber(here);
    DateOfDayNumber(next);
    k := if n < DayNumber(here) then DayNumber(here) else DayNumber(next);
  }

  lemma OneYearOn(date: Date)
    requires date.year >= 1 && EveryYear(date.month, date.day)
    ensures DayNumber(date) + 365 <= DayNumber(Date(date.year + 1, date.month, date.day)) <= DayNumber(date) + 366
  {
    YearStep(date.year);
    MonthShift(date.year, date.year + 1, date.month);
    if date.month <= 2 {
      assert MonthStart(date.year, 2) == 31;
      assert MonthStart(date.year + 1, 2) == 31;
    }
  }

  /** After February a month starts one day later in a leap year. */
  lemma {:induction false} MonthShift(y: int, y': int, m: int)
    requires 1 <= m <= 13
    ensures m >= 3 ==> MonthStart(y', m) - MonthStart(y, m) == DaysInYear(y') - DaysInYear(y)
    decreases m
  {
    if m > 3 {
      MonthShift(y, y', m - 1);
    } else if m == 3 {
      assert MonthStart(y, 3) == 31 + DaysInMonth(y, 2);
      assert MonthStart(y', 3) == 31 + DaysInMonth(y', 2);
    }
  }

  lemma Remainder4(q: int, r: int)
    requires 0 <= r < 4
    ensures (4 * q + r) % 4 == r && (4 * q + r) / 4 == q
  {
  }

  lemma Remainder100(q: int, r: int)
    requires 0 <= r < 100
    ensures (100 * q + r) % 100 == r
  {
  }

  /** Between multiples of four there is no leap year. */
  lemma NoLeapBetween(q: int, z: int)
    requires 4 * q < z < 4 * q + 4
    ensures !IsLeap(z)
  {
    Remainder4(q, z - 4 * q);
  }

  /** Four years after a multiple of a hundred comes a leap year. */
  lemma LeapAfterCentury(century: int)
    requires century % 100 == 0
    ensures IsLeap(century + 4)
  {
    var c := century / 100;
    assert century == 100 * c;
    Remainder100(c, 4);
    Remainder4(25 * c + 1, 0);
  }

  /** The next leap year is at most eight years on, and seven unless this year is one. */
  lemma NextLeapYear(y: int) returns (next: int)
    requires y >= 1
    ensures y < next <= y + 8 && IsLeap(next) && (!IsLeap(y) ==> next <= y + 7)
    ensures forall z | y < z < next :: !IsLeap(z)
  {
    var q, r := y / 4, y % 4;
    assert y == 4 * q + r;
    var four := 4 * q + 4;
    Remainder4(q + 1, 0);
    forall z | 4 * q < z < four {
      NoLeapBetween(q, z);
    }
    if IsLeap(four) {
      next := four;
    } else {
      assert four % 100 == 0;
      next := four + 4;
      LeapAfterCentury(four);
      forall z | four < z < next {
        NoLeapBetween(q + 1, z);
      }
      FourBeforeCentury(four);
    }
    assert !IsLeap(y) ==> r > 0 || y % 100 == 0;
  }

  /** Four years before a century year there is a leap year, so a common year a multiple of four is not followed by two. */
  lemma FourBeforeCentury(century: int)
    requires century % 100 == 0
    ensures IsLeap(century - 4)
  {
    var c := century / 100;
    assert century == 100 * c;
    Remainder100(c - 1, 96);
    Remainder4(25 * c - 1, 0);
  }

  lemma {:induction false} LeaplessSpan(y: int, y': int)
    requires 1 <= y < y' && forall z | y < z < y' :: !IsLeap(z)
    ensures YearStart(y') == YearStart(y) + 365 * (y' - y) + (if IsLeap(y) then 1 else 0)
    decreases y'
  {
    YearStep(y' - 1);
    if y' > y + 1 {
      LeaplessSpan(y, y' - 1);
      assert !IsLeap(y' - 1);
    }
  }

  lemma LeapDayNumber(y: int)
    requires y >= 1 && IsLeap(y)
    ensures ValidDate(Date(y, 2, 29)) && DayNumber(Date(y, 2, 29)) == YearStart(y) + 59
  {
    assert MonthStart(y, 2) == 31;
  }

  lemma NextLeapDay(n: nat) returns (k: nat)
    ensures n < k <= n + WIDEST_GAP && DateOf(k).month == 2 && DateOf(k).day == 29
  {
    var y := DateOf(n).year;
    InYear(DateOf(n));
    var next := NextLeapYear(y);
    LeaplessSpan(y, next);
    LeapDayNumber(next);
    DateOfDayNumber(Date(next, 2, 29));
    k := DayNumber(Date(next, 2, 29));
    if IsLeap(y) {
      LeapDayNumber(y);
      DateOfDayNumber(Date(y, 2, 29));
      if n < DayNumber(Date(y, 2, 29)) {
        k := DayNumber(Date(y, 2, 29));
      }
    }
  }

  /** A few days after the first of a month are still in that month. */
  lemma SameMonth(first: nat, days: nat)
    requires DateOf(first).day == 1 && days < 28
    ensures DateOf(first + days).month == DateOf(first).month && DateOf(first + days).day == 1 + days
  {
    hide DateOf, YearStart, MonthStart;
    var date := DateOf(first);
    DateOfDayNumber(Date(date.year, date.month, 1 + days));
  }

  lemma NextWeekday(first: nat, w: nat) returns (days: nat)
    requires w < 7
    ensures days < 7 && (Weekday(first + days) + 1) % 7 == w
  {
    var q, r := first / 7, first % 7;
    assert first == 7 * q + r;
    days := if w + 6 - r < 7 then w + 6 - r else w - 1 - r;
    if w == 0 {
      Remainder7(q, 6);
    } else if days == w + 6 - r {
      Remainder7(q + 1, w - 1);
    } else {
      Remainder7(q, w - 1);
    }
  }

  lemma Remainder7(q: int, r: int)
    requires 0 <= r < 7
    ensures (7 * q + r) % 7 == r
  {
  }

  /** A restricted weekday, or no restriction at all, selects a day in the first week of any month. */
  lemma NextByWeekday(f: Fields, n: nat) returns (k: nat)
    requires WellFormed(f) && (!DowFree(f) || DomFree(f))
    ensures n < k <= n + 372 && DayMatches(f, k)
  {
    hide DateOf, Range, Weekday;
    var m :| m in f.month;
    var w :| w in f.dow;
    var first := NextYearly(n, m, 1);
    var days := NextWeekday(first, w);
    SameMonth(first, days);
    k := first + days;
  }

  lemma NextByDate(f: Fields, n: nat) returns (k: nat)
    requires WellFormed(f) && Possible(f) && DowFree(f) && !DomFree(f)
    ensures n < k <= n + WIDEST_GAP && DayMatches(f, k)
  {
    hide DateOf, Range, Weekday;
    var m, d :| m in f.month && d in f.dom && d <= LongestMonth(m);
    if EveryYear(m, d) {
      k := NextYearly(n, m, d);
    } else {
      k := NextLeapDay(n);
    }
  }

  /** From any day, a schedule that can match at all matches again within the widest gap. */
  lemma NextMatchingDay(f: Fields, n: nat) returns (k: nat)
    requires WellFormed(f) && Possible(f)
    ensures n < k <= n + WIDEST_GAP && DayMatches(f, k)
  {
    if !DowFree(f) || DomFree(f) {
      k := NextByWeekday(f, n);
    } else {
      k := NextByDate(f, n);
    }
  }

  /** The last leap year before a century year that is not one. */
  predicate BeforeLeaplessCentury(y: int) {
    y >= 1 && y % 100 == 96 && (y + 4) % 400 != 0
  }

  lemma CenturyYears(y: int)
    requires BeforeLeaplessCentury(y)
    ensures IsLeap(y) && IsLeap(y + 8) && forall z | y < z < y + 8 :: !IsLeap(z)
  {
    var c := y / 100;
    assert y == 100 * c + 96;
    Remainder100(c + 1, 0);
    FourBeforeCentury(y + 4);
    LeapAfterCentury(y + 4);
    forall z | y < z < y + 8
      ensures !IsLeap(z)
    {
      if z < y + 4 {
        NoLeapBetween(25 * c + 24, z);
      } else if z > y + 4 {
        NoLeapBetween(25 * c + 25, z);
      }
    }
  }

  lemma CenturyGap(y: int)
    requires BeforeLeaplessCentury(y)
    ensures IsLeap(y) && IsLeap(y + 8) && forall z | y < z < y + 8 :: !IsLeap(z)
    ensures ValidDate(Date(y, 2, 29)) && ValidDate(Date(y + 8, 2, 29))
    ensures DayNumber(Date(y + 8, 2, 29)) == DayNumber(Date(y, 2, 29)) + WIDEST_GAP
  {
    hide DayNumber, YearStart, IsLeap;
    CenturyYears(y);
    LeapDayNumber(y);
    LeapDayNumber(y + 8);
    LeaplessSpan(y, y + 8);
  }

  lemma LeapDayOnly(f: Fields, k: nat)
    requires f.dom == {29} && f.month == {2} && DowFree(f)
    ensures DayMatches(f, k) <==> DateOf(k).month == 2 && DateOf(k).day == 29
  {
    hide DateOf, Range;
    assert 1 in Range(1, 31, 1) && 1 !in f.dom;
  }

  /** The gap is attained at every century year that is not a leap year. */
  lemma WidestGapAttained(f: Fields, y: int, day: nat)
    requires f.dom == {29} && f.month == {2} && DowFree(f)
    requires BeforeLeaplessCentury(y) && DateOf(day) == Date(y, 2, 29)
    ensures DayMatches(f, day) && DayMatches(f, day + WIDEST_GAP)
    ensures forall k | day < k < day + WIDEST_GAP :: !DayMatches(f, k)
  {
    hide DateOf, DayNumber, DayMatches, DowFree;
    CenturyGap(y);
    DateOfDayNumber(Date(y + 8, 2, 29));
    LeapDayOnly(f, day);
    LeapDayOnly(f, day + WIDEST_GAP);
    forall k | day < k < day + WIDEST_GAP
      ensures !DayMatches(f, k)
    {
      DayOrder(DateOf(day), DateOf(k));
      DayOrder(DateOf(k), Date(y + 8, 2, 29));
      LeapDayOnly(f, k);
    }
  }
}
