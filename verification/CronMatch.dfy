/** When a schedule matches: days, and the whole local minutes inside them. */
module CronMatch {
  import opened Text
  import opened Calendar
  import opened CronFields

  predicate DomFree(f: Fields) {
    f.dom == Range(1, 31, 1)
  }

  predicate DowFree(f: Fields) {
    f.dow == Range(0, 6, 1)
  }

  /** The day rule: two restricted day fields are joined by "or". */
  predicate DayRule(f: Fields, day: nat) {
    var domMatches := DateOf(day).day in f.dom;
    var dowMatches := (Weekday(day) + 1) % 7 in f.dow;
    if !DomFree(f) && !DowFree(f) then domMatches || dowMatches
    else if !DomFree(f) then domMatches
    else if !DowFree(f) then dowMatches
    else true
  }

  predicate DayMatches(f: Fields, day: nat) {
    DateOf(day).month in f.month && DayRule(f, day)
  }

  // A local time is its count of whole minutes since 0001-01-01T00:00.

  function MinuteIn(m: nat): (v: nat)
    ensures v < 60
  {
    m % 60
  }

  function HourOf(m: nat): (v: nat)
    ensures v < 24
  {
    m / 60 % 24
  }

  function DayOf(m: nat): nat {
    m / 60 / 24
  }

  predicate Matches(f: Fields, m: nat) {
    MinuteIn(m) in f.minute && HourOf(m) in f.hour && DayMatches(f, DayOf(m))
  }

  /** `cron_matches`: a refused expression matches nothing. */
  predicate CronMatches(expr: string, m: nat) {
    match Expression(expr)
    case Some(f) => Matches(f, m)
    case None => false
  }

  function MinuteOf(day: nat, hour: nat, minute: nat): (m: nat)
    requires hour < 24 && minute < 60
    ensures DayOf(m) == day && HourOf(m) == hour && MinuteIn(m) == minute
  {
    (day * 24 + hour) * 60 + minute
  }

  ghost predicate Before(m: nat, day: nat, hour: nat, minute: nat) {
    DayOf(m) < day || (DayOf(m) == day && (HourOf(m) < hour || (HourOf(m) == hour && MinuteIn(m) < minute)))
  }

  /** Minutes sort as (day, hour, minute) do. */
  lemma MinuteOrder(m: nat, m': nat)
    ensures m < m' <==> Before(m, DayOf(m'), HourOf(m'), MinuteIn(m'))
    ensures m == MinuteOf(DayOf(m), HourOf(m), MinuteIn(m))
  {
    var h, h' := m / 60, m' / 60;
    assert m == 60 * h + m % 60 && m' == 60 * h' + m' % 60;
    assert h == 24 * (h / 24) + h % 24 && h' == 24 * (h' / 24) + h' % 24;
  }
}
