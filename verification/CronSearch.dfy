/** The search for the next run: day by day, hour by hour, minute by minute, in local time. */
module CronSearch {
  import opened Text
  import opened Calendar
  import opened CronFields
  import opened CronMatch
  import opened CronHorizon
  import opened Moments

  /** A time zone's two conversions; None where Python raises OverflowError. */
  datatype Zone = Zone(toUtc: (Moment, bool) -> Option<Moment>, toLocal: Moment -> Option<Moment>)

  /** The instant to search from: naive local time, or aware with its conversion to UTC. */
  datatype Base = Naive(local: Moment, fold: bool) | Aware(utc: Option<Moment>)

  function BaseUtc(from: Base, zone: Zone): Option<Moment> {
    match from
    case Naive(local, fold) => zone.toUtc(local, fold)
    case Aware(utc) => utc
  }

  /** Whole minutes of the wall clock at an instant. */
  function LocalMinute(zone: Zone, utc: Moment): Option<nat> {
    match zone.toLocal(utc)
    case Some(local) => Some((local as int) / MINUTE)
    case None => None
  }

  datatype Candidate = Overflow | Absent | At(utc: Moment)

  /** One fold of `valid_candidate`: the round trip must give back the same local minute. */
  function FoldCandidate(zone: Zone, base: Moment, minute: nat, fold: bool): Candidate
    requires DayOf(minute) <= MAX_DAY
  {
    match zone.toUtc(minute * MINUTE, fold)
    case None => Overflow
    case Some(utc) =>
      match LocalMinute(zone, utc)
      case None => Overflow
      case Some(roundTrip) => if roundTrip != minute || utc <= base then Absent else At(utc)
  }

  /** `valid_candidate`: the earlier of the two folds. */
  function CandidateAt(zone: Zone, base: Moment, minute: nat): Candidate
    requires DayOf(minute) <= MAX_DAY
  {
    match (FoldCandidate(zone, base, minute, false), FoldCandidate(zone, base, minute, true))
    case (Overflow, _) => Overflow
    case (_, Overflow) => Overflow
    case (At(a), At(b)) => At(if b < a then b else a)
    case (At(a), Absent) => At(a)
    case (Absent, c) => c
  }

  /** The conversion of this local minute gives an instant after the base with that minute. */
  predicate Valid(zone: Zone, base: Moment, minute: nat, fold: bool) {
    minute * MINUTE < LIMIT && zone.toUtc(minute * MINUTE, fold).Some?
    && var utc := zone.toUtc(minute * MINUTE, fold).value; base < utc && LocalMinute(zone, utc) == Some(minute)
  }

  /** A candidate is the earliest of the valid conversions, and there is none without one. */
  lemma CandidateIsEarliest(zone: Zone, base: Moment, minute: nat)
    requires DayOf(minute) <= MAX_DAY
    ensures match CandidateAt(zone, base, minute)
            case At(t) =>
              && (exists fold :: Valid(zone, base, minute, fold) && zone.toUtc(minute * MINUTE, fold) == Some(t))
              && forall fold | Valid(zone, base, minute, fold) :: t <= zone.toUtc(minute * MINUTE, fold).value
            case Absent => forall fold :: !Valid(zone, base, minute, fold)
            case Overflow => true
  {
    FoldIsValid(zone, base, minute, false);
    FoldIsValid(zone, base, minute, true);
    hide Valid, FoldCandidate;
  }

  lemma FoldIsValid(zone: Zone, base: Moment, minute: nat, fold: bool)
    requires DayOf(minute) <= MAX_DAY
    ensures var c := FoldCandidate(zone, base, minute, fold);
            (c.At? <==> Valid(zone, base, minute, fold)) && (c.At? ==> zone.toUtc(minute * MINUTE, fold) == Some(c.utc))
  {
  }

  /** No matching minute from day `start` on and before this wall-clock time gave a candidate. */
  ghost predicate Scanned(f: Fields, zone: Zone, base: Moment, start: nat, day: nat, hour: nat, minute: nat) {
    forall m: nat | start <= DayOf(m) <= MAX_DAY && Before(m, day, hour, minute) && Matches(f, m)
      :: CandidateAt(zone, base, m) == Absent
  }

  ghost predicate Hit(f: Fields, zone: Zone, base: Moment, start: nat, m: nat, c: Candidate) {
    start <= DayOf(m) < start + HORIZON_DAYS && DayOf(m) <= MAX_DAY && Matches(f, m) && CandidateAt(zone, base, m) == c
  }

  /** Outcome of a plain scan of all local minutes in wall-clock order from day `start`. */
  ghost predicate PlainScan(f: Fields, zone: Zone, base: Moment, start: nat, r: Option<Moment>) {
    match r
    case Some(t) =>
      exists m: nat :: Hit(f, zone, base, start, m, At(t)) && Scanned(f, zone, base, start, DayOf(m), HourOf(m), MinuteIn(m))
    case None =>
      || Scanned(f, zone, base, start, start + HORIZON_DAYS, 0, 0)
      || exists m: nat :: Hit(f, zone, base, start, m, Overflow)
  }

  ghost predicate Lists(list: seq<nat>, values: set<nat>, end: nat) {
    && (forall v: nat :: v in list <==> v in values)
    && (forall i, j | 0 <= i < j < |list| :: list[i] < list[j])
    && (forall v | v in values :: v < end)
  }

  function Edge(list: seq<nat>, i: nat, end: nat): nat
    requires i <= |list|
  {
    if i < |list| then list[i] else end
  }

  lemma NothingBetween(list: seq<nat>, values: set<nat>, i: nat, end: nat, v: nat)
    requires Lists(list, values, end) && i < |list| && list[i] < v < Edge(list, i + 1, end)
    ensures v !in values
  {
    forall k | 0 <= k < |list|
      ensures list[k] != v
    {
    }
  }

  lemma SkipMinute(f: Fields, zone: Zone, base: Moment, start: nat, day: nat, hour: nat, minutes: seq<nat>, j: nat)
    requires start <= day <= MAX_DAY && hour < 24 && j < |minutes| && minutes[j] < 60 && Lists(minutes, f.minute, 60)
    requires Scanned(f, zone, base, start, day, hour, minutes[j])
    requires CandidateAt(zone, base, MinuteOf(day, hour, minutes[j])) == Absent
    ensures Scanned(f, zone, base, start, day, hour, Edge(minutes, j + 1, 60))
  {
    hide DayMatches, CandidateAt;
    forall m: nat | start <= DayOf(m) <= MAX_DAY && Before(m, day, hour, Edge(minutes, j + 1, 60)) && Matches(f, m)
      ensures CandidateAt(zone, base, m) == Absent
    {
      if !Before(m, day, hour, minutes[j]) {
        if MinuteIn(m) > minutes[j] {
          NothingBetween(minutes, f.minute, j, 60, MinuteIn(m));
        }
        MinuteOrder(m, m);
      }
    }
  }

  lemma SkipHour(f: Fields, zone: Zone, base: Moment, start: nat, day: nat, hours: seq<nat>, i: nat)
    requires i < |hours| && hours[i] < 24 && Lists(hours, f.hour, 24)
    requires Scanned(f, zone, base, start, day, hours[i], 60)
    ensures Scanned(f, zone, base, start, day, Edge(hours, i + 1, 24), 0)
  {
    hide DayMatches, CandidateAt;
    forall m: nat | start <= DayOf(m) <= MAX_DAY && Before(m, day, Edge(hours, i + 1, 24), 0) && Matches(f, m)
      ensures CandidateAt(zone, base, m) == Absent
    {
      if !Before(m, day, hours[i], 60) {
        NothingBetween(hours, f.hour, i, 24, HourOf(m));
      }
    }
  }

  /** The stretch before the first listed value holds nothing. */
  lemma SkipToFirst(f: Fields, zone: Zone, base: Moment, start: nat, day: nat, hour: nat, hours: seq<nat>, minutes: seq<nat>)
    requires Lists(minutes, f.minute, 60) && Lists(hours, f.hour, 24)
    ensures Scanned(f, zone, base, start, day, hour, 0) ==> Scanned(f, zone, base, start, day, hour, Edge(minutes, 0, 60))
    ensures Scanned(f, zone, base, start, day, 0, 0) ==> Scanned(f, zone, base, start, day, Edge(hours, 0, 24), 0)
  {
    hide DayMatches, CandidateAt;
    assert forall v | v in f.minute :: v >= Edge(minutes, 0, 60);
    assert forall v | v in f.hour :: v >= Edge(hours, 0, 24);
  }

  lemma SkipDay(f: Fields, zone: Zone, base: Moment, start: nat, day: nat)
    requires Scanned(f, zone, base, start, day, 24, 0) || (Scanned(f, zone, base, start, day, 0, 0) && !DayMatches(f, day))
    ensures Scanned(f, zone, base, start, day + 1, 0, 0)
  {
    hide DayMatches, CandidateAt;
  }

  lemma ListedMatches(f: Fields, day: nat, hour: nat, minute: nat)
    requires hour in f.hour && minute in f.minute && hour < 24 && minute < 60 && DayMatches(f, day)
    ensures Matches(f, MinuteOf(day, hour, minute))
  {
    hide DayMatches;
  }

  /** Minute `m` is on the day, gives this candidate, and is the first that gives one. */
  ghost predicate FirstAt(f: Fields, zone: Zone, base: Moment, start: nat, day: nat, candidate: Candidate, m: nat) {
    && DayOf(m) == day <= MAX_DAY && Matches(f, m) && CandidateAt(zone, base, m) == candidate
    && Scanned(f, zone, base, start, DayOf(m), HourOf(m), MinuteIn(m))
  }

  ghost predicate FirstOn(f: Fields, zone: Zone, base: Moment, start: nat, day: nat, candidate: Candidate) {
    exists m: nat :: FirstAt(f, zone, base, start, day, candidate, m)
  }

  lemma FirstIsPlain(f: Fields, zone: Zone, base: Moment, start: nat, day: nat, candidate: Candidate)
    requires FirstOn(f, zone, base, start, day, candidate) && candidate != Absent
    requires start <= day < start + HORIZON_DAYS && day <= MAX_DAY
    ensures PlainScan(f, zone, base, start, if candidate.At? then Some(candidate.utc) else None)
  {
    hide CandidateAt, Matches, Scanned, DayOf, HourOf, MinuteIn;
    var m: nat :| FirstAt(f, zone, base, start, day, candidate, m);
    assert Hit(f, zone, base, start, m, candidate);
  }

  lemma NothingIsPlain(f: Fields, zone: Zone, base: Moment, start: nat)
    requires Scanned(f, zone, base, start, start + HORIZON_DAYS, 0, 0)
    ensures PlainScan(f, zone, base, start, None)
  {
  }

  /** The hours and minutes of one day; the first candidate found, or Absent. */
  method SearchDay(f: Fields, zone: Zone, base: Moment, ghost start: nat, day: nat, hours: seq<nat>, minutes: seq<nat>)
    returns (candidate: Candidate)
    requires Lists(minutes, f.minute, 60) && Lists(hours, f.hour, 24)
    requires start <= day <= MAX_DAY && DayMatches(f, day) && Scanned(f, zone, base, start, day, 0, 0)
    ensures candidate == Absent ==> Scanned(f, zone, base, start, day, 24, 0)
    ensures candidate != Absent ==> FirstOn(f, zone, base, start, day, candidate)
  {
    hide DayMatches, CandidateAt, Matches, Scanned;
    SkipToFirst(f, zone, base, start, day, 0, hours, minutes);
    for i := 0 to |hours|
      invariant Scanned(f, zone, base, start, day, Edge(hours, i, 24), 0)
    {
      assert hours[i] in hours;
      SkipToFirst(f, zone, base, start, day, hours[i], hours, minutes);
      for j := 0 to |minutes|
        invariant Scanned(f, zone, base, start, day, hours[i], Edge(minutes, j, 60))
      {
        assert minutes[j] in minutes;
        var m := MinuteOf(day, hours[i], minutes[j]);
        candidate := CandidateAt(zone, base, m);
        ListedMatches(f, day, hours[i], minutes[j]);
        if candidate != Absent {
          assert FirstAt(f, zone, base, start, day, candidate, m);
          return;
        }
        SkipMinute(f, zone, base, start, day, hours[i], minutes, j);
      }
      SkipHour(f, zone, base, start, day, hours, i);
    }
    return Absent;
  }

  lemma SortedValues(f: Fields)
    requires WellFormed(f)
    ensures Lists(Ascending(f.minute, 0, 59), f.minute, 60) && Lists(Ascending(f.hour, 0, 23), f.hour, 24)
  {
    hide Ascending;
  }

  /** The nested search computes the plain scan. */
  method SearchDays(f: Fields, zone: Zone, base: Moment, start: nat) returns (r: Option<Moment>)
    requires WellFormed(f) && start <= MAX_DAY
    ensures PlainScan(f, zone, base, start, r)
  {
    hide DayMatches, CandidateAt, Matches, Scanned, DayOf, FirstOn, PlainScan, WellFormed, Ascending, Lists;
    var minutes, hours := Ascending(f.minute, 0, 59), Ascending(f.hour, 0, 23);
    SortedValues(f);
    NothingScanned(f, zone, base, start);
    for offset := 0 to HORIZON_DAYS
      invariant Scanned(f, zone, base, start, start + offset, 0, 0)
    {
      var day := start + offset;
      if day > MAX_DAY {
        // `current_day + timedelta(days=...)` raises OverflowError
        NoDaysLeft(f, zone, base, start, day);
        NothingIsPlain(f, zone, base, start);
        return None;
      }
      if !DayMatches(f, day) {
        SkipDay(f, zone, base, start, day);
        continue;
      }
      var candidate := SearchDay(f, zone, base, start, day, hours, minutes);
      if candidate != Absent {
        FirstIsPlain(f, zone, base, start, day, candidate);
        return if candidate.At? then Some(candidate.utc) else None;
      }
      SkipDay(f, zone, base, start, day);
    }
    NothingIsPlain(f, zone, base, start);
    return None;
  }

  lemma NothingScanned(f: Fields, zone: Zone, base: Moment, start: nat)
    ensures Scanned(f, zone, base, start, start, 0, 0)
  {
    hide Matches, CandidateAt;
  }

  lemma NoDaysLeft(f: Fields, zone: Zone, base: Moment, start: nat, day: nat)
    requires day > MAX_DAY && Scanned(f, zone, base, start, day, 0, 0)
    ensures Scanned(f, zone, base, start, start + HORIZON_DAYS, 0, 0)
  {
    hide Matches, CandidateAt;
  }

  // Zones with a fixed offset

  ghost predicate FixedOffset(zone: Zone, o: int) {
    && -DAY < o < DAY
    && (forall w: Moment, fold :: zone.toUtc(w, fold) == Clip(w - o))
    && (forall u: Moment :: zone.toLocal(u) == Clip(u + o))
  }

  /** The whole horizon, and a day on either side, is inside what `datetime` can hold. */
  predicate Headroom(base: Moment, o: int) {
    base + o >= DAY && DayOf((base + o) / MINUTE) + HORIZON_DAYS < MAX_DAY
  }

  /** A whole local minute after the base that the schedule accepts, in the calendar without end. */
  predicate Due(f: Fields, o: int, base: int, t: int) {
    t > base && t + o >= 0 && (t + o) % MINUTE == 0 && Matches(f, (t + o) / MINUTE)
  }

  ghost predicate LeastDue(f: Fields, o: int, base: int, r: Option<Moment>) {
    match r
    case Some(t) => Due(f, o, base, t) && forall t' :: Due(f, o, base, t') ==> t <= t'
    case None => forall t' :: !Due(f, o, base, t')
  }

  lemma FixedCandidate(zone: Zone, o: int, base: Moment, m: nat)
    requires FixedOffset(zone, o) && 1 <= DayOf(m) < MAX_DAY
    ensures CandidateAt(zone, base, m) == if m * MINUTE - o > base then At(m * MINUTE - o) else Absent
  {
    hide DayMatches;
    assert InRange(m * MINUTE - o);
    var utc: Moment := m * MINUTE - o;
    assert zone.toLocal(utc) == Some(m * MINUTE);
  }

  lemma LaterDay(b: nat, m: nat)
    requires DayOf(m) > DayOf(b / MINUTE)
    ensures m * MINUTE > b
  {
  }

  /** The day of a due instant is not before the day of the base. */
  lemma DueMinute(f: Fields, o: int, base: int, t: int) returns (m: nat)
    requires base + o >= 0 && Due(f, o, base, t)
    ensures t == m * MINUTE - o && Matches(f, m) && DayOf(m) >= DayOf((base + o) / MINUTE)
  {
    hide Matches;
    m := (t + o) / MINUTE;
  }

  lemma NoneEarlier(f: Fields, zone: Zone, o: int, base: Moment, start: nat, m: nat, t: Moment, t': int)
    requires FixedOffset(zone, o) && Headroom(base, o) && start == DayOf((base + o) / MINUTE)
    requires Hit(f, zone, base, start, m, At(t)) && Scanned(f, zone, base, start, DayOf(m), HourOf(m), MinuteIn(m))
    requires Due(f, o, base, t')
    ensures t <= t'
  {
    hide DayMatches, CandidateAt, Matches, Before, DayOf, HourOf, MinuteIn;
    DayAtLeast(base + o);
    FixedCandidate(zone, o, base, m);
    var m' := DueMinute(f, o, base, t');
    MinuteOrder(m', m);
    if m' < m {
      BeforeSameDay(m', DayOf(m), HourOf(m), MinuteIn(m));
      FixedCandidate(zone, o, base, m');
    }
  }

  lemma FoundIsLeast(f: Fields, zone: Zone, o: int, base: Moment, start: nat, m: nat, t: Moment)
    requires FixedOffset(zone, o) && Headroom(base, o) && start == DayOf((base + o) / MINUTE)
    requires Hit(f, zone, base, start, m, At(t)) && Scanned(f, zone, base, start, DayOf(m), HourOf(m), MinuteIn(m))
    ensures LeastDue(f, o, base, Some(t))
  {
    FoundIsDue(f, zone, o, base, start, m, t);
    hide Due, Hit, Scanned, FixedOffset, Headroom, DayOf, HourOf, MinuteIn;
    forall t' | Due(f, o, base, t')
      ensures t <= t'
    {
      NoneEarlier(f, zone, o, base, start, m, t, t');
    }
  }

  lemma FoundIsDue(f: Fields, zone: Zone, o: int, base: Moment, start: nat, m: nat, t: Moment)
    requires FixedOffset(zone, o) && Headroom(base, o) && Hit(f, zone, base, start, m, At(t)) && start == DayOf((base + o) / MINUTE)
    ensures Due(f, o, base, t)
  {
    hide DayMatches, CandidateAt, DayOf;
    DayAtLeast(base + o);
    FixedCandidate(zone, o, base, m);
  }

  lemma BeforeSameDay(m: nat, day: nat, hour: nat, minute: nat)
    requires Before(m, day, hour, minute)
    ensures DayOf(m) <= day
  {
  }

  lemma NothingFoundIsNever(f: Fields, zone: Zone, o: int, base: Moment, start: nat)
    requires WellFormed(f) && FixedOffset(zone, o) && Headroom(base, o) && start == DayOf((base + o) / MINUTE)
    requires Scanned(f, zone, base, start, start + HORIZON_DAYS, 0, 0)
    ensures !Possible(f)
  {
    hide DayMatches, CandidateAt, Possible;
    if Possible(f) {
      var k := NextMatchingDay(f, start);
      var hour :| hour in f.hour;
      var minute :| minute in f.minute;
      var m := MinuteOf(k, hour, minute);
      ListedMatches(f, k, hour, minute);
      FixedCandidate(zone, o, base, m);
      LaterDay(base + o, m);
    }
  }

  lemma ImpossibleIsNever(f: Fields, o: int, base: int)
    requires !Possible(f)
    ensures forall t :: !Due(f, o, base, t)
  {
    hide DayMatches;
    forall t: int
      ensures !Due(f, o, base, t)
    {
      if t + o >= 0 {
        ImpossibleNeverMatches(f, DayOf((t + o) / MINUTE));
      }
    }
  }

  /** In a fixed-offset zone the plain scan finds the least instant, and gives up only on schedules that never match. */
  lemma FixedOffsetScan(f: Fields, zone: Zone, o: int, base: Moment, start: nat, r: Option<Moment>)
    requires WellFormed(f) && FixedOffset(zone, o) && Headroom(base, o) && start == DayOf((base + o) / MINUTE)
    requires PlainScan(f, zone, base, start, r)
    ensures LeastDue(f, o, base, r)
    ensures r.None? <==> !Possible(f)
  {
    hide CandidateAt, Scanned, FixedOffset, Possible, Due, Matches;
    match r
    case Some(t) =>
      var m: nat :| Hit(f, zone, base, start, m, At(t)) && Scanned(f, zone, base, start, DayOf(m), HourOf(m), MinuteIn(m));
      FoundIsLeast(f, zone, o, base, start, m, t);
      if !Possible(f) {
        ImpossibleIsNever(f, o, base);
      }
    case None =>
      if m: nat :| Hit(f, zone, base, start, m, Overflow) {
        DayAtLeast(base + o);
        FixedCandidate(zone, o, base, m);
      } else {
        NothingFoundIsNever(f, zone, o, base, start);
      }
      ImpossibleIsNever(f, o, base);
  }

  lemma DayAtLeast(b: int)
    requires b >= DAY
    ensures DayOf(b / MINUTE) >= 1
  {
  }

  /** No valid conversion of the same local minute is earlier. */
  ghost predicate EarliestFold(zone: Zone, base: Moment, t: Moment) {
    match LocalMinute(zone, t)
    case Some(minute) => forall fold | Valid(zone, base, minute, fold) :: t <= zone.toUtc(minute * MINUTE, fold).value
    case None => false
  }

  /** The plain scan from the day of the base on; None when the base has no local time. */
  ghost predicate PlainScanFrom(f: Fields, zone: Zone, base: Moment, r: Option<Moment>) {
    hide PlainScan;
    match LocalMinute(zone, base)
    case Some(minute) => PlainScan(f, zone, base, DayOf(minute), r)
    case None => r.None?
  }

  /** `cron_next_run` */
  method NextRun(expr: string, from: Base, zone: Zone) returns (r: Option<Moment>)
    ensures Expression(expr).None? ==> r.None?
    // In any zone the result is after the base and its local minute matches.
    ensures r.Some? ==>
      BaseUtc(from, zone).Some? && BaseUtc(from, zone).value < r.value
      && LocalMinute(zone, r.value).Some? && CronMatches(expr, LocalMinute(zone, r.value).value)
    // Of the instants after the base with that local minute it is the earlier one.
    ensures r.Some? ==> EarliestFold(zone, BaseUtc(from, zone).value, r.value)
    // In any zone it is what a plain scan of all local minutes finds, from the day of the base on.
    ensures Expression(expr).Some? && BaseUtc(from, zone).Some? ==>
      PlainScanFrom(Expression(expr).value, zone, BaseUtc(from, zone).value, r)
    // In a fixed-offset zone it is the least such instant, and None means never.
    ensures forall o, base | Expression(expr).Some? && BaseUtc(from, zone) == Some(base) && FixedOffset(zone, o) && Headroom(base, o) ::
      LeastDue(Expression(expr).value, o, base, r) && (r.None? <==> !Possible(Expression(expr).value))
  {
    hide CandidateAt, Scanned, FixedOffset, Possible, Due, Matches, DayOf, Expression, EarliestFold, PlainScan;
    var fields := ParseExpression(expr);
    if fields.None? {
      return None;
    }
    var f := fields.value;
    var base := BaseUtc(from, zone);
    if base.None? {
      return None;
    }
    var local := LocalMinute(zone, base.value);
    forall o | FixedOffset(zone, o) && Headroom(base.value, o)
      ensures local == Some((base.value + o) / MINUTE)
    {
      LocalInFixedZone(zone, o, base.value);
    }
    if local.None? {
      return None;
    }
    var start := DayOf(local.value);
    LocalDay(zone, base.value);
    r := SearchDays(f, zone, base.value, start);
    if r.Some? {
      FoundIsSound(f, zone, base.value, start, r.value);
    }
    forall o | FixedOffset(zone, o) && Headroom(base.value, o)
      ensures LeastDue(f, o, base.value, r) && (r.None? <==> !Possible(f))
    {
      FixedOffsetScan(f, zone, o, base.value, start, r);
    }
  }

  lemma LocalInFixedZone(zone: Zone, o: int, base: Moment)
    requires FixedOffset(zone, o) && Headroom(base, o)
    ensures LocalMinute(zone, base) == Some((base + o) / MINUTE)
  {
    var b := base + o;
    assert b / MINUTE / 60 / 24 < MAX_DAY;
    assert InRange(b);
  }

  lemma LocalDay(zone: Zone, utc: Moment)
    ensures LocalMinute(zone, utc).Some? ==> DayOf(LocalMinute(zone, utc).value) <= MAX_DAY
  {
  }

  lemma FoundIsSound(f: Fields, zone: Zone, base: Moment, start: nat, t: Moment)
    requires PlainScan(f, zone, base, start, Some(t))
    ensures base < t && LocalMinute(zone, t).Some? && Matches(f, LocalMinute(zone, t).value)
    ensures EarliestFold(zone, base, t)
  {
    hide Matches, Scanned;
    var m: nat :| Hit(f, zone, base, start, m, At(t)) && Scanned(f, zone, base, start, DayOf(m), HourOf(m), MinuteIn(m));
    CandidateIsEarliest(zone, base, m);
  }
}
