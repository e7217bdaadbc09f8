/** Cron expressions as they are written, and what they say apart from how they are parsed. */
module CronTexts {
  import opened Text
  import opened Decimal
  import opened Calendar
  import opened CronFields
  import opened CronMatch

  datatype Base = Star | Number(n: nat) | Between(lo: nat, hi: nat)

  /** What stands between two commas: a base, with or without `/step`. */
  datatype Part = Part(base: Base, step: Option<nat>)

  datatype Schedule = Schedule(minute: seq<Part>, hour: seq<Part>, dom: seq<Part>, month: seq<Part>, dow: seq<Part>)

  function BaseText(base: Base): string {
    match base
    case Star => "*"
    case Number(n) => Render(n)
    case Between(lo, hi) => Render(lo) + ['-'] + Render(hi)
  }

  function PartText(p: Part): string {
    if p.step.Some? then BaseText(p.base) + ['/'] + Render(p.step.value) else BaseText(p.base)
  }

  function PartTexts(parts: seq<Part>): (texts: seq<string>)
    ensures |texts| == |parts| && forall i | 0 <= i < |parts| :: texts[i] == PartText(parts[i])
  {
    seq(|parts|, i requires 0 <= i < |parts| => PartText(parts[i]))
  }

  function ListText(parts: seq<Part>): string {
    Join(PartTexts(parts), ',')
  }

  function ExpressionText(s: Schedule): string {
    Join([ListText(s.minute), ListText(s.hour), ListText(s.dom), ListText(s.month), ListText(s.dow)], ' ')
  }

  // What the text says

  /** A step that is written is a positive number of at most as many digits as Python reads. */
  predicate StepReadable(p: Part) {
    p.step.Some? ==> p.step.value > 0 && |Render(p.step.value)| <= MAX_DIGITS
  }

  /** The values are in the field's range and in order. */
  predicate Readable(p: Part, min: nat, max: nat) {
    StepReadable(p) && match p.base
    case Star => min <= max
    case Number(n) => min <= n <= max
    case Between(lo, hi) => min <= lo <= hi <= max
  }

  /** Within the bounds, and a whole number of steps above the lower one. */
  predicate InSteps(v: int, lo: nat, hi: int, step: Option<nat>) {
    lo <= v <= hi && (step.Some? && step.value > 0 ==> (v - lo) % step.value == 0)
  }

  /** A star is the whole range, a number itself, or with a step everything from it on. */
  predicate Says(p: Part, min: nat, max: nat, v: int) {
    match p.base
    case Star => InSteps(v, min, max, p.step)
    case Number(n) => if p.step.None? then v == n else InSteps(v, n, max, p.step)
    case Between(lo, hi) => InSteps(v, lo, hi, p.step)
  }

  predicate ListReadable(parts: seq<Part>, min: nat, max: nat) {
    parts != [] && forall i | 0 <= i < |parts| :: Readable(parts[i], min, max)
  }

  predicate ListSays(parts: seq<Part>, min: nat, max: nat, v: int) {
    exists i | 0 <= i < |parts| :: Says(parts[i], min, max, v)
  }

  predicate ScheduleReadable(s: Schedule) {
    && ListReadable(s.minute, 0, 59) && ListReadable(s.hour, 0, 23) && ListReadable(s.dom, 1, 31)
    && ListReadable(s.month, 1, 12) && ListReadable(s.dow, 0, 7)
  }

  /** Days since Sunday, by the civil calendar: 2 January 2000 was one. */
  function SinceSunday(day: nat): (d: nat)
    ensures d < 7
  {
    (day - DayNumber(Date(2000, 1, 2))) % 7
  }

  /** Sunday is 0 or 7. */
  predicate SaysWeekday(parts: seq<Part>, d: nat) {
    ListSays(parts, 0, 7, d) || (d == 0 && ListSays(parts, 0, 7, 7))
  }

  /** The day of the month or the weekday is named; one that leaves out no day does not count as naming it. */
  predicate SaysDay(s: Schedule, day: nat) {
    var monthDay, weekday := ListSays(s.dom, 1, 31, DateOf(day).day), SaysWeekday(s.dow, SinceSunday(day));
    if forall d | 1 <= d <= 31 :: ListSays(s.dom, 1, 31, d) then weekday
    else if forall d | 0 <= d < 7 :: SaysWeekday(s.dow, d) then monthDay
    else monthDay || weekday
  }

  predicate SaysMinute(s: Schedule, m: nat) {
    && ListSays(s.minute, 0, 59, m % 60) && ListSays(s.hour, 0, 23, m % 1440 / 60)
    && ListSays(s.month, 1, 12, DateOf(m / 1440).month) && SaysDay(s, m / 1440)
  }

  // The day rule

  /** 1 January 2000 is a Saturday, and weekdays follow each other. */
  lemma WeekdayIsCivil(day: nat)
    ensures Weekday(DayNumber(Date(2000, 1, 1))) == 5 && Weekday(day + 1) == (Weekday(day) + 1) % 7
    ensures (Weekday(day) + 1) % 7 == SinceSunday(day)
  {
    assert DayNumber(Date(2000, 1, 2)) == 730120;
  }

  /** What the day rule means for a schedule's value sets. */
  lemma DayRuleMeans(f: Fields, day: nat)
    requires WellFormed(f)
    ensures (forall d | 1 <= d <= 31 :: d in f.dom) ==>
              (DayMatches(f, day) <==> DateOf(day).month in f.month && SinceSunday(day) in f.dow)
    ensures (forall d | 0 <= d < 7 :: d in f.dow) ==>
              (DayMatches(f, day) <==> DateOf(day).month in f.month && DateOf(day).day in f.dom)
    ensures (exists d | 1 <= d <= 31 :: d !in f.dom) && (exists d | 0 <= d < 7 :: d !in f.dow) ==>
              (DayMatches(f, day) <==> DateOf(day).month in f.month && (DateOf(day).day in f.dom || SinceSunday(day) in f.dow))
  {
    hide DateOf, Weekday, SinceSunday;
    WeekdayIsCivil(day);
    WholeRange(f.dom, 1, 31);
    WholeRange(f.dow, 0, 6);
  }

  lemma WholeRange(values: set<nat>, lo: nat, hi: nat)
    requires forall v | v in values :: lo <= v <= hi
    ensures values == Range(lo, hi, 1) <==> forall v | lo <= v <= hi :: v in values
  {
    hide Range;
    forall v: nat
      ensures v in Range(lo, hi, 1) <==> lo <= v <= hi
    {
      RangeHas(lo, hi, 1, v);
      if lo <= v <= hi {
        assert Reached(lo, hi, 1, v, v - lo);
      }
    }
  }

  // Words

  lemma {:induction false} JoinedCharacters(parts: seq<string>, sep: char)
    ensures forall c | c in Join(parts, sep) :: c == sep || exists i :: 0 <= i < |parts| && c in parts[i]
    ensures parts != [] && parts[0] != [] ==> Join(parts, sep) != []
  {
    if |parts| > 1 {
      JoinedCharacters(parts[1..], sep);
      forall c | c in Join(parts[1..], sep) && c != sep
        ensures exists i :: 0 <= i < |parts| && c in parts[i]
      {
        var i :| 0 <= i < |parts[1..]| && c in parts[1..][i];
        assert c in parts[i + 1];
      }
    }
  }

  ghost predicate IsWord(s: string) {
    s != [] && forall i | 0 <= i < |s| :: !IsSpace(s[i])
  }

  lemma WordThenRest(head: string, tail: string)
    requires IsWord(head)
    requires tail == [] || IsSpace(tail[0])
    ensures Words(head + tail) == [head] + Words(tail)
  {
    var s := head + tail;
    assert forall i | 0 <= i < |head| :: s[i] == head[i];
    assert s[|head|..] == tail;
    assert WordLength(s) == |head|;
    assert s[..|head|] == head;
  }

  lemma {:induction false} WordsOfJoin(words: seq<string>)
    requires forall w | w in words :: IsWord(w)
    ensures Words(Join(words, ' ')) == words
  {
    if words != [] {
      var tail := if |words| == 1 then [] else [' '] + Join(words[1..], ' ');
      assert Join(words, ' ') == words[0] + tail;
      WordThenRest(words[0], tail);
      WordsOfJoin(words[1..]);
      if |words| > 1 {
        assert tail[1..] == Join(words[1..], ' ');
      }
    }
  }

  // Reading a part back

  lemma SmallRead(n: nat)
    ensures n < 100 ==> ParseInt(Render(n)) == Some(n)
    ensures ParseInt(Render(n)) == Some(n) || (ParseInt(Render(n)) == None && n >= 100)
  {
    hide Render, ParseInt;
    ParseIntRender(n);
    RenderLength(n);
  }

  lemma OnlyDigits(n: nat)
    ensures forall c | c in Render(n) :: c != '-' && c != '/' && c != ',' && c != '*' && !IsSpace(c)
    ensures Render(n) != "*"
  {
    hide Render;
    assert '*' in "*";
  }

  lemma BaseSplit(base: Base)
    ensures match base
            case Star => BaseText(base) == "*"
            case Number(n) => BaseText(base) != "*" && Split(BaseText(base), '-') == [Render(n)]
            case Between(lo, hi) => BaseText(base) != "*" && Split(BaseText(base), '-') == [Render(lo), Render(hi)]
  {
    hide Render, Split;
    match base
    case Star =>
    case Number(n) =>
      OnlyDigits(n);
      SplitPrefix(Render(n), [], '-');
    case Between(lo, hi) =>
      OnlyDigits(lo);
      OnlyDigits(hi);
      SplitPrefix(Render(lo), Render(hi), '-');
      SplitPrefix(Render(hi), [], '-');
      assert |BaseText(base)| > 1;
  }

  function Ends(base: Base, open: bool, min: nat, max: nat): (int, int) {
    match base
    case Star => (min, max)
    case Number(n) => (n, if open then max else n)
    case Between(lo, hi) => (lo, hi)
  }

  lemma BoundsRead(base: Base, open: bool, min: nat, max: nat)
    requires max < 100
    ensures var bounds := ParseBounds(BaseText(base), open, min, max); var (lo, hi) := Ends(base, open, min, max);
            bounds == Some((lo, hi)) || (bounds == None && (lo > max || hi > max))
  {
    hide Render, Split, ParseInt, BaseText;
    BaseSplit(base);
    match base
    case Star =>
    case Number(n) =>
      SmallRead(n);
      var ends := Split(BaseText(base), '-');
      JoinSplit(BaseText(base), '-');
    case Between(lo, hi) =>
      SmallRead(lo);
      SmallRead(hi);
  }

  lemma BaseCharacters(base: Base)
    ensures BaseText(base) != [] && forall c | c in BaseText(base) :: c != '/' && c != ',' && !IsSpace(c)
  {
    hide Render;
    match base
    case Star =>
    case Number(n) => OnlyDigits(n);
    case Between(lo, hi) =>
      OnlyDigits(lo);
      OnlyDigits(hi);
  }

  lemma PartCharacters(p: Part)
    ensures IsWord(PartText(p)) && ',' !in PartText(p)
  {
    hide Render, BaseText, IsSpace;
    BaseCharacters(p.base);
    var t := PartText(p);
    if p.step.Some? {
      OnlyDigits(p.step.value);
    }
    assert !IsSpace('/') by { NotSpace(); }
    forall c | c in t
      ensures !IsSpace(c) && c != ','
    {
    }
    assert forall i | 0 <= i < |t| :: t[i] in t;
  }

  lemma NotSpace()
    ensures !IsSpace('/') && !IsSpace(',')
  {
  }

  lemma PartSplit(p: Part)
    ensures Strip(PartText(p)) == PartText(p)
    ensures Split(PartText(p), '/') == if p.step.Some? then [BaseText(p.base), Render(p.step.value)] else [BaseText(p.base)]
  {
    hide Render, BaseText, Split, Strip;
    PartCharacters(p);
    StripDigits(PartText(p));
    BaseCharacters(p.base);
    if p.step.Some? {
      OnlyDigits(p.step.value);
      SplitPrefix(BaseText(p.base), Render(p.step.value), '/');
      SplitPrefix(Render(p.step.value), [], '/');
    } else {
      SplitPrefix(BaseText(p.base), [], '/');
    }
  }

  function SpanOf(p: Part, min: nat, max: nat): Span
    requires Readable(p, min, max)
  {
    var (lo, hi) := Ends(p.base, p.step.Some?, min, max);
    Span(lo, hi, if p.step.Some? then p.step.value else 1)
  }

  /** A part is accepted exactly when its values are in range and in order and its step can be read and is positive. */
  lemma PartRead(p: Part, min: nat, max: nat)
    requires max < 100
    ensures ParsePart(PartText(p), min, max) == if Readable(p, min, max) then Some(SpanOf(p, min, max)) else None
  {
    hide Render, BaseText, PartText, Split, Strip, ParseInt, ParseBounds;
    PartSplit(p);
    PartCharacters(p);
    BoundsRead(p.base, p.step.Some?, min, max);
    if p.step.Some? {
      ParseIntRender(p.step.value);
    }
  }

  lemma StepsDivide(k: nat, step: nat)
    requires step > 0
    ensures (k * step) % step == 0
  {
    var q, r := (k * step) / step, (k * step) % step;
    assert k * step == q * step + r;
    MoreSteps(k, q, step);
    MoreSteps(q, k, step);
  }

  lemma MoreSteps(a: nat, b: nat, step: nat)
    ensures a < b ==> a * step + step <= b * step
  {
    if a < b {
      Product(b - a - 1, step);
      assert b * step == a * step + (b - a - 1) * step + step;
    }
  }

  lemma Product(a: nat, b: nat)
    ensures a * b >= 0 && (a + 1) * b == a * b + b
  {
  }

  /** The expanded range of an accepted part holds the values that the part says. */
  lemma SpanSays(p: Part, min: nat, max: nat, v: nat)
    requires Readable(p, min, max)
    ensures var span := SpanOf(p, min, max);
            (exists k: nat :: Reached(span.lo, span.hi, span.step, v, k)) <==> Says(p, min, max, v)
  {
    hide Render;
    var span := SpanOf(p, min, max);
    if k: nat :| Reached(span.lo, span.hi, span.step, v, k) {
      StepsDivide(k, span.step);
      Product(k, span.step);
    }
    if Says(p, min, max, v) {
      var d := v - span.lo;
      var k := d / span.step;
      assert d == k * span.step + d % span.step;
      assert d % span.step == 0;
      assert Reached(span.lo, span.hi, span.step, v, k);
    }
  }

  // Reading lists and expressions back

  lemma {:induction false} PartsRead(parts: seq<Part>, texts: seq<string>, min: nat, max: nat)
    requires max < 100 && |texts| == |parts| && forall i | 0 <= i < |parts| :: texts[i] == PartText(parts[i])
    ensures var spans := ParseParts(texts, min, max);
            && (spans.Some? <==> forall i | 0 <= i < |parts| :: Readable(parts[i], min, max))
            && (spans.Some? ==> forall i | 0 <= i < |parts| :: spans.value[i] == SpanOf(parts[i], min, max))
  {
    hide ParsePart, PartText, Readable, SpanOf;
    if parts != [] {
      var n := |parts| - 1;
      PartsRead(parts[..n], texts[..n], min, max);
      PartRead(parts[n], min, max);
      assert forall i | 0 <= i < n :: parts[..n][i] == parts[i];
    }
  }

  /** A list is accepted exactly when all its parts are, and selects what one of them says. */
  lemma ListRead(parts: seq<Part>, min: nat, max: nat)
    requires parts != [] && max < 100
    ensures Field(ListText(parts), min, max).Some? <==> ListReadable(parts, min, max)
    ensures ListReadable(parts, min, max) ==>
              forall v: nat :: v in Field(ListText(parts), min, max).value <==> ListSays(parts, min, max, v)
  {
    hide ParseParts, PartText, Union, Readable, SpanOf, Says, Reached;
    var texts := PartTexts(parts);
    forall t | t in texts
      ensures ',' !in t
    {
      var i :| 0 <= i < |texts| && texts[i] == t;
      PartCharacters(parts[i]);
    }
    SplitJoin(texts, ',');
    PartsRead(parts, texts, min, max);
    if ListReadable(parts, min, max) {
      var spans := ParseParts(texts, min, max).value;
      forall v: nat
        ensures v in Field(ListText(parts), min, max).value <==> ListSays(parts, min, max, v)
      {
        FieldMeaning(ListText(parts), min, max, v);
        SpansSay(parts, spans, min, max, v);
      }
    }
  }

  lemma SpansSay(parts: seq<Part>, spans: seq<Span>, min: nat, max: nat, v: nat)
    requires |spans| == |parts| && forall i | 0 <= i < |parts| :: Readable(parts[i], min, max) && spans[i] == SpanOf(parts[i], min, max)
    ensures ReachedBySome(spans, v) <==> ListSays(parts, min, max, v)
  {
    hide Readable, SpanOf, Says, Reached;
    forall i | 0 <= i < |parts|
      ensures (exists k: nat :: Reached(spans[i].lo, spans[i].hi, spans[i].step, v, k)) <==> Says(parts[i], min, max, v)
    {
      SpanSays(parts[i], min, max, v);
    }
  }

  lemma ListIsWord(parts: seq<Part>)
    requires parts != []
    ensures IsWord(ListText(parts))
  {
    hide PartText, IsSpace;
    var texts := PartTexts(parts);
    var s := ListText(parts);
    PartCharacters(parts[0]);
    JoinedCharacters(texts, ',');
    forall i | 0 <= i < |s|
      ensures !IsSpace(s[i])
    {
      assert s[i] in s;
      NotSpace();
      if s[i] != ',' {
        var j :| 0 <= j < |texts| && s[i] in texts[j];
        PartCharacters(parts[j]);
      }
    }
  }

  predicate Written(s: Schedule) {
    s.minute != [] && s.hour != [] && s.dom != [] && s.month != [] && s.dow != []
  }

  /** The five value sets are those that the five lists say. */
  ghost predicate SetsSaid(s: Schedule, f: Fields) {
    && (forall v: nat :: v in f.minute <==> ListSays(s.minute, 0, 59, v))
    && (forall v: nat :: v in f.hour <==> ListSays(s.hour, 0, 23, v))
    && (forall v: nat :: v in f.dom <==> ListSays(s.dom, 1, 31, v))
    && (forall v: nat :: v in f.month <==> ListSays(s.month, 1, 12, v))
    && (forall v: nat :: v in f.dow <==> v < 7 && SaysWeekday(s.dow, v))
  }

  lemma WeekdaysSaid(parts: seq<Part>, days: set<nat>)
    requires ListReadable(parts, 0, 7) && forall v: nat :: v in days <==> ListSays(parts, 0, 7, v)
    ensures forall v: nat :: v in Weekdays(days) <==> v < 7 && SaysWeekday(parts, v)
  {
    hide Says;
    forall v: nat
      ensures v in Weekdays(days) <==> v < 7 && SaysWeekday(parts, v)
    {
      if v in Weekdays(days) {
        var day :| day in days && v == day % 7;
        assert day <= 7 by { SaidWithin(parts, 0, 7, day); }
      }
      if v < 7 && SaysWeekday(parts, v) {
        var day := if ListSays(parts, 0, 7, v) then v else 7;
        assert day in days && day % 7 == v;
      }
    }
  }

  lemma SaidWithin(parts: seq<Part>, min: nat, max: nat, v: nat)
    requires ListReadable(parts, min, max) && ListSays(parts, min, max, v)
    ensures min <= v <= max
  {
  }

  /** An expression is accepted exactly when its five lists are, and its value sets are what they say. */
  lemma ExpressionRead(s: Schedule)
    requires Written(s)
    ensures Expression(ExpressionText(s)).Some? <==> ScheduleReadable(s)
    ensures ScheduleReadable(s) ==> SetsSaid(s, Expression(ExpressionText(s)).value)
  {
    hide Field, ListText, ListReadable, ListSays, Words, Join;
    var words := [ListText(s.minute), ListText(s.hour), ListText(s.dom), ListText(s.month), ListText(s.dow)];
    ListIsWord(s.minute);
    ListIsWord(s.hour);
    ListIsWord(s.dom);
    ListIsWord(s.month);
    ListIsWord(s.dow);
    WordsOfJoin(words);
    ListRead(s.minute, 0, 59);
    ListRead(s.hour, 0, 23);
    ListRead(s.dom, 1, 31);
    ListRead(s.month, 1, 12);
    ListRead(s.dow, 0, 7);
    if ScheduleReadable(s) {
      WeekdaysSaid(s.dow, Field(ListText(s.dow), 0, 7).value);
    }
  }

  lemma DaySaid(s: Schedule, f: Fields, day: nat)
    requires WellFormed(f) && SetsSaid(s, f)
    ensures DayMatches(f, day) <==> ListSays(s.month, 1, 12, DateOf(day).month) && SaysDay(s, day)
  {
    hide DateOf, DayRule, DayMatches, ListSays, SaysWeekday, SinceSunday;
    DayRuleMeans(f, day);
  }

  /** A minute matches an expression exactly when the expression says so. */
  lemma MatchesAsWritten(s: Schedule, m: nat)
    requires Written(s)
    ensures CronMatches(ExpressionText(s), m) <==> ScheduleReadable(s) && SaysMinute(s, m)
  {
    hide Expression, ExpressionText, DayMatches, ListSays, SaysDay, ListReadable, DateOf;
    ExpressionRead(s);
    ExpressionWellFormed(ExpressionText(s));
    if ScheduleReadable(s) {
      DaySaid(s, Expression(ExpressionText(s)).value, m / 1440);
      ClockParts(m);
    }
  }

  lemma ClockParts(m: nat)
    ensures MinuteIn(m) == m % 60 && HourOf(m) == m % 1440 / 60 && DayOf(m) == m / 1440
  {
    var h, minute := m / 60, m % 60;
    var day, hour := h / 24, h % 24;
    var rest := 60 * hour + minute;
    assert m == 60 * h + minute && h == 24 * day + hour && m == 1440 * day + rest;
    assert m / 1440 == day && m % 1440 == rest && rest / 60 == hour;
  }

  const ANY := [Part(Star, None)]

  function Only(n: nat): seq<Part> {
    [Part(Number(n), None)]
  }

  lemma SimpleLists(n: nat, min: nat, max: nat, v: int)
    ensures ListReadable(ANY, min, max) <==> min <= max
    ensures ListReadable(Only(n), min, max) <==> min <= n <= max
    ensures ListSays(ANY, min, max, v) <==> min <= v <= max
    ensures ListSays(Only(n), min, max, v) <==> v == n
  {
    assert ANY[0] == Part(Star, None) && Only(n)[0] == Part(Number(n), None);
    assert Says(ANY[0], min, max, v) <==> min <= v <= max;
    assert Says(Only(n)[0], min, max, v) <==> v == n;
    assert Readable(ANY[0], min, max) <==> min <= max;
    assert Readable(Only(n)[0], min, max) <==> min <= n <= max;
  }

  lemma MondayText()
    ensures ExpressionText(Schedule(Only(0), Only(0), ANY, ANY, Only(1))) == "0 0 * * 1"
    ensures Written(Schedule(Only(0), Only(0), ANY, ANY, Only(1)))
  {
    SimpleTexts();
    assert Join(["0", "0", "*", "*", "1"], ' ') == "0 0 * * 1";
  }

  lemma SimpleTexts()
    ensures ListText(Only(0)) == "0" && ListText(Only(1)) == "1" && ListText(ANY) == "*"
  {
    assert PartTexts(Only(0)) == ["0"];
    assert PartTexts(Only(1)) == ["1"];
    assert PartTexts(ANY) == ["*"];
  }

  /** `0 0 * * 1` matches the midnights of Mondays and no other minute. */
  lemma MondayMidnights(m: nat)
    ensures CronMatches("0 0 * * 1", m) <==> m % 1440 == 0 && SinceSunday(m / 1440) == 1
  {
    hide DateOf, SinceSunday, CronMatches, ExpressionText, ListReadable, ListSays, Only, ANY;
    var s := Schedule(Only(0), Only(0), ANY, ANY, Only(1));
    var day := m / 1440;
    MondayText();
    MatchesAsWritten(s, m);
    SimpleLists(0, 0, 59, m % 60);
    SimpleLists(0, 0, 23, m % 1440 / 60);
    forall d {
      SimpleLists(0, 1, 31, d);
    }
    SimpleLists(0, 1, 12, DateOf(day).month);
    SimpleLists(1, 0, 7, SinceSunday(day));
    SimpleLists(1, 0, 7, 7);
    ClockParts(m);
    assert CronMatches("0 0 * * 1", m) <==> SaysMinute(s, m);
  }

  // Every schedule has a text

  function Numbers(values: seq<nat>): (parts: seq<Part>)
    ensures |parts| == |values| && forall i | 0 <= i < |values| :: parts[i] == Part(Number(values[i]), None)
  {
    seq(|values|, i requires 0 <= i < |values| => Part(Number(values[i]), None))
  }

  /** The values of a set, one after the other. */
  function Listed(values: set<nat>, min: nat, max: nat): seq<Part> {
    Numbers(Ascending(values, min, max))
  }

  lemma ListedSays(values: set<nat>, min: nat, max: nat)
    requires values != {} && forall v | v in values :: min <= v <= max
    ensures Listed(values, min, max) != [] && ListReadable(Listed(values, min, max), min, max)
    ensures forall v: nat :: ListSays(Listed(values, min, max), min, max, v) <==> v in values
  {
    hide Ascending;
    var list := Ascending(values, min, max);
    var parts := Listed(values, min, max);
    var first :| first in values;
    assert first in list;
    assert forall i | 0 <= i < |list| :: list[i] in list;
    forall v: nat
      ensures ListSays(parts, min, max, v) <==> v in list
    {
      if v in list {
        var i :| 0 <= i < |list| && list[i] == v;
        assert Says(parts[i], min, max, v);
      }
    }
  }

  /** The parser is onto: every well-formed schedule has an expression that parses to it. */
  lemma EveryScheduleHasText(f: Fields) returns (expr: string)
    requires WellFormed(f)
    ensures Expression(expr) == Some(f)
  {
    hide Expression, ExpressionText, Listed, ListReadable, ListSays;
    var s := Schedule(Listed(f.minute, 0, 59), Listed(f.hour, 0, 23), Listed(f.dom, 1, 31), Listed(f.month, 1, 12), Listed(f.dow, 0, 7));
    ListedSays(f.minute, 0, 59);
    ListedSays(f.hour, 0, 23);
    ListedSays(f.dom, 1, 31);
    ListedSays(f.month, 1, 12);
    ListedSays(f.dow, 0, 7);
    expr := ExpressionText(s);
    ExpressionRead(s);
    SameFields(Expression(expr).value, f);
  }

  lemma SameFields(a: Fields, b: Fields)
    requires forall v: nat :: (v in a.minute <==> v in b.minute) && (v in a.hour <==> v in b.hour) && (v in a.dom <==> v in b.dom)
    requires forall v: nat :: (v in a.month <==> v in b.month) && (v in a.dow <==> v in b.dow)
    ensures a == b
  {
    assert a.minute == b.minute && a.hour == b.hour && a.dom == b.dom && a.month == b.month && a.dow == b.dow;
  }
}
