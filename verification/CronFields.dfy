/** The five fields of a cron expression and the text they are parsed from. */
module CronFields {
  import opened Text
  import opened Decimal

  datatype Fields = Fields(minute: set<nat>, hour: set<nat>, dom: set<nat>, month: set<nat>, dow: set<nat>)

  /** Arguments of `range(lo, hi + 1, step)`. */
  datatype Span = Span(lo: nat, hi: int, step: int) {
    predicate Valid(min: int, max: int) {
      min <= lo <= hi <= max && step > 0
    }
  }

  /** The parser never asks for a step below one. */
  function Range(lo: nat, hi: int, step: int): (values: set<nat>)
    ensures lo <= hi && step > 0 ==> lo in values
    ensures forall v | v in values :: lo <= v <= hi
    decreases hi - lo
  {
    if lo > hi || step <= 0 then {} else {lo} + Range(lo + step, hi, step)
  }

  /** `v` is `k` whole steps above `lo` and within `hi`. */
  predicate Reached(lo: nat, hi: int, step: int, v: int, k: nat) {
    v <= hi && v == lo + k * step
  }

  lemma {:induction false} RangeHas(lo: nat, hi: int, step: int, v: nat)
    requires step > 0
    ensures v in Range(lo, hi, step) <==> exists k: nat :: Reached(lo, hi, step, v, k)
    decreases hi - lo
  {
    if lo <= hi {
      RangeHas(lo + step, hi, step, v);
      if v in Range(lo + step, hi, step) {
        var k: nat :| Reached(lo + step, hi, step, v, k);
        assert Reached(lo, hi, step, v, k + 1);
      }
      if k: nat :| Reached(lo, hi, step, v, k) {
        if k > 0 {
          assert Reached(lo + step, hi, step, v, k - 1);
        }
      }
      assert v == lo ==> Reached(lo, hi, step, v, 0);
    } else {
      forall k: nat
        ensures !Reached(lo, hi, step, v, k)
      {
        assert k * step >= 0;
      }
    }
  }

  function ParseBounds(base: string, open: bool, min: nat, max: int): Option<(int, int)> {
    var ends := Split(base, '-');
    if base == "*" then Some((min, max))
    else if |ends| == 2 then
      match (ParseInt(ends[0]), ParseInt(ends[1]))
      case (Some(lo), Some(hi)) => Some((lo, hi))
      case _ => None
    else
      match ParseInt(base)
      case Some(lo) => Some((lo, if open then max else lo))
      case None => None
  }

  /** One part between commas; None where the parser raises ValueError. */
  function ParsePart(raw: string, min: nat, max: int): (span: Option<Span>)
    ensures span.Some? ==> span.value.Valid(min, max)
  {
    var halves := Split(Strip(raw), '/');
    if Strip(raw) == [] || |halves| > 2 then None
    else
      var step := if |halves| == 2 then ParseInt(halves[1]) else Some(1);
      if step.None? || step.value <= 0 then None
      else
        match ParseBounds(halves[0], |halves| == 2, min, max)
        case None => None
        case Some((lo, hi)) => if lo < min || hi > max || lo > hi then None else Some(Span(lo, hi, step.value))
  }

  /** An accepted part is a base alone, taken one by one, or a base, one slash and a readable step. */
  lemma AcceptedPart(raw: string, min: nat, max: int)
    requires ParsePart(raw, min, max).Some?
    ensures '/' !in Strip(raw) ==> ParsePart(raw, min, max).value.step == 1
    ensures '/' in Strip(raw) ==>
              exists base, step :: Strip(raw) == base + "/" + step && '/' !in base && '/' !in step
                                   && ParseInt(step) == Some(ParsePart(raw, min, max).value.step)
  {
    hide Split, Strip, ParseInt, ParseBounds;
    var halves := Split(Strip(raw), '/');
    JoinSplit(Strip(raw), '/');
    if |halves| == 2 {
      assert Join(halves, '/') == halves[0] + "/" + halves[1..][0];
      assert halves[0] in halves && halves[1] in halves;
    } else {
      assert Join(halves, '/') == halves[0] && halves[0] in halves;
    }
  }

  /** All parts, or None when one of them is refused. */
  function ParseParts(parts: seq<string>, min: nat, max: int): (spans: Option<seq<Span>>)
    ensures spans.Some? ==> |spans.value| == |parts| && forall span | span in spans.value :: span.Valid(min, max)
  {
    if parts == [] then Some([])
    else
      match (ParseParts(parts[..|parts| - 1], min, max), ParsePart(parts[|parts| - 1], min, max))
      case (Some(spans), Some(span)) => Some(spans + [span])
      case _ => None
  }

  function Union(spans: seq<Span>): set<nat> {
    if spans == [] then {}
    else
      var last := spans[|spans| - 1];
      Union(spans[..|spans| - 1]) + Range(last.lo, last.hi, last.step)
  }

  ghost predicate ReachedBySome(spans: seq<Span>, v: nat) {
    exists i, k: nat :: 0 <= i < |spans| && Reached(spans[i].lo, spans[i].hi, spans[i].step, v, k)
  }

  lemma {:induction false} UnionHas(spans: seq<Span>, v: nat)
    requires forall span | span in spans :: span.step > 0
    ensures v in Union(spans) <==> ReachedBySome(spans, v)
  {
    if spans != [] {
      var n := |spans| - 1;
      var last := spans[n];
      UnionHas(spans[..n], v);
      RangeHas(last.lo, last.hi, last.step, v);
      if i, k: nat :| 0 <= i < |spans| && Reached(spans[i].lo, spans[i].hi, spans[i].step, v, k) {
        if i < n {
          var earlier := spans[..n][i];
          assert Reached(earlier.lo, earlier.hi, earlier.step, v, k);
        }
      }
      if i, k: nat :| 0 <= i < n && Reached(spans[..n][i].lo, spans[..n][i].hi, spans[..n][i].step, v, k) {
        assert Reached(spans[i].lo, spans[i].hi, spans[i].step, v, k);
      }
    }
  }

  /** What a field means: refused when one part is, otherwise the union of its parts. */
  function Field(expr: string, min: nat, max: int): Option<set<nat>> {
    match ParseParts(Split(expr, ','), min, max)
    case Some(spans) => Some(Union(spans))
    case None => None
  }

  lemma {:induction false} RefusedPart(parts: seq<string>, i: nat, min: nat, max: int)
    requires i < |parts| && ParseParts(parts[..i + 1], min, max).None?
    ensures ParseParts(parts, min, max).None?
    decreases |parts|
  {
    hide ParsePart;
    var n := |parts| - 1;
    if i < n {
      assert parts[..n][..i + 1] == parts[..i + 1];
      RefusedPart(parts[..n], i, min, max);
    } else {
      assert parts[..i + 1] == parts;
    }
  }

  lemma NoParts(min: nat, max: int)
    ensures ParseParts([], min, max) == Some([]) && Union([]) == {}
  {
  }

  lemma OneMorePart(parts: seq<string>, i: nat, min: nat, max: int)
    requires i < |parts| && ParseParts(parts[..i], min, max).Some?
    ensures var span := ParsePart(parts[i], min, max);
            var before := ParseParts(parts[..i], min, max).value;
            ParseParts(parts[..i + 1], min, max) == if span.Some? then Some(before + [span.value]) else None
  {
    hide ParsePart;
    assert parts[..i + 1][..i] == parts[..i] && parts[..i + 1][i] == parts[i];
  }

  lemma OneMoreSpan(spans: seq<Span>, span: Span)
    ensures Union(spans + [span]) == Union(spans) + Range(span.lo, span.hi, span.step)
  {
    hide Range;
    assert (spans + [span])[..|spans|] == spans;
  }

  method ParseField(expr: string, min: nat, max: int) returns (r: Option<set<nat>>)
    ensures r == Field(expr, min, max)
    ensures r.Some? ==> r.value != {}
  {
    hide ParsePart, ParseParts, Union, Range;
    var result: set<nat> := {};
    var parts := Split(expr, ',');
    ghost var spans: seq<Span> := [];
    NoParts(min, max);
    for i := 0 to |parts|
      invariant ParseParts(parts[..i], min, max) == Some(spans)
      invariant result == Union(spans)
      invariant i > 0 ==> result != {}
    {
      var span := ParsePart(parts[i], min, max);
      OneMorePart(parts, i, min, max);
      if span.None? {
        RefusedPart(parts, i, min, max);
        return None;
      }
      OneMoreSpan(spans, span.value);
      spans := spans + [span.value];
      assert span.value.lo in Range(span.value.lo, span.value.hi, span.value.step);
      result := result + Range(span.value.lo, span.value.hi, span.value.step);
    }
    assert parts[..|parts|] == parts;
    if result == {} {
      return None;
    }
    return Some(result);
  }

  /** A value is selected exactly when one part reaches it by whole steps from its low end. */
  lemma FieldMeaning(expr: string, min: nat, max: int, v: nat)
    requires Field(expr, min, max).Some?
    ensures v in Field(expr, min, max).value
            <==> ReachedBySome(ParseParts(Split(expr, ','), min, max).value, v)
  {
    UnionHas(ParseParts(Split(expr, ','), min, max).value, v);
  }

  lemma {:induction false} UnionRange(spans: seq<Span>, min: nat, max: int)
    requires forall span | span in spans :: span.Valid(min, max)
    ensures forall v | v in Union(spans) :: min <= v <= max
    ensures spans != [] ==> Union(spans) != {}
  {
    if spans != [] {
      var last := spans[|spans| - 1];
      UnionRange(spans[..|spans| - 1], min, max);
      assert last in spans && last.lo in Range(last.lo, last.hi, last.step);
    }
  }

  /** An accepted field names at least one value and none outside its range. */
  lemma FieldRange(expr: string, min: nat, max: int)
    requires Field(expr, min, max).Some?
    ensures Field(expr, min, max).value != {}
    ensures forall v | v in Field(expr, min, max).value :: min <= v <= max
  {
    UnionRange(ParseParts(Split(expr, ','), min, max).value, min, max);
  }

  ghost predicate WellFormed(f: Fields) {
    && f.minute != {} && (forall v | v in f.minute :: 0 <= v < 60)
    && f.hour != {} && (forall v | v in f.hour :: 0 <= v < 24)
    && f.dom != {} && (forall v | v in f.dom :: 1 <= v <= 31)
    && f.month != {} && (forall v | v in f.month :: 1 <= v <= 12)
    && f.dow != {} && (forall v | v in f.dow :: 0 <= v < 7)
  }

  /** Sunday may be written 0 or 7. */
  function Weekdays(days: set<nat>): set<nat> {
    set day | day in days :: day % 7
  }

  /** What five words mean: five fields. */
  function FieldsOf(w: seq<string>): Option<Fields> {
    if |w| != 5 then None
    else
      match (Field(w[0], 0, 59), Field(w[1], 0, 23), Field(w[2], 1, 31), Field(w[3], 1, 12), Field(w[4], 0, 7))
      case (Some(minute), Some(hour), Some(dom), Some(month), Some(dow)) =>
        Some(Fields(minute, hour, dom, month, Weekdays(dow)))
      case _ => None
  }

  function Expression(expr: string): Option<Fields> {
    FieldsOf(Words(expr))
  }

  method ParseExpression(expr: string) returns (r: Option<Fields>)
    ensures r == Expression(expr)
    ensures r.Some? ==> WellFormed(r.value)
  {
    var w := Words(expr);
    if |w| != 5 {
      return None;
    }
    var minute := ParseField(w[0], 0, 59);
    if minute.None? { return None; }
    var hour := ParseField(w[1], 0, 23);
    if hour.None? { return None; }
    var dom := ParseField(w[2], 1, 31);
    if dom.None? { return None; }
    var month := ParseField(w[3], 1, 12);
    if month.None? { return None; }
    var dow := ParseField(w[4], 0, 7);
    if dow.None? { return None; }
    ExpressionWellFormed(expr);
    return Some(Fields(minute.value, hour.value, dom.value, month.value, Weekdays(dow.value)));
  }

  lemma ExpressionWellFormed(expr: string)
    ensures Expression(expr).Some? ==> WellFormed(Expression(expr).value)
  {
    if Expression(expr).Some? {
      var w := Words(expr);
      FieldRange(w[0], 0, 59);
      FieldRange(w[1], 0, 23);
      FieldRange(w[2], 1, 31);
      FieldRange(w[3], 1, 12);
      FieldRange(w[4], 0, 7);
      var day :| day in Field(w[4], 0, 7).value;
      assert day % 7 in Expression(expr).value.dow;
    }
  }

  /** `sorted(values)` for values between `lo` and `hi`. */
  function Ascending(values: set<nat>, lo: nat, hi: int): (list: seq<nat>)
    ensures forall v: nat :: v in list <==> v in values && lo <= v <= hi
    ensures forall i, j | 0 <= i < j < |list| :: list[i] < list[j]
    decreases hi - lo
  {
    if lo > hi then []
    else
      var rest := Ascending(values, lo + 1, hi);
      assert forall i | 0 <= i < |rest| :: rest[i] in rest;
      if lo in values then [lo] + rest else rest
  }
}
