/** `isoformat()` of naive times: text order is time order, and parsing gives the time back. */
module IsoText {
  import opened Text
  import opened Decimal
  import opened Calendar
  import opened Moments

  datatype Parts = Parts(date: Date, hour: nat, minute: nat, second: nat, micro: nat) {
    predicate Valid() {
      ValidDate(date) && date.year <= 9999 && hour < 24 && minute < 60 && second < 60 && micro < MICROS
    }

    function Clock(): nat {
      ((hour * 60 + minute) * 60 + second) * MICROS + micro
    }
  }

  function PartsOf(t: Moment): (p: Parts)
    ensures p.Valid() && DayNumber(p.date) * DAY + p.Clock() == t
  {
    var day := DayIndex(t);
    var clock: nat := t - day * DAY;
    LastDay();
    assert DateOf(day).year <= 9999;
    var seconds := clock / MICROS;
    Parts(DateOf(day), seconds / 60 / 60, seconds / 60 % 60, seconds % 60, clock % MICROS)
  }

  /** The fraction is left out when it is zero. */
  function Fraction(micro: nat): string {
    if micro == 0 then "" else "." + Padded(micro, 6)
  }

  function Render(p: Parts): string
    requires p.Valid()
  {
    Padded(p.date.year, 4) + ("-" + (Padded(p.date.month, 2) + ("-" + (Padded(p.date.day, 2) + ("T" +
    (Padded(p.hour, 2) + (":" + (Padded(p.minute, 2) + (":" + (Padded(p.second, 2) + Fraction(p.micro)))))))))))
  }

  function Iso(t: Moment): string {
    Render(PartsOf(t))
  }

  /** A fixed-width number, then a separator common to both texts. */
  lemma FieldThen(a: nat, b: nat, width: nat, sep: string, sa: string, sb: string)
    requires a < Power10(width) && b < Power10(width)
    ensures Less(Padded(a, width) + (sep + sa), Padded(b, width) + (sep + sb)) <==> a < b || (a == b && Less(sa, sb))
  {
    hide Less, Padded;
    PaddedOrder(a, b, width);
    LessByField(Padded(a, width), sep + sa, Padded(b, width), sep + sb);
    LessByField(sep, sa, sep, sb);
    LessIrreflexive(sep);
  }

  lemma FractionOrder(a: nat, b: nat)
    requires a < MICROS && b < MICROS
    ensures Less(Fraction(a), Fraction(b)) <==> a < b
  {
    hide Padded;
    assert MICROS == Power10(6);
    PaddedOrder(a, b, 6);
    if a != 0 && b != 0 {
      LessByField(".", Padded(a, 6), ".", Padded(b, 6));
    }
  }

  ghost predicate PartsBefore(a: Parts, b: Parts) {
    Earlier(a.date, b.date) || (a.date == b.date && a.Clock() < b.Clock())
  }

  lemma ClockOrder(a: Parts, b: Parts)
    requires a.Valid() && b.Valid()
    ensures a.Clock() < b.Clock() <==>
      a.hour < b.hour || (a.hour == b.hour && (a.minute < b.minute || (a.minute == b.minute && (a.second < b.second
      || (a.second == b.second && a.micro < b.micro)))))
  {
  }

  lemma Powers()
    ensures Power10(2) == 100 && Power10(4) == 10_000
  {
    assert Power10(4) == 100 * Power10(2);
  }

  lemma ClockText(a: Parts, b: Parts)
    requires a.Valid() && b.Valid()
    ensures Less(Padded(a.hour, 2) + (":" + (Padded(a.minute, 2) + (":" + (Padded(a.second, 2) + Fraction(a.micro))))),
                 Padded(b.hour, 2) + (":" + (Padded(b.minute, 2) + (":" + (Padded(b.second, 2) + Fraction(b.micro))))))
            <==> a.Clock() < b.Clock()
  {
    hide Less, Padded, Fraction;
    Powers();
    ClockOrder(a, b);
    FractionOrder(a.micro, b.micro);
    var fa, fb := Fraction(a.micro), Fraction(b.micro);
    FieldThen(a.second, b.second, 2, "", fa, fb);
    assert "" + fa == fa && "" + fb == fb;
    FieldThen(a.minute, b.minute, 2, ":", Padded(a.second, 2) + fa, Padded(b.second, 2) + fb);
    FieldThen(a.hour, b.hour, 2, ":", Padded(a.minute, 2) + (":" + (Padded(a.second, 2) + fa)),
              Padded(b.minute, 2) + (":" + (Padded(b.second, 2) + fb)));
  }

  lemma RenderOrder(a: Parts, b: Parts)
    requires a.Valid() && b.Valid()
    ensures Less(Render(a), Render(b)) <==> PartsBefore(a, b)
  {
    hide Less, Padded, Fraction;
    Powers();
    ClockText(a, b);
    var ca := Padded(a.hour, 2) + (":" + (Padded(a.minute, 2) + (":" + (Padded(a.second, 2) + Fraction(a.micro)))));
    var cb := Padded(b.hour, 2) + (":" + (Padded(b.minute, 2) + (":" + (Padded(b.second, 2) + Fraction(b.micro)))));
    FieldThen(a.date.day, b.date.day, 2, "T", ca, cb);
    var da, db := Padded(a.date.day, 2) + ("T" + ca), Padded(b.date.day, 2) + ("T" + cb);
    FieldThen(a.date.month, b.date.month, 2, "-", da, db);
    FieldThen(a.date.year, b.date.year, 4, "-", Padded(a.date.month, 2) + ("-" + da), Padded(b.date.month, 2) + ("-" + db));
  }

  lemma PartsOrder(a: Moment, b: Moment)
    ensures PartsBefore(PartsOf(a), PartsOf(b)) <==> a < b
  {
    hide DayNumber, PartsOf;
    var p, q := PartsOf(a), PartsOf(b);
    DayOrder(p.date, q.date);
    ClockBound(p);
    ClockBound(q);
  }

  lemma ClockBound(p: Parts)
    requires p.Valid()
    ensures p.Clock() < DAY
  {
  }

  /** Text order of naive `isoformat()` values is time order, with or without the fraction. */
  lemma IsoOrder(a: Moment, b: Moment)
    ensures Less(Iso(a), Iso(b)) <==> a < b
    ensures Iso(a) == Iso(b) <==> a == b
  {
    hide Less, Render, PartsOf;
    RenderOrder(PartsOf(a), PartsOf(b));
    PartsOrder(a, b);
    RenderOrder(PartsOf(b), PartsOf(a));
    PartsOrder(b, a);
    LessTotal(Iso(a), Iso(b));
  }

  // Parsing

  function Number(text: string, lo: nat, hi: nat): Option<nat> {
    if lo <= hi <= |text| && AllDigits(text[lo..hi]) then Some(Value(text[lo..hi])) else None
  }

  /** `datetime.fromisoformat` on the texts `isoformat` writes; None where it raises ValueError. */
  function FromIso(text: string): Option<Moment> {
    match (Number(text, 0, 4), Number(text, 5, 7), Number(text, 8, 10), Number(text, 11, 13), Number(text, 14, 16), Number(text, 17, 19))
    case (Some(y), Some(m), Some(d), Some(h), Some(mi), Some(s)) =>
      var micro := if |text| == 19 then Some(0) else Number(text, 20, 26);
      if micro.None? then None
      else
        var p := Parts(Date(y, m, d), h, mi, s, micro.value);
        if p.Valid() then Clip(DayNumber(p.date) * DAY + p.Clock()) else None
    case _ => None
  }

  lemma NumberHead(n: nat, width: nat, after: string)
    requires n < Power10(width)
    ensures Number(Padded(n, width) + after, 0, width) == Some(n)
  {
    hide Padded;
    assert (Padded(n, width) + after)[0..width] == Padded(n, width);
    ValuePadded(n, width);
  }

  lemma NumberShift(text: string, k: nat, width: nat)
    requires k + width <= |text|
    ensures Number(text, k, k + width) == Number(text[k..], 0, width)
  {
    assert text[k..k + width] == text[k..][0..width];
  }

  /** Step over one two-digit field and its separator. */
  lemma NextField(text: string, k: nat, n: nat, sep: string, rest: string)
    requires k <= |text| && text[k..] == Padded(n, 2) + (sep + rest) && |sep| == 1 && n < 100
    ensures Number(text, k, k + 2) == Some(n)
    ensures text[k + 3..] == rest
  {
    hide Padded;
    Powers();
    NumberShift(text, k, 2);
    NumberHead(n, 2, sep + rest);
    assert text[k + 3..] == text[k..][3..];
  }

  lemma RenderNumbers(p: Parts)
    requires p.Valid()
    ensures var text := Render(p);
            && Number(text, 0, 4) == Some(p.date.year) && Number(text, 5, 7) == Some(p.date.month)
            && Number(text, 8, 10) == Some(p.date.day) && Number(text, 11, 13) == Some(p.hour)
            && Number(text, 14, 16) == Some(p.minute) && Number(text, 17, 19) == Some(p.second)
            && |text| == 19 + |Fraction(p.micro)| && text[19..] == Fraction(p.micro)
  {
    hide Padded, Number, Fraction;
    Powers();
    var text, f := Render(p), Fraction(p.micro);
    var r6 := Padded(p.second, 2) + f;
    var r5 := Padded(p.minute, 2) + (":" + r6);
    var r4 := Padded(p.hour, 2) + (":" + r5);
    var r3 := Padded(p.date.day, 2) + ("T" + r4);
    var r2 := Padded(p.date.month, 2) + ("-" + r3);
    NumberHead(p.date.year, 4, "-" + r2);
    assert text[5..] == r2;
    NextField(text, 5, p.date.month, "-", r3);
    NextField(text, 8, p.date.day, "T", r4);
    NextField(text, 11, p.hour, ":", r5);
    NextField(text, 14, p.minute, ":", r6);
    NumberShift(text, 17, 2);
    NumberHead(p.second, 2, f);
    assert text[19..] == text[17..][2..] == f;
  }

  lemma FractionNumber(text: string, micro: nat)
    requires |text| >= 19 && text[19..] == Fraction(micro) && micro < MICROS
    ensures |text| == 19 <==> micro == 0
    ensures micro != 0 ==> Number(text, 20, 26) == Some(micro)
  {
    hide Padded;
    if micro != 0 {
      assert MICROS == Power10(6);
      assert text[20..] == text[19..][1..] == Padded(micro, 6);
      NumberShift(text, 20, 6);
      assert Padded(micro, 6) + "" == Padded(micro, 6);
      NumberHead(micro, 6, "");
    }
  }

  /** `fromisoformat(t.isoformat()) == t` */
  lemma IsoRoundTrip(t: Moment)
    ensures FromIso(Iso(t)) == Some(t)
  {
    hide Render, PartsOf, Number, Padded, DayNumber, Fraction;
    RenderNumbers(PartsOf(t));
    FractionNumber(Iso(t), PartsOf(t).micro);
  }
}
