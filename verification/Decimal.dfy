/** Decimal text of natural numbers: `str(n)`, `int(text)` and zero-padded fields. */
module Decimal {
  import opened Text

  predicate IsDigit(c: char) {
    '0' <= c <= '9'
  }

  function DigitValue(c: char): (d: nat)
    requires IsDigit(c)
    ensures d < 10
  {
    c as int - '0' as int
  }

  function DigitChar(d: nat): (c: char)
    requires d < 10
    ensures IsDigit(c) && DigitValue(c) == d
  {
    ('0' as int + d) as char
  }

  predicate AllDigits(s: string) {
    forall c | c in s :: IsDigit(c)
  }

  /** `str(n)` */
  function Render(n: nat): (s: string)
    ensures s != [] && AllDigits(s)
  {
    if n < 10 then [DigitChar(n)] else Render(n / 10) + [DigitChar(n % 10)]
  }

  function Value(s: string): nat
    requires AllDigits(s)
  {
    if s == [] then 0 else Value(s[..|s| - 1]) * 10 + DigitValue(s[|s| - 1])
  }

  lemma {:induction false} ValueRender(n: nat)
    ensures Value(Render(n)) == n
  {
    if n < 10 {
      assert Render(n)[..0] == [];
    } else {
      ValueRender(n / 10);
      assert Render(n)[..|Render(n)| - 1] == Render(n / 10);
    }
  }

  /** A number of fewer than `width` digits is short enough for the places that bound its length. */
  lemma {:induction false} RenderLength(n: nat)
    ensures n < 10 ==> |Render(n)| == 1
    ensures 10 <= n < 100 ==> |Render(n)| == 2
  {
  }

  /** `"%0{width}d" % n` */
  function Padded(n: nat, width: nat): (s: string)
    ensures |s| == width && AllDigits(s)
  {
    if width == 0 then [] else Padded(n / 10, width - 1) + [DigitChar(n % 10)]
  }

  function Power10(width: nat): (p: nat)
    ensures p > 0
  {
    if width == 0 then 1 else 10 * Power10(width - 1)
  }

  lemma TensAndUnits(n: nat, width: nat)
    requires n < Power10(width) && width > 0
    ensures n / 10 < Power10(width - 1) && n == n / 10 * 10 + n % 10
    ensures Padded(n, width) == Padded(n / 10, width - 1) + [DigitChar(n % 10)]
  {
  }

  lemma OneMoreDigit(s: string, c: char)
    requires AllDigits(s) && IsDigit(c)
    ensures Value(s + [c]) == Value(s) * 10 + DigitValue(c)
  {
    assert (s + [c])[..|s|] == s;
  }

  lemma {:induction false} ValuePadded(n: nat, width: nat)
    requires n < Power10(width)
    ensures Value(Padded(n, width)) == n
  {
    if width > 0 {
      hide Padded, Value, Power10;
      var tens, last := Padded(n / 10, width - 1), DigitChar(n % 10);
      TensAndUnits(n, width);
      ValuePadded(n / 10, width - 1);
      OneMoreDigit(tens, last);
    }
  }

  /** Fixed-width decimal fields sort as their numbers do. */
  lemma {:induction false} PaddedOrder(a: nat, b: nat, width: nat)
    requires a < Power10(width) && b < Power10(width)
    ensures Less(Padded(a, width), Padded(b, width)) <==> a < b
    ensures Padded(a, width) == Padded(b, width) <==> a == b
  {
    ValuePadded(a, width);
    ValuePadded(b, width);
    if width > 0 {
      PaddedOrder(a / 10, b / 10, width - 1);
      LessByField(Padded(a / 10, width - 1), [DigitChar(a % 10)], Padded(b / 10, width - 1), [DigitChar(b % 10)]);
    }
  }

  /** Digits with single underscores between them, as `int` accepts. */
  predicate IsNumeral(s: string) {
    s != [] && IsDigit(s[0]) && IsDigit(s[|s| - 1])
    && forall i | 0 <= i < |s| :: IsDigit(s[i]) || (s[i] == '_' && i + 1 < |s| && s[i + 1] != '_')
  }

  function WithoutUnderscores(s: string): (r: string) {
    if s == [] then [] else (if s[0] == '_' then [] else [s[0]]) + WithoutUnderscores(s[1..])
  }

  lemma {:induction false} NumeralDigits(s: string)
    requires forall c | c in s :: IsDigit(c) || c == '_'
    ensures AllDigits(WithoutUnderscores(s))
    ensures AllDigits(s) ==> WithoutUnderscores(s) == s
  {
    if s != [] {
      assert forall c | c in s[1..] :: c in s;
      NumeralDigits(s[1..]);
      assert s == [s[0]] + s[1..];
      assert s[0] in s;
    }
  }

  // Digits of other scripts, as Unicode 14.0 has them

  /** The zero of every script but ASCII's; its digits follow it. */
  predicate IsZero(c: int) {
    c in {
      0x660, 0x6F0, 0x7C0, 0x966, 0x9E6, 0xA66, 0xAE6, 0xB66, 0xBE6, 0xC66, 0xCE6, 0xD66, 0xDE6, 0xE50, 0xED0, 0xF20,
      0x1040, 0x1090, 0x17E0, 0x1810, 0x1946, 0x19D0, 0x1A80, 0x1A90, 0x1B50, 0x1BB0, 0x1C40, 0x1C50, 0xA620, 0xA8D0,
      0xA900, 0xA9D0, 0xA9F0, 0xAA50, 0xABF0, 0xFF10, 0x104A0, 0x10D30, 0x11066, 0x110F0, 0x11136, 0x111D0, 0x112F0,
      0x11450, 0x114D0, 0x11650, 0x116C0, 0x11730, 0x118E0, 0x11950, 0x11C50, 0x11D50, 0x11DA0, 0x16A60, 0x16AC0,
      0x16B50, 0x1D7CE, 0x1D7D8, 0x1D7E2, 0x1D7EC, 0x1D7F6, 0x1E140, 0x1E2F0, 0x1E950, 0x1FBF0
    }
  }

  /** Which decimal digit, tried from `d` up. */
  function DigitFrom(c: int, d: nat): Option<nat>
    requires d <= 10
    ensures DigitFrom(c, d).Some? ==> DigitFrom(c, d).value < 10
    decreases 10 - d
  {
    if d == 10 then None else if IsZero(c - d) then Some(d) else DigitFrom(c, d + 1)
  }

  /** Digits that are not decimal: superscripts, subscripts, circled ones and the like. */
  predicate IsOtherDigit(c: int) {
    || 0xB2 <= c <= 0xB3 || c == 0xB9 || 0x1369 <= c <= 0x1371 || c == 0x19DA || c == 0x2070
    || 0x2074 <= c <= 0x2079 || 0x2080 <= c <= 0x2089 || 0x2460 <= c <= 0x2468 || 0x2474 <= c <= 0x247C
    || 0x2488 <= c <= 0x2490 || c == 0x24EA || 0x24F5 <= c <= 0x24FD || c == 0x24FF || 0x2776 <= c <= 0x277E
    || 0x2780 <= c <= 0x2788 || 0x278A <= c <= 0x2792 || 0x10A40 <= c <= 0x10A43 || 0x10E60 <= c <= 0x10E68
    || 0x11052 <= c <= 0x1105A || 0x1F100 <= c <= 0x1F10A
  }

  /** `str.isdigit` */
  predicate IsDigitText(s: string) {
    s != [] && forall i | 0 <= i < |s| :: IsDigit(s[i]) || DigitFrom(s[i] as int, 0).Some? || IsOtherDigit(s[i] as int)
  }

  /** What `int` makes of a character before it reads the text: digits and white space of other scripts become plain. */
  function Plain(c: char): char {
    if c < '\U{7F}' then c
    else if IsSpace(c) then ' '
    else match DigitFrom(c as int, 0)
      case Some(d) => DigitChar(d)
      case None => '?'
  }

  function PlainText(s: string): (r: string)
    ensures |r| == |s|
  {
    seq(|s|, i requires 0 <= i < |s| => Plain(s[i]))
  }

  /** The white space `int` skips at either end. */
  predicate IsBlank(c: char) {
    '\t' <= c <= '\r' || c == ' '
  }

  function TrimLeft(s: string): string {
    if s != [] && IsBlank(s[0]) then TrimLeft(s[1..]) else s
  }

  function TrimRight(s: string): string {
    if s != [] && IsBlank(s[|s| - 1]) then TrimRight(s[..|s| - 1]) else s
  }

  /** How many digits Python converts at most. */
  const MAX_DIGITS := 4300

  function ParsePlain(t: string): Option<int> {
    var signed := t != [] && t[0] in {'+', '-'};
    var body := if signed then t[1..] else t;
    if !IsNumeral(body) || |WithoutUnderscores(body)| > MAX_DIGITS then None
    else
      NumeralDigits(body);
      var n: int := Value(WithoutUnderscores(body));
      Some(if signed && t[0] == '-' then -n else n)
  }

  /** `int(text)`: None where Python raises ValueError. */
  function ParseInt(text: string): Option<int> {
    ParsePlain(TrimRight(TrimLeft(PlainText(text))))
  }

  lemma DigitsArePlain(s: string)
    requires AllDigits(s) && s != []
    ensures TrimRight(TrimLeft(PlainText(s))) == s
  {
    hide DigitFrom;
    assert forall i | 0 <= i < |s| :: s[i] in s;
    assert PlainText(s) == s;
  }

  lemma {:induction false} StripDigits(s: string)
    requires s != [] && !IsSpace(s[0]) && !IsSpace(s[|s| - 1])
    ensures Strip(s) == s
  {
  }

  lemma DigitsAreNumeral(s: string)
    requires s != [] && AllDigits(s)
    ensures IsNumeral(s) && WithoutUnderscores(s) == s
  {
    assert forall i | 0 <= i < |s| :: s[i] in s;
    NumeralDigits(s);
  }

  /** A minus before digits gives the negative number. */
  lemma ParseIntNegative(n: int)
    requires n >= 0
    ensures ParseInt("-" + Render(n)) == if |Render(n)| <= MAX_DIGITS then Some(-n) else None
  {
    hide PlainText, TrimLeft, TrimRight, Render, Value, ParsePlain;
    MinusIsPlain(Render(n));
    ValueRender(n);
    PlainDigitsRead(Render(n));
    MinusRead(Render(n));
  }

  lemma MinusIsPlain(s: string)
    requires AllDigits(s) && s != []
    ensures TrimRight(TrimLeft(PlainText("-" + s))) == "-" + s
  {
    hide DigitFrom;
    assert forall i | 0 <= i < |s| :: s[i] in s;
    assert PlainText("-" + s) == "-" + s;
  }

  lemma MinusRead(s: string)
    requires AllDigits(s) && s != []
    ensures ParsePlain("-" + s) == if ParsePlain(s).Some? then Some(-ParsePlain(s).value) else None
  {
    hide Value, IsNumeral, WithoutUnderscores;
    DigitsAreNumeral(s);
    assert s[0] in s;
    assert ("-" + s)[1..] == s;
  }

  lemma PlainDigitsRead(s: string)
    requires s != [] && AllDigits(s)
    ensures ParsePlain(s) == if |s| <= MAX_DIGITS then Some(Value(s)) else None
  {
    hide Value, IsNumeral, WithoutUnderscores;
    DigitsAreNumeral(s);
    assert s[0] in s;
  }

  /** `int(str(n)) == n`, as far as Python converts. */
  lemma ParseIntRender(n: nat)
    ensures ParseInt(Render(n)) == if |Render(n)| <= MAX_DIGITS then Some(n) else None
  {
    hide PlainText, TrimLeft, TrimRight, Render, Value, ParsePlain;
    DigitsArePlain(Render(n));
    ValueRender(n);
    PlainDigitsRead(Render(n));
  }
}
