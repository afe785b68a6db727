/** Exact addition of decimal strings. */
module Money {
  import opened Exchange
  import opened Sequences

  // ----- text

  predicate IsDigit(c: char) {
    '0' <= c <= '9'
  }

  predicate AllDigits(s: string) {
    forall c :: c in s ==> IsDigit(c)
  }

  /** The characters `trim` removes: the white space and line terminators of ECMAScript. */
  predicate IsSpace(c: char) {
    || c == ' ' || c == '\t' || c == '\n' || c == '\r'
    || c in ['\U{000B}', '\U{000C}', '\U{00A0}', '\U{1680}', '\U{2028}', '\U{2029}', '\U{202F}', '\U{205F}', '\U{3000}', '\U{FEFF}']
    || '\U{2000}' <= c <= '\U{200A}'
  }

  function TrimStart(s: string): string {
    if s != "" && IsSpace(s[0]) then TrimStart(s[1..]) else s
  }

  function TrimEnd(s: string): string {
    if s != "" && IsSpace(s[|s| - 1]) then TrimEnd(s[..|s| - 1]) else s
  }

  function Trim(s: string): string {
    TrimEnd(TrimStart(s))
  }

  function Repeat(c: char, n: nat): string {
    if n == 0 then "" else Repeat(c, n - 1) + [c]
  }

  // ----- numbers

  function DigitValue(c: char): nat
    requires IsDigit(c)
  {
    c as nat - '0' as nat
  }

  function DigitChar(d: nat): (c: char)
    requires d < 10
    ensures IsDigit(c) && DigitValue(c) == d
  {
    ('0' as nat + d) as char
  }

  function Pow10(n: nat): (p: nat)
    ensures p >= 1
  {
    if n == 0 then 1 else 10 * Pow10(n - 1)
  }

  /** The number a run of digits spells; nothing spells zero. */
  function Number(s: string): nat
    requires AllDigits(s)
  {
    if s == "" then 0 else 10 * Number(s[..|s| - 1]) + DigitValue(s[|s| - 1])
  }

  function Decimal(n: nat): (s: string)
    ensures AllDigits(s) && s != "" && Number(s) == n
  {
    if n < 10 then [DigitChar(n)] else Decimal(n / 10) + [DigitChar(n % 10)]
  }

  // ----- money.ts

  datatype Parsed = Parsed(negative: bool, digits: string, scale: nat)

  /** The accepted shape: an optional minus, digits, and, after a point, at least one more digit. */
  predicate IsShaped(s: string) {
    var u := Unsigned(s);
    var dot := IndexOf(u, '.');
    if dot < 0 then AllDigits(u) else AllDigits(u[..dot]) && u[dot + 1..] != "" && AllDigits(u[dot + 1..])
  }

  predicate Negative(s: string) {
    s != "" && s[0] == '-'
  }

  function Unsigned(s: string): string {
    if Negative(s) then s[1..] else s
  }

  function Parse(value: string): Option<Parsed> {
    var trimmed := Trim(value);
    if !IsShaped(trimmed) || trimmed == "" || trimmed == "-" then None
    else
      var u := Unsigned(trimmed);
      var dot := IndexOf(u, '.');
      var whole := if dot < 0 then u else u[..dot];
      var fraction := if dot < 0 then "" else u[dot + 1..];
      Some(Parsed(Negative(trimmed), whole + fraction, |fraction|))
  }

  function ToScaled(p: Parsed, scale: nat): int
    requires p.scale <= scale && AllDigits(p.digits)
  {
    RepeatIsDigits(scale - p.scale);
    var magnitude: int := Number(p.digits + Repeat('0', scale - p.scale));
    if p.negative then -magnitude else magnitude
  }

  function PadStart(s: string, n: nat): string {
    if |s| >= n then s else Repeat('0', n - |s|) + s
  }

  function FromScaled(value: int, scale: nat): string {
    var digits := PadStart(Decimal(if value < 0 then -value else value), scale + 1);
    PadStartLength(Decimal(if value < 0 then -value else value), scale + 1);
    var whole := digits[..|digits| - scale];
    var fraction := if scale > 0 then digits[|digits| - scale..] else "";
    (if value < 0 then "-" else "") + whole + if fraction != "" then "." + fraction else ""
  }

  function ParseAll(values: seq<string>): Option<seq<Parsed>> {
    if values == [] then Some([])
    else
      var n := |values| - 1;
      var before, last := ParseAll(values[..n]), Parse(values[n]);
      if before == None || last == None then None else Some(before.value + [last.value])
  }

  function WidestScale(ps: seq<Parsed>): (s: nat)
    ensures forall i :: 0 <= i < |ps| ==> ps[i].scale <= s
  {
    if ps == [] then 0
    else
      var before := WidestScale(ps[..|ps| - 1]);
      if before < ps[|ps| - 1].scale then ps[|ps| - 1].scale else before
  }

  function TotalScaled(ps: seq<Parsed>, scale: nat): int
    requires forall i :: 0 <= i < |ps| ==> ps[i].scale <= scale && AllDigits(ps[i].digits)
  {
    if ps == [] then 0 else TotalScaled(ps[..|ps| - 1], scale) + ToScaled(ps[|ps| - 1], scale)
  }

  function AddMoney(values: seq<string>): Option<string> {
    var parsed := ParseAll(values);
    if parsed == None then None
    else
      var scale := WidestScale(parsed.value);
      ParsedAreDigits(values);
      Some(FromScaled(TotalScaled(parsed.value, scale), scale))
  }

  lemma {:induction false} RepeatIsDigits(n: nat)
    ensures AllDigits(Repeat('0', n)) && |Repeat('0', n)| == n
  {
    if n != 0 {
      RepeatIsDigits(n - 1);
    }
  }

  lemma PadStartLength(s: string, n: nat)
    ensures |PadStart(s, n)| >= n
  {
    if |s| < n {
      RepeatIsDigits(n - |s|);
    }
  }

  lemma {:induction false} ParsedAreDigits(values: seq<string>)
    requires ParseAll(values).Some?
    ensures var ps := ParseAll(values).value;
      |ps| == |values| && forall i :: 0 <= i < |ps| ==> AllDigits(ps[i].digits) && Parse(values[i]) == Some(ps[i])
  {
    if values != [] {
      ParsedAreDigits(values[..|values| - 1]);
    }
  }

  // ----- what a decimal string means, independently of how it is parsed

  datatype Spelling = Spelling(negative: bool, whole: string, fraction: string)

  ghost predicate Spells(d: Spelling) {
    AllDigits(d.whole) && AllDigits(d.fraction) && d.whole + d.fraction != ""
  }

  function Spelled(d: Spelling): string {
    (if d.negative then "-" else "") + d.whole + if d.fraction != "" then "." + d.fraction else ""
  }

  /** The value after the point, digit by digit, each worth a tenth of the one before it. */
  function FractionValue(f: string): real
    requires AllDigits(f)
  {
    if f == "" then 0.0 else (DigitValue(f[0]) as real + FractionValue(f[1..])) / 10.0
  }

  ghost function Denotes(d: Spelling): real
    requires Spells(d)
  {
    var magnitude := Number(d.whole) as real + FractionValue(d.fraction);
    if d.negative then -magnitude else magnitude
  }

  ghost predicate AllSpaces(s: string) {
    forall c :: c in s ==> IsSpace(c)
  }

  /** The string is the spelling, with nothing but white space around it. */
  ghost predicate Written(value: string, d: Spelling) {
    Spells(d) && exists left, right :: AllSpaces(left) && AllSpaces(right) && value == left + Spelled(d) + right
  }

  ghost predicate IsDecimal(value: string) {
    exists d :: Written(value, d)
  }

  // ----- digits and values

  function Shifted(n: nat, k: nat): nat {
    n * Pow10(k)
  }

  function ScaledBy(v: real, k: nat): real {
    v * Pow10(k) as real
  }

  lemma ShiftedOnce(n: nat, k: nat)
    ensures 10 * Shifted(n, k) == Shifted(n, k + 1)
  {
  }

  lemma {:induction false} NumberConcat(a: string, b: string)
    requires AllDigits(a) && AllDigits(b)
    ensures AllDigits(a + b) && Number(a + b) == Shifted(Number(a), |b|) + Number(b)
  {
    hide Shifted;
    if b == "" {
      assert a + b == a;
      assert Shifted(Number(a), 0) == Number(a) by { ShiftedByNothing(Number(a)); }
    } else {
      var n := |b| - 1;
      assert AllDigits(b[..n]);
      NumberConcat(a, b[..n]);
      assert (a + b)[..|a + b| - 1] == a + b[..n];
      ShiftedOnce(Number(a), n);
    }
  }

  lemma ShiftedByNothing(n: nat)
    ensures Shifted(n, 0) == n
  {
  }

  lemma {:induction false} ZerosAreNothing(n: nat)
    ensures AllDigits(Repeat('0', n)) && |Repeat('0', n)| == n && Number(Repeat('0', n)) == 0
  {
    if n != 0 {
      ZerosAreNothing(n - 1);
      assert Repeat('0', n)[..n - 1] == Repeat('0', n - 1);
    }
  }

  lemma TenthScaled(d: nat, v: real, k: nat, n: nat)
    requires ScaledBy(v, k) == n as real
    ensures ScaledBy((d as real + v) / 10.0, k + 1) == (Shifted(d, k) + n) as real
  {
    var p := Pow10(k) as real;
    assert (d as real + v) / 10.0 * (10.0 * p) == (d as real + v) * p == d as real * p + v * p;
  }

  lemma SumScaled(w: nat, f: real, k: nat, n: nat)
    requires ScaledBy(f, k) == n as real
    ensures ScaledBy(w as real + f, k) == (Shifted(w, k) + n) as real
  {
    var p := Pow10(k) as real;
    assert (w as real + f) * p == w as real * p + f * p;
  }

  lemma {:induction false} Pow10Adds(a: nat, b: nat)
    ensures Pow10(a + b) == Pow10(a) * Pow10(b)
  {
    if b != 0 {
      Pow10Adds(a, b - 1);
    }
  }

  lemma ScaledFurther(v: real, k: nat, n: nat, extra: nat)
    requires ScaledBy(v, k) == n as real
    ensures ScaledBy(v, k + extra) == Shifted(n, extra) as real
  {
    Pow10Adds(k, extra);
    var p, q := Pow10(k) as real, Pow10(extra) as real;
    assert v * (p * q) == v * p * q;
  }

  lemma ScaledNegative(v: real, k: nat)
    ensures ScaledBy(-v, k) == -ScaledBy(v, k)
  {
  }

  lemma {:induction false} FractionScaled(f: string)
    requires AllDigits(f)
    ensures ScaledBy(FractionValue(f), |f|) == Number(f) as real
  {
    hide ScaledBy, Shifted, Pow10;
    if f == "" {
      NothingScaled();
    } else {
      var tail := f[1..];
      FractionScaled(tail);
      assert f == [f[0]] + tail;
      NumberConcat([f[0]], tail);
      assert Number([f[0]]) == DigitValue(f[0]) by { assert [f[0]][..0] == ""; }
      TenthScaled(DigitValue(f[0]), FractionValue(tail), |tail|, Number(tail));
    }
  }

  lemma NothingScaled()
    ensures ScaledBy(0.0, 0) == 0.0
  {
  }

  /** A parsed spelling, scaled, is its value times the scale. */
  lemma ScaledValue(d: Spelling, scale: nat)
    requires Spells(d) && |d.fraction| <= scale
    ensures AllDigits(d.whole + d.fraction)
    ensures ToScaled(Parsed(d.negative, d.whole + d.fraction, |d.fraction|), scale) as real == ScaledBy(Denotes(d), scale)
  {
    hide ScaledBy, Shifted, Pow10, Number, FractionValue, Repeat;
    var extra := scale - |d.fraction|;
    ZerosAreNothing(extra);
    NumberConcat(d.whole, d.fraction);
    NumberConcat(d.whole + d.fraction, Repeat('0', extra));
    FractionScaled(d.fraction);
    var magnitude := Number(d.whole) as real + FractionValue(d.fraction);
    SumScaled(Number(d.whole), FractionValue(d.fraction), |d.fraction|, Number(d.fraction));
    ScaledFurther(magnitude, |d.fraction|, Number(d.whole + d.fraction), extra);
    ScaledNegative(magnitude, scale);
  }

  // ----- parsing reads exactly the spellings

  lemma {:induction false} TrimStartOf(left: string, core: string)
    requires AllSpaces(left) && core != "" && !IsSpace(core[0])
    ensures TrimStart(left + core) == core
  {
    hide IsSpace;
    if left == "" {
      assert left + core == core;
    } else {
      assert (left + core)[0] == left[0] && left[0] in left;
      assert (left + core)[1..] == left[1..] + core;
      TrimStartOf(left[1..], core);
    }
  }

  lemma {:induction false} TrimEndOf(core: string, right: string)
    requires AllSpaces(right) && core != "" && !IsSpace(core[|core| - 1])
    ensures TrimEnd(core + right) == core
  {
    hide IsSpace;
    if right == "" {
      assert core + right == core;
    } else {
      var n := |right| - 1;
      assert (core + right)[|core + right| - 1] == right[n] && right[n] in right;
      assert (core + right)[..|core + right| - 1] == core + right[..n];
      TrimEndOf(core, right[..n]);
    }
  }

  lemma {:induction false} TrimStartCuts(s: string) returns (left: string)
    ensures AllSpaces(left) && s == left + TrimStart(s)
  {
    hide IsSpace;
    if s != "" && IsSpace(s[0]) {
      var rest := TrimStartCuts(s[1..]);
      left := [s[0]] + rest;
      assert s == [s[0]] + s[1..] == left + TrimStart(s[1..]);
    } else {
      left := "";
    }
  }

  lemma {:induction false} TrimEndCuts(s: string) returns (right: string)
    ensures AllSpaces(right) && s == TrimEnd(s) + right
  {
    hide IsSpace;
    if s != "" && IsSpace(s[|s| - 1]) {
      var n := |s| - 1;
      var rest := TrimEndCuts(s[..n]);
      right := rest + [s[n]];
      assert s == s[..n] + [s[n]];
    } else {
      right := "";
    }
  }

  lemma PlainCharacters(c: char)
    requires IsDigit(c) || c == '-' || c == '.'
    ensures !IsSpace(c)
  {
  }

  /** The unsigned part of a spelling. */
  function Body(d: Spelling): string {
    d.whole + if d.fraction != "" then "." + d.fraction else ""
  }

  lemma SpelledEnds(d: Spelling)
    requires Spells(d)
    ensures var s := Spelled(d);
      && s != "" && s != "-" && !IsSpace(s[0]) && !IsSpace(s[|s| - 1])
      && (Negative(s) <==> d.negative) && Unsigned(s) == Body(d)
  {
    hide IsSpace;
    var s := Spelled(d);
    assert Body(d) != "";
    assert Body(d)[0] == '.' || IsDigit(Body(d)[0]) by {
      if d.whole != "" {
        assert d.whole[0] in d.whole;
      }
    }
    assert s == (if d.negative then "-" else "") + Body(d);
    assert IsDigit(s[|s| - 1]) by {
      if d.fraction != "" {
        assert s[|s| - 1] == d.fraction[|d.fraction| - 1] && d.fraction[|d.fraction| - 1] in d.fraction;
      } else {
        assert s[|s| - 1] == d.whole[|d.whole| - 1] && d.whole[|d.whole| - 1] in d.whole;
      }
    }
    PlainCharacters(s[0]);
    PlainCharacters(s[|s| - 1]);
  }

  lemma BodyIsShaped(d: Spelling)
    requires Spells(d)
    ensures var u := Body(d);
      var dot := IndexOf(u, '.');
      && (dot < 0 <==> d.fraction == "")
      && (if dot < 0 then u == d.whole else u[..dot] == d.whole && u[dot + 1..] == d.fraction)
  {
    var u := Body(d);
    assert '.' !in d.whole;
    if d.fraction != "" {
      assert u == d.whole + ['.'] + d.fraction;
      IndexOfFirst(d.whole, '.', d.fraction);
    } else {
      assert u == d.whole;
    }
  }

  function AsParsed(d: Spelling): Parsed {
    Parsed(d.negative, d.whole + d.fraction, |d.fraction|)
  }

  lemma TrimOfWritten(value: string, d: Spelling)
    requires Written(value, d)
    ensures Trim(value) == Spelled(d)
  {
    hide IsSpace, TrimStart, TrimEnd, Spelled;
    var left, right :| AllSpaces(left) && AllSpaces(right) && value == left + Spelled(d) + right;
    var s := Spelled(d);
    SpelledEnds(d);
    assert value == left + (s + right) && (s + right)[0] == s[0];
    TrimStartOf(left, s + right);
    TrimEndOf(s, right);
  }

  lemma ParseReads(value: string, d: Spelling)
    requires Written(value, d)
    ensures Parse(value) == Some(AsParsed(d))
  {
    hide Trim, IndexOf, Spelled, Body, Written, IsSpace;
    TrimOfWritten(value, d);
    assert Spells(d) by { WrittenSpells(value, d); }
    SpelledEnds(d);
    BodyIsShaped(d);
  }

  lemma WrittenSpells(value: string, d: Spelling)
    requires Written(value, d)
    ensures Spells(d)
  {
  }

  lemma WrittenPlainly(d: Spelling)
    requires Spells(d)
    ensures Written(Spelled(d), d)
  {
    hide Spelled, IsSpace;
    assert AllSpaces("");
    assert Spelled(d) == "" + Spelled(d) + "";
  }

  lemma SignAndBody(d: Spelling)
    ensures Spelled(d) == (if d.negative then "-" else "") + Body(d)
  {
  }

  lemma SignAndUnsigned(t: string)
    ensures t == (if Negative(t) then "-" else "") + Unsigned(t)
  {
  }

  lemma CutAt(u: string, dot: nat)
    requires dot < |u| && u[dot] == '.'
    ensures u == u[..dot] + ("." + u[dot + 1..])
  {
  }

  lemma ShapesAreSpelled(t: string) returns (d: Spelling)
    requires IsShaped(t) && t != "" && t != "-"
    ensures Spells(d) && Spelled(d) == t
  {
    hide IndexOf, Spelled, Unsigned, AllDigits;
    var u := Unsigned(t);
    var dot := IndexOf(u, '.');
    SignAndUnsigned(t);
    if dot < 0 {
      d := Spelling(Negative(t), u, "");
      assert AllDigits("") by { NoDigits(); }
      assert d.whole + d.fraction == u && Body(d) == u;
    } else {
      d := Spelling(Negative(t), u[..dot], u[dot + 1..]);
      CutAt(u, dot);
    }
    SignAndBody(d);
  }

  lemma NoDigits()
    ensures AllDigits("")
  {
  }

  lemma ParseReadsOnlySpellings(value: string) returns (d: Spelling)
    requires Parse(value).Some?
    ensures Written(value, d)
  {
    hide IsSpace, TrimStart, TrimEnd, Spelled, Spells, IndexOf, Unsigned;
    var left := TrimStartCuts(value);
    var right := TrimEndCuts(TrimStart(value));
    d := ShapesAreSpelled(Trim(value));
    assert value == left + (Spelled(d) + right) == left + Spelled(d) + right;
  }

  /** An input is rejected exactly when it spells no decimal number. */
  lemma ParseRejectsIff(value: string)
    ensures Parse(value) == None <==> !IsDecimal(value)
  {
    if Parse(value).Some? {
      var d := ParseReadsOnlySpellings(value);
    } else if d :| Written(value, d) {
      ParseReads(value, d);
    }
  }

  // ----- writing a scaled integer back

  lemma PadStartKeepsNumber(s: string, n: nat)
    requires AllDigits(s)
    ensures AllDigits(PadStart(s, n)) && Number(PadStart(s, n)) == Number(s)
  {
    hide Number;
    if |s| < n {
      ZerosAreNothing(n - |s|);
      NumberConcat(Repeat('0', n - |s|), s);
    }
  }

  /** The spelling `FromScaled` writes. */
  function ScaledSpelling(value: int, scale: nat): Spelling {
    var digits := PadStart(Decimal(if value < 0 then -value else value), scale + 1);
    PadStartLength(Decimal(if value < 0 then -value else value), scale + 1);
    Spelling(value < 0, digits[..|digits| - scale], digits[|digits| - scale..])
  }

  lemma FromScaledSpells(value: int, scale: nat)
    ensures var d := ScaledSpelling(value, scale);
      && Spells(d) && |d.fraction| == scale && d.whole != ""
      && FromScaled(value, scale) == Spelled(d)
      && ToScaled(AsParsed(d), scale) == value
      && ScaledBy(Denotes(d), scale) == value as real
  {
    hide Number, Decimal, ScaledBy, FractionValue;
    var n := if value < 0 then -value else value;
    var digits := PadStart(Decimal(n), scale + 1);
    PadStartLength(Decimal(n), scale + 1);
    PadStartKeepsNumber(Decimal(n), scale + 1);
    var d := ScaledSpelling(value, scale);
    assert d.whole + d.fraction == digits;
    assert digits + Repeat('0', 0) == digits;
    ScaledValue(d, scale);
  }

  /** Reading back what was written gives the same integer at the same scale: it denotes value / 10^scale. */
  lemma ParseOfFromScaled(value: int, scale: nat)
    ensures var p := Parse(FromScaled(value, scale));
      && p.Some? && p.value.scale == scale && AllDigits(p.value.digits) && ToScaled(p.value, scale) == value
    ensures exists d :: Written(FromScaled(value, scale), d) && Denotes(d) * Pow10(scale) as real == value as real
  {
    hide ToScaled, Denotes, FromScaled, Parse, ScaledSpelling, Pow10, Written, Spelled;
    FromScaledSpells(value, scale);
    var d := ScaledSpelling(value, scale);
    WrittenPlainly(d);
    ParseReads(FromScaled(value, scale), d);
  }

  // ----- the sum

  ghost function SumOf(ds: seq<Spelling>): real
    requires forall i :: 0 <= i < |ds| ==> Spells(ds[i])
  {
    if ds == [] then 0.0 else SumOf(ds[..|ds| - 1]) + Denotes(ds[|ds| - 1])
  }

  function AllParsed(ds: seq<Spelling>): (ps: seq<Parsed>)
    ensures |ps| == |ds| && forall i :: 0 <= i < |ds| ==> ps[i] == AsParsed(ds[i])
  {
    if ds == [] then [] else AllParsed(ds[..|ds| - 1]) + [AsParsed(ds[|ds| - 1])]
  }

  ghost predicate AllWritten(values: seq<string>, ds: seq<Spelling>) {
    |values| == |ds| && forall i :: 0 <= i < |ds| ==> Written(values[i], ds[i])
  }

  lemma {:induction false} ParseAllReads(values: seq<string>, ds: seq<Spelling>)
    requires AllWritten(values, ds)
    ensures ParseAll(values) == Some(AllParsed(ds))
  {
    hide Parse, Written;
    if values != [] {
      var n := |values| - 1;
      ParseAllReads(values[..n], ds[..n]);
      ParseReads(values[n], ds[n]);
    }
  }

  lemma ScaledSum(a: real, b: real, scale: nat)
    ensures ScaledBy(a + b, scale) == ScaledBy(a, scale) + ScaledBy(b, scale)
  {
  }

  lemma {:induction false} TotalIsTheSum(ds: seq<Spelling>, scale: nat)
    requires forall i :: 0 <= i < |ds| ==> Spells(ds[i]) && |ds[i].fraction| <= scale && AllDigits(AsParsed(ds[i]).digits)
    ensures TotalScaled(AllParsed(ds), scale) as real == ScaledBy(SumOf(ds), scale)
  {
    hide ScaledBy, ToScaled, Denotes, Spells;
    if ds == [] {
      assert ScaledBy(0.0, scale) == 0.0 by { ZeroScaled(scale); }
    } else {
      var n := |ds| - 1;
      TotalIsTheSum(ds[..n], scale);
      ScaledValue(ds[n], scale);
      ScaledSum(SumOf(ds[..n]), Denotes(ds[n]), scale);
    }
  }

  lemma ZeroScaled(scale: nat)
    ensures ScaledBy(0.0, scale) == 0.0
  {
  }

  lemma ScalingIsInjective(a: real, b: real, scale: nat)
    requires ScaledBy(a, scale) == ScaledBy(b, scale)
    ensures a == b
  {
    var p := Pow10(scale) as real;
    assert p >= 1.0 && (a - b) * p == 0.0;
  }

  /** The string spells the exact rational sum, with as many places as the widest summand has. */
  ghost predicate SpellsTheSum(total: string, ds: seq<Spelling>)
    requires forall i :: 0 <= i < |ds| ==> Spells(ds[i])
  {
    exists e :: Written(total, e) && Denotes(e) == SumOf(ds) && |e.fraction| == WidestScale(AllParsed(ds))
  }

  lemma WrittenAllSpell(values: seq<string>, ds: seq<Spelling>)
    requires AllWritten(values, ds)
    ensures forall i :: 0 <= i < |ds| ==> Spells(ds[i]) && AllDigits(AsParsed(ds[i]).digits)
  {
    forall i | 0 <= i < |ds| ensures Spells(ds[i]) && AllDigits(AsParsed(ds[i]).digits) {
      WrittenSpells(values[i], ds[i]);
    }
  }

  lemma TotalSpellsTheSum(ds: seq<Spelling>)
    requires forall i :: 0 <= i < |ds| ==> Spells(ds[i]) && AllDigits(AsParsed(ds[i]).digits)
    ensures var scale := WidestScale(AllParsed(ds)); SpellsTheSum(FromScaled(TotalScaled(AllParsed(ds), scale), scale), ds)
  {
    hide ToScaled, Denotes, ScaledBy, FromScaled, TotalScaled, SumOf, ScaledSpelling, Written, Spelled, AllDigits, Spells;
    var scale := WidestScale(AllParsed(ds));
    var total := TotalScaled(AllParsed(ds), scale);
    var e := ScaledSpelling(total, scale);
    FromScaledSpells(total, scale);
    WrittenPlainly(e);
    forall i | 0 <= i < |ds| ensures |ds[i].fraction| <= scale {
      assert AllParsed(ds)[i].scale <= scale;
    }
    TotalIsTheSum(ds, scale);
    ScalingIsInjective(Denotes(e), SumOf(ds), scale);
  }

  /**
   * Addition is exact. For any decimal strings, with any white space around them, the result is a
   * decimal string whose value is the exact rational sum, with as many places as the widest input has.
   */
  lemma AddMoneyIsExact(values: seq<string>, ds: seq<Spelling>)
    requires AllWritten(values, ds)
    ensures forall i :: 0 <= i < |ds| ==> Spells(ds[i])
    ensures AddMoney(values).Some? && SpellsTheSum(AddMoney(values).value, ds)
  {
    hide Parse, ToScaled, FromScaled, TotalScaled, SpellsTheSum, WidestScale, AllDigits, Spells;
    WrittenAllSpell(values, ds);
    ParseAllReads(values, ds);
    ParsedAreDigits(values);
    TotalSpellsTheSum(ds);
  }

  lemma {:induction false} ParseAllFailsIff(values: seq<string>)
    ensures ParseAll(values) == None <==> exists i :: 0 <= i < |values| && Parse(values[i]) == None
  {
    hide Parse;
    if values != [] {
      ParseAllFailsIff(values[..|values| - 1]);
    }
  }

  /** There is no total exactly when some input is not a decimal number. */
  lemma AddMoneyFailsIff(values: seq<string>)
    ensures AddMoney(values) == None <==> exists i :: 0 <= i < |values| && !IsDecimal(values[i])
  {
    hide Parse, FromScaled, IsDecimal;
    ParseAllFailsIff(values);
    forall i | 0 <= i < |values| ensures Parse(values[i]) == None <==> !IsDecimal(values[i]) {
      ParseRejectsIff(values[i]);
    }
  }
}
