/**
 Decimal numbers as strings: `strconv.Itoa`, `Atoi`, `ParseFloat` and
 `FormatFloat` with shortest precision. A float64 is modelled as the exact
 finite decimal its shortest form shows.
 */
module Decimals {
  import opened Strings
  import opened Wrappers

  function Pow10(n: nat): (p: nat)
    ensures p >= 1
  {
    if n == 0 then 1 else 10 * Pow10(n - 1)
  }

  predicate IsDigit(c: char) { '0' <= c <= '9' }

  predicate AllDigits(s: string) { forall i :: 0 <= i < |s| ==> IsDigit(s[i]) }

  function DigitOf(c: char): (d: nat)
    requires IsDigit(c)
    ensures d < 10
  {
    c as int - '0' as int
  }

  function CharOf(d: nat): (c: char)
    requires d < 10
    ensures IsDigit(c) && DigitOf(c) == d
  {
    ('0' as int + d) as char
  }

  /** The number a string of digits stands for. */
  function NatOf(s: string): nat
    requires AllDigits(s)
  {
    if s == "" then 0 else 10 * NatOf(s[..|s| - 1]) + DigitOf(s[|s| - 1])
  }

  /** The digits of n, without leading zeros. */
  function Digits(n: nat): (s: string)
    ensures |s| >= 1 && AllDigits(s)
  {
    if n < 10 then [CharOf(n)] else Digits(n / 10) + [CharOf(n % 10)]
  }

  lemma {:induction false} DigitsRoundTrip(n: nat)
    ensures NatOf(Digits(n)) == n
    ensures Digits(n)[0] == '0' ==> n == 0
  {
    var s := Digits(n);
    if n < 10 {
      assert s[..0] == "";
    } else {
      assert s[..|s| - 1] == Digits(n / 10);
      DigitsRoundTrip(n / 10);
    }
  }

  lemma {:induction false} NatOfConcat(a: string, b: string)
    requires AllDigits(a) && AllDigits(b)
    ensures NatOf(a + b) == NatOf(a) * Pow10(|b|) + NatOf(b)
  {
    if b == "" {
      assert a + b == a;
    } else {
      var b' := b[..|b| - 1];
      assert (a + b)[..|a + b| - 1] == a + b';
      NatOfConcat(a, b');
      ShiftDigit(NatOf(a), Pow10(|b'|), NatOf(b'), DigitOf(b[|b| - 1]));
    }
  }

  lemma ShiftDigit(a: nat, p: nat, b: nat, d: nat)
    ensures 10 * (a * p + b) + d == a * (10 * p) + (10 * b + d)
  {
  }

  function Zeros(n: nat): (s: string)
    ensures |s| == n && AllDigits(s)
  {
    seq(n, _ => '0')
  }

  lemma {:induction false} NatOfZeros(n: nat)
    ensures NatOf(Zeros(n)) == 0
  {
    if n > 0 {
      assert Zeros(n)[..n - 1] == Zeros(n - 1);
      NatOfZeros(n - 1);
    }
  }

  // ---------- integers ----------

  /** The decimal form of an integer. */
  function Itoa(n: int): string {
    if n < 0 then "-" + Digits(-n) else Digits(n)
  }

  /** `strconv.Atoi`, without the range check. */
  function Atoi(s: string): Option<int> {
    var body := if s != "" && s[0] in "+-" then s[1..] else s;
    if body == "" || !AllDigits(body) then None
    else Some(if s[0] == '-' then 0 - NatOf(body) else NatOf(body))
  }

  lemma ItoaRoundTrip(n: int)
    ensures Atoi(Itoa(n)) == Some(n)
  {
    DigitsRoundTrip(if n < 0 then -n else n);
    assert n < 0 ==> Itoa(n)[1..] == Digits(-n);
  }

  // ---------- decimals ----------

  /** ±units / 10^scale; `neg` with zero units is the negative zero of float64. */
  datatype Num = Num(neg: bool, units: nat, scale: nat)

  /** No trailing zero after the point, so equal numbers are equal values. */
  predicate Normal(x: Num) { x.scale > 0 ==> x.units % 10 != 0 }

  function Normalize(neg: bool, units: nat, scale: int): (x: Num)
    ensures Normal(x)
    decreases if scale < 0 then -scale else scale
  {
    if scale <= 0 then Num(neg, units * Pow10(-scale), 0)
    else if units % 10 == 0 then Normalize(neg, units / 10, scale - 1)
    else Num(neg, units, scale)
  }

  /** Digits with an optional point: the digits without it and how many follow it. */
  function ParseMantissa(s: string): Option<(nat, nat)> {
    var j := Index(s, '.');
    var fraction := if j < |s| then s[j + 1..] else "";
    if AllDigits(s[..j]) && AllDigits(fraction) && |s[..j] + fraction| > 0
    then Some((NatOf(s[..j] + fraction), |fraction|)) else None
  }

  /** `strconv.ParseFloat` on decimal forms: sign, digits with an optional point, optional exponent. */
  function ParseFloat(s: string): Option<Num> {
    ParseUnsigned(s != "" && s[0] == '-', if s != "" && s[0] in "+-" then s[1..] else s)
  }

  /** Where an exponent begins, |body| if there is none. */
  function ExponentAt(body: string): (e: nat)
    ensures e <= |body|
  {
    if Index(body, 'e') < |body| then Index(body, 'e') else Index(body, 'E')
  }

  function ParseUnsigned(neg: bool, body: string): Option<Num> {
    var e := ExponentAt(body);
    var exponent := if e < |body| then Atoi(body[e + 1..]) else Some(0);
    var mantissa := ParseMantissa(body[..e]);
    if exponent.Some? && mantissa.Some?
    then Some(Normalize(neg, mantissa.value.0, mantissa.value.1 - exponent.value)) else None
  }

  function Sign(x: Num): string { if x.neg then "-" else "" }

  /** The digits of units, with leading zeros so that more than `scale` are there. */
  function Padded(units: nat, scale: nat): (s: string)
    ensures |s| > scale && AllDigits(s)
  {
    var d := Digits(units);
    if |d| <= scale then Zeros(scale + 1 - |d|) + d else d
  }

  /** `units` with a point before its last `scale` digits. */
  function Pointed(units: nat, scale: nat): string {
    if scale == 0 then Digits(units)
    else
      var padded := Padded(units, scale);
      padded[..|padded| - scale] + "." + padded[|padded| - scale..]
  }

  /** `strconv.FormatFloat(x, 'f', -1, 64)`. */
  function FormatF(x: Num): string { Sign(x) + Pointed(x.units, x.scale) }

  /** The exponent part: a sign and at least two digits. */
  function ExponentString(e: int): string {
    var d := Digits(if e < 0 then -e else e);
    (if e < 0 then "e-" else "e+") + (if |d| < 2 then "0" + d else d)
  }

  /** n without its trailing zeros. */
  function Significant(n: nat): nat {
    if n > 0 && n % 10 == 0 then Significant(n / 10) else n
  }

  /** `strconv.FormatFloat(x, 'g', -1, 64)`. */
  function FormatG(x: Num): string {
    var e := |Digits(x.units)| - x.scale - 1;
    var d := Significant(x.units);
    if e < -4 || e >= 6
    then Sign(x) + Pointed(d, |Digits(d)| - 1) + ExponentString(e)
    else FormatF(x)
  }

  // ---------- reading back what was printed ----------

  lemma NatOfPadded(units: nat, scale: nat)
    ensures NatOf(Padded(units, scale)) == units
  {
    hide Digits, NatOf;
    var d := Digits(units);
    DigitsRoundTrip(units);
    if |d| <= scale {
      NatOfZeros(scale + 1 - |d|);
      NatOfConcat(Zeros(scale + 1 - |d|), d);
    }
  }

  /** Splitting a mantissa at its point. */
  lemma MantissaOf(a: string, b: string)
    requires AllDigits(a) && AllDigits(b) && |a| > 0
    ensures ParseMantissa(a + "." + b) == Some((NatOf(a + b), |b|))
  {
    hide NatOf;
    var s := a + "." + b;
    assert forall j :: 0 <= j < |a| ==> s[j] == a[j];
    IndexIsFirst(s, '.', |a|);
    assert s[..|a|] == a && s[|a| + 1..] == b;
  }

  lemma MantissaOfDigits(a: string)
    requires AllDigits(a) && |a| > 0
    ensures ParseMantissa(a) == Some((NatOf(a), 0))
  {
    hide NatOf;
    IndexIsFirst(a, '.', |a|);
    assert a[..|a|] + "" == a;
  }

  lemma MantissaOfPointed(units: nat, scale: nat)
    ensures ParseMantissa(Pointed(units, scale)) == Some((units, scale))
    ensures var s := Pointed(units, scale); s != "" && IsDigit(s[0]) && forall i :: 0 <= i < |s| ==> IsDigit(s[i]) || s[i] == '.'
  {
    hide Digits, NatOf, Padded, ParseMantissa;
    if scale == 0 {
      DigitsRoundTrip(units);
      MantissaOfDigits(Digits(units));
    } else {
      var padded := Padded(units, scale);
      var a, b := padded[..|padded| - scale], padded[|padded| - scale..];
      NatOfPadded(units, scale);
      MantissaOf(a, b);
      assert a + b == padded;
    }
  }

  lemma NormalizeOfNormal(x: Num)
    requires Normal(x)
    ensures Normalize(x.neg, x.units, x.scale) == x
  {
    if x.scale == 0 { assert Pow10(0) == 1; }
  }

  lemma ParsePrintedUnsigned(neg: bool, units: nat, scale: nat, tail: string, exponent: int)
    requires if tail == "" then exponent == 0 else tail[0] == 'e' && Atoi(tail[1..]) == Some(exponent)
    ensures ParseUnsigned(neg, Pointed(units, scale) + tail) == Some(Normalize(neg, units, scale - exponent))
  {
    hide Pointed, Normalize, Atoi, ParseMantissa;
    var p := Pointed(units, scale);
    var body := p + tail;
    MantissaOfPointed(units, scale);
    assert forall i :: 0 <= i < |p| ==> body[i] == p[i];
    IndexIsFirst(body, 'e', |p|);
    if tail == "" {
      IndexIsFirst(body, 'E', |p|);
    } else {
      assert body[|p| + 1..] == tail[1..];
    }
    assert body[..|p|] == p;
  }

  /** What ParseFloat makes of a sign, a pointed number and an exponent. */
  lemma ParsePrinted(x: Num, scale: nat, tail: string, exponent: int)
    requires if tail == "" then exponent == 0 else tail[0] == 'e' && Atoi(tail[1..]) == Some(exponent)
    ensures ParseFloat(Sign(x) + Pointed(x.units, scale) + tail) == Some(Normalize(x.neg, x.units, scale - exponent))
  {
    hide Pointed, Normalize, Atoi, ParseUnsigned;
    var p := Pointed(x.units, scale);
    var s := Sign(x) + p + tail;
    MantissaOfPointed(x.units, scale);
    assert if x.neg then s[0] == '-' && s[1..] == p + tail else s == p + tail;
    assert (p + tail)[0] == p[0];
    ParsePrintedUnsigned(x.neg, x.units, scale, tail, exponent);
  }

  lemma ExponentReads(e: int)
    ensures var t := ExponentString(e); t != "" && t[0] == 'e' && Atoi(t[1..]) == Some(e)
  {
    hide Digits, NatOf;
    var n := if e < 0 then -e else e;
    var d := Digits(n);
    var t := ExponentString(e);
    DigitsRoundTrip(n);
    if |d| < 2 {
      NatOfConcat("0", d);
      NatOfZeros(1);
      assert "0" == Zeros(1);
      assert t[2..] == "0" + d;
    } else {
      assert t[2..] == d;
    }
    assert t[1..][1..] == t[2..];
  }

  lemma FormatFRoundTrip(x: Num)
    requires Normal(x)
    ensures ParseFloat(FormatF(x)) == Some(x)
  {
    hide Pointed, ParseFloat, Normalize;
    ParsePrinted(x, x.scale, "", 0);
    assert FormatF(x) == Sign(x) + Pointed(x.units, x.scale) + "";
    NormalizeOfNormal(x);
  }

  lemma {:induction false} SignificantAndZeros(n: nat)
    ensures exists k: nat :: |Digits(n)| == |Digits(Significant(n))| + k && n == Significant(n) * Pow10(k)
  {
    if n > 0 && n % 10 == 0 {
      SignificantAndZeros(n / 10);
      var k: nat :| |Digits(n / 10)| == |Digits(Significant(n))| + k && n / 10 == Significant(n) * Pow10(k);
      TenTimes(n, Significant(n), k);
      assert |Digits(n)| == |Digits(Significant(n))| + (k + 1);
    } else {
      assert |Digits(n)| == |Digits(Significant(n))| + 0 && n == Significant(n) * Pow10(0);
    }
  }

  lemma TenTimes(n: nat, d: nat, k: nat)
    requires n % 10 == 0 && n / 10 == d * Pow10(k)
    ensures n == d * Pow10(k + 1)
  {
    var p := Pow10(k);
    assert Pow10(k + 1) == 10 * p;
    assert d * (10 * p) == 10 * (d * p);
  }

  lemma FormatGRoundTrip(x: Num)
    requires Normal(x)
    ensures ParseFloat(FormatG(x)) == Some(x)
  {
    hide Digits, Pointed, ParseFloat, ExponentString;
    var e := |Digits(x.units)| - x.scale - 1;
    var d := Significant(x.units);
    if e < -4 || e >= 6 {
      ExponentReads(e);
      ParsePrinted(x.(units := d), |Digits(d)| - 1, ExponentString(e), e);
      SignificantAndZeros(x.units);
      if x.scale > 0 { NormalizeOfNormal(x); }
    } else {
      FormatFRoundTrip(x);
    }
  }

  // ---------- reading any number ----------

  /** Normalizing changes the form and not the value: units / 10^scale. */
  lemma {:induction false} NormalizeKeepsValue(neg: bool, units: nat, scale: int)
    ensures var x := Normalize(neg, units, scale);
            && x.neg == neg
            && x.units * Pow10(if scale < 0 then 0 else scale) == units * Pow10(if scale < 0 then -scale else 0) * Pow10(x.scale)
    decreases if scale < 0 then 0 else scale
  {
    if scale <= 0 {
      assert Pow10(0) == 1;
    } else if units % 10 == 0 {
      NormalizeKeepsValue(neg, units / 10, scale - 1);
      var x := Normalize(neg, units, scale);
      var p, q := Pow10(scale - 1), Pow10(x.scale);
      assert Pow10(scale) == 10 * p && Pow10(0) == 1;
      Tenfold(x.units, p, units / 10, q);
      assert 10 * (units / 10) == units;
    } else {
      assert Pow10(0) == 1;
    }
  }

  lemma Tenfold(a: nat, p: nat, b: nat, q: nat)
    requires a * p == b * q
    ensures a * (10 * p) == (10 * b) * q
  {
    assert a * (10 * p) == 10 * (a * p);
    assert (10 * b) * q == 10 * (b * q);
  }

  function Mantissa(a: string, point: bool, b: string): string { a + (if point then "." else "") + b }

  predicate DigitsWithPoint(a: string, point: bool, b: string) {
    AllDigits(a) && AllDigits(b) && a + b != "" && (!point ==> b == "")
  }

  /** The end of a number: nothing, or an exponent after `e` or `E`. */
  predicate Ending(tail: string, exponent: int) {
    if tail == "" then exponent == 0 else tail[0] in "eE" && Atoi(tail[1..]) == Some(exponent)
  }

  /** s is a sign or none, digits with a point anywhere or nowhere among them, and an exponent or none. */
  predicate Spells(s: string, sign: string, a: string, point: bool, b: string, tail: string, exponent: int) {
    && sign in {"", "+", "-"} && DigitsWithPoint(a, point, b) && Ending(tail, exponent)
    && s == sign + (Mantissa(a, point, b) + tail)
  }

  /** What is spelled so is read as the number it spells. */
  lemma DecimalReads(s: string, sign: string, a: string, point: bool, b: string, tail: string, exponent: int)
    requires Spells(s, sign, a, point, b, tail, exponent)
    ensures AllDigits(a + b) && ParseFloat(s) == Some(Normalize(sign == "-", NatOf(a + b), |b| - exponent))
  {
    hide NatOf, Normalize, ParseUnsigned, Mantissa, Ending;
    MantissaReads(a, point, b);
    UnsignedReads(sign == "-", a, point, b, tail, exponent);
    var body := Mantissa(a, point, b) + tail;
    assert sign != "" ==> s[0] == sign[0] && s[1..] == body;
    assert sign == "" ==> s == body && s[0] == Mantissa(a, point, b)[0];
  }

  lemma UnsignedReads(neg: bool, a: string, point: bool, b: string, tail: string, exponent: int)
    requires DigitsWithPoint(a, point, b) && Ending(tail, exponent)
    ensures AllDigits(a + b)
    ensures ParseUnsigned(neg, Mantissa(a, point, b) + tail) == Some(Normalize(neg, NatOf(a + b), |b| - exponent))
  {
    hide NatOf, Normalize, Mantissa, Atoi, ParseMantissa, ExponentAt, AllDigits;
    var m := Mantissa(a, point, b);
    MantissaReads(a, point, b);
    ExponentSplits(m, tail);
    assert (m + tail)[..|m|] == m && (tail != "" ==> (m + tail)[|m| + 1..] == tail[1..]);
  }

  lemma MantissaReads(a: string, point: bool, b: string)
    requires DigitsWithPoint(a, point, b)
    ensures var m := Mantissa(a, point, b);
            && AllDigits(a + b) && ParseMantissa(m) == Some((NatOf(a + b), |b|)) && m != "" && m[0] !in "+-"
            && forall i :: 0 <= i < |m| ==> IsDigit(m[i]) || m[i] == '.'
  {
    hide NatOf;
    var m := Mantissa(a, point, b);
    assert forall j :: 0 <= j < |a| ==> m[j] == a[j];
    IndexIsFirst(m, '.', |a|);
    assert m[..|a|] == a && (point ==> m[|a| + 1..] == b);
    assert a + "" == a;
  }

  lemma ExponentSplits(m: string, tail: string)
    requires forall i :: 0 <= i < |m| ==> IsDigit(m[i]) || m[i] == '.'
    requires exists exponent :: Ending(tail, exponent)
    ensures ExponentAt(m + tail) == |m|
  {
    hide Atoi;
    var body := m + tail;
    assert forall i :: 0 <= i < |m| ==> body[i] == m[i];
    assert forall j :: |m| <= j < |body| ==> body[j] == tail[j - |m|];
    if tail == "" {
      IndexIsFirst(body, 'E', |m|);
    } else if tail[0] == 'e' {
      IndexIsFirst(body, 'e', |m|);
    } else {
      IntegerIsPlain(tail[1..]);
      assert forall j :: 0 < j < |tail| ==> tail[j] == tail[1..][j - 1];
      IndexIsFirst(body, 'e', |body|);
      IndexIsFirst(body, 'E', |m|);
    }
  }

  lemma IntegerIsPlain(s: string)
    requires Atoi(s).Some?
    ensures 'e' !in s
  {
    hide NatOf;
    assert s[0] in "+-" ==> s == [s[0]] + s[1..];
  }

  /** And nothing else is read. */
  lemma OnlyDecimalsRead(s: string) returns (sign: string, a: string, point: bool, b: string, tail: string, exponent: int)
    requires ParseFloat(s).Some?
    ensures Spells(s, sign, a, point, b, tail, exponent)
  {
    hide NatOf, Normalize, Atoi, Index, ExponentAt, ParseMantissa, DigitsWithPoint, Mantissa;
    sign := if s != "" && s[0] in "+-" then s[..1] else "";
    var body := s[|sign|..];
    var e := ExponentAt(body);
    tail := body[e..];
    exponent := if tail == "" then 0 else Atoi(tail[1..]).value;
    ExponentStarts(body);
    a, point, b := MantissaIs(body[..e]);
    assert tail != "" ==> tail[0] == body[e];
    assert tail != "" ==> tail[1..] == body[e + 1..];
    assert sign == "" || sign == "+" || sign == "-" by { if sign != "" { assert sign == [s[0]]; } }
    assert s[0..] == s && body == body[..e] + tail && s == sign + body;
  }

  lemma ExponentStarts(body: string)
    ensures ExponentAt(body) < |body| ==> body[ExponentAt(body)] in "eE"
  {
  }

  lemma MantissaIs(m: string) returns (a: string, point: bool, b: string)
    requires ParseMantissa(m).Some?
    ensures DigitsWithPoint(a, point, b) && m == Mantissa(a, point, b)
  {
    hide NatOf;
    var j := Index(m, '.');
    a, point, b := m[..j], j < |m|, if j < |m| then m[j + 1..] else "";
  }

  /** What numbers are written with. */
  predicate NumberText(s: string) {
    s != "" && forall i :: 0 <= i < |s| ==> IsDigit(s[i]) || s[i] in ".+-eE"
  }

  lemma IntegersAreNumberText(s: string)
    requires Atoi(s).Some?
    ensures NumberText(s)
  {
    hide NatOf;
    if s[0] in "+-" { assert forall i :: 1 <= i < |s| ==> s[i] == s[1..][i - 1]; }
  }

  lemma DecimalsAreNumberText(s: string)
    requires ParseFloat(s).Some?
    ensures NumberText(s)
  {
    hide ParseFloat, Atoi;
    var sign, a, point, b, tail, exponent := OnlyDecimalsRead(s);
    if tail != "" {
      IntegersAreNumberText(tail[1..]);
      assert forall i :: 1 <= i < |tail| ==> tail[i] == tail[1..][i - 1];
    }
    assert forall i :: 0 <= i < |tail| ==> IsDigit(tail[i]) || tail[i] in ".+-eE";
    assert sign == "" || sign == "+" || sign == "-";
    MantissaReads(a, point, b);
  }
}
