/**
 Which pixels a request is about: internal/iiif/image/v3/pipeline/pipeline.go.
 Quotients are exact rationals; `math.Round` of a quotient that is not negative
 is the floor of the quotient plus one half.
 */
module Geometry {
  import opened Decimals
  import opened ImageRequests
  import opened Int64
  import opened Wrappers

  // ---------- rounding ----------

  /** `math.Round(a / b)`. */
  function RoundDiv(a: nat, b: nat): nat
    requires b > 0
  {
    (2 * a + b) / (2 * b)
  }

  /** `math.Ceil(a / b)`. */
  function CeilDiv(a: int, b: nat): int
    requires b > 0
  {
    (a + b - 1) / b
  }

  lemma Quotient(a: nat, b: nat)
    requires b > 0
    ensures a / b * b <= a < (a / b + 1) * b
  {
  }

  lemma Mono(a: int, b: int, c: nat)
    requires a <= b
    ensures a * c <= b * c
  {
  }

  lemma QuotientIs(a: nat, b: nat, q: nat)
    requires b > 0 && q * b <= a < (q + 1) * b
    ensures a / b == q
  {
    Quotient(a, b);
    if a / b < q { Mono(a / b + 1, q, b); }
    if a / b > q { Mono(q + 1, a / b, b); }
  }

  /** RoundDiv(a, b) is within one half of a / b, halves going up; nothing else is. */
  lemma RoundDivSpec(a: nat, b: nat, q: nat)
    requires b > 0
    ensures q == RoundDiv(a, b) <==> (2 * q - 1) * b <= 2 * a < (2 * q + 1) * b
  {
    var n := 2 * a + b;
    assert (2 * q - 1) * b + b == q * (2 * b) && (2 * q + 1) * b + b == (q + 1) * (2 * b);
    if (2 * q - 1) * b <= 2 * a < (2 * q + 1) * b { QuotientIs(n, 2 * b, q); }
    Quotient(n, 2 * b);
  }

  /** A whole number bounding a / b bounds its rounded value. */
  lemma RoundDivBound(a: nat, b: nat, m: nat)
    requires b > 0
    ensures a <= m * b ==> RoundDiv(a, b) <= m
    ensures m * b <= a ==> m <= RoundDiv(a, b)
  {
    var q := RoundDiv(a, b);
    RoundDivSpec(a, b, q);
    assert (2 * m + 1) * b == 2 * (m * b) + b && (2 * m - 1) * b == 2 * (m * b) - b;
    if q > m { Mono(2 * m + 1, 2 * q - 1, b); }
    if q < m { Mono(2 * q + 1, 2 * m - 1, b); }
  }

  // ---------- the region ----------

  datatype Rect = Rect(left: int, top: int, w: int, h: int)

  predicate Inside(r: Rect, x: int, y: int) {
    r.left <= x < r.left + r.w && r.top <= y < r.top + r.h
  }

  predicate InBounds(r: Rect, srcW: int, srcH: int) {
    0 <= r.left && 0 <= r.top && 0 < r.w && 0 < r.h && r.left + r.w <= srcW && r.top + r.h <= srcH
  }

  function Truncated(v: Num): nat { Div(v.units, Pow10(v.scale)) }

  /** The floor of a / b. */
  function Div(a: int, b: nat): (q: int)
    requires b > 0
    ensures a >= 0 ==> q >= 0
  {
    a / b
  }

  /** `int(math.Round(v / 100 * side))`. */
  function Percentage(v: Num, side: nat): nat { RoundDiv(v.units * side, 100 * Pow10(v.scale)) }

  /** The rectangle a request asks for, before it is clipped. */
  function Requested(r: Region, srcW: nat, srcH: nat): Rect {
    match r
    case RegionFull => Rect(0, 0, srcW, srcH)
    case RegionSquare => var side := Min(srcW, srcH); Rect((srcW - side) / 2, (srcH - side) / 2, side, side)
    case RegionPixels(x, y, w, h) => Rect(Truncated(x), Truncated(y), Truncated(w), Truncated(h))
    case RegionPercent(x, y, w, h) => Rect(Percentage(x, srcW), Percentage(y, srcH), Percentage(w, srcW), Percentage(h, srcH))
  }

  /** q is a / b rounded to nearest, halves up. */
  predicate RoundsTo(q: int, a: nat, b: nat) { (2 * q - 1) * b <= 2 * a < (2 * q + 1) * b }

  /** q is v without its fraction. */
  predicate WholePart(q: int, v: Num) { q * Pow10(v.scale) <= v.units < (q + 1) * Pow10(v.scale) }

  /** `want` is what the region means on a source of that size (section 4.1 of IIIF Image API 3.0): all of it; the
      largest square, centred to within a pixel; the whole parts of the four numbers; or each number as a percentage
      of its own side, rounded to nearest. */
  predicate Asks(r: Region, srcW: nat, srcH: nat, want: Rect) {
    match r
    case RegionFull => want == Rect(0, 0, srcW, srcH)
    case RegionSquare =>
      && want.w == want.h && want.w <= srcW && want.h <= srcH && (want.w == srcW || want.h == srcH)
      && 0 <= (srcW - (want.left + want.w)) - want.left <= 1 && 0 <= (srcH - (want.top + want.h)) - want.top <= 1
    case RegionPixels(x, y, w, h) =>
      WholePart(want.left, x) && WholePart(want.top, y) && WholePart(want.w, w) && WholePart(want.h, h)
    case RegionPercent(x, y, w, h) =>
      && RoundsTo(want.left, x.units * srcW, 100 * Pow10(x.scale)) && RoundsTo(want.top, y.units * srcH, 100 * Pow10(y.scale))
      && RoundsTo(want.w, w.units * srcW, 100 * Pow10(w.scale)) && RoundsTo(want.h, h.units * srcH, 100 * Pow10(h.scale))
  }

  lemma WholePartIs(q: int, v: Num)
    ensures WholePart(q, v) <==> q == Truncated(v)
  {
    var p := Pow10(v.scale);
    Quotient(v.units, p);
    if q < 0 { Mono(q + 1, 0, p); } else if WholePart(q, v) { QuotientIs(v.units, p, q); }
  }

  lemma PercentageIs(q: int, v: Num, side: nat)
    ensures RoundsTo(q, v.units * side, 100 * Pow10(v.scale)) <==> q == Percentage(v, side)
  {
    hide RoundDiv;
    var b := 100 * Pow10(v.scale);
    if q < 0 { Mono(2 * q + 1, 0, b); } else { RoundDivSpec(v.units * side, b, q); }
  }

  /** The requested rectangle is what the region means, and nothing else is. */
  lemma AsksExactly(r: Region, srcW: nat, srcH: nat, want: Rect)
    ensures Asks(r, srcW, srcH, want) <==> want == Requested(r, srcW, srcH)
  {
    hide Truncated, Percentage, WholePart, RoundsTo;
    match r {
      case RegionFull =>
      case RegionSquare =>
      case RegionPixels(x, y, w, h) =>
        WholePartIs(want.left, x); WholePartIs(want.top, y); WholePartIs(want.w, w); WholePartIs(want.h, h);
      case RegionPercent(x, y, w, h) =>
        PercentageIs(want.left, x, srcW); PercentageIs(want.top, y, srcH); PercentageIs(want.w, w, srcW); PercentageIs(want.h, h, srcH);
    }
  }

  /** p lies in [at, at + length), in whole parts. */
  predicate Between(p: int, at: Num, length: Num) {
    at.units / Pow10(at.scale) <= p < at.units / Pow10(at.scale) + length.units / Pow10(length.scale)
  }

  /** What was accepted for a pixel region with int64 edges: the pixels of the source between its whole parts. */
  lemma PixelsOfRegion(r: Region, srcW: nat, srcH: nat, got: Rect)
    requires r.RegionPixels? && IsClipped(got, Requested(r, srcW, srcH), srcW, srcH)
    ensures forall px, py :: Inside(got, px, py) <==>
      0 <= px < srcW && 0 <= py < srcH && Between(px, r.x, r.w) && Between(py, r.y, r.h)
  {
  }

  /** A float64 as an int: out of range it becomes the least int64, as on amd64. */
  function Converted(n: nat): int { if n <= MAX_INT64 then n else MIN_INT64 }

  /** Both far edges are int64 values. */
  predicate Regular(r: Rect) { r.left + r.w <= MAX_INT64 && r.top + r.h <= MAX_INT64 }

  /** No pixel of r is in the source, but only because an edge is beyond int64. */
  predicate Beyond(r: Rect, srcW: nat, srcH: nat) {
    && 0 < r.w <= MAX_INT64 && 0 < r.h <= MAX_INT64
    && (r.left < srcW || r.left > MAX_INT64) && (r.top < srcH || r.top > MAX_INT64)
  }

  /** The pixels asked for that the source has. */
  ghost predicate Overlaps(r: Rect, srcW: nat, srcH: nat) {
    exists x, y :: Inside(r, x, y) && 0 <= x < srcW && 0 <= y < srcH
  }

  /** `got` lies within the source and holds exactly the pixels of `want` the source has. */
  ghost predicate IsClipped(got: Rect, want: Rect, srcW: nat, srcH: nat) {
    && InBounds(got, srcW, srcH)
    && forall x, y :: Inside(got, x, y) <==> Inside(want, x, y) && 0 <= x < srcW && 0 <= y < srcH
  }

  /** What the code refuses: a region without pixels in the source, unless an edge is beyond int64, and one whose
      side is. */
  ghost predicate Refused(r: Rect, srcW: nat, srcH: nat) {
    if Overlaps(r, srcW, srcH) then r.w > MAX_INT64 || r.h > MAX_INT64 else !Beyond(r, srcW, srcH)
  }

  /** What is accepted is exactly the pixels the region shares with the source if and only if its far edges are
      int64 values; a region with such edges is refused exactly when it shares none. */
  method ResolveRegion(r: Region, srcW: nat, srcH: nat) returns (result: Option<Rect>)
    requires ValidRegion(r) && 0 < srcW <= MAX_INT64 && 0 < srcH <= MAX_INT64
    ensures result.Some? && InBounds(result.value, srcW, srcH) && r.RegionPixels? ==>
      forall px, py :: Inside(result.value, px, py) <==>
        0 <= px < srcW && 0 <= py < srcH && Between(px, r.x, r.w) && Between(py, r.y, r.h)
    ensures result.Some? && r.RegionFull? ==> result.value == Rect(0, 0, srcW, srcH)
    ensures forall want :: Asks(r, srcW, srcH, want) ==>
            && want == Requested(r, srcW, srcH)
            && (result.None? <==> Refused(want, srcW, srcH))
            && (result.Some? ==> result.value.w > 0 && result.value.h > 0)
            && (result.Some? ==> (InBounds(result.value, srcW, srcH) <==> Regular(want)))
            && (result.Some? ==> (IsClipped(result.value, want, srcW, srcH) <==> Regular(want)))
  {
    hide Wrap64, Overlaps, IsClipped, Div, Percentage, ValidRegion, Converted, Refused, Asks, Between;
    forall want ensures Asks(r, srcW, srcH, want) <==> want == Requested(r, srcW, srcH) { AsksExactly(r, srcW, srcH, want); }
    var left, top, w, h;
    ghost var want := Requested(r, srcW, srcH);
    match r {
      case RegionFull =>
        WholeOverlaps(want, srcW, srcH);
        return Some(Rect(0, 0, srcW, srcH));
      case RegionSquare =>
        var side := srcW;
        if srcH < side { side := srcH; }
        WholeOverlaps(want, srcW, srcH);
        return Some(Rect((srcW - side) / 2, (srcH - side) / 2, side, side));
      case RegionPixels(x_, y_, w_, h_) =>
        left, top := Converted(Truncated(x_)), Converted(Truncated(y_));
        w, h := Converted(Truncated(w_)), Converted(Truncated(h_));
      case RegionPercent(x_, y_, w_, h_) =>
        left := Converted(Percentage(x_, srcW));
        top := Converted(Percentage(y_, srcH));
        w := Converted(Percentage(w_, srcW));
        h := Converted(Percentage(h_, srcH));
    }
    assert left == Converted(want.left) && top == Converted(want.top) && w == Converted(want.w) && h == Converted(want.h);
    hide Requested;
    Resolved(want, srcW, srcH);
    if left >= srcW || top >= srcH { return None; }
    if Wrap64(left + w) > srcW { w := Wrap64(srcW - left); }
    if Wrap64(top + h) > srcH { h := Wrap64(srcH - top); }
    if w <= 0 || h <= 0 { return None; }
    if r.RegionPixels? && IsClipped(Rect(left, top, w, h), want, srcW, srcH) {
      PixelsOfRegion(r, srcW, srcH, Rect(left, top, w, h));
    }
    return Some(Rect(left, top, w, h));
  }

  lemma WrapSmall(n: int)
    requires MIN_INT64 <= n <= 2 * MAX_INT64
    ensures Wrap64(n) == if n <= MAX_INT64 then n else n - 2 * (MAX_INT64 + 1)
  {
  }

  /** What becomes of one side of a region: its start and length, with no length when it is refused. */
  function ClippedSide(at: nat, length: nat, side: nat): (int, int) {
    var a, l := Converted(at), Converted(length);
    if a >= side then (a, 0) else (a, if Wrap64(a + l) > side then Wrap64(side - a) else l)
  }

  lemma ClippedSideIs(at: nat, length: nat, side: nat)
    requires 0 < side <= MAX_INT64
    ensures var (a, l) := ClippedSide(at, length, side);
            && (l > 0 <==> 0 < length <= MAX_INT64 && (at < side || at > MAX_INT64))
            && (l > 0 && at + length <= MAX_INT64 ==> a == at && l == Min(length, side - at))
            && (l > 0 && at + length > MAX_INT64 ==> a < 0 || a + l > side)
  {
    if length > MAX_INT64 && at > MAX_INT64 { assert Wrap64(MIN_INT64 + MIN_INT64) == 0; }
    else if length > MAX_INT64 { WrapSmall(at + MIN_INT64); }
    else if at > MAX_INT64 { WrapSmall(MIN_INT64 + length); }
    else { WrapSmall(at + length); if at < side { WrapSmall(side - at); } }
    hide Wrap64;
  }

  /** The code of `resolveRegion` side by side, and what it comes to. */
  lemma Resolved(want: Rect, srcW: nat, srcH: nat)
    requires 0 <= want.left && 0 <= want.top && 0 <= want.w && 0 <= want.h && 0 < srcW <= MAX_INT64 && 0 < srcH <= MAX_INT64
    ensures var (left, w) := ClippedSide(want.left, want.w, srcW);
            var (top, h) := ClippedSide(want.top, want.h, srcH);
            var got := Rect(left, top, w, h);
            var some := 0 < w && 0 < h;
            && (!some <==> Refused(want, srcW, srcH))
            && (some ==> (InBounds(got, srcW, srcH) <==> Regular(want)))
            && (some ==> (IsClipped(got, want, srcW, srcH) <==> Regular(want)))
  {
    ClippedSideIs(want.left, want.w, srcW);
    ClippedSideIs(want.top, want.h, srcH);
    OverlapIs(want, srcW, srcH);
    hide ClippedSide, Overlaps;
  }

  lemma OverlapIs(r: Rect, srcW: nat, srcH: nat)
    requires 0 <= r.left && 0 <= r.top
    ensures Overlaps(r, srcW, srcH) <==> r.left < srcW && r.top < srcH && 0 < r.w && 0 < r.h
  {
    if r.left < srcW && r.top < srcH && 0 < r.w && 0 < r.h { assert Inside(r, r.left, r.top); }
  }

  /** A region with int64 edges is refused exactly when it shares no pixel with the source. */
  lemma RegularIsRefusedIffEmpty(r: Region, srcW: nat, srcH: nat)
    requires Regular(Requested(r, srcW, srcH)) && srcW <= MAX_INT64 && srcH <= MAX_INT64
    ensures Refused(Requested(r, srcW, srcH), srcW, srcH) <==> !Overlaps(Requested(r, srcW, srcH), srcW, srcH)
  {
    hide Div, Percentage, Overlaps;
    OverlapIs(Requested(r, srcW, srcH), srcW, srcH);
  }

  /** A rectangle within the source needs no clipping. */
  lemma WholeOverlaps(r: Rect, srcW: nat, srcH: nat)
    requires InBounds(r, srcW, srcH) && srcW <= MAX_INT64 && srcH <= MAX_INT64
    ensures Overlaps(r, srcW, srcH) && Regular(r) && !Refused(r, srcW, srcH)
    ensures IsClipped(r, r, srcW, srcH)
  {
    OverlapIs(r, srcW, srcH);
  }

  /** The square is as large as fits, touches two opposite edges, and is centred to within a pixel. */
  lemma SquareIsCentred(srcW: nat, srcH: nat)
    requires srcW > 0 && srcH > 0
    ensures var r := Requested(RegionSquare, srcW, srcH);
            && InBounds(r, srcW, srcH) && r.w == r.h && (r.w == srcW || r.h == srcH)
            && 0 <= (srcW - (r.left + r.w)) - r.left <= 1 && 0 <= (srcH - (r.top + r.h)) - r.top <= 1
  {
  }

  /** A percentage never asks for more than the source has, so percent regions never overflow. */
  lemma PercentRegionsConvert(r: Region, srcW: nat, srcH: nat)
    requires ValidRegion(r) && r.RegionPercent? && srcW <= MAX_INT64 / 2 && srcH <= MAX_INT64 / 2
    ensures var want := Requested(r, srcW, srcH);
            want.left <= srcW && want.w <= srcW && want.top <= srcH && want.h <= srcH && Regular(want)
  {
    PercentageBound(r.x, srcW); PercentageBound(r.w, srcW); PercentageBound(r.y, srcH); PercentageBound(r.h, srcH);
    hide Percentage;
  }

  lemma PercentageBound(v: Num, side: nat)
    requires ValidNum(v) && AtMost(v, 100)
    ensures Percentage(v, side) <= side
  {
    var p := Pow10(v.scale);
    if v.neg { assert v.units * side == 0; }
    Product(v.units, 100 * p, side);
    RoundDivBound(v.units * side, 100 * p, side);
  }

  lemma Product(a: nat, b: nat, c: nat)
    requires a <= b
    ensures a * c <= c * b
  {
  }

  // ---------- the size ----------

  function Max1(v: int): int { if v < 1 then 1 else v }

  function ResolveSize(s: Size, regionW: nat, regionH: nat): Option<(int, int)>
    requires regionW > 0 && regionH > 0
  {
    match s
    case SizeMax(_) => Some((regionW, regionH))
    case SizeWidth(w, up) =>
      if !up && w > regionW then None else Some((w, Max1(RoundDiv(w * regionH, regionW))))
    case SizeHeight(h, up) =>
      if !up && h > regionH then None else Some((Max1(RoundDiv(h * regionW, regionH)), h))
    case SizePercent(p, up) =>
      var d := 100 * Pow10(p.scale);
      if !up && p.units > d then None
      else Some((Max1(RoundDiv(regionW * p.units, d)), Max1(RoundDiv(regionH * p.units, d))))
    case SizeWH(w, h, up) =>
      if !up && (w > regionW || h > regionH) then None else Some((w, h))
    case SizeBestFit(w, h, up) =>
      var (fw, fh) := BestFit(w, h, regionW, regionH);
      if !up && (fw > regionW || fh > regionH) then None else Some((Max1(fw), Max1(fh)))
  }

  function BestFit(w: nat, h: nat, regionW: nat, regionH: nat): (int, int)
    requires regionW > 0 && regionH > 0
  {
    var across := RoundDiv(w * regionH, regionW);
    if across > h then (RoundDiv(h * regionW, regionH), h) else (w, across)
  }

  /** Both sides of every answer are at least 1, and without `^` neither exceeds the region. */
  lemma SizeIsSane(s: Size, regionW: nat, regionH: nat)
    requires ValidSize(s) && regionW > 0 && regionH > 0 && ResolveSize(s, regionW, regionH).Some?
    ensures var (w, h) := ResolveSize(s, regionW, regionH).value;
            w >= 1 && h >= 1 && (!s.upscale ==> w <= regionW && h <= regionH)
  {
    hide RoundDiv;
    match s {
      case SizeWidth(w, _) => if w <= regionW { Product(w, regionW, regionH); RoundDivBound(w * regionH, regionW, regionH); }
      case SizeHeight(h, _) => if h <= regionH { Product(h, regionH, regionW); RoundDivBound(h * regionW, regionH, regionW); }
      case SizePercent(p, _) =>
        var d := 100 * Pow10(p.scale);
        if p.units <= d {
          Product(p.units, d, regionW); RoundDivBound(regionW * p.units, d, regionW);
          Product(p.units, d, regionH); RoundDivBound(regionH * p.units, d, regionH);
        }
      case _ =>
    }
  }

  /** `^` only lifts a limit: without it the answer is the same, and it is given exactly when it does not
      exceed the region - except that a percentage over 100 is refused even where rounding would not enlarge. */
  lemma UpscaleOnlyLiftsALimit(s: Size, regionW: nat, regionH: nat)
    requires ValidSize(s) && regionW > 0 && regionH > 0
    ensures ResolveSize(s.(upscale := true), regionW, regionH).Some?
    ensures var (w, h) := ResolveSize(s.(upscale := true), regionW, regionH).value;
            && (ResolveSize(s, regionW, regionH).Some? ==> ResolveSize(s, regionW, regionH) == Some((w, h)))
            && (ResolveSize(s, regionW, regionH).Some? <==>
                  s.upscale || (w <= regionW && h <= regionH && (s.SizePercent? ==> AtMost(s.percent, 100))))
  {
    hide RoundDiv;
    if ResolveSize(s, regionW, regionH).Some? { SizeIsSane(s, regionW, regionH); }
  }

  /** Sizes that name the output: `max` is the region itself, `w,h` exactly that. */
  lemma NamedSizesAreExact(s: Size, regionW: nat, regionH: nat)
    requires regionW > 0 && regionH > 0
    ensures s.SizeMax? ==> ResolveSize(s, regionW, regionH) == Some((regionW, regionH))
    ensures s.SizeWH? && ResolveSize(s, regionW, regionH).Some? ==>
      ResolveSize(s, regionW, regionH).value.0 == s.w && ResolveSize(s, regionW, regionH).value.1 == s.h
  {
    hide RoundDiv;
  }

  /** What `!w,h` means: within w×h, one bound met exactly, and the other side the exact value of the
      aspect ratio, rounded to nearest. */
  predicate FitsBest(fw: int, fh: int, w: nat, h: nat, regionW: nat, regionH: nat) {
    && 1 <= fw <= w && 1 <= fh <= h
    && (|| (fw == w && NearestSide(fh, w * regionH, regionW))
        || (fh == h && NearestSide(fw, h * regionW, regionH)))
  }

  /** side is a / b rounded to nearest, halves up, or 1 where that is 0. */
  predicate NearestSide(side: int, a: nat, b: nat) {
    if 2 * a < b then side == 1 else RoundsTo(side, a, b)
  }

  lemma BestFitIsBest(s: Size, regionW: nat, regionH: nat)
    requires ValidSize(s) && s.SizeBestFit? && regionW > 0 && regionH > 0
    ensures var r := ResolveSize(s, regionW, regionH);
            && (r.Some? ==> FitsBest(r.value.0, r.value.1, s.w, s.h, regionW, regionH))
            && (r.None? <==> !s.upscale && var (fw, fh) := BestFit(s.w, s.h, regionW, regionH); fw > regionW || fh > regionH)
  {
    hide RoundDiv;
    var across := RoundDiv(s.w * regionH, regionW);
    Nearest(s.w * regionH, regionW);
    Nearest(s.h * regionW, regionH);
    RoundDivSpec(s.w * regionH, regionW, across);
    if across > s.h {
      // w·regionH/regionW is at least h + 1/2, so h·regionW/regionH is below w
      Below(across, s.h, regionW);
      assert s.h * regionW <= s.w * regionH;
      RoundDivBound(s.h * regionW, regionH, s.w);
    }
  }

  lemma Below(q: nat, h: nat, b: nat)
    requires q > h
    ensures (2 * q - 1) * b >= 2 * (h * b)
  {
    Mono(2 * h, 2 * q - 1, b);
    assert (2 * h) * b == 2 * (h * b);
  }

  lemma Nearest(a: nat, b: nat)
    requires b > 0
    ensures NearestSide(Max1(RoundDiv(a, b)), a, b)
  {
    var q := RoundDiv(a, b);
    RoundDivSpec(a, b, q);
    if q == 0 { assert (2 * q + 1) * b == b; } else { assert (2 * q - 1) * b >= b; }
  }

  /** One side given, the other follows the aspect ratio of the region. */
  lemma OneSideKeepsAspect(s: Size, regionW: nat, regionH: nat)
    requires regionW > 0 && regionH > 0 && ResolveSize(s, regionW, regionH).Some?
    ensures var (w, h) := ResolveSize(s, regionW, regionH).value;
            && (s.SizeWidth? ==> w == s.w && NearestSide(h, w * regionH, regionW))
            && (s.SizeHeight? ==> h == s.h && NearestSide(w, h * regionW, regionH))
            && (s.SizePercent? ==> var d := 100 * Pow10(s.percent.scale);
                                   NearestSide(w, regionW * s.percent.units, d) && NearestSide(h, regionH * s.percent.units, d))
  {
    hide RoundDiv, NearestSide;
    match s {
      case SizeWidth(w, _) => Nearest(w * regionH, regionW);
      case SizeHeight(h, _) => Nearest(h * regionW, regionH);
      case SizePercent(p, _) => Nearest(regionW * p.units, 100 * Pow10(p.scale)); Nearest(regionH * p.units, 100 * Pow10(p.scale));
      case _ =>
    }
  }

  // ---------- limits ----------

  /** `CheckSourcePixels`: no product is formed. */
  function SourceFits(width: int, height: int, maxPixels: int): bool {
    maxPixels <= 0 || (width > 0 && height > 0 && width <= maxPixels / height)
  }

  lemma SourceFitsIsArea(width: int, height: int, maxPixels: int)
    requires maxPixels > 0
    ensures SourceFits(width, height, maxPixels) <==> width > 0 && height > 0 && width * height <= maxPixels
  {
    if height > 0 {
      Quotient(maxPixels, height);
      if width <= maxPixels / height { Mono(width, maxPixels / height, height); }
      else { Mono(maxPixels / height + 1, width, height); }
    }
  }

  /** The test on the output area, whose product is an int64. */
  function OutputFits(outW: int, outH: int, maxPixels: int): bool {
    maxPixels <= 0 || Wrap64(outW * outH) <= maxPixels
  }

  /** The product of the sides of a size the parser accepts, for a region of bounded area and aspect. */
  lemma AreaBound(s: Size, regionW: nat, regionH: nat)
    requires ValidSize(s) && regionW > 0 && regionH > 0 && ResolveSize(s, regionW, regionH).Some?
    requires regionW * regionH <= 900_000_000_000_000
    requires regionW <= 9_000_000 * regionH && regionH <= 9_000_000 * regionW
    ensures var (w, h) := ResolveSize(s, regionW, regionH).value; 0 < w * h <= 9_000_000_000_000_000_000
  {
    hide RoundDiv;
    var (w, h) := ResolveSize(s, regionW, regionH).value;
    SizeIsSane(s, regionW, regionH);
    match s {
      case SizeMax(_) => Positive2(w, h);
      case SizeWH(_, _, _) => Bounded(w, 1_000_000, h, 1_000_000);
      case SizeBestFit(_, _, _) => BestFitIsBest(s, regionW, regionH); Bounded(w, 1_000_000, h, 1_000_000);
      case SizeWidth(_, _) =>
        FollowingSide(w, regionH, regionW);
        Bounded(w, 1_000_000, h, 9_000_000_000_000);
      case SizeHeight(_, _) =>
        FollowingSide(h, regionW, regionH);
        Bounded(w, 9_000_000_000_000, h, 1_000_000);
      case SizePercent(p, _) =>
        PercentSide(p, regionW); PercentSide(p, regionH);
        Bounded(w, 100 * regionW, h, 100 * regionH);
        Hundredfold(regionW, regionH);
    }
  }

  lemma Bounded(w: int, a: nat, h: int, b: nat)
    requires 0 < w <= a && 0 < h <= b
    ensures 0 < w * h <= a * b
  {
    Mono(w, a, h);
    Product(h, b, a);
    Positive2(w, h);
  }

  lemma Positive2(w: int, h: int)
    requires 0 < w && 0 < h
    ensures 0 < w * h
  {
  }

  lemma Hundredfold(a: nat, b: nat)
    ensures (100 * a) * (100 * b) == 10_000 * (a * b)
  {
  }

  lemma FollowingSide(w: nat, a: nat, b: nat)
    requires 0 < w <= 1_000_000 && b > 0 && a <= 9_000_000 * b
    ensures Max1(RoundDiv(w * a, b)) <= 9_000_000_000_000
  {
    hide RoundDiv;
    Product(w, 1_000_000, a);
    RoundDivBound(w * a, b, 9_000_000_000_000);
  }

  lemma PercentSide(p: Num, side: nat)
    requires ValidNum(p) && AtMost(p, MAX_PARSED_PERCENT) && Positive(p) && side > 0
    ensures Max1(RoundDiv(side * p.units, 100 * Pow10(p.scale))) <= 100 * side
  {
    hide RoundDiv;
    var d := Pow10(p.scale);
    Product(p.units, 10_000 * d, side);
    assert side * (10_000 * d) == (100 * side) * (100 * d);
    RoundDivBound(side * p.units, 100 * d, 100 * side);
  }

  /** The test refuses exactly the areas over the limit, whatever the limit, if and only if the true area is an int64. */
  lemma OutputTestIsExact(outW: int, outH: int)
    requires 0 < outW && 0 < outH
    ensures (forall m | 0 < m <= MAX_INT64 :: OutputFits(outW, outH, m) <==> outW * outH <= m) <==> outW * outH <= MAX_INT64
  {
    var area := outW * outH;
    Positive2(outW, outH);
    if area <= MAX_INT64 {
      WrapSmall(area);
    } else {
      WrapIsInt64(area);
      assert OutputFits(outW, outH, MAX_INT64);
    }
    hide Wrap64;
  }

  lemma WrapIsInt64(n: int)
    ensures IsInt64(Wrap64(n))
  {
  }

  /** So it does for every size the parser accepts, within these bounds on area and aspect. */
  lemma OutputFitsIsArea(s: Size, regionW: nat, regionH: nat, maxPixels: int)
    requires ValidSize(s) && regionW > 0 && regionH > 0 && ResolveSize(s, regionW, regionH).Some?
    requires regionW * regionH <= 900_000_000_000_000
    requires regionW <= 9_000_000 * regionH && regionH <= 9_000_000 * regionW
    requires 0 < maxPixels <= MAX_INT64
    ensures var (w, h) := ResolveSize(s, regionW, regionH).value; OutputFits(w, h, maxPixels) <==> w * h <= maxPixels
  {
    hide ResolveSize, OutputFits;
    AreaBound(s, regionW, regionH);
    SizeIsSane(s, regionW, regionH);
    var (w, h) := ResolveSize(s, regionW, regionH).value;
    OutputTestIsExact(w, h);
  }

  /** And not beyond them: `^1000000,` on a region of 1 by 10,000,000 pixels is 10^19 pixels, which no limit refuses. */
  lemma NarrowRegionsOverflow(maxPixels: int)
    requires maxPixels > 0
    ensures ResolveSize(SizeWidth(1_000_000, true), 1, 10_000_000) == Some((1_000_000, 10_000_000_000_000))
    ensures OutputFits(1_000_000, 10_000_000_000_000, maxPixels)
  {
  }

  // ---------- pages of a JPEG 2000 pyramid ----------

  function Pow2(n: nat): (p: nat)
    ensures p >= 1
  {
    if n == 0 then 1 else 2 * Pow2(n - 1)
  }

  /** The output is no larger than the region shrunk p times by two. */
  predicate Shrinks(p: nat, regionW: int, regionH: int, outW: int, outH: int) {
    Pow2(p) * outW <= regionW && Pow2(p) * outH <= regionH
  }

  lemma {:induction false} ShrinksLess(p: nat, q: nat, regionW: int, regionH: int, outW: int, outH: int)
    requires p <= q && Shrinks(q, regionW, regionH, outW, outH) && outW >= 0 && outH >= 0
    ensures Shrinks(p, regionW, regionH, outW, outH)
  {
    if p < q {
      var half := Pow2(q - 1);
      Mono(half, 2 * half, outW);
      Mono(half, 2 * half, outH);
      ShrinksLess(p, q - 1, regionW, regionH, outW, outH);
    }
  }

  /** The chosen page is the greatest that still is no smaller than the output, or page 0. */
  method ChooseJP2Page(pages: int, regionW: int, regionH: int, outW: int, outH: int) returns (page: nat)
    ensures page == 0 || (page < pages && 0 < outW && 0 < outH && Shrinks(page, regionW, regionH, outW, outH))
    ensures 0 < regionW && 0 < regionH && 0 < outW && 0 < outH ==>
      forall q: nat :: page < q < pages ==> !Shrinks(q, regionW, regionH, outW, outH)
  {
    if pages <= 1 || regionW <= 0 || regionH <= 0 || outW <= 0 || outH <= 0 { return 0; }
    // shrink < 2
    if regionW < 2 * outW || regionH < 2 * outH {
      forall q: nat | 0 < q < pages ensures !Shrinks(q, regionW, regionH, outW, outH) { TooSmall(q, 1, regionW, regionH, outW, outH); }
      return 0;
    }
    page := 0;
    var candidate := 1;
    while candidate < pages
      invariant 1 <= candidate <= pages && page == candidate - 1
      invariant page == 0 || Shrinks(page, regionW, regionH, outW, outH)
    {
      if !Shrinks(candidate, regionW, regionH, outW, outH) {
        forall q: nat | page < q < pages ensures !Shrinks(q, regionW, regionH, outW, outH) { TooSmall(q, candidate, regionW, regionH, outW, outH); }
        return;
      }
      page := candidate;
      candidate := candidate + 1;
    }
  }

  lemma TooSmall(q: nat, p: nat, regionW: int, regionH: int, outW: int, outH: int)
    requires p <= q && outW > 0 && outH > 0
    requires !Shrinks(p, regionW, regionH, outW, outH) || (p == 1 && (regionW < 2 * outW || regionH < 2 * outH))
    ensures !Shrinks(q, regionW, regionH, outW, outH)
  {
    assert Pow2(1) == 2 * Pow2(0) == 2;
    if Shrinks(q, regionW, regionH, outW, outH) { ShrinksLess(p, q, regionW, regionH, outW, outH); }
  }

  function Clamp(v: int, min: int, max: int): int { if v < min then min else if v > max then max else v }

  /** One edge pair of `scaleRegionToLoadedPage`: where [at, at + length) of `full` falls on a page of side `page`. */
  function ScaleSpan(at: int, length: int, full: nat, page: nat): (int, int)
    requires full > 0
  {
    var low := Clamp(Div(at * page, full), 0, page - 1);
    var high := Clamp(CeilDiv(Wrap64(at + length) * page, full), low + 1, page);
    (low, high - low)
  }

  /** The clamps keep any span on the page. */
  lemma SpanStaysOnPage(at: int, length: int, full: nat, page: nat)
    requires 0 < full && 0 < page
    ensures var (low, n) := ScaleSpan(at, length, full, page); 0 <= low && 0 < n && low + n <= page
  {
    hide Div, CeilDiv, Wrap64;
  }

  function ScaleRegionToLoadedPage(r: Rect, fullW: nat, fullH: nat, pageW: nat, pageH: nat): Rect {
    if fullW == 0 || fullH == 0 || pageW == 0 || pageH == 0 then r else
    var (left, w) := ScaleSpan(r.left, r.w, fullW, pageW);
    var (top, h) := ScaleSpan(r.top, r.h, fullH, pageH);
    Rect(left, top, w, h)
  }

  /** [low, low + n) holds the exact image of [at, at + length), with less than a pixel to spare at each
      end, and lies on the page. */
  predicate Covers(low: int, n: int, at: nat, length: nat, full: nat, page: nat) {
    && 0 <= low && 0 < n && low + n <= page
    && low * full <= at * page < (low + 1) * full
    && (low + n - 1) * full < (at + length) * page <= (low + n) * full
  }

  lemma SpanCovers(at: nat, length: nat, full: nat, page: nat)
    requires 0 < full <= MAX_INT64 && 0 < page && 0 < length && at + length <= full
    ensures var (low, n) := ScaleSpan(at, length, full, page); Covers(low, n, at, length, full, page)
    // the clamps change nothing
    ensures ScaleSpan(at, length, full, page).0 == Div(at * page, full)
    ensures ScaleSpan(at, length, full, page).0 + ScaleSpan(at, length, full, page).1 == CeilDiv((at + length) * page, full)
  {
    hide ScaleSpan, Div, CeilDiv;
    assert Wrap64(at + length) == at + length by { WrapSmall(at + length); }
    var low, high := Div(at * page, full), CeilDiv((at + length) * page, full);
    assert low * full <= at * page < (low + 1) * full by { DivIs(at * page, full); }
    assert (high - 1) * full < (at + length) * page <= high * full by { CeilIs((at + length) * page, full); }
    Product(at, full - 1, page);
    Mono(at + length, full, page);
    assert (full - 1) * page == full * page - page;
    assert low < page by { if low >= page { Mono(page, low, full); } }
    assert high <= page by { if high - 1 >= page { Mono(page, high - 1, full); } }
    assert at * page < (at + length) * page by { assert (at + length) * page == at * page + length * page; }
    assert high > low by { if high <= low { Mono(high, low, full); } }
    SpanIs(at, length, full, page, low, high);
  }

  lemma SpanIs(at: nat, length: nat, full: nat, page: nat, low: int, high: int)
    requires full > 0 && low == Div(at * page, full) && high == CeilDiv(Wrap64(at + length) * page, full)
    requires 0 <= low < page && low < high <= page
    ensures ScaleSpan(at, length, full, page) == (low, high - low)
  {
    hide Div, CeilDiv, Wrap64;
  }

  lemma DivIs(a: nat, b: nat)
    requires b > 0
    ensures Div(a, b) * b <= a < (Div(a, b) + 1) * b
  {
    Quotient(a, b);
  }

  lemma CeilIs(a: nat, b: nat)
    requires b > 0
    ensures (CeilDiv(a, b) - 1) * b < a <= CeilDiv(a, b) * b
  {
    Quotient(a + b - 1, b);
    var q := CeilDiv(a, b);
    assert (q - 1) * b == q * b - b && (q + 1) * b == q * b + b;
  }

  /** On a page at least full / 2^p long, a span of at least 2^p·out still has `out` pixels. */
  lemma SpanIsLongEnough(at: nat, length: nat, full: nat, page: nat, p: nat, out: nat)
    requires 0 < full <= MAX_INT64 && 0 < page && 0 < length && at + length <= full
    requires full <= page * Pow2(p) && Pow2(p) * out <= length
    ensures ScaleSpan(at, length, full, page).1 >= out
  {
    SpanCovers(at, length, full, page);
    var (low, n) := ScaleSpan(at, length, full, page);
    hide ScaleSpan;
    LongEnough(low, n, at, length, full, page, Pow2(p), out);
  }

  lemma LongEnough(low: int, n: int, at: nat, length: nat, full: nat, page: nat, k: nat, out: nat)
    requires 0 < full && Covers(low, n, at, length, full, page)
    requires full <= page * k && k * out <= length
    ensures n >= out
  {
    // n·full ≥ length·page ≥ out·k·page ≥ out·full
    assert (low + n) * full == low * full + n * full;
    assert (at + length) * page == at * page + length * page;
    Mono(k * out, length, page);
    Mono(full, page * k, out);
    assert (page * k) * out == (k * out) * page;
    assert (n + 1) * full == n * full + full;
    if n < out { Mono(n + 1, out, full); }
  }

  // ---------- the whole plan ----------

  /** What is loaded, cut out and scaled. */
  datatype Plan = Plan(page: nat, crop: Rect, outW: int, outH: int)

  /** The pages of a pyramid: page p is no shorter than the full image halved p times. */
  ghost predicate GoodPages(pages: int, sides: nat -> (nat, nat), srcW: nat, srcH: nat) {
    forall p: nat :: 0 < p < pages ==>
      && 0 < sides(p).0 && srcW <= sides(p).0 * Pow2(p)
      && 0 < sides(p).1 && srcH <= sides(p).1 * Pow2(p)
  }

  /** The crop is the region's exact image on the loaded page, grown to whole pixels. */
  predicate CropCovers(plan: Plan, region: Rect, srcW: nat, srcH: nat, pageW: nat, pageH: nat) {
    && 0 <= region.left && 0 < region.w && 0 <= region.top && 0 < region.h
    && Covers(plan.crop.left, plan.crop.w, region.left, region.w, srcW, pageW)
    && Covers(plan.crop.top, plan.crop.h, region.top, region.h, srcH, pageH)
  }

  lemma CropOfPage(region: Rect, srcW: nat, srcH: nat, page: nat, pageW: nat, pageH: nat, outW: nat, outH: nat)
    requires srcW <= MAX_INT64 && srcH <= MAX_INT64 && InBounds(region, srcW, srcH) && Shrinks(page, region.w, region.h, outW, outH)
    requires 0 < pageW && srcW <= pageW * Pow2(page) && 0 < pageH && srcH <= pageH * Pow2(page)
    ensures var crop := ScaleRegionToLoadedPage(region, srcW, srcH, pageW, pageH);
            && CropCovers(Plan(page, crop, outW, outH), region, srcW, srcH, pageW, pageH)
            && InBounds(crop, pageW, pageH) && outW <= crop.w && outH <= crop.h
  {
    hide ScaleSpan;
    SpanCovers(region.left, region.w, srcW, pageW);
    SpanCovers(region.top, region.h, srcH, pageH);
    SpanIsLongEnough(region.left, region.w, srcW, pageW, page, outW);
    SpanIsLongEnough(region.top, region.h, srcH, pageH, page, outH);
  }

  lemma CropStaysOnPage(r: Rect, srcW: nat, srcH: nat, pageW: nat, pageH: nat)
    requires 0 < srcW && 0 < srcH && 0 < pageW && 0 < pageH
    ensures InBounds(ScaleRegionToLoadedPage(r, srcW, srcH, pageW, pageH), pageW, pageH)
  {
    hide ScaleSpan;
    SpanStaysOnPage(r.left, r.w, srcW, pageW);
    SpanStaysOnPage(r.top, r.h, srcH, pageH);
  }

  /** From the request to the pixels: the crop always lies on a loaded page. It covers exactly the region clipped
      to the source if and only if the region's far edges are int64 values, and then scaling it to the output
      never enlarges, unless `^` allows it on the full image. */
  method MakePlan(region: Region, size: Size, srcW: nat, srcH: nat, maxSource: int, maxOutput: int,
                  pages: int, sides: nat -> (nat, nat))
    returns (plan: Option<Plan>, ghost clipped: Rect)
    requires ValidRegion(region) && ValidSize(size)
    requires 0 < srcW <= MAX_INT64 && 0 < srcH <= MAX_INT64
    requires GoodPages(pages, sides, srcW, srcH)
    ensures clipped.w > 0 && clipped.h > 0
    ensures plan.Some? ==> ResolveSize(size, clipped.w, clipped.h) == Some((plan.value.outW, plan.value.outH))
    ensures plan.Some? && plan.value.page == 0 ==>
      plan.value.crop == clipped && (InBounds(clipped, srcW, srcH) <==> Regular(Requested(region, srcW, srcH)))
    ensures plan.Some? && plan.value.page > 0 ==>
      var (pageW, pageH) := sides(plan.value.page);
      && plan.value.page < pages
      && InBounds(plan.value.crop, pageW, pageH)
      && (Regular(Requested(region, srcW, srcH)) ==> CropCovers(plan.value, clipped, srcW, srcH, pageW, pageH))
    ensures plan.Some? ==>
      && (plan.value.page == 0 || Shrinks(plan.value.page, clipped.w, clipped.h, plan.value.outW, plan.value.outH))
      && forall q: nat :: plan.value.page < q < pages ==> !Shrinks(q, clipped.w, clipped.h, plan.value.outW, plan.value.outH)
    ensures plan.Some? && Regular(Requested(region, srcW, srcH)) && (plan.value.page > 0 || !size.upscale) ==>
      plan.value.outW <= plan.value.crop.w && plan.value.outH <= plan.value.crop.h
    ensures SourceFits(srcW, srcH, maxSource) && !Refused(Requested(region, srcW, srcH), srcW, srcH) ==>
      (IsClipped(clipped, Requested(region, srcW, srcH), srcW, srcH) <==> Regular(Requested(region, srcW, srcH)))
    ensures plan.None? <==>
      || !SourceFits(srcW, srcH, maxSource)
      || Refused(Requested(region, srcW, srcH), srcW, srcH)
      || ResolveSize(size, clipped.w, clipped.h).None?
      || !OutputFits(ResolveSize(size, clipped.w, clipped.h).value.0, ResolveSize(size, clipped.w, clipped.h).value.1, maxOutput)
  {
    hide Requested, ResolveSize, Shrinks, SourceFits, OutputFits, Overlaps, Beyond, Regular, ScaleRegionToLoadedPage, CropCovers, IsClipped, Refused, Asks, Between;
    clipped := Rect(0, 0, 1, 1);
    if !SourceFits(srcW, srcH, maxSource) { return None, clipped; }
    AsksExactly(region, srcW, srcH, Requested(region, srcW, srcH));
    var resolved := ResolveRegion(region, srcW, srcH);
    if resolved.None? { return None, clipped; }
    var rect := resolved.value;
    clipped := rect;
    var out := ResolveSize(size, rect.w, rect.h);
    if out.None? { return None, clipped; }
    var (outW, outH) := out.value;
    if !OutputFits(outW, outH, maxOutput) { return None, clipped; }
    SizeIsSane(size, rect.w, rect.h);
    var page := ChooseJP2Page(pages, rect.w, rect.h, outW, outH);
    if page > 0 {
      var (pageW, pageH) := sides(page);
      CropStaysOnPage(rect, srcW, srcH, pageW, pageH);
      if InBounds(rect, srcW, srcH) { CropOfPage(rect, srcW, srcH, page, pageW, pageH, outW, outH); }
      rect := ScaleRegionToLoadedPage(rect, srcW, srcH, pageW, pageH);
    }
    plan := Some(Plan(page, rect, outW, outH));
  }
}
