/**
 The keys of the derivative cache: internal/cache/keys.go and `derivativeKey`,
 `invalidationMarkerKey` of internal/iiif/image/v3/handler/handler.go. A key is one
 string that stands for a request, a version of its source and an invalidation.
 */
module DerivativeKeys {
  import opened Decimals
  import opened ImageRequests
  import opened Int64
  import opened Strings
  import opened Wrappers

  // ---------- numbers ----------

  lemma {:induction false} DigitsAtMost(n: nat, k: nat)
    requires n < Pow10(k) && k >= 1
    ensures |Digits(n)| <= k
  {
    if n >= 10 {
      assert Pow10(1) == 10 * Pow10(0);
      DigitsAtMost(n / 10, k - 1);
    }
  }

  /** The digits of n > 0; nothing for 0. */
  function DigitsLeft(n: nat): string { if n == 0 then "" else Digits(n) }

  lemma DigitsLeftStep(n: nat)
    requires n > 0
    ensures DigitsLeft(n) == DigitsLeft(n / 10) + [CharOf(n % 10)]
  {
    if n < 10 { assert "" + [CharOf(n)] == [CharOf(n)]; }
  }

  lemma Pow10Of19()
    ensures Pow10(19) == 10_000_000_000_000_000_000
  {
    assert Pow10(5) == 100_000;
    assert Pow10(10) == 10_000_000_000;
    assert Pow10(15) == 1_000_000_000_000_000;
  }

  lemma ItoaIs(n: int)
    requires IsInt64(n)
    ensures Itoa(n) == if n == 0 then "0" else if n < 0 then ['-'] + DigitsLeft(-n) else DigitsLeft(n)
    ensures DigitsLeft(0) == "" && (n < 0 ==> |Itoa(n)| >= 2)
    ensures |DigitsLeft(if n < 0 then -n else n)| <= 19
  {
    hide Pow10;
    Pow10Of19();
    DigitsAtMost(if n < 0 then -n else n, 19);
    assert Itoa(0) == "0";
  }

  /** Twenty bytes hold every int64, and the result is its decimal form, except that
      the minimum, which has no negative in int64, loses its digits. */
  method FormatInt64(n: int) returns (s: string)
    requires IsInt64(n)
    ensures s == Itoa(n) <==> n != MIN_INT64
    ensures n == MIN_INT64 ==> s == "-"
  {
    hide Digits, DigitsLeft;
    ItoaIs(n);
    if n == 0 { return "0"; }
    var neg := n < 0;
    // Negation in 64 bits leaves the minimum as it is.
    var m := if n == MIN_INT64 then n else if neg then -n else n;
    var buf := new char[20](_ => '0');
    var i := 20;
    ghost var all: nat := if m < 0 then 0 else m;
    while m > 0
      invariant 0 <= i <= 20 && buf.Length == 20
      invariant m >= 0 ==> DigitsLeft(all) == DigitsLeft(m) + buf[i..]
      invariant m >= 0 ==> i >= 1 + |DigitsLeft(m)|
      invariant m < 0 ==> i == 20 && m == n == MIN_INT64
    {
      DigitsLeftStep(m);
      i := i - 1;
      buf[i] := CharOf(m % 10);
      m := m / 10;
    }
    if neg {
      i := i - 1;
      buf[i] := '-';
    }
    s := buf[i..];
  }

  function ShownInt64(n: int): string { if n == MIN_INT64 then "-" else Itoa(n) }

  function IntOf(x: Num): int { if x.neg then 0 - x.units else x.units }

  /** `ftoa`: a whole number that fits an int64 is printed as one; a larger one fails the
      conversion test and is printed like a fraction. */
  function Ftoa(x: Num): string {
    if x.scale == 0 && IsInt64(IntOf(x)) then ShownInt64(IntOf(x)) else FormatG(x)
  }

  /** x without the sign of a negative zero, which the key does not show. */
  function Unsigned(x: Num): Num { if x.units == 0 then x.(neg := false) else x }

  lemma ShownInt64Prints(x: Num)
    requires ValidNum(x) && !x.neg && x.scale == 0
    ensures NumberString(Itoa(x.units)) && ParseFloat(Itoa(x.units)) == Some(x)
  {
    hide Digits, Pointed, ParseFloat, Normalize;
    FormatFPrints(x);
    PointedWhole(x);
  }

  lemma PointedWhole(x: Num)
    requires !x.neg && x.scale == 0
    ensures FormatF(x) == Itoa(x.units)
  {
    hide Digits;
  }

  lemma FormatGIsNumber(x: Num)
    ensures NumberString(FormatG(x))
  {
    hide Digits, Significant, Pointed, ExponentString, NumberString;
    var e := |Digits(x.units)| - x.scale - 1;
    var d := Significant(x.units);
    if e < -4 || e >= 6 {
      PointedIsNumber(x, d, |Digits(d)| - 1);
      ExponentIsNumber(e);
      NumberThen(Sign(x) + Pointed(d, |Digits(d)| - 1), ExponentString(e));
    } else {
      FormatFIsNumber(x);
    }
  }

  lemma PointedIsNumber(x: Num, units: nat, scale: nat)
    ensures NumberString(Sign(x) + Pointed(units, scale))
  {
    hide Pointed;
    MantissaOfPointed(units, scale);
  }

  lemma ExponentIsNumber(e: int)
    ensures NumberString(ExponentString(e))
  {
    hide Digits;
  }

  lemma NumberThen(a: string, b: string)
    requires NumberString(a) && NumberString(b)
    ensures NumberString(a + b)
  {
    hide NumberChar;
  }

  /** What `ftoa` prints for a parsed number reads back as that number, up to the sign of zero. */
  lemma FtoaPrints(x: Num)
    requires ValidNum(x)
    ensures Prints(Ftoa, Unsigned(x)) && Ftoa(x) == Ftoa(Unsigned(x))
  {
    hide Itoa, FormatG, ParseFloat, NumberString;
    var u := Unsigned(x);
    if u.scale == 0 && IsInt64(IntOf(u)) {
      ShownInt64Prints(u);
    } else {
      FormatGIsNumber(u);
      FormatGRoundTrip(u);
    }
  }

  // ---------- requests ----------

  /** What follows the identifier in a key. */
  function Operations(req: Request): string
    requires req.Image?
  {
    RegionText(Ftoa, req.region) + "/" + SizeText(Ftoa, req.size) + "/" + RotationText(Ftoa, req.rotation) + "/" +
    (req.quality + "." + req.format)
  }

  /** `DerivativeKey`. */
  function DerivativeKey(req: Request): string
    requires req.Image?
  {
    "iiif/3/" + (req.identifier + "/" + Operations(req))
  }

  /** The request a derivative key stands for. */
  function ReadDerivativeKey(key: string): Option<Request> {
    var parts := Split(TrimPrefix(key, "iiif/3/"), '/');
    var n := |parts|;
    if n < 5 then None else
    var region, size, rotation := ParseRegion(parts[n - 4]), ParseSize(parts[n - 3]), ParseRotation(parts[n - 2]);
    var qf := ParseQualityFormat(parts[n - 1]);
    if region.None? || size.None? || rotation.None? || qf.None? then None
    else Some(Image(Join(parts[..n - 4], '/'), region.value, size.value, rotation.value, qf.value.0, qf.value.1))
  }

  /** The request with no negative zero among its numbers. */
  function UnsignedRequest(req: Request): Request
    requires req.Image?
  {
    req.(region := UnsignedRegion(req.region),
         size := if req.size.SizePercent? then req.size.(percent := Unsigned(req.size.percent)) else req.size,
         rotation := req.rotation.(degrees := Unsigned(req.rotation.degrees)))
  }

  function UnsignedRegion(r: Region): Region {
    if r.RegionFull? || r.RegionSquare? then r
    else r.(x := Unsigned(r.x), y := Unsigned(r.y), w := Unsigned(r.w), h := Unsigned(r.h))
  }

  lemma UnsignedValid(req: Request)
    requires ValidRequest(req) && req.Image?
    ensures var u := UnsignedRequest(req);
            ValidRequest(u) && PrintsRegion(Ftoa, u.region) && PrintsSize(Ftoa, u.size) && Prints(Ftoa, u.rotation.degrees)
    ensures DerivativeKey(UnsignedRequest(req)) == DerivativeKey(req)
  {
    hide Ftoa, Prints, ValidIdentifier, AtMost;
    forall x | ValidNum(x) { FtoaPrints(x); }
    forall x, b { UnsignedAtMost(x, b); }
  }

  lemma UnsignedAtMost(x: Num, b: nat)
    ensures AtMost(x, b) ==> AtMost(Unsigned(x), b)
  {
    if x.units == 0 { assert 0 <= b * Pow10(x.scale); }
  }

  /** The key determines the request, whatever slashes the identifier holds. */
  lemma ReadsBack(req: Request)
    requires ValidRequest(req) && req.Image?
    ensures ReadDerivativeKey(DerivativeKey(req)) == Some(UnsignedRequest(req))
  {
    hide Ftoa, Prints, PrintsRegion, PrintsSize, ValidRequest, Split, Join, ParseRegion, ParseSize, ParseRotation, ParseQualityFormat,
         RegionText, SizeText, RotationText, Plain;
    UnsignedValid(req);
    var u := UnsignedRequest(req);
    OperationsReadBack(Ftoa, u);
    var b, c, d, e := RegionText(Ftoa, u.region), SizeText(Ftoa, u.size), RotationText(Ftoa, u.rotation), u.quality + "." + u.format;
    PlainSegment(b); PlainSegment(c); PlainSegment(d); PlainSegment(e);
    var tail := b + "/" + c + "/" + d + "/" + e;
    TrimMark("iiif/3/", u.identifier + "/" + tail);
    SplitConcat(u.identifier, tail, '/');
    JoinFour(b, c, d, e, '/');
    SplitJoin([b, c, d, e], '/');
    JoinSplit(u.identifier, '/');
    var parts := Split(u.identifier, '/') + [b, c, d, e];
    assert Split(u.identifier + "/" + tail, '/') == parts;
    assert parts[..|parts| - 4] == Split(u.identifier, '/');
  }

  /** Two requests share a key exactly when they differ at most in signs of zeros. */
  lemma SameKeyIffSameRequest(r1: Request, r2: Request)
    requires ValidRequest(r1) && ValidRequest(r2) && r1.Image? && r2.Image?
    ensures DerivativeKey(r1) == DerivativeKey(r2) <==> UnsignedRequest(r1) == UnsignedRequest(r2)
  {
    hide DerivativeKey, ValidRequest, ReadDerivativeKey, UnsignedRequest;
    ReadsBack(r1); ReadsBack(r2);
    UnsignedValid(r1); UnsignedValid(r2);
  }

  // ---------- versions ----------

  /** `storage.Meta` as far as keys go; `modTime` is in nanoseconds, None for the zero time. */
  datatype Meta = Meta(version: string, size: int, modTime: Option<int>)

  // What UnixNano makes of the zero time, in 64 bits.
  const ZERO_TIME_NANOS := -6_795_364_578_871_345_152

  function ModNanos(meta: Meta): int { if meta.modTime.Some? then meta.modTime.value else ZERO_TIME_NANOS }

  /** The source version of `derivativeKey`, "" when there is none and nothing is cached. */
  function SourceVersion(meta: Meta): string {
    if TrimSpace(meta.version) != "" then TrimSpace(meta.version)
    else if meta.size > 0 || meta.modTime.Some? then MetaString(meta.size, ModNanos(meta))
    else ""
  }

  lemma ItoaWithout(n: int, c: char)
    requires c !in "-0123456789"
    ensures c !in Itoa(n) && Itoa(n) != ""
  {
  }

  /** Something says which state of the source this is. */
  predicate Identified(meta: Meta) { !AllSpace(meta.version) || meta.size > 0 || meta.modTime.Some? }

  predicate SpelledBy(version: string, meta: Meta) {
    TrimSpace(version) == "meta:" + Itoa(meta.size) + ":" + Itoa(ModNanos(meta))
  }

  /** Two states of a source that are taken for the same: both have a version of their own and it is the same up to
      surrounding white space; or neither has, and size and time are the same; or one's version spells out the
      other's size and time. */
  predicate SameSource(m1: Meta, m2: Meta) {
    if AllSpace(m1.version) && AllSpace(m2.version) then
      (Identified(m1) <==> Identified(m2)) && (Identified(m1) ==> m1.size == m2.size && ModNanos(m1) == ModNanos(m2))
    else if AllSpace(m1.version) then Identified(m1) && SpelledBy(m2.version, m1)
    else if AllSpace(m2.version) then Identified(m2) && SpelledBy(m1.version, m2)
    else TrimSpace(m1.version) == TrimSpace(m2.version)
  }

  /** For any two states: equal source versions exactly when they are taken for the same; and none, so that nothing is
      cached, exactly when nothing identifies the source. */
  lemma SourceVersionsMeet(m1: Meta, m2: Meta)
    ensures SourceVersion(m1) == SourceVersion(m2) <==> SameSource(m1, m2)
    ensures SourceVersion(m1) == "" <==> !Identified(m1)
  {
    hide TrimSpace, AllSpace, Itoa;
    BlankIsAllSpace(m1.version);
    BlankIsAllSpace(m2.version);
    MetaVersionReads(m1.size, ModNanos(m1));
    MetaVersionReads(m2.size, ModNanos(m2));
    SameMetaString(m1.size, ModNanos(m1), m2.size, ModNanos(m2));
  }

  /** Without a version of its own, the source's size and time are the version: equal strings, equal metadata. */
  lemma MetaVersionDetermines(m1: Meta, m2: Meta)
    requires TrimSpace(m1.version) == "" && TrimSpace(m2.version) == "" && SourceVersion(m1) != ""
    ensures SourceVersion(m1) == SourceVersion(m2) <==>
            m1.size == m2.size && ModNanos(m1) == ModNanos(m2) && (m2.size > 0 || m2.modTime.Some?)
    ensures '#' !in SourceVersion(m1) && !HasSuffix(SourceVersion(m1), MARKER)
  {
    hide Itoa, TrimSpace, HasSuffix;
    MetaVersionReads(m1.size, ModNanos(m1));
    assert '/' in MARKER;
    NoSuffixWithout(SourceVersion(m1), MARKER, '/');
    SameMetaString(m1.size, ModNanos(m1), m2.size, ModNanos(m2));
    assert SourceVersion(m2) == "" || (m2.size > 0 || m2.modTime.Some?);
  }

  function MetaString(size: int, nanos: int): string { "meta:" + Itoa(size) + ":" + Itoa(nanos) }

  lemma NoSuffixWithout(s: string, suffix: string, c: char)
    requires c !in s && c in suffix
    ensures !HasSuffix(s, suffix)
  {
  }

  lemma SameMetaString(s1: int, n1: int, s2: int, n2: int)
    ensures MetaString(s1, n1) == MetaString(s2, n2) <==> s1 == s2 && n1 == n2
  {
    hide Split, Itoa, Atoi;
    MetaVersionReads(s1, n1);
    MetaVersionReads(s2, n2);
  }

  lemma MetaVersionReads(size: int, nanos: int)
    ensures var v := MetaString(size, nanos);
            v != "" && Split(v, ':') == ["meta", Itoa(size), Itoa(nanos)] && '#' !in v && '/' !in v
    ensures Atoi(Itoa(size)) == Some(size) && Atoi(Itoa(nanos)) == Some(nanos)
  {
    hide Split, Itoa, Atoi;
    ItoaRoundTrip(size); ItoaRoundTrip(nanos);
    ItoaWithout(size, ':'); ItoaWithout(nanos, ':'); ItoaWithout(size, '#'); ItoaWithout(nanos, '#');
    ItoaWithout(size, '/'); ItoaWithout(nanos, '/');
    var tail := Itoa(size) + ":" + Itoa(nanos);
    JoinTwo(Itoa(size), Itoa(nanos), ':');
    SplitJoin([Itoa(size), Itoa(nanos)], ':');
    SplitConcat("meta", tail, ':');
    SplitWord("meta", ':');
    assert "meta" + ":" + tail == "meta:" + Itoa(size) + ":" + Itoa(nanos);
  }

  // ---------- composed keys ----------

  /** The key `serveImage` looks up: `invalidation` is "" when the identifier has no marker. */
  function FullKey(req: Request, version: string, invalidation: string): string
    requires req.Image?
  {
    DerivativeKey(req) + "#source=" + version + InvalidationPart(invalidation)
  }

  function InvalidationPart(invalidation: string): string {
    if invalidation == "" then "" else "#invalidate=" + invalidation
  }

  const MARKER := "/cache/invalidation"

  /** `invalidationMarkerKey`. */
  function MarkerKey(identifier: string): string { "iiif/3/" + identifier + MARKER }

  /** What the last '#' of a key introduces. */
  lemma LastPart(head: string, tail: string)
    requires '#' !in tail
    ensures var k := head + "#" + tail; LastIndex(k, '#') == |head| && k[..|head|] == head && k[|head| + 1..] == tail
  {
    var k := head + "#" + tail;
    assert forall j :: |head| < j < |k| ==> k[j] == tail[j - |head| - 1];
    LastIndexIs(k, '#', |head|);
  }

  lemma SameLastPart(h1: string, t1: string, h2: string, t2: string)
    requires '#' !in t1 && '#' !in t2 && h1 + "#" + t1 == h2 + "#" + t2
    ensures h1 == h2 && t1 == t2
  {
    hide LastIndex;
    LastPart(h1, t1);
    LastPart(h2, t2);
  }

  lemma Words(v: string, i: string)
    ensures "source=" + v != "invalidate=" + i
  {
    assert ("source=" + v)[0] == 's';
  }

  lemma SameTail(word: string, a: string, b: string)
    requires word + a == word + b
    ensures a == b
  {
    assert (word + a)[|word|..] == a && (word + b)[|word|..] == b;
  }

  /** For versions without '#', two composed keys are equal exactly when request, source version
      and invalidation all are. */
  lemma KeyDeterminesTuple(r1: Request, v1: string, i1: string, r2: Request, v2: string, i2: string)
    requires ValidRequest(r1) && ValidRequest(r2) && r1.Image? && r2.Image?
    requires '#' !in v1 && '#' !in i1 && '#' !in v2 && '#' !in i2
    ensures FullKey(r1, v1, i1) == FullKey(r2, v2, i2) <==>
            UnsignedRequest(r1) == UnsignedRequest(r2) && v1 == v2 && i1 == i2
  {
    hide DerivativeKey, ValidRequest, UnsignedRequest;
    SameKeyIffSameRequest(r1, r2);
    if FullKey(r1, v1, i1) == FullKey(r2, v2, i2) {
      SuffixesDetermine(DerivativeKey(r1), v1, i1, DerivativeKey(r2), v2, i2);
    }
  }

  lemma SuffixesDetermine(k1: string, v1: string, i1: string, k2: string, v2: string, i2: string)
    requires '#' !in v1 && '#' !in i1 && '#' !in v2 && '#' !in i2
    requires k1 + "#source=" + v1 + InvalidationPart(i1) == k2 + "#source=" + v2 + InvalidationPart(i2)
    ensures k1 == k2 && v1 == v2 && i1 == i2
  {
    Words(v1, i2); Words(v2, i1);
    Parts(k1, v1, i1); Parts(k2, v2, i2);
    var (h1, t1) := LastOf(k1, v1, i1);
    var (h2, t2) := LastOf(k2, v2, i2);
    SameLastPart(h1, t1, h2, t2);
    if i1 == "" {
      SameTail("source=", v1, v2);
    } else {
      SameTail("invalidate=", i1, i2);
      SameLastPart(k1, "source=" + v1, k2, "source=" + v2);
      SameTail("source=", v1, v2);
    }
  }

  /** A key before and after its last '#', when neither version holds one. */
  function LastOf(k: string, v: string, i: string): (string, string) {
    if i == "" then (k, "source=" + v) else (k + "#" + ("source=" + v), "invalidate=" + i)
  }

  lemma Parts(k: string, v: string, i: string)
    requires '#' !in v && '#' !in i
    ensures var (h, t) := LastOf(k, v, i); '#' !in t && k + "#source=" + v + InvalidationPart(i) == h + "#" + t
    ensures '#' !in "source=" + v
  {
    if i == "" {
      assert k + "#source=" + v + "" == k + "#" + ("source=" + v);
    } else {
      assert k + "#source=" + v + ("#invalidate=" + i) == k + "#" + ("source=" + v) + "#" + ("invalidate=" + i);
    }
  }

  /** The versions of a key as it ends in them. */
  function Tail(version: string, invalidation: string): string { version + InvalidationPart(invalidation) }

  /** Equal versions and invalidations, or a source version that spells out the invalidation of the other. */
  predicate SameVersions(v1: string, i1: string, v2: string, i2: string) {
    || (v1 == v2 && i1 == i2)
    || (i1 == "" && i2 != "" && v1 == v2 + "#invalidate=" + i2)
    || (i2 == "" && i1 != "" && v2 == v1 + "#invalidate=" + i1)
  }

  /** The identifier of r2 spells out r1 and the beginning of a version, of which the tail of r1 is the rest. */
  ghost predicate Aliases(r1: Request, tail1: string, r2: Request, tail2: string)
    requires r1.Image? && r2.Image?
  {
    exists y :: AliasedBy(r1, tail1, r2, tail2, y)
  }

  predicate AliasedBy(r1: Request, tail1: string, r2: Request, tail2: string, y: string)
    requires r1.Image? && r2.Image?
  {
    && r2.identifier == r1.identifier + "/" + Operations(r1) + "#source=" + y
    && tail1 == y + "/" + Operations(r2) + "#source=" + tail2
  }

  /** For any source versions at all, `#` included: exactly when two composed keys meet. */
  lemma KeysMeetExactly(r1: Request, v1: string, i1: string, r2: Request, v2: string, i2: string)
    requires ValidRequest(r1) && ValidRequest(r2) && r1.Image? && r2.Image? && '#' !in i1 && '#' !in i2
    ensures FullKey(r1, v1, i1) == FullKey(r2, v2, i2) <==>
            || (UnsignedRequest(r1) == UnsignedRequest(r2) && SameVersions(v1, i1, v2, i2))
            || Aliases(r1, Tail(v1, i1), r2, Tail(v2, i2))
            || Aliases(r2, Tail(v2, i2), r1, Tail(v1, i1))
  {
    hide DerivativeKey, Operations, ValidRequest, UnsignedRequest, Aliases, InvalidationPart;
    SameKeyIffSameRequest(r1, r2);
    SameVersionParts(v1, i1, v2, i2);
    var (k1, t1) := (DerivativeKey(r1), Tail(v1, i1));
    var (k2, t2) := (DerivativeKey(r2), Tail(v2, i2));
    assert FullKey(r1, v1, i1) == k1 + "#source=" + t1 && FullKey(r2, v2, i2) == k2 + "#source=" + t2;
    hide FullKey, Tail;
    if |k1| == |k2| { SamePlace(k1, t1, k2, t2); }
    MeetingIsAlias(r1, t1, r2, t2);
    MeetingIsAlias(r2, t2, r1, t1);
  }

  lemma SamePlace(k1: string, t1: string, k2: string, t2: string)
    requires |k1| == |k2|
    ensures k1 + "#source=" + t1 == k2 + "#source=" + t2 <==> k1 == k2 && t1 == t2
  {
    var a, b := k1 + "#source=" + t1, k2 + "#source=" + t2;
    assert a[..|k1|] == k1 && b[..|k2|] == k2 && a[|k1| + 8..] == t1 && b[|k2| + 8..] == t2;
  }

  /** Keys meet with the first request's shorter exactly when the second is an alias. */
  lemma MeetingIsAlias(r1: Request, t1: string, r2: Request, t2: string)
    requires ValidRequest(r1) && ValidRequest(r2) && r1.Image? && r2.Image?
    ensures Aliases(r1, t1, r2, t2) <==>
            |DerivativeKey(r1)| < |DerivativeKey(r2)| && DerivativeKey(r1) + "#source=" + t1 == DerivativeKey(r2) + "#source=" + t2
  {
    hide DerivativeKey, Operations, ValidRequest;
    var k1, k2 := DerivativeKey(r1), DerivativeKey(r2);
    if Aliases(r1, t1, r2, t2) {
      var y :| AliasedBy(r1, t1, r2, t2, y);
      AliasMeets(r1, t1, r2, t2, y);
    }
    if |k1| < |k2| && k1 + "#source=" + t1 == k2 + "#source=" + t2 {
      var x := Between(k1, t1, k2, t2);
      KeyIs(r1); KeyIs(r2);
      var y := AliasOf(r1.identifier + "/" + Operations(r1), x, r2.identifier, r2);
      assert AliasedBy(r1, t1, r2, t2, y) by {
        assert x == y + "/" + Operations(r2) && t1 == x + "#source=" + t2;
      }
    }
  }

  lemma KeyIs(req: Request)
    requires req.Image?
    ensures DerivativeKey(req) == "iiif/3/" + (req.identifier + "/" + Operations(req))
  {
    hide Operations;
  }

  lemma AliasMeets(r1: Request, t1: string, r2: Request, t2: string, y: string)
    requires r1.Image? && r2.Image? && AliasedBy(r1, t1, r2, t2, y)
    ensures |DerivativeKey(r1)| < |DerivativeKey(r2)| && DerivativeKey(r1) + "#source=" + t1 == DerivativeKey(r2) + "#source=" + t2
  {
    hide Operations;
    Regrouped("iiif/3/", r1.identifier + "/" + Operations(r1), y, "/" + Operations(r2), t2);
    assert r2.identifier + "/" + Operations(r2) == r2.identifier + ("/" + Operations(r2));
    assert y + ("/" + Operations(r2)) + "#source=" + t2 == t1;
  }

  lemma Regrouped(a: string, b: string, y: string, c: string, t: string)
    ensures (a + b) + "#source=" + (y + c + "#source=" + t) == (a + (b + "#source=" + y + c)) + "#source=" + t
  {
  }

  /** The longer of two meeting keys goes on where the shorter one's version begins. */
  lemma Between(k1: string, t1: string, k2: string, t2: string) returns (x: string)
    requires |k1| < |k2| && k1 + "#source=" + t1 == k2 + "#source=" + t2
    ensures k2 == k1 + "#source=" + x && t1 == x + "#source=" + t2
  {
    var key := k1 + "#source=" + t1;
    var d := |k2| - |k1|;
    assert key[|k2|] == '#';
    assert key[|k1|..|k1| + 8] == "#source=";
    assert forall j :: 1 <= j < 8 ==> key[|k1|..|k1| + 8][j] == key[|k1| + j] && "#source="[j] != '#';
    x := k2[|k1| + 8..];
    assert k2 == key[..|k2|] && k1 == key[..|k1|];
    assert k2 == key[..|k1|] + key[|k1|..|k1| + 8] + key[|k1| + 8..|k2|];
    assert t1 == key[|k1| + 8..];
    assert key[|k2|..] == "#source=" + t2;
    assert key[|k1| + 8..] == key[|k1| + 8..|k2|] + key[|k2|..];
  }

  lemma AliasOf(head: string, x: string, identifier: string, req: Request) returns (y: string)
    requires req.Image? && ValidRequest(req)
    requires "iiif/3/" + (identifier + "/" + Operations(req)) == "iiif/3/" + head + "#source=" + x
    ensures x == y + "/" + Operations(req) && identifier == head + "#source=" + y
  {
    hide Operations, ValidRequest;
    var ops := "/" + Operations(req);
    var whole := identifier + ops;
    var front := head + "#source=";
    assert whole == identifier + "/" + Operations(req);
    assert "iiif/3/" + head + "#source=" + x == "iiif/3/" + (front + x);
    SameTail("iiif/3/", whole, front + x);
    OperationsPlain(req);
    SuffixOfConcat(identifier, ops);
    SuffixAfter(front, x, '=', ops);
    y := x[..|x| - |ops|];
    assert x == y + ops;
    assert identifier + ops == (front + y) + ops;
    SuffixOfConcat(front + y, ops);
  }

  lemma OperationsPlain(req: Request)
    requires req.Image? && ValidRequest(req)
    ensures '=' !in "/" + Operations(req)
  {
    hide Ftoa, Prints, PrintsRegion, PrintsSize, RegionText, SizeText, RotationText, ValidRegion, ValidSize, ValidRotation;
    forall x { FtoaIsNumber(x); }
    RegionWithout(req.region); SizeWithout(req.size); RotationWithout(req.rotation);
    WordsWithout(req.quality); WordsWithout(req.format);
  }

  lemma FtoaIsNumber(x: Num)
    ensures NumberString(Ftoa(x))
  {
    hide FormatG, Digits;
    FormatGIsNumber(x);
  }

  lemma RegionWithout(r: Region)
    requires forall x :: NumberString(Ftoa(x))
    ensures '=' !in RegionText(Ftoa, r)
  {
    hide Ftoa;
  }

  lemma SizeWithout(s: Size)
    requires forall x :: NumberString(Ftoa(x))
    ensures '=' !in SizeText(Ftoa, s)
  {
    hide Ftoa, Itoa;
    forall n { ItoaWithout(n, '='); }
  }

  lemma RotationWithout(r: Rotation)
    requires forall x :: NumberString(Ftoa(x))
    ensures '=' !in RotationText(Ftoa, r)
  {
    hide Ftoa;
  }

  lemma WordsWithout(w: string)
    requires w in QUALITIES || w in FORMATS
    ensures '=' !in w
  {
  }

  /** For one request, so, the only way two keys can meet is a source version that spells out the invalidation of
      the other. */
  lemma SameRequestKeys(req: Request, v1: string, i1: string, v2: string, i2: string)
    requires req.Image? && '#' !in i1 && '#' !in i2
    ensures FullKey(req, v1, i1) == FullKey(req, v2, i2) <==> SameVersions(v1, i1, v2, i2)
  {
    hide DerivativeKey;
    var k := DerivativeKey(req) + "#source=";
    var s1, s2 := v1 + InvalidationPart(i1), v2 + InvalidationPart(i2);
    assert FullKey(req, v1, i1) == k + s1 && FullKey(req, v2, i2) == k + s2;
    if k + s1 == k + s2 { SameTail(k, s1, s2); }
    SameVersionParts(v1, i1, v2, i2);
  }

  lemma SameVersionParts(v1: string, i1: string, v2: string, i2: string)
    requires '#' !in i1 && '#' !in i2
    ensures Tail(v1, i1) == Tail(v2, i2) <==> SameVersions(v1, i1, v2, i2)
  {
    if i1 == "" {
      assert v1 + "" == v1 && v2 + "" == v2;
    } else if i2 == "" {
      assert v2 + "" == v2;
    } else {
      BothInvalidated(v1, i1, v2, i2);
    }
  }

  lemma BothInvalidated(v1: string, i1: string, v2: string, i2: string)
    requires '#' !in i1 && '#' !in i2
    ensures v1 + ("#invalidate=" + i1) == v2 + ("#invalidate=" + i2) <==> v1 == v2 && i1 == i2
  {
    assert v1 + ("#invalidate=" + i1) == v1 + "#" + ("invalidate=" + i1);
    assert v2 + ("#invalidate=" + i2) == v2 + "#" + ("invalidate=" + i2);
    if v1 + ("#invalidate=" + i1) == v2 + ("#invalidate=" + i2) {
      SameLastPart(v1, "invalidate=" + i1, v2, "invalidate=" + i2);
      SameTail("invalidate=", i1, i2);
    }
  }

  /** So for a request, a state of its source and an invalidation: exactly when two keys meet. */
  lemma SourceKeysMeet(r1: Request, m1: Meta, i1: string, r2: Request, m2: Meta, i2: string)
    requires ValidRequest(r1) && ValidRequest(r2) && r1.Image? && r2.Image? && '#' !in i1 && '#' !in i2
    ensures var (v1, v2) := (SourceVersion(m1), SourceVersion(m2));
            FullKey(r1, v1, i1) == FullKey(r2, v2, i2) <==>
            || (UnsignedRequest(r1) == UnsignedRequest(r2) && i1 == i2 && SameSource(m1, m2))
            || (UnsignedRequest(r1) == UnsignedRequest(r2) && i1 != i2 && SameVersions(v1, i1, v2, i2))
            || Aliases(r1, Tail(v1, i1), r2, Tail(v2, i2))
            || Aliases(r2, Tail(v2, i2), r1, Tail(v1, i1))
  {
    hide ValidRequest, UnsignedRequest, FullKey, Aliases, Tail, SameSource, SourceVersion;
    KeysMeetExactly(r1, SourceVersion(m1), i1, r2, SourceVersion(m2), i2);
    SourceVersionsMeet(m1, m2);
  }

  /** For one request and one invalidation, whatever the versions: the key changes exactly when the source does. */
  lemma KeyFollowsTheSource(req: Request, m1: Meta, m2: Meta, invalidation: string)
    requires req.Image? && '#' !in invalidation
    ensures FullKey(req, SourceVersion(m1), invalidation) == FullKey(req, SourceVersion(m2), invalidation) <==> SameSource(m1, m2)
  {
    hide FullKey, SameSource, SourceVersion;
    SameRequestKeys(req, SourceVersion(m1), invalidation, SourceVersion(m2), invalidation);
    SourceVersionsMeet(m1, m2);
  }

  // ---------- markers ----------

  /** Each identifier has a marker of its own. */
  lemma MarkersAreDistinct(id1: string, id2: string)
    ensures MarkerKey(id1) == MarkerKey(id2) <==> id1 == id2
  {
    if MarkerKey(id1) == MarkerKey(id2) {
      assert MarkerKey(id1)[7..|MarkerKey(id1)| - |MARKER|] == id1;
      assert MarkerKey(id2)[7..|MarkerKey(id2)| - |MARKER|] == id2;
    }
  }

  /** A derivative's key is some identifier's marker key exactly when its last version ends like one. */
  lemma MarkerCollision(req: Request, version: string, invalidation: string)
    requires req.Image?
    ensures (exists id :: FullKey(req, version, invalidation) == MarkerKey(id)) <==>
            HasSuffix(if invalidation == "" then version else invalidation, MARKER)
  {
    hide FullKey, HasSuffix;
    var v := if invalidation == "" then version else invalidation;
    var head := BeforeLastVersion(req, version, invalidation);
    var key := FullKey(req, version, invalidation);
    SuffixAfter(head, v, '=', MARKER);
    if HasSuffix(v, MARKER) { MarkerOf(head, v); }
    forall id | key == MarkerKey(id) ensures HasSuffix(key, MARKER) { MarkerHasSuffix(id); }
  }

  lemma BeforeLastVersion(req: Request, version: string, invalidation: string) returns (head: string)
    requires req.Image?
    ensures HasPrefix(head, "iiif/3/") && head[|head| - 1] == '='
    ensures FullKey(req, version, invalidation) == head + if invalidation == "" then version else invalidation
  {
    hide RegionText, SizeText, RotationText;
    var key := DerivativeKey(req);
    head := key + "#source=" + if invalidation == "" then "" else version + "#invalidate=";
    assert key[..7] == "iiif/3/";
    hide DerivativeKey;
    assert head[..7] == key[..7];
    assert FullKey(req, version, invalidation) == head + if invalidation == "" then version else invalidation;
  }

  lemma MarkerHasSuffix(id: string)
    ensures HasSuffix(MarkerKey(id), MARKER)
  {
  }

  lemma MarkerOf(head: string, v: string)
    requires HasPrefix(head, "iiif/3/") && HasSuffix(v, MARKER)
    ensures exists id :: head + v == MarkerKey(id)
  {
    var key := head + v;
    assert key[..7] == head[..7] && key[|key| - |MARKER|..] == v[|v| - |MARKER|..];
    assert key == MarkerKey(key[7..|key| - |MARKER|]);
  }

  /** A suffix without c lies behind the last c. */
  lemma SuffixAfter(head: string, v: string, c: char, suffix: string)
    requires head != "" && head[|head| - 1] == c && c !in suffix
    ensures HasSuffix(head + v, suffix) <==> HasSuffix(v, suffix)
  {
    var key := head + v;
    if |suffix| <= |v| {
      assert v[|v| - |suffix|..] == key[|key| - |suffix|..];
    } else if |suffix| <= |key| {
      assert key[|key| - |suffix|..][|head| - 1 - (|key| - |suffix|)] == c;
    }
  }
}
