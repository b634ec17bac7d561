/**
 The Image API request grammar: `Parse` of internal/iiif/image/v3/parse/parse.go
 and the printers of the canonical URL in internal/iiif/image/v3/handler/handler.go
 (sections 2.1 and 4.1-4.3 of IIIF Image API 3.0). Strings are bytes.
 */
module ImageRequests {
  import opened Decimals
  import opened PercentEncoding
  import opened Strings
  import opened Wrappers

  const MAX_PARSED_DIMENSION := 1_000_000
  const MAX_PARSED_PERCENT := 10_000

  datatype Region =
    | RegionFull
    | RegionSquare
    | RegionPixels(x: Num, y: Num, w: Num, h: Num)
    | RegionPercent(x: Num, y: Num, w: Num, h: Num)

  /** `SizeMax(true)` is `^max`, the SizeMaxUp of the source. */
  datatype Size =
    | SizeMax(upscale: bool)
    | SizeWidth(w: nat, upscale: bool)
    | SizeHeight(h: nat, upscale: bool)
    | SizePercent(percent: Num, upscale: bool)
    | SizeWH(w: nat, h: nat, upscale: bool)
    | SizeBestFit(w: nat, h: nat, upscale: bool)

  datatype Rotation = Rotation(degrees: Num, mirror: bool)

  datatype Request =
    | Image(identifier: string, region: Region, size: Size, rotation: Rotation, quality: string, format: string)
    | Info(identifier: string)
    | Base(identifier: string)

  const QUALITIES := {"default", "color", "gray", "bitonal"}
  const FORMATS := {"jpg", "tif", "png", "gif", "jp2", "pdf", "webp"}

  // ---------- numbers ----------

  predicate Negative(v: Num) { v.neg && v.units > 0 }

  predicate Positive(v: Num) { !v.neg && v.units > 0 }

  predicate AtMost(v: Num, bound: nat) { v.neg || v.units <= bound * Pow10(v.scale) }

  // ---------- Parse ----------

  function DecodeIdentifier(s: string): Option<string> {
    if s == "" || Unescape(s).None? || ContainsAny(Unescape(s).value, "\0\n\r") then None else Unescape(s)
  }

  function DecodeOperationSegment(s: string): Option<string> {
    if Unescape(s).None? || ContainsAny(Unescape(s).value, "\0\n\r/") then None else Unescape(s)
  }

  function ParseRegion(s: string): Option<Region> {
    if s == "" then None
    else if s == "full" then Some(RegionFull)
    else if s == "square" then Some(RegionSquare)
    else ParseRectangle(HasPrefix(s, "pct:"), TrimPrefix(s, "pct:"))
  }

  function ParseRectangle(pct: bool, body: string): Option<Region> {
    var parts := Split(body, ',');
    if |parts| != 4 then None else
    var x, y, w, h := ParseFloat(parts[0]), ParseFloat(parts[1]), ParseFloat(parts[2]), ParseFloat(parts[3]);
    if x.None? || y.None? || w.None? || h.None? then None
    else if !Positive(w.value) || !Positive(h.value) || Negative(x.value) || Negative(y.value) then None
    else if !pct then Some(RegionPixels(x.value, y.value, w.value, h.value))
    else if AtMost(x.value, 100) && AtMost(y.value, 100) && AtMost(w.value, 100) && AtMost(h.value, 100)
    then Some(RegionPercent(x.value, y.value, w.value, h.value)) else None
  }

  function ParsePosInt(s: string): Option<nat> {
    var v := Atoi(s);
    if v.None? || v.value <= 0 || v.value > MAX_PARSED_DIMENSION then None else Some(v.value)
  }

  function ParseSize(s: string): Option<Size> {
    if s == "" then None else ParseSizeBody(HasPrefix(s, "^"), TrimPrefix(s, "^"))
  }

  function ParseSizeBody(upscale: bool, t: string): Option<Size> {
    if t == "max" then Some(SizeMax(upscale))
    else if HasPrefix(t, "pct:") then
      var v := ParseFloat(t[4..]);
      if v.None? || !Positive(v.value) || !AtMost(v.value, MAX_PARSED_PERCENT) then None
      else Some(SizePercent(v.value, upscale))
    else
      var bestFit := HasPrefix(t, "!");
      var parts := Split(TrimPrefix(t, "!"), ',');
      if |parts| != 2 then None else
      var w, h := ParsePosInt(parts[0]), ParsePosInt(parts[1]);
      if bestFit then
        if w.Some? && h.Some? then Some(SizeBestFit(w.value, h.value, upscale)) else None
      else if parts[0] != "" && parts[1] == "" then
        if w.Some? then Some(SizeWidth(w.value, upscale)) else None
      else if parts[0] == "" && parts[1] != "" then
        if h.Some? then Some(SizeHeight(h.value, upscale)) else None
      else if w.Some? && h.Some? then Some(SizeWH(w.value, h.value, upscale)) else None
  }

  function ParseRotation(s: string): Option<Rotation> {
    if s == "" then None else
    var v := ParseFloat(TrimPrefix(s, "!"));
    if v.None? || Negative(v.value) || !AtMost(v.value, 360) then None
    else Some(Rotation(v.value, HasPrefix(s, "!")))
  }

  function ParseQualityFormat(s: string): Option<(string, string)> {
    var dot := LastIndex(s, '.');
    if dot < 1 || dot == |s| - 1 then None
    else if s[..dot] in QUALITIES && s[dot + 1..] in FORMATS then Some((s[..dot], s[dot + 1..])) else None
  }

  function ParseImage(parts: seq<string>): Option<Request>
    requires |parts| >= 5
  {
    var n := |parts|;
    var id := DecodeIdentifier(Join(parts[..n - 4], '/'));
    var a, b, c, d := DecodeOperationSegment(parts[n - 4]), DecodeOperationSegment(parts[n - 3]),
                      DecodeOperationSegment(parts[n - 2]), DecodeOperationSegment(parts[n - 1]);
    if id.None? || a.None? || b.None? || c.None? || d.None? then None else
    var region, size, rotation, qf := ParseRegion(a.value), ParseSize(b.value), ParseRotation(c.value), ParseQualityFormat(d.value);
    if region.None? || size.None? || rotation.None? || qf.None? then None
    else Some(Image(id.value, region.value, size.value, rotation.value, qf.value.0, qf.value.1))
  }

  function Parse(path: string): Option<Request> {
    var rest := TrimPrefix(path, "/");
    if rest == "" then None else
    var parts := Split(rest, '/');
    var n := |parts|;
    if n >= 2 && parts[n - 1] == "info.json" then
      var id := DecodeIdentifier(Join(parts[..n - 1], '/'));
      if id.Some? then Some(Info(id.value)) else None
    else if n >= 5 && '.' in parts[n - 1] then ParseImage(parts)
    else if n >= 2 then None
    else
      var id := DecodeIdentifier(rest);
      if id.Some? then Some(Base(id.value)) else None
  }

  // ---------- the printers ----------

  // The canonical URL and the cache key print requests alike but for their numbers:
  // `num` is how a number is printed.

  function RectangleText(num: Num -> string, x: Num, y: Num, w: Num, h: Num): string {
    num(x) + "," + num(y) + "," + num(w) + "," + num(h)
  }

  function RegionText(num: Num -> string, r: Region): string {
    match r
    case RegionFull => "full"
    case RegionSquare => "square"
    case RegionPercent(x, y, w, h) => "pct:" + RectangleText(num, x, y, w, h)
    case RegionPixels(x, y, w, h) => RectangleText(num, x, y, w, h)
  }

  function SizeText(num: Num -> string, s: Size): string { (if s.upscale then "^" else "") + SizeBody(num, s) }

  function SizeBody(num: Num -> string, s: Size): string {
    match s
    case SizeMax(_) => "max"
    case SizeWidth(w, _) => Itoa(w) + ","
    case SizeHeight(h, _) => "," + Itoa(h)
    case SizeWH(w, h, _) => Itoa(w) + "," + Itoa(h)
    case SizeBestFit(w, h, _) => "!" + (Itoa(w) + "," + Itoa(h))
    case SizePercent(p, _) => "pct:" + num(p)
  }

  function RotationText(num: Num -> string, r: Rotation): string {
    (if r.mirror then "!" else "") + num(r.degrees)
  }

  function RegionString(r: Region): string { RegionText(FormatF, r) }

  function SizeString(s: Size): string { SizeText(FormatF, s) }

  function RotationString(r: Rotation): string { RotationText(FormatF, r) }

  /** `canonicalImageURL` below the configured prefix. */
  function CanonicalPath(req: Request): string
    requires req.Image? && IsBytes(req.identifier)
  {
    "/" + EscapeIdentifier(req.identifier) + "/" + RegionString(req.region) + "/" + SizeString(req.size) + "/" +
    RotationString(req.rotation) + "/" + (req.quality + "." + req.format)
  }

  /** Where a base request is redirected, below the configured prefix. */
  function InfoPath(identifier: string): string
    requires IsBytes(identifier)
  {
    "/" + EscapeIdentifier(identifier) + "/info.json"
  }

  // ---------- what the parser produces ----------

  predicate ValidIdentifier(id: string) { id != "" && IsBytes(id) && !ContainsAny(id, "\0\n\r") }

  predicate ValidNum(v: Num) { Normal(v) && !Negative(v) }

  predicate ValidRegion(r: Region) {
    match r
    case RegionFull => true
    case RegionSquare => true
    case RegionPixels(x, y, w, h) => ValidNum(x) && ValidNum(y) && ValidNum(w) && ValidNum(h) && Positive(w) && Positive(h)
    case RegionPercent(x, y, w, h) =>
      && ValidNum(x) && ValidNum(y) && ValidNum(w) && ValidNum(h) && Positive(w) && Positive(h)
      && AtMost(x, 100) && AtMost(y, 100) && AtMost(w, 100) && AtMost(h, 100)
  }

  predicate ValidDimension(v: nat) { 0 < v <= MAX_PARSED_DIMENSION }

  predicate ValidSize(s: Size) {
    match s
    case SizeMax(_) => true
    case SizeWidth(w, _) => ValidDimension(w)
    case SizeHeight(h, _) => ValidDimension(h)
    case SizeWH(w, h, _) => ValidDimension(w) && ValidDimension(h)
    case SizeBestFit(w, h, _) => ValidDimension(w) && ValidDimension(h)
    case SizePercent(p, _) => ValidNum(p) && Positive(p) && AtMost(p, MAX_PARSED_PERCENT)
  }

  predicate ValidRotation(r: Rotation) { ValidNum(r.degrees) && AtMost(r.degrees, 360) }

  predicate ValidRequest(req: Request) {
    && ValidIdentifier(req.identifier)
    && (req.Image? ==>
          ValidRegion(req.region) && ValidSize(req.size) && ValidRotation(req.rotation)
          && req.quality in QUALITIES && req.format in FORMATS)
  }

  lemma ParseFloatNormal(s: string)
    ensures ParseFloat(s).Some? ==> Normal(ParseFloat(s).value)
  {
  }

  lemma DecodedIdentifierValid(s: string)
    requires IsBytes(s) && DecodeIdentifier(s).Some?
    ensures ValidIdentifier(DecodeIdentifier(s).value)
  {
    UnescapeBytes(s);
  }

  lemma JoinBytes(parts: seq<string>, sep: char)
    requires sep as int < 256 && forall p <- parts :: IsBytes(p)
    ensures IsBytes(Join(parts, sep))
  {
    if |parts| > 0 { assert parts[0] in parts; }
    if |parts| > 1 { JoinBytes(parts[1..], sep); }
  }

  /** Everything the parser accepts is a valid request. */
  lemma ParsedIsValid(path: string)
    requires IsBytes(path) && Parse(path).Some?
    ensures ValidRequest(Parse(path).value)
  {
    hide Split, Join, DecodeIdentifier, DecodeOperationSegment, ParseFloat, ParsePosInt;
    var rest := TrimPrefix(path, "/");
    var parts := Split(rest, '/');
    var n := |parts|;
    SplitBytes(rest, '/');
    if n >= 2 && parts[n - 1] == "info.json" {
      JoinBytes(parts[..n - 1], '/');
      DecodedIdentifierValid(Join(parts[..n - 1], '/'));
    } else if n >= 5 && '.' in parts[n - 1] {
      JoinBytes(parts[..n - 4], '/');
      DecodedIdentifierValid(Join(parts[..n - 4], '/'));
      ParsedPartsAreValid(parts);
    } else {
      DecodedIdentifierValid(rest);
    }
  }

  lemma ParsedPartsAreValid(parts: seq<string>)
    requires |parts| >= 5 && ParseImage(parts).Some?
    ensures var req := ParseImage(parts).value;
            ValidRegion(req.region) && ValidSize(req.size) && ValidRotation(req.rotation) && req.quality in QUALITIES && req.format in FORMATS
  {
    hide ParseRegion, ParseSize, ParseRotation, ParseQualityFormat, ValidRegion, ValidSize, ValidRotation, DecodeOperationSegment, DecodeIdentifier, Join;
    forall s ensures ParseRegion(s).Some? ==> ValidRegion(ParseRegion(s).value) { ParsedRegionIsValid(s); }
    forall s ensures ParseSize(s).Some? ==> ValidSize(ParseSize(s).value) { ParsedSizeIsValid(s); }
    forall s ensures ParseRotation(s).Some? ==> ValidRotation(ParseRotation(s).value) { ParsedRotationIsValid(s); }
    forall s ensures ParseQualityFormat(s).Some? ==>
                       ParseQualityFormat(s).value.0 in QUALITIES && ParseQualityFormat(s).value.1 in FORMATS
    {
      ParsedQualityIsValid(s);
    }
  }

  lemma ParsedRegionIsValid(s: string)
    ensures ParseRegion(s).Some? ==> ValidRegion(ParseRegion(s).value)
  {
    hide Split, ParseFloat, Normal;
    forall t { ParseFloatNormal(t); }
  }

  lemma ParsedSizeIsValid(s: string)
    ensures ParseSize(s).Some? ==> ValidSize(ParseSize(s).value)
  {
    hide Split, ParseFloat, Normal, Atoi;
    forall t { ParseFloatNormal(t); }
  }

  lemma ParsedRotationIsValid(s: string)
    ensures ParseRotation(s).Some? ==> ValidRotation(ParseRotation(s).value)
  {
    hide ParseFloat, Normal;
    forall t { ParseFloatNormal(t); }
  }

  lemma ParsedQualityIsValid(s: string)
    ensures ParseQualityFormat(s).Some? ==>
              ParseQualityFormat(s).value.0 in QUALITIES && ParseQualityFormat(s).value.1 in FORMATS
  {
  }

  // ---------- reading back what was printed ----------

  /** Characters of printed numbers. */
  predicate NumberChar(c: char) { IsDigit(c) || c in ".-+e" }

  predicate NumberString(s: string) {
    s != "" && (forall i :: 0 <= i < |s| ==> NumberChar(s[i]))
  }

  lemma FormatFIsNumber(x: Num)
    ensures NumberString(FormatF(x))
  {
    MantissaOfPointed(x.units, x.scale);
  }

  lemma ItoaIsNumber(n: nat)
    ensures NumberString(Itoa(n)) && IsDigit(Itoa(n)[0])
  {
  }

  /** Four printed numbers between commas are read as four numbers. */
  lemma FourNumbers(a: string, b: string, c: string, d: string)
    requires NumberString(a) && NumberString(b) && NumberString(c) && NumberString(d)
    ensures var s := a + "," + b + "," + c + "," + d;
            Split(s, ',') == [a, b, c, d] && s != "" && s[0] != 'p' && s[0] != 'f' && s[0] != 's'
  {
    JoinFour(a, b, c, d, ',');
    SplitJoin([a, b, c, d], ',');
  }

  lemma TrimMark(mark: string, body: string)
    ensures HasPrefix(mark + body, mark) && TrimPrefix(mark + body, mark) == body
    ensures mark != "" && (body == "" || body[0] != mark[0]) ==> !HasPrefix(body, mark) && TrimPrefix(body, mark) == body
  {
    assert (mark + body)[|mark|..] == body;
    if HasPrefix(body, mark) && mark != "" { assert body[..|mark|][0] == body[0]; }
  }

  /** What `num` prints for x reads back as x. */
  predicate Prints(num: Num -> string, x: Num) {
    NumberString(num(x)) && ParseFloat(num(x)) == Some(x)
  }

  lemma FormatFPrints(x: Num)
    requires Normal(x)
    ensures Prints(FormatF, x)
  {
    FormatFIsNumber(x);
    FormatFRoundTrip(x);
  }

  predicate PrintsRegion(num: Num -> string, r: Region) {
    r.RegionPixels? || r.RegionPercent? ==> Prints(num, r.x) && Prints(num, r.y) && Prints(num, r.w) && Prints(num, r.h)
  }

  predicate PrintsSize(num: Num -> string, s: Size) { s.SizePercent? ==> Prints(num, s.percent) }

  lemma RectangleRoundTrip(num: Num -> string, r: Region)
    requires ValidRegion(r) && (r.RegionPixels? || r.RegionPercent?) && PrintsRegion(num, r)
    ensures var s := RectangleText(num, r.x, r.y, r.w, r.h);
            s != "" && s[0] != 'p' && s[0] != 'f' && s[0] != 's' && ParseRectangle(r.RegionPercent?, s) == Some(r)
  {
    hide Split, ParseFloat, AtMost, Positive, Normal, NumberString;
    FourNumbers(num(r.x), num(r.y), num(r.w), num(r.h));
  }

  lemma RegionRoundTrip(num: Num -> string, r: Region)
    requires ValidRegion(r) && PrintsRegion(num, r)
    ensures ParseRegion(RegionText(num, r)) == Some(r)
  {
    hide ParseRectangle, RectangleText, ValidRegion, HasPrefix, TrimPrefix;
    if !r.RegionFull? && !r.RegionSquare? {
      RectangleRoundTrip(num, r);
      var body := RectangleText(num, r.x, r.y, r.w, r.h);
      TrimMark("pct:", body);
    }
  }

  lemma PosIntRoundTrip(n: nat)
    requires ValidDimension(n)
    ensures ParsePosInt(Itoa(n)) == Some(n)
  {
    ItoaRoundTrip(n);
  }

  /** Two size parts between a comma, each empty or a number. */
  lemma TwoNumbers(a: string, b: string)
    requires (a == "" || NumberString(a)) && (b == "" || NumberString(b))
    ensures Split(a + "," + b, ',') == [a, b]
    ensures var s := a + "," + b; s[0] != 'p' && s[0] != 'm' && s[0] != '!' && s[0] != '^'
    ensures NumberString(a) ==> a != ""
    ensures NumberString(b) ==> b != ""
  {
    JoinTwo(a, b, ',');
    SplitJoin([a, b], ',');
  }

  lemma SizeBodyRoundTrip(num: Num -> string, s: Size)
    requires ValidSize(s) && PrintsSize(num, s)
    ensures SizeBody(num, s) != "" && SizeBody(num, s)[0] != '^' && ParseSizeBody(s.upscale, SizeBody(num, s)) == Some(s)
  {
    hide Split, ParseFloat, AtMost, Positive, Normal, Itoa, ParsePosInt, NumberString;
    var body := SizeBody(num, s);
    match s {
      case SizeMax(_) =>
      case SizePercent(p, _) =>
        assert body[4..] == num(p);
      case SizeWidth(w, _) =>
        ItoaIsNumber(w); PosIntRoundTrip(w); TwoNumbers(Itoa(w), "");
        assert body == Itoa(w) + "," + "";
      case SizeHeight(h, _) =>
        ItoaIsNumber(h); PosIntRoundTrip(h); TwoNumbers("", Itoa(h));
        assert body == "" + "," + Itoa(h);
      case SizeWH(w, h, _) =>
        ItoaIsNumber(w); ItoaIsNumber(h); PosIntRoundTrip(w); PosIntRoundTrip(h); TwoNumbers(Itoa(w), Itoa(h));
      case SizeBestFit(w, h, _) =>
        ItoaIsNumber(w); ItoaIsNumber(h); PosIntRoundTrip(w); PosIntRoundTrip(h); TwoNumbers(Itoa(w), Itoa(h));
        TrimMark("!", Itoa(w) + "," + Itoa(h));
    }
  }

  lemma SizeRoundTrip(num: Num -> string, s: Size)
    requires ValidSize(s) && PrintsSize(num, s)
    ensures ParseSize(SizeText(num, s)) == Some(s)
  {
    hide ParseSizeBody, SizeBody, HasPrefix, TrimPrefix;
    SizeBodyRoundTrip(num, s);
    TrimMark("^", SizeBody(num, s));
    assert s.upscale || SizeText(num, s) == SizeBody(num, s);
  }

  lemma RotationRoundTrip(num: Num -> string, r: Rotation)
    requires ValidRotation(r) && Prints(num, r.degrees)
    ensures ParseRotation(RotationText(num, r)) == Some(r)
  {
    hide ParseFloat, AtMost, Normal;
    TrimMark("!", num(r.degrees));
    assert NumberChar(num(r.degrees)[0]);
    assert r.mirror || RotationText(num, r) == num(r.degrees);
  }

  lemma LastIndexIs(s: string, c: char, k: nat)
    requires k < |s| && s[k] == c && forall j :: k < j < |s| ==> s[j] != c
    ensures LastIndex(s, c) == k
  {
  }

  /** Qualities and formats are plain words without a point. */
  lemma WordsArePlain(w: string)
    requires w in QUALITIES || w in FORMATS
    ensures Plain(w) && '.' !in w
  {
  }

  lemma QualityFormatRoundTrip(quality: string, format: string)
    requires quality in QUALITIES && format in FORMATS
    ensures ParseQualityFormat(quality + "." + format) == Some((quality, format))
    ensures Plain(quality + "." + format) && quality + "." + format != "info.json"
  {
    var s := quality + "." + format;
    WordsArePlain(quality);
    WordsArePlain(format);
    LastIndexIs(s, '.', |quality|);
    assert s[..|quality|] == quality && s[|quality| + 1..] == format;
  }

  /** Characters that are neither decoded nor refused nor taken for a separator. */
  predicate Plain(s: string) {
    s != "" && forall i :: 0 <= i < |s| ==> s[i] !in "%/\0\n\r" && s[i] as int < 256
  }

  lemma {:induction false} PlainDecodesToItself(s: string)
    requires forall i :: 0 <= i < |s| ==> s[i] != '%'
    ensures Unescape(s) == Some(s)
  {
    if s != "" {
      PlainDecodesToItself(s[1..]);
      assert s == [s[0]] + s[1..];
    }
  }

  lemma PlainSegment(s: string)
    requires Plain(s)
    ensures DecodeOperationSegment(s) == Some(s) && '/' !in s
  {
    PlainDecodesToItself(s);
  }

  lemma RegionTextIsPlain(num: Num -> string, r: Region)
    requires PrintsRegion(num, r)
    ensures Plain(RegionText(num, r))
  {
    hide ParseFloat;
  }

  lemma SizeTextIsPlain(num: Num -> string, s: Size)
    requires ValidSize(s) && PrintsSize(num, s)
    ensures Plain(SizeText(num, s))
  {
    hide ParseFloat, ValidNum, AtMost, Itoa;
    forall n: nat { ItoaIsNumber(n); }
  }

  lemma RotationTextIsPlain(num: Num -> string, r: Rotation)
    requires Prints(num, r.degrees)
    ensures Plain(RotationText(num, r))
  {
    hide ParseFloat;
  }

  /** The operations of a valid request are plain and read back. */
  lemma OperationsReadBack(num: Num -> string, req: Request)
    requires ValidRequest(req) && req.Image?
    requires PrintsRegion(num, req.region) && PrintsSize(num, req.size) && Prints(num, req.rotation.degrees)
    ensures Plain(RegionText(num, req.region)) && ParseRegion(RegionText(num, req.region)) == Some(req.region)
    ensures Plain(SizeText(num, req.size)) && ParseSize(SizeText(num, req.size)) == Some(req.size)
    ensures Plain(RotationText(num, req.rotation)) && ParseRotation(RotationText(num, req.rotation)) == Some(req.rotation)
    ensures var qf := req.quality + "." + req.format; Plain(qf) && ParseQualityFormat(qf) == Some((req.quality, req.format))
    ensures req.quality + "." + req.format != "info.json"
  {
    hide ParseRegion, ParseSize, ParseRotation, ParseQualityFormat, RegionText, SizeText, RotationText, PrintsRegion, PrintsSize, Prints, Plain;
    RegionRoundTrip(num, req.region); SizeRoundTrip(num, req.size); RotationRoundTrip(num, req.rotation);
    QualityFormatRoundTrip(req.quality, req.format);
    RegionTextIsPlain(num, req.region); SizeTextIsPlain(num, req.size); RotationTextIsPlain(num, req.rotation);
  }

  lemma CanonicalOperations(req: Request)
    requires ValidRequest(req) && req.Image?
    ensures Plain(RegionString(req.region)) && ParseRegion(RegionString(req.region)) == Some(req.region)
    ensures Plain(SizeString(req.size)) && ParseSize(SizeString(req.size)) == Some(req.size)
    ensures Plain(RotationString(req.rotation)) && ParseRotation(RotationString(req.rotation)) == Some(req.rotation)
    ensures var qf := req.quality + "." + req.format; Plain(qf) && ParseQualityFormat(qf) == Some((req.quality, req.format))
    ensures req.quality + "." + req.format != "info.json"
  {
    hide ParseRegion, ParseSize, ParseRotation, ParseQualityFormat, RegionText, SizeText, RotationText, Prints, Plain;
    forall x | Normal(x) { FormatFPrints(x); }
    OperationsReadBack(FormatF, req);
  }

  /** One way to write a request: the identifier and the four operations, each percent-encoded somehow. */
  function Assembled(a: string, b: string, c: string, d: string, e: string): string {
    "/" + (a + "/" + (b + "/" + c + "/" + d + "/" + e))
  }

  /** a..e encode the parts of the request; only the operations must keep their slashes and their point. */
  predicate Encodes(req: Request, a: string, b: string, c: string, d: string, e: string)
    requires req.Image?
  {
    && Unescape(a) == Some(req.identifier)
    && Unescape(b) == Some(RegionString(req.region)) && Unescape(c) == Some(SizeString(req.size))
    && Unescape(d) == Some(RotationString(req.rotation)) && Unescape(e) == Some(req.quality + "." + req.format)
    && '/' !in b && '/' !in c && '/' !in d && '/' !in e && '.' in e
  }

  lemma EncodedPartsParse(req: Request, parts: seq<string>, a: string, b: string, c: string, d: string, e: string)
    requires ValidRequest(req) && req.Image? && Encodes(req, a, b, c, d, e)
    requires parts == Split(a, '/') + [b, c, d, e]
    ensures ParseImage(parts) == Some(req) && e != "info.json"
  {
    hide RegionString, SizeString, RotationString, ValidRegion, ValidSize, ValidRotation,
         ParseRegion, ParseSize, ParseRotation, ParseQualityFormat, Unescape, ContainsAny, Join, Split;
    var n := |parts|;
    assert parts[..n - 4] == Split(a, '/');
    JoinSplit(a, '/');
    UnescapeEmpty();
    CanonicalOperations(req);
    PlainHasNoControls(RegionString(req.region)); PlainHasNoControls(SizeString(req.size));
    PlainHasNoControls(RotationString(req.rotation)); PlainHasNoControls(req.quality + "." + req.format);
    if e == "info.json" {
      PlainDecodesToItself(e);
      assert false;
    }
  }

  lemma UnescapeEmpty()
    ensures Unescape("") == Some("")
  {
  }

  lemma PlainHasNoControls(s: string)
    requires Plain(s)
    ensures !ContainsAny(s, "\0\n\r/")
  {
  }

  /** A request parses the same however its parts are percent-encoded. */
  lemma AnyEncodingParses(req: Request, a: string, b: string, c: string, d: string, e: string)
    requires ValidRequest(req) && req.Image? && Encodes(req, a, b, c, d, e)
    ensures Parse(Assembled(a, b, c, d, e)) == Some(req)
  {
    hide ParseImage, Split, Join, Encodes, ValidRequest;
    var tail := b + "/" + c + "/" + d + "/" + e;
    EncodedSlashes(req, a, b, c, d, e);
    JoinFour(b, c, d, e, '/');
    SplitJoin([b, c, d, e], '/');
    SplitConcat(a, tail, '/');
    var rest := a + "/" + tail;
    TrimMark("/", rest);
    var parts := Split(a, '/') + [b, c, d, e];
    assert Split(rest, '/') == parts;
    EncodedPartsParse(req, parts, a, b, c, d, e);
  }

  lemma EncodedSlashes(req: Request, a: string, b: string, c: string, d: string, e: string)
    requires req.Image? && Encodes(req, a, b, c, d, e)
    ensures (forall p <- [b, c, d, e] :: '/' !in p) && '.' in e
  {
  }

  /** Parsing the canonical URL of a request gives the request back. */
  lemma CanonicalRoundTrip(req: Request)
    requires ValidRequest(req) && req.Image?
    ensures Parse(CanonicalPath(req)) == Some(req)
  {
    hide Parse, EscapeIdentifier, RegionString, SizeString, RotationString, ValidRegion, ValidSize, ValidRotation, Unescape, Escape, ParseRegion, ParseSize, ParseRotation, ParseQualityFormat, Plain;
    var a, b, c, d := EscapeIdentifier(req.identifier), RegionString(req.region), SizeString(req.size), RotationString(req.rotation);
    var e := req.quality + "." + req.format;
    EscapeIdentifierIsEscape(req.identifier);
    EscapeRoundTrip(req.identifier, Identifier);
    CanonicalOperations(req);
    PlainSegment(b); PlainSegment(c); PlainSegment(d); PlainSegment(e);
    assert e[|req.quality|] == '.';
    AnyEncodingParses(req, a, b, c, d, e);
    assert CanonicalPath(req) == Assembled(a, b, c, d, e);
  }

  /** The same path after `net/url` has decoded and encoded it again, as it does for a `^` in the size:
      slashes of the identifier are then no longer encoded, and the request is still the same. */
  lemma ReencodedRoundTrip(req: Request)
    requires ValidRequest(req) && req.Image?
    ensures Unescape(CanonicalPath(req)).Some? && IsBytes(Unescape(CanonicalPath(req)).value)
    ensures Parse(Escape(Unescape(CanonicalPath(req)).value, WholePath)) == Some(req)
  {
    hide Parse, RegionString, SizeString, RotationString, ValidRegion, ValidSize, ValidRotation, Unescape, Escape, ParseRegion, ParseSize, ParseRotation, ParseQualityFormat, CanonicalPath;
    var b, c, d := RegionString(req.region), SizeString(req.size), RotationString(req.rotation);
    var e := req.quality + "." + req.format;
    CanonicalOperations(req);
    CanonicalDecodes(req);
    PlainReencoded(b); PlainReencoded(c); PlainReencoded(d); PlainReencoded(e);
    EscapeRoundTrip(req.identifier, WholePath);
    EscapeKeeps(e, WholePath, '.');
    assert e[|req.quality|] == '.';
    AnyEncodingParses(req, Escape(req.identifier, WholePath), Escape(b, WholePath), Escape(c, WholePath), Escape(d, WholePath), Escape(e, WholePath));
    AssembledReencoded(req.identifier, b, c, d, e);
  }

  lemma PlainReencoded(s: string)
    requires Plain(s) && IsBytes(s)
    ensures Unescape(Escape(s, WholePath)) == Some(s) && '/' !in Escape(s, WholePath)
  {
    hide Escape, Unescape;
    EscapeRoundTrip(s, WholePath);
    EscapeKeeps(s, WholePath, '/');
  }

  /** What the canonical path says once its percent-encoding is undone. */
  function Decoded(req: Request): string
    requires req.Image?
  {
    "/" + req.identifier + "/" +
    (RegionString(req.region) + "/" + SizeString(req.size) + "/" + RotationString(req.rotation) + "/" + (req.quality + "." + req.format))
  }

  lemma CanonicalDecodes(req: Request)
    requires ValidRequest(req) && req.Image?
    ensures Unescape(CanonicalPath(req)) == Some(Decoded(req))
  {
    hide EscapeIdentifier, RegionString, SizeString, RotationString, ValidRegion, ValidSize, ValidRotation, Unescape, Escape, ParseRegion, ParseSize, ParseRotation, ParseQualityFormat;
    var a, b, c, d := EscapeIdentifier(req.identifier), RegionString(req.region), SizeString(req.size), RotationString(req.rotation);
    var e := req.quality + "." + req.format;
    EscapeIdentifierIsEscape(req.identifier);
    EscapeRoundTrip(req.identifier, Identifier);
    CanonicalOperations(req);
    var tail := "/" + (b + "/" + c + "/" + d + "/" + e);
    PlainDecodesToItself("/");
    PlainDecodesToItself(tail);
    UnescapeConcat("/", a);
    UnescapeConcat("/" + a, tail);
    assert CanonicalPath(req) == "/" + a + tail;
    assert Decoded(req) == "/" + req.identifier + tail;
  }

  lemma SlashStays(a: string, b: string)
    requires IsBytes(a) && IsBytes(b)
    ensures IsBytes(a + "/" + b) && Escape(a + "/" + b, WholePath) == Escape(a, WholePath) + "/" + Escape(b, WholePath)
  {
    EscapeConcat(a + "/", b, WholePath);
    EscapeConcat(a, "/", WholePath);
    assert "/"[1..] == "";
    assert Escape("/", WholePath) == "/";
  }

  lemma AssembledReencoded(a: string, b: string, c: string, d: string, e: string)
    requires IsBytes(a) && IsBytes(b) && IsBytes(c) && IsBytes(d) && IsBytes(e)
    ensures var s := "/" + a + "/" + (b + "/" + c + "/" + d + "/" + e);
            IsBytes(s) && Escape(s, WholePath) ==
            Assembled(Escape(a, WholePath), Escape(b, WholePath), Escape(c, WholePath), Escape(d, WholePath), Escape(e, WholePath))
  {
    hide Escape;
    SlashStays(b, c);
    SlashStays(b + "/" + c, d);
    SlashStays(b + "/" + c + "/" + d, e);
    var tail := b + "/" + c + "/" + d + "/" + e;
    SlashStays(a, tail);
    SlashStays("", a + "/" + tail);
    EmptyEscaped();
    assert "/" + a + "/" + tail == "" + "/" + (a + "/" + tail);
  }

  lemma EmptyEscaped()
    ensures Escape("", WholePath) == ""
  {
  }

  /** Whatever was parsed is printed in a form that parses to the same request, so printing is idempotent. */
  lemma ParsedPrintsBack(path: string)
    requires IsBytes(path) && Parse(path).Some? && Parse(path).value.Image?
    ensures ValidRequest(Parse(path).value) && Parse(CanonicalPath(Parse(path).value)) == Parse(path)
  {
    hide Parse, CanonicalPath;
    ParsedIsValid(path);
    CanonicalRoundTrip(Parse(path).value);
  }

  // ---------- the grammar ----------

  // Sections 4.1 to 4.5 of IIIF Image API 3.0: which texts say which request, apart from the limits on its values.

  predicate RectangleSays(body: string, a: string, b: string, c: string, d: string, x: Num, y: Num, w: Num, h: Num) {
    && body == a + "," + b + "," + c + "," + d
    && ParseFloat(a) == Some(x) && ParseFloat(b) == Some(y) && ParseFloat(c) == Some(w) && ParseFloat(d) == Some(h)
  }

  /** Four numbers with commas between them. */
  ghost predicate FourSay(body: string, x: Num, y: Num, w: Num, h: Num) {
    exists a, b, c, d :: RectangleSays(body, a, b, c, d, x, y, w, h)
  }

  ghost predicate RegionSays(s: string, r: Region) {
    match r
    case RegionFull => s == "full"
    case RegionSquare => s == "square"
    case RegionPixels(x, y, w, h) => FourSay(s, x, y, w, h)
    case RegionPercent(x, y, w, h) => HasPrefix(s, "pct:") && FourSay(s[4..], x, y, w, h)
  }

  lemma RectangleReads(pct: bool, body: string, x: Num, y: Num, w: Num, h: Num)
    ensures var r := if pct then RegionPercent(x, y, w, h) else RegionPixels(x, y, w, h);
            ParseRectangle(pct, body) == Some(r) <==> ValidRegion(r) && FourSay(body, x, y, w, h)
  {
    hide Split, ParseFloat, AtMost, Normal, NumberText;
    var r := if pct then RegionPercent(x, y, w, h) else RegionPixels(x, y, w, h);
    if ParseRectangle(pct, body) == Some(r) {
      var parts := Split(body, ',');
      JoinSplit(body, ',');
      JoinFour(parts[0], parts[1], parts[2], parts[3], ',');
      assert parts == [parts[0], parts[1], parts[2], parts[3]];
      assert RectangleSays(body, parts[0], parts[1], parts[2], parts[3], x, y, w, h);
      forall t { ParseFloatNormal(t); }
    }
    if a, b, c, d :| RectangleSays(body, a, b, c, d, x, y, w, h) {
      NoComma(a); NoComma(b); NoComma(c); NoComma(d);
      JoinFour(a, b, c, d, ',');
      SplitJoin([a, b, c, d], ',');
    }
  }

  lemma NoComma(a: string)
    requires ParseFloat(a).Some? || Atoi(a).Some?
    ensures a != "" && ',' !in a && Plain(a)
    ensures a[0] != 'p' && a[0] != 'f' && a[0] != 's' && a[0] != 'm' && a[0] != '!' && a[0] != '^'
  {
    hide ParseFloat, Atoi;
    if ParseFloat(a).Some? { DecimalsAreNumberText(a); } else { IntegersAreNumberText(a); }
  }

  /** A region is accepted exactly when the text says it and its values are within the limits. */
  lemma RegionGrammar(s: string, r: Region)
    ensures ParseRegion(s) == Some(r) <==> RegionSays(s, r) && ValidRegion(r)
  {
    hide ParseRectangle, FourSay, ValidNum, Positive, AtMost;
    if r.RegionPixels? || r.RegionPercent? {
      RectangleReads(r.RegionPercent?, TrimPrefix(s, "pct:"), r.x, r.y, r.w, r.h);
      RectangleStarts(TrimPrefix(s, "pct:"), r.x, r.y, r.w, r.h);
      RectangleStarts(s, r.x, r.y, r.w, r.h);
    }
    RectangleKind(HasPrefix(s, "pct:"), TrimPrefix(s, "pct:"));
    assert HasPrefix(s, "pct:") ==> s[..4][0] == s[0] == 'p';
    assert s == "full" || s == "square" ==> s[0] == 'f' || s[0] == 's';
  }

  lemma RectangleKind(pct: bool, body: string)
    ensures ParseRectangle(pct, body).Some? ==>
      if pct then ParseRectangle(pct, body).value.RegionPercent? else ParseRectangle(pct, body).value.RegionPixels?
  {
    hide ParseFloat, Split;
  }

  lemma RectangleStarts(body: string, x: Num, y: Num, w: Num, h: Num)
    ensures FourSay(body, x, y, w, h) ==> body != "" && body[0] != 'p' && body[0] != 'f' && body[0] != 's'
  {
    hide ParseFloat;
    if a, b, c, d :| RectangleSays(body, a, b, c, d, x, y, w, h) {
      NoComma(a);
    }
  }
  ghost predicate PairSays(body: string, w: nat, h: nat) {
    exists a, b :: body == a + "," + b && Atoi(a) == Some(w) && Atoi(b) == Some(h)
  }

  ghost predicate SizeBodySays(body: string, s: Size) {
    match s
    case SizeMax(_) => body == "max"
    case SizeWidth(w, _) => HasSuffix(body, ",") && Atoi(body[..|body| - 1]) == Some(w)
    case SizeHeight(h, _) => HasPrefix(body, ",") && Atoi(body[1..]) == Some(h)
    case SizeWH(w, h, _) => PairSays(body, w, h)
    case SizeBestFit(w, h, _) => HasPrefix(body, "!") && PairSays(body[1..], w, h)
    case SizePercent(p, _) => HasPrefix(body, "pct:") && ParseFloat(body[4..]) == Some(p)
  }

  ghost predicate SizeSays(s: string, size: Size) {
    (HasPrefix(s, "^") <==> size.upscale) && SizeBodySays(TrimPrefix(s, "^"), size)
  }

  lemma PairSplits(body: string)
    requires |Split(body, ',')| == 2
    ensures var parts := Split(body, ','); body == parts[0] + "," + parts[1]
  {
    JoinSplit(body, ',');
    var parts := Split(body, ',');
    JoinTwo(parts[0], parts[1], ',');
    assert parts == [parts[0], parts[1]];
  }

  lemma SplitsInTwo(a: string, b: string)
    requires (a == "" || Atoi(a).Some?) && (b == "" || Atoi(b).Some?)
    ensures Split(a + "," + b, ',') == [a, b]
    ensures var s := a + "," + b; s[0] != 'p' && s[0] != 'm' && s[0] != '!' && s[0] != '^'
  {
    hide Atoi;
    if a != "" { NoComma(a); }
    if b != "" { NoComma(b); }
    JoinTwo(a, b, ',');
    SplitJoin([a, b], ',');
  }

  lemma PairReads(body: string, w: nat, h: nat)
    requires ValidDimension(w) && ValidDimension(h)
    ensures PairSays(body, w, h) <==>
            var parts := Split(body, ','); |parts| == 2 && ParsePosInt(parts[0]) == Some(w) && ParsePosInt(parts[1]) == Some(h)
    ensures PairSays(body, w, h) ==> body != "" && body[0] != 'p' && body[0] != 'm' && body[0] != '!' && body[0] != '^'
  {
    hide Atoi, Split;
    if |Split(body, ',')| == 2 { PairSplits(body); }
    if a, b :| body == a + "," + b && Atoi(a) == Some(w) && Atoi(b) == Some(h) { SplitsInTwo(a, b); }
  }

  lemma Marks(body: string)
    ensures HasPrefix(body, "pct:") ==> body[0] == 'p'
    ensures HasPrefix(body, "!") ==> body[0] == '!'
    ensures body == "max" ==> body[0] == 'm'
  {
    assert HasPrefix(body, "pct:") ==> body[..4][0] == body[0];
    assert HasPrefix(body, "!") ==> body[..1][0] == body[0];
  }

  lemma WidthReads(upscale: bool, body: string, w: nat)
    requires ValidDimension(w)
    ensures ParseSizeBody(upscale, body) == Some(SizeWidth(w, upscale)) <==> SizeBodySays(body, SizeWidth(w, upscale))
    ensures SizeBodySays(body, SizeWidth(w, upscale)) ==> body != "" && body[0] != '^'
  {
    hide Atoi, Split, ParseFloat;
    Marks(body);
    if ParseSizeBody(upscale, body) == Some(SizeWidth(w, upscale)) {
      PairSplits(body);
      var first := Split(body, ',')[0];
      assert body == first + ",";
      assert body[..|body| - 1] == first && body[|body| - 1..] == ",";
    }
    if SizeBodySays(body, SizeWidth(w, upscale)) {
      NoComma(body[..|body| - 1]);
      SplitsInTwo(body[..|body| - 1], "");
      assert body == body[..|body| - 1] + "," + "";
    }
  }

  lemma HeightReads(upscale: bool, body: string, h: nat)
    requires ValidDimension(h)
    ensures ParseSizeBody(upscale, body) == Some(SizeHeight(h, upscale)) <==> SizeBodySays(body, SizeHeight(h, upscale))
    ensures SizeBodySays(body, SizeHeight(h, upscale)) ==> body != "" && body[0] != '^'
  {
    hide Atoi, Split, ParseFloat;
    Marks(body);
    if ParseSizeBody(upscale, body) == Some(SizeHeight(h, upscale)) {
      PairSplits(body);
      assert body == "," + Split(body, ',')[1];
    }
    if SizeBodySays(body, SizeHeight(h, upscale)) {
      NoComma(body[1..]);
      SplitsInTwo("", body[1..]);
      assert body == "" + "," + body[1..];
    }
  }

  lemma TwoSidesRead(upscale: bool, body: string, w: nat, h: nat)
    requires ValidDimension(w) && ValidDimension(h)
    ensures ParseSizeBody(upscale, body) == Some(SizeWH(w, h, upscale)) <==> PairSays(body, w, h)
    ensures ParseSizeBody(upscale, body) == Some(SizeBestFit(w, h, upscale)) <==> HasPrefix(body, "!") && PairSays(body[1..], w, h)
    ensures PairSays(body, w, h) || HasPrefix(body, "!") ==> body != "" && body[0] != '^'
  {
    hide Split, ParseFloat, PairSays;
    Marks(body);
    PairReads(body, w, h);
    PairReads(TrimPrefix(body, "!"), w, h);
    NotEmptyIfPositive();
  }

  lemma NotEmptyIfPositive()
    ensures ParsePosInt("").None?
  {
  }

  /** What follows an optional `^`. */
  lemma SizeBodyGrammar(body: string, size: Size)
    requires ValidSize(size)
    ensures ParseSizeBody(size.upscale, body) == Some(size) <==> SizeBodySays(body, size)
    ensures SizeBodySays(body, size) ==> body != "" && body[0] != '^'
  {
    Marks(body);
    match size {
      case SizeMax(_) => hide Split, ParseFloat, Atoi;
      case SizePercent(p, _) => hide Split, ParseFloat, Atoi, AtMost, Positive, ValidNum;
      case SizeWidth(w, _) => hide ParseSizeBody; WidthReads(size.upscale, body, w);
      case SizeHeight(h, _) => hide ParseSizeBody; HeightReads(size.upscale, body, h);
      case SizeWH(w, h, _) => hide ParseSizeBody; TwoSidesRead(size.upscale, body, w, h);
      case SizeBestFit(w, h, _) => hide ParseSizeBody; TwoSidesRead(size.upscale, body, w, h);
    }
  }

  /** A size is accepted exactly when the text says it and its values are within the limits. */
  lemma SizeGrammar(s: string, size: Size)
    ensures ParseSize(s) == Some(size) <==> SizeSays(s, size) && ValidSize(size)
  {
    hide ParseSizeBody, SizeBodySays, ValidSize, Split;
    ParsedSizeIsValid(s);
    if ValidSize(size) { SizeBodyGrammar(TrimPrefix(s, "^"), size); }
    ParsedMark(HasPrefix(s, "^"), TrimPrefix(s, "^"));
  }

  lemma ParsedMark(upscale: bool, body: string)
    ensures ParseSizeBody(upscale, body).Some? ==> ParseSizeBody(upscale, body).value.upscale == upscale
  {
    hide Split, ParseFloat, Atoi;
  }

  /** A rotation is accepted exactly when the text is a number from 0 to 360, after `!` for a mirrored one. */
  lemma RotationGrammar(s: string, r: Rotation)
    ensures ParseRotation(s) == Some(r) <==>
            (HasPrefix(s, "!") <==> r.mirror) && ParseFloat(TrimPrefix(s, "!")) == Some(r.degrees) && ValidRotation(r)
  {
    hide ParseFloat, AtMost, Normal;
    ParseFloatNormal(TrimPrefix(s, "!"));
    if ParseFloat(s).Some? { NoComma(s); }
  }

  /** Quality and format are accepted exactly when they are known, with a point between them. */
  lemma QualityFormatGrammar(s: string, quality: string, format: string)
    ensures ParseQualityFormat(s) == Some((quality, format)) <==>
            s == quality + "." + format && quality in QUALITIES && format in FORMATS
  {
    hide QUALITIES, FORMATS;
    if ParseQualityFormat(s) == Some((quality, format)) {
      assert s == quality + "." + format;
    }
    if quality in QUALITIES && format in FORMATS { QualityFormatRoundTrip(quality, format); }
  }

  ghost predicate RotationSays(s: string, r: Rotation) {
    (HasPrefix(s, "!") <==> r.mirror) && ParseFloat(TrimPrefix(s, "!")) == Some(r.degrees)
  }

  /** Five percent-encoded parts that say an image request. */
  ghost predicate PartsSay(req: Request, a: string, b: string, c: string, d: string, e: string)
    requires req.Image?
  {
    && Unescape(a) == Some(req.identifier)
    && Unescape(b).Some? && RegionSays(Unescape(b).value, req.region)
    && Unescape(c).Some? && SizeSays(Unescape(c).value, req.size)
    && Unescape(d).Some? && RotationSays(Unescape(d).value, req.rotation)
    && Unescape(e) == Some(req.quality + "." + req.format)
    && '/' !in b && '/' !in c && '/' !in d && '/' !in e && '.' in e
  }

  lemma PlainConcat(a: string, b: string)
    ensures Plain(a) && (b == "" || Plain(b)) ==> Plain(a + b)
    ensures (a == "" || Plain(a)) && Plain(b) ==> Plain(a + b)
  {
    assert "" + b == b && a + "" == a;
  }

  lemma MarksArePlain()
    ensures Plain(",") && Plain("!") && Plain("^") && Plain("pct:") && Plain("max") && Plain("full") && Plain("square")
  {
  }

  lemma MarkedIsPlain(s: string, mark: string)
    requires HasPrefix(s, mark) && Plain(mark) && (s[|mark|..] == "" || Plain(s[|mark|..]))
    ensures Plain(s)
  {
    PlainConcat(mark, s[|mark|..]);
    assert s == mark + s[|mark|..];
  }

  /** What is said holds nothing that would be refused. */
  lemma RegionSaidIsPlain(s: string, r: Region)
    requires RegionSays(s, r)
    ensures Plain(s)
  {
    hide Plain, ParseFloat;
    MarksArePlain();
    if r.RegionPixels? || r.RegionPercent? {
      var body := TrimPrefix(s, if r.RegionPercent? then "pct:" else "");
      assert s[0..] == s;
      var a, b, c, d :| RectangleSays(body, a, b, c, d, r.x, r.y, r.w, r.h);
      NoComma(a); NoComma(b); NoComma(c); NoComma(d);
      PlainConcat(a, ","); PlainConcat(a + ",", b); PlainConcat(a + "," + b, ","); PlainConcat(a + "," + b + ",", c);
      PlainConcat(a + "," + b + "," + c, ","); PlainConcat(a + "," + b + "," + c + ",", d);
      if r.RegionPercent? { MarkedIsPlain(s, "pct:"); }
    }
  }

  lemma PairIsPlain(body: string, w: nat, h: nat)
    requires PairSays(body, w, h)
    ensures Plain(body)
  {
    hide Plain, Atoi;
    MarksArePlain();
    var a, b :| body == a + "," + b && Atoi(a) == Some(w) && Atoi(b) == Some(h);
    NoComma(a); NoComma(b);
    PlainConcat(a, ","); PlainConcat(a + ",", b);
  }

  lemma SizeBodyIsPlain(body: string, size: Size)
    requires SizeBodySays(body, size)
    ensures Plain(body)
  {
    hide Plain, Atoi, ParseFloat, PairSays;
    MarksArePlain();
    match size {
      case SizeMax(_) =>
      case SizeWidth(w, _) =>
        var a := body[..|body| - 1];
        NoComma(a); PlainConcat(a, ",");
        assert body == a + ",";
      case SizeHeight(h, _) => NoComma(body[1..]); MarkedIsPlain(body, ",");
      case SizeWH(w, h, _) => PairIsPlain(body, w, h);
      case SizeBestFit(w, h, _) => PairIsPlain(body[1..], w, h); MarkedIsPlain(body, "!");
      case SizePercent(p, _) => NoComma(body[4..]); MarkedIsPlain(body, "pct:");
    }
  }

  lemma SizeSaidIsPlain(s: string, size: Size)
    requires SizeSays(s, size)
    ensures Plain(s)
  {
    hide Plain, SizeBodySays;
    MarksArePlain();
    SizeBodyIsPlain(TrimPrefix(s, "^"), size);
    if HasPrefix(s, "^") { MarkedIsPlain(s, "^"); }
  }

  lemma RotationSaidIsPlain(s: string, r: Rotation)
    requires RotationSays(s, r)
    ensures Plain(s)
  {
    hide Plain, ParseFloat;
    MarksArePlain();
    NoComma(TrimPrefix(s, "!"));
    if HasPrefix(s, "!") { MarkedIsPlain(s, "!"); }
  }

  /** The operations of an image request, once decoded, are read exactly as the grammar says. */
  lemma OperationsRead(req: Request, b: string, c: string, d: string, e: string)
    requires req.Image? && ValidIdentifier(req.identifier)
    ensures ValidRequest(req) && RegionSays(b, req.region) && SizeSays(c, req.size) && RotationSays(d, req.rotation)
            && e == req.quality + "." + req.format <==>
            ParseRegion(b) == Some(req.region) && ParseSize(c) == Some(req.size) && ParseRotation(d) == Some(req.rotation)
            && ParseQualityFormat(e) == Some((req.quality, req.format))
  {
    hide RegionSays, SizeSays, ValidRegion, ValidSize, ParseRegion, ParseSize, ParseRotation, ParseQualityFormat, ValidIdentifier, ValidRotation;
    RegionGrammar(b, req.region);
    SizeGrammar(c, req.size);
    RotationGrammar(d, req.rotation);
    QualityFormatGrammar(e, req.quality, req.format);
  }

  lemma IdentifierReads(a: string, id: string)
    requires IsBytes(a)
    ensures DecodeIdentifier(a) == Some(id) <==> Unescape(a) == Some(id) && ValidIdentifier(id)
  {
    if Unescape(a).Some? { UnescapeBytes(a); }
  }

  lemma SegmentReads(s: string, text: string)
    ensures DecodeOperationSegment(s) == Some(text) ==> Unescape(s) == Some(text)
    ensures Unescape(s) == Some(text) && Plain(text) ==> DecodeOperationSegment(s) == Some(text)
  {
    hide Unescape;
    if Plain(text) { PlainHasNoControls(text); }
  }

  /** The parts of an image request are read exactly as the grammar says. */
  lemma PartsRead(req: Request, parts: seq<string>)
    requires req.Image? && |parts| >= 5 && '.' in parts[|parts| - 1] && forall p <- parts :: IsBytes(p) && '/' !in p
    ensures var n := |parts|;
            (ParseImage(parts) == Some(req) <==>
               ValidRequest(req) && PartsSay(req, Join(parts[..n - 4], '/'), parts[n - 4], parts[n - 3], parts[n - 2], parts[n - 1]))
  {
    hide RegionSays, SizeSays, RotationSays, ValidRegion, ValidSize, ValidRotation, ParseRegion, ParseSize, ParseRotation, ParseQualityFormat,
         Unescape, DecodeIdentifier, DecodeOperationSegment, Join, Plain, ValidIdentifier;
    var n := |parts|;
    var a, b, c, d, e := Join(parts[..n - 4], '/'), parts[n - 4], parts[n - 3], parts[n - 2], parts[n - 1];
    JoinBytes(parts[..n - 4], '/');
    IdentifierReads(a, req.identifier);
    if ParseImage(parts) == Some(req) {
      var b', c', d', e' := DecodeOperationSegment(b).value, DecodeOperationSegment(c).value, DecodeOperationSegment(d).value, DecodeOperationSegment(e).value;
      SegmentReads(b, b'); SegmentReads(c, c'); SegmentReads(d, d'); SegmentReads(e, e');
      OperationsRead(req, b', c', d', e');
    } else if ValidRequest(req) && PartsSay(req, a, b, c, d, e) {
      var b', c', d', e' := Unescape(b).value, Unescape(c).value, Unescape(d).value, Unescape(e).value;
      RegionSaidIsPlain(b', req.region); SizeSaidIsPlain(c', req.size); RotationSaidIsPlain(d', req.rotation);
      QualityFormatRoundTrip(req.quality, req.format);
      SegmentReads(b, b'); SegmentReads(c, c'); SegmentReads(d, d'); SegmentReads(e, e');
      OperationsRead(req, b', c', d', e');
    }
  }

  /** An image request is what a path means exactly when the path, after an optional slash, is five parts that say it
      and its values are within the limits; the first may hold slashes. */
  lemma ImageGrammar(path: string, req: Request)
    requires IsBytes(path) && req.Image?
    ensures Parse(path) == Some(req) <==>
            ValidRequest(req) && exists a, b, c, d, e ::
              TrimPrefix(path, "/") == a + "/" + (b + "/" + c + "/" + d + "/" + e) && PartsSay(req, a, b, c, d, e)
  {
    hide Unescape, DecodeIdentifier, ParseImage, Split, Join, PartsSay, ValidRequest;
    var rest := TrimPrefix(path, "/");
    var parts := Split(rest, '/');
    var n := |parts|;
    SplitBytes(rest, '/');
    if Parse(path) == Some(req) {
      KindFollowsShape(path);
      PartsRead(req, parts);
      FiveParts(rest, parts);
    }
    if ValidRequest(req) {
      if a, b, c, d, e :| rest == a + "/" + (b + "/" + c + "/" + d + "/" + e) && PartsSay(req, a, b, c, d, e) {
        SaidInParts(req, a, b, c, d, e);
        assert parts == Split(a, '/') + [b, c, d, e];
        JoinSplit(a, '/');
        assert parts[..n - 4] == Split(a, '/');
        PartsRead(req, parts);
      }
    }
  }

  lemma FiveParts(rest: string, parts: seq<string>)
    requires parts == Split(rest, '/') && |parts| >= 5
    ensures var n := |parts|;
            rest == Join(parts[..n - 4], '/') + "/" + (parts[n - 4] + "/" + parts[n - 3] + "/" + parts[n - 2] + "/" + parts[n - 1])
  {
    hide Join, Split;
    var n := |parts|;
    JoinSplit(rest, '/');
    JoinConcat(parts[..n - 4], parts[n - 4..], '/');
    JoinFour(parts[n - 4], parts[n - 3], parts[n - 2], parts[n - 1], '/');
    assert parts == parts[..n - 4] + parts[n - 4..] && parts[n - 4..] == [parts[n - 4], parts[n - 3], parts[n - 2], parts[n - 1]];
  }

  lemma SaidInParts(req: Request, a: string, b: string, c: string, d: string, e: string)
    requires req.Image? && ValidRequest(req) && PartsSay(req, a, b, c, d, e)
    ensures Split(a + "/" + (b + "/" + c + "/" + d + "/" + e), '/') == Split(a, '/') + [b, c, d, e]
    ensures '.' in e && e != "info.json"
  {
    hide Unescape, Split, Join, RegionSays, SizeSays, RotationSays;
    JoinFour(b, c, d, e, '/');
    SplitJoin([b, c, d, e], '/');
    SplitConcat(a, b + "/" + c + "/" + d + "/" + e, '/');
    QualityFormatRoundTrip(req.quality, req.format);
    if e == "info.json" { PlainDecodesToItself(e); assert false; }
  }

  /** An info request parses the same however its identifier is percent-encoded, raw slashes included. */
  lemma AnyInfoParses(a: string, id: string)
    requires ValidIdentifier(id) && Unescape(a) == Some(id)
    ensures Parse("/" + a + "/info.json") == Some(Info(id))
  {
    hide Split, Join, Unescape, ParseImage;
    UnescapeEmpty();
    var rest := a + "/" + "info.json";
    TrimMark("/", rest);
    assert "/" + a + "/info.json" == "/" + rest;
    SplitConcat(a, "info.json", '/');
    SplitWord("info.json", '/');
    JoinSplit(a, '/');
    var parts := Split(a, '/') + ["info.json"];
    assert parts[..|parts| - 1] == Split(a, '/');
  }

  /** So does a base request, but for raw slashes. */
  lemma AnyBaseParses(a: string, id: string)
    requires ValidIdentifier(id) && Unescape(a) == Some(id) && '/' !in a
    ensures Parse("/" + a) == Some(Base(id))
  {
    hide Split, Unescape, ParseImage;
    UnescapeEmpty();
    TrimMark("/", a);
    SplitWord(a, '/');
  }

  lemma SplitWord(w: string, sep: char)
    requires sep !in w
    ensures Split(w, sep) == [w]
  {
    SplitAt(w, sep, |w|);
  }

  /** What kind of request a path is follows from its segments alone. */
  lemma KindFollowsShape(path: string)
    requires Parse(path).Some?
    ensures var parts := Split(TrimPrefix(path, "/"), '/');
            var last := parts[|parts| - 1];
            match Parse(path).value
            case Base(_) => |parts| == 1
            case Info(_) => |parts| >= 2 && last == "info.json"
            case Image(_, _, _, _, _, _) => |parts| >= 5 && last != "info.json" && '.' in last
  {
    hide Split, DecodeIdentifier, DecodeOperationSegment, ParseRegion, ParseSize, ParseRotation, ParseQualityFormat;
  }

  /** A base request is redirected to the info request of the same identifier. */
  lemma BaseRedirectsToItsInfo(path: string)
    requires IsBytes(path) && Parse(path).Some? && Parse(path).value.Base?
    ensures ValidIdentifier(Parse(path).value.identifier)
    ensures Parse(InfoPath(Parse(path).value.identifier)) == Some(Info(Parse(path).value.identifier))
  {
    hide Parse, Unescape, Escape, EscapeIdentifier, ValidIdentifier;
    ParsedIsValid(path);
    var id := Parse(path).value.identifier;
    assert IsBytes(id) by { ValidBytes(id); }
    EscapeIdentifierIsEscape(id);
    EscapeRoundTrip(id, Identifier);
    AnyInfoParses(EscapeIdentifier(id), id);
  }

  lemma ValidBytes(id: string)
    requires ValidIdentifier(id)
    ensures IsBytes(id)
  {
  }
}
