/**
 The two loops of internal/iiif/image/v3/parse/parse.go, proved to compute the
 functions of ImageRequests: the numbers of a region are read one by one into an
 array, and the four operation segments are decoded in place.
 */
module ImageParsing {
  import opened Decimals
  import opened ImageRequests
  import opened Strings
  import opened Wrappers

  method ReadRegion(s: string) returns (region: Option<Region>)
    ensures region == ParseRegion(s)
  {
    hide Split, ParseFloat;
    if s == "" { return None; }
    if s == "full" { return Some(RegionFull); }
    if s == "square" { return Some(RegionSquare); }
    var pct := HasPrefix(s, "pct:");
    var body := TrimPrefix(s, "pct:");
    var parts := Split(body, ',');
    if |parts| != 4 { return None; }
    var vals := new Num[4](_ => Num(false, 0, 0));
    var i := 0;
    while i < |parts|
      invariant 0 <= i <= 4
      invariant forall j :: 0 <= j < i ==> ParseFloat(parts[j]) == Some(vals[j])
    {
      var v := ParseFloat(parts[i]);
      if v.None? { return None; }
      vals[i] := v.value;
      i := i + 1;
    }
    if !Positive(vals[2]) || !Positive(vals[3]) { return None; }
    if Negative(vals[0]) || Negative(vals[1]) { return None; }
    if pct {
      if !AtMost(vals[0], 100) || !AtMost(vals[1], 100) || !AtMost(vals[2], 100) || !AtMost(vals[3], 100) { return None; }
      return Some(RegionPercent(vals[0], vals[1], vals[2], vals[3]));
    }
    return Some(RegionPixels(vals[0], vals[1], vals[2], vals[3]));
  }

  /** The segments before the last four are never written. */
  method ReadImage(parts: array<string>) returns (req: Option<Request>)
    requires parts.Length >= 5
    modifies parts
    ensures req == ParseImage(old(parts[..]))
    ensures parts[..parts.Length - 4] == old(parts[..parts.Length - 4])
  {
    hide Split, Join, DecodeIdentifier, DecodeOperationSegment, ParseRegion, ParseSize, ParseRotation, ParseQualityFormat;
    var n := parts.Length;
    ghost var was := parts[..];
    assert parts[..n - 4] == was[..n - 4];
    var id := DecodeIdentifier(Join(parts[..n - 4], '/'));
    if id.None? { return None; }
    var i := n - 4;
    while i < n
      invariant n - 4 <= i <= n
      invariant parts[..n - 4] == was[..n - 4]
      invariant forall j :: n - 4 <= j < i ==> DecodeOperationSegment(was[j]) == Some(parts[j])
      invariant forall j :: i <= j < n ==> parts[j] == was[j]
    {
      var decoded := DecodeOperationSegment(parts[i]);
      if decoded.None? { return None; }
      parts[i] := decoded.value;
      i := i + 1;
    }
    var region := ReadRegion(parts[n - 4]);
    if region.None? { return None; }
    var size := ParseSize(parts[n - 3]);
    if size.None? { return None; }
    var rotation := ParseRotation(parts[n - 2]);
    if rotation.None? { return None; }
    var qf := ParseQualityFormat(parts[n - 1]);
    if qf.None? { return None; }
    return Some(Image(id.value, region.value, size.value, rotation.value, qf.value.0, qf.value.1));
  }
}
