/**
 The single-image PDF of internal/iiif/image/v3/pipeline: `singleImagePDF` builds it
 in memory, `writeSingleImagePDF` streams it through a `countingWriter`. Both must
 give the same file, and the offset table in it must lead a reader to the objects
 (sections 7.5.4 and 7.5.5 of ISO 32000-1). Strings are bytes.
 */
module PDF {
  import opened Decimals
  import opened Strings
  import opened Wrappers

  // ---------- the file ----------

  const HEADER := "%PDF-1.4\n"
  const CATALOG := "<< /Type /Catalog /Pages 2 0 R >>"
  const PAGES := "<< /Type /Pages /Kids [3 0 R] /Count 1 >>"
  const ENDOBJ := "\nendobj\n"
  const ENDSTREAM := "\nendstream"

  const PAGE_END := "]" + " /Resources << /XObject << /Im0 4 0 R >> >> /Contents 5 0 R >>"
  const LENGTH := " " + "/BitsPerComponent 8 /Filter /DCTDecode /Length "

  datatype Picture = Picture(width: nat, height: nat, colorSpace: string, jpeg: string)

  function Page(p: Picture): string {
    "<< /Type /Page /Parent 2 0 R /MediaBox [0 0 " + Itoa(p.width) + " " + Itoa(p.height) + PAGE_END
  }

  function UptoLength(p: Picture): string {
    "<< /Type /XObject /Subtype /Image /Width " + Itoa(p.width) + " /Height " + Itoa(p.height) +
    " /ColorSpace /" + p.colorSpace + LENGTH
  }

  /** Object 4 up to its stream, with the length it announces. */
  function ImageDict(p: Picture, length: nat): string {
    UptoLength(p) + Itoa(length) + " >>\nstream\n"
  }

  function Content(p: Picture): string {
    "q\n" + Itoa(p.width) + " 0 0 " + Itoa(p.height) + " 0 0 cm\n/Im0 Do\nQ\n"
  }

  function ContentStream(p: Picture): string {
    "<< /Length " + Itoa(|Content(p)|) + " >>\nstream\n" + Content(p) + ENDSTREAM
  }

  function Body(p: Picture, length: nat, n: nat): string
    requires 1 <= n <= 5
  {
    if n == 1 then CATALOG
    else if n == 2 then PAGES
    else if n == 3 then Page(p)
    else if n == 4 then ImageDict(p, length) + p.jpeg + ENDSTREAM
    else ContentStream(p)
  }

  function Opening(n: nat): string { Itoa(n) + " 0 obj\n" }

  function Object(p: Picture, length: nat, n: nat): string
    requires 1 <= n <= 5
  {
    Opening(n) + Body(p, length, n) + ENDOBJ
  }

  /** Everything before object n. */
  function Upto(p: Picture, length: nat, n: nat): string
    requires 1 <= n <= 6
  {
    if n == 1 then HEADER else Upto(p, length, n - 1) + Object(p, length, n - 1)
  }

  function Offset(p: Picture, length: nat, n: nat): nat
    requires 1 <= n <= 6
  {
    |Upto(p, length, n)|
  }

  const TABLE := "xref\n0 6\n0000000000 65535 f \n"

  /** One line of the table. */
  function Line(offset: nat): string { Padded(offset, 9) + " 00000 n \n" }

  function Lines(offsets: seq<nat>): string {
    if offsets == [] then "" else Line(offsets[0]) + Lines(offsets[1..])
  }

  function Offsets(p: Picture, length: nat): seq<nat> {
    [Offset(p, length, 1), Offset(p, length, 2), Offset(p, length, 3), Offset(p, length, 4), Offset(p, length, 5)]
  }

  function Trailer(xref: nat): string {
    "trailer\n<< /Size 6 /Root 1 0 R >>\nstartxref\n" + Itoa(xref) + "\n%%EOF\n"
  }

  /** The whole file, announcing `length` bytes of JPEG data. */
  function File(p: Picture, length: nat): string {
    Upto(p, length, 6) + TABLE + Lines(Offsets(p, length)) + Trailer(Offset(p, length, 6))
  }

  // ---------- the two writers ----------

  /** Everything from object n on; from the table on for n = 6. */
  function From(p: Picture, length: nat, n: nat): string
    requires 1 <= n <= 6
    decreases 6 - n
  {
    if n == 6 then TABLE + (Lines(Offsets(p, length)) + Trailer(Offset(p, length, 6)))
    else Opening(n) + (Body(p, length, n) + (ENDOBJ + From(p, length, n + 1)))
  }

  lemma {:induction false} UptoFrom(p: Picture, length: nat, n: nat)
    requires 1 <= n <= 6
    ensures Upto(p, length, n) + From(p, length, n) == File(p, length)
    decreases 6 - n
  {
    hide Body, Opening, Lines, Offsets, Trailer;
    var u := Upto(p, length, n);
    if n == 6 {
      Reassociate(u, TABLE, Lines(Offsets(p, length)), Trailer(Offset(p, length, 6)));
    } else {
      UptoFrom(p, length, n + 1);
      ReassociateMore(u, Opening(n), Body(p, length, n), ENDOBJ, From(p, length, n + 1));
    }
  }

  lemma Reassociate(a: string, b: string, c: string, d: string)
    ensures a + (b + (c + d)) == a + b + c + d
  {
  }

  lemma ReassociateMore(a: string, b: string, c: string, d: string, e: string)
    ensures a + (b + (c + (d + e))) == (a + (b + c + d)) + e
  {
  }

  /** What is before a known rest of the file is known. */
  lemma Cancel(a: string, b: string, rest: string)
    requires a + rest == b + rest
    ensures a == b
  {
    assert |a| == |b|;
    assert (a + rest)[..|a|] == a && (b + rest)[..|b|] == b;
  }

  /** `singleImagePDF`. */
  method SingleImagePDF(p: Picture) returns (b: string)
    ensures b == File(p, |p.jpeg|)
  {
    hide Body, Padded, Itoa, Trailer, Opening, Line, File, Upto;
    var length := |p.jpeg|;
    var offsets: seq<nat> := [];
    b := HEADER;
    UptoIs(p, length);
    offsets := offsets + [|b|];
    b := b + Opening(1) + Body(p, length, 1) + ENDOBJ;
    offsets := offsets + [|b|];
    b := b + Opening(2) + Body(p, length, 2) + ENDOBJ;
    offsets := offsets + [|b|];
    b := b + Opening(3) + Body(p, length, 3) + ENDOBJ;
    offsets := offsets + [|b|];
    b := b + Opening(4) + Body(p, length, 4) + ENDOBJ;
    offsets := offsets + [|b|];
    b := b + Opening(5) + Body(p, length, 5) + ENDOBJ;
    assert b == Upto(p, length, 6);
    assert offsets == Offsets(p, length);
    b := AppendTable(b, offsets);
    FileIs(p, length);
  }

  lemma UptoIs(p: Picture, length: nat)
    ensures Upto(p, length, 1) == HEADER
    ensures forall n :: 1 <= n <= 5 ==> Upto(p, length, n + 1) == Upto(p, length, n) + Opening(n) + Body(p, length, n) + ENDOBJ
  {
    hide Opening, Body;
  }

  lemma FileIs(p: Picture, length: nat)
    ensures File(p, length) == Upto(p, length, 6) + TABLE + Lines(Offsets(p, length)) + Trailer(|Upto(p, length, 6)|)
  {
  }

  /** The table and the trailer of the buffered writer. */
  method AppendTable(objects: string, offsets: seq<nat>) returns (b: string)
    ensures b == objects + TABLE + Lines(offsets) + Trailer(|objects|)
  {
    hide Trailer, Line;
    b := objects + TABLE;
    var i := 0;
    while i < |offsets|
      invariant 0 <= i <= |offsets|
      invariant b + Lines(offsets[i..]) == objects + TABLE + Lines(offsets)
    {
      assert offsets[i..][1..] == offsets[i + 1..];
      b := b + Line(offsets[i]);
      i := i + 1;
    }
    assert b + "" == b;
    b := b + Trailer(|objects|);
  }

  /** Counts what reaches the file, which holds `space` bytes before writing to it fails. */
  class CountingWriter {
    const space: nat
    var out: string
    var n: int

    ghost predicate Valid()
      reads this
    {
      n == |out| <= space
    }

    constructor (space: nat)
      ensures Valid() && out == "" && this.space == space
    {
      out, n, this.space := "", 0, space;
    }

    /** All of s arrives, or an error is returned and as much of it arrived as there was space for. */
    method Write(s: string) returns (ok: bool)
      requires Valid()
      modifies this
      ensures Valid()
      ensures ok <==> |old(out)| + |s| <= space
      ensures out == old(out) + if ok then s else s[..space - |old(out)|]
    {
      ok := n + |s| <= space;
      var written := if ok then |s| else space - n;
      assert s[..|s|] == s;
      out := out + s[..written];
      n := n + written;
    }
  }

  /** Where a writer stands: it has written `full` up to `rest`. */
  ghost predicate Reached(cw: CountingWriter, rest: string, full: string)
    reads cw
  {
    cw.Valid() && cw.out + rest == full
  }

  /** It failed, for want of space, and what arrived is the beginning of `full`. */
  ghost predicate Stuck(cw: CountingWriter, full: string)
    reads cw
  {
    cw.Valid() && |full| > cw.space && cw.out <= full
  }

  method Emit(cw: CountingWriter, s: string, ghost rest: string, ghost full: string) returns (ok: bool)
    requires Reached(cw, s + rest, full)
    modifies cw
    ensures if ok then Reached(cw, rest, full) else Stuck(cw, full)
  {
    ghost var was := cw.out;
    ok := cw.Write(s);
    assert was + (s + rest) == (was + s) + rest;
    if !ok {
      assert was + s == (was + s[..cw.space - |was|]) + s[cw.space - |was|..];
    }
  }

  function Concat(chunks: seq<string>): string {
    if chunks == [] then "" else Concat(chunks[..|chunks| - 1]) + chunks[|chunks| - 1]
  }

  /** `io.Copy`: the reader gives its data in chunks, and may then fail instead of ending. */
  method Copy(cw: CountingWriter, chunks: seq<string>, broken: bool, ghost data: string, ghost rest: string, ghost full: string)
    returns (ok: bool)
    requires Reached(cw, data + rest, full)
    requires Concat(chunks) <= data && (!broken ==> Concat(chunks) == data)
    modifies cw
    ensures ok ==> Reached(cw, rest, full) && !broken
    ensures !ok ==> Stuck(cw, full) || (broken && cw.Valid() && cw.out <= full)
  {
    ghost var was := cw.out;
    var i := 0;
    while i < |chunks|
      invariant 0 <= i <= |chunks|
      invariant cw.Valid() && cw.out == was + Concat(chunks[..i]) && Concat(chunks[..i]) <= Concat(chunks)
    {
      assert chunks[..i + 1][..i] == chunks[..i];
      ConcatPrefix(chunks, i + 1);
      var done := Concat(chunks[..i]);
      assert done + chunks[i] <= data;
      ghost var left := data[|done| + |chunks[i]|..];
      assert data == done + chunks[i] + left;
      assert cw.out + (chunks[i] + (left + rest)) == full by { Regroup(was, done, chunks[i], left, rest); }
      ok := Emit(cw, chunks[i], left + rest, full);
      if !ok { return; }
      assert cw.out == was + (done + chunks[i]) by { Cancel(cw.out, was + (done + chunks[i]), left + rest); }
      i := i + 1;
    }
    assert chunks[..i] == chunks;
    ok := !broken;
    assert full == was + data + rest;
  }

  lemma Regroup(a: string, b: string, c: string, d: string, e: string)
    ensures (a + b) + (c + (d + e)) == a + ((b + c + d) + e)
    ensures (a + (b + c)) + (d + e) == a + ((b + c + d) + e)
  {
  }

  lemma {:induction false} ConcatPrefix(chunks: seq<string>, i: nat)
    requires i <= |chunks|
    ensures Concat(chunks[..i]) <= Concat(chunks)
    decreases |chunks|
  {
    if i == |chunks| {
      assert chunks[..i] == chunks;
    } else {
      assert chunks[..|chunks| - 1][..i] == chunks[..i];
      ConcatPrefix(chunks[..|chunks| - 1], i);
    }
  }

  /** One `n 0 obj` of the streaming writer; `offset` is the counter before it. */
  method WriteObject(cw: CountingWriter, p: Picture, length: nat, n: nat, chunks: seq<string>, broken: bool)
    returns (ok: bool, offset: int)
    requires 1 <= n <= 5 && Reached(cw, From(p, length, n), File(p, length))
    requires Concat(chunks) <= p.jpeg && (!broken ==> Concat(chunks) == p.jpeg)
    modifies cw
    ensures offset == Offset(p, length, n)
    ensures ok ==> Reached(cw, From(p, length, n + 1), File(p, length)) && (n == 4 ==> !broken)
    ensures !ok ==> Stuck(cw, File(p, length)) || (broken && cw.Valid() && cw.out <= File(p, length))
  {
    hide Opening, ImageDict, File, ContentStream, Page, Upto;
    offset := cw.n;
    UptoFrom(p, length, n);
    Cancel(cw.out, Upto(p, length, n), From(p, length, n));
    ghost var full, next := File(p, length), From(p, length, n + 1);
    hide From;
    assert From(p, length, n) == Opening(n) + (Body(p, length, n) + (ENDOBJ + next)) by { FromIs(p, length, n); }
    ok := Emit(cw, Opening(n), Body(p, length, n) + (ENDOBJ + next), full);
    if !ok { return; }
    if n == 4 {
      FourParts(ImageDict(p, length), p.jpeg, ENDSTREAM, ENDOBJ + next);
      ok := Emit(cw, ImageDict(p, length), p.jpeg + (ENDSTREAM + (ENDOBJ + next)), full);
      if !ok { return; }
      ok := Copy(cw, chunks, broken, p.jpeg, ENDSTREAM + (ENDOBJ + next), full);
      if !ok { return; }
      ok := Emit(cw, ENDSTREAM, ENDOBJ + next, full);
      if !ok { return; }
    } else {
      ok := Emit(cw, Body(p, length, n), ENDOBJ + next, full);
      if !ok { return; }
    }
    ok := Emit(cw, ENDOBJ, next, full);
  }

  lemma FromIs(p: Picture, length: nat, n: nat)
    requires 1 <= n <= 5
    ensures From(p, length, n) == Opening(n) + (Body(p, length, n) + (ENDOBJ + From(p, length, n + 1)))
  {
  }

  lemma FourParts(a: string, b: string, c: string, d: string)
    ensures (a + b + c) + d == a + (b + (c + d))
  {
  }

  /** `writeSingleImagePDF`, announcing `length` bytes of JPEG data. It succeeds exactly when there is
      space and the reader does not fail, and then the file is complete; otherwise what was written is
      the beginning of that file. */
  method WriteSingleImagePDF(cw: CountingWriter, p: Picture, length: nat, chunks: seq<string>, broken: bool) returns (ok: bool)
    requires cw.Valid() && cw.out == ""
    requires Concat(chunks) <= p.jpeg && (!broken ==> Concat(chunks) == p.jpeg)
    modifies cw
    ensures ok ==> cw.out == File(p, length)
    ensures !ok ==> cw.out <= File(p, length)
    ensures ok <==> !broken && |File(p, length)| <= cw.space
  {
    hide Opening, Body, File, From, Upto, Trailer, Lines, Line;
    ghost var full := File(p, length);
    UptoFrom(p, length, 1);
    UptoIs(p, length);
    assert "" + (HEADER + From(p, length, 1)) == HEADER + From(p, length, 1);
    var offsets: seq<int> := [];
    ok := Emit(cw, HEADER, From(p, length, 1), full);
    if !ok { return; }
    var n := 1;
    while n <= 5
      invariant 1 <= n <= 6
      invariant Reached(cw, From(p, length, n), full) && (n > 4 ==> !broken)
      invariant |offsets| == n - 1 && forall k :: 1 <= k < n ==> offsets[k - 1] == Offset(p, length, k)
    {
      var offset;
      ok, offset := WriteObject(cw, p, length, n, chunks, broken);
      offsets := offsets + [offset];
      if !ok { return; }
      n := n + 1;
    }
    assert offsets == Offsets(p, length);
    ok := WriteTable(cw, p, length);
    assert full + "" == full;
  }

  lemma LinesStep(offsets: seq<nat>, i: nat)
    requires i < |offsets|
    ensures Lines(offsets[i..]) == Line(offsets[i]) + Lines(offsets[i + 1..])
  {
    assert offsets[i..][1..] == offsets[i + 1..];
  }

  lemma LinesEnd(offsets: seq<nat>)
    requires offsets == []
    ensures Lines(offsets) == ""
  {
  }

  /** The table and the trailer of the streaming writer. */
  method WriteTable(cw: CountingWriter, p: Picture, length: nat) returns (ok: bool)
    requires Reached(cw, From(p, length, 6), File(p, length))
    modifies cw
    ensures if ok then cw.Valid() && cw.out == File(p, length) else Stuck(cw, File(p, length))
  {
    hide File, Upto, Trailer, Line, Lines;
    ghost var full := File(p, length);
    var offsets := Offsets(p, length);
    var xref := cw.n;
    UptoFrom(p, length, 6);
    Cancel(cw.out, Upto(p, length, 6), From(p, length, 6));
    ghost var tail := Trailer(Offset(p, length, 6));
    ok := Emit(cw, TABLE, Lines(offsets) + tail, full);
    if !ok { return; }
    var i := 0;
    while i < |offsets|
      invariant 0 <= i <= |offsets|
      invariant Reached(cw, Lines(offsets[i..]) + tail, full)
    {
      assert offsets[i..][1..] == offsets[i + 1..];
      assert Lines(offsets[i..]) + tail == Line(offsets[i]) + (Lines(offsets[i + 1..]) + tail) by { LinesStep(offsets, i); }
      ok := Emit(cw, Line(offsets[i]), Lines(offsets[i + 1..]) + tail, full);
      if !ok { return; }
      i := i + 1;
    }
    assert Lines(offsets[i..]) + tail == tail + "" by { LinesEnd(offsets[i..]); }
    ok := Emit(cw, Trailer(xref), "", full);
    assert cw.out + "" == cw.out;
  }

  // ---------- a reader ----------

  function Strip(s: string, word: string): Option<string> {
    if HasPrefix(s, word) then Some(s[|word|..]) else None
  }

  /** How many digits s starts with. */
  function DigitRun(s: string): (k: nat)
    ensures k <= |s| && AllDigits(s[..k])
  {
    if s == "" || !IsDigit(s[0]) then 0
    else
      assert s[..1 + DigitRun(s[1..])] == [s[0]] + s[1..][..DigitRun(s[1..])];
      1 + DigitRun(s[1..])
  }

  function ReadNat(s: string): Option<(nat, string)> {
    var k := DigitRun(s);
    if k == 0 then None else Some((NatOf(s[..k]), s[k..]))
  }

  /** How many digits s ends with. */
  function LastDigitRun(s: string): (k: nat)
    ensures k <= |s| && AllDigits(s[|s| - k..])
  {
    if s == "" || !IsDigit(s[|s| - 1]) then 0 else 1 + LastDigitRun(s[..|s| - 1])
  }

  /** The number between `startxref` and the end-of-file mark. */
  function ReadStartXref(b: string): Option<nat> {
    if !HasSuffix(b, "\n%%EOF\n") then None else
    var s := b[..|b| - 7];
    var k := LastDigitRun(s);
    if k > 0 && HasSuffix(s[..|s| - k], "startxref\n") then Some(NatOf(s[|s| - k..])) else None
  }

  /** The offset in the n-th 20-byte entry after the table's heading. */
  function ReadEntry(b: string, xref: nat, n: nat): Option<nat> {
    var at := xref + 9 + 20 * n;
    if at + 20 > |b| then None else
    var entry := b[at..at + 20];
    if AllDigits(entry[..10]) && entry[10..] == " 00000 n \n" then Some(NatOf(entry[..10])) else None
  }

  /** What follows the opening of object n, found through the table. */
  function ReadObject(b: string, n: nat): Option<string> {
    var xref := ReadStartXref(b);
    if xref.None? || xref.value > |b| || !HasPrefix(b[xref.value..], TABLE) then None else
    var at := ReadEntry(b, xref.value, n);
    if at.None? || at.value > |b| then None else Strip(b[at.value..], Opening(n))
  }

  /** `length` bytes of a stream and its end. */
  function ReadStream(s: string, length: nat): Option<string> {
    if length <= |s| && HasPrefix(s[length..], ENDSTREAM + ENDOBJ) then Some(s[..length]) else None
  }

  /** The picture described by object 4. */
  function ReadPicture(b: string): Option<Picture> {
    var s := ReadObject(b, 4);
    if s.None? then None else
    ReadDict(s.value, "<< /Type /XObject /Subtype /Image /Width ", " /Height ", " /ColorSpace /",
             LENGTH, " >>\nstream\n")
  }

  /** The dictionary and the stream of a picture, given the words between its values. */
  function ReadDict(s: string, width: string, height: string, space: string, length: string, stream: string): Option<Picture> {
    var w := ReadField(s, width);
    if w.None? then None else
    var h := ReadField(w.value.1, height);
    if h.None? then None else
    var c := Strip(h.value.1, space);
    if c.None? then None else
    var k := Index(c.value, ' ');
    var data := ReadMeasured(c.value[k..], length, stream);
    if data.None? then None else Some(Picture(w.value.0, h.value.0, c.value[..k], data.value))
  }

  /** A number after a known word. */
  function ReadField(s: string, word: string): Option<(nat, string)> {
    if Strip(s, word).None? then None else ReadNat(Strip(s, word).value)
  }

  /** The drawing operations of object 5. */
  function ReadContent(b: string): Option<string> {
    var s := ReadObject(b, 5);
    if s.None? then None else ReadMeasured(s.value, "<< /Length ", " >>\nstream\n")
  }

  /** A stream with its length before it. */
  function ReadMeasured(s: string, length: string, stream: string): Option<string> {
    var l := ReadField(s, length);
    if l.None? then None else
    var data := Strip(l.value.1, stream);
    if data.None? then None else ReadStream(data.value, l.value.0)
  }

  /** Two numbers, each after a known word, with a known word at the end. */
  function ReadPair(s: string, first: string, second: string, end: string): Option<(nat, nat)> {
    var a := ReadField(s, first);
    if a.None? then None else
    var b := ReadField(a.value.1, second);
    if b.None? || !HasPrefix(b.value.1, end) then None else Some((a.value.0, b.value.0))
  }

  /** Width and height of the page, the far corner of its media box (section 7.7.3.3 of ISO 32000-1). */
  function ReadPageSize(b: string): Option<(nat, nat)> {
    var s := ReadObject(b, 3);
    if s.None? then None else ReadPair(s.value, "<< /Type /Page /Parent 2 0 R /MediaBox [0 0 ", " ", PAGE_END)
  }

  const DRAW := " 0 0 cm\n/Im0 Do\nQ\n"

  /** To what width and height object 5 draws the image: the first and fourth number of the matrix that
      scales its unit square (section 8.3.4). */
  function ReadDrawnSize(b: string): Option<(nat, nat)> {
    var s := ReadContent(b);
    if s.None? then None else ReadPair(s.value, "q\n", " 0 0 ", DRAW)
  }

  // ---------- reading what was written ----------

  lemma StripConcat(word: string, rest: string)
    ensures Strip(word + rest, word) == Some(rest)
  {
    assert (word + rest)[|word|..] == rest;
  }

  lemma {:induction false} DigitRunOf(d: string, rest: string)
    requires AllDigits(d) && (rest == "" || !IsDigit(rest[0]))
    ensures DigitRun(d + rest) == |d|
  {
    if d == "" {
      assert d + rest == rest;
    } else {
      assert (d + rest)[1..] == d[1..] + rest;
      DigitRunOf(d[1..], rest);
    }
  }

  lemma ReadNatOf(n: nat, rest: string)
    requires rest == "" || !IsDigit(rest[0])
    ensures ReadNat(Itoa(n) + rest) == Some((n, rest))
  {
    hide Digits, DigitRun, NatOf;
    DigitRunOf(Digits(n), rest);
    DigitsRoundTrip(n);
    var s := Digits(n) + rest;
    assert s[..|Digits(n)|] == Digits(n) && s[|Digits(n)|..] == rest;
  }

  lemma ReadFieldOf(word: string, n: nat, rest: string)
    requires rest == "" || !IsDigit(rest[0])
    ensures ReadField(word + (Itoa(n) + rest), word) == Some((n, rest))
  {
    hide Itoa, ReadNat, Strip;
    StripConcat(word, Itoa(n) + rest);
    ReadNatOf(n, rest);
  }

  lemma {:induction false} LastDigitRunOf(head: string, d: string)
    requires AllDigits(d) && head != "" && !IsDigit(head[|head| - 1])
    ensures LastDigitRun(head + d) == |d|
  {
    if d == "" {
      assert head + d == head;
    } else {
      assert (head + d)[..|head + d| - 1] == head + d[..|d| - 1];
      LastDigitRunOf(head, d[..|d| - 1]);
    }
  }

  lemma Assoc(a: string, b: string, c: string)
    ensures (a + b) + c == a + (b + c)
  {
  }

  const TRAILER := "trailer\n<< /Size 6 /Root 1 0 R >>\n"

  lemma StartXrefOf(head: string, xref: nat)
    ensures ReadStartXref(head + Trailer(xref)) == Some(xref)
  {
    hide Digits, LastDigitRun, NatOf, HasSuffix;
    var d, eof := Digits(xref), "\n%%EOF\n";
    var intro := head + (TRAILER + "startxref\n");
    assert TRAILER + "startxref\n" == "trailer\n<< /Size 6 /Root 1 0 R >>\nstartxref\n";
    Assoc(TRAILER + "startxref\n", d, eof);
    Assoc(head, TRAILER + "startxref\n", d + eof);
    Assoc(intro, d, eof);
    Assoc(head, TRAILER, "startxref\n");
    SuffixOfConcat(head + TRAILER, "startxref\n");
    SuffixOfConcat(intro + d, eof);
    SuffixOfConcat(intro, d);
    LastDigitRunOf(intro, d);
    DigitsRoundTrip(xref);
  }

  // ---------- the table ----------

  /** An entry has its 20 bytes exactly for offsets of at most ten digits. */
  lemma LineWidth(offset: nat)
    ensures |Line(offset)| == 20 <==> offset < 10_000_000_000
    ensures |Line(offset)| >= 20
  {
    DigitsWidth(offset, 10);
    assert Pow10(5) == 100_000;
    assert Pow10(10) == 10_000_000_000;
  }

  lemma {:induction false} DigitsWidth(n: nat, k: nat)
    requires k >= 1
    ensures |Digits(n)| <= k <==> n < Pow10(k)
  {
    assert Pow10(1) == 10 * Pow10(0) == 10;
    if k > 1 && n >= 10 {
      DigitsWidth(n / 10, k - 1);
      assert Pow10(k) == 10 * Pow10(k - 1);
    } else if k > 1 {
      assert Pow10(k) == 10 * Pow10(k - 1);
    }
  }

  predicate ShortOffsets(offsets: seq<nat>) { forall i :: 0 <= i < |offsets| ==> offsets[i] < 10_000_000_000 }

  lemma {:induction false} LineAt(offsets: seq<nat>, k: nat)
    requires ShortOffsets(offsets) && k < |offsets|
    ensures |Lines(offsets)| == 20 * |offsets| && Lines(offsets)[20 * k..20 * k + 20] == Line(offsets[k])
  {
    hide Line;
    LineWidth(offsets[0]);
    var rest := offsets[1..];
    if |offsets| == 1 {
      LinesEnd(rest);
    } else {
      LineAt(rest, if k == 0 then 0 else k - 1);
      var s := Lines(rest);
      if k > 0 { assert (Line(offsets[0]) + s)[20 * k..20 * k + 20] == s[20 * (k - 1)..20 * (k - 1) + 20]; }
    }
  }

  lemma EntryOf(offset: nat)
    requires offset < 10_000_000_000
    ensures var e := Line(offset);
            |e| == 20 && AllDigits(e[..10]) && e[10..] == " 00000 n \n" && NatOf(e[..10]) == offset
  {
    hide NatOf;
    LineWidth(offset);
    NatOfPadded(offset, 9);
    assert Line(offset)[..10] == Padded(offset, 9);
  }

  lemma ReadEntryOf(head: string, table: string, offsets: seq<nat>, tail: string, k: nat)
    requires ShortOffsets(offsets) && k < |offsets| && |table| == 29
    ensures ReadEntry(head + table + Lines(offsets) + tail, |head|, k + 1) == Some(offsets[k])
  {
    hide Line, Lines, NatOf, ReadEntry;
    LineAt(offsets, k);
    Slice(head, table, Lines(offsets), tail, 20 * k, 20);
    EntryIn(head + table + Lines(offsets) + tail, |head|, k + 1, offsets[k]);
  }

  lemma EntryIn(b: string, xref: nat, n: nat, offset: nat)
    requires offset < 10_000_000_000 && xref + 9 + 20 * n + 20 <= |b|
    requires b[xref + 9 + 20 * n..xref + 9 + 20 * n + 20] == Line(offset)
    ensures ReadEntry(b, xref, n) == Some(offset)
  {
    hide Line, NatOf;
    EntryOf(offset);
  }

  lemma Slice(a: string, b: string, c: string, d: string, i: nat, n: nat)
    requires i + n <= |c|
    ensures var at := |a| + |b| + i; (a + b + c + d)[at..at + n] == c[i..i + n]
  {
  }

  /** Following `startxref` and then the table lands on the table and on every object. */
  lemma ReadObjectOf(p: Picture, length: nat, n: nat)
    requires 1 <= n <= 5 && Offset(p, length, 5) < 10_000_000_000
    ensures ReadStartXref(File(p, length)) == Some(Offset(p, length, 6))
    ensures ReadObject(File(p, length), n) == Some(Body(p, length, n) + (ENDOBJ + From(p, length, n + 1)))
  {
    hide Body, Upto, Line, Lines, Trailer, Opening, ReadStartXref, ReadEntry, From;
    var head, lines, trailer := Upto(p, length, 6), Lines(Offsets(p, length)), Trailer(Offset(p, length, 6));
    var b := File(p, length);
    StartXrefOf(head + TABLE + lines, Offset(p, length, 6));
    OffsetsGrow(p, length);
    ReadEntryOf(head, TABLE, Offsets(p, length), trailer, n - 1);
    assert b[|head|..] == TABLE + (lines + trailer);
    assert HasPrefix(b[|head|..], TABLE);
    UptoFrom(p, length, n);
    FromIs(p, length, n);
    var at := Offset(p, length, n);
    assert b[at..] == From(p, length, n);
    StripConcat(Opening(n), Body(p, length, n) + (ENDOBJ + From(p, length, n + 1)));
  }

  lemma OffsetsGrow(p: Picture, length: nat)
    requires Offset(p, length, 5) < 10_000_000_000
    ensures ShortOffsets(Offsets(p, length))
  {
    hide Body, Opening;
    assert forall n :: 1 <= n <= 4 ==> |Upto(p, length, n)| <= |Upto(p, length, n + 1)|;
  }

  lemma StreamOf(data: string, rest: string)
    ensures ReadStream(data + ENDSTREAM + (ENDOBJ + rest), |data|) == Some(data)
  {
    var s := data + ENDSTREAM + (ENDOBJ + rest);
    assert s[..|data|] == data && s[|data|..] == ENDSTREAM + ENDOBJ + rest;
  }

  /** Object 4 as a reader meets it. */
  lemma ImageText(p: Picture, length: nat, rest: string)
    ensures Body(p, length, 4) + (ENDOBJ + rest) ==
            "<< /Type /XObject /Subtype /Image /Width " + (Itoa(p.width) + (" /Height " + (Itoa(p.height) + (" /ColorSpace /" +
            (p.colorSpace + (LENGTH + (Itoa(length) + (" >>\nstream\n" +
            (p.jpeg + ENDSTREAM + (ENDOBJ + rest))))))))))
  {
    hide Itoa;
    Nest("<< /Type /XObject /Subtype /Image /Width ", Itoa(p.width), " /Height ", Itoa(p.height), " /ColorSpace /",
         p.colorSpace, LENGTH, Itoa(length) + (" >>\nstream\n" + (p.jpeg + ENDSTREAM + (ENDOBJ + rest))));
    ImageBody(UptoLength(p), Itoa(length), " >>\nstream\n", p.jpeg, ENDSTREAM, ENDOBJ + rest);
  }

  lemma ImageBody(a: string, b: string, c: string, d: string, e: string, f: string)
    ensures (a + b + c + d + e) + f == a + (b + (c + (d + e + f)))
  {
    Assoc(a + b + c + d, e, f); Assoc(a + b + c, d, e + f); Assoc(a + b, c, d + (e + f)); Assoc(a, b, c + (d + (e + f)));
    Assoc(d, e, f);
  }

  lemma Nest(a: string, b: string, c: string, d: string, e: string, f: string, g: string, r: string)
    ensures (a + b + c + d + e + f + g) + r == a + (b + (c + (d + (e + (f + (g + r))))))
  {
    Assoc(a + b + c + d + e + f, g, r); Assoc(a + b + c + d + e, f, g + r); Assoc(a + b + c + d, e, f + (g + r));
    Assoc(a + b + c, d, e + (f + (g + r))); Assoc(a + b, c, d + (e + (f + (g + r)))); Assoc(a, b, c + (d + (e + (f + (g + r)))));
  }

  lemma MeasuredReads(length: string, stream: string, data: string, rest: string)
    requires stream != "" && !IsDigit(stream[0])
    ensures ReadMeasured(length + (Itoa(|data|) + (stream + (data + ENDSTREAM + (ENDOBJ + rest)))), length, stream) == Some(data)
  {
    hide Strip, ReadNat, Itoa, ReadStream, ReadField;
    var s := data + ENDSTREAM + (ENDOBJ + rest);
    ReadFieldOf(length, |data|, stream + s);
    StripConcat(stream, s);
    StreamOf(data, rest);
  }

  lemma DictReads(p: Picture, width: string, height: string, space: string, length: string, stream: string, rest: string)
    requires ' ' !in p.colorSpace && height != "" && !IsDigit(height[0]) && space != "" && !IsDigit(space[0])
    requires length != "" && length[0] == ' ' && stream != "" && !IsDigit(stream[0])
    ensures var data := p.jpeg + ENDSTREAM + (ENDOBJ + rest);
            var s := width + (Itoa(p.width) + (height + (Itoa(p.height) + (space + (p.colorSpace + (length + (Itoa(|p.jpeg|) + (stream + data))))))));
            ReadDict(s, width, height, space, length, stream) == Some(p)
  {
    hide Strip, ReadNat, Itoa, ReadMeasured, ReadField, Index;
    var bits := length + (Itoa(|p.jpeg|) + (stream + (p.jpeg + ENDSTREAM + (ENDOBJ + rest))));
    var c := p.colorSpace + bits;
    var h := space + c;
    var w := height + (Itoa(p.height) + h);
    ReadFieldOf(width, p.width, w);
    ReadFieldOf(height, p.height, h);
    StripConcat(space, c);
    IndexIsFirst(c, ' ', |p.colorSpace|);
    SuffixOfConcat(p.colorSpace, bits);
    MeasuredReads(length, stream, p.jpeg, rest);
  }

  /** A reader gets back the picture: size, colour space and JPEG data. */
  lemma PictureReadsBack(p: Picture)
    requires ' ' !in p.colorSpace && Offset(p, |p.jpeg|, 5) < 10_000_000_000
    ensures ReadPicture(File(p, |p.jpeg|)) == Some(p)
  {
    hide File, From, ReadObject, ReadDict, Itoa, Body, Upto;
    ReadObjectOf(p, |p.jpeg|, 4);
    ImageText(p, |p.jpeg|, From(p, |p.jpeg|, 5));
    assert " /Height "[0] == ' ' && " /ColorSpace /"[0] == ' ' && LENGTH[0] == ' ';
    assert " >>\nstream\n"[0] == ' ' && !IsDigit(' ');
    DictReads(p, "<< /Type /XObject /Subtype /Image /Width ", " /Height ", " /ColorSpace /",
              LENGTH, " >>\nstream\n", From(p, |p.jpeg|, 5));
  }

  /** And what to do with it: the content stream and its true length. */
  lemma ContentReadsBack(p: Picture, length: nat)
    requires Offset(p, length, 5) < 10_000_000_000
    ensures ReadContent(File(p, length)) == Some(Content(p))
  {
    hide File, From, ReadObject, ReadMeasured, Itoa, Content, Upto;
    ReadObjectOf(p, length, 5);
    ImageBody("<< /Length ", Itoa(|Content(p)|), " >>\nstream\n", Content(p), ENDSTREAM, ENDOBJ + From(p, length, 6));
    assert " >>\nstream\n"[0] == ' ' && !IsDigit(' ');
    MeasuredReads("<< /Length ", " >>\nstream\n", Content(p), From(p, length, 6));
  }

  lemma PairReads(first: string, a: nat, second: string, b: nat, end: string, rest: string)
    requires second != "" && !IsDigit(second[0]) && end != "" && !IsDigit(end[0])
    ensures ReadPair(first + (Itoa(a) + (second + (Itoa(b) + (end + rest)))), first, second, end) == Some((a, b))
  {
    hide Strip, ReadNat, Itoa, ReadField;
    ReadFieldOf(first, a, second + (Itoa(b) + (end + rest)));
    ReadFieldOf(second, b, end + rest);
  }

  lemma Five(a: string, b: string, c: string, d: string, e: string, r: string)
    ensures (a + b + c + d + e) + r == a + (b + (c + (d + (e + r))))
  {
    Assoc(a + b + c + d, e, r); Assoc(a + b + c, d, e + r); Assoc(a + b, c, d + (e + r)); Assoc(a, b, c + (d + (e + r)));
  }

  /** The page has the size of the picture, and the picture fills it. */
  lemma PageAndDrawingHaveItsSize(p: Picture, length: nat)
    requires Offset(p, length, 5) < 10_000_000_000
    ensures ReadPageSize(File(p, length)) == Some((p.width, p.height))
    ensures ReadDrawnSize(File(p, length)) == Some((p.width, p.height))
  {
    hide File, From, ReadObject, ReadPair, ReadContent, Itoa, Upto;
    ReadObjectOf(p, length, 3);
    PageReads(p, ENDOBJ + From(p, length, 4));
    ContentReadsBack(p, length);
    DrawingReads(p);
  }

  lemma PageReads(p: Picture, rest: string)
    ensures ReadPair(Page(p) + rest, "<< /Type /Page /Parent 2 0 R /MediaBox [0 0 ", " ", PAGE_END) == Some((p.width, p.height))
  {
    hide Itoa, ReadPair;
    Five("<< /Type /Page /Parent 2 0 R /MediaBox [0 0 ", Itoa(p.width), " ", Itoa(p.height), PAGE_END, rest);
    assert PAGE_END[0] == ']';
    PairReads("<< /Type /Page /Parent 2 0 R /MediaBox [0 0 ", p.width, " ", p.height, PAGE_END, rest);
  }

  lemma DrawingReads(p: Picture)
    ensures ReadPair(Content(p), "q\n", " 0 0 ", DRAW) == Some((p.width, p.height))
  {
    hide Itoa, ReadPair;
    Five("q\n", Itoa(p.width), " 0 0 ", Itoa(p.height), DRAW, "");
    assert Content(p) + "" == Content(p);
    assert " 0 0 "[0] == ' ' && DRAW[0] == ' ' && !IsDigit(' ');
    PairReads("q\n", p.width, " 0 0 ", p.height, DRAW, "");
  }

  // ---------- the two writers agree ----------

  /** The streamed file is the buffered one exactly when the announced length is the true one. */
  lemma WritersAgree(p: Picture, length: nat)
    ensures File(p, length) == File(p, |p.jpeg|) <==> length == |p.jpeg|
  {
    if File(p, length) == File(p, |p.jpeg|) { AnnouncedLength(p, length); AnnouncedLength(p, |p.jpeg|); }
  }

  /** The announced length, at a place that does not depend on it. */
  lemma AnnouncedLength(p: Picture, length: nat)
    ensures var head := Upto(p, 0, 4) + Opening(4) + UptoLength(p);
            && |head| <= |File(p, length)| && ReadNat(File(p, length)[|head|..]).Some?
            && ReadNat(File(p, length)[|head|..]).value.0 == length
  {
    hide Opening, File, From, Itoa, ReadNat, Upto, UptoLength;
    UptoFrom(p, length, 4);
    FromIs(p, length, 4);
    SameStart(p, length);
    var head := Upto(p, 0, 4) + Opening(4) + UptoLength(p);
    var data := p.jpeg + ENDSTREAM + (ENDOBJ + From(p, length, 5));
    var rest := " >>\nstream\n" + data;
    ImageBody(UptoLength(p), Itoa(length), " >>\nstream\n", p.jpeg, ENDSTREAM, ENDOBJ + From(p, length, 5));
    Assoc(Upto(p, 0, 4), Opening(4), UptoLength(p) + (Itoa(length) + rest));
    Assoc(Upto(p, 0, 4) + Opening(4), UptoLength(p), Itoa(length) + rest);
    SuffixOfConcat(head, Itoa(length) + rest);
    ReadNatOf(length, rest);
  }

  lemma SameStart(p: Picture, length: nat)
    ensures Upto(p, length, 4) == Upto(p, 0, 4)
  {
    hide Opening, Page;
    assert Upto(p, length, 2) == Upto(p, 0, 2);
    assert Upto(p, length, 3) == Upto(p, 0, 3);
  }
}
