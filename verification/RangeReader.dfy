/**
 internal/storage/http.go: a seekable reader over a remote file that asks for one
 byte range per read, and the in-memory reader of the same file. Positions are
 int64. The upstream server is a function from the range asked for to its reply.
 */
module RangeReader {
  import opened Decimals
  import opened Int64
  import opened Strings
  import opened Wrappers

  // ---------- Content-Range ----------

  /** `strconv.ParseInt(s, 10, 64)`. */
  function ParseInt(s: string): Option<int> {
    if Atoi(s).Some? && IsInt64(Atoi(s).value) then Atoi(s) else None
  }

  datatype Range = Range(start: int, end: int, size: int)

  /** `strings.Cut`: what is before and after the first sep. */
  function Cut(s: string, sep: char): Option<(string, string)> {
    var i := Index(s, sep);
    if i < |s| then Some((s[..i], s[i + 1..])) else None
  }

  function ParseContentRange(v: string): Option<Range> {
    var v := TrimSpace(v);
    if !HasPrefix(v, "bytes ") then None else
    var parts := Cut(TrimSpace(TrimPrefix(v, "bytes ")), '/');
    if parts.None? || parts.value.1 == "" || parts.value.1 == "*" then None else
    var ends := Cut(parts.value.0, '-');
    if ends.None? || ends.value.0 == "" || ends.value.1 == "" then None else
    var start, end, size := ParseInt(ends.value.0), ParseInt(ends.value.1), ParseInt(parts.value.1);
    if start.None? || start.value < 0 || end.None? || end.value < start.value then None
    else if size.None? || size.value < 0 || end.value >= size.value then None
    else Some(Range(start.value, end.value, size.value))
  }

  function ContentRange(r: Range): string {
    "bytes " + (Itoa(r.start) + "-" + Itoa(r.end) + "/" + Itoa(r.size))
  }

  predicate ValidRange(r: Range) { 0 <= r.start <= r.end < r.size <= MAX_INT64 }

  /** Whatever is accepted is a range within its size. */
  lemma ParsedRangeIsValid(v: string)
    requires ParseContentRange(v).Some?
    ensures ValidRange(ParseContentRange(v).value)
  {
    hide TrimSpace, Cut, Atoi;
  }

  lemma CutAt(a: string, sep: char, b: string)
    requires sep !in a
    ensures Cut(a + [sep] + b, sep) == Some((a, b))
  {
    var s := a + [sep] + b;
    assert forall j :: 0 <= j < |a| ==> s[j] == a[j];
    IndexIsFirst(s, sep, |a|);
    assert s[..|a|] == a && s[|a| + 1..] == b;
  }

  lemma ItoaShape(n: nat)
    ensures Itoa(n) != "" && AllDigits(Itoa(n)) && Itoa(n) != "*"
    ensures n <= MAX_INT64 ==> ParseInt(Itoa(n)) == Some(n)
  {
    ItoaRoundTrip(n);
  }

  lemma ContentRangeRoundTrip(r: Range)
    requires ValidRange(r)
    ensures ParseContentRange(ContentRange(r)) == Some(r)
  {
    hide TrimSpace, Cut, Itoa, ParseInt;
    ItoaShape(r.start); ItoaShape(r.end); ItoaShape(r.size);
    var a, b, c := Itoa(r.start), Itoa(r.end), Itoa(r.size);
    var spec := a + "-" + b + "/" + c;
    var v := "bytes " + spec;
    assert c[|c| - 1] == spec[|spec| - 1] == v[|v| - 1] && spec[0] == a[0] && v[0] == 'b';
    NothingToTrim(spec);
    NothingToTrim(v);
    assert HasPrefix(v, "bytes ") && v[6..] == spec;
    assert '/' !in a + "-" + b;
    CutAt(a + "-" + b, '/', c);
    CutAt(a, '-', b);
  }

  // ---------- what the readers do ----------

  datatype Error = EOF | InvalidWhence | NegativePosition | Closed | Upstream | Transport

  datatype Op = Read(len: nat) | Seek(offset: int, whence: int)

  /** Bytes delivered or position reached, with the error if any. */
  datatype Result = Result(data: string, pos: int, err: Option<Error>)

  /** Both readers seek alike: the new position and the answer. */
  function SeekOf(size: int, off: int, offset: int, whence: int): (r: (int, Result))
    ensures 0 <= off ==> r.0 >= 0
  {
    if whence !in {0, 1, 2} then (off, Result("", 0, Some(InvalidWhence))) else
    var abs := if whence == 0 then offset else Wrap64((if whence == 1 then off else size) + offset);
    if abs < 0 then (off, Result("", 0, Some(NegativePosition))) else (abs, Result("", abs, None))
  }

  /** A seek goes to the offset counted from the beginning, from where the reader stands, or from the end. It is
      refused, and the reader stays, exactly when that is before the beginning or no int64, or for another whence. */
  predicate Sought(size: int, off: int, offset: int, whence: int, off': int, pos: int, err: Option<Error>) {
    && (whence == 0 ==> Reaches(offset, off, off', pos, err))
    && (whence == 1 ==> Reaches(off + offset, off, off', pos, err))
    && (whence == 2 ==> Reaches(size + offset, off, off', pos, err))
    && (whence !in {0, 1, 2} ==> off' == off && pos == 0 && err == Some(InvalidWhence))
  }

  predicate Reaches(target: int, off: int, off': int, pos: int, err: Option<Error>) {
    if 0 <= target <= MAX_INT64 then off' == pos == target && err == None
    else off' == off && pos == 0 && err == Some(NegativePosition)
  }

  lemma SeeksAreExact(size: int, off: int, offset: int, whence: int)
    requires 0 <= size <= MAX_INT64 && 0 <= off <= MAX_INT64 && IsInt64(offset)
    ensures var (off', r) := SeekOf(size, off, offset, whence); Sought(size, off, offset, whence, off', r.pos, r.err) && r.data == ""
  {
    hide Wrap64;
    SumWraps(off, offset);
    SumWraps(size, offset);
  }

  lemma WrapIsInt64(n: int)
    ensures MIN_INT64 <= Wrap64(n) <= MAX_INT64
  {
  }

  /** The sum of a position and an int64 is right unless it exceeds an int64, and then it is negative. */
  lemma SumWraps(position: int, offset: int)
    requires 0 <= position <= MAX_INT64 && IsInt64(offset)
    ensures position + offset <= MAX_INT64 ==> Wrap64(position + offset) == position + offset
    ensures position + offset > MAX_INT64 ==> Wrap64(position + offset) < 0
  {
    var n := position + offset;
    if n > MAX_INT64 {
      assert n + MAX_INT64 + 1 == (n - MAX_INT64 - 1) + 2 * (MAX_INT64 + 1);
    }
  }

  /** Reading up to `len` bytes of the content b from off. */
  function ReadOf(b: string, off: int, len: nat): (int, Result)
    requires 0 <= off
  {
    if off >= |b| then (off, Result("", 0, Some(EOF)))
    else (off + Min(len, |b| - off), Result(b[off..off + Min(len, |b| - off)], 0, None))
  }

  function BytesStep(b: string, off: int, op: Op): (r: (int, Result))
    requires 0 <= off
    ensures r.0 >= 0
  {
    match op
    case Read(len) => ReadOf(b, off, len)
    case Seek(offset, whence) => SeekOf(|b|, off, offset, whence)
  }

  /** What the upstream sends for a range; `broken` when the connection fails after the body's bytes. */
  datatype Reply = Unreachable | Reply(status: int, contentRange: string, body: string, broken: bool)

  type Upstream = (int, int) -> Reply

  /** One ranged request for len > 0 bytes within the size. */
  function Fetch(upstream: Upstream, size: int, off: int, len: nat): Result
    requires 0 <= off < size && 0 < len
  {
    var n := Min(len, size - off);
    var end := off + n - 1;
    var reply := upstream(off, end);
    if reply.Unreachable? then Result("", 0, Some(Transport))
    else if reply.status != 206 then Result("", 0, Some(Upstream))
    else if ParseContentRange(reply.contentRange) != Some(Range(off, end, size)) then Result("", 0, Some(Upstream))
    else if n <= |reply.body| then Result(reply.body[..n], 0, None)
    else Result(reply.body, 0, Some(if reply.broken then Transport else EOF))
  }

  function RangeStep(upstream: Upstream, size: int, off: int, op: Op): (r: (int, Result))
    requires 0 <= off
    ensures r.0 >= 0
  {
    match op
    case Seek(offset, whence) => SeekOf(size, off, offset, whence)
    case Read(len) =>
      if len == 0 then (off, Result("", 0, None))
      else if off >= size then (off, Result("", 0, Some(EOF)))
      else (off + |Fetch(upstream, size, off, len).data|, Fetch(upstream, size, off, len))
  }

  /** The upstream serves b: each range within it is answered exactly. */
  ghost predicate Serves(upstream: Upstream, b: string) {
    forall start, end :: 0 <= start <= end < |b| ==>
      upstream(start, end) == Reply(206, ContentRange(Range(start, end, |b|)), b[start..end + 1], false)
  }

  /** Against an exact upstream the two readers differ in one thing only: an empty read at the end. */
  lemma StepsAgree(upstream: Upstream, b: string, off: int, op: Op)
    requires Serves(upstream, b) && 0 <= off && |b| <= MAX_INT64
    ensures RangeStep(upstream, |b|, off, op) == BytesStep(b, off, op) <==> !(op == Read(0) && off >= |b|)
  {
    hide ParseContentRange, ContentRange, Wrap64;
    if op.Read? && 0 < op.len && off < |b| {
      var end := off + Min(op.len, |b| - off) - 1;
      ContentRangeRoundTrip(Range(off, end, |b|));
      assert b[off..end + 1][..end + 1 - off] == b[off..end + 1];
    } else if op == Read(0) && off < |b| {
      assert b[off..off] == "";
    }
  }

  /** Bytes come only from a 206 reply that names exactly the range asked for, and never more of them. */
  lemma OnlyExactReplies(upstream: Upstream, size: int, off: int, len: nat)
    requires 0 <= off
    ensures var (off', r) := RangeStep(upstream, size, off, Read(len));
            && off' == off + |r.data| && |r.data| <= len
            && (r.data != "" ==>
                  && off < size && off' <= size
                  && var end := off + Min(len, size - off) - 1;
                     && upstream(off, end).Reply? && upstream(off, end).status == 206
                     && ParseContentRange(upstream(off, end).contentRange) == Some(Range(off, end, size))
                     && r.data <= upstream(off, end).body)
            && (r.err.None? ==> |r.data| == if off < size then Min(len, size - off) else 0)
  {
    hide ParseContentRange;
  }

  // ---------- whole sequences ----------

  /** The answers of a reader to a sequence of calls. */
  function BytesRun(b: string, off: int, ops: seq<Op>): (rs: seq<Result>)
    requires 0 <= off
    ensures |rs| == |ops|
    decreases ops
  {
    if ops == [] then [] else
    var (off', r) := BytesStep(b, off, ops[0]);
    [r] + BytesRun(b, off', ops[1..])
  }

  function RangeRun(upstream: Upstream, size: int, off: int, ops: seq<Op>): (rs: seq<Result>)
    requires 0 <= off
    ensures |rs| == |ops|
    decreases ops
  {
    if ops == [] then [] else
    var (off', r) := RangeStep(upstream, size, off, ops[0]);
    [r] + RangeRun(upstream, size, off', ops[1..])
  }

  /** For any seeks and non-empty reads the range reader is the in-memory reader. */
  lemma {:induction false} RunsAgree(upstream: Upstream, b: string, off: int, ops: seq<Op>)
    requires Serves(upstream, b) && 0 <= off && |b| <= MAX_INT64
    requires forall op <- ops :: op != Read(0)
    ensures RangeRun(upstream, |b|, off, ops) == BytesRun(b, off, ops)
    decreases ops
  {
    hide RangeStep, BytesStep, Serves;
    if ops != [] {
      StepsAgree(upstream, b, off, ops[0]);
      assert ops[0] in ops && forall op <- ops[1..] :: op in ops;
      var (off', r) := BytesStep(b, off, ops[0]);
      RunsAgree(upstream, b, off', ops[1..]);
    }
  }

  function Delivered(rs: seq<Result>): string {
    if rs == [] then "" else rs[0].data + Delivered(rs[1..])
  }

  /** How many bytes the reads ask for. */
  function Asked(ops: seq<Op>): nat
    requires forall op <- ops :: op.Read?
  {
    if ops == [] then 0 else assert forall op <- ops[1..] :: op in ops; assert ops[0] in ops; ops[0].len + Asked(ops[1..])
  }

  lemma AskedStep(ops: seq<Op>, i: nat)
    requires 0 < i <= |ops| && forall op <- ops :: op.Read?
    ensures ops[0] in ops && (forall op <- ops[1..] :: op.Read?) && (forall op <- ops[..i] :: op.Read?)
    ensures Asked(ops[..i]) == ops[0].len + Asked(ops[1..][..i - 1])
  {
    assert forall op <- ops[1..] + ops[..i] :: op in ops;
    assert ops[..i][1..] == ops[1..][..i - 1];
  }

  lemma AskedNothing()
    ensures Asked([]) == 0
  {
  }

  lemma Pieces(b: string, i: nat, j: nat, k: nat)
    requires i <= j <= k <= |b|
    ensures b[i..j] + b[j..k] == b[i..k]
  {
  }

  lemma ReadStep(b: string, off: nat, len: nat)
    requires off <= |b|
    ensures var off' := Min(off + len, |b|);
            BytesStep(b, off, Read(len)) == (off', Result(b[off..off'], 0, if off == |b| then Some(EOF) else None))
  {
    assert b[off..off] == "";
  }

  /** Reads, of whatever lengths, deliver the content in order and without gaps, as far as they ask for it; a read is
      told of the end exactly when everything was delivered before it, and of nothing else. */
  lemma {:induction false} ReadsDeliverTheContent(b: string, off: nat, ops: seq<Op>)
    requires off <= |b| && forall op <- ops :: op.Read?
    ensures Delivered(BytesRun(b, off, ops)) == b[off..Min(off + Asked(ops), |b|)]
    ensures forall i :: 0 <= i < |ops| ==>
      BytesRun(b, off, ops)[i].err == if off + Asked(ops[..i]) >= |b| then Some(EOF) else None
    decreases ops
  {
    hide BytesStep, Asked;
    if ops == [] {
      AskedNothing();
    } else {
      AskedStep(ops, |ops|);
      assert ops[..|ops|] == ops && ops[1..][..|ops| - 1] == ops[1..];
      var off' := Min(off + ops[0].len, |b|);
      ReadStep(b, off, ops[0].len);
      var rest := BytesRun(b, off', ops[1..]);
      var r := Result(b[off..off'], 0, if off == |b| then Some(EOF) else None);
      assert BytesRun(b, off, ops) == [r] + rest && ([r] + rest)[1..] == rest;
      ReadsDeliverTheContent(b, off', ops[1..]);
      Pieces(b, off, off', Min(off' + Asked(ops[1..]), |b|));
      forall i | 0 <= i < |ops|
        ensures BytesRun(b, off, ops)[i].err == if off + Asked(ops[..i]) >= |b| then Some(EOF) else None
      {
        if i > 0 { AskedStep(ops, i); } else { AskedNothing(); assert ops[..0] == []; }
      }
    }
  }

  /** So a file read through ranges, in pieces of whatever lengths, arrives whole. */
  lemma DownloadsTheContent(upstream: Upstream, b: string, ops: seq<Op>)
    requires Serves(upstream, b) && |b| <= MAX_INT64
    requires forall op <- ops :: op.Read? && op.len > 0
    ensures Delivered(RangeRun(upstream, |b|, 0, ops)) == b[..Min(Asked(ops), |b|)]
    ensures ops != [] && Asked(ops[..|ops| - 1]) >= |b| ==> RangeRun(upstream, |b|, 0, ops)[|ops| - 1].err == Some(EOF)
  {
    hide RangeRun, BytesRun, Serves, Asked, Delivered;
    RunsAgree(upstream, b, 0, ops);
    ReadsDeliverTheContent(b, 0, ops);
  }

  // ---------- the readers themselves ----------

  /** n bytes of data were put at the start of the buffer. */
  twostate predicate Filled(p: array<char>, data: string)
    reads p
  {
    |data| <= p.Length && p[..|data|] == data && p[|data|..] == old(p[|data|..])
  }

  class SeekableBytes {
    const b: string
    var off: int

    constructor (b: string)
      ensures this.b == b && off == 0
    {
      this.b := b;
      off := 0;
    }

    method Read(p: array<char>) returns (n: nat, err: Option<Error>)
      requires 0 <= off
      modifies this, p
      ensures var (off', r) := BytesStep(b, old(off), Op.Read(p.Length));
              off == off' && n == |r.data| && err == r.err && Filled(p, r.data)
    {
      if off >= |b| { return 0, Some(EOF); }
      n := Min(p.Length, |b| - off);
      forall i | 0 <= i < n { p[i] := b[off + i]; }
      off := off + n;
      err := None;
    }

    method Seek(offset: int, whence: int) returns (pos: int, err: Option<Error>)
      requires 0 <= off <= MAX_INT64 && IsInt64(offset)
      modifies this
      ensures var (off', r) := BytesStep(b, old(off), Op.Seek(offset, whence)); off == off' && pos == r.pos && err == r.err
      ensures |b| <= MAX_INT64 ==> Sought(|b|, old(off), offset, whence, off, pos, err)
      ensures 0 <= off <= MAX_INT64
    {
      hide Wrap64;
      if |b| <= MAX_INT64 { SeeksAreExact(|b|, off, offset, whence); }
      WrapIsInt64(off + offset);
      WrapIsInt64(|b| + offset);
      var abs;
      if whence == 0 { abs := offset; }
      else if whence == 1 { abs := Wrap64(off + offset); }
      else if whence == 2 { abs := Wrap64(|b| + offset); }
      else { return 0, Some(InvalidWhence); }
      if abs < 0 { return 0, Some(NegativePosition); }
      off := abs;
      return abs, None;
    }
  }

  class HttpRangeReader {
    const size: int
    var off: int
    var closed: bool

    constructor (size: int)
      ensures this.size == size && off == 0 && !closed
    {
      this.size := size;
      off, closed := 0, false;
    }

    method Read(p: array<char>, upstream: Upstream) returns (n: nat, err: Option<Error>)
      requires 0 <= off
      modifies this`off, p
      ensures closed ==> n == 0 && err == Some(Closed) && off == old(off) && p[..] == old(p[..])
      ensures !closed ==>
        var (off', r) := RangeStep(upstream, size, old(off), Op.Read(p.Length));
        off == off' && n == |r.data| && err == r.err && Filled(p, r.data)
    {
      hide ParseContentRange;
      if closed { return 0, Some(Closed); }
      if p.Length == 0 { return 0, None; }
      if off >= size { return 0, Some(EOF); }
      var len := p.Length;
      var max := size - off;
      if len > max { len := max; }
      var end := off + len - 1;
      var reply := upstream(off, end);
      if reply.Unreachable? { return 0, Some(Transport); }
      if reply.status != 206 { return 0, Some(Error.Upstream); }
      var range := ParseContentRange(reply.contentRange);
      if range.None? || range.value.start != off || range.value.end != end || range.value.size != size {
        return 0, Some(Error.Upstream);
      }
      n := Min(len, |reply.body|);
      forall i | 0 <= i < n { p[i] := reply.body[i]; }
      off := off + n;
      err := if n == len then None else if reply.broken then Some(Transport) else Some(EOF);
    }

    method Seek(offset: int, whence: int) returns (pos: int, err: Option<Error>)
      requires 0 <= off <= MAX_INT64 && IsInt64(offset)
      modifies this`off
      ensures var (off', r) := SeekOf(size, old(off), offset, whence); off == off' && pos == r.pos && err == r.err
      ensures 0 <= size <= MAX_INT64 ==> Sought(size, old(off), offset, whence, off, pos, err)
      ensures 0 <= off <= MAX_INT64
    {
      hide Wrap64;
      if 0 <= size <= MAX_INT64 { SeeksAreExact(size, off, offset, whence); }
      WrapIsInt64(off + offset);
      WrapIsInt64(size + offset);
      var abs;
      if whence == 0 { abs := offset; }
      else if whence == 1 { abs := Wrap64(off + offset); }
      else if whence == 2 { abs := Wrap64(size + offset); }
      else { return 0, Some(InvalidWhence); }
      if abs < 0 { return 0, Some(NegativePosition); }
      off := abs;
      return abs, None;
    }

    method Close()
      modifies this`closed
      ensures closed
    {
      closed := true;
    }
  }
}
