/**
 How internal/iiif/presentation/v3/handler/handler.go turns a request into a store
 operation: `requestResource` names the document, `putPreconditions` and
 `validStrongIfMatch` admit the condition. Strings are bytes.
 */
module PresentationKeys {
  import opened Digests
  import opened DocumentStore
  import opened PercentEncoding
  import opened Strings
  import opened Wrappers

  // ---------- segments ----------

  predicate Continues(s: string, i: nat) { i < |s| && '\U{80}' <= s[i] <= '\U{bf}' }

  /** The length of the UTF-8 sequence s starts with, 0 if there is none. */
  function RuneLength(s: string): (n: nat)
    ensures n <= |s|
  {
    if s == "" then 0
    else if s[0] < '\U{80}' then 1
    else if '\U{c2}' <= s[0] <= '\U{df}' && Continues(s, 1) then 2
    else if '\U{e0}' <= s[0] <= '\U{ef}' && Continues(s, 1) && Continues(s, 2)
            && (s[0] == '\U{e0}' ==> s[1] >= '\U{a0}') && (s[0] == '\U{ed}' ==> s[1] <= '\U{9f}') then 3
    else if '\U{f0}' <= s[0] <= '\U{f4}' && Continues(s, 1) && Continues(s, 2) && Continues(s, 3)
            && (s[0] == '\U{f0}' ==> s[1] >= '\U{90}') && (s[0] == '\U{f4}' ==> s[1] <= '\U{8f}') then 4
    else 0
  }

  /** `utf8.ValidString`. */
  predicate ValidUTF8(s: string)
    decreases |s|
  {
    s == "" || (RuneLength(s) > 0 && ValidUTF8(s[RuneLength(s)..]))
  }

  predicate AcceptedSegment(s: string) {
    s != "" && s != "." && s != ".." && ValidUTF8(s) && !ContainsAny(s, "\\\0\n\r")
  }

  /** A segment a document may have in its name. */
  predicate ValidSegment(s: string) { AcceptedSegment(s) && '/' !in s && IsBytes(s) }

  predicate ValidSegments(segments: seq<string>) {
    |segments| > 0 && forall s <- segments :: ValidSegment(s)
  }

  /** The escaped form of each segment. */
  function Escaped(segments: seq<string>): (r: seq<string>)
    requires forall s <- segments :: IsBytes(s)
    ensures |r| == |segments|
  {
    seq(|segments|, i requires 0 <= i < |segments| => assert segments[i] in segments; Escape(segments[i], Segment))
  }

  /** The key of a document: its segments escaped and joined. */
  function Key(segments: seq<string>): string
    requires forall s <- segments :: IsBytes(s)
  {
    Join(Escaped(segments), '/')
  }

  // ---------- the request ----------

  /** `strings.Contains(strings.ToLower(s), ...)` for "%2f" and "%5c". */
  predicate HidesSeparator(s: string) {
    exists i :: 0 <= i < |s| - 2 && s[i] == '%' && ((s[i + 1] == '2' && s[i + 2] in "fF") || (s[i + 1] == '5' && s[i + 2] in "cC"))
  }

  /** The path below which documents lie, escaped. */
  function Root(prefix: string): string
    requires IsBytes(prefix)
  {
    Escape(prefix, WholePath) + "/"
  }

  /** A path is accepted exactly when it is the root followed by the key of some list of valid segments of at
      most 768 bytes, with no query; the resource key is that key. `escapedPath` is what the URL keeps escaped. */
  method RequestResource(prefix: string, query: string, escapedPath: string) returns (key: Option<string>)
    requires IsBytes(prefix) && IsBytes(escapedPath) && Unescape(escapedPath).Some?
    ensures key.Some? <==> query == "" && exists segments :: Names(Root(prefix), escapedPath, segments)
    ensures key.Some? ==> escapedPath == Root(prefix) + key.value
  {
    hide Split, Unescape, Escape, Join, HidesSeparator, AcceptedSegment, Root, Names;
    if query != "" { return None; }
    var path := Unescape(escapedPath).value;
    var root := Root(prefix);
    if !HasPrefix(escapedPath, root) {
      NamesHasRoot(root, escapedPath);
      return None;
    }
    var escapedRest := TrimPrefix(escapedPath, root);
    var decodedRest := TrimPrefix(path, prefix + "/");
    RestDecodes(prefix, escapedPath);
    if escapedRest == "" || decodedRest == "" || HidesSeparator(escapedRest) {
      NamesIsClean(root, escapedPath);
      return None;
    }
    var segments := Split(decodedRest, '/');
    SplitBytes(decodedRest, '/');
    OnlyTheseSegments(root, escapedPath, escapedRest, segments);
    var canonical: seq<string> := [];
    var i := 0;
    while i < |segments|
      invariant 0 <= i <= |segments| && forall j :: 0 <= j < i ==> AcceptedSegment(segments[j])
      invariant forall s <- segments[..i] :: IsBytes(s)
      invariant canonical == Escaped(segments[..i])
    {
      assert segments[i] in segments;
      if !AcceptedSegment(segments[i]) { return None; }
      assert segments[..i + 1][..i] == segments[..i] && segments[..i + 1][i] == segments[i];
      canonical := canonical + [Escape(segments[i], Segment)];
      i := i + 1;
    }
    assert segments[..i] == segments;
    var k := Join(canonical, '/');
    if k != escapedRest || |k| > MAX_RESOURCE_KEY_BYTES { return None; }
    assert escapedPath == root + k;
    assert Names(root, escapedPath, segments) by { NamesIs(root, escapedPath, segments); }
    return Some(k);
  }

  /** The path is the root and the key of these segments. */
  ghost predicate Names(root: string, path: string, segments: seq<string>) {
    ValidSegments(segments) && |Key(segments)| <= MAX_RESOURCE_KEY_BYTES && path == root + Key(segments)
  }

  lemma NamesIs(root: string, path: string, segments: seq<string>)
    requires ValidSegments(segments) && |Key(segments)| <= MAX_RESOURCE_KEY_BYTES && path == root + Key(segments)
    ensures Names(root, path, segments)
  {
  }

  lemma NamesHasRoot(root: string, path: string)
    requires !HasPrefix(path, root)
    ensures !exists segments :: Names(root, path, segments)
  {
  }

  /** Below the root, the decoded path is the decoded rest. */
  lemma RestDecodes(prefix: string, escapedPath: string)
    requires IsBytes(prefix) && IsBytes(escapedPath) && Unescape(escapedPath).Some? && HasPrefix(escapedPath, Root(prefix))
    ensures var rest := TrimPrefix(escapedPath, Root(prefix));
            && Unescape(rest).Some? && IsBytes(Unescape(rest).value)
            && TrimPrefix(Unescape(escapedPath).value, prefix + "/") == Unescape(rest).value
  {
    hide Unescape, Escape;
    var root := Root(prefix);
    var rest := TrimPrefix(escapedPath, root);
    assert escapedPath == root + rest;
    EscapeRoundTrip(prefix, WholePath);
    SlashDecodes();
    UnescapeConcat(Escape(prefix, WholePath), "/");
    RestUnescapes(root, rest);
    UnescapeConcat(root, rest);
    UnescapeBytes(rest);
    var head := prefix + "/";
    assert (head + Unescape(rest).value)[|head|..] == Unescape(rest).value;
  }

  lemma SlashDecodes()
    ensures Unescape("/") == Some("/")
  {
    assert "/"[1..] == "" && Unescape("") == Some("") && ['/'] + "" == "/";
  }

  /** What follows decodable text in decodable text is decodable. */
  lemma {:induction false} RestUnescapes(a: string, b: string)
    requires Unescape(a).Some? && Unescape(a + b).Some?
    ensures Unescape(b).Some?
    decreases |a|
  {
    if a == "" {
      assert a + b == b;
    } else {
      assert FirstByte(a + b) == FirstByte(a) && (a + b)[FirstLength(a)..] == a[FirstLength(a)..] + b;
      RestUnescapes(a[FirstLength(a)..], b);
    }
  }

  // ---------- keys and segments ----------

  /** Escaped segments hold no separator, hidden or not. */
  lemma {:induction false} EscapeHidesNothing(s: string)
    requires IsBytes(s) && '/' !in s && '\\' !in s
    ensures !HidesSeparator(Escape(s, Segment)) && '/' !in Escape(s, Segment)
    ensures s != "" ==> Escape(s, Segment) != ""
  {
    if s != "" {
      EscapeHidesNothing(s[1..]);
      assert s[0] in s;
      ByteHidesNothing(s[0]);
      NoHiddenAcross(EscapeByte(s[0], Segment), Escape(s[1..], Segment));
    }
  }

  lemma ByteHidesNothing(c: char)
    requires c as int < 256 && c != '/' && c != '\\'
    ensures var e := EscapeByte(c, Segment); !HidesSeparator(e) && '/' !in e && Whole(e) && e != ""
  {
    if ShouldEscape(c, Segment) {
      var e := EscapeByte(c, Segment);
      assert e[1] == HexChar(c as int / 16) && e[2] == HexChar(c as int % 16);
    }
  }

  /** No escape is cut off at the end. */
  predicate Whole(s: string) {
    (|s| >= 1 ==> s[|s| - 1] != '%') && (|s| >= 2 ==> s[|s| - 2] != '%')
  }

  lemma NoHiddenAcross(a: string, b: string)
    requires Whole(a) && !HidesSeparator(a) && !HidesSeparator(b)
    ensures !HidesSeparator(a + b)
  {
    var s := a + b;
    forall i | 0 <= i < |s| - 2 && s[i] == '%'
      ensures !((s[i + 1] == '2' && s[i + 2] in "fF") || (s[i + 1] == '5' && s[i + 2] in "cC"))
    {
      if i < |a| {
        assert i < |a| - 2 && a[i] == s[i] && a[i + 1] == s[i + 1] && a[i + 2] == s[i + 2];
      } else {
        assert b[i - |a|] == s[i] && b[i - |a| + 1] == s[i + 1] && b[i - |a| + 2] == s[i + 2];
      }
    }
  }

  lemma {:induction false} EscapeIsWhole(s: string)
    requires IsBytes(s)
    ensures Whole(Escape(s, Segment))
  {
    if s != "" {
      EscapeIsWhole(s[1..]);
      var a, b := EscapeByte(s[0], Segment), Escape(s[1..], Segment);
      assert Whole(a) && (a + b)[|a|..] == b;
      if |b| == 0 { assert a + b == a; }
    }
  }

  lemma PieceThen(e: string, rest: string)
    requires Whole(e) && !HidesSeparator(e) && !HidesSeparator(rest)
    ensures !HidesSeparator(e + "/" + rest)
  {
    assert Whole("/") && !HidesSeparator("/");
    NoHiddenAcross("/", rest);
    NoHiddenAcross(e, "/" + rest);
    assert e + "/" + rest == e + ("/" + rest);
  }

  lemma SegmentEscapes(s: string)
    requires ValidSegment(s)
    ensures var e := Escape(s, Segment); e != "" && '/' !in e && Whole(e) && !HidesSeparator(e) && Unescape(e) == Some(s)
  {
    assert '\\' !in s;
    EscapeHidesNothing(s);
    EscapeIsWhole(s);
    EscapeRoundTrip(s, Segment);
  }

  /** A key decodes to its segments joined, hides no separator, and is not empty. */
  lemma {:induction false} KeyDecodes(segments: seq<string>)
    requires ValidSegments(segments)
    ensures Unescape(Key(segments)) == Some(Join(segments, '/')) && !HidesSeparator(Key(segments))
    ensures Key(segments) != "" && Join(segments, '/') != ""
  {
    hide Unescape, HidesSeparator, Escape, ValidUTF8, ContainsAny, Whole;
    var s := segments[0];
    assert s in segments;
    SegmentEscapes(s);
    var e := Escape(s, Segment);
    assert Escaped(segments)[0] == e;
    if |segments| == 1 {
      assert Key(segments) == e;
    } else {
      var rest := segments[1..];
      assert forall x <- rest :: x in segments;
      KeyDecodes(rest);
      SlashDecodes();
      UnescapeConcat(e, "/");
      UnescapeConcat(e + "/", Key(rest));
      assert Escaped(segments)[1..] == Escaped(rest);
      assert Key(segments) == e + "/" + Key(rest);
      PieceThen(e, Key(rest));
    }
  }

  /** Distinct lists of segments have distinct keys. */
  lemma KeysAreDistinct(a: seq<string>, b: seq<string>)
    requires ValidSegments(a) && ValidSegments(b)
    ensures Key(a) == Key(b) <==> a == b
  {
    hide Key, ValidUTF8, ContainsAny;
    KeyDecodes(a); KeyDecodes(b);
    SplitJoin(a, '/'); SplitJoin(b, '/');
  }

  lemma NamedIsClean(root: string, path: string, segments: seq<string>)
    requires Names(root, path, segments)
    ensures var rest := TrimPrefix(path, root);
            rest != "" && Unescape(rest).Some? && Unescape(rest).value != "" && !HidesSeparator(rest)
  {
    hide Key, Unescape, HidesSeparator, ValidUTF8, ContainsAny;
    KeyDecodes(segments);
    assert (root + Key(segments))[..|root|] == root && (root + Key(segments))[|root|..] == Key(segments);
  }

  lemma NamesIsClean(root: string, path: string)
    requires HasPrefix(path, root)
    requires var rest := TrimPrefix(path, root); Unescape(rest).Some? && (rest == "" || Unescape(rest).value == "" || HidesSeparator(rest))
    ensures !exists segments :: Names(root, path, segments)
  {
    hide Names, Unescape, HidesSeparator;
    forall segments ensures !Names(root, path, segments) {
      if Names(root, path, segments) { NamedIsClean(root, path, segments); }
    }
  }

  /** Only the decoded path's own segments can name it. */
  lemma OnlyTheseSegments(root: string, path: string, rest: string, segments: seq<string>)
    requires path == root + rest && Unescape(rest).Some? && segments == Split(Unescape(rest).value, '/')
    ensures forall others :: Names(root, path, others) ==>
      && others == segments && (forall s <- others :: AcceptedSegment(s) && IsBytes(s))
      && rest == Key(segments) && |rest| <= MAX_RESOURCE_KEY_BYTES
  {
    hide Key, Unescape, ValidUTF8, ContainsAny, Split, Join, AcceptedSegment;
    forall others | Names(root, path, others)
      ensures others == segments && (forall s <- others :: AcceptedSegment(s) && IsBytes(s)) && rest == Key(others) && |rest| <= MAX_RESOURCE_KEY_BYTES
    {
      KeyDecodes(others);
      assert (root + rest)[|root|..] == rest && (root + Key(others))[|root|..] == Key(others);
      SplitJoin(others, '/');
    }
  }

  // ---------- conditions ----------

  datatype Status = PreconditionRequired | BadRequest

  predicate StrongTag(s: string) {
    |s| >= 2 && s[0] == '"' && s[|s| - 1] == '"' && !HasPrefix(s, "W/") && !ContainsAny(s[1..|s| - 1], "\"\r\n")
  }

  /** `validStrongIfMatch`. */
  predicate ValidStrongIfMatch(value: string) {
    TrimSpace(value) == "*" || (TrimSpace(value) != "" && forall c <- Candidates(value) :: StrongTag(c))
  }

  function PutPreconditions(ifMatchField: string, ifNoneMatchField: string): Result<Preconditions, Status> {
    var ifMatch, ifNoneMatch := TrimSpace(ifMatchField), TrimSpace(ifNoneMatchField);
    if ifMatch == "" && ifNoneMatch == "" then Err(PreconditionRequired)
    else if ifMatch != "" && ifNoneMatch != "" then Err(BadRequest)
    else if ifNoneMatch != "" && ifNoneMatch != "*" then Err(BadRequest)
    else if ifMatch != "" && !ValidStrongIfMatch(ifMatch) then Err(BadRequest)
    else Ok(Preconditions(ifMatch, ifNoneMatch))
  }

  /** A member of a header list, with the white space around it. */
  datatype Member = Member(before: string, tag: string, after: string)

  predicate ListMember(m: Member) {
    && AllSpace(m.before) && AllSpace(m.after)
    && m.tag != "" && Ascii(m.tag[0]) && Ascii(m.tag[|m.tag| - 1]) && ',' !in m.tag
  }

  predicate ListMembers(ms: seq<Member>) { |ms| > 0 && forall i :: 0 <= i < |ms| ==> ListMember(ms[i]) }

  /** The members with commas between them. */
  function Field(ms: seq<Member>): string {
    Join(seq(|ms|, i requires 0 <= i < |ms| => ms[i].before + ms[i].tag + ms[i].after), ',')
  }

  function Tags(ms: seq<Member>): seq<string> {
    seq(|ms|, i requires 0 <= i < |ms| => ms[i].tag)
  }

  /** The members without the white space around the whole list. */
  function Pieces(ms: seq<Member>): seq<string> {
    seq(|ms|, i requires 0 <= i < |ms| =>
      (if i == 0 then "" else ms[i].before) + ms[i].tag + (if i == |ms| - 1 then "" else ms[i].after))
  }

  lemma PieceOf(ms: seq<Member>, i: nat)
    requires ListMembers(ms) && i < |ms|
    ensures TrimSpace(Pieces(ms)[i]) == ms[i].tag && ',' !in Pieces(ms)[i]
    ensures Pieces(ms)[i] != "" && (i == 0 ==> Ascii(Pieces(ms)[0][0])) && (i == |ms| - 1 ==> Ascii(Pieces(ms)[i][|Pieces(ms)[i]| - 1]))
  {
    hide TrimSpace, AllSpace;
    var m := ms[i];
    assert ListMember(m);
    NothingIsSpace();
    var before, after := if i == 0 then "" else m.before, if i == |ms| - 1 then "" else m.after;
    TrimsToVisible(before, m.tag, after);
    SpaceHasNoVisible(before, ',');
    SpaceHasNoVisible(after, ',');
    assert Pieces(ms)[i] == before + m.tag + after;
  }

  lemma NothingAround(s: string)
    ensures "" + s == s && s + "" == s
  {
  }

  lemma FieldIs(ms: seq<Member>)
    requires |ms| > 0
    ensures Field(ms) == ms[0].before + Join(Pieces(ms), ',') + ms[|ms| - 1].after
  {
    hide Join;
    var n := |ms| - 1;
    var inner := Pieces(ms);
    JoinAfter(ms[0].before, inner, ',');
    var outer := inner[0 := ms[0].before + inner[0]];
    JoinBefore(outer, ms[n].after, ',');
    var texts := seq(|ms|, i requires 0 <= i < |ms| => ms[i].before + ms[i].tag + ms[i].after);
    forall i | 0 <= i <= n ensures texts[i] == outer[n := outer[n] + ms[n].after][i] {
      ConcatAssoc(ms[i].before, ms[i].tag, ms[i].after);
      NothingAround(ms[i].before);
      NothingAround(ms[i].tag);
      NothingAround(ms[i].before + ms[i].tag);
      NothingAround(ms[i].tag + ms[i].after);
    }
    assert texts == outer[n := outer[n] + ms[n].after];
    assert ms[0].before + Join(inner, ',') + ms[n].after == Field(ms);
  }

  /** A list is read as its members, whatever white space stands around them. */
  lemma ListsReadBack(ms: seq<Member>)
    requires ListMembers(ms)
    ensures Candidates(Field(ms)) == Tags(ms)
    ensures |ms| > 0 && TrimSpace(Field(ms)) != "" && (ms[0].tag[0] != '*' ==> TrimSpace(Field(ms)) != "*")
  {
    hide TrimSpace, AllSpace, Join, Split, Field, Ascii, Pieces;
    var inner := Pieces(ms);
    assert |inner| == |ms| by { PiecesLength(ms); }
    FieldIs(ms);
    forall i: nat | i < |ms| ensures TrimSpace(inner[i]) == ms[i].tag && ',' !in inner[i] { PieceOf(ms, i); }
    PieceOf(ms, 0);
    PieceOf(ms, |ms| - 1);
    JoinEnds(inner, ',');
    assert ListMember(ms[0]) && ListMember(ms[|ms| - 1]);
    TrimsToVisible(ms[0].before, Join(inner, ','), ms[|ms| - 1].after);
    SplitJoin(inner, ',');
    PiecesLength(ms);
    assert |Candidates(Field(ms))| == |ms| && forall i :: 0 <= i < |ms| ==> Candidates(Field(ms))[i] == ms[i].tag;
  }

  lemma PiecesLength(ms: seq<Member>)
    ensures |Pieces(ms)| == |ms|
    ensures |ms| > 0 && ms[0].tag != "" ==> Pieces(ms)[0] != "" && Pieces(ms)[0][0] == ms[0].tag[0]
  {
  }

  lemma {:induction false} TrimRightIsPrefix(s: string)
    ensures TrimRight(s) <= s
    decreases |s|
  {
    if TrailingSpace(s) > 0 { TrimRightIsPrefix(s[..|s| - TrailingSpace(s)]); }
  }

  lemma TrimTwice(s: string)
    ensures TrimSpace(TrimSpace(s)) == TrimSpace(s)
  {
    hide IsSpace, LeadingSpace, TrailingSpace;
    TrimRightIsPrefix(TrimLeft(s));
    PrefixLeads(TrimLeft(s), TrimSpace(s));
  }

  lemma PrefixLeads(t: string, u: string)
    requires u <= t && LeadingSpace(t) == 0
    ensures LeadingSpace(u) == 0
  {
    hide IsSpace;
    assert |u| >= 1 ==> u[..1] == t[..1];
    assert |u| >= 2 ==> u[..2] == t[..2];
    assert |u| >= 3 ==> u[..3] == t[..3];
  }

  /** What a write is admitted with is one of two conditions: create only, or replace what carries one of the
      named strong tags (sections 13.1.1 and 13.1.2 of RFC 9110); and the store decides exactly that. */
  lemma AdmittedConditions(ifMatchField: string, ifNoneMatchField: string, present: bool, etag: string)
    requires PutPreconditions(ifMatchField, ifNoneMatchField).Ok?
    ensures var cond := PutPreconditions(ifMatchField, ifNoneMatchField).value;
            if cond.ifNoneMatch != ""
            then cond == Preconditions("", "*") && (PutPreconditionMatches(present, etag, cond) <==> !present)
            else && cond.ifMatch == TrimSpace(ifMatchField) != ""
                 && (cond.ifMatch == "*" || forall c <- Candidates(cond.ifMatch) :: StrongTag(c))
                 && (PutPreconditionMatches(present, etag, cond) <==> present && (cond.ifMatch == "*" || etag in Candidates(cond.ifMatch)))
  {
    hide TrimSpace, Split;
    var cond := PutPreconditions(ifMatchField, ifNoneMatchField).value;
    TrimTwice(ifMatchField);
    if cond.ifNoneMatch == "" && cond.ifMatch != "*" {
      StrongTagsOnly(cond.ifMatch, etag);
    }
  }

  /** A strong entity tag: quotation marks around text without quotation marks or line ends. */
  ghost predicate Quoted(c: string) {
    exists w :: c == "\"" + w + "\"" && '"' !in w && '\r' !in w && '\n' !in w
  }

  lemma StrongIsQuoted(c: string)
    ensures StrongTag(c) <==> Quoted(c)
  {
    if StrongTag(c) {
      var w := c[1..|c| - 1];
      assert c == "\"" + w + "\"";
      assert forall x <- w :: x !in "\"\r\n";
    }
    if w :| c == "\"" + w + "\"" && '"' !in w && '\r' !in w && '\n' !in w {
      assert c[1..|c| - 1] == w;
      assert forall i :: 0 <= i < |w| ==> w[i] in w;
      assert !ContainsAny(w, "\"\r\n");
      assert c[0] == '"' != "W/"[0] && (|c| >= 2 ==> c[..2][0] == c[0]);
    }
  }

  /** A write is admitted exactly when it is create-only, or names `*` or a list of strong tags, and not both; and it
      is told to state a condition exactly when it states none. */
  lemma AdmittedIff(ifMatchField: string, ifNoneMatchField: string)
    ensures PutPreconditions(ifMatchField, ifNoneMatchField).Ok? <==>
              || (AllSpace(ifMatchField) && TrimSpace(ifNoneMatchField) == "*")
              || (&& AllSpace(ifNoneMatchField) && !AllSpace(ifMatchField)
                  && (TrimSpace(ifMatchField) == "*" || forall c <- Candidates(ifMatchField) :: Quoted(c)))
    ensures PutPreconditions(ifMatchField, ifNoneMatchField) == Err(PreconditionRequired) <==>
            AllSpace(ifMatchField) && AllSpace(ifNoneMatchField)
  {
    hide TrimSpace, AllSpace, StrongTag, Quoted, Split;
    BlankIsAllSpace(ifMatchField);
    BlankIsAllSpace(ifNoneMatchField);
    TrimTwice(ifMatchField);
    assert Candidates(TrimSpace(ifMatchField)) == Candidates(ifMatchField);
    forall c <- Candidates(ifMatchField) ensures StrongTag(c) <==> Quoted(c) { StrongIsQuoted(c); }
  }

  lemma TagIsVisible(hash: Digest, body: Body)
    requires GoodDigest(hash)
    ensures var tag := DocumentETag(hash, body);
            Quoted(tag) && tag != "" && tag[0] == '"' && tag[|tag| - 1] == '"' && ',' !in tag
  {
    var w := hash(body);
    assert HexString(w);
    hide GoodDigest;
    assert DocumentETag(hash, body) == "\"" + w + "\"";
  }

  /** A put that names the tags of some bodies, in a list with any white space, is admitted; and it replaces the
      document exactly when its body is one of them, and otherwise changes nothing. */
  lemma TagListsReplace(hash: Digest, docs: Docs, key: string, body: Body, ms: seq<Member>, bodies: seq<Body>, blank: string)
    requires GoodDigest(hash) && ValidResourceKey(key) && AllSpace(blank) && |ms| == |bodies| > 0
    requires forall i :: 0 <= i < |ms| ==> AllSpace(ms[i].before) && AllSpace(ms[i].after) && ms[i].tag == DocumentETag(hash, bodies[i])
    ensures PutPreconditions(Field(ms), blank).Ok?
    ensures Atomic(hash, docs, Put(key, body, PutPreconditions(Field(ms), blank).value)) ==
            if key in docs && docs[key] in bodies then (docs[key := body], Stored(false)) else (docs, Failed(PreconditionFailed))
  {
    hide TrimSpace, AllSpace, Quoted, Split, Field, ValidResourceKey, DocumentETag;
    var field := Field(ms);
    forall i | 0 <= i < |ms| ensures ListMember(ms[i]) && Quoted(ms[i].tag) { TagIsVisible(hash, bodies[i]); }
    TagIsVisible(hash, bodies[0]);
    ListsReadBack(ms);
    BlankIsAllSpace(field);
    AdmittedIff(field, blank);
    AdmittedConditions(field, blank, key in docs, CurrentETag(hash, docs, key));
    TrimTwice(field);
    assert Candidates(TrimSpace(field)) == Tags(ms);
    if key in docs { TagAmong(hash, docs[key], ms, bodies); }
  }

  lemma TagAmong(hash: Digest, body: Body, ms: seq<Member>, bodies: seq<Body>)
    requires GoodDigest(hash) && |ms| == |bodies| && forall i :: 0 <= i < |ms| ==> ms[i].tag == DocumentETag(hash, bodies[i])
    ensures DocumentETag(hash, body) in Tags(ms) <==> body in bodies
  {
    forall i | 0 <= i < |ms| ensures Tags(ms)[i] == DocumentETag(hash, body) <==> bodies[i] == body {
      if bodies[i] != body && Tags(ms)[i] == DocumentETag(hash, body) { ETagNamesOneBody(hash, bodies[i], body); }
    }
  }

  lemma StrongTagsOnly(header: string, etag: string)
    requires forall c <- Candidates(header) :: StrongTag(c)
    ensures (exists i :: 0 <= i < |Candidates(header)| && !HasPrefix(Candidates(header)[i], "W/") && Candidates(header)[i] == etag)
            <==> etag in Candidates(header)
  {
    hide Candidates, ContainsAny;
    assert forall i :: 0 <= i < |Candidates(header)| ==> Candidates(header)[i] in Candidates(header);
  }
}
