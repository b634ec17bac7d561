/**
 The functions of Go's `strings` package the model uses, with the laws relating
 them. A Go string is the sequence of its bytes: a `char` here stands for one
 byte unless a module says otherwise.
 */
module Strings {
  /** The UTF-8 encodings of the Unicode white space characters. */
  predicate IsSpace(w: string) {
    || (|w| == 1 && ('\t' <= w[0] <= '\r' || w[0] == ' '))
    || (|w| == 2 && w[0] == '\U{c2}' && (w[1] == '\U{85}' || w[1] == '\U{a0}'))
    || (|w| == 3 && w[0] == '\U{e1}' && w[1] == '\U{9a}' && w[2] == '\U{80}')
    || (|w| == 3 && w[0] == '\U{e2}' && w[1] == '\U{80}'
        && ('\U{80}' <= w[2] <= '\U{8a}' || '\U{a8}' <= w[2] <= '\U{a9}' || w[2] == '\U{af}'))
    || (|w| == 3 && w[0] == '\U{e2}' && w[1] == '\U{81}' && w[2] == '\U{9f}')
    || (|w| == 3 && w[0] == '\U{e3}' && w[1] == '\U{80}' && w[2] == '\U{80}')
  }

  /** The number of bytes of the white space character s starts with, 0 if none. */
  function LeadingSpace(s: string): (n: nat)
    ensures n <= |s|
  {
    if |s| >= 1 && IsSpace(s[..1]) then 1
    else if |s| >= 2 && IsSpace(s[..2]) then 2
    else if |s| >= 3 && IsSpace(s[..3]) then 3
    else 0
  }

  predicate EndsInSpace(s: string, k: nat) { k <= |s| && IsSpace(s[|s| - k..]) }

  function TrailingSpace(s: string): (n: nat)
    ensures n <= |s|
  {
    if EndsInSpace(s, 1) then 1 else if EndsInSpace(s, 2) then 2 else if EndsInSpace(s, 3) then 3 else 0
  }

  function TrimLeft(s: string): (r: string)
    ensures LeadingSpace(r) == 0
    decreases |s|
  {
    if LeadingSpace(s) > 0 then TrimLeft(s[LeadingSpace(s)..]) else s
  }

  function TrimRight(s: string): (r: string)
    ensures TrailingSpace(r) == 0
    decreases |s|
  {
    if TrailingSpace(s) > 0 then TrimRight(s[..|s| - TrailingSpace(s)]) else s
  }

  /** `strings.TrimSpace`. */
  function TrimSpace(s: string): string {
    TrimRight(TrimLeft(s))
  }

  /** Nothing but white space. */
  predicate AllSpace(s: string)
    decreases |s|
  {
    || s == ""
    || (|s| >= 1 && IsSpace(s[..1]) && AllSpace(s[1..]))
    || (|s| >= 2 && IsSpace(s[..2]) && AllSpace(s[2..]))
    || (|s| >= 3 && IsSpace(s[..3]) && AllSpace(s[3..]))
  }

  lemma {:induction false} AllSpaceThen(a: string, b: string)
    requires AllSpace(a) && AllSpace(b)
    ensures AllSpace(a + b)
    decreases |a|
  {
    hide IsSpace;
    if a == "" {
      assert a + b == b;
    } else {
      var k: nat := if |a| >= 1 && IsSpace(a[..1]) && AllSpace(a[1..]) then 1
                    else if |a| >= 2 && IsSpace(a[..2]) && AllSpace(a[2..]) then 2 else 3;
      assert (a + b)[..k] == a[..k] && (a + b)[k..] == a[k..] + b;
      AllSpaceThen(a[k..], b);
    }
  }

  lemma OneSpace(w: string)
    requires IsSpace(w)
    ensures AllSpace(w)
  {
    assert w[..|w|] == w && w[|w|..] == "";
  }

  lemma TrimmedIsSpace(s: string)
    ensures LeadingSpace(s) > 0 ==> AllSpace(s[..LeadingSpace(s)])
    ensures TrailingSpace(s) > 0 ==> AllSpace(s[|s| - TrailingSpace(s)..])
  {
    hide IsSpace, AllSpace;
    if LeadingSpace(s) > 0 { OneSpace(s[..LeadingSpace(s)]); }
    if TrailingSpace(s) > 0 { OneSpace(s[|s| - TrailingSpace(s)..]); }
  }

  lemma ConcatAssoc(a: string, b: string, c: string)
    ensures a + (b + c) == a + b + c
  {
  }

  lemma {:induction false} TrimLeftIs(s: string) returns (a: string)
    ensures AllSpace(a) && s == a + TrimLeft(s)
    decreases |s|
  {
    hide AllSpace, LeadingSpace;
    var k := LeadingSpace(s);
    if k > 0 {
      TrimmedIsSpace(s);
      var rest := TrimLeftIs(s[k..]);
      AllSpaceThen(s[..k], rest);
      ConcatAssoc(s[..k], rest, TrimLeft(s[k..]));
      a := s[..k] + rest;
    } else {
      NothingIsSpace();
      a := "";
    }
  }

  lemma NothingIsSpace()
    ensures AllSpace("")
  {
  }

  lemma {:induction false} TrimRightIs(s: string) returns (b: string)
    ensures AllSpace(b) && s == TrimRight(s) + b
    decreases |s|
  {
    hide AllSpace, TrailingSpace;
    var k := TrailingSpace(s);
    if k > 0 {
      TrimmedIsSpace(s);
      var front, w := s[..|s| - k], s[|s| - k..];
      var rest := TrimRightIs(front);
      AllSpaceThen(rest, w);
      ConcatAssoc(TrimRight(front), rest, w);
      assert s == front + w;
      b := rest + w;
    } else {
      NothingIsSpace();
      b := "";
    }
  }

  /** Trimming takes away white space at both ends and nothing else. */
  lemma TrimSpaceIs(s: string)
    ensures exists a, b :: AllSpace(a) && AllSpace(b) && s == a + TrimSpace(s) + b
  {
    hide AllSpace;
    var a := TrimLeftIs(s);
    var b := TrimRightIs(TrimLeft(s));
    assert s == a + TrimSpace(s) + b;
  }

  /** It leaves nothing exactly of text that is nothing but white space. */
  lemma {:induction false} BlankIsAllSpace(s: string)
    ensures TrimSpace(s) == "" <==> AllSpace(s)
    decreases |s|
  {
    if TrimSpace(s) == "" {
      TrimSpaceIs(s);
      var a, b :| AllSpace(a) && AllSpace(b) && s == a + TrimSpace(s) + b;
      assert s == a + b;
      AllSpaceThen(a, b);
    } else if AllSpace(s) {
      TrimLeftOfSpace(s);
    }
  }

  lemma {:induction false} TrimLeftOfSpace(s: string)
    requires AllSpace(s)
    ensures TrimLeft(s) == ""
    decreases |s|
  {
    if s != "" {
      var k := LeadingSpace(s);
      SpacesArePrefixFree(s);
      TrimLeftOfSpace(s[k..]);
    }
  }

  /** White space starts in one way only. */
  lemma SpacesArePrefixFree(s: string)
    requires s != "" && AllSpace(s)
    ensures LeadingSpace(s) > 0 && AllSpace(s[LeadingSpace(s)..])
  {
    hide AllSpace;
    assert |s| >= 1 && IsSpace(s[..1]) ==> s[..1][0] == s[0];
    assert |s| >= 2 ==> s[..2][0] == s[0];
    assert |s| >= 3 ==> s[..3][0] == s[0];
    AllSpaceStarts(s);
  }

  lemma AllSpaceStarts(s: string)
    requires s != "" && AllSpace(s)
    ensures || (|s| >= 1 && IsSpace(s[..1]) && AllSpace(s[1..]))
            || (|s| >= 2 && IsSpace(s[..2]) && AllSpace(s[2..]))
            || (|s| >= 3 && IsSpace(s[..3]) && AllSpace(s[3..]))
  {
  }

  predicate Ascii(c: char) { '!' <= c <= '~' }

  /** Text that begins and ends with a visible ASCII character has nothing to trim. */
  lemma NothingToTrim(s: string)
    requires s != "" && Ascii(s[0]) && Ascii(s[|s| - 1])
    ensures TrimSpace(s) == s
  {
    NoLeadingSpace(s);
    NoTrailingSpace(s);
  }

  lemma SpacesAreNotAscii(w: string)
    requires w != "" && (Ascii(w[0]) || Ascii(w[|w| - 1]))
    ensures !IsSpace(w)
  {
  }

  lemma NoLeadingSpace(s: string)
    requires s != "" && Ascii(s[0])
    ensures LeadingSpace(s) == 0
  {
    hide IsSpace, Ascii;
    SpacesAreNotAscii(s[..1]);
    if |s| >= 2 { SpacesAreNotAscii(s[..2]); }
    if |s| >= 3 { SpacesAreNotAscii(s[..3]); }
  }

  lemma EndIsNoSpace(s: string, k: nat)
    requires 0 < k && s != "" && Ascii(s[|s| - 1])
    ensures !EndsInSpace(s, k)
  {
    hide IsSpace, Ascii;
    if k <= |s| {
      var w := s[|s| - k..];
      assert |w| == k && w[k - 1] == s[|s| - 1];
      SpacesAreNotAscii(w);
    }
  }

  lemma NoTrailingSpace(s: string)
    requires s != "" && Ascii(s[|s| - 1])
    ensures TrailingSpace(s) == 0
  {
    hide EndsInSpace, Ascii;
    EndIsNoSpace(s, 1); EndIsNoSpace(s, 2); EndIsNoSpace(s, 3);
  }

  lemma {:induction false} TrimLeftPast(a: string, w: string)
    requires AllSpace(a) && LeadingSpace(w) == 0
    ensures TrimLeft(a + w) == w
    decreases |a|
  {
    hide AllSpace, LeadingSpace;
    if a == "" {
      assert a + w == w;
    } else {
      SpacesArePrefixFree(a);
      var k := LeadingSpace(a);
      LeadingOfConcat(a, w);
      assert (a + w)[k..] == a[k..] + w;
      TrimLeftPast(a[k..], w);
    }
  }

  lemma LeadingOfConcat(a: string, w: string)
    requires LeadingSpace(a) > 0
    ensures LeadingSpace(a + w) == LeadingSpace(a)
  {
    hide IsSpace;
    assert (a + w)[..1] == a[..1];
    assert |a| >= 2 ==> (a + w)[..2] == a[..2];
    assert |a| >= 3 ==> (a + w)[..3] == a[..3];
  }

  /** White space ends in a white space character, and in one only. */
  lemma {:induction false} AllSpaceEnds(b: string)
    requires b != "" && AllSpace(b)
    ensures TrailingSpace(b) > 0 && AllSpace(b[..|b| - TrailingSpace(b)])
    decreases |b|
  {
    hide AllSpace, IsSpace, LeadingSpace, EndsInSpace, TrailingSpace;
    SpacesArePrefixFree(b);
    var k := LeadingSpace(b);
    LeadsInSpace(b);
    var rest := b[k..];
    assert b == b[..k] + rest;
    if rest == "" {
      assert b[..k] == b;
      SingleSpaceEnds(b);
      NothingIsSpace();
      assert b[..0] == "";
    } else {
      AllSpaceEnds(rest);
      var j := TrailingSpace(rest);
      TrailingOfConcat(b[..k], rest);
      OneSpace(b[..k]);
      AllSpaceThen(b[..k], rest[..|rest| - j]);
      assert b[..|b| - j] == b[..k] + rest[..|rest| - j];
    }
  }

  lemma LeadsInSpace(s: string)
    ensures LeadingSpace(s) > 0 ==> IsSpace(s[..LeadingSpace(s)])
  {
  }

  /** Only the first byte of a white space character can start one. */
  lemma SpaceWithin(w: string, k: nat)
    requires IsSpace(w) && k < |w|
    ensures !EndsInSpace(w, k)
  {
    if k > 0 {
      assert '\U{80}' <= w[|w| - k] <= '\U{bf}';
      var u := w[|w| - k..];
      assert u[0] == w[|w| - k];
      StartsNoSpace(u);
    }
  }

  lemma StartsNoSpace(u: string)
    requires u != "" && '\U{80}' <= u[0] <= '\U{bf}'
    ensures !IsSpace(u)
  {
  }

  lemma SpaceLength(w: string)
    requires IsSpace(w)
    ensures 1 <= |w| <= 3 && EndsInSpace(w, |w|)
  {
    assert w[|w| - |w|..] == w;
  }

  lemma SingleSpaceEnds(w: string)
    requires IsSpace(w)
    ensures TrailingSpace(w) == |w|
  {
    hide IsSpace, EndsInSpace;
    SpaceLength(w);
    if |w| > 1 { SpaceWithin(w, 1); }
    if |w| > 2 { SpaceWithin(w, 2); }
  }

  lemma EndsOfConcat(a: string, b: string, k: nat)
    requires k <= |b|
    ensures EndsInSpace(a + b, k) <==> EndsInSpace(b, k)
  {
    hide IsSpace;
    assert (a + b)[|a + b| - k..] == b[|b| - k..];
  }

  lemma TrailingOfConcat(a: string, b: string)
    requires TrailingSpace(b) > 0
    ensures TrailingSpace(a + b) == TrailingSpace(b)
  {
    hide EndsInSpace;
    EndsOfConcat(a, b, 1);
    if |b| >= 2 { EndsOfConcat(a, b, 2); }
    if |b| >= 3 { EndsOfConcat(a, b, 3); }
  }

  lemma {:induction false} TrimRightPast(v: string, b: string)
    requires AllSpace(b) && TrailingSpace(v) == 0
    ensures TrimRight(v + b) == v
    decreases |b|
  {
    hide AllSpace, TrailingSpace;
    if b == "" {
      assert v + b == v;
    } else {
      AllSpaceEnds(b);
      var k := TrailingSpace(b);
      TrailingOfConcat(v, b);
      assert (v + b)[..|v + b| - k] == v + b[..|b| - k];
      TrimRightPast(v, b[..|b| - k]);
    }
  }

  /** Whatever white space surrounds it, visible text comes out. */
  lemma TrimsToVisible(a: string, v: string, b: string)
    requires AllSpace(a) && AllSpace(b) && v != "" && Ascii(v[0]) && Ascii(v[|v| - 1])
    ensures TrimSpace(a + v + b) == v
  {
    hide AllSpace, LeadingSpace, TrailingSpace, TrimLeft, TrimRight, Ascii;
    assert a + v + b == a + (v + b) && (v + b)[0] == v[0];
    NoLeadingSpace(v + b);
    TrimLeftPast(a, v + b);
    NoTrailingSpace(v);
    TrimRightPast(v, b);
  }

  lemma {:induction false} SpaceHasNoVisible(a: string, c: char)
    requires AllSpace(a) && Ascii(c)
    ensures c !in a
    decreases |a|
  {
    hide AllSpace;
    if a != "" {
      SpacesArePrefixFree(a);
      var k := LeadingSpace(a);
      LeadsInSpace(a);
      SpaceHasNoVisible(a[k..], c);
      assert a == a[..k] + a[k..];
      assert forall i :: 0 <= i < k ==> a[..k][i] != c;
    }
  }

  predicate HasPrefix(s: string, p: string) {
    |p| <= |s| && s[..|p|] == p
  }

  predicate HasSuffix(s: string, p: string) {
    |p| <= |s| && s[|s| - |p|..] == p
  }

  lemma SuffixOfConcat(a: string, b: string)
    ensures HasSuffix(a + b, b) && (a + b)[..|a|] == a && (a + b)[|a|..] == b
  {
  }

  /** `strings.ContainsAny(s, chars)`. */
  predicate ContainsAny(s: string, chars: string) {
    exists i :: 0 <= i < |s| && s[i] in chars
  }

  /** `strings.IndexByte`, with |s| for "not there". */
  function Index(s: string, c: char): (i: nat)
    ensures i <= |s| && (forall j :: 0 <= j < i ==> s[j] != c) && (i < |s| ==> s[i] == c)
  {
    if s == "" || s[0] == c then 0 else 1 + Index(s[1..], c)
  }

  lemma IndexIsFirst(s: string, c: char, k: nat)
    requires k <= |s| && (forall j :: 0 <= j < k ==> s[j] != c) && (k < |s| ==> s[k] == c)
    ensures Index(s, c) == k
  {
  }

  /** `strings.Split(s, sep)` for a one-character separator. */
  function Split(s: string, sep: char): (parts: seq<string>)
    ensures |parts| >= 1
    decreases |s|
  {
    var i := Index(s, sep);
    if i == |s| then [s] else [s[..i]] + Split(s[i + 1..], sep)
  }

  /** `strings.Join(parts, sep)` for a one-character separator. */
  function Join(parts: seq<string>, sep: char): string {
    if |parts| == 0 then "" else if |parts| == 1 then parts[0]
    else parts[0] + [sep] + Join(parts[1..], sep)
  }

  lemma {:induction false} JoinSplit(s: string, sep: char)
    ensures Join(Split(s, sep), sep) == s
    ensures forall p <- Split(s, sep) :: sep !in p
    decreases |s|
  {
    var i := Index(s, sep);
    if i < |s| {
      JoinSplit(s[i + 1..], sep);
      assert s == s[..i] + [sep] + s[i + 1..];
    }
  }

  lemma {:induction false} SplitJoin(parts: seq<string>, sep: char)
    requires |parts| >= 1 && forall p <- parts :: sep !in p
    ensures Split(Join(parts, sep), sep) == parts
  {
    var s := Join(parts, sep);
    assert parts[0] in parts;
    if |parts| == 1 {
      IndexIsFirst(s, sep, |s|);
    } else {
      var rest := Join(parts[1..], sep);
      assert forall j :: 0 <= j < |parts[0]| ==> s[j] == parts[0][j];
      IndexIsFirst(s, sep, |parts[0]|);
      assert s[..|parts[0]|] == parts[0] && s[|parts[0]| + 1..] == rest;
      assert [parts[0]] + parts[1..] == parts;
      SplitJoin(parts[1..], sep);
    }
  }

  lemma {:induction false} JoinConcat(a: seq<string>, b: seq<string>, sep: char)
    requires |a| >= 1 && |b| >= 1
    ensures Join(a + b, sep) == Join(a, sep) + [sep] + Join(b, sep)
  {
    if |a| == 1 {
      assert (a + b)[1..] == b;
    } else {
      assert (a + b)[1..] == a[1..] + b;
      JoinConcat(a[1..], b, sep);
    }
  }

  lemma JoinAfter(x: string, parts: seq<string>, sep: char)
    requires |parts| >= 1
    ensures Join(parts[0 := x + parts[0]], sep) == x + Join(parts, sep)
  {
    assert parts[0 := x + parts[0]][1..] == parts[1..];
  }

  lemma {:induction false} JoinBefore(parts: seq<string>, y: string, sep: char)
    requires |parts| >= 1
    ensures var n := |parts| - 1; Join(parts[n := parts[n] + y], sep) == Join(parts, sep) + y
  {
    var n := |parts| - 1;
    if n > 0 {
      JoinBefore(parts[1..], y, sep);
      assert parts[n := parts[n] + y][1..] == parts[1..][n - 1 := parts[n] + y];
    }
  }

  lemma {:induction false} JoinEnds(parts: seq<string>, sep: char)
    requires |parts| >= 1 && parts[0] != "" && parts[|parts| - 1] != ""
    ensures var (s, last) := (Join(parts, sep), parts[|parts| - 1]);
            s != "" && s[0] == parts[0][0] && s[|s| - 1] == last[|last| - 1]
  {
    if |parts| > 1 {
      var last := parts[|parts| - 1];
      JoinBefore(parts[|parts| - 1 := ""], last, sep);
      assert "" + last == last;
      assert parts[|parts| - 1 := ""][|parts| - 1 := last] == parts;
    }
  }

  /** `strings.LastIndexByte`, -1 for "not there". */
  function LastIndex(s: string, c: char): (i: int)
    ensures -1 <= i < |s| && (i >= 0 ==> s[i] == c) && forall j :: i < j < |s| ==> s[j] != c
  {
    if s == "" then -1
    else if s[|s| - 1] == c then |s| - 1
    else LastIndex(s[..|s| - 1], c)
  }

  /** `strings.TrimPrefix`. */
  function TrimPrefix(s: string, p: string): string {
    if HasPrefix(s, p) then s[|p|..] else s
  }

  lemma JoinFour(a: string, b: string, c: string, d: string, sep: char)
    ensures Join([a, b, c, d], sep) == a + [sep] + b + [sep] + c + [sep] + d
  {
    assert [a, b, c, d][1..] == [b, c, d] && [b, c, d][1..] == [c, d] && [c, d][1..] == [d];
    assert Join([c, d], sep) == c + [sep] + d;
    assert Join([b, c, d], sep) == b + [sep] + c + [sep] + d;
  }

  lemma JoinTwo(a: string, b: string, sep: char)
    ensures Join([a, b], sep) == a + [sep] + b
  {
    assert [a, b][1..] == [b];
  }

  lemma SplitAt(s: string, sep: char, k: nat)
    requires k <= |s| && (forall j :: 0 <= j < k ==> s[j] != sep) && (k < |s| ==> s[k] == sep)
    ensures Split(s, sep) == if k == |s| then [s] else [s[..k]] + Split(s[k + 1..], sep)
  {
    IndexIsFirst(s, sep, k);
  }

  /** Splitting after a separator and splitting each side are the same. */
  lemma {:induction false} SplitConcat(a: string, b: string, sep: char)
    ensures Split(a + [sep] + b, sep) == Split(a, sep) + Split(b, sep)
    decreases |a|
  {
    hide Split, Index;
    var s := a + [sep] + b;
    var i := Index(a, sep);
    assert forall j :: 0 <= j < |a| ==> s[j] == a[j];
    SplitAt(a, sep, i);
    SplitAt(s, sep, i);
    assert s[..i] == a[..i];
    if i == |a| {
      assert s[i + 1..] == b && a[..i] == a;
    } else {
      var rest := a[i + 1..];
      assert s[i + 1..] == rest + [sep] + b;
      SplitConcat(rest, b, sep);
      assert [a[..i]] + (Split(rest, sep) + Split(b, sep)) == [a[..i]] + Split(rest, sep) + Split(b, sep);
    }
  }
}
