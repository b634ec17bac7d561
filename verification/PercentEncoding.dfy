/** Percent-encoding as `net/url` does it for paths (section 2.1 of RFC 3986), over bytes. */
module PercentEncoding {
  import opened Strings
  import opened Wrappers

  predicate IsBytes(s: string) { forall i :: 0 <= i < |s| ==> s[i] as int < 256 }

  /** Which characters stay as they are. */
  datatype Mode =
    | Segment       // url.PathEscape
    | Identifier    // url.PathEscape with ':' escaped as well
    | WholePath     // URL.EscapedPath

  predicate Unreserved(c: char) {
    'a' <= c <= 'z' || 'A' <= c <= 'Z' || '0' <= c <= '9' || c in "-_.~"
  }

  predicate ShouldEscape(c: char, mode: Mode) {
    if Unreserved(c) then false
    else match mode
         case Segment => c !in "$&+=:@"
         case Identifier => c !in "$&+=@"
         case WholePath => c !in "$&+,/:;=@"
  }

  function HexChar(n: nat): (c: char)
    requires n < 16
    ensures IsHex(c) && UnHex(c) == n && Unreserved(c)
  {
    "0123456789ABCDEF"[n]
  }

  predicate IsHex(c: char) { '0' <= c <= '9' || 'a' <= c <= 'f' || 'A' <= c <= 'F' }

  function UnHex(c: char): (n: nat)
    requires IsHex(c)
    ensures n < 16
  {
    if c <= '9' then c as int - '0' as int
    else if c <= 'F' then c as int - 'A' as int + 10
    else c as int - 'a' as int + 10
  }

  function EscapeByte(c: char, mode: Mode): string
    requires c as int < 256
  {
    if ShouldEscape(c, mode) then ['%', HexChar(c as int / 16), HexChar(c as int % 16)] else [c]
  }

  function Escape(s: string, mode: Mode): string
    requires IsBytes(s)
  {
    if s == "" then "" else EscapeByte(s[0], mode) + Escape(s[1..], mode)
  }

  /** How many characters stand for the first byte. */
  function FirstLength(s: string): nat
    requires s != ""
  {
    if s[0] == '%' then 3 else 1
  }

  /** The first byte, plain or as a percent sign and two hex digits. */
  function FirstByte(s: string): (c: Option<char>)
    requires s != ""
    ensures c.Some? ==> FirstLength(s) <= |s|
  {
    if s[0] != '%' then Some(s[0])
    else if |s| < 3 || !IsHex(s[1]) || !IsHex(s[2]) then None
    else Some((UnHex(s[1]) * 16 + UnHex(s[2])) as char)
  }

  /** `url.PathUnescape`. */
  function Unescape(s: string): Option<string> {
    if s == "" then Some("")
    else if FirstByte(s).None? then None
    else
      var rest := Unescape(s[FirstLength(s)..]);
      if rest.Some? then Some([FirstByte(s).value] + rest.value) else None
  }

  /** `strings.ReplaceAll(s, ":", "%3A")`. */
  function EscapeColons(s: string): string {
    if s == "" then "" else (if s[0] == ':' then "%3A" else [s[0]]) + EscapeColons(s[1..])
  }

  /** `escapeIdentifierPathSegment`. */
  function EscapeIdentifier(id: string): string
    requires IsBytes(id)
  {
    EscapeColons(Escape(id, Segment))
  }

  lemma {:induction false} EscapeColonsConcat(a: string, b: string)
    ensures EscapeColons(a + b) == EscapeColons(a) + EscapeColons(b)
  {
    if a == "" {
      assert a + b == b;
    } else {
      assert (a + b)[1..] == a[1..] + b;
      EscapeColonsConcat(a[1..], b);
    }
  }

  lemma EscapeColonsOfByte(c: char)
    requires c as int < 256
    ensures EscapeColons(EscapeByte(c, Segment)) == EscapeByte(c, Identifier)
  {
    var e := EscapeByte(c, Segment);
    if |e| == 3 {
      assert e[1..] == [e[1], e[2]] && [e[1], e[2]][1..] == [e[2]] && [e[2]][1..] == "";
      assert EscapeColons([e[2]]) == [e[2]];
      assert EscapeColons([e[1], e[2]]) == [e[1], e[2]];
      assert EscapeColons(e) == e;
    } else {
      assert e[1..] == "";
      assert EscapeColons(e) == if c == ':' then "%3A" else [c];
    }
  }

  lemma {:induction false} EscapeIdentifierIsEscape(id: string)
    requires IsBytes(id)
    ensures EscapeIdentifier(id) == Escape(id, Identifier)
  {
    if id != "" {
      EscapeColonsConcat(EscapeByte(id[0], Segment), Escape(id[1..], Segment));
      EscapeColonsOfByte(id[0]);
      EscapeIdentifierIsEscape(id[1..]);
    }
  }

  lemma FirstOfConcat(a: string, b: string)
    requires a != "" && FirstByte(a).Some?
    ensures FirstByte(a + b) == FirstByte(a) && FirstLength(a + b) == FirstLength(a)
    ensures (a + b)[FirstLength(a)..] == a[FirstLength(a)..] + b
  {
  }

  /** Decoding takes the first byte and goes on. */
  lemma UnescapeStep(s: string, rest: string)
    requires s != "" && FirstByte(s).Some? && s[FirstLength(s)..] == rest
    ensures Unescape(s) == if Unescape(rest).Some? then Some([FirstByte(s).value] + Unescape(rest).value) else None
  {
  }

  lemma {:induction false} UnescapeConcat(a: string, b: string)
    requires Unescape(a).Some? && Unescape(b).Some?
    ensures Unescape(a + b) == Some(Unescape(a).value + Unescape(b).value)
    decreases |a|
  {
    if a == "" {
      assert a + b == b && Unescape(a).value + Unescape(b).value == Unescape(b).value;
    } else {
      assert FirstByte(a).Some?;
      hide FirstByte, Unescape, FirstLength;
      var c, rest := FirstByte(a).value, a[FirstLength(a)..];
      FirstOfConcat(a, b);
      UnescapeStep(a, rest);
      UnescapeStep(a + b, rest + b);
      UnescapeConcat(rest, b);
      assert [c] + (Unescape(rest).value + Unescape(b).value) == ([c] + Unescape(rest).value) + Unescape(b).value;
    }
  }

  /** Decoding undoes encoding, whatever set of characters was escaped. */
  lemma {:induction false} EscapeRoundTrip(s: string, mode: Mode)
    requires IsBytes(s)
    ensures Unescape(Escape(s, mode)) == Some(s)
  {
    if s != "" {
      EscapeRoundTrip(s[1..], mode);
      UnescapeByte(s[0], mode);
      UnescapeConcat(EscapeByte(s[0], mode), Escape(s[1..], mode));
      assert s == [s[0]] + s[1..];
    }
  }

  lemma UnescapeByte(c: char, mode: Mode)
    requires c as int < 256
    ensures Unescape(EscapeByte(c, mode)) == Some([c])
  {
    var e := EscapeByte(c, mode);
    if |e| == 3 {
      assert e[3..] == "" && Unescape("") == Some("");
      assert [c] + "" == [c];
      assert (UnHex(e[1]) * 16 + UnHex(e[2])) as char == c;
    } else {
      assert e[1..] == "" && Unescape("") == Some("");
      assert [c] + "" == [c];
    }
  }

  const LOWER := ['0', '1', '2', '3', '4', '5', '6', '7', '8', '9', 'a', 'b', 'c', 'd', 'e', 'f']
  const UPPER := ['0', '1', '2', '3', '4', '5', '6', '7', '8', '9', 'A', 'B', 'C', 'D', 'E', 'F']

  /** c is the hex digit for n, in either case. */
  predicate HexDigit(c: char, n: nat) { n < 16 && (c == LOWER[n] || c == UPPER[n]) }

  /** An escape of any byte, its digits in either case, decodes to that byte. */
  lemma EscapesDecode(high: char, h: nat, low: char, l: nat, rest: string)
    requires HexDigit(high, h) && HexDigit(low, l) && Unescape(rest).Some?
    ensures Unescape(['%', high, low] + rest) == Some([(16 * h + l) as char] + Unescape(rest).value)
  {
    hide UnHex, HexDigit, IsHex;
    HexDigitReads(high, h);
    HexDigitReads(low, l);
    var s := ['%', high, low] + rest;
    assert s[3..] == rest && FirstByte(s) == Some((16 * h + l) as char);
  }

  /** Any other character stands for itself. */
  lemma PlainDecodes(c: char, rest: string)
    requires c != '%' && Unescape(rest).Some?
    ensures Unescape([c] + rest) == Some([c] + Unescape(rest).value)
  {
    assert ([c] + rest)[1..] == rest;
  }

  lemma HexDigitReads(c: char, n: nat)
    requires HexDigit(c, n)
    ensures IsHex(c) && UnHex(c) == n && c != '%'
  {
  }

  lemma HexDigitsAre(c: char)
    ensures IsHex(c) <==> c in LOWER + UPPER
  {
    if IsHex(c) { assert c == LOWER[UnHex(c)] || c == UPPER[UnHex(c)]; }
  }

  /** A percent sign at i with two hex digits after it. */
  predicate EscapeAt(s: string, i: nat) {
    i + 2 < |s| && s[i] == '%' && s[i + 1] in LOWER + UPPER && s[i + 2] in LOWER + UPPER
  }

  /** Every percent sign begins an escape. */
  predicate WellFormed(s: string) { forall i :: 0 <= i < |s| && s[i] == '%' ==> EscapeAt(s, i) }

  lemma FirstIsWellFormed(s: string)
    requires s != ""
    ensures FirstByte(s).Some? <==> s[0] == '%' ==> EscapeAt(s, 0)
    ensures FirstByte(s).Some? ==> forall i :: 0 < i < FirstLength(s) ==> s[i] != '%'
  {
    if |s| >= 3 { HexDigitsAre(s[1]); HexDigitsAre(s[2]); }
  }

  lemma WellFormedStep(s: string, k: nat)
    requires 0 < k <= |s| && forall i :: 0 < i < k ==> s[i] != '%'
    ensures WellFormed(s) <==> (s[0] == '%' ==> EscapeAt(s, 0)) && WellFormed(s[k..])
  {
    hide EscapeAt;
    var rest := s[k..];
    forall i | 0 <= i < |rest| ensures rest[i] == s[k + i] && (EscapeAt(rest, i) <==> EscapeAt(s, k + i)) {
      EscapeAtLater(s, k, i);
    }
    if (s[0] == '%' ==> EscapeAt(s, 0)) && WellFormed(rest) {
      forall i | 0 <= i < |s| && s[i] == '%' ensures EscapeAt(s, i) {
        if i >= k { assert rest[i - k] == '%'; }
      }
    }
  }

  /** What decodes is exactly what is well formed. */
  lemma {:induction false} DecodesIffWellFormed(s: string)
    ensures Unescape(s).Some? <==> WellFormed(s)
    decreases |s|
  {
    hide EscapeAt, FirstByte;
    if s != "" {
      FirstIsWellFormed(s);
      if FirstByte(s).Some? {
        WellFormedStep(s, FirstLength(s));
        DecodesIffWellFormed(s[FirstLength(s)..]);
      }
    }
  }

  lemma EscapeAtLater(s: string, k: nat, i: nat)
    requires k + i < |s|
    ensures EscapeAt(s[k..], i) <==> EscapeAt(s, k + i)
  {
    assert s[k..][i] == s[k + i];
    if i + 2 < |s| - k { assert s[k..][i + 1] == s[k + i + 1] && s[k..][i + 2] == s[k + i + 2]; }
  }

  /** Decoding yields bytes from bytes. */
  lemma {:induction false} UnescapeBytes(s: string)
    requires IsBytes(s) && Unescape(s).Some?
    ensures IsBytes(Unescape(s).value)
    decreases |s|
  {
    if s != "" { UnescapeBytes(s[FirstLength(s)..]); }
  }

  /** The parts of bytes are bytes, without separators. */
  lemma {:induction false} SplitBytes(s: string, sep: char)
    requires IsBytes(s)
    ensures forall p <- Split(s, sep) :: IsBytes(p) && sep !in p
    decreases |s|
  {
    var i := Index(s, sep);
    if i < |s| { SplitBytes(s[i + 1..], sep); }
  }

  lemma {:induction false} EscapeHasOnlySafe(s: string, mode: Mode)
    requires IsBytes(s)
    ensures forall i :: 0 <= i < |Escape(s, mode)| ==> Escape(s, mode)[i] == '%' || !ShouldEscape(Escape(s, mode)[i], mode)
    ensures s != "" ==> Escape(s, mode) != ""
  {
    if s != "" { EscapeHasOnlySafe(s[1..], mode); }
  }

  lemma {:induction false} EscapeConcat(a: string, b: string, mode: Mode)
    requires IsBytes(a) && IsBytes(b)
    ensures Escape(a + b, mode) == Escape(a, mode) + Escape(b, mode)
  {
    if a == "" {
      assert a + b == b;
    } else {
      assert (a + b)[1..] == a[1..] + b;
      EscapeConcat(a[1..], b, mode);
    }
  }

  /** Characters that need no escaping survive it, and no others appear unescaped. */
  lemma {:induction false} EscapeKeeps(s: string, mode: Mode, c: char)
    requires IsBytes(s) && !ShouldEscape(c, mode) && c != '%' && !IsHex(c)
    ensures c in Escape(s, mode) <==> c in s
  {
    if s != "" {
      EscapeKeeps(s[1..], mode, c);
      assert c in EscapeByte(s[0], mode) <==> s[0] == c;
      assert s == [s[0]] + s[1..];
    }
  }
}
