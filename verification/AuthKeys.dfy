/**
 `authCacheKey` of internal/storage/local_url.go: which requests share an
 authorization decision is decided by one string, so that string must tell
 them apart.
 */
module AuthKeys {
  import opened Digests
  import opened Strings

  datatype Tier = Anonymous | Authenticated {
    function Name(): string {
      if Anonymous? then "anonymous" else "authenticated"
    }
  }

  /** The values of the Authorization and the Cookie headers, in the order received. */
  datatype Headers = Headers(authorization: seq<string>, cookie: seq<string>)

  /** What a probe is about: where, for what, and with which credentials. */
  datatype Subject = Subject(tier: Tier, prefix: string, identifier: string, headers: Headers)

  // ---------- sorting header values ----------

  /** Byte order on strings. */
  predicate Le(a: string, b: string) {
    a == "" || (b != "" && (a[0] < b[0] || (a[0] == b[0] && Le(a[1..], b[1..]))))
  }

  lemma {:induction false} LeTotal(a: string, b: string)
    ensures Le(a, b) || Le(b, a)
    ensures Le(a, b) && Le(b, a) ==> a == b
  {
    if a != "" && b != "" && a[0] == b[0] {
      LeTotal(a[1..], b[1..]);
      assert a == [a[0]] + a[1..] && b == [b[0]] + b[1..];
    }
  }

  lemma {:induction false} LeTransitive(a: string, b: string, c: string)
    requires Le(a, b) && Le(b, c)
    ensures Le(a, c)
  {
    if a != "" && a[0] == b[0] == c[0] {
      LeTransitive(a[1..], b[1..], c[1..]);
    }
  }

  predicate Sorted(v: seq<string>) {
    forall i, j :: 0 <= i < j < |v| ==> Le(v[i], v[j])
  }

  function Insert(x: string, v: seq<string>): seq<string> {
    if v == [] || Le(x, v[0]) then [x] + v else [v[0]] + Insert(x, v[1..])
  }

  /** `slices.Sort`. */
  function Sort(v: seq<string>): seq<string> {
    if v == [] then [] else Insert(v[0], Sort(v[1..]))
  }

  lemma {:induction false} InsertSorted(x: string, v: seq<string>)
    requires Sorted(v)
    ensures Sorted(Insert(x, v)) && multiset(Insert(x, v)) == multiset(v) + multiset{x}
  {
    hide Le;
    if v != [] && Le(x, v[0]) {
      forall i | 0 <= i < |v| ensures Le(x, v[i]) {
        if i > 0 { LeTransitive(x, v[0], v[i]); }
      }
    } else if v != [] {
      InsertSorted(x, v[1..]);
      LeTotal(x, v[0]);
      var r := Insert(x, v[1..]);
      assert v == [v[0]] + v[1..];
      forall i | 0 <= i < |r| ensures Le(v[0], r[i]) {
        assert r[i] in multiset(r);
      }
    }
  }

  lemma {:induction false} SortSorts(v: seq<string>)
    ensures Sorted(Sort(v)) && multiset(Sort(v)) == multiset(v)
  {
    if v != [] {
      SortSorts(v[1..]);
      InsertSorted(v[0], Sort(v[1..]));
      assert v == [v[0]] + v[1..];
    }
  }

  lemma SortedHeadsAgree(v: seq<string>, w: seq<string>)
    requires Sorted(v) && Sorted(w) && multiset(v) == multiset(w) && v != []
    ensures w != [] && v[0] == w[0]
  {
    assert v[0] in multiset(w);
    assert w[0] in multiset(v);
    var i :| 0 <= i < |w| && w[i] == v[0];
    var j :| 0 <= j < |v| && v[j] == w[0];
    LeTotal(v[0], w[0]);
  }

  lemma {:induction false} SortedIsUnique(v: seq<string>, w: seq<string>)
    requires Sorted(v) && Sorted(w) && multiset(v) == multiset(w)
    ensures v == w
  {
    hide Le;
    if v == [] {
      assert |w| == |multiset(w)| == |multiset(v)|;
    } else {
      SortedHeadsAgree(v, w);
      assert v == [v[0]] + v[1..] && w == [w[0]] + w[1..];
      assert multiset(v[1..]) == multiset(v) - multiset{v[0]} == multiset(w[1..]);
      SortedIsUnique(v[1..], w[1..]);
    }
  }

  lemma SortKeepsMembers(v: seq<string>)
    ensures forall x :: x in Sort(v) <==> x in v
  {
    SortSorts(v);
    assert forall x :: x in v <==> x in multiset(v);
    assert forall x :: x in Sort(v) <==> x in multiset(Sort(v));
  }

  lemma SortOfSorted(v: seq<string>)
    requires Sorted(v)
    ensures Sort(v) == v
  {
    SortSorts(v);
    SortedIsUnique(v, Sort(v));
  }

  lemma SortIgnoresOrder(v: seq<string>, w: seq<string>)
    ensures Sort(v) == Sort(w) <==> multiset(v) == multiset(w)
  {
    SortSorts(v);
    SortSorts(w);
    if multiset(v) == multiset(w) { SortedIsUnique(Sort(v), Sort(w)); }
  }

  // ---------- the key ----------

  predicate NulFree(s: string) { '\0' !in s }

  /** The strings hashed one after the other, each followed by a NUL byte. */
  function Tokens(s: Subject): seq<string> {
    [s.tier.Name(), s.prefix, s.identifier, "Authorization"] + Sort(s.headers.authorization)
      + (["Cookie"] + Sort(s.headers.cookie))
  }

  function Terminated(tokens: seq<string>): string {
    if tokens == [] then "" else tokens[0] + "\0" + Terminated(tokens[1..])
  }

  function Preimage(s: Subject): string { Terminated(Tokens(s)) }

  function AuthCacheKey(hash: Digest, s: Subject): string {
    AuthCacheScope(hash, s.tier, s.prefix) + ":" + hash(Preimage(s))
  }

  /** `authCacheScope` of a key: everything before the first colon. */
  function AuthCacheScope(hash: Digest, tier: Tier, prefix: string): string {
    tier.Name() + "|" + hash(prefix)
  }

  predicate WellFormed(s: Subject) {
    && NulFree(s.prefix) && NulFree(s.identifier)
    && (forall v <- s.headers.authorization :: NulFree(v))
    && (forall v <- s.headers.cookie :: NulFree(v))
  }

  lemma FirstTerminator(a: seq<string>)
    requires a != [] && NulFree(a[0])
    ensures Index(Terminated(a), '\0') == |a[0]| && Terminated(a)[..|a[0]|] == a[0] && Terminated(a)[|a[0]| + 1..] == Terminated(a[1..])
  {
    var s := Terminated(a);
    assert forall j :: 0 <= j < |a[0]| ==> s[j] == a[0][j];
    IndexIsFirst(s, '\0', |a[0]|);
  }

  lemma {:induction false} TerminatedInjective(a: seq<string>, b: seq<string>)
    requires forall t <- a :: NulFree(t)
    requires forall t <- b :: NulFree(t)
    requires Terminated(a) == Terminated(b)
    ensures a == b
  {
    if a != [] && b != [] {
      var s := Terminated(a);
      assert a[0] in a && b[0] in b;
      FirstTerminator(a);
      FirstTerminator(b);
      assert a[0] == s[..|a[0]|] == b[0];
      assert Terminated(a[1..]) == s[|a[0]| + 1..] == Terminated(b[1..]);
      TerminatedInjective(a[1..], b[1..]);
      assert a == [a[0]] + a[1..] && b == [b[0]] + b[1..];
    }
  }

  lemma TokensNulFree(s: Subject)
    requires WellFormed(s)
    ensures forall t <- Tokens(s) :: NulFree(t)
  {
    hide Sort;
    SortKeepsMembers(s.headers.authorization);
    SortKeepsMembers(s.headers.cookie);
  }

  /** Two keys are equal exactly when the same strings were hashed. */
  lemma SameKeyIffSameTokens(hash: Digest, a: Subject, b: Subject)
    requires GoodDigest(hash) && WellFormed(a) && WellFormed(b)
    ensures AuthCacheKey(hash, a) == AuthCacheKey(hash, b) <==> Tokens(a) == Tokens(b)
  {
    TokensNulFree(a);
    TokensNulFree(b);
    var ka, kb := AuthCacheKey(hash, a), AuthCacheKey(hash, b);
    var sa, sb := AuthCacheScope(hash, a.tier, a.prefix), AuthCacheScope(hash, b.tier, b.prefix);
    if Tokens(a) == Tokens(b) {
      assert a.tier.Name() == Tokens(a)[0] == b.tier.Name() && a.prefix == Tokens(a)[1] == b.prefix;
    }
    if ka == kb {
      ScopeOfKey(hash, a);
      ScopeOfKey(hash, b);
      assert ka[|sa| + 1..] == hash(Preimage(a)) && kb[|sb| + 1..] == hash(Preimage(b));
      TerminatedInjective(Tokens(a), Tokens(b));
    }
  }

  lemma ScopeOfKey(hash: Digest, s: Subject)
    requires GoodDigest(hash)
    ensures var key := AuthCacheKey(hash, s);
            Index(key, ':') < |key| && key[..Index(key, ':')] == AuthCacheScope(hash, s.tier, s.prefix)
  {
    var key, scope := AuthCacheKey(hash, s), AuthCacheScope(hash, s.tier, s.prefix);
    assert HexString(hash(s.prefix));
    assert forall j :: 0 <= j < |scope| ==> key[j] == scope[j] && scope[j] != ':';
    IndexIsFirst(key, ':', |scope|);
  }

  // ---------- which subjects a key tells apart ----------

  predicate SameSubject(a: Subject, b: Subject) {
    && a.tier == b.tier && a.prefix == b.prefix && a.identifier == b.identifier
    && multiset(a.headers.authorization) == multiset(b.headers.authorization)
    && multiset(a.headers.cookie) == multiset(b.headers.cookie)
  }

  /** The order in which header values arrive does not matter. */
  lemma KeyIgnoresHeaderOrder(hash: Digest, a: Subject, b: Subject)
    requires SameSubject(a, b)
    ensures AuthCacheKey(hash, a) == AuthCacheKey(hash, b)
  {
    SortIgnoresOrder(a.headers.authorization, b.headers.authorization);
    SortIgnoresOrder(a.headers.cookie, b.headers.cookie);
  }

  const COOKIE := "Cookie"

  /** A header value that reads `Cookie` sits where the two sorted lists meet, so the boundary between
      them can be read in two places. */
  predicate Ambiguous(h: Headers) {
    var a, c := Sort(h.authorization), Sort(h.cookie);
    || (a != [] && a[|a| - 1] == COOKIE && (c == [] || Le(COOKIE, c[0])))
    || (c != [] && c[0] == COOKIE && (a == [] || Le(a[|a| - 1], COOKIE)))
  }

  /** The part of two equal token lists that can differ: where the Authorization values end. */
  lemma BoundaryMoves(a: seq<string>, c: seq<string>, a': seq<string>, c': seq<string>)
    requires Sorted(a) && Sorted(c) && Sorted(a') && Sorted(c')
    requires a + ([COOKIE] + c) == a' + ([COOKIE] + c') && |a| < |a'|
    ensures c != [] && c[0] == COOKIE && (a == [] || Le(a[|a| - 1], COOKIE))
    ensures a' != [] && a'[|a'| - 1] == COOKIE && (c' == [] || Le(COOKIE, c'[0]))
  {
    var l := a + ([COOKIE] + c);
    var n := |a'|;
    assert l[|a|] == COOKIE == a'[|a|] && l[n] == COOKIE == c[n - |a| - 1];
    assert c[0] == l[|a| + 1];
    assert a'[n - 1] == l[n - 1];
    if |a| + 1 < n {
      assert c[0] == a'[|a| + 1] && Le(COOKIE, c[0]);
      assert Le(c[0], c[n - |a| - 1]);
      LeTotal(COOKIE, c[0]);
      assert n - 1 == |a| + 1 || Le(c[0], c[n - |a| - 2]);
      assert a'[n - 1] == c[n - |a| - 2];
      assert Le(a'[|a|], a'[n - 1]) && Le(c[n - |a| - 2], c[n - |a| - 1]);
      LeTotal(COOKIE, a'[n - 1]);
    }
    if a != [] { assert a'[|a| - 1] == l[|a| - 1] == a[|a| - 1]; }
    if c' != [] { assert c'[0] == l[n + 1] == c[n - |a|]; }
  }

  /** A key identifies its subject exactly when no header value `Cookie` sits at the boundary; for such a
      subject any other with the same key is the same up to the order of header values. */
  lemma KeyIdentifiesUnlessAmbiguous(hash: Digest, s: Subject)
    requires GoodDigest(hash) && WellFormed(s)
    ensures !Ambiguous(s.headers) <==>
            forall t :: WellFormed(t) && AuthCacheKey(hash, t) == AuthCacheKey(hash, s) ==> SameSubject(t, s)
  {
    if Ambiguous(s.headers) {
      var t := Confused(s);
      ConfusedSharesKey(hash, s);
    } else {
      forall t | WellFormed(t) && AuthCacheKey(hash, t) == AuthCacheKey(hash, s)
        ensures SameSubject(t, s)
      {
        UnambiguousIsIdentified(hash, s, t);
      }
    }
  }

  /** What equal tokens say about the sorted header values. */
  lemma TokensSplit(s: Subject, t: Subject)
    requires Tokens(s) == Tokens(t)
    ensures s.tier == t.tier && s.prefix == t.prefix && s.identifier == t.identifier
    ensures Sort(s.headers.authorization) + ([COOKIE] + Sort(s.headers.cookie))
         == Sort(t.headers.authorization) + ([COOKIE] + Sort(t.headers.cookie))
  {
    hide Sort;
    var x, y := Tokens(s), Tokens(t);
    assert x[4..] == Sort(s.headers.authorization) + ([COOKIE] + Sort(s.headers.cookie));
    assert y[4..] == Sort(t.headers.authorization) + ([COOKIE] + Sort(t.headers.cookie));
    assert x[0] == y[0] && x[1] == y[1] && x[2] == y[2];
  }

  /** With the same key and the boundary in the same place, the subjects are the same. */
  lemma SameBoundarySameSubject(s: Subject, t: Subject)
    requires Tokens(s) == Tokens(t) && |Sort(s.headers.authorization)| == |Sort(t.headers.authorization)|
    ensures SameSubject(t, s)
  {
    hide Sort, Tokens;
    TokensSplit(s, t);
    var n := |Sort(s.headers.authorization)|;
    var l := Sort(s.headers.authorization) + ([COOKIE] + Sort(s.headers.cookie));
    assert Sort(s.headers.authorization) == l[..n] == Sort(t.headers.authorization);
    assert Sort(s.headers.cookie) == l[n + 1..] == Sort(t.headers.cookie);
    SortIgnoresOrder(s.headers.authorization, t.headers.authorization);
    SortIgnoresOrder(s.headers.cookie, t.headers.cookie);
  }

  lemma UnambiguousIsIdentified(hash: Digest, s: Subject, t: Subject)
    requires GoodDigest(hash) && WellFormed(s) && WellFormed(t) && !Ambiguous(s.headers)
    requires AuthCacheKey(hash, t) == AuthCacheKey(hash, s)
    ensures SameSubject(t, s)
  {
    hide Tokens, Le, Sort, Sorted;
    SameKeyIffSameTokens(hash, s, t);
    TokensSplit(s, t);
    var a, c := Sort(s.headers.authorization), Sort(s.headers.cookie);
    var a', c' := Sort(t.headers.authorization), Sort(t.headers.cookie);
    SortSorts(s.headers.authorization); SortSorts(s.headers.cookie);
    SortSorts(t.headers.authorization); SortSorts(t.headers.cookie);
    if |a| < |a'| { BoundaryMoves(a, c, a', c'); }
    if |a'| < |a| { BoundaryMoves(a', c', a, c); }
    SameBoundarySameSubject(s, t);
  }

  /** In particular, subjects whose Authorization values are never the literal `Cookie` have the same key
      exactly when they are the same up to the order of header values. */
  lemma KeysIdentifyCredentials(hash: Digest, s: Subject, t: Subject)
    requires GoodDigest(hash) && WellFormed(s) && WellFormed(t)
    requires COOKIE !in s.headers.authorization && COOKIE !in t.headers.authorization
    ensures AuthCacheKey(hash, t) == AuthCacheKey(hash, s) <==> SameSubject(t, s)
  {
    hide Tokens, Le, Sort, Sorted;
    if SameSubject(t, s) { KeyIgnoresHeaderOrder(hash, t, s); }
    if AuthCacheKey(hash, t) == AuthCacheKey(hash, s) {
      SameKeyIffSameTokens(hash, s, t);
      TokensSplit(s, t);
      var a, c := Sort(s.headers.authorization), Sort(s.headers.cookie);
      var a', c' := Sort(t.headers.authorization), Sort(t.headers.cookie);
      SortSorts(s.headers.authorization); SortSorts(s.headers.cookie);
      SortSorts(t.headers.authorization); SortSorts(t.headers.cookie);
      if |a| < |a'| {
        BoundaryMoves(a, c, a', c');
        SortKeepsMembers(t.headers.authorization);
        assert false;
      }
      if |a'| < |a| {
        BoundaryMoves(a', c', a, c);
        SortKeepsMembers(s.headers.authorization);
        assert false;
      }
      SameBoundarySameSubject(s, t);
    }
  }

  /** A different subject with the same key: the boundary moved over the ambiguous value. */
  function Confused(s: Subject): Subject
    requires Ambiguous(s.headers)
  {
    var a, c := Sort(s.headers.authorization), Sort(s.headers.cookie);
    s.(headers :=
      if a != [] && a[|a| - 1] == COOKIE && (c == [] || Le(COOKIE, c[0]))
      then Headers(a[..|a| - 1], [COOKIE] + c)
      else Headers(a + [COOKIE], c[1..]))
  }

  lemma ConfusedIsSorted(s: Subject)
    requires Ambiguous(s.headers)
    ensures var h := Confused(s).headers;
            Sort(h.authorization) == h.authorization && Sort(h.cookie) == h.cookie
  {
    hide Sort, Le;
    var a, c := Sort(s.headers.authorization), Sort(s.headers.cookie);
    var h := Confused(s).headers;
    SortSorts(s.headers.authorization);
    SortSorts(s.headers.cookie);
    if h.cookie == [COOKIE] + c {
      forall i | 0 <= i < |c| ensures Le(COOKIE, c[i]) {
        if i > 0 { LeTransitive(COOKIE, c[0], c[i]); }
      }
    } else {
      forall i | 0 <= i < |a| ensures Le(a[i], COOKIE) {
        if i < |a| - 1 { LeTransitive(a[i], a[|a| - 1], COOKIE); }
      }
    }
    SortOfSorted(h.authorization);
    SortOfSorted(h.cookie);
  }

  lemma ConfusedSharesKey(hash: Digest, s: Subject)
    requires GoodDigest(hash) && WellFormed(s) && Ambiguous(s.headers)
    ensures var t := Confused(s);
            WellFormed(t) && AuthCacheKey(hash, t) == AuthCacheKey(hash, s) && !SameSubject(t, s)
  {
    hide Sort, Le;
    var a, c := Sort(s.headers.authorization), Sort(s.headers.cookie);
    var t := Confused(s);
    ConfusedIsSorted(s);
    SortKeepsMembers(s.headers.authorization);
    SortKeepsMembers(s.headers.cookie);
    assert Tokens(s) == Tokens(t);
    SortSorts(s.headers.authorization);
    assert |multiset(s.headers.authorization)| == |multiset(a)| == |a|;
    assert |multiset(t.headers.authorization)| == |t.headers.authorization|;
  }

  // ---------- keys of shared downloads ----------

  datatype Operation = OpenSource | ReadMeta {
    function Name(): string {
      if OpenSource? then "open" else "meta"
    }
  }

  predicate HasAuthHeaders(h: Headers) { h.authorization != [] || h.cookie != [] }

  /** The credentials a shared fetch is made with. */
  function FallbackSubject(prefix: string, identifier: string, headers: Headers): Subject {
    if HasAuthHeaders(headers) then Subject(Authenticated, prefix, identifier, headers)
    else Subject(Anonymous, prefix, identifier, Headers([], []))
  }

  /** `authFallbackKey`. */
  function AuthFallbackKey(hash: Digest, op: Operation, prefix: string, identifier: string, headers: Headers): string {
    "auth-fallback|" + op.Name() + "|" + AuthCacheKey(hash, FallbackSubject(prefix, identifier, headers))
  }

  /** Callers share one upstream fetch only when they ask the same thing of the same source with the same credentials. */
  lemma SharedFetchSameCredentials(hash: Digest, op: Operation, prefix: string, id: string, h: Headers,
                                   op': Operation, prefix': string, id': string, h': Headers)
    requires GoodDigest(hash)
    requires WellFormed(Subject(Authenticated, prefix, id, h)) && WellFormed(Subject(Authenticated, prefix', id', h'))
    requires COOKIE !in h.authorization && COOKIE !in h'.authorization
    ensures AuthFallbackKey(hash, op, prefix, id, h) == AuthFallbackKey(hash, op', prefix', id', h') <==>
            && op == op' && prefix == prefix' && id == id'
            && multiset(h.authorization) == multiset(h'.authorization) && multiset(h.cookie) == multiset(h'.cookie)
  {
    hide AuthCacheKey;
    var s, s' := FallbackSubject(prefix, id, h), FallbackSubject(prefix', id', h');
    var k, k' := AuthFallbackKey(hash, op, prefix, id, h), AuthFallbackKey(hash, op', prefix', id', h');
    KeysIdentifyCredentials(hash, s, s');
    assert k[14..18] == op.Name() && k'[14..18] == op'.Name();
    assert k[19..] == AuthCacheKey(hash, s) && k'[19..] == AuthCacheKey(hash, s');
    assert op.Name()[0] == op'.Name()[0] ==> op == op';
    assert |multiset(h.authorization)| == |h.authorization| && |multiset(h.cookie)| == |h.cookie|;
    assert |multiset(h'.authorization)| == |h'.authorization| && |multiset(h'.cookie)| == |h'.cookie|;
  }
}
