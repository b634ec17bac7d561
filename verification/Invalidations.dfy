/**
 Cache invalidation of internal/iiif/image/v3/handler/handler.go. An invalidation
 stores a marker for its identifier; a request reads the marker, looks its key up
 and, on a miss, stores what it rendered. Each of these is one step, so that any
 number of requests and invalidations interleave; every step has its own moment on
 one strictly increasing clock.
 */
module Invalidations {
  import opened CacheFiles
  import opened Decimals
  import opened Digests
  import opened DocumentStore
  import opened DerivativeKeys
  import opened ImageRequests
  import opened Int64
  import opened Strings
  import opened Wrappers

  /** How `time.RFC3339Nano` shows a moment: any short text that tells moments apart. */
  type Stamp = int -> string

  ghost predicate GoodStamp(stamp: Stamp) {
    && (forall a, b :: stamp(a) == stamp(b) ==> a == b)
    && (forall a :: 0 < |stamp(a)| <= 256 && TrimSpace(stamp(a)) == stamp(a) && '#' !in stamp(a) && '/' !in stamp(a))
  }

  /** `began` is history only: when the request that stored the entry read its marker. */
  datatype Entry = Entry(body: string, storedAt: int, began: int)

  datatype Stage =
    | Keyed                                   // marker read, key fixed
    | Missed                                  // nothing in the cache
    | FromCache(entry: Entry, at: int)        // answered by a cache hit
    | Rendered                                // answered after storing

  datatype Call = Call(req: Request, version: string, invalidation: string, began: int, stage: Stage)

  /** An invalidation first takes its version from the clock, then stores the marker. */
  datatype Invalidation = Invalidation(identifier: string, drawn: int, marked: Option<int>)

  datatype Sys = Sys(now: int, cache: map<string, Entry>, calls: map<nat, Call>, invalidations: map<nat, Invalidation>)

  datatype Event =
    | Read(at: int, call: nat, req: Request, version: string)   // without a version nothing is cached
    | Look(at: int, call: nat)
    | Store(at: int, call: nat, body: string)
    | Draw(at: int, inv: nat, identifier: string)
    | Mark(at: int, inv: nat)
    | Clean(at: int, gone: set<string>)       // a cleanup pass

  function Lookup(maxAge: int, cache: map<string, Entry>, key: string, now: int): Option<Entry> {
    if key in cache && !Expired(maxAge, cache[key].storedAt, now) then Some(cache[key]) else None
  }

  /** `derivativeInvalidationVersion`. */
  function InvalidationVersion(maxAge: int, stamp: Stamp, cache: map<string, Entry>, identifier: string, now: int): string {
    var marker := Lookup(maxAge, cache, MarkerKey(identifier), now);
    if marker.None? then "" else
    var body := marker.value.body;
    var version := TrimSpace(if |body| > 256 then body[..256] else body);
    if version != "" then version
    else if marker.value.storedAt != ZERO_TIME then stamp(marker.value.storedAt) else ""
  }

  predicate Enabled(maxAge: int, s: Sys, e: Event) {
    && s.now < e.at
    && match e
       case Read(_, r, req, version) => r !in s.calls && req.Image? && version != ""
       case Look(_, r) => r in s.calls && s.calls[r].stage.Keyed?
       case Store(_, r, _) => r in s.calls && s.calls[r].stage.Missed?
       case Draw(_, i, _) => i !in s.invalidations
       case Mark(_, i) => i in s.invalidations && s.invalidations[i].marked.None?
       case Clean(at, gone) => gone <= s.cache.Keys && forall k <- gone :: Expired(maxAge, s.cache[k].storedAt, at)
  }

  function KeyOf(c: Call): string
    requires c.req.Image?
  {
    FullKey(c.req, c.version, c.invalidation)
  }

  ghost predicate CallsAreImages(s: Sys) { forall r <- s.calls :: s.calls[r].req.Image? }

  function Next(maxAge: int, stamp: Stamp, s: Sys, e: Event): Sys
    requires Enabled(maxAge, s, e) && forall r <- s.calls :: s.calls[r].req.Image?
  {
    var s := s.(now := e.at);
    match e
    case Read(at, r, req, version) =>
      s.(calls := s.calls[r := Call(req, version, InvalidationVersion(maxAge, stamp, s.cache, req.identifier, at), at, Keyed)])
    case Look(at, r) =>
      var found := Lookup(maxAge, s.cache, KeyOf(s.calls[r]), at);
      s.(calls := s.calls[r := s.calls[r].(stage := if found.Some? then FromCache(found.value, at) else Missed)])
    case Store(at, r, body) =>
      s.(cache := s.cache[KeyOf(s.calls[r]) := Entry(body, at, s.calls[r].began)],
         calls := s.calls[r := s.calls[r].(stage := Rendered)])
    case Draw(at, i, identifier) => s.(invalidations := s.invalidations[i := Invalidation(identifier, at, None)])
    case Mark(at, i) =>
      var inv := s.invalidations[i];
      s.(cache := s.cache[MarkerKey(inv.identifier) := Entry(stamp(inv.drawn), at, at)],
         invalidations := s.invalidations[i := inv.(marked := Some(at))])
    case Clean(at, gone) => s.(cache := s.cache - gone)
  }

  function Init(now: int): Sys { Sys(now, map[], map[], map[]) }

  function Exec(maxAge: int, stamp: Stamp, start: int, es: seq<Event>): (s: Option<Sys>)
    ensures s.Some? ==> forall r <- s.value.calls :: s.value.calls[r].req.Image?
  {
    if es == [] then Some(Init(start))
    else
      var before := Exec(maxAge, stamp, start, es[..|es| - 1]);
      var e := es[|es| - 1];
      if before.Some? && Enabled(maxAge, before.value, e) then Some(Next(maxAge, stamp, before.value, e)) else None
  }

  // ---------- the invariant ----------

  /** When an invalidation can take its version from the clock. */
  predicate Moment(t: int) { t > ZERO_TIME + 1 }

  /** A version that cannot be mistaken for the key of a marker or for the trace of an invalidation. */
  ghost predicate Foreign(stamp: Stamp, version: string) {
    !HasSuffix(version, MARKER) && forall t :: Moment(t) ==> !HasSuffix(version, "#invalidate=" + stamp(t))
  }

  ghost predicate ForeignVersions(stamp: Stamp, es: seq<Event>) {
    forall i :: 0 <= i < |es| && es[i].Read? ==> Foreign(stamp, es[i].version)
  }

  lemma PlainVersionsAreForeign(stamp: Stamp, version: string)
    requires '#' !in version && !HasSuffix(version, MARKER)
    ensures Foreign(stamp, version)
  {
    forall t ensures !HasSuffix(version, "#invalidate=" + stamp(t)) {
      assert ("#invalidate=" + stamp(t))[0] == '#';
    }
  }

  /** The most a single version may look like a trace: what is before the trace is not foreign itself, so that
      no foreign version leads to the same key. */
  ghost predicate Tolerable(stamp: Stamp, version: string) {
    && !HasSuffix(version, MARKER)
    && forall t, v :: Moment(t) && version == v + ("#invalidate=" + stamp(t)) ==> !Foreign(stamp, v)
  }

  lemma ForeignIsTolerable(stamp: Stamp, version: string)
    requires Foreign(stamp, version)
    ensures Tolerable(stamp, version)
  {
    forall t, v | Moment(t) ensures version != v + ("#invalidate=" + stamp(t)) {
      SuffixOfConcat(v, "#invalidate=" + stamp(t));
    }
  }

  lemma ForeignEndsInNoMarker(stamp: Stamp, version: string)
    requires Foreign(stamp, version)
    ensures !HasSuffix(version, MARKER)
  {
  }

  ghost predicate Admissible(stamp: Stamp, odd: string, version: string) { Foreign(stamp, version) || version == odd }

  /** All versions of the run are foreign, but for one odd one. */
  ghost predicate OddVersions(stamp: Stamp, odd: string, es: seq<Event>) {
    forall i :: 0 <= i < |es| && es[i].Read? ==> Admissible(stamp, odd, es[i].version)
  }

  predicate MarkedFor(v: Invalidation, identifier: string) { v.identifier == identifier && v.marked.Some? }

  ghost predicate TimesInv(start: int, s: Sys) {
    && ZERO_TIME < start <= s.now
    && (forall k <- s.cache :: start <= s.cache[k].storedAt <= s.now)
    && (forall r <- s.calls :: start <= s.calls[r].began <= s.now)
    && (forall i <- s.invalidations :: start < s.invalidations[i].drawn <= s.now)
    && (forall i <- s.invalidations :: s.invalidations[i].marked.Some? ==> start <= s.invalidations[i].marked.value <= s.now)
    && (forall i, j :: i in s.invalidations && j in s.invalidations && s.invalidations[i].drawn == s.invalidations[j].drawn ==> i == j)
  }

  /** v is a marked invalidation before `time`. */
  ghost predicate Before(s: Sys, i: nat, identifier: string, time: int) {
    i in s.invalidations && MarkedFor(s.invalidations[i], identifier) && s.invalidations[i].marked.value < time
  }

  /** A marker was stored by an invalidation of its identifier. */
  ghost predicate MarkerFrom(stamp: Stamp, s: Sys, id: string, e: Entry) {
    exists i :: i in s.invalidations && s.invalidations[i].identifier == id && s.invalidations[i].marked == Some(e.storedAt)
                && e.body == stamp(s.invalidations[i].drawn)
  }

  /** The marker is at least as recent as every invalidation of its identifier that has not expired. */
  ghost predicate MarkersInv(maxAge: int, stamp: Stamp, s: Sys) {
    && (forall id :: MarkerKey(id) in s.cache ==> MarkerFrom(stamp, s, id, s.cache[MarkerKey(id)]))
    && (forall i <- s.invalidations :: s.invalidations[i].marked.Some? ==>
          var id, m := s.invalidations[i].identifier, s.invalidations[i].marked.value;
          || (MarkerKey(id) in s.cache && m <= s.cache[MarkerKey(id)].storedAt)
          || Expired(maxAge, m, s.now))
  }

  /** The invalidation drawn at t was marked before `time`. */
  ghost predicate DrawnAndMarked(s: Sys, t: int, time: int) {
    exists i :: i in s.invalidations && s.invalidations[i].drawn == t && s.invalidations[i].marked.Some? && s.invalidations[i].marked.value < time
  }

  /** A key made with the odd version and no invalidation. */
  ghost predicate OddKey(k: string, odd: string) {
    exists req: Request :: req.Image? && k == DerivativeKey(req) + "#source=" + odd
  }

  /** An entry under an invalidation's key was stored, and its request begun, after that invalidation, unless the
      key only looks like one. */
  ghost predicate EntriesInv(stamp: Stamp, odd: string, s: Sys) {
    forall k, t | k in s.cache && Moment(t) && HasSuffix(k, "#invalidate=" + stamp(t)) ::
      OddKey(k, odd) || (DrawnAndMarked(s, t, s.cache[k].storedAt) && DrawnAndMarked(s, t, s.cache[k].began))
  }

  /** What call c knows of invalidation i, marked before it began: that one or a later one is in its key,
      or it had expired. */
  ghost predicate Knows(maxAge: int, stamp: Stamp, s: Sys, c: Call, i: nat)
    requires i in s.invalidations && s.invalidations[i].marked.Some?
  {
    || Expired(maxAge, s.invalidations[i].marked.value, c.began)
    || exists j :: Before(s, j, c.req.identifier, c.began) && c.invalidation == stamp(s.invalidations[j].drawn)
                   && s.invalidations[i].marked.value <= s.invalidations[j].marked.value
  }

  /** The invalidation in a call's key had not expired when it was read. */
  ghost predicate KeyFrom(maxAge: int, stamp: Stamp, s: Sys, c: Call) {
    c.invalidation != "" ==>
      exists j :: Before(s, j, c.req.identifier, c.began) && c.invalidation == stamp(s.invalidations[j].drawn)
                  && !Expired(maxAge, s.invalidations[j].marked.value, c.began)
  }

  ghost predicate CallsInv(maxAge: int, stamp: Stamp, odd: string, s: Sys) {
    && (forall r <- s.calls :: s.calls[r].req.Image? && Admissible(stamp, odd, s.calls[r].version) && KeyFrom(maxAge, stamp, s, s.calls[r]))
    && (forall r, i :: r in s.calls && Before(s, i, s.calls[r].req.identifier, s.calls[r].began) ==>
          Knows(maxAge, stamp, s, s.calls[r], i))
  }

  /** A hit is on an entry stored after every invalidation the call came after; and begun after it as
      well, unless the invalidation had expired. */
  ghost predicate HitsInv(maxAge: int, s: Sys) {
    forall r, i :: r in s.calls && s.calls[r].stage.FromCache? && Before(s, i, s.calls[r].req.identifier, s.calls[r].began) ==>
      var m := s.invalidations[i].marked.value;
      && m < s.calls[r].stage.entry.storedAt
      && (m < s.calls[r].stage.entry.began || Expired(maxAge, m, s.calls[r].began))
  }

  ghost predicate Inv(maxAge: int, stamp: Stamp, odd: string, start: int, s: Sys) {
    TimesInv(start, s) && MarkersInv(maxAge, stamp, s) && EntriesInv(stamp, odd, s) && CallsInv(maxAge, stamp, odd, s) && HitsInv(maxAge, s)
  }

  // ---------- keys ----------

  /** A key ends in an invalidation's trace exactly when it was composed with it, or with none and a version
      that does. */
  lemma TraceOfKey(stamp: Stamp, c: Call, t: int)
    requires GoodStamp(stamp) && c.req.Image?
    requires c.invalidation == "" || exists d :: c.invalidation == stamp(d)
    ensures HasSuffix(KeyOf(c), "#invalidate=" + stamp(t)) <==>
            c.invalidation == stamp(t) || (c.invalidation == "" && HasSuffix(c.version, "#invalidate=" + stamp(t)))
  {
    hide TrimSpace, DerivativeKey, HasSuffix;
    var k := DerivativeKey(c.req);
    assert stamp(t) != "";
    if c.invalidation == "" {
      assert KeyOf(c) == k + "#source=" + c.version;
      TraceWithin(k, c.version, stamp(t));
    } else {
      var head := k + "#source=" + c.version;
      assert KeyOf(c) == head + "#" + ("invalidate=" + c.invalidation);
      LastTrace(head, c.invalidation, stamp(t));
    }
  }

  /** "#source=" and a version bring no trace about, unless the version does. */
  lemma TraceWithin(k: string, version: string, i: string)
    requires '#' !in i
    ensures HasSuffix(k + "#source=" + version, "#invalidate=" + i) <==> HasSuffix(version, "#invalidate=" + i)
  {
    hide HasSuffix;
    var trace, key := "#invalidate=" + i, k + "#source=" + version;
    if |trace| <= |version| {
      LongSuffix(k + "#source=", version, trace);
    } else {
      ShortVersion(k, version, i);
      NotLonger(version, trace);
    }
  }

  lemma LongSuffix(head: string, tail: string, suffix: string)
    requires |suffix| <= |tail|
    ensures HasSuffix(head + tail, suffix) <==> HasSuffix(tail, suffix)
  {
    var s := head + tail;
    assert s[|s| - |suffix|..] == tail[|tail| - |suffix|..];
  }

  lemma NotLonger(s: string, suffix: string)
    requires |suffix| > |s|
    ensures !HasSuffix(s, suffix)
  {
  }

  lemma ShortVersion(k: string, version: string, i: string)
    requires '#' !in i && |version| < |"#invalidate=" + i|
    ensures !HasSuffix(k + "#source=" + version, "#invalidate=" + i)
  {
    hide HasSuffix;
    var t := "invalidate=" + i;
    var key := k + "#source=" + version;
    assert "#invalidate=" + i == "#" + t && '#' !in t;
    if HasSuffix(key, "#" + t) {
      TailOfSuffix(k + "#source=", version, t);
      assert key == k + "#" + ("source=" + version);
      Words(version, i);
      var p := BeforeSuffix(key, t);
      SameLastPart(k, "source=" + version, p, t);
    }
  }

  lemma TailOfSuffix(head: string, tail: string, t: string)
    requires HasSuffix(head + tail, "#" + t) && |tail| <= |t|
    ensures '#' !in t ==> '#' !in tail
  {
    var s := head + tail;
    assert s[|s| - |t| - 1..][1..] == t;
    assert forall j :: 0 <= j < |tail| ==> tail[j] == s[|head| + j] && s[|head| + j] == t[|t| - |tail| + j];
  }

  lemma BeforeSuffix(s: string, t: string) returns (p: string)
    requires HasSuffix(s, "#" + t)
    ensures s == p + "#" + t
  {
    p := s[..|s| - |t| - 1];
  }

  lemma LastTrace(head: string, i: string, j: string)
    requires '#' !in i && '#' !in j
    ensures HasSuffix(head + "#" + ("invalidate=" + i), "#invalidate=" + j) <==> i == j
  {
    var key, trace := head + "#" + ("invalidate=" + i), "#invalidate=" + j;
    if HasSuffix(key, trace) {
      assert key == key[..|key| - |trace|] + "#" + ("invalidate=" + j);
      SameLastPart(head, "invalidate=" + i, key[..|key| - |trace|], "invalidate=" + j);
      SameTail("invalidate=", i, j);
    }
    if i == j { assert key == head + trace; }
  }

  /** No call stores under a marker's key. */
  lemma MarkerKeysAreApart(stamp: Stamp, c: Call, id: string)
    requires GoodStamp(stamp) && c.req.Image? && !HasSuffix(c.version, MARKER)
    requires c.invalidation == "" || exists d :: c.invalidation == stamp(d)
    ensures KeyOf(c) != MarkerKey(id)
  {
    hide TrimSpace, DerivativeKey, FullKey, HasSuffix;
    MarkerCollision(c.req, c.version, c.invalidation);
    assert MARKER[0] == '/';
    if c.invalidation != "" { NoSuffixWithout(c.invalidation, MARKER, '/'); }
  }

  lemma NoTraceOnMarkers(stamp: Stamp, id: string, t: int)
    requires GoodStamp(stamp)
    ensures !HasSuffix(MarkerKey(id), "#invalidate=" + stamp(t))
  {
    hide TrimSpace, HasSuffix;
    var trace, key := "#invalidate=" + stamp(t), MarkerKey(id);
    assert key[|key| - 13] == '/';
    assert '/' !in "#invalidate=" && '/' !in trace;
    SuffixChar(key, trace, 13);
  }

  lemma SuffixChar(s: string, suffix: string, k: nat)
    requires 0 < k <= |suffix|
    ensures HasSuffix(s, suffix) ==> s[|s| - k] == suffix[|suffix| - k]
  {
    if |suffix| <= |s| { assert s[|s| - |suffix|..][|suffix| - k] == s[|s| - k]; }
  }

  /** No key ends both in w and in w followed by a trace, each after "#source=". */
  lemma {:induction false} NoDescent(p: string, q: string, w: string, i: string)
    requires '#' !in i
    ensures p + "#source=" + w != q + "#source=" + w + ("#invalidate=" + i)
    decreases |w|
  {
    hide HasSuffix;
    var trace := "#invalidate=" + i;
    if p + "#source=" + w == q + "#source=" + w + trace {
      SuffixOfConcat(q + "#source=" + w, trace);
      TraceWithin(p, w, i);
      var shorter := Cut(w, trace);
      Uncut(p + "#source=", shorter, trace);
      Uncut(q + "#source=", shorter, trace);
      SameHead(p + "#source=" + shorter, q + "#source=" + shorter + trace, trace);
      NoDescent(p, q, shorter, i);
    }
  }

  lemma Cut(w: string, suffix: string) returns (head: string)
    requires HasSuffix(w, suffix)
    ensures w == head + suffix
  {
    head := w[..|w| - |suffix|];
  }

  lemma Uncut(a: string, b: string, c: string)
    ensures a + (b + c) == a + b + c
  {
  }

  lemma SameHead(a: string, b: string, tail: string)
    requires a + tail == b + tail
    ensures a == b
  {
    SuffixOfConcat(a, tail);
    SuffixOfConcat(b, tail);
    assert |a| == |b|;
  }

  /** A call whose key carries an invalidation never looks up the key the odd version forges. */
  lemma NoOddHit(stamp: Stamp, odd: string, c: Call, t: int)
    requires GoodStamp(stamp) && Tolerable(stamp, odd) && Admissible(stamp, odd, c.version)
    requires c.req.Image? && Moment(t) && c.invalidation == stamp(t)
    ensures !OddKey(KeyOf(c), odd)
  {
    hide DerivativeKey, HasSuffix, TrimSpace, Moment;
    var trace := "#invalidate=" + stamp(t);
    var q := DerivativeKey(c.req);
    var head := q + "#source=" + c.version;
    assert KeyOf(c) == head + trace by { assert c.invalidation != ""; }
    if OddKey(KeyOf(c), odd) {
      var req: Request :| req.Image? && KeyOf(c) == DerivativeKey(req) + "#source=" + odd;
      var p := DerivativeKey(req);
      SuffixOfConcat(head, trace);
      TraceWithin(p, odd, stamp(t));
      var w := Cut(odd, trace);
      Uncut(p + "#source=", w, trace);
      SameHead(p + "#source=" + w, head, trace);
      NotForeignEither(stamp, odd, w, p, q, c.version);
      assert c.version == w + trace;
      Uncut(q + "#source=", w, trace);
      NoDescent(p, q, w, stamp(t));
    }
  }

  /** A version that ends a key like one that is not foreign is not foreign either, so it is the odd one. */
  lemma NotForeignEither(stamp: Stamp, odd: string, w: string, p: string, q: string, version: string)
    requires GoodStamp(stamp) && Tolerable(stamp, odd) && Admissible(stamp, odd, version)
    requires !Foreign(stamp, w) && p + "#source=" + w == q + "#source=" + version
    ensures version == odd
  {
    hide HasSuffix, TrimSpace, Moment;
    var pp, qq := p + "#source=", q + "#source=";
    assert pp[|pp| - 1] == '=' && qq[|qq| - 1] == '=' && '=' !in MARKER;
    SuffixAfter(pp, w, '=', MARKER);
    SuffixAfter(qq, version, '=', MARKER);
    if !HasSuffix(w, MARKER) {
      var t :| Moment(t) && HasSuffix(w, "#invalidate=" + stamp(t));
      TraceWithin(p, w, stamp(t));
      TraceWithin(q, version, stamp(t));
    }
  }

  // ---------- every step keeps the invariant ----------

  /** Invalidations are only added or marked, and marked in the present. */
  ghost predicate Grows(s: Sys, s': Sys) {
    && s.now < s'.now
    && (forall i <- s.invalidations ::
          && i in s'.invalidations && s'.invalidations[i].identifier == s.invalidations[i].identifier
          && s'.invalidations[i].drawn == s.invalidations[i].drawn
          && (s.invalidations[i].marked.Some? ==> s'.invalidations[i].marked == s.invalidations[i].marked))
    && (forall i <- s'.invalidations :: s'.invalidations[i].marked.Some? ==>
          s'.invalidations[i].marked.value == s'.now || (i in s.invalidations && s.invalidations[i].marked == s'.invalidations[i].marked))
  }

  lemma StepGrows(maxAge: int, stamp: Stamp, s: Sys, e: Event)
    requires CallsAreImages(s) && Enabled(maxAge, s, e)
    ensures Grows(s, Next(maxAge, stamp, s, e))
  {
    hide KeyOf, InvalidationVersion, Lookup, MarkerKey;
  }

  lemma TimesStep(maxAge: int, stamp: Stamp, start: int, s: Sys, e: Event)
    requires CallsAreImages(s) && Enabled(maxAge, s, e) && TimesInv(start, s)
    ensures TimesInv(start, Next(maxAge, stamp, s, e))
  {
    hide KeyOf, InvalidationVersion, MarkerKey, Expired;
  }

  lemma MarkerFromGrows(stamp: Stamp, s: Sys, s': Sys, id: string, e: Entry)
    requires Grows(s, s') && MarkerFrom(stamp, s, id, e)
    ensures MarkerFrom(stamp, s', id, e)
  {
    var i :| i in s.invalidations && s.invalidations[i].identifier == id && s.invalidations[i].marked == Some(e.storedAt)
             && e.body == stamp(s.invalidations[i].drawn);
    assert s'.invalidations[i].marked == Some(e.storedAt);
  }

  lemma DrawnAndMarkedGrows(s: Sys, s': Sys, t: int, time: int)
    requires Grows(s, s') && DrawnAndMarked(s, t, time)
    ensures DrawnAndMarked(s', t, time)
  {
    var i :| i in s.invalidations && s.invalidations[i].drawn == t && s.invalidations[i].marked.Some? && s.invalidations[i].marked.value < time;
    assert s'.invalidations[i].drawn == t;
  }

  /** A call's key is no marker's key, and ends in the trace of its invalidation, if any. */
  lemma CallKeys(maxAge: int, stamp: Stamp, odd: string, s: Sys, r: nat)
    requires GoodStamp(stamp) && Tolerable(stamp, odd) && CallsInv(maxAge, stamp, odd, s) && r in s.calls
    ensures forall id :: KeyOf(s.calls[r]) != MarkerKey(id)
    ensures forall t :: HasSuffix(KeyOf(s.calls[r]), "#invalidate=" + stamp(t)) <==>
      s.calls[r].invalidation == stamp(t) || (s.calls[r].invalidation == "" && HasSuffix(s.calls[r].version, "#invalidate=" + stamp(t)))
  {
    hide KeyOf, MarkerKey, TrimSpace, Expired, HasSuffix, Moment;
    var c := s.calls[r];
    assert KeyFrom(maxAge, stamp, s, c);
    assert Admissible(stamp, odd, c.version) && !HasSuffix(c.version, MARKER);
    forall id ensures KeyOf(c) != MarkerKey(id) { MarkerKeysAreApart(stamp, c, id); }
    forall t ensures HasSuffix(KeyOf(c), "#invalidate=" + stamp(t)) <==>
      c.invalidation == stamp(t) || (c.invalidation == "" && HasSuffix(c.version, "#invalidate=" + stamp(t))) {
      TraceOfKey(stamp, c, t);
    }
  }

  lemma MarkersStep(maxAge: int, stamp: Stamp, odd: string, start: int, s: Sys, e: Event)
    requires GoodStamp(stamp) && Tolerable(stamp, odd) && Enabled(maxAge, s, e) && CallsAreImages(s)
    requires TimesInv(start, s) && MarkersInv(maxAge, stamp, s) && CallsInv(maxAge, stamp, odd, s)
    ensures MarkersInv(maxAge, stamp, Next(maxAge, stamp, s, e))
  {
    hide GoodStamp, CallsInv, MarkerKey, KeyOf, MarkerFrom, InvalidationVersion, Lookup, Expired, Grows;
    var s' := Next(maxAge, stamp, s, e);
    StepGrows(maxAge, stamp, s, e);
    if e.Store? { CallKeys(maxAge, stamp, odd, s, e.call); }
    forall id | MarkerKey(id) in s'.cache ensures MarkerFrom(stamp, s', id, s'.cache[MarkerKey(id)]) {
      if e.Mark? { MarkersAreDistinct(id, s.invalidations[e.inv].identifier); }
      if MarkerKey(id) in s.cache && s.cache[MarkerKey(id)] == s'.cache[MarkerKey(id)] {
        MarkerFromGrows(stamp, s, s', id, s.cache[MarkerKey(id)]);
      } else {
        FreshMarker(maxAge, stamp, s, e);
      }
    }
    forall i | i in s'.invalidations && s'.invalidations[i].marked.Some?
      ensures RecentOrExpired(maxAge, s', s'.invalidations[i])
    {
      RecentStep(maxAge, stamp, odd, start, s, e, i);
    }
  }

  ghost predicate RecentOrExpired(maxAge: int, s: Sys, v: Invalidation)
    requires v.marked.Some?
  {
    || (MarkerKey(v.identifier) in s.cache && v.marked.value <= s.cache[MarkerKey(v.identifier)].storedAt)
    || Expired(maxAge, v.marked.value, s.now)
  }

  lemma FreshMarker(maxAge: int, stamp: Stamp, s: Sys, e: Event)
    requires Enabled(maxAge, s, e) && CallsAreImages(s) && e.Mark?
    ensures var s' := Next(maxAge, stamp, s, e);
            var id := s.invalidations[e.inv].identifier;
            MarkerKey(id) in s'.cache && MarkerFrom(stamp, s', id, s'.cache[MarkerKey(id)])
  {
    hide MarkerKey;
    var s' := Next(maxAge, stamp, s, e);
    assert s'.invalidations[e.inv].marked == Some(e.at);
  }

  lemma RecentStep(maxAge: int, stamp: Stamp, odd: string, start: int, s: Sys, e: Event, i: nat)
    requires GoodStamp(stamp) && Tolerable(stamp, odd) && Enabled(maxAge, s, e) && CallsAreImages(s)
    requires TimesInv(start, s) && MarkersInv(maxAge, stamp, s) && CallsInv(maxAge, stamp, odd, s)
    requires var s' := Next(maxAge, stamp, s, e); i in s'.invalidations && s'.invalidations[i].marked.Some?
    ensures var s' := Next(maxAge, stamp, s, e); RecentOrExpired(maxAge, s', s'.invalidations[i])
  {
    hide GoodStamp, CallsInv, MarkerKey, KeyOf, MarkerFrom, InvalidationVersion, Lookup;
    var v := Next(maxAge, stamp, s, e).invalidations[i];
    if e.Store? { CallKeys(maxAge, stamp, odd, s, e.call); }
    if e.Mark? { MarkersAreDistinct(v.identifier, s.invalidations[e.inv].identifier); }
  }

  lemma EntriesStep(maxAge: int, stamp: Stamp, odd: string, start: int, s: Sys, e: Event)
    requires GoodStamp(stamp) && Tolerable(stamp, odd) && Enabled(maxAge, s, e) && CallsAreImages(s)
    requires TimesInv(start, s) && EntriesInv(stamp, odd, s) && CallsInv(maxAge, stamp, odd, s)
    ensures EntriesInv(stamp, odd, Next(maxAge, stamp, s, e))
  {
    hide MarkerKey, KeyOf, InvalidationVersion, Lookup, Expired, Grows, HasSuffix, DrawnAndMarked, OddKey, TrimSpace, GoodStamp,
         CallsInv, TimesInv, Moment, Tolerable;
    var s' := Next(maxAge, stamp, s, e);
    StepGrows(maxAge, stamp, s, e);
    forall k, t | k in s'.cache && Moment(t) && HasSuffix(k, "#invalidate=" + stamp(t)) && !OddKey(k, odd)
      ensures DrawnAndMarked(s', t, s'.cache[k].storedAt) && DrawnAndMarked(s', t, s'.cache[k].began)
    {
      if k in s.cache && s.cache[k] == s'.cache[k] {
        DrawnAndMarkedGrows(s, s', t, s.cache[k].storedAt);
        DrawnAndMarkedGrows(s, s', t, s.cache[k].began);
      } else if e.Store? {
        StoredTrace(maxAge, stamp, odd, start, s, e.call, t, e.at);
        DrawnAndMarkedGrows(s, s', t, e.at);
        DrawnAndMarkedGrows(s, s', t, s.calls[e.call].began);
      } else {
        NoTraceOnMarkers(stamp, s.invalidations[e.inv].identifier, t);
      }
    }
  }

  lemma StoredTrace(maxAge: int, stamp: Stamp, odd: string, start: int, s: Sys, r: nat, t: int, at: int)
    requires GoodStamp(stamp) && Tolerable(stamp, odd) && TimesInv(start, s) && CallsInv(maxAge, stamp, odd, s)
    requires r in s.calls && s.now < at && Moment(t)
    requires HasSuffix(KeyOf(s.calls[r]), "#invalidate=" + stamp(t)) && !OddKey(KeyOf(s.calls[r]), odd)
    ensures DrawnAndMarked(s, t, at) && DrawnAndMarked(s, t, s.calls[r].began)
  {
    hide MarkerKey, KeyOf, HasSuffix, TrimSpace, Expired, OddKey, Tolerable;
    CallKeys(maxAge, stamp, odd, s, r);
    var c := s.calls[r];
    assert stamp(t) != "";
    if c.invalidation == "" { OddVersionOddKey(c, odd); }
    assert c.invalidation == stamp(t);
    var j :| Before(s, j, c.req.identifier, c.began) && c.invalidation == stamp(s.invalidations[j].drawn);
    assert s.invalidations[j].drawn == t;
  }

  lemma OddVersionOddKey(c: Call, odd: string)
    requires c.req.Image? && c.invalidation == ""
    ensures c.version == odd ==> OddKey(KeyOf(c), odd)
  {
    hide DerivativeKey;
    if c.version == odd { assert KeyOf(c) == DerivativeKey(c.req) + "#source=" + odd; }
  }

  lemma BeforeGrows(s: Sys, s': Sys, i: nat, id: string, time: int)
    requires Grows(s, s') && time <= s'.now
    ensures Before(s', i, id, time) <==> Before(s, i, id, time)
    ensures Before(s, i, id, time) ==> s.invalidations[i] == s'.invalidations[i]
  {
  }

  /** What a call knew it still knows. */
  lemma CallGrows(maxAge: int, stamp: Stamp, s: Sys, s': Sys, c: Call)
    requires Grows(s, s') && c.began <= s.now && c.began <= s'.now && KeyFrom(maxAge, stamp, s, c)
    requires forall i | Before(s, i, c.req.identifier, c.began) :: Knows(maxAge, stamp, s, c, i)
    ensures KeyFrom(maxAge, stamp, s', c)
    ensures forall i | Before(s', i, c.req.identifier, c.began) :: Knows(maxAge, stamp, s', c, i)
  {
    hide Grows, Expired;
    forall i ensures Before(s', i, c.req.identifier, c.began) <==> Before(s, i, c.req.identifier, c.began)
             ensures Before(s, i, c.req.identifier, c.began) ==> s.invalidations[i] == s'.invalidations[i]
    {
      BeforeGrows(s, s', i, c.req.identifier, c.began);
    }
  }

  /** A request that reads the marker learns of every invalidation that has not expired. */
  lemma ReadLearns(maxAge: int, stamp: Stamp, start: int, s: Sys, c: Call, at: int)
    requires GoodStamp(stamp) && TimesInv(start, s) && MarkersInv(maxAge, stamp, s) && s.now < at
    requires c.invalidation == InvalidationVersion(maxAge, stamp, s.cache, c.req.identifier, at) && c.began == at
    ensures KeyFrom(maxAge, stamp, s, c)
    ensures forall i | Before(s, i, c.req.identifier, c.began) :: Knows(maxAge, stamp, s, c, i)
  {
    hide MarkerKey, TrimSpace, HasSuffix;
    var id := c.req.identifier;
    var k := MarkerKey(id);
    if k in s.cache {
      var e := s.cache[k];
      var j :| j in s.invalidations && s.invalidations[j].identifier == id && s.invalidations[j].marked == Some(e.storedAt)
               && e.body == stamp(s.invalidations[j].drawn);
      assert Before(s, j, id, at);
      if Expired(maxAge, e.storedAt, at) {
        forall i | Before(s, i, id, c.began) ensures Knows(maxAge, stamp, s, c, i) {
          if !Expired(maxAge, s.invalidations[i].marked.value, s.now) {
            ExpiredForGood(maxAge, e.storedAt, at, s.invalidations[i].marked.value, at);
          }
        }
      } else {
        assert c.invalidation == stamp(s.invalidations[j].drawn);
      }
    }
  }

  lemma CallsStep(maxAge: int, stamp: Stamp, odd: string, start: int, s: Sys, e: Event)
    requires GoodStamp(stamp) && Tolerable(stamp, odd) && Enabled(maxAge, s, e) && CallsAreImages(s) && (e.Read? ==> Admissible(stamp, odd, e.version))
    requires TimesInv(start, s) && MarkersInv(maxAge, stamp, s) && CallsInv(maxAge, stamp, odd, s)
    ensures CallsInv(maxAge, stamp, odd, Next(maxAge, stamp, s, e))
  {
    hide MarkerKey, KeyOf, InvalidationVersion, Lookup, Expired, Grows, KeyFrom, Knows, Admissible, Tolerable, MarkersInv, GoodStamp;
    var s' := Next(maxAge, stamp, s, e);
    StepGrows(maxAge, stamp, s, e);
    forall r | r in s'.calls
      ensures s'.calls[r].req.Image? && Admissible(stamp, odd, s'.calls[r].version) && KeyFrom(maxAge, stamp, s', s'.calls[r])
      ensures forall i | Before(s', i, s'.calls[r].req.identifier, s'.calls[r].began) :: Knows(maxAge, stamp, s', s'.calls[r], i)
    {
      var c := s'.calls[r];
      if e.Read? && r == e.call {
        assert s'.invalidations == s.invalidations;
        ReadLearns(maxAge, stamp, start, s, c, e.at);
        SameKnowledge(maxAge, stamp, s, s', c, c);
      } else {
        SameKnowledge(maxAge, stamp, s, s, s.calls[r], c);
        CallGrows(maxAge, stamp, s, s', c);
      }
    }
  }

  /** Knowledge is about the invalidations and the call's key alone. */
  lemma SameKnowledge(maxAge: int, stamp: Stamp, s: Sys, s': Sys, c: Call, c': Call)
    requires s.invalidations == s'.invalidations && c' == c.(stage := c'.stage)
    requires KeyFrom(maxAge, stamp, s, c)
    requires forall i | Before(s, i, c.req.identifier, c.began) :: Knows(maxAge, stamp, s, c, i)
    ensures KeyFrom(maxAge, stamp, s', c')
    ensures forall i | Before(s', i, c'.req.identifier, c'.began) :: Knows(maxAge, stamp, s', c', i)
  {
    hide Expired;
    assert forall i, id, time :: Before(s, i, id, time) <==> Before(s', i, id, time);
    assert forall i | Before(s, i, c.req.identifier, c.began) :: Knows(maxAge, stamp, s', c', i) <==> Knows(maxAge, stamp, s, c, i);
  }

  /** The heart of it: a hit is never on an entry stored before an invalidation the call came after. */
  lemma HitIsLater(maxAge: int, stamp: Stamp, odd: string, start: int, s: Sys, r: nat, i: nat, at: int)
    requires GoodStamp(stamp) && Tolerable(stamp, odd)
    requires TimesInv(start, s) && EntriesInv(stamp, odd, s) && CallsInv(maxAge, stamp, odd, s)
    requires r in s.calls && s.now < at && Before(s, i, s.calls[r].req.identifier, s.calls[r].began)
    requires Lookup(maxAge, s.cache, KeyOf(s.calls[r]), at).Some?
    ensures var entry := Lookup(maxAge, s.cache, KeyOf(s.calls[r]), at).value;
            var m := s.invalidations[i].marked.value;
            m < entry.storedAt && (m < entry.began || Expired(maxAge, m, s.calls[r].began))
  {
    hide MarkerKey, KeyOf, HasSuffix, TrimSpace, Tolerable, Admissible, OddKey, KeyFrom;
    var c := s.calls[r];
    var e := s.cache[KeyOf(c)];
    var m := s.invalidations[i].marked.value;
    assert Knows(maxAge, stamp, s, c, i);
    if Expired(maxAge, m, c.began) {
      if e.storedAt <= m { ExpiredForGood(maxAge, m, c.began, e.storedAt, at); }
    } else {
      var j :| Before(s, j, c.req.identifier, c.began) && c.invalidation == stamp(s.invalidations[j].drawn)
               && m <= s.invalidations[j].marked.value;
      CallKeys(maxAge, stamp, odd, s, r);
      assert HasSuffix(KeyOf(c), "#invalidate=" + stamp(s.invalidations[j].drawn));
      NoOddHit(stamp, odd, c, s.invalidations[j].drawn);
    }
  }

  lemma HitsStep(maxAge: int, stamp: Stamp, odd: string, start: int, s: Sys, e: Event)
    requires GoodStamp(stamp) && Tolerable(stamp, odd) && Enabled(maxAge, s, e) && CallsAreImages(s) && Inv(maxAge, stamp, odd, start, s)
    ensures HitsInv(maxAge, Next(maxAge, stamp, s, e))
  {
    hide MarkerKey, KeyOf, InvalidationVersion, Lookup, Expired, Grows, MarkersInv, GoodStamp, CallsInv, EntriesInv;
    var s' := Next(maxAge, stamp, s, e);
    StepGrows(maxAge, stamp, s, e);
    forall r, i | r in s'.calls && s'.calls[r].stage.FromCache? && Before(s', i, s'.calls[r].req.identifier, s'.calls[r].began)
      ensures var m := s'.invalidations[i].marked.value;
              && m < s'.calls[r].stage.entry.storedAt
              && (m < s'.calls[r].stage.entry.began || Expired(maxAge, m, s'.calls[r].began))
    {
      BeforeGrows(s, s', i, s'.calls[r].req.identifier, s'.calls[r].began);
      if e.Look? && e.call == r { HitIsLater(maxAge, stamp, odd, start, s, r, i, e.at); }
    }
  }

  lemma StepKeepsInv(maxAge: int, stamp: Stamp, odd: string, start: int, s: Sys, e: Event)
    requires GoodStamp(stamp) && Tolerable(stamp, odd) && Enabled(maxAge, s, e) && CallsAreImages(s) && (e.Read? ==> Admissible(stamp, odd, e.version))
    requires Inv(maxAge, stamp, odd, start, s)
    ensures Inv(maxAge, stamp, odd, start, Next(maxAge, stamp, s, e))
  {
    TimesStep(maxAge, stamp, start, s, e);
    MarkersStep(maxAge, stamp, odd, start, s, e);
    EntriesStep(maxAge, stamp, odd, start, s, e);
    CallsStep(maxAge, stamp, odd, start, s, e);
    HitsStep(maxAge, stamp, odd, start, s, e);
  }

  lemma {:induction false} RunsKeepInv(maxAge: int, stamp: Stamp, odd: string, start: int, es: seq<Event>)
    requires GoodStamp(stamp) && ZERO_TIME < start && Tolerable(stamp, odd) && OddVersions(stamp, odd, es)
    requires Exec(maxAge, stamp, start, es).Some?
    ensures Inv(maxAge, stamp, odd, start, Exec(maxAge, stamp, start, es).value)
  {
    hide Next, GoodStamp, Admissible, Tolerable;
    if es != [] {
      RunsKeepInv(maxAge, stamp, odd, start, es[..|es| - 1]);
      StepKeepsInv(maxAge, stamp, odd, start, Exec(maxAge, stamp, start, es[..|es| - 1]).value, es[|es| - 1]);
    }
  }

  // ---------- what every run guarantees ----------

  /** A call answered by a cache hit, that read its marker after invalidation i of its identifier. */
  ghost predicate HitAfter(s: Sys, r: nat, i: nat) {
    r in s.calls && s.calls[r].stage.FromCache? && Before(s, i, s.calls[r].req.identifier, s.calls[r].began)
  }

  /** Once an identifier is invalidated, no later request for it is answered from an entry stored before,
      through any cleanup passes and past the expiry of the marker itself. */
  lemma InvalidationHidesOlderEntries(maxAge: int, stamp: Stamp, start: int, es: seq<Event>, r: nat, i: nat)
    requires GoodStamp(stamp) && ZERO_TIME < start && ForeignVersions(stamp, es)
    requires Exec(maxAge, stamp, start, es).Some? && HitAfter(Exec(maxAge, stamp, start, es).value, r, i)
    ensures var s := Exec(maxAge, stamp, start, es).value;
            s.invalidations[i].marked.value < s.calls[r].stage.entry.storedAt
    ensures var s := Exec(maxAge, stamp, start, es).value;
            || s.invalidations[i].marked.value < s.calls[r].stage.entry.began
            || Expired(maxAge, s.invalidations[i].marked.value, s.calls[r].began)
  {
    EmptyIsForeign(stamp);
    ForeignIsTolerable(stamp, "");
    RunsKeepInv(maxAge, stamp, "", start, es);
  }

  lemma EmptyIsForeign(stamp: Stamp)
    ensures Foreign(stamp, "")
  {
    PlainVersionsAreForeign(stamp, "");
  }

  /** The entity tag of a derivative is the digest of its key. */
  function DerivativeETag(digest: Digest, c: Call): string
    requires c.req.Image?
  {
    DocumentETag(digest, KeyOf(c))
  }

  /** i is the last invalidation of the identifier marked before `time`. */
  ghost predicate Latest(s: Sys, i: nat, identifier: string, time: int) {
    && Before(s, i, identifier, time)
    && forall j :: Before(s, j, identifier, time) ==> s.invalidations[j].marked.value <= s.invalidations[i].marked.value
  }

  lemma KeyAfterInvalidation(maxAge: int, stamp: Stamp, start: int, s: Sys, c: Call, i: nat)
    requires GoodStamp(stamp) && TimesInv(start, s) && KeyFrom(maxAge, stamp, s, c) && c.began <= s.now
    requires Latest(s, i, c.req.identifier, c.began) && Knows(maxAge, stamp, s, c, i)
    ensures c.invalidation == "" <==> Expired(maxAge, s.invalidations[i].marked.value, c.began)
  {
    hide TrimSpace;
    var m := s.invalidations[i].marked.value;
    if c.invalidation != "" && Expired(maxAge, m, c.began) {
      var j :| Before(s, j, c.req.identifier, c.began) && c.invalidation == stamp(s.invalidations[j].drawn)
               && !Expired(maxAge, s.invalidations[j].marked.value, c.began);
      ExpiredForGood(maxAge, m, c.began, s.invalidations[j].marked.value, c.began);
      assert false;
    }
  }

  /** The entity tag an image had before it was first invalidated is its tag again, so that a client
      holding it is told nothing changed, exactly when the marker has expired. */
  lemma OldTagMatchesIffMarkerExpired(maxAge: int, stamp: Stamp, digest: Digest, start: int, es: seq<Event>, r1: nat, r2: nat, i: nat)
    requires GoodStamp(stamp) && GoodDigest(digest) && ZERO_TIME < start && ForeignVersions(stamp, es)
    requires Exec(maxAge, stamp, start, es).Some?
    requires var s := Exec(maxAge, stamp, start, es).value;
             && r1 in s.calls && r2 in s.calls
             && s.calls[r1].req == s.calls[r2].req && s.calls[r1].version == s.calls[r2].version
             && s.calls[r1].invalidation == ""
             && Latest(s, i, s.calls[r2].req.identifier, s.calls[r2].began)
    ensures var s := Exec(maxAge, stamp, start, es).value;
            DerivativeETag(digest, s.calls[r1]) == DerivativeETag(digest, s.calls[r2]) <==>
            Expired(maxAge, s.invalidations[i].marked.value, s.calls[r2].began)
  {
    hide Expired, TrimSpace, DerivativeKey, MarkersInv, EntriesInv, HitsInv, Foreign, KeyFrom, Knows;
    EmptyIsForeign(stamp);
    ForeignIsTolerable(stamp, "");
    RunsKeepInv(maxAge, stamp, "", start, es);
    var s := Exec(maxAge, stamp, start, es).value;
    var c1, c2 := s.calls[r1], s.calls[r2];
    KeyAfterInvalidation(maxAge, stamp, start, s, c2, i);
    if DerivativeETag(digest, c1) == DerivativeETag(digest, c2) {
      ETagNamesOneBody(digest, KeyOf(c1), KeyOf(c2));
      SameInvalidation(maxAge, stamp, s, r1, r2);
    }
  }

  lemma SameInvalidation(maxAge: int, stamp: Stamp, s: Sys, r1: nat, r2: nat)
    requires GoodStamp(stamp) && CallsInv(maxAge, stamp, "", s) && r1 in s.calls && r2 in s.calls
    requires TimesOfDraws(s) && KeyOf(s.calls[r1]) == KeyOf(s.calls[r2])
    ensures s.calls[r1].invalidation == s.calls[r2].invalidation
  {
    hide Expired, TrimSpace, KeyOf, Tolerable, HasSuffix, Moment;
    EmptyIsForeign(stamp);
    ForeignIsTolerable(stamp, "");
    CallKeys(maxAge, stamp, "", s, r1);
    CallKeys(maxAge, stamp, "", s, r2);
    assert KeyFrom(maxAge, stamp, s, s.calls[r1]) && KeyFrom(maxAge, stamp, s, s.calls[r2]);
    assert Foreign(stamp, s.calls[r1].version) && Foreign(stamp, s.calls[r2].version);
  }

  ghost predicate TimesOfDraws(s: Sys) { forall i <- s.invalidations :: Moment(s.invalidations[i].drawn) }

  // ---------- hits answer the last write, and nothing else ----------

  /** Step k of the run puts that body under the key: a request what it rendered, or an invalidation its version. */
  ghost predicate WritesAt(maxAge: int, stamp: Stamp, start: int, es: seq<Event>, k: nat, key: string, body: string, at: int) {
    && k < |es| && Exec(maxAge, stamp, start, es[..k]).Some? && es[k].at == at
    && var s := Exec(maxAge, stamp, start, es[..k]).value;
    && (|| (es[k].Store? && es[k].body == body && es[k].call in s.calls && KeyOf(s.calls[es[k].call]) == key)
        || (es[k].Mark? && es[k].inv in s.invalidations && MarkerKey(s.invalidations[es[k].inv].identifier) == key
            && stamp(s.invalidations[es[k].inv].drawn) == body))
  }

  ghost predicate SomeWriteAt(maxAge: int, stamp: Stamp, start: int, es: seq<Event>, k: nat, key: string) {
    exists body, at :: WritesAt(maxAge, stamp, start, es, k, key, body, at)
  }

  ghost predicate NoWriteAfter(maxAge: int, stamp: Stamp, start: int, es: seq<Event>, k: nat, key: string) {
    forall i: nat :: k < i < |es| ==> !SomeWriteAt(maxAge, stamp, start, es, i, key)
  }

  ghost predicate LastWrite(maxAge: int, stamp: Stamp, start: int, es: seq<Event>, key: string, body: string, at: int) {
    exists k: nat :: WritesAt(maxAge, stamp, start, es, k, key, body, at) && NoWriteAfter(maxAge, stamp, start, es, k, key)
  }

  predicate CacheHolds(s: Sys, key: string, body: string, at: int) {
    key in s.cache && s.cache[key].body == body && s.cache[key].storedAt == at
  }

  predicate HitOn(stage: Stage, body: string, at: int) {
    stage.FromCache? && stage.entry.body == body && stage.entry.storedAt == at
  }

  lemma WriteStep(maxAge: int, stamp: Stamp, start: int, es: seq<Event>, key: string, body: string, at: int)
    requires es != [] && Exec(maxAge, stamp, start, es).Some?
    ensures var n := |es| - 1;
            var before, after := Exec(maxAge, stamp, start, es[..n]).value, Exec(maxAge, stamp, start, es).value;
            && before.now <= after.now
            && (WritesAt(maxAge, stamp, start, es, n, key, body, at) ==> CacheHolds(after, key, body, at))
            && (SomeWriteAt(maxAge, stamp, start, es, n, key) && CacheHolds(after, key, body, at) ==>
                  WritesAt(maxAge, stamp, start, es, n, key, body, at))
            && (!SomeWriteAt(maxAge, stamp, start, es, n, key) && CacheHolds(after, key, body, at) ==> CacheHolds(before, key, body, at))
            && (!SomeWriteAt(maxAge, stamp, start, es, n, key) && CacheHolds(before, key, body, at) ==>
                  CacheHolds(after, key, body, at) || Expired(maxAge, at, after.now))
  {
    hide KeyOf, MarkerKey, InvalidationVersion, Expired;
    var n := |es| - 1;
    var s, e := Exec(maxAge, stamp, start, es[..n]).value, es[n];
    if e.Store? { assert WritesAt(maxAge, stamp, start, es, n, KeyOf(s.calls[e.call]), e.body, e.at); }
    if e.Mark? {
      assert WritesAt(maxAge, stamp, start, es, n, MarkerKey(s.invalidations[e.inv].identifier), stamp(s.invalidations[e.inv].drawn), e.at);
    }
  }

  lemma EarlierWrite(maxAge: int, stamp: Stamp, start: int, es: seq<Event>, n: nat, key: string)
    requires n <= |es|
    ensures forall k: nat, body, at :: k < n ==>
      (WritesAt(maxAge, stamp, start, es, k, key, body, at) <==> WritesAt(maxAge, stamp, start, es[..n], k, key, body, at))
    ensures forall k: nat, body, at :: WritesAt(maxAge, stamp, start, es, k, key, body, at) ==> k < |es|
    ensures forall k: nat, body, at :: WritesAt(maxAge, stamp, start, es[..n], k, key, body, at) ==> k < n
  {
    hide KeyOf, MarkerKey;
    assert forall k: nat :: k < n ==> es[..n][..k] == es[..k];
  }

  lemma LastWriteStep(maxAge: int, stamp: Stamp, start: int, es: seq<Event>, key: string, body: string, at: int)
    requires es != []
    ensures var n := |es| - 1;
            && (WritesAt(maxAge, stamp, start, es, n, key, body, at) ==> LastWrite(maxAge, stamp, start, es, key, body, at))
            && (SomeWriteAt(maxAge, stamp, start, es, n, key) && LastWrite(maxAge, stamp, start, es, key, body, at) ==>
                  WritesAt(maxAge, stamp, start, es, n, key, body, at))
            && (!SomeWriteAt(maxAge, stamp, start, es, n, key) ==>
                  (LastWrite(maxAge, stamp, start, es, key, body, at) <==> LastWrite(maxAge, stamp, start, es[..n], key, body, at)))
  {
    hide WritesAt;
    var n := |es| - 1;
    EarlierWrite(maxAge, stamp, start, es, n, key);
    assert forall k: nat :: k < n ==>
      (SomeWriteAt(maxAge, stamp, start, es, k, key) <==> SomeWriteAt(maxAge, stamp, start, es[..n], k, key));
    if k: nat :| WritesAt(maxAge, stamp, start, es, k, key, body, at) && NoWriteAfter(maxAge, stamp, start, es, k, key) {
      if k < n { assert NoWriteAfter(maxAge, stamp, start, es[..n], k, key); }
    }
    if k: nat :| WritesAt(maxAge, stamp, start, es[..n], k, key, body, at) && NoWriteAfter(maxAge, stamp, start, es[..n], k, key) {
      if !SomeWriteAt(maxAge, stamp, start, es, n, key) { assert NoWriteAfter(maxAge, stamp, start, es, k, key); }
    }
    if WritesAt(maxAge, stamp, start, es, n, key, body, at) { assert NoWriteAfter(maxAge, stamp, start, es, n, key); }
  }

  /** In every run the cache holds under a key what was last written under it, until that has expired. */
  lemma {:induction false} CacheHoldsTheLastWrite(maxAge: int, stamp: Stamp, start: int, es: seq<Event>, key: string, body: string, at: int)
    requires Exec(maxAge, stamp, start, es).Some?
    ensures var s := Exec(maxAge, stamp, start, es).value;
            && (CacheHolds(s, key, body, at) ==> LastWrite(maxAge, stamp, start, es, key, body, at))
            && (LastWrite(maxAge, stamp, start, es, key, body, at) ==> CacheHolds(s, key, body, at) || Expired(maxAge, at, s.now))
  {
    hide WritesAt, Next, Enabled;
    if es == [] {
      EarlierWrite(maxAge, stamp, start, es, 0, key);
    } else {
      WriteStep(maxAge, stamp, start, es, key, body, at);
      LastWriteStep(maxAge, stamp, start, es, key, body, at);
      CacheHoldsTheLastWrite(maxAge, stamp, start, es[..|es| - 1], key, body, at);
    }
  }

  /** In every run a request that looks its key up is answered from the cache exactly when what was last written under
      that key has not expired, and then with just that. */
  lemma HitsAnswerTheLastWrite(maxAge: int, stamp: Stamp, start: int, es: seq<Event>, r: nat)
    requires es != [] && Exec(maxAge, stamp, start, es).Some? && es[|es| - 1].Look? && es[|es| - 1].call == r
    ensures r in Exec(maxAge, stamp, start, es).value.calls
    ensures var call := Exec(maxAge, stamp, start, es).value.calls[r];
            var now := es[|es| - 1].at;
            && (call.stage.FromCache? || call.stage.Missed?)
            && (forall body, at :: LastWrite(maxAge, stamp, start, es[..|es| - 1], KeyOf(call), body, at) && !Expired(maxAge, at, now) <==>
                                   HitOn(call.stage, body, at))
  {
    hide LastWrite, Expired, KeyOf;
    var before := es[..|es| - 1];
    var s := Exec(maxAge, stamp, start, before).value;
    var call, now := s.calls[r], es[|es| - 1].at;
    LookingKeepsTheKey(maxAge, stamp, s, es[|es| - 1]);
    forall body, at
      ensures LastWrite(maxAge, stamp, start, before, KeyOf(call), body, at) && !Expired(maxAge, at, now) <==>
              CacheHolds(s, KeyOf(call), body, at) && !Expired(maxAge, at, now)
    {
      CacheHoldsTheLastWrite(maxAge, stamp, start, before, KeyOf(call), body, at);
      if Expired(maxAge, at, s.now) { StaysExpired(maxAge, at, s.now, now); }
    }
  }

  lemma StaysExpired(maxAge: int, at: int, now: int, later: int)
    requires Expired(maxAge, at, now) && now <= later
    ensures Expired(maxAge, at, later)
  {
  }

  lemma LookingKeepsTheKey(maxAge: int, stamp: Stamp, s: Sys, e: Event)
    requires (forall r <- s.calls :: s.calls[r].req.Image?) && Enabled(maxAge, s, e) && e.Look?
    ensures KeyOf(Next(maxAge, stamp, s, e).calls[e.call]) == KeyOf(s.calls[e.call])
  {
    hide FullKey;
  }

  // ---------- what it does not guarantee ----------

  ghost predicate Leads(maxAge: int, stamp: Stamp, s: Sys, e: Event, s': Sys) {
    CallsAreImages(s) && Enabled(maxAge, s, e) && Next(maxAge, stamp, s, e) == s'
  }

  lemma {:induction false} ExecFollows(maxAge: int, stamp: Stamp, start: int, states: seq<Sys>, es: seq<Event>)
    requires |states| == |es| + 1 && states[0] == Init(start)
    requires forall k :: 0 <= k < |es| ==> Leads(maxAge, stamp, states[k], es[k], states[k + 1])
    ensures Exec(maxAge, stamp, start, es) == Some(states[|es|])
  {
    hide Next, Enabled;
    if es != [] {
      var n := |es| - 1;
      ExecFollows(maxAge, stamp, start, states[..n + 1], es[..n]);
      assert Leads(maxAge, stamp, states[n], es[n], states[n + 1]);
    }
  }

  /** A request begins, the identifier is invalidated, and only then the request stores what it rendered. */
  function LateStore(maxAge: int, req: Request, version: string, body: string): seq<Event> {
    [Read(1, 0, req, version), Look(2, 0), Draw(3, 0, req.identifier), Mark(4, 0), Store(4 + maxAge, 0, body),
     Read(5 + maxAge, 1, req, version), Look(6 + maxAge, 1)]
  }

  /** The states that run goes through. */
  function LateStates(maxAge: int, stamp: Stamp, c: Call, body: string): seq<Sys>
    requires c.req.Image?
  {
    var missed := c.(stage := Missed);
    var inv := Invalidation(c.req.identifier, 3, None);
    var marked := map[0 := inv.(marked := Some(4))];
    var markers := map[MarkerKey(c.req.identifier) := Entry(stamp(3), 4, 4)];
    var late := Entry(body, 4 + maxAge, 1);
    var both := markers[KeyOf(c) := late];
    var calls := map[0 := c.(stage := Rendered)];
    var d := c.(began := 5 + maxAge);
    [Init(0),
     Sys(1, map[], map[0 := c], map[]),
     Sys(2, map[], map[0 := missed], map[]),
     Sys(3, map[], map[0 := missed], map[0 := inv]),
     Sys(4, markers, map[0 := missed], marked),
     Sys(4 + maxAge, both, calls, marked),
     Sys(5 + maxAge, both, calls[1 := d], marked),
     Sys(6 + maxAge, both, calls[1 := d.(stage := FromCache(late, 6 + maxAge))], marked)]
  }

  lemma LateSteps(maxAge: int, stamp: Stamp, c: Call, body: string, k: nat)
    requires GoodStamp(stamp) && Foreign(stamp, c.version) && c.version != "" && c.req.Image? && 2 <= maxAge < MAX_INT64 && k < 7
    requires c == Call(c.req, c.version, "", 1, Keyed)
    ensures var states, es := LateStates(maxAge, stamp, c, body), LateStore(maxAge, c.req, c.version, body);
            Leads(maxAge, stamp, states[k], es[k], states[k + 1])
  {
    hide KeyOf, MarkerKey, Foreign, GoodStamp, TrimSpace;
    ForeignEndsInNoMarker(stamp, c.version);
    MarkerKeysAreApart(stamp, c, c.req.identifier);
    SameKeys(c, c.(stage := Missed));
    SameKeys(c, c.(began := 5 + maxAge));
    var states, es := LateStates(maxAge, stamp, c, body), LateStore(maxAge, c.req, c.version, body);
    assert k <= 3 ==> Leads(maxAge, stamp, states[k], es[k], states[k + 1]);
  }

  /** The theorem speaks of when an entry was stored, not of when it was begun: with any expiry, what a request
      from before the invalidation stores late answers a request from after it, once the marker is gone. */
  lemma LateStoreOutlivesItsMarker(maxAge: int, stamp: Stamp, req: Request, version: string, body: string)
    requires GoodStamp(stamp) && Foreign(stamp, version) && version != "" && req.Image? && 2 <= maxAge < MAX_INT64
    ensures Exec(maxAge, stamp, 0, LateStore(maxAge, req, version, body)).Some?
    ensures var s := Exec(maxAge, stamp, 0, LateStore(maxAge, req, version, body)).value;
            && 1 in s.calls && Before(s, 0, req.identifier, s.calls[1].began)
            && s.calls[1].stage == FromCache(Entry(body, 4 + maxAge, 1), 6 + maxAge)
            && s.calls[1].stage.entry.began < s.invalidations[0].marked.value
  {
    hide KeyOf, MarkerKey, Foreign, GoodStamp, TrimSpace, Leads;
    var c := Call(req, version, "", 1, Keyed);
    var states, es := LateStates(maxAge, stamp, c, body), LateStore(maxAge, req, version, body);
    forall k | 0 <= k < |es| ensures Leads(maxAge, stamp, states[k], es[k], states[k + 1]) {
      LateSteps(maxAge, stamp, c, body, k);
    }
    ExecFollows(maxAge, stamp, 0, states, es);
  }

  // ---------- which versions can do harm ----------

  /** No run in which all other versions are foreign answers a request from an entry older than an invalidation
      the request came after. */
  ghost predicate Harmless(maxAge: int, stamp: Stamp, odd: string) {
    forall start, es, r, i :: Threatens(maxAge, stamp, odd, start, es, r, i) ==>
      var s := Exec(maxAge, stamp, start, es).value;
      s.invalidations[i].marked.value < s.calls[r].stage.entry.storedAt
  }

  ghost predicate Threatens(maxAge: int, stamp: Stamp, odd: string, start: int, es: seq<Event>, r: nat, i: nat) {
    && ZERO_TIME < start && OddVersions(stamp, odd, es)
    && Exec(maxAge, stamp, start, es).Some? && HitAfter(Exec(maxAge, stamp, start, es).value, r, i)
  }

  lemma TolerableIsHarmless(maxAge: int, stamp: Stamp, odd: string)
    requires GoodStamp(stamp) && Tolerable(stamp, odd)
    ensures Harmless(maxAge, stamp, odd)
  {
    hide GoodStamp, Tolerable, OddVersions, MarkersInv, EntriesInv, CallsInv, TimesInv, Exec;
    forall start, es, r, i | Threatens(maxAge, stamp, odd, start, es, r, i)
      ensures var s := Exec(maxAge, stamp, start, es).value;
              s.invalidations[i].marked.value < s.calls[r].stage.entry.storedAt
    {
      RunsKeepInv(maxAge, stamp, odd, start, es);
    }
  }

  // A call c stores under the very key that a call d looks up after the invalidation drawn at t.

  function Forgery(t: int, c: Call, d: Call, body: string): seq<Event> {
    [Draw(t, 0, d.req.identifier), Read(t + 1, 0, c.req, c.version), Look(t + 2, 0), Store(t + 3, 0, body), Mark(t + 4, 0),
     Read(t + 5, 1, d.req, d.version), Look(t + 6, 1)]
  }

  function ForgedStates(stamp: Stamp, t: int, c: Call, d: Call, body: string): seq<Sys>
    requires c.req.Image?
  {
    var missed := map[0 := c.(stage := Missed)];
    var rendered := map[0 := c.(stage := Rendered)];
    var older := Entry(body, t + 3, t + 1);
    var stored := map[KeyOf(c) := older];
    var inv := Invalidation(d.req.identifier, t, None);
    var drawn := map[0 := inv];
    var marked := map[0 := inv.(marked := Some(t + 4))];
    var both := stored[MarkerKey(d.req.identifier) := Entry(stamp(t), t + 4, t + 4)];
    [Init(t - 1),
     Sys(t, map[], map[], drawn),
     Sys(t + 1, map[], map[0 := c], drawn),
     Sys(t + 2, map[], missed, drawn),
     Sys(t + 3, stored, rendered, drawn),
     Sys(t + 4, both, rendered, marked),
     Sys(t + 5, both, rendered[1 := d], marked),
     Sys(t + 6, both, rendered[1 := d.(stage := FromCache(older, t + 6))], marked)]
  }

  ghost predicate Forges(stamp: Stamp, t: int, c: Call, d: Call) {
    && Moment(t) && c.req.Image? && d.req.Image? && c.version != "" && d.version != ""
    && c == Call(c.req, c.version, "", t + 1, Keyed) && d == Call(d.req, d.version, stamp(t), t + 5, Keyed)
    && KeyOf(c) == KeyOf(d)
  }

  lemma ForgeryStores(maxAge: int, stamp: Stamp, t: int, c: Call, d: Call, body: string, k: nat)
    requires Forges(stamp, t, c, d) && k < 4
    ensures var states, es := ForgedStates(stamp, t, c, d, body), Forgery(t, c, d, body);
            Leads(maxAge, stamp, states[k], es[k], states[k + 1])
  {
    hide KeyOf, MarkerKey, TrimSpace;
    SameKeys(c, c.(stage := Missed));
  }

  lemma ForgeryHits(maxAge: int, stamp: Stamp, t: int, c: Call, d: Call, body: string, k: nat)
    requires GoodStamp(stamp) && Forges(stamp, t, c, d) && (maxAge <= 0 || maxAge >= 3) && 4 <= k < 7
    ensures var states, es := ForgedStates(stamp, t, c, d, body), Forgery(t, c, d, body);
            Leads(maxAge, stamp, states[k], es[k], states[k + 1])
  {
    hide KeyOf, MarkerKey, TrimSpace;
    StampedKeysAreApart(stamp, d, t, d.req.identifier);
    Stamped(stamp, t);
    hide GoodStamp;
  }

  lemma Stamped(stamp: Stamp, t: int)
    requires GoodStamp(stamp)
    ensures 0 < |stamp(t)| <= 256 && TrimSpace(stamp(t)) == stamp(t)
  {
  }

  lemma StampedKeysAreApart(stamp: Stamp, d: Call, t: int, id: string)
    requires GoodStamp(stamp) && d.req.Image? && d.invalidation == stamp(t)
    ensures KeyOf(d) != MarkerKey(id)
  {
    hide TrimSpace, DerivativeKey, FullKey, HasSuffix;
    MarkerCollision(d.req, d.version, d.invalidation);
    assert MARKER[0] == '/';
    NoSuffixWithout(d.invalidation, MARKER, '/');
  }

  /** The hit is on an entry older than the invalidation. */
  lemma ForgeryDoesHarm(maxAge: int, stamp: Stamp, t: int, c: Call, d: Call, body: string)
    requires GoodStamp(stamp) && Forges(stamp, t, c, d) && (maxAge <= 0 || maxAge >= 3) && Foreign(stamp, d.version)
    ensures !Harmless(maxAge, stamp, c.version)
  {
    hide KeyOf, MarkerKey, GoodStamp, TrimSpace, Leads, Foreign;
    var states, es := ForgedStates(stamp, t, c, d, body), Forgery(t, c, d, body);
    forall k | 0 <= k < |es| ensures Leads(maxAge, stamp, states[k], es[k], states[k + 1]) {
      if k < 4 { ForgeryStores(maxAge, stamp, t, c, d, body, k); } else { ForgeryHits(maxAge, stamp, t, c, d, body, k); }
    }
    ExecFollows(maxAge, stamp, t - 1, states, es);
    assert Threatens(maxAge, stamp, c.version, t - 1, es, 1, 0);
  }

  const SAMPLE := Image("a", RegionFull, SizeMax(false), Rotation(Num(false, 0, 0), false), "default", "jpg")

  /** A version made of any foreign one and the trace of an invalidation forges that invalidation's key. */
  lemma ForgedVersionsDefeatInvalidation(maxAge: int, stamp: Stamp, odd: string, version: string, t: int)
    requires GoodStamp(stamp) && (maxAge <= 0 || maxAge >= 3)
    requires Moment(t) && Foreign(stamp, version) && odd == version + ("#invalidate=" + stamp(t))
    ensures !Harmless(maxAge, stamp, odd)
  {
    hide KeyOf, TrimSpace, Foreign, Harmless, Moment;
    assert stamp(t) != "";
    var d := Call(SAMPLE, version, stamp(t), t + 5, Keyed);
    var c := Call(SAMPLE, odd, "", t + 1, Keyed);
    if version != "" {
      ForgedKey(c, d);
    } else {
      d := d.(version := "/" + Operations(c.req) + "#source=");
      c := c.(req := Spelling(SAMPLE));
      AliasedKey(c, d);
      AliasVersionIsForeign(stamp, "/" + Operations(SAMPLE));
    }
    ForgeryDoesHarm(maxAge, stamp, t, c, d, "");
  }

  lemma ForgedKey(c: Call, d: Call)
    requires c.req.Image? && d.req == c.req && c.invalidation == "" && d.invalidation != ""
    requires c.version == d.version + ("#invalidate=" + d.invalidation)
    ensures KeyOf(c) == KeyOf(d)
  {
    hide DerivativeKey;
    var k := DerivativeKey(c.req) + "#source=";
    assert k + (d.version + ("#invalidate=" + d.invalidation)) + "" == k + d.version + ("#invalidate=" + d.invalidation);
  }

  /** The request whose identifier spells out another request and the word before its version. */
  function Spelling(req: Request): Request
    requires req.Image?
  {
    req.(identifier := req.identifier + "/" + Operations(req) + "#source=")
  }

  /** A request for such an identifier shares its key with a request for the other. */
  lemma AliasedKey(c: Call, d: Call)
    requires d.req.Image? && c.req == Spelling(d.req) && c.invalidation == "" && d.invalidation != ""
    requires c.version == "#invalidate=" + d.invalidation && d.version == "/" + Operations(c.req) + "#source="
    ensures KeyOf(c) == KeyOf(d)
  {
    hide DerivativeKey, Operations;
    var tail1, tail2 := Tail(d.version, d.invalidation), Tail(c.version, c.invalidation);
    assert tail1 == "" + "/" + Operations(c.req) + "#source=" + tail2;
    assert c.req.identifier == d.req.identifier + "/" + Operations(d.req) + "#source=" + "";
    AliasMeets(d.req, tail1, c.req, tail2, "");
    assert KeyOf(d) == DerivativeKey(d.req) + "#source=" + tail1 && KeyOf(c) == DerivativeKey(c.req) + "#source=" + tail2;
  }

  lemma AliasVersionIsForeign(stamp: Stamp, head: string)
    requires GoodStamp(stamp)
    ensures Foreign(stamp, head + "#source=")
  {
    hide HasSuffix, TrimSpace, Moment;
    var v := head + "#source=";
    assert v == v + "" && v[|v| - 1] == '=' && '=' !in MARKER;
    SuffixAfter(v, "", '=', MARKER);
    NotLonger("", MARKER);
    forall t ensures !HasSuffix(v, "#invalidate=" + stamp(t)) {
      TraceWithin(head, "", stamp(t));
      NotLonger("", "#invalidate=" + stamp(t));
    }
  }

  // Two calls that miss one derivative store it one after the other. If its key is the marker key of another
  // identifier, the second store hides that identifier's invalidation behind the first.

  function Overwriting(b: Call, a: Call, x: string, body: string): seq<Event> {
    [Read(1, 0, b.req, b.version), Look(2, 0), Read(3, 1, b.req, b.version), Look(4, 1), Store(5, 0, x),
     Read(6, 2, a.req, a.version), Look(7, 2), Store(8, 2, body),
     Draw(9, 0, a.req.identifier), Mark(10, 0), Store(11, 1, x),
     Read(12, 3, a.req, a.version), Look(13, 3)]
  }

  function OverwrittenStates(stamp: Stamp, b: Call, a: Call, x: string, body: string): seq<Sys>
    requires b.req.Image? && a.req.Image?
  {
    var m, key := KeyOf(b), KeyOf(a);
    var b1 := b.(began := 3);
    var two := map[0 := b.(stage := Missed), 1 := b1.(stage := Missed)];
    var stored := two[0 := b.(stage := Rendered)];
    var first := map[m := Entry(x, 5, 1)];
    var older := Entry(body, 8, 6);
    var three := stored[2 := a.(stage := Rendered)];
    var inv := Invalidation(a.req.identifier, 9, None);
    var marked := map[0 := inv.(marked := Some(10))];
    var done := three[1 := b1.(stage := Rendered)];
    var last := map[m := Entry(x, 11, 3), key := older];
    var c := a.(began := 12);
    [Init(0),
     Sys(1, map[], map[0 := b], map[]),
     Sys(2, map[], map[0 := b.(stage := Missed)], map[]),
     Sys(3, map[], map[0 := b.(stage := Missed), 1 := b1], map[]),
     Sys(4, map[], two, map[]),
     Sys(5, first, stored, map[]),
     Sys(6, first, stored[2 := a], map[]),
     Sys(7, first, stored[2 := a.(stage := Missed)], map[]),
     Sys(8, first[key := older], three, map[]),
     Sys(9, first[key := older], three, map[0 := inv]),
     Sys(10, map[m := Entry(stamp(9), 10, 10), key := older], three, marked),
     Sys(11, last, done, marked),
     Sys(12, last, done[3 := c], marked),
     Sys(13, last, done[3 := c.(stage := FromCache(older, 13))], marked)]
  }

  /** b's key is the marker key of a's identifier; a reads x there. */
  ghost predicate Overwrites(stamp: Stamp, b: Call, a: Call, x: string) {
    && b.req.Image? && a.req.Image? && b.version != "" && a.version != ""
    && b == Call(b.req, b.version, "", 1, Keyed) && a == Call(a.req, a.version, x, 6, Keyed)
    && KeyOf(b) == MarkerKey(a.req.identifier) && KeyOf(a) != KeyOf(b)
    && x != "" && |x| <= 256 && TrimSpace(x) == x
  }

  lemma OverwritingBegins(maxAge: int, stamp: Stamp, b: Call, a: Call, x: string, body: string, k: nat)
    requires Overwrites(stamp, b, a, x) && k < 5
    ensures var states, es := OverwrittenStates(stamp, b, a, x, body), Overwriting(b, a, x, body);
            Leads(maxAge, stamp, states[k], es[k], states[k + 1])
  {
    hide KeyOf, MarkerKey, TrimSpace;
    SameKeys(b, b.(stage := Missed)); SameKeys(b, b.(began := 3)); SameKeys(b, b.(began := 3, stage := Missed));
  }

  lemma OverwritingStores(maxAge: int, stamp: Stamp, b: Call, a: Call, x: string, body: string, k: nat)
    requires Overwrites(stamp, b, a, x) && (maxAge <= 0 || maxAge >= 5) && 5 <= k < 9
    ensures var states, es := OverwrittenStates(stamp, b, a, x, body), Overwriting(b, a, x, body);
            Leads(maxAge, stamp, states[k], es[k], states[k + 1])
  {
    hide KeyOf, MarkerKey, TrimSpace;
    SameKeys(a, a.(stage := Missed));
  }

  lemma OverwritingHits(maxAge: int, stamp: Stamp, b: Call, a: Call, x: string, body: string, k: nat)
    requires Overwrites(stamp, b, a, x) && (maxAge <= 0 || maxAge >= 5) && 9 <= k < 13
    ensures var states, es := OverwrittenStates(stamp, b, a, x, body), Overwriting(b, a, x, body);
            Leads(maxAge, stamp, states[k], es[k], states[k + 1])
  {
    hide KeyOf, MarkerKey, TrimSpace;
    SameKeys(b, b.(began := 3, stage := Missed)); SameKeys(a, a.(began := 12));
  }

  lemma OverwritingDoesHarm(maxAge: int, stamp: Stamp, b: Call, a: Call, x: string)
    requires GoodStamp(stamp) && Overwrites(stamp, b, a, x) && (maxAge <= 0 || maxAge >= 5) && Foreign(stamp, a.version)
    ensures !Harmless(maxAge, stamp, b.version)
  {
    hide KeyOf, MarkerKey, GoodStamp, TrimSpace, Leads, Foreign;
    var states, es := OverwrittenStates(stamp, b, a, x, ""), Overwriting(b, a, x, "");
    forall k | 0 <= k < |es| ensures Leads(maxAge, stamp, states[k], es[k], states[k + 1]) {
      if k < 5 { OverwritingBegins(maxAge, stamp, b, a, x, "", k); }
      else if k < 9 { OverwritingStores(maxAge, stamp, b, a, x, "", k); }
      else { OverwritingHits(maxAge, stamp, b, a, x, "", k); }
    }
    ExecFollows(maxAge, stamp, 0, states, es);
    assert Threatens(maxAge, stamp, b.version, 0, es, 3, 0);
  }

  /** A version that ends like a marker key makes the marker key of another identifier. */
  lemma MarkerVersionsDefeatInvalidation(maxAge: int, stamp: Stamp, odd: string)
    requires GoodStamp(stamp) && (maxAge <= 0 || maxAge >= 5) && HasSuffix(odd, MARKER)
    ensures !Harmless(maxAge, stamp, odd)
  {
    hide KeyOf, MarkerKey, TrimSpace, Foreign, Harmless;
    var u := odd[..|odd| - |MARKER|];
    assert odd == u + MARKER;
    var b := Call(SAMPLE, odd, "", 1, Keyed);
    var id := SAMPLE.identifier + "/" + Operations(SAMPLE) + "#source=" + u;
    MarkerSpelled(b, u, id);
    var a := Call(SAMPLE.(identifier := id), "1", stamp(0), 6, Keyed);
    StampedKeysAreApart(stamp, a, 0, id);
    Stamped(stamp, 0);
    NotLonger("1", MARKER);
    PlainVersionsAreForeign(stamp, "1");
    OverwritingDoesHarm(maxAge, stamp, b, a, stamp(0));
  }

  lemma MarkerSpelled(b: Call, u: string, id: string)
    requires b.req.Image? && b.invalidation == "" && b.version == u + MARKER
    requires id == b.req.identifier + "/" + Operations(b.req) + "#source=" + u
    ensures KeyOf(b) == MarkerKey(id)
  {
    hide Operations;
    assert KeyOf(b) == "iiif/3/" + (b.req.identifier + "/" + Operations(b.req)) + "#source=" + (u + MARKER) + "";
    Spelled("iiif/3/", b.req.identifier + "/" + Operations(b.req), u, MARKER);
  }

  lemma Spelled(a: string, b: string, u: string, m: string)
    ensures (a + b) + "#source=" + (u + m) + "" == a + (b + "#source=" + u) + m
  {
  }

  /** Exactly which versions are safe: among runs whose other versions are foreign, an odd one can do harm if and only
      if it ends like a marker key, or in the trace of an invalidation after a foreign version. (With an age
      limit of less than five ticks of the clock an entry expires before it could be hit.) */
  lemma HarmlessIffTolerable(maxAge: int, stamp: Stamp, odd: string)
    requires GoodStamp(stamp) && (maxAge <= 0 || maxAge >= 5)
    ensures Harmless(maxAge, stamp, odd) <==> Tolerable(stamp, odd)
  {
    hide Harmless, Foreign, HasSuffix, Moment;
    if Tolerable(stamp, odd) {
      TolerableIsHarmless(maxAge, stamp, odd);
    } else if HasSuffix(odd, MARKER) {
      MarkerVersionsDefeatInvalidation(maxAge, stamp, odd);
    } else {
      var t, v :| Moment(t) && odd == v + ("#invalidate=" + stamp(t)) && Foreign(stamp, v);
      ForgedVersionsDefeatInvalidation(maxAge, stamp, odd, v, t);
    }
  }

  /** A tolerable version need not be foreign itself: after one that ends like a marker key a trace is harmless. */
  lemma TolerableNotForeign(stamp: Stamp, t: int)
    requires GoodStamp(stamp) && Moment(t)
    ensures var version := MARKER + ("#invalidate=" + stamp(t));
            Tolerable(stamp, version) && !Foreign(stamp, version)
  {
    hide HasSuffix, TrimSpace, Moment;
    var trace := "#invalidate=" + stamp(t);
    SuffixOfConcat(MARKER, trace);
    MarkerIsNotForeign(stamp);
    TraceEndsInNoMarker(stamp, MARKER, t);
    forall s, v | Moment(s) && MARKER + trace == v + ("#invalidate=" + stamp(s)) ensures v == MARKER {
      SameTrace(stamp, MARKER, t, v, s);
    }
  }

  lemma MarkerIsNotForeign(stamp: Stamp)
    ensures !Foreign(stamp, MARKER)
  {
    SuffixOfConcat("", MARKER);
    assert "" + MARKER == MARKER;
  }

  lemma TraceEndsInNoMarker(stamp: Stamp, v: string, t: int)
    requires GoodStamp(stamp)
    ensures !HasSuffix(v + ("#invalidate=" + stamp(t)), MARKER)
  {
    hide HasSuffix, TrimSpace;
    var trace := "#invalidate=" + stamp(t);
    var version := v + trace;
    assert '/' !in "#invalidate=" && '/' !in trace && |trace| >= 13 && MARKER[|MARKER| - 13] == '/';
    assert version[|version| - 13] == trace[|trace| - 13];
    SuffixChar(version, MARKER, 13);
  }

  lemma SameTrace(stamp: Stamp, v: string, t: int, w: string, s: int)
    requires GoodStamp(stamp) && v + ("#invalidate=" + stamp(t)) == w + ("#invalidate=" + stamp(s))
    ensures v == w
  {
    hide TrimSpace;
    assert v + ("#invalidate=" + stamp(t)) == v + "#" + ("invalidate=" + stamp(t));
    assert w + ("#invalidate=" + stamp(s)) == w + "#" + ("invalidate=" + stamp(s));
    SameLastPart(v, "invalidate=" + stamp(t), w, "invalidate=" + stamp(s));
  }

  lemma SameKeys(c: Call, d: Call)
    requires c.req.Image? && c.req == d.req && c.version == d.version && c.invalidation == d.invalidation
    ensures KeyOf(c) == KeyOf(d)
  {
  }

  // ---------- the file store is such a cache ----------

  /** From a moment on, the files answer every lookup as the cache does. */
  ghost predicate Represents(c: Config, disk: Disk, cache: map<string, Entry>, from: int)
    requires GoodConfig(c)
  {
    forall k, t | t >= from :: AnswersAs(Answers(c, disk, k, t), Lookup(c.maxAge, cache, k, t))
  }

  predicate AnswersAs(a: Answer, found: Option<Entry>) {
    if found.Some? then a.Hit? && a.body == found.value.body && a.storedAt == found.value.storedAt else !a.Hit?
  }

  /** A cleanup pass, wherever it stops and whatever it fails to remove, is no step of the cache at all. */
  lemma CleanupRefines(c: Config, disk: Disk, cache: map<string, Entry>, from: int, now: int, seen: seq<string>, stuck: set<string>)
    requires GoodConfig(c) && Represents(c, disk, cache, from) && from <= now
    ensures Represents(c, Swept(c, disk, now, seen, stuck), cache, now)
  {
    hide Swept, Lookup;
    forall k, t | t >= now
      ensures AnswersAs(Answers(c, Swept(c, disk, now, seen, stuck), k, t), Lookup(c.maxAge, cache, k, t))
    {
      CleanupKeepsHits(c, disk, now, seen, stuck, k, t);
      assert AnswersAs(Answers(c, disk, k, t), Lookup(c.maxAge, cache, k, t));
    }
  }

  lemma CleanupKeepsHits(c: Config, disk: Disk, now: int, seen: seq<string>, stuck: set<string>, key: string, t: int)
    requires GoodConfig(c) && now <= t
    ensures var before, after := Answers(c, disk, key, t), Answers(c, Swept(c, disk, now, seen, stuck), key, t);
            before == after || (!before.Hit? && !after.Hit?)
  {
    CleanupIsInvisible(c, disk, now, seen, stuck, key, t);
    if Answers(c, disk, key, t).Broken? { BrokenNeverHits(c, disk, now, seen, stuck, key, t); }
  }

  lemma BrokenNeverHits(c: Config, disk: Disk, now: int, seen: seq<string>, stuck: set<string>, key: string, t: int)
    requires GoodConfig(c) && Answers(c, disk, key, t).Broken?
    ensures !Answers(c, Swept(c, disk, now, seen, stuck), key, t).Hit?
  {
    hide Goes, DataPath, MetaPath;
  }

  /** Installing a payload, with its `.meta` file where there is one, is the cache's store. */
  lemma PutRefines(c: Config, disk: Disk, cache: map<string, Entry>, from: int, key: string, contentType: string, entry: Entry)
    requires GoodConfig(c) && Represents(c, disk, cache, from)
    ensures var meta := if c.typed then Some(File(c.encodeMeta(contentType), entry.storedAt, true)) else None;
            Represents(c, Installed(c, disk, key, Some(File(entry.body, entry.storedAt, true)), meta), cache[key := entry], from)
  {
    var data := Some(File(entry.body, entry.storedAt, true));
    var meta := if c.typed then Some(File(c.encodeMeta(contentType), entry.storedAt, true)) else None;
    assert c.decodeMeta(c.encodeMeta(contentType)) == Some(contentType);
    hide Installed, Answers;
    forall k, t | t >= from
      ensures AnswersAs(Answers(c, Installed(c, disk, key, data, meta), k, t), Lookup(c.maxAge, cache[key := entry], k, t))
    {
      InstalledAnswers(c, disk, key, data, meta, k, t);
      assert AnswersAs(Answers(c, disk, k, t), Lookup(c.maxAge, cache, k, t));
    }
  }
}
