/**
 The cache of authorization decisions in internal/storage/local_url.go:
 entries expire, and each scope (tier and mapping prefix) is bounded.
 Time is a number; each method runs under `authMu` at one reading of the clock.
 */
module AuthCache {
  import opened Wrappers

  /** What a probe, or waiting for one, ended with. */
  datatype Outcome = Allowed | Forbidden | NotFound | Cancelled | OtherError

  /** An `authCacheEntry`, with the number of the probe it records. */
  datatype Entry = Entry(scope: string, identifier: string, outcome: Outcome, expiresAt: int, probe: nat)

  type Entries = map<string, Entry>

  predicate Expired(e: Entry, now: int) { now > e.expiresAt }

  function InScope(entries: Entries, scope: string): set<string> {
    set k | k in entries && entries[k].scope == scope
  }

  /** `cachedAuth`: what the cache answers, and the cache afterwards. */
  function LookedUp(entries: Entries, key: string, now: int): (Entries, Option<Entry>) {
    if key !in entries then (entries, None)
    else if Expired(entries[key], now) then (entries - {key}, None)
    else (entries, Some(entries[key]))
  }

  predicate PartOf(kept: Entries, entries: Entries) {
    forall k <- kept :: k in entries && kept[k] == entries[k]
  }

  /** What eviction may leave: other scopes untouched; in the scope nothing expired, fewer than
      `maxEntries` entries, no entry dropped that outlives a survivor, and none dropped without need. */
  predicate Evicts(entries: Entries, scope: string, maxEntries: int, now: int, kept: Entries) {
    && PartOf(kept, entries)
    && (forall k <- entries :: entries[k].scope != scope ==> k in kept)
    && (forall k <- kept :: kept[k].scope == scope ==> !Expired(kept[k], now))
    && |InScope(kept, scope)| < maxEntries
    && (forall k, q :: k in entries && k !in kept && q in kept && kept[q].scope == scope ==>
                         entries[k].expiresAt <= kept[q].expiresAt)
    && (forall k <- entries :: k !in kept && !Expired(entries[k], now) ==> |InScope(kept, scope)| == maxEntries - 1)
  }

  /** `storeAuth` with the eviction left open. */
  ghost predicate Stores(entries: Entries, key: string, e: Entry, maxEntries: int, now: int, entries': Entries) {
    exists kept :: entries' == kept[key := e] && Evicts(entries, e.scope, maxEntries, now, kept)
  }

  function Invalidated(entries: Entries, identifier: string): Entries {
    map k | k in entries && entries[k].identifier != identifier :: entries[k]
  }

  lemma ScopeAfterInsert(kept: Entries, key: string, e: Entry)
    ensures |InScope(kept[key := e], e.scope)| <= |InScope(kept, e.scope)| + 1
    ensures forall other :: other != e.scope && (key in kept ==> kept[key].scope == e.scope) ==>
      InScope(kept[key := e], other) == InScope(kept, other)
  {
    assert InScope(kept[key := e], e.scope) == InScope(kept, e.scope) + {key};
  }

  lemma ScopeAfterRemoval(entries: Entries, key: string)
    requires key in entries
    ensures |InScope(entries - {key}, entries[key].scope)| == |InScope(entries, entries[key].scope)| - 1
  {
    assert InScope(entries, entries[key].scope) == InScope(entries - {key}, entries[key].scope) + {key};
  }

  /** After a store the scope holds at most `maxEntries` entries, the new one among them; an entry of
      another scope is what it was (keys name their scope), and whatever was dropped expires no later
      than every older entry that stayed. */
  lemma StoreKeepsScopesBounded(entries: Entries, key: string, e: Entry, maxEntries: int, now: int, entries': Entries)
    requires Stores(entries, key, e, maxEntries, now, entries')
    requires key in entries ==> entries[key].scope == e.scope
    ensures |InScope(entries', e.scope)| <= maxEntries && key in entries' && entries'[key] == e
    ensures forall other :: other != e.scope ==> InScope(entries', other) == InScope(entries, other)
    ensures forall k <- entries :: entries[k].scope != e.scope ==> k in entries' && entries'[k] == entries[k]
    ensures forall k, q :: k in entries && k !in entries' && q in entries' && q != key && entries'[q].scope == e.scope ==>
      q in entries && entries'[q] == entries[q] && entries[k].expiresAt <= entries[q].expiresAt
  {
    var kept :| entries' == kept[key := e] && Evicts(entries, e.scope, maxEntries, now, kept);
    ScopeAfterInsert(kept, key, e);
    forall other | other != e.scope
      ensures InScope(entries', other) == InScope(entries, other)
    {
      assert InScope(kept, other) == InScope(entries, other);
    }
  }

  /** `authCacheScopeLen`; map iteration takes the keys in any order. */
  method AuthCacheScopeLen(entries: Entries, scope: string) returns (n: nat)
    ensures n == |InScope(entries, scope)|
  {
    n := 0;
    var rest := entries.Keys;
    ghost var counted: set<string> := {};
    while rest != {}
      invariant rest <= entries.Keys
      invariant counted == set k | k in InScope(entries, scope) && k !in rest
      invariant n == |counted|
    {
      var key :| key in rest;
      rest := rest - {key};
      if entries[key].scope == scope {
        n := n + 1;
        counted := counted + {key};
      }
    }
    assert counted == InScope(entries, scope);
  }

  class DecisionCache {
    var auth: Entries

    /** Keys are digests, never empty: the eviction loop uses "" for "none found". */
    ghost predicate Valid()
      reads this
    {
      "" !in auth
    }

    constructor ()
      ensures Valid() && auth == map[]
    {
      auth := map[];
    }

    method CachedAuth(key: string, now: int) returns (hit: Option<Entry>)
      requires Valid()
      modifies this
      ensures Valid()
      ensures (auth, hit) == LookedUp(old(auth), key, now)
    {
      if key !in auth || Expired(auth[key], now) {
        if key in auth { auth := auth - {key}; }
        return None;
      }
      hit := Some(auth[key]);
    }

    method InvalidateAuth(identifier: string)
      requires Valid()
      modifies this
      ensures Valid()
      ensures auth == Invalidated(old(auth), identifier)
    {
      var rest := auth.Keys;
      while rest != {}
        invariant rest <= auth.Keys
        invariant auth == map k | k in old(auth) && (k in rest || old(auth)[k].identifier != identifier) :: old(auth)[k]
      {
        var key :| key in rest;
        rest := rest - {key};
        if auth[key].identifier == identifier { auth := auth - {key}; }
      }
    }

    method StoreAuth(key: string, e: Entry, maxEntries: int, now: int)
      requires Valid() && key != "" && maxEntries > 0
      modifies this
      ensures Valid()
      ensures Stores(old(auth), key, e, maxEntries, now, auth)
    {
      EvictAuthLocked(e.scope, maxEntries, now);
      auth := auth[key := e];
    }

    method EvictAuthLocked(scope: string, maxEntries: int, now: int)
      requires Valid()
      modifies this
      ensures Valid()
      ensures if maxEntries <= 0 then auth == old(auth) else Evicts(old(auth), scope, maxEntries, now, auth)
    {
      if maxEntries <= 0 { return; }
      var rest := auth.Keys;
      while rest != {}
        invariant rest <= auth.Keys
        invariant auth == map k | k in old(auth) && (k in rest || !(old(auth)[k].scope == scope && Expired(old(auth)[k], now))) :: old(auth)[k]
      {
        var key :| key in rest;
        rest := rest - {key};
        if auth[key].scope == scope && Expired(auth[key], now) { auth := auth - {key}; }
      }
      var n := AuthCacheScopeLen(auth, scope);
      while n >= maxEntries
        invariant Valid() && n == |InScope(auth, scope)|
        invariant PartOf(auth, old(auth))
        invariant forall k <- old(auth) :: old(auth)[k].scope != scope ==> k in auth
        invariant forall k <- auth :: auth[k].scope == scope ==> !Expired(auth[k], now)
        invariant forall k, q :: k in old(auth) && k !in auth && q in auth && auth[q].scope == scope ==>
          old(auth)[k].expiresAt <= auth[q].expiresAt
        invariant forall k <- old(auth) :: k !in auth && !Expired(old(auth)[k], now) ==> n >= maxEntries - 1
        decreases n
      {
        var oldestKey := FindOldest(scope);
        assert oldestKey in InScope(auth, scope);
        ScopeAfterRemoval(auth, oldestKey);
        auth := auth - {oldestKey};
        n := AuthCacheScopeLen(auth, scope);
      }
    }

    /** The inner scan for the entry of the scope that expires first. */
    method FindOldest(scope: string) returns (oldestKey: string)
      requires Valid() && InScope(auth, scope) != {}
      ensures oldestKey in InScope(auth, scope)
      ensures forall q <- InScope(auth, scope) :: auth[oldestKey].expiresAt <= auth[q].expiresAt
    {
      oldestKey := "";
      var oldest := 0;
      var rest := auth.Keys;
      while rest != {}
        invariant rest <= auth.Keys
        invariant oldestKey == "" ==> InScope(auth, scope) <= rest
        invariant oldestKey != "" ==> oldestKey in InScope(auth, scope) && oldest == auth[oldestKey].expiresAt
        invariant forall q <- InScope(auth, scope) :: q !in rest ==> oldest <= auth[q].expiresAt
      {
        var key :| key in rest;
        rest := rest - {key};
        if auth[key].scope != scope { continue; }
        if oldestKey == "" || auth[key].expiresAt < oldest {
          oldestKey, oldest := key, auth[key].expiresAt;
        }
      }
    }
  }
}
