/**
 Background refreshes of internal/storage/caching.go. A stale hit starts a refresh
 unless one is under way for its identifier; the refresh opens the inner source, puts
 what it got in the store, and takes itself off the list. Any number of refreshes
 and of callers that miss, open the inner source and store, interleave.
 */
module Refreshing {
  import opened Wrappers

  datatype Worker =
    | Spawned(identifier: string)
    | Opened(identifier: string, body: string)
    | Returning(identifier: string)             // the deferred removal is still to come
    | Gone(identifier: string)

  /** A caller that missed has opened the inner source; the put is still to come, or was tried. */
  datatype Fetch = Fetch(identifier: string, content: string, put: bool)

  /** `answers` remembers what the inner source ever gave, by identifier. */
  datatype Sys = Sys(refreshing: set<string>, workers: map<nat, Worker>, fetches: map<nat, Fetch>,
                     store: map<string, string>, answers: set<(string, string)>)

  datatype Event =
    | StaleHit(w: nat, identifier: string)             // startRefresh; w is the goroutine, if one is needed
    | Open(w: nat, body: Option<string>)               // None: the inner source fails
    | Put(w: nat, fails: bool)
    | Remove(w: nat)
    | Miss(f: nat, identifier: string, content: string)   // a caller finds nothing and opens the inner source
    | MissPut(f: nat, fails: bool)                        // and stores what it got

  predicate Enabled(s: Sys, e: Event) {
    match e
    case StaleHit(w, _) => w !in s.workers
    case Open(w, _) => w in s.workers && s.workers[w].Spawned?
    case Put(w, _) => w in s.workers && s.workers[w].Opened?
    case Remove(w) => w in s.workers && s.workers[w].Returning?
    case Miss(f, _, _) => f !in s.fetches
    case MissPut(f, _) => f in s.fetches && !s.fetches[f].put
  }

  /** The locked part of `startRefresh`: whether to start a goroutine. */
  function Start(refreshing: set<string>, identifier: string): (set<string>, bool) {
    (refreshing + {identifier}, identifier !in refreshing)
  }

  function Next(s: Sys, e: Event): Sys
    requires Enabled(s, e)
  {
    match e
    case StaleHit(w, id) =>
      var (refreshing, start) := Start(s.refreshing, id);
      if start then s.(refreshing := refreshing, workers := s.workers[w := Spawned(id)]) else s
    case Open(w, body) =>
      var id := s.workers[w].identifier;
      if body.None? then s.(workers := s.workers[w := Returning(id)])
      else s.(workers := s.workers[w := Opened(id, body.value)], answers := s.answers + {(id, body.value)})
    case Put(w, fails) =>
      var worker := s.workers[w];
      s.(workers := s.workers[w := Returning(worker.identifier)],
         store := if fails then s.store else s.store[worker.identifier := worker.body])
    case Remove(w) =>
      var id := s.workers[w].identifier;
      s.(refreshing := s.refreshing - {id}, workers := s.workers[w := Gone(id)])
    case Miss(f, id, content) => s.(fetches := s.fetches[f := Fetch(id, content, false)], answers := s.answers + {(id, content)})
    case MissPut(f, fails) =>
      var fetch := s.fetches[f];
      s.(fetches := s.fetches[f := fetch.(put := true)],
         store := if fails then s.store else s.store[fetch.identifier := fetch.content])
  }

  const INIT: Sys := Sys({}, map[], map[], map[], {})

  function Exec(es: seq<Event>): Option<Sys> {
    if es == [] then Some(INIT)
    else
      var before := Exec(es[..|es| - 1]);
      var e := es[|es| - 1];
      if before.Some? && Enabled(before.value, e) then Some(Next(before.value, e)) else None
  }

  predicate Live(s: Sys, w: nat, identifier: string) {
    w in s.workers && !s.workers[w].Gone? && s.workers[w].identifier == identifier
  }

  /** The list names exactly the identifiers being refreshed, each by one goroutine. */
  ghost predicate ListInv(s: Sys) {
    && (forall id :: id in s.refreshing <==> exists w :: Live(s, w, id))
    && (forall w, v, id :: Live(s, w, id) && Live(s, v, id) ==> w == v)
  }

  ghost predicate StoreInv(s: Sys) {
    && (forall id <- s.store :: (id, s.store[id]) in s.answers)
    && (forall f <- s.fetches :: (s.fetches[f].identifier, s.fetches[f].content) in s.answers)
    && (forall w <- s.workers :: s.workers[w].Opened? ==> (s.workers[w].identifier, s.workers[w].body) in s.answers)
  }

  /** Who is live for what after a step. */
  lemma LiveStep(s: Sys, e: Event, w: nat, identifier: string)
    requires ListInv(s) && Enabled(s, e)
    ensures Live(Next(s, e), w, identifier) <==>
            if e.Remove? then Live(s, w, identifier) && w != e.w
            else Live(s, w, identifier) || (e.StaleHit? && e.w == w && e.identifier == identifier && identifier !in s.refreshing)
  {
  }

  lemma ListStep(s: Sys, e: Event)
    requires ListInv(s) && Enabled(s, e)
    ensures ListInv(Next(s, e))
  {
    var s' := Next(s, e);
    forall w, id
      ensures Live(s', w, id) <==>
              if e.Remove? then Live(s, w, id) && w != e.w
              else Live(s, w, id) || (e.StaleHit? && e.w == w && e.identifier == id && id !in s.refreshing)
    {
      LiveStep(s, e, w, id);
    }
    assert e.Remove? ==> Live(s, e.w, s.workers[e.w].identifier);
    forall id ensures id in s'.refreshing <==> exists w :: Live(s', w, id) {
      if e.StaleHit? && id == e.identifier && id !in s.refreshing { assert Live(s', e.w, id); }
      if w :| Live(s, w, id) {
        assert Live(s', w, id) || (e.Remove? && e.w == w);
      }
    }
  }

  lemma StoreStep(s: Sys, e: Event)
    requires StoreInv(s) && Enabled(s, e)
    ensures StoreInv(Next(s, e))
  {
  }

  lemma {:induction false} RunsKeepInv(es: seq<Event>)
    requires Exec(es).Some?
    ensures ListInv(Exec(es).value) && StoreInv(Exec(es).value)
  {
    if es != [] {
      RunsKeepInv(es[..|es| - 1]);
      ListStep(Exec(es[..|es| - 1]).value, es[|es| - 1]);
      StoreStep(Exec(es[..|es| - 1]).value, es[|es| - 1]);
    }
  }

  /** At most one refresh is under way for an identifier. */
  lemma OneRefreshPerIdentifier(es: seq<Event>, identifier: string, w: nat, v: nat)
    requires Exec(es).Some? && Live(Exec(es).value, w, identifier) && Live(Exec(es).value, v, identifier)
    ensures w == v
  {
    RunsKeepInv(es);
  }

  /** A stale hit starts a refresh exactly when none is under way: none is lost, and none is blocked for ever. */
  lemma StaleHitsStartWhenIdle(es: seq<Event>, identifier: string, w: nat)
    requires Exec(es).Some? && Enabled(Exec(es).value, StaleHit(w, identifier))
    ensures Live(Next(Exec(es).value, StaleHit(w, identifier)), w, identifier) <==> !exists v :: Live(Exec(es).value, v, identifier)
  {
    RunsKeepInv(es);
  }

  /** What is stored for an identifier the inner source gave for it. */
  lemma StoreHoldsWhatWasOpened(es: seq<Event>, identifier: string)
    requires Exec(es).Some? && identifier in Exec(es).value.store
    ensures (identifier, Exec(es).value.store[identifier]) in Exec(es).value.answers
  {
    RunsKeepInv(es);
  }

  /** Step k of the run put content in the store for the identifier: a refresh what it had opened, or a caller what
      it had opened after a miss. */
  ghost predicate PutAt(es: seq<Event>, k: nat, identifier: string, content: string) {
    && k < |es| && Exec(es[..k]).Some?
    && var s := Exec(es[..k]).value;
    && (|| (es[k].Put? && !es[k].fails && es[k].w in s.workers && s.workers[es[k].w] == Opened(identifier, content))
        || (es[k].MissPut? && !es[k].fails && es[k].f in s.fetches && s.fetches[es[k].f] == Fetch(identifier, content, false)))
  }

  ghost predicate PutsAt(es: seq<Event>, k: nat, identifier: string) { exists content :: PutAt(es, k, identifier, content) }

  lemma PutStep(es: seq<Event>, identifier: string)
    requires es != [] && Exec(es).Some?
    ensures var n := |es| - 1;
            var (before, after) := (Exec(es[..n]).value.store, Exec(es).value.store);
            && (forall content :: PutAt(es, n, identifier, content) ==> identifier in after && after[identifier] == content)
            && (!PutsAt(es, n, identifier) ==> (identifier in after <==> identifier in before)
                                               && (identifier in after ==> after[identifier] == before[identifier]))
  {
    var n := |es| - 1;
    var s, e := Exec(es[..n]).value, es[n];
    if e.Put? && !e.fails { assert PutAt(es, n, s.workers[e.w].identifier, s.workers[e.w].body); }
    if e.MissPut? && !e.fails { assert PutAt(es, n, s.fetches[e.f].identifier, s.fetches[e.f].content); }
  }

  /** No later step of the run puts anything for the identifier. */
  ghost predicate NoPutAfter(es: seq<Event>, k: nat, identifier: string) {
    forall i: nat :: k < i < |es| ==> !PutsAt(es, i, identifier)
  }

  ghost predicate LastPut(es: seq<Event>, identifier: string, content: string) {
    exists k: nat :: PutAt(es, k, identifier, content) && NoPutAfter(es, k, identifier)
  }

  predicate Stored(s: Sys, identifier: string, content: string) {
    identifier in s.store && s.store[identifier] == content
  }

  /** What was put last before the final step is put last still, unless that step puts. */
  lemma LastPutStep(es: seq<Event>, identifier: string, content: string)
    requires es != []
    ensures var n := |es| - 1;
            && (PutAt(es, n, identifier, content) ==> LastPut(es, identifier, content))
            && (!PutsAt(es, n, identifier) ==> (LastPut(es, identifier, content) <==> LastPut(es[..n], identifier, content)))
            && (PutsAt(es, n, identifier) && LastPut(es, identifier, content) ==> PutAt(es, n, identifier, content))
  {
    hide PutAt;
    var n := |es| - 1;
    PutBounds(es, identifier);
    PutBounds(es[..n], identifier);
    forall k: nat, any | k < n ensures PutAt(es, k, identifier, any) <==> PutAt(es[..n], k, identifier, any) {
      EarlierPut(es, k, identifier, any);
    }
    assert forall k: nat :: k < n ==> (PutsAt(es, k, identifier) <==> PutsAt(es[..n], k, identifier));
    assert forall k: nat :: PutsAt(es, k, identifier) ==> k <= n;
    if !PutsAt(es, n, identifier) {
      if k: nat :| PutAt(es, k, identifier, content) && NoPutAfter(es, k, identifier) {
        assert k < n && NoPutAfter(es[..n], k, identifier);
      }
      if k: nat :| PutAt(es[..n], k, identifier, content) && NoPutAfter(es[..n], k, identifier) {
        assert k < n && NoPutAfter(es, k, identifier);
      }
    } else if k: nat :| PutAt(es, k, identifier, content) && NoPutAfter(es, k, identifier) {
      assert k == n;
    }
    if PutAt(es, n, identifier, content) { assert NoPutAfter(es, n, identifier); }
  }

  /** In every run the store holds for an identifier exactly what was put last, and nothing only if nothing was. */
  lemma {:induction false} StoreHoldsTheLastPut(es: seq<Event>, identifier: string, content: string)
    requires Exec(es).Some?
    ensures Stored(Exec(es).value, identifier, content) <==> LastPut(es, identifier, content)
  {
    hide Next, Enabled, PutAt;
    PutBounds(es, identifier);
    if es != [] {
      PutStep(es, identifier);
      LastPutStep(es, identifier, content);
      StoreHoldsTheLastPut(es[..|es| - 1], identifier, content);
    }
  }

  lemma PutBounds(es: seq<Event>, identifier: string)
    ensures forall k: nat, content :: PutAt(es, k, identifier, content) ==> k < |es|
    ensures es == [] ==> forall k: nat, content :: !PutAt(es, k, identifier, content)
  {
  }

  lemma EarlierPut(es: seq<Event>, k: nat, identifier: string, content: string)
    requires es != [] && k < |es| - 1
    ensures PutAt(es, k, identifier, content) <==> PutAt(es[..|es| - 1], k, identifier, content)
  {
    assert es[..|es| - 1][..k] == es[..k];
  }

  class RefreshList {
    var refreshing: set<string>

    constructor ()
      ensures refreshing == {}
    {
      refreshing := {};
    }

    /** The locked part of `startRefresh`. */
    method StartRefresh(identifier: string) returns (start: bool)
      modifies this
      ensures (refreshing, start) == Start(old(refreshing), identifier)
    {
      if identifier in refreshing {
        assert refreshing + {identifier} == refreshing;
        return false;
      }
      refreshing := refreshing + {identifier};
      return true;
    }

    /** The deferred removal. */
    method Remove(identifier: string)
      modifies this
      ensures refreshing == old(refreshing) - {identifier}
    {
      refreshing := refreshing - {identifier};
    }
  }
}
