/**
 `authorize` of internal/storage/local_url.go as many goroutines run it: one
 probe in flight per key, followers waiting on buffered channels, allowed
 results cached. Each `authMu` critical section is one step; the probe itself,
 a receive and a cancellation are steps of their own, so a run is any
 interleaving of them with the clock and with invalidations.
 */
module AuthProbes {
  import opened AuthCache
  import opened AuthKeys
  import opened Digests
  import opened Strings
  import opened Wrappers

  /** One call: what is asked, with which credentials, under which mapping. */
  datatype Request = Request(prefix: string, identifier: string, headers: Headers, ttl: int, maxEntries: int)

  /** The probe a tier asks for: anonymous ones carry no credentials. */
  function SubjectOf(req: Request, tier: Tier): Subject {
    Subject(tier, req.prefix, req.identifier, if tier.Anonymous? then Headers([], []) else req.headers)
  }

  function KeyOf(hash: Digest, req: Request, tier: Tier): string {
    AuthCacheKey(hash, SubjectOf(req, tier))
  }

  function ScopeOf(hash: Digest, req: Request, tier: Tier): string {
    AuthCacheScope(hash, tier, req.prefix)
  }

  /** A completed probe and the goroutine that made it. */
  datatype Probe = Probe(subject: Subject, outcome: Outcome, prober: nat)

  /** Why an outcome was returned; `probe` numbers the completed probes. */
  datatype Reason =
    | Led(probe: nat)
    | Joined(probe: nat, leader: nat)
    | FromCache(probe: nat, lookedUpAt: int, expiresAt: int)
    | GaveUp

  datatype Pc =
    | LookingUp                                        // before cachedAuth
    | Beginning                                        // before beginAuthProbe
    | Probing                                          // the request is out
    | Probed(outcome: Outcome, probe: nat)             // before storeAuth
    | Finishing(outcome: Outcome, probe: nat)          // before finishAuthProbe
    | Waiting(chan: nat)                               // in the select
    | Decided(outcome: Outcome, reason: Reason)        // probeCached has returned
    | Returned(outcome: Outcome, reason: Reason)

  datatype Thread = Thread(req: Request, tier: Tier, pc: Pc)

  /** A waiter's channel of capacity one: the key it waits for, the goroutine whose probe was in flight
      when it was made, and what has been sent on it. */
  datatype Channel = Channel(key: string, leader: nat, sent: seq<(Outcome, nat)>, closed: bool)

  const CAPACITY := 1

  /** `inflight` is the table of waiters; `leading` notes who registered each of its keys. */
  datatype Sys = Sys(now: int, auth: Entries, inflight: map<string, seq<nat>>, leading: map<string, nat>,
                     chans: map<nat, Channel>, probes: seq<Probe>, threads: map<nat, Thread>)

  const INIT := Sys(0, map[], map[], map[], map[], [], map[])

  datatype Event =
    | Call(t: nat, req: Request)
    | LookUp(t: nat)
    | BeginProbe(t: nat, chan: nat)
    | ProbeReturns(t: nat, outcome: Outcome)
    | Store(t: nat, auth: Entries)                     // auth: the cache after storeAuth
    | SkipStore(t: nat)
    | FinishProbe(t: nat)
    | Receive(t: nat)
    | Cancel(t: nat)
    | Decide(t: nat)
    | Tick(later: int)
    | Invalidate(identifier: string)

  predicate HasThread(s: Sys, e: Event) { !e.Call? && !e.Tick? && !e.Invalidate? }

  /** `ttl > 0 && cacheableAuthProbeResult(err)`. */
  predicate Cacheable(req: Request, outcome: Outcome) { req.ttl > 0 && outcome.Allowed? }

  function NewEntry(hash: Digest, s: Sys, th: Thread): Entry
    requires th.pc.Probed?
  {
    Entry(ScopeOf(hash, th.req, th.tier), th.req.identifier, th.pc.outcome, s.now + th.req.ttl, th.pc.probe)
  }

  ghost predicate Enabled(hash: Digest, s: Sys, e: Event) {
    match e
    case Call(t, req) => t !in s.threads && req.maxEntries > 0
    case Tick(later) => later >= s.now
    case Invalidate(_) => true
    case _ =>
      && e.t in s.threads
      && var th := s.threads[e.t];
      match e
      case LookUp(_) => th.pc.LookingUp?
      case BeginProbe(_, chan) => th.pc.Beginning? && chan !in s.chans
      case ProbeReturns(_, _) => th.pc.Probing?
      case Store(_, auth) =>
        && th.pc.Probed? && Cacheable(th.req, th.pc.outcome)
        && Stores(s.auth, KeyOf(hash, th.req, th.tier), NewEntry(hash, s, th), th.req.maxEntries, s.now, auth)
      case SkipStore(_) => th.pc.Probed? && !Cacheable(th.req, th.pc.outcome)
      case FinishProbe(_) => th.pc.Finishing?
      case Receive(_) => th.pc.Waiting? && th.pc.chan in s.chans && s.chans[th.pc.chan].sent != []
      case Cancel(_) => th.pc.Waiting?
      case Decide(_) => th.pc.Decided?
  }

  function Waiters(s: Sys, key: string): seq<nat> {
    if key in s.inflight then s.inflight[key] else []
  }

  /** After `cachedAuth` with the answer `hit`. */
  function AfterLookUp(th: Thread, hit: Option<Entry>, now: int): Thread {
    if hit.None? then th.(pc := Beginning)
    else
      var reason := FromCache(hit.value.probe, now, hit.value.expiresAt);
      if th.tier.Anonymous? && hit.value.outcome != Allowed && HasAuthHeaders(th.req.headers)
      then th.(tier := Authenticated, pc := LookingUp)
      else th.(pc := Returned(hit.value.outcome, reason))
  }

  /** After `probeCached`: the anonymous answer stands unless it is a refusal and there are credentials to try. */
  function AfterProbe(th: Thread): Thread
    requires th.pc.Decided?
  {
    if th.tier.Anonymous? && HasAuthHeaders(th.req.headers) && (th.pc.outcome.Forbidden? || th.pc.outcome.NotFound?)
    then th.(tier := Authenticated, pc := LookingUp)
    else th.(pc := Returned(th.pc.outcome, th.pc.reason))
  }

  function Sent(chans: map<nat, Channel>, waiters: seq<nat>, outcome: Outcome, probe: nat): map<nat, Channel> {
    map ch | ch in chans ::
      if ch in waiters then chans[ch].(sent := chans[ch].sent + [(outcome, probe)], closed := true) else chans[ch]
  }

  function Move(s: Sys, t: nat, th: Thread): Sys { s.(threads := s.threads[t := th]) }

  function DoJoin(hash: Digest, s: Sys, t: nat, chan: nat): Sys
    requires t in s.threads && KeyOf(hash, s.threads[t].req, s.threads[t].tier) in s.inflight
  {
    var th := s.threads[t];
    var key := KeyOf(hash, th.req, th.tier);
    var leader := if key in s.leading then s.leading[key] else t;
    Move(s.(inflight := s.inflight[key := s.inflight[key] + [chan]], chans := s.chans[chan := Channel(key, leader, [], false)]),
         t, th.(pc := Waiting(chan)))
  }

  function DoLead(hash: Digest, s: Sys, t: nat): Sys
    requires t in s.threads
  {
    var th := s.threads[t];
    var key := KeyOf(hash, th.req, th.tier);
    Move(s.(inflight := s.inflight[key := []], leading := s.leading[key := t]), t, th.(pc := Probing))
  }

  function DoFinish(hash: Digest, s: Sys, t: nat): Sys
    requires t in s.threads && s.threads[t].pc.Finishing?
  {
    var th := s.threads[t];
    var key := KeyOf(hash, th.req, th.tier);
    Move(s.(inflight := s.inflight - {key}, leading := s.leading - {key},
            chans := Sent(s.chans, Waiters(s, key), th.pc.outcome, th.pc.probe)),
         t, th.(pc := Decided(th.pc.outcome, Led(th.pc.probe))))
  }

  function Next(hash: Digest, s: Sys, e: Event): Sys
    requires Enabled(hash, s, e)
  {
    match e
    case Call(t, req) => Move(s, t, Thread(req, Anonymous, LookingUp))
    case Tick(later) => s.(now := later)
    case Invalidate(identifier) => s.(auth := Invalidated(s.auth, identifier))
    case LookUp(t) =>
      var th := s.threads[t];
      var (auth, hit) := LookedUp(s.auth, KeyOf(hash, th.req, th.tier), s.now);
      Move(s.(auth := auth), t, AfterLookUp(th, hit, s.now))
    case BeginProbe(t, chan) =>
      if KeyOf(hash, s.threads[t].req, s.threads[t].tier) in s.inflight then DoJoin(hash, s, t, chan) else DoLead(hash, s, t)
    case ProbeReturns(t, outcome) =>
      var th := s.threads[t];
      Move(s.(probes := s.probes + [Probe(SubjectOf(th.req, th.tier), outcome, t)]), t, th.(pc := Probed(outcome, |s.probes|)))
    case Store(t, auth) =>
      var th := s.threads[t];
      Move(s.(auth := auth), t, th.(pc := Finishing(th.pc.outcome, th.pc.probe)))
    case SkipStore(t) =>
      var th := s.threads[t];
      Move(s, t, th.(pc := Finishing(th.pc.outcome, th.pc.probe)))
    case FinishProbe(t) => DoFinish(hash, s, t)
    case Receive(t) =>
      var th := s.threads[t];
      var ch := s.chans[th.pc.chan];
      Move(s, t, th.(pc := Decided(ch.sent[0].0, Joined(ch.sent[0].1, ch.leader))))
    case Cancel(t) =>
      var th := s.threads[t];
      Move(s, t, th.(pc := Decided(Cancelled, GaveUp)))
    case Decide(t) => Move(s, t, AfterProbe(s.threads[t]))
  }

  ghost function Exec(hash: Digest, es: seq<Event>): Option<Sys> {
    if es == [] then Some(INIT)
    else
      var before := Exec(hash, es[..|es| - 1]);
      var e := es[|es| - 1];
      if before.Some? && Enabled(hash, before.value, e) then Some(Next(hash, before.value, e)) else None
  }

  // ---------- the invariant ----------

  /** The probe numbered i is on record, for this key, with this outcome. */
  predicate OnRecord(hash: Digest, probes: seq<Probe>, i: nat, key: string, outcome: Outcome) {
    i < |probes| && AuthCacheKey(hash, probes[i].subject) == key && probes[i].outcome == outcome
  }

  predicate ReasonOk(hash: Digest, probes: seq<Probe>, t: nat, key: string, outcome: Outcome, reason: Reason) {
    match reason
    case Led(i) => OnRecord(hash, probes, i, key, outcome) && probes[i].prober == t
    case Joined(i, leader) => OnRecord(hash, probes, i, key, outcome) && probes[i].prober == leader
    case FromCache(i, at, until) => OnRecord(hash, probes, i, key, outcome) && at <= until && outcome == Allowed
    case GaveUp => outcome == Cancelled
  }

  predicate ThreadOk(hash: Digest, chans: map<nat, Channel>, probes: seq<Probe>, t: nat, th: Thread) {
    var key := KeyOf(hash, th.req, th.tier);
    && (th.tier.Authenticated? ==> HasAuthHeaders(th.req.headers))
    && match th.pc
       case Probed(outcome, i) => OnRecord(hash, probes, i, key, outcome) && probes[i].prober == t
       case Finishing(outcome, i) => OnRecord(hash, probes, i, key, outcome) && probes[i].prober == t
       case Waiting(ch) => ch in chans && chans[ch].key == key
       case Decided(outcome, reason) => ReasonOk(hash, probes, t, key, outcome, reason) && !reason.FromCache?
       case Returned(outcome, reason) => ReasonOk(hash, probes, t, key, outcome, reason)
       case _ => true
  }

  predicate EntryOk(hash: Digest, probes: seq<Probe>, key: string, e: Entry) {
    e.outcome == Allowed && OnRecord(hash, probes, e.probe, key, Allowed)
  }

  /** A channel is either registered under its leader's key and empty, or it was sent exactly the result
      of its leader's probe of that key and closed. */
  predicate ChanOk(hash: Digest, inflight: map<string, seq<nat>>, leading: map<string, nat>, probes: seq<Probe>, ch: nat, c: Channel) {
    if c.key in inflight && ch in inflight[c.key] then
      c.sent == [] && !c.closed && c.key in leading && leading[c.key] == c.leader
    else
      |c.sent| == 1 && c.closed && OnRecord(hash, probes, c.sent[0].1, c.key, c.sent[0].0) && probes[c.sent[0].1].prober == c.leader
  }

  predicate WaitersOk(chans: map<nat, Channel>, key: string, w: seq<nat>) {
    && (forall i :: 0 <= i < |w| ==> w[i] in chans && chans[w[i]].key == key)
    && (forall i, j :: 0 <= i < j < |w| ==> w[i] != w[j])
  }

  predicate Leads(hash: Digest, th: Thread, key: string) {
    (th.pc.Probing? || th.pc.Probed? || th.pc.Finishing?) && KeyOf(hash, th.req, th.tier) == key
  }

  ghost predicate LeadersInv(hash: Digest, s: Sys) {
    && s.leading.Keys == s.inflight.Keys
    && (forall k <- s.leading :: s.leading[k] in s.threads && Leads(hash, s.threads[s.leading[k]], k))
    && (forall t, k :: t in s.threads && Leads(hash, s.threads[t], k) ==> k in s.leading && s.leading[k] == t)
  }

  ghost predicate ThreadsInv(hash: Digest, s: Sys) {
    forall t <- s.threads :: ThreadOk(hash, s.chans, s.probes, t, s.threads[t])
  }

  ghost predicate CacheInv(hash: Digest, s: Sys) {
    forall k <- s.auth :: EntryOk(hash, s.probes, k, s.auth[k])
  }

  ghost predicate ChansInv(hash: Digest, s: Sys) {
    && (forall ch <- s.chans :: ChanOk(hash, s.inflight, s.leading, s.probes, ch, s.chans[ch]))
    && (forall k <- s.inflight :: WaitersOk(s.chans, k, s.inflight[k]))
  }

  /** Every completed probe was made for one of the requests. */
  ghost predicate ProbesInv(s: Sys) {
    forall i :: 0 <= i < |s.probes| ==>
      var p := s.probes[i];
      p.prober in s.threads && p.subject == SubjectOf(s.threads[p.prober].req, p.subject.tier)
  }

  ghost predicate Inv(hash: Digest, s: Sys) {
    LeadersInv(hash, s) && ThreadsInv(hash, s) && CacheInv(hash, s) && ChansInv(hash, s) && ProbesInv(s)
  }

  // ---------- every step keeps it ----------

  /** The records only grow and channels keep their key. */
  predicate Grows(s: Sys, s': Sys) {
    s.probes <= s'.probes && forall ch <- s.chans :: ch in s'.chans && s'.chans[ch].key == s.chans[ch].key
  }

  lemma ThreadStaysOk(hash: Digest, s: Sys, s': Sys, t: nat, th: Thread)
    requires Grows(s, s') && ThreadOk(hash, s.chans, s.probes, t, th)
    ensures ThreadOk(hash, s'.chans, s'.probes, t, th)
  {
    hide AuthCacheKey;
  }

  lemma NextGrows(hash: Digest, s: Sys, e: Event)
    requires Enabled(hash, s, e)
    ensures Grows(s, Next(hash, s, e))
    ensures forall t <- Next(hash, s, e).threads :: t in s.threads || e == Call(t, Next(hash, s, e).threads[t].req)
    ensures forall t <- s.threads :: t in Next(hash, s, e).threads && (!HasThread(s, e) || t != e.t ==> Next(hash, s, e).threads[t] == s.threads[t])
    ensures forall t <- s.threads :: Next(hash, s, e).threads[t].req == s.threads[t].req
  {
    hide AuthCacheKey, AuthCacheScope, Stores, LookedUp;
  }

  lemma AfterLookUpOk(hash: Digest, s: Sys, t: nat, chans: map<nat, Channel>)
    requires CacheInv(hash, s) && t in s.threads && s.threads[t].pc.LookingUp?
    requires s.threads[t].tier.Authenticated? ==> HasAuthHeaders(s.threads[t].req.headers)
    ensures var th := s.threads[t];
            ThreadOk(hash, chans, s.probes, t, AfterLookUp(th, LookedUp(s.auth, KeyOf(hash, th.req, th.tier), s.now).1, s.now))
  {
    hide AuthCacheKey, HasAuthHeaders;
  }

  lemma AfterReceiveOk(hash: Digest, s: Sys, t: nat)
    requires ChansInv(hash, s) && t in s.threads && ThreadOk(hash, s.chans, s.probes, t, s.threads[t])
    requires s.threads[t].pc.Waiting? && s.chans[s.threads[t].pc.chan].sent != []
    ensures var th := s.threads[t];
            var ch := s.chans[th.pc.chan];
            ThreadOk(hash, s.chans, s.probes, t, th.(pc := Decided(ch.sent[0].0, Joined(ch.sent[0].1, ch.leader))))
  {
    hide AuthCacheKey, HasAuthHeaders;
    var ch := s.threads[t].pc.chan;
    assert ChanOk(hash, s.inflight, s.leading, s.probes, ch, s.chans[ch]);
  }

  lemma MoverIsOk(hash: Digest, s: Sys, e: Event)
    requires Inv(hash, s) && Enabled(hash, s, e) && HasThread(s, e)
    ensures ThreadOk(hash, Next(hash, s, e).chans, Next(hash, s, e).probes, e.t, Next(hash, s, e).threads[e.t])
  {
    hide AuthCacheKey, ScopeOf, Stores, LookedUp, AfterLookUp, LeadersInv, CacheInv, ChansInv, Sent;
    assert ThreadOk(hash, s.chans, s.probes, e.t, s.threads[e.t]);
    if e.LookUp? {
      AfterLookUpOk(hash, s, e.t, s.chans);
    } else if e.Receive? {
      AfterReceiveOk(hash, s, e.t);
    }
  }

  lemma ThreadsStep(hash: Digest, s: Sys, e: Event)
    requires Inv(hash, s) && Enabled(hash, s, e)
    ensures ThreadsInv(hash, Next(hash, s, e))
  {
    hide Next, Enabled, ThreadOk, Grows;
    NextGrows(hash, s, e);
    var s' := Next(hash, s, e);
    forall t | t in s'.threads
      ensures ThreadOk(hash, s'.chans, s'.probes, t, s'.threads[t])
    {
      if HasThread(s, e) && t == e.t {
        MoverIsOk(hash, s, e);
      } else if t in s.threads {
        ThreadStaysOk(hash, s, s', t, s.threads[t]);
      } else {
        CallerIsOk(hash, s, t, s'.threads[t].req);
      }
    }
  }

  lemma CallerIsOk(hash: Digest, s: Sys, t: nat, req: Request)
    requires Enabled(hash, s, Call(t, req))
    ensures var s' := Next(hash, s, Call(t, req)); ThreadOk(hash, s'.chans, s'.probes, t, s'.threads[t])
  {
    hide AuthCacheKey;
  }

  /** A goroutine that moves without starting or ending to lead leaves the leaders as they are. */
  lemma LeadersMove(hash: Digest, s: Sys, t: nat, th: Thread)
    requires LeadersInv(hash, s)
    requires forall k :: Leads(hash, th, k) <==> t in s.threads && Leads(hash, s.threads[t], k)
    ensures LeadersInv(hash, Move(s, t, th))
  {
    hide Leads;
  }

  lemma LeadersStep(hash: Digest, s: Sys, e: Event)
    requires LeadersInv(hash, s) && Enabled(hash, s, e)
    ensures LeadersInv(hash, Next(hash, s, e))
  {
    hide AuthCacheKey, AuthCacheScope, Stores, LookedUp, LeadersInv;
    var s' := Next(hash, s, e);
    if e.FinishProbe? {
      FinishLeaders(hash, s, e.t);
    } else if e.BeginProbe? && KeyOf(hash, s.threads[e.t].req, s.threads[e.t].tier) !in s.inflight {
      LeadLeaders(hash, s, e.t);
    } else if HasThread(s, e) || e.Call? {
      var s0 := s.(auth := s'.auth, probes := s'.probes, inflight := s'.inflight, chans := s'.chans);
      SameLeaders(hash, s, s0);
      LeadersMove(hash, s0, e.t, s'.threads[e.t]);
    } else {
      SameLeaders(hash, s, s');
    }
  }

  lemma SameLeaders(hash: Digest, s: Sys, s': Sys)
    requires LeadersInv(hash, s) && s'.leading == s.leading && s'.inflight.Keys == s.inflight.Keys && s'.threads == s.threads
    ensures LeadersInv(hash, s')
  {
    hide Leads;
  }

  lemma FinishLeaders(hash: Digest, s: Sys, t: nat)
    requires LeadersInv(hash, s) && t in s.threads && s.threads[t].pc.Finishing?
    ensures LeadersInv(hash, DoFinish(hash, s, t))
  {
    hide AuthCacheKey;
  }

  lemma LeadLeaders(hash: Digest, s: Sys, t: nat)
    requires LeadersInv(hash, s) && t in s.threads && s.threads[t].pc.Beginning?
    requires KeyOf(hash, s.threads[t].req, s.threads[t].tier) !in s.inflight
    ensures LeadersInv(hash, DoLead(hash, s, t))
  {
    hide KeyOf;
    var th := s.threads[t];
    var key := KeyOf(hash, th.req, th.tier);
    assert forall k :: Leads(hash, th.(pc := Probing), k) <==> k == key;
    assert forall k :: !Leads(hash, th, k);
    hide Leads;
  }

  lemma CacheStep(hash: Digest, s: Sys, e: Event)
    requires Inv(hash, s) && Enabled(hash, s, e)
    ensures CacheInv(hash, Next(hash, s, e))
  {
    hide AuthCacheKey, AuthCacheScope;
  }

  lemma SameChans(hash: Digest, s: Sys, s': Sys)
    requires ChansInv(hash, s) && s'.chans == s.chans && s'.inflight == s.inflight && s'.leading == s.leading && s.probes <= s'.probes
    ensures ChansInv(hash, s')
  {
    hide AuthCacheKey;
  }

  lemma ChansStep(hash: Digest, s: Sys, e: Event)
    requires Inv(hash, s) && Enabled(hash, s, e)
    ensures ChansInv(hash, Next(hash, s, e))
  {
    hide AuthCacheKey, AuthCacheScope, Stores, LookedUp, ChansInv;
    if e.FinishProbe? {
      FinishChans(hash, s, e.t);
    } else if e.BeginProbe? && KeyOf(hash, s.threads[e.t].req, s.threads[e.t].tier) !in s.inflight {
      LeadChans(hash, s, e.t);
    } else if e.BeginProbe? {
      JoinChans(hash, s, e.t, e.chan);
    } else {
      SameChans(hash, s, Next(hash, s, e));
    }
  }

  lemma FinishChans(hash: Digest, s: Sys, t: nat)
    requires LeadersInv(hash, s) && ChansInv(hash, s)
    requires t in s.threads && s.threads[t].pc.Finishing? && ThreadOk(hash, s.chans, s.probes, t, s.threads[t])
    ensures ChansInv(hash, DoFinish(hash, s, t))
  {
    hide KeyOf;
    var s' := DoFinish(hash, s, t);
    var key := KeyOf(hash, s.threads[t].req, s.threads[t].tier);
    assert Leads(hash, s.threads[t], key);
    forall ch | ch in s.chans
      ensures ChanOk(hash, s'.inflight, s'.leading, s.probes, ch, s'.chans[ch]) && s'.chans[ch].key == s.chans[ch].key
    {
      FinishChan(hash, s, t, ch);
    }
    hide ChanOk, Leads, Sent;
  }

  lemma FinishChan(hash: Digest, s: Sys, t: nat, ch: nat)
    requires ChansInv(hash, s) && ch in s.chans
    requires t in s.threads && s.threads[t].pc.Finishing? && ThreadOk(hash, s.chans, s.probes, t, s.threads[t])
    requires var key := KeyOf(hash, s.threads[t].req, s.threads[t].tier); key in s.inflight && key in s.leading && s.leading[key] == t
    ensures var s' := DoFinish(hash, s, t);
            ch in s'.chans && s'.chans[ch].key == s.chans[ch].key
            && ChanOk(hash, s'.inflight, s'.leading, s.probes, ch, s'.chans[ch])
  {
    hide KeyOf, OnRecord, ReasonOk;
    assert ChanOk(hash, s.inflight, s.leading, s.probes, ch, s.chans[ch]);
  }

  lemma LeadChans(hash: Digest, s: Sys, t: nat)
    requires ChansInv(hash, s) && LeadersInv(hash, s)
    requires t in s.threads && s.threads[t].pc.Beginning? && KeyOf(hash, s.threads[t].req, s.threads[t].tier) !in s.inflight
    ensures ChansInv(hash, DoLead(hash, s, t))
  {
    hide KeyOf, OnRecord;
  }

  lemma JoinChans(hash: Digest, s: Sys, t: nat, chan: nat)
    requires ChansInv(hash, s) && LeadersInv(hash, s) && chan !in s.chans
    requires t in s.threads && s.threads[t].pc.Beginning? && KeyOf(hash, s.threads[t].req, s.threads[t].tier) in s.inflight
    ensures ChansInv(hash, DoJoin(hash, s, t, chan))
  {
    hide KeyOf, OnRecord;
    var s' := DoJoin(hash, s, t, chan);
    forall ch | ch in s'.chans
      ensures ChanOk(hash, s'.inflight, s'.leading, s'.probes, ch, s'.chans[ch])
    {
      if ch in s.chans { assert ChanOk(hash, s.inflight, s.leading, s.probes, ch, s.chans[ch]); }
    }
    hide ChanOk;
  }

  lemma ProbesStep(hash: Digest, s: Sys, e: Event)
    requires ProbesInv(s) && Enabled(hash, s, e)
    ensures ProbesInv(Next(hash, s, e))
  {
    hide Next, Enabled, KeyOf;
    NextGrows(hash, s, e);
    if e.ProbeReturns? { ProbeReturnsProbes(hash, s, e.t, e.outcome); } else { OtherProbes(hash, s, e); }
  }

  lemma ProbeReturnsProbes(hash: Digest, s: Sys, t: nat, outcome: Outcome)
    requires Enabled(hash, s, ProbeReturns(t, outcome))
    ensures t in s.threads
    ensures Next(hash, s, ProbeReturns(t, outcome)).probes
         == s.probes + [Probe(SubjectOf(s.threads[t].req, s.threads[t].tier), outcome, t)]
  {
  }

  lemma OtherProbes(hash: Digest, s: Sys, e: Event)
    requires Enabled(hash, s, e) && !e.ProbeReturns?
    ensures Next(hash, s, e).probes == s.probes
  {
    hide KeyOf, Stores, LookedUp;
  }

  lemma StepKeepsInv(hash: Digest, s: Sys, e: Event)
    requires Inv(hash, s) && Enabled(hash, s, e)
    ensures Inv(hash, Next(hash, s, e))
  {
    hide Next, Enabled;
    LeadersStep(hash, s, e);
    ThreadsStep(hash, s, e);
    CacheStep(hash, s, e);
    ChansStep(hash, s, e);
    ProbesStep(hash, s, e);
  }

  lemma {:induction false} RunsKeepInv(hash: Digest, es: seq<Event>)
    requires Exec(hash, es).Some?
    ensures Inv(hash, Exec(hash, es).value)
  {
    if es != [] {
      RunsKeepInv(hash, es[..|es| - 1]);
      StepKeepsInv(hash, Exec(hash, es[..|es| - 1]).value, es[|es| - 1]);
    }
  }

  // ---------- what every run guarantees ----------

  predicate LeadsFor(hash: Digest, s: Sys, t: nat, key: string) {
    t in s.threads && Leads(hash, s.threads[t], key)
  }

  lemma LeaderIsUnique(hash: Digest, s: Sys, key: string)
    requires LeadersInv(hash, s)
    ensures forall t :: LeadsFor(hash, s, t, key) <==> key in s.inflight && s.leading[key] == t
  {
    hide Leads;
  }

  /** At most one probe is in flight for a key, and one is exactly when the key is registered. */
  lemma OneProbePerKey(hash: Digest, es: seq<Event>, key: string)
    requires Exec(hash, es).Some?
    ensures var s := Exec(hash, es).value;
            && (key in s.inflight <==> exists t :: LeadsFor(hash, s, t, key))
            && forall t, u :: LeadsFor(hash, s, t, key) && LeadsFor(hash, s, u, key) ==> t == u
  {
    hide LeadsFor;
    RunsKeepInv(hash, es);
    var s := Exec(hash, es).value;
    LeaderIsUnique(hash, s, key);
    if key in s.inflight { assert LeadsFor(hash, s, s.leading[key], key); }
  }

  /** A leader that finishes finds every waiter's channel open with room in it, so no send blocks or
      panics, whether or not the waiter is still there. */
  lemma SendsNeverBlock(hash: Digest, es: seq<Event>, t: nat)
    requires Exec(hash, es).Some? && Enabled(hash, Exec(hash, es).value, FinishProbe(t))
    ensures var s := Exec(hash, es).value;
            var waiters := Waiters(s, KeyOf(hash, s.threads[t].req, s.threads[t].tier));
            && (forall i :: 0 <= i < |waiters| ==> waiters[i] in s.chans && |s.chans[waiters[i]].sent| < CAPACITY && !s.chans[waiters[i]].closed)
            && (forall i, j :: 0 <= i < j < |waiters| ==> waiters[i] != waiters[j])
  {
    hide KeyOf;
    RunsKeepInv(hash, es);
    var s := Exec(hash, es).value;
    var key := KeyOf(hash, s.threads[t].req, s.threads[t].tier);
    if key in s.inflight {
      assert WaitersOk(s.chans, key, s.inflight[key]);
      forall ch | ch in s.inflight[key] ensures ch in s.chans && s.chans[ch].sent == [] && !s.chans[ch].closed {
        var i :| 0 <= i < |s.inflight[key]| && s.inflight[key][i] == ch;
        assert ChanOk(hash, s.inflight, s.leading, s.probes, ch, s.chans[ch]);
      }
    }
  }

  /** A waiter's channel holds nothing while the probe it joined is out, and afterwards exactly one value:
      the result of that very probe. A goroutine that still waits therefore has a leader or an answer. */
  lemma WaitersGetTheProbeTheyJoined(hash: Digest, es: seq<Event>, ch: nat)
    requires Exec(hash, es).Some? && ch in Exec(hash, es).value.chans
    ensures var s := Exec(hash, es).value;
            var c := s.chans[ch];
            if ch in Waiters(s, c.key) then
              c.sent == [] && c.leader in s.threads && Leads(hash, s.threads[c.leader], c.key)
            else
              && |c.sent| == 1
              && var (outcome, i) := c.sent[0];
              i < |s.probes| && s.probes[i].outcome == outcome && s.probes[i].prober == c.leader
              && AuthCacheKey(hash, s.probes[i].subject) == c.key
  {
    hide Leads, AuthCacheKey, ThreadsInv, CacheInv, ProbesInv;
    RunsKeepInv(hash, es);
    var s := Exec(hash, es).value;
    assert ChanOk(hash, s.inflight, s.leading, s.probes, ch, s.chans[ch]);
  }

  /** No refusal and no error is ever cached. */
  lemma CacheHoldsOnlyAllowed(hash: Digest, es: seq<Event>, key: string)
    requires Exec(hash, es).Some? && key in Exec(hash, es).value.auth
    ensures var s := Exec(hash, es).value;
            var e := s.auth[key];
            e.outcome == Allowed && e.probe < |s.probes| && s.probes[e.probe].outcome == Allowed
            && AuthCacheKey(hash, s.probes[e.probe].subject) == key
  {
    RunsKeepInv(hash, es);
    var s := Exec(hash, es).value;
    assert EntryOk(hash, s.probes, key, s.auth[key]);
  }

  // ---------- decisions from the cache ----------

  /** Step k of the run stored e under key. */
  ghost predicate StoredAt(hash: Digest, es: seq<Event>, k: nat, key: string, e: Entry) {
    && k < |es| && es[k].Store? && Exec(hash, es[..k]).Some?
    && var s := Exec(hash, es[..k]).value;
    && es[k].t in s.threads && s.threads[es[k].t].pc.Probed?
    && key == KeyOf(hash, s.threads[es[k].t].req, s.threads[es[k].t].tier) && e == NewEntry(hash, s, s.threads[es[k].t])
  }

  /** An entry after a step was there before, or the step stored it; an invalidation leaves none of its identifier. */
  lemma EntriesStep(hash: Digest, s: Sys, e: Event, key: string)
    requires Enabled(hash, s, e) && key in Next(hash, s, e).auth
    ensures || (key in s.auth && Next(hash, s, e).auth[key] == s.auth[key] && e != Invalidate(s.auth[key].identifier))
            || (e.Store? && e.t in s.threads && s.threads[e.t].pc.Probed?
                && key == KeyOf(hash, s.threads[e.t].req, s.threads[e.t].tier)
                && Next(hash, s, e).auth[key] == NewEntry(hash, s, s.threads[e.t]))
  {
    hide AuthCacheKey, AuthCacheScope, Evicts;
    if e.Store? {
      var th := s.threads[e.t];
      var kept :| e.auth == kept[KeyOf(hash, th.req, th.tier) := NewEntry(hash, s, th)]
                  && Evicts(s.auth, NewEntry(hash, s, th).scope, th.req.maxEntries, s.now, kept);
      EvictsKeeps(s.auth, NewEntry(hash, s, th).scope, th.req.maxEntries, s.now, kept);
    }
  }

  lemma EvictsKeeps(entries: Entries, scope: string, maxEntries: int, now: int, kept: Entries)
    requires Evicts(entries, scope, maxEntries, now, kept)
    ensures PartOf(kept, entries)
  {
  }

  /** Every cached entry was stored by some step, and no invalidation of its identifier came since. */
  lemma {:induction false} CachedWasStored(hash: Digest, es: seq<Event>, key: string) returns (k: nat)
    requires Exec(hash, es).Some? && key in Exec(hash, es).value.auth
    ensures StoredAt(hash, es, k, key, Exec(hash, es).value.auth[key])
    ensures forall i :: k < i < |es| ==> es[i] != Invalidate(Exec(hash, es).value.auth[key].identifier)
  {
    hide Next, Enabled, NewEntry, KeyOf;
    var n := |es| - 1;
    assert es != [];
    var s := Exec(hash, es[..n]).value;
    EntriesStep(hash, s, es[n], key);
    if key in s.auth && Exec(hash, es).value.auth[key] == s.auth[key] && es[n] != Invalidate(s.auth[key].identifier) {
      k := CachedWasStored(hash, es[..n], key);
      assert es[..n][..k] == es[..k] && es[..n][k] == es[k];
      assert forall i :: k < i < n ==> es[..n][i] == es[i];
    } else {
      k := n;
    }
  }

  /** Step j of the run answered thread t from the cache. */
  ghost predicate ServedAt(hash: Digest, es: seq<Event>, j: nat, t: nat, th: Thread) {
    && j < |es| && es[j] == LookUp(t) && Exec(hash, es[..j]).Some?
    && var s := Exec(hash, es[..j]).value;
    && var key := KeyOf(hash, th.req, th.tier);
    && key in s.auth && !Expired(s.auth[key], s.now)
    && th.pc.Returned? && th.pc.outcome == s.auth[key].outcome
    && th.pc.reason == FromCache(s.auth[key].probe, s.now, s.auth[key].expiresAt)
  }

  lemma ServingStep(hash: Digest, s: Sys, e: Event, t: nat)
    requires Inv(hash, s) && Enabled(hash, s, e) && t in Next(hash, s, e).threads
    requires var th := Next(hash, s, e).threads[t]; th.pc.Returned? && th.pc.reason.FromCache?
    ensures var th := Next(hash, s, e).threads[t];
            || (t in s.threads && s.threads[t] == th)
            || (&& e == LookUp(t)
                && var key := KeyOf(hash, th.req, th.tier);
                && key in s.auth && !Expired(s.auth[key], s.now)
                && th.pc.outcome == s.auth[key].outcome && th.pc.reason == FromCache(s.auth[key].probe, s.now, s.auth[key].expiresAt))
  {
    hide AuthCacheKey, AuthCacheScope, Stores, HasAuthHeaders, LeadersInv, CacheInv, ChansInv, ProbesInv, ReasonOk;
    if t in s.threads { assert ThreadOk(hash, s.chans, s.probes, t, s.threads[t]); }
  }

  lemma {:induction false} CacheHitWasServed(hash: Digest, es: seq<Event>, t: nat) returns (j: nat)
    requires Exec(hash, es).Some? && t in Exec(hash, es).value.threads
    requires Exec(hash, es).value.threads[t].pc.Returned? && Exec(hash, es).value.threads[t].pc.reason.FromCache?
    ensures ServedAt(hash, es, j, t, Exec(hash, es).value.threads[t])
  {
    hide Next, Enabled, KeyOf;
    assert es != [];
    var n := |es| - 1;
    RunsKeepInv(hash, es[..n]);
    var s := Exec(hash, es[..n]).value;
    ServingStep(hash, s, es[n], t);
    if t in s.threads && s.threads[t] == Exec(hash, es).value.threads[t] {
      j := CacheHitWasServed(hash, es[..n], t);
      assert es[..n][..j] == es[..j] && es[..n][j] == es[j];
    } else {
      j := n;
    }
  }

  /** The answer thread t got at step j is the decision stored at step k: not older than its time to live, and no
      invalidation of the identifier came in between. */
  ghost predicate Fresh(hash: Digest, es: seq<Event>, t: nat, k: nat, j: nat)
    requires Exec(hash, es).Some? && t in Exec(hash, es).value.threads
  {
    var th := Exec(hash, es).value.threads[t];
    && th.pc.Returned? && th.pc.reason.FromCache?
    && k < j < |es| && es[j] == LookUp(t) && Exec(hash, es[..j]).Some? && Exec(hash, es[..k]).Some?
    && es[k].Store? && es[k].t in Exec(hash, es[..k]).value.threads
    && var (stored, storer) := (Exec(hash, es[..k]).value, Exec(hash, es[..k]).value.threads[es[k].t]);
    && KeyOf(hash, storer.req, storer.tier) == KeyOf(hash, th.req, th.tier)
    && storer.pc.Probed? && storer.pc.outcome == th.pc.outcome && storer.pc.probe == th.pc.reason.probe
    && Exec(hash, es[..j]).value.now <= stored.now + storer.req.ttl
    && forall i :: k < i < j ==> es[i] != Invalidate(th.req.identifier)
  }

  lemma SameKeySameIdentifier(hash: Digest, a: Request, b: Request, tierA: Tier, tierB: Tier)
    requires GoodDigest(hash) && Speakable(a) && Speakable(b)
    requires KeyOf(hash, a, tierA) == KeyOf(hash, b, tierB)
    ensures a.identifier == b.identifier
  {
    hide AuthCacheKey, Tokens;
    SameKeyIffSameTokens(hash, SubjectOf(a, tierA), SubjectOf(b, tierB));
    TokensSplit(SubjectOf(a, tierA), SubjectOf(b, tierB));
  }

  /** What the key can tell apart: names and header values without NUL. */
  predicate Speakable(req: Request) { WellFormed(SubjectOf(req, Authenticated)) }

  ghost predicate SpeakableRun(hash: Digest, es: seq<Event>) {
    Exec(hash, es).Some? && forall u <- Exec(hash, es).value.threads :: Speakable(Exec(hash, es).value.threads[u].req)
  }

  /** Requests never change, so those of an earlier state are still there. */
  lemma {:induction false} ThreadsPersist(hash: Digest, es: seq<Event>, k: nat)
    requires Exec(hash, es).Some? && k <= |es|
    ensures Exec(hash, es[..k]).Some?
    ensures forall u <- Exec(hash, es[..k]).value.threads ::
      u in Exec(hash, es).value.threads && Exec(hash, es).value.threads[u].req == Exec(hash, es[..k]).value.threads[u].req
  {
    hide Next, Enabled;
    if k == |es| {
      assert es[..k] == es;
    } else {
      var shorter := es[..|es| - 1];
      assert shorter[..k] == es[..k];
      ThreadsPersist(hash, shorter, k);
      NextGrows(hash, Exec(hash, shorter).value, es[|es| - 1]);
    }
  }

  /** Whatever is answered from the cache was stored within its time to live, after every earlier invalidation of
      the identifier. */
  lemma CachedAnswersAreFresh(hash: Digest, es: seq<Event>, t: nat)
    requires GoodDigest(hash) && SpeakableRun(hash, es) && t in Exec(hash, es).value.threads
    requires Exec(hash, es).value.threads[t].pc.Returned? && Exec(hash, es).value.threads[t].pc.reason.FromCache?
    ensures exists k, j :: Fresh(hash, es, t, k, j)
  {
    hide KeyOf, ScopeOf, Speakable, Enabled, Next;
    var th := Exec(hash, es).value.threads[t];
    var key := KeyOf(hash, th.req, th.tier);
    var j := CacheHitWasServed(hash, es, t);
    var k := CachedWasStored(hash, es[..j], key);
    assert es[..j][..k] == es[..k] && es[..j][k] == es[k];
    assert forall i :: k < i < j ==> es[..j][i] == es[i];
    ThreadsPersist(hash, es, k);
    var storer := Exec(hash, es[..k]).value.threads[es[k].t];
    SameKeySameIdentifier(hash, storer.req, th.req, storer.tier, th.tier);
    assert Fresh(hash, es, t, k, j);
  }

  // ---------- every scope stays within its maximum ----------

  /** A key names the scope of its entry. */
  ghost predicate ScopesInv(s: Sys) {
    forall k <- s.auth :: Index(k, ':') < |k| && s.auth[k].scope == k[..Index(k, ':')]
  }

  /** Calls whose decisions may be stored in the scope allow it at most `bound` entries. */
  ghost predicate BoundedCalls(hash: Digest, es: seq<Event>, scope: string, bound: nat) {
    forall i, tier :: 0 <= i < |es| && es[i].Call? && ScopeOf(hash, es[i].req, tier) == scope ==> es[i].req.maxEntries <= bound
  }

  ghost predicate BoundedThreads(hash: Digest, s: Sys, scope: string, bound: nat) {
    forall t, tier :: t in s.threads && ScopeOf(hash, s.threads[t].req, tier) == scope ==> s.threads[t].req.maxEntries <= bound
  }

  lemma ScopesStep(hash: Digest, s: Sys, e: Event)
    requires GoodDigest(hash) && ScopesInv(s) && Enabled(hash, s, e)
    ensures ScopesInv(Next(hash, s, e))
  {
    hide Next, Enabled, AuthCacheKey, AuthCacheScope, GoodDigest;
    forall k | k in Next(hash, s, e).auth
      ensures Index(k, ':') < |k| && Next(hash, s, e).auth[k].scope == k[..Index(k, ':')]
    {
      EntriesStep(hash, s, e, k);
      if e.Store? && e.t in s.threads && k == KeyOf(hash, s.threads[e.t].req, s.threads[e.t].tier) {
        ScopeOfKey(hash, SubjectOf(s.threads[e.t].req, s.threads[e.t].tier));
      }
    }
  }

  lemma BoundStep(hash: Digest, s: Sys, e: Event, scope: string, bound: nat)
    requires GoodDigest(hash) && ScopesInv(s) && Enabled(hash, s, e) && BoundedThreads(hash, s, scope, bound)
    requires |InScope(s.auth, scope)| <= bound
    ensures |InScope(Next(hash, s, e).auth, scope)| <= bound
  {
    hide AuthCacheKey, AuthCacheScope, Stores, GoodDigest;
    if e.Store? {
      var th := s.threads[e.t];
      var key := KeyOf(hash, th.req, th.tier);
      ScopeOfKey(hash, SubjectOf(th.req, th.tier));
      StoreKeepsScopesBounded(s.auth, key, NewEntry(hash, s, th), th.req.maxEntries, s.now, e.auth);
    } else {
      FewerInScope(Next(hash, s, e).auth, s.auth, scope);
    }
  }

  lemma FewerInScope(fewer: Entries, entries: Entries, scope: string)
    ensures PartOf(fewer, entries) ==> |InScope(fewer, scope)| <= |InScope(entries, scope)|
  {
    if PartOf(fewer, entries) { Smaller(InScope(fewer, scope), InScope(entries, scope)); }
  }

  lemma Smaller(a: set<string>, b: set<string>)
    requires a <= b
    ensures |a| <= |b|
  {
    assert b == a + (b - a);
  }

  /** In every run a scope holds at most as many entries as its mapping allows. */
  lemma {:induction false} ScopesStayBounded(hash: Digest, es: seq<Event>, scope: string, bound: nat)
    requires GoodDigest(hash) && Exec(hash, es).Some? && BoundedCalls(hash, es, scope, bound)
    ensures |InScope(Exec(hash, es).value.auth, scope)| <= bound
    ensures ScopesInv(Exec(hash, es).value) && BoundedThreads(hash, Exec(hash, es).value, scope, bound)
  {
    hide Next, Enabled, ScopeOf, GoodDigest;
    if es == [] {
      assert InScope(map[], scope) == {};
    } else {
      var n := |es| - 1;
      var s := Exec(hash, es[..n]).value;
      assert forall i :: 0 <= i < n ==> es[..n][i] == es[i];
      ScopesStayBounded(hash, es[..n], scope, bound);
      ScopesStep(hash, s, es[n]);
      BoundStep(hash, s, es[n], scope, bound);
      NextGrows(hash, s, es[n]);
      assert es[n].Call? ==> es[n] == es[n];
    }
  }

  // ---------- who is let in ----------

  /** The probe asked for this request's source, anonymously or with its very credentials. */
  predicate Vouches(p: Probe, req: Request) {
    && p.outcome == Allowed
    && p.subject.prefix == req.prefix && p.subject.identifier == req.identifier
    && (p.subject.headers == Headers([], [])
        || (multiset(p.subject.headers.authorization) == multiset(req.headers.authorization)
            && multiset(p.subject.headers.cookie) == multiset(req.headers.cookie)))
  }

  /** The run lets thread t in, on this request. */
  ghost predicate LetsIn(hash: Digest, es: seq<Event>, t: nat, req: Request) {
    && SpeakableRun(hash, es) && t in Exec(hash, es).value.threads
    && Exec(hash, es).value.threads[t].req == req
    && Exec(hash, es).value.threads[t].pc.Returned? && Exec(hash, es).value.threads[t].pc.outcome == Allowed
  }

  /** The successful probe thread t was let in on is its own, one it waited for, or one found fresh in the cache; and
      it vouches for the thread's request. */
  ghost predicate VouchedFor(hash: Digest, es: seq<Event>, t: nat)
    requires Exec(hash, es).Some? && t in Exec(hash, es).value.threads && Exec(hash, es).value.threads[t].pc.Returned?
  {
    var s := Exec(hash, es).value;
    var th := s.threads[t];
    && !th.pc.reason.GaveUp? && th.pc.reason.probe < |s.probes|
    && Vouches(s.probes[th.pc.reason.probe], th.req)
    && match th.pc.reason
       case Led(i) => s.probes[i].prober == t
       case Joined(i, leader) => s.probes[i].prober == leader
       case FromCache(_, _, _) => exists k, j :: Fresh(hash, es, t, k, j)
       case GaveUp => false
  }

  /** Whoever else is calling with whatever headers: a caller whose own headers are unambiguous is let in only on a
      successful probe of the same source, made anonymously or with its own credentials. */
  lemma AllowedOnlyOnOwnProbe(hash: Digest, es: seq<Event>, t: nat, req: Request)
    requires GoodDigest(hash) && LetsIn(hash, es, t, req) && !Ambiguous(req.headers)
    ensures VouchedFor(hash, es, t)
  {
    hide AuthCacheKey, Fresh, Ambiguous, Sort, WellFormed;
    RunsKeepInv(hash, es);
    var s := Exec(hash, es).value;
    var th := s.threads[t];
    assert ThreadOk(hash, s.chans, s.probes, t, th);
    var p := s.probes[th.pc.reason.probe];
    assert p.subject == SubjectOf(s.threads[p.prober].req, p.subject.tier);
    assert Speakable(s.threads[p.prober].req) && Speakable(th.req);
    TierSubject(th.req, th.tier);
    TierSubject(s.threads[p.prober].req, p.subject.tier);
    UnambiguousIsIdentified(hash, SubjectOf(th.req, th.tier), p.subject);
    if th.pc.reason.FromCache? { CachedAnswersAreFresh(hash, es, t); }
  }

  /** The subject a tier asks about is well formed if the request is, and no more ambiguous. */
  lemma TierSubject(req: Request, tier: Tier)
    requires Speakable(req)
    ensures WellFormed(SubjectOf(req, tier))
    ensures Ambiguous(SubjectOf(req, tier).headers) ==> Ambiguous(req.headers)
  {
  }

  // ---------- who is tried again, and who is not ----------

  /** There is an Authorization or a Cookie header value to send. */
  predicate HasCredentials(req: Request) { |req.headers.authorization| + |req.headers.cookie| > 0 }

  /** The anonymous answer is a refusal and there are credentials to try. */
  predicate Retries(th: Thread) {
    th.tier.Anonymous? && HasCredentials(th.req) && th.pc.Decided? && (th.pc.outcome == Forbidden || th.pc.outcome == NotFound)
  }

  /** What can have become of a goroutine whose probe, or wait for one, ended as `before` says: a refused one that has
      credentials is tried with them; any other returns just that outcome, for that reason. */
  predicate Follows(before: Thread, th: Thread)
    requires before.pc.Decided?
  {
    || th == before
    || if Retries(before) then th.tier.Authenticated? && th.req == before.req
       else th == before.(pc := Returned(before.pc.outcome, before.pc.reason))
  }

  lemma FollowsStep(hash: Digest, s: Sys, e: Event, t: nat, before: Thread)
    requires Enabled(hash, s, e) && t in s.threads && before.pc.Decided? && Follows(before, s.threads[t])
    ensures t in Next(hash, s, e).threads && Follows(before, Next(hash, s, e).threads[t])
  {
    hide AuthCacheKey, AuthCacheScope, Stores, LookedUp;
  }

  /** In every run: an anonymous Forbidden or NotFound of a caller with credentials is never the end of it, and every
      other outcome, anonymous or not, is returned as it is and nothing more is asked. */
  lemma {:induction false} OutcomesStandUnlessRetried(hash: Digest, es: seq<Event>, j: nat, t: nat)
    requires Exec(hash, es).Some? && j <= |es| && Exec(hash, es[..j]).Some?
    requires t in Exec(hash, es[..j]).value.threads && Exec(hash, es[..j]).value.threads[t].pc.Decided?
    ensures t in Exec(hash, es).value.threads
    ensures Follows(Exec(hash, es[..j]).value.threads[t], Exec(hash, es).value.threads[t])
  {
    hide Next, Enabled, Follows;
    if j == |es| {
      assert es[..j] == es;
      FollowsItself(Exec(hash, es).value.threads[t]);
    } else {
      var n := |es| - 1;
      assert es[..n][..j] == es[..j];
      OutcomesStandUnlessRetried(hash, es[..n], j, t);
      FollowsStep(hash, Exec(hash, es[..n]).value, es[n], t, Exec(hash, es[..j]).value.threads[t]);
    }
  }

  lemma FollowsItself(th: Thread)
    requires th.pc.Decided?
    ensures Follows(th, th)
  {
  }

  /** And it does not stay undecided: deciding tries a refused caller again with its credentials, and returns any other. */
  lemma DecidingMovesOn(hash: Digest, es: seq<Event>, t: nat)
    requires es != [] && Exec(hash, es).Some? && es[|es| - 1] == Decide(t)
    ensures t in Exec(hash, es[..|es| - 1]).value.threads && t in Exec(hash, es).value.threads
    ensures var (before, th) := (Exec(hash, es[..|es| - 1]).value.threads[t], Exec(hash, es).value.threads[t]);
            before.pc.Decided? && if Retries(before) then th == Thread(before.req, Authenticated, LookingUp) else th.pc.Returned?
  {
  }

  predicate GaveUpNow(pc: Pc) { (pc.Decided? || pc.Returned?) && pc.reason.GaveUp? }

  lemma GivingUpStep(hash: Digest, s: Sys, e: Event, t: nat)
    requires Enabled(hash, s, e) && t in Next(hash, s, e).threads && GaveUpNow(Next(hash, s, e).threads[t].pc)
    ensures e == Cancel(t) || (t in s.threads && GaveUpNow(s.threads[t].pc))
  {
    hide AuthCacheKey, AuthCacheScope, Stores, LookedUp;
  }

  /** Nobody gives up who was not cancelled: everyone else ends with the outcome of a probe. */
  lemma {:induction false} GaveUpOnlyWhenCancelled(hash: Digest, es: seq<Event>, t: nat) returns (k: nat)
    requires Exec(hash, es).Some? && t in Exec(hash, es).value.threads && GaveUpNow(Exec(hash, es).value.threads[t].pc)
    ensures k < |es| && es[k] == Cancel(t)
  {
    hide Next, Enabled;
    assert es != [];
    var n := |es| - 1;
    GivingUpStep(hash, Exec(hash, es[..n]).value, es[n], t);
    k := n;
    if es[n] != Cancel(t) { k := GaveUpOnlyWhenCancelled(hash, es[..n], t); }
  }

  ghost predicate RetriedInv(s: Sys) {
    forall t <- s.threads :: s.threads[t].pc.Returned? && s.threads[t].tier.Anonymous? && HasCredentials(s.threads[t].req) ==>
      s.threads[t].pc.outcome !in {Forbidden, NotFound}
  }

  lemma RetriedStep(hash: Digest, s: Sys, e: Event)
    requires CacheInv(hash, s) && RetriedInv(s) && Enabled(hash, s, e)
    ensures RetriedInv(Next(hash, s, e))
  {
    hide AuthCacheKey, AuthCacheScope, Stores, OnRecord;
  }

  lemma {:induction false} RunsRetry(hash: Digest, es: seq<Event>)
    requires Exec(hash, es).Some?
    ensures RetriedInv(Exec(hash, es).value)
  {
    hide Next, Enabled;
    if es != [] {
      RunsRetry(hash, es[..|es| - 1]);
      RunsKeepInv(hash, es[..|es| - 1]);
      RetriedStep(hash, Exec(hash, es[..|es| - 1]).value, es[|es| - 1]);
    }
  }

  /** Keys of the two tiers differ from their second character on. */
  lemma SameKeySameTier(hash: Digest, a: Subject, b: Subject)
    requires AuthCacheKey(hash, a) == AuthCacheKey(hash, b)
    ensures a.tier == b.tier
  {
    assert AuthCacheKey(hash, a)[1] == a.tier.Name()[1] && AuthCacheKey(hash, b)[1] == b.tier.Name()[1];
    assert "anonymous"[1] == 'n' && "authenticated"[1] == 'u';
  }

  /** In every run, a caller with credentials that is told Forbidden or NotFound is told so by a probe made with
      credentials: its own, or the one it waited for. */
  lemma RefusedOnlyWithCredentials(hash: Digest, es: seq<Event>, t: nat)
    requires Exec(hash, es).Some? && t in Exec(hash, es).value.threads
    requires var th := Exec(hash, es).value.threads[t];
             th.pc.Returned? && th.pc.outcome in {Forbidden, NotFound} && HasCredentials(th.req)
    ensures var s := Exec(hash, es).value;
            var pc := s.threads[t].pc;
            && (pc.reason.Led? || pc.reason.Joined?) && pc.reason.probe < |s.probes|
            && s.probes[pc.reason.probe].outcome == pc.outcome
            && s.probes[pc.reason.probe].subject.tier == Authenticated
            && s.probes[pc.reason.probe].prober == (if pc.reason.Led? then t else pc.reason.leader)
  {
    hide AuthCacheKey;
    RunsKeepInv(hash, es);
    RunsRetry(hash, es);
    var s := Exec(hash, es).value;
    var th := s.threads[t];
    assert ThreadOk(hash, s.chans, s.probes, t, th);
    SameKeySameTier(hash, s.probes[th.pc.reason.probe].subject, SubjectOf(th.req, th.tier));
  }

  /** At step j the anonymous probe t made or waited for refused it. */
  ghost predicate RefusedAt(hash: Digest, es: seq<Event>, j: nat, t: nat) {
    && j < |es| && Exec(hash, es[..j]).Some? && t in Exec(hash, es[..j]).value.threads
    && var s := Exec(hash, es[..j]).value;
    && Retries(s.threads[t]) && !s.threads[t].pc.reason.GaveUp? && s.threads[t].pc.reason.probe < |s.probes|
    && s.probes[s.threads[t].pc.reason.probe].subject.tier == Anonymous
    && s.probes[s.threads[t].pc.reason.probe].outcome == s.threads[t].pc.outcome
  }

  lemma TierStep(hash: Digest, s: Sys, e: Event, t: nat)
    requires Inv(hash, s) && Enabled(hash, s, e) && t in Next(hash, s, e).threads && Next(hash, s, e).threads[t].tier.Authenticated?
    ensures t in s.threads && (s.threads[t].tier.Authenticated? || Retries(s.threads[t]))
  {
    hide AuthCacheKey, AuthCacheScope, Stores, LeadersInv, ThreadsInv, ChansInv, ProbesInv;
  }

  /** Credentials are sent only for a caller that has some, and only after an anonymous refusal. */
  lemma {:induction false} CredentialsOnlyAfterRefusal(hash: Digest, es: seq<Event>, t: nat) returns (j: nat)
    requires Exec(hash, es).Some? && t in Exec(hash, es).value.threads && Exec(hash, es).value.threads[t].tier.Authenticated?
    ensures RefusedAt(hash, es, j, t)
  {
    hide Next, Enabled, KeyOf;
    assert es != [];
    var n := |es| - 1;
    var s := Exec(hash, es[..n]).value;
    RunsKeepInv(hash, es[..n]);
    TierStep(hash, s, es[n], t);
    if s.threads[t].tier.Authenticated? {
      j := CredentialsOnlyAfterRefusal(hash, es[..n], t);
      assert es[..n][..j] == es[..j];
    } else {
      j := n;
      RefusalIsOnRecord(hash, s, t);
    }
  }

  lemma RefusalIsOnRecord(hash: Digest, s: Sys, t: nat)
    requires ThreadsInv(hash, s) && t in s.threads && Retries(s.threads[t])
    ensures var reason := s.threads[t].pc.reason;
            && !reason.GaveUp? && reason.probe < |s.probes|
            && s.probes[reason.probe].subject.tier == Anonymous && s.probes[reason.probe].outcome == s.threads[t].pc.outcome
  {
    hide AuthCacheKey;
    var th := s.threads[t];
    assert ThreadOk(hash, s.chans, s.probes, t, th);
    SameKeySameTier(hash, s.probes[th.pc.reason.probe].subject, SubjectOf(th.req, th.tier));
  }

  // ---------- the cache answers, and is filled ----------

  /** A decision within its time is answered to whoever looks it up; otherwise the caller goes on to a probe. */
  lemma DecisionsWithinTimeAnswer(hash: Digest, es: seq<Event>, t: nat)
    requires es != [] && Exec(hash, es).Some? && es[|es| - 1] == LookUp(t)
    ensures Exec(hash, es[..|es| - 1]).Some? && t in Exec(hash, es[..|es| - 1]).value.threads && t in Exec(hash, es).value.threads
    ensures var s := Exec(hash, es[..|es| - 1]).value;
            var th := s.threads[t];
            var key := KeyOf(hash, th.req, th.tier);
            Exec(hash, es).value.threads[t].pc ==
            if key in s.auth && s.now <= s.auth[key].expiresAt
            then Returned(Allowed, FromCache(s.auth[key].probe, s.now, s.auth[key].expiresAt)) else Beginning
  {
    hide AuthCacheKey;
    var n := |es| - 1;
    RunsKeepInv(hash, es[..n]);
    var s := Exec(hash, es[..n]).value;
    var key := KeyOf(hash, s.threads[t].req, s.threads[t].tier);
    if key in s.auth { assert EntryOk(hash, s.probes, key, s.auth[key]); }
  }

  predicate LedTo(pc: Pc, probe: nat) {
    pc == Finishing(Allowed, probe) || pc == Decided(Allowed, Led(probe)) || pc == Returned(Allowed, Led(probe))
  }

  lemma LedStep(hash: Digest, s: Sys, e: Event, t: nat, probe: nat)
    requires Inv(hash, s) && Enabled(hash, s, e) && t in Next(hash, s, e).threads && LedTo(Next(hash, s, e).threads[t].pc, probe)
    requires Next(hash, s, e).threads[t].req.ttl > 0
    ensures var th := Next(hash, s, e).threads[t];
            && t in s.threads && s.threads[t].req == th.req && s.threads[t].tier == th.tier
            && (|| LedTo(s.threads[t].pc, probe)
                || (e.Store? && e.t == t && s.threads[t].pc == Probed(Allowed, probe)
                    && var key := KeyOf(hash, th.req, th.tier);
                       key in Next(hash, s, e).auth && Next(hash, s, e).auth[key] == NewEntry(hash, s, s.threads[t])))
  {
    hide AuthCacheKey, AuthCacheScope, Evicts, LookedUp, LeadersInv, CacheInv, ChansInv, ProbesInv;
    if t in s.threads { assert ThreadOk(hash, s.chans, s.probes, t, s.threads[t]); }
  }

  /** Step k of the run caches that probe under the key of what was asked, until the time to live has passed. */
  ghost predicate CachedAt(hash: Digest, es: seq<Event>, k: nat, req: Request, tier: Tier, probe: nat) {
    && k < |es| && Exec(hash, es[..k]).Some? && Exec(hash, es[..k + 1]).Some?
    && var (auth, key) := (Exec(hash, es[..k + 1]).value.auth, KeyOf(hash, req, tier));
    && key in auth && auth[key].outcome == Allowed && auth[key].probe == probe && auth[key].identifier == req.identifier
    && auth[key].expiresAt == Exec(hash, es[..k]).value.now + req.ttl
  }

  lemma CachedEarlier(hash: Digest, es: seq<Event>, n: nat, k: nat, req: Request, tier: Tier, probe: nat)
    requires n <= |es| && CachedAt(hash, es[..n], k, req, tier, probe)
    ensures CachedAt(hash, es, k, req, tier, probe)
  {
    assert es[..n][..k] == es[..k] && es[..n][..k + 1] == es[..k + 1];
  }

  lemma CachedNow(hash: Digest, es: seq<Event>, t: nat, probe: nat)
    requires es != [] && Exec(hash, es).Some? && Exec(hash, es[..|es| - 1]).Some? && t in Exec(hash, es[..|es| - 1]).value.threads
    requires var s, s' := Exec(hash, es[..|es| - 1]).value, Exec(hash, es).value;
             var th := s.threads[t];
             && th.pc == Probed(Allowed, probe)
             && KeyOf(hash, th.req, th.tier) in s'.auth && s'.auth[KeyOf(hash, th.req, th.tier)] == NewEntry(hash, s, th)
    ensures var th := Exec(hash, es[..|es| - 1]).value.threads[t]; CachedAt(hash, es, |es| - 1, th.req, th.tier, probe)
  {
    hide Exec, KeyOf;
    assert es[..|es| - 1 + 1] == es;
  }

  /** A successful probe with a time to live was cached by its leader when it finished: under the key asked for, until
      that much later. */
  lemma {:induction false} AllowedProbesAreCached(hash: Digest, es: seq<Event>, t: nat, probe: nat) returns (k: nat)
    requires Exec(hash, es).Some? && t in Exec(hash, es).value.threads
    requires LedTo(Exec(hash, es).value.threads[t].pc, probe) && Exec(hash, es).value.threads[t].req.ttl > 0
    ensures var th := Exec(hash, es).value.threads[t]; CachedAt(hash, es, k, th.req, th.tier, probe)
  {
    hide Next, Enabled, KeyOf, CachedAt, LedTo, NewEntry;
    assert es != [] by { NobodyLedYet(hash); }
    var n := |es| - 1;
    RunsKeepInv(hash, es[..n]);
    hide Inv;
    LedStep(hash, Exec(hash, es[..n]).value, es[n], t, probe);
    if LedTo(Exec(hash, es[..n]).value.threads[t].pc, probe) {
      k := AllowedProbesAreCached(hash, es[..n], t, probe);
      var th := Exec(hash, es).value.threads[t];
      CachedEarlier(hash, es, n, k, th.req, th.tier, probe);
    } else {
      k := n;
      CachedNow(hash, es, t, probe);
    }
  }

  lemma NobodyLedYet(hash: Digest)
    ensures Exec(hash, []).Some? && Exec(hash, []).value.threads == map[]
  {
  }

  /** What is on record of a probe is what came back: for what its prober was asking, at that moment. */
  lemma {:induction false} ProbesAreWhatCameBack(hash: Digest, es: seq<Event>, i: nat) returns (k: nat)
    requires Exec(hash, es).Some? && i < |Exec(hash, es).value.probes|
    ensures var p := Exec(hash, es).value.probes[i];
            && k < |es| && es[k] == ProbeReturns(p.prober, p.outcome)
            && Exec(hash, es[..k]).Some? && p.prober in Exec(hash, es[..k]).value.threads
            && var th := Exec(hash, es[..k]).value.threads[p.prober]; p.subject == SubjectOf(th.req, th.tier)
  {
    hide Next, Enabled, KeyOf;
    assert es != [];
    var n := |es| - 1;
    var s := Exec(hash, es[..n]).value;
    if es[n].ProbeReturns? { ProbeReturnsProbes(hash, s, es[n].t, es[n].outcome); } else { OtherProbes(hash, s, es[n]); }
    if i < |s.probes| {
      k := ProbesAreWhatCameBack(hash, es[..n], i);
      assert es[..n][..k] == es[..k];
    } else {
      k := n;
    }
  }
}

/** The table of waiters as the source keeps it: a map from keys to lists of buffered channels, proved to
    take the steps above. */
module ProbeTables {
  import opened AuthCache
  import opened AuthProbes
  import opened Digests

  /** A `chan error` made with capacity one; `sent` is all that was ever sent on it, with the probe it came from. */
  class Chan {
    ghost const id: nat
    ghost const key: string
    ghost const leader: nat
    var buffer: seq<Outcome>
    var closed: bool
    ghost var sent: seq<(Outcome, nat)>

    constructor (ghost id: nat, ghost key: string, ghost leader: nat)
      ensures this.id == id && this.key == key && this.leader == leader
      ensures buffer == [] && sent == [] && !closed
    {
      this.id, this.key, this.leader := id, key, leader;
      buffer, sent, closed := [], [], false;
    }

    /** A send that finds room; on a full channel it would block, on a closed one panic. */
    method Send(outcome: Outcome, ghost probe: nat)
      requires |buffer| < CAPACITY && !closed
      modifies this
      ensures buffer == old(buffer) + [outcome] && sent == old(sent) + [(outcome, probe)] && !closed
    {
      buffer := buffer + [outcome];
      sent := sent + [(outcome, probe)];
    }

    method Close()
      requires !closed
      modifies this
      ensures closed && buffer == old(buffer) && sent == old(sent)
    {
      closed := true;
    }
  }

  class ProbeTable {
    var inflight: map<string, seq<Chan>>
    ghost var leading: map<string, nat>   // who registered each key
    ghost var chans: seq<Chan>            // every channel ever made, by id

    ghost predicate Known(ch: Chan)
      reads this
    {
      ch.id < |chans| && chans[ch.id] == ch
    }

    ghost predicate Valid()
      reads this, chans
    {
      && (forall i :: 0 <= i < |chans| ==> chans[i].id == i)
      && leading.Keys == inflight.Keys
      && (forall k, i :: k in inflight && 0 <= i < |inflight[k]| ==>
            Known(inflight[k][i]) && inflight[k][i].key == k && Empty(inflight[k][i]))
      && (forall k, i, j :: k in inflight && 0 <= i < j < |inflight[k]| ==> inflight[k][i] != inflight[k][j])
    }

    ghost predicate Empty(ch: Chan)
      reads ch
    {
      ch.buffer == [] && ch.sent == [] && !ch.closed
    }

    ghost function Ids(list: seq<Chan>): (ids: seq<nat>)
      ensures |ids| == |list| && forall i :: 0 <= i < |list| ==> ids[i] == list[i].id
    {
      seq(|list|, i requires 0 <= i < |list| => list[i].id)
    }

    ghost function InflightIds(): map<string, seq<nat>>
      reads this
    {
      map k | k in inflight :: Ids(inflight[k])
    }

    ghost function Channels(): map<nat, Channel>
      reads this, chans
    {
      map i: nat | i < |chans| :: Channel(chans[i].key, chans[i].leader, chans[i].sent, chans[i].closed)
    }

    /** The state of the protocol with this table in it. */
    ghost function View(s: Sys): Sys
      reads this, chans
    {
      s.(inflight := InflightIds(), leading := leading, chans := Channels())
    }

    constructor ()
      ensures Valid() && View(INIT) == INIT
    {
      inflight, leading, chans := map[], map[], [];
    }

    /** `beginAuthProbe`: a channel to wait on when a probe is out for the key, none for the caller that must probe. */
    method BeginAuthProbe(key: string, ghost hash: Digest, ghost s: Sys, ghost t: nat) returns (wait: Chan?)
      requires Valid() && t in s.threads && KeyOf(hash, s.threads[t].req, s.threads[t].tier) == key
      modifies this
      ensures Valid()
      ensures wait != null <==> key in old(inflight)
      ensures wait != null ==> fresh(wait) && Known(wait) && wait.id == old(|chans|)
      ensures wait != null ==>
        View(Move(s, t, s.threads[t].(pc := Waiting(wait.id)))) == DoJoin(hash, old(View(s)), t, wait.id)
      ensures wait == null ==>
        View(Move(s, t, s.threads[t].(pc := Probing))) == DoLead(hash, old(View(s)), t)
    {
      hide KeyOf, DoJoin, DoLead;
      ghost var ids, leaders, channels := InflightIds(), leading, Channels();
      if key in inflight {
        wait := new Chan(|chans|, key, leading[key]);
        assert forall i :: 0 <= i < |inflight[key]| ==> inflight[key][i] in chans;
        Track(wait);
        Append(key, wait);
        JoinIs(hash, s, t, wait.id, ids, leaders, channels);
      } else {
        Register(key, t);
        LeadIs(hash, s, t, ids, leaders, channels);
        wait := null;
      }
    }

    method Register(key: string, ghost leader: nat)
      requires Valid() && key !in inflight
      modifies this`inflight, this`leading
      ensures Valid() && InflightIds() == old(InflightIds())[key := []] && leading == old(leading)[key := leader]
      ensures Channels() == old(Channels()) && key in inflight
    {
      ghost var ids := InflightIds();
      inflight := inflight[key := []];
      leading := leading[key := leader];
      assert InflightIds() == ids[key := []];
    }

    ghost method Track(ch: Chan)
      requires Valid() && ch.id == |chans|
      modifies this`chans
      ensures Valid() && chans == old(chans) + [ch]
      ensures Channels() == old(Channels())[ch.id := Channel(ch.key, ch.leader, ch.sent, ch.closed)]
    {
      ghost var channels := Channels();
      chans := chans + [ch];
      assert Channels() == channels[ch.id := Channel(ch.key, ch.leader, ch.sent, ch.closed)];
    }

    method Append(key: string, ch: Chan)
      requires Valid() && key in inflight && ch !in inflight[key] && Known(ch) && Empty(ch) && ch.key == key
      modifies this`inflight
      ensures Valid() && inflight.Keys == old(inflight.Keys) && Channels() == old(Channels())
      ensures InflightIds() == old(InflightIds())[key := old(InflightIds())[key] + [ch.id]]
    {
      ghost var ids := InflightIds();
      inflight := inflight[key := inflight[key] + [ch]];
      assert Ids(inflight[key]) == ids[key] + [ch.id];
      assert InflightIds() == ids[key := ids[key] + [ch.id]];
    }

    /** `finishAuthProbe`: every waiter gets the outcome and its channel is closed. */
    method FinishAuthProbe(key: string, outcome: Outcome, ghost hash: Digest, ghost s: Sys, ghost t: nat)
      requires Valid() && t in s.threads && KeyOf(hash, s.threads[t].req, s.threads[t].tier) == key
      requires s.threads[t].pc.Finishing? && s.threads[t].pc.outcome == outcome
      modifies this, if key in inflight then (set ch | ch in inflight[key]) else {}
      ensures Valid() && chans == old(chans)
      ensures key in old(inflight) ==> forall ch <- old(inflight)[key] :: ch.buffer == [outcome] && ch.closed
      ensures var pc := Decided(outcome, Led(s.threads[t].pc.probe));
              View(Move(s, t, s.threads[t].(pc := pc))) == DoFinish(hash, old(View(s)), t)
    {
      hide KeyOf, DoFinish;
      ghost var ids, leaders, channels := InflightIds(), leading, Channels();
      var waiters := if key in inflight then inflight[key] else [];
      assert Ids(waiters) == if key in ids then ids[key] else [];
      SendAll(waiters, outcome, s.threads[t].pc.probe);
      Unregister(key);
      FinishIs(hash, s, t, ids, leaders, channels);
    }

    method Unregister(key: string)
      requires (forall i :: 0 <= i < |chans| ==> chans[i].id == i) && leading.Keys == inflight.Keys
      requires forall k, i :: k in inflight && k != key && 0 <= i < |inflight[k]| ==>
        Known(inflight[k][i]) && inflight[k][i].key == k && Empty(inflight[k][i])
      requires forall k, i, j :: k in inflight && 0 <= i < j < |inflight[k]| ==> inflight[k][i] != inflight[k][j]
      modifies this`inflight, this`leading
      ensures Valid()
      ensures InflightIds() == old(InflightIds()) - {key} && leading == old(leading) - {key} && Channels() == old(Channels())
    {
      ghost var ids := InflightIds();
      inflight := inflight - {key};
      leading := leading - {key};
      assert InflightIds() == ids - {key};
    }

    method SendAll(waiters: seq<Chan>, outcome: Outcome, ghost probe: nat)
      requires forall i :: 0 <= i < |chans| ==> chans[i].id == i
      requires forall i :: 0 <= i < |waiters| ==> Known(waiters[i]) && Empty(waiters[i])
      requires forall i, j :: 0 <= i < j < |waiters| ==> waiters[i] != waiters[j]
      modifies set ch | ch in waiters
      ensures forall ch <- waiters :: ch.buffer == [outcome] && ch.closed
      ensures Channels() == Sent(old(Channels()), Ids(waiters), outcome, probe)
    {
      ghost var channels := Channels();
      for i := 0 to |waiters|
        invariant forall j :: 0 <= j < i ==> waiters[j].buffer == [outcome] && waiters[j].sent == [(outcome, probe)] && waiters[j].closed
        invariant forall j :: i <= j < |waiters| ==> Empty(waiters[j])
        invariant forall ch <- chans :: ch !in waiters ==> ch.sent == old(ch.sent) && ch.closed == old(ch.closed)
      {
        waiters[i].Send(outcome, probe);
        waiters[i].Close();
      }
      SentToWaiters(channels, waiters, outcome, probe);
    }

    /** The channels of the waiters, and no others, hold the outcome and are closed. */
    lemma SentToWaiters(was: map<nat, Channel>, waiters: seq<Chan>, outcome: Outcome, probe: nat)
      requires (forall i :: 0 <= i < |chans| ==> chans[i].id == i) && was.Keys == Channels().Keys
      requires forall ch <- waiters :: Known(ch) && ch.id in was
      requires forall ch <- waiters :: ch.sent == [(outcome, probe)] && ch.closed && was[ch.id] == Channel(ch.key, ch.leader, [], false)
      requires forall ch <- chans :: ch !in waiters && ch.id in was ==> was[ch.id] == Channel(ch.key, ch.leader, ch.sent, ch.closed)
      ensures Channels() == Sent(was, Ids(waiters), outcome, probe)
    {
      forall i: nat | i < |chans|
        ensures i in Ids(waiters) <==> chans[i] in waiters
        ensures Channels()[i] == Sent(was, Ids(waiters), outcome, probe)[i]
      {
        if chans[i] in waiters {
          var j :| 0 <= j < |waiters| && waiters[j] == chans[i];
          assert Ids(waiters)[j] == i;
          assert [] + [(outcome, probe)] == [(outcome, probe)];
        }
        if i in Ids(waiters) {
          var j :| 0 <= j < |waiters| && Ids(waiters)[j] == i;
          assert waiters[j] in waiters && chans[i] == waiters[j];
        }
        assert chans[i] in chans;
      }
    }
  }

  // ---------- the steps, part by part ----------

  lemma JoinIs(hash: Digest, s: Sys, t: nat, chan: nat, ids: map<string, seq<nat>>, leaders: map<string, nat>, channels: map<nat, Channel>)
    requires t in s.threads && leaders.Keys == ids.Keys && KeyOf(hash, s.threads[t].req, s.threads[t].tier) in ids
    ensures var key := KeyOf(hash, s.threads[t].req, s.threads[t].tier);
            DoJoin(hash, s.(inflight := ids, leading := leaders, chans := channels), t, chan) ==
            Move(s, t, s.threads[t].(pc := Waiting(chan)))
            .(inflight := ids[key := ids[key] + [chan]], leading := leaders, chans := channels[chan := Channel(key, leaders[key], [], false)])
  {
    hide KeyOf;
  }

  lemma LeadIs(hash: Digest, s: Sys, t: nat, ids: map<string, seq<nat>>, leaders: map<string, nat>, channels: map<nat, Channel>)
    requires t in s.threads
    ensures var key := KeyOf(hash, s.threads[t].req, s.threads[t].tier);
            DoLead(hash, s.(inflight := ids, leading := leaders, chans := channels), t) ==
            Move(s, t, s.threads[t].(pc := Probing))
            .(inflight := ids[key := []], leading := leaders[key := t], chans := channels)
  {
    hide KeyOf;
  }

  lemma FinishIs(hash: Digest, s: Sys, t: nat, ids: map<string, seq<nat>>, leaders: map<string, nat>, channels: map<nat, Channel>)
    requires t in s.threads && s.threads[t].pc.Finishing?
    ensures var th := s.threads[t];
            var key := KeyOf(hash, th.req, th.tier);
            DoFinish(hash, s.(inflight := ids, leading := leaders, chans := channels), t) ==
            Move(s, t, th.(pc := Decided(th.pc.outcome, Led(th.pc.probe))))
            .(inflight := ids - {key}, leading := leaders - {key},
              chans := Sent(channels, if key in ids then ids[key] else [], th.pc.outcome, th.pc.probe))
  {
    hide KeyOf;
  }
}
