/**
 The other half of what `authorize` guarantees: for a caller whose headers are ambiguous there
 is a run that lets it in on a probe made with somebody else's credentials.
 */
module AuthConfusion {
  import opened AuthCache
  import opened AuthKeys
  import opened AuthProbes
  import opened Digests
  import opened Wrappers

  // ---------- runs, state by state ----------

  ghost predicate Goes(hash: Digest, s: Sys, e: Event, s': Sys) { Enabled(hash, s, e) && Next(hash, s, e) == s' }

  lemma {:induction false} ExecFollows(hash: Digest, before: seq<Event>, states: seq<Sys>, es: seq<Event>)
    requires |states| == |es| + 1 && Exec(hash, before) == Some(states[0])
    requires forall k :: 0 <= k < |es| ==> Goes(hash, states[k], es[k], states[k + 1])
    ensures Exec(hash, before + es) == Some(states[|es|])
  {
    hide Next, Enabled;
    if es == [] {
      assert before + es == before;
    } else {
      var n := |es| - 1;
      ExecFollows(hash, before, states[..n + 1], es[..n]);
      assert (before + es)[..|before + es| - 1] == before + es[..n];
      assert Goes(hash, states[n], es[n], states[n + 1]);
    }
  }

  /** Nothing cached and nothing in flight. */
  function Quiet(probes: seq<Probe>, threads: map<nat, Thread>): Sys {
    Sys(0, map[], map[], map[], map[], probes, threads)
  }

  // ---------- a caller refused without credentials ----------

  function Refusal(t: nat, req: Request): seq<Event> {
    [Call(t, req), LookUp(t), BeginProbe(t, 0), ProbeReturns(t, Forbidden), SkipStore(t), FinishProbe(t), Decide(t)]
  }

  function Refused(t: nat, req: Request): Probe { Probe(SubjectOf(req, Anonymous), Forbidden, t) }

  function RefusalStates(hash: Digest, probes: seq<Probe>, threads: map<nat, Thread>, t: nat, req: Request): seq<Sys> {
    var key := KeyOf(hash, req, Anonymous);
    var th := Thread(req, Anonymous, LookingUp);
    var i := |probes|;
    var led := Quiet(probes, threads[t := th.(pc := Probing)]).(inflight := map[key := []], leading := map[key := t]);
    var more := probes + [Refused(t, req)];
    [Quiet(probes, threads),
     Quiet(probes, threads[t := th]),
     Quiet(probes, threads[t := th.(pc := Beginning)]),
     led,
     led.(probes := more, threads := threads[t := th.(pc := Probed(Forbidden, i))]),
     led.(probes := more, threads := threads[t := th.(pc := Finishing(Forbidden, i))]),
     Quiet(more, threads[t := th.(pc := Decided(Forbidden, Led(i)))]),
     Quiet(more, threads[t := Thread(req, Authenticated, LookingUp)])]
  }

  lemma RefusalBegins(hash: Digest, probes: seq<Probe>, threads: map<nat, Thread>, t: nat, req: Request, k: nat)
    requires t !in threads && req.maxEntries > 0 && k < 3
    ensures var states, es := RefusalStates(hash, probes, threads, t, req), Refusal(t, req);
            Goes(hash, states[k], es[k], states[k + 1])
  {
    hide KeyOf, ScopeOf, HasAuthHeaders;
  }

  lemma RefusalEnds(hash: Digest, probes: seq<Probe>, threads: map<nat, Thread>, t: nat, req: Request, k: nat)
    requires HasAuthHeaders(req.headers) && 3 <= k < 7
    ensures var states, es := RefusalStates(hash, probes, threads, t, req), Refusal(t, req);
            Goes(hash, states[k], es[k], states[k + 1])
  {
    hide KeyOf, ScopeOf, HasAuthHeaders, DoFinish;
    if k == 5 { RefusalFinishes(hash, probes, threads, t, req); }
  }

  lemma RefusalFinishes(hash: Digest, probes: seq<Probe>, threads: map<nat, Thread>, t: nat, req: Request)
    ensures var states := RefusalStates(hash, probes, threads, t, req);
            && t in states[5].threads && states[5].threads[t].pc.Finishing?
            && DoFinish(hash, states[5], t) == states[6]
  {
    hide KeyOf;
    var key := KeyOf(hash, req, Anonymous);
    var s := RefusalStates(hash, probes, threads, t, req)[5];
    var i := |probes|;
    assert s.inflight - {key} == map[] && s.leading - {key} == map[];
    assert Sent(s.chans, [], Forbidden, i) == map[];
  }

  lemma RefusalRuns(hash: Digest, before: seq<Event>, probes: seq<Probe>, threads: map<nat, Thread>, t: nat, req: Request)
    requires Exec(hash, before) == Some(Quiet(probes, threads))
    requires t !in threads && req.maxEntries > 0 && HasAuthHeaders(req.headers)
    ensures Exec(hash, before + Refusal(t, req)) ==
            Some(Quiet(probes + [Refused(t, req)], threads[t := Thread(req, Authenticated, LookingUp)]))
  {
    hide Goes, HasAuthHeaders;
    var states, es := RefusalStates(hash, probes, threads, t, req), Refusal(t, req);
    forall k | 0 <= k < |es| ensures Goes(hash, states[k], es[k], states[k + 1]) {
      if k < 3 { RefusalBegins(hash, probes, threads, t, req, k); } else { RefusalEnds(hash, probes, threads, t, req, k); }
    }
    ExecFollows(hash, before, states, es);
  }

  // ---------- two callers with one key ----------

  function Sharing(): seq<Event> {
    [LookUp(0), BeginProbe(0, 0), LookUp(1), BeginProbe(1, 1), ProbeReturns(0, Allowed), SkipStore(0), FinishProbe(0), Receive(1), Decide(1)]
  }

  function SharingStates(hash: Digest, rival: Request, req: Request): seq<Sys> {
    var key := KeyOf(hash, rival, Authenticated);
    var r, c := Thread(rival, Authenticated, LookingUp), Thread(req, Authenticated, LookingUp);
    var probes := [Refused(0, rival), Refused(1, req)];
    var more := probes + [Probe(SubjectOf(rival, Authenticated), Allowed, 0)];
    var led := Quiet(probes, map[0 := r.(pc := Probing), 1 := c]).(inflight := map[key := []], leading := map[key := 0]);
    var joined := led.(inflight := map[key := [1]], chans := map[1 := Channel(key, 0, [], false)],
                       threads := map[0 := r.(pc := Probing), 1 := c.(pc := Waiting(1))]);
    var sent := Quiet(more, map[0 := r.(pc := Decided(Allowed, Led(2))), 1 := c.(pc := Waiting(1))])
                .(chans := map[1 := Channel(key, 0, [(Allowed, 2)], true)]);
    [Quiet(probes, map[0 := r, 1 := c]),
     Quiet(probes, map[0 := r.(pc := Beginning), 1 := c]),
     led,
     led.(threads := map[0 := r.(pc := Probing), 1 := c.(pc := Beginning)]),
     joined,
     joined.(probes := more, threads := map[0 := r.(pc := Probed(Allowed, 2)), 1 := c.(pc := Waiting(1))]),
     joined.(probes := more, threads := map[0 := r.(pc := Finishing(Allowed, 2)), 1 := c.(pc := Waiting(1))]),
     sent,
     sent.(threads := sent.threads[1 := c.(pc := Decided(Allowed, Joined(2, 0)))]),
     sent.(threads := sent.threads[1 := c.(pc := Returned(Allowed, Joined(2, 0)))])]
  }

  lemma RivalLeads(hash: Digest, rival: Request, req: Request, k: nat)
    requires k < 2
    ensures var states, es := SharingStates(hash, rival, req), Sharing();
            Goes(hash, states[k], es[k], states[k + 1])
  {
    hide KeyOf, ScopeOf, HasAuthHeaders;
  }

  lemma CallerJoins(hash: Digest, rival: Request, req: Request, k: nat)
    requires KeyOf(hash, rival, Authenticated) == KeyOf(hash, req, Authenticated) && 2 <= k < 4
    ensures var states, es := SharingStates(hash, rival, req), Sharing();
            Goes(hash, states[k], es[k], states[k + 1])
  {
    hide KeyOf, ScopeOf, HasAuthHeaders, DoJoin;
    if k == 3 { SharingJoins(hash, rival, req); }
  }

  lemma SharingJoins(hash: Digest, rival: Request, req: Request)
    requires KeyOf(hash, rival, Authenticated) == KeyOf(hash, req, Authenticated)
    ensures var states := SharingStates(hash, rival, req);
            && 1 in states[3].threads && KeyOf(hash, states[3].threads[1].req, states[3].threads[1].tier) in states[3].inflight
            && DoJoin(hash, states[3], 1, 1) == states[4]
  {
    hide KeyOf;
    var s, s' := SharingStates(hash, rival, req)[3], SharingStates(hash, rival, req)[4];
    var key := KeyOf(hash, req, Authenticated);
    assert s.inflight[key] + [1] == [1];
    assert s.inflight[key := [1]] == s'.inflight;
  }

  lemma SharingSends(hash: Digest, rival: Request, req: Request, k: nat)
    requires rival.ttl == 0 && 4 <= k < 7
    ensures var states, es := SharingStates(hash, rival, req), Sharing();
            Goes(hash, states[k], es[k], states[k + 1])
  {
    hide KeyOf, ScopeOf, HasAuthHeaders, DoFinish;
    if k == 6 { SharingFinishes(hash, rival, req); }
  }

  lemma SharingEnds(hash: Digest, rival: Request, req: Request, k: nat)
    requires 7 <= k < 9
    ensures var states, es := SharingStates(hash, rival, req), Sharing();
            Goes(hash, states[k], es[k], states[k + 1])
  {
    hide KeyOf, ScopeOf, HasAuthHeaders;
  }

  lemma SharingFinishes(hash: Digest, rival: Request, req: Request)
    ensures var states := SharingStates(hash, rival, req);
            && 0 in states[6].threads && states[6].threads[0].pc.Finishing?
            && DoFinish(hash, states[6], 0) == states[7]
  {
    hide KeyOf;
    var key := KeyOf(hash, rival, Authenticated);
    var s := SharingStates(hash, rival, req)[6];
    assert s.inflight - {key} == map[] && s.leading - {key} == map[];
    assert s.chans[1].sent + [(Allowed, 2)] == [(Allowed, 2)];
    assert Sent(s.chans, [1], Allowed, 2) == map[1 := Channel(key, 0, [(Allowed, 2)], true)];
    assert DoFinish(hash, s, 0).threads == SharingStates(hash, rival, req)[7].threads;
  }

  // ---------- the run ----------

  /** A request of the same source with other headers and the same key. */
  function Rival(req: Request): Request
    requires Ambiguous(req.headers)
  {
    Request(req.prefix, req.identifier, Confused(SubjectOf(req, Authenticated)).headers, 0, 1)
  }

  function Mistaken(req: Request): seq<Event>
    requires Ambiguous(req.headers)
  {
    Refusal(0, Rival(req)) + Refusal(1, req) + Sharing()
  }

  lemma RivalSharesKey(hash: Digest, req: Request)
    requires GoodDigest(hash) && Speakable(req) && Ambiguous(req.headers)
    ensures Rival(req).maxEntries == 1 && Rival(req).ttl == 0
    ensures Speakable(Rival(req)) && HasAuthHeaders(Rival(req).headers) && HasAuthHeaders(req.headers)
    ensures KeyOf(hash, Rival(req), Authenticated) == KeyOf(hash, req, Authenticated)
    ensures !SameSubject(SubjectOf(Rival(req), Authenticated), SubjectOf(req, Authenticated))
  {
    hide AuthCacheKey, WellFormed, SameSubject;
    ConfusedSharesKey(hash, SubjectOf(req, Authenticated));
    assert SubjectOf(Rival(req), Authenticated) == Confused(SubjectOf(req, Authenticated));
    assert Sort([]) == [];
  }

  lemma NothingYet(hash: Digest)
    ensures Exec(hash, []) == Some(Quiet([], map[]))
  {
  }

  lemma MistakenRuns(hash: Digest, req: Request)
    requires GoodDigest(hash) && Speakable(req) && req.maxEntries > 0 && Ambiguous(req.headers)
    ensures var states := SharingStates(hash, Rival(req), req);
            Exec(hash, Mistaken(req)) == Some(states[9])
  {
    hide Goes, HasAuthHeaders, Rival, KeyOf, Speakable;
    RivalSharesKey(hash, req);
    var rival := Rival(req);
    NothingYet(hash);
    RefusalRuns(hash, [], [], map[], 0, rival);
    assert [] + Refusal(0, rival) == Refusal(0, rival) && [] + [Refused(0, rival)] == [Refused(0, rival)];
    RefusalRuns(hash, Refusal(0, rival), [Refused(0, rival)], map[0 := Thread(rival, Authenticated, LookingUp)], 1, req);
    var states, es := SharingStates(hash, rival, req), Sharing();
    assert [Refused(0, rival)] + [Refused(1, req)] == [Refused(0, rival), Refused(1, req)];
    forall k | 0 <= k < |es| ensures Goes(hash, states[k], es[k], states[k + 1]) {
      if k < 2 { RivalLeads(hash, rival, req, k); }
      else if k < 4 { CallerJoins(hash, rival, req, k); }
      else if k < 7 { SharingSends(hash, rival, req, k); }
      else { SharingEnds(hash, rival, req, k); }
    }
    ExecFollows(hash, Refusal(0, rival) + Refusal(1, req), states, es);
  }

  /** An ambiguous caller can be let in on a probe that does not vouch for it. */
  lemma AmbiguousCallersCanBeMistaken(hash: Digest, req: Request)
    requires GoodDigest(hash) && Speakable(req) && req.maxEntries > 0 && Ambiguous(req.headers)
    ensures LetsIn(hash, Mistaken(req), 1, req) && !VouchedFor(hash, Mistaken(req), 1)
  {
    hide Exec, Rival, Confused, Ambiguous, KeyOf, Speakable, Sort;
    MistakenRuns(hash, req);
    RivalSharesKey(hash, req);
  }

  /** In every run, among any other callers, a request is let in only on a probe that vouches for it - if and only
      if its headers are unambiguous. */
  lemma VouchedForIffUnambiguous(hash: Digest, req: Request)
    requires GoodDigest(hash) && Speakable(req) && req.maxEntries > 0
    ensures (forall es, t :: LetsIn(hash, es, t, req) ==> VouchedFor(hash, es, t)) <==> !Ambiguous(req.headers)
  {
    hide VouchedFor, Ambiguous, Speakable, Exec;
    if Ambiguous(req.headers) {
      AmbiguousCallersCanBeMistaken(hash, req);
    } else {
      forall es, t | LetsIn(hash, es, t, req) ensures VouchedFor(hash, es, t) { AllowedOnlyOnOwnProbe(hash, es, t, req); }
    }
  }
}
