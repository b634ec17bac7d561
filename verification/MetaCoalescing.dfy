/**
 `coalescedAuthFallbackMeta` of internal/storage/local_url.go: concurrent metadata
 lookups of one key share one fetch. The two `authMu` sections are one step each;
 fetching, waking up and being cancelled are steps of their own.
 */
module MetaCoalescing {
  import opened Wrappers

  /** Metadata or an error, as the fallback gave it. */
  type Answer = string

  /** An `authFallbackMetaCall`; `answer` is set and `done` closed by its leader. */
  datatype Call = Call(key: string, answer: Option<Answer>, done: bool)

  datatype Pc =
    | Fetching(call: nat)
    | Fetched(call: nat, answer: Answer)
    | Waiting(call: nat)
    | Returned(call: nat, answer: Answer)
    | Cancelled(call: nat)

  datatype Sys = Sys(inflight: map<string, nat>, calls: map<nat, Call>, threads: map<nat, Pc>)

  datatype Event =
    | Begin(t: nat, key: string, id: nat)
    | Fetch(t: nat, answer: Answer)
    | Finish(t: nat)
    | Wake(t: nat)
    | Cancel(t: nat)

  /** `beginAuthFallbackMeta`: join the call in flight, or register call `id` and lead it. */
  function DoBegin(s: Sys, t: nat, key: string, id: nat): Sys {
    if key in s.inflight then s.(threads := s.threads[t := Waiting(s.inflight[key])])
    else Sys(s.inflight[key := id], s.calls[id := Call(key, None, false)], s.threads[t := Fetching(id)])
  }

  /** `finishAuthFallbackMeta`, after which the leader returns its own answer. */
  function DoFinish(s: Sys, t: nat): Sys
    requires t in s.threads && s.threads[t].Fetched? && s.threads[t].call in s.calls
  {
    var pc := s.threads[t];
    var call := s.calls[pc.call];
    Sys(s.inflight - {call.key}, s.calls[pc.call := call.(answer := Some(pc.answer), done := true)],
        s.threads[t := Returned(pc.call, pc.answer)])
  }

  predicate Enabled(s: Sys, e: Event) {
    match e
    case Begin(t, key, id) => t !in s.threads && id !in s.calls
    case Fetch(t, _) => t in s.threads && s.threads[t].Fetching?
    case Finish(t) => t in s.threads && s.threads[t].Fetched? && s.threads[t].call in s.calls
    case Wake(t) => t in s.threads && s.threads[t].Waiting? && s.threads[t].call in s.calls
                    && s.calls[s.threads[t].call].done && s.calls[s.threads[t].call].answer.Some?
    case Cancel(t) => t in s.threads && s.threads[t].Waiting?
  }

  function Next(s: Sys, e: Event): Sys
    requires Enabled(s, e)
  {
    match e
    case Begin(t, key, id) => DoBegin(s, t, key, id)
    case Fetch(t, answer) => s.(threads := s.threads[t := Fetched(s.threads[t].call, answer)])
    case Finish(t) => DoFinish(s, t)
    case Wake(t) => s.(threads := s.threads[t := Returned(s.threads[t].call, s.calls[s.threads[t].call].answer.value)])
    case Cancel(t) => s.(threads := s.threads[t := Cancelled(s.threads[t].call)])
  }

  const INIT: Sys := Sys(map[], map[], map[])

  function Exec(es: seq<Event>): Option<Sys> {
    if es == [] then Some(INIT)
    else
      var before := Exec(es[..|es| - 1]);
      var e := es[|es| - 1];
      if before.Some? && Enabled(before.value, e) then Some(Next(before.value, e)) else None
  }

  // ---------- the invariant ----------

  predicate Leads(pc: Pc, c: nat) { (pc.Fetching? || pc.Fetched?) && pc.call == c }

  /** A call is in flight, open and led by exactly one thread, until it is answered and closed for good. */
  ghost predicate CallsInv(s: Sys) {
    && (forall k <- s.inflight :: s.inflight[k] in s.calls && s.calls[s.inflight[k]].key == k && !s.calls[s.inflight[k]].done)
    && (forall c <- s.calls :: !s.calls[c].done ==> s.calls[c].key in s.inflight && s.inflight[s.calls[c].key] == c)
    && (forall c <- s.calls :: s.calls[c].done ==> s.calls[c].answer.Some?)
  }

  ghost predicate ThreadsInv(s: Sys) {
    forall t <- s.threads ::
      var pc := s.threads[t];
      && pc.call in s.calls
      && (pc.Fetching? || pc.Fetched? ==> !s.calls[pc.call].done)
      && (pc.Returned? ==> s.calls[pc.call].done && s.calls[pc.call].answer == Some(pc.answer))
  }

  ghost predicate LeadersInv(s: Sys) {
    && (forall c <- s.calls :: !s.calls[c].done ==> exists t :: t in s.threads && Leads(s.threads[t], c))
    && (forall t, u, c :: t in s.threads && u in s.threads && Leads(s.threads[t], c) && Leads(s.threads[u], c) ==> t == u)
  }

  ghost predicate Inv(s: Sys) { CallsInv(s) && ThreadsInv(s) && LeadersInv(s) }

  lemma CallsStep(s: Sys, e: Event)
    requires CallsInv(s) && ThreadsInv(s) && Enabled(s, e)
    ensures CallsInv(Next(s, e))
  {
  }

  lemma ThreadsStep(s: Sys, e: Event)
    requires Inv(s) && Enabled(s, e)
    ensures ThreadsInv(Next(s, e))
  {
    if e.Finish? {
      var c := s.threads[e.t].call;
      assert forall u <- s.threads :: u != e.t ==> !Leads(s.threads[u], c);
    }
  }

  lemma LeadersStep(s: Sys, e: Event)
    requires Inv(s) && Enabled(s, e)
    ensures LeadersInv(Next(s, e))
  {
    hide CallsInv;
    var s' := Next(s, e);
    forall c | c in s'.calls && !s'.calls[c].done ensures exists t :: t in s'.threads && Leads(s'.threads[t], c) {
      if c in s.calls && !s.calls[c].done {
        var t :| t in s.threads && Leads(s.threads[t], c);
        assert Leads(s'.threads[t], c);
      } else {
        assert Leads(s'.threads[e.t], c);
      }
    }
    forall t, c | t in s'.threads && Leads(s'.threads[t], c) && t in s.threads ensures Leads(s.threads[t], c) {}
  }

  lemma {:induction false} RunsKeepInv(es: seq<Event>)
    requires Exec(es).Some?
    ensures Inv(Exec(es).value)
  {
    if es != [] {
      RunsKeepInv(es[..|es| - 1]);
      CallsStep(Exec(es[..|es| - 1]).value, es[|es| - 1]);
      ThreadsStep(Exec(es[..|es| - 1]).value, es[|es| - 1]);
      LeadersStep(Exec(es[..|es| - 1]).value, es[|es| - 1]);
    }
  }

  // ---------- what every run guarantees ----------

  /** t is at work for the call it leads under this key. */
  predicate WorksFor(s: Sys, t: nat, key: string) {
    t in s.threads && Leads(s.threads[t], s.threads[t].call) && s.threads[t].call in s.calls && s.calls[s.threads[t].call].key == key
  }

  /** At most one fetch is under way for a key, and `done` is never closed twice. */
  lemma OneFetchPerKey(es: seq<Event>, key: string, t: nat, u: nat)
    requires Exec(es).Some? && WorksFor(Exec(es).value, t, key) && WorksFor(Exec(es).value, u, key)
    ensures t == u && !Exec(es).value.calls[Exec(es).value.threads[t].call].done
  {
    RunsKeepInv(es);
  }

  /** All who shared a call return the one answer its leader fetched. */
  lemma SharersAgree(es: seq<Event>, t: nat, u: nat)
    requires Exec(es).Some? && t in Exec(es).value.threads && u in Exec(es).value.threads
    requires Exec(es).value.threads[t].Returned? && Exec(es).value.threads[u].Returned?
    requires Exec(es).value.threads[t].call == Exec(es).value.threads[u].call
    ensures Exec(es).value.threads[t].answer == Exec(es).value.threads[u].answer
  {
    RunsKeepInv(es);
  }

  /** Step k of the run is the fetch for call c, with this answer. */
  ghost predicate FetchedAt(es: seq<Event>, k: nat, c: nat, answer: Answer) {
    && k < |es| && es[k].Fetch? && es[k].answer == answer && Exec(es[..k]).Some?
    && es[k].t in Exec(es[..k]).value.threads && Exec(es[..k]).value.threads[es[k].t].call == c
  }

  predicate HasAnswer(s: Sys, c: nat, answer: Answer) {
    || (c in s.calls && s.calls[c].answer == Some(answer))
    || HeldAnswer(s, c, answer)
  }

  /** Somebody is about to publish it. */
  predicate HeldAnswer(s: Sys, c: nat, answer: Answer) { exists t <- s.threads :: s.threads[t] == Fetched(c, answer) }

  lemma AnswerStep(s: Sys, e: Event, c: nat, answer: Answer)
    requires Enabled(s, e) && HasAnswer(Next(s, e), c, answer)
    ensures HasAnswer(s, c, answer) || (e.Fetch? && e.answer == answer && s.threads[e.t].call == c)
  {
    var s' := Next(s, e);
    if HeldAnswer(s', c, answer) {
      var t :| t in s'.threads && s'.threads[t] == Fetched(c, answer);
      assert t in s.threads && (s.threads[t] == Fetched(c, answer) || (e.Fetch? && e.t == t));
    }
    if e.Finish? { assert s.threads[e.t] == Fetched(s.threads[e.t].call, s.threads[e.t].answer); }
  }

  /** Whatever is published or returned for a call is what its leader's fetch gave. */
  lemma {:induction false} AnswersComeFromTheFetch(es: seq<Event>, c: nat, answer: Answer) returns (k: nat)
    requires Exec(es).Some? && HasAnswer(Exec(es).value, c, answer)
    ensures FetchedAt(es, k, c, answer)
  {
    hide Next, Enabled, HasAnswer;
    assert es != [] by { NoAnswerYet(c, answer); }
    var n := |es| - 1;
    var s := Exec(es[..n]).value;
    AnswerStep(s, es[n], c, answer);
    if HasAnswer(s, c, answer) {
      k := AnswersComeFromTheFetch(es[..n], c, answer);
      assert es[..n][..k] == es[..k];
    } else {
      k := n;
      assert es[n].t in s.threads by { FetchEnabled(s, es[n]); }
    }
  }

  lemma NoAnswerYet(c: nat, answer: Answer)
    ensures !HasAnswer(INIT, c, answer)
  {
  }

  lemma FetchEnabled(s: Sys, e: Event)
    requires Enabled(s, e) && e.Fetch?
    ensures e.t in s.threads
  {
  }

  /** So every caller that was not cancelled returns what the fetch for its call gave. */
  lemma ReturnedIsFetched(es: seq<Event>, t: nat) returns (k: nat)
    requires Exec(es).Some? && t in Exec(es).value.threads && Exec(es).value.threads[t].Returned?
    ensures FetchedAt(es, k, Exec(es).value.threads[t].call, Exec(es).value.threads[t].answer)
  {
    RunsKeepInv(es);
    k := AnswersComeFromTheFetch(es, Exec(es).value.threads[t].call, Exec(es).value.threads[t].answer);
  }

  /** A waiter can always go on, or the leader of its call can: nobody waits for nothing. */
  lemma WaitersAreServed(es: seq<Event>, t: nat)
    requires Exec(es).Some? && t in Exec(es).value.threads && Exec(es).value.threads[t].Waiting?
    ensures var s := Exec(es).value;
            || Enabled(s, Wake(t))
            || exists u :: u in s.threads && Leads(s.threads[u], s.threads[t].call) && (Enabled(s, Fetch(u, "")) || Enabled(s, Finish(u)))
  {
    RunsKeepInv(es);
    var s := Exec(es).value;
    if !Enabled(s, Wake(t)) {
      var u :| u in s.threads && Leads(s.threads[u], s.threads[t].call);
      assert Enabled(s, Fetch(u, "")) || Enabled(s, Finish(u));
    }
  }
}

/** `MetaTable` is the `authFallbackMetaInflight` map with its calls, proved to take the steps above. */
module MetaTables {
  import opened Wrappers
  import opened MetaCoalescing

  class MetaCall {
    ghost const id: nat
    ghost const key: string
    var answer: Option<Answer>
    var done: bool

    constructor (ghost id: nat, ghost key: string)
      ensures this.id == id && this.key == key && answer.None? && !done
    {
      this.id, this.key := id, key;
      answer, done := None, false;
    }
  }

  class MetaTable {
    var inflight: map<string, MetaCall>
    ghost var calls: seq<MetaCall>   // every call ever made, by id

    ghost predicate Valid()
      reads this, calls
    {
      && (forall i :: 0 <= i < |calls| ==> calls[i].id == i)
      && (forall k <- inflight :: Known(inflight[k]))
    }

    ghost predicate Known(call: MetaCall)
      reads this
    {
      call.id < |calls| && calls[call.id] == call
    }

    ghost function InflightIds(): map<string, nat>
      reads this
    {
      map k | k in inflight :: inflight[k].id
    }

    ghost function Calls(): map<nat, Call>
      reads this, calls
    {
      map i: nat | i < |calls| :: Call(calls[i].key, calls[i].answer, calls[i].done)
    }

    /** The state of the protocol in which `threads` stand where they do. */
    ghost function View(threads: map<nat, Pc>): Sys
      reads this, calls
    {
      Sys(InflightIds(), Calls(), threads)
    }

    constructor ()
      ensures Valid() && View(map[]) == INIT
    {
      inflight, calls := map[], [];
    }

    method BeginAuthFallbackMeta(key: string, ghost threads: map<nat, Pc>, ghost t: nat) returns (call: MetaCall, leader: bool)
      requires Valid() && t !in threads
      modifies this
      ensures Valid() && Known(call)
      ensures leader <==> key !in old(inflight)
      ensures View(threads[t := if leader then Fetching(call.id) else Waiting(call.id)]) == DoBegin(old(View(threads)), t, key, old(|calls|))
    {
      ghost var ids, was := InflightIds(), Calls();
      if key in inflight { return inflight[key], false; }
      call := new MetaCall(|calls|, key);
      inflight := inflight[key := call];
      calls := calls + [call];
      leader := true;
      assert InflightIds() == ids[key := call.id];
      assert Calls() == was[call.id := Calls()[call.id]];
    }

    method FinishAuthFallbackMeta(key: string, call: MetaCall, answer: Answer, ghost threads: map<nat, Pc>, ghost t: nat)
      requires Valid() && Known(call) && call.key == key && t in threads && threads[t] == Fetched(call.id, answer)
      modifies this`inflight, call
      ensures Valid()
      ensures View(threads[t := Returned(call.id, answer)]) == DoFinish(old(View(threads)), t)
    {
      ghost var ids, was := InflightIds(), Calls();
      call.answer := Some(answer);
      inflight := inflight - {key};
      call.done := true;
      assert InflightIds() == ids - {key};
      assert Calls() == was[call.id := Calls()[call.id]];
    }
  }
}
