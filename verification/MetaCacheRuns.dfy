/**
 Any number of callers of `MetaCaching.Meta` and `Open` at once: the lookup and the store are one step each
 under the mutex, the inner source answers in between, and time passes.
 */
module MetaCacheRuns {
  import opened MetaCache
  import opened Wrappers

  /** Where an answer came from: the inner source itself, or an entry stored at `storedAt` and found at `at`. */
  datatype Origin = Direct | Cached(storedAt: int, at: int)

  datatype Pc =
    | Looking                                       // before get
    | Asking                                        // the inner source is asked
    | Answered(meta: SourceMeta)                    // before store
    | Returned(meta: SourceMeta, origin: Origin)
    | Failed

  datatype Thread = Thread(identifier: string, pc: Pc)

  /** One answer of the inner source, and when. */
  datatype Answer = Answer(identifier: string, meta: SourceMeta, at: int)

  /** `answers` is history. */
  datatype Sys = Sys(now: int, items: Items, threads: map<nat, Thread>, answers: set<Answer>)

  datatype Event =
    | CallMeta(t: nat, identifier: string)
    | CallOpen(t: nat, identifier: string)          // does not look up, but stores what it gets
    | Get(t: nat)
    | Inner(t: nat, meta: Option<SourceMeta>)       // None: the inner source fails
    | Store(t: nat, items: Items)                   // items: the cache after store
    | Tick(later: int)

  datatype Config = Config(ttl: int, max: nat)

  ghost predicate Enabled(c: Config, s: Sys, e: Event) {
    match e
    case Tick(later) => later >= s.now
    case CallMeta(t, _) => t !in s.threads
    case CallOpen(t, _) => t !in s.threads
    case _ =>
      && e.t in s.threads
      && var th := s.threads[e.t];
      match e
      case Get(_) => th.pc.Looking?
      case Inner(_, _) => th.pc.Asking?
      case Store(_, items) => th.pc.Answered? && StoresItem(c.ttl, c.max, s.items, th.identifier, Item(th.pc.meta, s.now), items)
  }

  function Move(s: Sys, t: nat, pc: Pc): Sys
    requires t in s.threads
  {
    s.(threads := s.threads[t := s.threads[t].(pc := pc)])
  }

  function Next(c: Config, s: Sys, e: Event): Sys
    requires Enabled(c, s, e)
  {
    match e
    case Tick(later) => s.(now := later)
    case CallMeta(t, id) => s.(threads := s.threads[t := Thread(id, Looking)])
    case CallOpen(t, id) => s.(threads := s.threads[t := Thread(id, Asking)])
    case Get(t) =>
      var (items, meta) := GotItem(c.ttl, s.items, s.threads[t].identifier, s.now);
      Move(s.(items := items), t,
           if meta.None? then Asking else Returned(meta.value, Cached(s.items[s.threads[t].identifier].storedAt, s.now)))
    case Inner(t, meta) =>
      if meta.None? then Move(s, t, Failed)
      else Move(s.(answers := s.answers + {Answer(s.threads[t].identifier, meta.value, s.now)}), t, Answered(meta.value))
    case Store(t, items) => Move(s.(items := items), t, Returned(s.threads[t].pc.meta, Direct))
  }

  function Init(start: int): Sys { Sys(start, map[], map[], {}) }

  ghost function Exec(c: Config, start: int, es: seq<Event>): Option<Sys> {
    if es == [] then Some(Init(start))
    else
      var before := Exec(c, start, es[..|es| - 1]);
      var e := es[|es| - 1];
      if before.Some? && Enabled(c, before.value, e) then Some(Next(c, before.value, e)) else None
  }

  /** The inner source gave this metadata for this identifier, by that time. */
  ghost predicate GivenBy(answers: set<Answer>, identifier: string, meta: SourceMeta, time: int) {
    exists a :: a in answers && a.identifier == identifier && a.meta == meta && a.at <= time
  }

  ghost predicate ItemsInv(c: Config, s: Sys) {
    && |s.items| <= c.max
    && forall k <- s.items :: s.items[k].storedAt <= s.now && GivenBy(s.answers, k, s.items[k].meta, s.items[k].storedAt)
  }

  ghost predicate ThreadOk(c: Config, s: Sys, th: Thread) {
    match th.pc
    case Answered(meta) => GivenBy(s.answers, th.identifier, meta, s.now)
    case Returned(meta, Direct) => GivenBy(s.answers, th.identifier, meta, s.now)
    case Returned(meta, Cached(storedAt, at)) =>
      at <= s.now && at - storedAt <= c.ttl && GivenBy(s.answers, th.identifier, meta, storedAt)
    case _ => true
  }

  ghost predicate ThreadsInv(c: Config, s: Sys) { forall t <- s.threads :: ThreadOk(c, s, s.threads[t]) }

  lemma GivenStays(answers: set<Answer>, more: set<Answer>, identifier: string, meta: SourceMeta, time: int, later: int)
    requires GivenBy(answers, identifier, meta, time) && answers <= more && time <= later
    ensures GivenBy(more, identifier, meta, later)
  {
  }

  lemma ItemsStep(c: Config, s: Sys, e: Event)
    requires c.max >= 1 && ItemsInv(c, s) && ThreadsInv(c, s) && Enabled(c, s, e)
    ensures ItemsInv(c, Next(c, s, e))
  {
    hide GivenBy;
    var s' := Next(c, s, e);
    forall k | k in s'.items ensures s'.items[k].storedAt <= s'.now && GivenBy(s'.answers, k, s'.items[k].meta, s'.items[k].storedAt) {
      if k in s.items && s.items[k] == s'.items[k] {
        GivenStays(s.answers, s'.answers, k, s.items[k].meta, s.items[k].storedAt, s.items[k].storedAt);
      } else {
        assert ThreadOk(c, s, s.threads[e.t]);
      }
    }
    if e.Store? { StoreKeepsBound(c.ttl, c.max, s.items, s.threads[e.t].identifier, Item(s.threads[e.t].pc.meta, s.now), e.items); }
    if e.Get? { GetKeepsBound(c.ttl, s.items, s.threads[e.t].identifier, s.now); }
  }

  lemma ThreadsStep(c: Config, s: Sys, e: Event)
    requires ItemsInv(c, s) && ThreadsInv(c, s) && Enabled(c, s, e)
    ensures ThreadsInv(c, Next(c, s, e))
  {
    hide GivenBy, StoresItem;
    var s' := Next(c, s, e);
    forall t | t in s'.threads ensures ThreadOk(c, s', s'.threads[t]) {
      if t in s.threads && s.threads[t] == s'.threads[t] {
        ThreadStays(c, s, s', s.threads[t]);
      } else if e.Inner? && s'.threads[t].pc.Answered? {
        assert Answer(s.threads[t].identifier, s'.threads[t].pc.meta, s.now) in s'.answers;
        assert GivenBy(s'.answers, s'.threads[t].identifier, s'.threads[t].pc.meta, s'.now) by { JustGiven(s', t); }
      } else if e.Store? {
        assert ThreadOk(c, s, s.threads[t]);
      }
    }
  }

  lemma JustGiven(s: Sys, t: nat)
    requires t in s.threads && s.threads[t].pc.Answered? && Answer(s.threads[t].identifier, s.threads[t].pc.meta, s.now) in s.answers
    ensures GivenBy(s.answers, s.threads[t].identifier, s.threads[t].pc.meta, s.now)
  {
  }

  lemma ThreadStays(c: Config, s: Sys, s': Sys, th: Thread)
    requires ThreadOk(c, s, th) && s.answers <= s'.answers && s.now <= s'.now
    ensures ThreadOk(c, s', th)
  {
    hide GivenBy;
    match th.pc {
      case Answered(meta) => GivenStays(s.answers, s'.answers, th.identifier, meta, s.now, s'.now);
      case Returned(meta, Direct) => GivenStays(s.answers, s'.answers, th.identifier, meta, s.now, s'.now);
      case Returned(meta, Cached(storedAt, at)) => GivenStays(s.answers, s'.answers, th.identifier, meta, storedAt, storedAt);
      case _ =>
    }
  }

  lemma {:induction false} RunsKeepInv(c: Config, start: int, es: seq<Event>)
    requires c.max >= 1 && Exec(c, start, es).Some?
    ensures ItemsInv(c, Exec(c, start, es).value) && ThreadsInv(c, Exec(c, start, es).value)
  {
    hide Next, Enabled;
    if es == [] {
      assert |Init(start).items| == 0;
    } else {
      var s := Exec(c, start, es[..|es| - 1]).value;
      RunsKeepInv(c, start, es[..|es| - 1]);
      ItemsStep(c, s, es[|es| - 1]);
      ThreadsStep(c, s, es[|es| - 1]);
    }
  }

  /** In every interleaving the cache never exceeds its maximum. */
  lemma NeverMoreThanMax(c: Config, start: int, es: seq<Event>)
    requires c.max >= 1 && Exec(c, start, es).Some?
    ensures |Exec(c, start, es).value.items| <= c.max
  {
    RunsKeepInv(c, start, es);
  }

  /** And in every interleaving a caller is answered with what the inner source gave for its very identifier: to
      this caller, or to one that stored it no longer than the TTL before it was found. */
  lemma AnswersAreGiven(c: Config, start: int, es: seq<Event>, t: nat)
    requires c.max >= 1 && Exec(c, start, es).Some?
    requires t in Exec(c, start, es).value.threads && Exec(c, start, es).value.threads[t].pc.Returned?
    ensures var s := Exec(c, start, es).value;
            var (id, pc) := (s.threads[t].identifier, s.threads[t].pc);
            match pc.origin
            case Direct => GivenBy(s.answers, id, pc.meta, s.now)
            case Cached(storedAt, at) => at - storedAt <= c.ttl && GivenBy(s.answers, id, pc.meta, storedAt)
  {
    RunsKeepInv(c, start, es);
    assert ThreadOk(c, Exec(c, start, es).value, Exec(c, start, es).value.threads[t]);
  }
}
