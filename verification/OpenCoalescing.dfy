/**
 The shared download of internal/storage/local_url.go: concurrent opens of one
 key share one fetch and one temporary file, which is reference-counted and
 removed by whoever drops the last reference.

 Every `authMu` critical section is one atomic function on `Table`; everything
 a goroutine does outside the lock (fetching, closing `done`, opening and
 removing the file) is a separate step, so a run is any interleaving of them.
 */
module OpenCoalescing {
  import opened Wrappers

  // ---------- the critical sections ----------

  /** The fields of an `authFallbackOpenCall`; `done` is the closed channel. */
  datatype Call = Call(path: string, err: Option<string>, refs: int, doneClosed: bool, done: bool)

  /** `authFallbackOpenInflight`, with calls named by the order of creation. */
  datatype Table = Table(inflight: map<string, nat>, calls: map<nat, Call>)

  const NEW_CALL: Call := Call("", None, 1, false, false)

  /** `beginAuthFallbackOpen`: join the call in flight, or register call `id` and lead it. */
  function Begin(tb: Table, key: string, id: nat): (Table, nat, bool)
    requires TableOk(tb)
  {
    if key in tb.inflight then
      var c := tb.inflight[key];
      var call := tb.calls[c];
      (tb.(calls := tb.calls[c := call.(refs := call.refs + 1)]), c, false)
    else
      (Table(tb.inflight[key := id], tb.calls[id := NEW_CALL]), id, true)
  }

  /** The locked part of `finishAuthFallbackOpen`; the flag is its `removePath`. */
  function Finish(tb: Table, key: string, c: nat, path: string, err: Option<string>): (Table, bool)
    requires c in tb.calls
  {
    var call := tb.calls[c].(path := path, err := err, doneClosed := true);
    (Table(tb.inflight - {key}, tb.calls[c := call]), call.refs == 0 && path != "")
  }

  /** The locked part of `releaseAuthFallbackOpen`; the flag is its `removePath`. */
  function Release(tb: Table, c: nat): (Table, bool)
    requires c in tb.calls
  {
    var call := tb.calls[c];
    var call' := if call.refs > 0 then call.(refs := call.refs - 1) else call;
    (tb.(calls := tb.calls[c := call']), call'.doneClosed && call'.refs == 0 && call'.path != "")
  }

  // ---------- goroutines ----------

  /** Where one `coalescedAuthFallbackOpen` and the file it hands out stand. */
  datatype Pc =
    | Fetching(call: nat, key: string)                                       // leader, nothing on disk yet
    | Copying(call: nat, key: string, path: string)                          // leader, temp file created
    | Fetched(call: nat, key: string, path: string, err: Option<string>)     // leader, fetch over
    | Published(call: nat, removePath: bool)                                 // leader, lock released, `done` open
    | LeaderRemoving(call: nat)                                              // removal branch of the finish
    | Waiting(call: nat)                                                     // follower in the select
    | Opening(call: nat)                                                     // in openAuthFallbackResult
    | Holding(call: nat)                                                     // file handed to the caller
    | Releasing(call: nat)                                                   // about to release
    | Removing(call: nat, path: string)                                      // lock released, must remove
    | Finished

  /** The whole system; `files` maps each temp file on disk to the call that created it and
      `removed` counts the `os.Remove` of a published file by call. */
  datatype Sys = Sys(table: Table, threads: map<nat, Pc>, files: map<string, nat>, removed: multiset<nat>)

  const INIT: Sys := Sys(Table(map[], map[]), map[], map[], multiset{})

  datatype Event =
    | EvBegin(t: nat, key: string, id: nat)
    | EvCreateTemp(t: nat, name: string)
    | EvFetchFails(t: nat, cause: string)
    | EvFetchSucceeds(t: nat)
    | EvFinish(t: nat)
    | EvCloseDone(t: nat)
    | EvLeaderRemove(t: nat)
    | EvWake(t: nat)
    | EvCancel(t: nat)
    | EvOpen(t: nat, refused: bool)   // refused: the operating system cannot open a file that is there
    | EvClose(t: nat)
    | EvRelease(t: nat)
    | EvRemove(t: nat)

  function Goto(s: Sys, t: nat, pc: Pc): Sys {
    s.(threads := s.threads[t := pc])
  }

  predicate At(s: Sys, t: nat) {
    t in s.threads && !s.threads[t].Finished? && s.threads[t].call in s.table.calls
  }

  predicate TableOk(tb: Table) { forall k <- tb.inflight :: tb.inflight[k] in tb.calls }

  function DoBegin(s: Sys, t: nat, key: string, id: nat): Sys
    requires TableOk(s.table)
  {
    var (tb, c, leader) := Begin(s.table, key, id);
    Goto(s.(table := tb), t, if leader then Fetching(c, key) else Waiting(c))
  }

  function DoCreateTemp(s: Sys, t: nat, name: string): Sys
    requires At(s, t) && s.threads[t].Fetching?
  {
    var pc := s.threads[t];
    Goto(s.(files := s.files[name := pc.call]), t, Copying(pc.call, pc.key, name))
  }

  function DoFetchFails(s: Sys, t: nat, cause: string): Sys
    requires At(s, t) && (s.threads[t].Fetching? || s.threads[t].Copying?)
  {
    var pc := s.threads[t];
    Goto(if pc.Copying? then s.(files := s.files - {pc.path}) else s, t, Fetched(pc.call, pc.key, "", Some(cause)))
  }

  function DoFetchSucceeds(s: Sys, t: nat): Sys
    requires At(s, t) && s.threads[t].Copying?
  {
    var pc := s.threads[t];
    Goto(s, t, Fetched(pc.call, pc.key, pc.path, None))
  }

  function DoFinish(s: Sys, t: nat): Sys
    requires At(s, t) && s.threads[t].Fetched?
  {
    var pc := s.threads[t];
    var (tb, removePath) := Finish(s.table, pc.key, pc.call, pc.path, pc.err);
    Goto(s.(table := tb), t, Published(pc.call, removePath))
  }

  function DoCloseDone(s: Sys, t: nat): Sys
    requires At(s, t) && s.threads[t].Published?
  {
    var pc := s.threads[t];
    var tb := s.table.(calls := s.table.calls[pc.call := s.table.calls[pc.call].(done := true)]);
    Goto(s.(table := tb), t, if pc.removePath then LeaderRemoving(pc.call) else Opening(pc.call))
  }

  function DoLeaderRemove(s: Sys, t: nat): Sys
    requires At(s, t)
  {
    var c := s.threads[t].call;
    Goto(s.(files := s.files - {s.table.calls[c].path}, removed := s.removed + multiset{c}), t, Opening(c))
  }

  function DoOpen(s: Sys, t: nat, refused: bool): Sys
    requires At(s, t)
  {
    var c := s.threads[t].call;
    var call := s.table.calls[c];
    Goto(s, t, if call.err.Some? || call.path !in s.files || refused then Releasing(c) else Holding(c))
  }

  function DoRelease(s: Sys, t: nat): Sys
    requires At(s, t)
  {
    var c := s.threads[t].call;
    var (tb, removePath) := Release(s.table, c);
    Goto(s.(table := tb), t, if removePath then Removing(c, tb.calls[c].path) else Finished)
  }

  function DoRemove(s: Sys, t: nat): Sys
    requires At(s, t) && s.threads[t].Removing?
  {
    var pc := s.threads[t];
    Goto(s.(files := s.files - {pc.path}, removed := s.removed + multiset{pc.call}), t, Finished)
  }

  predicate Enabled(s: Sys, e: Event) {
    if e.EvBegin? then
      e.t !in s.threads && e.id !in s.table.calls && TableOk(s.table)
    else
      && At(s, e.t)
      && var pc := s.threads[e.t];
      match e
      case EvCreateTemp(_, name) => pc.Fetching? && name != "" && name !in s.files
      case EvFetchFails(_, _) => pc.Fetching? || pc.Copying?
      case EvFetchSucceeds(_) => pc.Copying?
      case EvFinish(_) => pc.Fetched?
      case EvCloseDone(_) => pc.Published?
      case EvLeaderRemove(_) => pc.LeaderRemoving?
      case EvWake(_) => pc.Waiting? && s.table.calls[pc.call].done
      case EvCancel(_) => pc.Waiting?
      case EvOpen(_, _) => pc.Opening?
      case EvClose(_) => pc.Holding?
      case EvRelease(_) => pc.Releasing?
      case EvRemove(_) => pc.Removing?
  }

  function Next(s: Sys, e: Event): Sys
    requires Enabled(s, e)
  {
    match e
    case EvBegin(t, key, id) => DoBegin(s, t, key, id)
    case EvCreateTemp(t, name) => DoCreateTemp(s, t, name)
    case EvFetchFails(t, cause) => DoFetchFails(s, t, cause)
    case EvFetchSucceeds(t) => DoFetchSucceeds(s, t)
    case EvFinish(t) => DoFinish(s, t)
    case EvCloseDone(t) => DoCloseDone(s, t)
    case EvLeaderRemove(t) => DoLeaderRemove(s, t)
    case EvWake(t) => Goto(s, t, Opening(s.threads[t].call))
    case EvCancel(t) => Goto(s, t, Releasing(s.threads[t].call))
    case EvOpen(t, refused) => DoOpen(s, t, refused)
    case EvClose(t) => Goto(s, t, Releasing(s.threads[t].call))
    case EvRelease(t) => DoRelease(s, t)
    case EvRemove(t) => DoRemove(s, t)
  }

  /** The state after a run, or None when some event was not enabled. */
  function Exec(es: seq<Event>): Option<Sys> {
    if es == [] then Some(INIT)
    else
      var before := Exec(es[..|es| - 1]);
      var e := es[|es| - 1];
      if before.Some? && Enabled(before.value, e) then Some(Next(before.value, e)) else None
  }

  // ---------- the invariant ----------

  /** The parts a goroutine can play for a call. */
  datatype Role = Holder | Leader | TempOwner(path: string) | Publisher | Remover

  predicate Plays(pc: Pc, role: Role) {
    match role
    case Holder => !pc.Finished? && !pc.Removing?
    case Leader => pc.Fetching? || pc.Copying? || pc.Fetched?
    case TempOwner(p) => (pc.Copying? || (pc.Fetched? && pc.path != "")) && pc.path == p
    case Publisher => pc.Published?
    case Remover => pc.Removing?
  }

  predicate PlaysFor(pc: Pc, role: Role, c: nat) {
    !pc.Finished? && Plays(pc, role) && pc.call == c
  }

  function Players(threads: map<nat, Pc>, role: Role, c: nat): set<nat> {
    set t | t in threads && PlaysFor(threads[t], role, c)
  }

  function Count(threads: map<nat, Pc>, role: Role, c: nat): nat {
    |Players(threads, role, c)|
  }

  function One(b: bool): nat { if b then 1 else 0 }

  predicate CallOk(s: Sys, c: nat)
    requires c in s.table.calls
  {
    var call := s.table.calls[c];
    && Count(s.threads, Holder, c) == call.refs
    && Count(s.threads, Leader, c) == One(!call.doneClosed)
    && Count(s.threads, Publisher, c) == One(call.doneClosed && !call.done)
    && Count(s.threads, Remover, c) + s.removed[c] == One(call.doneClosed && call.path != "" && call.refs == 0)
    && (call.done ==> call.doneClosed)
    && (!call.doneClosed ==> call.path == "" && call.err.None?)
    && (call.doneClosed ==> (call.err.None? <==> call.path != ""))
    && (call.path != "" && s.removed[c] == 0 ==> call.path in s.files && s.files[call.path] == c)
  }

  /** What a goroutine at pc may rely on. */
  predicate PcOk(tb: Table, files: map<string, nat>, pc: Pc) {
    !pc.Finished? ==>
      && pc.call in tb.calls
      && var call := tb.calls[pc.call];
      && (Plays(pc, Leader) ==> pc.key in tb.inflight && tb.inflight[pc.key] == pc.call)
      && (pc.Copying? ==> pc.path != "" && pc.path in files && files[pc.path] == pc.call)
      && (pc.Fetched? && pc.err.None? ==> pc.path != "" && pc.path in files && files[pc.path] == pc.call)
      && (pc.Fetched? && pc.err.Some? ==> pc.path == "")
      && (pc.Published? ==> !pc.removePath)
      && !pc.LeaderRemoving?
      && (pc.Opening? || pc.Holding? ==> call.doneClosed)
      && (pc.Removing? ==> call.path == pc.path)
  }

  /** Every file on disk is either its leader's temp file or the published file of its call. */
  predicate FileOk(s: Sys, p: string)
    requires p in s.files
  {
    var c := s.files[p];
    && c in s.table.calls
    && p != ""
    && Count(s.threads, TempOwner(p), c) + One(s.table.calls[c].path == p && s.removed[c] == 0) == 1
  }

  ghost predicate InflightInv(s: Sys) {
    var inflight := s.table.inflight;
    && (forall k <- inflight :: inflight[k] in s.table.calls && !s.table.calls[inflight[k]].doneClosed)
    && (forall k, l :: k in inflight && l in inflight && inflight[k] == inflight[l] ==> k == l)
  }

  ghost predicate ThreadsInv(s: Sys) { forall t <- s.threads :: PcOk(s.table, s.files, s.threads[t]) }

  ghost predicate CallsInv(s: Sys) {
    && (forall c <- s.table.calls :: CallOk(s, c))
    && (forall c <- s.removed :: c in s.table.calls)
  }

  ghost predicate FilesInv(s: Sys) { forall p <- s.files :: FileOk(s, p) }

  ghost predicate Inv(s: Sys) {
    InflightInv(s) && ThreadsInv(s) && CallsInv(s) && FilesInv(s)
  }

  // ---------- counting ----------

  lemma PlayersMove(threads: map<nat, Pc>, t: nat, pc: Pc, role: Role, c: nat)
    ensures Players(threads[t := pc], role, c) ==
            if PlaysFor(pc, role, c) then Players(threads, role, c) + {t} else Players(threads, role, c) - {t}
    ensures t in Players(threads, role, c) <==> t in threads && PlaysFor(threads[t], role, c)
  {
    hide PlaysFor;
  }

  /** Moving goroutine t to pc changes every count by what t gains and loses. */
  lemma CountMove(threads: map<nat, Pc>, t: nat, pc: Pc, role: Role, c: nat)
    ensures Count(threads[t := pc], role, c) ==
            Count(threads, role, c) + One(PlaysFor(pc, role, c)) - One(t in threads && PlaysFor(threads[t], role, c))
  {
    hide PlaysFor, Players;
    PlayersMove(threads, t, pc, role, c);
  }

  lemma CountsMove(threads: map<nat, Pc>, t: nat, pc: Pc)
    ensures forall role, c {:trigger Count(threads[t := pc], role, c)} ::
      Count(threads[t := pc], role, c) ==
      Count(threads, role, c) + One(PlaysFor(pc, role, c)) - One(t in threads && PlaysFor(threads[t], role, c))
  {
    forall role, c { CountMove(threads, t, pc, role, c); }
  }

  lemma Subset(a: set<nat>, b: set<nat>)
    requires a <= b
    ensures |a| <= |b|
  {
    if a != {} {
      var x :| x in a;
      Subset(a - {x}, b - {x});
    }
  }

  /** A goroutine that plays a role is counted, and where one is counted there is no second. */
  lemma Counted(threads: map<nat, Pc>, t: nat, role: Role, c: nat)
    requires t in threads && PlaysFor(threads[t], role, c)
    ensures Count(threads, role, c) >= 1
    ensures Count(threads, role, c) == 1 ==> forall u <- threads :: PlaysFor(threads[u], role, c) ==> u == t
  {
    hide PlaysFor;
    Subset({t}, Players(threads, role, c));
    forall u | u in threads && PlaysFor(threads[u], role, c) && u != t
      ensures Count(threads, role, c) >= 2
    {
      Subset({t, u}, Players(threads, role, c));
    }
  }

  lemma NotCounted(threads: map<nat, Pc>, role: Role, c: nat)
    requires forall t <- threads :: !PlaysFor(threads[t], role, c)
    ensures Count(threads, role, c) == 0
  {
    hide PlaysFor;
    assert Players(threads, role, c) == {};
  }

  lemma Uncounted(threads: map<nat, Pc>, role: Role, c: nat)
    requires Count(threads, role, c) == 0
    ensures forall t <- threads :: !PlaysFor(threads[t], role, c)
  {
    hide PlaysFor;
    assert forall t <- threads :: PlaysFor(threads[t], role, c) ==> t in Players(threads, role, c);
  }

  // ---------- every step keeps the invariant ----------

  /** The moves that touch nothing but the goroutine: waking, cancelling and closing. */
  predicate QuietMove(s: Sys, t: nat, pc: Pc) {
    && At(s, t)
    && var from := s.threads[t];
    && ((from.Waiting? && s.table.calls[from.call].done && pc == Opening(from.call))
        || ((from.Waiting? || from.Holding?) && pc == Releasing(from.call)))
  }

  lemma JoinCalls(s: Sys, t: nat, key: string, id: nat)
    requires Inv(s) && t !in s.threads && key in s.table.inflight
    ensures CallsInv(DoBegin(s, t, key, id))
  {
    hide Players, Count;
    CountsMove(s.threads, t, DoBegin(s, t, key, id).threads[t]);
  }

  lemma JoinRest(s: Sys, t: nat, key: string, id: nat)
    requires Inv(s) && t !in s.threads && key in s.table.inflight
    ensures InflightInv(DoBegin(s, t, key, id)) && ThreadsInv(DoBegin(s, t, key, id)) && FilesInv(DoBegin(s, t, key, id))
  {
    hide Players, Count;
    CountsMove(s.threads, t, DoBegin(s, t, key, id).threads[t]);
  }

  lemma LeadCalls(s: Sys, t: nat, key: string, id: nat)
    requires Inv(s) && t !in s.threads && id !in s.table.calls && key !in s.table.inflight
    ensures CallsInv(DoBegin(s, t, key, id))
  {
    hide Players, Count;
    CountsMove(s.threads, t, DoBegin(s, t, key, id).threads[t]);
    forall role { NotCounted(s.threads, role, id); }
  }

  lemma LeadInflight(s: Sys, t: nat, key: string, id: nat)
    requires Inv(s) && t !in s.threads && id !in s.table.calls && key !in s.table.inflight
    ensures InflightInv(DoBegin(s, t, key, id))
  {
    hide ThreadsInv, CallsInv, FilesInv;
  }

  lemma LeadThreads(s: Sys, t: nat, key: string, id: nat)
    requires Inv(s) && t !in s.threads && id !in s.table.calls && key !in s.table.inflight
    ensures ThreadsInv(DoBegin(s, t, key, id))
  {
    hide CallsInv, FilesInv;
  }

  lemma LeadFiles(s: Sys, t: nat, key: string, id: nat)
    requires Inv(s) && t !in s.threads && id !in s.table.calls && key !in s.table.inflight
    ensures FilesInv(DoBegin(s, t, key, id))
  {
    hide Players, Count;
    CountsMove(s.threads, t, DoBegin(s, t, key, id).threads[t]);
    forall role { NotCounted(s.threads, role, id); }
  }

  lemma CreateTempCalls(s: Sys, t: nat, name: string)
    requires Inv(s) && At(s, t) && s.threads[t].Fetching? && name != "" && name !in s.files
    ensures CallsInv(DoCreateTemp(s, t, name))
  {
    hide Players, Count;
    CountsMove(s.threads, t, DoCreateTemp(s, t, name).threads[t]);
  }

  lemma CreateTempRest(s: Sys, t: nat, name: string)
    requires Inv(s) && At(s, t) && s.threads[t].Fetching? && name != "" && name !in s.files
    ensures InflightInv(DoCreateTemp(s, t, name)) && ThreadsInv(DoCreateTemp(s, t, name)) && FilesInv(DoCreateTemp(s, t, name))
  {
    hide Players, Count;
    CountsMove(s.threads, t, DoCreateTemp(s, t, name).threads[t]);
    NotCounted(s.threads, TempOwner(name), s.threads[t].call);
  }

  lemma FetchFailsCalls(s: Sys, t: nat, cause: string)
    requires Inv(s) && At(s, t) && (s.threads[t].Fetching? || s.threads[t].Copying?)
    ensures CallsInv(DoFetchFails(s, t, cause))
  {
    hide Players, Count;
    CountsMove(s.threads, t, DoFetchFails(s, t, cause).threads[t]);
    var pc := s.threads[t];
    if pc.Copying? { Counted(s.threads, t, TempOwner(pc.path), pc.call); }
  }

  lemma FetchFailsRest(s: Sys, t: nat, cause: string)
    requires Inv(s) && At(s, t) && (s.threads[t].Fetching? || s.threads[t].Copying?)
    ensures InflightInv(DoFetchFails(s, t, cause)) && ThreadsInv(DoFetchFails(s, t, cause)) && FilesInv(DoFetchFails(s, t, cause))
  {
    hide Players, Count;
    CountsMove(s.threads, t, DoFetchFails(s, t, cause).threads[t]);
    var pc := s.threads[t];
    Counted(s.threads, t, Leader, pc.call);
    if pc.Copying? {
      Counted(s.threads, t, TempOwner(pc.path), pc.call);
      forall u | u in s.threads && u != t ensures !PlaysFor(s.threads[u], Leader, pc.call) {}
    }
  }

  lemma FetchSucceedsCalls(s: Sys, t: nat)
    requires Inv(s) && At(s, t) && s.threads[t].Copying?
    ensures CallsInv(DoFetchSucceeds(s, t))
  {
    hide Players, Count;
    CountsMove(s.threads, t, DoFetchSucceeds(s, t).threads[t]);
  }

  lemma FetchSucceedsRest(s: Sys, t: nat)
    requires Inv(s) && At(s, t) && s.threads[t].Copying?
    ensures InflightInv(DoFetchSucceeds(s, t)) && ThreadsInv(DoFetchSucceeds(s, t)) && FilesInv(DoFetchSucceeds(s, t))
  {
    hide Players, Count;
    CountsMove(s.threads, t, DoFetchSucceeds(s, t).threads[t]);
  }

  lemma FinishCalls(s: Sys, t: nat)
    requires Inv(s) && At(s, t) && s.threads[t].Fetched?
    ensures CallsInv(DoFinish(s, t))
  {
    hide Players, Count;
    CountsMove(s.threads, t, DoFinish(s, t).threads[t]);
    var pc := s.threads[t];
    Counted(s.threads, t, Leader, pc.call);
    Counted(s.threads, t, Holder, pc.call);
  }

  lemma FinishThreads(s: Sys, t: nat)
    requires Inv(s) && At(s, t) && s.threads[t].Fetched?
    ensures InflightInv(DoFinish(s, t)) && ThreadsInv(DoFinish(s, t))
  {
    hide Players, Count, FilesInv;
    var pc := s.threads[t];
    Counted(s.threads, t, Leader, pc.call);
    Counted(s.threads, t, Holder, pc.call);
    Uncounted(s.threads, Remover, pc.call);
    forall u | u in s.threads && u != t ensures !PlaysFor(s.threads[u], Leader, pc.call) {}
  }

  lemma FinishFiles(s: Sys, t: nat)
    requires Inv(s) && At(s, t) && s.threads[t].Fetched?
    ensures FilesInv(DoFinish(s, t))
  {
    hide Players, Count;
    CountsMove(s.threads, t, DoFinish(s, t).threads[t]);
    var pc := s.threads[t];
    Counted(s.threads, t, Leader, pc.call);
    Counted(s.threads, t, Holder, pc.call);
    if pc.path != "" { Counted(s.threads, t, TempOwner(pc.path), pc.call); }
  }

  lemma CloseDoneCalls(s: Sys, t: nat)
    requires Inv(s) && At(s, t) && s.threads[t].Published?
    ensures CallsInv(DoCloseDone(s, t))
  {
    hide Players, Count;
    CountsMove(s.threads, t, DoCloseDone(s, t).threads[t]);
    Counted(s.threads, t, Publisher, s.threads[t].call);
  }

  lemma CloseDoneRest(s: Sys, t: nat)
    requires Inv(s) && At(s, t) && s.threads[t].Published?
    ensures InflightInv(DoCloseDone(s, t)) && ThreadsInv(DoCloseDone(s, t)) && FilesInv(DoCloseDone(s, t))
  {
    hide Players, Count;
    CountsMove(s.threads, t, DoCloseDone(s, t).threads[t]);
    Counted(s.threads, t, Publisher, s.threads[t].call);
  }

  lemma OpenCalls(s: Sys, t: nat, refused: bool)
    requires Inv(s) && At(s, t) && s.threads[t].Opening?
    ensures CallsInv(DoOpen(s, t, refused))
  {
    hide Players, Count;
    CountsMove(s.threads, t, DoOpen(s, t, refused).threads[t]);
  }

  lemma OpenRest(s: Sys, t: nat, refused: bool)
    requires Inv(s) && At(s, t) && s.threads[t].Opening?
    ensures InflightInv(DoOpen(s, t, refused)) && ThreadsInv(DoOpen(s, t, refused)) && FilesInv(DoOpen(s, t, refused))
  {
    hide Players, Count;
    CountsMove(s.threads, t, DoOpen(s, t, refused).threads[t]);
  }

  lemma ReleaseCalls(s: Sys, t: nat)
    requires Inv(s) && At(s, t) && s.threads[t].Releasing?
    ensures CallsInv(DoRelease(s, t))
  {
    hide Players, Count;
    CountsMove(s.threads, t, DoRelease(s, t).threads[t]);
    Counted(s.threads, t, Holder, s.threads[t].call);
  }

  lemma ReleaseRest(s: Sys, t: nat)
    requires Inv(s) && At(s, t) && s.threads[t].Releasing?
    ensures InflightInv(DoRelease(s, t)) && ThreadsInv(DoRelease(s, t)) && FilesInv(DoRelease(s, t))
  {
    hide Players, Count;
    CountsMove(s.threads, t, DoRelease(s, t).threads[t]);
  }

  lemma RemoveCalls(s: Sys, t: nat)
    requires Inv(s) && At(s, t) && s.threads[t].Removing?
    ensures CallsInv(DoRemove(s, t))
  {
    hide Players, Count;
    CountsMove(s.threads, t, DoRemove(s, t).threads[t]);
    Counted(s.threads, t, Remover, s.threads[t].call);
  }

  lemma RemoveRest(s: Sys, t: nat)
    requires Inv(s) && At(s, t) && s.threads[t].Removing?
    ensures InflightInv(DoRemove(s, t)) && ThreadsInv(DoRemove(s, t)) && FilesInv(DoRemove(s, t))
  {
    hide Players, Count;
    CountsMove(s.threads, t, DoRemove(s, t).threads[t]);
    Counted(s.threads, t, Remover, s.threads[t].call);
  }

  lemma QuietCalls(s: Sys, t: nat, pc: Pc)
    requires Inv(s) && QuietMove(s, t, pc)
    ensures CallsInv(Goto(s, t, pc))
  {
    hide Players, Count;
    CountsMove(s.threads, t, Goto(s, t, pc).threads[t]);
  }

  lemma QuietRest(s: Sys, t: nat, pc: Pc)
    requires Inv(s) && QuietMove(s, t, pc)
    ensures InflightInv(Goto(s, t, pc)) && ThreadsInv(Goto(s, t, pc)) && FilesInv(Goto(s, t, pc))
  {
    hide Players, Count;
    CountsMove(s.threads, t, Goto(s, t, pc).threads[t]);
  }

  lemma StepKeepsInv(s: Sys, e: Event)
    requires Inv(s) && Enabled(s, e)
    ensures Inv(Next(s, e))
  {
    match e
    case EvBegin(t, key, id) =>
      if key in s.table.inflight {
        JoinCalls(s, t, key, id);
        JoinRest(s, t, key, id);
      } else {
        LeadCalls(s, t, key, id);
        LeadInflight(s, t, key, id);
        LeadThreads(s, t, key, id);
        LeadFiles(s, t, key, id);
      }
    case EvCreateTemp(t, name) => CreateTempCalls(s, t, name); CreateTempRest(s, t, name);
    case EvFetchFails(t, cause) => FetchFailsCalls(s, t, cause); FetchFailsRest(s, t, cause);
    case EvFetchSucceeds(t) => FetchSucceedsCalls(s, t); FetchSucceedsRest(s, t);
    case EvFinish(t) => FinishCalls(s, t); FinishThreads(s, t); FinishFiles(s, t);
    case EvCloseDone(t) => CloseDoneCalls(s, t); CloseDoneRest(s, t);
    case EvLeaderRemove(t) => assert false;
    case EvWake(t) => QuietCalls(s, t, Next(s, e).threads[t]); QuietRest(s, t, Next(s, e).threads[t]);
    case EvCancel(t) => QuietCalls(s, t, Next(s, e).threads[t]); QuietRest(s, t, Next(s, e).threads[t]);
    case EvOpen(t, refused) => OpenCalls(s, t, refused); OpenRest(s, t, refused);
    case EvClose(t) => QuietCalls(s, t, Next(s, e).threads[t]); QuietRest(s, t, Next(s, e).threads[t]);
    case EvRelease(t) => ReleaseCalls(s, t); ReleaseRest(s, t);
    case EvRemove(t) => RemoveCalls(s, t); RemoveRest(s, t);
  }

  /** Every state of every run satisfies the invariant. */
  lemma {:induction false} RunsKeepInv(es: seq<Event>)
    requires Exec(es).Some?
    ensures Inv(Exec(es).value)
  {
    if es != [] {
      RunsKeepInv(es[..|es| - 1]);
      StepKeepsInv(Exec(es[..|es| - 1]).value, es[|es| - 1]);
    } else {
      forall role, c { NotCounted(INIT.threads, role, c); }
    }
  }

  // ---------- what every run guarantees ----------

  /** `call.refs` is the number of goroutines that still hold the call, and the removals of its
      file, done or pending, are one exactly when the file was published and nobody holds it. */
  lemma RefsCountHolders(es: seq<Event>, c: nat)
    requires Exec(es).Some? && c in Exec(es).value.table.calls
    ensures var s := Exec(es).value;
            var call := s.table.calls[c];
            && call.refs == |Players(s.threads, Holder, c)|
            && |Players(s.threads, Remover, c)| + s.removed[c] ==
               (if call.doneClosed && call.path != "" && call.refs == 0 then 1 else 0)
  {
    RunsKeepInv(es);
  }

  /** One fetch per key: two leaders of one key are one goroutine. */
  lemma OneLeaderPerKey(es: seq<Event>, t: nat, u: nat)
    requires Exec(es).Some?
    requires var threads := Exec(es).value.threads;
             t in threads && u in threads && Plays(threads[t], Leader) && Plays(threads[u], Leader) && threads[t].key == threads[u].key
    ensures t == u
  {
    RunsKeepInv(es);
    var s := Exec(es).value;
    var c := s.threads[t].call;
    Counted(s.threads, t, Leader, c);
    assert PlaysFor(s.threads[u], Leader, c);
  }

  /** Nobody joins a call whose result is out: a follower's call is still undecided. */
  lemma FollowersJoinOpenCalls(es: seq<Event>, t: nat, key: string, id: nat)
    requires Exec(es).Some? && Enabled(Exec(es).value, EvBegin(t, key, id))
    ensures var s := Exec(es).value;
            var pc := Next(s, EvBegin(t, key, id)).threads[t];
            && (pc.Waiting? <==> key in s.table.inflight)
            && (pc.Waiting? ==> !s.table.calls[pc.call].doneClosed && |Players(s.threads, Leader, pc.call)| == 1)
  {
    RunsKeepInv(es);
  }

  /** Whoever opens a successful result, or has it open, finds the file of that call on disk. */
  lemma HoldersFindTheFile(es: seq<Event>, t: nat)
    requires Exec(es).Some? && t in Exec(es).value.threads
    requires Exec(es).value.threads[t].Opening? || Exec(es).value.threads[t].Holding?
    ensures var s := Exec(es).value;
            var c := s.threads[t].call;
            && c in s.table.calls
            && (s.table.calls[c].err.None? ==>
                  s.table.calls[c].path in s.files && s.files[s.table.calls[c].path] == c)
  {
    RunsKeepInv(es);
    var s := Exec(es).value;
    Counted(s.threads, t, Holder, s.threads[t].call);
  }

  /** A removal takes away the file its own call published, it is there to be removed, and it is the only one. */
  lemma RemovalHitsOwnFile(es: seq<Event>, t: nat)
    requires Exec(es).Some? && t in Exec(es).value.threads && Exec(es).value.threads[t].Removing?
    ensures var s := Exec(es).value;
            var pc := s.threads[t];
            && pc.path in s.files && s.files[pc.path] == pc.call
            && pc.call !in s.removed
            && Players(s.threads, Holder, pc.call) == {}
            && forall u <- s.threads :: s.threads[u].Removing? && s.threads[u].call == pc.call ==> u == t
  {
    RunsKeepInv(es);
    var s := Exec(es).value;
    var c := s.threads[t].call;
    Counted(s.threads, t, Remover, c);
    forall u | u in s.threads && s.threads[u].Removing? && s.threads[u].call == c
      ensures u == t
    {
      assert PlaysFor(s.threads[u], Remover, c);
    }
  }

  /** The removal branch of `finishAuthFallbackOpen` is dead code. */
  lemma LeaderNeverRemoves(es: seq<Event>, t: nat)
    requires Exec(es).Some?
    ensures !Enabled(Exec(es).value, EvLeaderRemove(t))
  {
    RunsKeepInv(es);
  }

  /** When every goroutine is done nothing is left behind, and every published file was removed exactly once. */
  lemma QuiescentRunsLeaveNothing(es: seq<Event>)
    requires Exec(es).Some?
    requires forall t <- Exec(es).value.threads :: Exec(es).value.threads[t].Finished?
    ensures var s := Exec(es).value;
            && s.files == map[]
            && s.table.inflight == map[]
            && forall c <- s.table.calls ::
                 s.table.calls[c].doneClosed && s.table.calls[c].refs == 0
                 && s.removed[c] == (if s.table.calls[c].path != "" then 1 else 0)
  {
    RunsKeepInv(es);
    var s := Exec(es).value;
    forall role, c { NotCounted(s.threads, role, c); }
    forall p ensures p !in s.files {}
    forall k ensures k !in s.table.inflight {}
  }

  // ---------- what everyone gets ----------

  /** Step k of the run is the success of a fetch for call c. */
  ghost predicate SucceededAt(es: seq<Event>, k: nat, c: nat) {
    && k < |es| && es[k].EvFetchSucceeds? && Exec(es[..k]).Some?
    && es[k].t in Exec(es[..k]).value.threads
    && !Exec(es[..k]).value.threads[es[k].t].Finished? && Exec(es[..k]).value.threads[es[k].t].call == c
  }

  ghost predicate Succeeded(es: seq<Event>, c: nat) { exists k: nat :: SucceededAt(es, k, c) }

  lemma SucceededMore(es: seq<Event>, c: nat)
    requires es != []
    ensures Succeeded(es, c) <==> Succeeded(es[..|es| - 1], c) || SucceededAt(es, |es| - 1, c)
  {
    var n := |es| - 1;
    hide Exec;
    forall k: nat ensures SucceededAt(es, k, c) <==> SucceededAt(es[..n], k, c) || (k == n && SucceededAt(es, n, c)) {
      if k < n { assert es[..n][..k] == es[..k] && es[..n][k] == es[k]; }
    }
  }

  /** What a goroutine at pc knows of its call's fetch. */
  predicate KnowsOutcome(pc: Pc, succeeded: bool) {
    && (pc.Fetching? || pc.Copying? ==> !succeeded)
    && (pc.Fetched? ==> (succeeded <==> pc.err.None?))
  }

  /** The outcome of a call, on its way or published, is that of the fetch for it. */
  ghost predicate OutcomesInv(es: seq<Event>, s: Sys) {
    && (forall c :: Succeeded(es, c) ==> c in s.table.calls)
    && (forall c <- s.table.calls :: s.table.calls[c].doneClosed ==> (Succeeded(es, c) <==> s.table.calls[c].err.None?))
    && (forall t <- s.threads :: !s.threads[t].Finished? ==> KnowsOutcome(s.threads[t], Succeeded(es, s.threads[t].call)))
  }

  /** A leader's call is undecided and led by nobody else. */
  lemma LeaderAlone(s: Sys, t: nat)
    requires Inv(s) && t in s.threads && Plays(s.threads[t], Leader)
    ensures s.threads[t].call in s.table.calls && !s.table.calls[s.threads[t].call].doneClosed
    ensures forall u <- s.threads :: PlaysFor(s.threads[u], Leader, s.threads[t].call) ==> u == t
  {
    Counted(s.threads, t, Leader, s.threads[t].call);
  }

  /** e is the success of the fetch for c. */
  predicate Wins(s: Sys, e: Event, c: nat) {
    e.EvFetchSucceeds? && e.t in s.threads && !s.threads[e.t].Finished? && s.threads[e.t].call == c
  }

  lemma CallOutcomesStep(es: seq<Event>, s: Sys, e: Event, more: seq<Event>)
    requires Inv(s) && Enabled(s, e) && OutcomesInv(es, s)
    requires forall c :: Succeeded(more, c) <==> Succeeded(es, c) || Wins(s, e, c)
    ensures forall c :: Succeeded(more, c) ==> c in Next(s, e).table.calls
    ensures forall c <- Next(s, e).table.calls :: Next(s, e).table.calls[c].doneClosed ==>
              (Succeeded(more, c) <==> Next(s, e).table.calls[c].err.None?)
  {
    hide Players, Count, Succeeded, FilesInv, CallsInv;
    if e.EvFetchSucceeds? { LeaderAlone(s, e.t); }
    hide InflightInv, ThreadsInv;
  }

  lemma ThreadOutcomesStep(es: seq<Event>, s: Sys, e: Event, more: seq<Event>, t: nat)
    requires Inv(s) && Enabled(s, e) && OutcomesInv(es, s)
    requires forall c :: Succeeded(more, c) <==> Succeeded(es, c) || Wins(s, e, c)
    requires t in Next(s, e).threads && !Next(s, e).threads[t].Finished?
    ensures KnowsOutcome(Next(s, e).threads[t], Succeeded(more, Next(s, e).threads[t].call))
  {
    hide Players, Count, Succeeded, FilesInv, CallsInv;
    if e.EvFetchSucceeds? { LeaderAlone(s, e.t); }
    hide InflightInv, ThreadsInv;
  }

  lemma {:induction false} RunsKeepOutcomes(es: seq<Event>)
    requires Exec(es).Some?
    ensures OutcomesInv(es, Exec(es).value)
  {
    hide Next, Enabled, Inv, KnowsOutcome, Wins;
    if es != [] {
      var n := |es| - 1;
      var s := Exec(es[..n]).value;
      RunsKeepOutcomes(es[..n]);
      RunsKeepInv(es[..n]);
      forall c ensures Succeeded(es, c) <==> Succeeded(es[..n], c) || Wins(s, es[n], c) {
        SucceededMore(es, c);
        LastSuccess(es, c);
      }
      CallOutcomesStep(es[..n], s, es[n], es);
      forall t | t in Exec(es).value.threads && !Exec(es).value.threads[t].Finished?
        ensures KnowsOutcome(Exec(es).value.threads[t], Succeeded(es, Exec(es).value.threads[t].call))
      {
        ThreadOutcomesStep(es[..n], s, es[n], es, t);
      }
    } else {
      NothingSucceeded();
    }
  }

  lemma NothingSucceeded()
    ensures forall c :: !Succeeded([], c)
  {
  }

  lemma LastSuccess(es: seq<Event>, c: nat)
    requires es != [] && Exec(es).Some?
    ensures SucceededAt(es, |es| - 1, c) <==> Wins(Exec(es[..|es| - 1]).value, es[|es| - 1], c)
  {
  }

  /** Whoever opens the result of a call is handed its file exactly when the operating system lets it and the leader's
      fetch succeeded; otherwise it is to release. */
  lemma OpeningHandsOutTheFile(es: seq<Event>, t: nat, refused: bool)
    requires es != [] && Exec(es).Some? && es[|es| - 1] == EvOpen(t, refused)
    ensures Exec(es[..|es| - 1]).Some? && t in Exec(es[..|es| - 1]).value.threads && t in Exec(es).value.threads
    ensures !Exec(es[..|es| - 1]).value.threads[t].Finished?
    ensures var c := Exec(es[..|es| - 1]).value.threads[t].call;
            Exec(es).value.threads[t] == if !refused && Succeeded(es, c) then Holding(c) else Releasing(c)
  {
    var n := |es| - 1;
    RunsKeepInv(es[..n]);
    RunsKeepOutcomes(es[..n]);
    var s := Exec(es[..n]).value;
    var c := s.threads[t].call;
    SucceededMore(es, c);
    LastSuccess(es, c);
    HoldersFindTheFile(es[..n], t);
    assert PcOk(s.table, s.files, s.threads[t]);
    hide Players, Count, Succeeded, FilesInv, CallsInv, InflightInv;
  }

  /** So all who open one call's result without being refused, leader or follower, are handed the file alike. */
  lemma SharersOpenAlike(es: seq<Event>, j: nat, k: nat)
    requires Exec(es).Some? && j < k < |es| && es[j].EvOpen? && es[k].EvOpen? && !es[j].refused && !es[k].refused
    requires Exec(es[..j]).Some? && Exec(es[..k]).Some? && Exec(es[..j + 1]).Some? && Exec(es[..k + 1]).Some?
    requires var (a, b) := (Exec(es[..j]).value.threads, Exec(es[..k]).value.threads);
             es[j].t in a && es[k].t in b && !a[es[j].t].Finished? && !b[es[k].t].Finished? && a[es[j].t].call == b[es[k].t].call
    ensures es[j].t in Exec(es[..j + 1]).value.threads && es[k].t in Exec(es[..k + 1]).value.threads
    ensures Exec(es[..j + 1]).value.threads[es[j].t] == Exec(es[..k + 1]).value.threads[es[k].t]
  {
    hide Exec, Succeeded;
    assert es[..j + 1][..j] == es[..j] && es[..k + 1][..k] == es[..k];
    OpeningHandsOutTheFile(es[..j + 1], es[j].t, false);
    OpeningHandsOutTheFile(es[..k + 1], es[k].t, false);
    OutcomeIsFinal(es, j, k);
  }

  /** Once one of the sharers opens the result, the outcome of the call does not change. */
  lemma OutcomeIsFinal(es: seq<Event>, j: nat, k: nat)
    requires j < k < |es| && es[j].EvOpen? && Exec(es[..j]).Some? && Exec(es[..k + 1]).Some?
    requires es[j].t in Exec(es[..j]).value.threads && !Exec(es[..j]).value.threads[es[j].t].Finished?
    requires Exec(es[..j + 1]).Some?
    ensures var c := Exec(es[..j]).value.threads[es[j].t].call;
            Succeeded(es[..j + 1], c) <==> Succeeded(es[..k + 1], c)
  {
    hide Succeeded, Next, Exec;
    var c := Exec(es[..j]).value.threads[es[j].t].call;
    assert es[..j + 1][..j] == es[..j];
    OpenedIsDone(es[..j + 1], es[j].t);
    DoneStays(es, j, k + 1, c);
    DoneStays(es, j, j + 1, c);
  }

  lemma OpenedIsDone(es: seq<Event>, t: nat)
    requires es != [] && Exec(es).Some? && es[|es| - 1].EvOpen? && es[|es| - 1].t == t
    ensures var s := Exec(es[..|es| - 1]).value;
            && t in s.threads && !s.threads[t].Finished?
            && s.threads[t].call in s.table.calls && s.table.calls[s.threads[t].call].doneClosed
  {
    RunsKeepInv(es[..|es| - 1]);
    var s := Exec(es[..|es| - 1]).value;
    assert PcOk(s.table, s.files, s.threads[t]);
  }

  /** After a call is decided nothing more succeeds for it. */
  lemma {:induction false} DoneStays(es: seq<Event>, j: nat, k: nat, c: nat)
    requires j <= k <= |es| && Exec(es[..j]).Some? && Exec(es[..k]).Some?
    requires c in Exec(es[..j]).value.table.calls && Exec(es[..j]).value.table.calls[c].doneClosed
    ensures c in Exec(es[..k]).value.table.calls && Exec(es[..k]).value.table.calls[c].doneClosed
    ensures Succeeded(es[..k], c) <==> Succeeded(es[..j], c)
    decreases k
  {
    hide Next, Enabled, Inv, Succeeded;
    if j < k {
      assert es[..k][..k - 1] == es[..k - 1] && es[..k][k - 1] == es[k - 1];
      DoneStays(es, j, k - 1, c);
      var s := Exec(es[..k - 1]).value;
      RunsKeepInv(es[..k - 1]);
      SucceededMore(es[..k], c);
      LastSuccess(es[..k], c);
      DoneStep(s, es[k - 1], c);
    }
  }

  lemma DoneStep(s: Sys, e: Event, c: nat)
    requires Inv(s) && Enabled(s, e) && c in s.table.calls && s.table.calls[c].doneClosed
    ensures c in Next(s, e).table.calls && Next(s, e).table.calls[c].doneClosed
    ensures !Wins(s, e, c)
  {
    if e.EvFetchSucceeds? { LeaderAlone(s, e.t); }
    hide Players, Count, FilesInv, CallsInv, ThreadsInv, InflightInv;
  }

  /** Past the opening of its result. */
  predicate PastOpening(pc: Pc) { pc.Holding? || pc.Releasing? || pc.Removing? || pc.Finished? }

  lemma PastOpeningStep(s: Sys, e: Event, t: nat)
    requires Inv(s) && Enabled(s, e) && t in Next(s, e).threads && PastOpening(Next(s, e).threads[t])
    ensures e == EvCancel(t) || (e.EvOpen? && e.t == t) || (t in s.threads && PastOpening(s.threads[t]))
  {
    hide Players, Count, FilesInv, CallsInv, InflightInv;
    if t in s.threads { assert PcOk(s.table, s.files, s.threads[t]); }
  }

  /** Nobody ends without opening the result of its call, unless it was cancelled. */
  lemma {:induction false} EveryoneOpensOrIsCancelled(es: seq<Event>, t: nat) returns (k: nat)
    requires Exec(es).Some? && t in Exec(es).value.threads && PastOpening(Exec(es).value.threads[t])
    ensures k < |es| && (es[k] == EvCancel(t) || (es[k].EvOpen? && es[k].t == t))
  {
    hide Next, Enabled, Inv;
    assert es != [];
    var n := |es| - 1;
    RunsKeepInv(es[..n]);
    PastOpeningStep(Exec(es[..n]).value, es[n], t);
    k := n;
    if !(es[n] == EvCancel(t) || (es[n].EvOpen? && es[n].t == t)) { k := EveryoneOpensOrIsCancelled(es[..n], t); }
  }

  lemma HoldingStep(s: Sys, e: Event, t: nat)
    requires Enabled(s, e) && t in s.threads && s.threads[t].Holding? && e != EvClose(t)
    ensures t in Next(s, e).threads && Next(s, e).threads[t] == s.threads[t]
  {
  }

  /** Who was handed the file keeps it until it closes it. */
  lemma {:induction false} HoldersKeepTheFile(es: seq<Event>, j: nat, t: nat)
    requires j <= |es| && Exec(es).Some? && Exec(es[..j]).Some?
    requires t in Exec(es[..j]).value.threads && Exec(es[..j]).value.threads[t].Holding?
    requires forall i :: j <= i < |es| ==> es[i] != EvClose(t)
    ensures t in Exec(es).value.threads && Exec(es).value.threads[t] == Exec(es[..j]).value.threads[t]
  {
    hide Next, Enabled;
    if j == |es| {
      assert es[..j] == es;
    } else {
      var n := |es| - 1;
      assert es[..n][..j] == es[..j];
      HoldersKeepTheFile(es[..n], j, t);
      HoldingStep(Exec(es[..n]).value, es[n], t);
    }
  }

  /** Goroutine u can move of its own accord: not by being called, not by being cancelled. */
  ghost predicate CanGoOn(s: Sys, u: nat) {
    exists e :: Enabled(s, e) && !e.EvBegin? && !e.EvCancel? && e.t == u
  }

  /** No wake-up is lost: an unfinished goroutine can go on, or it waits and the one goroutine that is to answer its
      own call, fetching or about to close `done`, can. */
  lemma RunsNeverStick(es: seq<Event>, t: nat)
    requires Exec(es).Some? && t in Exec(es).value.threads && !Exec(es).value.threads[t].Finished?
    ensures var s := Exec(es).value;
            || CanGoOn(s, t)
            || (&& s.threads[t].Waiting?
                && exists u :: u in s.threads && CanGoOn(s, u)
                               && (PlaysFor(s.threads[u], Leader, s.threads[t].call) || PlaysFor(s.threads[u], Publisher, s.threads[t].call)))
  {
    RunsKeepInv(es);
    var s := Exec(es).value;
    var pc := s.threads[t];
    assert pc.call in s.table.calls;
    if pc.Waiting? && !s.table.calls[pc.call].done {
      var call := s.table.calls[pc.call];
      var role := if call.doneClosed then Publisher else Leader;
      assert Count(s.threads, role, pc.call) == 1;
      var u :| u in Players(s.threads, role, pc.call);
      CanMove(s, u);
    } else {
      CanMove(s, t);
    }
  }

  lemma CanMove(s: Sys, t: nat)
    requires Inv(s) && t in s.threads && !s.threads[t].Finished?
    requires s.threads[t].Waiting? ==> At(s, t) && s.table.calls[s.threads[t].call].done
    ensures CanGoOn(s, t)
  {
    var e :=
      match s.threads[t]
      case Fetching(_, _) => EvFetchFails(t, "")
      case Copying(_, _, _) => EvFetchSucceeds(t)
      case Fetched(_, _, _, _) => EvFinish(t)
      case Published(_, _) => EvCloseDone(t)
      case LeaderRemoving(_) => EvLeaderRemove(t)
      case Waiting(_) => EvWake(t)
      case Opening(_) => EvOpen(t, false)
      case Holding(_) => EvClose(t)
      case Releasing(_) => EvRelease(t)
      case Removing(_, _) => EvRemove(t)
      case Finished => EvWake(t);
    assert Enabled(s, e);
  }
}

/** The same critical sections as methods on the mutable table of calls. */
module OpenTables {
  import opened Wrappers
  import opened OpenCoalescing

  class OpenCall {
    ghost const id: nat
    var path: string
    var err: Option<string>
    var refs: int
    var doneClosed: bool
    var done: bool

    constructor (ghost id: nat)
      ensures this.id == id
      ensures Call(path, err, refs, doneClosed, done) == NEW_CALL
    {
      this.id := id;
      path, err, refs, doneClosed, done := "", None, 1, false, false;
    }
  }

  class OpenTable {
    var inflight: map<string, OpenCall>
    ghost var calls: seq<OpenCall>   // every call ever made, by id

    ghost predicate Valid()
      reads this, calls
    {
      && (forall i :: 0 <= i < |calls| ==> calls[i].id == i)
      && (forall k <- inflight :: Known(inflight[k]))
    }

    ghost predicate Known(call: OpenCall)
      reads this
    {
      call.id < |calls| && calls[call.id] == call
    }

    ghost function InflightIds(): map<string, nat>
      reads this
    {
      map k | k in inflight :: inflight[k].id
    }

    ghost function Calls(): map<nat, Call>
      reads this, calls
    {
      map i: nat | i < |calls| :: Call(calls[i].path, calls[i].err, calls[i].refs, calls[i].doneClosed, calls[i].done)
    }

    ghost function View(): Table
      reads this, calls
    {
      Table(InflightIds(), Calls())
    }

    constructor ()
      ensures Valid() && View() == INIT.table
    {
      inflight, calls := map[], [];
    }

    method BeginAuthFallbackOpen(key: string) returns (call: OpenCall, leader: bool)
      requires Valid()
      modifies this, if key in inflight then {inflight[key]} else {}
      ensures Valid() && Known(call)
      ensures (View(), call.id, leader) == Begin(old(View()), key, old(|calls|))
    {
      ghost var ids, was := InflightIds(), Calls();
      if key in inflight {
        call := inflight[key];
        call.refs := call.refs + 1;
        assert InflightIds() == ids;
        assert Calls() == was[call.id := Calls()[call.id]];
        return call, false;
      }
      call := new OpenCall(|calls|);
      inflight := inflight[key := call];
      calls := calls + [call];
      leader := true;
      assert InflightIds() == ids[key := call.id];
      assert Calls() == was[call.id := Calls()[call.id]];
    }

    method FinishAuthFallbackOpen(key: string, call: OpenCall, path: string, err: Option<string>) returns (removePath: bool)
      requires Valid() && Known(call)
      modifies this, call
      ensures Valid() && calls == old(calls)
      ensures (View(), removePath) == Finish(old(View()), key, call.id, path, err)
    {
      ghost var ids, was := InflightIds(), Calls();
      call.path := path;
      call.err := err;
      call.doneClosed := true;
      inflight := inflight - {key};
      removePath := call.refs == 0 && call.path != "";
      assert InflightIds() == ids - {key};
      assert Calls() == was[call.id := Calls()[call.id]];
    }

    method ReleaseAuthFallbackOpen(call: OpenCall) returns (removePath: bool)
      requires Valid() && Known(call)
      modifies call
      ensures Valid()
      ensures (View(), removePath) == Release(old(View()), call.id)
    {
      ghost var ids, was := InflightIds(), Calls();
      if call.refs > 0 {
        call.refs := call.refs - 1;
      }
      removePath := call.doneClosed && call.refs == 0 && call.path != "";
      assert InflightIds() == ids;
      assert Calls() == was[call.id := Calls()[call.id]];
    }
  }

  /** `sharedAuthFallbackFile`: a reader over the shared file, with its `releaseOnce`. */
  class SharedFile {
    const table: OpenTable
    const call: OpenCall
    var released: bool

    constructor (table: OpenTable, call: OpenCall)
      ensures this.table == table && this.call == call && !released
    {
      this.table, this.call := table, call;
      released := false;
    }

    /** The first close releases the call, as the protocol's step; every later one releases nothing and removes nothing. */
    method Close() returns (removePath: bool)
      requires table.Valid() && table.Known(call)
      modifies this, call
      ensures table.Valid() && released
      ensures !old(released) ==> (table.View(), removePath) == Release(old(table.View()), call.id)
      ensures old(released) ==> table.View() == old(table.View()) && !removePath
    {
      removePath := false;
      if !released {
        released := true;
        removePath := table.ReleaseAuthFallbackOpen(call);
      }
    }
  }
}
