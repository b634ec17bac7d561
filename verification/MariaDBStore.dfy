/**
 internal/iiif/presentation/v3/store/mariadb.go: `Put`, `Delete` and `Get` as
 transactions over one table. Each statement is one step; between two
 statements of one client any other client may run. A row selected FOR UPDATE
 is locked until its transaction ends, readers see committed rows only, and any
 statement may fail. A commit or an insert whose answer is lost may still take
 effect at any time after its caller was told of the fault, or never.
 */
module MariaDBStore {
  import opened Digests
  import opened DocumentStore
  import opened Wrappers

  /** Where one call stands. */
  datatype Pc =
    | Started(op: Op)
    | Begun(op: Op)                        // transaction open, nothing read
    | Missing(op: Op)                      // SELECT ... FOR UPDATE found no row
    | Refused(op: Op)                      // row locked, precondition does not match
    | Locked(op: Op, current: Body)        // row locked, precondition matches
    | Written(op: Op, current: Body)       // UPDATE or DELETE executed, not committed
    | LostCommit(op: Op, current: Body)    // told of a fault while the commit is still out
    | LostInsert(op: Op)                   // told of a fault while the insert is still out
    | Returned(op: Op, response: Response)

  /** `rows` is the committed table, `locks` the owner of each row lock; `log` records the moments at
      which an answer becomes fixed. */
  datatype Db = Db(rows: Docs, locks: map<string, nat>, clients: map<nat, Pc>, log: seq<Done>)

  datatype Event =
    | Call(t: nat, op: Op)
    | Reject(t: nat)                       // answered before any statement
    | Read(t: nat)                         // SELECT of Get
    | Insert(t: nat)                       // INSERT of Put
    | Begin(t: nat)
    | SelectForUpdate(t: nat)
    | Write(t: nat)                        // UPDATE or DELETE
    | Commit(t: nat)
    | Rollback(t: nat)
    | Fault(t: nat)                        // the statement under way reports an error and has no effect
    | Lose(t: nat)                         // the answer to a commit or an insert is lost
    | Settle(t: nat, applied: bool)        // the database carries it out, or not

  predicate MayLock(db: Db, t: nat, key: string) {
    key in db.locks ==> db.locks[key] == t
  }

  /** A create: `Put` goes straight to INSERT when If-None-Match is given. */
  predicate Creates(op: Op) {
    op.Put? && op.cond.ifNoneMatch != ""
  }

  /** `Put` and `Delete` compare the locked row with the caller's condition. */
  predicate Matches(hash: Digest, op: Op, current: Body) {
    match op
    case Put(_, _, cond) => PutPreconditionMatches(true, DocumentETag(hash, current), cond)
    case Delete(_, ifMatch) => IfMatchMatches(ifMatch, DocumentETag(hash, current))
    case Get(_) => false
  }

  /** Operations answered without touching the database. */
  function EarlyAnswer(op: Op): Option<Response> {
    if !ValidResourceKey(op.key) then Some(Failed(NotFound))
    else if Creates(op) && !PutPreconditionMatches(false, "", op.cond) then Some(Failed(PreconditionFailed))
    else None
  }

  predicate Enabled(db: Db, e: Event) {
    if e.Call? then e.t !in db.clients else
    && e.t in db.clients
    && var pc := db.clients[e.t];
    match e
    case Reject(_) => pc.Started? && EarlyAnswer(pc.op).Some?
    case Read(_) => pc.Started? && EarlyAnswer(pc.op).None? && pc.op.Get?
    case Insert(t) => pc.Started? && EarlyAnswer(pc.op).None? && Creates(pc.op) && MayLock(db, t, pc.op.key)
    case Begin(_) => pc.Started? && EarlyAnswer(pc.op).None? && !pc.op.Get? && !Creates(pc.op)
    case SelectForUpdate(t) => pc.Begun? && MayLock(db, t, pc.op.key)
    case Write(_) => pc.Locked?
    case Commit(_) => pc.Written?
    case Rollback(_) => pc.Missing? || pc.Refused?
    case Fault(_) => !pc.Returned? && !pc.LostCommit? && !pc.LostInsert?
    case Lose(_) => pc.Written? || (pc.Started? && EarlyAnswer(pc.op).None? && Creates(pc.op))
    case Settle(t, applied) =>
      pc.LostCommit? || (pc.LostInsert? && (applied ==> MayLock(db, t, pc.op.key) && pc.op.key !in db.rows))
  }

  function Unlock(locks: map<string, nat>, t: nat): map<string, nat> {
    map k | k in locks && locks[k] != t :: locks[k]
  }

  /** What one step does: the new table and locks, the client's next position, and the answer
      that this step fixes, if it fixes one. */
  datatype Move = Move(rows: Docs, locks: map<string, nat>, pc: Pc, answer: Option<Response>)

  /** The caller gets its answer and its transaction, if any, is over. */
  function Return(db: Db, t: nat, rows: Docs, response: Response, answer: Option<Response>): Move
    requires t in db.clients
  {
    Move(rows, Unlock(db.locks, t), Returned(db.clients[t].op, response), answer)
  }

  /** The committed table after an UPDATE or DELETE of the operation's row. */
  function Applied(rows: Docs, op: Op): Docs {
    match op
    case Put(key, body, _) => rows[key := body]
    case Delete(key, _) => rows - {key}
    case Get(_) => rows
  }

  function CommitAnswer(op: Op): Response {
    if op.Delete? then Deleted else Stored(false)
  }

  function MoveOf(hash: Digest, db: Db, e: Event): Move
    requires Enabled(db, e) && !e.Call?
  {
    var t := e.t;
    var pc := db.clients[t];
    var op := pc.op;
    match e
    case Reject(_) =>
      var r := EarlyAnswer(op).value;
      Return(db, t, db.rows, r, Some(r))
    case Read(_) =>
      var r := if op.key in db.rows then Found(db.rows[op.key]) else Failed(NotFound);
      Return(db, t, db.rows, r, Some(r))
    case Insert(_) =>
      if op.key in db.rows
      then Return(db, t, db.rows, Failed(PreconditionFailed), Some(Failed(PreconditionFailed)))   // duplicate key
      else Return(db, t, db.rows[op.key := op.body], Stored(true), Some(Stored(true)))
    case Begin(_) => Move(db.rows, db.locks, Begun(op), None)
    case SelectForUpdate(_) =>
      if op.key !in db.rows then
        Move(db.rows, db.locks, Missing(op), Some(Failed(PreconditionFailed)))
      else if Matches(hash, op, db.rows[op.key]) then
        Move(db.rows, db.locks[op.key := t], Locked(op, db.rows[op.key]), None)
      else
        Move(db.rows, db.locks[op.key := t], Refused(op), Some(Failed(PreconditionFailed)))
    case Write(_) => Move(db.rows, db.locks, Written(op, pc.current), None)
    case Commit(_) => Return(db, t, Applied(db.rows, op), CommitAnswer(op), Some(CommitAnswer(op)))
    case Rollback(_) => Return(db, t, db.rows, Failed(PreconditionFailed), None)
    case Fault(_) => Return(db, t, db.rows, Failed(Unavailable), None)
    case Lose(_) => Move(db.rows, db.locks, if pc.Written? then LostCommit(op, pc.current) else LostInsert(op), None)
    case Settle(_, applied) =>
      if !applied then Return(db, t, db.rows, Failed(Unavailable), None)
      else Return(db, t, Applied(db.rows, op), Failed(Unavailable), Some(if pc.LostCommit? then CommitAnswer(op) else Stored(true)))
  }

  function Make(db: Db, t: nat, m: Move): Db {
    Db(m.rows, m.locks, db.clients[t := m.pc],
       if m.answer.Some? then db.log + [Done(t, m.pc.op, m.answer.value)] else db.log)
  }

  function Next(hash: Digest, db: Db, e: Event): Db
    requires Enabled(db, e)
  {
    if e.Call? then db.(clients := db.clients[e.t := Started(e.op)]) else Make(db, e.t, MoveOf(hash, db, e))
  }

  function Init(rows: Docs): Db { Db(rows, map[], map[], []) }

  function Exec(hash: Digest, rows: Docs, es: seq<Event>): Option<Db> {
    if es == [] then Some(Init(rows))
    else
      var before := Exec(hash, rows, es[..|es| - 1]);
      var e := es[|es| - 1];
      if before.Some? && Enabled(before.value, e) then Some(Next(hash, before.value, e)) else None
  }

  // ---------- the invariant ----------

  predicate Logged(db: Db, t: nat, i: nat) {
    i < |db.log| && db.log[i].client == t
  }

  /** The answer of a client that will not change any more. */
  function Fixed(pc: Pc): Option<Response> {
    match pc
    case Missing(_) => Some(Failed(PreconditionFailed))
    case Refused(_) => Some(Failed(PreconditionFailed))
    case Returned(_, response) => if response == Failed(Unavailable) then None else Some(response)
    case _ => None
  }

  predicate ClientOk(hash: Digest, db: Db, t: nat)
    requires t in db.clients
  {
    var pc := db.clients[t];
    && (pc.Begun? || pc.Locked? || pc.Written? || pc.LostCommit? ==>
          EarlyAnswer(pc.op).None? && !pc.op.Get? && !Creates(pc.op))
    && (pc.LostInsert? ==> EarlyAnswer(pc.op).None? && Creates(pc.op))
    && (pc.Locked? || pc.Written? || pc.LostCommit? ==> HoldsRow(hash, db, t, pc.op, pc.current))
  }

  /** t has locked the row, which still carries the body its condition matched. */
  predicate HoldsRow(hash: Digest, db: Db, t: nat, op: Op, current: Body) {
    && op.key in db.locks && db.locks[op.key] == t
    && op.key in db.rows && db.rows[op.key] == current
    && Matches(hash, op, current)
  }

  ghost predicate ClientsInv(hash: Digest, db: Db) {
    forall t <- db.clients :: ClientOk(hash, db, t)
  }

  /** Each call is in the history at most once; it is there with its answer exactly when the answer is
      fixed, except that a call that reported a fault may be there or not. */
  ghost predicate LogInv(db: Db) {
    && (forall i :: 0 <= i < |db.log| ==>
          var d := db.log[i];
          && d.client in db.clients
          && d.op == db.clients[d.client].op
          && (Fixed(db.clients[d.client]) == Some(d.response)
              || db.clients[d.client] == Returned(d.op, Failed(Unavailable))))
    && (forall i, j :: 0 <= i < |db.log| && 0 <= j < |db.log| && db.log[i].client == db.log[j].client ==> i == j)
    && (forall t <- db.clients :: Fixed(db.clients[t]).Some? ==> exists i :: Logged(db, t, i))
  }

  ghost predicate ReplayInv(hash: Digest, start: Docs, db: Db) {
    Replay(hash, start, db.log) == db.rows && Legal(hash, start, db.log)
  }

  ghost predicate Inv(hash: Digest, start: Docs, db: Db) {
    ClientsInv(hash, db) && LogInv(db) && ReplayInv(hash, start, db)
  }

  /** A move fixes an answer only when the atomic map gives it at that moment, and otherwise changes no row. */
  predicate Agrees(hash: Digest, db: Db, op: Op, m: Move) {
    if m.answer.Some? then (m.rows, m.answer.value) == Atomic(hash, db.rows, op) else m.rows == db.rows
  }

  /** How a move may change what is fixed about its client. */
  predicate Fixes(pc: Pc, m: Move) {
    && m.pc.op == pc.op && !pc.Returned?
    && (m.answer.Some? ==> Fixed(pc).None? && (Fixed(m.pc) == m.answer || m.pc == Returned(pc.op, Failed(Unavailable))))
    && (m.answer.None? ==> Fixed(m.pc) == Fixed(pc) || m.pc == Returned(pc.op, Failed(Unavailable)))
  }

  lemma MoveAgrees(hash: Digest, db: Db, e: Event)
    requires ClientsInv(hash, db) && Enabled(db, e) && !e.Call?
    ensures Agrees(hash, db, db.clients[e.t].op, MoveOf(hash, db, e)) && Fixes(db.clients[e.t], MoveOf(hash, db, e))
  {
    hide ValidResourceKey, IfMatchMatches;
  }

  lemma ClientsStep(hash: Digest, start: Docs, db: Db, e: Event)
    requires ClientsInv(hash, db) && Enabled(db, e)
    ensures ClientsInv(hash, Next(hash, db, e))
  {
    hide ValidResourceKey, IfMatchMatches, PutPreconditionMatches;
  }

  lemma LogStep(db: Db, t: nat, m: Move)
    requires LogInv(db) && t in db.clients && Fixes(db.clients[t], m)
    ensures LogInv(Make(db, t, m))
  {
    var db' := Make(db, t, m);
    forall u | u in db'.clients && Fixed(db'.clients[u]).Some?
      ensures exists i :: Logged(db', u, i)
    {
      if u == t && m.answer.Some? {
        assert Logged(db', u, |db.log|);
      } else {
        var i: nat :| Logged(db, u, i);
        assert Logged(db', u, i);
      }
    }
  }

  lemma CallStep(db: Db, t: nat, op: Op)
    requires LogInv(db) && t !in db.clients
    ensures LogInv(db.(clients := db.clients[t := Started(op)]))
  {
    var db' := db.(clients := db.clients[t := Started(op)]);
    assert forall u, i :: Logged(db, u, i) ==> Logged(db', u, i);
  }

  lemma ReplayStep(hash: Digest, start: Docs, db: Db, t: nat, m: Move)
    requires ReplayInv(hash, start, db) && t in db.clients && Agrees(hash, db, m.pc.op, m)
    ensures ReplayInv(hash, start, Make(db, t, m))
  {
    hide Atomic, Legal;
    if m.answer.Some? { ReplayExtend(hash, start, db.log, Done(t, m.pc.op, m.answer.value)); }
  }

  lemma StepKeepsInv(hash: Digest, start: Docs, db: Db, e: Event)
    requires Inv(hash, start, db) && Enabled(db, e)
    ensures Inv(hash, start, Next(hash, db, e))
  {
    hide MoveOf, Atomic, LogInv, ClientsInv, Legal;
    ClientsStep(hash, start, db, e);
    if e.Call? {
      CallStep(db, e.t, e.op);
    } else {
      MoveAgrees(hash, db, e);
      LogStep(db, e.t, MoveOf(hash, db, e));
      ReplayStep(hash, start, db, e.t, MoveOf(hash, db, e));
    }
  }

  lemma {:induction false} RunsKeepInv(hash: Digest, start: Docs, es: seq<Event>)
    requires Exec(hash, start, es).Some?
    ensures Inv(hash, start, Exec(hash, start, es).value)
  {
    if es != [] {
      RunsKeepInv(hash, start, es[..|es| - 1]);
      StepKeepsInv(hash, start, Exec(hash, start, es[..|es| - 1]).value, es[|es| - 1]);
    }
  }

  // ---------- what every run guarantees ----------

  /** The history accounts for the clients: every entry is some client's call, at most once, and every
      answer a client got, other than a reported fault, is an entry. */
  ghost predicate Explains(log: seq<Done>, clients: map<nat, Pc>) {
    && (forall i :: 0 <= i < |log| ==> log[i].client in clients && clients[log[i].client].op == log[i].op)
    && (forall i, j :: 0 <= i < |log| && 0 <= j < |log| && log[i].client == log[j].client ==> i == j)
    && (forall t <- clients :: clients[t].Returned? && clients[t].response != Failed(Unavailable) ==>
          exists i :: 0 <= i < |log| && log[i] == Done(t, clients[t].op, clients[t].response))
  }

  lemma LogExplains(db: Db)
    requires LogInv(db)
    ensures Explains(db.log, db.clients)
  {
    forall t | t in db.clients && db.clients[t].Returned? && db.clients[t].response != Failed(Unavailable)
      ensures exists i :: 0 <= i < |db.log| && db.log[i] == Done(t, db.clients[t].op, db.clients[t].response)
    {
      var i: nat :| Logged(db, t, i);
      assert db.log[i] == Done(t, db.clients[t].op, db.clients[t].response);
    }
  }

  /** Every interleaving gives the answers and the table of one one-at-a-time order of the atomic map. */
  lemma RunsAreAtomic(hash: Digest, start: Docs, es: seq<Event>)
    requires Exec(hash, start, es).Some?
    ensures var db := Exec(hash, start, es).value;
            && Legal(hash, start, db.log)
            && Replay(hash, start, db.log) == db.rows
            && Explains(db.log, db.clients)
  {
    hide LogInv, Legal, Explains;
    RunsKeepInv(hash, start, es);
    LogExplains(Exec(hash, start, es).value);
  }

  lemma {:induction false} RunsExtend(hash: Digest, start: Docs, es: seq<Event>, k: nat)
    requires Exec(hash, start, es).Some? && k <= |es|
    ensures Exec(hash, start, es[..k]).Some?
    ensures Exec(hash, start, es[..k]).value.log <= Exec(hash, start, es).value.log
    ensures Exec(hash, start, es[..k]).value.clients.Keys <= Exec(hash, start, es).value.clients.Keys
    ensures forall t <- Exec(hash, start, es[..k]).value.clients ::
      Exec(hash, start, es[..k]).value.clients[t].op == Exec(hash, start, es).value.clients[t].op
  {
    hide MoveOf;
    if k == |es| {
      assert es[..k] == es;
    } else {
      var shorter := es[..|es| - 1];
      assert shorter[..k] == es[..k];
      RunsExtend(hash, start, shorter, k);
      var db, e := Exec(hash, start, shorter).value, es[|es| - 1];
      RunsKeepInv(hash, start, shorter);
      if !e.Call? { MoveAgrees(hash, db, e); }
    }
  }

  lemma EntriesOfAPrefix(early: Db, late: Db, i: nat)
    requires LogInv(early) && LogInv(late) && early.log <= late.log && i < |late.log|
    ensures late.log[i].client in early.clients && Fixed(early.clients[late.log[i].client]).Some? ==> i < |early.log|
    ensures late.log[i].client !in early.clients ==> i >= |early.log|
  {
    var t := late.log[i].client;
    if t in early.clients && Fixed(early.clients[t]).Some? {
      var i': nat :| Logged(early, t, i');
      assert late.log[i'].client == t;
    }
    if i < |early.log| { assert early.log[i] == late.log[i]; }
  }

  /** In every interleaving each row of the table is what the last successful put of its key in that order wrote, and
      there is none exactly when its last successful change was a delete or there never was one. */
  lemma RowsAreTheLastWrites(hash: Digest, start: Docs, es: seq<Event>, key: string)
    requires Exec(hash, start, es).Some?
    ensures var db := Exec(hash, start, es).value;
            && (forall b :: key in db.rows && db.rows[key] == b <==> Holds(start, db.log, key, b))
            && (key !in db.rows <==> Lacks(start, db.log, key))
  {
    hide Holds, Lacks, Legal, Explains;
    RunsAreAtomic(hash, start, es);
    var db := Exec(hash, start, es).value;
    ReplayHolds(hash, start, db.log, key);
    forall b ensures Holds(start, db.log, key, b) ==> key in db.rows && db.rows[key] == b {
      if Holds(start, db.log, key, b) {
        HoldsOne(start, db.log, key, b, b);
        if key in db.rows { HoldsOne(start, db.log, key, b, db.rows[key]); }
      }
    }
    if key in db.rows { HoldsOne(start, db.log, key, db.rows[key], db.rows[key]); }
  }

  /** Whatever a get of a valid key returned, other than a fault, was so at its place in that order: the body the last
      successful change before it left, or nothing exactly when there was none. */
  lemma GetsReturnTheLastWrite(hash: Digest, start: Docs, es: seq<Event>, t: nat)
    requires Exec(hash, start, es).Some? && t in Exec(hash, start, es).value.clients
    requires var pc := Exec(hash, start, es).value.clients[t];
             pc.Returned? && pc.op.Get? && ValidResourceKey(pc.op.key) && pc.response != Failed(Unavailable)
    ensures var db := Exec(hash, start, es).value;
            var (op, response) := (db.clients[t].op, db.clients[t].response);
            exists i: nat :: i < |db.log| && db.log[i] == Done(t, op, response)
                             && (response == Failed(NotFound) <==> Lacks(start, db.log[..i], op.key))
                             && forall b :: response == Found(b) <==> Holds(start, db.log[..i], op.key, b)
  {
    hide Holds, Lacks, Legal, ValidResourceKey;
    RunsAreAtomic(hash, start, es);
    var db := Exec(hash, start, es).value;
    var i: nat :| i < |db.log| && db.log[i] == Done(t, db.clients[t].op, db.clients[t].response);
    GetsAnswerTheLastWrite(hash, start, db.log, i);
  }

  /** The order respects time: a call answered before another is made comes before it. */
  lemma OrderRespectsTime(hash: Digest, start: Docs, es: seq<Event>, k: nat, i: nat, j: nat)
    requires k <= |es| && Exec(hash, start, es).Some? && Exec(hash, start, es[..k]).Some?
    requires i < |Exec(hash, start, es).value.log| && j < |Exec(hash, start, es).value.log|
    requires var (log, early) := (Exec(hash, start, es).value.log, Exec(hash, start, es[..k]).value.clients);
             && log[i].client in early && Fixed(early[log[i].client]).Some?
             && log[j].client !in early
    ensures i < j
  {
    hide LogInv, ClientsInv, ReplayInv;
    RunsExtend(hash, start, es, k);
    RunsKeepInv(hash, start, es);
    RunsKeepInv(hash, start, es[..k]);
    EntriesOfAPrefix(Exec(hash, start, es[..k]).value, Exec(hash, start, es).value, i);
    EntriesOfAPrefix(Exec(hash, start, es[..k]).value, Exec(hash, start, es).value, j);
  }

  /** Everybody is back, nobody saw a fault, and nobody asked to delete. */
  predicate CleanFor(clients: map<nat, Pc>, key: string) {
    forall t <- clients :: clients[t].op.key == key ==>
      clients[t].Returned? && clients[t].response != Failed(Unavailable) && !clients[t].op.Delete?
  }

  /** w is the one call that was told it created the document at key. */
  predicate Winner(clients: map<nat, Pc>, key: string, w: nat) {
    && w in clients && IsCreate(clients[w].op, key) && clients[w] == Returned(clients[w].op, Stored(true))
    && forall t <- clients :: t != w && IsCreate(clients[t].op, key) ==>
         clients[t] == Returned(clients[t].op, Failed(PreconditionFailed))
  }

  /** Of any number of concurrent creates of an absent key exactly one is told it created the document;
      every other is told its precondition failed. */
  lemma ExactlyOneCreateReturns(hash: Digest, start: Docs, es: seq<Event>, key: string, t0: nat)
    requires Exec(hash, start, es).Some? && key !in start && ValidResourceKey(key)
    requires var clients := Exec(hash, start, es).value.clients;
             CleanFor(clients, key) && t0 in clients && IsCreate(clients[t0].op, key)
    ensures exists w :: Winner(Exec(hash, start, es).value.clients, key, w)
  {
    RunsAreAtomic(hash, start, es);
    RunsKeepInv(hash, start, es);
    var db := Exec(hash, start, es).value;
    OneWinner(hash, start, db.log, db.clients, key, t0);
  }

  lemma OneWinner(hash: Digest, start: Docs, log: seq<Done>, clients: map<nat, Pc>, key: string, t0: nat)
    requires Legal(hash, start, log) && Explains(log, clients)
    requires key !in start && ValidResourceKey(key)
    requires CleanFor(clients, key) && t0 in clients && IsCreate(clients[t0].op, key)
    ensures exists w :: Winner(clients, key, w)
  {
    hide ValidResourceKey, Atomic;
    assert NeverDeleted(log, key);
    var k: nat :| k < |log| && log[k] == Done(t0, clients[t0].op, clients[t0].response);
    ExactlyOneCreateWins(hash, start, log, key, k);
    var i: nat :| CreatedAt(log, key, i);
    var w := log[i].client;
    AnswersOfCreates(hash, Replay(hash, start, log[..i]), log[i].op, key);
    var i': nat :| i' < |log| && log[i'] == Done(w, clients[w].op, clients[w].response);
    forall t | t in clients && t != w && IsCreate(clients[t].op, key)
      ensures clients[t] == Returned(clients[t].op, Failed(PreconditionFailed))
    {
      var j: nat :| j < |log| && log[j] == Done(t, clients[t].op, clients[t].response);
      AnswersOfCreates(hash, Replay(hash, start, log[..j]), log[j].op, key);
      assert !CreatedAt(log, key, j);
    }
    assert Winner(clients, key, w);
  }

  /** Only creates are answered `created`, and a create is answered that or a failed precondition. */
  lemma AnswersOfCreates(hash: Digest, docs: Docs, op: Op, key: string)
    requires op.key == key && ValidResourceKey(key)
    ensures Atomic(hash, docs, op).1 == Stored(true) ==> IsCreate(op, key)
    ensures IsCreate(op, key) ==> Atomic(hash, docs, op).1 in {Stored(true), Failed(PreconditionFailed)}
  {
    hide ValidResourceKey, IfMatchMatches;
  }
}
