/**
 The conditional document store of internal/iiif/presentation/v3/store: the
 preconditions, and the atomic map both implementations stand for.
 */
module DocumentStore {
  import opened Digests
  import opened Strings
  import opened Wrappers

  type Body = string
  type Docs = map<string, Body>

  const MAX_RESOURCE_KEY_BYTES := 768

  datatype Preconditions = Preconditions(ifMatch: string, ifNoneMatch: string)

  datatype Error = NotFound | PreconditionFailed | Unavailable

  predicate ValidResourceKey(key: string) {
    key != "" && |key| <= MAX_RESOURCE_KEY_BYTES && !ContainsAny(key, "\0\n\r")
  }

  function DocumentETag(hash: Digest, body: Body): string {
    "\"" + hash(body) + "\""
  }

  /** The list members of an If-Match field. */
  function Candidates(header: string): seq<string> {
    var parts := Split(TrimSpace(header), ',');
    seq(|parts|, i requires 0 <= i < |parts| => TrimSpace(parts[i]))
  }

  predicate IfMatchMatches(header: string, etag: string) {
    || TrimSpace(header) == "*"
    || exists i :: 0 <= i < |Candidates(header)| && !HasPrefix(Candidates(header)[i], "W/") && Candidates(header)[i] == etag
  }

  predicate PutPreconditionMatches(exists_: bool, currentETag: string, cond: Preconditions) {
    if cond.ifNoneMatch != "" then
      cond.ifMatch == "" && cond.ifNoneMatch == "*" && !exists_
    else
      cond.ifMatch != "" && exists_ && IfMatchMatches(cond.ifMatch, currentETag)
  }

  // ---------- the atomic map ----------

  datatype Op =
    | Put(key: string, body: Body, cond: Preconditions)
    | Delete(key: string, ifMatch: string)
    | Get(key: string)

  datatype Response = Stored(created: bool) | Deleted | Found(body: Body) | Failed(error: Error)

  function CurrentETag(hash: Digest, docs: Docs, key: string): string {
    if key in docs then DocumentETag(hash, docs[key]) else ""
  }

  function Atomic(hash: Digest, docs: Docs, op: Op): (Docs, Response) {
    if !ValidResourceKey(op.key) then (docs, Failed(NotFound)) else
    match op
    case Put(key, body, cond) =>
      if PutPreconditionMatches(key in docs, CurrentETag(hash, docs, key), cond)
      then (docs[key := body], Stored(key !in docs))
      else (docs, Failed(PreconditionFailed))
    case Delete(key, ifMatch) =>
      if key in docs && IfMatchMatches(ifMatch, CurrentETag(hash, docs, key))
      then (docs - {key}, Deleted)
      else (docs, Failed(PreconditionFailed))
    case Get(key) =>
      (docs, if key in docs then Found(docs[key]) else Failed(NotFound))
  }

  /** One operation of a one-at-a-time history and what it answered. */
  datatype Done = Done(client: nat, op: Op, response: Response)

  /** The map after a one-at-a-time history. */
  function Replay(hash: Digest, start: Docs, log: seq<Done>): Docs {
    if log == [] then start
    else Atomic(hash, Replay(hash, start, log[..|log| - 1]), log[|log| - 1].op).0
  }

  /** Every answer in the history is the one the atomic map gives at that point. */
  ghost predicate Legal(hash: Digest, start: Docs, log: seq<Done>) {
    forall i :: 0 <= i < |log| ==> log[i].response == Atomic(hash, Replay(hash, start, log[..i]), log[i].op).1
  }

  lemma ReplayExtend(hash: Digest, start: Docs, log: seq<Done>, d: Done)
    ensures Replay(hash, start, log + [d]) == Atomic(hash, Replay(hash, start, log), d.op).0
    ensures Legal(hash, start, log) && d.response == Atomic(hash, Replay(hash, start, log), d.op).1
            ==> Legal(hash, start, log + [d])
  {
    var log' := log + [d];
    assert log'[..|log|] == log;
    assert forall i :: 0 <= i < |log| ==> log'[..i] == log[..i];
  }

  // ---------- what a legal history guarantees ----------

  predicate IsCreate(op: Op, key: string) {
    op.Put? && op.key == key && op.cond == Preconditions("", "*")
  }

  predicate CreatedAt(log: seq<Done>, key: string, i: nat) {
    i < |log| && log[i].op.key == key && log[i].response == Stored(true)
  }

  predicate NeverDeleted(log: seq<Done>, key: string) {
    forall i :: 0 <= i < |log| && log[i].op.key == key ==> !log[i].op.Delete?
  }

  lemma CreationMakesPresent(hash: Digest, docs: Docs, op: Op, key: string)
    requires op.key == key ==> !op.Delete?
    ensures var (docs', response) := Atomic(hash, docs, op);
            && (op.key == key && response == Stored(true) ==> key !in docs && key in docs')
            && (!(op.key == key && response == Stored(true)) ==> (key in docs' <==> key in docs))
  {
    hide ValidResourceKey, IfMatchMatches;
  }

  lemma {:induction false} PresenceIsOneCreation(hash: Digest, start: Docs, log: seq<Done>, key: string)
    requires Legal(hash, start, log) && key !in start && NeverDeleted(log, key)
    ensures key in Replay(hash, start, log) <==> exists i :: CreatedAt(log, key, i)
    ensures forall i, j :: CreatedAt(log, key, i) && CreatedAt(log, key, j) ==> i == j
  {
    hide Atomic;
    if log != [] {
      var n := |log| - 1;
      var before := log[..n];
      assert forall i :: 0 <= i < n ==> before[..i] == log[..i];
      PresenceIsOneCreation(hash, start, before, key);
      CreationMakesPresent(hash, Replay(hash, start, before), log[n].op, key);
      forall i ensures CreatedAt(log, key, i) <==> CreatedAt(before, key, i) || (i == n && CreatedAt(log, key, n)) {}
      assert key in Replay(hash, start, log) <==> key in Replay(hash, start, before) || CreatedAt(log, key, n);
    }
  }

  /** Of any number of `If-None-Match: *` creates of an absent key, with no deletes, exactly one succeeds. */
  lemma ExactlyOneCreateWins(hash: Digest, start: Docs, log: seq<Done>, key: string, k: nat)
    requires Legal(hash, start, log) && key !in start && ValidResourceKey(key) && NeverDeleted(log, key)
    requires k < |log| && IsCreate(log[k].op, key)
    ensures exists i :: CreatedAt(log, key, i)
    ensures forall i, j :: CreatedAt(log, key, i) && CreatedAt(log, key, j) ==> i == j
  {
    PresenceIsOneCreation(hash, start, log, key);
    var before := log[..k];
    assert forall i :: 0 <= i < k ==> before[..i] == log[..i];
    PresenceIsOneCreation(hash, start, before, key);
    if key in Replay(hash, start, before) {
      var i :| CreatedAt(before, key, i);
      assert CreatedAt(log, key, i);
    } else {
      assert CreatedAt(log, key, k);
    }
  }

  lemma ETagNamesOneBody(hash: Digest, a: Body, b: Body)
    requires GoodDigest(hash) && DocumentETag(hash, a) == DocumentETag(hash, b)
    ensures a == b
  {
    var s, t := DocumentETag(hash, a), DocumentETag(hash, b);
    assert s[1..|s| - 1] == hash(a) && t[1..|t| - 1] == hash(b);
  }

  function IfMatchOf(op: Op): string {
    match op
    case Put(_, _, cond) => cond.ifMatch
    case Delete(_, ifMatch) => ifMatch
    case Get(_) => ""
  }

  /** A replace or delete that names entity tags only ever hits a body carrying one of them. */
  lemma NamedTagsGuardTheBody(hash: Digest, docs: Docs, op: Op)
    requires GoodDigest(hash) && TrimSpace(IfMatchOf(op)) != "*"
    requires Atomic(hash, docs, op).1 in {Stored(false), Deleted}
    ensures op.key in docs
    ensures DocumentETag(hash, docs[op.key]) in Candidates(IfMatchOf(op))
    ensures forall b :: Candidates(IfMatchOf(op)) == [DocumentETag(hash, b)] ==> docs[op.key] == b
  {
    hide ValidResourceKey, GoodDigest, TrimSpace;
    forall b | Candidates(IfMatchOf(op)) == [DocumentETag(hash, b)]
      ensures docs[op.key] == b
    {
      ETagNamesOneBody(hash, docs[op.key], b);
    }
  }

  // ---------- what is stored ----------

  /** Entry i of the history changed the document at key, by what it was answered. */
  predicate Changed(log: seq<Done>, key: string, i: nat) {
    && i < |log| && log[i].op.key == key
    && ((log[i].op.Put? && log[i].response.Stored?) || (log[i].op.Delete? && log[i].response.Deleted?))
  }

  /** No later entry did. */
  ghost predicate LastChange(log: seq<Done>, key: string, i: nat) {
    Changed(log, key, i) && forall j :: i < j < |log| ==> !Changed(log, key, j)
  }

  ghost predicate Untouched(log: seq<Done>, key: string) { forall i: nat :: !Changed(log, key, i) }

  /** After the history the document at key is the body b: its last change put it there, or it was there from the start. */
  ghost predicate Holds(start: Docs, log: seq<Done>, key: string, b: Body) {
    || (exists i: nat :: LastChange(log, key, i) && log[i].op.Put? && log[i].op.body == b)
    || (Untouched(log, key) && key in start && start[key] == b)
  }

  /** After the history there is no document at key: its last change deleted it, or there never was one. */
  ghost predicate Lacks(start: Docs, log: seq<Done>, key: string) {
    || (exists i: nat :: LastChange(log, key, i) && log[i].op.Delete?)
    || (Untouched(log, key) && key !in start)
  }

  /** The map after a legal history holds exactly what the last changes say. */
  lemma {:induction false} ReplayHolds(hash: Digest, start: Docs, log: seq<Done>, key: string)
    requires Legal(hash, start, log)
    ensures key in Replay(hash, start, log) ==> Holds(start, log, key, Replay(hash, start, log)[key])
    ensures key !in Replay(hash, start, log) ==> Lacks(start, log, key)
  {
    if log != [] {
      var n := |log| - 1;
      var before := log[..n];
      assert forall i :: 0 <= i < n ==> before[..i] == log[..i];
      ReplayHolds(hash, start, before, key);
      ChangeStep(hash, Replay(hash, start, before), log[n].op, key);
      hide Atomic, Legal;
      assert log[n].response == Atomic(hash, Replay(hash, start, before), log[n].op).1 by { LegalAt(hash, start, log, n); }
      if Changed(log, key, n) {
        assert LastChange(log, key, n);
      } else {
        SameChanges(start, log, key);
      }
    }
  }

  lemma LegalAt(hash: Digest, start: Docs, log: seq<Done>, i: nat)
    requires Legal(hash, start, log) && i < |log|
    ensures log[i].response == Atomic(hash, Replay(hash, start, log[..i]), log[i].op).1
  {
  }

  /** One operation changes the document of its own key, exactly when it is answered so. */
  lemma ChangeStep(hash: Digest, docs: Docs, op: Op, key: string)
    ensures var (docs', response) := Atomic(hash, docs, op);
            if op.key == key && op.Put? && response.Stored? then key in docs' && docs'[key] == op.body
            else if op.key == key && op.Delete? && response.Deleted? then key !in docs'
            else (key in docs' <==> key in docs) && (key in docs ==> docs'[key] == docs[key])
  {
    hide ValidResourceKey, PutPreconditionMatches, IfMatchMatches;
  }

  /** An entry that changes nothing leaves the last change where it was. */
  lemma SameChanges(start: Docs, log: seq<Done>, key: string)
    requires log != [] && !Changed(log, key, |log| - 1)
    ensures forall b :: Holds(start, log[..|log| - 1], key, b) ==> Holds(start, log, key, b)
    ensures Lacks(start, log[..|log| - 1], key) ==> Lacks(start, log, key)
  {
    var before := log[..|log| - 1];
    assert forall i: nat :: Changed(log, key, i) <==> Changed(before, key, i);
    forall i: nat | LastChange(before, key, i) ensures LastChange(log, key, i) && log[i] == before[i] {}
  }

  /** A key holds one body or none. */
  lemma HoldsOne(start: Docs, log: seq<Done>, key: string, a: Body, b: Body)
    requires Holds(start, log, key, a)
    ensures Holds(start, log, key, b) ==> a == b
    ensures !Lacks(start, log, key)
  {
    assert forall i: nat, j: nat :: LastChange(log, key, i) && LastChange(log, key, j) ==> i == j;
  }

  /** In every legal history a get of a valid key answers exactly the body that the last successful put or delete of
      that key left, or that was there from the start; and nothing exactly when there is none. */
  lemma GetsAnswerTheLastWrite(hash: Digest, start: Docs, log: seq<Done>, g: nat)
    requires Legal(hash, start, log) && g < |log| && log[g].op.Get? && ValidResourceKey(log[g].op.key)
    ensures forall b :: log[g].response == Found(b) <==> Holds(start, log[..g], log[g].op.key, b)
    ensures log[g].response == Failed(NotFound) <==> Lacks(start, log[..g], log[g].op.key)
  {
    hide ValidResourceKey, Holds, Lacks, Legal;
    var key := log[g].op.key;
    LegalPrefix(hash, start, log, g);
    LegalAt(hash, start, log, g);
    ReplayHolds(hash, start, log[..g], key);
    var docs := Replay(hash, start, log[..g]);
    if key in docs {
      forall b ensures Holds(start, log[..g], key, b) ==> docs[key] == b { HoldsOne(start, log[..g], key, docs[key], b); }
      HoldsOne(start, log[..g], key, docs[key], docs[key]);
    } else {
      forall b ensures !Holds(start, log[..g], key, b) {
        if Holds(start, log[..g], key, b) { HoldsOne(start, log[..g], key, b, b); }
      }
    }
  }

  lemma LegalPrefix(hash: Digest, start: Docs, log: seq<Done>, k: nat)
    requires Legal(hash, start, log) && k <= |log|
    ensures Legal(hash, start, log[..k])
  {
    hide Atomic;
    forall i | 0 <= i < k ensures log[..k][i].response == Atomic(hash, Replay(hash, start, log[..k][..i]), log[..k][i].op).1 {
      assert log[..k][..i] == log[..i];
    }
  }

  /** A put of a valid key succeeds exactly on what is there: a create when nothing is, a replace when the body there
      carries a tag it names; a delete likewise. It says `created` exactly when nothing was there. */
  lemma WritesAreDecidedByTheContent(hash: Digest, start: Docs, log: seq<Done>, i: nat)
    requires Legal(hash, start, log) && i < |log| && !log[i].op.Get? && ValidResourceKey(log[i].op.key)
    ensures var (op, response) := (log[i].op, log[i].response);
            && (response.Stored? || response.Deleted? || response == Failed(PreconditionFailed))
            && (response.Stored? ==> (response.created <==> Lacks(start, log[..i], op.key)))
            && (Changed(log, op.key, i) <==>
                  || (op.Put? && op.cond == Preconditions("", "*") && Lacks(start, log[..i], op.key))
                  || (IfNoneMatchOf(op) == "" && IfMatchOf(op) != "" &&
                      exists b :: Holds(start, log[..i], op.key, b) && IfMatchMatches(IfMatchOf(op), DocumentETag(hash, b)))
                  || (op.Delete? && op.ifMatch == "" &&
                      exists b :: Holds(start, log[..i], op.key, b) && IfMatchMatches("", DocumentETag(hash, b))))
  {
    hide ValidResourceKey, Holds, Lacks, Legal, IfMatchMatches;
    var key := log[i].op.key;
    LegalPrefix(hash, start, log, i);
    LegalAt(hash, start, log, i);
    ReplayHolds(hash, start, log[..i], key);
    var docs := Replay(hash, start, log[..i]);
    if key in docs {
      forall b ensures Holds(start, log[..i], key, b) ==> docs[key] == b { HoldsOne(start, log[..i], key, docs[key], b); }
      HoldsOne(start, log[..i], key, docs[key], docs[key]);
    } else {
      forall b ensures !Holds(start, log[..i], key, b) {
        if Holds(start, log[..i], key, b) { HoldsOne(start, log[..i], key, b, b); }
      }
    }
  }

  function IfNoneMatchOf(op: Op): string { if op.Put? then op.cond.ifNoneMatch else "" }
}
