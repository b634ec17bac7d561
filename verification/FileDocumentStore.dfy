/**
 internal/iiif/presentation/v3/store/file.go: one file per key under a hashed
 name, replaced by write-to-temp and rename. Every method runs under the store
 mutex from start to end, so a method is one step.
 */
module FileDocumentStore {
  import opened Digests
  import opened DocumentStore
  import opened Strings
  import opened Wrappers

  /** Where the operating system lets a change down: before the file is renamed or removed, or after. */
  datatype Fault = NoFault | Before | After

  function Directory(hash: Digest, key: string): string
    requires |hash(key)| >= 2
  {
    "resources/" + hash(key)[..2]
  }

  function ResourcePath(hash: Digest, key: string): string
    requires |hash(key)| >= 2
  {
    Directory(hash, key) + "/" + hash(key) + ".json"
  }

  function TempPath(hash: Digest, key: string, random: string): string
    requires |hash(key)| >= 2
  {
    Directory(hash, key) + "/.presentation-" + random + ".tmp"
  }

  lemma PathsAreDistinct(hash: Digest, a: string, b: string, random: string)
    requires GoodDigest(hash)
    ensures ResourcePath(hash, a) == ResourcePath(hash, b) ==> a == b
    ensures ResourcePath(hash, a) != TempPath(hash, b, random)
  {
    var p, q, t := ResourcePath(hash, a), ResourcePath(hash, b), TempPath(hash, b, random);
    assert p[13..|p| - 5] == hash(a) && q[13..|q| - 5] == hash(b);
    assert p[|p| - 1] == 'n' && t[|t| - 1] == 'p';
  }

  /** The files are exactly the documents: one per key, nothing else. */
  ghost predicate Mirrors(hash: Digest, docs: Docs, files: map<string, Body>)
    requires forall k :: |hash(k)| >= 2
  {
    && (forall k <- docs :: ValidResourceKey(k) && ResourcePath(hash, k) in files && files[ResourcePath(hash, k)] == docs[k])
    && (forall p <- files :: exists k :: k in docs && p == ResourcePath(hash, k))
  }

  lemma Lookup(hash: Digest, docs: Docs, files: map<string, Body>, key: string)
    requires GoodDigest(hash) && Mirrors(hash, docs, files)
    ensures ResourcePath(hash, key) in files <==> key in docs
    ensures key in docs ==> files[ResourcePath(hash, key)] == docs[key]
  {
    if ResourcePath(hash, key) in files {
      var k :| k in docs && ResourcePath(hash, key) == ResourcePath(hash, k);
      PathsAreDistinct(hash, key, k, "");
    }
  }

  lemma Install(hash: Digest, docs: Docs, files: map<string, Body>, key: string, body: Body)
    requires GoodDigest(hash) && Mirrors(hash, docs, files) && ValidResourceKey(key)
    ensures Mirrors(hash, docs[key := body], files[ResourcePath(hash, key) := body])
  {
    hide ResourcePath;
    forall k | k in docs { PathsAreDistinct(hash, k, key, ""); }
  }

  lemma Uninstall(hash: Digest, docs: Docs, files: map<string, Body>, key: string)
    requires GoodDigest(hash) && Mirrors(hash, docs, files)
    ensures Mirrors(hash, docs - {key}, files - {ResourcePath(hash, key)})
  {
    hide ResourcePath;
    forall k | k in docs { PathsAreDistinct(hash, k, key, ""); }
  }

  class FileStore {
    const hash: Digest
    var files: map<string, Body>
    ghost var docs: Docs

    ghost predicate Valid()
      reads this
    {
      GoodDigest(hash) && Mirrors(hash, docs, files)
    }

    constructor (hash: Digest)
      requires GoodDigest(hash)
      ensures Valid() && docs == map[] && this.hash == hash
    {
      this.hash := hash;
      files, docs := map[], map[];
    }

    method Get(key: string) returns (r: Response)
      requires Valid()
      ensures r == Atomic(hash, docs, DocumentStore.Get(key)).1
      ensures r == if ValidResourceKey(key) && key in docs then Found(docs[key]) else Failed(NotFound)
    {
      if !ValidResourceKey(key) { return Failed(NotFound); }
      Lookup(hash, docs, files, key);
      var path := ResourcePath(hash, key);
      r := if path in files then Found(files[path]) else Failed(NotFound);
    }

    /** `atomicWriteFile`: on a failure before the rename the temporary file is removed again. */
    method AtomicWriteFile(path: string, tmp: string, body: Body, fault: Fault) returns (ok: bool)
      requires tmp !in files && tmp != path
      modifies this`files
      ensures ok <==> fault.NoFault?
      ensures files == if fault.Before? then old(files) else old(files)[path := body]
    {
      files := files[tmp := body];
      if fault.Before? {
        files := files - {tmp};
        assert files == old(files);
        return false;
      }
      files := (files - {tmp})[path := files[tmp]];
      assert files == old(files)[path := body];
      ok := fault.NoFault?;
    }

    method Put(key: string, body: Body, cond: Preconditions, random: string, fault: Fault) returns (r: Response)
      requires Valid() && TempPath(hash, key, random) !in files
      modifies this
      ensures Valid()
      ensures var (docs', answer) := Atomic(hash, old(docs), DocumentStore.Put(key, body, cond));
              if answer.Stored? && !fault.NoFault?
              then r == Failed(Unavailable) && docs == (if fault.Before? then old(docs) else docs')
              else r == answer && docs == docs'
      ensures r.Stored? ==> docs == old(docs)[key := body] && (r.created <==> key !in old(docs))
    {
      hide IfMatchMatches, Mirrors, ResourcePath;
      if !ValidResourceKey(key) { return Failed(NotFound); }
      Lookup(hash, docs, files, key);
      var path := ResourcePath(hash, key);
      var exists_ := path in files;
      var currentETag := if exists_ then DocumentETag(hash, files[path]) else "";
      if !PutPreconditionMatches(exists_, currentETag, cond) { return Failed(PreconditionFailed); }
      PathsAreDistinct(hash, key, key, random);
      var ok := AtomicWriteFile(path, TempPath(hash, key, random), body, fault);
      if !fault.Before? {
        docs := docs[key := body];
        Install(hash, old(docs), old(files), key, body);
      }
      r := if ok then Stored(!exists_) else Failed(Unavailable);
    }

    method Delete(key: string, ifMatch: string, fault: Fault) returns (r: Response)
      requires Valid()
      modifies this
      ensures Valid()
      ensures var (docs', answer) := Atomic(hash, old(docs), DocumentStore.Delete(key, ifMatch));
              if answer.Deleted? && !fault.NoFault?
              then r == Failed(Unavailable) && docs == (if fault.Before? then old(docs) else docs')
              else r == answer && docs == docs'
      ensures r.Deleted? ==> key in old(docs) && docs == old(docs) - {key}
    {
      hide IfMatchMatches, Mirrors, ResourcePath;
      if !ValidResourceKey(key) { return Failed(NotFound); }
      Lookup(hash, docs, files, key);
      var path := ResourcePath(hash, key);
      if path !in files { return Failed(PreconditionFailed); }
      if !IfMatchMatches(ifMatch, DocumentETag(hash, files[path])) { return Failed(PreconditionFailed); }
      if fault.Before? { return Failed(Unavailable); }
      files := files - {path};
      docs := docs - {key};
      Uninstall(hash, old(docs), old(files), key);
      r := if fault.NoFault? then Deleted else Failed(Unavailable);
    }
  }
}
