/**
 internal/cache/file.go: the file store behind the derivative cache. A payload
 lies under the digest of its key and, where content types are kept, a small
 `.meta` file beside it. The modification time of the payload is its age.
 */
module CacheFiles {
  import opened Digests
  import opened DocumentStore
  import opened Int64
  import opened Strings
  import opened Wrappers

  /** Times are nanoseconds. */
  datatype File = File(content: string, mtime: int, regular: bool)

  /** Every file below the root, by its path relative to the root. */
  type Disk = map<string, File>

  /** The JSON form of a content type is any encoding that decodes. */
  datatype Config = Config(digest: Digest, encodeMeta: string -> string, decodeMeta: string -> Option<string>,
                           typed: bool, maxAge: int, maxBytes: int)

  ghost predicate GoodConfig(c: Config) {
    && GoodDigest(c.digest) && (forall k :: |c.digest(k)| >= 4)
    && (forall t :: c.decodeMeta(c.encodeMeta(t)) == Some(t))
  }

  datatype Answer =
    | Hit(contentType: string, storedAt: int, body: string)
    | Miss
    | Broken        // the `.meta` file does not decode

  // ---------- age ----------

  const ZERO_TIME := -62_135_596_800_000_000_000

  /** `now.Sub(storedAt)`, which saturates. */
  function Elapsed(storedAt: int, now: int): int {
    var d := now - storedAt;
    if d > MAX_INT64 then MAX_INT64 else if d < MIN_INT64 then MIN_INT64 else d
  }

  predicate Expired(maxAge: int, storedAt: int, now: int) {
    maxAge > 0 && storedAt != ZERO_TIME && Elapsed(storedAt, now) > maxAge
  }

  /** Once expired, expired for good, and so is everything stored earlier. */
  lemma ExpiredForGood(maxAge: int, storedAt: int, now: int, earlier: int, later: int)
    requires Expired(maxAge, storedAt, now) && ZERO_TIME < earlier <= storedAt && now <= later
    ensures Expired(maxAge, earlier, later)
  {
  }

  /** The age limit is kept to the nanosecond, whatever the times: saturation only matters to the greatest limit,
      under which nothing expires, as nothing does without a limit. */
  lemma AgeDecides(maxAge: int, storedAt: int, now: int)
    requires IsInt64(maxAge) && storedAt != ZERO_TIME
    ensures Expired(maxAge, storedAt, now) <==> 0 < maxAge < MAX_INT64 && now - storedAt > maxAge
  {
  }

  // ---------- paths ----------

  const META := ".meta"
  const TEMP := ".tmp-"

  function DataPath(c: Config, key: string): string
    requires |c.digest(key)| >= 4
  {
    var hex := c.digest(key);
    hex[..2] + "/" + hex[2..4] + "/" + hex
  }

  function MetaPath(c: Config, key: string): string
    requires |c.digest(key)| >= 4
  {
    DataPath(c, key) + META
  }

  /** The last element of a path. */
  function Base(p: string): string { p[LastIndex(p, '/') + 1..] }

  /** What `Cleanup` looks at: not the `.meta` files, not the files still being written. */
  predicate PayloadName(p: string) { !HasSuffix(p, META) && !HasPrefix(Base(p), TEMP) }

  lemma DataPathIsPayload(c: Config, key: string)
    requires GoodConfig(c)
    ensures PayloadName(DataPath(c, key)) && DataPath(c, key)[2] == '/'
    ensures Base(DataPath(c, key)) == c.digest(key)
  {
    hide LastIndex;
    var hex := c.digest(key);
    assert HexString(hex) && |hex| >= 4;
    hide GoodConfig;
    HexUnderDirectories(hex[..2] + "/" + hex[2..4], hex);
  }

  lemma HexUnderDirectories(directories: string, hex: string)
    requires HexString(hex) && |hex| >= 4
    ensures var p := directories + "/" + hex; Base(p) == hex && !HasSuffix(p, META) && !HasPrefix(hex, TEMP)
  {
    hide HasSuffix, Base;
    var p := directories + "/" + hex;
    var k := |directories|;
    LastPiece(directories, hex);
    assert p[|p| - 2] == hex[|hex| - 2];
    NoMetaSuffix(p);
    NotTemporary(hex);
  }

  lemma LastPiece(directories: string, name: string)
    requires '/' !in name
    ensures Base(directories + "/" + name) == name
  {
    hide Base;
    var p := directories + "/" + name;
    var k := |directories|;
    assert p[k + 1..] == name;
    assert forall j :: k < j < |p| ==> p[j] == name[j - k - 1];
    BaseAfter(p, k);
  }

  lemma NotTemporary(hex: string)
    requires HexString(hex) && hex != ""
    ensures !HasPrefix(hex, TEMP)
  {
    if |hex| >= |TEMP| { assert hex[..|TEMP|][0] == hex[0]; }
  }

  lemma NoMetaSuffix(p: string)
    requires |p| >= 5 && p[|p| - 2] != 't'
    ensures !HasSuffix(p, META)
  {
    assert p[|p| - |META|..][3] == p[|p| - 2];
  }

  lemma BaseAfter(p: string, k: nat)
    requires k < |p| && p[k] == '/' && forall j :: k < j < |p| ==> p[j] != '/'
    ensures Base(p) == p[k + 1..]
  {
  }

  lemma PathsAreApart(c: Config, a: string, b: string)
    requires GoodConfig(c)
    ensures DataPath(c, a) == DataPath(c, b) <==> a == b
    ensures MetaPath(c, a) == MetaPath(c, b) <==> a == b
    ensures DataPath(c, a) != MetaPath(c, b)
  {
    DataPathIsPayload(c, a); DataPathIsPayload(c, b);
    SuffixOfConcat(DataPath(c, a), META); SuffixOfConcat(DataPath(c, b), META);
  }

  /** A temporary file lies directly below the root. */
  predicate TempName(p: string) { HasPrefix(p, TEMP) && '/' !in p }

  lemma TempIsApart(c: Config, key: string, tmp: string)
    requires GoodConfig(c) && TempName(tmp)
    ensures tmp != DataPath(c, key) && tmp != MetaPath(c, key) && DataPath(c, key) != MetaPath(c, key)
  {
    PathsAreApart(c, key, key);
    DataPathIsPayload(c, key);
    assert DataPath(c, key)[2] == MetaPath(c, key)[2] == '/';
  }

  // ---------- looking up ----------

  function Answers(c: Config, disk: Disk, key: string, now: int): Answer
    requires |c.digest(key)| >= 4
  {
    var data, meta := DataPath(c, key), MetaPath(c, key);
    if c.typed && meta !in disk then Miss
    else if c.typed && c.decodeMeta(disk[meta].content).None? then Broken
    else if data !in disk || Expired(c.maxAge, disk[data].mtime, now) then Miss
    else Hit(if c.typed then c.decodeMeta(disk[meta].content).value else "", disk[data].mtime, disk[data].content)
  }

  // ---------- one cleanup pass ----------

  datatype Report = Report(scanned: nat, removed: nat, removedBytes: nat, bytes: nat, overMaxBytes: bool)

  predicate Payload(disk: Disk, p: string) { p in disk && PayloadName(p) && disk[p].regular }

  predicate Stale(c: Config, disk: Disk, now: int, p: string) {
    Payload(disk, p) && Expired(c.maxAge, disk[p].mtime, now)
  }

  function Payloads(disk: Disk): set<string> { set p <- disk | Payload(disk, p) }

  function StaleOnes(c: Config, disk: Disk, now: int): set<string> { set p <- disk | Stale(c, disk, now, p) }

  /** p goes when the stale payloads among `seen` go: it is one of them or the `.meta` file of one.
      `stuck` are the files that cannot be removed. */
  predicate Goes(c: Config, disk: Disk, now: int, seen: seq<string>, stuck: set<string>, p: string) {
    && p !in stuck
    && (|| (p in seen && Stale(c, disk, now, p))
        || (c.typed && HasSuffix(p, META) && p[..|p| - |META|] in seen && Stale(c, disk, now, p[..|p| - |META|])))
  }

  function Swept(c: Config, disk: Disk, now: int, seen: seq<string>, stuck: set<string>): Disk {
    map p | p in disk && !Goes(c, disk, now, seen, stuck, p) :: disk[p]
  }

  /** One more file seen. */
  lemma SweptStep(c: Config, disk: Disk, now: int, seen: seq<string>, p: string, stuck: set<string>)
    requires p !in seen
    ensures var before, after := Swept(c, disk, now, seen, stuck), Swept(c, disk, now, seen + [p], stuck);
            && (Payload(before, p) <==> Payload(disk, p)) && (p in before ==> before[p] == disk[p])
            && after == if !Stale(c, disk, now, p) then before
                        else before - ({p} - stuck) - (if c.typed then {p + META} - stuck else {})
  {
    hide Goes, Stale, PayloadName;
    var before, after := Swept(c, disk, now, seen, stuck), Swept(c, disk, now, seen + [p], stuck);
    PayloadStays(c, disk, now, seen, p, stuck);
    forall q ensures Goes(c, disk, now, seen + [p], stuck, q) <==> Goes(c, disk, now, seen, stuck, q) || GoesWith(c, disk, now, p, stuck, q) {
      GoesStep(c, disk, now, seen, p, stuck, q);
    }
    var after' := if !Stale(c, disk, now, p) then before
                  else before - ({p} - stuck) - (if c.typed then {p + META} - stuck else {});
    forall q ensures q in after <==> q in after' {}
  }

  /** q goes when p does. */
  predicate GoesWith(c: Config, disk: Disk, now: int, p: string, stuck: set<string>, q: string) {
    Stale(c, disk, now, p) && q !in stuck && (q == p || (c.typed && q == p + META))
  }

  lemma GoesStep(c: Config, disk: Disk, now: int, seen: seq<string>, p: string, stuck: set<string>, q: string)
    ensures Goes(c, disk, now, seen + [p], stuck, q) <==> Goes(c, disk, now, seen, stuck, q) || GoesWith(c, disk, now, p, stuck, q)
  {
    hide Stale;
    SuffixOfConcat(p, META);
    if HasSuffix(q, META) { SuffixSplits(q, META); }
  }

  lemma SuffixSplits(q: string, suffix: string)
    requires HasSuffix(q, suffix)
    ensures q == q[..|q| - |suffix|] + suffix
  {
  }

  lemma PayloadStays(c: Config, disk: Disk, now: int, seen: seq<string>, p: string, stuck: set<string>)
    requires p !in seen
    ensures var before := Swept(c, disk, now, seen, stuck);
            (Payload(before, p) <==> Payload(disk, p)) && (p in before ==> before[p] == disk[p])
  {
    hide Stale;
  }

  lemma TallyStep(c: Config, disk: Disk, now: int, seen: seq<string>, p: string)
    ensures var all, stale := Payloads(disk), StaleOnes(c, disk, now);
            && Count(seen + [p], all) == Count(seen, all) + (if Payload(disk, p) then 1 else 0)
            && Count(seen + [p], stale) == Count(seen, stale) + (if Stale(c, disk, now, p) then 1 else 0)
            && Bytes(disk, seen + [p], stale) == Bytes(disk, seen, stale) + (if Stale(c, disk, now, p) then |disk[p].content| else 0)
            && Bytes(disk, seen + [p], all - stale) ==
               Bytes(disk, seen, all - stale) + (if Payload(disk, p) && !Stale(c, disk, now, p) then |disk[p].content| else 0)
  {
    hide Expired, PayloadName;
    assert (seen + [p])[..|seen|] == seen;
  }

  lemma NothingYet(c: Config, disk: Disk, now: int, stuck: set<string>)
    ensures Swept(c, disk, now, [], stuck) == disk
    ensures forall chosen :: Count([], chosen) == 0 && Bytes(disk, [], chosen) == 0
  {
  }

  /** How many of the names are among the chosen. */
  function Count(names: seq<string>, chosen: set<string>): nat {
    if names == [] then 0
    else Count(names[..|names| - 1], chosen) + if names[|names| - 1] in chosen then 1 else 0
  }

  /** The bytes of those names that are among the chosen. */
  function Bytes(disk: Disk, names: seq<string>, chosen: set<string>): nat {
    if names == [] then 0
    else
      var p := names[|names| - 1];
      Bytes(disk, names[..|names| - 1], chosen) + if p in chosen && p in disk then |disk[p].content| else 0
  }

  function Chosen(names: seq<string>, chosen: set<string>): set<string> { set p <- names | p in chosen }

  lemma {:induction false} CountIsCardinality(names: seq<string>, chosen: set<string>)
    requires forall i, j :: 0 <= i < j < |names| ==> names[i] != names[j]
    ensures Count(names, chosen) == |Chosen(names, chosen)|
  {
    if names != [] {
      var rest, last := names[..|names| - 1], names[|names| - 1];
      CountIsCardinality(rest, chosen);
      ChosenStep(rest, last, chosen);
      assert names == rest + [last];
    }
  }

  lemma ChosenStep(rest: seq<string>, last: string, chosen: set<string>)
    requires last !in rest
    ensures |Chosen(rest + [last], chosen)| == |Chosen(rest, chosen)| + if last in chosen then 1 else 0
  {
    var was := Chosen(rest, chosen);
    if last in chosen {
      assert Chosen(rest + [last], chosen) == was + {last};
    } else {
      assert Chosen(rest + [last], chosen) == was;
    }
  }

  /** For every key and every time from the pass on, the pass makes no difference, but for a key
      whose undecodable `.meta` file went with its expired payload. */
  lemma CleanupIsInvisible(c: Config, disk: Disk, now: int, seen: seq<string>, stuck: set<string>, key: string, later: int)
    requires GoodConfig(c) && now <= later
    ensures Answers(c, Swept(c, disk, now, seen, stuck), key, later) == Answers(c, disk, key, later) <==>
            !(&& Answers(c, disk, key, later).Broken? && MetaPath(c, key) !in stuck
              && DataPath(c, key) in seen && Stale(c, disk, now, DataPath(c, key)))
  {
    var data, meta := DataPath(c, key), MetaPath(c, key);
    PathsAreApart(c, key, key);
    DataPathIsPayload(c, key);
    SuffixOfConcat(data, META);
    hide PayloadName, DataPath, MetaPath, HasSuffix;
  }

  /** The survivors are the payloads left on disk, and what was scanned is what survives and what went. */
  lemma {:induction false} CleanupConserves(c: Config, disk: Disk, now: int, seen: seq<string>, names: seq<string>)
    requires forall p <- names :: p in disk && (p in seen || !Stale(c, disk, now, p))
    ensures var after := Swept(c, disk, now, seen, {});
            && Count(names, Payloads(disk)) == Count(names, Payloads(after)) + Count(names, StaleOnes(c, disk, now))
            && Bytes(disk, names, Payloads(disk)) == Bytes(after, names, Payloads(after)) + Bytes(disk, names, StaleOnes(c, disk, now))
  {
    if names != [] {
      var p := names[|names| - 1];
      assert p in names;
      CleanupConserves(c, disk, now, seen, names[..|names| - 1]);
    }
  }

  /** A complete pass leaves exactly the payloads within the age limit. */
  lemma CleanupLeavesTheFresh(c: Config, disk: Disk, now: int, walk: seq<string>, p: string)
    requires Lists(walk, disk) && IsInt64(c.maxAge) && forall q <- disk :: disk[q].mtime != ZERO_TIME
    ensures Payload(Swept(c, disk, now, walk, {}), p) <==>
            Payload(disk, p) && !(0 < c.maxAge < MAX_INT64 && now - disk[p].mtime > c.maxAge)
    ensures Payload(Swept(c, disk, now, walk, {}), p) ==> Swept(c, disk, now, walk, {})[p] == disk[p]
  {
    hide Expired;
    if p in disk { AgeDecides(c.maxAge, disk[p].mtime, now); }
  }

  // ---------- the store ----------

  /** The disk after key's files were replaced; no `.meta` file is written when `meta` is None. */
  function Installed(c: Config, disk: Disk, key: string, data: Option<File>, meta: Option<File>): Disk
    requires |c.digest(key)| >= 4
  {
    var d := if data.Some? then disk[DataPath(c, key) := data.value] else disk - {DataPath(c, key)};
    if meta.Some? then d[MetaPath(c, key) := meta.value] else d
  }

  lemma InstalledAnswers(c: Config, disk: Disk, key: string, data: Option<File>, meta: Option<File>, k: string, t: int)
    requires GoodConfig(c)
    ensures var after := Installed(c, disk, key, data, meta);
            && (k != key ==> Answers(c, after, k, t) == Answers(c, disk, k, t))
            && (data.None? ==> !Answers(c, after, key, t).Hit?)
            && (data.Some? && (c.typed ==> meta.Some? && c.decodeMeta(meta.value.content).Some?) ==>
                  Answers(c, after, key, t) ==
                  if Expired(c.maxAge, data.value.mtime, t) then Miss
                  else Hit(if c.typed then c.decodeMeta(meta.value.content).value else "", data.value.mtime, data.value.content))
  {
    PathsAreApart(c, key, k); PathsAreApart(c, key, key); PathsAreApart(c, k, key);
    hide DataPath, MetaPath;
  }

  /** Where a `Put` fails: while copying, renaming, or writing the `.meta` file, which may be left half written. */
  datatype PutFault = NoFault | CopyFailed | RenameFailed | MetaFailed(left: Option<string>)

  class FileStore {
    const c: Config
    var disk: Disk

    constructor (c: Config)
      ensures this.c == c && disk == map[]
    {
      this.c := c;
      disk := map[];
    }

    method Get(key: string, now: int) returns (r: Answer)
      requires GoodConfig(c)
      ensures r == Answers(c, disk, key, now)
    {
      var data, meta := DataPath(c, key), MetaPath(c, key);
      var contentType := "";
      if c.typed {
        if meta !in disk { return Miss; }
        var decoded := c.decodeMeta(disk[meta].content);
        if decoded.None? { return Broken; }
        contentType := decoded.value;
      }
      if data !in disk { return Miss; }
      if Expired(c.maxAge, disk[data].mtime, now) { return Miss; }
      r := Hit(contentType, disk[data].mtime, disk[data].content);
    }

    /** A put that reports success is what every later Get of its key answers until it expires; one that
        fails leaves the old answer, or none; no other key is touched, nor is anything left behind. */
    method Put(key: string, contentType: string, value: string, now: int, tmp: string, fault: PutFault) returns (ok: bool)
      requires GoodConfig(c) && TempName(tmp) && tmp !in disk
      modifies this`disk
      ensures ok <==> fault.NoFault? || (fault.MetaFailed? && !c.typed)
      ensures ok ==> (forall t :: Answers(c, disk, key, t) ==
                        if Expired(c.maxAge, now, t) then Miss else Hit(if c.typed then contentType else "", now, value))
      ensures ok && IsInt64(c.maxAge) && now != ZERO_TIME ==>
        forall t :: Answers(c, disk, key, t).Hit? <==> !(0 < c.maxAge < MAX_INT64 && t - now > c.maxAge)
      ensures !ok && !fault.MetaFailed? ==> disk == old(disk)
      ensures !ok ==> forall t :: Answers(c, disk, key, t) == Answers(c, old(disk), key, t) || !Answers(c, disk, key, t).Hit?
      ensures forall k, t :: k != key ==> Answers(c, disk, k, t) == Answers(c, old(disk), k, t)
      ensures disk.Keys <= old(disk).Keys + {DataPath(c, key), MetaPath(c, key)}
    {
      hide DataPath, MetaPath, TempName, Answers, Expired;
      var data, meta := DataPath(c, key), MetaPath(c, key);
      TempIsApart(c, key, tmp);
      ghost var was := disk;
      disk := disk[tmp := File(value, now, true)];
      if fault.CopyFailed? || fault.RenameFailed? {
        disk := disk - {tmp};
        assert disk == was;
        return false;
      }
      disk := disk[data := disk[tmp]] - {tmp};
      assert disk == was[data := File(value, now, true)];
      ghost var newData, newMeta := Some(File(value, now, true)), None;
      if c.typed {
        if fault.MetaFailed? {
          if fault.left.Some? { disk := disk[meta := File(fault.left.value, now, true)]; newMeta := Some(disk[meta]); }
          disk := disk - {data};
          assert disk == Installed(c, was, key, None, newMeta);
          forall k, t { InstalledAnswers(c, was, key, None, newMeta, k, t); }
          return false;
        }
        disk := disk[meta := File(c.encodeMeta(contentType), now, true)];
        newMeta := Some(disk[meta]);
      }
      assert disk == Installed(c, was, key, newData, newMeta);
      forall k, t { InstalledAnswers(c, was, key, newData, newMeta, k, t); }
      if IsInt64(c.maxAge) && now != ZERO_TIME { forall t { AgeDecides(c.maxAge, now, t); } }
      return true;
    }

    /** `Delete`, which ignores a file that cannot be removed (`stuck`): the key goes on answering hits exactly if its
        payload stayed and its `.meta` file, where one is needed, did too; every other key answers as before. */
    method Delete(key: string, stuck: set<string>)
      requires GoodConfig(c)
      modifies this`disk
      ensures forall t :: Answers(c, disk, key, t).Hit? <==>
        Answers(c, old(disk), key, t).Hit? && DataPath(c, key) in stuck && (c.typed ==> MetaPath(c, key) in stuck)
      ensures forall t :: Answers(c, disk, key, t).Hit? ==> Answers(c, disk, key, t) == Answers(c, old(disk), key, t)
      ensures forall k, t :: k != key ==> Answers(c, disk, k, t) == Answers(c, old(disk), k, t)
    {
      hide DataPath, MetaPath;
      forall k
        ensures DataPath(c, key) != MetaPath(c, k) && DataPath(c, k) != MetaPath(c, key)
        ensures k != key ==> DataPath(c, key) != DataPath(c, k) && MetaPath(c, key) != MetaPath(c, k)
      {
        PathsAreApart(c, key, k); PathsAreApart(c, k, key);
      }
      disk := disk - ({DataPath(c, key)} - stuck);
      if c.typed { disk := disk - ({MetaPath(c, key)} - stuck); }
    }

    /** `walk` is the order in which the pass meets the files; it is cut short after `stop` of them. */
    method Cleanup(now: int, walk: seq<string>, stuck: set<string>, stop: nat) returns (report: Report, ok: bool)
      requires Lists(walk, disk)
      modifies this`disk
      ensures ok <==> stop >= |walk|
      ensures var seen := walk[..if ok then |walk| else stop];
              && disk == Swept(c, old(disk), now, seen, stuck)
              && report.scanned == Count(seen, Payloads(old(disk)))
              && report.removed == Count(seen, StaleOnes(c, old(disk), now))
              && report.bytes == Bytes(old(disk), seen, Payloads(old(disk)) - StaleOnes(c, old(disk), now))
              && report.removedBytes == Bytes(old(disk), seen, StaleOnes(c, old(disk), now))
              && (report.overMaxBytes <==> ok && c.maxBytes > 0 && report.bytes > c.maxBytes)
    {
      hide Count, Bytes, Swept, Goes, Payloads, StaleOnes, Expired, HasSuffix, HasPrefix, Base;
      ghost var was := disk;
      NothingYet(c, was, now, stuck);
      assert walk[..0] == [];
      report := Report(0, 0, 0, 0, false);
      var i := 0;
      while i < |walk|
        invariant 0 <= i <= |walk| && i <= stop
        invariant disk == Swept(c, was, now, walk[..i], stuck)
        invariant report.scanned == Count(walk[..i], Payloads(was))
        invariant report.removed == Count(walk[..i], StaleOnes(c, was, now))
        invariant report.bytes == Bytes(was, walk[..i], Payloads(was) - StaleOnes(c, was, now))
        invariant report.removedBytes == Bytes(was, walk[..i], StaleOnes(c, was, now))
        invariant !report.overMaxBytes
      {
        if i >= stop { return report, false; }
        var p := walk[i];
        assert walk[..i + 1] == walk[..i] + [p];
        SweptStep(c, was, now, walk[..i], p, stuck);
        TallyStep(c, was, now, walk[..i], p);
        if !HasSuffix(p, META) && !HasPrefix(Base(p), TEMP) && p in disk && disk[p].regular {
          var info := disk[p];
          report := report.(scanned := report.scanned + 1);
          assert Payload(was, p);
          if !Expired(c.maxAge, info.mtime, now) {
            report := report.(bytes := report.bytes + |info.content|);
          } else {
            disk := disk - ({p} - stuck);
            if c.typed { disk := disk - ({p + META} - stuck); } else { assert disk - {} == disk; }
            report := report.(removed := report.removed + 1, removedBytes := report.removedBytes + |info.content|);
          }
        }
        i := i + 1;
      }
      assert walk[..|walk|] == walk;
      report := report.(overMaxBytes := c.maxBytes > 0 && report.bytes > c.maxBytes);
      ok := true;
    }
  }
}
