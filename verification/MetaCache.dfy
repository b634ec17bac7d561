/** internal/storage/meta_cache.go: metadata of remote sources, kept for a while and in bounded number. */
module MetaCache {
  import opened Wrappers

  datatype SourceMeta = SourceMeta(contentType: string, size: int, modTime: int, version: string)

  datatype Item = Item(meta: SourceMeta, storedAt: int)

  type Items = map<string, Item>

  const DEFAULT_MAX_ENTRIES := 4096

  // ---------- which entry goes ----------

  /** The key the scan for the oldest entry ends with; "" also stands for "none yet". */
  function Scan(items: Items, order: seq<string>): (key: string)
    requires forall k <- order :: k in items
    ensures if order == [] then key == "" else key in order
  {
    if order == [] then ""
    else
      var key, next := Scan(items, order[..|order| - 1]), order[|order| - 1];
      if key == "" || items[next].storedAt < items[key].storedAt then next else key
  }

  predicate IsOldest(items: Items, key: string) {
    key in items && forall k <- items :: items[key].storedAt <= items[k].storedAt
  }

  /** The entry of the empty identifier is strictly older than all the others, and there are others. */
  ghost predicate EmptyIsAlone(items: Items) {
    && "" in items && (exists k :: k in items && k != "")
    && forall k <- items :: k != "" ==> items[""].storedAt < items[k].storedAt
  }

  /** Among the keys seen so far: what the scan holds is the oldest of them, if one other than "" is. */
  lemma {:induction false} ScanSoFar(items: Items, order: seq<string>, best: string)
    requires forall k <- order :: k in items
    requires best in order && best != "" && forall k <- order :: items[best].storedAt <= items[k].storedAt
    ensures Scan(items, order) != "" && items[Scan(items, order)].storedAt == items[best].storedAt
  {
    var rest, next := order[..|order| - 1], order[|order| - 1];
    assert order == rest + [next];
    if best in rest { ScanSoFar(items, rest, best); }
  }

  /** The oldest entry of a named identifier. */
  lemma {:induction false} OldestNamed(items: Items, order: seq<string>, k: string) returns (best: string)
    requires (forall x <- order :: x in items) && k in order && k != ""
    ensures best in order && best != "" && forall x <- order :: x != "" ==> items[best].storedAt <= items[x].storedAt
  {
    var rest, next := order[..|order| - 1], order[|order| - 1];
    assert order == rest + [next];
    best := next;
    if x :| x in rest && x != "" {
      best := OldestNamed(items, rest, x);
      if next != "" && items[next].storedAt < items[best].storedAt { best := next; }
    }
  }

  lemma ScanPicksOldest(items: Items, order: seq<string>)
    requires Lists(order, items) && items != map[] && !EmptyIsAlone(items)
    ensures IsOldest(items, Scan(items, order))
  {
    if k :| k in items && k != "" {
      var best := OldestNamed(items, order, k);
      ScanSoFar(items, order, best);
    } else {
      var k :| k in items;
      assert k == "" && k in order;
      forall i | 0 <= i < |order| ensures order[i] == "" {
        assert order[i] in order && order[i] in items;
      }
      assert order[..0] == [];
      assert Scan(items, order) == "";
    }
  }

  /** Once past the empty identifier the scan never returns to it. */
  lemma {:induction false} ScanMovesOn(items: Items, rest: seq<string>)
    requires (forall k <- [""] + rest :: k in items) && rest != [] && "" !in rest
    ensures Scan(items, [""] + rest) in rest
  {
    var order, shorter, next := [""] + rest, rest[..|rest| - 1], rest[|rest| - 1];
    assert order[..|order| - 1] == [""] + shorter && order[|order| - 1] == next && rest == shorter + [next];
    if shorter == [] {
      assert [""][..0] == [] && Scan(items, [""]) == "";
    } else {
      ScanMovesOn(items, shorter);
    }
  }

  lemma {:induction false} Listing(s: set<string>) returns (order: seq<string>)
    ensures (forall k :: k in order <==> k in s) && forall i, j :: 0 <= i < j < |order| ==> order[i] != order[j]
  {
    order := [];
    if s != {} {
      var x :| x in s;
      var rest := Listing(s - {x});
      order := [x] + rest;
    }
  }

  /** Whatever order the map is ranged over, the scan ends at an oldest entry - exactly unless the empty
      identifier alone is oldest, whose key the scan takes for "none yet". */
  lemma ScanIsRightUnlessEmptyIsAlone(items: Items)
    requires items != map[]
    ensures (forall order :: Lists(order, items) ==> IsOldest(items, Scan(items, order))) <==> !EmptyIsAlone(items)
  {
    if EmptyIsAlone(items) {
      var rest := Listing(items.Keys - {""});
      var order := [""] + rest;
      assert Lists(order, items);
      var k :| k in items && k != "";
      assert k in rest;
      ScanMovesOn(items, rest);
    } else {
      forall order | Lists(order, items) ensures IsOldest(items, Scan(items, order)) { ScanPicksOldest(items, order); }
    }
  }

  // ---------- the cache ----------

  /** `get`: the cache afterwards, and what it answers; an entry older than the TTL goes. */
  function GotItem(ttl: int, items: Items, identifier: string, now: int): (r: (Items, Option<SourceMeta>))
    ensures r.1.Some? ==> identifier in items
  {
    if ttl <= 0 || identifier !in items then (items, None)
    else if now - items[identifier].storedAt > ttl then (items - {identifier}, None)
    else (items, Some(items[identifier].meta))
  }

  /** `store`: with a full cache an entry makes room, an oldest unless that of the empty identifier alone is oldest. */
  ghost predicate StoresItem(ttl: int, max: nat, items: Items, identifier: string, item: Item, items': Items) {
    if ttl <= 0 then items' == items
    else if |items| < max then items' == items[identifier := item]
    else exists k :: k in items && (IsOldest(items, k) || EmptyIsAlone(items)) && items' == (items - {k})[identifier := item]
  }

  lemma GetKeepsBound(ttl: int, items: Items, identifier: string, now: int)
    ensures |GotItem(ttl, items, identifier, now).0| <= |items|
  {
    if identifier in items { Without(items, identifier); }
  }

  lemma StoreKeepsBound(ttl: int, max: nat, items: Items, identifier: string, item: Item, items': Items)
    requires max >= 1 && |items| <= max && StoresItem(ttl, max, items, identifier, item, items')
    ensures |items'| <= max
  {
    if ttl > 0 && |items| < max {
      WithOne(items, identifier, item);
    } else if ttl > 0 {
      var k :| k in items && items' == (items - {k})[identifier := item];
      Without(items, k);
      WithOne(items - {k}, identifier, item);
    }
  }

  lemma Without(items: Items, k: string)
    requires k in items
    ensures |items - {k}| == |items| - 1
  {
    assert items.Keys == (items - {k}).Keys + {k};
  }

  lemma WithOne(items: Items, k: string, item: Item)
    ensures |items[k := item]| <= |items| + 1
  {
    assert items[k := item].Keys == items.Keys + {k};
    if k in items { assert items.Keys + {k} == items.Keys; }
  }

  /** One answer of the inner source. */
  datatype Given = Given(identifier: string, item: Item)

  class MetaCaching {
    const ttl: int
    const limit: int
    var items: Items
    ghost var given: set<Given>   // everything the inner source has answered

    function MaxEntries(): (n: nat)
      ensures n >= 1
    {
      if limit > 0 then limit else DEFAULT_MAX_ENTRIES
    }

    ghost predicate Valid()
      reads this
    {
      && |items| <= MaxEntries() && (ttl <= 0 ==> items == map[])
      && forall k <- items :: Given(k, items[k]) in given
    }

    constructor (ttl: int, limit: int)
      ensures Valid() && items == map[] && given == {} && this.ttl == ttl && this.limit == limit
    {
      this.ttl, this.limit := ttl, limit;
      items, given := map[], {};
    }

    /** `get`: an entry that is not older than the TTL; an older one goes. */
    method Get(identifier: string, now: int) returns (meta: Option<SourceMeta>)
      requires Valid()
      modifies this`items
      ensures Valid()
      ensures (items, meta) == GotItem(ttl, old(items), identifier, now)
      ensures meta.Some? <==> ttl > 0 && identifier in old(items) && now - old(items)[identifier].storedAt <= ttl
    {
      if ttl <= 0 { return None; }
      if identifier !in items { assert items == items - {identifier}; return None; }
      var entry := items[identifier];
      if now - entry.storedAt > ttl {
        items := items - {identifier};
        return None;
      }
      return Some(entry.meta);
    }

    /** `store`: makes room if the cache is full, even for a key it holds already. What goes is an oldest
        entry, unless that of the empty identifier alone is oldest. */
    method Store(identifier: string, meta: SourceMeta, now: int)
      requires Valid() && Given(identifier, Item(meta, now)) in given
      modifies this`items
      ensures Valid()
      ensures StoresItem(ttl, MaxEntries(), old(items), identifier, Item(meta, now), items)
    {
      if ttl <= 0 { return; }
      ghost var was := items;
      if |items| >= MaxEntries() {
        var oldestKey := FindOldest();
        items := items - {oldestKey};
      }
      items := items[identifier := Item(meta, now)];
      StoreKeepsBound(ttl, MaxEntries(), was, identifier, Item(meta, now), items);
    }

    /** The scan of `store`, over the map in any order. */
    method FindOldest() returns (oldestKey: string)
      requires items != map[]
      ensures oldestKey in items && (IsOldest(items, oldestKey) || EmptyIsAlone(items))
    {
      oldestKey := "";
      var oldest := 0;
      var rest := items.Keys;
      ghost var order: seq<string> := [];
      while rest != {}
        invariant rest <= items.Keys && (forall k :: k in order <==> k in items && k !in rest)
        invariant forall i, j :: 0 <= i < j < |order| ==> order[i] != order[j]
        invariant oldestKey == Scan(items, order)
        invariant oldestKey != "" ==> oldest == items[oldestKey].storedAt
      {
        var key :| key in rest;
        assert (order + [key])[..|order|] == order;
        if oldestKey == "" || items[key].storedAt < oldest {
          oldestKey, oldest := key, items[key].storedAt;
        }
        order := order + [key];
        rest := rest - {key};
      }
      assert Lists(order, items);
      if !EmptyIsAlone(items) { ScanPicksOldest(items, order); }
    }

    /** `Meta`: whatever it answers is what the inner source answers now, or answered for this very identifier
        within the TTL. */
    method Meta(identifier: string, inner: Option<SourceMeta>, now: int, later: int) returns (meta: Option<SourceMeta>)
      requires Valid()
      modifies this
      ensures Valid()
      ensures meta.Some? ==>
        || meta == inner
        || exists g :: g in old(given) && g.identifier == identifier && g.item.meta == meta.value && now - g.item.storedAt <= ttl
      ensures meta.None? ==> inner.None?
      ensures old(given) <= given <= old(given) + (if inner.Some? then {Given(identifier, Item(inner.value, later))} else {})
    {
      meta := Get(identifier, now);
      if meta.Some? {
        assert Given(identifier, old(items)[identifier]) in old(given);
        return;
      }
      if inner.None? { return None; }
      given := given + {Given(identifier, Item(inner.value, later))};
      Store(identifier, inner.value, later);
      return inner;
    }
  }
}
