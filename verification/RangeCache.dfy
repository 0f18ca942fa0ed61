/** Filling the read cache from the event index, loading events into it, and finding the next block to compute. */
module RangeCache {
  import opened Options
  import opened Events
  import opened RangeIndex

  /** A cache slot that was looked up: null, or the rows found. */
  datatype Entry = Missing | Rows(rows: seq<Fetched>)

  type Cache = map<Key, Entry>

  function RowsOf(entry: Entry): seq<Fetched> {
    if entry.Missing? then [] else entry.rows
  }

  predicate Covered(deps: seq<Dep>, k: Key) {
    exists d :: d in deps && d.Covers(k)
  }

  /** The index holds only covered keys, and searches in it are right from `lo` to `hi` for every covered key. */
  ghost predicate IndexOk(events: Index, db: Db, deps: seq<Dep>, lo: int, hi: int) {
    && (forall k :: k in events ==> Covered(deps, k))
    && (forall k :: Covered(deps, k) ==>
        Faithful(Lookup(events, k), db, k, lo, hi) && AllStored(Lookup(events, k), db, k, hi))
  }

  /** `rows` are exactly the rows the database returns for `d` at `h`. */
  ghost predicate Exact(rows: seq<Fetched>, db: Db, d: Dep, h: int) {
    && (forall e :: e in rows ==> d.Covers(e.event.key) && Latest(db, e.event.key, h) == Some(e.event))
    && (forall k :: d.Covers(k) && Latest(db, k, h).Some? ==> exists e :: e in rows && e.event.key == k)
  }

  /** Some enumeration of a finite set, without repetition. */
  method Enumerate(keys: set<Key>) returns (r: seq<Key>)
    ensures forall k :: k in r <==> k in keys
    ensures forall i, j :: 0 <= i < j < |r| ==> r[i] != r[j]
  {
    r := [];
    var rest := keys;
    while rest != {}
      invariant rest <= keys
      invariant forall k :: k in keys <==> k in r || k in rest
      invariant forall k :: k in r ==> k !in rest
      invariant forall i, j :: 0 <= i < j < |r| ==> r[i] != r[j]
      decreases rest
    {
      var k :| k in rest;
      r, rest := r + [k], rest - {k};
    }
  }

  // ---- addToCache ----

  function PruneCovered(events: Index, deps: seq<Dep>, h: int): Index {
    map k | k in events :: if Covered(deps, k) then Prune(events[k], h) else events[k]
  }

  /** The slot for `d` holds the current objects of the covered keys of the index. */
  ghost predicate SlotFor(entry: Entry, events: Index, d: Dep, h: int) {
    && (forall e :: e in RowsOf(entry) ==>
         exists k :: k in events && d.Covers(k) && Current(events[k], h) == Some(e))
    && (forall k :: k in events && d.Covers(k) && Current(events[k], h).Some? ==>
         Current(events[k], h).value in RowsOf(entry))
  }

  function PruneOne(events: Index, d: Dep, h: int): Index {
    map k | k in events :: if d.Covers(k) then Prune(events[k], h) else events[k]
  }

  lemma PruneCoveredStep(events: Index, deps: seq<Dep>, d: Dep, h: int)
    ensures PruneCovered(events, deps + [d], h) == PruneOne(PruneCovered(events, deps, h), d, h)
  {
    forall k | k in events
      ensures PruneCovered(events, deps + [d], h)[k] == PruneOne(PruneCovered(events, deps, h), d, h)[k]
    {
      assert Covered(deps + [d], k) <==> Covered(deps, k) || d.Covers(k) by {
        assert d in deps + [d];
        assert forall x :: x in deps ==> x in deps + [d];
        assert forall x :: x in deps + [d] ==> x in deps || x == d;
      }
      if CurrentIndex(events[k], h).Some? { PrunedHead(events[k], h); }
    }
  }

  lemma PrunedCurrent(events: Index, deps: seq<Dep>, h: int)
    ensures PruneCovered(events, deps, h).Keys == events.Keys
    ensures forall k :: k in events ==> Current(PruneCovered(events, deps, h)[k], h) == Current(events[k], h)
  {
    forall k | k in events
      ensures Current(PruneCovered(events, deps, h)[k], h) == Current(events[k], h)
    {
      PruneKeeps(events[k], h, h);
    }
  }

  lemma SlotUnpruned(entry: Entry, events: Index, deps: seq<Dep>, d: Dep, h: int)
    requires SlotFor(entry, PruneCovered(events, deps, h), d, h)
    ensures SlotFor(entry, events, d, h)
  {
    PrunedCurrent(events, deps, h);
    var pruned := PruneCovered(events, deps, h);
    forall e | e in RowsOf(entry)
      ensures exists k :: k in events && d.Covers(k) && Current(events[k], h) == Some(e)
    {
      var k :| k in pruned && d.Covers(k) && Current(pruned[k], h) == Some(e);
      assert k in events && Current(events[k], h) == Some(e);
    }
  }

  /** One exact key: cache its current row, or null, and slice its list. */
  method CacheKey(d: Dep, events: Index, h: nat) returns (events': Index, entry: Entry)
    requires !d.prefix
    ensures events' == PruneOne(events, d, h) && SlotFor(entry, events, d, h)
  {
    events', entry := events, Missing;
    if d.key in events {
      match CurrentIndex(events[d.key], h)
      case Some(current) =>
        entry := Rows([events[d.key][current]]);
        events' := events[d.key := events[d.key][current..]];
        assert Current(events[d.key], h) == Some(events[d.key][current]);
      case None =>
    }
  }

  /** One prefix: cache the current row of each key under it, and slice their lists. */
  method CachePrefix(d: Dep, events: Index, h: nat) returns (events': Index, entry: Entry)
    requires d.prefix
    ensures events' == PruneOne(events, d, h) && SlotFor(entry, events, d, h)
  {
    var rows := CurrentRows(d, events, h);
    entry := Rows(rows);
    events' := map k | k in events :: if d.key <= k then Prune(events[k], h) else events[k];
  }

  /** The slots filled so far are exactly those of the dependencies handled so far. */
  ghost predicate Filled(cache: Cache, events: Index, past: seq<Dep>, h: int) {
    && (forall d :: d in past ==> d.key in cache && SlotFor(cache[d.key], events, d, h))
    && (forall key :: key in cache ==> exists d :: d in past && d.key == key)
  }

  lemma FillOne(cache: Cache, events: Index, past: seq<Dep>, d: Dep, entry: Entry, h: int)
    requires Filled(cache, events, past, h) && SlotFor(entry, events, d, h)
    requires forall a :: a in past && a.key == d.key ==> a == d
    ensures Filled(cache[d.key := entry], events, past + [d], h)
  {
    var cache' := cache[d.key := entry];
    assert d in past + [d];
    forall key | key in cache'
      ensures exists a :: a in past + [d] && a.key == key
    {
      if key != d.key {
        var a :| a in past && a.key == key;
        assert a in past + [d];
      }
    }
  }

  method AddToCache(deps: seq<Dep>, events: Index, h: nat) returns (events': Index, cache: Cache)
    requires forall a, b :: a in deps && b in deps && a.key == b.key ==> a == b
    ensures events' == PruneCovered(events, deps, h)
    ensures Filled(cache, events, deps, h)
  {
    events', cache := events, map[];
    ghost var past: seq<Dep> := [];
    assert events' == PruneCovered(events, past, h);
    for i := 0 to |deps|
      invariant forall d :: d in past <==> d in deps[..i] && !d.prefix
      invariant events' == PruneCovered(events, past, h)
      invariant Filled(cache, events, past, h)
    {
      assert forall d :: d in deps[..i + 1] <==> d in deps[..i] || d == deps[i];
      if !deps[i].prefix {
        var entry;
        PruneCoveredStep(events, past, deps[i], h);
        events', entry := CacheKey(deps[i], events', h);
        SlotUnpruned(entry, events, past, deps[i], h);
        FillOne(cache, events, past, deps[i], entry, h);
        cache, past := cache[deps[i].key := entry], past + [deps[i]];
      }
    }
    assert deps[..|deps|] == deps;
    for i := 0 to |deps|
      invariant forall d :: d in past <==> d in deps && (!d.prefix || d in deps[..i])
      invariant events' == PruneCovered(events, past, h)
      invariant Filled(cache, events, past, h)
    {
      assert forall d :: d in deps[..i + 1] <==> d in deps[..i] || d == deps[i];
      if deps[i].prefix {
        var entry;
        PruneCoveredStep(events, past, deps[i], h);
        events', entry := CachePrefix(deps[i], events', h);
        SlotUnpruned(entry, events, past, deps[i], h);
        FillOne(cache, events, past, deps[i], entry, h);
        cache, past := cache[deps[i].key := entry], past + [deps[i]];
      }
    }
    assert forall d :: d in past <==> d in deps;
    assert forall k :: Covered(past, k) <==> Covered(deps, k);
  }

  /** The current row of every indexed key that starts with the prefix. */
  method CurrentRows(d: Dep, events: Index, h: nat) returns (rows: seq<Fetched>)
    ensures forall e :: e in rows ==> exists k :: k in events && d.Covers(k) && Current(events[k], h) == Some(e)
    ensures forall k :: k in events && d.Covers(k) && Current(events[k], h).Some? ==>
        Current(events[k], h).value in rows
  {
    var keys := Enumerate(set k | k in events && d.Covers(k));
    rows := [];
    assert forall j :: 0 <= j < |keys| ==> keys[j] in keys;
    for i := 0 to |keys|
      invariant forall e :: e in rows ==> exists k :: k in events && d.Covers(k) && Current(events[k], h) == Some(e)
      invariant forall j :: 0 <= j < i && Current(events[keys[j]], h).Some? ==>
          Current(events[keys[j]], h).value in rows
    {
      assert keys[i] in keys;
      match CurrentIndex(events[keys[i]], h)
      case Some(current) =>
        assert Current(events[keys[i]], h) == Some(events[keys[i]][current]);
        rows := rows + [events[keys[i]][current]];
      case None =>
    }
    forall k | k in events && d.Covers(k) && Current(events[k], h).Some?
      ensures Current(events[k], h).value in rows
    {
      assert k in keys;
      var j :| 0 <= j < |keys| && keys[j] == k;
    }
  }

  /**
   * After filling the cache at `h`, the index is right from `h` on and every slot is what the database returns at `h`.
   */
  lemma FilledCache(deps: seq<Dep>, events: Index, db: Db, lo: int, h: nat, hi: int)
    requires lo <= h <= hi && IndexOk(events, db, deps, lo, hi)
    ensures IndexOk(PruneCovered(events, deps, h), db, deps, h, hi)
  {
    var events' := PruneCovered(events, deps, h);
    forall k | Covered(deps, k)
      ensures Faithful(Lookup(events', k), db, k, h, hi) && AllStored(Lookup(events', k), db, k, hi)
    {
      PruneFaithful(Lookup(events, k), db, k, lo, h, hi);
    }
  }

  lemma SlotComplete(entry: Entry, events: Index, db: Db, deps: seq<Dep>, d: Dep, lo: int, h: nat, hi: int, k: Key)
    requires lo <= h <= hi && IndexOk(events, db, deps, lo, hi) && d in deps && SlotFor(entry, events, d, h)
    requires d.Covers(k) && Latest(db, k, h).Some?
    ensures exists e :: e in RowsOf(entry) && e.event.key == k
  {
    assert Covered(deps, k);
    assert Found(Lookup(events, k), h) == Latest(db, k, h);
    assert k in events;
    var e := Current(events[k], h).value;
    assert e in RowsOf(entry) && e.event.key == k;
  }

  lemma SlotExact(entry: Entry, events: Index, db: Db, deps: seq<Dep>, d: Dep, lo: int, h: nat, hi: int)
    requires lo <= h <= hi && IndexOk(events, db, deps, lo, hi) && d in deps && SlotFor(entry, events, d, h)
    ensures Exact(RowsOf(entry), db, d, h)
    ensures forall e :: e in RowsOf(entry) ==> e in Lookup(PruneCovered(events, deps, h), e.event.key)
  {
    forall k | k in events && d.Covers(k)
      ensures Found(events[k], h) == Latest(db, k, h)
    {
      assert Covered(deps, k);
      assert Lookup(events, k) == events[k];
    }
    forall e | e in RowsOf(entry)
      ensures d.Covers(e.event.key) && Latest(db, e.event.key, h) == Some(e.event)
      ensures e in Lookup(PruneCovered(events, deps, h), e.event.key)
    {
      var k :| k in events && d.Covers(k) && Current(events[k], h) == Some(e);
      assert Found(events[k], h) == Some(e.event) == Latest(db, k, h);
      assert Covered(deps, k) && e.event.key == k;
      assert Prune(events[k], h)[0] == e;
    }
    forall k | d.Covers(k) && Latest(db, k, h).Some?
      ensures exists e :: e in RowsOf(entry) && e.event.key == k
    {
      SlotComplete(entry, events, db, deps, d, lo, h, hi, k);
    }
  }

  // ---- getNextPotentialBlock ----

  /** `best` is the first height in (c, hi] with an event on a dependency, if any. */
  ghost predicate NextHit(db: Db, deps: seq<Dep>, c: int, hi: int, best: Option<nat>) {
    match best
    case None => forall d :: d in deps ==> DepQuiet(db, d, c, hi)
    case Some(b) =>
      && c < b <= hi
      && (forall d :: d in deps ==> DepQuiet(db, d, c, b - 1))
      && exists d :: d in deps && Hit(db, d, b)
  }

  /** Like `NextHit`, for single keys. */
  ghost predicate NextHitKeys(db: Db, keys: seq<Key>, c: int, hi: int, best: Option<nat>) {
    match best
    case None => forall k :: k in keys ==> Quiet(db, k, c, hi)
    case Some(b) =>
      && c < b <= hi
      && (forall k :: k in keys ==> Quiet(db, k, c, b - 1))
      && exists k :: k in keys && (k, b) in db
  }

  function Earlier(a: Option<nat>, b: Option<nat>): Option<nat> {
    if a.None? then b else if b.None? then a else if b.value < a.value then b else a
  }

  /** The first row after `c` in the list of `k`, with the key's next event in the database. */
  method NextForKey(k: Key, events: Index, c: nat, ghost db: Db, ghost hi: int) returns (next: Option<nat>)
    requires c <= hi && Faithful(Lookup(events, k), db, k, c, hi) && AllStored(Lookup(events, k), db, k, hi)
    ensures NextHitKeys(db, [k], c, hi, next)
  {
    FaithfulNext(Lookup(events, k), db, k, c, hi);
    next := None;
    if k in events {
      var i := FindAfter(events[k], c);
      if i >= 0 {
        next := Some(events[k][i].event.height);
        assert k in [k];
      }
    }
  }

  lemma MergeHits(db: Db, keys: seq<Key>, key: Key, c: int, hi: int, a: Option<nat>, b: Option<nat>)
    requires NextHitKeys(db, keys, c, hi, a) && NextHitKeys(db, [key], c, hi, b)
    ensures NextHitKeys(db, keys + [key], c, hi, Earlier(a, b))
  {
    var m, all := Earlier(a, b), keys + [key];
    assert key in [key];
    forall k | k in all
      ensures Quiet(db, k, c, if m.Some? then m.value - 1 else hi)
    {
      assert k in keys || k in [key];
    }
    if a.Some? {
      var k :| k in keys && (k, a.value) in db;
      assert k in all;
    }
    if b.Some? {
      var k :| k in [key] && (k, b.value) in db;
      assert k in all;
    }
  }

  method NextForKeys(keys: seq<Key>, events: Index, c: nat, ghost db: Db, ghost hi: int) returns (next: Option<nat>)
    requires c <= hi
    requires forall k :: k in keys ==>
        Faithful(Lookup(events, k), db, k, c, hi) && AllStored(Lookup(events, k), db, k, hi)
    ensures NextHitKeys(db, keys, c, hi, next)
  {
    next := None;
    for i := 0 to |keys|
      invariant NextHitKeys(db, keys[..i], c, hi, next)
    {
      var n := NextForKey(keys[i], events, c, db, hi);
      MergeHits(db, keys[..i], keys[i], c, hi, next, n);
      assert keys[..i + 1] == keys[..i] + [keys[i]];
      next := Earlier(next, n);
    }
    assert keys[..|keys|] == keys;
  }

  method GetNextPotentialBlock(deps: seq<Dep>, events: Index, c: nat, ghost db: Db, ghost hi: int)
      returns (next: Option<nat>)
    requires c <= hi
    requires forall k :: Covered(deps, k) ==>
        Faithful(Lookup(events, k), db, k, c, hi) && AllStored(Lookup(events, k), db, k, hi)
    ensures NextHit(db, deps, c, hi, next)
  {
    next := None;
    ghost var past: seq<Dep> := [];
    for pass := 0 to 2
      invariant forall d :: d in past <==> d in deps && ((pass > 0 && !d.prefix) || pass > 1)
      invariant NextHit(db, past, c, hi, next)
    {
      ghost var before := past;
      for i := 0 to |deps|
        invariant forall d :: d in past <==> d in before || (d in deps[..i] && (d.prefix <==> pass == 1))
        invariant NextHit(db, past, c, hi, next)
      {
        assert forall d :: d in deps[..i + 1] <==> d in deps[..i] || d == deps[i];
        if deps[i].prefix == (pass == 1) {
          var n := NextForDep(deps[i], events, c, db, hi, deps);
          next := Earlier(next, n);
          assert deps[i] in past + [deps[i]];
          assert next.Some? ==> exists d :: d in past + [deps[i]] && Hit(db, d, next.value);
          past := past + [deps[i]];
        }
      }
      assert deps[..|deps|] == deps;
    }
    assert next.Some? ==> exists d :: d in deps && Hit(db, d, next.value);
  }

  method NextForDep(d: Dep, events: Index, c: nat, ghost db: Db, ghost hi: int, ghost deps: seq<Dep>)
      returns (next: Option<nat>)
    requires c <= hi && d in deps
    requires forall k :: Covered(deps, k) ==>
        Faithful(Lookup(events, k), db, k, c, hi) && AllStored(Lookup(events, k), db, k, hi)
    ensures NextHit(db, [d], c, hi, next)
  {
    assert forall k :: d.Covers(k) ==> Covered(deps, k);
    var keys := [d.key];
    if d.prefix {
      keys := Enumerate(set k | k in events && d.key <= k);
    }
    next := NextForKeys(keys, events, c, db, hi);
    ghost var top := if next.Some? then next.value - 1 else hi;
    forall k | d.Covers(k)
      ensures Quiet(db, k, c, top)
    {
      if k !in keys {
        assert k !in events;
        FaithfulNext(Lookup(events, k), db, k, c, hi);
      }
    }
    if next.Some? {
      ghost var k :| k in keys && (k, next.value) in db;
      assert d.Covers(k) && (k, next.value).1 == next.value;
      assert Hit(db, d, next.value) && d in [d];
    }
  }
}
