/** Loading rows into the range index: rows used by a computation, then all later rows of new dependencies. */
module RangeLoad {
  import opened Options
  import opened Events
  import opened RangeIndex
  import opened RangeCache

  function Project(s: seq<Fetched>, k: Key): seq<Fetched> {
    if s == [] then []
    else
      var rest := Project(s[..|s| - 1], k);
      if s[|s| - 1].event.key == k then rest + [s[|s| - 1]] else rest
  }

  lemma {:induction false} ProjectConcat(a: seq<Fetched>, b: seq<Fetched>, k: Key)
    ensures Project(a + b, k) == Project(a, k) + Project(b, k)
  {
    if b == [] {
      assert a + b == a;
    } else {
      var s := a + b;
      assert s[..|s| - 1] == a + b[..|b| - 1];
      ProjectConcat(a, b[..|b| - 1], k);
    }
  }

  // ---- findAll of later rows ----

  /** `s` lists, key by key, exactly the later rows of the covered keys. */
  ghost predicate FutureOf(s: seq<Fetched>, db: Db, deps: seq<Dep>, lo: int, hi: int) {
    forall k :: FutureOfKey(Project(s, k), db, deps, k, lo, hi)
  }

  ghost predicate FutureOfKey(s: seq<Fetched>, db: Db, deps: seq<Dep>, k: Key, lo: int, hi: int) {
    if Covered(deps, k) then ExactRun(s, db, k, lo, hi) else s == []
  }

  /** `rows` holds one row for each of `keys` at height `h`, and nothing else. */
  ghost predicate RowsAt(rows: seq<Fetched>, db: Db, keys: seq<Key>, h: nat) {
    forall k :: RowAt(Project(rows, k), db, keys, k, h)
  }

  ghost predicate RowAt(s: seq<Fetched>, db: Db, keys: seq<Key>, k: Key, h: nat) {
    if k in keys then (k, h) in db && |s| == 1 && s[0].event == Event(k, h, db[(k, h)]) else s == []
  }

  /** The rows of the given keys at one height; each becomes a new object. */
  method LoadAt(db: Db, keys: seq<Key>, h: nat, ref: nat) returns (rows: seq<Fetched>, ref': nat)
    requires forall i, j :: 0 <= i < j < |keys| ==> keys[i] != keys[j]
    requires forall k :: k in keys ==> (k, h) in db
    ensures RowsAt(rows, db, keys, h)
  {
    rows, ref' := [], ref;
    for i := 0 to |keys|
      invariant RowsAt(rows, db, keys[..i], h)
    {
      assert keys[i] in keys && keys[i] !in keys[..i];
      var row := Fetched(Event(keys[i], h, db[(keys[i], h)]), ref');
      assert keys[..i + 1] == keys[..i] + [keys[i]];
      forall k
        ensures RowAt(Project(rows + [row], k), db, keys[..i + 1], k, h)
      {
        assert RowAt(Project(rows, k), db, keys[..i], k, h);
        assert (rows + [row])[..|rows|] == rows;
      }
      rows, ref' := rows + [row], ref' + 1;
    }
    assert keys[..|keys|] == keys;
  }

  lemma ExtendRun(s: seq<Fetched>, rows: seq<Fetched>, db: Db, k: Key, lo: int, h: nat)
    requires ExactRun(s, db, k, lo, h - 1) && lo < h
    requires (k, h) in db ==> |rows| == 1 && rows[0].event == Event(k, h, db[(k, h)])
    requires (k, h) !in db ==> rows == []
    ensures ExactRun(s + rows, db, k, lo, h)
  {
    var t := s + rows;
    assert forall e :: e in t ==> e in s || e in rows;
    forall x | 0 <= x < |s| ensures t[x].event.height < h { assert t[x] == s[x] && s[x] in s; }
    assert forall x :: |s| <= x < |t| ==> t[x] == rows[0] && t[x].event.height == h;
    forall j: nat | lo < j <= h && (k, j) in db
      ensures exists e :: e in t && e.event.height == j
    {
      if j == h {
        assert rows[0] in t;
      } else {
        var e :| e in s && e.event.height == j;
        assert e in t;
      }
    }
  }

  lemma ExtendFuture(s: seq<Fetched>, rows: seq<Fetched>, db: Db, deps: seq<Dep>, keys: seq<Key>, lo: int, h: nat)
    requires FutureOf(s, db, deps, lo, h - 1) && RowsAt(rows, db, keys, h) && lo < h
    requires forall k :: k in keys <==> (k, h) in db && Covered(deps, k)
    ensures FutureOf(s + rows, db, deps, lo, h)
  {
    forall k
      ensures FutureOfKey(Project(s + rows, k), db, deps, k, lo, h)
    {
      ProjectConcat(s, rows, k);
      assert FutureOfKey(Project(s, k), db, deps, k, lo, h - 1);
      assert RowAt(Project(rows, k), db, keys, k, h);
      if Covered(deps, k) {
        ExtendRun(Project(s, k), Project(rows, k), db, k, lo, h);
      }
    }
  }

  function KeysAt(db: Db, deps: seq<Dep>, h: nat): (r: set<Key>)
    ensures forall k :: k in r <==> (k, h) in db && Covered(deps, k)
  {
    var r := set kh | kh in db && kh.1 == h && Covered(deps, kh.0) :: kh.0;
    assert forall k :: (k, h) in db && Covered(deps, k) ==> (k, h).0 in r;
    r
  }

  /** `findAll` of the rows of covered keys in (lo, hi], ascending by height. */
  method FetchFuture(db: Db, deps: seq<Dep>, lo: nat, hi: nat, ref: nat) returns (s: seq<Fetched>, ref': nat)
    requires lo <= hi
    ensures FutureOf(s, db, deps, lo, hi)
  {
    s, ref' := [], ref;
    for h := lo + 1 to hi + 1
      invariant FutureOf(s, db, deps, lo, h - 1)
    {
      var keys := Enumerate(KeysAt(db, deps, h));
      var rows;
      rows, ref' := LoadAt(db, keys, h, ref');
      ExtendFuture(s, rows, db, deps, keys, lo, h);
      s := s + rows;
    }
  }

  // ---- pushing ----

  function Push(events: Index, e: Fetched): Index {
    events[e.event.key := Lookup(events, e.event.key) + [e]]
  }

  function Pushed(events: Index, s: seq<Fetched>): Index {
    if s == [] then events else Push(Pushed(events, s[..|s| - 1]), s[|s| - 1])
  }

  lemma {:induction false} PushedLookup(events: Index, s: seq<Fetched>, k: Key)
    ensures Lookup(Pushed(events, s), k) == Lookup(events, k) + Project(s, k)
    ensures k in Pushed(events, s) <==> k in events || Project(s, k) != []
  {
    if s != [] {
      PushedLookup(events, s[..|s| - 1], k);
    }
  }

  method PushAll(events: Index, s: seq<Fetched>) returns (events': Index)
    ensures events' == Pushed(events, s)
  {
    events' := events;
    for i := 0 to |s|
      invariant events' == Pushed(events, s[..i])
    {
      assert s[..i + 1][..i] == s[..i] && s[..i + 1][i] == s[i];
      assert [] + [s[i]] == [s[i]];
      if s[i].event.key in events' {
        events' := events'[s[i].event.key := events'[s[i].event.key] + [s[i]]];
      } else {
        events' := events'[s[i].event.key := [s[i]]];
      }
    }
    assert s[..|s|] == s;
  }

  predicate Ascending(s: seq<Fetched>) {
    forall i, j :: 0 <= i < j < |s| ==> s[i].event.height <= s[j].event.height
  }

  function Inserted(s: seq<Fetched>, at: nat, x: Fetched): seq<Fetched>
    requires at <= |s|
  {
    s[..at] + [x] + s[at..]
  }

  lemma InsertedAscending(s: seq<Fetched>, at: nat, x: Fetched)
    requires Ascending(s) && at <= |s|
    requires forall i :: 0 <= i < at ==> s[i].event.height <= x.event.height
    requires at < |s| ==> x.event.height <= s[at].event.height
    ensures Ascending(Inserted(s, at, x))
  {
    var t := Inserted(s, at, x);
    forall i, j | 0 <= i < j < |t|
      ensures t[i].event.height <= t[j].event.height
    {
      assert t[i] == if i < at then s[i] else if i == at then x else s[i - 1];
      assert t[j] == if j < at then s[j] else if j == at then x else s[j - 1];
      if i < at && j > at { assert s[i].event.height <= s[j - 1].event.height; }
      if i == at && j > at + 1 { assert s[at].event.height <= s[j - 1].event.height; }
    }
  }

  lemma InsertedContents(s: seq<Fetched>, at: nat, x: Fetched)
    requires at <= |s|
    ensures multiset(Inserted(s, at, x)) == multiset(s) + multiset{x}
  {
    assert s == s[..at] + s[at..];
  }

  /** Insert a row behind all rows at or below its height. */
  method InsertAscending(s: seq<Fetched>, x: Fetched) returns (r: seq<Fetched>)
    requires Ascending(s)
    ensures Ascending(r) && multiset(r) == multiset(s) + multiset{x}
  {
    var n := FindAfter(s, x.event.height);
    var at := if n == -1 then |s| else n;
    InsertedAscending(s, at, x);
    InsertedContents(s, at, x);
    r := Inserted(s, at, x);
  }

  /** Insertion sort by height. */
  method SortAscending(s: seq<Fetched>) returns (r: seq<Fetched>)
    ensures multiset(r) == multiset(s)
    ensures Ascending(r)
  {
    r := [];
    for i := 0 to |s|
      invariant multiset(r) == multiset(s[..i])
      invariant Ascending(r)
    {
      assert s[..i + 1] == s[..i] + [s[i]];
      r := InsertAscending(r, s[i]);
    }
    assert s[..|s|] == s;
  }

  function PushNew(events: Index, e: Fetched): Index {
    if e in Lookup(events, e.event.key) then events else Push(events, e)
  }

  function PushedNew(events: Index, s: seq<Fetched>): Index {
    if s == [] then events else PushNew(PushedNew(events, s[..|s| - 1]), s[|s| - 1])
  }

  /** The list of `k` grew from `before` to `after` by rows of `used` that were not in it. */
  ghost predicate GrownBy(before: seq<Fetched>, after: seq<Fetched>, used: seq<Fetched>, k: Key) {
    && before <= after
    && (forall e :: e in after[|before|..] ==> e in used && e.event.key == k && e !in before)
    && (forall e :: e in used && e.event.key == k ==> e in after)
  }

  /** One more row: the list of its key grows by it unless it has the object already. */
  lemma PushNewGrows(before: seq<Fetched>, events: Index, t: seq<Fetched>, last: Fetched, k: Key)
    requires GrownBy(before, Lookup(events, k), t, k)
    ensures GrownBy(before, Lookup(PushNew(events, last), k), t + [last], k)
  {
    var b, c := Lookup(events, k), Lookup(PushNew(events, last), k);
    if c != b {
      assert c == b + [last];
      assert c[|before|..] == b[|before|..] + [last];
    }
  }

  lemma {:induction false} PushedNewGrown(events: Index, s: seq<Fetched>, k: Key)
    ensures GrownBy(Lookup(events, k), Lookup(PushedNew(events, s), k), s, k)
    ensures k in PushedNew(events, s) && k !in events ==> exists e :: e in s && e.event.key == k
  {
    if s != [] {
      var t, last := s[..|s| - 1], s[|s| - 1];
      PushedNewGrown(events, t, k);
      assert s == t + [last];
      PushNewGrows(Lookup(events, k), PushedNew(events, t), t, last, k);
      assert last in s;
      if k in PushedNew(events, t) && k !in events {
        var e :| e in t && e.event.key == k;
        assert e in s;
      }
    }
  }

  /** Push the rows used, ascending, skipping objects already listed. */
  method PushUsed(events: Index, used: seq<Fetched>) returns (events': Index, ghost sorted: seq<Fetched>)
    ensures multiset(sorted) == multiset(used)
    ensures events' == PushedNew(events, sorted)
  {
    var s := SortAscending(used);
    sorted := s;
    events' := events;
    for i := 0 to |s|
      invariant events' == PushedNew(events, s[..i])
    {
      assert s[..i + 1][..i] == s[..i] && s[..i + 1][i] == s[i];
      var e := s[i];
      assert [] + [e] == [e];
      if e.event.key in events' {
        if e !in events'[e.event.key] {
          events' := events'[e.event.key := events'[e.event.key] + [e]];
        }
      } else {
        events' := events'[e.event.key := [e]];
      }
    }
    assert s[..|s|] == s;
  }

  method NewDeps(deps: seq<Dep>, known: seq<Dep>) returns (unseen: seq<Dep>)
    ensures forall d :: d in unseen <==> d in deps && d !in known
  {
    unseen := [];
    for i := 0 to |deps|
      invariant forall d :: d in unseen <==> d in deps[..i] && d !in known
    {
      assert deps[..i + 1] == deps[..i] + [deps[i]];
      if deps[i] !in known { unseen := unseen + [deps[i]]; }
    }
    assert deps[..|deps|] == deps;
  }

  // ---- one iteration's loading ----

  /** What a computation at `c` reports about the rows it used. */
  ghost predicate UsedOk(used: seq<Fetched>, db: Db, events: Index, known: seq<Dep>, deps: seq<Dep>, c: int) {
    && (forall e :: e in used ==> Covered(deps, e.event.key) && Latest(db, e.event.key, c) == Some(e.event))
    && (forall k :: Covered(deps, k) && Latest(db, k, c).Some? ==> exists e :: e in used && e.event.key == k)
    && (forall e :: e in used ==>
          e in Lookup(events, e.event.key) || exists d :: d in deps && d !in known && d.Covers(e.event.key))
  }

  /** A key of a new dependency: copies of its current row, then all later rows. */
  lemma ReloadKey(db: Db, events: Index, after: seq<Fetched>, future: seq<Fetched>, known: seq<Dep>, deps: seq<Dep>,
      used: seq<Fetched>, k: Key, c: nat, hi: nat)
    requires c <= hi && IndexOk(events, db, known, c, hi) && UsedOk(used, db, events, known, deps, c)
    requires Covered(deps, k) && ExactRun(future, db, k, c, hi)
    requires GrownBy(Lookup(events, k), after, used, k)
    ensures Faithful(after + future, db, k, c, hi) && AllStored(after + future, db, k, hi)
  {
    var s, copies := Lookup(events, k), after[|Lookup(events, k)|..];
    assert after == s + copies;
    if s == [] && Latest(db, k, c).Some? {
      var e :| e in used && e.event.key == k;
      assert e in copies;
    }
    if s != [] { assert k in events && Covered(known, k); }
    ReloadFaithful(s, copies, future, db, k, c, hi);
  }

  /** A key of old dependencies only: its list did not grow. */
  lemma UntouchedKey(db: Db, events: Index, after: seq<Fetched>, known: seq<Dep>, deps: seq<Dep>, unseen: seq<Dep>,
      used: seq<Fetched>, k: Key, c: nat)
    requires UsedOk(used, db, events, known, deps, c)
    requires forall d :: d in unseen <==> d in deps && d !in known
    requires !Covered(unseen, k) && GrownBy(Lookup(events, k), after, used, k)
    ensures after == Lookup(events, k)
  {
    var s, tail := Lookup(events, k), after[|Lookup(events, k)|..];
    assert after == s + tail;
    assert forall e :: e in used && e.event.key == k ==> e in s by {
      forall e | e in used && e.event.key == k
        ensures e in s
      {
        assert forall d :: d in deps && d !in known && d.Covers(k) ==> d in unseen;
      }
    }
    assert forall e :: e !in tail;
    assert forall e :: e in multiset(tail) ==> e in tail;
    assert multiset(tail) == multiset{} && |multiset(tail)| == |tail|;
  }

  /**
   * Rows used either are objects of the index already, or were read through a dependency not seen before;
   * then every later row of that dependency is loaded as well. The index stays right for all dependencies.
   */
  method LoadEvents(db: Db, events: Index, known: seq<Dep>, deps: seq<Dep>, used: seq<Fetched>, c: nat, hi: nat,
      ref: nat)
    returns (events': Index, known': seq<Dep>, ref': nat)
    requires c <= hi && IndexOk(events, db, known, c, hi)
    requires UsedOk(used, db, events, known, deps, c)
    ensures forall d :: d in known' <==> d in known || d in deps
    ensures IndexOk(events', db, known', c, hi)
  {
    ghost var sorted;
    events', sorted := PushUsed(events, used);
    UsedPermuted(used, sorted, db, events, known, deps, c);
    var unseen := NewDeps(deps, known);
    known', ref' := known + unseen, ref;
    var future := [];
    if |unseen| > 0 {
      future, ref' := FetchFuture(db, unseen, c, hi, ref);
      events' := PushAll(events', future);
    }
    assert FutureOf(future, db, unseen, c, hi);
    LoadedOk(db, events, sorted, future, known, deps, unseen, c, hi);
  }

  lemma UsedPermuted(used: seq<Fetched>, sorted: seq<Fetched>, db: Db, events: Index, known: seq<Dep>, deps: seq<Dep>,
      c: int)
    requires UsedOk(used, db, events, known, deps, c) && multiset(sorted) == multiset(used)
    ensures UsedOk(sorted, db, events, known, deps, c)
  {
    assert forall e :: e in sorted <==> e in multiset(sorted);
    assert forall e :: e in used <==> e in multiset(used);
    forall k | Covered(deps, k) && Latest(db, k, c).Some?
      ensures exists e :: e in sorted && e.event.key == k
    {
      var e :| e in used && e.event.key == k;
      assert e in sorted;
    }
  }

  lemma LoadedKeyOk(db: Db, events: Index, used: seq<Fetched>, future: seq<Fetched>, known: seq<Dep>, deps: seq<Dep>,
      unseen: seq<Dep>, c: nat, hi: nat, k: Key)
    requires c <= hi && IndexOk(events, db, known, c, hi)
    requires UsedOk(used, db, events, known, deps, c)
    requires forall d :: d in unseen <==> d in deps && d !in known
    requires FutureOf(future, db, unseen, c, hi)
    requires Covered(known, k) || Covered(unseen, k)
    ensures var s := Lookup(Pushed(PushedNew(events, used), future), k);
            Faithful(s, db, k, c, hi) && AllStored(s, db, k, hi)
  {
    var pushed := PushedNew(events, used);
    PushedNewGrown(events, used, k);
    PushedLookup(pushed, future, k);
    assert FutureOfKey(Project(future, k), db, unseen, k, c, hi);
    if Covered(unseen, k) {
      assert Covered(deps, k);
      ReloadKey(db, events, Lookup(pushed, k), Project(future, k), known, deps, used, k, c, hi);
    } else {
      UntouchedKey(db, events, Lookup(pushed, k), known, deps, unseen, used, k, c);
      assert Lookup(pushed, k) + [] == Lookup(pushed, k);
    }
  }

  lemma LoadedOk(db: Db, events: Index, used: seq<Fetched>, future: seq<Fetched>, known: seq<Dep>, deps: seq<Dep>,
      unseen: seq<Dep>, c: nat, hi: nat)
    requires c <= hi && IndexOk(events, db, known, c, hi)
    requires UsedOk(used, db, events, known, deps, c)
    requires forall d :: d in unseen <==> d in deps && d !in known
    requires FutureOf(future, db, unseen, c, hi)
    ensures IndexOk(Pushed(PushedNew(events, used), future), db, known + unseen, c, hi)
  {
    var pushed := PushedNew(events, used);
    forall k
      ensures Covered(known + unseen, k) <==> Covered(known, k) || Covered(unseen, k)
    {
      assert forall d :: d in known + unseen <==> d in known || d in unseen;
    }
    forall k | Covered(known + unseen, k)
      ensures var s := Lookup(Pushed(pushed, future), k);
              Faithful(s, db, k, c, hi) && AllStored(s, db, k, hi)
    {
      LoadedKeyOk(db, events, used, future, known, deps, unseen, c, hi, k);
    }
    forall k | k in Pushed(pushed, future)
      ensures Covered(known + unseen, k)
    {
      PushedNewGrown(events, used, k);
      PushedLookup(pushed, future, k);
      assert FutureOfKey(Project(future, k), db, unseen, k, c, hi);
      if k in pushed && k !in events {
        assert Covered(deps, k);
        var d :| d in deps && d.Covers(k);
        assert d in known || d in unseen;
      }
    }
  }
}
