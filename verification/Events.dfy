/** The append-only event table: at most one cell per (dependent key, block height). */
module Events {
  import opened Options

  type Key = string

  /** A stored row: JSON text and the deletion flag. */
  datatype Cell = Cell(text: string, deleted: bool)

  datatype Event = Event(key: Key, height: nat, cell: Cell)

  type Db = map<(Key, nat), Cell>

  /** A recorded dependency: an exact key, or a prefix of keys. */
  datatype Dep = Dep(key: Key, prefix: bool) {
    predicate Covers(k: Key) {
      if prefix then key <= k else key == k
    }
  }

  /** No event is stored for `k` at a height in (lo, hi]. */
  ghost predicate Quiet(db: Db, k: Key, lo: int, hi: int) {
    forall j: nat :: lo < j <= hi ==> (k, j) !in db
  }

  /** The most recent event for `k` at or below `h`: what `findOne ... ORDER BY blockHeight DESC` returns. */
  function Latest(db: Db, k: Key, h: int): (r: Option<Event>)
    ensures r.Some? ==>
              && r.value.key == k && r.value.height <= h
              && (k, r.value.height) in db && db[(k, r.value.height)] == r.value.cell
              && Quiet(db, k, r.value.height, h)
    ensures r.None? ==> Quiet(db, k, -1, h)
    decreases if h < 0 then 0 else h + 1
  {
    if h < 0 then None
    else if (k, h) in db then Some(Event(k, h, db[(k, h)]))
    else Latest(db, k, h - 1)
  }

  /** The contract of `Latest` determines it. */
  lemma LatestIs(db: Db, k: Key, h: int, e: Event)
    requires e.key == k && e.height <= h && (k, e.height) in db && db[(k, e.height)] == e.cell
    requires Quiet(db, k, e.height, h)
    ensures Latest(db, k, h) == Some(e)
  {
    var r := Latest(db, k, h);
    assert (k, e.height) in db;
  }

  lemma LatestQuiet(db: Db, k: Key, lo: int, hi: int)
    requires lo <= hi && Quiet(db, k, lo, hi)
    ensures Latest(db, k, lo) == Latest(db, k, hi)
  {
    match Latest(db, k, lo)
    case Some(e) => LatestIs(db, k, hi, e);
    case None =>
  }

  /** If the most recent event is the same at both heights, nothing was stored in between. */
  lemma LatestSameQuiet(db: Db, k: Key, lo: int, hi: int)
    requires lo <= hi && Latest(db, k, lo) == Latest(db, k, hi)
    ensures Quiet(db, k, lo, hi)
  {
  }

  /** Two tables agreeing on `k` up to `h` have the same most recent event. */
  lemma LatestLocal(db1: Db, db2: Db, k: Key, h: int)
    requires forall j: nat :: j <= h ==> ((k, j) in db1 <==> (k, j) in db2)
    requires forall j: nat :: j <= h && (k, j) in db1 ==> db1[(k, j)] == db2[(k, j)]
    ensures Latest(db1, k, h) == Latest(db2, k, h)
  {
    var r1 := Latest(db1, k, h);
    if r1.Some? {
      assert (k, r1.value.height) in db2;
      LatestIs(db2, k, h, r1.value);
    }
  }

  /** The keys covered by `d` that have some event at or below `h`. */
  function Touched(db: Db, d: Dep, h: int): (r: set<Key>)
    ensures forall k :: k in r <==> d.Covers(k) && Latest(db, k, h).Some?
  {
    var r := set kh | kh in db && d.Covers(kh.0) && kh.1 <= h :: kh.0;
    assert forall k :: k in r ==> d.Covers(k) && Latest(db, k, h).Some?;
    assert forall k :: d.Covers(k) && Latest(db, k, h).Some? ==> (k, Latest(db, k, h).value.height) in db;
    r
  }

  /** Some covered key has an event exactly at `h`. */
  predicate Hit(db: Db, d: Dep, h: nat) {
    exists kh :: kh in db && kh.1 == h && d.Covers(kh.0)
  }

  /** The greatest height of a covered event at or below `h`, or -1. */
  function Newest(db: Db, d: Dep, h: int): (r: int)
    ensures -1 <= r && (r == -1 || r <= h)
    ensures r >= 0 ==> Hit(db, d, r)
    ensures forall j: nat :: r < j <= h ==> !Hit(db, d, j)
    decreases if h < 0 then 0 else h + 1
  {
    if h < 0 then -1
    else if Hit(db, d, h) then h
    else Newest(db, d, h - 1)
  }

  /** No event is stored for any key covered by `d` at a height in (lo, hi]. */
  ghost predicate DepQuiet(db: Db, d: Dep, lo: int, hi: int) {
    forall k :: d.Covers(k) ==> Quiet(db, k, lo, hi)
  }

  lemma NewestQuiet(db: Db, d: Dep, h: int)
    ensures DepQuiet(db, d, Newest(db, d, h), h)
  {
    forall k, j: nat | d.Covers(k) && Newest(db, d, h) < j <= h
      ensures (k, j) !in db
    {
      if (k, j) in db {
        assert (k, j).1 == j && d.Covers((k, j).0);
        assert Hit(db, d, j);
      }
    }
  }
}
