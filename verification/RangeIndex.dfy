/** The in-memory event index of a range computation: per key, a list searched by "first greater, minus one". */
module RangeIndex {
  import opened Options
  import opened Events

  /** A loaded row. Each query makes new objects, so `ref` tells two loads of the same row apart. */
  datatype Fetched = Fetched(event: Event, ref: nat)

  type Index = map<Key, seq<Fetched>>

  function Lookup(events: Index, k: Key): seq<Fetched> {
    if k in events then events[k] else []
  }

  /** `findIndex(event => event.block.height > h)`. */
  function FindAfter(s: seq<Fetched>, h: int): (i: int)
    ensures -1 <= i < |s|
    ensures forall j :: 0 <= j < (if i == -1 then |s| else i) ==> s[j].event.height <= h
    ensures i >= 0 ==> s[i].event.height > h
  {
    if s == [] then -1
    else if s[0].event.height > h then 0
    else
      var r := FindAfter(s[1..], h);
      if r == -1 then -1 else r + 1
  }

  function CurrentIndex(s: seq<Fetched>, h: int): (r: Option<nat>)
    ensures r.Some? ==> r.value < |s|
  {
    var next := FindAfter(s, h);
    if next == 0 then None
    else if next > 0 then Some(next - 1)
    else if |s| > 0 then Some(|s| - 1)
    else None
  }

  function Current(s: seq<Fetched>, h: int): Option<Fetched> {
    match CurrentIndex(s, h)
    case None => None
    case Some(i) => Some(s[i])
  }

  /** The slice that forgets the rows before the current one. */
  function Prune(s: seq<Fetched>, h: int): seq<Fetched> {
    match CurrentIndex(s, h)
    case None => s
    case Some(i) => s[i..]
  }

  lemma {:induction false} FindAfterIs(s: seq<Fetched>, h: int, i: int)
    requires 0 <= i < |s| && s[i].event.height > h
    requires forall j :: 0 <= j < i ==> s[j].event.height <= h
    ensures FindAfter(s, h) == i
  {
    assert s[i].event.height > h;
  }

  lemma {:induction false} FindAfterNone(s: seq<Fetched>, h: int)
    requires forall j :: 0 <= j < |s| ==> s[j].event.height <= h
    ensures FindAfter(s, h) == -1
  {
  }

  lemma {:induction false} PrunedHead(s: seq<Fetched>, h: int)
    requires CurrentIndex(s, h).Some?
    ensures CurrentIndex(Prune(s, h), h) == Some(0)
    ensures Prune(Prune(s, h), h) == Prune(s, h)
  {
    var i, p, n := CurrentIndex(s, h).value, Prune(s, h), FindAfter(s, h);
    if n >= 0 {
      assert p[1] == s[n] && p[0] == s[n - 1];
      FindAfterIs(p, h, 1);
    } else {
      assert p == [s[|s| - 1]];
    }
    assert p[0..] == p;
  }

  /** A suffix that still starts at or below `h'` is searched alike. */
  lemma {:induction false} SuffixSearch(s: seq<Fetched>, i: nat, h': int)
    requires i < |s| && forall j :: 0 <= j <= i ==> s[j].event.height <= h'
    ensures Current(s[i..], h') == Current(s, h')
  {
    var p, n := s[i..], FindAfter(s, h');
    assert forall j :: 0 <= j < |p| ==> p[j] == s[i + j];
    if n >= 0 {
      assert i < n;
      FindAfterIs(p, h', n - i);
    } else {
      FindAfterNone(p, h');
    }
  }

  /** Pruning at `h` changes no search at or above `h`. */
  lemma {:induction false} PruneKeeps(s: seq<Fetched>, h: int, h': int)
    requires h <= h'
    ensures Current(Prune(s, h), h') == Current(s, h')
  {
    if CurrentIndex(s, h).Some? {
      SuffixSearch(s, CurrentIndex(s, h).value, h');
    }
  }

  /** The search answers like the database for every height in [lo, hi]. */
  ghost predicate Faithful(s: seq<Fetched>, db: Db, k: Key, lo: int, hi: int) {
    forall h :: lo <= h <= hi ==> Found(s, h) == Latest(db, k, h)
  }

  function Found(s: seq<Fetched>, h: int): Option<Event> {
    match Current(s, h)
    case None => None
    case Some(e) => Some(e.event)
  }

  ghost predicate Stored(e: Fetched, db: Db, k: Key, hi: int) {
    && e.event.key == k && e.event.height <= hi
    && (k, e.event.height) in db && db[(k, e.event.height)] == e.event.cell
  }

  ghost predicate AllStored(s: seq<Fetched>, db: Db, k: Key, hi: int) {
    forall e :: e in s ==> Stored(e, db, k, hi)
  }

  lemma {:induction false} PruneFaithful(s: seq<Fetched>, db: Db, k: Key, lo: int, h: int, hi: int)
    requires lo <= h && Faithful(s, db, k, lo, hi) && AllStored(s, db, k, hi)
    ensures Faithful(s, db, k, h, hi)
    ensures Faithful(Prune(s, h), db, k, h, hi) && AllStored(Prune(s, h), db, k, hi)
  {
    var p := Prune(s, h);
    assert forall e :: e in p ==> e in s;
    forall h' | h <= h' <= hi
      ensures Found(p, h') == Latest(db, k, h')
    {
      PruneKeeps(s, h, h');
      assert Found(s, h') == Latest(db, k, h');
    }
  }

  /** The search stops at the same row for both heights: nothing was stored in between. */
  lemma FaithfulQuiet(s: seq<Fetched>, db: Db, k: Key, lo: int, h: int, hi: int)
    requires lo <= h <= hi && Faithful(s, db, k, lo, hi) && FindAfter(s, lo) == FindAfter(s, h)
    ensures Quiet(db, k, lo, h)
  {
    assert Found(s, lo) == Latest(db, k, lo) && Found(s, h) == Latest(db, k, h);
    LatestSameQuiet(db, k, lo, h);
  }

  /** In a faithful list, the first row above `lo` is the key's next event in the database. */
  lemma {:induction false} FaithfulNext(s: seq<Fetched>, db: Db, k: Key, lo: int, hi: int)
    requires 0 <= lo <= hi && Faithful(s, db, k, lo, hi) && AllStored(s, db, k, hi)
    ensures FindAfter(s, lo) == -1 ==> Quiet(db, k, lo, hi)
    ensures FindAfter(s, lo) >= 0 ==>
              var j := s[FindAfter(s, lo)].event.height;
              lo < j <= hi && (k, j) in db && Quiet(db, k, lo, j - 1)
  {
    var i := FindAfter(s, lo);
    if i == -1 {
      FindAfterNone(s, hi);
      FaithfulQuiet(s, db, k, lo, hi, hi);
    } else {
      var j := s[i].event.height;
      assert s[i] in s;
      FindAfterIs(s, j - 1, i);
      FaithfulQuiet(s, db, k, lo, j - 1, hi);
    }
  }

  /** Exactly the events of `k` in (lo, hi], strictly ascending. */
  ghost predicate ExactRun(s: seq<Fetched>, db: Db, k: Key, lo: int, hi: int) {
    && AllStored(s, db, k, hi)
    && (forall e :: e in s ==> lo < e.event.height)
    && (forall i, j :: 0 <= i < j < |s| ==> s[i].event.height < s[j].event.height)
    && (forall j: nat :: lo < j <= hi && (k, j) in db ==> exists e :: e in s && e.event.height == j)
  }

  /** Copies of the row current at `c`. */
  ghost predicate CopiesOf(s: seq<Fetched>, db: Db, k: Key, c: int) {
    forall e :: e in s ==> Latest(db, k, c) == Some(e.event)
  }

  lemma RunBefore(future: seq<Fetched>, db: Db, k: Key, c: int, hi: int, h: int)
    requires ExactRun(future, db, k, c, hi) && 0 <= c <= h <= hi && (FindAfter(future, h) == 0 || future == [])
    ensures Latest(db, k, h) == Latest(db, k, c)
  {
    if future != [] {
      assert forall x :: 0 < x < |future| ==> future[0].event.height < future[x].event.height;
      assert forall e :: e in future ==> e.event.height > h;
    }
    LatestQuiet(db, k, c, h);
  }

  /** Row `m` is the last one at or below `h`. */
  lemma RunAt(future: seq<Fetched>, db: Db, k: Key, c: int, hi: int, h: int, m: nat)
    requires ExactRun(future, db, k, c, hi) && 0 <= c <= h <= hi && m < |future| && future[m].event.height <= h
    requires m + 1 < |future| ==> future[m + 1].event.height > h
    ensures Latest(db, k, h) == Some(future[m].event)
  {
    assert future[m] in future;
    assert forall x :: 0 <= x < m ==> future[x].event.height < future[m].event.height;
    assert m + 1 < |future| ==>
        forall x :: m + 1 < x < |future| ==> future[m + 1].event.height < future[x].event.height;
    assert forall e :: e in future ==> e.event.height <= future[m].event.height || e.event.height > h;
    LatestIs(db, k, h, future[m].event);
  }

  lemma {:induction false} RunSearch(future: seq<Fetched>, db: Db, k: Key, c: int, hi: int, h: int)
    requires ExactRun(future, db, k, c, hi) && 0 <= c <= h <= hi
    ensures FindAfter(future, h) == 0 || future == [] ==> Latest(db, k, h) == Latest(db, k, c)
    ensures FindAfter(future, h) > 0 ==> Latest(db, k, h) == Some(future[FindAfter(future, h) - 1].event)
    ensures FindAfter(future, h) == -1 && future != [] ==> Latest(db, k, h) == Some(future[|future| - 1].event)
  {
    var n := FindAfter(future, h);
    if n == 0 || future == [] {
      RunBefore(future, db, k, c, hi, h);
    } else {
      RunAt(future, db, k, c, hi, h, if n > 0 then n - 1 else |future| - 1);
    }
  }

  /** Found in a concatenation: the first part decides unless everything in it is at or below `h`. */
  lemma {:induction false} FoundConcat(a: seq<Fetched>, b: seq<Fetched>, h: int)
    ensures FindAfter(a, h) >= 0 ==> Found(a + b, h) == Found(a, h)
    ensures FindAfter(a, h) == -1 && b == [] ==> Found(a + b, h) == Found(a, h)
    ensures FindAfter(a, h) == -1 && FindAfter(b, h) == 0 ==> Found(a + b, h) == Found(a, h)
    ensures FindAfter(a, h) == -1 && b != [] && FindAfter(b, h) != 0 ==> Found(a + b, h) == Found(b, h)
  {
    var s := a + b;
    var n, m := FindAfter(a, h), FindAfter(b, h);
    if n >= 0 {
      FindAfterIs(s, h, n);
    } else if m >= 0 {
      FindAfterIs(s, h, |a| + m);
    } else {
      assert forall x :: 0 <= x < |s| ==> s[x] == (if x < |a| then a[x] else b[x - |a|]) && s[x].event.height <= h;
      assert FindAfter(s, h) == -1;
      if b == [] { assert s == a; }
    }
  }

  lemma CopiesFound(copies: seq<Fetched>, db: Db, k: Key, c: int, h: int)
    requires CopiesOf(copies, db, k, c) && c <= h && copies != []
    ensures FindAfter(copies, h) == -1 && Found(copies, h) == Latest(db, k, c)
  {
    assert copies[0] in copies && copies[|copies| - 1] in copies;
    assert forall x :: 0 <= x < |copies| ==> copies[x] in copies && copies[x].event.height <= h;
    FindAfterNone(copies, h);
  }

  /** A list with nothing above `h`: the copies and the later rows do not change what is found. */
  lemma ReloadTail(s: seq<Fetched>, copies: seq<Fetched>, future: seq<Fetched>, db: Db, k: Key, c: int, hi: int, h: int)
    requires 0 <= c <= h <= hi && s != [] && Faithful(s, db, k, c, hi) && AllStored(s, db, k, hi)
    requires CopiesOf(copies, db, k, c) && ExactRun(future, db, k, c, hi) && FindAfter(s, h) == -1
    ensures Found(s + copies + future, h) == Latest(db, k, h)
  {
    RunSearch(future, db, k, c, hi, h);
    FaithfulNext(s, db, k, h, hi);
    SearchedOut(future, db, k, c, h, hi);
    FoundConcat(s + copies, future, h);
    FoundConcat(s, copies, h);
    if copies != [] { CopiesFound(copies, db, k, c, h); }
  }

  lemma ReloadFound(s: seq<Fetched>, copies: seq<Fetched>, future: seq<Fetched>, db: Db, k: Key, c: int, hi: int,
      h: int)
    requires 0 <= c <= h <= hi
    requires s == [] || (Faithful(s, db, k, c, hi) && AllStored(s, db, k, hi))
    requires CopiesOf(copies, db, k, c) && ExactRun(future, db, k, c, hi)
    requires s == [] && Latest(db, k, c).Some? ==> copies != []
    ensures Found(s + copies + future, h) == Latest(db, k, h)
  {
    RunSearch(future, db, k, c, hi, h);
    FoundConcat(s + copies, future, h);
    if s == [] {
      assert s + copies == copies;
      if copies != [] { CopiesFound(copies, db, k, c, h); }
    } else if FindAfter(s, h) == -1 {
      ReloadTail(s, copies, future, db, k, c, hi, h);
    } else {
      FoundConcat(s, copies, h);
      FindAfterIs(s + copies, h, FindAfter(s, h));
    }
  }

  /**
   * Re-loading a key: copies of its current row and all its later rows are appended, unchecked, after
   * whatever the list already holds. The list may then be out of order, yet every search is still right.
   */
  lemma {:induction false} ReloadFaithful(s: seq<Fetched>, copies: seq<Fetched>, future: seq<Fetched>, db: Db, k: Key,
      c: int, hi: int)
    requires 0 <= c <= hi
    requires s == [] || (Faithful(s, db, k, c, hi) && AllStored(s, db, k, hi))
    requires CopiesOf(copies, db, k, c) && ExactRun(future, db, k, c, hi)
    requires s == [] && Latest(db, k, c).Some? ==> copies != []
    ensures Faithful(s + copies + future, db, k, c, hi)
    ensures AllStored(s + copies + future, db, k, hi)
  {
    forall h | c <= h <= hi
      ensures Found(s + copies + future, h) == Latest(db, k, h)
    {
      ReloadFound(s, copies, future, db, k, c, hi, h);
    }
  }

  lemma SearchedOut(future: seq<Fetched>, db: Db, k: Key, c: int, h: int, hi: int)
    requires ExactRun(future, db, k, c, hi) && c <= h <= hi && Quiet(db, k, h, hi)
    ensures FindAfter(future, h) == -1
  {
    assert forall e :: e in future ==> (k, e.event.height) in db && e.event.height <= h;
    assert forall x :: 0 <= x < |future| ==> future[x] in future;
  }
}
