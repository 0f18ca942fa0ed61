/** `compute` and `computeRange`, proved against one `Compute` per height. */
module ComputeRange {
  import opened Options
  import opened Events
  import opened Formulas
  import opened RangeIndex
  import opened RangeCache
  import opened RangeLoad

  function DepFor(key: Key): Dep {
    Dep(key, key != [] && key[|key| - 1] == ',')
  }

  /** Every slot holds exactly what the database returns at `h`. */
  ghost predicate CacheOk(cache: Cache, db: Db, h: int) {
    forall key :: key in cache ==> Exact(RowsOf(cache[key]), db, DepFor(key), h)
  }

  // ---- one read ----

  function MapOf(rows: seq<Fetched>): map<Key, string> {
    if rows == [] then map[]
    else
      var m, e := MapOf(rows[..|rows| - 1]), rows[|rows| - 1].event;
      if e.cell.deleted then m else m[e.key := e.cell.text]
  }

  /** What the formula receives for the rows of a read. */
  function AnswerFrom(d: Dep, rows: seq<Fetched>): Answer {
    if rows == [] then Nothing
    else if d.prefix then Entries(MapOf(rows))
    else if rows[0].event.cell.deleted then Nothing
    else Item(rows[0].event)
  }

  lemma {:induction false} MapOfIs(rows: seq<Fetched>, db: Db, h: int)
    requires forall e :: e in rows ==> Latest(db, e.event.key, h) == Some(e.event)
    ensures forall k :: k in MapOf(rows) <==> exists e :: e in rows && e.event.key == k && !e.event.cell.deleted
    ensures forall k :: k in MapOf(rows) ==>
        Latest(db, k, h).Some? && MapOf(rows)[k] == Latest(db, k, h).value.cell.text
  {
    if rows != [] {
      var init, last := rows[..|rows| - 1], rows[|rows| - 1];
      assert rows == init + [last] && last in rows;
      MapOfIs(init, db, h);
      forall k
        ensures k in MapOf(rows) <==> exists e :: e in rows && e.event.key == k && !e.event.cell.deleted
      {
        if k in MapOf(init) {
          var e :| e in init && e.event.key == k && !e.event.cell.deleted;
          assert e in rows;
        }
      }
    }
  }

  lemma AnswerIsAsk(d: Dep, rows: seq<Fetched>, db: Db, h: int)
    requires Exact(rows, db, d, h)
    ensures AnswerFrom(d, rows) == Ask(db, d, h)
  {
    if rows != [] { assert rows[0] in rows; }
    if d.prefix {
      MapOfIs(rows, db, h);
      var keys := Touched(db, d, h);
      assert keys == {} <==> rows == [] by {
        if rows != [] {
          assert rows[0].event.key in keys;
        }
      }
      var m := map k | k in keys && !Latest(db, k, h).value.cell.deleted :: Latest(db, k, h).value.cell.text;
      forall k
        ensures k in MapOf(rows) <==> k in m
      {
        if k in m {
          var e :| e in rows && e.event.key == k;
          assert !e.event.cell.deleted;
        }
      }
      assert MapOf(rows) == m;
    } else {
      assert d.Covers(d.key);
    }
  }

  /** The greatest height among rows, or -1: what `onFetch` compares. */
  function MaxHeight(rows: seq<Fetched>): (r: int)
    ensures -1 <= r
    ensures forall i :: 0 <= i < |rows| ==> rows[i].event.height <= r
    ensures r == -1 || exists i :: 0 <= i < |rows| && rows[i].event.height == r
  {
    if rows == [] then -1
    else
      var m, last := MaxHeight(rows[..|rows| - 1]), rows[|rows| - 1].event.height;
      if last > m then last else m
  }

  lemma MaxHeightIsNewest(d: Dep, rows: seq<Fetched>, db: Db, h: int)
    requires Exact(rows, db, d, h)
    ensures MaxHeight(rows) == Newest(db, d, h)
  {
    var m, n := MaxHeight(rows), Newest(db, d, h);
    if m >= 0 {
      var i :| 0 <= i < |rows| && rows[i].event.height == m;
      assert rows[i] in rows;
      var k := rows[i].event.key;
      assert (k, m as nat) in db && d.Covers((k, m as nat).0) && (k, m as nat).1 == m;
      assert Hit(db, d, m);
      assert m <= n;
    }
    if n >= 0 {
      var kh :| kh in db && kh.1 == n && d.Covers(kh.0);
      var k := kh.0;
      NewestQuiet(db, d, h);
      assert kh == (k, n as nat);
      LatestIs(db, k, h, Event(k, n, db[kh]));
      var e :| e in rows && e.event.key == k;
      var i :| 0 <= i < |rows| && rows[i] == e;
      assert rows[i].event.height == n;
      assert n <= m;
    }
  }

  /** `findOne` / `findAll` of the rows of a read at `h`; each row becomes a new object. */
  method Fetch(db: Db, d: Dep, h: nat, ref: nat) returns (rows: seq<Fetched>, ref': nat)
    ensures Exact(rows, db, d, h)
  {
    rows, ref' := [], ref;
    if d.prefix {
      var keys := Enumerate(Touched(db, d, h));
      assert forall j :: 0 <= j < |keys| ==> keys[j] in keys;
      for i := 0 to |keys|
        invariant forall e :: e in rows ==> d.Covers(e.event.key) && Latest(db, e.event.key, h) == Some(e.event)
        invariant forall j :: 0 <= j < i ==> exists e :: e in rows && e.event.key == keys[j]
      {
        ghost var before := rows;
        var row := Fetched(Latest(db, keys[i], h).value, ref');
        rows, ref' := rows + [row], ref' + 1;
        assert row in rows && forall e :: e in before ==> e in rows;
      }
      forall k | d.Covers(k) && Latest(db, k, h).Some?
        ensures exists e :: e in rows && e.event.key == k
      {
        assert k in keys;
      }
    } else {
      match Latest(db, d.key, h)
      case Some(e) => rows, ref' := [Fetched(e, ref)], ref + 1;
      case None =>
    }
  }

  // ---- one computation ----

  ghost predicate InCache(cache: Cache, e: Fetched) {
    exists key :: key in cache && e in RowsOf(cache[key])
  }

  /** A row came from the given cache, or was fetched through a dependency that cache did not hold. */
  ghost predicate Origin(e: Fetched, cache: Cache, deps: seq<Dep>) {
    InCache(cache, e) || exists d :: d in deps && d.key !in cache && d.Covers(e.event.key)
  }

  /** What is known of the rows handed to `onFetch` so far. */
  ghost predicate UsedSoFar(used: seq<Fetched>, db: Db, cache: Cache, deps: seq<Dep>, h: int) {
    && (forall e :: e in used ==> Covered(deps, e.event.key) && Latest(db, e.event.key, h) == Some(e.event))
    && (forall e :: e in used ==> Origin(e, cache, deps))
    && (forall k :: Covered(deps, k) && Latest(db, k, h).Some? ==> exists e :: e in used && e.event.key == k)
  }

  ghost predicate RowsFrom(cache: Cache, cache0: Cache, deps: seq<Dep>) {
    forall e :: InCache(cache, e) ==> Origin(e, cache0, deps)
  }

  lemma OriginMore(e: Fetched, cache: Cache, deps: seq<Dep>, d: Dep)
    requires Origin(e, cache, deps)
    ensures Origin(e, cache, deps + [d])
  {
    if !InCache(cache, e) {
      var x :| x in deps && x.key !in cache && x.Covers(e.event.key);
      assert x in deps + [d];
    }
  }

  lemma UsedMore(used: seq<Fetched>, rows: seq<Fetched>, db: Db, cache: Cache, deps: seq<Dep>, d: Dep, h: int)
    requires UsedSoFar(used, db, cache, deps, h) && Exact(rows, db, d, h)
    requires forall e :: e in rows ==> Origin(e, cache, deps + [d])
    ensures UsedSoFar(used + rows, db, cache, deps + [d], h)
  {
    var deps' := deps + [d];
    assert d in deps';
    assert forall x :: x in deps' <==> x in deps || x == d;
    forall e | e in used + rows
      ensures Covered(deps', e.event.key) && Latest(db, e.event.key, h) == Some(e.event) && Origin(e, cache, deps')
    {
      if e in used {
        var x :| x in deps && x.Covers(e.event.key);
        assert x in deps';
        OriginMore(e, cache, deps, d);
      } else {
        assert e in rows;
      }
    }
    forall k | Covered(deps', k) && Latest(db, k, h).Some?
      ensures exists e :: e in used + rows && e.event.key == k
    {
      if d.Covers(k) {
        var e :| e in rows && e.event.key == k;
        assert e in used + rows;
      } else {
        assert Covered(deps, k);
        var e :| e in used && e.event.key == k;
        assert e in used + rows;
      }
    }
  }

  lemma {:induction false} NewestOfAllSnoc(db: Db, deps: seq<Dep>, d: Dep, h: int)
    ensures NewestOfAll(db, deps + [d], h) ==
            if Newest(db, d, h) > NewestOfAll(db, deps, h) then Newest(db, d, h) else NewestOfAll(db, deps, h)
  {
    assert (deps + [d])[..|deps|] == deps;
  }

  /** One `get` or `getMap`: through the cache if the slot was looked up, else from the database. */
  method ReadThrough(db: Db, d: Dep, h: nat, cache: Cache, ref: nat, ghost cache0: Cache, ghost deps: seq<Dep>)
    returns (rows: seq<Fetched>, cache': Cache, ref': nat)
    requires CacheOk(cache, db, h) && Plain(d) && cache0.Keys <= cache.Keys && RowsFrom(cache, cache0, deps)
    ensures Exact(rows, db, d, h)
    ensures CacheOk(cache', db, h) && cache0.Keys <= cache'.Keys
    ensures RowsFrom(cache', cache0, deps + [d])
    ensures forall e :: e in rows ==> Origin(e, cache0, deps + [d])
  {
    cache', ref' := cache, ref;
    assert DepFor(d.key) == d;
    assert d in deps + [d];
    if d.key in cache {
      rows := RowsOf(cache[d.key]);
      assert forall e :: e in rows ==> InCache(cache, e);
      if !d.prefix && rows != [] {
        assert forall i :: 0 <= i < |rows| ==> rows[i] in rows && rows[i].event.key == d.key;
        rows := rows[..1];
        assert rows[0] in rows;
      }
      forall e | InCache(cache, e)
        ensures Origin(e, cache0, deps + [d])
      {
        OriginMore(e, cache0, deps, d);
      }
    } else {
      rows, ref' := Fetch(db, d, h, ref);
      cache' := cache[d.key := if rows == [] then Missing else Rows(rows)];
      assert RowsOf(cache'[d.key]) == rows;
      forall e | InCache(cache', e)
        ensures Origin(e, cache0, deps + [d])
      {
        var key :| key in cache' && e in RowsOf(cache'[key]);
        if key != d.key {
          assert InCache(cache, e);
          OriginMore(e, cache0, deps, d);
        }
      }
      assert forall e :: e in rows ==> InCache(cache', e);
    }
  }

  /** The answer handed to the formula, and the height handed to `onFetch`. */
  method Answered(d: Dep, rows: seq<Fetched>, ghost db: Db, ghost h: nat) returns (answer: Answer, newest: int)
    requires Exact(rows, db, d, h)
    ensures answer == Ask(db, d, h) && newest == Newest(db, d, h)
  {
    AnswerIsAsk(d, rows, db, h);
    MaxHeightIsNewest(d, rows, db, h);
    answer, newest := AnswerFrom(d, rows), MaxHeight(rows);
  }

  ghost predicate AllPlain(deps: seq<Dep>) {
    forall d :: d in deps ==> Plain(d)
  }

  /** What a run has accumulated: the reads with their answers, the rows used, the newest block, the cache. */
  datatype State = State(
    deps: seq<Dep>, answers: seq<Answer>, used: seq<Fetched>, block: Option<nat>, slots: Cache, ref: nat)

  ghost predicate StateOk(st: State, f: Formula, db: Db, h: nat, cache: Cache, i: nat) {
    && RunFor(f, db, h, i) == Run(st.deps, st.answers)
    && AllPlain(st.deps) && Height(st.block) == NewestOfAll(db, st.deps, h)
    && CacheOk(st.slots, db, h) && cache.Keys <= st.slots.Keys && RowsFrom(st.slots, cache, st.deps)
    && UsedSoFar(st.used, db, cache, st.deps, h)
  }

  method OneRead(f: Formula, db: Db, h: nat, d: Dep, st: State, ghost cache: Cache, ghost i: nat) returns (st': State)
    requires StateOk(st, f, db, h, cache, i) && f.next(st.answers) == Read(d) && Plain(d)
    ensures StateOk(st', f, db, h, cache, i + 1)
  {
    var rows, slots, ref := ReadThrough(db, d, h, st.slots, st.ref, cache, st.deps);
    var answer, newest := Answered(d, rows, db, h);
    UsedMore(st.used, rows, db, cache, st.deps, d, h);
    NewestOfAllSnoc(db, st.deps, d, h);
    var block := if newest > Height(st.block) then Some(newest) else st.block;
    st' := State(st.deps + [d], st.answers + [answer], st.used + rows, block, slots, ref);
  }

  /**
   * One run of a formula at `h` through a read cache that agrees with the database: it makes the same
   * reads and returns the same value and block as without any cache.
   */
  method RunFormula(f: Formula, db: Db, h: nat, cache: Cache, ref: nat, ghost n: nat)
    returns (value: Result, block: Option<nat>, deps: seq<Dep>, used: seq<Fetched>, ref': nat)
    requires HaltsIn(f, db, h, n) && PlainReads(f) && CacheOk(cache, db, h)
    ensures Halts(f, db, h) && Compute(f, db, h) == Outcome(deps, value, Height(block))
    ensures AllPlain(deps)
    ensures UsedSoFar(used, db, cache, deps, h)
  {
    var st := State([], [], [], None, cache, ref);
    ghost var i := 0;
    assert StateOk(st, f, db, h, cache, i);
    var step := f.next(st.answers);
    while step.Read?
      invariant i <= n && step == f.next(st.answers)
      invariant StateOk(st, f, db, h, cache, i)
      decreases n - i
    {
      assert i != n;
      st := OneRead(f, db, h, step.dep, st, cache, i);
      step, i := f.next(st.answers), i + 1;
    }
    ComputeIs(f, db, h, i);
    value, block, deps, used, ref' := step.value, st.block, st.deps, st.used, st.ref;
  }

  function Height(block: Option<nat>): int {
    if block.None? then -1 else block.value
  }

  /** `compute`: a run with nothing cached. */
  method ComputeAt(f: Formula, db: Db, h: nat, ghost n: nat) returns (value: Result, block: Option<nat>, deps: seq<Dep>)
    requires HaltsIn(f, db, h, n) && PlainReads(f)
    ensures Halts(f, db, h) && Compute(f, db, h) == Outcome(deps, value, Height(block))
  {
    var used, ref;
    value, block, deps, used, ref := RunFormula(f, db, h, map[], 0, n);
  }

  // ---- the range ----

  datatype Output = Output(block: Option<nat>, value: Result, deps: seq<Dep>, validTo: int)

  /** `undefined` is stored as null. */
  function Stored(value: Result): Result {
    if value.Undefined? then Null else value
  }

  function Matches(out: Output, o: Outcome): bool {
    Height(out.block) == o.block && out.value == Stored(o.value) && out.deps == o.deps
  }

  /** The last output whose block is at or below `h`, or -1. */
  function Pick(outs: seq<Output>, h: int): (i: int)
    ensures -1 <= i < |outs|
    ensures i >= 0 ==> Height(outs[i].block) <= h
    ensures forall j :: i < j < |outs| ==> Height(outs[j].block) > h
  {
    if outs == [] then -1
    else if Height(outs[|outs| - 1].block) <= h then |outs| - 1
    else Pick(outs[..|outs| - 1], h)
  }

  /** Blocks strictly ascend, and each non-last validity bound is the next block minus one. */
  ghost predicate Chained(outs: seq<Output>) {
    && (forall i, j :: 0 <= i < j < |outs| ==> Height(outs[i].block) < Height(outs[j].block))
    && (forall i :: 0 <= i < |outs| - 1 ==> outs[i].validTo == Height(outs[i + 1].block) - 1)
  }

  /** At every height in [lo, hi), the picked output is what `compute` gives there. */
  ghost predicate Settled(outs: seq<Output>, f: Formula, db: Db, lo: int, hi: int) {
    forall h :: lo <= h < hi ==>
      Halts(f, db, h) && Pick(outs, h) >= 0 && Matches(outs[Pick(outs, h)], Compute(f, db, h))
  }

  /** The state of the result list once every height in [lo, hi) is settled. */
  ghost predicate Progress(outs: seq<Output>, f: Formula, db: Db, lo: int, hi: int) {
    && Chained(outs) && Settled(outs, f, db, lo, hi)
    && (outs == [] <==> lo == hi)
    && (forall i :: 1 <= i < |outs| ==> lo < Height(outs[i].block))
    && (lo < hi ==>
          && Height(outs[|outs| - 1].block) <= outs[|outs| - 1].validTo < hi
          && lo <= outs[|outs| - 1].validTo
          && Height(outs[|outs| - 1].block) < hi)
  }

  /** Store a result unless it is the one already at the end. */
  method Record(outs: seq<Output>, block: Option<nat>, value: Result, deps: seq<Dep>, c: nat, ghost f: Formula,
      ghost db: Db, ghost lo: int)
    returns (outs': seq<Output>)
    requires lo <= c && Progress(outs, f, db, lo, c)
    requires Halts(f, db, c) && Compute(f, db, c) == Outcome(deps, value, Height(block))
    ensures Progress(outs', f, db, lo, c + 1)
  {
    outs' := outs;
    if |outs| == 0
       || (outs[|outs| - 1].block.None? && block.Some?)
       || (outs[|outs| - 1].block.Some? && block.Some? && block.value > outs[|outs| - 1].block.value)
    {
      if |outs| > 0 && block.Some? {
        outs' := outs[|outs| - 1 := outs[|outs| - 1].(validTo := block.value - 1)];
      }
      outs' := outs' + [Output(block, Stored(value), deps, c)];
      PushedProgress(outs, outs', f, db, lo, c);
    } else {
      KeptProgress(outs, f, db, lo, c);
    }
  }

  /** An older or equal block means nothing has changed since the previous height. */
  lemma KeptProgress(outs: seq<Output>, f: Formula, db: Db, lo: int, c: nat)
    requires lo <= c && Progress(outs, f, db, lo, c) && Halts(f, db, c)
    requires outs != [] && Compute(f, db, c).block <= Height(outs[|outs| - 1].block)
    ensures Progress(outs, f, db, lo, c + 1)
  {
    StableBackward(f, db, c, c - 1);
    assert Pick(outs, c - 1) == |outs| - 1;
    assert Pick(outs, c) == |outs| - 1;
    assert Matches(outs[|outs| - 1], Compute(f, db, c - 1));
    SettledMore(outs, f, db, lo, c);
  }

  lemma SettledMore(outs: seq<Output>, f: Formula, db: Db, lo: int, c: int)
    requires Settled(outs, f, db, lo, c) && Halts(f, db, c)
    requires Pick(outs, c) >= 0 && Matches(outs[Pick(outs, c)], Compute(f, db, c))
    ensures Settled(outs, f, db, lo, c + 1)
  {
  }

  /** A newer block can only be the current one. */
  lemma NewBlockIsCurrent(outs: seq<Output>, f: Formula, db: Db, lo: int, c: nat)
    requires lo <= c && Progress(outs, f, db, lo, c) && Halts(f, db, c)
    requires outs != [] && Height(outs[|outs| - 1].block) < Compute(f, db, c).block
    ensures Compute(f, db, c).block == c
  {
    assert Pick(outs, c - 1) == |outs| - 1;
    assert Matches(outs[|outs| - 1], Compute(f, db, c - 1));
    if Compute(f, db, c).block <= c - 1 {
      StableBackward(f, db, c, c - 1);
    }
  }

  ghost predicate Appended(outs: seq<Output>, outs': seq<Output>) {
    && |outs'| == |outs| + 1
    && (forall i :: 0 <= i < |outs| - 1 ==> outs'[i] == outs[i])
    && (outs != [] ==>
          && outs'[|outs| - 1] == outs[|outs| - 1].(validTo := Height(outs'[|outs|].block) - 1)
          && Height(outs[|outs| - 1].block) < Height(outs'[|outs|].block))
  }

  lemma AppendedChained(outs: seq<Output>, outs': seq<Output>)
    requires Chained(outs) && Appended(outs, outs')
    ensures Chained(outs')
  {
    forall i, j | 0 <= i < j < |outs'|
      ensures Height(outs'[i].block) < Height(outs'[j].block)
    {
      assert outs'[i].block == outs[i].block;
      if j < |outs| { assert outs'[j].block == outs[j].block; }
      else if i < |outs| - 1 { assert Height(outs[i].block) < Height(outs[|outs| - 1].block); }
    }
    forall i | 0 <= i < |outs'| - 1
      ensures outs'[i].validTo == Height(outs'[i + 1].block) - 1
    {
      if i + 1 < |outs| { assert outs'[i + 1].block == outs[i + 1].block; }
    }
  }

  lemma AppendedSettled(outs: seq<Output>, outs': seq<Output>, f: Formula, db: Db, lo: int, c: int)
    requires Settled(outs, f, db, lo, c) && Appended(outs, outs')
    requires outs == [] ==> lo == c
    requires outs != [] ==> Height(outs'[|outs|].block) >= c
    ensures Settled(outs', f, db, lo, c)
  {
    forall h | lo <= h < c
      ensures Halts(f, db, h) && Pick(outs', h) >= 0 && Matches(outs'[Pick(outs', h)], Compute(f, db, h))
    {
      var i := Pick(outs, h);
      assert Halts(f, db, h) && i >= 0 && Matches(outs[i], Compute(f, db, h));
      SamePick(outs, outs', h);
    }
  }

  lemma PushedProgress(outs: seq<Output>, outs': seq<Output>, f: Formula, db: Db, lo: int, c: nat)
    requires lo <= c && Progress(outs, f, db, lo, c) && Halts(f, db, c) && Appended(outs, outs')
    requires Matches(outs'[|outs|], Compute(f, db, c)) && outs'[|outs|].validTo == c
    ensures Progress(outs', f, db, lo, c + 1)
  {
    if outs != [] { NewBlockIsCurrent(outs, f, db, lo, c); }
    AppendedChained(outs, outs');
    AppendedSettled(outs, outs', f, db, lo, c);
    assert Pick(outs', c) == |outs|;
    SettledMore(outs', f, db, lo, c);
  }

  lemma SamePick(outs: seq<Output>, outs': seq<Output>, h: int)
    requires |outs'| == |outs| + 1 && Height(outs'[|outs|].block) > h
    requires forall i :: 0 <= i < |outs| ==> outs'[i].block == outs[i].block
    ensures Pick(outs', h) == Pick(outs, h)
  {
    var i, j := Pick(outs, h), Pick(outs', h);
    if i >= 0 { assert Height(outs'[i].block) <= h; }
    if j >= 0 && j < |outs| { assert Height(outs[j].block) <= h; }
  }

  /** No event on the computation's dependencies until `hi`: the heights in between are settled too. */
  lemma Skip(outs: seq<Output>, f: Formula, db: Db, lo: int, c: nat, hi: int)
    requires lo <= c < hi && Progress(outs, f, db, lo, c + 1)
    requires Halts(f, db, c) && AllQuiet(db, Compute(f, db, c).deps, c, hi - 1)
    ensures Progress(outs, f, db, lo, hi)
  {
    var last := |outs| - 1;
    assert Pick(outs, c) == last;
    forall h | lo <= h < hi
      ensures Halts(f, db, h) && Pick(outs, h) >= 0 && Matches(outs[Pick(outs, h)], Compute(f, db, h))
    {
      if h > c {
        forall d | d in Compute(f, db, c).deps
          ensures DepQuiet(db, d, c, h)
        {
          assert DepQuiet(db, d, c, hi - 1);
          assert forall k :: d.Covers(k) ==> Quiet(db, k, c, hi - 1);
        }
        StableForward(f, db, c, h);
        assert Pick(outs, h) == last;
      }
    }
  }

  lemma CacheFilled(cache: Cache, events: Index, db: Db, known: seq<Dep>, lo: int, c: nat, hi: int)
    requires lo <= c <= hi && IndexOk(events, db, known, lo, hi) && AllPlain(known) && Filled(cache, events, known, c)
    ensures CacheOk(cache, db, c)
    ensures forall e :: InCache(cache, e) ==> e in Lookup(PruneCovered(events, known, c), e.event.key)
  {
    forall key | key in cache
      ensures Exact(RowsOf(cache[key]), db, DepFor(key), c)
      ensures forall e :: e in RowsOf(cache[key]) ==> e in Lookup(PruneCovered(events, known, c), e.event.key)
    {
      var d :| d in known && d.key == key;
      assert DepFor(key) == d;
      SlotExact(cache[key], events, db, known, d, lo, c, hi);
    }
  }

  lemma UsedForLoad(used: seq<Fetched>, db: Db, cache: Cache, events: Index, known: seq<Dep>, deps: seq<Dep>, c: int)
    requires UsedSoFar(used, db, cache, deps, c)
    requires forall e :: InCache(cache, e) ==> e in Lookup(events, e.event.key)
    requires forall d :: d in known ==> d.key in cache
    ensures UsedOk(used, db, events, known, deps, c)
  {
    forall e | e in used
      ensures e in Lookup(events, e.event.key) || exists d :: d in deps && d !in known && d.Covers(e.event.key)
    {
      assert Origin(e, cache, deps);
      if !InCache(cache, e) {
        var d :| d in deps && d.key !in cache && d.Covers(e.event.key);
        assert d !in known;
      }
    }
  }

  /** The pruned index and the cache for the current block; nothing to do before any dependency is known. */
  method Prepare(known: seq<Dep>, events: Index, c: nat, ghost db: Db, ghost lo: int, ghost hi: int)
    returns (events': Index, cache: Cache)
    requires lo <= c <= hi && IndexOk(events, db, known, lo, hi) && AllPlain(known)
    ensures IndexOk(events', db, known, c, hi) && CacheOk(cache, db, c)
    ensures forall e :: InCache(cache, e) ==> e in Lookup(events', e.event.key)
    ensures forall d :: d in known ==> d.key in cache
  {
    events', cache := events, map[];
    if |known| > 0 {
      assert forall a, b :: a in known && b in known && a.key == b.key ==> a == b;
      events', cache := AddToCache(known, events, c);
      CacheFilled(cache, events, db, known, lo, c, hi);
    }
    FilledCache(known, events, db, lo, c, hi);
    if |known| == 0 { assert PruneCovered(events, known, c) == events; }
  }

  /** One iteration at block `c`: compute, record the output, load events, find the next block to compute. */
  method Iterate(f: Formula, db: Db, c: nat, hi: nat, known: seq<Dep>, events: Index, outs: seq<Output>, ref: nat,
      ghost n: nat, ghost lo: int, ghost from: int)
    returns (known': seq<Dep>, events': Index, outs': seq<Output>, next: Option<nat>, ref': nat)
    requires HaltsIn(f, db, c, n) && PlainReads(f) && from <= c <= hi && lo <= c
    requires IndexOk(events, db, known, from, hi) && AllPlain(known)
    requires Progress(outs, f, db, lo, c)
    ensures IndexOk(events', db, known', c, hi) && AllPlain(known')
    ensures next.Some? ==> c < next.value <= hi
    ensures Progress(outs', f, db, lo, if next.Some? then next.value else hi + 1)
  {
    var pruned, cache := Prepare(known, events, c, db, from, hi);
    var value, block, deps, used, ref1 := RunFormula(f, db, c, cache, ref, n);
    outs' := Record(outs, block, value, deps, c, f, db, lo);
    UsedForLoad(used, db, cache, pruned, known, deps, c);
    events', known', ref' := LoadEvents(db, pruned, known, deps, used, c, hi, ref1);
    assert forall k :: Covered(deps, k) ==> Covered(known', k);
    next := GetNextPotentialBlock(deps, events', c, db, hi);
    Skip(outs', f, db, lo, c, if next.Some? then next.value else hi + 1);
  }

  /**
   * `computeRange` for a non-dynamic formula: the outputs are chained, and at every height of the range the
   * last output at or below it is exactly what `compute` gives there.
   */
  method ComputeOverRange(f: Formula, db: Db, start: nat, end: nat) returns (outs: seq<Output>)
    requires PlainReads(f) && forall h: nat :: start <= h <= end ==> Halts(f, db, h)
    ensures Chained(outs) && Settled(outs, f, db, start, end + 1)
    ensures start > end ==> outs == []
    ensures start <= end ==> outs != [] && Progress(outs, f, db, start, end + 1)
    ensures forall h: nat :: start <= h <= end ==>
              Pick(outs, h) >= 0 && Reports(outs[Pick(outs, h)], Compute(f, db, h))
  {
    var known, events: Index, ref := [], map[], 0;
    outs := [];
    var next := Some(start);
    ghost var from: int := start;
    while next.Some? && next.value <= end
      invariant next.Some? && start <= end ==> start <= next.value <= end && from <= next.value
      invariant start <= end ==> Progress(outs, f, db, start, if next.Some? then next.value else end + 1)
      invariant start > end ==> outs == [] && next == Some(start)
      invariant IndexOk(events, db, known, from, end) && AllPlain(known)
      decreases if next.Some? then end + 1 - next.value else 0
    {
      var c := next.value;
      assert Halts(f, db, c);
      ghost var n: nat :| HaltsIn(f, db, c, n);
      known, events, outs, next, ref := Iterate(f, db, c, end, known, events, outs, ref, n, start, from);
      from := c;
    }
    forall h: nat | start <= h <= end
      ensures Pick(outs, h) >= 0 && Reports(outs[Pick(outs, h)], Compute(f, db, h))
    {
      SettledReports(outs, f, db, start, end + 1, h);
    }
  }

  /** An output carries an outcome's block, dependencies and value, with undefined as null. */
  ghost predicate Reports(out: Output, o: Outcome) {
    && (if o.block < 0 then out.block.None? else out.block == Some(o.block))
    && out.deps == o.deps
    && (!o.value.Undefined? ==> out.value == o.value) && (o.value.Undefined? ==> out.value == Null)
  }

  lemma SettledReports(outs: seq<Output>, f: Formula, db: Db, lo: int, hi: int, h: int)
    requires Settled(outs, f, db, lo, hi) && lo <= h < hi
    ensures Halts(f, db, h) && Pick(outs, h) >= 0 && Reports(outs[Pick(outs, h)], Compute(f, db, h))
  {
    assert Halts(f, db, h) && Matches(outs[Pick(outs, h)], Compute(f, db, h));
    MatchReports(outs[Pick(outs, h)], Compute(f, db, h));
  }

  lemma MatchReports(out: Output, o: Outcome)
    requires Matches(out, o) && o.block >= -1
    ensures Reports(out, o)
  {
  }

  /** Each output's validity claim: `compute` gives it at every height from its block to its bound. */
  lemma OutputsValid(outs: seq<Output>, f: Formula, db: Db, start: nat, end: nat, j: nat, h: int)
    requires start <= end && Progress(outs, f, db, start, end + 1)
    requires j < |outs| && Height(outs[j].block) <= h <= outs[j].validTo
    ensures Height(outs[j].block) <= outs[j].validTo <= end
    ensures Halts(f, db, h) && Matches(outs[j], Compute(f, db, h))
  {
    if j + 1 < |outs| {
      NextBlock(outs, j);
      assert outs[j].validTo == Height(outs[j + 1].block) - 1 >= start;
    }
    var g := if h < start then start else h;
    assert g <= outs[j].validTo;
    assert Height(outs[j].block) <= g && forall i :: j < i < |outs| ==> Height(outs[i].block) > g;
    assert Pick(outs, g) == j;
    if h < g { StableBackward(f, db, g, h); }
  }

  lemma NextBlock(outs: seq<Output>, j: nat)
    requires Chained(outs) && j + 1 < |outs|
    ensures outs[j].validTo < Height(outs[|outs| - 1].block)
    ensures forall i :: j < i < |outs| ==> Height(outs[i].block) > outs[j].validTo
  {
    forall i | j < i < |outs|
      ensures Height(outs[i].block) > outs[j].validTo
    {
      if i > j + 1 { assert Height(outs[j + 1].block) < Height(outs[i].block); }
    }
  }
}
