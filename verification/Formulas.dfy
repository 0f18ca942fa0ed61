/** Formulas as readers of the event table, and `compute` at one height. */
module Formulas {
  import opened Options
  import opened Events

  /** What one `get` or `getMap` hands back to the formula. */
  datatype Answer = Nothing | Item(event: Event) | Entries(entries: map<Key, string>)

  datatype Result = Undefined | Null | Json(text: string)

  datatype Step = Read(dep: Dep) | Done(value: Result)

  /** A deterministic formula: the answers so far determine the next read, or the value. */
  datatype Formula = Formula(next: seq<Answer> -> Step)

  /** `getMap` dependent keys end in a comma, `get` dependent keys never do; no wildcard. */
  predicate Plain(d: Dep) {
    && (d.prefix <==> d.key != [] && d.key[|d.key| - 1] == ',')
    && '*' !in d.key
  }

  ghost predicate PlainReads(f: Formula) {
    forall answers :: f.next(answers).Read? ==> Plain(f.next(answers).dep)
  }

  /** The answer of the database at height `h`, with no cache involved. */
  function Ask(db: Db, d: Dep, h: int): Answer {
    if !d.prefix then
      match Latest(db, d.key, h)
      case None => Nothing
      case Some(e) => if e.cell.deleted then Nothing else Item(e)
    else
      var keys := Touched(db, d, h);
      if keys == {} then Nothing
      else Entries(map k | k in keys && !Latest(db, k, h).value.cell.deleted :: Latest(db, k, h).value.cell.text)
  }

  /** The event of `k` current at `h` is at `j`, and is no deletion. */
  ghost predicate LiveAt(db: Db, k: Key, h: int, j: nat) {
    j <= h && (k, j) in db && !db[(k, j)].deleted && Quiet(db, k, j, h)
  }

  /**
   * A `get` answers with the key's current event, from the table alone; with nothing if there is none or it is a
   * deletion.
   */
  lemma GetAnswers(db: Db, d: Dep, h: int)
    requires !d.prefix
    ensures forall j: nat :: LiveAt(db, d.key, h, j) ==> Ask(db, d, h) == Item(Event(d.key, j, db[(d.key, j)]))
    ensures (forall j: nat :: !LiveAt(db, d.key, h, j)) ==> Ask(db, d, h) == Nothing
  {
    var r := Latest(db, d.key, h);
    if r.Some? && !r.value.cell.deleted { assert LiveAt(db, d.key, h, r.value.height); }
    forall j: nat | LiveAt(db, d.key, h, j)
      ensures Ask(db, d, h) == Item(Event(d.key, j, db[(d.key, j)]))
    {
      LatestIs(db, d.key, h, Event(d.key, j, db[(d.key, j)]));
    }
  }

  /**
   * A `getMap` answers with nothing exactly if no key under the prefix has an event; else with the map of all
   * keys under the prefix whose current event is no deletion to that event's value.
   */
  lemma GetMapAnswers(db: Db, d: Dep, h: int)
    requires d.prefix
    ensures Ask(db, d, h) == Nothing <==> forall k, j: nat :: d.key <= k && j <= h ==> (k, j) !in db
    ensures Ask(db, d, h) != Nothing ==> Ask(db, d, h).Entries?
    ensures Ask(db, d, h).Entries? ==>
              && (forall k :: k in Ask(db, d, h).entries <==> d.key <= k && exists j: nat :: LiveAt(db, k, h, j))
              && (forall k, j: nat :: k in Ask(db, d, h).entries && LiveAt(db, k, h, j) ==>
                    Ask(db, d, h).entries[k] == db[(k, j)].text)
  {
    var keys := Touched(db, d, h);
    forall k | d.key <= k
      ensures k in keys <==> exists j: nat :: j <= h && (k, j) in db
      ensures k in keys && !Latest(db, k, h).value.cell.deleted <==> exists j: nat :: LiveAt(db, k, h, j)
      ensures forall j: nat :: LiveAt(db, k, h, j) ==> Latest(db, k, h) == Some(Event(k, j, db[(k, j)]))
    {
      assert d.Covers(k);
      CurrentEvent(db, k, h);
    }
    assert forall k :: k in keys ==> d.key <= k;
    assert keys == {} <==> forall k :: d.key <= k ==> k !in keys;
  }

  lemma CurrentEvent(db: Db, k: Key, h: int)
    ensures Latest(db, k, h).Some? <==> exists j: nat :: j <= h && (k, j) in db
    ensures Latest(db, k, h).Some? && !Latest(db, k, h).value.cell.deleted <==> exists j: nat :: LiveAt(db, k, h, j)
    ensures forall j: nat :: LiveAt(db, k, h, j) ==> Latest(db, k, h) == Some(Event(k, j, db[(k, j)]))
  {
    var r := Latest(db, k, h);
    if r.Some? && !r.value.cell.deleted { assert LiveAt(db, k, h, r.value.height); }
    forall j: nat | LiveAt(db, k, h, j)
      ensures Latest(db, k, h) == Some(Event(k, j, db[(k, j)]))
    {
      LatestIs(db, k, h, Event(k, j, db[(k, j)]));
    }
  }

  /** The reads made so far and their answers. */
  datatype Run = Run(deps: seq<Dep>, answers: seq<Answer>)

  /** The first `n` reads of `f` at height `h` (fewer if it finishes earlier). */
  function RunFor(f: Formula, db: Db, h: int, n: nat): Run {
    if n == 0 then Run([], [])
    else
      var r := RunFor(f, db, h, n - 1);
      match f.next(r.answers)
      case Done(_) => r
      case Read(d) => Run(r.deps + [d], r.answers + [Ask(db, d, h)])
  }

  predicate HaltsIn(f: Formula, db: Db, h: int, n: nat) {
    f.next(RunFor(f, db, h, n).answers).Done?
  }

  ghost predicate Halts(f: Formula, db: Db, h: int) {
    exists n: nat :: HaltsIn(f, db, h, n)
  }

  lemma {:induction false} RunSettles(f: Formula, db: Db, h: int, n: nat, m: nat)
    requires HaltsIn(f, db, h, n) && n <= m
    ensures RunFor(f, db, h, m) == RunFor(f, db, h, n)
  {
    if n < m { RunSettles(f, db, h, n, m - 1); }
  }

  /** The greatest event height behind any of the reads, or -1. */
  function NewestOfAll(db: Db, deps: seq<Dep>, h: int): (r: int)
    ensures -1 <= r && (r == -1 || r <= h)
    ensures forall d :: d in deps ==> Newest(db, d, h) <= r
    ensures r == -1 || exists d :: d in deps && Newest(db, d, h) == r
  {
    if deps == [] then -1
    else
      var rest := NewestOfAll(db, deps[..|deps| - 1], h);
      var last := Newest(db, deps[|deps| - 1], h);
      assert forall d :: d in deps <==> d in deps[..|deps| - 1] || d == deps[|deps| - 1];
      assert deps[|deps| - 1] in deps;
      assert rest == -1 || exists d :: d in deps[..|deps| - 1] && d in deps && Newest(db, d, h) == rest;
      if last > rest then last else rest
  }

  /** What `compute` reports at a height: the reads, the value and the block it became valid at (-1: none). */
  datatype Outcome = Outcome(deps: seq<Dep>, value: Result, block: int)

  function OutcomeOf(f: Formula, db: Db, h: int, n: nat): Outcome
    requires HaltsIn(f, db, h, n)
  {
    var r := RunFor(f, db, h, n);
    Outcome(r.deps, f.next(r.answers).value, NewestOfAll(db, r.deps, h))
  }

  ghost function Compute(f: Formula, db: Db, h: int): (o: Outcome)
    requires Halts(f, db, h)
    ensures -1 <= o.block && (o.block == -1 || o.block <= h)
    ensures exists n: nat :: HaltsIn(f, db, h, n) && o == OutcomeOf(f, db, h, n)
  {
    var n: nat :| HaltsIn(f, db, h, n);
    OutcomeOf(f, db, h, n)
  }

  lemma ComputeIs(f: Formula, db: Db, h: int, n: nat)
    requires HaltsIn(f, db, h, n)
    ensures Halts(f, db, h) && Compute(f, db, h) == OutcomeOf(f, db, h, n)
  {
    var m: nat :| HaltsIn(f, db, h, m) && Compute(f, db, h) == OutcomeOf(f, db, h, m);
    if m <= n { RunSettles(f, db, h, m, n); } else { RunSettles(f, db, h, n, m); }
  }

  lemma {:induction false} RunReads(f: Formula, db: Db, h: int, n: nat)
    ensures var r := RunFor(f, db, h, n);
            && |r.answers| == |r.deps|
            && forall i :: 0 <= i < |r.deps| ==>
                f.next(r.answers[..i]) == Read(r.deps[i]) && r.answers[i] == Ask(db, r.deps[i], h)
  {
    if n > 0 {
      RunReads(f, db, h, n - 1);
      var q, r := RunFor(f, db, h, n - 1), RunFor(f, db, h, n);
      assert forall i :: 0 <= i <= |q.answers| ==> r.answers[..i] == q.answers[..i];
      assert q.answers[..|q.answers|] == q.answers;
    }
  }

  /**
   * What `compute` reports: the formula's own reads, answered by the table, its value, and the newest event behind
   * them.
   */
  lemma ComputeReports(f: Formula, db: Db, h: int) returns (answers: seq<Answer>)
    requires Halts(f, db, h)
    ensures var o := Compute(f, db, h);
            && |answers| == |o.deps| && f.next(answers) == Done(o.value)
            && (forall i :: 0 <= i < |o.deps| ==>
                f.next(answers[..i]) == Read(o.deps[i]) && answers[i] == Ask(db, o.deps[i], h))
            && (forall d, k, j: nat :: d in o.deps && d.Covers(k) && j <= h && (k, j) in db ==> j <= o.block)
            && (o.block >= 0 ==> o.block <= h && exists d, k :: d in o.deps && d.Covers(k) && (k, o.block) in db)
  {
    var o := Compute(f, db, h);
    var n: nat :| HaltsIn(f, db, h, n) && o == OutcomeOf(f, db, h, n);
    RunReads(f, db, h, n);
    answers := RunFor(f, db, h, n).answers;
    forall d, k, j: nat | d in o.deps && d.Covers(k) && j <= h && (k, j) in db
      ensures j <= o.block
    {
      assert (k, j).1 == j && d.Covers((k, j).0);
      assert Hit(db, d, j);
    }
    if o.block >= 0 {
      var d :| d in o.deps && Newest(db, d, h) == o.block;
      assert Hit(db, d, o.block);
      var kh :| kh in db && kh.1 == o.block && d.Covers(kh.0);
      assert (kh.0, o.block) == kh;
    }
  }

  // ---- Stability ----

  /** Every key covered by `d` looks the same in `db1` at `h1` and in `db2` at `h2`. */
  ghost predicate Agree(db1: Db, h1: int, db2: Db, h2: int, d: Dep) {
    forall k :: d.Covers(k) ==> Latest(db1, k, h1) == Latest(db2, k, h2)
  }

  lemma AskAgrees(db1: Db, h1: int, db2: Db, h2: int, d: Dep)
    requires Agree(db1, h1, db2, h2, d)
    ensures Ask(db1, d, h1) == Ask(db2, d, h2)
  {
    if d.prefix {
      assert Touched(db1, d, h1) == Touched(db2, d, h2);
    } else {
      assert d.Covers(d.key);
    }
  }

  lemma NewestNotBelow(db1: Db, h1: int, db2: Db, h2: int, d: Dep)
    requires Agree(db1, h1, db2, h2, d)
    ensures Newest(db1, d, h1) <= Newest(db2, d, h2)
  {
    var m := Newest(db1, d, h1);
    if m >= 0 {
      var kh :| kh in db1 && kh.1 == m && d.Covers(kh.0);
      NewestQuiet(db1, d, h1);
      assert kh == (kh.0, m as nat);
      LatestIs(db1, kh.0, h1, Event(kh.0, m, db1[kh]));
      assert Latest(db2, kh.0, h2) == Some(Event(kh.0, m, db1[kh]));
      assert (kh.0, m as nat) in db2;
      assert Hit(db2, d, m);
    }
  }

  lemma {:induction false} NewestOfAllAgrees(db1: Db, h1: int, db2: Db, h2: int, deps: seq<Dep>)
    requires forall d :: d in deps ==> Agree(db1, h1, db2, h2, d)
    ensures NewestOfAll(db1, deps, h1) == NewestOfAll(db2, deps, h2)
  {
    if deps != [] {
      var last := deps[|deps| - 1];
      NewestNotBelow(db1, h1, db2, h2, last);
      NewestNotBelow(db2, h2, db1, h1, last);
      NewestOfAllAgrees(db1, h1, db2, h2, deps[..|deps| - 1]);
    }
  }

  lemma {:induction false} SameRun(f: Formula, db1: Db, h1: int, db2: Db, h2: int, n: nat)
    requires forall d :: d in RunFor(f, db1, h1, n).deps ==> Agree(db1, h1, db2, h2, d)
    ensures RunFor(f, db2, h2, n) == RunFor(f, db1, h1, n)
  {
    if n > 0 {
      var r, s := RunFor(f, db1, h1, n - 1), RunFor(f, db1, h1, n);
      assert forall d :: d in r.deps ==> d in s.deps;
      SameRun(f, db1, h1, db2, h2, n - 1);
      match f.next(r.answers)
      case Done(_) =>
      case Read(d) =>
        assert d in s.deps;
        AskAgrees(db1, h1, db2, h2, d);
    }
  }

  /** A formula that reads the same rows makes the same reads and reports the same outcome. */
  lemma ComputeAgrees(f: Formula, db1: Db, h1: int, db2: Db, h2: int)
    requires Halts(f, db1, h1)
    requires forall d :: d in Compute(f, db1, h1).deps ==> Agree(db1, h1, db2, h2, d)
    ensures Halts(f, db2, h2) && Compute(f, db2, h2) == Compute(f, db1, h1)
  {
    var n: nat :| HaltsIn(f, db1, h1, n);
    ComputeIs(f, db1, h1, n);
    SameRun(f, db1, h1, db2, h2, n);
    ComputeIs(f, db2, h2, n);
    NewestOfAllAgrees(db1, h1, db2, h2, Compute(f, db1, h1).deps);
  }

  /** No event on any recorded dependency at a height in (lo, hi]. */
  ghost predicate AllQuiet(db: Db, deps: seq<Dep>, lo: int, hi: int) {
    forall d :: d in deps ==> DepQuiet(db, d, lo, hi)
  }

  lemma QuietAgrees(db: Db, deps: seq<Dep>, lo: int, hi: int, d: Dep)
    requires lo <= hi && AllQuiet(db, deps, lo, hi) && d in deps
    ensures Agree(db, lo, db, hi, d) && Agree(db, hi, db, lo, d)
  {
    assert DepQuiet(db, d, lo, hi);
    forall k | d.Covers(k)
      ensures Latest(db, k, lo) == Latest(db, k, hi)
    {
      LatestQuiet(db, k, lo, hi);
    }
  }

  /** The reported block is exact: every height from it up to `h` gives the same outcome. */
  lemma StableBackward(f: Formula, db: Db, h: int, h': int)
    requires Halts(f, db, h) && Compute(f, db, h).block <= h' <= h
    ensures Halts(f, db, h') && Compute(f, db, h') == Compute(f, db, h)
  {
    var deps := Compute(f, db, h).deps;
    forall d | d in deps
      ensures Agree(db, h, db, h', d)
    {
      NewestQuiet(db, d, h);
      var n: nat :| HaltsIn(f, db, h, n) && Compute(f, db, h) == OutcomeOf(f, db, h, n);
      assert Newest(db, d, h) <= h';
      assert DepQuiet(db, d, h', h);
      forall k | d.Covers(k)
        ensures Latest(db, k, h) == Latest(db, k, h')
      {
        assert Quiet(db, k, h', h);
        LatestQuiet(db, k, h', h);
      }
    }
    ComputeAgrees(f, db, h, db, h');
  }

  /** Nothing changes until a recorded dependency does. */
  lemma StableForward(f: Formula, db: Db, h: int, h': int)
    requires Halts(f, db, h) && h <= h' && AllQuiet(db, Compute(f, db, h).deps, h, h')
    ensures Halts(f, db, h') && Compute(f, db, h') == Compute(f, db, h)
  {
    var deps := Compute(f, db, h).deps;
    forall d | d in deps
      ensures Agree(db, h, db, h', d)
    {
      QuietAgrees(db, deps, h, h', d);
    }
    ComputeAgrees(f, db, h, db, h');
  }
}
