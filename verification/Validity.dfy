/** Stored computations and the block range each one claims to be valid for. */
module Validity {
  import opened Options
  import opened Events
  import opened Formulas
  import opened ComputeRange
  import opened DependentKeys

  /** Target address, type, formula name and arguments of a computation. */
  type FormulaId = string

  datatype Row = Row(blockHeight: int, validTo: int, extendable: bool, deps: set<Dep>, output: Result)

  /** Unique by formula and block height. */
  type Rows = map<(FormulaId, int), Row>

  function DepSet(deps: seq<Dep>): set<Dep> {
    set d | d in deps
  }

  /** The row's output, block and dependencies are what `compute` reports. */
  predicate Claims(row: Row, o: Outcome) {
    o.block == row.blockHeight && Stored(o.value) == row.output && DepSet(o.deps) == row.deps
  }

  /** The claim of an extendable row holds at every height of its range. */
  ghost predicate RowOk(row: Row, f: Formula, db: Db) {
    row.extendable ==>
      && row.blockHeight <= row.validTo
      && (forall d :: d in row.deps ==> NeverMissed(d))
      && (forall h :: row.blockHeight <= h <= row.validTo ==> Halts(f, db, h) && Claims(row, Compute(f, db, h)))
  }

  ghost predicate TableOk(rows: Rows, meaning: FormulaId -> Formula, db: Db) {
    forall key :: key in rows ==> rows[key].blockHeight == key.1 && RowOk(rows[key], meaning(key.0), db)
  }

  // ---- createFromComputationOutputs ----

  /** An output to store; `compute` leaves the bound open, a range fills it in. */
  datatype NewOutput = NewOutput(block: Option<nat>, value: Result, deps: seq<Dep>, validTo: Option<int>)

  function RowFor(out: NewOutput, dynamic: bool): Row {
    Row(Height(out.block), if out.validTo.Some? then out.validTo.value else Height(out.block),
        !dynamic, DepSet(out.deps), Stored(out.value))
  }

  function StoreAll(rows: Rows, id: FormulaId, dynamic: bool, outs: seq<NewOutput>): Rows {
    if outs == [] then rows
    else
      var out := outs[|outs| - 1];
      StoreAll(rows, id, dynamic, outs[..|outs| - 1])[(id, Height(out.block)) := RowFor(out, dynamic)]
  }

  /** Outputs that hold over the range they will claim. */
  ghost predicate OutsOk(outs: seq<NewOutput>, dynamic: bool, f: Formula, db: Db) {
    forall i :: 0 <= i < |outs| ==> RowOk(RowFor(outs[i], dynamic), f, db)
  }

  lemma {:induction false} StoreKeeps(rows: Rows, id: FormulaId, dynamic: bool, outs: seq<NewOutput>,
      meaning: FormulaId -> Formula, db: Db)
    requires TableOk(rows, meaning, db) && OutsOk(outs, dynamic, meaning(id), db)
    ensures TableOk(StoreAll(rows, id, dynamic, outs), meaning, db)
  {
    if outs != [] {
      StoreKeeps(rows, id, dynamic, outs[..|outs| - 1], meaning, db);
    }
  }

  /**
   * After storing, the row of a block is that of the last output for it, claiming the output's bound or else its own
   * block.
   */
  lemma {:induction false} StoredLast(rows: Rows, id: FormulaId, dynamic: bool, outs: seq<NewOutput>, i: nat, h: int)
    requires i < |outs| && LastWith(outs, i, h)
    ensures var stored := StoreAll(rows, id, dynamic, outs);
            (id, h) in stored && StoredAs(stored[(id, h)], outs[i], dynamic, h)
  {
    if i < |outs| - 1 {
      assert !AtBlock(outs[|outs| - 1], h);
      StoredLast(rows, id, dynamic, outs[..|outs| - 1], i, h);
    }
  }

  /** All other rows are as they were. */
  lemma {:induction false} StoredElsewhere(rows: Rows, id: FormulaId, dynamic: bool, outs: seq<NewOutput>,
      key: (FormulaId, int))
    requires key.0 != id || forall i :: 0 <= i < |outs| ==> !AtBlock(outs[i], key.1)
    ensures var stored := StoreAll(rows, id, dynamic, outs);
            (key in stored <==> key in rows) && (key in rows ==> stored[key] == rows[key])
  {
    if outs != [] {
      assert key.0 != id || !AtBlock(outs[|outs| - 1], key.1);
      StoredElsewhere(rows, id, dynamic, outs[..|outs| - 1], key);
    }
  }

  /** The output is for this block height, -1 for none. */
  ghost predicate AtBlock(out: NewOutput, h: int) {
    if h == -1 then out.block.None? else out.block.Some? && out.block.value == h
  }

  ghost predicate LastWith(outs: seq<NewOutput>, i: nat, h: int)
    requires i < |outs|
  {
    AtBlock(outs[i], h) && forall j :: i < j < |outs| ==> !AtBlock(outs[j], h)
  }

  ghost predicate StoredAs(row: Row, out: NewOutput, dynamic: bool, h: int) {
    && row.blockHeight == h && row.extendable == !dynamic
    && row.validTo == (if out.validTo.Some? then out.validTo.value else h)
    && (forall d :: d in row.deps <==> d in out.deps)
    && (!out.value.Undefined? ==> row.output == out.value) && (out.value.Undefined? ==> row.output == Null)
  }

  function Bounded(out: Output): NewOutput {
    NewOutput(out.block, out.value, out.deps, Some(out.validTo))
  }

  /** The outputs of a range computation may be stored as they are. */
  lemma RangeOutputsOk(outs: seq<Output>, f: Formula, db: Db, start: nat, end: nat)
    requires start <= end && Progress(outs, f, db, start, end + 1) && FoundReads(f)
    ensures OutsOk(seq(|outs|, i requires 0 <= i < |outs| => Bounded(outs[i])), false, f, db)
    ensures forall i :: 0 <= i < |outs| ==> RowFor(Bounded(outs[i]), false).validTo == outs[i].validTo
  {
    forall j | 0 <= j < |outs|
      ensures RowOk(RowFor(Bounded(outs[j]), false), f, db)
    {
      var row, b := RowFor(Bounded(outs[j]), false), Height(outs[j].block);
      assert b <= outs[j].validTo by {
        if j + 1 < |outs| { assert outs[j].validTo == Height(outs[j + 1].block) - 1; }
      }
      forall h | b <= h <= outs[j].validTo
        ensures Halts(f, db, h) && Claims(row, Compute(f, db, h))
      {
        OutputsValid(outs, f, db, start, end, j, h);
      }
      OutputsValid(outs, f, db, start, end, j, b);
      ReadsAreFound(f, db, b);
    }
  }

  /** So may a single `compute`, which claims its own block only. */
  lemma ComputeOutputOk(f: Formula, db: Db, h: nat, block: Option<nat>, value: Result, deps: seq<Dep>)
    requires Halts(f, db, h) && FoundReads(f) && Compute(f, db, h) == Outcome(deps, value, Height(block))
    ensures OutsOk([NewOutput(block, value, deps, None)], false, f, db)
  {
    var row := RowFor(NewOutput(block, value, deps, None), false);
    StableBackward(f, db, h, Height(block));
    assert forall d :: d in row.deps ==> NeverMissed(d) by {
      ReadsAreFound(f, db, h);
      assert forall d :: d in row.deps ==> d in deps;
    }
    OwnBlockOk(row, f, db);
  }

  lemma OwnBlockOk(row: Row, f: Formula, db: Db)
    requires row.validTo == row.blockHeight && forall d :: d in row.deps ==> NeverMissed(d)
    requires Halts(f, db, row.blockHeight) && Claims(row, Compute(f, db, row.blockHeight))
    ensures RowOk(row, f, db)
  {
  }

  /** Every dependency the formula can record is found by invalidation. */
  ghost predicate FoundReads(f: Formula) {
    forall answers :: f.next(answers).Read? ==> NeverMissed(f.next(answers).dep)
  }

  lemma {:induction false} RunReadsFound(f: Formula, db: Db, h: int, n: nat)
    requires FoundReads(f)
    ensures forall d :: d in RunFor(f, db, h, n).deps ==> NeverMissed(d)
  {
    if n > 0 { RunReadsFound(f, db, h, n - 1); }
  }

  lemma ReadsAreFound(f: Formula, db: Db, h: int)
    requires FoundReads(f) && Halts(f, db, h)
    ensures forall d :: d in Compute(f, db, h).deps ==> NeverMissed(d)
  {
    var n: nat :| HaltsIn(f, db, h, n) && Compute(f, db, h) == OutcomeOf(f, db, h, n);
    RunReadsFound(f, db, h, n);
  }

  // ---- updateValidityUpToBlockHeight ----

  predicate AnyHit(db: Db, deps: set<Dep>, h: nat) {
    exists d :: d in deps && Hit(db, d, h)
  }

  /** The first event on a dependency at a height in [lo, hi]. */
  function FirstHit(db: Db, deps: set<Dep>, lo: int, hi: int): (r: Option<nat>)
    ensures r.Some? ==> lo <= r.value <= hi && AnyHit(db, deps, r.value) &&
                        forall j: nat :: lo <= j < r.value ==> !AnyHit(db, deps, j)
    ensures r.None? ==> forall j: nat :: lo <= j <= hi ==> !AnyHit(db, deps, j)
    decreases hi - lo + 1
  {
    if lo > hi then None
    else if lo >= 0 && AnyHit(db, deps, lo) then Some(lo)
    else FirstHit(db, deps, lo + 1, hi)
  }

  function Max(a: int, b: int): int { if a > b then a else b }
  function Min(a: int, b: int): int { if a < b then a else b }

  /** Where the search for newer events starts. */
  function SearchFrom(row: Row, startFrom: Option<int>): int {
    Max(row.blockHeight + 1, if startFrom.None? then row.validTo + 1 else Min(startFrom.value, row.validTo + 1))
  }

  /** The row after checking its validity up to `upTo`, and whether it is valid there. */
  function Extend(row: Row, db: Db, upTo: int, startFrom: Option<int>): (r: (Row, bool))
    ensures r.0 == row.(validTo := r.0.validTo)
    ensures r.1 ==> row.blockHeight <= upTo <= r.0.validTo
    ensures startFrom.None? && !r.1 ==> upTo < row.blockHeight || r.0.validTo < upTo
  {
    if upTo < row.blockHeight then (row, false)
    else if startFrom.None? && row.validTo >= upTo then (row, true)
    else if !row.extendable then (row, false)
    else
      match FirstHit(db, row.deps, SearchFrom(row, startFrom), upTo)
      case None => (row.(validTo := upTo), true)
      case Some(e) => (row.(validTo := e - 1), false)
  }

  lemma QuietFromNoHit(db: Db, deps: set<Dep>, lo: int, hi: int)
    requires lo >= -1 && forall j: nat :: lo < j <= hi ==> !AnyHit(db, deps, j)
    ensures forall d :: d in deps ==> DepQuiet(db, d, lo, hi)
  {
    forall d, k, j: nat | d in deps && d.Covers(k) && lo < j <= hi
      ensures (k, j) !in db
    {
      if (k, j) in db {
        assert (k, j).1 == j && d.Covers((k, j).0);
        assert Hit(db, d, j);
        assert AnyHit(db, deps, j);
      }
    }
  }

  /** A claim carries over a stretch without events on the row's dependencies. */
  lemma ClaimCarries(row: Row, f: Formula, db: Db, lo: int, h: int)
    requires row.blockHeight <= lo <= h && lo >= -1 && Halts(f, db, lo) && Claims(row, Compute(f, db, lo))
    requires forall j: nat :: lo < j <= h ==> !AnyHit(db, row.deps, j)
    ensures Halts(f, db, h) && Claims(row, Compute(f, db, h))
  {
    QuietFromNoHit(db, row.deps, lo, h);
    forall d | d in Compute(f, db, lo).deps
      ensures DepQuiet(db, d, lo, h)
    {
      assert d in row.deps;
    }
    StableForward(f, db, lo, h);
  }

  lemma ExtendKeeps(row: Row, f: Formula, db: Db, upTo: int, startFrom: Option<int>)
    requires RowOk(row, f, db)
    ensures RowOk(Extend(row, db, upTo, startFrom).0, f, db)
    ensures row.extendable && Extend(row, db, upTo, startFrom).1 ==>
        Halts(f, db, upTo) && Claims(row, Compute(f, db, upTo))
  {
    var row' := Extend(row, db, upTo, startFrom).0;
    if row.extendable {
      assert Claims(row, Compute(f, db, row.blockHeight));
      forall h | row.blockHeight <= h <= row'.validTo
        ensures Halts(f, db, h) && Claims(row, Compute(f, db, h))
      {
        if h > row.validTo {
          ClaimCarries(row, f, db, row.validTo, h);
        }
      }
    }
  }

  /** Some key a dependency covers has an event at `j`. */
  ghost predicate EventOn(db: Db, deps: set<Dep>, j: nat) {
    exists d, k :: d in deps && d.Covers(k) && (k, j) in db
  }

  lemma EventIsHit(db: Db, deps: set<Dep>, j: nat)
    ensures AnyHit(db, deps, j) <==> EventOn(db, deps, j)
  {
    if AnyHit(db, deps, j) {
      var d :| d in deps && Hit(db, d, j);
      var kh :| kh in db && kh.1 == j && d.Covers(kh.0);
      assert (kh.0, j) == kh;
    }
    if EventOn(db, deps, j) {
      var d, k :| d in deps && d.Covers(k) && (k, j) in db;
      assert (k, j).1 == j && d.Covers((k, j).0);
      assert Hit(db, d, j);
    }
  }

  /** A height the search looks at: above the row's block, and above its bound or from the given start. */
  predicate Searched(row: Row, startFrom: Option<int>, j: int) {
    j > row.blockHeight && (j > row.validTo || (startFrom.Some? && j >= startFrom.value))
  }

  /**
   * Every case of asking whether a row is valid: before its block it is not; valid already and no start given,
   * it is, unchanged; if it cannot be extended it is not, unchanged. Otherwise it is valid exactly if no event
   * on its dependencies lies at a height searched, and its bound moves there, or to just before the first one.
   */
  lemma ExtendExact(row: Row, db: Db, upTo: int, startFrom: Option<int>)
    ensures var (row', valid) := Extend(row, db, upTo, startFrom);
            && row' == row.(validTo := row'.validTo)
            && (upTo < row.blockHeight ==> !valid && row' == row)
            && (row.blockHeight <= upTo <= row.validTo && startFrom.None? ==> valid && row' == row)
            && (!row.extendable ==>
                  row' == row && (valid <==> startFrom.None? && row.blockHeight <= upTo <= row.validTo))
    ensures var (row', valid) := Extend(row, db, upTo, startFrom);
            row.extendable && row.blockHeight <= upTo && (startFrom.Some? || row.validTo < upTo) ==>
              && (valid <==> forall j: nat :: Searched(row, startFrom, j) && j <= upTo ==> !EventOn(db, row.deps, j))
              && (valid ==> row'.validTo == upTo)
              && (!valid ==> 0 <= row'.validTo + 1 <= upTo && Searched(row, startFrom, row'.validTo + 1) &&
                             EventOn(db, row.deps, row'.validTo + 1) &&
                             forall j: nat :: Searched(row, startFrom, j) && j <= row'.validTo ==>
                                 !EventOn(db, row.deps, j))
  {
    forall j: nat ensures AnyHit(db, row.deps, j) <==> EventOn(db, row.deps, j) { EventIsHit(db, row.deps, j); }
    assert forall j: int :: Searched(row, startFrom, j) <==> SearchFrom(row, startFrom) <= j;
  }

  // ---- invalidateComputationsDependentOnChanges ----

  predicate RowAffected(row: Row, events: seq<Event>) {
    exists d, i :: d in row.deps && 0 <= i < |events| && Affected(d, events[i].key)
  }

  function Earliest(events: seq<Event>): (r: nat)
    requires events != []
    ensures forall i :: 0 <= i < |events| ==> r <= events[i].height
    ensures exists i :: 0 <= i < |events| && events[i].height == r
  {
    var last := events[|events| - 1].height;
    if |events| == 1 then last
    else
      var rest := Earliest(events[..|events| - 1]);
      if last < rest then last else rest
  }

  predicate Destroyed(row: Row, events: seq<Event>)
    requires events != []
  {
    RowAffected(row, events) && row.blockHeight >= Earliest(events)
  }

  predicate Cut(row: Row, events: seq<Event>)
    requires events != []
  {
    RowAffected(row, events) && row.extendable && row.blockHeight < Earliest(events) <= row.validTo
  }

  function Kept(rows: Rows, events: seq<Event>): Rows
    requires events != []
  {
    map key | key in rows && !Destroyed(rows[key], events) :: rows[key]
  }

  function CutKeys(rows: Rows, events: seq<Event>): set<(FormulaId, int)>
    requires events != []
  {
    set key | key in rows && Cut(rows[key], events)
  }

  function CutAll(rows: Rows, events: seq<Event>): Rows
    requires events != []
  {
    map key | key in rows :: if Cut(rows[key], events) then rows[key].(validTo := Earliest(events) - 1) else rows[key]
  }

  function Invalidate(rows: Rows, events: seq<Event>): Rows {
    if events == [] then rows else CutAll(Kept(rows, events), events)
  }

  /** The earliest change. */
  ghost predicate IsEarliest(events: seq<Event>, h: nat) {
    && (exists i :: 0 <= i < |events| && events[i].height == h)
    && (forall i :: 0 <= i < |events| ==> h <= events[i].height)
  }

  /** Some changed key is matched by a dependency of the row. */
  ghost predicate Matched(row: Row, events: seq<Event>) {
    exists d, i :: d in row.deps && 0 <= i < |events| && Affected(d, events[i].key)
  }

  /**
   * Every row after invalidation: none is added; one that no change matches is unchanged; a matched one is gone
   * exactly if it starts at or after the earliest change, and else only its bound can change: to just before
   * that change, exactly if the row is extendable and reached it.
   */
  lemma InvalidateExact(rows: Rows, events: seq<Event>, h: nat, key: (FormulaId, int))
    requires IsEarliest(events, h)
    ensures key in Invalidate(rows, events) ==> key in rows
    ensures key in rows && !Matched(rows[key], events) ==>
        key in Invalidate(rows, events) && Invalidate(rows, events)[key] == rows[key]
    ensures key in rows && Matched(rows[key], events) ==>
        (key !in Invalidate(rows, events) <==> rows[key].blockHeight >= h)
    ensures key in rows && Matched(rows[key], events) && rows[key].blockHeight < h ==>
              Invalidate(rows, events)[key] ==
              if rows[key].extendable && rows[key].validTo >= h then rows[key].(validTo := h - 1) else rows[key]
  {
    assert Earliest(events) == h;
  }

  /** The table after upserting the events. */
  function Upserted(db: Db, events: seq<Event>): Db {
    if events == [] then db
    else
      var e := events[|events| - 1];
      Upserted(db, events[..|events| - 1])[(e.key, e.height) := e.cell]
  }

  lemma {:induction false} UpsertedElsewhere(db: Db, events: seq<Event>, k: Key, j: nat)
    requires forall i :: 0 <= i < |events| ==> events[i].key != k || events[i].height != j
    ensures (k, j) in Upserted(db, events) <==> (k, j) in db
    ensures (k, j) in db ==> Upserted(db, events)[(k, j)] == db[(k, j)]
  {
    if events != [] {
      UpsertedElsewhere(db, events[..|events| - 1], k, j);
    }
  }

  /** A row's outcome at `h` survives a backfill of other keys, or of greater heights. */
  lemma BackfillAgrees(row: Row, f: Formula, db: Db, events: seq<Event>, h: int)
    requires row.extendable && RowOk(row, f, db) && row.blockHeight <= h <= row.validTo
    requires RowAffected(row, events) ==> forall i :: 0 <= i < |events| ==> h < events[i].height
    ensures Halts(f, Upserted(db, events), h) && Claims(row, Compute(f, Upserted(db, events), h))
  {
    var db' := Upserted(db, events);
    forall d | d in Compute(f, db, h).deps
      ensures Agree(db, h, db', h, d)
    {
      assert d in row.deps;
      forall k | d.Covers(k)
        ensures Latest(db, k, h) == Latest(db', k, h)
      {
        forall j: nat | j <= h
          ensures (k, j) in db' <==> (k, j) in db
          ensures (k, j) in db ==> db'[(k, j)] == db[(k, j)]
        {
          forall i | 0 <= i < |events|
            ensures events[i].key != k || events[i].height != j
          {
            if events[i].key == k { assert NeverMissed(d) && Affected(d, k); }
          }
          UpsertedElsewhere(db, events, k, j);
        }
        LatestLocal(db, db', k, h);
      }
    }
    ComputeAgrees(f, db, h, db', h);
  }

  lemma InvalidateKeeps(rows: Rows, meaning: FormulaId -> Formula, db: Db, events: seq<Event>)
    requires TableOk(rows, meaning, db)
    ensures TableOk(Invalidate(rows, events), meaning, Upserted(db, events))
  {
    var rows', db' := Invalidate(rows, events), Upserted(db, events);
    forall key | key in rows'
      ensures rows'[key].blockHeight == key.1 && RowOk(rows'[key], meaning(key.0), db')
    {
      var row, row' := rows[key], rows'[key];
      if row.extendable && events != [] {
        forall h | row'.blockHeight <= h <= row'.validTo
          ensures Halts(meaning(key.0), db', h) && Claims(row', Compute(meaning(key.0), db', h))
        {
          if RowAffected(row, events) {
            assert h < Earliest(events);
          }
          BackfillAgrees(row, meaning(key.0), db, events, h);
        }
      }
    }
  }

  // ---- append ----

  /** Every bound of the table lies below `h`. */
  ghost predicate BoundsBelow(rows: Rows, h: int) {
    forall key :: key in rows && rows[key].extendable ==> rows[key].validTo < h
  }

  lemma AppendKeeps(rows: Rows, meaning: FormulaId -> Formula, db: Db, events: seq<Event>)
    requires TableOk(rows, meaning, db) && forall i :: 0 <= i < |events| ==> BoundsBelow(rows, events[i].height)
    ensures TableOk(rows, meaning, Upserted(db, events))
  {
    forall key | key in rows
      ensures RowOk(rows[key], meaning(key.0), Upserted(db, events))
    {
      var row := rows[key];
      if row.extendable {
        forall h | row.blockHeight <= h <= row.validTo
          ensures Halts(meaning(key.0), Upserted(db, events), h) &&
              Claims(row, Compute(meaning(key.0), Upserted(db, events), h))
        {
          BackfillAgrees(row, meaning(key.0), db, events, h);
        }
      }
    }
  }

  // ---- whole runs ----

  datatype World = World(db: Db, rows: Rows)

  datatype Action =
    | Store(id: FormulaId, dynamic: bool, outs: seq<NewOutput>)
    | Revise(key: (FormulaId, int), upTo: int, startFrom: Option<int>)
    | Append(events: seq<Event>)
    | Backfill(events: seq<Event>)

  ghost predicate Enabled(w: World, a: Action, meaning: FormulaId -> Formula) {
    match a
    case Store(id, dynamic, outs) => OutsOk(outs, dynamic, meaning(id), w.db)
    case Revise(key, _, _) => key in w.rows
    case Append(events) => forall i :: 0 <= i < |events| ==> BoundsBelow(w.rows, events[i].height)
    case Backfill(_) => true
  }

  ghost function Apply(w: World, a: Action): World
    requires a.Revise? ==> a.key in w.rows
  {
    match a
    case Store(id, dynamic, outs) => World(w.db, StoreAll(w.rows, id, dynamic, outs))
    case Revise(key, upTo, startFrom) => World(w.db, w.rows[key := Extend(w.rows[key], w.db, upTo, startFrom).0])
    case Append(events) => World(Upserted(w.db, events), w.rows)
    case Backfill(events) => World(Upserted(w.db, events), Invalidate(w.rows, events))
  }

  /** What each action does: a batch of events is in the table afterwards, rows are stored, revised or invalidated. */
  lemma ActionEffects(w: World, a: Action)
    requires a.Revise? ==> a.key in w.rows
    ensures a.Append? || a.Backfill? ==>
              forall i :: 0 <= i < |a.events| && LastFor(a.events, i) ==>
                var at := (a.events[i].key, a.events[i].height);
                at in Apply(w, a).db && Apply(w, a).db[at] == a.events[i].cell
    ensures a.Store? || a.Revise? ==> Apply(w, a).db == w.db
    ensures a.Store? ==> Apply(w, a).rows == StoreAll(w.rows, a.id, a.dynamic, a.outs)
    ensures a.Revise? ==> Apply(w, a).rows == w.rows[a.key := Extend(w.rows[a.key], w.db, a.upTo, a.startFrom).0]
    ensures a.Append? ==> Apply(w, a).rows == w.rows
    ensures a.Backfill? ==> Apply(w, a).rows == Invalidate(w.rows, a.events)
  {
    if a.Append? || a.Backfill? {
      forall i | 0 <= i < |a.events| && LastFor(a.events, i)
        ensures var at := (a.events[i].key, a.events[i].height);
                at in Upserted(w.db, a.events) && Upserted(w.db, a.events)[at] == a.events[i].cell
      {
        UpsertedLast(w.db, a.events, i);
      }
    }
  }

  ghost predicate Good(w: World, meaning: FormulaId -> Formula) {
    TableOk(w.rows, meaning, w.db)
  }

  lemma StepKeeps(w: World, a: Action, meaning: FormulaId -> Formula)
    requires Good(w, meaning) && Enabled(w, a, meaning)
    ensures Good(Apply(w, a), meaning)
  {
    match a
    case Store(id, dynamic, outs) => StoreKeeps(w.rows, id, dynamic, outs, meaning, w.db);
    case Revise(key, upTo, startFrom) => ExtendKeeps(w.rows[key], meaning(key.0), w.db, upTo, startFrom);
    case Append(events) => AppendKeeps(w.rows, meaning, w.db, events);
    case Backfill(events) => InvalidateKeeps(w.rows, meaning, w.db, events);
  }

  /** A run from an empty computation table: each step is enabled and leads to the next world. */
  ghost predicate IsRun(worlds: seq<World>, actions: seq<Action>, meaning: FormulaId -> Formula) {
    && |worlds| == |actions| + 1
    && worlds[0].rows == map[]
    && forall i :: 0 <= i < |actions| ==>
         Enabled(worlds[i], actions[i], meaning) && worlds[i + 1] == Apply(worlds[i], actions[i])
  }

  lemma {:induction false} RunGood(worlds: seq<World>, actions: seq<Action>, meaning: FormulaId -> Formula, i: nat)
    requires IsRun(worlds, actions, meaning) && i < |worlds|
    ensures Good(worlds[i], meaning)
  {
    if i > 0 {
      RunGood(worlds, actions, meaning, i - 1);
      StepKeeps(worlds[i - 1], actions[i - 1], meaning);
    }
  }

  /** Whatever was stored, extended, appended and backfilled before: a surviving extendable row never lies. */
  lemma NoStaleRows(worlds: seq<World>, actions: seq<Action>, meaning: FormulaId -> Formula, i: nat,
      key: (FormulaId, int), h: int)
    requires IsRun(worlds, actions, meaning) && i < |worlds|
    requires key in worlds[i].rows && worlds[i].rows[key].extendable
    requires worlds[i].rows[key].blockHeight <= h <= worlds[i].rows[key].validTo
    ensures Halts(meaning(key.0), worlds[i].db, h)
    ensures var o, row := Compute(meaning(key.0), worlds[i].db, h), worlds[i].rows[key];
            && (!o.value.Undefined? ==> row.output == o.value) && (o.value.Undefined? ==> row.output == Null)
            && o.block == row.blockHeight == key.1
            && (forall d :: d in row.deps <==> d in o.deps)
  {
    RunGood(worlds, actions, meaning, i);
  }

  /** The formula that reads one key and returns its value. */
  const ECHO := Formula((answers: seq<Answer>) =>
    if |answers| == 0 then Read(Dep("k", false))
    else if answers[0].Item? then Done(Json(answers[0].event.cell.text))
    else Done(Null))

  lemma EchoComputes(db: Db, h: int)
    ensures Halts(ECHO, db, h)
    ensures Compute(ECHO, db, h).deps == [Dep("k", false)]
    ensures Compute(ECHO, db, h).value == match Latest(db, "k", h)
                                          case None => Null
                                          case Some(e) => if e.cell.deleted then Null else Json(e.cell.text)
  {
    assert RunFor(ECHO, db, h, 0) == Run([], []);
    assert RunFor(ECHO, db, h, 1) == Run([Dep("k", false)], [Ask(db, Dep("k", false), h)]);
    assert HaltsIn(ECHO, db, h, 1);
    ComputeIs(ECHO, db, h, 1);
  }

  // ---- appending without invalidation ----

  /** Every event on a dependency lies above the row's bound. */
  ghost predicate Above(row: Row, events: seq<Event>) {
    forall i, d :: 0 <= i < |events| && d in row.deps && d.Covers(events[i].key) ==> events[i].height > row.validTo
  }

  lemma {:induction false} UpsertedHas(db: Db, events: seq<Event>, i: nat)
    requires i < |events|
    ensures (events[i].key, events[i].height) in Upserted(db, events)
  {
    if i < |events| - 1 { UpsertedHas(db, events[..|events| - 1], i); }
  }

  /** No later event of the batch has the key and height of event `i`. */
  ghost predicate LastFor(events: seq<Event>, i: nat)
    requires i < |events|
  {
    forall j :: i < j < |events| ==> events[j].key != events[i].key || events[j].height != events[i].height
  }

  /** The last event of a batch for a key and height is what the table then holds. */
  lemma {:induction false} UpsertedLast(db: Db, events: seq<Event>, i: nat)
    requires i < |events| && LastFor(events, i)
    ensures var at := (events[i].key, events[i].height);
            at in Upserted(db, events) && Upserted(db, events)[at] == events[i].cell
  {
    if i < |events| - 1 { UpsertedLast(db, events[..|events| - 1], i); }
  }

  /** An event at the height computed, on a key read, makes that height the reported block. */
  lemma HitIsBlock(f: Formula, db: Db, h: nat, d: Dep, k: Key)
    requires Halts(f, db, h) && d in Compute(f, db, h).deps && d.Covers(k) && (k, h) in db
    ensures Compute(f, db, h).block == h
  {
    assert (k, h).1 == h && d.Covers((k, h).0);
    assert Hit(db, d, h);
    assert Newest(db, d, h) == h;
    var n: nat :| HaltsIn(f, db, h, n) && Compute(f, db, h) == OutcomeOf(f, db, h, n);
  }

  lemma AboveKeeps(row: Row, f: Formula, db: Db, events: seq<Event>, h: int)
    requires row.extendable && RowOk(row, f, db) && Above(row, events) && row.blockHeight <= h <= row.validTo
    ensures Halts(f, Upserted(db, events), h) && Claims(row, Compute(f, Upserted(db, events), h))
  {
    var db' := Upserted(db, events);
    forall d, k | d in Compute(f, db, h).deps && d.Covers(k)
      ensures Latest(db, k, h) == Latest(db', k, h)
    {
      assert d in row.deps;
      forall j: nat | j <= h
        ensures (k, j) in db' <==> (k, j) in db
        ensures (k, j) in db ==> db'[(k, j)] == db[(k, j)]
      {
        UpsertedElsewhere(db, events, k, j);
      }
      LatestLocal(db, db', k, h);
    }
    ComputeAgrees(f, db, h, db', h);
  }

  /**
   * Events above a row's block and not followed by invalidation leave the row true exactly if those on its
   * dependencies lie above its bound: one at or below the bound always makes it false.
   */
  lemma AppendKeepsRowIff(row: Row, f: Formula, db: Db, events: seq<Event>)
    requires row.extendable && RowOk(row, f, db) && forall i :: 0 <= i < |events| ==> events[i].height > row.blockHeight
    ensures RowOk(row, f, Upserted(db, events)) <==> Above(row, events)
  {
    var db' := Upserted(db, events);
    if Above(row, events) {
      forall h | row.blockHeight <= h <= row.validTo
        ensures Halts(f, db', h) && Claims(row, Compute(f, db', h))
      {
        AboveKeeps(row, f, db, events, h);
      }
    }
    if RowOk(row, f, db') {
      forall i, d | 0 <= i < |events| && d in row.deps && d.Covers(events[i].key)
        ensures events[i].height > row.validTo
      {
        UpsertedHas(db, events, i);
        if events[i].height <= row.validTo {
          HitIsBlock(f, db', events[i].height, d, events[i].key);
          assert false;
        }
      }
    }
  }

  /** The whole table stays true exactly if this holds of every extendable row. */
  lemma AppendKeepsIff(rows: Rows, meaning: FormulaId -> Formula, db: Db, events: seq<Event>)
    requires TableOk(rows, meaning, db)
    requires forall key, i :: key in rows && rows[key].extendable && 0 <= i < |events| ==>
        events[i].height > rows[key].blockHeight
    ensures TableOk(rows, meaning, Upserted(db, events)) <==>
        forall key :: key in rows && rows[key].extendable ==> Above(rows[key], events)
  {
    forall key | key in rows && rows[key].extendable
      ensures RowOk(rows[key], meaning(key.0), Upserted(db, events)) <==> Above(rows[key], events)
    {
      AppendKeepsRowIff(rows[key], meaning(key.0), db, events);
    }
  }

  /** An instance: nothing stored, a row claiming blocks up to 5, and an event at 3. */
  lemma AppendBelowBoundLies()
    ensures var row := Row(-1, 5, true, {Dep("k", false)}, Null);
            && RowOk(row, ECHO, map[])
            && !RowOk(row, ECHO, Upserted(map[], [Event("k", 3, Cell("1", false))]))
  {
    var row, e := Row(-1, 5, true, {Dep("k", false)}, Null), Event("k", 3, Cell("1", false));
    forall h | -1 <= h <= 5
      ensures Halts(ECHO, map[], h) && Claims(row, Compute(ECHO, map[], h))
    {
      EchoComputes(map[], h);
      assert DepSet([Dep("k", false)]) == {Dep("k", false)};
    }
    NeverMissedIff(Dep("k", false));
    AppendKeepsRowIff(row, ECHO, map[], [e]);
    assert [e][0].height <= row.validTo && Dep("k", false).Covers([e][0].key);
  }

  // ---- the table ----

  class ComputationTable {
    var rows: Rows

    constructor ()
      ensures rows == map[]
    {
      rows := map[];
    }

    /** Upsert each output and bring its dependencies up to date: drop those no longer read, add the new ones. */
    method CreateFromComputationOutputs(id: FormulaId, dynamic: bool, outs: seq<NewOutput>)
      modifies this
      ensures rows == StoreAll(old(rows), id, dynamic, outs)
    {
      for i := 0 to |outs|
        invariant rows == StoreAll(old(rows), id, dynamic, outs[..i])
      {
        assert outs[..i + 1][..i] == outs[..i] && outs[..i + 1][i] == outs[i];
        var out := outs[i];
        var key := (id, Height(out.block));
        var existing: set<Dep> := if key in rows then rows[key].deps else {};
        var toDelete := existing - DepSet(out.deps);
        var toAdd := DepSet(out.deps) - existing;
        var deps := existing - toDelete + toAdd;
        assert deps == DepSet(out.deps);
        var validTo := if out.validTo.Some? then out.validTo.value else Height(out.block);
        rows := rows[key := Row(Height(out.block), validTo, !dynamic, deps, Stored(out.value))];
      }
      assert outs[..|outs|] == outs;
    }

    /** Whether the row is valid at `upTo`, moving its bound if needed. */
    method UpdateValidityUpToBlockHeight(key: (FormulaId, int), db: Db, upTo: int, startFrom: Option<int>)
        returns (valid: bool)
      requires key in rows
      modifies this
      ensures rows == old(rows)[key := Extend(old(rows[key]), db, upTo, startFrom).0]
      ensures valid == Extend(old(rows[key]), db, upTo, startFrom).1
    {
      var row := rows[key];
      if upTo < row.blockHeight {
        assert rows == rows[key := row];
        return false;
      }
      if startFrom.None? && row.validTo >= upTo {
        assert rows == rows[key := row];
        return true;
      }
      if !row.extendable {
        assert rows == rows[key := row];
        return false;
      }
      var first := FirstNewerEvent(db, row.deps, SearchFrom(row, startFrom), upTo);
      if first.None? {
        rows := rows[key := row.(validTo := upTo)];
        return true;
      }
      var event: int := first.value;
      rows := rows[key := row.(validTo := event - 1)];
      return false;
    }

    /** Scan upwards for an event on a dependency. */
    static method FirstNewerEvent(db: Db, deps: set<Dep>, from: int, upTo: int) returns (first: Option<nat>)
      ensures first == FirstHit(db, deps, from, upTo)
    {
      var h := from;
      while h <= upTo
        invariant FirstHit(db, deps, from, upTo) == FirstHit(db, deps, h, upTo)
        decreases upTo - h
      {
        if h >= 0 && AnyHit(db, deps, h) { return Some(h); }
        h := h + 1;
      }
      first := None;
    }

    /** Destroy the affected rows that start at or after the earliest change; cut the affected rows that span it. */
    method InvalidateDependentOnChanges(events: seq<Event>) returns (updated: nat, destroyed: nat)
      modifies this
      ensures rows == Invalidate(old(rows), events)
      ensures destroyed == |old(rows)| - |rows|
      ensures updated == if events == [] then 0 else |CutKeys(Kept(old(rows), events), events)|
    {
      updated, destroyed := 0, 0;
      if |events| == 0 { return; }
      var earliest := EarliestBlockHeight(events);
      destroyed := DestroyFrom(earliest, events);
      ghost var kept := rows.Keys;
      updated := CutAt(earliest, events);
      assert |rows.Keys| == |kept|;
    }

    /** Step 1: destroy the affected rows starting at or after the earliest block. */
    method DestroyFrom(earliest: int, events: seq<Event>) returns (destroyed: nat)
      requires events != [] && earliest == Earliest(events)
      modifies this
      ensures rows == Kept(old(rows), events) && destroyed == |old(rows)| - |rows|
    {
      var toDestroy := set key | key in rows && rows[key].blockHeight >= earliest && RowAffected(rows[key], events);
      var kept := map key | key in rows && key !in toDestroy :: rows[key];
      assert kept.Keys == rows.Keys - toDestroy && toDestroy <= rows.Keys;
      assert kept == Kept(rows, events);
      destroyed := |toDestroy|;
      rows := kept;
    }

    /** Step 2: cut the affected rows starting before it and valid at or after it. */
    method CutAt(earliest: int, events: seq<Event>) returns (updated: nat)
      requires events != [] && earliest == Earliest(events)
      modifies this
      ensures rows == CutAll(old(rows), events) && updated == |CutKeys(old(rows), events)|
      ensures rows.Keys == old(rows).Keys
    {
      var toUpdate := set key | key in rows && rows[key].blockHeight < earliest && rows[key].validTo >= earliest &&
                                 rows[key].extendable && RowAffected(rows[key], events);
      assert toUpdate == CutKeys(rows, events);
      updated := |toUpdate|;
      rows := map key | key in rows :: if key in toUpdate then rows[key].(validTo := earliest - 1) else rows[key];
    }

    /** The minimum height, with -1 for "none yet". */
    static method EarliestBlockHeight(events: seq<Event>) returns (earliest: int)
      requires events != []
      ensures earliest == Earliest(events)
    {
      earliest := -1;
      for i := 0 to |events|
        invariant i == 0 ==> earliest == -1
        invariant i > 0 ==> earliest == Earliest(events[..i])
      {
        assert events[..i + 1][..i] == events[..i] && events[..i + 1][i] == events[i];
        earliest := if earliest == -1 then events[i].height else Min(earliest, events[i].height);
      }
      assert events[..|events|] == events;
    }
  }
}
