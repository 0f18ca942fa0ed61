/** Batching traced items by block and exporting each batch without duplicates. */
module TraceExporter {
  datatype Item = Item(handler: string, id: string, background: bool, data: string, height: nat)

  /** An item with its place in the batch. */
  datatype Entry = Entry(item: Item, index: nat)

  /** A queue job: the block height it is filed under, and the data in order. */
  datatype Job = Job(height: nat, items: seq<Item>)

  /** The rows written downstream, by handler and item ID. */
  type Table = map<(string, string), string>

  function KeyOf(i: Item): string {
    i.handler + ":" + i.id
  }

  function SlotOf(i: Item): (string, string) {
    (i.handler, i.id)
  }

  // ---- removing duplicates ----

  /** Set a property of an object: in place if it exists, else at the end. */
  function Put(entries: seq<Entry>, e: Entry): seq<Entry> {
    if entries == [] then [e]
    else if KeyOf(entries[0].item) == KeyOf(e.item) then [e] + entries[1..]
    else [entries[0]] + Put(entries[1..], e)
  }

  function Insert(e: Entry, sorted: seq<Entry>): seq<Entry> {
    if sorted == [] || e.index <= sorted[0].index then [e] + sorted else [sorted[0]] + Insert(e, sorted[1..])
  }

  function SortByIndex(entries: seq<Entry>): seq<Entry> {
    if entries == [] then [] else Insert(entries[0], SortByIndex(entries[1..]))
  }

  function Items(entries: seq<Entry>): seq<Item> {
    seq(|entries|, i requires 0 <= i < |entries| => entries[i].item)
  }

  /** Keep the last item of each key, in order of arrival. */
  method RemoveDuplicates(batch: seq<Item>) returns (unique: seq<Item>)
    ensures unique == Unique(batch)
  {
    var entries: seq<Entry> := [];
    for n := 0 to |batch|
      invariant Tidy(entries, n) && SortByIndex(entries) == Last(batch, n)
    {
      PutStep(batch, n, entries);
      entries := Put(entries, Entry(batch[n], n));
    }
    unique := Items(SortByIndex(entries));
    LastIsUnique(batch, |batch|);
    assert batch[..|batch|] == batch;
  }

  lemma PutStep(batch: seq<Item>, n: nat, entries: seq<Entry>)
    requires n < |batch| && Tidy(entries, n) && SortByIndex(entries) == Last(batch, n)
    ensures var more := Put(entries, Entry(batch[n], n)); Tidy(more, n + 1) && SortByIndex(more) == Last(batch, n + 1)
  {
    PutTidy(entries, Entry(batch[n], n));
    SortPut(entries, Entry(batch[n], n));
  }

  /** The simple form: a newer item removes the older one of its key. */
  function Unique(batch: seq<Item>): seq<Item> {
    if batch == [] then [] else
      var x := batch[|batch| - 1];
      Without(Unique(batch[..|batch| - 1]), KeyOf(x)) + [x]
  }

  function Without(items: seq<Item>, key: string): seq<Item> {
    if items == [] then []
    else if KeyOf(items[0]) == key then Without(items[1..], key)
    else [items[0]] + Without(items[1..], key)
  }

  /** The same over entries. */
  function Last(batch: seq<Item>, n: nat): seq<Entry>
    requires n <= |batch|
  {
    if n == 0 then [] else Drop(Last(batch, n - 1), KeyOf(batch[n - 1])) + [Entry(batch[n - 1], n - 1)]
  }

  function Drop(entries: seq<Entry>, key: string): seq<Entry> {
    if entries == [] then []
    else if KeyOf(entries[0].item) == key then Drop(entries[1..], key)
    else [entries[0]] + Drop(entries[1..], key)
  }

  lemma {:induction false} DropItems(entries: seq<Entry>, key: string)
    ensures Items(Drop(entries, key)) == Without(Items(entries), key)
  {
    if entries != [] {
      DropItems(entries[1..], key);
      assert Items(entries)[1..] == Items(entries[1..]);
      assert Items(entries)[0] == entries[0].item;
    }
  }

  lemma {:induction false} LastIsUnique(batch: seq<Item>, n: nat)
    requires n <= |batch|
    ensures Items(Last(batch, n)) == Unique(batch[..n])
  {
    if n > 0 {
      LastIsUnique(batch, n - 1);
      DropItems(Last(batch, n - 1), KeyOf(batch[n - 1]));
      assert batch[..n][..n - 1] == batch[..n - 1];
    }
  }

  /** One entry per key, all older than `n`. */
  ghost predicate Tidy(entries: seq<Entry>, n: nat) {
    && (forall i :: 0 <= i < |entries| ==> entries[i].index < n)
    && (forall i, j :: 0 <= i < j < |entries| ==> KeyOf(entries[i].item) != KeyOf(entries[j].item))
  }

  lemma {:induction false} PutKeys(entries: seq<Entry>, e: Entry, i: nat)
    requires i < |Put(entries, e)|
    ensures Put(entries, e)[i] == e || Put(entries, e)[i] in entries
  {
    if entries != [] && KeyOf(entries[0].item) != KeyOf(e.item) && i > 0 {
      PutKeys(entries[1..], e, i - 1);
    }
  }

  lemma {:induction false} PutTidy(entries: seq<Entry>, e: Entry)
    requires Tidy(entries, e.index)
    ensures Tidy(Put(entries, e), e.index + 1)
  {
    if entries != [] && KeyOf(entries[0].item) != KeyOf(e.item) {
      var rest := Put(entries[1..], e);
      PutTidy(entries[1..], e);
      forall j | 0 <= j < |rest| ensures KeyOf(entries[0].item) != KeyOf(rest[j].item) {
        PutKeys(entries[1..], e, j);
      }
    }
  }

  ghost predicate Sorted(entries: seq<Entry>) {
    forall i, j :: 0 <= i < j < |entries| ==> entries[i].index <= entries[j].index
  }

  lemma {:induction false} InsertMember(e: Entry, sorted: seq<Entry>, x: Entry)
    ensures x in Insert(e, sorted) <==> x == e || x in sorted
  {
    if !(sorted == [] || e.index <= sorted[0].index) {
      InsertMember(e, sorted[1..], x);
      assert sorted == [sorted[0]] + sorted[1..];
    }
  }

  lemma {:induction false} InsertSorted(e: Entry, sorted: seq<Entry>)
    requires Sorted(sorted)
    ensures Sorted(Insert(e, sorted))
  {
    if !(sorted == [] || e.index <= sorted[0].index) {
      var rest := Insert(e, sorted[1..]);
      InsertSorted(e, sorted[1..]);
      forall j | 0 <= j < |rest| ensures sorted[0].index <= rest[j].index {
        InsertMember(e, sorted[1..], rest[j]);
      }
    }
  }

  lemma {:induction false} SortSorted(entries: seq<Entry>)
    ensures Sorted(SortByIndex(entries)) && forall x :: x in SortByIndex(entries) <==> x in entries
  {
    if entries != [] {
      SortSorted(entries[1..]);
      InsertSorted(entries[0], SortByIndex(entries[1..]));
      assert entries == [entries[0]] + entries[1..];
      forall x ensures x in SortByIndex(entries) <==> x in entries {
        InsertMember(entries[0], SortByIndex(entries[1..]), x);
      }
    }
  }

  /** An entry newer than all others goes to the end. */
  lemma {:induction false} InsertNewest(e: Entry, sorted: seq<Entry>)
    requires forall x :: x in sorted ==> x.index < e.index
    ensures Insert(e, sorted) == sorted + [e]
  {
    if sorted != [] { InsertNewest(e, sorted[1..]); }
  }

  lemma {:induction false} InsertBefore(a: Entry, sorted: seq<Entry>, e: Entry)
    requires a.index < e.index
    ensures Insert(a, sorted + [e]) == Insert(a, sorted) + [e]
  {
    if !(sorted == [] || a.index <= sorted[0].index) {
      InsertBefore(a, sorted[1..], e);
      assert (sorted + [e])[1..] == sorted[1..] + [e];
    }
  }

  lemma {:induction false} DropNothing(entries: seq<Entry>, key: string)
    requires forall x :: x in entries ==> KeyOf(x.item) != key
    ensures Drop(entries, key) == entries
  {
    if entries != [] { DropNothing(entries[1..], key); }
  }

  lemma {:induction false} DropFirst(entries: seq<Entry>, key: string, bound: nat)
    requires Sorted(entries) && forall x :: x in entries ==> bound <= x.index
    ensures Drop(entries, key) != [] ==> bound <= Drop(entries, key)[0].index
  {
    if entries != [] { DropFirst(entries[1..], key, bound); }
  }

  /** Dropping the inserted entry's own key undoes the insertion. */
  lemma {:induction false} DropInserted(a: Entry, sorted: seq<Entry>, key: string)
    requires Sorted(sorted)
    ensures KeyOf(a.item) == key ==> Drop(Insert(a, sorted), key) == Drop(sorted, key)
    ensures KeyOf(a.item) != key ==> Drop(Insert(a, sorted), key) == Insert(a, Drop(sorted, key))
  {
    if sorted == [] || a.index <= sorted[0].index {
      assert ([a] + sorted)[1..] == sorted;
      DropFirst(sorted, key, a.index);
    } else {
      DropInserted(a, sorted[1..], key);
      assert Insert(a, sorted)[1..] == Insert(a, sorted[1..]);
      assert ([sorted[0]] + Drop(sorted[1..], key))[1..] == Drop(sorted[1..], key);
    }
  }

  /** Sorting after setting a property: its old entry is gone and the new one is last. */
  lemma {:induction false} SortPut(entries: seq<Entry>, e: Entry)
    requires Tidy(entries, e.index)
    ensures SortByIndex(Put(entries, e)) == Drop(SortByIndex(entries), KeyOf(e.item)) + [e]
  {
    if entries != [] {
      var a, rest, key := entries[0], entries[1..], KeyOf(e.item);
      var sorted := SortByIndex(rest);
      SortSorted(rest);
      DropInserted(a, sorted, key);
      if KeyOf(a.item) == key {
        DropNothing(sorted, key);
        InsertNewest(e, sorted);
        assert ([e] + rest)[1..] == rest;
      } else {
        SortPut(rest, e);
        InsertBefore(a, Drop(sorted, key), e);
        assert ([a] + Put(rest, e))[1..] == Put(rest, e);
      }
    }
  }

  // ---- last write wins ----

  function Upsert(t: Table, items: seq<Item>): Table {
    if items == [] then t else Upsert(t, items[..|items| - 1])[SlotOf(items[|items| - 1]) := items[|items| - 1].data]
  }

  lemma {:induction false} UpsertConcat(t: Table, a: seq<Item>, b: seq<Item>)
    ensures Upsert(t, a + b) == Upsert(Upsert(t, a), b)
  {
    if b == [] {
      assert a + b == a;
    } else {
      UpsertConcat(t, a, b[..|b| - 1]);
      assert (a + b)[..|a + b| - 1] == a + b[..|b| - 1];
    }
  }

  /** Index of the first colon, or the length. */
  function FirstColon(s: string): nat {
    if s == [] || s[0] == ':' then 0 else 1 + FirstColon(s[1..])
  }

  lemma {:induction false} ColonAfter(handler: string, id: string)
    requires ':' !in handler
    ensures FirstColon(handler + ":" + id) == |handler|
  {
    var s := handler + ":" + id;
    if handler != [] {
      ColonAfter(handler[1..], id);
      assert s[1..] == handler[1..] + ":" + id;
    }
  }

  /** Handler names have no colon. */
  ghost predicate PlainHandlers(items: seq<Item>) {
    forall i :: 0 <= i < |items| ==> ':' !in items[i].handler
  }

  /** Then equal keys mean equal slots. */
  lemma KeyIsSlot(a: Item, b: Item)
    requires ':' !in a.handler && ':' !in b.handler
    ensures KeyOf(a) == KeyOf(b) <==> SlotOf(a) == SlotOf(b)
    ensures SlotOf(a) == SlotOf(b) <==> a.handler == b.handler && a.id == b.id
  {
    if KeyOf(a) == KeyOf(b) {
      ColonAfter(a.handler, a.id);
      ColonAfter(b.handler, b.id);
      assert a.handler == KeyOf(a)[..|a.handler|] && b.handler == KeyOf(b)[..|b.handler|];
      assert a.id == KeyOf(a)[|a.handler| + 1..] && b.id == KeyOf(b)[|b.handler| + 1..];
    }
  }

  lemma {:induction false} WithoutEnd(items: seq<Item>, y: Item, key: string)
    ensures Without(items + [y], key) == Without(items, key) + if KeyOf(y) == key then [] else [y]
  {
    if items == [] {
      assert [] + [y] == [y];
    } else {
      WithoutEnd(items[1..], y, key);
      assert (items + [y])[1..] == items[1..] + [y];
    }
  }

  lemma WriteAgain(m: Table, n: Table, x: Item, y: Item)
    requires m[SlotOf(x) := x.data] == n[SlotOf(x) := x.data]
    ensures SlotOf(y) != SlotOf(x) ==>
        m[SlotOf(y) := y.data][SlotOf(x) := x.data] == n[SlotOf(y) := y.data][SlotOf(x) := x.data]
    ensures SlotOf(y) == SlotOf(x) ==> m[SlotOf(x) := x.data] == n[SlotOf(y) := y.data][SlotOf(x) := x.data]
  {
    var a, b := SlotOf(x), SlotOf(y);
    if a != b {
      assert m[b := y.data][a := x.data] == m[a := x.data][b := y.data];
      assert n[b := y.data][a := x.data] == n[a := x.data][b := y.data];
    }
  }

  lemma UpsertEnd(t: Table, items: seq<Item>, y: Item)
    ensures Upsert(t, items + [y]) == Upsert(t, items)[SlotOf(y) := y.data]
  {
    assert (items + [y])[..|items|] == items;
  }

  /** Equal keys mean equal slots. */
  ghost predicate KeysMeanSlots(items: seq<Item>) {
    forall a, b :: a in items && b in items && KeyOf(a) == KeyOf(b) ==> SlotOf(a) == SlotOf(b)
  }

  lemma PlainKeysMeanSlots(items: seq<Item>)
    requires PlainHandlers(items)
    ensures KeysMeanSlots(items)
  {
    forall a, b | a in items && b in items && KeyOf(a) == KeyOf(b)
      ensures SlotOf(a) == SlotOf(b)
    {
      KeyIsSlot(a, b);
    }
  }

  /** A later write makes earlier writes to its slot irrelevant. */
  lemma {:induction false} UpsertWithout(t: Table, items: seq<Item>, x: Item)
    requires forall y :: y in items && KeyOf(y) == KeyOf(x) ==> SlotOf(y) == SlotOf(x)
    ensures Upsert(t, Without(items, KeyOf(x)))[SlotOf(x) := x.data] == Upsert(t, items)[SlotOf(x) := x.data]
  {
    if items != [] {
      var front, y, key := items[..|items| - 1], items[|items| - 1], KeyOf(x);
      UpsertWithout(t, front, x);
      assert items == front + [y];
      WithoutEnd(front, y, key);
      WriteAgain(Upsert(t, Without(front, key)), Upsert(t, front), x, y);
      UpsertEnd(t, Without(front, key), y);
      if KeyOf(y) == key {
        assert Without(items, key) == Without(front, key);
      } else {
        assert SlotOf(y) != SlotOf(x);
      }
    }
  }

  lemma {:induction false} WithoutMember(items: seq<Item>, key: string, y: Item)
    ensures y in Without(items, key) <==> y in items && KeyOf(y) != key
  {
    if items != [] {
      WithoutMember(items[1..], key, y);
      assert items == [items[0]] + items[1..];
    }
  }

  lemma {:induction false} UniqueMember(batch: seq<Item>, y: Item)
    requires y in Unique(batch)
    ensures y in batch
  {
    if batch != [] {
      var front, x := batch[..|batch| - 1], batch[|batch| - 1];
      assert batch == front + [x];
      WithoutMember(Unique(front), KeyOf(x), y);
      if y != x { UniqueMember(front, y); }
    }
  }

  /**
   * Where keys mean slots, writing a batch without its duplicates leaves the rows that writing all of it in order
   * leaves.
   */
  lemma {:induction false} UniqueUpserts(t: Table, batch: seq<Item>)
    requires KeysMeanSlots(batch)
    ensures Upsert(t, Unique(batch)) == Upsert(t, batch)
  {
    if batch != [] {
      var front, x := batch[..|batch| - 1], batch[|batch| - 1];
      assert batch == front + [x];
      UniqueUpserts(t, front);
      forall y | y in Unique(front) && KeyOf(y) == KeyOf(x)
        ensures SlotOf(y) == SlotOf(x)
      {
        UniqueMember(front, y);
      }
      UpsertWithout(t, Unique(front), x);
      UpsertEnd(t, Without(Unique(front), KeyOf(x)), x);
    }
  }

  /** No key is left twice. */
  lemma {:induction false} UniqueOnce(batch: seq<Item>, a: Item, b: Item)
    requires a in Unique(batch) && b in Unique(batch) && KeyOf(a) == KeyOf(b)
    ensures a == b
  {
    if batch != [] {
      var front, x := batch[..|batch| - 1], batch[|batch| - 1];
      WithoutMember(Unique(front), KeyOf(x), a);
      WithoutMember(Unique(front), KeyOf(x), b);
      if a != x && b != x { UniqueOnce(front, a, b); }
    }
  }

  lemma {:induction false} UpsertSlots(items: seq<Item>, slot: (string, string))
    ensures slot in Upsert(map[], items) <==> exists y :: y in items && SlotOf(y) == slot
  {
    if items != [] {
      var front, x := items[..|items| - 1], items[|items| - 1];
      UpsertSlots(front, slot);
      assert items == front + [x];
    }
  }

  ghost predicate DropsSafely(batch: seq<Item>) {
    forall t :: Upsert(t, Unique(batch)) == Upsert(t, batch)
  }

  /** Dropping duplicates is harmless for every table exactly if equal keys in the batch mean equal slots. */
  lemma DropsSafelyIff(batch: seq<Item>)
    ensures DropsSafely(batch) <==> KeysMeanSlots(batch)
  {
    if KeysMeanSlots(batch) {
      forall t ensures Upsert(t, Unique(batch)) == Upsert(t, batch) { UniqueUpserts(t, batch); }
    }
    if DropsSafely(batch) {
      assert Upsert(map[], Unique(batch)) == Upsert(map[], batch);
      forall a, b | a in batch && b in batch && KeyOf(a) == KeyOf(b)
        ensures SlotOf(a) == SlotOf(b)
      {
        SlotKept(batch, a, b);
      }
    }
  }

  lemma SlotKept(batch: seq<Item>, a: Item, b: Item)
    requires Upsert(map[], Unique(batch)) == Upsert(map[], batch)
    requires a in batch && b in batch && KeyOf(a) == KeyOf(b)
    ensures SlotOf(a) == SlotOf(b)
  {
    UpsertSlots(batch, SlotOf(a));
    UpsertSlots(batch, SlotOf(b));
    UpsertSlots(Unique(batch), SlotOf(a));
    UpsertSlots(Unique(batch), SlotOf(b));
    var x :| x in Unique(batch) && SlotOf(x) == SlotOf(a);
    var y :| y in Unique(batch) && SlotOf(y) == SlotOf(b);
    UniqueOnce(batch, x, y);
  }

  // ---- the exporter ----

  /**
   * `pending` items not yet exported, whether a debounced export is scheduled, and the jobs added to the two queues.
   */
  datatype State = State(pending: seq<Item>, timer: bool, jobs: seq<Job>, background: seq<Job>)

  function InBackground(items: seq<Item>): seq<Item> {
    if items == [] then []
    else if items[0].background then [items[0]] + InBackground(items[1..])
    else InBackground(items[1..])
  }

  function Flushed(s: State): State {
    if s.pending == [] then s.(timer := false)
    else
      var height, unique := s.pending[|s.pending| - 1].height, Unique(s.pending);
      var slow := InBackground(unique);
      State([], false, s.jobs + [Job(height, unique)],
            if slow == [] then s.background else s.background + [Job(height, slow)])
  }

  /** Push items, then export if the batch is full, else schedule an export. */
  function Pushed(s: State, items: seq<Item>, max: int): State {
    var more := s.(pending := s.pending + items);
    if |more.pending| >= max then Flushed(more) else more.(timer := true)
  }

  /** A newer block than the last pending item's has the batch exported first. */
  function Ready(s: State, height: nat): State {
    if s.pending != [] && height > s.pending[|s.pending| - 1].height then Flushed(s) else s
  }

  function Received(s: State, items: seq<Item>, height: nat, max: int): State {
    if items == [] then s else Pushed(Ready(s, height), items, max)
  }

  class BatchedTraceExporter {
    var pendingBatch: seq<Item>
    var debounceTimer: bool
    const maxBatchSize: int
    var exportQueue: seq<Job>
    var backgroundQueue: seq<Job>

    ghost function Abs(): State
      reads this
    {
      State(pendingBatch, debounceTimer, exportQueue, backgroundQueue)
    }

    constructor (maxBatchSize: int)
      ensures Abs() == State([], false, [], []) && this.maxBatchSize == maxBatchSize
    {
      pendingBatch, debounceTimer, exportQueue, backgroundQueue := [], false, [], [];
      this.maxBatchSize := maxBatchSize;
    }

    /** Also what `awaitFlush` and the debounce timer run. */
    method ExportBatch()
      modifies this
      ensures Abs() == Flushed(old(Abs()))
    {
      debounceTimer := false;
      if pendingBatch == [] { return; }
      var unique := RemoveDuplicates(pendingBatch);
      var height := pendingBatch[|pendingBatch| - 1].height;
      var slow := InBackground(unique);
      exportQueue := exportQueue + [Job(height, unique)];
      if slow != [] {
        backgroundQueue := backgroundQueue + [Job(height, slow)];
      }
      pendingBatch := [];
    }

    method ExportItems(items: seq<Item>, currentBlockHeight: nat)
      modifies this
      ensures Abs() == Received(old(Abs()), items, currentBlockHeight, maxBatchSize)
    {
      if |items| == 0 { return; }
      if pendingBatch != [] && currentBlockHeight > pendingBatch[|pendingBatch| - 1].height {
        ExportBatch();
      }
      pendingBatch := pendingBatch + items;
      if |pendingBatch| >= maxBatchSize {
        ExportBatch();
      } else {
        debounceTimer := true;
      }
    }
  }

  // ---- whole runs ----

  /** Items of one trace arriving, or an export by the timer or an explicit flush. */
  datatype Step = Arrive(items: seq<Item>, height: nat) | Flush

  function Next(s: State, step: Step, max: int): State {
    match step
    case Arrive(items, height) => Received(s, items, height, max)
    case Flush => Flushed(s)
  }

  function Run(steps: seq<Step>, max: int): State {
    if steps == [] then State([], false, [], []) else Next(Run(steps[..|steps| - 1], max), steps[|steps| - 1], max)
  }

  function Brought(step: Step): seq<Item> {
    match step case Arrive(items, _) => items case Flush => []
  }

  function Arrived(steps: seq<Step>): seq<Item> {
    if steps == [] then [] else Arrived(steps[..|steps| - 1]) + Brought(steps[|steps| - 1])
  }

  function AllItems(jobs: seq<Job>): seq<Item> {
    if jobs == [] then [] else AllItems(jobs[..|jobs| - 1]) + jobs[|jobs| - 1].items
  }

  lemma AllItemsMore(jobs: seq<Job>, j: Job)
    ensures AllItems(jobs + [j]) == AllItems(jobs) + j.items
  {
    assert (jobs + [j])[..|jobs|] == jobs;
  }

  /** The rows once every queued job has been applied in order, and then what is still pending. */
  function Outcome(t: Table, s: State): Table {
    Upsert(Upsert(t, AllItems(s.jobs)), s.pending)
  }

  ghost predicate Within(items: seq<Item>, all: seq<Item>) {
    forall y :: y in items ==> y in all
  }

  lemma FlushKeepsOutcome(t: Table, s: State, all: seq<Item>)
    requires KeysMeanSlots(all) && Within(s.pending, all)
    ensures Outcome(t, Flushed(s)) == Outcome(t, s)
  {
    if s.pending != [] {
      var unique := Unique(s.pending);
      AllItemsMore(s.jobs, Job(s.pending[|s.pending| - 1].height, unique));
      UpsertConcat(t, AllItems(s.jobs), unique);
      UniqueUpserts(Upsert(t, AllItems(s.jobs)), s.pending);
    }
  }

  lemma PushOutcome(t: Table, s: State, items: seq<Item>, max: int, all: seq<Item>)
    requires KeysMeanSlots(all) && Within(s.pending, all) && Within(items, all)
    ensures Outcome(t, Pushed(s, items, max)) == Upsert(Outcome(t, s), items)
    ensures Within(Pushed(s, items, max).pending, all)
  {
    UpsertConcat(Upsert(t, AllItems(s.jobs)), s.pending, items);
    FlushKeepsOutcome(t, s.(pending := s.pending + items), all);
  }

  lemma StepOutcome(t: Table, s: State, step: Step, max: int, all: seq<Item>)
    requires KeysMeanSlots(all) && Within(s.pending, all) && Within(Brought(step), all)
    ensures Outcome(t, Next(s, step, max)) == Upsert(Outcome(t, s), Brought(step))
    ensures Within(Next(s, step, max).pending, all)
  {
    FlushKeepsOutcome(t, s, all);
    if step.Arrive? && step.items != [] { PushOutcome(t, Ready(s, step.height), step.items, max, all); }
  }

  lemma {:induction false} RunOutcome(t: Table, steps: seq<Step>, max: int, all: seq<Item>)
    requires KeysMeanSlots(all) && Within(Arrived(steps), all)
    ensures Outcome(t, Run(steps, max)) == Upsert(t, Arrived(steps)) && Within(Run(steps, max).pending, all)
  {
    if steps != [] {
      var front, step := steps[..|steps| - 1], steps[|steps| - 1];
      assert Within(Arrived(front), all) && Within(Brought(step), all);
      RunOutcome(t, front, max, all);
      StepOutcome(t, Run(front, max), step, max, all);
      UpsertConcat(t, Arrived(front), Brought(step));
    }
  }

  /**
   * However flushes fall, applying the jobs (and what is pending) leaves the rows that applying every item
   * in order of arrival leaves, as long as joined keys tell rows apart.
   */
  lemma JobsEquivalent(t: Table, steps: seq<Step>, max: int)
    requires KeysMeanSlots(Arrived(steps))
    ensures Outcome(t, Run(steps, max)) == Upsert(t, Arrived(steps))
  {
    RunOutcome(t, steps, max, Arrived(steps));
  }

  // ---- one block per job ----

  ghost predicate OfHeight(items: seq<Item>, h: nat) {
    forall i :: 0 <= i < |items| ==> items[i].height == h
  }

  /** Items carry their trace's height, and traces come in block order. */
  ghost predicate InOrder(steps: seq<Step>) {
    && (forall i :: 0 <= i < |steps| && steps[i].Arrive? ==> OfHeight(steps[i].items, steps[i].height))
    && (forall i, j :: 0 <= i < j < |steps| && steps[i].Arrive? && steps[j].Arrive? ==>
        steps[i].height <= steps[j].height)
  }

  ghost predicate OneBlock(s: State) {
    && (s.pending != [] ==> OfHeight(s.pending, s.pending[|s.pending| - 1].height))
    && (forall i :: 0 <= i < |s.jobs| ==> s.jobs[i].items != [] && OfHeight(s.jobs[i].items, s.jobs[i].height))
  }

  lemma {:induction false} WithoutOfHeight(items: seq<Item>, key: string, h: nat)
    requires OfHeight(items, h)
    ensures OfHeight(Without(items, key), h)
  {
    if items != [] { WithoutOfHeight(items[1..], key, h); }
  }

  lemma {:induction false} UniqueOfHeight(batch: seq<Item>, h: nat)
    requires OfHeight(batch, h)
    ensures OfHeight(Unique(batch), h) && (batch != [] ==> Unique(batch) != [])
  {
    if batch != [] {
      UniqueOfHeight(batch[..|batch| - 1], h);
      WithoutOfHeight(Unique(batch[..|batch| - 1]), KeyOf(batch[|batch| - 1]), h);
    }
  }

  lemma FlushOneBlock(s: State)
    requires OneBlock(s)
    ensures OneBlock(Flushed(s)) && Flushed(s).pending == []
  {
    if s.pending != [] { UniqueOfHeight(s.pending, s.pending[|s.pending| - 1].height); }
  }

  lemma ReceiveOneBlock(s: State, items: seq<Item>, height: nat, max: int)
    requires OneBlock(s) && OfHeight(items, height) && (s.pending != [] ==> s.pending[|s.pending| - 1].height <= height)
    ensures OneBlock(Received(s, items, height, max))
    ensures var p := Received(s, items, height, max).pending; p != [] ==> p[|p| - 1].height == height || p == s.pending
  {
    if items != [] {
      FlushOneBlock(s);
      var ready := Ready(s, height);
      var more := ready.(pending := ready.pending + items);
      assert OfHeight(more.pending, height);
      FlushOneBlock(more);
    }
  }

  /** Every job holds items of one block only, the block it is filed under. */
  lemma {:induction false} OneBlockPerJob(steps: seq<Step>, max: int)
    requires InOrder(steps)
    ensures OneBlock(Run(steps, max))
    ensures var p := Run(steps, max).pending; p != [] ==>
        exists i :: 0 <= i < |steps| && steps[i].Arrive? && steps[i].height == p[|p| - 1].height
  {
    if steps != [] {
      var n := |steps| - 1;
      var front, s := steps[..n], Run(steps[..n], max);
      assert forall i :: 0 <= i < n ==> front[i] == steps[i];
      OneBlockPerJob(front, max);
      match steps[n]
      case Flush => FlushOneBlock(s);
      case Arrive(items, height) =>
        if s.pending != [] {
          var i :| 0 <= i < n && front[i].Arrive? && front[i].height == s.pending[|s.pending| - 1].height;
          assert steps[i].height <= steps[n].height;
        }
        ReceiveOneBlock(s, items, height, max);
        assert steps[n].Arrive? && steps[n].height == height;
    }
  }

  /** An export is scheduled exactly while items wait, and fewer than the maximum wait. */
  lemma {:induction false} PendingIsScheduled(steps: seq<Step>, max: int)
    ensures var s := Run(steps, max); (s.timer <==> s.pending != []) && (s.pending != [] ==> |s.pending| < max)
  {
    if steps != [] { PendingIsScheduled(steps[..|steps| - 1], max); }
  }

  /** The filter keeps exactly the items with a background processor. */
  lemma InBackgroundOne(x: Item)
    ensures InBackground([]) == [] && InBackground([x]) == if x.background then [x] else []
  {
    assert [x][1..] == [];
  }

  lemma {:induction false} InBackgroundConcat(a: seq<Item>, b: seq<Item>)
    ensures InBackground(a + b) == InBackground(a) + InBackground(b)
  {
    if a == [] {
      assert a + b == b;
    } else {
      InBackgroundConcat(a[1..], b);
      assert (a + b)[1..] == a[1..] + b;
    }
  }

  ghost predicate BackgroundMatches(s: State) {
    AllItems(s.background) == InBackground(AllItems(s.jobs))
  }

  lemma FlushBackground(s: State)
    requires BackgroundMatches(s)
    ensures BackgroundMatches(Flushed(s))
  {
    if s.pending != [] {
      var height, unique := s.pending[|s.pending| - 1].height, Unique(s.pending);
      AllItemsMore(s.jobs, Job(height, unique));
      AllItemsMore(s.background, Job(height, InBackground(unique)));
      InBackgroundConcat(AllItems(s.jobs), unique);
    }
  }

  /** The background queue gets exactly the exported items that have a background processor, in the same order. */
  lemma {:induction false} BackgroundIsFiltered(steps: seq<Step>, max: int)
    ensures BackgroundMatches(Run(steps, max))
  {
    if steps != [] {
      var s := Run(steps[..|steps| - 1], max);
      BackgroundIsFiltered(steps[..|steps| - 1], max);
      FlushBackground(s);
      match steps[|steps| - 1]
      case Flush =>
      case Arrive(items, height) =>
        var ready := Ready(s, height);
        FlushBackground(ready.(pending := ready.pending + items));
    }
  }

  /**
   * Nothing is exported before it is due: items of the pending block are kept until the batch is full; a newer
   * block exports the pending items, and no others unless it fills a batch itself.
   */
  lemma ExportsWhenDue(s: State, items: seq<Item>, height: nat, max: int)
    requires items != []
    ensures var s' := Received(s, items, height, max);
            var newer := s.pending != [] && height > s.pending[|s.pending| - 1].height;
            var kept := if newer then items else s.pending + items;
            && (|kept| < max ==> s'.pending == kept && s'.timer)
            && (|kept| >= max ==> s'.pending == [] && !s'.timer)
            && |s'.jobs| == |s.jobs| + (if newer then 1 else 0) + (if |kept| >= max then 1 else 0)
            && s.jobs <= s'.jobs
            && (newer ==> s'.jobs[|s.jobs|].items == Unique(s.pending))
            && (|kept| >= max ==> s'.jobs[|s'.jobs| - 1].items == Unique(kept))
  {
    assert [] + items == items;
  }

  /** No empty job is added to the background queue. */
  lemma {:induction false} BackgroundNotEmpty(steps: seq<Step>, max: int)
    ensures forall i :: 0 <= i < |Run(steps, max).background| ==> Run(steps, max).background[i].items != []
  {
    if steps != [] { BackgroundNotEmpty(steps[..|steps| - 1], max); }
  }
}
