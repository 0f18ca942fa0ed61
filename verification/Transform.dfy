/** Batch evaluation of transformations, against evaluating them one at a time. */
module Transform {
  import opened Options

  datatype Value = Null | Json(text: string)

  datatype Event = Event(contract: string, key: string, height: nat, value: string, deleted: bool)

  /** `name` is None when it throws; `getValue` is None when it throws or returns undefined. */
  datatype Transformer = Transformer(
    filter: Event -> bool, name: Event -> Option<string>, getValue: (Event, Value) -> Option<Value>,
    manualDeletes: bool)

  /** An unevaluated transformation: where it goes, and its value given the previous one. */
  datatype Item = Item(contract: string, name: string, height: nat, step: Value -> Option<Value>)

  datatype Row = Row(contract: string, name: string, height: nat, value: Value)

  /** Unique by contract, name and block height. */
  type Table = map<(string, string, nat), Value>

  // ---- collecting ----

  function ItemFor(e: Event, t: Transformer): Option<Item> {
    match t.name(e)
    case None => None
    case Some(name) =>
      if name == "" then None
      else Some(Item(e.contract, name, e.height,
                     if e.deleted && !t.manualDeletes then (_: Value) => Some(Null)
                     else (previous: Value) => t.getValue(e, previous)))
  }

  function ItemsOf(e: Event, transformers: seq<Transformer>): (items: seq<Item>)
    ensures forall i :: 0 <= i < |items| ==> items[i].contract == e.contract && items[i].height == e.height
  {
    if transformers == [] then []
    else
      var rest := ItemsOf(e, transformers[1..]);
      if !transformers[0].filter(e) then rest
      else match ItemFor(e, transformers[0])
        case None => rest
        case Some(item) => [item] + rest
  }

  function Collect(events: seq<Event>, transformers: seq<Transformer>): seq<Item> {
    if events == [] then []
    else Collect(events[..|events| - 1], transformers) + ItemsOf(events[|events| - 1], transformers)
  }

  // ---- one batch ----

  /** The most recent row of a name at or below a height. */
  function LatestIn(table: Table, c: string, n: string, h: int): (r: Option<Value>)
    decreases if h < 0 then 0 else h + 1
  {
    if h < 0 then None
    else if (c, n, h) in table then Some(table[(c, n, h)])
    else LatestIn(table, c, n, h - 1)
  }

  function OrNull(v: Option<Value>): Value {
    if v.None? then Null else v.value
  }

  /** Index of the last row of a name, or -1. */
  function LastOf(rows: seq<Row>, c: string, n: string): (i: int)
    ensures -1 <= i < |rows|
    ensures i >= 0 ==> rows[i].contract == c && rows[i].name == n
    ensures forall j :: i < j < |rows| ==> !(rows[j].contract == c && rows[j].name == n)
  {
    if rows == [] then -1
    else if rows[|rows| - 1].contract == c && rows[|rows| - 1].name == n then |rows| - 1
    else LastOf(rows[..|rows| - 1], c, n)
  }

  function KeyOf(r: Row): (string, string, nat) {
    (r.contract, r.name, r.height)
  }

  /** Index of the last row with the given contract, name and height, or -1. */
  function LastSlot(rows: seq<Row>, key: (string, string, nat)): (i: int)
    ensures -1 <= i < |rows|
    ensures i >= 0 ==> KeyOf(rows[i]) == key
    ensures forall j :: i < j < |rows| ==> KeyOf(rows[j]) != key
  {
    if rows == [] then -1
    else if KeyOf(rows[|rows| - 1]) == key then |rows| - 1
    else LastSlot(rows[..|rows| - 1], key)
  }

  /** Update the row of the same contract, name and height, or add one. */
  function AddRow(rows: seq<Row>, row: Row): seq<Row> {
    var i := LastSlot(rows, KeyOf(row));
    if i >= 0 then rows[i := row] else rows + [row]
  }

  /** The previous value an item sees: from this batch, else from the table strictly below its height. */
  function Previous(table: Table, rows: seq<Row>, item: Item): Value {
    var i := LastOf(rows, item.contract, item.name);
    if i >= 0 then rows[i].value else OrNull(LatestIn(table, item.contract, item.name, item.height - 1))
  }

  function EvaluateOne(table: Table, rows: seq<Row>, item: Item): seq<Row> {
    match item.step(Previous(table, rows, item))
    case None => rows
    case Some(v) => AddRow(rows, Row(item.contract, item.name, item.height, v))
  }

  function Evaluate(table: Table, items: seq<Item>): seq<Row> {
    if items == [] then [] else EvaluateOne(table, Evaluate(table, items[..|items| - 1]), items[|items| - 1])
  }

  function Upsert(table: Table, rows: seq<Row>): Table {
    if rows == [] then table
    else
      var r := rows[|rows| - 1];
      Upsert(table, rows[..|rows| - 1])[(r.contract, r.name, r.height) := r.value]
  }

  /** Look back through this batch, then in the table. */
  method FindPrevious(table: Table, rows: seq<Row>, item: Item) returns (previous: Value)
    ensures previous == Previous(table, rows, item)
  {
    var last := |rows| - 1;
    while last >= 0 && !(rows[last].contract == item.contract && rows[last].name == item.name)
      invariant -1 <= last < |rows|
      invariant forall j :: last < j < |rows| ==> !(rows[j].contract == item.contract && rows[j].name == item.name)
    {
      last := last - 1;
    }
    assert last == LastOf(rows, item.contract, item.name);
    previous :=
      if last >= 0 then rows[last].value else OrNull(LatestIn(table, item.contract, item.name, item.height - 1));
  }

  method BulkCreate(table: Table, rows: seq<Row>) returns (table': Table)
    ensures table' == Upsert(table, rows)
  {
    table' := table;
    for i := 0 to |rows|
      invariant table' == Upsert(table, rows[..i])
    {
      assert rows[..i + 1][..i] == rows[..i] && rows[..i + 1][i] == rows[i];
      table' := table'[(rows[i].contract, rows[i].name, rows[i].height) := rows[i].value];
    }
    assert rows[..|rows|] == rows;
  }

  /** The evaluation loop, then the bulk upsert. */
  method TransformBatch(table: Table, items: seq<Item>) returns (table': Table, rows: seq<Row>)
    ensures rows == Evaluate(table, items)
    ensures table' == Upsert(table, rows)
  {
    rows := [];
    for i := 0 to |items|
      invariant rows == Evaluate(table, items[..i])
    {
      assert items[..i + 1][..i] == items[..i] && items[..i + 1][i] == items[i];
      var previous := FindPrevious(table, rows, items[i]);
      match items[i].step(previous)
      case None =>
      case Some(v) =>
        var row := Row(items[i].contract, items[i].name, items[i].height, v);
        var slot := LastSlot(rows, KeyOf(row));
        rows := if slot >= 0 then rows[slot := row] else rows + [row];
    }
    assert items[..|items|] == items;
    table' := BulkCreate(table, rows);
  }

  // ---- one at a time ----

  /** The simple form: each item reads and writes the table directly, seeing earlier items of its own block. */
  function StepOne(table: Table, item: Item): Table {
    match item.step(OrNull(LatestIn(table, item.contract, item.name, item.height)))
    case None => table
    case Some(v) => table[(item.contract, item.name, item.height) := v]
  }

  function Sequential(table: Table, items: seq<Item>): Table {
    if items == [] then table else StepOne(Sequential(table, items[..|items| - 1]), items[|items| - 1])
  }

  /** Heights do not decrease within a contract. */
  ghost predicate Ordered(items: seq<Item>) {
    forall i, j :: 0 <= i < j < |items| && items[i].contract == items[j].contract ==> items[i].height <= items[j].height
  }

  /** The table has no row of an item's contract at or above the item's height. */
  ghost predicate Ahead(table: Table, items: seq<Item>) {
    forall key, i :: key in table && 0 <= i < |items| && key.0 == items[i].contract ==> key.2 < items[i].height
  }

  /** Rows of one name ascend strictly, so no slot is written twice. */
  ghost predicate RowsOk(rows: seq<Row>, items: seq<Item>) {
    && (forall i, j :: 0 <= i < j < |rows| && rows[i].contract == rows[j].contract && rows[i].name == rows[j].name ==>
          rows[i].height < rows[j].height)
    && (forall i :: 0 <= i < |rows| ==> FromItem(rows[i], items))
  }

  ghost predicate FromItem(row: Row, items: seq<Item>) {
    exists k :: 0 <= k < |items| && items[k].contract == row.contract && items[k].height == row.height
  }

  lemma FromItemMore(row: Row, past: seq<Item>, item: Item)
    requires FromItem(row, past)
    ensures FromItem(row, past + [item])
  {
    var k :| 0 <= k < |past| && past[k].contract == row.contract && past[k].height == row.height;
    assert (past + [item])[k] == past[k];
  }

  lemma {:induction false} LatestInSame(t1: Table, t2: Table, c: string, n: string, h: int)
    requires forall j: nat :: j <= h ==> ((c, n, j) in t1 <==> (c, n, j) in t2)
    requires forall j: nat :: j <= h && (c, n, j) in t1 ==> t1[(c, n, j)] == t2[(c, n, j)]
    ensures LatestIn(t1, c, n, h) == LatestIn(t2, c, n, h)
    decreases if h < 0 then 0 else h + 1
  {
    if h >= 0 && (c, n, h) !in t1 { LatestInSame(t1, t2, c, n, h - 1); }
  }

  lemma {:induction false} LatestInAt(t: Table, c: string, n: string, at: nat, h: int)
    requires (c, n, at) in t && at <= h && forall j: nat :: at < j <= h ==> (c, n, j) !in t
    ensures LatestIn(t, c, n, h) == Some(t[(c, n, at)])
    decreases h - at
  {
    if at < h { LatestInAt(t, c, n, at, h - 1); }
  }

  ghost predicate SameAt(t: Table, u: Table, key: (string, string, nat)) {
    (key in u <==> key in t) && (key in t ==> u[key] == t[key])
  }

  /** What an upsert of rows leaves in a slot: the last row for it, else what was there. */
  lemma {:induction false} UpsertAt(table: Table, rows: seq<Row>, key: (string, string, nat))
    ensures var i := LastSlot(rows, key);
            if i >= 0 then key in Upsert(table, rows) && Upsert(table, rows)[key] == rows[i].value
            else SameAt(table, Upsert(table, rows), key)
  {
    if rows != [] { UpsertAt(table, rows[..|rows| - 1], key); }
  }

  lemma RowsBelow(rows: seq<Row>, past: seq<Item>, item: Item, i: nat)
    requires Ordered(past + [item]) && RowsOk(rows, past) && i < |rows| && rows[i].contract == item.contract
    ensures rows[i].height <= item.height
  {
    var all := past + [item];
    assert FromItem(rows[i], past);
    var k :| 0 <= k < |past| && past[k].contract == rows[i].contract && past[k].height == rows[i].height;
    assert all[k] == past[k] && all[|past|] == item;
    assert all[k].height <= all[|past|].height;
  }

  /** A name the batch has not touched: the table below the item is what counts. */
  lemma PreviousUntouched(table: Table, rows: seq<Row>, past: seq<Item>, item: Item)
    requires Ahead(table, past + [item]) && LastOf(rows, item.contract, item.name) < 0
    ensures LatestIn(Upsert(table, rows), item.contract, item.name, item.height) ==
        LatestIn(table, item.contract, item.name, item.height - 1)
  {
    var c, n, now := item.contract, item.name, Upsert(table, rows);
    var h: int := item.height;
    forall j: nat
      ensures (c, n, j) in now <==> (c, n, j) in table
      ensures (c, n, j) in table ==> now[(c, n, j)] == table[(c, n, j)]
    {
      UpsertAt(table, rows, (c, n, j));
    }
    LatestInSame(now, table, c, n, h);
    assert (past + [item])[|past|] == item;
    assert (c, n, item.height) !in table;
    assert LatestIn(table, c, n, h) == LatestIn(table, c, n, h - 1);
  }

  /** A name the batch has touched: its last row is the latest one. */
  lemma PreviousTouched(table: Table, rows: seq<Row>, past: seq<Item>, item: Item)
    requires Ordered(past + [item]) && Ahead(table, past + [item]) && RowsOk(rows, past)
    requires LastOf(rows, item.contract, item.name) >= 0
    ensures LatestIn(Upsert(table, rows), item.contract, item.name, item.height) ==
        Some(rows[LastOf(rows, item.contract, item.name)].value)
  {
    var c, n, i := item.contract, item.name, LastOf(rows, item.contract, item.name);
    var at, now := rows[i].height, Upsert(table, rows);
    RowsBelow(rows, past, item, i);
    UpsertAt(table, rows, (c, n, at));
    assert LastSlot(rows, (c, n, at)) == i by {
      assert KeyOf(rows[i]) == (c, n, at);
      assert forall j :: i < j < |rows| ==> KeyOf(rows[j]) != (c, n, at);
    }
    assert FromItem(rows[i], past);
    var k :| 0 <= k < |past| && past[k].contract == c && past[k].height == at;
    assert (past + [item])[k] == past[k];
    forall j: nat | at < j <= item.height
      ensures (c, n, j) !in now
    {
      UpsertAt(table, rows, (c, n, j));
      assert (c, n, j) !in table;
      assert forall x :: 0 <= x < i ==> KeyOf(rows[x]) != (c, n, j);
    }
    LatestInAt(now, c, n, at, item.height);
  }

  /** What the next item sees in a batch is what it would see in the table updated so far. */
  lemma SamePrevious(table: Table, rows: seq<Row>, past: seq<Item>, item: Item)
    requires Ordered(past + [item]) && Ahead(table, past + [item]) && RowsOk(rows, past)
    ensures Previous(table, rows, item) == OrNull(LatestIn(Upsert(table, rows), item.contract, item.name, item.height))
  {
    if LastOf(rows, item.contract, item.name) >= 0 {
      PreviousTouched(table, rows, past, item);
    } else {
      PreviousUntouched(table, rows, past, item);
    }
  }

  /** A row of the item's name in another slot lies strictly below the item. */
  lemma EarlierRow(rows: seq<Row>, past: seq<Item>, item: Item, i: nat, row: Row)
    requires Ordered(past + [item]) && RowsOk(rows, past) && i < |rows|
    requires row.contract == item.contract && row.name == item.name && row.height == item.height
    requires rows[i].contract == row.contract && rows[i].name == row.name && KeyOf(rows[i]) != KeyOf(row)
    ensures rows[i].height < row.height
  {
    RowsBelow(rows, past, item, i);
  }

  lemma AddRowInOrder(rows: seq<Row>, past: seq<Item>, item: Item, row: Row)
    requires Ordered(past + [item]) && RowsOk(rows, past)
    requires row.contract == item.contract && row.name == item.name && row.height == item.height
    ensures RowsOk(AddRow(rows, row), past + [item])
  {
    var rows', all, slot := AddRow(rows, row), past + [item], LastSlot(rows, KeyOf(row));
    forall i | 0 <= i < |rows'|
      ensures FromItem(rows'[i], all)
    {
      if i < |rows| && i != slot {
        assert FromItem(rows[i], past);
        FromItemMore(rows[i], past, item);
      } else {
        assert all[|past|] == item;
      }
    }
    forall i, j | 0 <= i < j < |rows'| && rows'[i].contract == rows'[j].contract && rows'[i].name == rows'[j].name
      ensures rows'[i].height < rows'[j].height
    {
      if slot < 0 && j == |rows| { EarlierRow(rows, past, item, i, row); }
    }
  }

  lemma {:induction false} AddRowUpserts(table: Table, rows: seq<Row>, row: Row)
    ensures Upsert(table, AddRow(rows, row)) == Upsert(table, rows)[KeyOf(row) := row.value]
  {
    var slot := LastSlot(rows, KeyOf(row));
    if slot >= 0 {
      ReplaceUpsert(table, rows, slot, row);
    } else {
      assert (rows + [row])[..|rows|] == rows;
    }
  }

  /** Adding a row keeps the rows in order and acts like one more upsert. */
  lemma {:induction false} AddRowOk(table: Table, rows: seq<Row>, past: seq<Item>, item: Item, v: Value)
    requires Ordered(past + [item]) && RowsOk(rows, past)
    ensures var row := Row(item.contract, item.name, item.height, v);
            && RowsOk(AddRow(rows, row), past + [item])
            && Upsert(table, AddRow(rows, row)) == Upsert(table, rows)[KeyOf(row) := v]
  {
    var row := Row(item.contract, item.name, item.height, v);
    AddRowInOrder(rows, past, item, row);
    AddRowUpserts(table, rows, row);
  }

  lemma {:induction false} ReplaceUpsert(table: Table, rows: seq<Row>, slot: nat, row: Row)
    requires slot < |rows| && KeyOf(rows[slot]) == KeyOf(row) &&
             forall j :: slot < j < |rows| ==> KeyOf(rows[j]) != KeyOf(row)
    ensures Upsert(table, rows[slot := row]) == Upsert(table, rows)[KeyOf(row) := row.value]
  {
    if slot == |rows| - 1 {
      assert rows[slot := row][..slot] == rows[..slot];
    } else {
      var init := rows[..|rows| - 1];
      ReplaceUpsert(table, init, slot, row);
      assert rows[slot := row][..|rows| - 1] == init[slot := row];
      assert KeyOf(rows[|rows| - 1]) != KeyOf(row);
    }
  }

  /**
   * On a table with nothing at or above the batch's heights, the in-batch overlay followed by one bulk upsert
   * leaves exactly the table of evaluating the items one at a time, and writes no slot twice.
   */
  lemma {:induction false} BatchIsSequential(table: Table, items: seq<Item>)
    requires Ordered(items) && Ahead(table, items)
    ensures Upsert(table, Evaluate(table, items)) == Sequential(table, items)
    ensures RowsOk(Evaluate(table, items), items)
  {
    if items != [] {
      var past, item := items[..|items| - 1], items[|items| - 1];
      assert items == past + [item];
      BatchIsSequential(table, past);
      var rows := Evaluate(table, past);
      SamePrevious(table, rows, past, item);
      match item.step(Previous(table, rows, item))
      case None => RowsOkMore(rows, past, item);
      case Some(v) => AddRowOk(table, rows, past, item, v);
    }
  }

  lemma RowsOkMore(rows: seq<Row>, past: seq<Item>, item: Item)
    requires RowsOk(rows, past)
    ensures RowsOk(rows, past + [item])
  {
    forall i | 0 <= i < |rows|
      ensures FromItem(rows[i], past + [item])
    {
      FromItemMore(rows[i], past, item);
    }
  }

  // ---- many batches ----

  function Flatten(batches: seq<seq<Item>>): seq<Item> {
    if batches == [] then [] else batches[0] + Flatten(batches[1..])
  }

  /** Transform the batches in order. */
  function RunBatches(table: Table, batches: seq<seq<Item>>): Table
    decreases |batches|
  {
    if batches == [] then table else RunBatches(Upsert(table, Evaluate(table, batches[0])), batches[1..])
  }

  /** Batches are cut at block boundaries of each contract. */
  ghost predicate BlockAligned(batches: seq<seq<Item>>) {
    batches != [] ==>
      && (forall x, y :: x in batches[0] && y in Flatten(batches[1..]) && x.contract == y.contract ==>
          x.height < y.height)
      && BlockAligned(batches[1..])
  }

  lemma {:induction false} SequentialConcat(table: Table, a: seq<Item>, b: seq<Item>)
    ensures Sequential(table, a + b) == Sequential(Sequential(table, a), b)
  {
    if b == [] {
      assert a + b == a;
    } else {
      assert (a + b)[..|a + b| - 1] == a + b[..|b| - 1];
      SequentialConcat(table, a, b[..|b| - 1]);
    }
  }

  /** A slot that appears belongs to an item; a slot below all items of its contract does not change. */
  lemma {:induction false} SequentialFrame(table: Table, items: seq<Item>, key: (string, string, nat))
    requires forall i :: 0 <= i < |items| && items[i].contract == key.0 ==> items[i].height != key.2
    ensures key in Sequential(table, items) <==> key in table
    ensures key in table ==> Sequential(table, items)[key] == table[key]
  {
    if items != [] {
      SequentialFrame(table, items[..|items| - 1], key);
      assert items[|items| - 1].contract == key.0 ==> items[|items| - 1].height != key.2;
    }
  }

  lemma AheadAfter(table: Table, a: seq<Item>, b: seq<Item>)
    requires Ahead(table, a + b) && forall x, y :: x in a && y in b && x.contract == y.contract ==> x.height < y.height
    ensures Ahead(table, a) && Ahead(Sequential(table, a), b)
  {
    var table' := Sequential(table, a);
    forall key, i | key in table && 0 <= i < |a| && key.0 == a[i].contract
      ensures key.2 < a[i].height
    {
      assert (a + b)[i] == a[i];
    }
    forall key, i | key in table' && 0 <= i < |b| && key.0 == b[i].contract
      ensures key.2 < b[i].height
    {
      assert (a + b)[|a| + i] == b[i];
      if forall k :: 0 <= k < |a| && a[k].contract == key.0 ==> a[k].height != key.2 {
        SequentialFrame(table, a, key);
      } else {
        var k :| 0 <= k < |a| && a[k].contract == key.0 && a[k].height == key.2;
        assert a[k] in a && b[i] in b;
      }
    }
  }

  lemma OrderedParts(a: seq<Item>, b: seq<Item>)
    requires Ordered(a + b)
    ensures Ordered(a) && Ordered(b)
  {
    forall i, j | 0 <= i < j < |a| && a[i].contract == a[j].contract
      ensures a[i].height <= a[j].height
    {
      assert (a + b)[i] == a[i] && (a + b)[j] == a[j];
    }
    forall i, j | 0 <= i < j < |b| && b[i].contract == b[j].contract
      ensures b[i].height <= b[j].height
    {
      assert (a + b)[|a| + i] == b[i] && (a + b)[|a| + j] == b[j];
    }
  }

  /** Any split at block boundaries leaves the table of evaluating the whole history one item at a time. */
  lemma {:induction false} BatchesAreSequential(table: Table, batches: seq<seq<Item>>)
    requires Ordered(Flatten(batches)) && BlockAligned(batches) && Ahead(table, Flatten(batches))
    ensures RunBatches(table, batches) == Sequential(table, Flatten(batches))
    decreases |batches|
  {
    if batches != [] {
      var first, rest := batches[0], Flatten(batches[1..]);
      OrderedParts(first, rest);
      AheadAfter(table, first, rest);
      BatchIsSequential(table, first);
      BatchesAreSequential(Sequential(table, first), batches[1..]);
      SequentialConcat(table, first, rest);
    }
  }

  // ---- running again ----

  /** Later items of a contract only write at or above the height of the current one. */
  lemma FinalBelow(table: Table, items: seq<Item>, k: nat, n: string)
    requires Ordered(items) && k < |items|
    ensures var c, h := items[k].contract, items[k].height - 1;
            LatestIn(Sequential(table, items), c, n, h) == LatestIn(Sequential(table, items[..k]), c, n, h)
  {
    var c: string, h: int := items[k].contract, items[k].height - 1;
    var past, rest := items[..k], items[k..];
    assert items == past + rest;
    SequentialConcat(table, past, rest);
    forall j: nat | j <= h
      ensures (c, n, j) in Sequential(table, items) <==> (c, n, j) in Sequential(table, past)
      ensures (c, n, j) in Sequential(table, past) ==>
          Sequential(table, items)[(c, n, j)] == Sequential(table, past)[(c, n, j)]
    {
      forall i | 0 <= i < |rest| && rest[i].contract == c
        ensures rest[i].height != j
      {
        assert rest[i] == items[k + i];
        if i > 0 { assert items[k].height <= items[k + i].height; }
      }
      SequentialFrame(Sequential(table, past), rest, (c, n, j));
    }
    LatestInSame(Sequential(table, items), Sequential(table, past), c, n, h);
  }

  /** A name no earlier item of the batch has written reads the same below the item in the final table. */
  lemma UntouchedName(table: Table, all: seq<Item>, k: nat)
    requires k < |all| && Ordered(all) && Ahead(table, all)
    requires LastOf(Evaluate(table, all[..k]), all[k].contract, all[k].name) < 0
    ensures var c, n, h := all[k].contract, all[k].name, all[k].height - 1;
            LatestIn(Sequential(table, all), c, n, h) == LatestIn(table, c, n, h)
  {
    var past, rows := all[..k], Evaluate(table, all[..k]);
    var c, n := all[k].contract, all[k].name;
    FinalBelow(table, all, k, n);
    PastAhead(table, all, k);
    BatchIsSequential(table, past);
    forall j: nat
      ensures (c, n, j) in Sequential(table, past) <==> (c, n, j) in table
      ensures (c, n, j) in table ==> Sequential(table, past)[(c, n, j)] == table[(c, n, j)]
    {
      UpsertAt(table, rows, (c, n, j));
    }
    LatestInSame(Sequential(table, past), table, c, n, all[k].height - 1);
  }

  lemma PreviousAgain(table: Table, all: seq<Item>, k: nat)
    requires k < |all| && Ordered(all) && Ahead(table, all)
    ensures var rows := Evaluate(table, all[..k]);
            Previous(Sequential(table, all), rows, all[k]) == Previous(table, rows, all[k])
  {
    if LastOf(Evaluate(table, all[..k]), all[k].contract, all[k].name) < 0 {
      UntouchedName(table, all, k);
    }
  }

  /** The final table and the table before the batch answer the batch's items alike. */
  lemma {:induction false} EvaluateAgain(table: Table, all: seq<Item>, k: nat)
    requires k <= |all| && Ordered(all) && Ahead(table, all)
    ensures Evaluate(Sequential(table, all), all[..k]) == Evaluate(table, all[..k])
  {
    if k > 0 {
      assert all[..k][..k - 1] == all[..k - 1] && all[..k][k - 1] == all[k - 1];
      EvaluateAgain(table, all, k - 1);
      PreviousAgain(table, all, k - 1);
      var final, rows, item := Sequential(table, all), Evaluate(table, all[..k - 1]), all[k - 1];
      assert Evaluate(final, all[..k]) == EvaluateOne(final, rows, item);
      assert Evaluate(table, all[..k]) == EvaluateOne(table, rows, item);
    }
  }

  lemma PastAhead(table: Table, all: seq<Item>, k: nat)
    requires k <= |all| && Ordered(all) && Ahead(table, all)
    ensures Ordered(all[..k]) && Ahead(table, all[..k])
  {
    assert all == all[..k] + all[k..];
    OrderedParts(all[..k], all[k..]);
    forall key, i | key in table && 0 <= i < k && key.0 == all[..k][i].contract
      ensures key.2 < all[..k][i].height
    {
      assert all[..k][i] == all[i];
    }
  }

  lemma {:induction false} UpsertNothingNew(table: Table, rows: seq<Row>)
    requires forall i :: 0 <= i < |rows| ==> KeyOf(rows[i]) in table && table[KeyOf(rows[i])] == rows[i].value
    ensures Upsert(table, rows) == table
  {
    if rows != [] { UpsertNothingNew(table, rows[..|rows| - 1]); }
  }

  /** The rows of the first batch are already in the final table. */
  lemma FirstBatchKept(table: Table, first: seq<Item>, rest: seq<Item>)
    requires Ordered(first + rest) && Ahead(table, first + rest)
    requires forall x, y :: x in first && y in rest && x.contract == y.contract ==> x.height < y.height
    ensures var final := Sequential(table, first + rest);
            Upsert(final, Evaluate(final, first)) == final
  {
    var all, rows := first + rest, Evaluate(table, first);
    assert all[..|first|] == first;
    EvaluateAgain(table, all, |first|);
    OrderedParts(first, rest);
    AheadAfter(table, first, rest);
    BatchIsSequential(table, first);
    SequentialConcat(table, first, rest);
    forall i | 0 <= i < |rows|
      ensures KeyOf(rows[i]) in Sequential(table, all) && Sequential(table, all)[KeyOf(rows[i])] == rows[i].value
    {
      RowKept(table, first, rest, rows, i);
    }
    UpsertNothingNew(Sequential(table, all), rows);
  }

  lemma RowKept(table: Table, first: seq<Item>, rest: seq<Item>, rows: seq<Row>, i: nat)
    requires i < |rows| && RowsOk(rows, first) && Sequential(table, first) == Upsert(table, rows)
    requires forall x, y :: x in first && y in rest && x.contract == y.contract ==> x.height < y.height
    ensures var final := Sequential(Sequential(table, first), rest);
            KeyOf(rows[i]) in final && final[KeyOf(rows[i])] == rows[i].value
  {
    UpsertAt(table, rows, KeyOf(rows[i]));
    assert LastSlot(rows, KeyOf(rows[i])) == i;
    assert FromItem(rows[i], first);
    var k :| 0 <= k < |first| && first[k].contract == rows[i].contract && first[k].height == rows[i].height;
    forall j | 0 <= j < |rest| && rest[j].contract == rows[i].contract
      ensures rest[j].height != rows[i].height
    {
      assert first[k] in first && rest[j] in rest;
    }
    SequentialFrame(Sequential(table, first), rest, KeyOf(rows[i]));
  }

  /** Running the whole history again, in any block-aligned batches, changes nothing. */
  lemma {:induction false} RerunChangesNothing(table: Table, batches: seq<seq<Item>>)
    requires Ordered(Flatten(batches)) && BlockAligned(batches) && Ahead(table, Flatten(batches))
    ensures RunBatches(Sequential(table, Flatten(batches)), batches) == Sequential(table, Flatten(batches))
    decreases |batches|
  {
    if batches != [] {
      var first, rest := batches[0], Flatten(batches[1..]);
      FirstBatchKept(table, first, rest);
      OrderedParts(first, rest);
      AheadAfter(table, first, rest);
      SequentialConcat(table, first, rest);
      RerunChangesNothing(Sequential(table, first), batches[1..]);
    }
  }

  // ---- the values themselves ----

  /** The value a name carries at height `h`: a fold of the items of that name at or below it, with no table. */
  function Carry(items: seq<Item>, c: string, n: string, h: nat, v: Option<Value>): Option<Value> {
    if items == [] then v
    else
      var before, item := Carry(items[..|items| - 1], c, n, h, v), items[|items| - 1];
      if item.contract != c || item.name != n || item.height > h then before
      else match item.step(OrNull(before))
        case None => before
        case Some(w) => Some(w)
  }

  /** While an item is evaluated, its contract has no row above it. */
  lemma NothingAheadOf(table: Table, items: seq<Item>, k: nat, n: string, j: nat)
    requires Ordered(items) && Ahead(table, items) && k < |items| && items[k].height < j
    ensures (items[k].contract, n, j) !in Sequential(table, items[..k])
  {
    var c := items[k].contract;
    forall i | 0 <= i < k && items[..k][i].contract == c
      ensures items[..k][i].height != j
    {
      assert items[i].height <= items[k].height;
    }
    SequentialFrame(table, items[..k], (c, n, j));
  }

  /** So it sees the latest row of its name at every height from its own on. */
  lemma SeenFromAbove(table: Table, items: seq<Item>, k: nat, h: nat)
    requires Ordered(items) && Ahead(table, items) && k < |items| && items[k].height <= h
    ensures var t, c, n := Sequential(table, items[..k]), items[k].contract, items[k].name;
            LatestIn(t, c, n, items[k].height) == LatestIn(t, c, n, h)
  {
    var t, c, n := Sequential(table, items[..k]), items[k].contract, items[k].name;
    forall j: nat | items[k].height < j ensures (c, n, j) !in t { NothingAheadOf(table, items, k, n, j); }
    NothingAbove(t, c, n, items[k].height, h);
  }

  /** At every height, the latest row of a name is the fold of that name's items at or below it. */
  lemma {:induction false} SequentialIsCarry(table: Table, items: seq<Item>, c: string, n: string, h: nat)
    requires Ordered(items) && Ahead(table, items)
    ensures LatestIn(Sequential(table, items), c, n, h) == Carry(items, c, n, h, LatestIn(table, c, n, h))
  {
    if items != [] {
      var k := |items| - 1;
      var past, item := items[..k], items[k];
      PastAhead(table, items, k);
      SequentialIsCarry(table, past, c, n, h);
      CarryStep(table, items, k, c, n, h);
    }
  }

  lemma CarryStep(table: Table, items: seq<Item>, k: nat, c: string, n: string, h: nat)
    requires Ordered(items) && Ahead(table, items) && k == |items| - 1
    ensures var before, item := LatestIn(Sequential(table, items[..k]), c, n, h), items[k];
            LatestIn(Sequential(table, items), c, n, h) ==
            if item.contract != c || item.name != n || item.height > h then before
            else match item.step(OrNull(before)) case None => before case Some(w) => Some(w)
  {
    var t, t', item := Sequential(table, items[..k]), Sequential(table, items), items[k];
    if item.contract == c && item.name == n && item.height <= h {
      SeenFromAbove(table, items, k, h);
      if item.step(OrNull(LatestIn(t, c, n, h))).Some? {
        forall j: nat | item.height < j <= h ensures (c, n, j) !in t' { NothingAheadOf(table, items, k, n, j); }
        LatestInAt(t', c, n, item.height, h);
      }
    } else {
      LatestInSame(t', t, c, n, h);
    }
  }

  /** Item `k` writes the row of its name at its height. */
  ghost predicate WritesRow(table: Table, items: seq<Item>, k: nat, c: string, n: string, h: nat)
    requires k < |items|
  {
    && items[k].contract == c && items[k].name == n && items[k].height == h
    && items[k].step(OrNull(Carry(items[..k], c, n, h, LatestIn(table, c, n, h)))).Some?
  }

  /**
   * Every row: it exists if it did before or an item of its name and height gives a value, and it holds the fold up to
   * its height.
   */
  lemma {:induction false} RowIsCarry(table: Table, items: seq<Item>, c: string, n: string, h: nat)
    requires Ordered(items) && Ahead(table, items)
    ensures (c, n, h) in Sequential(table, items) <==>
            (c, n, h) in table || exists k :: 0 <= k < |items| && WritesRow(table, items, k, c, n, h)
    ensures (c, n, h) in Sequential(table, items) ==>
            Some(Sequential(table, items)[(c, n, h)]) == Carry(items, c, n, h, LatestIn(table, c, n, h))
  {
    SequentialIsCarry(table, items, c, n, h);
    RowExists(table, items, c, n, h);
  }

  lemma {:induction false} RowExists(table: Table, items: seq<Item>, c: string, n: string, h: nat)
    requires Ordered(items) && Ahead(table, items)
    ensures (c, n, h) in Sequential(table, items) <==>
            (c, n, h) in table || exists k :: 0 <= k < |items| && WritesRow(table, items, k, c, n, h)
  {
    if items != [] {
      var m := |items| - 1;
      var past := items[..m];
      PastAhead(table, items, m);
      RowExists(table, past, c, n, h);
      SequentialIsCarry(table, past, c, n, h);
      forall k | 0 <= k < m
        ensures WritesRow(table, items, k, c, n, h) <==> WritesRow(table, past, k, c, n, h)
      {
        assert past[..k] == items[..k];
      }
      assert (c, n, h) in Sequential(table, items) <==>
          (c, n, h) in Sequential(table, past) || WritesRow(table, items, m, c, n, h);
    }
  }

  lemma {:induction false} NothingAbove(t: Table, c: string, n: string, lo: nat, hi: int)
    requires lo <= hi && forall j: nat :: lo < j ==> (c, n, j) !in t
    ensures LatestIn(t, c, n, lo) == LatestIn(t, c, n, hi)
    decreases hi - lo
  {
    if lo < hi { NothingAbove(t, c, n, lo, hi - 1); }
  }

  // ---- from events ----

  function AllEvents(batches: seq<seq<Event>>): seq<Event> {
    if batches == [] then [] else batches[0] + AllEvents(batches[1..])
  }

  function CollectEach(batches: seq<seq<Event>>, transformers: seq<Transformer>): seq<seq<Item>> {
    if batches == [] then [] else [Collect(batches[0], transformers)] + CollectEach(batches[1..], transformers)
  }

  /** Block heights do not decrease within a contract. */
  ghost predicate EventsOrdered(events: seq<Event>) {
    forall i, j :: 0 <= i < j < |events| && events[i].contract == events[j].contract ==>
        events[i].height <= events[j].height
  }

  ghost predicate EventsAligned(batches: seq<seq<Event>>) {
    batches != [] ==>
      && (forall x, y :: x in batches[0] && y in AllEvents(batches[1..]) && x.contract == y.contract ==>
          x.height < y.height)
      && EventsAligned(batches[1..])
  }

  ghost predicate EventsAhead(table: Table, events: seq<Event>) {
    forall key, e :: key in table && e in events && key.0 == e.contract ==> key.2 < e.height
  }

  lemma {:induction false} CollectConcat(a: seq<Event>, b: seq<Event>, transformers: seq<Transformer>)
    ensures Collect(a + b, transformers) == Collect(a, transformers) + Collect(b, transformers)
  {
    if b == [] {
      assert a + b == a;
    } else {
      var init, last := b[..|b| - 1], ItemsOf(b[|b| - 1], transformers);
      assert (a + b)[..|a + b| - 1] == a + init && (a + b)[|a + b| - 1] == b[|b| - 1];
      CollectConcat(a, init, transformers);
      assert Collect(a + b, transformers) == Collect(a + init, transformers) + last;
      assert Collect(b, transformers) == Collect(init, transformers) + last;
    }
  }

  /** Whether a transformer applies to an event: its filter matches, and it gives a name. */
  predicate Applies(e: Event, t: Transformer) {
    t.filter(e) && t.name(e).Some? && t.name(e).value != ""
  }

  /**
   * The transformation of an event: where its value goes, null for a deletion unless the transformer handles those,
   * else `getValue`.
   */
  ghost predicate IsItemOf(x: Item, e: Event, t: Transformer) {
    && x.contract == e.contract && t.name(e) == Some(x.name) && x.height == e.height
    && forall previous :: x.step(previous) ==
         if e.deleted && !t.manualDeletes then Some(Null) else t.getValue(e, previous)
  }

  /** Collecting gives one transformation for each event and applicable transformer, in that order. */
  lemma {:induction false} CollectExact(e: Event, transformers: seq<Transformer>)
    ensures Collect([], transformers) == [] && Collect([e], []) == []
    ensures transformers != [] ==>
              var t, rest, items := transformers[0], Collect([e], transformers[1..]), Collect([e], transformers);
              if Applies(e, t)
              then |items| == 1 + |rest| && IsItemOf(items[0], e, t) && items[1..] == rest
              else items == rest
  {
    forall ts ensures Collect([e], ts) == ItemsOf(e, ts) { CollectSingle(e, ts); }
  }

  lemma CollectSingle(e: Event, transformers: seq<Transformer>)
    ensures Collect([e], transformers) == ItemsOf(e, transformers)
  {
    assert [e][..0] == [] && Collect([], transformers) == [];
  }

  lemma {:induction false} CollectedFrom(events: seq<Event>, transformers: seq<Transformer>, x: Item)
    requires x in Collect(events, transformers)
    ensures exists e :: e in events && e.contract == x.contract && e.height == x.height
  {
    if events != [] {
      var init, last := events[..|events| - 1], events[|events| - 1];
      if x in Collect(init, transformers) {
        CollectedFrom(init, transformers, x);
      } else {
        assert x in ItemsOf(last, transformers);
        assert last in events;
      }
    }
  }

  lemma {:induction false} CollectedOrdered(events: seq<Event>, transformers: seq<Transformer>)
    requires EventsOrdered(events)
    ensures Ordered(Collect(events, transformers))
  {
    if events != [] {
      var init, last := events[..|events| - 1], events[|events| - 1];
      CollectedOrdered(init, transformers);
      var a: seq<Item>, b: seq<Item> := Collect(init, transformers), ItemsOf(last, transformers);
      var all := a + b;
      forall i, j | 0 <= i < j < |all| && all[i].contract == all[j].contract
        ensures all[i].height <= all[j].height
      {
        if i < |a| <= j { EarlierEvent(events, transformers, a[i]); }
      }
    }
  }

  lemma EarlierEvent(events: seq<Event>, transformers: seq<Transformer>, x: Item)
    requires EventsOrdered(events) && events != [] && x in Collect(events[..|events| - 1], transformers)
    ensures x.contract == events[|events| - 1].contract ==> x.height <= events[|events| - 1].height
  {
    var init := events[..|events| - 1];
    CollectedFrom(init, transformers, x);
    var e :| e in init && e.contract == x.contract && e.height == x.height;
    var k :| 0 <= k < |init| && init[k] == e;
    assert events[k] == e;
  }

  lemma CollectedAhead(table: Table, events: seq<Event>, transformers: seq<Transformer>)
    requires EventsAhead(table, events)
    ensures Ahead(table, Collect(events, transformers))
  {
    var items := Collect(events, transformers);
    forall key, i | key in table && 0 <= i < |items| && key.0 == items[i].contract
      ensures key.2 < items[i].height
    {
      CollectedFrom(events, transformers, items[i]);
    }
  }

  lemma {:induction false} CollectedBatches(batches: seq<seq<Event>>, transformers: seq<Transformer>)
    requires EventsAligned(batches)
    ensures Flatten(CollectEach(batches, transformers)) == Collect(AllEvents(batches), transformers)
    ensures BlockAligned(CollectEach(batches, transformers))
    decreases |batches|
  {
    if batches != [] {
      var first, rest := batches[0], AllEvents(batches[1..]);
      var each := CollectEach(batches, transformers);
      CollectedBatches(batches[1..], transformers);
      CollectConcat(first, rest, transformers);
      assert each[0] == Collect(first, transformers) && each[1..] == CollectEach(batches[1..], transformers);
      forall x: Item, y: Item | x in each[0] && y in Flatten(each[1..]) && x.contract == y.contract
        ensures x.height < y.height
      {
        CollectedFrom(first, transformers, x);
        CollectedFrom(rest, transformers, y);
      }
    }
  }

  /**
   * Any split of the events at block boundaries leaves the table of evaluating them one at a time, also when run again.
   */
  lemma EventBatchesAreSequential(table: Table, batches: seq<seq<Event>>, transformers: seq<Transformer>)
    requires EventsOrdered(AllEvents(batches)) && EventsAligned(batches) && EventsAhead(table, AllEvents(batches))
    ensures var items, each := Collect(AllEvents(batches), transformers), CollectEach(batches, transformers);
            && Ordered(items) && Ahead(table, items)
            && RunBatches(table, each) == Sequential(table, items)
            && RunBatches(RunBatches(table, each), each) == RunBatches(table, each)
  {
    CollectedBatches(batches, transformers);
    CollectedOrdered(AllEvents(batches), transformers);
    CollectedAhead(table, AllEvents(batches), transformers);
    BatchesAreSequential(table, CollectEach(batches, transformers));
    RerunChangesNothing(table, CollectEach(batches, transformers));
  }
}
