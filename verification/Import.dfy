/** Importing a contract's state snapshots, for real and as a dry run. */
module Import {
  import opened Options
  import opened JsonText

  type Key = string

  /** A stored state event of one contract. */
  datatype Row = Row(value: string, json: Jsonb, deleted: bool)

  /** One contract's state events, unique by key and block height. */
  type Table = map<(Key, nat), Row>

  /** A raw storage entry: key and value in base64. */
  datatype Entry = Entry(key: string, value: string)

  datatype Snapshot = Snapshot(height: nat, entries: seq<Entry>)

  /** A parsed state event, never a deletion. */
  datatype Event = Event(key: Key, height: nat, value: string, json: Value)

  /** An event as the comparison sees it. */
  datatype Seen = Seen(height: nat, value: string, json: Value, deleted: bool)

  /** Decoding of entries, JSON parsing, and what a stored `jsonb` value looks like when read back. */
  datatype Codec = Codec(key: string -> Key, value: string -> string, parse: string -> Value, readBack: Jsonb -> Value)

  const EmptyJson: Jsonb := ToJsonb(NullValue)

  ghost predicate Sound(c: Codec) {
    forall t :: ToJsonb(c.readBack(t)) == t
  }

  // ---- reading the table ----

  ghost predicate Quiet(t: Table, k: Key, lo: int, hi: int) {
    forall j: nat :: lo < j <= hi ==> (k, j) !in t
  }

  /** Height of the most recent event of a key at or below a height, or -1. */
  function LatestAt(t: Table, k: Key, h: int): (r: int)
    ensures -1 <= r && (r >= 0 ==> r <= h && (k, r) in t)
    ensures Quiet(t, k, r, h)
    decreases if h < 0 then 0 else h + 1
  {
    if h < 0 then -1 else if (k, h) in t then h else LatestAt(t, k, h - 1)
  }

  function Latest(t: Table, k: Key, h: int): Option<Row> {
    var r := LatestAt(t, k, h);
    if r < 0 then None else Some(t[(k, r)])
  }

  /** Tables that agree on a key in (lo, hi]. */
  ghost predicate Agree(t: Table, u: Table, k: Key, lo: int, hi: int) {
    forall j: nat :: lo < j <= hi ==> ((k, j) in t <==> (k, j) in u) && ((k, j) in t ==> t[(k, j)] == u[(k, j)])
  }

  lemma LatestIs(t: Table, k: Key, h: int, r: nat)
    requires r <= h && (k, r) in t && Quiet(t, k, r, h)
    ensures LatestAt(t, k, h) == r
  {
  }

  lemma LatestAgrees(t: Table, u: Table, k: Key, h: int)
    requires Agree(t, u, k, -1, h)
    ensures LatestAt(t, k, h) == LatestAt(u, k, h) && Latest(t, k, h) == Latest(u, k, h)
  {
    var r := LatestAt(t, k, h);
    assert Quiet(u, k, r, h);
    if r >= 0 { LatestIs(u, k, h, r); }
  }

  /** The query's rows: those of the wanted keys at or below the height, newest first. */
  ghost predicate QueryResult(t: Table, keys: seq<Key>, h: int, found: seq<(Key, nat)>) {
    && (forall x :: x in found <==> x in t && x.0 in keys && x.1 <= h)
    && (forall i, j :: 0 <= i < j < |found| ==> found[i].1 >= found[j].1)
  }

  function FindAt(t: Table, keys: seq<Key>, h: nat): (found: seq<(Key, nat)>)
    ensures forall x :: x in found <==> x in t && x.0 in keys && x.1 == h
  {
    if keys == [] then [] else
      var rest := FindAt(t, keys[1..], h);
      assert forall k :: k in keys <==> k == keys[0] || k in keys[1..];
      if (keys[0], h) in t then [(keys[0], h)] + rest else rest
  }

  /** The query itself. */
  function FindAll(t: Table, keys: seq<Key>, h: int): (found: seq<(Key, nat)>)
    ensures QueryResult(t, keys, h, found)
    decreases if h < 0 then 0 else h + 1
  {
    if h < 0 then [] else
      var first, rest := FindAt(t, keys, h), FindAll(t, keys, h - 1);
      assert forall i :: 0 <= i < |first| ==> first[i] in first;
      assert forall i :: 0 <= i < |rest| ==> rest[i] in rest;
      first + rest
  }

  function SeenRow(c: Codec, height: nat, r: Row): Seen {
    Seen(height, r.value, c.readBack(r.json), r.deleted)
  }

  function Stored(c: Codec, t: Table, k: Key, h: nat): Option<Seen> {
    var r := LatestAt(t, k, h);
    if r < 0 then None else Some(SeenRow(c, r, t[(k, r)]))
  }

  /** Keeping the first row of each key, in descending height order, gives each key's most recent event. */
  method GetStoredEventsAtHeight(c: Codec, t: Table, keys: seq<Key>, h: nat, found: seq<(Key, nat)>)
    returns (byKey: map<Key, Seen>)
    requires QueryResult(t, keys, h, found)
    ensures forall k :: k in keys ==> Stored(c, t, k, h) == if k in byKey then Some(byKey[k]) else None
  {
    byKey := map[];
    for i := 0 to |found|
      invariant forall k :: k in byKey ==>
          exists j :: 0 <= j < i && FirstOf(found, k, j) && byKey[k] == SeenRow(c, found[j].1, t[found[j]])
      invariant forall j :: 0 <= j < i ==> found[j].0 in byKey
    {
      assert found[i] in found;
      if found[i].0 !in byKey {
        assert FirstOf(found, found[i].0, i);
        byKey := byKey[found[i].0 := SeenRow(c, found[i].1, t[found[i]])];
      }
    }
    forall k | k in byKey
      ensures Stored(c, t, k, h) == Some(byKey[k])
    {
      var j :| 0 <= j < |found| && FirstOf(found, k, j) && byKey[k] == SeenRow(c, found[j].1, t[found[j]]);
      assert found[j] in found;
      FirstIsLatest(t, keys, h, found, k, j);
    }
    forall k | k in keys && k !in byKey
      ensures Stored(c, t, k, h).None?
    {
      var r := LatestAt(t, k, h);
      assert r >= 0 ==> (k, r) in found;
    }
  }

  ghost predicate FirstOf(found: seq<(Key, nat)>, k: Key, j: nat)
    requires j < |found|
  {
    found[j].0 == k && forall i :: 0 <= i < j ==> found[i].0 != k
  }

  lemma FirstIsLatest(t: Table, keys: seq<Key>, h: nat, found: seq<(Key, nat)>, k: Key, j: nat)
    requires QueryResult(t, keys, h, found) && j < |found| && FirstOf(found, k, j)
    ensures LatestAt(t, k, h) == found[j].1
  {
    var r := found[j].1;
    assert found[j] in found && found[j] == (k, r);
    assert forall i :: 0 <= i < |found| && found[i].0 == k ==> found[i].1 <= r;
    assert forall x: nat :: x <= h ==> ((k, x) in t <==> (k, x) in found);
    LatestIs(t, k, h, r);
  }

  // ---- one snapshot ----

  function SeenEvent(e: Event): Seen {
    Seen(e.height, e.value, e.json, false)
  }

  /** The dry run's overlay: a pending event wins unless the stored one is newer. */
  function Overlay(stored: Option<Seen>, pending: map<Key, Event>, k: Key): Option<Seen> {
    if k in pending && (stored.None? || pending[k].height >= stored.value.height) then Some(SeenEvent(pending[k]))
    else stored
  }

  function EventOf(c: Codec, h: nat, e: Entry): Event {
    var value := c.value(e.value);
    Event(c.key(e.key), h, value, c.parse(value))
  }

  predicate IsUnchangedLiveState(e: Event, latest: Seen) {
    !latest.deleted && latest.value == e.value && IsJsonEqual(latest.json, e.json)
  }

  /** Whether an event is to be saved, given the latest events found. */
  predicate Changed(e: Event, latest: Option<Seen>) {
    latest.None? || !IsUnchangedLiveState(e, latest.value)
  }

  /** The events recovery saves for one snapshot's entries. */
  function Select(c: Codec, t: Table, pending: map<Key, Event>, h: nat, entries: seq<Entry>): seq<Event> {
    if entries == [] then []
    else
      var e := EventOf(c, h, entries[|entries| - 1]);
      Select(c, t, pending, h, entries[..|entries| - 1])
      + if Changed(e, Overlay(Stored(c, t, e.key, h), pending, e.key)) then [e] else []
  }

  function RowOf(e: Event): Row {
    Row(e.value, ToJsonb(e.json), false)
  }

  predicate DistinctKeys(events: seq<Event>) {
    forall i, j :: 0 <= i < j < |events| ==> events[i].key != events[j].key
  }

  /**
   * `bulkCreate` updating on a duplicate (key, height); it throws, writing nothing, if two events name the same row.
   */
  function Save(t: Table, events: seq<Event>): Option<Table> {
    if DistinctKeys(events) then Some(Upsert(t, events)) else None
  }

  function Upsert(t: Table, events: seq<Event>): Table {
    if events == [] then t
    else
      var e := events[|events| - 1];
      Upsert(t, events[..|events| - 1])[(e.key, e.height) := RowOf(e)]
  }

  function AddPending(pending: map<Key, Event>, events: seq<Event>): map<Key, Event> {
    if events == [] then pending
    else
      var e := events[|events| - 1];
      AddPending(pending, events[..|events| - 1])[e.key := e]
  }

  // ---- whole records ----

  /** One snapshot of a real run that may have thrown before. */
  function SaveSnapshot(c: Codec, r: Option<Table>, s: Snapshot): Option<Table> {
    if r.None? then None else Save(r.value, Select(c, r.value, map[], s.height, s.entries))
  }

  /** A real run of the first `n` snapshots; None if a save throws. */
  function RealRun(c: Codec, t: Table, snaps: seq<Snapshot>, n: nat): Option<Table>
    requires n <= |snaps|
  {
    if n == 0 then Some(t) else SaveSnapshot(c, RealRun(c, t, snaps, n - 1), snaps[n - 1])
  }

  /** The table with the first `n` snapshots upserted: what a real run leaves as long as no save throws. */
  function Imported(c: Codec, t: Table, snaps: seq<Snapshot>, n: nat): Table
    requires n <= |snaps|
    decreases n, 0
  {
    if n == 0 then t else Upsert(Imported(c, t, snaps, n - 1), Written(c, t, snaps, n - 1))
  }

  /** What a real run selects for snapshot `i` and hands to the save. */
  function Written(c: Codec, t: Table, snaps: seq<Snapshot>, i: nat): seq<Event>
    requires i < |snaps|
    decreases i, 1
  {
    Select(c, Imported(c, t, snaps, i), map[], snaps[i].height, snaps[i].entries)
  }

  function After(c: Codec, t: Table, snaps: seq<Snapshot>): Table {
    Imported(c, t, snaps, |snaps|)
  }

  /** The overlay after a dry run of the first `n` snapshots. */
  function Pending(c: Codec, t: Table, snaps: seq<Snapshot>, n: nat): map<Key, Event>
    requires n <= |snaps|
    decreases n, 0
  {
    if n == 0 then map[] else AddPending(Pending(c, t, snaps, n - 1), Reported(c, t, snaps, n - 1))
  }

  /** What a dry run reports for snapshot `i`. */
  function Reported(c: Codec, t: Table, snaps: seq<Snapshot>, i: nat): seq<Event>
    requires i < |snaps|
    decreases i, 1
  {
    Select(c, t, Pending(c, t, snaps, i), snaps[i].height, snaps[i].entries)
  }

  ghost predicate Ascending(snaps: seq<Snapshot>) {
    forall i, j :: 0 <= i < j < |snaps| ==> snaps[i].height < snaps[j].height
  }

  /** The saves of the first `n` snapshots go through. */
  ghost predicate AllSaved(c: Codec, t: Table, snaps: seq<Snapshot>, n: nat)
    requires n <= |snaps|
  {
    forall i :: 0 <= i < n ==> DistinctKeys(Written(c, t, snaps, i))
  }

  lemma AllSavedStep(c: Codec, t: Table, snaps: seq<Snapshot>, n: nat)
    requires 0 < n <= |snaps|
    ensures AllSaved(c, t, snaps, n) <==> AllSaved(c, t, snaps, n - 1) && DistinctKeys(Written(c, t, snaps, n - 1))
  {
  }

  lemma {:induction false} RealRunSaved(c: Codec, t: Table, snaps: seq<Snapshot>, n: nat)
    requires n <= |snaps| && AllSaved(c, t, snaps, n)
    ensures RealRun(c, t, snaps, n) == Some(Imported(c, t, snaps, n))
  {
    if n > 0 {
      RealRunSaved(c, t, snaps, n - 1);
      assert DistinctKeys(Written(c, t, snaps, n - 1));
    }
  }

  lemma SaveThrows(c: Codec, t: Table, snaps: seq<Snapshot>, i: nat)
    requires i < |snaps| && !DistinctKeys(Written(c, t, snaps, i))
    ensures SaveSnapshot(c, Some(Imported(c, t, snaps, i)), snaps[i]) == None
  {
  }

  lemma ThrowsAt(c: Codec, t: Table, snaps: seq<Snapshot>, i: nat)
    requires i < |snaps| && AllSaved(c, t, snaps, i) && !DistinctKeys(Written(c, t, snaps, i))
    ensures RealRun(c, t, snaps, i + 1) == None
  {
    RealRunSaved(c, t, snaps, i);
    SaveThrows(c, t, snaps, i);
  }

  lemma {:induction false} RealRunThrown(c: Codec, t: Table, snaps: seq<Snapshot>, n: nat)
    requires n <= |snaps| && !AllSaved(c, t, snaps, n)
    ensures RealRun(c, t, snaps, n) == None
  {
    AllSavedStep(c, t, snaps, n);
    if AllSaved(c, t, snaps, n - 1) {
      ThrowsAt(c, t, snaps, n - 1);
    } else {
      RealRunThrown(c, t, snaps, n - 1);
      assert RealRun(c, t, snaps, n) == SaveSnapshot(c, None, snaps[n - 1]);
    }
  }

  lemma RealRunIs(c: Codec, t: Table, snaps: seq<Snapshot>, n: nat)
    requires n <= |snaps|
    ensures RealRun(c, t, snaps, n) == if AllSaved(c, t, snaps, n) then Some(Imported(c, t, snaps, n)) else None
  {
    if AllSaved(c, t, snaps, n) { RealRunSaved(c, t, snaps, n); } else { RealRunThrown(c, t, snaps, n); }
  }

  // ---- what selecting and upserting do ----

  /** Index of the last event of a key, or -1. */
  function LastFor(events: seq<Event>, k: Key): (i: int)
    ensures -1 <= i < |events| && (i >= 0 ==> events[i].key == k)
    ensures forall j :: i < j < |events| ==> events[j].key != k
  {
    if events == [] then -1
    else if events[|events| - 1].key == k then |events| - 1
    else LastFor(events[..|events| - 1], k)
  }

  lemma {:induction false} UpsertAt(t: Table, events: seq<Event>, k: Key, h: nat, j: nat)
    requires forall i :: 0 <= i < |events| ==> events[i].height == h
    ensures var i, u := LastFor(events, k), Upsert(t, events);
            if i >= 0 && j == h then (k, j) in u && u[(k, j)] == RowOf(events[i])
            else ((k, j) in u <==> (k, j) in t) && ((k, j) in t ==> u[(k, j)] == t[(k, j)])
  {
    if events != [] { UpsertAt(t, events[..|events| - 1], k, h, j); }
  }

  lemma {:induction false} AddPendingAt(pending: map<Key, Event>, events: seq<Event>, k: Key)
    ensures var i, p := LastFor(events, k), AddPending(pending, events);
            if i >= 0 then k in p && p[k] == events[i]
            else (k in p <==> k in pending) && (k in pending ==> p[k] == pending[k])
  {
    if events != [] { AddPendingAt(pending, events[..|events| - 1], k); }
  }

  /** Every selected event is one of the entries' events, and was changed. */
  lemma {:induction false} SelectedFrom(c: Codec, t: Table, p: map<Key, Event>, h: nat, entries: seq<Entry>, i: nat)
    requires i < |Select(c, t, p, h, entries)|
    ensures var e := Select(c, t, p, h, entries)[i];
            e.height == h && exists n :: 0 <= n < |entries| && EventOf(c, h, entries[n]) == e
  {
    var front := entries[..|entries| - 1];
    if i < |Select(c, t, p, h, front)| {
      SelectedFrom(c, t, p, h, front, i);
      var n :| 0 <= n < |front| && EventOf(c, h, front[n]) == Select(c, t, p, h, front)[i];
      assert entries[n] == front[n];
    }
  }

  lemma SelectedHeights(c: Codec, t: Table, p: map<Key, Event>, h: nat, entries: seq<Entry>)
    ensures forall i :: 0 <= i < |Select(c, t, p, h, entries)| ==> Select(c, t, p, h, entries)[i].height == h
  {
    forall i | 0 <= i < |Select(c, t, p, h, entries)| ensures Select(c, t, p, h, entries)[i].height == h {
      SelectedFrom(c, t, p, h, entries, i);
    }
  }

  /** Every changed entry is selected. */
  lemma {:induction false} ChangedSelected(c: Codec, t: Table, p: map<Key, Event>, h: nat, entries: seq<Entry>, n: nat)
    requires n < |entries|
    requires var e := EventOf(c, h, entries[n]); Changed(e, Overlay(Stored(c, t, e.key, h), p, e.key))
    ensures EventOf(c, h, entries[n]) in Select(c, t, p, h, entries)
  {
    if n < |entries| - 1 {
      ChangedSelected(c, t, p, h, entries[..|entries| - 1], n);
    }
  }

  // ---- the dry run agrees with the real one ----

  /** How the overlay stands for the rows a real run has written: newest first, then nothing it hides. */
  ghost predicate Mirrors(t: Table, u: Table, p: map<Key, Event>, k: Key) {
    if k in p then
      (k, p[k].height) in u && u[(k, p[k].height)] == RowOf(p[k]) && forall h: int :: Agree(t, u, k, p[k].height, h)
    else forall h: int :: Agree(t, u, k, -1, h)
  }

  /** Against a mirrored table, the overlay decides as the written table does. */
  lemma MirrorDecides(c: Codec, t: Table, u: Table, p: map<Key, Event>, h: nat, n: Entry)
    requires Sound(c)
    requires var e := EventOf(c, h, n);
             Mirrors(t, u, p, e.key) && (e.key in p ==> p[e.key].height <= h)
    ensures var e := EventOf(c, h, n);
            Changed(e, Overlay(Stored(c, t, e.key, h), p, e.key)) == Changed(e, Stored(c, u, e.key, h))
  {
    var e := EventOf(c, h, n);
    var k := e.key;
    if k !in p {
      LatestAgrees(t, u, k, h);
    } else {
      var at, r := p[k].height, LatestAt(t, k, h);
      assert Agree(t, u, k, at, h);
      if at >= r {
        LatestIs(u, k, h, at);
        IsJsonEqualIff(c.readBack(ToJsonb(p[k].json)), e.json);
        IsJsonEqualIff(p[k].json, e.json);
      } else {
        LatestIs(u, k, h, r);
      }
    }
  }

  lemma {:induction false} MirrorSelects(c: Codec, t: Table, u: Table, p: map<Key, Event>, h: nat, entries: seq<Entry>)
    requires Sound(c)
    requires forall k :: Mirrors(t, u, p, k) && (k in p ==> p[k].height <= h)
    ensures Select(c, t, p, h, entries) == Select(c, u, map[], h, entries)
  {
    if entries != [] {
      MirrorSelects(c, t, u, p, h, entries[..|entries| - 1]);
      var e := EventOf(c, h, entries[|entries| - 1]);
      assert Mirrors(t, u, p, e.key);
      MirrorDecides(c, t, u, p, h, entries[|entries| - 1]);
    }
  }

  /** Saving the same events to the overlay and to the table keeps them mirrored. */
  lemma MirrorStep(t: Table, u: Table, p: map<Key, Event>, events: seq<Event>, h: nat, k: Key)
    requires Mirrors(t, u, p, k) && (k in p ==> p[k].height < h)
    requires forall i :: 0 <= i < |events| ==> events[i].height == h
    ensures Mirrors(t, Upsert(u, events), AddPending(p, events), k)
  {
    AddPendingAt(p, events, k);
    forall j: nat
      ensures var i, u' := LastFor(events, k), Upsert(u, events);
              if i >= 0 && j == h then (k, j) in u' && u'[(k, j)] == RowOf(events[i])
              else ((k, j) in u' <==> (k, j) in u) && ((k, j) in u ==> u'[(k, j)] == u[(k, j)])
    {
      UpsertAt(u, events, k, h, j);
    }
    if k in p {
      assert forall x: int :: Agree(t, u, k, p[k].height, x);
    }
    var p' := AddPending(p, events);
    var lo: int := if k in p' then p'[k].height else -1;
    forall x: int
      ensures Agree(t, Upsert(u, events), k, lo, x)
    {
      assert Agree(t, u, k, if k in p then p[k].height else -1, x);
    }
  }

  /** The overlay mirrors the imported table after every prefix of the record. */
  lemma {:induction false} OverlayMirrors(c: Codec, t: Table, snaps: seq<Snapshot>, n: nat)
    requires Sound(c) && Ascending(snaps) && n <= |snaps|
    ensures forall k :: Mirrors(t, Imported(c, t, snaps, n), Pending(c, t, snaps, n), k)
    ensures forall k :: k in Pending(c, t, snaps, n) ==>
              n > 0 && Pending(c, t, snaps, n)[k].height <= snaps[n - 1].height
  {
    if n > 0 {
      var s, u, p := snaps[n - 1], Imported(c, t, snaps, n - 1), Pending(c, t, snaps, n - 1);
      OverlayMirrors(c, t, snaps, n - 1);
      MirrorSelects(c, t, u, p, s.height, s.entries);
      var events := Reported(c, t, snaps, n - 1);
      SelectedHeights(c, t, p, s.height, s.entries);
      forall k
        ensures Mirrors(t, Upsert(u, events), AddPending(p, events), k)
        ensures k in AddPending(p, events) ==> AddPending(p, events)[k].height <= s.height
      {
        MirrorStep(t, u, p, events, s.height, k);
        AddPendingAt(p, events, k);
        if LastFor(events, k) >= 0 { SelectedFrom(c, t, p, s.height, s.entries, LastFor(events, k)); }
      }
    }
  }

  /** The dry run reports, snapshot by snapshot, exactly what the real run writes. */
  lemma DryRunAgrees(c: Codec, t: Table, snaps: seq<Snapshot>, i: nat)
    requires Sound(c) && Ascending(snaps) && i < |snaps|
    ensures Reported(c, t, snaps, i) == Written(c, t, snaps, i)
  {
    OverlayMirrors(c, t, snaps, i);
    MirrorSelects(c, t, Imported(c, t, snaps, i), Pending(c, t, snaps, i), snaps[i].height, snaps[i].entries);
  }

  // ---- what an import leaves in the table ----

  /** The latest event of an entry's key at a height is live and carries the entry's value. */
  ghost predicate Reads(c: Codec, t: Table, h: nat, n: Entry) {
    var e := EventOf(c, h, n);
    Latest(t, e.key, h) == Some(RowOf(e))
  }

  lemma ReadsIsUnchanged(c: Codec, t: Table, h: nat, n: Entry)
    requires Sound(c)
    ensures var e := EventOf(c, h, n);
            Reads(c, t, h, n) <==> !Changed(e, Overlay(Stored(c, t, e.key, h), map[], e.key))
  {
    var e := EventOf(c, h, n);
    var r := LatestAt(t, e.key, h);
    if r >= 0 { IsJsonEqualIff(c.readBack(t[(e.key, r)].json), e.json); }
  }

  /** No two entries give one key different values. */
  ghost predicate Consistent(c: Codec, entries: seq<Entry>) {
    forall a, b :: a in entries && b in entries && c.key(a.key) == c.key(b.key) ==> c.value(a.value) == c.value(b.value)
  }

  ghost predicate AllRead(c: Codec, t: Table, s: Snapshot) {
    forall n :: n in s.entries ==> Reads(c, t, s.height, n)
  }

  lemma AfterSnapshot(c: Codec, t: Table, h: nat, entries: seq<Entry>, n: Entry)
    requires Sound(c) && Consistent(c, entries) && n in entries
    ensures Reads(c, Upsert(t, Select(c, t, map[], h, entries)), h, n)
  {
    var e, events := EventOf(c, h, n), Select(c, t, map[], h, entries);
    var u, i := Upsert(t, events), LastFor(events, e.key);
    SelectedHeights(c, t, map[], h, entries);
    if i >= 0 {
      UpsertAt(t, events, e.key, h, h);
      SelectedFrom(c, t, map[], h, entries, i);
      LatestIs(u, e.key, h, h);
    } else {
      forall j: nat
        ensures ((e.key, j) in u <==> (e.key, j) in t) && ((e.key, j) in t ==> u[(e.key, j)] == t[(e.key, j)])
      {
        UpsertAt(t, events, e.key, h, j);
      }
      LatestAgrees(t, u, e.key, h);
      var x :| 0 <= x < |entries| && entries[x] == n;
      if Changed(e, Overlay(Stored(c, t, e.key, h), map[], e.key)) {
        ChangedSelected(c, t, map[], h, entries, x);
        assert false;
      }
      ReadsIsUnchanged(c, t, h, n);
    }
  }

  /** The tables agree on a row. */
  ghost predicate SameRow(t: Table, u: Table, k: Key, h: nat) {
    ((k, h) in u <==> (k, h) in t) && ((k, h) in t ==> u[(k, h)] == t[(k, h)])
  }

  lemma UntouchedBySnapshot(c: Codec, t: Table, s: Snapshot, k: Key, h: nat)
    requires forall e :: e in s.entries && c.key(e.key) == k ==> s.height != h
    ensures SameRow(t, Upsert(t, Select(c, t, map[], s.height, s.entries)), k, h)
  {
    var events := Select(c, t, map[], s.height, s.entries);
    SelectedHeights(c, t, map[], s.height, s.entries);
    UpsertAt(t, events, k, s.height, h);
    if LastFor(events, k) >= 0 { SelectedFrom(c, t, map[], s.height, s.entries, LastFor(events, k)); }
  }

  /** An import touches only the snapshots' own keys at the snapshots' own heights. */
  lemma {:induction false} UntouchedRow(c: Codec, t: Table, snaps: seq<Snapshot>, n: nat, k: Key, h: nat)
    requires n <= |snaps|
    requires forall i, e :: 0 <= i < |snaps| && e in snaps[i].entries && c.key(e.key) == k ==> snaps[i].height != h
    ensures SameRow(t, Imported(c, t, snaps, n), k, h)
  {
    if n > 0 {
      UntouchedRow(c, t, snaps, n - 1, k, h);
      UntouchedBySnapshot(c, Imported(c, t, snaps, n - 1), snaps[n - 1], k, h);
    }
  }

  /** Reads below the first snapshot are unchanged, for every key, however many snapshots were imported. */
  lemma ReadsBelowUnchanged(c: Codec, t: Table, snaps: seq<Snapshot>, n: nat, k: Key, h: int)
    requires Ascending(snaps) && n <= |snaps| && (snaps == [] || h < snaps[0].height)
    ensures Latest(Imported(c, t, snaps, n), k, h) == Latest(t, k, h)
  {
    var u := Imported(c, t, snaps, n);
    forall j: nat | j <= h
      ensures ((k, j) in u <==> (k, j) in t) && ((k, j) in t ==> u[(k, j)] == t[(k, j)])
    {
      UntouchedRow(c, t, snaps, n, k, j);
    }
    LatestAgrees(u, t, k, h);
  }

  /** Later snapshots leave the reads at an earlier snapshot's height alone. */
  lemma {:induction false} LaterSnapshots(c: Codec, t: Table, snaps: seq<Snapshot>, i: nat, n: nat, k: Key)
    requires Ascending(snaps) && i < n <= |snaps|
    ensures Latest(Imported(c, t, snaps, n), k, snaps[i].height) ==
        Latest(Imported(c, t, snaps, i + 1), k, snaps[i].height)
  {
    if i + 1 < n {
      var s, u, events := snaps[n - 1], Imported(c, t, snaps, n - 1), Written(c, t, snaps, n - 1);
      LaterSnapshots(c, t, snaps, i, n - 1, k);
      SelectedHeights(c, u, map[], s.height, s.entries);
      forall j: nat | j <= snaps[i].height
        ensures var v := Upsert(u, events); ((k, j) in v <==> (k, j) in u) && ((k, j) in u ==> v[(k, j)] == u[(k, j)])
      {
        UpsertAt(u, events, k, s.height, j);
      }
      LatestAgrees(Upsert(u, events), u, k, snaps[i].height);
    }
  }

  /**
   * In the table with all snapshots upserted, those of a snapshot read back exactly when its keys are not given two
   * values.
   */
  lemma ReadsBackIff(c: Codec, t: Table, snaps: seq<Snapshot>, i: nat)
    requires Sound(c) && Ascending(snaps) && i < |snaps|
    ensures AllRead(c, After(c, t, snaps), snaps[i]) <==> Consistent(c, snaps[i].entries)
  {
    var s, u := snaps[i], After(c, t, snaps);
    if Consistent(c, s.entries) {
      forall n | n in s.entries
        ensures Reads(c, u, s.height, n)
      {
        AfterSnapshot(c, Imported(c, t, snaps, i), s.height, s.entries, n);
        LaterSnapshots(c, t, snaps, i, |snaps|, c.key(n.key));
      }
    }
    if AllRead(c, u, s) {
      ReadTwice(c, u, s);
    }
  }

  lemma ReadTwice(c: Codec, t: Table, s: Snapshot)
    requires AllRead(c, t, s)
    ensures Consistent(c, s.entries)
  {
    forall a, b | a in s.entries && b in s.entries && c.key(a.key) == c.key(b.key)
      ensures c.value(a.value) == c.value(b.value)
    {
      assert Reads(c, t, s.height, a) && Reads(c, t, s.height, b);
    }
  }

  lemma {:induction false} SelectNothing(c: Codec, t: Table, h: nat, entries: seq<Entry>)
    requires Sound(c) && forall n :: n in entries ==> Reads(c, t, h, n)
    ensures Select(c, t, map[], h, entries) == []
  {
    if entries != [] {
      SelectNothing(c, t, h, entries[..|entries| - 1]);
      ReadsIsUnchanged(c, t, h, entries[|entries| - 1]);
    }
  }

  lemma SelectedNothing(c: Codec, t: Table, s: Snapshot)
    requires Sound(c) && Select(c, t, map[], s.height, s.entries) == []
    ensures AllRead(c, t, s)
  {
    forall n | n in s.entries
      ensures Reads(c, t, s.height, n)
    {
      ReadsIsUnchanged(c, t, s.height, n);
      var x :| 0 <= x < |s.entries| && s.entries[x] == n;
      var e := EventOf(c, s.height, n);
      if Changed(e, Overlay(Stored(c, t, e.key, s.height), map[], e.key)) {
        ChangedSelected(c, t, map[], s.height, s.entries, x);
        assert false;
      }
    }
  }

  /** If every snapshot already reads back, importing writes nothing. */
  lemma {:induction false} AlreadyImported(c: Codec, t: Table, snaps: seq<Snapshot>, n: nat)
    requires Sound(c) && n <= |snaps|
    requires forall j :: 0 <= j < n ==> AllRead(c, t, snaps[j])
    ensures Imported(c, t, snaps, n) == t && (n > 0 ==> Written(c, t, snaps, n - 1) == [])
  {
    if n > 0 {
      AlreadyImported(c, t, snaps, n - 1);
      assert AllRead(c, t, snaps[n - 1]);
      SelectNothing(c, t, snaps[n - 1].height, snaps[n - 1].entries);
    }
  }

  ghost predicate WritesNothing(c: Codec, t: Table, snaps: seq<Snapshot>) {
    forall i :: 0 <= i < |snaps| ==> Written(c, t, snaps, i) == []
  }

  ghost predicate AllConsistent(c: Codec, snaps: seq<Snapshot>) {
    forall i :: 0 <= i < |snaps| ==> Consistent(c, snaps[i].entries)
  }

  lemma WritesNothingAgain(c: Codec, t: Table, snaps: seq<Snapshot>)
    requires Sound(c) && Ascending(snaps) && AllConsistent(c, snaps)
    ensures WritesNothing(c, After(c, t, snaps), snaps)
  {
    var u := After(c, t, snaps);
    forall i | 0 <= i < |snaps| ensures AllRead(c, u, snaps[i]) { ReadsBackIff(c, t, snaps, i); }
    forall i | 0 <= i < |snaps| ensures Written(c, u, snaps, i) == [] { AlreadyImported(c, u, snaps, i + 1); }
  }

  lemma NothingWrittenConsistent(c: Codec, u: Table, snaps: seq<Snapshot>)
    requires Sound(c) && WritesNothing(c, u, snaps)
    ensures AllConsistent(c, snaps)
  {
    forall i | 0 <= i < |snaps| ensures Consistent(c, snaps[i].entries) {
      assert Written(c, u, snaps, i) == [];
      SelectedNothing(c, Imported(c, u, snaps, i), snaps[i]);
      ReadTwice(c, Imported(c, u, snaps, i), snaps[i]);
    }
  }

  /** Selecting again finds nothing to write exactly when no snapshot gives a key two values. */
  lemma NothingAgainIff(c: Codec, t: Table, snaps: seq<Snapshot>)
    requires Sound(c) && Ascending(snaps)
    ensures WritesNothing(c, After(c, t, snaps), snaps) <==> AllConsistent(c, snaps)
  {
    if AllConsistent(c, snaps) { WritesNothingAgain(c, t, snaps); }
    if WritesNothing(c, After(c, t, snaps), snaps) { NothingWrittenConsistent(c, After(c, t, snaps), snaps); }
  }

  // ---- when a real import goes through, and what it then leaves ----

  /** No snapshot's dry-run report names a key twice. */
  ghost predicate ReportsDistinct(c: Codec, t: Table, snaps: seq<Snapshot>) {
    forall i :: 0 <= i < |snaps| ==> DistinctKeys(Reported(c, t, snaps, i))
  }

  ghost predicate Reproduced(c: Codec, u: Table, snaps: seq<Snapshot>) {
    forall i :: 0 <= i < |snaps| ==> AllRead(c, u, snaps[i])
  }

  /** A real import throws exactly if some snapshot's dry-run report names a key twice. */
  lemma ImportSucceedsIff(c: Codec, t: Table, snaps: seq<Snapshot>)
    requires Sound(c) && Ascending(snaps)
    ensures RealRun(c, t, snaps, |snaps|) ==
            if ReportsDistinct(c, t, snaps) then Some(After(c, t, snaps)) else None
  {
    RealRunIs(c, t, snaps, |snaps|);
    forall i | 0 <= i < |snaps|
      ensures Reported(c, t, snaps, i) == Written(c, t, snaps, i)
    {
      DryRunAgrees(c, t, snaps, i);
    }
  }

  /**
   * It goes through and every entry reads back at its height exactly if, besides, no snapshot gives a key two values.
   */
  lemma ImportReproducesIff(c: Codec, t: Table, snaps: seq<Snapshot>)
    requires Sound(c) && Ascending(snaps)
    ensures var r := RealRun(c, t, snaps, |snaps|);
            r.Some? && Reproduced(c, r.value, snaps) <==> ReportsDistinct(c, t, snaps) && AllConsistent(c, snaps)
  {
    ImportSucceedsIff(c, t, snaps);
    forall i | 0 <= i < |snaps|
      ensures AllRead(c, After(c, t, snaps), snaps[i]) <==> Consistent(c, snaps[i].entries)
    {
      ReadsBackIff(c, t, snaps, i);
    }
  }

  /** Exactly then, a second import goes through as well and has nothing to write. */
  lemma SecondImportIff(c: Codec, t: Table, snaps: seq<Snapshot>)
    requires Sound(c) && Ascending(snaps)
    ensures var r := RealRun(c, t, snaps, |snaps|);
            r.Some? && WritesNothing(c, r.value, snaps) && RealRun(c, r.value, snaps, |snaps|) == r <==>
            ReportsDistinct(c, t, snaps) && AllConsistent(c, snaps)
  {
    ImportSucceedsIff(c, t, snaps);
    NothingAgainIff(c, t, snaps);
    var u := After(c, t, snaps);
    if WritesNothing(c, u, snaps) {
      WrittenNothing(c, u, snaps, |snaps|);
    }
  }

  lemma {:induction false} WrittenNothing(c: Codec, u: Table, snaps: seq<Snapshot>, n: nat)
    requires n <= |snaps| && WritesNothing(c, u, snaps)
    ensures RealRun(c, u, snaps, n) == Some(u) && Imported(c, u, snaps, n) == u
  {
    if n > 0 {
      WrittenNothing(c, u, snaps, n - 1);
      assert Written(c, u, snaps, n - 1) == [];
    }
  }

  // ---- the check a caller can make beforehand ----

  /** No two entries of a snapshot decode to the same key. */
  ghost predicate DistinctEntries(c: Codec, s: Snapshot) {
    forall i, j :: 0 <= i < j < |s.entries| ==> c.key(s.entries[i].key) != c.key(s.entries[j].key)
  }

  lemma {:induction false} SelectDistinct(c: Codec, t: Table, p: map<Key, Event>, h: nat, entries: seq<Entry>)
    requires DistinctEntries(c, Snapshot(h, entries))
    ensures DistinctKeys(Select(c, t, p, h, entries))
  {
    if entries != [] {
      var front, e := entries[..|entries| - 1], EventOf(c, h, entries[|entries| - 1]);
      SelectDistinct(c, t, p, h, front);
      var events := Select(c, t, p, h, front);
      forall i | 0 <= i < |events|
        ensures events[i].key != e.key
      {
        SelectedFrom(c, t, p, h, front, i);
        var n :| 0 <= n < |front| && EventOf(c, h, front[n]) == events[i];
        assert entries[n] == front[n];
      }
    }
  }

  lemma DistinctIsConsistent(c: Codec, s: Snapshot)
    requires DistinctEntries(c, s)
    ensures Consistent(c, s.entries)
  {
    forall a, b | a in s.entries && b in s.entries && c.key(a.key) == c.key(b.key)
      ensures c.value(a.value) == c.value(b.value)
    {
      var i :| 0 <= i < |s.entries| && s.entries[i] == a;
      var j :| 0 <= j < |s.entries| && s.entries[j] == b;
      assert i == j;
    }
  }

  /** A deleted row at a snapshot's own height has all of the key's entries selected. */
  lemma RepeatedIsSelected(c: Codec, snaps: seq<Snapshot>, x: nat, i: nat, j: nat)
    requires Ascending(snaps) && x < |snaps| && 0 <= i < j < |snaps[x].entries|
    requires c.key(snaps[x].entries[i].key) == c.key(snaps[x].entries[j].key)
    ensures var t := map[(c.key(snaps[x].entries[i].key), snaps[x].height) := Row("", EmptyJson, true)];
            !DistinctKeys(Written(c, t, snaps, x))
  {
    var s, k := snaps[x], c.key(snaps[x].entries[i].key);
    var t: Table := map[(k, s.height) := Row("", EmptyJson, true)];
    RowBefore(c, t, snaps, x, x, k, s.height);
    var u := Imported(c, t, snaps, x);
    assert LatestAt(u, k, s.height) == s.height;
    SelectTwice(c, u, s.height, s.entries, i, j);
  }

  lemma {:induction false} RowBefore(c: Codec, t: Table, snaps: seq<Snapshot>, n: nat, x: nat, k: Key, h: nat)
    requires Ascending(snaps) && n <= x < |snaps| && h == snaps[x].height && (k, h) in t
    ensures (k, h) in Imported(c, t, snaps, n) && Imported(c, t, snaps, n)[(k, h)] == t[(k, h)]
  {
    if n > 0 {
      RowBefore(c, t, snaps, n - 1, x, k, h);
      var s, u := snaps[n - 1], Imported(c, t, snaps, n - 1);
      SelectedHeights(c, u, map[], s.height, s.entries);
      UpsertAt(u, Written(c, t, snaps, n - 1), k, s.height, h);
    }
  }

  lemma {:induction false} SelectTwice(c: Codec, t: Table, h: nat, entries: seq<Entry>, i: nat, j: nat)
    requires i < j < |entries| && c.key(entries[i].key) == c.key(entries[j].key)
    requires var k := c.key(entries[i].key); (k, h) in t && t[(k, h)].deleted
    ensures !DistinctKeys(Select(c, t, map[], h, entries))
  {
    var front := entries[..|entries| - 1];
    var k, events, all := c.key(entries[i].key), Select(c, t, map[], h, front), Select(c, t, map[], h, entries);
    assert LatestAt(t, k, h) == h;
    if j == |entries| - 1 {
      ChangedSelected(c, t, map[], h, front, i);
      var n :| 0 <= n < |events| && events[n] == EventOf(c, h, front[i]);
      assert all[n].key == all[|events|].key;
    } else {
      SelectTwice(c, t, h, front, i, j);
      var n, m :| 0 <= n < m < |events| && events[n].key == events[m].key;
      assert all[n] == events[n] && all[m] == events[m];
    }
  }

  ghost predicate AllDistinct(c: Codec, snaps: seq<Snapshot>) {
    forall i :: 0 <= i < |snaps| ==> DistinctEntries(c, snaps[i])
  }

  /** A real import goes through and every entry reads back. */
  ghost predicate Works(c: Codec, t: Table, snaps: seq<Snapshot>) {
    var r := RealRun(c, t, snaps, |snaps|);
    r.Some? && Reproduced(c, r.value, snaps)
  }

  /** It does, whatever is stored, exactly if no snapshot names a key twice: what a caller can check beforehand. */
  lemma ImportAlwaysWorksIff(c: Codec, snaps: seq<Snapshot>)
    requires Sound(c) && Ascending(snaps)
    ensures (forall t :: Works(c, t, snaps)) <==> AllDistinct(c, snaps)
  {
    if AllDistinct(c, snaps) {
      forall t ensures Works(c, t, snaps) { DistinctWorks(c, t, snaps); }
    } else {
      var x :| 0 <= x < |snaps| && !DistinctEntries(c, snaps[x]);
      RepeatedFails(c, snaps, x);
    }
  }

  lemma RepeatedFails(c: Codec, snaps: seq<Snapshot>, x: nat)
    requires Ascending(snaps) && x < |snaps| && !DistinctEntries(c, snaps[x])
    ensures exists t :: !Works(c, t, snaps)
  {
    var entries := snaps[x].entries;
    var i, j :| 0 <= i < j < |entries| && c.key(entries[i].key) == c.key(entries[j].key);
    var t: Table := map[(c.key(entries[i].key), snaps[x].height) := Row("", EmptyJson, true)];
    RepeatedIsSelected(c, snaps, x, i, j);
    RealRunIs(c, t, snaps, |snaps|);
    assert !Works(c, t, snaps);
  }

  lemma DistinctWorks(c: Codec, t: Table, snaps: seq<Snapshot>)
    requires Sound(c) && Ascending(snaps) && AllDistinct(c, snaps)
    ensures Works(c, t, snaps)
  {
    DistinctGoesThrough(c, t, snaps);
    forall i | 0 <= i < |snaps|
      ensures AllRead(c, After(c, t, snaps), snaps[i])
    {
      DistinctIsConsistent(c, snaps[i]);
      ReadsBackIff(c, t, snaps, i);
    }
  }

  lemma DistinctGoesThrough(c: Codec, t: Table, snaps: seq<Snapshot>)
    requires AllDistinct(c, snaps)
    ensures RealRun(c, t, snaps, |snaps|) == Some(After(c, t, snaps))
  {
    RealRunIs(c, t, snaps, |snaps|);
    forall i | 0 <= i < |snaps|
      ensures DistinctKeys(Written(c, t, snaps, i))
    {
      assert DistinctEntries(c, snaps[i]);
      SelectDistinct(c, Imported(c, t, snaps, i), map[], snaps[i].height, snaps[i].entries);
    }
  }

  // ---- the whole state, for a contract not stored before ----

  function Live(t: Table, k: Key, h: int): Option<string> {
    match Latest(t, k, h)
    case None => None
    case Some(row) => if row.deleted then None else Some(row.value)
  }

  ghost predicate Names(c: Codec, s: Snapshot, k: Key) {
    exists n :: n in s.entries && c.key(n.key) == k
  }

  /** At height `h` the live state is the snapshot: its entries, and no other key. */
  ghost predicate StateIs(c: Codec, t: Table, h: nat, s: Snapshot) {
    && (forall n :: n in s.entries ==> Live(t, c.key(n.key), h) == Some(c.value(n.value)))
    && (forall k :: Live(t, k, h).Some? ==> Names(c, s, k))
  }

  /** No key is removed from one snapshot to the next. */
  ghost predicate KeysKept(c: Codec, snaps: seq<Snapshot>) {
    forall i :: 0 < i < |snaps| ==> Kept(c, snaps[i - 1], snaps[i])
  }

  ghost predicate Kept(c: Codec, a: Snapshot, b: Snapshot) {
    forall k :: Names(c, a, k) ==> Names(c, b, k)
  }

  /** Snapshot `i` is the last one at or below `h`. */
  ghost predicate Current(snaps: seq<Snapshot>, i: nat, h: nat)
    requires i < |snaps|
  {
    snaps[i].height <= h && (i + 1 < |snaps| ==> h < snaps[i + 1].height)
  }

  lemma {:induction false} KeptOn(c: Codec, snaps: seq<Snapshot>, j: nat, i: nat, k: Key)
    requires KeysKept(c, snaps) && j <= i < |snaps| && Names(c, snaps[j], k)
    ensures Names(c, snaps[i], k)
    decreases i - j
  {
    if j < i {
      assert Kept(c, snaps[j + 1 - 1], snaps[j + 1]);
      KeptOn(c, snaps, j + 1, i, k);
    }
  }

  lemma LatestQuiet(t: Table, k: Key, lo: nat, hi: nat)
    requires lo <= hi && Quiet(t, k, lo, hi)
    ensures Latest(t, k, hi) == Latest(t, k, lo)
  {
    var r := LatestAt(t, k, lo);
    if r >= 0 { LatestIs(t, k, hi, r); }
  }

  /** Nothing is stored between a snapshot and the next. */
  lemma QuietBetween(c: Codec, snaps: seq<Snapshot>, i: nat, h: nat, k: Key)
    requires Ascending(snaps) && i < |snaps| && Current(snaps, i, h)
    ensures Quiet(After(c, map[], snaps), k, snaps[i].height, h)
  {
    forall j: nat | snaps[i].height < j <= h
      ensures (k, j) !in After(c, map[], snaps)
    {
      assert forall x :: 0 <= x < |snaps| ==> snaps[x].height != j;
      UntouchedRow(c, map[], snaps, |snaps|, k, j);
    }
  }

  lemma NeverNamed(c: Codec, snaps: seq<Snapshot>, i: nat, h: nat, k: Key)
    requires Ascending(snaps) && i < |snaps| && Current(snaps, i, h) && KeysKept(c, snaps) && !Names(c, snaps[i], k)
    ensures Latest(After(c, map[], snaps), k, h) == None
  {
    var u := After(c, map[], snaps);
    forall j: nat | j <= h
      ensures (k, j) !in u
    {
      forall x, n | 0 <= x < |snaps| && n in snaps[x].entries && c.key(n.key) == k
        ensures snaps[x].height != j
      {
        assert Names(c, snaps[x], k);
        if x <= i { KeptOn(c, snaps, x, i, k); }
      }
      UntouchedRow(c, map[], snaps, |snaps|, k, j);
    }
  }

  lemma StateAt(c: Codec, snaps: seq<Snapshot>, i: nat, h: nat)
    requires Sound(c) && Ascending(snaps) && i < |snaps| && Consistent(c, snaps[i].entries) && KeysKept(c, snaps)
    requires Current(snaps, i, h)
    ensures StateIs(c, After(c, map[], snaps), h, snaps[i])
  {
    var u := After(c, map[], snaps);
    forall n | n in snaps[i].entries
      ensures Live(u, c.key(n.key), h) == Some(c.value(n.value))
    {
      ReadsBackIff(c, map[], snaps, i);
      assert Reads(c, u, snaps[i].height, n);
      QuietBetween(c, snaps, i, h, c.key(n.key));
      LatestQuiet(u, c.key(n.key), snaps[i].height, h);
    }
    forall k | Live(u, k, h).Some?
      ensures Names(c, snaps[i], k)
    {
      if !Names(c, snaps[i], k) { NeverNamed(c, snaps, i, h, k); }
    }
  }

  lemma QuietAfterRemoval(c: Codec, snaps: seq<Snapshot>, i: nat, k: Key)
    requires Ascending(snaps) && 0 < i < |snaps| && !Names(c, snaps[i], k)
    ensures Quiet(After(c, map[], snaps), k, snaps[i - 1].height, snaps[i].height)
  {
    forall j: nat | snaps[i - 1].height < j <= snaps[i].height
      ensures (k, j) !in After(c, map[], snaps)
    {
      forall x, m | 0 <= x < |snaps| && m in snaps[x].entries && c.key(m.key) == k
        ensures snaps[x].height != j
      {
        assert x != i;
      }
      UntouchedRow(c, map[], snaps, |snaps|, k, j);
    }
  }

  /** A removed key stays live at the height of the snapshot that no longer has it. */
  lemma RemovedStaysLive(c: Codec, snaps: seq<Snapshot>, i: nat, k: Key)
    requires Sound(c) && Ascending(snaps) && 0 < i < |snaps| && Consistent(c, snaps[i - 1].entries)
    requires Names(c, snaps[i - 1], k) && !Names(c, snaps[i], k)
    ensures Live(After(c, map[], snaps), k, snaps[i].height).Some?
  {
    var u, lo, hi := After(c, map[], snaps), snaps[i - 1].height, snaps[i].height;
    ReadsBackIff(c, map[], snaps, i - 1);
    var n :| n in snaps[i - 1].entries && c.key(n.key) == k;
    assert Reads(c, u, lo, n);
    QuietAfterRemoval(c, snaps, i, k);
    LatestQuiet(u, k, lo, hi);
  }

  ghost predicate ExactHistory(c: Codec, t: Table, snaps: seq<Snapshot>) {
    forall i, h: nat :: 0 <= i < |snaps| && Current(snaps, i, h) ==> StateIs(c, t, h, snaps[i])
  }

  /**
   * Imported into an empty table, a record gives at every height exactly the state of the last snapshot at
   * or below it, if and only if no key is removed between snapshots.
   */
  lemma KeptIff(c: Codec, snaps: seq<Snapshot>)
    requires Sound(c) && Ascending(snaps) && AllConsistent(c, snaps)
    ensures ExactHistory(c, After(c, map[], snaps), snaps) <==> KeysKept(c, snaps)
  {
    var u := After(c, map[], snaps);
    if KeysKept(c, snaps) {
      forall i, h: nat | 0 <= i < |snaps| && Current(snaps, i, h)
        ensures StateIs(c, u, h, snaps[i])
      {
        StateAt(c, snaps, i, h);
      }
    }
    if ExactHistory(c, u, snaps) {
      forall i | 0 < i < |snaps|
        ensures Kept(c, snaps[i - 1], snaps[i])
      {
        assert Current(snaps, i, snaps[i].height);
        assert StateIs(c, u, snaps[i].height, snaps[i]);
        forall k | Names(c, snaps[i - 1], k)
          ensures Names(c, snaps[i], k)
        {
          if !Names(c, snaps[i], k) { RemovedStaysLive(c, snaps, i, k); }
        }
      }
    }
  }

  /**
   * Imported into an empty table, a record goes through and gives at every height exactly the state of the
   * last snapshot at or below it, if and only if no key is removed between snapshots or given two values,
   * and no report names a key twice.
   */
  lemma ExactHistoryIff(c: Codec, snaps: seq<Snapshot>)
    requires Sound(c) && Ascending(snaps)
    ensures var r := RealRun(c, map[], snaps, |snaps|);
            r.Some? && ExactHistory(c, r.value, snaps) <==>
            KeysKept(c, snaps) && AllConsistent(c, snaps) && ReportsDistinct(c, map[], snaps)
  {
    ImportSucceedsIff(c, map[], snaps);
    if ExactHistory(c, After(c, map[], snaps), snaps) { HistoryIsConsistent(c, After(c, map[], snaps), snaps); }
    if AllConsistent(c, snaps) { KeptIff(c, snaps); }
  }

  lemma HistoryIsConsistent(c: Codec, t: Table, snaps: seq<Snapshot>)
    requires Ascending(snaps) && ExactHistory(c, t, snaps)
    ensures AllConsistent(c, snaps)
  {
    forall i | 0 <= i < |snaps|
      ensures Consistent(c, snaps[i].entries)
    {
      assert Current(snaps, i, snaps[i].height);
      assert StateIs(c, t, snaps[i].height, snaps[i]);
    }
  }

  // ---- validation ----

  /** `codeId` is a JavaScript number. */
  datatype Record = Record(address: string, codeId: real, snapshots: seq<Snapshot>, sha256: string)

  /** `height` is None when the export height is not a string of digits. */
  datatype Export = Export(format: string, height: Option<nat>, count: int, records: seq<Record>)

  datatype Problem =
    | UnknownFormat | CountMismatch | InvalidExportHeight | DuplicateRecord(address: string) | Excluded(address: string)
    | HashMismatch(address: string) | InvalidCodeId(address: string) | NoSnapshots(address: string)
    | NotAscending(address: string) | AboveExportHeight(address: string) | KeyRemoved(address: string, height: nat)

  const ExportFormat := "xion-contract-state-export/v1"

  function RawKeys(s: Snapshot): set<string> {
    set n | n in s.entries :: n.key
  }

  ghost predicate ValidRecord(r: Record, exportHeight: Option<nat>, excluded: set<string>, hash: Record -> string) {
    && r.address !in excluded && hash(r) == r.sha256
    && r.codeId == r.codeId.Floor as real && r.codeId > 0.0
    && r.snapshots != [] && HeightsOk(r, exportHeight)
    && KeepsRawKeys(r, |r.snapshots|)
  }

  ghost predicate ValidExport(data: Export, excluded: set<string>, hash: Record -> string) {
    && data.format == ExportFormat && |data.records| == data.count && data.height.Some?
    && (forall i, j :: 0 <= i < j < |data.records| ==> data.records[i].address != data.records[j].address)
    && (forall i :: 0 <= i < |data.records| ==> ValidRecord(data.records[i], data.height, excluded, hash))
  }

  lemma {:induction false} AscendingBySteps(snaps: seq<Snapshot>)
    requires forall i :: 0 < i < |snaps| ==> snaps[i - 1].height < snaps[i].height
    ensures Ascending(snaps)
  {
    if snaps != [] {
      var front := snaps[..|snaps| - 1];
      AscendingBySteps(front);
      forall i, j | 0 <= i < j < |snaps| ensures snaps[i].height < snaps[j].height {
        if j == |snaps| - 1 {
          assert snaps[j - 1].height < snaps[j].height;
          assert i < j - 1 ==> front[i].height < front[j - 1].height;
        } else {
          assert front[i].height < front[j].height;
        }
      }
    }
  }

  ghost predicate KeepsRawKeys(r: Record, n: int) {
    forall i :: 0 < i < |r.snapshots| && i < n ==> RawKeys(r.snapshots[i - 1]) <= RawKeys(r.snapshots[i])
  }

  /** Keys removed from one snapshot to the next. */
  method CheckKeys(r: Record) returns (problems: seq<Problem>)
    ensures problems == [] <==> KeepsRawKeys(r, |r.snapshots|)
  {
    problems := [];
    var i := 1;
    while i < |r.snapshots|
      invariant 1 <= i && (problems == [] <==> KeepsRawKeys(r, i))
    {
      var later := RawKeys(r.snapshots[i]);
      if exists n :: n in r.snapshots[i - 1].entries && n.key !in later {
        problems := problems + [KeyRemoved(r.address, r.snapshots[i].height)];
      }
      i := i + 1;
    }
  }

  ghost predicate HeightsOk(r: Record, exportHeight: Option<nat>) {
    && Ascending(r.snapshots)
    && (exportHeight.Some? ==> forall i :: 0 <= i < |r.snapshots| ==> r.snapshots[i].height <= exportHeight.value)
  }

  method CheckHeights(r: Record, exportHeight: Option<nat>) returns (problems: seq<Problem>)
    ensures problems == [] <==> HeightsOk(r, exportHeight)
  {
    problems := [];
    if exists i :: 0 < i < |r.snapshots| && r.snapshots[i].height <= r.snapshots[i - 1].height {
      problems := problems + [NotAscending(r.address)];
    } else {
      AscendingBySteps(r.snapshots);
    }
    if exportHeight.Some? && exists i :: 0 <= i < |r.snapshots| && r.snapshots[i].height > exportHeight.value {
      problems := problems + [AboveExportHeight(r.address)];
    }
  }

  /** The problems of one record. */
  method CheckRecord(r: Record, exportHeight: Option<nat>, excluded: set<string>, hash: Record -> string)
    returns (problems: seq<Problem>)
    ensures problems == [] <==> ValidRecord(r, exportHeight, excluded, hash)
  {
    problems := [];
    if r.address in excluded { problems := problems + [Excluded(r.address)]; }
    if hash(r) != r.sha256 { problems := problems + [HashMismatch(r.address)]; }
    if r.codeId != r.codeId.Floor as real || r.codeId <= 0.0 { problems := problems + [InvalidCodeId(r.address)]; }
    if |r.snapshots| == 0 { problems := problems + [NoSnapshots(r.address)]; }
    var heights := CheckHeights(r, exportHeight);
    var removed := CheckKeys(r);
    problems := problems + heights + removed;
  }

  /** The list of problems is empty exactly for a valid export. */
  method ValidateExport(data: Export, excluded: set<string>, hash: Record -> string) returns (problems: seq<Problem>)
    ensures problems == [] <==> ValidExport(data, excluded, hash)
  {
    problems := [];
    if data.format != ExportFormat { problems := problems + [UnknownFormat]; }
    if |data.records| != data.count { problems := problems + [CountMismatch]; }
    if data.height.None? { problems := problems + [InvalidExportHeight]; }
    ghost var before := problems;
    var seen := {};
    for x := 0 to |data.records|
      invariant seen == set i | 0 <= i < x :: data.records[i].address
      invariant problems == [] <==>
                && before == []
                && (forall i, j :: 0 <= i < j < x ==> data.records[i].address != data.records[j].address)
                && (forall i :: 0 <= i < x ==> ValidRecord(data.records[i], data.height, excluded, hash))
    {
      var r := data.records[x];
      if r.address in seen { problems := problems + [DuplicateRecord(r.address)]; }
      seen := seen + {r.address};
      var more := CheckRecord(r, data.height, excluded, hash);
      problems := problems + more;
    }
  }

  /** A validated record meets what the import theorems ask of its snapshots. */
  lemma ValidatedKeepsKeys(c: Codec, r: Record, exportHeight: Option<nat>, excluded: set<string>,
      hash: Record -> string)
    requires ValidRecord(r, exportHeight, excluded, hash)
    ensures Ascending(r.snapshots) && KeysKept(c, r.snapshots)
  {
    forall i | 0 < i < |r.snapshots|
      ensures Kept(c, r.snapshots[i - 1], r.snapshots[i])
    {
      RawKept(c, r.snapshots[i - 1], r.snapshots[i]);
    }
  }

  lemma RawKept(c: Codec, a: Snapshot, b: Snapshot)
    requires RawKeys(a) <= RawKeys(b)
    ensures Kept(c, a, b)
  {
    forall k | Names(c, a, k)
      ensures Names(c, b, k)
    {
      var n :| n in a.entries && c.key(n.key) == k;
      assert n.key in RawKeys(a);
      assert n.key in RawKeys(b);
      var m :| m in b.entries && m.key == n.key;
    }
  }

  // ---- what validation lets through ----

  /** A record with one snapshot, and its own hash. */
  function OneSnapshot(entries: seq<Entry>, hash: Record -> string): Record {
    var r := Record("a", 1.0, [Snapshot(1, entries)], "");
    r.(sha256 := hash(r))
  }

  /** The hash leaves out the record's own `sha256`. */
  ghost predicate HashIgnoresItself(hash: Record -> string) {
    forall r: Record, text: string :: hash(r.(sha256 := text)) == hash(r)
  }

  lemma OneSnapshotValid(entries: seq<Entry>, hash: Record -> string)
    requires HashIgnoresItself(hash)
    ensures ValidRecord(OneSnapshot(entries, hash), Some(1), {}, hash)
  {
    var r := Record("a", 1.0, [Snapshot(1, entries)], "");
    assert hash(r.(sha256 := hash(r))) == hash(r);
  }

  /** A key listed twice, even with one value, passes validation and makes the import into an empty table throw. */
  lemma RepeatedKeyThrows(c: Codec, hash: Record -> string)
    requires HashIgnoresItself(hash)
    ensures var n := Entry("YQ==", "MQ==");
            var r := OneSnapshot([n, n], hash);
            ValidRecord(r, Some(1), {}, hash) && AllConsistent(c, r.snapshots) &&
                RealRun(c, map[], r.snapshots, 1).None?
  {
    var n := Entry("YQ==", "MQ==");
    OneSnapshotValid([n, n], hash);
    var e, snaps := EventOf(c, 1, n), OneSnapshot([n, n], hash).snapshots;
    assert [n, n][..1] == [n] && [n][..0] == [];
    assert LatestAt(map[], e.key, 1) == -1;
    assert Select(c, map[], map[], 1, [n]) == [e];
    assert Written(c, map[], snaps, 0) == [e, e];
    assert [e, e][0].key == [e, e][1].key;
    RealRunIs(c, map[], snaps, 1);
  }

  /**
   * With one of a key's two values stored, the import goes through, does not reproduce the record, and writes again.
   */
  lemma TwoValuesForOneKey(c: Codec, hash: Record -> string)
    requires HashIgnoresItself(hash) && Sound(c) && c.value("MQ==") != c.value("Mg==")
    ensures var a, b := Entry("YQ==", "MQ=="), Entry("YQ==", "Mg==");
            var r, t := OneSnapshot([a, b], hash), map[(c.key("YQ=="), 1) := RowOf(EventOf(c, 1, a))];
            var done := RealRun(c, t, r.snapshots, 1);
            && ValidRecord(r, Some(1), {}, hash) && done.Some?
            && !Reproduced(c, done.value, r.snapshots) && !WritesNothing(c, done.value, r.snapshots)
  {
    var a, b := Entry("YQ==", "MQ=="), Entry("YQ==", "Mg==");
    var snaps := OneSnapshot([a, b], hash).snapshots;
    var t: Table := map[(c.key("YQ=="), 1) := RowOf(EventOf(c, 1, a))];
    OneSnapshotValid([a, b], hash);
    assert a in snaps[0].entries && b in snaps[0].entries;
    assert !Consistent(c, snaps[0].entries);
    ReadsBackIff(c, t, snaps, 0);
    NothingAgainIff(c, t, snaps);
    assert [a, b][..1] == [a] && [a][..0] == [];
    assert LatestAt(t, c.key("YQ=="), 1) == 1;
    ReadsIsUnchanged(c, t, 1, a);
    assert Select(c, t, map[], 1, [a]) == [];
    RealRunIs(c, t, snaps, 1);
  }

  // ---- the import itself ----

  /** What either kind of run selects for snapshot `i`. */
  function Selected(c: Codec, t: Table, snaps: seq<Snapshot>, dryRun: bool, i: nat): seq<Event>
    requires i < |snaps|
  {
    if dryRun then Reported(c, t, snaps, i) else Written(c, t, snaps, i)
  }

  /** What is saved, or would be saved, for each of the first `n` snapshots. */
  function Log(c: Codec, t: Table, snaps: seq<Snapshot>, dryRun: bool, n: nat): seq<seq<Event>>
    requires n <= |snaps|
  {
    if n == 0 then [] else Log(c, t, snaps, dryRun, n - 1) + [Selected(c, t, snaps, dryRun, n - 1)]
  }

  lemma SelectedAlike(c: Codec, t: Table, snaps: seq<Snapshot>, i: nat)
    requires Sound(c) && Ascending(snaps) && i < |snaps|
    ensures Selected(c, t, snaps, true, i) == Selected(c, t, snaps, false, i)
  {
    DryRunAgrees(c, t, snaps, i);
  }

  /** A dry run returns what a real run returns, as far as the real run gets. */
  lemma {:induction false} DryRunLog(c: Codec, t: Table, snaps: seq<Snapshot>, n: nat)
    requires Sound(c) && Ascending(snaps) && n <= |snaps|
    ensures Log(c, t, snaps, true, n) == Log(c, t, snaps, false, n)
  {
    if n > 0 {
      DryRunLog(c, t, snaps, n - 1);
      SelectedAlike(c, t, snaps, n - 1);
    }
  }

  lemma SelectStep(c: Codec, t: Table, p: map<Key, Event>, h: nat, entries: seq<Entry>, i: nat)
    requires i < |entries|
    ensures var e := EventOf(c, h, entries[i]);
            Select(c, t, p, h, entries[..i + 1]) == Select(c, t, p, h, entries[..i]) +
            if Changed(e, Overlay(Stored(c, t, e.key, h), p, e.key)) then [e] else []
  {
    assert entries[..i + 1][..i] == entries[..i];
  }

  function Total(log: seq<seq<Event>>): nat {
    if log == [] then 0 else Total(log[..|log| - 1]) + |log[|log| - 1]|
  }

  lemma TotalMore(log: seq<seq<Event>>, events: seq<Event>)
    ensures Total(log + [events]) == Total(log) + |events|
  {
    assert (log + [events])[..|log|] == log;
  }

  /** The stored state events of a contract. */
  class StateEvents {
    var rows: Table

    constructor (rows: Table)
      ensures this.rows == rows
    {
      this.rows := rows;
    }

    /** Parse a snapshot's entries and keep those whose latest event differs or is deleted. */
    method Recover(c: Codec, h: nat, entries: seq<Entry>, pending: map<Key, Event>) returns (toSave: seq<Event>)
      ensures toSave == Select(c, rows, pending, h, entries)
    {
      var events := seq(|entries|, i requires 0 <= i < |entries| => EventOf(c, h, entries[i]));
      var keys := seq(|entries|, i requires 0 <= i < |entries| => events[i].key);
      var latest := GetStoredEventsAtHeight(c, rows, keys, h, FindAll(rows, keys, h));
      toSave := [];
      for i := 0 to |events|
        invariant toSave == Select(c, rows, pending, h, entries[..i])
      {
        SelectStep(c, rows, pending, h, entries, i);
        assert keys[i] in keys;
        var e := events[i];
        var stored := if e.key in latest then Some(latest[e.key]) else None;
        if Changed(e, Overlay(stored, pending, e.key)) {
          toSave := toSave + [e];
        }
      }
      assert entries[..|entries|] == entries;
    }

    /** Recover one snapshot: a real run saves to the table or throws, a dry run only remembers. */
    method ImportSnapshot(c: Codec, s: Snapshot, pending: map<Key, Event>, dryRun: bool)
      returns (ok: bool, toSave: seq<Event>, pending': map<Key, Event>)
      modifies this
      ensures toSave == Select(c, old(rows), pending, s.height, s.entries)
      ensures ok == (dryRun || Save(old(rows), toSave).Some?)
      ensures rows == if !dryRun && ok then Save(old(rows), toSave).value else old(rows)
      ensures pending' == if dryRun then AddPending(pending, toSave) else pending
    {
      toSave := Recover(c, s.height, s.entries, pending);
      pending', ok := pending, true;
      if dryRun {
        pending' := AddPending(pending, toSave);
      } else {
        ok := DistinctKeys(toSave);
        if ok { rows := Upsert(rows, toSave); }
      }
    }

    /**
     * Import a record; `log` lists the events saved, or that would be saved, for each snapshot reached. A real
     * run that throws leaves the snapshots before the one whose save threw.
     */
    method ImportRecord(c: Codec, snaps: seq<Snapshot>, dryRun: bool)
      returns (ok: bool, events: nat, log: seq<seq<Event>>)
      modifies this
      ensures ok == (dryRun || RealRun(c, old(rows), snaps, |snaps|).Some?)
      ensures dryRun ==> rows == old(rows)
      ensures !dryRun && ok ==> RealRun(c, old(rows), snaps, |snaps|) == Some(rows)
      ensures ok ==> log == Log(c, old(rows), snaps, dryRun, |snaps|) && events == Total(log)
      ensures !ok ==>
                && |log| < |snaps| && RealRun(c, old(rows), snaps, |log|) == Some(rows)
                && RealRun(c, old(rows), snaps, |log| + 1).None?
                && log == Log(c, old(rows), snaps, false, |log|)
    {
      var pending: map<Key, Event> := map[];
      ok, events, log := true, 0, [];
      for i := 0 to |snaps|
        invariant ok && |log| == i && log == Log(c, old(rows), snaps, dryRun, i) && events == Total(log)
        invariant rows == if dryRun then old(rows) else Imported(c, old(rows), snaps, i)
        invariant !dryRun ==> AllSaved(c, old(rows), snaps, i)
        invariant pending == if dryRun then Pending(c, old(rows), snaps, i) else map[]
      {
        var toSave;
        ok, toSave, pending := ImportSnapshot(c, snaps[i], pending, dryRun);
        if !ok {
          Thrown(c, old(rows), snaps, i);
          return;
        }
        if !dryRun { AllSavedStep(c, old(rows), snaps, i + 1); }
        TotalMore(log, toSave);
        events, log := events + |toSave|, log + [toSave];
      }
      if !dryRun { RealRunSaved(c, old(rows), snaps, |snaps|); }
    }
  }

  lemma Thrown(c: Codec, t: Table, snaps: seq<Snapshot>, i: nat)
    requires i < |snaps| && AllSaved(c, t, snaps, i) && !DistinctKeys(Written(c, t, snaps, i))
    ensures RealRun(c, t, snaps, i) == Some(Imported(c, t, snaps, i))
    ensures RealRun(c, t, snaps, i + 1).None? && RealRun(c, t, snaps, |snaps|).None?
  {
    RealRunSaved(c, t, snaps, i);
    RealRunThrown(c, t, snaps, i + 1);
    RealRunThrown(c, t, snaps, |snaps|);
  }
}
