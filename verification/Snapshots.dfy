/** Historical reads of a snapshot map, by name pattern, through its per-block changelog. */
module Snapshots {
  import opened Options
  import opened DependentKeys
  import KeyCodec

  /** A write to a key in a block; None removes it. */
  datatype Write<V> = Write(key: string, height: nat, value: Option<V>)

  /** The value of a transformed row: of a key, null once it is removed, or a changelog entry. */
  datatype Cell<V> = Primary(value: Option<V>) | Old(before: Option<V>)

  /** The latest row of each name of a snapshot map. */
  type Table<V> = map<string, Cell<V>>

  /** A changelog entry found for a key. */
  datatype Change<V> = Change(height: nat, before: Option<V>)

  /** A JavaScript answer. */
  datatype Answer<V> = Undefined | Null | Value(value: V) | Throws

  // ---- names ----

  function Decimal(n: nat): string {
    if n < 10 then [KeyCodec.Digit(n)] else Decimal(n / 10) + [KeyCodec.Digit(n % 10)]
  }

  predicate AllDigits(s: string) {
    forall i :: 0 <= i < |s| ==> '0' <= s[i] <= '9'
  }

  function Number(s: string): nat
    requires AllDigits(s)
  {
    if s == "" then 0 else 10 * Number(s[..|s| - 1]) + (s[|s| - 1] as int - '0' as int)
  }

  lemma {:induction false} NumberOfDecimal(n: nat)
    ensures AllDigits(Decimal(n)) && Number(Decimal(n)) == n
  {
    if n >= 10 {
      NumberOfDecimal(n / 10);
      assert Decimal(n)[..|Decimal(n)| - 1] == Decimal(n / 10);
    } else {
      assert Decimal(n)[..0] == "";
    }
  }

  function PrimaryName(m: string, k: string): string {
    m + (":" + k)
  }

  /** Also the prefix cut off the names a changelog read finds. */
  function ChangeStart(m: string, k: string): string {
    m + ("/changelog:" + (k + ":"))
  }

  function ChangeName(m: string, k: string, h: nat): string {
    m + ("/changelog:" + (k + (":" + Decimal(h))))
  }

  lemma ChangeNameSplits(m: string, k: string, h: nat)
    ensures ChangeName(m, k, h) == ChangeStart(m, k) + Decimal(h)
  {
  }

  /** Index of the last colon, or -1. */
  function LastColon(s: string): (i: int)
    ensures -1 <= i < |s| && (i >= 0 ==> s[i] == ':')
    ensures forall j :: i < j < |s| ==> s[j] != ':'
  {
    if s == "" then -1 else if s[|s| - 1] == ':' then |s| - 1 else LastColon(s[..|s| - 1])
  }

  lemma LastColonIs(a: string, d: string)
    requires AllDigits(d)
    ensures LastColon(a + (":" + d)) == |a|
  {
    assert (a + (":" + d))[|a|] == ':';
  }

  lemma LastColonSplits(a: string, d: string, b: string, e: string)
    requires AllDigits(d) && AllDigits(e) && a + (":" + d) == b + (":" + e)
    ensures a == b && d == e
  {
    var s, t := a + (":" + d), b + (":" + e);
    LastColonIs(a, d);
    LastColonIs(b, e);
    assert a == s[..|a|] && b == t[..|b|];
    assert d == s[|a| + 1..] && e == t[|b| + 1..];
  }

  lemma ChangeNameInjective(m: string, k: string, h: nat, k': string, h': nat)
    requires ChangeName(m, k, h) == ChangeName(m, k', h')
    ensures k == k' && h == h'
  {
    var a, b := k + (":" + Decimal(h)), k' + (":" + Decimal(h'));
    var front := m + "/changelog:";
    assert ChangeName(m, k, h) == front + a && ChangeName(m, k', h') == front + b;
    PrefixShift(front, a, b);
    NumberOfDecimal(h);
    NumberOfDecimal(h');
    LastColonSplits(k, Decimal(h), k', Decimal(h'));
  }

  lemma PrimaryNameInjective(m: string, k: string, k': string)
    requires PrimaryName(m, k) == PrimaryName(m, k')
    ensures k == k'
  {
    assert k == PrimaryName(m, k)[|m| + 1..] && k' == PrimaryName(m, k')[|m| + 1..];
  }

  lemma NamesDiffer(m: string, k: string, k': string, h: nat)
    ensures PrimaryName(m, k) != ChangeName(m, k', h)
  {
    assert PrimaryName(m, k)[|m|] == ':' && ChangeName(m, k', h)[|m|] == '/';
  }

  // ---- the writer ----

  function Held<V>(t: Table<V>, m: string, k: string): Option<V> {
    var n := PrimaryName(m, k);
    if n in t && t[n].Primary? then t[n].value else None
  }

  /** The first write of a block records the value before it. */
  function Apply<V>(m: string, t: Table<V>, w: Write<V>): Table<V> {
    var primary, change := PrimaryName(m, w.key), ChangeName(m, w.key, w.height);
    var t' := t[primary := Primary(w.value)];
    if change in t then t' else t'[change := Old(Held(t, m, w.key))]
  }

  function Run<V>(m: string, history: seq<Write<V>>): Table<V> {
    if history == [] then map[] else Apply(m, Run(m, history[..|history| - 1]), history[|history| - 1])
  }

  /** Heights do not decrease. */
  ghost predicate Ordered<V>(history: seq<Write<V>>) {
    forall i, j :: 0 <= i < j < |history| ==> history[i].height <= history[j].height
  }

  // ---- the reference ----

  /** The value held once every write below block `h` is done, and none of block `h` or later. */
  function HeldBefore<V>(history: seq<Write<V>>, k: string, h: nat): Option<V> {
    if history == [] then None
    else
      var w := history[|history| - 1];
      if w.key == k && w.height < h then w.value else HeldBefore(history[..|history| - 1], k, h)
  }

  /** The reference spelled out: the value of the last write of the key below the height, if there is one. */
  lemma {:induction false} HeldBeforeIs<V>(history: seq<Write<V>>, k: string, h: nat)
    ensures (forall i :: 0 <= i < |history| && history[i].key == k ==> history[i].height >= h) ==>
        HeldBefore(history, k, h) == None
    ensures forall i :: 0 <= i < |history| && LastBelow(history, i, k, h) ==>
        HeldBefore(history, k, h) == history[i].value
  {
    if history != [] {
      var front := history[..|history| - 1];
      HeldBeforeIs(front, k, h);
      assert forall i :: 0 <= i < |front| ==> front[i] == history[i];
      forall i | 0 <= i < |front| && LastBelow(history, i, k, h)
        ensures LastBelow(front, i, k, h)
      {
      }
    }
  }

  ghost predicate LastBelow<V>(history: seq<Write<V>>, i: nat, k: string, h: nat)
    requires i < |history|
  {
    && history[i].key == k && history[i].height < h
    && forall j :: i < j < |history| && history[j].key == k ==> history[j].height >= h
  }

  predicate Writes<V>(history: seq<Write<V>>, k: string, h: nat) {
    exists i :: 0 <= i < |history| && history[i].key == k && history[i].height == h
  }

  ghost predicate EverWritten<V>(history: seq<Write<V>>, k: string) {
    exists i :: 0 <= i < |history| && history[i].key == k
  }

  lemma WritesLast<V>(history: seq<Write<V>>, k: string, h: nat)
    requires history != []
    ensures var front, w := history[..|history| - 1], history[|history| - 1];
            && (Writes(history, k, h) <==> Writes(front, k, h) || (w.key == k && w.height == h))
            && (EverWritten(history, k) <==> EverWritten(front, k) || w.key == k)
  {
    var front, w := history[..|history| - 1], history[|history| - 1];
    assert history == front + [w];
    assert forall i :: 0 <= i < |front| ==> front[i] == history[i];
    assert history[|front|] == w;
  }

  /** No write of `k` in [lo, hi): both heights see the same value. */
  lemma {:induction false} HeldQuiet<V>(history: seq<Write<V>>, k: string, lo: nat, hi: nat)
    requires lo <= hi && forall j: nat :: lo <= j < hi ==> !Writes(history, k, j)
    ensures HeldBefore(history, k, lo) == HeldBefore(history, k, hi)
  {
    if history != [] {
      var front, w := history[..|history| - 1], history[|history| - 1];
      forall j: nat | lo <= j < hi ensures !Writes(front, k, j) { WritesLast(history, k, j); }
      WritesLast(history, k, w.height);
      HeldQuiet(front, k, lo, hi);
    }
  }

  // ---- what the rows hold ----

  /** A row of a key: there is one once the key is written, with its current value. */
  lemma {:induction false} PrimaryHolds<V>(m: string, history: seq<Write<V>>, k: string, h: nat)
    ensures var t, n := Run(m, history), PrimaryName(m, k);
            (n in t <==> EverWritten(history, k)) && (n in t ==> t[n].Primary?)
    ensures (forall i :: 0 <= i < |history| && history[i].key == k ==> history[i].height < h) ==>
              HeldBefore(history, k, h) == Held(Run(m, history), m, k)
  {
    if history != [] {
      var front, w := history[..|history| - 1], history[|history| - 1];
      PrimaryHolds(m, front, k, h);
      WritesLast(history, k, h);
      NamesDiffer(m, k, w.key, w.height);
      if PrimaryName(m, k) == PrimaryName(m, w.key) { PrimaryNameInjective(m, k, w.key); }
      assert forall i :: 0 <= i < |front| ==> front[i] == history[i];
    }
  }

  /** A changelog row: one for each block that writes the key, with the value before that block. */
  lemma {:induction false} ChangelogHolds<V>(m: string, history: seq<Write<V>>, k: string, h: nat)
    requires Ordered(history)
    ensures var t, n := Run(m, history), ChangeName(m, k, h);
            (n in t <==> Writes(history, k, h)) && (n in t ==> t[n] == Old(HeldBefore(history, k, h)))
  {
    if history != [] {
      var front, w := history[..|history| - 1], history[|history| - 1];
      assert forall i :: 0 <= i < |front| ==> front[i] == history[i];
      ChangelogHolds(m, front, k, h);
      WritesLast(history, k, h);
      NamesDiffer(m, w.key, k, h);
      if ChangeName(m, k, h) == ChangeName(m, w.key, w.height) { ChangeNameInjective(m, k, h, w.key, w.height); }
      if k == w.key && h == w.height {
        if !Writes(front, k, h) { FirstInBlock(m, history, k, h); }
      } else if Writes(front, k, h) {
        var i :| 0 <= i < |front| && front[i].key == k && front[i].height == h;
        assert history[i].height <= history[|history| - 1].height;
      }
    }
  }

  lemma FirstInBlock<V>(m: string, history: seq<Write<V>>, k: string, h: nat)
    requires Ordered(history) && history != []
    requires var front, w := history[..|history| - 1], history[|history| - 1];
             w.key == k && w.height == h && !Writes(front, k, h)
    ensures var front := history[..|history| - 1]; HeldBefore(front, k, h) == Held(Run(m, front), m, k)
  {
    var front := history[..|history| - 1];
    forall i | 0 <= i < |front| && front[i].key == k
      ensures front[i].height < h
    {
      assert front[i] == history[i] && history[i].height <= history[|history| - 1].height;
    }
    PrimaryHolds(m, front, k, h);
  }

  /** There are no other rows. */
  ghost predicate RowOf<V>(history: seq<Write<V>>, m: string, n: string) {
    || (exists k :: n == PrimaryName(m, k))
    || (exists k, h: nat :: n == ChangeName(m, k, h) && Writes(history, k, h))
  }

  lemma {:induction false} OnlyRows<V>(m: string, history: seq<Write<V>>, n: string)
    requires n in Run(m, history)
    ensures RowOf(history, m, n)
  {
    if history != [] {
      var front, w := history[..|history| - 1], history[|history| - 1];
      if n == PrimaryName(m, w.key) {
      } else if n == ChangeName(m, w.key, w.height) {
        WritesLast(history, w.key, w.height);
      } else {
        OnlyRows(m, front, n);
        if k, h: nat :| n == ChangeName(m, k, h) && Writes(front, k, h) { WritesLast(history, k, h); }
      }
    }
  }

  // ---- reading by pattern ----

  function ChangePattern(m: string, k: string): string {
    ChangeStart(m, k) + "%"
  }

  function PrimaryPattern(m: string, k: string): string {
    Wild(PrimaryName(m, k))
  }

  /** A query lists each row whose name matches, in some order. */
  ghost predicate QueryResult<V>(t: Table<V>, pattern: string, names: seq<string>) {
    && (forall n :: n in names <==> n in t && Like(n, pattern))
    && (forall i, j :: 0 <= i < j < |names| ==> names[i] != names[j])
  }

  /** No character with a meaning in a pattern. */
  predicate PlainKey(k: string) {
    Literal(k) && '*' !in k
  }

  /** The key's entry or one whose key goes on with a colon. */
  lemma ColonPrefix(k: string, k': string, d: string)
    requires AllDigits(d)
    ensures k + ":" <= k' + (":" + d) <==> k == k' || k + ":" <= k'
  {
    var a, s := k + ":", k' + (":" + d);
    if a <= s {
      LastColonIs(k', d);
      assert s[|k|] == a[|k|] == ':';
      assert |k| <= |k'|;
      assert k == s[..|k|];
      if |k| == |k'| { assert k' == s[..|k'|]; } else { assert a == s[..|a|] == k'[..|a|]; }
    }
    if k != k' && a <= k' { assert s == a + (k'[|a|..] + (":" + d)); }
  }

  /** Which changelog rows a plain key's read selects. */
  lemma ChangeSelected(m: string, k: string, k': string, h: nat)
    requires OneEach(m) && Literal(k)
    ensures Like(ChangeName(m, k', h), ChangePattern(m, k)) <==> k == k' || k + ":" <= k'
  {
    var a, s := "/changelog:" + (k + ":"), "/changelog:" + (k' + (":" + Decimal(h)));
    assert ChangePattern(m, k) == m + (a + "%");
    LikeForced(m, s, a + "%");
    LikeLiteral(s, a, "%");
    if a <= s { LikeAnything(s[|a|..]); }
    PrefixShift("/changelog:", k + ":", k' + (":" + Decimal(h)));
    NumberOfDecimal(h);
    ColonPrefix(k, k', Decimal(h));
  }

  lemma PrimarySelected(m: string, k: string, k': string)
    requires OneEach(m) && PlainKey(k)
    ensures Like(PrimaryName(m, k'), PrimaryPattern(m, k)) <==> k == k'
  {
    PatternOfName(m, k);
    assert Wild(k) == k;
    LikeForced(m, ":" + k', ":" + k);
    LikeLiteral(":" + k', ":" + k, "");
    assert (":" + k) + "" == ":" + k;
    PrefixShift(":", k, k');
    if k <= k' { assert (":" + k')[|":" + k|..] == k'[|k|..]; }
  }

  lemma PatternOfName(m: string, k: string)
    requires OneEach(m)
    ensures PrimaryPattern(m, k) == m + (":" + Wild(k))
  {
  }

  /** The two kinds of rows are never mixed up. */
  lemma KindsApart(m: string, k: string, k': string, h: nat)
    requires OneEach(m)
    ensures !Like(PrimaryName(m, k'), ChangePattern(m, k)) && !Like(ChangeName(m, k', h), PrimaryPattern(m, k))
  {
    var a, s := "/changelog:" + (k + ":") + "%", "/changelog:" + (k' + (":" + Decimal(h)));
    assert ChangePattern(m, k) == m + a;
    LikeForced(m, ":" + k', a);
    PatternOfName(m, k);
    LikeForced(m, s, ":" + Wild(k));
    assert (":" + k')[0] == ':' && a[0] == '/' && s[0] == '/' && (":" + Wild(k))[0] == ':';
  }

  // ---- when a read selects the key's own rows ----

  ghost predicate OwnChanges(m: string, k: string) {
    forall k', h: nat :: NoColon(k') ==> (Like(ChangeName(m, k', h), ChangePattern(m, k)) <==> k == k')
  }

  ghost predicate OwnPrimary(m: string, k: string) {
    forall k' :: NoColon(k') ==> (Like(PrimaryName(m, k'), PrimaryPattern(m, k)) <==> k == k')
  }

  lemma {:induction false} ExampleNoColon(p: string)
    requires NoColon(p)
    ensures NoColon(Example(p))
  {
    if p != "" { ExampleNoColon(if p[0] == '\\' && |p| > 1 then p[2..] else p[1..]); }
  }

  /**
   * Among keys without a colon, the changelog read of a key selects its own rows and no others exactly if the
   * key has no `%`, `_` or backslash; the read of its current value exactly if it has no `*` either.
   */
  lemma OwnRowsIff(m: string, k: string)
    requires OneEach(m) && NoColon(k)
    ensures (OwnChanges(m, k) <==> Literal(k)) && (OwnPrimary(m, k) <==> PlainKey(k))
  {
    if Literal(k) {
      forall k', h: nat | NoColon(k')
        ensures Like(ChangeName(m, k', h), ChangePattern(m, k)) <==> k == k'
      {
        ChangeSelected(m, k, k', h);
        NoColonPrefix(k, k');
      }
    } else {
      AnotherChange(m, k);
    }
    if PlainKey(k) {
      forall k' | NoColon(k')
        ensures Like(PrimaryName(m, k'), PrimaryPattern(m, k)) <==> k == k'
      {
        PrimarySelected(m, k, k');
      }
    } else {
      AnotherPrimary(m, k);
    }
  }

  lemma NoColonPrefix(k: string, k': string)
    ensures k + ":" <= k' ==> !NoColon(k')
  {
    if k + ":" <= k' { assert k'[|k|] == (k + ":")[|k|] == ':'; }
  }

  lemma AnotherChange(m: string, k: string)
    requires OneEach(m) && NoColon(k) && !Literal(k)
    ensures !OwnChanges(m, k)
  {
    var k', d := Example(k), ":" + Decimal(0);
    ExampleDiffers(k, k);
    ExampleNoColon(k);
    LikeAnything(Decimal(0));
    assert d[1..] == Decimal(0) && ":%"[1..] == "%";
    assert Like(d, ":%");
    ExampleMatches(k, d, ":%");
    var a := "/changelog:";
    LikeForced(a, k' + d, k + ":%");
    LikeForced(m, a + (k' + d), a + (k + ":%"));
    assert ChangeName(m, k', 0) == m + (a + (k' + d)) && ChangePattern(m, k) == m + (a + (k + ":%"));
  }

  lemma AnotherPrimary(m: string, k: string)
    requires OneEach(m) && NoColon(k) && !PlainKey(k)
    ensures !OwnPrimary(m, k)
  {
    var w := Wild(k);
    assert !Literal(w) by {
      if '*' in k {
        var i :| 0 <= i < |k| && k[i] == '*';
        assert w[i] == '%';
      } else {
        assert w == k;
      }
    }
    PatternOfName(m, k);
    assert OneEach(":");
    if LoneEnd(w) {
      LoneEndNever(k, w);
      LikeForced(":", k, w);
      LikeForced(m, ":" + k, ":" + w);
    } else {
      var k' := Example(w);
      ExampleDiffers(k, w);
      ExampleNoColon(w);
      ExampleMatches(w, "", "");
      assert k' + "" == k' && w + "" == w;
      LikeForced(":", k', w);
      LikeForced(m, ":" + k', ":" + w);
    }
  }

  // ---- the reader ----

  /** A property of the object the changelog read builds: the rest of a row's name, and the value before. */
  datatype Slice<V> = Slice(rest: string, before: Option<V>)

  /** Set a property: in place if it exists, else at the end. */
  function Put<V>(slices: seq<Slice<V>>, x: Slice<V>): seq<Slice<V>> {
    if slices == [] then [x]
    else if slices[0].rest == x.rest then [x] + slices[1..]
    else [slices[0]] + Put(slices[1..], x)
  }

  function Rest(n: string, cut: nat): string {
    if cut <= |n| then n[cut..] else ""
  }

  /** Rows with a null value are left out; each other name is cut, whatever the pattern matched before. */
  function Slices<V>(t: Table<V>, names: seq<string>, cut: nat): seq<Slice<V>>
    requires forall n :: n in names ==> n in t
  {
    if names == [] then []
    else
      var front, n := names[..|names| - 1], names[|names| - 1];
      var slices := Slices(t, front, cut);
      if t[n] == Primary(None) then slices
      else Put(slices, Slice(Rest(n, cut), if t[n].Old? then t[n].before else None))
  }

  /** `BigInt` of each rest; None if one of them throws. */
  function Changes<V>(slices: seq<Slice<V>>): Option<seq<Change<V>>> {
    if slices == [] then Some([])
    else
      var rest := Changes(slices[1..]);
      if rest.None? || !AllDigits(slices[0].rest) then None
      else Some([Change(Number(slices[0].rest), slices[0].before)] + rest.value)
  }

  function Insert<V>(row: Change<V>, rows: seq<Change<V>>): seq<Change<V>> {
    if rows == [] || row.height <= rows[0].height then [row] + rows else [rows[0]] + Insert(row, rows[1..])
  }

  function SortByHeight<V>(rows: seq<Change<V>>): seq<Change<V>> {
    if rows == [] then [] else Insert(rows[0], SortByHeight(rows[1..]))
  }

  function FindFrom<V>(rows: seq<Change<V>>, start: nat): Option<Change<V>> {
    if rows == [] then None else if rows[0].height >= start then Some(rows[0]) else FindFrom(rows[1..], start)
  }

  /** Sort by height and take the first entry at or above the height. */
  function SnapshotMayLoadAtHeight<V>(t: Table<V>, names: seq<string>, cut: nat, h: nat): Answer<V>
    requires forall n :: n in names ==> n in t
  {
    match Changes(Slices(t, names, cut))
    case None => Throws
    case Some(changes) => FirstChange(changes, h)
  }

  function FirstChange<V>(changes: seq<Change<V>>, h: nat): Answer<V> {
    match FindFrom(SortByHeight(changes), h)
    case None => Undefined
    case Some(row) => if row.before.None? then Null else Value(row.before.value)
  }

  /** The first match: null for a removed key, undefined without a match. */
  function SnapshotMapMayLoad<V>(t: Table<V>, matches: seq<string>): Answer<V>
    requires forall n :: n in matches ==> n in t
  {
    if matches == [] || t[matches[0]].Old? then Undefined
    else if t[matches[0]].value.None? then Null
    else Value(t[matches[0]].value.value)
  }

  function SnapshotMapMayLoadAtHeight<V>(
      t: Table<V>, m: string, k: string, names: seq<string>, matches: seq<string>, h: nat): Answer<V>
    requires (forall n :: n in names ==> n in t) && (forall n :: n in matches ==> n in t)
  {
    match SnapshotMayLoadAtHeight(t, names, |ChangeStart(m, k)|, h)
    case Undefined => SnapshotMapMayLoad(t, matches)
    case found => found
  }

  ghost predicate Ascending<V>(rows: seq<Change<V>>) {
    forall i, j :: 0 <= i < j < |rows| ==> rows[i].height <= rows[j].height
  }

  lemma {:induction false} InsertMember<V>(row: Change<V>, rows: seq<Change<V>>, x: Change<V>)
    ensures x in Insert(row, rows) <==> x == row || x in rows
  {
    if !(rows == [] || row.height <= rows[0].height) {
      InsertMember(row, rows[1..], x);
      assert rows == [rows[0]] + rows[1..];
    }
  }

  lemma {:induction false} InsertInOrder<V>(row: Change<V>, rows: seq<Change<V>>)
    requires Ascending(rows)
    ensures Ascending(Insert(row, rows))
  {
    if !(rows == [] || row.height <= rows[0].height) {
      var rest := Insert(row, rows[1..]);
      InsertInOrder(row, rows[1..]);
      forall j | 0 <= j < |rest| ensures rows[0].height <= rest[j].height {
        assert rest[j] in rest;
        InsertMember(row, rows[1..], rest[j]);
      }
    }
  }

  lemma {:induction false} SortInOrder<V>(rows: seq<Change<V>>)
    ensures Ascending(SortByHeight(rows)) && forall x :: x in SortByHeight(rows) <==> x in rows
  {
    if rows != [] {
      SortInOrder(rows[1..]);
      InsertInOrder(rows[0], SortByHeight(rows[1..]));
      forall x ensures x in SortByHeight(rows) <==> x == rows[0] || x in rows[1..] {
        InsertMember(rows[0], SortByHeight(rows[1..]), x);
      }
      assert rows == [rows[0]] + rows[1..];
    }
  }

  /** The first row found in ascending order is the lowest at or above the start. */
  lemma {:induction false} FindsLowest<V>(rows: seq<Change<V>>, start: nat)
    requires Ascending(rows)
    ensures match FindFrom(rows, start)
            case None => forall x :: x in rows ==> x.height < start
            case Some(row) => row in rows && row.height >= start &&
                              forall x :: x in rows && x.height >= start ==> row.height <= x.height
  {
    if rows != [] {
      assert rows == [rows[0]] + rows[1..];
      if rows[0].height < start {
        FindsLowest(rows[1..], start);
      } else {
        assert forall i :: 0 <= i < |rows| ==> rows[0].height <= rows[i].height;
      }
    }
  }

  /** An answer as a value or its absence. */
  function Content<V>(a: Answer<V>): Option<V> {
    if a.Value? then Some(a.value) else None
  }

  // ---- from names to changes ----

  /** The changelog rows of `k`, each with the value before its block. */
  ghost predicate Lists<V>(changes: seq<Change<V>>, history: seq<Write<V>>, k: string) {
    && (forall c :: c in changes ==> Writes(history, k, c.height) && c.before == HeldBefore(history, k, c.height))
    && (forall h: nat :: Writes(history, k, h) ==> exists c :: c in changes && c.height == h)
  }

  /** Some written key goes on with a colon after `k`. */
  ghost predicate Extended<V>(history: seq<Write<V>>, k: string) {
    exists i :: 0 <= i < |history| && k + ":" <= history[i].key
  }

  lemma {:induction false} PutNew<V>(slices: seq<Slice<V>>, x: Slice<V>)
    requires forall i :: 0 <= i < |slices| ==> slices[i].rest != x.rest
    ensures Put(slices, x) == slices + [x]
  {
    if slices != [] { PutNew(slices[1..], x); }
  }

  lemma {:induction false} PutRests<V>(slices: seq<Slice<V>>, x: Slice<V>, r: string)
    ensures (exists y :: y in Put(slices, x) && y.rest == r) <==> r == x.rest || exists y :: y in slices && y.rest == r
  {
    if slices != [] {
      assert slices == [slices[0]] + slices[1..];
      if slices[0].rest != x.rest {
        PutRests(slices[1..], x, r);
        assert Put(slices, x) == [slices[0]] + Put(slices[1..], x);
      } else {
        assert Put(slices, x) == [x] + slices[1..];
        assert x in Put(slices, x) && slices[0] in slices;
      }
    } else {
      assert x in Put(slices, x);
    }
  }

  lemma {:induction false} SliceFor<V>(t: Table<V>, names: seq<string>, cut: nat, n: string)
    requires (forall x :: x in names ==> x in t) && n in names && t[n] != Primary(None)
    ensures exists y :: y in Slices(t, names, cut) && y.rest == Rest(n, cut)
  {
    var front, last := names[..|names| - 1], names[|names| - 1];
    assert names == front + [last];
    if n in front { SliceFor(t, front, cut, n); }
    if t[last] != Primary(None) {
      var x := Slice(Rest(last, cut), if t[last].Old? then t[last].before else None);
      PutRests(Slices(t, front, cut), x, Rest(n, cut));
    }
  }

  lemma {:induction false} BadRest<V>(slices: seq<Slice<V>>, y: Slice<V>)
    requires y in slices && !AllDigits(y.rest)
    ensures Changes(slices).None?
  {
    assert slices == [slices[0]] + slices[1..];
    if y != slices[0] { BadRest(slices[1..], y); }
  }

  /** Names that are changelog rows of `k` itself. */
  ghost predicate OwnNames<V>(t: Table<V>, m: string, k: string, names: seq<string>) {
    && (forall n :: n in names ==> n in t && t[n].Old? && exists h: nat :: n == ChangeName(m, k, h))
    && (forall i, j :: 0 <= i < j < |names| ==> names[i] != names[j])
  }

  lemma OwnRest<V>(t: Table<V>, m: string, k: string, names: seq<string>, n: string) returns (h: nat)
    requires OwnNames(t, m, k, names) && n in names
    ensures n == ChangeName(m, k, h) && Rest(n, |ChangeStart(m, k)|) == Decimal(h)
    ensures AllDigits(Decimal(h)) && Number(Decimal(h)) == h
  {
    h :| n == ChangeName(m, k, h);
    ChangeNameSplits(m, k, h);
    NumberOfDecimal(h);
  }

  function OwnSlice<V>(t: Table<V>, n: string, cut: nat): Slice<V>
    requires n in t && t[n].Old?
  {
    Slice(Rest(n, cut), t[n].before)
  }

  lemma RestsDiffer<V>(t: Table<V>, m: string, k: string, names: seq<string>, i: nat, j: nat)
    requires OwnNames(t, m, k, names) && i < j < |names|
    ensures Rest(names[i], |ChangeStart(m, k)|) != Rest(names[j], |ChangeStart(m, k)|)
  {
    var a := OwnRest(t, m, k, names, names[i]);
    var b := OwnRest(t, m, k, names, names[j]);
    assert names[i] != names[j];
  }

  lemma {:induction false} OwnSlices<V>(t: Table<V>, m: string, k: string, names: seq<string>)
    requires OwnNames(t, m, k, names)
    ensures var cut := |ChangeStart(m, k)|;
            Slices(t, names, cut) == seq(|names|, i requires 0 <= i < |names| => OwnSlice(t, names[i], cut))
  {
    var cut := |ChangeStart(m, k)|;
    if names != [] {
      var front, last := names[..|names| - 1], names[|names| - 1];
      assert names == front + [last];
      OwnSlices(t, m, k, front);
      var slices := Slices(t, front, cut);
      forall i | 0 <= i < |slices|
        ensures slices[i].rest != Rest(last, cut)
      {
        RestsDiffer(t, m, k, names, i, |names| - 1);
      }
      PutNew(slices, OwnSlice(t, last, cut));
    }
  }

  lemma {:induction false} OwnChangesParsed<V>(slices: seq<Slice<V>>)
    requires forall i :: 0 <= i < |slices| ==> AllDigits(slices[i].rest)
    ensures Changes(slices) ==
            Some(seq(|slices|, i requires 0 <= i < |slices| => Change(Number(slices[i].rest), slices[i].before)))
  {
    var all := seq(|slices|, i requires 0 <= i < |slices| => Change(Number(slices[i].rest), slices[i].before));
    if slices == [] {
      assert all == [];
    } else {
      OwnChangesParsed(slices[1..]);
      assert all == [Change(Number(slices[0].rest), slices[0].before)] + Changes(slices[1..]).value;
    }
  }

  /** The rows a plain key's changelog read selects, when no written key extends it, are its own. */
  lemma OwnRead<V>(m: string, history: seq<Write<V>>, k: string, names: seq<string>)
    requires Ordered(history) && OneEach(m) && Literal(k) && !Extended(history, k)
    requires QueryResult(Run(m, history), ChangePattern(m, k), names)
    ensures OwnNames(Run(m, history), m, k, names)
    ensures forall h: nat :: Writes(history, k, h) ==> ChangeName(m, k, h) in names
  {
    var t := Run(m, history);
    forall n | n in names
      ensures n in t && t[n].Old? && exists h: nat :: n == ChangeName(m, k, h)
    {
      OnlyRows(m, history, n);
      if k' :| n == PrimaryName(m, k') {
        KindsApart(m, k, k', 0);
        assert false;
      } else {
        var k', h: nat :| n == ChangeName(m, k', h) && Writes(history, k', h);
        ChangeSelected(m, k, k', h);
        ChangelogHolds(m, history, k', h);
      }
    }
    forall h: nat | Writes(history, k, h)
      ensures ChangeName(m, k, h) in names
    {
      ChangelogHolds(m, history, k, h);
      ChangeSelected(m, k, k, h);
    }
  }

  lemma OwnReadParsed<V>(m: string, history: seq<Write<V>>, k: string, names: seq<string>)
    requires Ordered(history) && OneEach(m) && Literal(k) && !Extended(history, k)
    requires QueryResult(Run(m, history), ChangePattern(m, k), names)
    ensures var r := Changes(Slices(Run(m, history), names, |ChangeStart(m, k)|));
            r.Some? && Lists(r.value, history, k)
  {
    var t, cut := Run(m, history), |ChangeStart(m, k)|;
    OwnRead(m, history, k, names);
    OwnSlices(t, m, k, names);
    var slices := Slices(t, names, cut);
    forall i | 0 <= i < |slices|
      ensures AllDigits(slices[i].rest)
    {
      var h := OwnRest(t, m, k, names, names[i]);
    }
    OwnChangesParsed(slices);
    var changes := Changes(slices).value;
    forall c | c in changes
      ensures Writes(history, k, c.height) && c.before == HeldBefore(history, k, c.height)
    {
      var i :| 0 <= i < |changes| && changes[i] == c;
      var h := OwnRest(t, m, k, names, names[i]);
      ChangelogHolds(m, history, k, h);
    }
    forall h: nat | Writes(history, k, h)
      ensures exists c :: c in changes && c.height == h
    {
      var n := ChangeName(m, k, h);
      var i :| 0 <= i < |names| && names[i] == n;
      var h' := OwnRest(t, m, k, names, n);
      ChangeNameInjective(m, k, h, k, h');
      assert changes[i] in changes;
    }
  }

  /** A written key that goes on with a colon makes the read throw: the rest of its rows' names is no number. */
  lemma ExtendedThrows<V>(m: string, history: seq<Write<V>>, k: string, names: seq<string>)
    requires Ordered(history) && OneEach(m) && Literal(k) && Extended(history, k)
    requires QueryResult(Run(m, history), ChangePattern(m, k), names)
    ensures Changes(Slices(Run(m, history), names, |ChangeStart(m, k)|)).None?
  {
    var t, cut := Run(m, history), |ChangeStart(m, k)|;
    var i :| 0 <= i < |history| && k + ":" <= history[i].key;
    var k', h := history[i].key, history[i].height;
    assert Writes(history, k', h);
    ChangelogHolds(m, history, k', h);
    ChangeSelected(m, k, k', h);
    var n := ChangeName(m, k', h);
    var more := k'[|k| + 1..] + (":" + Decimal(h));
    assert n == ChangeStart(m, k) + more by { assert k' == k + ":" + k'[|k| + 1..]; }
    assert Rest(n, cut) == more && more[|k'| - |k| - 1] == ':';
    SliceFor(t, names, cut, n);
    var y :| y in Slices(t, names, cut) && y.rest == more;
    BadRest(Slices(t, names, cut), y);
  }

  lemma OnlyOne(s: seq<string>, x: string)
    requires (forall y :: y in s ==> y == x) && (forall i, j :: 0 <= i < j < |s| ==> s[i] != s[j])
    ensures s == [] || s == [x]
  {
    if s != [] {
      var first, rest := s[0], s[1..];
      assert first in s;
      assert forall y :: y in multiset(rest) ==> y in s && y != first;
      assert multiset(rest) == multiset{} && |multiset(rest)| == |rest|;
    }
  }

  lemma OwnMatch<V>(m: string, history: seq<Write<V>>, k: string, matches: seq<string>)
    requires OneEach(m) && PlainKey(k) && QueryResult(Run(m, history), PrimaryPattern(m, k), matches)
    ensures matches == if EverWritten(history, k) then [PrimaryName(m, k)] else []
  {
    var t, own := Run(m, history), PrimaryName(m, k);
    forall n | n in matches
      ensures n == own
    {
      OnlyRows(m, history, n);
      if k' :| n == PrimaryName(m, k') {
        PrimarySelected(m, k, k');
      } else {
        var k', h: nat :| n == ChangeName(m, k', h) && Writes(history, k', h);
        KindsApart(m, k, k', h);
        assert false;
      }
    }
    PrimaryHolds(m, history, k, 0);
    PrimarySelected(m, k, k);
    assert own in matches <==> EverWritten(history, k);
    OnlyOne(matches, own);
  }

  /** The answer from a complete list of changes, and the current value. */
  lemma FromChanges<V>(m: string, history: seq<Write<V>>, k: string, h: nat, changes: seq<Change<V>>)
    requires Ordered(history) && Lists(changes, history, k)
    ensures var a, held := FirstChange(changes, h), HeldBefore(history, k, h);
            && (a.Undefined? ==> held == Held(Run(m, history), m, k))
            && (!a.Undefined? ==> !a.Throws? && Content(a) == held && EverWritten(history, k))
  {
    var sorted := SortByHeight(changes);
    SortInOrder(changes);
    FindsLowest(sorted, h);
    match FindFrom(sorted, h)
    case Some(row) =>
      assert Writes(history, k, row.height);
      HeldQuiet(history, k, h, row.height);
    case None =>
      forall i | 0 <= i < |history| && history[i].key == k
        ensures history[i].height < h
      {
        assert Writes(history, k, history[i].height);
      }
      PrimaryHolds(m, history, k, h);
  }

  /**
   * For a key without pattern characters, in any history of keys: loading throws exactly if some written key
   * goes on with a colon after it. Otherwise it gives the value held before any write of the block; where there
   * was none, null if the key was ever written, before or after that height, and undefined if it never was.
   */
  lemma LoadAtHeight<V>(m: string, history: seq<Write<V>>, k: string, h: nat, names: seq<string>, matches: seq<string>)
    requires Ordered(history) && OneEach(m) && PlainKey(k)
    requires QueryResult(Run(m, history), ChangePattern(m, k), names)
    requires QueryResult(Run(m, history), PrimaryPattern(m, k), matches)
    ensures var a := SnapshotMapMayLoadAtHeight(Run(m, history), m, k, names, matches, h);
            var held := HeldBefore(history, k, h);
            && (a.Throws? <==> Extended(history, k))
            && (!a.Throws? ==> Content(a) == held)
            && (!a.Throws? ==> (a.Null? <==> held.None? && EverWritten(history, k)))
            && (!a.Throws? ==> (a.Undefined? <==> !EverWritten(history, k)))
  {
    if Extended(history, k) {
      ExtendedThrows(m, history, k, names);
    } else {
      OwnReadParsed(m, history, k, names);
      FromChanges(m, history, k, h, Changes(Slices(Run(m, history), names, |ChangeStart(m, k)|)).value);
      OwnMatch(m, history, k, matches);
      PrimaryHolds(m, history, k, h);
    }
  }

  // ---- a key with an underscore ----

  lemma UnderscoreChange(m: string, p: string, q: string, c: char, h: nat)
    requires OneEach(m) && OneEach(p) && OneEach(q)
    ensures Like(ChangeName(m, p + ([c] + q), h), ChangePattern(m, p + ("_" + q)))
  {
    var a, d := "/changelog:" + p, Decimal(h);
    var s, r := q + (":" + d), q + ":%";
    LikeAnything(d);
    assert s == (q + ":") + d && r == (q + ":") + "%";
    LikeForced(q + ":", d, "%");
    assert ([c] + s)[1..] == s && ("_" + r)[1..] == r;
    LikeForced(a, [c] + s, "_" + r);
    LikeForced(m, a + ([c] + s), a + ("_" + r));
    UnderscoreNames(m, p, q, c, h);
  }

  lemma UnderscoreNames(m: string, p: string, q: string, c: char, h: nat)
    ensures ChangeName(m, p + ([c] + q), h) == m + (("/changelog:" + p) + ([c] + (q + (":" + Decimal(h)))))
    ensures ChangePattern(m, p + ("_" + q)) == m + (("/changelog:" + p) + ("_" + (q + ":%")))
  {
  }

  lemma UnderscorePrimary(m: string, p: string, q: string, c: char)
    requires OneEach(m) && OneEach(p) && OneEach(q)
    ensures Like(PrimaryName(m, p + ([c] + q)), PrimaryPattern(m, p + ("_" + q)))
  {
    var k, k' := p + ("_" + q), p + ([c] + q);
    PatternOfName(m, k);
    assert Wild(k) == k;
    LikeForced(q, "", "");
    assert q + "" == q && ([c] + q)[1..] == q && ("_" + q)[1..] == q;
    LikeForced(":" + p, [c] + q, "_" + q);
    assert ":" + k' == (":" + p) + ([c] + q) && ":" + k == (":" + p) + ("_" + q);
    LikeForced(m, ":" + k', ":" + k);
  }

  /**
   * If only a key that differs at the underscore is written, reading the key with the underscore answers for that key.
   */
  lemma UnderscoreReadsAnother<V>(
      m: string, p: string, q: string, c: char, history: seq<Write<V>>, h: nat,
      names: seq<string>, matches: seq<string>)
    requires Ordered(history) && OneEach(m) && PlainKey(p + ([c] + q)) && c != ':' && OneEach(p) && OneEach(q)
    requires forall i :: 0 <= i < |history| ==> history[i].key == p + ([c] + q)
    requires QueryResult(Run(m, history), ChangePattern(m, p + ("_" + q)), names)
    requires QueryResult(Run(m, history), PrimaryPattern(m, p + ("_" + q)), matches)
    ensures var a := SnapshotMapMayLoadAtHeight(Run(m, history), m, p + ("_" + q), names, matches, h);
            !a.Throws? && Content(a) == HeldBefore(history, p + ([c] + q), h)
  {
    var t, k, k' := Run(m, history), p + ("_" + q), p + ([c] + q);
    forall n | n in t
      ensures Like(n, ChangePattern(m, k)) <==> Like(n, ChangePattern(m, k'))
      ensures Like(n, PrimaryPattern(m, k)) <==> Like(n, PrimaryPattern(m, k'))
    {
      SameSelection(m, p, q, c, history, n);
    }
    assert |ChangeStart(m, k)| == |ChangeStart(m, k')|;
    assert !(k' + ":" <= k');
    LoadAtHeight(m, history, k', h, names, matches);
  }

  lemma SameSelection<V>(m: string, p: string, q: string, c: char, history: seq<Write<V>>, n: string)
    requires Ordered(history) && OneEach(m) && PlainKey(p + ([c] + q)) && OneEach(p) && OneEach(q)
    requires (forall i :: 0 <= i < |history| ==> history[i].key == p + ([c] + q)) && n in Run(m, history)
    ensures var k, k' := p + ("_" + q), p + ([c] + q);
            && (Like(n, ChangePattern(m, k)) <==> Like(n, ChangePattern(m, k')))
            && (Like(n, PrimaryPattern(m, k)) <==> Like(n, PrimaryPattern(m, k')))
  {
    var k, k' := p + ("_" + q), p + ([c] + q);
    OnlyRows(m, history, n);
    if x :| n == PrimaryName(m, x) {
      PrimaryHolds(m, history, x, 0);
      assert x == k';
      KindsApart(m, k, x, 0);
      KindsApart(m, k', x, 0);
      UnderscorePrimary(m, p, q, c);
      PrimarySelected(m, k', k');
    } else {
      var x, j: nat :| n == ChangeName(m, x, j) && Writes(history, x, j);
      assert x == k';
      KindsApart(m, k, x, j);
      KindsApart(m, k', x, j);
      UnderscoreChange(m, p, q, c, j);
      ChangeSelected(m, k', k', j);
    }
  }

  /** An instance: `aAb` is written at 5 and 7, and `a_b`, which never was, reads as its first value at 6. */
  lemma UnderscoreInstance<V>(m: string, v: V, w: V, names: seq<string>, matches: seq<string>)
    requires OneEach(m)
    requires var t := Run(m, [Write("aAb", 5, Some(v)), Write("aAb", 7, Some(w))]);
             QueryResult(t, ChangePattern(m, "a_b"), names) && QueryResult(t, PrimaryPattern(m, "a_b"), matches)
    ensures var history := [Write("aAb", 5, Some(v)), Write("aAb", 7, Some(w))];
            && SnapshotMapMayLoadAtHeight(Run(m, history), m, "a_b", names, matches, 6) == Value(v)
            && HeldBefore(history, "a_b", 6) == None
  {
    var history := [Write("aAb", 5, Some(v)), Write("aAb", 7, Some(w))];
    assert "a" + ("_" + "b") == "a_b" && "a" + (['A'] + "b") == "aAb";
    UnderscoreReadsAnother(m, "a", "b", 'A', history, 6, names, matches);
    assert history[..1] == [Write("aAb", 5, Some(v))] && history[..1][..0] == [];
    assert HeldBefore(history[..1], "aAb", 6) == Some(v);
    assert HeldBefore(history[..1], "a_b", 6) == None;
  }

  // ---- settled answers ----

  lemma {:induction false} HeldUnchangedByLater<V>(history: seq<Write<V>>, later: seq<Write<V>>, k: string, h: nat)
    requires forall i :: 0 <= i < |later| ==> later[i].height >= h
    ensures HeldBefore(history + later, k, h) == HeldBefore(history, k, h)
  {
    var all := history + later;
    if later == [] {
      assert all == history;
    } else {
      var front := later[..|later| - 1];
      HeldUnchangedByLater(history, front, k, h);
      assert all[..|all| - 1] == history + front;
    }
  }

  /**
   * As blocks from `h` on are written, the answer for `h` stays, except that undefined turns into null when the
   * key's first write is among them, and that it throws once a key that goes on with a colon is.
   */
  lemma AnswerIsSettled<V>(m: string, history: seq<Write<V>>, later: seq<Write<V>>, k: string, h: nat,
      names: seq<string>, matches: seq<string>, names': seq<string>, matches': seq<string>)
    requires OneEach(m) && PlainKey(k)
    requires Ordered(history + later) && forall i :: 0 <= i < |later| ==> later[i].height >= h
    requires QueryResult(Run(m, history), ChangePattern(m, k), names)
    requires QueryResult(Run(m, history), PrimaryPattern(m, k), matches)
    requires QueryResult(Run(m, history + later), ChangePattern(m, k), names')
    requires QueryResult(Run(m, history + later), PrimaryPattern(m, k), matches')
    ensures var a := SnapshotMapMayLoadAtHeight(Run(m, history), m, k, names, matches, h);
            SnapshotMapMayLoadAtHeight(Run(m, history + later), m, k, names', matches', h) ==
            if Extended(history + later, k) then Throws
            else if a.Undefined? && EverWritten(later, k) then Null else a
  {
    var all := history + later;
    assert forall i :: 0 <= i < |history| ==> all[i] == history[i];
    assert forall i :: 0 <= i < |later| ==> all[|history| + i] == later[i];
    LoadAtHeight(m, history, k, h, names, matches);
    LoadAtHeight(m, all, k, h, names', matches');
    HeldUnchangedByLater(history, later, k, h);
    WrittenIn(history, later, k);
  }

  lemma WrittenIn<V>(history: seq<Write<V>>, later: seq<Write<V>>, k: string)
    ensures EverWritten(history + later, k) <==> EverWritten(history, k) || EverWritten(later, k)
    ensures Extended(history, k) ==> Extended(history + later, k)
  {
    var all := history + later;
    assert forall i :: 0 <= i < |history| ==> all[i] == history[i];
    assert forall i :: 0 <= i < |later| ==> all[|history| + i] == later[i];
    assert forall i :: |history| <= i < |all| ==> all[i] == later[i - |history|];
  }
}
