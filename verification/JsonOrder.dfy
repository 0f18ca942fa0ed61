/** Comparing JSON values without regard to the order of object keys. */
module JsonOrder {
  /** A JavaScript value; an object lists its keys in an order of its own. */
  datatype Json = Atom(text: string) | Arr(items: seq<Json>) | Obj(keys: seq<string>, fields: map<string, Json>)

  /** What a `jsonb` column holds: objects have no key order. */
  datatype Tree = Leaf(text: string) | List(items: seq<Tree>) | Dict(fields: map<string, Tree>)

  ghost predicate Distinct(s: seq<string>) {
    forall i, j :: 0 <= i < j < |s| ==> s[i] != s[j]
  }

  /** Every object lists each of its keys once. */
  ghost predicate Proper(j: Json) {
    match j
    case Atom(_) => true
    case Arr(items) => forall i :: 0 <= i < |items| ==> Proper(items[i])
    case Obj(keys, fields) =>
      && Distinct(keys) && (forall k :: k in keys <==> k in fields)
      && forall k :: k in fields ==> Proper(fields[k])
  }

  function Meaning(j: Json): Tree {
    match j
    case Atom(text) => Leaf(text)
    case Arr(items) => List(seq(|items|, i requires 0 <= i < |items| => Meaning(items[i])))
    case Obj(_, fields) => Dict(map k | k in fields :: Meaning(fields[k]))
  }

  /**
   * When two values mean the same: equal primitives, lists alike item by item, objects with the same keys alike field
   * by field.
   */
  lemma SameMeaning(a: Json, b: Json)
    ensures a.Atom? || b.Atom? ==> (Meaning(a) == Meaning(b) <==> a.Atom? && b.Atom? && a.text == b.text)
    ensures a.Arr? && b.Arr? ==>
              (Meaning(a) == Meaning(b) <==>
               |a.items| == |b.items| && forall i :: 0 <= i < |a.items| ==> Meaning(a.items[i]) == Meaning(b.items[i]))
    ensures a.Obj? && b.Obj? ==>
              (Meaning(a) == Meaning(b) <==>
               && a.fields.Keys == b.fields.Keys
               && forall k :: k in a.fields ==> Meaning(a.fields[k]) == Meaning(b.fields[k]))
    ensures Meaning(a) == Meaning(b) ==> (a.Arr? <==> b.Arr?) && (a.Obj? <==> b.Obj?)
  {
    if a.Arr? && b.Arr? {
      var x, y := Meaning(a).items, Meaning(b).items;
      assert |x| == |a.items| && |y| == |b.items|;
      assert forall i :: 0 <= i < |x| ==> x[i] == Meaning(a.items[i]);
      assert forall i :: 0 <= i < |y| ==> y[i] == Meaning(b.items[i]);
      assert x == y <==> |x| == |y| && forall i :: 0 <= i < |x| ==> x[i] == y[i];
    } else if a.Obj? && b.Obj? {
      var x, y := Meaning(a).fields, Meaning(b).fields;
      assert x.Keys == a.fields.Keys && y.Keys == b.fields.Keys;
      assert x == y <==> x.Keys == y.Keys && forall k :: k in x ==> x[k] == y[k];
    }
  }

  // ---- sorting by UTF-16 code units ----

  predicate AtMost(a: string, b: string) {
    a == [] || (b != [] && (a[0] < b[0] || (a[0] == b[0] && AtMost(a[1..], b[1..]))))
  }

  lemma AtMostTotal(a: string, b: string)
    ensures AtMost(a, b) || AtMost(b, a)
  {
  }

  lemma {:induction false} AtMostAntisymmetric(a: string, b: string)
    requires AtMost(a, b) && AtMost(b, a)
    ensures a == b
  {
    if a != [] {
      AtMostAntisymmetric(a[1..], b[1..]);
      assert a == [a[0]] + a[1..] && b == [b[0]] + b[1..];
    }
  }

  lemma AtMostTransitive(a: string, b: string, c: string)
    requires AtMost(a, b) && AtMost(b, c)
    ensures AtMost(a, c)
  {
  }

  ghost predicate InOrder(s: seq<string>) {
    forall i, j :: 0 <= i < j < |s| ==> AtMost(s[i], s[j])
  }

  function Insert(x: string, s: seq<string>): seq<string> {
    if s == [] then [x] else if AtMost(x, s[0]) then [x] + s else [s[0]] + Insert(x, s[1..])
  }

  function Sorted(s: seq<string>): seq<string> {
    if s == [] then [] else Insert(s[0], Sorted(s[1..]))
  }

  lemma {:induction false} InsertMembers(x: string, s: seq<string>)
    ensures |Insert(x, s)| == |s| + 1
    ensures forall y :: y in Insert(x, s) <==> y == x || y in s
  {
    if s != [] && !AtMost(x, s[0]) {
      InsertMembers(x, s[1..]);
      assert s == [s[0]] + s[1..];
    }
  }

  lemma {:induction false} InsertAscending(x: string, s: seq<string>)
    requires InOrder(s) && Distinct(s) && x !in s
    ensures InOrder(Insert(x, s)) && Distinct(Insert(x, s))
  {
    var r := Insert(x, s);
    if s == [] {
    } else if AtMost(x, s[0]) {
      forall j | 0 < j < |r| ensures AtMost(r[0], r[j]) {
        if j > 1 { AtMostTransitive(x, s[0], s[j - 1]); }
      }
    } else {
      AtMostTotal(x, s[0]);
      var rest := Insert(x, s[1..]);
      InsertAscending(x, s[1..]);
      InsertMembers(x, s[1..]);
      forall j | 0 < j < |r| ensures AtMost(r[0], r[j]) && r[0] != r[j] {
        assert rest[j - 1] in rest;
      }
      assert r == [s[0]] + rest;
    }
  }

  lemma {:induction false} SortedShape(s: seq<string>)
    requires Distinct(s)
    ensures InOrder(Sorted(s)) && Distinct(Sorted(s))
    ensures forall y :: y in Sorted(s) <==> y in s
  {
    if s != [] {
      SortedShape(s[1..]);
      InsertMembers(s[0], Sorted(s[1..]));
      assert s[0] !in s[1..];
      InsertAscending(s[0], Sorted(s[1..]));
      assert s == [s[0]] + s[1..];
    }
  }

  lemma TailMembers(s: seq<string>)
    requires Distinct(s) && s != []
    ensures forall y :: y in s[1..] <==> y in s && y != s[0]
  {
    forall y | y in s && y != s[0] ensures y in s[1..] {
      var i :| 0 <= i < |s| && s[i] == y;
      assert s[1..][i - 1] == y;
    }
  }

  /** A set has one ascending listing. */
  lemma {:induction false} OneListing(a: seq<string>, b: seq<string>)
    requires InOrder(a) && Distinct(a) && InOrder(b) && Distinct(b)
    requires forall y :: y in a <==> y in b
    ensures a == b
  {
    if a == [] {
      assert forall y :: y in multiset(b) ==> y in a;
      assert multiset(b) == multiset{} && |multiset(b)| == |b|;
    } else {
      assert a[0] in b && b[0] in a;
      var i :| 0 <= i < |b| && b[i] == a[0];
      var j :| 0 <= j < |a| && a[j] == b[0];
      if i != 0 && j != 0 { AtMostAntisymmetric(a[0], b[0]); }
      assert a[0] == b[0];
      TailMembers(a);
      TailMembers(b);
      OneListing(a[1..], b[1..]);
      assert a == [a[0]] + a[1..] && b == [b[0]] + b[1..];
    }
  }

  // ---- the comparison ----

  function SortKeys(j: Json): Json {
    match j
    case Atom(_) => j
    case Arr(items) => Arr(seq(|items|, i requires 0 <= i < |items| => SortKeys(items[i])))
    case Obj(keys, fields) => Obj(Sorted(keys), map k | k in fields :: SortKeys(fields[k]))
  }

  lemma {:induction false} SortKeysMeaning(j: Json)
    ensures Meaning(SortKeys(j)) == Meaning(j)
  {
    match j
    case Atom(_) =>
    case Arr(items) =>
      forall i | 0 <= i < |items| ensures Meaning(SortKeys(items[i])) == Meaning(items[i]) {
        SortKeysMeaning(items[i]);
      }
      assert SortKeys(j).items == seq(|items|, i requires 0 <= i < |items| => SortKeys(items[i]));
      assert Meaning(SortKeys(j)).items == Meaning(j).items;
    case Obj(keys, fields) =>
      forall k | k in fields ensures Meaning(SortKeys(fields[k])) == Meaning(fields[k]) {
        SortKeysMeaning(fields[k]);
      }
      assert Meaning(SortKeys(j)).fields == Meaning(j).fields;
  }

  lemma {:induction false} SameMeaningSorts(a: Json, b: Json)
    requires Proper(a) && Proper(b) && Meaning(a) == Meaning(b)
    ensures SortKeys(a) == SortKeys(b)
  {
    match a
    case Atom(_) =>
    case Arr(items) =>
      assert |Meaning(a).items| == |Meaning(b).items|;
      forall i | 0 <= i < |items| ensures SortKeys(items[i]) == SortKeys(b.items[i]) {
        assert Meaning(a).items[i] == Meaning(b).items[i];
        SameMeaningSorts(items[i], b.items[i]);
      }
      assert SortKeys(a).items == SortKeys(b).items;
    case Obj(keys, fields) =>
      assert Meaning(a).fields.Keys == fields.Keys && Meaning(b).fields.Keys == b.fields.Keys;
      SortedShape(keys);
      SortedShape(b.keys);
      OneListing(Sorted(keys), Sorted(b.keys));
      forall k | k in fields ensures SortKeys(fields[k]) == SortKeys(b.fields[k]) {
        assert Meaning(a).fields[k] == Meaning(b).fields[k];
        SameMeaningSorts(fields[k], b.fields[k]);
      }
      assert SortKeys(a).fields == SortKeys(b).fields;
  }

  /** Sorting the keys gives one form to all values that are equal up to key order, and to no others. */
  lemma SameSortedIff(a: Json, b: Json)
    requires Proper(a) && Proper(b)
    ensures SortKeys(a) == SortKeys(b) <==> Meaning(a) == Meaning(b)
  {
    SortKeysMeaning(a);
    SortKeysMeaning(b);
    if Meaning(a) == Meaning(b) { SameMeaningSorts(a, b); }
  }
}
