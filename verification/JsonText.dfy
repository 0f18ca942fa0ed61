/** The text of a JSON value, and comparing values by their sorted text. */
module JsonText {
  import opened JsonOrder

  // ---- tokens ----

  predicate IsStop(c: char) {
    c == ',' || c == ']' || c == '}' || c == ':'
  }

  /** A text that ends a token before it. */
  predicate Stops(x: string) {
    x == "" || IsStop(x[0])
  }

  /** Where a string's text ends, counting its closing quote; a backslash takes the next character with it. */
  function StringEnd(x: string): nat {
    if x == "" then 0
    else if x[0] == '"' then 1
    else if x[0] == '\\' && |x| > 1 then 2 + StringEnd(x[2..])
    else 1 + StringEnd(x[1..])
  }

  /** Everything up to the first unquoted quote, which is the last character. */
  predicate Closed(x: string) {
    x != "" &&
    if x[0] == '"' then |x| == 1
    else if x[0] == '\\' then |x| > 1 && Closed(x[2..])
    else Closed(x[1..])
  }

  function BareEnd(x: string): nat {
    if Stops(x) then 0 else 1 + BareEnd(x[1..])
  }

  function TokenEnd(x: string): nat {
    if x != "" && x[0] == '"' then 1 + StringEnd(x[1..]) else BareEnd(x)
  }

  predicate Bare(s: string) {
    forall i :: 0 <= i < |s| ==> !IsStop(s[i])
  }

  /** The text of a string, number, boolean or null. */
  predicate Token(s: string) {
    s != "" && s[0] != '[' && s[0] != '{' && if s[0] == '"' then Closed(s[1..]) else Bare(s)
  }

  lemma {:induction false} ClosedEnd(s: string, x: string)
    requires Closed(s)
    ensures StringEnd(s + x) == |s|
  {
    var t := s + x;
    if s[0] == '"' {
    } else if s[0] == '\\' {
      ClosedEnd(s[2..], x);
      assert t[2..] == s[2..] + x;
    } else {
      ClosedEnd(s[1..], x);
      assert t[1..] == s[1..] + x;
    }
  }

  lemma {:induction false} BareStops(s: string, x: string)
    requires Bare(s) && Stops(x)
    ensures BareEnd(s + x) == |s|
  {
    if s == "" {
      assert s + x == x;
    } else {
      BareStops(s[1..], x);
      assert (s + x)[1..] == s[1..] + x;
    }
  }

  lemma TokenStops(s: string, x: string)
    requires Token(s) && Stops(x)
    ensures TokenEnd(s + x) == |s|
  {
    if s[0] == '"' {
      ClosedEnd(s[1..], x);
      assert (s + x)[1..] == s[1..] + x;
    } else {
      BareStops(s, x);
    }
  }

  lemma TokensDiffer(s: string, x: string, t: string, y: string)
    requires Token(s) && Stops(x) && Token(t) && Stops(y) && s + x == t + y
    ensures s == t && x == y
  {
    TokenStops(s, x);
    TokenStops(t, y);
    assert s == (s + x)[..|s|] && t == (t + y)[..|t|];
    assert x == (s + x)[|s|..] && y == (t + y)[|t|..];
  }

  // ---- keys ----

  function Escape(k: string): string {
    if k == "" then ""
    else if k[0] == '"' || k[0] == '\\' then ['\\', k[0]] + Escape(k[1..])
    else [k[0]] + Escape(k[1..])
  }

  function Quote(k: string): string {
    "\"" + (Escape(k) + "\"")
  }

  lemma {:induction false} EscapeClosed(k: string)
    ensures Closed(Escape(k) + "\"")
  {
    if k != "" {
      EscapeClosed(k[1..]);
      var rest := Escape(k[1..]) + "\"";
      if k[0] == '"' || k[0] == '\\' {
        assert (Escape(k) + "\"")[2..] == rest;
      } else {
        assert (Escape(k) + "\"")[1..] == rest;
      }
    }
  }

  lemma QuoteToken(k: string)
    ensures Token(Quote(k))
  {
    EscapeClosed(k);
    assert Quote(k)[1..] == Escape(k) + "\"";
  }

  lemma {:induction false} EscapeInjective(k: string, l: string)
    requires Escape(k) == Escape(l)
    ensures k == l
  {
    if k != "" && l != "" {
      var e, f := Escape(k), Escape(l);
      var m, n := if k[0] == '"' || k[0] == '\\' then 2 else 1, if l[0] == '"' || l[0] == '\\' then 2 else 1;
      assert e[0] == f[0] && m == n && k[0] == e[m - 1] == l[0];
      assert e[m..] == Escape(k[1..]) && f[n..] == Escape(l[1..]);
      EscapeInjective(k[1..], l[1..]);
      assert k == [k[0]] + k[1..] && l == [l[0]] + l[1..];
    }
  }

  lemma QuoteInjective(k: string, l: string)
    requires Quote(k) == Quote(l)
    ensures k == l
  {
    assert Escape(k) == Quote(k)[1..|Quote(k)| - 1] && Escape(l) == Quote(l)[1..|Quote(l)| - 1];
    EscapeInjective(k, l);
  }

  // ---- values ----

  /** Every primitive is a token. */
  ghost predicate Printable(j: Json) {
    match j
    case Atom(text) => Token(text)
    case Arr(items) => forall i :: 0 <= i < |items| ==> Printable(items[i])
    case Obj(_, fields) => forall k :: k in fields ==> Printable(fields[k])
  }

  function Comma(i: nat): string {
    if i == 0 then "" else ","
  }

  function Stringify(j: Json): string
    requires Proper(j)
    decreases j, 1, 0
  {
    match j
    case Atom(text) => text
    case Arr(items) => "[" + ItemsText(j, 0)
    case Obj(_, _) => "{" + FieldsText(j, 0)
  }

  /** The items from number `i` on, with the closing bracket. */
  function ItemsText(j: Json, i: nat): string
    requires Proper(j) && j.Arr? && i <= |j.items|
    decreases j, 0, |j.items| - i
  {
    if i == |j.items| then "]" else Comma(i) + (Stringify(j.items[i]) + ItemsText(j, i + 1))
  }

  /** The fields from number `i` on, with the closing brace. */
  function FieldsText(j: Json, i: nat): string
    requires Proper(j) && j.Obj? && i <= |j.keys|
    decreases j, 0, |j.keys| - i
  {
    if i == |j.keys| then "}"
    else
      assert j.keys[i] in j.keys;
      Comma(i) + (Quote(j.keys[i]) + (":" + (Stringify(j.fields[j.keys[i]]) + FieldsText(j, i + 1))))
  }

  /** Escaping works character by character: a backslash goes before quotes and backslashes, all else stays. */
  lemma {:induction false} KnownEscape(k: string, c: char)
    ensures Escape(k + [c]) == Escape(k) + if c == '"' || c == '\\' then ['\\', c] else [c]
  {
    if k == "" {
      assert k + [c] == [c] && [c][1..] == "";
    } else {
      assert (k + [c])[1..] == k[1..] + [c];
      KnownEscape(k[1..], c);
    }
  }

  /** How lists look. */
  lemma KnownList(list: Json)
    requires Proper(list) && list.Arr? && |list.items| == 2
    ensures Stringify(list) == "[" + (Stringify(list.items[0]) + ("," + (Stringify(list.items[1]) + "]")))
  {
    assert ItemsText(list, 2) == "]";
    var last := Stringify(list.items[1]) + ItemsText(list, 2);
    assert ItemsText(list, 1) == "," + last;
    assert ItemsText(list, 0) == "" + (Stringify(list.items[0]) + ("," + last));
  }

  function FieldText(record: Json, k: string, rest: string): string
    requires Proper(record) && record.Obj? && k in record.fields
  {
    Quote(k) + (":" + (Stringify(record.fields[k]) + rest))
  }

  /** How objects look. */
  lemma KnownRecord(record: Json, k: string, l: string)
    requires Proper(record) && record.Obj? && record.keys == [k, l] && {k, l} <= record.fields.Keys
    ensures Stringify(record) ==
            "{" + (Quote(k) + (":" + (Stringify(record.fields[k]) +
            ("," + (Quote(l) + (":" + (Stringify(record.fields[l]) + "}")))))))
  {
    assert record.keys[0] == k && record.keys[1] == l;
    assert FieldsText(record, 2) == "}";
    assert FieldsText(record, 1) == "," + FieldText(record, l, "}");
    assert FieldsText(record, 0) == "" + FieldText(record, k, "," + FieldText(record, l, "}"));
  }

  /** Nothing but a bracket or brace starts like one, and no value starts like a stop. */
  lemma FirstChar(j: Json)
    requires Proper(j) && Printable(j)
    ensures Stringify(j) != "" && !IsStop(Stringify(j)[0])
    ensures (Stringify(j)[0] == '[' <==> j.Arr?) && (Stringify(j)[0] == '{' <==> j.Obj?)
  {
  }

  lemma CutFront(a: string, x: string, b: string, y: string)
    requires a + x == b + y && |a| == |b|
    ensures a == b && x == y
  {
    assert a == (a + x)[..|a|] && b == (b + y)[..|b|];
    assert x == (a + x)[|a|..] && y == (b + y)[|b|..];
  }

  lemma SameKind(a: Json, x: string, b: Json, y: string)
    requires Proper(a) && Printable(a) && Proper(b) && Printable(b) && Stringify(a) + x == Stringify(b) + y
    ensures (a.Atom? <==> b.Atom?) && (a.Arr? <==> b.Arr?) && (a.Obj? <==> b.Obj?)
  {
    FirstChar(a);
    FirstChar(b);
    assert (Stringify(a) + x)[0] == Stringify(a)[0] && (Stringify(b) + y)[0] == Stringify(b)[0];
  }

  lemma Opened(j: Json, x: string)
    requires Proper(j)
    ensures j.Arr? ==> Stringify(j) + x == "[" + (ItemsText(j, 0) + x)
    ensures j.Obj? ==> Stringify(j) + x == "{" + (FieldsText(j, 0) + x)
  {
  }

  lemma SameObject(a: Json, b: Json)
    requires Proper(a) && a.Obj? && Proper(b) && b.Obj? && |a.keys| == |b.keys|
    requires forall n :: 0 <= n < |a.keys| ==>
               a.keys[n] == b.keys[n] && a.keys[n] in a.fields && b.keys[n] in b.fields &&
                   a.fields[a.keys[n]] == b.fields[b.keys[n]]
    ensures a == b
  {
    assert a.keys == b.keys;
    forall k ensures k in a.fields <==> k in b.fields { assert k in a.keys <==> k in b.keys; }
    forall k | k in a.fields
      ensures a.fields[k] == b.fields[k]
    {
      var n :| 0 <= n < |a.keys| && a.keys[n] == k;
    }
    assert a.fields == b.fields;
  }

  /** The text of a value, followed by nothing or a stop, determines the value and where it ends. */
  lemma {:induction false} TextDetermines(a: Json, x: string, b: Json, y: string)
    requires Proper(a) && Printable(a) && Proper(b) && Printable(b) && Stops(x) && Stops(y)
    requires Stringify(a) + x == Stringify(b) + y
    ensures a == b && x == y
    decreases a, 1, 0
  {
    SameKind(a, x, b, y);
    Opened(a, x);
    Opened(b, y);
    if a.Atom? {
      TokensDiffer(a.text, x, b.text, y);
    } else if a.Arr? {
      CutFront("[", ItemsText(a, 0) + x, "[", ItemsText(b, 0) + y);
      ItemsDetermine(a, x, b, y, 0);
      assert a.items == b.items;
    } else {
      CutFront("{", FieldsText(a, 0) + x, "{", FieldsText(b, 0) + y);
      FieldsDetermine(a, x, b, y, 0);
      SameObject(a, b);
    }
  }

  lemma ItemAligned(a: Json, x: string, b: Json, y: string, i: nat)
    requires Proper(a) && Printable(a) && a.Arr? && Proper(b) && Printable(b) && b.Arr?
    requires i < |a.items| && i < |b.items| && ItemsText(a, i) + x == ItemsText(b, i) + y
    ensures var s, t := ItemsText(a, i + 1) + x, ItemsText(b, i + 1) + y;
            Stringify(a.items[i]) + s == Stringify(b.items[i]) + t && Stops(s) && Stops(t)
  {
    var s, t := ItemsText(a, i + 1) + x, ItemsText(b, i + 1) + y;
    ItemsSplit(a, i, x);
    ItemsSplit(b, i, y);
    CutFront(Comma(i), Stringify(a.items[i]) + s, Comma(i), Stringify(b.items[i]) + t);
    ItemsStart(a, i + 1, x);
    ItemsStart(b, i + 1, y);
  }

  lemma {:induction false} ItemsDetermine(a: Json, x: string, b: Json, y: string, i: nat)
    requires Proper(a) && Printable(a) && a.Arr? && Proper(b) && Printable(b) && b.Arr?
    requires i <= |a.items| && i <= |b.items| && ItemsText(a, i) + x == ItemsText(b, i) + y
    ensures x == y && |a.items| == |b.items| && forall n :: i <= n < |a.items| ==> a.items[n] == b.items[n]
    decreases a, 0, |a.items| - i
  {
    ItemsStart(a, i, x);
    ItemsStart(b, i, y);
    if i == |a.items| || i == |b.items| {
      CutFront("]", x, "]", y);
    } else {
      ItemAligned(a, x, b, y, i);
      TextDetermines(a.items[i], ItemsText(a, i + 1) + x, b.items[i], ItemsText(b, i + 1) + y);
      ItemsDetermine(a, x, b, y, i + 1);
    }
  }

  lemma ItemsSplit(j: Json, i: nat, x: string)
    requires Proper(j) && j.Arr? && i < |j.items|
    ensures ItemsText(j, i) + x == Comma(i) + (Stringify(j.items[i]) + (ItemsText(j, i + 1) + x))
  {
  }

  /** The list ends exactly where the bracket stands; past its first item the text starts with a stop. */
  lemma ItemsStart(j: Json, i: nat, x: string)
    requires Proper(j) && Printable(j) && j.Arr? && i <= |j.items|
    ensures var t := ItemsText(j, i) + x; t != "" && (t[0] == ']' <==> i == |j.items|) && (i > 0 ==> Stops(t))
  {
    if i < |j.items| {
      FirstChar(j.items[i]);
      ItemsSplit(j, i, x);
    }
  }

  lemma {:induction false} FieldsDetermine(a: Json, x: string, b: Json, y: string, i: nat)
    requires Proper(a) && Printable(a) && a.Obj? && Proper(b) && Printable(b) && b.Obj?
    requires i <= |a.keys| && i <= |b.keys| && FieldsText(a, i) + x == FieldsText(b, i) + y
    ensures x == y && |a.keys| == |b.keys|
    ensures forall n :: i <= n < |a.keys| ==>
              a.keys[n] == b.keys[n] && a.keys[n] in a.fields && b.keys[n] in b.fields &&
                  a.fields[a.keys[n]] == b.fields[b.keys[n]]
    decreases a, 0, |a.keys| - i
  {
    FieldsStart(a, i, x);
    FieldsStart(b, i, y);
    if i == |a.keys| || i == |b.keys| {
      CutFront("}", x, "}", y);
    } else {
      var k, l := a.keys[i], b.keys[i];
      assert k in a.keys && l in b.keys;
      var s, t := FieldsText(a, i + 1) + x, FieldsText(b, i + 1) + y;
      FieldsSplit(a, i, x);
      FieldsSplit(b, i, y);
      var v, w := ":" + (Stringify(a.fields[k]) + s), ":" + (Stringify(b.fields[l]) + t);
      CutFront(Comma(i), Quote(k) + v, Comma(i), Quote(l) + w);
      QuoteToken(k);
      QuoteToken(l);
      TokensDiffer(Quote(k), v, Quote(l), w);
      QuoteInjective(k, l);
      CutFront(":", Stringify(a.fields[k]) + s, ":", Stringify(b.fields[l]) + t);
      FieldsStart(a, i + 1, x);
      FieldsStart(b, i + 1, y);
      TextDetermines(a.fields[k], s, b.fields[l], t);
      FieldsDetermine(a, x, b, y, i + 1);
    }
  }

  lemma FieldsSplit(j: Json, i: nat, x: string)
    requires Proper(j) && j.Obj? && i < |j.keys|
    ensures j.keys[i] in j.fields
    ensures FieldsText(j, i) + x ==
            Comma(i) + (Quote(j.keys[i]) + (":" + (Stringify(j.fields[j.keys[i]]) + (FieldsText(j, i + 1) + x))))
  {
    assert j.keys[i] in j.keys;
  }

  lemma FieldsStart(j: Json, i: nat, x: string)
    requires Proper(j) && j.Obj? && i <= |j.keys|
    ensures var t := FieldsText(j, i) + x; t != "" && (t[0] == '}' <==> i == |j.keys|) && (i > 0 ==> Stops(t))
  {
    if i < |j.keys| { FieldsSplit(j, i, x); }
  }

  // ---- the comparison ----

  lemma {:induction false} SortKeysProper(j: Json)
    requires Proper(j)
    ensures Proper(SortKeys(j))
  {
    match j
    case Atom(_) =>
    case Arr(items) =>
      forall i | 0 <= i < |items| ensures Proper(SortKeys(items[i])) { SortKeysProper(items[i]); }
    case Obj(keys, fields) =>
      SortedShape(keys);
      forall k | k in fields ensures Proper(SortKeys(fields[k])) { SortKeysProper(fields[k]); }
  }

  lemma {:induction false} SortKeysPrintable(j: Json)
    requires Printable(j)
    ensures Printable(SortKeys(j))
  {
    match j
    case Atom(_) =>
    case Arr(items) =>
      forall i | 0 <= i < |items| ensures Printable(SortKeys(items[i])) { SortKeysPrintable(items[i]); }
    case Obj(keys, fields) =>
      forall k | k in fields ensures Printable(SortKeys(fields[k])) { SortKeysPrintable(fields[k]); }
  }

  /** The text of a value with its keys sorted at every depth: what comparing and hashing use. */
  function SortedText(j: Json): string
    requires Proper(j)
  {
    SortKeysProper(j);
    Stringify(SortKeys(j))
  }

  /** A value as JSON.parse gives it. */
  type Value = j: Json | Proper(j) && Printable(j) witness Atom("null")

  const NullValue: Value := Atom("null")

  ghost predicate TokenLeaves(t: Tree) {
    match t
    case Leaf(text) => Token(text)
    case List(items) => forall i :: 0 <= i < |items| ==> TokenLeaves(items[i])
    case Dict(fields) => forall k :: k in fields ==> TokenLeaves(fields[k])
  }

  /** The content of a `jsonb` column. */
  type Jsonb = t: Tree | TokenLeaves(t) witness Leaf("null")

  lemma {:induction false} MeaningTokens(j: Json)
    requires Printable(j)
    ensures TokenLeaves(Meaning(j))
  {
    match j
    case Atom(_) =>
    case Arr(items) =>
      forall i | 0 <= i < |items| ensures TokenLeaves(Meaning(items[i])) { MeaningTokens(items[i]); }
    case Obj(keys, fields) =>
      forall k | k in fields ensures TokenLeaves(Meaning(fields[k])) { MeaningTokens(fields[k]); }
  }

  function ToJsonb(j: Value): (t: Jsonb)
    ensures t == Meaning(j)
  {
    MeaningTokens(j);
    Meaning(j)
  }

  predicate IsJsonEqual(a: Value, b: Value) {
    SortedText(a) == SortedText(b)
  }

  /** Two values have the same sorted text if and only if they are equal up to the order of object keys. */
  lemma IsJsonEqualIff(a: Value, b: Value)
    ensures IsJsonEqual(a, b) <==> ToJsonb(a) == ToJsonb(b)
  {
    SortKeysProper(a);
    SortKeysProper(b);
    SortKeysPrintable(a);
    SortKeysPrintable(b);
    SameSortedIff(a, b);
    if SortedText(a) == SortedText(b) {
      assert Stringify(SortKeys(a)) + "" == Stringify(SortKeys(b)) + "";
      TextDetermines(SortKeys(a), "", SortKeys(b), "");
    }
  }
}
