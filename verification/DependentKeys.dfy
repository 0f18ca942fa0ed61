/** Dependent keys: how they are built, the query they select events with, and the match used for invalidation. */
module DependentKeys {
  import opened Events

  const NAMESPACE := "wasm_state"

  /** An empty part becomes the wildcard. */
  function Part(s: string): string {
    if s == "" then "*" else s
  }

  function DependentKey(contract: string, key: string): string {
    NAMESPACE + ":" + Part(contract) + ":" + Part(key)
  }

  // ---- SQL LIKE ----

  /** Postgres LIKE: `%` any run, `_` any character, backslash quotes the next pattern character. */
  predicate Like(s: string, p: string)
    decreases |s| + |p|
  {
    if p == [] then s == []
    else if p[0] == '%' then Like(s, p[1..]) || (s != [] && Like(s[1..], p))
    else if p[0] == '_' then s != [] && Like(s[1..], p[1..])
    else if p[0] == '\\' then |p| > 1 && s != [] && s[0] == p[1] && Like(s[1..], p[2..])
    else s != [] && s[0] == p[0] && Like(s[1..], p[1..])
  }

  predicate Literal(p: string) {
    forall i :: 0 <= i < |p| ==> p[i] != '%' && p[i] != '_' && p[i] != '\\'
  }

  lemma {:induction false} LikeLiteral(s: string, p: string, q: string)
    requires Literal(p)
    ensures Like(s, p + q) <==> p <= s && Like(s[|p|..], q)
  {
    if p == [] {
      assert p + q == q && s[0..] == s;
    } else {
      assert (p + q)[1..] == p[1..] + q;
      if s != [] {
        LikeLiteral(s[1..], p[1..], q);
        if p[0] == s[0] {
          assert p <= s <==> p[1..] <= s[1..] by {
            assert p == [p[0]] + p[1..] && s == [s[0]] + s[1..];
          }
          if p <= s { assert s[1..][|p[1..]|..] == s[|p|..]; }
        }
      }
    }
  }

  lemma {:induction false} LikeAnything(s: string)
    ensures Like(s, "%")
  {
    if s == [] { assert "%"[1..] == []; } else { LikeAnything(s[1..]); }
  }

  /** `*` becomes `%`. */
  function Wild(s: string): (r: string)
    ensures |r| == |s|
  {
    seq(|s|, i requires 0 <= i < |s| => if s[i] == '*' then '%' else s[i])
  }

  /** A pattern without backslash matches its own text (and possibly more), so LIKE never misses a prefix. */
  lemma {:induction false} LikeOwnText(s: string, p: string, q: string)
    requires '\\' !in p && p <= s && Like(s[|p|..], q)
    ensures Like(s, Wild(p) + q)
  {
    var w := Wild(p);
    if p == [] {
      assert w + q == q && s[0..] == s;
    } else {
      assert (w + q)[1..] == Wild(p[1..]) + q;
      assert s[1..][|p| - 1..] == s[|p|..];
      assert p[1..] <= s[1..];
      LikeOwnText(s[1..], p[1..], q);
      assert (w + q)[0] == w[0];
      if w[0] == '%' {
        assert Like(s[1..], (w + q)[1..]);
        assert Like(s[1..], w + q);
      }
    }
  }

  // ---- getWhereClauseForDependentKeys ----

  function Before(s: string, c: char): string {
    if s == [] || s[0] == c then [] else [s[0]] + Before(s[1..], c)
  }

  function Strip(s: string, p: string): string {
    if p <= s then s[|p|..] else s
  }

  /** The contract ("" for any) and key pattern a dependent key selects. */
  function ContractOf(d: Dep): string {
    var rest := Strip(d.key, NAMESPACE + ":");
    if "*:" <= rest then "" else Before(rest, ':')
  }

  function PatternOf(d: Dep): string {
    var rest := Strip(d.key, NAMESPACE + ":");
    Wild(Strip(rest, Part(ContractOf(d)) + ":"))
  }

  /** Whether the where clause of one dependent key selects the row (contract, key). */
  predicate Selects(d: Dep, contract: string, key: string) {
    && (ContractOf(d) == "" || ContractOf(d) == contract)
    && (if d.prefix || '%' in PatternOf(d) then Like(key, PatternOf(d) + if d.prefix then "%" else "")
        else key == PatternOf(d))
  }

  predicate WhereSelects(deps: seq<Dep>, contract: string, key: string) {
    exists d :: d in deps && Selects(d, contract, key)
  }

  predicate NoColon(s: string) {
    ':' !in s
  }

  /** A storage key as stored: decimal bytes and commas. */
  predicate Printed(s: string) {
    forall i :: 0 <= i < |s| ==> '0' <= s[i] <= '9' || s[i] == ','
  }

  predicate Alphanumeric(s: string) {
    forall i :: 0 <= i < |s| ==> '0' <= s[i] <= '9' || 'a' <= s[i] <= 'z' || 'A' <= s[i] <= 'Z'
  }

  /** A contract address, in letters and digits, and a storage key, both present. */
  predicate WellFormed(contract: string, key: string) {
    contract != "" && Alphanumeric(contract) && Printed(key) && key != ""
  }

  lemma {:induction false} BeforeColon(a: string, b: string)
    requires NoColon(a)
    ensures Before(a + ":" + b, ':') == a
  {
    if a != [] {
      assert (a + ":" + b)[1..] == a[1..] + ":" + b;
      assert (a + ":" + b)[0] == a[0] && a[0] in a;
      assert NoColon(a[1..]);
      BeforeColon(a[1..], b);
    }
  }

  /** The parts of a contract's dependent key are recovered, the key as a pattern. */
  lemma ParsedPattern(contract: string, key: string, prefix: bool)
    requires contract != "" && Alphanumeric(contract) && key != ""
    ensures var d := Dep(DependentKey(contract, key), prefix);
            ContractOf(d) == contract && PatternOf(d) == Wild(key)
  {
    var d := Dep(DependentKey(contract, key), prefix);
    var rest := contract + ":" + key;
    assert d.key == (NAMESPACE + ":") + rest;
    assert Strip(d.key, NAMESPACE + ":") == rest;
    assert rest[0] == contract[0] && contract[0] in contract;
    assert !("*:" <= rest);
    BeforeColon(contract, key);
    assert rest == (contract + ":") + key;
    assert Strip(rest, contract + ":") == key;
  }

  lemma Parsed(contract: string, key: string, prefix: bool)
    requires WellFormed(contract, key)
    ensures var d := Dep(DependentKey(contract, key), prefix);
            ContractOf(d) == contract && PatternOf(d) == key
  {
    ParsedPattern(contract, key, prefix);
    assert Wild(key) == key;
  }

  /** Equal up to the first colon: two strings of this shape are equal, or one a prefix, part by part. */
  lemma SplitAtColon(a: string, k: string, c: string, e: string)
    requires NoColon(a) && NoColon(c)
    ensures a + ":" + k == c + ":" + e <==> a == c && k == e
    ensures a + ":" + k <= c + ":" + e <==> a == c && k <= e
  {
    var x, y := a + ":" + k, c + ":" + e;
    BeforeColon(c, e);
    if x <= y {
      var more := k + y[|x|..];
      assert y == a + ":" + more;
      BeforeColon(a, more);
      assert e == y[|c| + 1..] == more;
    }
    if a == c && k <= e {
      assert y == x + e[|k|..] by { assert e == k + e[|k|..]; }
    }
  }

  lemma CoversParts(contract: string, key: string, prefix: bool, rowContract: string, rowKey: string)
    requires WellFormed(contract, key)
    requires NoColon(rowContract)
    ensures Dep(DependentKey(contract, key), prefix).Covers(DependentKey(rowContract, rowKey)) <==>
            contract == rowContract && if prefix then key <= rowKey else key == rowKey
  {
    var c, k := Part(rowContract), Part(rowKey);
    SplitAtColon(contract, key, c, k);
    assert DependentKey(contract, key) == (NAMESPACE + ":") + (contract + ":" + key);
    assert DependentKey(rowContract, rowKey) == (NAMESPACE + ":") + (c + ":" + k);
    PrefixShift(NAMESPACE + ":", contract + ":" + key, c + ":" + k);
    assert key[0] != '*';
    assert contract == c <==> contract == rowContract by { assert contract == "*" ==> '*' in contract; }
  }

  lemma SelectsParts(contract: string, key: string, prefix: bool, rowContract: string, rowKey: string)
    requires WellFormed(contract, key)
    ensures Selects(Dep(DependentKey(contract, key), prefix), rowContract, rowKey) <==>
            contract == rowContract && if prefix then key <= rowKey else key == rowKey
  {
    Parsed(contract, key, prefix);
    assert '%' !in key;
    if prefix {
      LikeLiteral(rowKey, key, "%");
      if key <= rowKey { LikeAnything(rowKey[|key|..]); }
    }
  }

  /**
   * For a wildcard-free key of a contract, the query selects exactly the rows whose dependent key equals it,
   * or starts with it for prefixes: the same test the range index makes.
   */
  lemma WhereIsCovers(contract: string, key: string, prefix: bool, rowContract: string, rowKey: string)
    requires WellFormed(contract, key)
    requires NoColon(rowContract)
    ensures var d := Dep(DependentKey(contract, key), prefix);
            Selects(d, rowContract, rowKey) <==> d.Covers(DependentKey(rowContract, rowKey))
  {
    CoversParts(contract, key, prefix, rowContract, rowKey);
    SelectsParts(contract, key, prefix, rowContract, rowKey);
  }

  lemma PrefixShift(n: string, a: string, b: string)
    ensures n + a <= n + b <==> a <= b
    ensures n + a == n + b <==> a == b
  {
    if n + a <= n + b {
      assert a == (n + a)[|n|..] && b == (n + b)[|n|..];
      assert b[..|a|] == (n + b)[..|n + a|][|n|..];
    }
    if a <= b { assert n + b == n + a + b[|a|..] by { assert b == a + b[|a|..]; } }
  }

  /** Several keys: the clause selects a row exactly if some key covers it. */
  lemma WhereSelectsCovered(deps: seq<Dep>, rowContract: string, rowKey: string)
    requires NoColon(rowContract)
    requires forall d :: d in deps ==> WellKeyed(d)
    ensures WhereSelects(deps, rowContract, rowKey) <==>
        exists d :: d in deps && d.Covers(DependentKey(rowContract, rowKey))
  {
    forall d | d in deps
      ensures Selects(d, rowContract, rowKey) <==> d.Covers(DependentKey(rowContract, rowKey))
    {
      var contract, key :| WellFormed(contract, key) && d.key == DependentKey(contract, key);
      WhereIsCovers(contract, key, d.prefix, rowContract, rowKey);
    }
  }

  ghost predicate WellKeyed(d: Dep) {
    exists contract, key :: WellFormed(contract, key) && d.key == DependentKey(contract, key)
  }

  // ---- wildcards ----

  lemma {:induction false} LikeSuffix(s: string, t: string)
    requires Literal(t)
    ensures Like(s, "%" + t) <==> |t| <= |s| && s[|s| - |t|..] == t
  {
    assert ("%" + t)[1..] == t;
    LikeLiteral(s, t, "");
    assert t + "" == t;
    if s != [] {
      LikeSuffix(s[1..], t);
      if |t| < |s| { assert s[1..][|s| - 1 - |t|..] == s[|s| - |t|..]; }
    }
  }

  /** Without a contract address, or with the wildcard for one, the query selects the key in every contract. */
  lemma AnyContract(key: string, prefix: bool, rowContract: string, rowKey: string)
    requires Printed(key) && key != ""
    ensures DependentKey("", key) == DependentKey("*", key)
    ensures Selects(Dep(DependentKey("", key), prefix), rowContract, rowKey) <==>
            if prefix then key <= rowKey else key == rowKey
  {
    var d, rest := Dep(DependentKey("", key), prefix), "*:" + key;
    assert d.key == (NAMESPACE + ":") + rest;
    assert Strip(d.key, NAMESPACE + ":") == rest && "*:" <= rest;
    assert ContractOf(d) == "" && Strip(rest, "*:") == key;
    assert Wild(key) == key && PatternOf(d) == key;
    assert '%' !in key;
    if prefix {
      LikeLiteral(rowKey, key, "%");
      if key <= rowKey { LikeAnything(rowKey[|key|..]); }
    }
  }

  lemma SelectsByPattern(d: Dep, rowContract: string, rowKey: string)
    requires !d.prefix && '%' in PatternOf(d)
    ensures Selects(d, rowContract, rowKey) <==>
            (ContractOf(d) == "" || ContractOf(d) == rowContract) && Like(rowKey, PatternOf(d))
  {
    assert PatternOf(d) + "" == PatternOf(d);
  }

  lemma PrintedPattern(tail: string)
    requires Printed(tail)
    ensures Literal(tail) && Wild("*" + tail) == "%" + tail
  {
  }

  /** A wildcard at the start of a key stands for any beginning; alone it stands for every key of the contract. */
  lemma AnyBeginning(contract: string, tail: string, rowContract: string, rowKey: string)
    requires contract != "" && Alphanumeric(contract) && Printed(tail)
    ensures Selects(Dep(DependentKey(contract, "*" + tail), false), rowContract, rowKey) <==>
            contract == rowContract && |tail| <= |rowKey| && rowKey[|rowKey| - |tail|..] == tail
  {
    var d := Dep(DependentKey(contract, "*" + tail), false);
    ParsedPattern(contract, "*" + tail, false);
    PrintedPattern(tail);
    assert PatternOf(d)[0] == '%';
    SelectsByPattern(d, rowContract, rowKey);
    LikeSuffix(rowKey, tail);
  }

  /** A key left out is written as the wildcard. */
  lemma NoKeyIsWildcard(contract: string)
    ensures DependentKey(contract, "") == DependentKey(contract, "*")
  {
  }

  // ---- makeComputationDependencyWhere ----

  /** Whether a stored dependency is found when an event with this dependent key changes. */
  predicate Affected(d: Dep, eventKey: string) {
    || (!d.prefix && d.key == eventKey)
    || (!d.prefix && Like(eventKey, Wild(d.key)))
    || (d.prefix && Like(eventKey, Wild(d.key) + "%"))
  }

  /** Whether every event a dependency covers finds it. */
  ghost predicate NeverMissed(d: Dep) {
    forall e :: d.Covers(e) ==> Affected(d, e)
  }

  /** The last character is a `%` that no backslash quotes. */
  predicate OpenEnd(q: string) {
    if q == [] then false
    else if q[0] == '\\' then |q| > 2 && OpenEnd(q[2..])
    else if |q| == 1 then q[0] == '%'
    else OpenEnd(q[1..])
  }

  /** A match that ends in an unquoted `%` survives appending text. */
  lemma {:induction false} LikeAppend(s: string, q: string, x: string)
    requires OpenEnd(q) && Like(s, q)
    ensures Like(s + x, q)
    decreases |s| + |q|
  {
    var t := s + x;
    if s != [] { assert t[1..] == s[1..] + x; }
    if |q| == 1 {
      LikeAnything(t);
      assert q == "%";
    } else if q[0] == '%' {
      if Like(s, q[1..]) { LikeAppend(s, q[1..], x); } else { LikeAppend(s[1..], q, x); }
    } else if q[0] == '\\' {
      LikeAppend(s[1..], q[2..], x);
    } else {
      LikeAppend(s[1..], q[1..], x);
    }
  }

  /** A pattern ending in a quoted `%` matches only texts ending in `%`. */
  lemma {:induction false} QuotedEnd(s: string, q: string)
    requires q != [] && q[|q| - 1] == '%' && !OpenEnd(q)
    ensures |q| >= 2 && q[|q| - 2] == '\\'
    ensures Like(s, q) ==> s != [] && s[|s| - 1] == '%'
    decreases |s| + |q|
  {
    if q[0] == '%' {
      QuotedEnd(s, q[1..]);
      if s != [] { QuotedEnd(s[1..], q); }
    } else if q[0] == '\\' {
      if |q| > 2 {
        QuotedEnd(if s == [] then s else s[1..], q[2..]);
      } else if Like(s, q) {
        assert q[2..] == [] && Like(s[1..], q[2..]);
        assert s[1..] == [];
      }
    } else {
      QuotedEnd(if s == [] then s else s[1..], q[1..]);
    }
  }

  /** Exactly: a dependency is never missed if it is no prefix, or its pattern matches its own key. */
  lemma NeverMissedIff(d: Dep)
    ensures NeverMissed(d) <==> !d.prefix || Like(d.key, Wild(d.key) + "%")
  {
    var q := Wild(d.key) + "%";
    if NeverMissed(d) && d.prefix {
      assert d.Covers(d.key);
    }
    if d.prefix && Like(d.key, q) {
      if !OpenEnd(q) { QuotedEnd(d.key, q); assert false; }
      forall e | d.Covers(e) ensures Affected(d, e) {
        assert e == d.key + e[|d.key|..];
        LikeAppend(d.key, q, e[|d.key|..]);
      }
    }
  }

  /** Keys without a backslash are never missed. */
  lemma AffectedCovers(d: Dep)
    requires '\\' !in d.key
    ensures NeverMissed(d)
  {
    assert d.key[|d.key|..] == [];
    LikeAnything([]);
    LikeOwnText(d.key, d.key, "%");
    NeverMissedIff(d);
  }

  // ---- which keys with a backslash are missed ----

  function Backslashes(n: nat): (s: string)
    ensures |s| == n && forall i :: 0 <= i < n ==> s[i] == '\\'
  {
    seq(n, _ => '\\')
  }

  predicate AllBackslashes(s: string) {
    forall i :: 0 <= i < |s| ==> s[i] == '\\'
  }

  /** Characters that stand for themselves or, at most, for any one character. */
  predicate OneEach(a: string) {
    forall i :: 0 <= i < |a| ==> a[i] != '%' && a[i] != '*' && a[i] != '\\'
  }

  lemma {:induction false} LikeForced(a: string, t: string, q: string)
    requires OneEach(a)
    ensures Like(a + t, a + q) <==> Like(t, q)
  {
    if a == [] {
      assert a + t == t && a + q == q;
    } else {
      LikeForced(a[1..], t, q);
      assert (a + t)[1..] == a[1..] + t && (a + q)[1..] == a[1..] + q;
    }
  }

  /** Unquoting falls behind by one character at each backslash, so the text must be backslashes too, in pairs. */
  lemma {:induction false} UnquotedLags(r: string, n: nat)
    requires forall i :: 0 <= i < |r| ==> r[i] != '%' && r[i] != '_'
    requires n > 0 || r == [] || r[0] == '\\'
    ensures Like(Backslashes(n) + r, r + "%") <==> AllBackslashes(r) && |r| % 2 == 0
    decreases |r|
  {
    var t, q := Backslashes(n) + r, r + "%";
    if r == [] {
      assert q == "%";
      LikeAnything(t);
    } else if |r| == 1 {
      assert t[0] == '\\' && q[0] == r[0] && q[1] == '%';
    } else if r[0] == '\\' && r[1] == '\\' {
      var rest := r[2..];
      UnquotedLags(rest, n + 1);
      assert q[2..] == rest + "%";
      assert t[1..] == Backslashes(n + 1) + rest;
      assert AllBackslashes(r) <==> AllBackslashes(rest) by { assert r == r[..2] + rest; }
    } else {
      assert t[0] == '\\' && q[0] == r[0] && q[1] == r[1];
    }
  }

  /**
   * In a key without wildcards, whose part `r` from the first backslash on has no underscore either: a prefix
   * is never missed exactly if `r` is an even number of backslashes.
   */
  lemma BackslashKeys(a: string, r: string)
    requires OneEach(a) && (r == [] || r[0] == '\\')
    requires forall i :: 0 <= i < |r| ==> r[i] != '%' && r[i] != '*' && r[i] != '_'
    ensures NeverMissed(Dep(a + r, true)) <==> AllBackslashes(r) && |r| % 2 == 0
  {
    var d := Dep(a + r, true);
    NeverMissedIff(d);
    assert Wild(d.key) + "%" == a + (r + "%");
    LikeForced(a, r, r + "%");
    UnquotedLags(r, 0);
    assert Backslashes(0) + r == r;
  }

  const CHANGELOG := "name/changelog:"

  /**
   * The prefix test of the range index covers a changelog row of a key that starts with a backslash, which
   * neither the match nor the read itself finds: both use LIKE.
   */
  lemma BackslashMisses()
    ensures var prefix, row := CHANGELOG + "\\x:", CHANGELOG + "\\x:5";
            && prefix <= row && !Like(row, prefix + "%")
            && !Affected(Dep(prefix, true), row)
  {
    var r, t := "\\x:", "\\x:5";
    assert OneEach(CHANGELOG);
    assert Wild(CHANGELOG + r) + "%" == CHANGELOG + (r + "%") == CHANGELOG + r + "%";
    LikeForced(CHANGELOG, t, r + "%");
    assert (r + "%")[0] == '\\' && (r + "%")[1] == 'x' && t[0] != 'x';
    assert CHANGELOG + t == CHANGELOG + r + "5";
  }

  // ---- reads by pattern ----

  const TRANSFORMATION := "wasm_state_transformation"

  function TransformationKey(contract: string, name: string): string {
    TRANSFORMATION + ":" + contract + ":" + name
  }

  /**
   * Every row a transformation read selects by LIKE finds the read's dependency when it changes: for a map
   * prefix without the wildcard exactly those rows, for a name with its wildcards at least those.
   */
  lemma ReadRowsAffected(contract: string, name: string, row: string)
    requires OneEach(contract)
    ensures '*' !in name ==>
              (Affected(Dep(TransformationKey(contract, name), true), TransformationKey(contract, row)) <==>
               Like(row, name + "%"))
    ensures Like(row, Wild(name)) ==>
              Affected(Dep(TransformationKey(contract, name), false), TransformationKey(contract, row))
  {
    var front := TRANSFORMATION + ":" + contract + ":";
    assert OneEach(front) by { assert OneEach(TRANSFORMATION); }
    assert Wild(front + name) == front + Wild(name);
    LikeForced(front, row, Wild(name) + "%");
    LikeForced(front, row, Wild(name));
    assert front + Wild(name) + "%" == front + (Wild(name) + "%");
    if '*' !in name { assert Wild(name) == name; }
  }

  /** A text that the pattern matches: nothing for `%`, an x for `_`, and quoted characters themselves. */
  function Example(p: string): string {
    if p == "" then ""
    else if p[0] == '%' then Example(p[1..])
    else if p[0] == '_' then "x" + Example(p[1..])
    else if p[0] == '\\' then if |p| == 1 then "" else [p[1]] + Example(p[2..])
    else [p[0]] + Example(p[1..])
  }

  /** The last character is a backslash with nothing to quote. */
  predicate LoneEnd(p: string) {
    p != "" && if p[0] == '\\' then |p| == 1 || LoneEnd(p[2..]) else LoneEnd(p[1..])
  }

  lemma {:induction false} ExampleMatches(p: string, t: string, q: string)
    requires Like(t, q) && (LoneEnd(p) ==> t != "" && q != "" && t[0] == q[0] && Like(t[1..], q[1..]))
    ensures Like(Example(p) + t, p + q)
  {
    var s, r := Example(p) + t, p + q;
    if p == "" {
      assert s == t && r == q;
    } else if p[0] == '\\' {
      if |p| == 1 {
        assert s == t && r[2..] == q[1..];
      } else {
        ExampleMatches(p[2..], t, q);
        assert s[1..] == Example(p[2..]) + t && r[2..] == p[2..] + q;
      }
    } else {
      ExampleMatches(p[1..], t, q);
      assert r[1..] == p[1..] + q;
      if p[0] != '%' { assert s[1..] == Example(p[1..]) + t; }
    }
  }

  lemma {:induction false} LoneEndNever(s: string, p: string)
    requires LoneEnd(p)
    ensures !Like(s, p)
    decreases |s| + |p|
  {
    if p[0] == '%' {
      LoneEndNever(s, p[1..]);
      if s != [] { LoneEndNever(s[1..], p); }
    } else if s != [] && |p| > 1 {
      LoneEndNever(s[1..], if p[0] == '\\' then p[2..] else p[1..]);
    }
  }

  /** It is not the key itself, if the pattern has anything but plain characters. */
  lemma {:induction false} ExampleDiffers(k: string, w: string)
    requires |w| == |k| && forall i :: 0 <= i < |w| ==> w[i] == k[i] || (k[i] == '*' && w[i] == '%')
    ensures |Example(w)| <= |w| && (!Literal(w) ==> Example(w) != k)
    ensures LoneEnd(w) ==> |Example(w)| < |w| && w[|w| - 1] == '\\'
    decreases |w|
  {
    if w != "" {
      if w[0] == '\\' {
        if |w| > 1 { ExampleDiffers(k[2..], w[2..]); }
      } else {
        ExampleDiffers(k[1..], w[1..]);
        if w[0] != '%' && w[0] != '_' && !Literal(w) {
          assert !Literal(w[1..]);
          assert Example(w)[1..] == Example(w[1..]);
        }
      }
    }
  }

  ghost predicate ReadIsPrefixTest(prefix: string) {
    forall row :: Like(row, prefix + "%") <==> prefix <= row
  }

  /**
   * Reading by prefix and the range index's prefix test agree on every name exactly for a prefix of plain characters.
   */
  lemma ReadIsPrefixTestIff(prefix: string)
    ensures ReadIsPrefixTest(prefix) <==> Literal(prefix)
  {
    if Literal(prefix) {
      forall row ensures Like(row, prefix + "%") <==> prefix <= row {
        LikeLiteral(row, prefix, "%");
        if prefix <= row { LikeAnything(row[|prefix|..]); }
      }
    } else {
      var t := if LoneEnd(prefix) then "%" else "";
      LikeAnything(t);
      LikeAnything("");
      assert LoneEnd(prefix) ==> t[1..] == "" && "%"[1..] == "";
      ExampleMatches(prefix, t, "%");
      ExampleDiffers(prefix, prefix);
      assert prefix <= Example(prefix) + t ==> prefix == Example(prefix) + t;
    }
  }

  /**
   * Invalidation may find more than is covered: any character matches an underscore of the key, such as a namespace's.
   */
  lemma AffectedTooMuch(p: string, q: string, c: char)
    requires OneEach(p) && OneEach(q) && c != '_'
    ensures var d := Dep(p + ("_" + q), false); Affected(d, p + ([c] + q)) && !d.Covers(p + ([c] + q))
  {
    var d := Dep(p + ("_" + q), false);
    assert Wild(d.key) == d.key;
    LikeForced(p, [c] + q, "_" + q);
    LikeForced(q, "", "");
    assert q + "" == q && ([c] + q)[1..] == q && ("_" + q)[1..] == q;
    assert d.key[|p|] != (p + ([c] + q))[|p|];
  }
}
