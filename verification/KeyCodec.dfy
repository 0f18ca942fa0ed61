/** Storage keys: the length-prefixed byte layout, and its printed form as comma-separated decimals. */
module KeyCodec {
  import opened Options
  import opened Doubles

  type byte = x: int | 0 <= x < 256

  /** A key: a string by its UTF-8 bytes, a finite number, NaN or an infinity, or raw bytes. */
  datatype KeyInput = Text(utf8: seq<byte>) | Num(x: real) | NotFinite | Raw(bytes: seq<byte>)

  datatype KeyType = String | Number | Bytes

  const WordLimit: nat := 0x1_0000_0000_0000_0000

  // 2 to the 1024, less half the distance to the double below it: from here on integers round to infinity.
  const P256: nat := WordLimit * WordLimit * WordLimit * WordLimit
  const P1024: nat := P256 * P256 * P256 * P256
  const Overflow: nat := P1024 - P1024 / 0x40_0000_0000_0000

  // ---- bytes of one key ----

  function BigEndian(n: nat, width: nat): (b: seq<byte>)
    ensures |b| == width
  {
    if width == 0 then [] else BigEndian(n / 256, width - 1) + [n % 256]
  }

  function FromBigEndian(b: seq<byte>): nat {
    if b == [] then 0 else FromBigEndian(b[..|b| - 1]) * 256 + b[|b| - 1]
  }

  function Limit(width: nat): nat {
    if width == 0 then 1 else 256 * Limit(width - 1)
  }

  lemma {:induction false} BigEndianRoundTrip(n: nat, width: nat)
    requires n < Limit(width)
    ensures FromBigEndian(BigEndian(n, width)) == n
  {
    if width > 0 { BigEndianRoundTrip(n / 256, width - 1); }
  }

  lemma Limit8()
    ensures Limit(8) == WordLimit
  {
    assert Limit(1) == 0x100 && Limit(2) == 0x1_0000;
    assert Limit(4) == 0x1_0000_0000 && Limit(6) == 0x1_0000_0000_0000;
  }

  /** A whole number that fits 64 bits; `BigInt` throws for a fraction, the write for a value out of range. */
  predicate Writable(x: real) {
    x == x.Floor as real && 0 <= x.Floor < WordLimit
  }

  function KeyToBuffer(k: KeyInput): Option<seq<byte>> {
    match k
    case Text(utf8) => Some(utf8)
    case Raw(bytes) => Some(bytes)
    case Num(x) => if Writable(x) then Some(BigEndian(x.Floor, 8)) else None
    case NotFinite => None
  }

  function TypeOf(k: KeyInput): KeyType {
    match k case Text(_) => String case Raw(_) => Bytes case Num(_) => Number case NotFinite => Number
  }

  /** `parseInt` of the hexadecimal digits gives the nearest double; without digits it gives NaN. */
  function ParseHex(b: seq<byte>): KeyInput {
    if b == [] || FromBigEndian(b) >= Overflow then NotFinite else Num(Nearest(FromBigEndian(b)) as real)
  }

  function KeyOf(b: seq<byte>, t: KeyType): KeyInput {
    match t
    case String => Text(b)
    case Bytes => Raw(b)
    case Number => ParseHex(b)
  }

  /** A number the decoder gives back as it is. */
  predicate Exact(k: KeyInput) {
    k.Num? && k.x >= 0.0 ==> Representable(k.x.Floor)
  }

  /** A key is recovered from its own bytes exactly if it is not a number between two doubles. */
  lemma KeyRoundTrip(k: KeyInput)
    requires KeyToBuffer(k).Some?
    ensures KeyOf(KeyToBuffer(k).value, TypeOf(k)) == k <==> Exact(k)
  {
    if k.Num? {
      Limit8();
      BigEndianRoundTrip(k.x.Floor, 8);
      NearestIff(k.x.Floor);
    }
  }

  /** The numbers that can be written are the whole ones of 64 bits. */
  lemma WhichNumbers(n: nat, x: real)
    ensures n < WordLimit ==> KeyToBuffer(Num(n as real)) == Some(BigEndian(n, 8))
    ensures x < 0.0 || x != x.Floor as real || x >= WordLimit as real ==> KeyToBuffer(Num(x)).None?
    ensures KeyToBuffer(NotFinite).None?
  {
  }

  /**
   * The number read from bytes: none without any, else the nearest double, which is infinite from the overflow bound
   * on.
   */
  lemma NumberRead(b: seq<byte>)
    ensures b == [] ==> KeyOf(b, Number) == NotFinite
    ensures b != [] && FromBigEndian(b) < Overflow ==> KeyOf(b, Number) == Num(Nearest(FromBigEndian(b)) as real)
    ensures b != [] && FromBigEndian(b) >= Overflow ==> KeyOf(b, Number) == NotFinite
  {
  }

  /** Every JavaScript number is exact. */
  lemma NumbersAreExact(k: KeyInput)
    requires KeyToBuffer(k).Some? && (k.Num? ==> IsNumber(k.x))
    ensures Exact(k)
  {
    if k.Num? { WholeNumber(k.x, k.x.Floor); }
  }

  // ---- layout of several keys ----

  function Framed(namespace: seq<byte>): seq<byte>
    requires |namespace| < 0x1_0000
  {
    [|namespace| / 256, |namespace| % 256] + namespace
  }

  predicate Short(namespaces: seq<seq<byte>>) {
    forall i :: 0 <= i < |namespaces| ==> |namespaces[i]| < 0x1_0000
  }

  function Prefixed(namespaces: seq<seq<byte>>): seq<byte>
    requires Short(namespaces)
  {
    if namespaces == [] then [] else Prefixed(namespaces[..|namespaces| - 1]) + Framed(namespaces[|namespaces| - 1])
  }

  predicate HaveBuffers(keys: seq<KeyInput>) {
    forall i :: 0 <= i < |keys| ==> KeyToBuffer(keys[i]).Some?
  }

  function Buffers(keys: seq<KeyInput>): (r: seq<seq<byte>>)
    requires HaveBuffers(keys)
  {
    seq(|keys|, i requires 0 <= i < |keys| => KeyToBuffer(keys[i]).value)
  }

  /** Every number fits 64 bits and every namespace length fits 16. */
  predicate Encodable(keys: seq<KeyInput>)
    requires keys != []
  {
    HaveBuffers(keys) && Short(Buffers(keys)[..|keys| - 1])
  }

  function Layout(keys: seq<KeyInput>): seq<byte>
    requires keys != [] && Encodable(keys)
  {
    var b := Buffers(keys);
    Prefixed(b[..|keys| - 1]) + b[|keys| - 1]
  }

  // ---- printing and parsing ----

  function Digit(d: int): char
    requires 0 <= d < 10
  {
    ('0' as int + d) as char
  }

  function Decimal(n: byte): string {
    if n < 10 then [Digit(n)]
    else if n < 100 then [Digit(n / 10), Digit(n % 10)]
    else [Digit(n / 100), Digit(n / 10 % 10), Digit(n % 10)]
  }

  function Join(b: seq<byte>): string {
    if b == [] then "" else if |b| == 1 then Decimal(b[0]) else Decimal(b[0]) + "," + Join(b[1..])
  }

  function Split(s: string): (parts: seq<string>)
    ensures parts != []
  {
    if s == [] then [""]
    else
      var rest := Split(s[1..]);
      if s[0] == ',' then [""] + rest else [[s[0]] + rest[0]] + rest[1..]
  }

  /** Leading digits; nothing readable gives 0, as storing NaN in a byte buffer does. */
  function ParseInt(s: string, acc: nat): nat {
    if s == [] || !('0' <= s[0] <= '9') then acc else ParseInt(s[1..], 10 * acc + (s[0] as int - '0' as int))
  }

  function ParseParts(parts: seq<string>): seq<byte> {
    seq(|parts|, i requires 0 <= i < |parts| => ParseInt(parts[i], 0) % 256)
  }

  function ParseBytes(s: string): seq<byte> {
    ParseParts(Split(s))
  }

  lemma ParseDecimal(n: byte)
    ensures ParseInt(Decimal(n), 0) == n
  {
    var s := Decimal(n);
    if n < 10 {
      assert ParseInt(s[1..], n) == n;
    } else if n < 100 {
      assert ParseInt(s[1..][1..], n) == n;
      assert ParseInt(s[1..], n / 10) == n;
    } else {
      assert ParseInt(s[1..][1..][1..], n) == n;
      assert ParseInt(s[1..][1..], n / 10) == n;
      assert ParseInt(s[1..], n / 100) == n;
    }
  }

  predicate NoComma(s: string) {
    ',' !in s
  }

  lemma {:induction false} SplitPlain(s: string)
    requires NoComma(s)
    ensures Split(s) == [s]
  {
    if s != [] {
      SplitPlain(s[1..]);
      assert s == [s[0]] + s[1..];
    }
  }

  lemma {:induction false} SplitFirst(a: string, rest: string)
    requires NoComma(a)
    ensures Split(a + "," + rest) == [a] + Split(rest)
  {
    var s := a + "," + rest;
    if a == [] {
      assert s[1..] == rest;
    } else {
      SplitFirst(a[1..], rest);
      assert s[1..] == a[1..] + "," + rest;
      assert a == [a[0]] + a[1..];
    }
  }

  lemma DecimalNoComma(n: byte)
    ensures NoComma(Decimal(n))
  {
  }

  function Decimals(b: seq<byte>): seq<string> {
    seq(|b|, i requires 0 <= i < |b| => Decimal(b[i]))
  }

  lemma {:induction false} SplitJoin(b: seq<byte>)
    requires b != []
    ensures Split(Join(b)) == Decimals(b)
  {
    DecimalNoComma(b[0]);
    if |b| == 1 {
      SplitPlain(Decimal(b[0]));
    } else {
      SplitJoin(b[1..]);
      SplitFirst(Decimal(b[0]), Join(b[1..]));
      assert Decimals(b) == [Decimal(b[0])] + Decimals(b[1..]);
    }
  }

  lemma {:induction false} ParseDecimals(b: seq<byte>)
    ensures ParseParts(Decimals(b)) == b
  {
    forall i | 0 <= i < |b| ensures ParseParts(Decimals(b))[i] == b[i] { ParseDecimal(b[i]); }
  }

  /** Printed bytes parse back, exactly when there are any. */
  lemma ParseJoin(b: seq<byte>)
    ensures ParseBytes(Join(b)) == b <==> b != []
    ensures b == [] ==> ParseBytes(Join(b)) == [0]
  {
    if b != [] {
      SplitJoin(b);
      ParseDecimals(b);
    } else {
      assert Split("") == [""];
      assert ParseBytes(Join(b)) == [0];
    }
  }

  // ---- decoding ----

  function Min(a: int, b: int): int {
    if a <= b then a else b
  }

  function Length(high: byte, low: byte): nat {
    (high as int) * 256 + low as int
  }

  /** The parts from number `i` on; `subarray` stops at the end of the buffer, reading a length beyond it throws. */
  function ReadKeys(buffer: seq<byte>, offset: nat, types: seq<KeyType>, i: nat): Option<seq<KeyInput>>
    decreases |types| - i
  {
    if i + 1 >= |types| then
      Some([KeyOf(buffer[Min(offset, |buffer|)..], if types == [] then Bytes else types[|types| - 1])])
    else if offset + 2 > |buffer| then None
    else
      var length := Length(buffer[offset], buffer[offset + 1]);
      var part := KeyOf(buffer[offset + 2..Min(offset + 2 + length, |buffer|)], types[i]);
      match ReadKeys(buffer, offset + 2 + length, types, i + 1)
      case None => None
      case Some(rest) => Some([part] + rest)
  }

  function Types(keys: seq<KeyInput>): seq<KeyType> {
    seq(|keys|, i requires 0 <= i < |keys| => TypeOf(keys[i]))
  }

  /** What each key's own bytes decode to, from number `i` on. */
  function OwnKeys(keys: seq<KeyInput>, i: nat): (parts: seq<KeyInput>)
    requires HaveBuffers(keys) && i <= |keys|
    ensures |parts| == |keys| - i
    decreases |keys| - i
  {
    if i == |keys| then [] else [KeyOf(KeyToBuffer(keys[i]).value, TypeOf(keys[i]))] + OwnKeys(keys, i + 1)
  }

  predicate AllExact(keys: seq<KeyInput>) {
    forall i :: 0 <= i < |keys| ==> Exact(keys[i])
  }

  lemma {:induction false} PrefixedMore(namespaces: seq<seq<byte>>, i: nat)
    requires Short(namespaces) && i < |namespaces|
    ensures Prefixed(namespaces[..i]) + Framed(namespaces[i]) <= Prefixed(namespaces)
  {
    if i < |namespaces| - 1 {
      var front := namespaces[..|namespaces| - 1];
      PrefixedMore(front, i);
      assert front[..i] == namespaces[..i];
    }
  }

  /** Where part `i` starts in a layout. */
  function Start(keys: seq<KeyInput>, i: nat): nat
    requires keys != [] && Encodable(keys) && i < |keys|
  {
    |Prefixed(Buffers(keys)[..i])|
  }

  /** Each namespace stands in the layout behind its length. */
  lemma FrameAt(keys: seq<KeyInput>, i: nat)
    requires keys != [] && Encodable(keys) && i + 1 < |keys|
    ensures var buffer, start, own := Layout(keys), Start(keys, i), KeyToBuffer(keys[i]).value;
            && start + 2 + |own| <= |buffer| && Length(buffer[start], buffer[start + 1]) == |own|
            && buffer[start + 2..start + 2 + |own|] == own && Start(keys, i + 1) == start + 2 + |own|
  {
    var b := Buffers(keys);
    var namespaces, own, buffer := b[..|keys| - 1], b[i], Layout(keys);
    assert namespaces[..i] == b[..i] && namespaces[i] == own;
    PrefixedMore(namespaces, i);
    var upTo := Prefixed(b[..i]) + Framed(own);
    assert upTo <= buffer;
    assert buffer[..|upTo|] == upTo;
    assert b[..i + 1][..i] == b[..i];
    assert buffer[|upTo| - |own|..|upTo|] == upTo[|upTo| - |own|..];
  }

  lemma LastAt(keys: seq<KeyInput>)
    requires keys != [] && Encodable(keys)
    ensures var last := |keys| - 1;
            Start(keys, last) <= |Layout(keys)| && Layout(keys)[Start(keys, last)..] == KeyToBuffer(keys[last]).value
  {
  }

  lemma ReadLast(keys: seq<KeyInput>)
    requires keys != [] && Encodable(keys)
    ensures var i := |keys| - 1; ReadKeys(Layout(keys), Start(keys, i), Types(keys), i) == Some(OwnKeys(keys, i))
  {
    var i := |keys| - 1;
    LastAt(keys);
    var own := KeyOf(KeyToBuffer(keys[i]).value, TypeOf(keys[i]));
    assert OwnKeys(keys, i) == [own];
    assert Types(keys)[i] == TypeOf(keys[i]);
  }

  lemma ReadFrame(buffer: seq<byte>, start: nat, types: seq<KeyType>, i: nat, own: seq<byte>, rest: seq<KeyInput>)
    requires i + 1 < |types| && start + 2 + |own| <= |buffer| && Length(buffer[start], buffer[start + 1]) == |own|
    requires buffer[start + 2..start + 2 + |own|] == own
    requires ReadKeys(buffer, start + 2 + |own|, types, i + 1) == Some(rest)
    ensures ReadKeys(buffer, start, types, i) == Some([KeyOf(own, types[i])] + rest)
  {
  }

  lemma ReadOne(keys: seq<KeyInput>, i: nat)
    requires keys != [] && Encodable(keys) && i + 1 < |keys|
    requires ReadKeys(Layout(keys), Start(keys, i + 1), Types(keys), i + 1) == Some(OwnKeys(keys, i + 1))
    ensures ReadKeys(Layout(keys), Start(keys, i), Types(keys), i) == Some(OwnKeys(keys, i))
  {
    FrameAt(keys, i);
    assert Types(keys)[i] == TypeOf(keys[i]);
    ReadFrame(Layout(keys), Start(keys, i), Types(keys), i, KeyToBuffer(keys[i]).value, OwnKeys(keys, i + 1));
  }

  /** Reading a layout gives one part per key, each from that key's own bytes. */
  lemma {:induction false} ReadLayout(keys: seq<KeyInput>, i: nat)
    requires keys != [] && Encodable(keys) && i < |keys|
    ensures ReadKeys(Layout(keys), Start(keys, i), Types(keys), i) == Some(OwnKeys(keys, i))
    decreases |keys| - i
  {
    if i + 1 == |keys| {
      ReadLast(keys);
    } else {
      ReadLayout(keys, i + 1);
      ReadOne(keys, i);
    }
  }

  function Decode(s: string, types: seq<KeyType>): Option<seq<KeyInput>> {
    ReadKeys(ParseBytes(s), 0, types, 0)
  }

  lemma {:induction false} OwnKeysExact(keys: seq<KeyInput>, i: nat)
    requires HaveBuffers(keys) && i <= |keys|
    ensures OwnKeys(keys, i) == keys[i..] <==> forall j :: i <= j < |keys| ==> Exact(keys[j])
    decreases |keys| - i
  {
    if i < |keys| {
      KeyRoundTrip(keys[i]);
      OwnKeysExact(keys, i + 1);
      assert keys[i..] == [keys[i]] + keys[i + 1..];
      assert OwnKeys(keys, i)[1..] == OwnKeys(keys, i + 1) && keys[i..][1..] == keys[i + 1..];
    }
  }

  /** Decoding inverts encoding, exactly when the encoding is non-empty and every number is a double. */
  lemma RoundTrip(keys: seq<KeyInput>)
    requires keys != [] && Encodable(keys)
    ensures Decode(Join(Layout(keys)), Types(keys)) == Some(keys) <==> Layout(keys) != [] && AllExact(keys)
  {
    ParseJoin(Layout(keys));
    if Layout(keys) != [] {
      ReadLayout(keys, 0);
      OwnKeysExact(keys, 0);
      assert keys[0..] == keys;
    } else {
      EmptyLayout(keys);
    }
  }

  /** So for keys a caller can pass, whose numbers are JavaScript numbers, it fails only for the empty encoding. */
  lemma CallerRoundTrip(keys: seq<KeyInput>)
    requires keys != [] && Encodable(keys) && forall i :: 0 <= i < |keys| && keys[i].Num? ==> IsNumber(keys[i].x)
    ensures Decode(Join(Layout(keys)), Types(keys)) == Some(keys) <==> Layout(keys) != []
  {
    forall i | 0 <= i < |keys| ensures Exact(keys[i]) { NumbersAreExact(keys[i]); }
    RoundTrip(keys);
  }

  /** Only a single empty key has an empty encoding, and it is read back as one zero byte. */
  lemma EmptyLayout(keys: seq<KeyInput>)
    requires keys != [] && Encodable(keys) && Layout(keys) == []
    ensures keys == [Text([])] || keys == [Raw([])]
    ensures Decode(Join(Layout(keys)), Types(keys)) != Some(keys)
  {
    ParseJoin([]);
    assert |keys| == 1;
    assert Layout(keys) == KeyToBuffer(keys[0]).value;
    assert Decode("", Types(keys)) == Some([KeyOf([0], TypeOf(keys[0]))]);
  }

  /** The number 258 has its high byte first. */
  lemma KnownNumber()
    ensures KeyToBuffer(Num(258.0)) == Some([0, 0, 0, 0, 0, 0, 1, 2])
  {
    assert (258.0).Floor == 258;
    assert BigEndian(0, 1) == [0];
    assert BigEndian(0, 2) == [0, 0];
    assert BigEndian(0, 3) == [0, 0, 0];
    assert BigEndian(0, 4) == [0, 0, 0, 0];
    assert BigEndian(0, 5) == [0, 0, 0, 0, 0];
    assert BigEndian(0, 6) == [0, 0, 0, 0, 0, 0];
    assert BigEndian(1, 7) == [0, 0, 0, 0, 0, 0, 1];
    assert BigEndian(258, 8) == [0, 0, 0, 0, 0, 0, 1, 2];
  }

  /** So has the length before a namespace; the last part stands without one. */
  lemma KnownLayout(namespace: seq<byte>, last: seq<byte>)
    requires |namespace| == 258
    ensures Encodable([Text(namespace), Raw(last)]) && Layout([Text(namespace), Raw(last)]) == [1, 2] + namespace + last
  {
    var keys := [Text(namespace), Raw(last)];
    assert Buffers(keys) == [namespace, last];
    assert Buffers(keys)[..1] == [namespace] && [namespace][..0] == [];
    assert Framed(namespace) == [1, 2] + namespace;
    assert Prefixed([]) == [] && Prefixed([namespace]) == [] + Framed(namespace) == Framed(namespace);
  }

  /** Bytes print as decimals with commas between. */
  lemma KnownPrint()
    ensures Join([0, 97, 255]) == "0,97,255"
  {
    assert [0, 97, 255][1..] == [97, 255] && [97, 255][1..] == [255];
  }

  // ---- the two operations ----

  /** Copy bytes into a buffer at an offset. */
  method Copy(source: seq<byte>, buffer: array<byte>, offset: nat)
    requires offset + |source| <= buffer.Length
    modifies buffer
    ensures buffer[..offset] == old(buffer[..offset]) && buffer[offset..offset + |source|] == source
  {
    for i := 0 to |source|
      invariant buffer[..offset] == old(buffer[..offset]) && buffer[offset..offset + i] == source[..i]
    {
      buffer[offset + i] := source[i];
      assert buffer[offset..offset + i + 1] == buffer[offset..offset + i] + [source[i]];
    }
  }

  method WriteFramed(namespace: seq<byte>, buffer: array<byte>, offset: nat)
    requires |namespace| < 0x1_0000 && offset + 2 + |namespace| <= buffer.Length
    modifies buffer
    ensures buffer[..offset + 2 + |namespace|] == old(buffer[..offset]) + Framed(namespace)
  {
    buffer[offset] := |namespace| / 256;
    buffer[offset + 1] := |namespace| % 256;
    ghost var start := buffer[..offset + 2];
    Copy(namespace, buffer, offset + 2);
    var end := offset + 2 + |namespace|;
    assert buffer[..end] == buffer[..offset + 2] + buffer[offset + 2..end];
    assert start == old(buffer[..offset]) + [|namespace| / 256, |namespace| % 256];
  }

  function Size(namespaces: seq<seq<byte>>): nat {
    if namespaces == [] then 0 else Size(namespaces[..|namespaces| - 1]) + |namespaces[|namespaces| - 1]| + 2
  }

  lemma {:induction false} SizeOfPrefixed(namespaces: seq<seq<byte>>)
    requires Short(namespaces)
    ensures |Prefixed(namespaces)| == Size(namespaces)
  {
    if namespaces != [] { SizeOfPrefixed(namespaces[..|namespaces| - 1]); }
  }

  lemma {:induction false} SizeGrows(namespaces: seq<seq<byte>>, i: nat)
    requires i <= |namespaces|
    ensures Size(namespaces[..i]) <= Size(namespaces)
  {
    if i < |namespaces| {
      SizeGrows(namespaces[..|namespaces| - 1], i);
      assert namespaces[..|namespaces| - 1][..i] == namespaces[..i];
    } else {
      assert namespaces[..i] == namespaces;
    }
  }

  /** Write each namespace behind its 2-byte length, then the last key; None where the source throws. */
  method FillBuffer(buffers: seq<seq<byte>>) returns (r: Option<seq<byte>>)
    requires buffers != []
    ensures var namespaces := buffers[..|buffers| - 1];
            r == if Short(namespaces) then Some(Prefixed(namespaces) + buffers[|buffers| - 1]) else None
  {
    var namespaces, key := buffers[..|buffers| - 1], buffers[|buffers| - 1];
    var buffer := new byte[Size(namespaces) + |key|];
    var offset := 0;
    for i := 0 to |namespaces|
      invariant Short(namespaces[..i])
      invariant offset == Size(namespaces[..i]) <= Size(namespaces)
      invariant buffer[..offset] == Prefixed(namespaces[..i])
    {
      var namespace := namespaces[i];
      if |namespace| >= 0x1_0000 { return None; }
      assert namespaces[..i + 1][..i] == namespaces[..i];
      SizeGrows(namespaces, i + 1);
      WriteFramed(namespace, buffer, offset);
      offset := offset + 2 + |namespace|;
    }
    assert namespaces[..|namespaces|] == namespaces;
    Copy(key, buffer, offset);
    assert buffer[..] == buffer[..offset] + buffer[offset..offset + |key|];
    r := Some(buffer[..]);
  }

  /** The printed key; None where the source throws. */
  method DbKeyForKeys(keys: seq<KeyInput>) returns (r: Option<string>)
    requires keys != []
    ensures r == if Encodable(keys) then Some(Join(Layout(keys))) else None
  {
    var buffers: seq<seq<byte>> := [];
    for i := 0 to |keys|
      invariant HaveBuffers(keys[..i]) && buffers == Buffers(keys[..i])
    {
      var b := KeyToBuffer(keys[i]);
      if b.None? { return None; }
      buffers := buffers + [b.value];
    }
    assert keys[..|keys|] == keys;
    var filled := FillBuffer(buffers);
    r := if filled.None? then None else Some(Join(filled.value));
  }

  function Then(keys: seq<KeyInput>, rest: Option<seq<KeyInput>>): Option<seq<KeyInput>> {
    if rest.None? then None else Some(keys + rest.value)
  }

  /** The bytes of a namespace of the given length, as far as the buffer goes. */
  function Chunk(buffer: seq<byte>, offset: nat, length: nat): seq<byte>
    requires offset + 2 <= |buffer|
  {
    buffer[offset + 2..Min(offset + 2 + length, |buffer|)]
  }

  lemma ReadMore(buffer: seq<byte>, offset: nat, types: seq<KeyType>, i: nat, keys: seq<KeyInput>, length: nat)
    requires i + 1 < |types| && offset + 2 <= |buffer| && length == Length(buffer[offset], buffer[offset + 1])
    ensures Then(keys, ReadKeys(buffer, offset, types, i)) ==
            Then(keys + [KeyOf(Chunk(buffer, offset, length), types[i])],
                 ReadKeys(buffer, offset + 2 + length, types, i + 1))
  {
    var part := KeyOf(Chunk(buffer, offset, length), types[i]);
    var rest := ReadKeys(buffer, offset + 2 + length, types, i + 1);
    if rest.Some? { assert keys + ([part] + rest.value) == keys + [part] + rest.value; }
  }

  /** Walk the buffer by the length prefixes; None where the source throws. */
  method WalkBuffer(buffer: seq<byte>, types: seq<KeyType>) returns (r: Option<seq<KeyInput>>)
    ensures r == Then([], ReadKeys(buffer, 0, types, 0))
  {
    var keys: seq<KeyInput> := [];
    var offset: nat := 0;
    var i: nat := 0;
    while i + 1 < |types|
      invariant i == 0 || i < |types|
      invariant Then(keys, ReadKeys(buffer, offset, types, i)) == Then([], ReadKeys(buffer, 0, types, 0))
    {
      if offset + 2 > |buffer| { return None; }
      var length := Length(buffer[offset], buffer[offset + 1]);
      ReadMore(buffer, offset, types, i, keys, length);
      keys := keys + [KeyOf(Chunk(buffer, offset, length), types[i])];
      offset := offset + 2 + length;
      i := i + 1;
    }
    r := Some(keys + [KeyOf(buffer[Min(offset, |buffer|)..], if types == [] then Bytes else types[|types| - 1])]);
  }

  method DbKeyToKeysAdvanced(key: string, types: seq<KeyType>) returns (r: Option<seq<KeyInput>>)
    ensures r == Decode(key, types)
  {
    r := WalkBuffer(ParseBytes(key), types);
    ghost var all := Decode(key, types);
    assert all.Some? ==> all.value == [] + all.value;
  }

  // ---- prefixes of printed keys ----

  lemma DecimalInjective(a: byte, b: byte)
    requires Decimal(a) == Decimal(b)
    ensures a == b
  {
    ParseDecimal(a);
    ParseDecimal(b);
  }

  /** Index of the first comma, or the length. */
  function FirstComma(s: string): (i: nat)
    ensures i <= |s| && NoComma(s[..i]) && (i < |s| ==> s[i] == ',')
  {
    if s == [] || s[0] == ',' then 0 else
      var i := FirstComma(s[1..]);
      assert s[..i + 1] == [s[0]] + s[1..][..i];
      i + 1
  }

  lemma {:induction false} FirstCommaIs(s: string, n: nat)
    requires n < |s| && s[n] == ',' && NoComma(s[..n])
    ensures FirstComma(s) == n
  {
    if n > 0 {
      assert s[1..][..n - 1] == s[..n][1..];
      assert s[..n][0] == s[0];
      FirstCommaIs(s[1..], n - 1);
    }
  }

  /** Two numbers followed by commas: the shorter text is a prefix only if the numbers agree. */
  lemma CommaCut(a: byte, x: string, b: byte, y: string)
    ensures Decimal(a) + "," + x <= Decimal(b) + "," + y <==> a == b && x <= y
  {
    var s, t := Decimal(a) + "," + x, Decimal(b) + "," + y;
    if s <= t {
      var n, m := |Decimal(a)|, |Decimal(b)|;
      DecimalNoComma(a);
      DecimalNoComma(b);
      assert s[..n] == t[..n] == Decimal(a) && t[..m] == Decimal(b) && t[n] == s[n];
      FirstCommaIs(t, n);
      FirstCommaIs(t, m);
      assert Decimal(a) == s[..n] == t[..n] == Decimal(b);
      DecimalInjective(a, b);
      assert x == s[n + 1..] && y == t[n + 1..];
    }
    if a == b && x <= y {
      assert t == s + y[|x|..];
    }
  }

  lemma CommaCutLast(a: byte, x: string, b: byte)
    ensures !(Decimal(a) + "," + x <= Decimal(b))
  {
    DecimalNoComma(b);
    assert (Decimal(a) + "," + x)[|Decimal(a)|] == ',';
  }

  lemma PrefixByHead(p: seq<byte>, k: seq<byte>)
    requires p != [] && k != []
    ensures p <= k <==> p[0] == k[0] && p[1..] <= k[1..]
  {
    assert p == [p[0]] + p[1..] && k == [k[0]] + k[1..];
  }

  /** A comma-terminated prefix matches exactly the keys that extend its bytes. */
  lemma {:induction false} CommaPrefix(p: seq<byte>, k: seq<byte>)
    requires p != []
    ensures Join(p) + "," <= Join(k) <==> p <= k && |p| < |k|
  {
    if k != [] {
      PrefixByHead(p, k);
      var x := if |p| == 1 then "" else Join(p[1..]) + ",";
      assert Join(p) + "," == Decimal(p[0]) + "," + x;
      if |k| == 1 {
        CommaCutLast(p[0], x, k[0]);
      } else {
        CommaCut(p[0], x, k[0], Join(k[1..]));
        if |p| > 1 { CommaPrefix(p[1..], k[1..]); }
      }
    }
  }

  /** Printed names of a map, as `getMap` asks for them. */
  function MapPrefix(names: seq<KeyInput>): string
    requires Encodable(names + [Text([])])
  {
    Join(Layout(names + [Text([])])) + ","
  }

  /** The printed keys a map query selects are those of the map's own entries with a non-empty last part. */
  lemma MapMembers(names: seq<KeyInput>, k: seq<byte>)
    requires names != [] && Encodable(names + [Text([])])
    ensures MapPrefix(names) <= Join(k) <==>
            exists r :: r != [] && Encodable(names + [Raw(r)]) && k == Layout(names + [Raw(r)])
  {
    var p := Layout(names + [Text([])]);
    assert p != [];
    CommaPrefix(p, k);
    forall r: seq<byte>
      ensures Encodable(names + [Raw(r)]) && Layout(names + [Raw(r)]) == p + r
    {
      LayoutOfEntry(names, r);
    }
    if p <= k && |p| < |k| {
      assert k == p + k[|p|..];
    }
  }

  lemma LayoutOfEntry(names: seq<KeyInput>, r: seq<byte>)
    requires Encodable(names + [Text([])])
    ensures Encodable(names + [Raw(r)]) && Layout(names + [Raw(r)]) == Layout(names + [Text([])]) + r
  {
    var a, b := names + [Text([])], names + [Raw(r)];
    assert forall i :: 0 <= i < |names| ==> b[i] == a[i];
    assert HaveBuffers(b);
    assert Buffers(b)[..|names|] == Buffers(a)[..|names|];
  }

  // ---- prefixes without the final comma ----

  /** When one byte's decimal starts another's. */
  lemma ExtendsIff(a: byte, b: byte)
    ensures Decimal(a) <= Decimal(b) <==> a == b || (a > 0 && (a == b / 10 || a == b / 100))
  {
    var s, t := Decimal(a), Decimal(b);
    if |s| == |t| {
      assert s <= t <==> s == t;
      if s == t { DecimalInjective(a, b); }
    } else if |s| == 1 && |t| > 1 {
      assert s <= t <==> s[0] == t[0];
    } else if |s| == 2 && |t| == 3 {
      assert s <= t <==> s[0] == t[0] && s[1] == t[1];
      assert s[0] == Digit(a / 10) && s[1] == Digit(a % 10);
    }
  }

  /** No other byte's decimal starts with this byte's decimal. */
  predicate Final(a: byte) {
    a == 0 || a >= 26
  }

  lemma PlainCut(a: byte, b: byte, y: string)
    requires Final(a) && (y == "" || y[0] == ',')
    ensures Decimal(a) <= Decimal(b) + y <==> a == b
  {
    ExtendsIff(a, b);
    DecimalNoComma(a);
    var t := Decimal(b) + y;
    assert |Decimal(a)| <= |Decimal(b)| ==> t[..|Decimal(a)|] == Decimal(b)[..|Decimal(a)|];
    assert y != "" ==> t[|Decimal(b)|] == ',';
  }

  /** The form without the comma agrees on byte prefixes when the prefix ends in a final byte. */
  lemma {:induction false} PlainPrefix(p: seq<byte>, k: seq<byte>)
    requires p != [] && Final(p[|p| - 1])
    ensures Join(p) <= Join(k) <==> p <= k
  {
    if k != [] {
      PrefixByHead(p, k);
      var y := if |k| == 1 then "" else "," + Join(k[1..]);
      assert Join(k) == Decimal(k[0]) + y;
      if |p| == 1 {
        PlainCut(p[0], k[0], y);
      } else if |k| == 1 {
        CommaCutLast(p[0], Join(p[1..]), k[0]);
      } else {
        CommaCut(p[0], Join(p[1..]), k[0], Join(k[1..]));
        PlainPrefix(p[1..], k[1..]);
      }
    }
  }

  lemma {:induction false} JoinLast(q: seq<byte>, a: byte, b: byte)
    requires Decimal(a) <= Decimal(b)
    ensures Join(q + [a]) <= Join(q + [b])
  {
    if q != [] {
      JoinLast(q[1..], a, b);
      assert (q + [a])[1..] == q[1..] + [a] && (q + [b])[1..] == q[1..] + [b];
    }
  }

  lemma NotFinalFails(q: seq<byte>, a: byte)
    requires !Final(a)
    ensures Join(q + [a]) <= Join(q + [10 * a]) && !(q + [a] <= q + [10 * a])
  {
    ExtendsIff(a, 10 * a);
    JoinLast(q, a, 10 * a);
    assert (q + [a])[|q|] != (q + [10 * a])[|q|];
  }

  ghost predicate PlainPrefixWorks(p: seq<byte>) {
    forall k :: Join(p) <= Join(k) <==> p <= k
  }

  /** The form without the comma agrees on every key only then. */
  lemma PlainPrefixIff(q: seq<byte>, a: byte)
    ensures PlainPrefixWorks(q + [a]) <==> Final(a)
  {
    if Final(a) {
      forall k ensures Join(q + [a]) <= Join(k) <==> q + [a] <= k { PlainPrefix(q + [a], k); }
    } else {
      NotFinalFails(q, a);
    }
  }
}
