/** JavaScript numbers: the integers a double can hold, and rounding to the nearest one. */
module Doubles {
  const P53: int := 0x20_0000_0000_0000

  function Pow2(e: nat): (r: nat)
    ensures r >= 1
  {
    if e == 0 then 1 else 2 * Pow2(e - 1)
  }

  /** The distance between doubles at the magnitude of `n`: 2 to the bit length less 53, or 1. */
  function Unit(n: nat): (u: nat)
    ensures u >= 1
  {
    if n < P53 then 1 else 2 * Unit(n / 2)
  }

  predicate Representable(n: nat) {
    n % Unit(n) == 0
  }

  /** Round to nearest, ties to even. */
  function Nearest(n: nat): nat {
    var u := Unit(n);
    var r := n % u;
    if 2 * r < u || (2 * r == u && n / u % 2 == 0) then n - r else n - r + u
  }

  /** Rounding leaves exactly the representable integers alone. */
  lemma NearestIff(n: nat)
    ensures Nearest(n) == n <==> Representable(n)
  {
  }

  function Scaled(m: int, e: nat): int {
    m * Pow2(e)
  }

  /** A 53-bit integer times a power of two. */
  ghost predicate IsDouble(n: nat) {
    exists m: nat, e: nat :: m < P53 && n == Scaled(m, e)
  }

  /** A finite JavaScript number: a 53-bit integer times or divided by a power of two. */
  ghost predicate IsNumber(x: real) {
    exists m: int, e: nat :: -P53 < m < P53 && (TimesPower(x, m, e) || OverPower(x, m, e))
  }

  predicate TimesPower(x: real, m: int, e: nat) {
    x == Scaled(m, e) as real
  }

  predicate OverPower(x: real, m: int, e: nat) {
    x * Pow2(e) as real == m as real
  }

  lemma Multiples(b: int, d: int)
    requires b >= 1
    ensures d >= 1 ==> b * d >= b
    ensures d <= -1 ==> b * d <= -b
  {
  }

  lemma DivisionIs(a: nat, b: nat, q: nat, r: nat)
    requires a == b * q + r && r < b
    ensures a / b == q && a % b == r
  {
    var d: int := a / b - q;
    assert b * (a / b) + a % b == a;
    assert b * d == r - a % b;
    Multiples(b, d);
  }

  lemma DoubledMod(k: nat, u: nat)
    requires u >= 1
    ensures (2 * k) % (2 * u) == 2 * (k % u) && (2 * k + 1) % (2 * u) == 2 * (k % u) + 1
  {
    var q, r := k / u, k % u;
    assert k == u * q + r;
    assert 2 * k == (2 * u) * q + 2 * r;
    DivisionIs(2 * k, 2 * u, q, 2 * r);
    DivisionIs(2 * k + 1, 2 * u, q, 2 * r + 1);
  }

  lemma HalfRepresentable(n: nat)
    requires n >= P53
    ensures Representable(n) <==> n % 2 == 0 && Representable(n / 2)
  {
    DoubledMod(n / 2, Unit(n / 2));
    assert n == 2 * (n / 2) + n % 2;
  }

  lemma {:induction false} ScaledRepresentable(m: nat, e: nat)
    requires m < P53
    ensures Representable(m * Pow2(e))
  {
    var n := m * Pow2(e);
    if e > 0 && n >= P53 {
      assert n == 2 * (m * Pow2(e - 1));
      ScaledRepresentable(m, e - 1);
      HalfRepresentable(n);
    }
  }

  lemma {:induction false} RepresentableScales(n: nat)
    requires Representable(n)
    ensures IsDouble(n)
  {
    if n < P53 {
      assert n == Scaled(n, 0);
    } else {
      HalfRepresentable(n);
      RepresentableScales(n / 2);
      var m: nat, e: nat :| m < P53 && n / 2 == Scaled(m, e);
      assert n == Scaled(m, e + 1);
    }
  }

  /** The divisibility test describes the doubles. */
  lemma RepresentableIff(n: nat)
    ensures Representable(n) <==> IsDouble(n)
  {
    if Representable(n) { RepresentableScales(n); }
    if IsDouble(n) {
      var m: nat, e: nat :| m < P53 && n == Scaled(m, e);
      ScaledRepresentable(m, e);
    }
  }

  lemma {:induction false} RealProduct(n: int, p: nat)
    ensures (n as real) * (p as real) == (n * p) as real
  {
    if p > 0 {
      RealProduct(n, p - 1);
      assert (n as real) * (p as real) == (n as real) * ((p - 1) as real) + n as real;
      assert n * p == n * (p - 1) + n;
    }
  }

  lemma ScaledUp(n: nat, m: int, e: nat)
    requires m < P53 && n == m * Pow2(e)
    ensures Representable(n)
  {
    Multiples(Pow2(e), m);
    ScaledRepresentable(m, e);
  }

  lemma ScaledDown(n: nat, m: int, e: nat)
    requires m < P53 && n * Pow2(e) == m
    ensures Representable(n)
  {
    assert n <= n * Pow2(e);
  }

  /** A whole non-negative JavaScript number is representable. */
  lemma WholeNumber(x: real, n: nat)
    requires IsNumber(x) && x == n as real
    ensures Representable(n)
  {
    var m: int, e: nat :| -P53 < m < P53 && (TimesPower(x, m, e) || OverPower(x, m, e));
    if TimesPower(x, m, e) {
      WholeTimes(x, n, m, e);
      ScaledUp(n, m, e);
    } else {
      WholeOver(x, n, m, e);
      ScaledDown(n, m, e);
    }
  }

  lemma WholeTimes(x: real, n: nat, m: int, e: nat)
    requires x == n as real && TimesPower(x, m, e)
    ensures n == m * Pow2(e)
  {
  }

  lemma WholeOver(x: real, n: nat, m: int, e: nat)
    requires x == n as real && OverPower(x, m, e)
    ensures n * Pow2(e) == m
  {
    RealProduct(n, Pow2(e));
  }

  // ---- rounding picks the nearest ----

  const P52: int := 0x10_0000_0000_0000

  lemma {:induction false} AtLeastHalf(n: nat)
    requires n >= P53
    ensures P52 * Unit(n) <= n
  {
    if n / 2 >= P53 { AtLeastHalf(n / 2); }
  }

  /** From the magnitude of `n` on, representable integers are multiples of its unit. */
  lemma {:induction false} OnTheGrid(n: nat, m: nat)
    requires Representable(m) && m >= P52 * Unit(n)
    ensures m % Unit(n) == 0
  {
    if n >= P53 {
      var u := Unit(n / 2);
      assert Unit(n) == 2 * u;
      HalfRepresentable(m);
      OnTheGrid(n / 2, m / 2);
      DoubledMod(m / 2, u);
    }
  }

  /** No multiple of `u` lies strictly between two neighbours. */
  lemma NoneBetween(n: nat, m: nat, u: nat)
    requires u >= 1 && m % u == 0
    ensures m <= n - n % u || m >= n - n % u + u
  {
    var d: int := m / u - n / u;
    assert m == u * (m / u) && n - n % u == u * (n / u);
    assert m - (n - n % u) == u * d;
    Multiples(u, d);
  }

  function Distance(a: int, b: int): int {
    if a <= b then b - a else a - b
  }

  /** No representable integer is nearer than the rounded one. */
  lemma NearestIsNearest(n: nat, m: nat)
    requires Representable(m)
    ensures Distance(n, Nearest(n)) <= Distance(n, m)
  {
    var u := Unit(n);
    if n >= P53 {
      AtLeastHalf(n);
      if m >= P52 * u { OnTheGrid(n, m); } else { BelowTheGrid(n, u); }
    }
    if m % u == 0 { NoneBetween(n, m, u); }
  }

  lemma BelowTheGrid(n: nat, u: nat)
    requires u >= 1 && P52 * u <= n
    ensures P52 * u <= n - n % u
  {
    assert (P52 * u) % u == 0 by { DivisionIs(P52 * u, u, P52, 0); }
    NoneBetween(n, P52 * u, u);
  }

  /** Halfway between two doubles, the one that is an even multiple of the unit is taken. */
  lemma TiesToEven(n: nat)
    requires 2 * (n % Unit(n)) == Unit(n)
    ensures Nearest(n) % (2 * Unit(n)) == 0
  {
    var u, q := Unit(n), n / Unit(n);
    assert n - n % u == u * q;
    EvenMultiple(u, q);
    assert Nearest(n) == if q % 2 == 0 then u * q else u * q + u;
  }

  lemma EvenMultiple(u: nat, q: nat)
    requires u >= 1
    ensures (if q % 2 == 0 then u * q else u * q + u) % (2 * u) == 0
  {
    var half := (q + 1) / 2;
    if q % 2 == 0 {
      assert q == 2 * half;
      Doubling(u, half);
      DivisionIs(u * q, 2 * u, half, 0);
    } else {
      assert q + 1 == 2 * half;
      Doubling(u, half);
      assert u * q + u == u * (q + 1);
      DivisionIs(u * q + u, 2 * u, half, 0);
    }
  }

  lemma Doubling(u: nat, half: nat)
    ensures u * (2 * half) == (2 * u) * half
  {
  }
}
