/** Functions on numbers, and facts about products, quotients and remainders,
    that the modules share. */
module Arith {

  function Min(a: int, b: int): (m: int) { if a <= b then a else b }
  function Max(a: int, b: int): (m: int) { if a >= b then a else b }

  function Pow2(n: nat): (p: nat)
    ensures p >= 1
  {
    if n == 0 then 1 else 2 * Pow2(n - 1)
  }

  // The addresses from addr on.
  function Range(addr: nat, len: nat): (s: seq<nat>)
    ensures |s| == len
  {
    seq(len, i requires 0 <= i < len => addr + i)
  }

  lemma RangeJoin(addr: nat, m: nat, n: nat)
    ensures Range(addr, m) + Range(addr + m, n) == Range(addr, m + n)
  {}

  lemma ScaleUp(a: int, b: int, k: nat)
    requires a <= b
    ensures a * k <= b * k
  {}

  lemma MulAtLeast(q: int, k: int)
    requires q >= 1 && k >= 0
    ensures q * k >= k
  {
    assert (q - 1) * k >= 0;
  }

  /** A quotient and a remainder in range are the quotient and the remainder. */
  lemma DivModUnique(x: int, k: int, q: int, r: int)
    requires k > 0 && x == q * k + r && 0 <= r < k
    ensures x / k == q && x % k == r
  {
    var p, s := x / k, x % k;
    assert x == p * k + s;
    assert (q - p) * k == s - r;
    if q > p { MulAtLeast(q - p, k); }
    if p > q { MulAtLeast(p - q, k); }
  }

  lemma MulMod(q: int, k: int)
    requires k > 0
    ensures q * k % k == 0 && q * k / k == q
  {
    DivModUnique(q * k, k, q, 0);
  }

  lemma DivAtMost(x: int, k: int)
    requires k >= 1 && x >= 0
    ensures 0 <= x / k <= x
  {
    var q := x / k;
    assert x == q * k + x % k;
    if q < 0 { MulAtLeast(-q, k); }
    if q > x { MulAtLeast(k, q); }
  }

  /** Reducing before adding changes nothing. */
  lemma ModPlus(x: int, y: int, k: int)
    requires k > 0
    ensures (x % k + y) % k == (x + y) % k
  {
    var p, q := x / k, (x + y) / k;
    MulSum(q, -p, k);
    DivModUnique(x % k + y, k, q - p, (x + y) % k);
  }

  lemma MulSum(a: int, b: int, k: int)
    ensures (a + b) * k == a * k + b * k
  {}

  lemma SumMod(a: int, b: int, k: int)
    requires k > 0 && a % k == 0
    ensures (a + b * k) % k == 0
  {
    var q := a / k;
    assert a == q * k;
    MulSum(q, b, k);
    MulMod(q + b, k);
  }

  /** Reducing modulo a multiple of k keeps multiples of k. */
  lemma ModOfMod(x: int, m: int, k: int)
    requires k > 0 && m > 0 && m % k == 0 && x % k == 0
    ensures x % m % k == 0
  {
    var c, e, q := m / k, x / k, x / m;
    Multiples(x, m, k, c, e, q);
    MulMod(e - q * c, k);
  }

  lemma Multiples(x: int, m: int, k: int, c: int, e: int, q: int)
    requires m == c * k && x == e * k
    ensures x - q * m == (e - q * c) * k
  {
    assert q * (c * k) == (q * c) * k;
    MulSum(e, -(q * c), k);
  }
}
