/**
 * Powers of two, base-2 logarithms and the integer division facts that the
 * sort's index arithmetic (bit tests, bit flips, slot offsets) rests on.
 */
module PowersOfTwo {

  function Pow2(e: nat): (r: nat)
    ensures r >= 1
  {
    if e == 0 then 1 else 2 * Pow2(e - 1)
  }

  predicate IsPow2(n: nat)
  {
    if n <= 1 then n == 1 else n % 2 == 0 && IsPow2(n / 2)
  }

  /** log2 of a power of two. */
  function Log2(n: nat): (e: nat)
    requires IsPow2(n)
    ensures Pow2(e) == n
  {
    if n == 1 then 0 else 1 + Log2(n / 2)
  }

  /** floor(log2(g)): the exponent of the largest power of two not above g. */
  function Log2Floor(g: nat): (e: nat)
    requires g >= 1
    ensures Pow2(e) <= g < 2 * Pow2(e)
  {
    if g == 1 then 0 else 1 + Log2Floor(g / 2)
  }

  lemma {:induction false} Log2OfPow2(e: nat)
    ensures IsPow2(Pow2(e)) && Log2(Pow2(e)) == e
  {
    Pow2IsPow2(e);
    if e > 0 {
      Log2OfPow2(e - 1);
      assert Pow2(e) / 2 == Pow2(e - 1);
    }
  }

  lemma {:induction false} Pow2IsPow2(e: nat)
    ensures IsPow2(Pow2(e))
  {
    if e > 0 {
      Pow2IsPow2(e - 1);
    }
  }

  lemma {:induction false} Pow2Add(p: nat, q: nat)
    ensures Pow2(p + q) == Pow2(p) * Pow2(q)
  {
    if p > 0 {
      Pow2Add(p - 1, q);
    }
  }

  lemma {:induction false} Pow2Monotone(p: nat, q: nat)
    requires p <= q
    ensures Pow2(p) <= Pow2(q)
  {
    if p < q {
      Pow2Monotone(p, q - 1);
    }
  }

  /** Among powers of two the smaller divides the larger. */
  lemma Pow2Divides(a: nat, b: nat)
    requires IsPow2(a) && IsPow2(b) && a <= b
    ensures b % a == 0
  {
    var p, q := Log2(a), Log2(b);
    if q < p {
      Pow2Monotone(q + 1, p);
    }
    Pow2Add(p, q - p);
    DivAddMul(0, a, Pow2(q - p));
  }

  /** A power of two above 1 is twice a power of two. */
  lemma Pow2Half(n: nat)
    requires IsPow2(n)
    ensures n == 1 || (n == 2 * (n / 2) && IsPow2(n / 2))
  {
  }

  lemma ModSelf(d: nat)
    requires d > 0
    ensures d % d == 0 && 0 % d == 0
  {
    DivUnique(d, d, 1, 0);
    DivUnique(0, d, 0, 0);
  }

  lemma Pow2Double(n: nat)
    requires IsPow2(n)
    ensures IsPow2(2 * n)
  {
  }

  /** A power of two in [a, 2a) for a power of two a is a itself. */
  lemma Pow2Between(a: nat, b: nat)
    requires IsPow2(a) && IsPow2(b) && a <= b < 2 * a
    ensures a == b
  {
    Pow2Divides(a, b);
    var q := b / a;
    if q >= 2 {
      MulMonotone(a, 2, q);
      assert false;
    }
    if q == 0 {
      assert false;
    }
  }

  lemma MulAtLeast(d: int, m: int)
    requires d > 0 && m >= 1
    ensures d * m >= d
  {
  }

  lemma MulMonotone(d: int, a: int, b: int)
    requires d > 0 && a <= b
    ensures d * a <= d * b
  {
    if a < b {
      MulAtLeast(d, b - a);
    }
  }

  lemma DivUnique(x: int, d: int, q: int, r: int)
    requires d > 0 && 0 <= r < d && x == d * q + r
    ensures x / d == q && x % d == r
  {
    var q', r' := x / d, x % d;
    if q' > q {
      MulAtLeast(d, q' - q);
    } else if q' < q {
      MulAtLeast(d, q - q');
    }
  }

  lemma DivAddMul(x: nat, d: nat, c: nat)
    requires d > 0
    ensures (x + d * c) / d == x / d + c && (x + d * c) % d == x % d
  {
    DivUnique(x + d * c, d, x / d + c, x % d);
  }

  lemma DivShift(x: nat, d: nat, t: nat)
    requires d > 0 && x % d + t < d
    ensures (x + t) / d == x / d && (x + t) % d == x % d + t
  {
    DivUnique(x + t, d, x / d, x % d + t);
  }

  /** A multiple of 2j is a multiple of j. */
  lemma ModHalf(n: nat, j: nat)
    requires j > 0 && n % (2 * j) == 0
    ensures n % j == 0
  {
    DivUnique(n, j, 2 * (n / (2 * j)), 0);
  }
}
