/** Division facts shared by the other modules. */
module Arith {

  function Pow2(k: nat): nat {
    if k == 0 then 1 else 2 * Pow2(k - 1)
  }

  lemma Pow2Positive(k: nat)
    ensures Pow2(k) > 0
  {
  }

  /** Bit `k` of `w` is set. */
  predicate HasBit(w: nat, k: nat) {
    Pow2Positive(k);
    w / Pow2(k) % 2 == 1
  }

  lemma {:induction false} Pow2Sum(a: nat, b: nat)
    ensures Pow2(a + b) == Pow2(a) * Pow2(b)
  {
    if a > 0 {
      Pow2Sum(a - 1, b);
      assert Pow2(a + b) == 2 * Pow2(a - 1 + b);
      assert 2 * (Pow2(a - 1) * Pow2(b)) == (2 * Pow2(a - 1)) * Pow2(b);
    }
  }

  lemma Distribute(p: nat, t: nat, a: nat, b: nat)
    requires t < b
    ensures (p * b + t) * a == p * (a * b) + t * a && t * a + a <= a * b
  {
    assert (p * b) * a == p * (a * b);
    assert (t + 1) * a <= b * a;
  }

  lemma DivDiv(n: nat, a: nat, b: nat)
    requires a > 0 && b > 0
    ensures a * b > 0 && n / (a * b) == n / a / b
  {
    Quotient(n, a, n / a / b * b + n / a % b);
    Distribute(n / a / b, n / a % b, a, b);
    DivModUnique(n / a / b, n / a % b * a + n % a, a * b, n);
  }

  lemma Quotient(n: nat, a: nat, q: nat)
    requires a > 0 && q == n / a
    ensures n == q * a + n % a && n % a < a
  {
  }

  lemma HasBitIs(n: nat, k: nat, d: nat)
    requires d == Pow2(k)
    ensures d > 0 && (HasBit(n, k) <==> n / d % 2 == 1)
  {
    Pow2Positive(k);
  }

  /** The bits of a number from `a` on are those of its quotient by 2^a. */
  lemma BitAbove(n: nat, a: nat, k: nat, q: nat)
    requires Pow2(a) > 0 && q == n / Pow2(a)
    ensures HasBit(n, a + k) <==> HasBit(q, k)
  {
    hide Pow2, HasBit;
    var x, y, d := Pow2(a), Pow2(k), Pow2(a + k);
    Pow2Sum(a, k);
    HasBitIs(n, a + k, d);
    HasBitIs(q, k, y);
    DivDiv(n, x, y);
  }

  lemma Pow2Table()
    ensures Pow2(0) == 1 && Pow2(1) == 2 && Pow2(2) == 4 && Pow2(3) == 8 && Pow2(4) == 16 && Pow2(5) == 32
    ensures Pow2(6) == 64 && Pow2(7) == 128 && Pow2(8) == 256 && Pow2(9) == 512 && Pow2(10) == 1024 && Pow2(11) == 2048
    ensures Pow2(12) == 4096
  {
  }

  /** Bits below a multiple of `2 * d` do not depend on it. */
  lemma BitBelow(x: nat, r: nat, d: nat, j: nat)
    requires d > 0
    ensures (x * (2 * d * j) + r) / d % 2 == r / d % 2
  {
    var y, q := x * j, r / d;
    assert x * (2 * d * j) == 2 * y * d;
    assert (2 * y + q) * d == 2 * y * d + q * d;
    DivModUnique(2 * y + q, r % d, d, x * (2 * d * j) + r);
    DivModUnique(y + q / 2, q % 2, 2, 2 * y + q);
  }

  /** The bits of a number below `a` are those of its remainder by 2^a. */
  lemma LowBits(x: nat, r: nat, a: nat, k: nat)
    requires k < a
    ensures HasBit(x * Pow2(a) + r, k) <==> HasBit(r, k)
  {
    Pow2Positive(k);
    Pow2Sum(k + 1, a - k - 1);
    BitBelow(x, r, Pow2(k), Pow2(a - k - 1));
  }

  /** A quotient and remainder are unique. */
  lemma DivModUnique(q: int, r: int, d: int, n: int)
    requires 0 <= r < d && n == q * d + r
    ensures n % d == r && n / d == q
  {
    assert (n / d - q) * d == r - n % d;
    assert -d < (n / d - q) * d < d;
    MulBetween(n / d - q, d);
  }

  lemma MulBetween(k: int, d: int)
    requires -d < k * d < d
    ensures k == 0
  {
  }

  lemma MultipleTimes(k: int, s: int, d: int)
    requires d > 0 && s % d == 0
    ensures k * s % d == 0
  {
    assert k * s == k * (s / d) * d;
    DivModUnique(k * (s / d), 0, d, k * s);
  }

  lemma MultipleSum(x: int, y: int, d: int)
    requires d > 0 && x % d == 0 && y % d == 0
    ensures (x + y) % d == 0
  {
    assert x + y == (x / d + y / d) * d;
    DivModUnique(x / d + y / d, 0, d, x + y);
  }
}
