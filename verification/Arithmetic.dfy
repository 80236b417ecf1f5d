/** Powers and the few facts about dividing by them that the codecs and the number reader need. */
module Arithmetic {

  function Pow(base: nat, e: nat): (p: nat)
    ensures base > 0 ==> p > 0
  {
    if e == 0 then 1 else base * Pow(base, e - 1)
  }

  function Pow2(e: nat): (p: nat)
    ensures p > 0
  {
    Pow(2, e)
  }

  lemma {:induction false} PowAdd(base: nat, a: nat, b: nat)
    ensures Pow(base, a + b) == Pow(base, a) * Pow(base, b)
  {
    if a > 0 {
      PowAdd(base, a - 1, b);
      MulAssociates(base, Pow(base, a - 1), Pow(base, b));
    }
  }

  lemma MulAssociates(a: int, b: int, c: int)
    ensures a * (b * c) == (a * b) * c
  {}

  lemma MulRegroups(a: int, b: int, c: int)
    ensures a * (b * c) == b * (a * c)
  {}

  lemma MulDistributes(a: int, b: int, c: int)
    ensures (a + b) * c == a * c + b * c
  {}

  lemma MulMonotone(a: int, b: int, k: int)
    requires a <= b && k >= 0
    ensures a * k <= b * k
  {}

  lemma MulAtLeast(k: int, d: int)
    requires k >= 1 && d > 0
    ensures k * d >= d
  {}

  /** A quotient and a remainder in range are the ones division yields. */
  lemma DivModUnique(n: int, d: int, q: int, r: int)
    requires d > 0 && 0 <= r < d && n == q * d + r
    ensures n / d == q && n % d == r
  {
    var q', r' := n / d, n % d;
    assert n == q' * d + r';
    assert q' * d - q * d == (q' - q) * d && (q - q') * d == q * d - q' * d;
    if q' > q {
      MulAtLeast(q' - q, d);
    } else if q' < q {
      MulAtLeast(q - q', d);
    }
  }

  lemma DivShift(x: int, d: int, j: int)
    requires d > 0
    ensures (x + d * j) / d == x / d + j
  {
    MulDistributes(x / d, j, d);
    DivModUnique(x + d * j, d, x / d + j, x % d);
  }

  /** The lowest bit splits off a residue modulo an even number. */
  lemma HalveMod(x: int, n: int)
    requires n > 0
    ensures x % (2 * n) == 2 * (x / 2 % n) + x % 2
  {
    var q, r := x / 2 / n, x / 2 % n;
    assert x / 2 == q * n + r;
    MulAssociates(q, 2, n);
    DivModUnique(x, 2 * n, q, 2 * r + x % 2);
  }

  lemma WidthPowers()
    ensures Pow2(6) == 64 && Pow2(8) == 256
  {
    assert Pow2(2) == 4 && Pow2(4) == 4 * Pow2(2) && Pow2(6) == 4 * Pow2(4) && Pow2(8) == 4 * Pow2(6);
  }

  lemma Powers()
    ensures Pow2(2) == 4 && Pow2(4) == 16 && Pow2(6) == 64 && Pow2(8) == 256
    ensures Pow2(12) == 0x1000 && Pow2(16) == 0x1_0000 && Pow2(18) == 0x4_0000
    ensures Pow2(32) == 0x1_0000_0000
  {
    assert Pow2(2) == 4 && Pow2(4) == 4 * Pow2(2) && Pow2(6) == 4 * Pow2(4) && Pow2(8) == 4 * Pow2(6);
    PowAdd(2, 6, 6);
    PowAdd(2, 8, 8);
    PowAdd(2, 12, 6);
    PowAdd(2, 16, 16);
  }
}
