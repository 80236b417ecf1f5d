/**
 * The 32-bit signed bitwise operators of JavaScript (ECMA-262, section 6.1.6.1), on the integers that
 * represent their operands in two's complement.
 */
module Int32 {
  import opened Arithmetic

  /** ToInt32: the residue modulo 2^32 that lies in [-2^31, 2^31). */
  function ToInt32(n: int): (r: int)
    ensures -0x8000_0000 <= r < 0x8000_0000
    ensures (n - r) % 0x1_0000_0000 == 0
  {
    var m := n % 0x1_0000_0000;
    if m >= 0x8000_0000 then m - 0x1_0000_0000 else m
  }

  lemma ToInt32Periodic(n: int, k: int)
    ensures ToInt32(n + k * 0x1_0000_0000) == ToInt32(n)
  {}

  function ShiftLeft(x: int, k: nat): int {
    ToInt32(x * Pow2(k))
  }

  lemma ShiftLeftIs(x: nat, k: nat, p: nat)
    requires Pow2(k) == p && x * p < 0x8000_0000
    ensures ShiftLeft(x, k) == x * p
  {
    assert 0 <= x * p;
  }

  /** The arithmetic shift: two's complement makes it a division rounding down. */
  function ShiftRight(x: int, k: nat): int {
    x / Pow2(k)
  }

  function Magnitude(x: int): nat {
    if x < 0 then -x else x
  }

  /** Bitwise or, bit by bit from the lowest, until only sign bits are left. */
  function Or(x: int, y: int): int
    decreases Magnitude(x) + Magnitude(y)
  {
    if -1 <= x <= 0 && -1 <= y <= 0 then (if x < 0 || y < 0 then -1 else 0)
    else 2 * Or(x / 2, y / 2) + (if x % 2 == 1 || y % 2 == 1 then 1 else 0)
  }

  function And(x: int, y: int): int
    decreases Magnitude(x) + Magnitude(y)
  {
    if -1 <= x <= 0 && -1 <= y <= 0 then (if x < 0 && y < 0 then -1 else 0)
    else 2 * And(x / 2, y / 2) + (if x % 2 == 1 && y % 2 == 1 then 1 else 0)
  }

  lemma {:induction false} OrZero(x: int)
    ensures Or(x, 0) == x
    decreases Magnitude(x)
  {
    if x < -1 || x > 0 {
      OrZero(x / 2);
    }
  }

  /** Or-ing a value into bits that are still zero adds it. */
  lemma {:induction false} OrFillsLowBits(x: int, v: int, k: nat)
    requires 0 <= v < Pow2(k) && x % Pow2(k) == 0
    ensures Or(x, v) == x + v
    decreases k
  {
    if k == 0 {
      OrZero(x);
    } else {
      HalveMod(x, Pow2(k - 1));
      OrFillsLowBits(x / 2, v / 2, k - 1);
    }
  }

  lemma {:induction false} AndZero(x: int)
    ensures And(x, 0) == 0
    decreases Magnitude(x)
  {
    if x < -1 || x > 0 {
      AndZero(x / 2);
    }
  }

  /** And-ing with 2^k - 1 keeps the residue modulo 2^k. */
  lemma {:induction false} AndMask(x: int, k: nat)
    ensures And(x, Pow2(k) - 1) == x % Pow2(k)
    decreases k
  {
    if k == 0 {
      AndZero(x);
    } else {
      AndMask(x / 2, k - 1);
      AndMaskStep(x, Pow2(k - 1));
    }
  }

  lemma AndMaskStep(x: int, p: nat)
    requires p > 0 && And(x / 2, p - 1) == x / 2 % p
    ensures And(x, 2 * p - 1) == x % (2 * p)
  {
    hide And;
    HalveMod(x, p);
    AndOdd(x, p - 1);
  }

  lemma AndOdd(x: int, m: nat)
    ensures And(x, 2 * m + 1) == 2 * And(x / 2, m) + x % 2
  {
    assert (2 * m + 1) / 2 == m && (2 * m + 1) % 2 == 1;
  }
}
