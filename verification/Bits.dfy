/**
 * An unbounded bit stream: numbers spelled out as bits, most significant first, and bits regrouped into
 * numbers. It is the reference the 32-bit accumulators of the codec are compared with.
 */
module Bits {
  import opened Arithmetic
  import opened Collections

  /** The number a bit string denotes. */
  function Value(bits: seq<bool>): (v: nat)
    ensures v < Pow2(|bits|)
  {
    if bits == [] then 0
    else 2 * Value(bits[..|bits| - 1]) + (if bits[|bits| - 1] then 1 else 0)
  }

  /** The `width` low bits of a number. */
  function BitsOf(v: nat, width: nat): (bits: seq<bool>)
    ensures |bits| == width
  {
    if width == 0 then [] else BitsOf(v / 2, width - 1) + [v % 2 == 1]
  }

  /** Every value in `width` bits, one after the other. */
  function Spell(values: seq<nat>, width: nat): seq<bool> {
    if values == [] then [] else BitsOf(values[0], width) + Spell(values[1..], width)
  }

  /** The bits cut into values of `width` bits; fewer than `width` left over are dropped. */
  function Group(bits: seq<bool>, width: nat): (values: seq<nat>)
    requires width > 0
    ensures forall i :: 0 <= i < |values| ==> values[i] < Pow2(width)
  {
    if |bits| < width then [] else [Value(bits[..width])] + Group(bits[width..], width)
  }

  function Zeros(n: nat): (bits: seq<bool>)
    ensures |bits| == n && forall i :: 0 <= i < n ==> !bits[i]
  {
    seq(n, i => false)
  }

  lemma {:induction false} ValueOfBits(v: nat, width: nat)
    requires v < Pow2(width)
    ensures Value(BitsOf(v, width)) == v
  {
    if width > 0 {
      ValueOfBits(v / 2, width - 1);
      assert BitsOf(v, width)[..width - 1] == BitsOf(v / 2, width - 1);
    }
  }

  lemma {:induction false} BitsOfValue(bits: seq<bool>)
    ensures BitsOf(Value(bits), |bits|) == bits
  {
    if bits != [] {
      BitsOfValue(bits[..|bits| - 1]);
    }
  }

  lemma {:induction false} ValueAppend(a: seq<bool>, b: seq<bool>)
    ensures Value(a + b) == Value(a) * Pow2(|b|) + Value(b)
  {
    if b == [] {
      assert a + b == a;
    } else {
      var b' := b[..|b| - 1];
      assert (a + b)[..|a + b| - 1] == a + b';
      ValueAppend(a, b');
      Doubles(Value(a), Pow2(|b'|));
    }
  }

  lemma Doubles(x: int, y: int)
    ensures x * (2 * y) == 2 * (x * y)
  {}

  /** Shifting away the bits from j on and masking what is before i leaves exactly the bits i..j. */
  lemma ValueSlice(bits: seq<bool>, i: nat, j: nat)
    requires i <= j <= |bits|
    ensures Value(bits) / Pow2(|bits| - j) % Pow2(j - i) == Value(bits[i..j])
  {
    var a, m, c := bits[..i], bits[i..j], bits[j..];
    ThreeParts(bits, i, j);
    ValueOfMiddle(a, m, c, Pow2(|c|), Pow2(|m|));
  }

  lemma ValueOfMiddle(a: seq<bool>, m: seq<bool>, c: seq<bool>, p: nat, q: nat)
    requires p == Pow2(|c|) && q == Pow2(|m|)
    ensures Value(a + m + c) / p % q == Value(m)
  {
    ValueDivides(a + m, c, a + m + c, p);
    ValueDivides(a, m, a + m, q);
  }

  lemma ValueDivides(a: seq<bool>, b: seq<bool>, whole: seq<bool>, p: nat)
    requires whole == a + b && p == Pow2(|b|)
    ensures Value(whole) / p == Value(a) && Value(whole) % p == Value(b)
  {
    ValueAppend(a, b);
    DivModUnique(Value(whole), p, Value(a), Value(b));
  }

  lemma {:induction false} SpellAppend(a: seq<nat>, b: seq<nat>, width: nat)
    ensures Spell(a + b, width) == Spell(a, width) + Spell(b, width)
  {
    if a == [] {
      assert a + b == b;
    } else {
      assert (a + b)[1..] == a[1..] + b;
      SpellAppend(a[1..], b, width);
    }
  }

  /** n is a whole number of groups of `width`. */
  predicate Whole(n: nat, width: nat)
    requires width > 0
  {
    n == 0 || (n >= width && Whole(n - width, width))
  }

  lemma {:induction false} GroupAppend(a: seq<bool>, b: seq<bool>, width: nat)
    requires width > 0 && Whole(|a|, width)
    ensures Group(a + b, width) == Group(a, width) + Group(b, width)
  {
    if a == [] {
      assert a + b == b;
    } else {
      assert (a + b)[..width] == a[..width] && (a + b)[width..] == a[width..] + b;
      GroupAppend(a[width..], b, width);
    }
  }

  /** Cutting is undone by spelling, when nothing is left over. */
  lemma {:induction false} SpellGroup(bits: seq<bool>, width: nat)
    requires width > 0 && Whole(|bits|, width)
    ensures Spell(Group(bits, width), width) == bits
  {
    hide Value, BitsOf;
    if bits != [] {
      BitsOfValue(bits[..width]);
      SpellGroup(bits[width..], width);
      assert bits == bits[..width] + bits[width..];
    }
  }

  /** Spelling is undone by cutting, whatever shorter tail follows. */
  lemma {:induction false} GroupSpell(values: seq<nat>, tail: seq<bool>, width: nat)
    requires |tail| < width && forall i :: 0 <= i < |values| ==> values[i] < Pow2(width)
    ensures Group(Spell(values, width) + tail, width) == values
  {
    if values != [] {
      var rest := Spell(values[1..], width) + tail;
      assert Spell(values, width) + tail == BitsOf(values[0], width) + rest;
      ValueOfBits(values[0], width);
      GroupSpell(values[1..], tail, width);
      assert (Spell(values, width) + tail)[..width] == BitsOf(values[0], width);
      assert (Spell(values, width) + tail)[width..] == rest;
    }
  }

  lemma {:induction false} BitsOfZero(width: nat)
    ensures BitsOf(0, width) == Zeros(width)
  {
    if width > 0 {
      BitsOfZero(width - 1);
    }
  }

  /** The complete groups, and the tail too short to make another. */
  lemma {:induction false} GroupTail(bits: seq<bool>, width: nat)
    requires width > 0
    ensures var spelled := Spell(Group(bits, width), width);
      |spelled| <= |bits| < |spelled| + width && spelled == bits[..|spelled|]
  {
    if |bits| >= width {
      GroupTail(bits[width..], width);
      BitsOfValue(bits[..width]);
      assert bits == bits[..width] + bits[width..];
    }
  }

  lemma {:induction false} WholeSpelled(values: seq<nat>, width: nat)
    requires width > 0
    ensures Whole(|Spell(values, width)|, width)
  {
    if values != [] {
      WholeSpelled(values[1..], width);
    }
  }
}
