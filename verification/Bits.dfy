/**
  * Bitwise operations on unsigned integers of any width, as operations on
  * natural numbers.  A w-bit unsigned integer is a natural number below Pow2(w);
  * the operators below are what C++ computes on such operands.
  */
module Bits {

  function Pow2(n: nat): (p: nat)
    ensures p >= 1
  {
    if n == 0 then 1 else 2 * Pow2(n - 1)
  }

  /** Bit i of x. */
  predicate Bit(x: nat, i: nat) {
    if i == 0 then x % 2 == 1 else Bit(x / 2, i - 1)
  }

  function And(a: nat, b: nat): nat {
    if a == 0 then 0 else (a % 2) * (b % 2) + 2 * And(a / 2, b / 2)
  }

  function Or(a: nat, b: nat): nat
    decreases a + b
  {
    if a == 0 then b else if b == 0 then a
    else (if a % 2 == 1 || b % 2 == 1 then 1 else 0) + 2 * Or(a / 2, b / 2)
  }

  /** The conversion of x to a w-bit unsigned type. */
  function Trunc(w: nat, x: nat): nat {
    if w == 0 then 0 else x % 2 + 2 * Trunc(w - 1, x / 2)
  }

  /** The complement ~x in a w-bit unsigned type. */
  function Compl(w: nat, x: nat): nat {
    if w == 0 then 0 else (1 - x % 2) + 2 * Compl(w - 1, x / 2)
  }

  /** x >> k */
  function Shr(x: nat, k: nat): nat {
    if k == 0 then x else Shr(x / 2, k - 1)
  }

  /** x << k in a w-bit unsigned type: bits shifted past the width are lost. */
  function Shl(w: nat, x: nat, k: nat): nat {
    Trunc(w, x * Pow2(k))
  }

  // Every operator, bit by bit.

  lemma ZeroBit(i: nat)
    ensures !Bit(0, i)
  {
    if i > 0 { ZeroBit(i - 1); }
  }

  /** The bits of a number given by its lowest bit and the rest. */
  lemma BitOfSum(d: nat, y: nat, i: nat)
    requires d < 2
    ensures Bit(d + 2 * y, i) == if i == 0 then d == 1 else Bit(y, i - 1)
  {
    Halves(d, y);
  }

  lemma Halves(d: nat, y: nat)
    requires d < 2
    ensures (d + 2 * y) % 2 == d && (d + 2 * y) / 2 == y
  {
  }

  lemma {:induction false} AndBit(a: nat, b: nat, i: nat)
    ensures Bit(And(a, b), i) == (Bit(a, i) && Bit(b, i))
  {
    ZeroBit(i);
    if a > 0 {
      BitOfSum((a % 2) * (b % 2), And(a / 2, b / 2), i);
      if i > 0 { AndBit(a / 2, b / 2, i - 1); }
    }
  }

  lemma {:induction false} OrBit(a: nat, b: nat, i: nat)
    ensures Bit(Or(a, b), i) == (Bit(a, i) || Bit(b, i))
  {
    ZeroBit(i);
    if a > 0 && b > 0 {
      BitOfSum(if a % 2 == 1 || b % 2 == 1 then 1 else 0, Or(a / 2, b / 2), i);
      if i > 0 { OrBit(a / 2, b / 2, i - 1); }
    }
  }

  lemma {:induction false} TruncBit(w: nat, x: nat, i: nat)
    ensures Bit(Trunc(w, x), i) == (i < w && Bit(x, i))
  {
    ZeroBit(i);
    if w > 0 {
      BitOfSum(x % 2, Trunc(w - 1, x / 2), i);
      if i > 0 { TruncBit(w - 1, x / 2, i - 1); }
    }
  }

  lemma {:induction false} ComplBit(w: nat, x: nat, i: nat)
    ensures Bit(Compl(w, x), i) == (i < w && !Bit(x, i))
  {
    ZeroBit(i);
    if w > 0 {
      BitOfSum(1 - x % 2, Compl(w - 1, x / 2), i);
      if i > 0 { ComplBit(w - 1, x / 2, i - 1); }
    }
  }

  lemma {:induction false} ShrBit(x: nat, k: nat, i: nat)
    ensures Bit(Shr(x, k), i) == Bit(x, i + k)
  {
    if k > 0 { ShrBit(x / 2, k - 1, i); }
  }

  lemma {:induction false} ScaleBit(x: nat, k: nat, i: nat)
    ensures Bit(x * Pow2(k), i) == (k <= i && Bit(x, i - k))
  {
    if k > 0 {
      Doubling(x, Pow2(k - 1));
      BitOfSum(0, x * Pow2(k - 1), i);
      if i > 0 { ScaleBit(x, k - 1, i - 1); }
    }
  }

  lemma ShlBit(w: nat, x: nat, k: nat, i: nat)
    ensures Bit(Shl(w, x, k), i) == (k <= i < w && Bit(x, i - k))
  {
    TruncBit(w, x * Pow2(k), i);
    ScaleBit(x, k, i);
  }

  /** A number is determined by its bits. */
  lemma {:induction false} SameBits(a: nat, b: nat)
    requires forall i: nat :: Bit(a, i) == Bit(b, i)
    ensures a == b
    decreases a + b
  {
    assert Bit(a, 0) == Bit(b, 0);
    if a + b > 0 {
      forall i: nat ensures Bit(a / 2, i) == Bit(b / 2, i) {
        assert Bit(a, i + 1) == Bit(b, i + 1);
      }
      SameBits(a / 2, b / 2);
    }
  }

  /** Every set bit of x lies in [lo, hi). */
  ghost predicate BitsWithin(x: nat, lo: nat, hi: nat) {
    forall i: nat :: Bit(x, i) ==> lo <= i < hi
  }

  /** x fits w bits exactly when no bit at or above w is set. */
  lemma FitsIffBitsWithin(w: nat, x: nat)
    ensures x < Pow2(w) <==> BitsWithin(x, 0, w)
  {
    if x < Pow2(w) {
      forall i: nat | Bit(x, i) ensures i < w {
        if w <= i { NoHighBit(w, x, i); }
      }
    } else if BitsWithin(x, 0, w) {
      forall i: nat ensures Bit(Trunc(w, x), i) == Bit(x, i) { TruncBit(w, x, i); }
      SameBits(Trunc(w, x), x);
      SplitAt(w, x);
      assert false;
    }
  }

  lemma {:induction false} NoHighBit(w: nat, x: nat, i: nat)
    requires x < Pow2(w) && w <= i
    ensures !Bit(x, i)
  {
    if w == 0 { ZeroBit(i); } else { NoHighBit(w - 1, x / 2, i - 1); }
  }

  // The arithmetic meaning of the operators.

  /** Truncation and right shift are the two halves of division by Pow2(w). */
  lemma {:induction false} SplitAt(w: nat, x: nat)
    ensures Trunc(w, x) < Pow2(w)
    ensures x == Trunc(w, x) + Shr(x, w) * Pow2(w)
  {
    if w > 0 {
      SplitAt(w - 1, x / 2);
      Doubling(Shr(x, w), Pow2(w - 1));
    }
  }

  lemma Doubling(a: nat, b: nat)
    ensures a * (2 * b) == 2 * (a * b)
  {
  }

  lemma TruncIsMod(w: nat, x: nat)
    ensures Trunc(w, x) == x % Pow2(w)
  {
    SplitAt(w, x);
    DivModUnique(x, Pow2(w), Shr(x, w), Trunc(w, x));
  }

  lemma ShrIsDiv(x: nat, k: nat)
    ensures Shr(x, k) == x / Pow2(k)
  {
    SplitAt(k, x);
    DivModUnique(x, Pow2(k), Shr(x, k), Trunc(k, x));
  }

  lemma DivModUnique(x: nat, d: nat, q: nat, r: nat)
    requires d > 0 && x == q * d + r && r < d
    ensures x / d == q && x % d == r
  {
    assert x == x / d * d + x % d;
    assert (x / d - q) * d == r - x % d by { assert (x / d - q) * d == x / d * d - q * d; }
    MultiplesAreSpaced(x / d - q, d);
  }

  lemma MultiplesAreSpaced(e: int, d: int)
    requires d > 0
    ensures e >= 1 ==> e * d >= d
    ensures e <= -1 ==> e * d <= -d
  {
  }

  /** Joining a high part to a low part with << and | adds them. */
  lemma {:induction false} OrOfDisjoint(low: nat, high: nat, k: nat)
    requires low < Pow2(k)
    ensures Or(high * Pow2(k), low) == low + high * Pow2(k)
    ensures Or(low, high * Pow2(k)) == low + high * Pow2(k)
  {
    hide *;
    if k == 0 {
      OrWithNothing(low, high);
    } else {
      HalfOfScaled(low, high, k);
      OrOfDisjoint(low / 2, high, k - 1);
      OrOneBitUp(low, high * Pow2(k - 1));
    }
  }

  lemma {:induction false} OrWithNothing(low: nat, high: nat)
    requires low < Pow2(0)
    ensures low == 0 && high * Pow2(0) == high
    ensures Or(high, 0) == high && Or(0, high) == high
  {
  }

  lemma HalfOfScaled(low: nat, high: nat, k: nat)
    requires k > 0 && low < Pow2(k)
    ensures high * Pow2(k) == 2 * (high * Pow2(k - 1)) && low / 2 < Pow2(k - 1)
  {
    Doubling(high, Pow2(k - 1));
  }

  lemma {:induction false} OrOneBitUp(low: nat, h: nat)
    requires Or(h, low / 2) == Or(low / 2, h) == low / 2 + h
    ensures Or(2 * h, low) == Or(low, 2 * h) == low + 2 * h
  {
    hide Or;
    OrOfEven(h, low);
  }

  lemma {:induction false} OrOfEven(h: nat, low: nat)
    ensures Or(2 * h, low) == low % 2 + 2 * Or(h, low / 2)
    ensures Or(low, 2 * h) == low % 2 + 2 * Or(low / 2, h)
  {
    Halves(0, h);
  }
}
