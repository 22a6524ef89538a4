/**
  * Unsigned integers of 8, 16, 32 and 64 bits and their little-endian bytes:
  * the `build` family of MessageStream.h and the arithmetic it stands for.
  */
module LittleEndian {
  import opened Bits

  type u8 = x: int | 0 <= x < 0x100
  type u16 = x: int | 0 <= x < 0x1_0000
  type u32 = x: int | 0 <= x < 0x1_0000_0000
  type u64 = x: int | 0 <= x < 0x1_0000_0000_0000_0000
  type bytes = seq<u8>

  const MAX_U16 := 0xFFFF
  const MAX_U32 := 0xFFFF_FFFF

  /** The n low bytes of v, least significant first. */
  function LE(n: nat, v: nat): (bs: bytes)
    ensures |bs| == n
  {
    if n == 0 then [] else [v % 0x100] + LE(n - 1, v / 0x100)
  }

  /** The number whose little-endian bytes are bs. */
  function Val(bs: bytes): nat {
    if bs == [] then 0 else bs[0] + 0x100 * Val(bs[1..])
  }

  lemma Powers()
    ensures Pow2(8) == 0x100 && Pow2(16) == 0x1_0000 && Pow2(32) == 0x1_0000_0000
    ensures Pow2(64) == 0x1_0000_0000_0000_0000
  {
    assert Pow2(8) == 0x100;
    PowAdd(8, 8);
    PowAdd(16, 16);
    PowAdd(32, 32);
  }

  lemma MulAssoc(a: nat, b: nat, c: nat)
    ensures a * (b * c) == (a * b) * c
  {
  }

  lemma {:induction false} PowAdd(a: nat, b: nat)
    ensures Pow2(a + b) == Pow2(a) * Pow2(b)
  {
    if a > 0 {
      PowAdd(a - 1, b);
      MulAssoc(2, Pow2(a - 1), Pow2(b));
    }
  }

  /** n bytes hold any number below Pow2(8 * n), and give it back. */
  lemma {:induction false} ValOfLE(n: nat, v: nat)
    requires v < Pow2(8 * n)
    ensures Val(LE(n, v)) == v
  {
    if n > 0 {
      PowAdd(8, 8 * (n - 1));
      Pow8();
      assert v / 0x100 < Pow2(8 * (n - 1));
      ValOfLE(n - 1, v / 0x100);
      assert LE(n, v)[1..] == LE(n - 1, v / 0x100);
    }
  }

  lemma {:induction false} ValBound(bs: bytes)
    ensures Val(bs) < Pow2(8 * |bs|)
  {
    if bs != [] {
      ValBound(bs[1..]);
      PowAdd(8, 8 * (|bs| - 1));
      Pow8();
    }
  }

  /** Bytes are determined by their number and the value they spell. */
  lemma {:induction false} LEOfVal(bs: bytes)
    ensures LE(|bs|, Val(bs)) == bs
  {
    if bs != [] {
      LEOfVal(bs[1..]);
      ByteAndRest(bs[0], Val(bs[1..]));
    }
  }

  /** A wide integer is its low bytes followed by its shifted high bytes. */
  lemma {:induction false} LESplit(a: nat, b: nat, v: nat)
    ensures LE(a + b, v) == LE(a, v) + LE(b, Shr(v, 8 * a))
  {
    if a > 0 {
      LESplit(a - 1, b, v / 0x100);
      ShrByByte(v, a);
    }
  }

  lemma ShrByByte(v: nat, a: nat)
    requires a > 0
    ensures Shr(v, 8 * a) == Shr(v / 0x100, 8 * (a - 1))
  {
    ShrIsDiv(v, 8);
    Pow8();
    ShrShr(v, 8, 8 * (a - 1));
  }

  lemma {:induction false} ShrShr(v: nat, a: nat, b: nat)
    ensures Shr(v, a + b) == Shr(Shr(v, a), b)
  {
    if a > 0 { ShrShr(v / 2, a - 1, b); }
  }

  /** Only the low 8 * n bits reach n bytes, so a narrowing conversion is harmless. */
  lemma {:induction false} LEIgnoresHigh(n: nat, v: nat, w: nat)
    requires w >= 8 * n
    ensures LE(n, Trunc(w, v)) == LE(n, v)
  {
    if n > 0 {
      TruncByte(w, v);
      LEIgnoresHigh(n - 1, v / 0x100, w - 8);
    }
  }

  lemma TruncByte(w: nat, v: nat)
    requires w >= 8
    ensures Trunc(w, v) % 0x100 == v % 0x100
    ensures Trunc(w, v) / 0x100 == Trunc(w - 8, v / 0x100)
  {
    hide *;
    TruncSplit(8, w - 8, v);
    TruncIsMod(8, v);
    ShrIsDiv(v, 8);
    Pow8();
    ByteAndRest(v % 0x100, Trunc(w - 8, v / 0x100));
  }

  lemma ByteAndRest(b: nat, rest: nat)
    requires b < 0x100
    ensures (b + 0x100 * rest) % 0x100 == b && (b + 0x100 * rest) / 0x100 == rest
  {
  }

  lemma Pow8()
    ensures Pow2(8) == 0x100
  {
  }

  lemma {:induction false} TruncSplit(k: nat, w: nat, v: nat)
    ensures Trunc(k + w, v) == Trunc(k, v) + Trunc(w, Shr(v, k)) * Pow2(k)
  {
    if k > 0 {
      TruncSplit(k - 1, w, v / 2);
      Doubling(Trunc(w, Shr(v, k)), Pow2(k - 1));
    }
  }

  // The shift-and-or forms.

  function Build16(lower: u8, upper: u8): (r: u16)
    ensures r == Val([lower, upper])
  {
    JoinIsVal([lower], [upper]);
    Or(Shl(16, upper, 8), lower)
  }

  function Build32(lower: u16, upper: u16): (r: u32)
    ensures r == lower + 0x1_0000 * upper
  {
    Powers();
    JoinIsSum(lower, upper, 16);
    Or(Shl(32, upper, 16), lower)
  }

  function Build32From8(lowest: u8, lower: u8, high: u8, highest: u8): (r: u32)
    ensures r == Val([lowest, lower, high, highest])
  {
    hide Val, Build16, Build32;
    ValOfFour(lowest, lower, high, highest);
    Build32(Build16(lowest, lower), Build16(high, highest))
  }

  lemma ValOfFour(a: u8, b: u8, c: u8, d: u8)
    ensures Val([a, b, c, d]) == Val([a, b]) + 0x1_0000 * Val([c, d])
  {
    hide Val, Pow2;
    ValAppend([a, b], [c, d]);
    Powers();
    assert [a, b] + [c, d] == [a, b, c, d];
  }

  function Build64(lower: u32, upper: u32): (r: u64)
    ensures r == lower + 0x1_0000_0000 * upper
  {
    Powers();
    JoinIsSum(lower, upper, 32);
    Or(Shl(64, upper, 32), lower)
  }

  lemma {:induction false} JoinIsSum(lower: nat, upper: nat, k: nat)
    requires lower < Pow2(k) && upper < Pow2(k)
    ensures Or(Shl(2 * k, upper, k), lower) == lower + Pow2(k) * upper < Pow2(2 * k)
  {
    PowAdd(k, k);
    BelowSquare(lower, upper, Pow2(k));
    TruncIsMod(2 * k, upper * Pow2(k));
    SmallMod(upper * Pow2(k), Pow2(2 * k));
    OrOfDisjoint(lower, upper, k);
  }

  lemma SmallMod(x: nat, m: nat)
    requires x < m
    ensures x % m == x
  {
  }

  lemma BelowSquare(lower: nat, upper: nat, p: nat)
    requires lower < p && upper < p
    ensures upper * p <= lower + upper * p < p * p
  {
    MultiplesAreSpaced(p - upper, p);
    assert (p - upper) * p == p * p - upper * p;
  }

  lemma JoinIsVal(lower: bytes, upper: bytes)
    requires |lower| == |upper| == 1
    ensures Or(Shl(16, upper[0], 8), lower[0]) == Val([lower[0], upper[0]]) < 0x1_0000
  {
    ValOfTwo(lower[0], upper[0]);
    hide Or, Shl, Val, Pow2;
    Powers();
    JoinIsSum(lower[0], upper[0], 8);
  }

  lemma ValOfTwo(a: u8, b: u8)
    ensures Val([a, b]) == a + 0x100 * b
  {
    assert Val([b]) == b;
    assert [a, b][1..] == [b];
  }

  lemma {:induction false} ValAppend(a: bytes, b: bytes)
    ensures Val(a + b) == Val(a) + Pow2(8 * |a|) * Val(b)
  {
    if a == [] {
      assert a + b == b;
    } else {
      assert (a + b)[1..] == a[1..] + b;
      ValAppend(a[1..], b);
      PowAdd(8, 8 * (|a| - 1));
      Pow8();
      MulAssoc(0x100, Pow2(8 * (|a| - 1)), Val(b));
    }
  }

  /** Two 32-bit halves, each decoded from four bytes, make the 64-bit value of the eight. */
  lemma Build64OfHalves(lo: bytes, hi: bytes)
    requires |lo| == |hi| == 4
    ensures Val(lo) < 0x1_0000_0000 && Val(hi) < 0x1_0000_0000
    ensures Build64(Val(lo), Val(hi)) == Val(lo + hi)
  {
    ValBound(lo);
    ValBound(hi);
    Powers();
    ValAppend(lo, hi);
  }

  // Values of fixed width.

  function U8Of(bs: bytes): (v: u8)
    requires |bs| == 1
    ensures v == Val(bs)
  {
    ValBound(bs); Powers(); Val(bs)
  }

  function U16Of(bs: bytes): (v: u16)
    requires |bs| == 2
    ensures v == Val(bs)
  {
    ValBound(bs); Powers(); Val(bs)
  }

  function U32Of(bs: bytes): (v: u32)
    requires |bs| == 4
    ensures v == Val(bs)
  {
    ValBound(bs); Powers(); Val(bs)
  }

  function U64Of(bs: bytes): (v: u64)
    requires |bs| == 8
    ensures v == Val(bs)
  {
    ValBound(bs); Powers(); Val(bs)
  }

  /** Each fixed width gives back every value of its type. */
  lemma FixedWidths(a: u8, b: u16, c: u32, d: u64)
    ensures Val(LE(1, a)) == a && Val(LE(2, b)) == b && Val(LE(4, c)) == c && Val(LE(8, d)) == d
  {
    Powers();
    ValOfLE(1, a); ValOfLE(2, b); ValOfLE(4, c); ValOfLE(8, d);
  }

  /** A half-word encoder: the low half as such, the high half by shifting. */
  lemma HalvesAreLE(n: nat, v: nat)
    ensures LE(n, Trunc(8 * n, v)) + LE(n, Trunc(8 * n, Shr(v, 8 * n))) == LE(2 * n, v)
  {
    LESplit(n, n, v);
    LEIgnoresHigh(n, v, 8 * n);
    LEIgnoresHigh(n, Shr(v, 8 * n), 8 * n);
  }

  /** Four bytes cut out with shifts are the 32-bit encoding: the frame header's form. */
  lemma FourShifts(v: u32)
    ensures [Trunc(8, v), Trunc(8, Shr(v, 8)), Trunc(8, Shr(v, 16)), Trunc(8, Shr(v, 24))] == LE(4, v)
  {
    ByteOf(v, 0); ByteOf(v, 1); ByteOf(v, 2); ByteOf(v, 3);
    LESplit(1, 3, v); LESplit(2, 2, v); LESplit(3, 1, v);
  }

  lemma ByteIsItself(b: u8)
    ensures LE(1, b) == [b]
  {
    assert LE(1, b) == [b % 0x100] + LE(0, b / 0x100);
  }

  lemma TwoBytes(v: u16)
    ensures LE(2, v) == [Trunc(8, v), Trunc(8, Shr(v, 8))]
  {
    ByteOf(v, 0);
    ByteOf(v, 1);
  }

  /** Byte i of the encoding is what shifting and narrowing cut out. */
  lemma ByteOf(v: nat, i: nat)
    ensures LE(i + 1, v) == LE(i, v) + [Trunc(8, Shr(v, 8 * i))]
  {
    LESplit(i, 1, v);
    TruncIsMod(8, Shr(v, 8 * i));
    Pow8();
    var b := Shr(v, 8 * i);
    assert LE(1, b) == [b % 0x100] + LE(0, b / 0x100);
  }
}
