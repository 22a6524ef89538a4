/**
  * Masked access to a field inside an unsigned value (Core.h).
  * T is a w-bit unsigned type and R an rw-bit one.
  */
module BitFields {
  import opened Bits

  function DecodeBits(rw: nat, value: nat, mask: nat, shift: nat): nat {
    Trunc(rw, Shr(And(value, mask), shift))
  }

  function EncodeBits(w: nat, value: nat, insert: nat, mask: nat, shift: nat): nat {
    Or(And(value, Compl(w, mask)), And(Shl(w, Trunc(w, insert), shift), mask))
  }

  /** What a write stores, bit by bit. */
  lemma WrittenBit(w: nat, value: nat, insert: nat, mask: nat, shift: nat, i: nat)
    requires value < Pow2(w) && mask < Pow2(w)
    ensures Bit(EncodeBits(w, value, insert, mask, shift), i)
         == if Bit(mask, i) then shift <= i && Bit(insert, i - shift) else Bit(value, i)
  {
    AndBit(value, Compl(w, mask), i);
    ComplBit(w, mask, i);
    var moved := Shl(w, Trunc(w, insert), shift);
    AndBit(moved, mask, i);
    OrBit(And(value, Compl(w, mask)), And(moved, mask), i);
    ShlBit(w, Trunc(w, insert), shift, i);
    if shift <= i { TruncBit(w, insert, i - shift); }
    FitsIffBitsWithin(w, value);
    FitsIffBitsWithin(w, mask);
  }

  /** What a read returns, bit by bit. */
  lemma ReadBit(rw: nat, value: nat, mask: nat, shift: nat, i: nat)
    ensures Bit(DecodeBits(rw, value, mask, shift), i)
         == (i < rw && Bit(value, i + shift) && Bit(mask, i + shift))
  {
    TruncBit(rw, Shr(And(value, mask), shift), i);
    ShrBit(And(value, mask), shift, i);
    AndBit(value, mask, i + shift);
  }

  /** A write stays inside the w-bit type and leaves every bit outside the mask alone. */
  lemma OutsideSurvives(w: nat, value: nat, insert: nat, mask: nat, shift: nat)
    requires value < Pow2(w) && mask < Pow2(w)
    ensures EncodeBits(w, value, insert, mask, shift) < Pow2(w)
    ensures And(EncodeBits(w, value, insert, mask, shift), Compl(w, mask)) == And(value, Compl(w, mask))
  {
    var out := EncodeBits(w, value, insert, mask, shift);
    var was, now := And(value, Compl(w, mask)), And(out, Compl(w, mask));
    FitsIffBitsWithin(w, value);
    FitsIffBitsWithin(w, mask);
    FitsIffBitsWithin(w, out);
    forall i: nat ensures (Bit(out, i) ==> i < w) && Bit(now, i) == Bit(was, i) {
      OutsideBit(w, value, insert, mask, shift, i);
    }
    hide Bit, And, Compl, EncodeBits, Pow2;
    SameBits(now, was);
  }

  lemma OutsideBit(w: nat, value: nat, insert: nat, mask: nat, shift: nat, i: nat)
    requires value < Pow2(w) && mask < Pow2(w) && BitsWithin(value, 0, w) && BitsWithin(mask, 0, w)
    ensures var out := EncodeBits(w, value, insert, mask, shift);
            && (Bit(out, i) ==> i < w)
            && Bit(And(out, Compl(w, mask)), i) == Bit(And(value, Compl(w, mask)), i)
  {
    hide Bit, And, Compl, EncodeBits, Pow2;
    var out := EncodeBits(w, value, insert, mask, shift);
    WrittenBit(w, value, insert, mask, shift, i);
    AndBit(out, Compl(w, mask), i);
    AndBit(value, Compl(w, mask), i);
    ComplBit(w, mask, i);
  }

  /** A later write to the same field overrides an earlier one. */
  lemma LastWriteWins(w: nat, value: nat, first: nat, second: nat, mask: nat, shift: nat)
    requires value < Pow2(w) && mask < Pow2(w)
    ensures EncodeBits(w, EncodeBits(w, value, first, mask, shift), second, mask, shift)
         == EncodeBits(w, value, second, mask, shift)
  {
    var once := EncodeBits(w, value, first, mask, shift);
    OutsideSurvives(w, value, first, mask, shift);
    hide *;
    forall i: nat ensures Bit(EncodeBits(w, once, second, mask, shift), i)
                       == Bit(EncodeBits(w, value, second, mask, shift), i) {
      WrittenBit(w, value, first, mask, shift, i);
      WrittenBit(w, once, second, mask, shift, i);
      WrittenBit(w, value, second, mask, shift, i);
    }
    SameBits(EncodeBits(w, once, second, mask, shift), EncodeBits(w, value, second, mask, shift));
  }

  /** Writes to fields with disjoint masks commute. */
  lemma DisjointWritesCommute(w: nat, value: nat, a: nat, maskA: nat, shiftA: nat, b: nat, maskB: nat, shiftB: nat)
    requires value < Pow2(w) && maskA < Pow2(w) && maskB < Pow2(w)
    requires And(maskA, maskB) == 0
    ensures EncodeBits(w, EncodeBits(w, value, a, maskA, shiftA), b, maskB, shiftB)
         == EncodeBits(w, EncodeBits(w, value, b, maskB, shiftB), a, maskA, shiftA)
  {
    var va := EncodeBits(w, value, a, maskA, shiftA);
    var vb := EncodeBits(w, value, b, maskB, shiftB);
    OutsideSurvives(w, value, a, maskA, shiftA);
    OutsideSurvives(w, value, b, maskB, shiftB);
    hide *;
    forall i: nat ensures Bit(EncodeBits(w, va, b, maskB, shiftB), i) == Bit(EncodeBits(w, vb, a, maskA, shiftA), i) {
      AndBit(maskA, maskB, i);
      ZeroBit(i);
      WrittenBit(w, value, a, maskA, shiftA, i);
      WrittenBit(w, value, b, maskB, shiftB, i);
      WrittenBit(w, va, b, maskB, shiftB, i);
      WrittenBit(w, vb, a, maskA, shiftA, i);
    }
    SameBits(EncodeBits(w, va, b, maskB, shiftB), EncodeBits(w, vb, a, maskA, shiftA));
  }

  /** Reading a field just written gives back the insert exactly when it fits the shifted mask. */
  lemma ReadAfterWrite(w: nat, rw: nat, value: nat, insert: nat, mask: nat, shift: nat)
    requires value < Pow2(w) && mask < Pow2(w) && insert < Pow2(rw)
    ensures DecodeBits(rw, EncodeBits(w, value, insert, mask, shift), mask, shift) == insert
       <==> And(insert, Shr(mask, shift)) == insert
  {
    var out := EncodeBits(w, value, insert, mask, shift);
    var back, kept := DecodeBits(rw, out, mask, shift), And(insert, Shr(mask, shift));
    FitsIffBitsWithin(rw, insert);
    forall i: nat ensures Bit(back, i) == Bit(kept, i) { ReadBackBit(w, rw, value, insert, mask, shift, i); }
    hide *;
    SameBits(back, kept);
  }

  lemma ReadBackBit(w: nat, rw: nat, value: nat, insert: nat, mask: nat, shift: nat, i: nat)
    requires value < Pow2(w) && mask < Pow2(w) && BitsWithin(insert, 0, rw)
    ensures Bit(DecodeBits(rw, EncodeBits(w, value, insert, mask, shift), mask, shift), i)
         == Bit(And(insert, Shr(mask, shift)), i)
  {
    hide Bit, And, Shr, EncodeBits, DecodeBits, Pow2;
    WrittenBit(w, value, insert, mask, shift, i + shift);
    ReadBit(rw, EncodeBits(w, value, insert, mask, shift), mask, shift, i);
    AndBit(insert, Shr(mask, shift), i);
    ShrBit(mask, shift, i);
  }

  /** Writing back what was just read changes nothing, whatever the value. */
  ghost predicate RewriteIsIdentity(w: nat, rw: nat, mask: nat, shift: nat) {
    forall value: nat :: value < Pow2(w) ==>
      EncodeBits(w, value, DecodeBits(rw, value, mask, shift), mask, shift) == value
  }

  /**
    * Writing back what was read is the identity on every value exactly when the
    * mask has no bit below the shift and R can hold the shifted mask.
    */
  lemma WriteAfterRead(w: nat, rw: nat, mask: nat, shift: nat)
    requires mask < Pow2(w)
    ensures RewriteIsIdentity(w, rw, mask, shift)
       <==> mask % Pow2(shift) == 0 && mask / Pow2(shift) < Pow2(rw)
  {
    StrayBits(rw, mask, shift);
    hide *;
    if BitsWithin(mask, shift, shift + rw) {
      IdentityIfWithin(w, rw, mask, shift);
    } else if RewriteIsIdentity(w, rw, mask, shift) {
      WithinIfIdentity(w, rw, mask, shift);
      assert false;
    }
  }

  /** What a field holds after what was read from it is written back. */
  lemma RewrittenBit(w: nat, rw: nat, value: nat, mask: nat, shift: nat, i: nat)
    requires value < Pow2(w) && mask < Pow2(w)
    ensures Bit(EncodeBits(w, value, DecodeBits(rw, value, mask, shift), mask, shift), i)
         == (Bit(value, i) && (Bit(mask, i) ==> shift <= i < shift + rw))
  {
    hide Bit, EncodeBits, DecodeBits, Pow2;
    WrittenBit(w, value, DecodeBits(rw, value, mask, shift), mask, shift, i);
    if shift <= i { ReadBit(rw, value, mask, shift, i - shift); }
  }

  lemma IdentityIfWithin(w: nat, rw: nat, mask: nat, shift: nat)
    requires mask < Pow2(w) && BitsWithin(mask, shift, shift + rw)
    ensures RewriteIsIdentity(w, rw, mask, shift)
  {
    hide Bit, EncodeBits, DecodeBits, Pow2;
    forall value: nat | value < Pow2(w)
      ensures EncodeBits(w, value, DecodeBits(rw, value, mask, shift), mask, shift) == value
    {
      var out := EncodeBits(w, value, DecodeBits(rw, value, mask, shift), mask, shift);
      forall i: nat ensures Bit(out, i) == Bit(value, i) { RewrittenBit(w, rw, value, mask, shift, i); }
      SameBits(out, value);
    }
  }

  /** The mask itself is a value that loses its stray bits. */
  lemma WithinIfIdentity(w: nat, rw: nat, mask: nat, shift: nat)
    requires mask < Pow2(w) && RewriteIsIdentity(w, rw, mask, shift)
    ensures BitsWithin(mask, shift, shift + rw)
  {
    hide Bit, EncodeBits, DecodeBits, Pow2;
    assert EncodeBits(w, mask, DecodeBits(rw, mask, mask, shift), mask, shift) == mask;
    forall i: nat | Bit(mask, i) ensures shift <= i < shift + rw { RewrittenBit(w, rw, mask, mask, shift, i); }
  }

  /** "No bit below the shift and R holds the rest", as arithmetic on the mask. */
  lemma StrayBits(rw: nat, mask: nat, shift: nat)
    ensures BitsWithin(mask, shift, shift + rw)
       <==> mask % Pow2(shift) == 0 && mask / Pow2(shift) < Pow2(rw)
  {
    TruncIsMod(shift, mask);
    ShrIsDiv(mask, shift);
    FitsIffBitsWithin(rw, Shr(mask, shift));
    hide Bit, Trunc, Shr, Pow2, BitsWithin;
    LowBitsClear(mask, shift);
    SplitWithin(rw, mask, shift);
  }

  ghost predicate NoBitBelow(x: nat, lo: nat) {
    forall i: nat :: Bit(x, i) ==> lo <= i
  }

  lemma LowBitsClear(mask: nat, shift: nat)
    ensures Trunc(shift, mask) == 0 <==> NoBitBelow(mask, shift)
  {
    hide Bit, Trunc;
    if NoBitBelow(mask, shift) {
      forall i: nat ensures Bit(Trunc(shift, mask), i) == Bit(0, i) {
        TruncBit(shift, mask, i);
        ZeroBit(i);
      }
      SameBits(Trunc(shift, mask), 0);
    } else {
      var i: nat :| Bit(mask, i) && i < shift;
      TruncBit(shift, mask, i);
      ZeroBit(i);
    }
  }

  lemma SplitWithin(rw: nat, mask: nat, shift: nat)
    ensures BitsWithin(mask, shift, shift + rw) <==> BitsWithin(Shr(mask, shift), 0, rw) && NoBitBelow(mask, shift)
  {
    hide Bit, Shr;
    if BitsWithin(mask, shift, shift + rw) {
      forall i: nat | Bit(Shr(mask, shift), i) ensures i < rw { ShrBit(mask, shift, i); }
    } else if BitsWithin(Shr(mask, shift), 0, rw) && NoBitBelow(mask, shift) {
      forall i: nat | Bit(mask, i) ensures shift <= i < shift + rw { ShrBit(mask, shift, i - shift); }
      assert false;
    }
  }
}
