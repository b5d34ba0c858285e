/** The bits of a byte, by arithmetic, and what the bitwise operators do to them. */
module Bits {
  import opened Bytes

  const WEIGHTS: seq<nat> := [1, 2, 4, 8, 16, 32, 64, 128, 256]

  /** What is left of a number without its `k` lowest bits. */
  function Above(n: nat, k: nat): nat
    requires k <= 8
  {
    n / WEIGHTS[k]
  }

  predicate BitSet(x: Byte, k: nat)
    requires k < 8
  {
    Above(x, k) % 2 == 1
  }

  lemma AboveStep(n: nat, k: nat)
    requires k < 8
    ensures Above(n, k) == 2 * Above(n, k + 1) + Above(n, k) % 2
  {
    if k == 0 {
    } else if k == 1 {
    } else if k == 2 {
    } else if k == 3 {
    } else if k == 4 {
    } else if k == 5 {
    } else if k == 6 {
    } else {
    }
  }

  ghost predicate SameBits(x: Byte, y: Byte)
  {
    forall k: nat | k < 8 :: BitSet(x, k) <==> BitSet(y, k)
  }

  lemma {:induction false} SameAbove(x: Byte, y: Byte, k: nat)
    requires k <= 8 && SameBits(x, y)
    ensures Above(x, k) == Above(y, k)
    decreases 8 - k
  {
    if k < 8 {
      AboveStep(x, k);
      AboveStep(y, k);
      SameAbove(x, y, k + 1);
      hide Above;
      assert BitSet(x, k) <==> BitSet(y, k);
    }
  }

  /** A byte is its bits. */
  lemma BitsDetermine(x: Byte, y: Byte)
    requires SameBits(x, y)
    ensures x == y
  {
    SameAbove(x, y, 0);
    assert Above(x, 0) == x && Above(y, 0) == y;
  }

  lemma NoBits(k: nat)
    requires k < 8
    ensures !BitSet(0, k)
  {
  }

  // ---------------------------------------------------------------- bitwise operators

  predicate Bit(v: bv8, k: nat)
    requires k < 8
  {
    (v >> k) & 1 == 1
  }

  lemma BitOfByte(x: Byte, k: nat)
    requires k < 8
    ensures BitSet(x, k) <==> Bit(x as bv8, k)
  {
    if k == 0 {
    } else if k == 1 {
    } else if k == 2 {
    } else if k == 3 {
    } else if k == 4 {
    } else if k == 5 {
    } else if k == 6 {
    } else {
    }
  }

  function XorByte(a: Byte, b: Byte): Byte
  {
    ((a as bv8) ^ (b as bv8)) as int
  }

  lemma XorAsBits(a: Byte, b: Byte)
    ensures XorByte(a, b) as bv8 == (a as bv8) ^ (b as bv8)
  {
    BackAndForth((a as bv8) ^ (b as bv8));
  }

  lemma BackAndForth(v: bv8)
    ensures (v as int) as bv8 == v
  {
  }

  lemma XorOfBits(a: bv8, b: bv8, k: nat)
    requires k < 8
    ensures Bit(a ^ b, k) <==> Bit(a, k) != Bit(b, k)
  {
    if k == 0 {
    } else if k == 1 {
    } else if k == 2 {
    } else if k == 3 {
    } else if k == 4 {
    } else if k == 5 {
    } else if k == 6 {
    } else {
    }
  }

  /** A bit of an exclusive or is set exactly if it differs in the operands. */
  lemma XorBit(a: Byte, b: Byte, k: nat)
    requires k < 8
    ensures BitSet(XorByte(a, b), k) <==> BitSet(a, k) != BitSet(b, k)
  {
    hide Bit, XorByte, BitSet;
    BitOfByte(a, k);
    BitOfByte(b, k);
    BitOfByte(XorByte(a, b), k);
    XorAsBits(a, b);
    XorOfBits(a as bv8, b as bv8, k);
  }

  lemma XorByteLaws(a: Byte, b: Byte, c: Byte)
    ensures XorByte(a, b) == XorByte(b, a)
    ensures XorByte(XorByte(a, b), c) == XorByte(a, XorByte(b, c))
    ensures XorByte(a, 0) == a && XorByte(a, a) == 0
  {
    hide XorByte, BitSet;
    forall k: nat | k < 8
      ensures BitSet(XorByte(a, b), k) <==> BitSet(XorByte(b, a), k)
      ensures BitSet(XorByte(XorByte(a, b), c), k) <==> BitSet(XorByte(a, XorByte(b, c)), k)
      ensures BitSet(XorByte(a, 0), k) <==> BitSet(a, k)
      ensures BitSet(XorByte(a, a), k) <==> BitSet(0, k)
    {
      XorBit(a, b, k);
      XorBit(b, a, k);
      XorBit(XorByte(a, b), c, k);
      XorBit(b, c, k);
      XorBit(a, XorByte(b, c), k);
      XorBit(a, 0, k);
      XorBit(a, a, k);
      NoBits(k);
    }
    BitsDetermine(XorByte(a, b), XorByte(b, a));
    BitsDetermine(XorByte(XorByte(a, b), c), XorByte(a, XorByte(b, c)));
    BitsDetermine(XorByte(a, 0), a);
    BitsDetermine(XorByte(a, a), 0);
  }

  /** `(hi << 4) | lo` on bytes. */
  function Join(hi: Byte, lo: Byte): Byte
  {
    (((hi as bv8) << 4) | (lo as bv8)) as int
  }

  lemma JoinOfBits(hi: bv8, lo: bv8, k: nat)
    requires k < 8
    ensures Bit((hi << 4) | lo, k) <==> Bit(lo, k) || (k >= 4 && Bit(hi, k - 4))
  {
    if k == 0 {
    } else if k == 1 {
    } else if k == 2 {
    } else if k == 3 {
    } else if k == 4 {
    } else if k == 5 {
    } else if k == 6 {
    } else {
    }
  }

  lemma JoinAsBits(hi: Byte, lo: Byte)
    ensures Join(hi, lo) as bv8 == ((hi as bv8) << 4) | (lo as bv8)
  {
    BackAndForth(((hi as bv8) << 4) | (lo as bv8));
  }

  /** The bits of a join: those of `lo`, and from the fifth on also those of `hi`. */
  lemma JoinBit(hi: Byte, lo: Byte, k: nat)
    requires k < 8
    ensures BitSet(Join(hi, lo), k) <==> BitSet(lo, k) || (k >= 4 && BitSet(hi, k - 4))
  {
    hide Bit, Join, BitSet;
    BitOfByte(lo, k);
    if k >= 4 {
      BitOfByte(hi, k - 4);
    }
    BitOfByte(Join(hi, lo), k);
    JoinAsBits(hi, lo);
    JoinOfBits(hi as bv8, lo as bv8, k);
  }

  lemma DigitsHalved(hi: nat, lo: nat)
    requires hi < 16 && lo < 16
    ensures (16 * hi + lo) / 2 == 8 * hi + lo / 2
    ensures (16 * hi + lo) / 4 == 4 * hi + lo / 4
    ensures (16 * hi + lo) / 8 == 2 * hi + lo / 8
    ensures (16 * hi + lo) / 16 == hi
  {
  }

  lemma QuotientHalved(n: nat, hi: nat)
    requires n / 16 == hi
    ensures n / 32 == hi / 2 && n / 64 == hi / 4 && n / 128 == hi / 8
  {
  }

  lemma EvenPlus(m: nat, n: nat)
    ensures (2 * m + n) % 2 == n % 2
  {
  }

  lemma JoinedAbove(hi: Byte, lo: Byte, k: nat)
    requires hi < 16 && lo < 16 && k < 8
    ensures Above(16 * hi + lo, k) % 2 == if k < 4 then Above(lo, k) % 2 else Above(hi, k - 4) % 2
  {
    DigitsHalved(hi, lo);
    if k == 0 {
      EvenPlus(8 * hi, lo);
    } else if k == 1 {
      EvenPlus(4 * hi, lo / 2);
    } else if k == 2 {
      EvenPlus(2 * hi, lo / 4);
    } else if k == 3 {
      EvenPlus(hi, lo / 8);
    } else {
      QuotientHalved(16 * hi + lo, hi);
    }
  }

  lemma JoinedBits(hi: Byte, lo: Byte, k: nat)
    requires hi < 16 && lo < 16 && k < 8
    ensures BitSet(16 * hi + lo, k) <==> if k < 4 then BitSet(lo, k) else BitSet(hi, k - 4)
    ensures k >= 4 ==> !BitSet(lo, k)
  {
    JoinedAbove(hi, lo, k);
    if k >= 4 {
      assert Above(lo, k) == 0;
    }
  }

  /** On two digits it is their number to the base 16. */
  lemma JoinDigits(hi: Byte, lo: Byte)
    requires hi < 16 && lo < 16
    ensures Join(hi, lo) == 16 * hi + lo
  {
    hide Join, BitSet;
    forall k: nat | k < 8 ensures BitSet(Join(hi, lo), k) <==> BitSet(16 * hi + lo, k) {
      JoinBit(hi, lo, k);
      JoinedBits(hi, lo, k);
    }
    BitsDetermine(Join(hi, lo), 16 * hi + lo);
  }
}
