/**
 * Unsigned 16-bit words and the bitwise operations the category set uses,
 * on natural numbers: bit `i` of `b` is the `i`-th binary digit.
 */
module Bits {
  /** A `u16` value. */
  type U16 = b: nat | b < 0x1_0000

  /** A power of two is at least one. */
  type Positive = n: nat | n >= 1 witness 1

  /** `1 << i`. */
  function Pow2(i: nat): Positive
  {
    if i == 0 then 1 else 2 * Pow2(i - 1)
  }

  /** Bit `i` of `b`. */
  predicate Bit(b: nat, i: nat)
  {
    if i == 0 then b % 2 == 1 else Bit(b / 2, i - 1)
  }

  /** `a | b`. */
  function Or(a: nat, b: nat): nat
  {
    if a == 0 then b
    else if b == 0 then a
    else 2 * Or(a / 2, b / 2) + (if a % 2 == 1 || b % 2 == 1 then 1 else 0)
  }

  /** `a & b`. */
  function And(a: nat, b: nat): nat
  {
    if a == 0 || b == 0 then 0
    else 2 * And(a / 2, b / 2) + (if a % 2 == 1 && b % 2 == 1 then 1 else 0)
  }

  /** The low `w` bits of `!b`. */
  function NotWidth(b: nat, w: nat): nat
  {
    if w == 0 then 0 else 2 * NotWidth(b / 2, w - 1) + (1 - b % 2)
  }

  /** `!b` on a `u16`. */
  function Not16(b: nat): nat
  {
    NotWidth(b, 16)
  }

  /** `count_ones`. */
  function CountOnes(b: nat): nat
  {
    if b == 0 then 0 else b % 2 + CountOnes(b / 2)
  }

  /** `trailing_zeros` of a non-zero value: the position of its lowest set bit. */
  function TrailingZeros(b: nat): nat
    requires b != 0
  {
    if b % 2 == 1 then 0 else 1 + TrailingZeros(b / 2)
  }

  // ---------------------------------------------------------------------------
  // Bit by bit
  // ---------------------------------------------------------------------------

  lemma {:induction false} OrBit(a: nat, b: nat, i: nat)
    ensures Bit(Or(a, b), i) <==> Bit(a, i) || Bit(b, i)
  {
    if a != 0 && b != 0 && i != 0 {
      OrBit(a / 2, b / 2, i - 1);
    } else if i != 0 {
      ZeroBit(i - 1);
    }
  }

  lemma {:induction false} AndBit(a: nat, b: nat, i: nat)
    ensures Bit(And(a, b), i) <==> Bit(a, i) && Bit(b, i)
  {
    if a != 0 && b != 0 && i != 0 {
      AndBit(a / 2, b / 2, i - 1);
    } else if i != 0 {
      ZeroBit(i - 1);
    }
  }

  lemma {:induction false} NotWidthBit(b: nat, w: nat, i: nat)
    ensures Bit(NotWidth(b, w), i) <==> i < w && !Bit(b, i)
  {
    if w == 0 {
      ZeroBit(i);
    } else if i != 0 {
      NotWidthBit(b / 2, w - 1, i - 1);
    }
  }

  lemma {:induction false} ZeroBit(i: nat)
    ensures !Bit(0, i)
  {
    if i != 0 {
      ZeroBit(i - 1);
    }
  }

  lemma {:induction false} Pow2Bit(j: nat, i: nat)
    ensures Bit(Pow2(j), i) <==> i == j
  {
    if i == 0 {
    } else if j == 0 {
      ZeroBit(i - 1);
    } else {
      Pow2Bit(j - 1, i - 1);
    }
  }

  /** A value below `2^w` has no bit at position `w` or above. */
  lemma {:induction false} HighBit(b: nat, w: nat, i: nat)
    requires b < Pow2(w) && i >= w
    ensures !Bit(b, i)
  {
    if b == 0 {
      ZeroBit(i);
    } else if i != 0 {
      HighBit(b / 2, w - 1, i - 1);
    }
  }

  /** A value is determined by its bits. */
  lemma {:induction false} SameBits(a: nat, b: nat)
    requires forall i: nat :: Bit(a, i) == Bit(b, i)
    ensures a == b
    decreases a + b
  {
    assert Bit(a, 0) == Bit(b, 0);
    if a != 0 || b != 0 {
      forall i: nat ensures Bit(a / 2, i) == Bit(b / 2, i) {
        assert Bit(a, i + 1) == Bit(b, i + 1);
      }
      SameBits(a / 2, b / 2);
    }
  }

  /** Setting bit `j` with `|`. */
  lemma OrPow2Bit(b: nat, j: nat, i: nat)
    ensures Bit(Or(b, Pow2(j)), i) <==> Bit(b, i) || i == j
  {
    OrBit(b, Pow2(j), i);
    Pow2Bit(j, i);
  }

  /** Clearing bit `j` with `& !(1 << j)` on sixteen bits. */
  lemma AndNotPow2Bit(b: nat, j: nat, i: nat)
    requires j < 16
    ensures Bit(And(b, Not16(Pow2(j))), i) <==> Bit(b, i) && i != j && i < 16
  {
    AndBit(b, Not16(Pow2(j)), i);
    NotWidthBit(Pow2(j), 16, i);
    Pow2Bit(j, i);
  }

  /** Setting a clear bit adds one to the count. */
  lemma {:induction false} CountOnesSetBit(b: nat, j: nat)
    requires !Bit(b, j)
    ensures CountOnes(Or(b, Pow2(j))) == CountOnes(b) + 1
  {
    if j == 0 {
      SetBitZero(b);
    } else if b == 0 {
      CountOnesPow2(j);
    } else {
      assert !Bit(b / 2, j - 1);
      CountOnesSetBit(b / 2, j - 1);
      OrHigh(b, j);
      assert CountOnes(b) == b % 2 + CountOnes(b / 2);
    }
  }

  /** A power of two has one bit set. */
  lemma {:induction false} CountOnesPow2(j: nat)
    ensures CountOnes(Pow2(j)) == 1
  {
    if j > 0 {
      CountOnesPow2(j - 1);
      assert Pow2(j) / 2 == Pow2(j - 1) && Pow2(j) % 2 == 0;
    }
  }

  lemma SetBitZero(b: nat)
    requires b % 2 == 0
    ensures CountOnes(Or(b, 1)) == CountOnes(b) + 1
  {
    if b != 0 {
      assert Or(b / 2, 0) == b / 2;
      assert Or(b, 1) == b + 1;
      assert (b + 1) / 2 == b / 2;
    }
  }

  lemma OrHigh(b: nat, j: nat)
    requires b != 0 && j != 0
    ensures CountOnes(Or(b, Pow2(j))) == b % 2 + CountOnes(Or(b / 2, Pow2(j - 1)))
  {
    assert Pow2(j) / 2 == Pow2(j - 1) && Pow2(j) % 2 == 0;
    assert Or(b, Pow2(j)) == 2 * Or(b / 2, Pow2(j - 1)) + b % 2;
  }

  /** A non-zero value has a set bit. */
  lemma {:induction false} NonZeroBit(b: nat)
    ensures b != 0 <==> exists i: nat :: Bit(b, i)
  {
    if b != 0 {
      var t: nat := TrailingZeros(b);
      LowestBit(b);
      assert Bit(b, t);
      assert exists i: nat :: Bit(b, i);
    } else {
      forall i: nat ensures !Bit(b, i) {
        ZeroBit(i);
      }
    }
  }

  // ---------------------------------------------------------------------------
  // Ranges
  // ---------------------------------------------------------------------------

  lemma {:induction false} OrBound(a: nat, b: nat, w: nat)
    requires a < Pow2(w) && b < Pow2(w)
    ensures Or(a, b) < Pow2(w)
  {
    if a != 0 && b != 0 {
      OrBound(a / 2, b / 2, w - 1);
    }
  }

  lemma {:induction false} AndBound(a: nat, b: nat)
    ensures And(a, b) <= a && And(a, b) <= b
  {
    if a != 0 && b != 0 {
      AndBound(a / 2, b / 2);
    }
  }

  lemma {:induction false} NotWidthBound(b: nat, w: nat)
    ensures NotWidth(b, w) < Pow2(w)
  {
    if w != 0 {
      NotWidthBound(b / 2, w - 1);
    }
  }

  // ---------------------------------------------------------------------------
  // Masks, counting, the lowest bit
  // ---------------------------------------------------------------------------

  /** `b & (1 << j)` is non-zero exactly when bit `j` of `b` is set. */
  lemma {:induction false} AndPow2(b: nat, j: nat)
    ensures And(b, Pow2(j)) != 0 <==> Bit(b, j)
  {
    if b == 0 {
      ZeroBit(j);
    } else if j != 0 {
      AndPow2(b / 2, j - 1);
    }
  }

  lemma {:induction false} CountOnesBelow(b: nat, w: nat)
    requires b < Pow2(w)
    ensures CountOnes(b) <= w
  {
    if b != 0 {
      CountOnesBelow(b / 2, w - 1);
    }
  }

  /** The lowest set bit is set and every bit below it is clear. */
  lemma {:induction false} LowestBit(b: nat)
    requires b != 0
    ensures Bit(b, TrailingZeros(b))
    ensures forall i :: 0 <= i < TrailingZeros(b) ==> !Bit(b, i)
  {
    if b % 2 == 0 {
      LowestBit(b / 2);
    }
  }

  lemma {:induction false} TrailingZerosBelow(b: nat, w: nat)
    requires 0 < b < Pow2(w)
    ensures TrailingZeros(b) < w
  {
    LowestBit(b);
    if TrailingZeros(b) >= w {
      HighBit(b, w, TrailingZeros(b));
      assert false;
    }
  }

  /** `b & (b − 1)` clears the lowest set bit of `b` and keeps every other one. */
  lemma {:induction false} ClearLowest(b: nat, i: nat)
    requires b != 0
    ensures Bit(And(b, b - 1), i) <==> Bit(b, i) && i != TrailingZeros(b)
  {
    AndBit(b, b - 1, i);
    MinusOneBit(b, i);
    LowestBit(b);
  }

  /** `b − 1` flips the bits of `b` up to and including its lowest set bit. */
  lemma {:induction false} MinusOneBit(b: nat, i: nat)
    requires b != 0
    ensures Bit(b - 1, i) <==> (if i <= TrailingZeros(b) then !Bit(b, i) else Bit(b, i))
  {
    if b % 2 == 1 {
      if i != 0 {
        assert (b - 1) / 2 == b / 2;
      }
    } else if i != 0 {
      assert (b - 1) / 2 == b / 2 - 1;
      MinusOneBit(b / 2, i - 1);
    }
  }

  lemma {:induction false} AndSelf(b: nat)
    ensures And(b, b) == b
  {
    if b != 0 {
      AndSelf(b / 2);
    }
  }

  /** `b & (b − 1)` on an odd `b` clears bit 0. */
  lemma ClearLowestOdd(b: nat)
    requires b % 2 == 1
    ensures And(b, b - 1) == b - 1
  {
    if b != 1 {
      AndSelf(b / 2);
      assert (b - 1) / 2 == b / 2;
    }
  }

  /** `b & (b − 1)` on an even non-zero `b` works one position up. */
  lemma ClearLowestEven(b: nat)
    requires b != 0 && b % 2 == 0
    ensures And(b, b - 1) == 2 * And(b / 2, b / 2 - 1)
  {
    assert (b - 1) / 2 == b / 2 - 1;
  }

  /** Removing one set bit lowers the count by one. */
  lemma {:induction false} CountOnesClearLowest(b: nat)
    requires b != 0
    ensures CountOnes(And(b, b - 1)) + 1 == CountOnes(b)
  {
    if b % 2 == 1 {
      ClearLowestOdd(b);
      assert (b - 1) / 2 == b / 2;
    } else {
      CountOnesClearLowest(b / 2);
      ClearLowestEven(b);
      assert And(b, b - 1) / 2 == And(b / 2, b / 2 - 1);
    }
  }

  /** `(1 << w) − (1 << k)` has exactly the bits from `k` up to, not including, `w`. */
  lemma {:induction false} RangeMaskBit(k: nat, w: nat, i: nat)
    requires k <= w
    ensures Pow2(k) <= Pow2(w) && (Bit(Pow2(w) - Pow2(k), i) <==> k <= i < w)
    decreases k
  {
    Pow2Monotone(k, w);
    if k == 0 {
      LowMaskBit(w, i);
    } else {
      Pow2Monotone(k - 1, w - 1);
      if i != 0 {
        assert (Pow2(w) - Pow2(k)) / 2 == Pow2(w - 1) - Pow2(k - 1);
        RangeMaskBit(k - 1, w - 1, i - 1);
      }
    }
  }

  /** `(1 << w) − (1 << k)` has `w − k` bits set. */
  lemma {:induction false} CountOnesRange(k: nat, w: nat)
    requires k <= w
    ensures Pow2(k) <= Pow2(w) && CountOnes(Pow2(w) - Pow2(k)) == w - k
    decreases w
  {
    Pow2Monotone(k, w);
    if k == w {
    } else {
      if k == 0 {
        CountOnesRange(0, w - 1);
        assert (Pow2(w) - 1) / 2 == Pow2(w - 1) - 1;
      } else {
        CountOnesRange(k - 1, w - 1);
        assert (Pow2(w) - Pow2(k)) / 2 == Pow2(w - 1) - Pow2(k - 1);
      }
    }
  }

  lemma {:induction false} LowMaskBit(w: nat, i: nat)
    ensures Bit(Pow2(w) - 1, i) <==> i < w
  {
    if w == 0 {
      ZeroBit(i);
    } else if i != 0 {
      assert (Pow2(w) - 1) / 2 == Pow2(w - 1) - 1;
      LowMaskBit(w - 1, i - 1);
    }
  }

  lemma {:induction false} Pow2Monotone(i: nat, j: nat)
    requires i <= j
    ensures Pow2(i) <= Pow2(j)
    decreases j
  {
    if i < j {
      Pow2Monotone(i, j - 1);
    }
  }
}
