// Bit-level view of unsigned machine words, on natural numbers: the cut
// signatures and the SOP cubes are 64-bit words combined with |, &, & ~
// and +, and both count their set bits with a population count.
module Bits {
  function Pow2(k: nat): (r: nat)
    ensures r > 0
  {
    if k == 0 then 1 else 2 * Pow2(k - 1)
  }

  /** Bit i of x (bit 0 is the least significant). */
  predicate Bit(x: nat, i: nat)
    decreases i
  {
    if i == 0 then x % 2 == 1 else Bit(x / 2, i - 1)
  }

  /** Bitwise or. */
  function Or(a: nat, b: nat): nat
    decreases a + b
  {
    if a == 0 && b == 0 then 0
    else 2 * Or(a / 2, b / 2) + (if a % 2 == 1 || b % 2 == 1 then 1 else 0)
  }

  /** Bitwise and. */
  function And(a: nat, b: nat): nat
    decreases a + b
  {
    if a == 0 || b == 0 then 0
    else 2 * And(a / 2, b / 2) + (if a % 2 == 1 && b % 2 == 1 then 1 else 0)
  }

  /** Population count: the number of set bits. */
  function Pop(x: nat): nat
  {
    if x == 0 then 0 else x % 2 + Pop(x / 2)
  }

  lemma {:induction false} BitOr(a: nat, b: nat, i: nat)
    ensures Bit(Or(a, b), i) == (Bit(a, i) || Bit(b, i))
    decreases i
  {
    if i > 0 {
      assert Or(a, b) / 2 == Or(a / 2, b / 2);
      BitOr(a / 2, b / 2, i - 1);
    }
  }

  lemma {:induction false} BitAnd(a: nat, b: nat, i: nat)
    ensures Bit(And(a, b), i) == (Bit(a, i) && Bit(b, i))
    decreases i
  {
    if i > 0 {
      if a == 0 || b == 0 {
        BitZero(i - 1);
        assert a == 0 ==> !Bit(a, i);
        assert b == 0 ==> !Bit(b, i);
      } else {
        assert And(a, b) / 2 == And(a / 2, b / 2);
        BitAnd(a / 2, b / 2, i - 1);
      }
    }
  }

  lemma {:induction false} BitZero(i: nat)
    ensures !Bit(0, i)
  {
    if i > 0 {
      BitZero(i - 1);
    }
  }

  lemma {:induction false} BitPow2(k: nat, i: nat)
    ensures Bit(Pow2(k), i) <==> i == k
    decreases i
  {
    if i == 0 {
    } else if k == 0 {
      BitZero(i - 1);
    } else {
      BitPow2(k - 1, i - 1);
    }
  }

  /** Two words with the same bits are equal. */
  lemma {:induction false} BitsEqual(a: nat, b: nat)
    requires forall i: nat :: Bit(a, i) == Bit(b, i)
    ensures a == b
    decreases a + b
  {
    assert Bit(a, 0) == Bit(b, 0);
    if a != 0 || b != 0 {
      forall i: nat ensures Bit(a / 2, i) == Bit(b / 2, i) {
        assert Bit(a, i + 1) == Bit(b, i + 1);
      }
      BitsEqual(a / 2, b / 2);
    }
  }

  lemma {:induction false} PopPow2(k: nat)
    ensures Pop(Pow2(k)) == 1
  {
    if k > 0 {
      PopPow2(k - 1);
    }
  }

  lemma {:induction false} PopOr(a: nat, b: nat)
    ensures Pop(Or(a, b)) <= Pop(a) + Pop(b)
    decreases a + b
  {
    if a != 0 || b != 0 {
      PopOr(a / 2, b / 2);
    }
  }

  /** A sum with carry-in c has no more set bits than the or of its terms plus c. */
  lemma {:induction false} PopAdd(a: nat, b: nat, c: nat)
    requires c <= 1
    ensures Pop(a + b + c) <= Pop(Or(a, b)) + c
    decreases a + b
  {
    if a != 0 || b != 0 {
      var s := a % 2 + b % 2 + c;
      assert (a + b + c) / 2 == a / 2 + b / 2 + s / 2;
      assert (a + b + c) % 2 == s % 2;
      PopAdd(a / 2, b / 2, s / 2);
      var o, bit := Or(a / 2, b / 2), if a % 2 == 1 || b % 2 == 1 then 1 else 0;
      assert Or(a, b) == 2 * o + bit;
      assert Pop(Or(a, b)) == bit + Pop(o) by {
        assert (2 * o + bit) % 2 == bit && (2 * o + bit) / 2 == o;
      }
      assert Pop(a + b + c) == s % 2 + Pop(a / 2 + b / 2 + s / 2);
      assert s % 2 + s / 2 <= bit + c;
    }
  }

  lemma {:induction false} OrBound(a: nat, b: nat, k: nat)
    requires a < Pow2(k) && b < Pow2(k)
    ensures Or(a, b) < Pow2(k)
  {
    if k > 0 && (a != 0 || b != 0) {
      OrBound(a / 2, b / 2, k - 1);
    }
  }

  lemma {:induction false} Pow2Monotone(i: nat, k: nat)
    requires i <= k
    ensures Pow2(i) <= Pow2(k)
  {
    if i < k {
      Pow2Monotone(i, k - 1);
    }
  }

  /** The low k bits of x: x & (2^k - 1). */
  function Low(x: nat, k: nat): nat
  {
    if k == 0 then 0 else x % 2 + 2 * Low(x / 2, k - 1)
  }

  /** x shifted right by k bits: x >> k. */
  function High(x: nat, k: nat): nat
  {
    if k == 0 then x else High(x / 2, k - 1)
  }

  lemma {:induction false} PopSplit(x: nat, k: nat)
    ensures Pop(x) == Pop(Low(x, k)) + Pop(High(x, k))
  {
    if k > 0 {
      PopSplit(x / 2, k - 1);
      var y := Low(x / 2, k - 1);
      if x % 2 + 2 * y != 0 {
        assert (x % 2 + 2 * y) / 2 == y;
      }
    }
  }

  lemma {:induction false} PopLow(x: nat, k: nat)
    ensures Pop(Low(x, k)) <= Pop(x)
  {
    PopSplit(x, k);
  }

  /** a & ~b: the bits of a that are not in b. */
  function Diff(a: nat, b: nat): nat
  {
    if a == 0 then 0
    else 2 * Diff(a / 2, b / 2) + (if a % 2 == 1 && b % 2 == 0 then 1 else 0)
  }

  lemma {:induction false} BitDiff(a: nat, b: nat, i: nat)
    ensures Bit(Diff(a, b), i) == (Bit(a, i) && !Bit(b, i))
    decreases i
  {
    if i > 0 {
      if a == 0 {
        BitZero(i - 1);
        assert !Bit(a, i);
      } else {
        assert Diff(a, b) / 2 == Diff(a / 2, b / 2);
        BitDiff(a / 2, b / 2, i - 1);
      }
    }
  }

  /** A number below 2^k has no bit at k or above. */
  lemma {:induction false} BitBound(x: nat, k: nat, i: nat)
    requires x < Pow2(k) && k <= i
    ensures !Bit(x, i)
    decreases i
  {
    if k == 0 {
      BitZero(i);
    } else {
      BitBound(x / 2, k - 1, i - 1);
    }
  }

  /** Below 2^(k+1), bit k is set exactly from 2^k on. */
  lemma {:induction false} TopBit(x: nat, k: nat)
    requires x < Pow2(k + 1)
    ensures Bit(x, k) <==> x >= Pow2(k)
    decreases k
  {
    if k > 0 {
      TopBit(x / 2, k - 1);
    }
  }

  /** Adding 2^k to a number below 2^k sets bit k and keeps the others. */
  lemma {:induction false} BitAddPow2(x: nat, k: nat, i: nat)
    requires x < Pow2(k)
    ensures Bit(x + Pow2(k), i) <==> i == k || Bit(x, i)
    decreases i
  {
    if i > 0 {
      if k == 0 {
        BitZero(i - 1);
        assert !Bit(x, i);
      } else {
        assert (x + Pow2(k)) / 2 == x / 2 + Pow2(k - 1);
        BitAddPow2(x / 2, k - 1, i - 1);
      }
    }
  }

  /** 2^k - 1 has exactly the bits below k. */
  lemma {:induction false} BitOnes(k: nat, i: nat)
    ensures Bit(Pow2(k) - 1, i) <==> i < k
    decreases i
  {
    if k == 0 {
      BitZero(i);
    } else if i > 0 {
      assert (Pow2(k) - 1) / 2 == Pow2(k - 1) - 1;
      BitOnes(k - 1, i - 1);
    }
  }

  /** Two numbers below 2^k with the same bits below k are equal. */
  lemma BitsBelow(a: nat, b: nat, k: nat)
    requires a < Pow2(k) && b < Pow2(k)
    requires forall i: nat :: i < k ==> Bit(a, i) == Bit(b, i)
    ensures a == b
  {
    forall i: nat
      ensures Bit(a, i) == Bit(b, i)
    {
      if i >= k {
        BitBound(a, k, i);
        BitBound(b, k, i);
      }
    }
    BitsEqual(a, b);
  }

  lemma {:induction false} AndSelf(x: nat)
    ensures And(x, x) == x
  {
    if x != 0 {
      AndSelf(x / 2);
    }
  }

  lemma {:induction false} AndLe(a: nat, b: nat)
    ensures And(a, b) <= a && And(a, b) <= b
    decreases a + b
  {
    if a != 0 && b != 0 {
      AndLe(a / 2, b / 2);
    }
  }

  lemma {:induction false} DiffLe(a: nat, b: nat)
    ensures Diff(a, b) <= a
    decreases a
  {
    if a != 0 {
      DiffLe(a / 2, b / 2);
    }
  }

  /** x & (x - 1) clears the lowest set bit of x, so it has one set bit fewer. */
  lemma {:induction false} PopClearLowest(x: nat)
    requires x > 0
    ensures And(x, x - 1) < x && Pop(And(x, x - 1)) == Pop(x) - 1
    decreases x
  {
    if x % 2 == 1 {
      if x > 1 {
        assert (x - 1) / 2 == x / 2;
        AndSelf(x / 2);
        assert And(x, x - 1) == x - 1;
      }
    } else {
      assert (x - 1) / 2 == x / 2 - 1;
      PopClearLowest(x / 2);
      assert And(x, x - 1) == 2 * And(x / 2, x / 2 - 1);
    }
  }

  /** Removing from c the bits of a d that c contains removes Pop(d) bits. */
  lemma {:induction false} PopDiffCovered(c: nat, d: nat)
    requires And(c, d) == d
    ensures Pop(Diff(c, d)) + Pop(d) == Pop(c)
    decreases c
  {
    if c != 0 && d != 0 {
      assert And(c / 2, d / 2) == d / 2;
      PopDiffCovered(c / 2, d / 2);
      assert Diff(c, d) / 2 == Diff(c / 2, d / 2);
    } else if c != 0 {
      PopDiffCovered(c / 2, 0);
      assert Diff(c, d) / 2 == Diff(c / 2, d / 2);
    }
  }
}
