// Cuts: sorted leaf lists of at most MaxLeaves node indices with a 64-bit
// signature word holding bit (leaf mod 64) for every leaf.
module Cuts {
  import opened Bits

  /** Strictly increasing, as the leaf lists of cuts are kept. */
  predicate Sorted(s: seq<nat>) {
    forall i, j :: 0 <= i < j < |s| ==> s[i] < s[j]
  }

  /** The signature of a leaf list: the or of 1 << (leaf & 0x3f) over the leaves, in order. */
  function Sig(leaves: seq<nat>): nat {
    if |leaves| == 0 then 0
    else Or(Sig(leaves[..|leaves| - 1]), Pow2(leaves[|leaves| - 1] % 64))
  }

  /** std::set_union of two sorted lists: the common leaves appear once. */
  function Union(a: seq<nat>, b: seq<nat>): seq<nat>
    decreases |a| + |b|
  {
    if |a| == 0 then b
    else if |b| == 0 then a
    else if a[0] < b[0] then [a[0]] + Union(a[1..], b)
    else if b[0] < a[0] then [b[0]] + Union(a, b[1..])
    else [a[0]] + Union(a[1..], b[1..])
  }

  /** The state of a cut as a value: its leaves, signature and data word (the truth-table literal). */
  datatype CutValue = CutValue(leaves: seq<nat>, signature: nat, funcId: nat)

  /** A cut whose leaves are sorted and whose signature matches them. */
  predicate Consistent(c: CutValue) {
    Sorted(c.leaves) && c.signature == Sig(c.leaves)
  }

  /** a dominates b: the leaves of a are a subset of those of b. */
  predicate CutDominates(a: CutValue, b: CutValue) {
    forall x :: x in a.leaves ==> x in b.leaves
  }

  /** The number of leaves of a cut. */
  function Size(c: CutValue): nat {
    |c.leaves|
  }

  /** operator<: fewer leaves. */
  predicate Less(a: CutValue, b: CutValue) {
    Size(a) < Size(b)
  }

  /** operator< is a strict weak ordering: cuts of equal size are tied. */
  lemma LessStrictWeakOrder(a: CutValue, b: CutValue, c: CutValue)
    ensures !Less(a, a)
    ensures Less(a, b) && Less(b, c) ==> Less(a, c)
    ensures !Less(a, b) && !Less(b, a) <==> Size(a) == Size(b)
  {
  }

  /**
   * The early rejection of merge: when the two lengths add up to more than
   * cut_size, the population count of the 64-bit sum of the signatures,
   * taken as its low and high 32-bit halves, is compared with cut_size.
   */
  predicate QuickReject(a: CutValue, b: CutValue, cutSize: nat) {
    var sign := Low(a.signature + b.signature, 64);
    |a.leaves| + |b.leaves| > cutSize && Pop(Low(sign, 32)) + Pop(High(sign, 32)) > cutSize
  }

  // ---------------------------------------------------------------------
  // properties of signatures and unions

  lemma {:induction false} SigBits(leaves: seq<nat>, i: nat)
    ensures Bit(Sig(leaves), i) <==> exists l :: l in leaves && l % 64 == i
  {
    if |leaves| > 0 {
      var init := leaves[..|leaves| - 1];
      var last := leaves[|leaves| - 1];
      assert leaves == init + [last];
      SigBits(init, i);
      BitOr(Sig(init), Pow2(last % 64), i);
      BitPow2(last % 64, i);
      if Bit(Sig(leaves), i) {
        if Bit(Sig(init), i) {
          var l :| l in init && l % 64 == i;
          assert l in leaves;
        } else {
          assert last in leaves;
        }
      }
      if exists l :: l in leaves && l % 64 == i {
        var l :| l in leaves && l % 64 == i;
        if l != last {
          assert l in init;
        }
      }
    } else {
      BitZero(i);
    }
  }

  lemma {:induction false} SigPop(leaves: seq<nat>)
    ensures Pop(Sig(leaves)) <= |leaves|
  {
    if |leaves| > 0 {
      var init := leaves[..|leaves| - 1];
      SigPop(init);
      PopOr(Sig(init), Pow2(leaves[|leaves| - 1] % 64));
      PopPow2(leaves[|leaves| - 1] % 64);
    }
  }

  /** A signature fits in 64 bits (in any width of at least 64 bits). */
  lemma {:induction false} SigBound(leaves: seq<nat>, w: nat)
    requires 64 <= w
    ensures Sig(leaves) < Pow2(w)
  {
    if |leaves| > 0 {
      var j := leaves[|leaves| - 1] % 64;
      SigBound(leaves[..|leaves| - 1], w);
      Pow2Monotone(j + 1, w);
      OrBound(Sig(leaves[..|leaves| - 1]), Pow2(j), w);
    }
  }

  /** Lists with the same leaves, in whatever order, have the same signature. */
  lemma SigOfUnion(a: seq<nat>, b: seq<nat>, u: seq<nat>)
    requires forall x :: x in u <==> x in a || x in b
    ensures Sig(u) == Or(Sig(a), Sig(b))
  {
    forall i: nat ensures Bit(Sig(u), i) == Bit(Or(Sig(a), Sig(b)), i) {
      SigBits(u, i);
      SigBits(a, i);
      SigBits(b, i);
      BitOr(Sig(a), Sig(b), i);
    }
    BitsEqual(Sig(u), Or(Sig(a), Sig(b)));
  }

  /** The signature of a subset has no bit outside the superset's signature. */
  lemma SigSubset(a: seq<nat>, b: seq<nat>)
    requires forall x :: x in a ==> x in b
    ensures And(Sig(a), Sig(b)) == Sig(a)
  {
    forall i: nat ensures Bit(And(Sig(a), Sig(b)), i) == Bit(Sig(a), i) {
      SigBits(a, i);
      SigBits(b, i);
      BitAnd(Sig(a), Sig(b), i);
    }
    BitsEqual(And(Sig(a), Sig(b)), Sig(a));
  }

  lemma {:induction false} UnionMembers(a: seq<nat>, b: seq<nat>)
    ensures forall x :: x in Union(a, b) <==> x in a || x in b
    decreases |a| + |b|
  {
    if |a| > 0 && |b| > 0 {
      assert a == [a[0]] + a[1..];
      assert b == [b[0]] + b[1..];
      if a[0] < b[0] {
        UnionMembers(a[1..], b);
      } else if b[0] < a[0] {
        UnionMembers(a, b[1..]);
      } else {
        UnionMembers(a[1..], b[1..]);
      }
    }
  }

  lemma {:induction false} UnionSorted(a: seq<nat>, b: seq<nat>)
    requires Sorted(a) && Sorted(b)
    ensures Sorted(Union(a, b))
    decreases |a| + |b|
  {
    if |a| > 0 && |b| > 0 {
      var h, t;
      if a[0] < b[0] {
        UnionSorted(a[1..], b);
        UnionMembers(a[1..], b);
        h, t := a[0], Union(a[1..], b);
      } else if b[0] < a[0] {
        UnionSorted(a, b[1..]);
        UnionMembers(a, b[1..]);
        h, t := b[0], Union(a, b[1..]);
      } else {
        UnionSorted(a[1..], b[1..]);
        UnionMembers(a[1..], b[1..]);
        h, t := a[0], Union(a[1..], b[1..]);
      }
      assert Union(a, b) == [h] + t;
      forall k | 0 <= k < |t| ensures h < t[k] {
        assert t[k] in t;
      }
    }
  }

  /** Sorted lists: a subset is no longer than its superset, and equally long only when equal. */
  lemma {:induction false} SubsetLength(a: seq<nat>, b: seq<nat>)
    requires Sorted(a) && Sorted(b)
    requires forall x :: x in a ==> x in b
    ensures |a| <= |b|
    ensures |a| == |b| ==> a == b
  {
    if |a| > 0 {
      assert a[0] in a;
      var k :| 0 <= k < |b| && b[k] == a[0];
      forall x | x in a[1..] ensures x in b[k + 1..] {
        var i :| 1 <= i < |a| && a[i] == x;
        assert x in a;
        var j :| 0 <= j < |b| && b[j] == x;
        assert a[0] < a[i];
        assert k < j;
        assert b[j] == b[k + 1..][j - k - 1];
      }
      SubsetLength(a[1..], b[k + 1..]);
      if |a| == |b| {
        assert k == 0;
        assert a == [a[0]] + a[1..];
        assert b == [b[0]] + b[1..];
      }
    }
  }

  /**
   * The early rejection of merge never rejects a union that fits: the sum
   * of two signatures has no more set bits than their or, which has no more
   * than the union has leaves.
   */
  lemma QuickRejectSound(a: CutValue, b: CutValue, cutSize: nat)
    requires Consistent(a) && Consistent(b)
    requires |Union(a.leaves, b.leaves)| <= cutSize
    ensures !QuickReject(a, b, cutSize)
  {
    var u := Union(a.leaves, b.leaves);
    UnionMembers(a.leaves, b.leaves);
    SigOfUnion(a.leaves, b.leaves, u);
    SigPop(u);
    SumHalvesPop(a.signature, b.signature, cutSize);
  }

  /** The two 32-bit halves of the wrapped sum of x and y have no more set bits than x | y. */
  lemma SumHalvesPop(x: nat, y: nat, n: nat)
    requires Pop(Or(x, y)) <= n
    ensures var sign := Low(x + y, 64); Pop(Low(sign, 32)) + Pop(High(sign, 32)) <= n
  {
    var sign := Low(x + y, 64);
    PopAdd(x, y, 0);
    assert x + y + 0 == x + y;
    PopLow(x + y, 64);
    PopSplit(sign, 32);
  }

  /** The early rejection of dominates never rejects a true subset. */
  lemma DominatesQuickCheckSound(a: CutValue, b: CutValue)
    requires Consistent(a) && Consistent(b) && CutDominates(a, b)
    ensures |a.leaves| <= |b.leaves| && And(a.signature, b.signature) == a.signature
  {
    SubsetLength(a.leaves, b.leaves);
    SigSubset(a.leaves, b.leaves);
  }

  /** The signatures set_leaves computes for {1, 2, 3, 4} and {1, 2, 3}. */
  lemma SignatureExamples()
    ensures Sig([1, 2, 3, 4]) == 30 && Sig([1, 2, 3]) == 14
  {
    SigSteps([1, 2, 3, 4]);
    assert [1, 2, 3, 4][..3] == [1, 2, 3];
  }

  /** The signature of a list of leaves 1, 2, ... (or 65, 66, ...), one leaf at a time. */
  lemma SigSteps(leaves: seq<nat>)
    requires |leaves| == 4 && forall k :: 0 <= k < 4 ==> leaves[k] % 64 == k + 1
    ensures Sig(leaves[..3]) == 14 && Sig(leaves) == 30
  {
    assert Pow2(1) == 2 && Pow2(2) == 4 && Pow2(3) == 8 && Pow2(4) == 16;
    assert leaves[..1][..0] == [];
    assert Sig(leaves[..1]) == Or(0, 2) == 2;
    assert leaves[..2][..1] == leaves[..1];
    assert Sig(leaves[..2]) == Or(2, 4) == 6;
    assert leaves[..3][..2] == leaves[..2];
    assert Sig(leaves[..3]) == Or(6, 8) == 14;
    assert leaves[..4][..3] == leaves[..3];
    assert leaves[..4] == leaves;
    assert Sig(leaves) == Or(14, 16) == 30;
  }

  lemma {:induction false} LowHighSmall(x: nat, j: nat, k: nat)
    requires x < Pow2(j) && j <= k
    ensures Low(x, k) == x && High(x, k) == 0
  {
    if k > 0 {
      if j > 0 {
        LowHighSmall(x / 2, j - 1, k - 1);
      } else {
        LowHighSmall(0, 0, k - 1);
      }
    }
  }

  /** {1, 2, 3} dominates {1, 2, 3, 4} and not the other way round. */
  lemma DominatesExamples()
    ensures CutDominates(CutValue([1, 2, 3], 14, 0), CutValue([1, 2, 3, 4], 30, 0))
    ensures !CutDominates(CutValue([1, 2, 3, 4], 30, 0), CutValue([1, 2, 3], 14, 0))
  {
    assert 4 in [1, 2, 3, 4];
  }

  // ---------------------------------------------------------------------
  // the cut object

  /** Writes s at the front of buf (std::copy into the leaf array). */
  method CopyInto(buf: array<nat>, s: seq<nat>)
    requires |s| <= buf.Length
    modifies buf
    ensures buf[..|s|] == s
    ensures buf[|s|..] == old(buf[|s|..])
  {
    for k := 0 to |s|
      invariant buf[..k] == s[..k]
      invariant buf[|s|..] == old(buf[|s|..])
    {
      buf[k] := s[k];
    }
  }

  /** The merge-like walk of dominates over two sorted leaf arrays: whether the first la leaves of x all occur among the first lb of y. */
  method SubsetScan(x: array<nat>, la: nat, y: array<nat>, lb: nat) returns (r: bool)
    requires 0 < la <= x.Length && lb <= y.Length && Sorted(x[..la]) && Sorted(y[..lb])
    ensures r <==> forall v :: v in x[..la] ==> v in y[..lb]
  {
    ghost var a, b := x[..la], y[..lb];
    var i1 := 0;
    var i2 := 0;
    while i2 < lb
      invariant 0 <= i1 < la && i2 <= lb
      invariant forall k :: 0 <= k < i1 ==> a[k] in b
      invariant forall k :: 0 <= k < i2 ==> b[k] < a[i1]
    {
      if y[i2] > x[i1] {
        assert a[i1] !in b by {
          forall k | 0 <= k < |b| ensures b[k] != a[i1] {
            if k >= i2 {
              assert b[i2] <= b[k];
            }
          }
        }
        return false;
      }
      if y[i2] == x[i1] {
        i1 := i1 + 1;
        if i1 == la {
          assert forall v :: v in a ==> v in b by {
            forall v | v in a ensures v in b {
              var k :| 0 <= k < |a| && a[k] == v;
            }
          }
          return true;
        }
      }
      i2 := i2 + 1;
    }
    assert a[i1] !in b;
    return false;
  }

  /**
   * cut<MaxLeaves, T>: a fixed array of MaxLeaves leaf slots, of which the
   * first `end` are the leaves, the leaf count `length`, the signature and
   * the data (here the truth-table literal of the cut).
   */
  class Cut {
    const buffer: array<nat>
    var end: nat
    var length: nat
    var signature: nat
    var funcId: nat

    ghost predicate Valid()
      reads this
    {
      end <= buffer.Length && length == end
    }

    function Leaves(): seq<nat>
      reads this, buffer
      requires Valid()
    {
      buffer[..end]
    }

    function Value(): CutValue
      reads this, buffer
      requires Valid()
    {
      CutValue(Leaves(), signature, funcId)
    }

    /** A cut with no leaves, signature 0 and data 0, able to hold maxLeaves leaves. */
    constructor (maxLeaves: nat)
      ensures Valid() && fresh(buffer) && buffer.Length == maxLeaves
      ensures Value() == CutValue([], 0, 0)
    {
      buffer := new nat[maxLeaves];
      end, length, signature, funcId := 0, 0, 0, 0;
    }

    /** The copy constructor: same leaves, length, signature and data. */
    constructor Copy(other: Cut)
      requires other.Valid()
      ensures Valid() && fresh(buffer) && buffer.Length == other.buffer.Length
      ensures Value() == other.Value()
    {
      var b := new nat[other.buffer.Length];
      var s := other.buffer[..other.end];
      CopyInto(b, s);
      buffer := b;
      end, length, signature, funcId := other.end, other.length, other.signature, other.funcId;
    }

    /** operator=: copies the other cut's state; assigning a cut to itself changes nothing. */
    method Assign(other: Cut)
      requires Valid() && other.Valid() && other.end <= buffer.Length
      requires other == this || other.buffer != buffer
      modifies this, buffer
      ensures Valid()
      ensures Value() == old(other.Value())
    {
      if other != this {
        var s := other.buffer[..other.end];
        CopyInto(buffer, s);
        end, length, signature, funcId := other.end, other.length, other.signature, other.funcId;
      }
    }

    /** set_leaves: stores the leaves and computes their signature; the data is kept. */
    method SetLeaves(leaves: seq<nat>)
      requires Valid() && |leaves| <= buffer.Length
      modifies this, buffer
      ensures Valid() && Leaves() == leaves && length == |leaves|
      ensures signature == Sig(leaves) && signature < Pow2(64)
      ensures funcId == old(funcId)
    {
      CopyInto(buffer, leaves);
      end := |leaves|;
      length := |leaves|;
      var sig := 0;
      var i := 0;
      while i < |leaves|
        invariant i <= |leaves|
        invariant sig == Sig(leaves[..i])
      {
        assert leaves[..i + 1][..i] == leaves[..i];
        sig := Or(sig, Pow2(leaves[i] % 64));
        i := i + 1;
      }
      assert leaves[..i] == leaves;
      signature := sig;
      SigBound(leaves, 64);
    }

    /** dominates: whether this cut's leaves are a subset of that's. */
    method Dominates(that: Cut) returns (r: bool)
      requires Valid() && that.Valid()
      requires Consistent(Value()) && Consistent(that.Value())
      ensures r <==> CutDominates(Value(), that.Value())
    {
      ghost var a := Leaves();
      ghost var b := that.Leaves();
      if length > that.length || And(signature, that.signature) != signature {
        if CutDominates(Value(), that.Value()) {
          DominatesQuickCheckSound(Value(), that.Value());
        }
        return false;
      }
      if length == that.length {
        r := buffer[..end] == that.buffer[..that.end];
        if CutDominates(Value(), that.Value()) {
          SubsetLength(a, b);
        }
        return;
      }
      if length == 0 {
        return true;
      }
      r := SubsetScan(buffer, length, that.buffer, that.length);
    }

    /**
     * merge(that, res, cut_size): res receives the union of the two leaf
     * lists when it has at most cut_size leaves, and the call returns whether
     * it did. A union too long for res's leaf array is refused before it is
     * written (see MergeWritesPastBuffer for the code as written).
     */
    method Merge(that: Cut, res: Cut, cutSize: nat) returns (ok: bool)
      requires Valid() && that.Valid() && res.Valid()
      requires Consistent(Value()) && Consistent(that.Value())
      requires res.buffer != buffer && res.buffer != that.buffer && res != this && res != that
      modifies res, res.buffer
      ensures ok <==> |Union(Leaves(), that.Leaves())| <= cutSize && |Union(Leaves(), that.Leaves())| <= res.buffer.Length
      ensures res.Valid() && res.funcId == old(res.funcId)
      ensures ok ==> res.Leaves() == Union(Leaves(), that.Leaves()) && res.length == |res.Leaves()|
      ensures ok ==> res.signature == Or(signature, that.signature) && Consistent(res.Value())
      ensures !ok ==> res.end == old(res.end) && res.length == old(res.length) && res.signature == old(res.signature)
      ensures QuickReject(Value(), that.Value(), cutSize) ==> res.buffer[..] == old(res.buffer[..])
    {
      ghost var u := Union(Leaves(), that.Leaves());
      if length + that.length > cutSize {
        var sign := Low(signature + that.signature, 64);
        if Pop(Low(sign, 32)) + Pop(High(sign, 32)) > cutSize {
          if |u| <= cutSize {
            QuickRejectSound(Value(), that.Value(), cutSize);
          }
          return false;
        }
      }
      assert !QuickReject(Value(), that.Value(), cutSize);
      var union := Union(buffer[..end], that.buffer[..that.end]);
      if |union| > res.buffer.Length {
        return false;
      }
      CopyInto(res.buffer, union);
      if |union| <= cutSize {
        res.end := |union|;
        res.length := |union|;
        res.signature := Or(signature, that.signature);
        UnionMembers(Leaves(), that.Leaves());
        UnionSorted(Leaves(), that.Leaves());
        SigOfUnion(Leaves(), that.Leaves(), union);
        return true;
      }
      return false;
    }
  }

  // ---------------------------------------------------------------------
  // merge as written

  /**
   * merge as written checks the union's length only after std::set_union
   * has written it into res's leaf array, so a union longer than the array
   * that passes the early test is written past the array's end.
   */
  predicate MergeWritesPastBuffer(a: CutValue, b: CutValue, cutSize: nat, maxLeaves: nat) {
    !QuickReject(a, b, cutSize) && |Union(a.leaves, b.leaves)| > maxLeaves
  }

  /**
   * With the enumeration's cuts (7 leaf slots, cut_size 4), {1, 2, 3, 4} and
   * {65, 66, 67, 68} have equal signatures (30): their sum 60 has four set
   * bits, so the early test passes, and the union has 8 leaves.
   */
  lemma MergeOverflowExample(a: CutValue, b: CutValue)
    requires a == CutValue([1, 2, 3, 4], 30, 0) && b == CutValue([65, 66, 67, 68], 30, 0)
    ensures Consistent(a) && Consistent(b) && MergeWritesPastBuffer(a, b, 4, 7)
  {
    SigSteps(a.leaves);
    SigSteps(b.leaves);
    PopOfSum(a.signature, b.signature);
    assert Union(a.leaves, b.leaves) == [1, 2, 3, 4, 65, 66, 67, 68];
  }

  /** 30 + 30 = 60 fits in 32 bits and has four set bits. */
  lemma PopOfSum(sa: nat, sb: nat)
    requires sa == 30 && sb == 30
    ensures var sign := Low(sa + sb, 64); Pop(Low(sign, 32)) + Pop(High(sign, 32)) == 4
  {
    assert Pow2(6) == 64;
    LowHighSmall(sa + sb, 6, 64);
    LowHighSmall(sa + sb, 6, 32);
    assert Pop(0) == 0;
    assert Pop(60) == 4 by {
      assert Pop(1) == 1 && Pop(3) == 2 && Pop(7) == 3 && Pop(15) == 4 && Pop(30) == 4;
    }
  }
}
