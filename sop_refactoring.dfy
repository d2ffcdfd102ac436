// Sum-of-products helpers of SOP refactoring: a cube is a 64-bit word whose
// bit 2v + 1 is the positive and bit 2v the negative literal of variable v;
// an SOP is a list of cubes. Bit 63 is reserved as a scratch mark.
module SopRefactoring {
  import opened Bits
  import opened Wrappers

  /** An unsigned 64-bit machine word. */
  type Word = x: nat | x < 0x1_0000_0000_0000_0000

  /** The all-ones word (UINT64_MAX). */
  const AllOnes: Word := 0xFFFF_FFFF_FFFF_FFFF

  /** The reserved bit that marks a covered cube during division. */
  const MarkBit: nat := 63

  lemma {:induction false} Pow2Add(a: nat, b: nat)
    ensures Pow2(a + b) == Pow2(a) * Pow2(b)
    decreases a
  {
    if a > 0 {
      Pow2Add(a - 1, b);
    }
  }

  lemma WordBound()
    ensures Pow2(64) == 0x1_0000_0000_0000_0000
  {
    assert Pow2(4) == 16;
    Pow2Add(4, 4);
    assert Pow2(8) == 0x100;
    Pow2Add(8, 8);
    assert Pow2(16) == 0x1_0000;
    Pow2Add(16, 16);
    assert Pow2(32) == 0x1_0000_0000;
    Pow2Add(32, 32);
  }

  /** Only the 64 low bits of a word can be set. */
  lemma WordBits(x: Word, i: nat)
    requires 64 <= i
    ensures !Bit(x, i)
  {
    WordBound();
    BitBound(x, 64, i);
  }

  lemma AllOnesBits(i: nat)
    ensures Bit(AllOnes, i) <==> i < 64
  {
    WordBound();
    BitOnes(64, i);
  }

  /** Two words with the same 64 bits are equal. */
  lemma WordsEqual(a: Word, b: Word)
    requires forall i: nat :: i < 64 ==> Bit(a, i) == Bit(b, i)
    ensures a == b
  {
    WordBound();
    BitsBelow(a, b, 64);
  }

  lemma WordZero(x: Word)
    ensures x == 0 ==> forall i: nat :: i < 64 ==> !Bit(x, i)
    ensures (forall i: nat :: i < 64 ==> !Bit(x, i)) ==> x == 0
  {
    if x == 0 {
      forall i: nat ensures !Bit(x, i) {
        BitZero(i);
      }
    }
    if forall i: nat :: i < 64 ==> !Bit(x, i) {
      forall i: nat ensures !Bit(0, i) {
        BitZero(i);
      }
      WordsEqual(x, 0);
    }
  }

  /** The one-literal word 1 << lit. */
  function LitWord(lit: nat): (w: Word)
    requires lit < 64
    ensures forall i: nat {:trigger Bit(w, i)} :: Bit(w, i) <==> i == lit
  {
    WordBound();
    Pow2Monotone(lit + 1, 64);
    forall i: nat ensures Bit(Pow2(lit), i) <==> i == lit {
      BitPow2(lit, i);
    }
    Pow2(lit)
  }

  /** c & d on words. */
  function AndWord(a: Word, b: Word): (r: Word)
    ensures forall i: nat {:trigger Bit(r, i)} :: Bit(r, i) <==> Bit(a, i) && Bit(b, i)
  {
    AndLe(a, b);
    forall i: nat ensures Bit(And(a, b), i) <==> Bit(a, i) && Bit(b, i) {
      BitAnd(a, b, i);
    }
    And(a, b)
  }

  /** c | d on words. */
  function OrWord(a: Word, b: Word): (r: Word)
    ensures forall i: nat {:trigger Bit(r, i)} :: Bit(r, i) <==> Bit(a, i) || Bit(b, i)
  {
    WordBound();
    OrBound(a, b, 64);
    forall i: nat ensures Bit(Or(a, b), i) <==> Bit(a, i) || Bit(b, i) {
      BitOr(a, b, i);
    }
    Or(a, b)
  }

  /** c & ~d on words. */
  function DiffWord(a: Word, b: Word): (r: Word)
    ensures forall i: nat {:trigger Bit(r, i)} :: Bit(r, i) <==> Bit(a, i) && !Bit(b, i)
  {
    DiffLe(a, b);
    forall i: nat ensures Bit(Diff(a, b), i) <==> Bit(a, i) && !Bit(b, i) {
      BitDiff(a, b, i);
    }
    Diff(a, b)
  }

  /** cube_has_lit: the cube contains the literal. */
  predicate HasLit(cube: Word, lit: nat)
    requires lit < 64
  {
    AndWord(cube, LitWord(lit)) > 0
  }

  lemma HasLitBit(cube: Word, lit: nat)
    requires lit < 64
    ensures HasLit(cube, lit) <==> Bit(cube, lit)
  {
    var a := AndWord(cube, LitWord(lit));
    WordZero(a);
  }

  /** Cube d is contained in cube c: (c & d) == d. */
  predicate Covers(c: Word, d: Word)
  {
    AndWord(c, d) == d
  }

  lemma CoversBits(c: Word, d: Word)
    ensures Covers(c, d) ==> forall i: nat :: i < 64 && Bit(d, i) ==> Bit(c, i)
    ensures (forall i: nat :: i < 64 && Bit(d, i) ==> Bit(c, i)) ==> Covers(c, d)
  {
    var a := AndWord(c, d);
    assert forall i: nat :: Bit(a, i) <==> Bit(c, i) && Bit(d, i);
    if forall i: nat :: i < 64 && Bit(d, i) ==> Bit(c, i) {
      WordsEqual(a, d);
    } else {
      var i: nat :| i < 64 && Bit(d, i) && !Bit(c, i);
      assert !Bit(a, i);
    }
  }

  // ---------------------------------------------------------------------
  // Literal counts

  /** Total number of literals of an SOP: the sum of its cubes' popcounts. */
  function SopLits(sop: seq<Word>): nat
  {
    if sop == [] then 0 else SopLits(sop[..|sop| - 1]) + Pop(sop[|sop| - 1])
  }

  lemma {:induction false} SopLitsAppend(a: seq<Word>, b: seq<Word>)
    ensures SopLits(a + b) == SopLits(a) + SopLits(b)
    decreases |b|
  {
    if b == [] {
      assert a + b == a;
    } else {
      assert (a + b)[..|a + b| - 1] == a + b[..|b| - 1];
      SopLitsAppend(a, b[..|b| - 1]);
    }
  }

  /** cube_count_lit: clears the lowest set bit until none is left. */
  method CubeCountLit(cube: Word) returns (count: nat)
    ensures count == Pop(cube)
    ensures count <= 64
  {
    var c: nat := cube;
    count := 0;
    WordBound();
    PopBound(cube, 64);
    while c != 0
      invariant count + Pop(c) == Pop(cube)
      decreases c
    {
      PopClearLowest(c);
      c := And(c, c - 1);
      count := count + 1;
    }
  }

  lemma {:induction false} PopBound(x: nat, k: nat)
    requires x < Pow2(k)
    ensures Pop(x) <= k
    decreases k
  {
    if k > 0 {
      PopBound(x / 2, k - 1);
    }
  }

  /** sop_count_lit: sums the cube literal counts. */
  method SopCountLit(sop: seq<Word>) returns (count: nat)
    ensures count == SopLits(sop)
  {
    count := 0;
    for k := 0 to |sop|
      invariant count == SopLits(sop[..k])
    {
      assert sop[..k + 1][..k] == sop[..k];
      var n := CubeCountLit(sop[k]);
      count := count + n;
    }
    assert sop[..|sop|] == sop;
  }

  // ---------------------------------------------------------------------
  // Literal occurrences

  /** Number of cubes among the first n that contain lit. */
  function OccIn(sop: seq<Word>, lit: nat, n: nat): (r: nat)
    requires n <= |sop|
    ensures r <= n
  {
    if n == 0 then 0 else OccIn(sop, lit, n - 1) + (if Bit(sop[n - 1], lit) then 1 else 0)
  }

  /** Number of cubes of the SOP that contain lit. */
  function Occ(sop: seq<Word>, lit: nat): nat
  {
    OccIn(sop, lit, |sop|)
  }

  lemma {:induction false} OccInMono(sop: seq<Word>, lit: nat, m: nat, n: nat)
    requires m <= n <= |sop|
    ensures OccIn(sop, lit, m) <= OccIn(sop, lit, n)
    decreases n
  {
    if m < n {
      OccInMono(sop, lit, m, n - 1);
    }
  }

  /** Occurrence count of lit, one cube at a time. */
  method CountOcc(sop: seq<Word>, lit: nat) returns (n: nat)
    requires lit < 64
    ensures n == Occ(sop, lit)
  {
    n := 0;
    for k := 0 to |sop|
      invariant n == OccIn(sop, lit, k)
    {
      HasLitBit(sop[k], lit);
      if HasLit(sop[k], lit) {
        n := n + 1;
      }
    }
  }

  /** sop_lit_occur: the first literal below litNum that occurs in two cubes. */
  method SopLitOccur(sop: seq<Word>, litNum: nat) returns (r: int)
    requires litNum <= 64
    ensures -1 <= r < litNum
    ensures r == -1 <==> forall l: nat :: l < litNum ==> Occ(sop, l) < 2
    ensures r >= 0 ==> Occ(sop, r) >= 2 && forall l: nat :: l < r ==> Occ(sop, l) < 2
  {
    for lit := 0 to litNum
      invariant forall l: nat :: l < lit ==> Occ(sop, l) < 2
    {
      var times := 0;
      for k := 0 to |sop|
        invariant times == OccIn(sop, lit, k) && times <= 1
      {
        HasLitBit(sop[k], lit);
        if HasLit(sop[k], lit) {
          times := times + 1;
        }
        if times > 1 {
          assert times == OccIn(sop, lit, k + 1);
          OccInMono(sop, lit, k + 1, |sop|);
          assert Occ(sop, lit) >= 2;
          return lit;
        }
      }
    }
    return -1;
  }

  /** sop_least_lit: the first literal below litNum with the fewest (but at
   *  least two) occurrences, or -1. */
  method SopLeastLit(sop: seq<Word>, litNum: nat) returns (r: int)
    requires litNum <= 64
    ensures -1 <= r < litNum
    ensures r == -1 <==> forall l: nat :: l < litNum ==> Occ(sop, l) < 2 || Occ(sop, l) >= 0xFFFF_FFFF
    ensures r >= 0 ==> 2 <= Occ(sop, r) < 0xFFFF_FFFF
    ensures r >= 0 ==> forall l: nat :: l < litNum && Occ(sop, l) >= 2 ==> Occ(sop, r) <= Occ(sop, l)
    ensures r >= 0 ==> forall l: nat :: l < r && Occ(sop, l) >= 2 ==> Occ(sop, r) < Occ(sop, l)
  {
    r := -1;
    var least: nat := 0xFFFF_FFFF;
    for lit := 0 to litNum
      invariant -1 <= r < lit
      invariant r == -1 ==> least == 0xFFFF_FFFF
      invariant r == -1 <==> forall l: nat :: l < lit ==> Occ(sop, l) < 2 || Occ(sop, l) >= 0xFFFF_FFFF
      invariant r >= 0 ==> 2 <= least < 0xFFFF_FFFF && Occ(sop, r) == least
      invariant forall l: nat :: l < lit && Occ(sop, l) >= 2 ==> least <= Occ(sop, l)
      invariant r >= 0 ==> forall l: nat :: l < r && Occ(sop, l) >= 2 ==> least < Occ(sop, l)
    {
      var times := CountOcc(sop, lit);
      if times > 1 && times < least {
        r := lit;
        least := times;
      }
    }
  }

  /** The literal sop_most_lit picks: in the cube, occurring at least twice,
   *  as often as any other literal of the cube, and strictly more often than
   *  every earlier one. */
  predicate IsMostLit(sop: seq<Word>, cube: Word, litNum: nat, lit: nat)
  {
    lit < litNum && Bit(cube, lit) && Occ(sop, lit) >= 2 &&
    (forall l: nat :: l < litNum && Bit(cube, l) ==> Occ(sop, l) <= Occ(sop, lit)) &&
    (forall l: nat :: l < lit && Bit(cube, l) ==> Occ(sop, l) < Occ(sop, lit))
  }

  /** sop_most_lit: the most frequent literal of the cube (occurring at least
   *  twice), the first one on ties; -1 if none. */
  method SopMostLit(sop: seq<Word>, cube: Word, litNum: nat) returns (r: int)
    requires litNum <= 64
    ensures -1 <= r < litNum
    ensures r == -1 <==> forall l: nat :: l < litNum && Bit(cube, l) ==> Occ(sop, l) < 2
    ensures r >= 0 ==> IsMostLit(sop, cube, litNum, r)
  {
    r := -1;
    var most: nat := 1;
    for lit := 0 to litNum
      invariant -1 <= r < lit
      invariant r == -1 ==> most == 1
      invariant r >= 0 ==> Bit(cube, r) && most == Occ(sop, r) && most >= 2
      invariant forall l: nat :: l < lit && Bit(cube, l) ==> Occ(sop, l) <= most
      invariant r >= 0 ==> forall l: nat :: l < r && Bit(cube, l) ==> Occ(sop, l) < most
    {
      HasLitBit(cube, lit);
      if !HasLit(cube, lit) {
        continue;
      }
      var times := CountOcc(sop, lit);
      if times > most {
        r := lit;
        most := times;
      }
    }
  }

  /** sop_best_lit: appends the one-literal cube of the most frequent literal.
   *  None where the source would shift by -1 (no literal of the cube occurs
   *  twice), which is undefined behaviour. */
  method SopBestLit(sop: seq<Word>, result: seq<Word>, cube: Word, litNum: nat) returns (r: Option<seq<Word>>)
    requires litNum <= 64
    ensures r.None? <==> forall l: nat :: l < litNum && Bit(cube, l) ==> Occ(sop, l) < 2
    ensures r.Some? ==> exists l: nat :: IsMostLit(sop, cube, litNum, l) && r.value == result + [LitWord(l)]
  {
    var most := SopMostLit(sop, cube, litNum);
    if most < 0 {
      return None;
    }
    r := Some(result + [LitWord(most)]);
  }

  /** Literal i is in every cube of the first n that contains lit. */
  predicate AllWithLitHave(sop: seq<Word>, n: nat, lit: nat, i: nat)
    requires n <= |sop|
  {
    forall k :: 0 <= k < n && Bit(sop[k], lit) ==> Bit(sop[k], i)
  }

  /** get_most_lit: true iff lit occurs in at least two cubes; the output cube
   *  is the intersection of the cubes that contain lit (all ones if none). */
  method GetMostLit(sop: seq<Word>, lit: nat) returns (found: bool, cube: Word)
    requires lit < 64
    ensures found <==> Occ(sop, lit) >= 2
    ensures forall i: nat :: i < 64 ==> (Bit(cube, i) <==> AllWithLitHave(sop, |sop|, lit, i))
  {
    cube := AllOnes;
    forall i: nat ensures Bit(cube, i) <==> i < 64 {
      AllOnesBits(i);
    }
    var times := 0;
    for k := 0 to |sop|
      invariant times == OccIn(sop, lit, k)
      invariant forall i: nat :: i < 64 ==> (Bit(cube, i) <==> AllWithLitHave(sop, k, lit, i))
    {
      HasLitBit(sop[k], lit);
      if HasLit(sop[k], lit) {
        times := times + 1;
        cube := AndWord(cube, sop[k]);
      }
    }
    found := times > 1;
  }

  // ---------------------------------------------------------------------
  // Common cube

  /** Literal i is in every cube of the SOP. */
  predicate Common(sop: seq<Word>, i: nat)
  {
    forall k :: 0 <= k < |sop| ==> Bit(sop[k], i)
  }

  /** The largest cube dividing every cube of the SOP: the and of all cubes,
   *  all ones for the empty SOP. */
  function CommonCube(sop: seq<Word>): (m: Word)
    ensures forall i: nat :: i < 64 ==> (Bit(m, i) <==> Common(sop, i))
  {
    if sop == [] then
      assert forall i: nat :: Bit(AllOnes, i) <==> i < 64 by {
        forall i: nat ensures Bit(AllOnes, i) <==> i < 64 {
          AllOnesBits(i);
        }
      }
      AllOnes
    else
      var m := AndWord(CommonCube(sop[..|sop| - 1]), sop[|sop| - 1]);
      assert forall i: nat :: i < 64 ==> (Bit(m, i) <==> Common(sop, i)) by {
        forall i: nat | i < 64 ensures Bit(m, i) <==> Common(sop, i) {
          if Common(sop[..|sop| - 1], i) && Bit(sop[|sop| - 1], i) {
            forall k | 0 <= k < |sop| ensures Bit(sop[k], i) {
              if k < |sop| - 1 {
                assert sop[..|sop| - 1][k] == sop[k];
              }
            }
          }
        }
      }
      m
  }

  /** The "find common cube" loop of sop_make_cube_free and sop_is_cube_free. */
  method FindCommonCube(sop: seq<Word>) returns (mask: Word)
    ensures mask == CommonCube(sop)
  {
    mask := AllOnes;
    for k := 0 to |sop|
      invariant mask == CommonCube(sop[..k])
    {
      assert sop[..k + 1][..k] == sop[..k];
      mask := AndWord(mask, sop[k]);
    }
    assert sop[..|sop|] == sop;
  }

  /** No literal is common to all cubes. */
  predicate IsCubeFree(sop: seq<Word>)
  {
    forall i: nat :: i < 64 ==> !Common(sop, i)
  }

  lemma CubeFreeMask(sop: seq<Word>)
    ensures IsCubeFree(sop) <==> CommonCube(sop) == 0
  {
    WordZero(CommonCube(sop));
  }

  /** The SOP with its common cube divided out (unchanged when that cube is
   *  empty). */
  function MakeCubeFree(sop: seq<Word>): seq<Word>
  {
    var m := CommonCube(sop);
    if m == 0 then sop else seq(|sop|, k requires 0 <= k < |sop| => DiffWord(sop[k], m))
  }

  /** sop_make_cube_free: clears the common cube from every cube in place. */
  method SopMakeCubeFree(sop: array<Word>)
    modifies sop
    ensures sop[..] == MakeCubeFree(old(sop[..]))
  {
    var mask := FindCommonCube(sop[..]);
    if mask == 0 {
      return;
    }
    ghost var o := sop[..];
    for k := 0 to sop.Length
      invariant forall j :: 0 <= j < k ==> sop[j] == DiffWord(o[j], mask)
      invariant forall j :: k <= j < sop.Length ==> sop[j] == o[j]
    {
      sop[k] := DiffWord(sop[k], mask);
    }
  }

  /** sop_is_cube_free. */
  method SopIsCubeFree(sop: seq<Word>) returns (b: bool)
    ensures b <==> IsCubeFree(sop)
  {
    var mask := FindCommonCube(sop);
    CubeFreeMask(sop);
    b := mask == 0;
  }

  /** Exactly the literals common to all cubes are removed, and the SOP keeps
   *  its length. */
  lemma MakeCubeFreeBits(sop: seq<Word>, k: nat, i: nat)
    requires k < |sop| && i < 64
    ensures |MakeCubeFree(sop)| == |sop|
    ensures Bit(MakeCubeFree(sop)[k], i) <==> Bit(sop[k], i) && !Common(sop, i)
  {
    WordZero(CommonCube(sop));
  }

  /** Multiplying the common cube back in gives the original cube. */
  lemma MakeCubeFreeRestore(sop: seq<Word>, k: nat)
    requires k < |sop|
    ensures OrWord(MakeCubeFree(sop)[k], CommonCube(sop)) == sop[k]
  {
    var r := OrWord(MakeCubeFree(sop)[k], CommonCube(sop));
    forall i: nat | i < 64 ensures Bit(r, i) == Bit(sop[k], i) {
      MakeCubeFreeBits(sop, k, i);
    }
    WordsEqual(r, sop[k]);
  }

  /** A non-empty SOP is cube free after sop_make_cube_free. */
  lemma MakeCubeFreeIsFree(sop: seq<Word>)
    requires sop != []
    ensures IsCubeFree(MakeCubeFree(sop))
  {
    var r := MakeCubeFree(sop);
    forall i: nat | i < 64 ensures !Common(r, i) {
      MakeCubeFreeBits(sop, 0, i);
      if Common(sop, i) {
        assert !Bit(r[0], i);
      } else {
        var k :| 0 <= k < |sop| && !Bit(sop[k], i);
        MakeCubeFreeBits(sop, k, i);
        assert !Bit(r[k], i);
      }
    }
  }

  /** A second sop_make_cube_free changes nothing. */
  lemma MakeCubeFreeIdempotent(sop: seq<Word>)
    ensures MakeCubeFree(MakeCubeFree(sop)) == MakeCubeFree(sop)
  {
    if sop != [] {
      MakeCubeFreeIsFree(sop);
      CubeFreeMask(MakeCubeFree(sop));
    }
  }

  // ---------------------------------------------------------------------
  // Division

  /** The cubes of the dividend containing d, with d removed (the quotient of
   *  dividing by the cube d), in order. */
  function QuotientBy(dividend: seq<Word>, d: Word): seq<Word>
  {
    if dividend == [] then []
    else
      var c := dividend[|dividend| - 1];
      QuotientBy(dividend[..|dividend| - 1], d) + (if Covers(c, d) then [DiffWord(c, d)] else [])
  }

  /** The cubes of the dividend not containing d, in order. */
  function RemainderBy(dividend: seq<Word>, d: Word): seq<Word>
  {
    if dividend == [] then []
    else
      var c := dividend[|dividend| - 1];
      RemainderBy(dividend[..|dividend| - 1], d) + (if Covers(c, d) then [] else [c])
  }

  /** Each quotient cube multiplied by d. */
  function Times(q: seq<Word>, d: Word): (r: seq<Word>)
    ensures |r| == |q|
  {
    if q == [] then [] else Times(q[..|q| - 1], d) + [OrWord(q[|q| - 1], d)]
  }

  lemma OrDiffCovered(c: Word, d: Word)
    requires Covers(c, d)
    ensures OrWord(DiffWord(c, d), d) == c
  {
    CoversBits(c, d);
    WordsEqual(OrWord(DiffWord(c, d), d), c);
  }

  lemma TimesSnoc(q: seq<Word>, x: Word, d: Word)
    ensures Times(q + [x], d) == Times(q, d) + [OrWord(x, d)]
  {
    assert (q + [x])[..|q|] == q;
  }

  /** Unfolds the quotient and remainder at the last dividend cube. */
  lemma DivideSnoc(dividend: seq<Word>, d: Word)
    requires dividend != []
    ensures var init, c := dividend[..|dividend| - 1], dividend[|dividend| - 1];
      if Covers(c, d) then
        QuotientBy(dividend, d) == QuotientBy(init, d) + [DiffWord(c, d)] && RemainderBy(dividend, d) == RemainderBy(init, d)
      else
        QuotientBy(dividend, d) == QuotientBy(init, d) && RemainderBy(dividend, d) == RemainderBy(init, d) + [c]
  {
  }

  lemma MultisetLast<T>(s: seq<T>)
    requires s != []
    ensures multiset(s) == multiset(s[..|s| - 1]) + multiset{s[|s| - 1]}
  {
    assert s == s[..|s| - 1] + [s[|s| - 1]];
  }

  /** Division by a cube is exact: quotient times divisor plus remainder is
   *  the dividend, up to order. */
  lemma {:induction false} DivideRecombines(dividend: seq<Word>, d: Word)
    ensures multiset(Times(QuotientBy(dividend, d), d)) + multiset(RemainderBy(dividend, d)) == multiset(dividend)
    decreases |dividend|
  {
    if dividend != [] {
      var init, c := dividend[..|dividend| - 1], dividend[|dividend| - 1];
      DivideRecombines(init, d);
      DivideSnoc(dividend, d);
      MultisetLast(dividend);
      var q, r := QuotientBy(init, d), RemainderBy(init, d);
      if Covers(c, d) {
        OrDiffCovered(c, d);
        TimesSnoc(q, DiffWord(c, d), d);
        assert multiset(Times(q, d) + [c]) == multiset(Times(q, d)) + multiset{c};
      } else {
        assert multiset(r + [c]) == multiset(r) + multiset{c};
      }
    }
  }

  /** Quotient cubes share no literal with d; remainder cubes do not contain d. */
  lemma {:induction false} DivideParts(dividend: seq<Word>, d: Word)
    ensures forall x :: x in QuotientBy(dividend, d) ==> AndWord(x, d) == 0
    ensures forall x :: x in RemainderBy(dividend, d) ==> !Covers(x, d)
    ensures |QuotientBy(dividend, d)| + |RemainderBy(dividend, d)| == |dividend|
    decreases |dividend|
  {
    if dividend != [] {
      var c := dividend[|dividend| - 1];
      DivideParts(dividend[..|dividend| - 1], d);
      WordZero(AndWord(DiffWord(c, d), d));
    }
  }

  lemma MulSucc(n: nat, p: nat)
    ensures (n + 1) * p == n * p + p
  {
  }

  /** Dividing by a cube preserves the literal count: the quotient's literals,
   *  the divisor's once per quotient cube and the remainder's add up to the
   *  dividend's. */
  lemma {:induction false} DivideLits(dividend: seq<Word>, d: Word)
    ensures SopLits(QuotientBy(dividend, d)) + |QuotientBy(dividend, d)| * Pop(d) + SopLits(RemainderBy(dividend, d))
            == SopLits(dividend)
    decreases |dividend|
  {
    if dividend != [] {
      var init, c := dividend[..|dividend| - 1], dividend[|dividend| - 1];
      DivideLits(init, d);
      DivideSnoc(dividend, d);
      var q, r := QuotientBy(init, d), RemainderBy(init, d);
      var n, pd := |q|, Pop(d);
      assert SopLits(dividend) == SopLits(init) + Pop(c);
      if Covers(c, d) {
        PopDiffCovered(c, d);
        SopLitsAppend(q, [DiffWord(c, d)]);
        assert SopLits([DiffWord(c, d)]) == Pop(DiffWord(c, d));
        MulSucc(n, pd);
      } else {
        SopLitsAppend(r, [c]);
        assert SopLits([c]) == Pop(c);
      }
    }
  }

  /** The SOP divided by a literal: the cubes containing it, with it cleared. */
  function DivideByLit(sop: seq<Word>, lit: nat): seq<Word>
    requires lit < 64
  {
    if sop == [] then []
    else
      var c := sop[|sop| - 1];
      DivideByLit(sop[..|sop| - 1], lit) + (if Bit(c, lit) then [DiffWord(c, LitWord(lit))] else [])
  }

  /** Dividing by a literal is dividing by its one-literal cube; the result has
   *  one cube per occurrence of the literal. */
  lemma {:induction false} DivideByLitIsQuotient(sop: seq<Word>, lit: nat)
    requires lit < 64
    ensures DivideByLit(sop, lit) == QuotientBy(sop, LitWord(lit))
    ensures |DivideByLit(sop, lit)| == Occ(sop, lit)
    decreases |sop|
  {
    if sop != [] {
      var init, c := sop[..|sop| - 1], sop[|sop| - 1];
      DivideByLitIsQuotient(init, lit);
      CoversBits(c, LitWord(lit));
      assert OccIn(sop, lit, |init|) == OccIn(init, lit, |init|) by {
        OccInPrefix(sop, init, lit, |init|);
      }
    }
  }

  lemma {:induction false} OccInPrefix(s: seq<Word>, t: seq<Word>, lit: nat, n: nat)
    requires n <= |s| && n <= |t| && s[..n] == t[..n]
    ensures OccIn(s, lit, n) == OccIn(t, lit, n)
    decreases n
  {
    if n > 0 {
      assert s[n - 1] == s[..n][n - 1] == t[n - 1];
      assert s[..n - 1] == s[..n][..n - 1];
      assert t[..n - 1] == t[..n][..n - 1];
      OccInPrefix(s, t, lit, n - 1);
    }
  }

  /** sop_divide_by_lit: compacts the cubes containing lit, with lit cleared,
   *  to the front; the vector is then cut to the returned length. */
  method SopDivideByLit(sop: array<Word>, lit: nat) returns (p: nat)
    requires lit < 64
    modifies sop
    ensures p <= sop.Length
    ensures sop[..p] == DivideByLit(old(sop[..]), lit)
    ensures forall k :: p <= k < sop.Length ==> sop[k] == old(sop[k])
  {
    ghost var o := sop[..];
    p := 0;
    for i := 0 to sop.Length
      invariant p <= i
      invariant sop[..p] == DivideByLit(o[..i], lit)
      invariant forall k :: i <= k < sop.Length ==> sop[k] == o[k]
      invariant forall k :: p <= k < sop.Length ==> sop[k] == o[k]
    {
      assert o[..i + 1][..i] == o[..i];
      HasLitBit(sop[i], lit);
      if HasLit(sop[i], lit) {
        sop[p] := DiffWord(sop[i], LitWord(lit));
        p := p + 1;
      }
    }
    assert o[..sop.Length] == o;
  }

  /** sop_divide_by_cube: divides by the single cube of the divisor. */
  method SopDivideByCube(dividend: seq<Word>, divisor: seq<Word>) returns (quotient: seq<Word>, remainder: seq<Word>)
    requires |divisor| == 1
    ensures quotient == QuotientBy(dividend, divisor[0])
    ensures remainder == RemainderBy(dividend, divisor[0])
  {
    quotient, remainder := [], [];
    for k := 0 to |dividend|
      invariant quotient == QuotientBy(dividend[..k], divisor[0])
      invariant remainder == RemainderBy(dividend[..k], divisor[0])
    {
      assert dividend[..k + 1][..k] == dividend[..k];
      var c := dividend[k];
      if AndWord(c, divisor[0]) == divisor[0] {
        quotient := quotient + [DiffWord(c, divisor[0])];
      } else {
        remainder := remainder + [c];
      }
    }
    assert dividend[..|dividend|] == dividend;
  }

  /** sop_divide_by_cube_no_reminder: the quotient only. */
  method SopDivideByCubeNoReminder(dividend: seq<Word>, divisor: Word) returns (quotient: seq<Word>)
    ensures quotient == QuotientBy(dividend, divisor)
  {
    quotient := [];
    for k := 0 to |dividend|
      invariant quotient == QuotientBy(dividend[..k], divisor)
    {
      assert dividend[..k + 1][..k] == dividend[..k];
      var c := dividend[k];
      if AndWord(c, divisor) == divisor {
        quotient := quotient + [DiffWord(c, divisor)];
      }
    }
    assert dividend[..|dividend|] == dividend;
  }

  // ---------------------------------------------------------------------
  // Algebraic division by a multi-cube divisor

  /** The scratch mark as a word, 1 << 63. */
  const MarkWord: Word := 0x8000_0000_0000_0000

  /** Whether the cube carries the scratch mark. Bit 63 is the top bit of a
   *  word, so it is set exactly from 1 << 63 on (MarkIsBit63). */
  predicate IsMarked(c: Word)
  {
    c >= MarkWord
  }

  /** The cube with the scratch mark set, c | (1 << 63). */
  function Marked(c: Word): Word
  {
    if IsMarked(c) then c else c + MarkWord
  }

  /** The cube with the scratch mark cleared, c & ~(1 << 63). */
  function Unmarked(c: Word): Word
  {
    if IsMarked(c) then c - MarkWord else c
  }

  /** The mark is bit 63, and setting or clearing it is the or with and the
   *  difference from the one-literal word of bit 63. */
  lemma MarkIsBit63(c: Word)
    ensures IsMarked(c) <==> Bit(c, MarkBit)
    ensures Marked(c) == OrWord(c, LitWord(MarkBit))
    ensures Unmarked(c) == DiffWord(c, LitWord(MarkBit))
  {
    WordBound();
    assert Pow2(63) == MarkWord;
    TopBit(c, 63);
    var low := Unmarked(c);
    TopBit(low, 63);
    forall i: nat | i < 64 ensures Bit(Marked(c), i) == Bit(OrWord(c, LitWord(MarkBit)), i) {
      if !IsMarked(c) {
        BitAddPow2(c, 63, i);
      }
    }
    WordsEqual(Marked(c), OrWord(c, LitWord(MarkBit)));
    forall i: nat | i < 64 ensures Bit(low, i) == Bit(DiffWord(c, LitWord(MarkBit)), i) {
      if IsMarked(c) {
        BitAddPow2(low, 63, i);
      }
    }
    WordsEqual(low, DiffWord(c, LitWord(MarkBit)));
  }

  /** Some divisor cube is contained in c. */
  predicate CoveredBySome(c: Word, divisor: seq<Word>)
  {
    exists e :: 0 <= e < |divisor| && Covers(c, divisor[e])
  }

  /** An unmarked dividend cube that contains d and leaves q once d is
   *  removed. */
  predicate Matches(c: Word, d: Word, q: Word)
  {
    !IsMarked(c) && Covers(c, d) && DiffWord(c, d) == q
  }

  /** Some unmarked cube of the original dividend is q times d. */
  predicate Produced(o: seq<Word>, d: Word, q: Word)
  {
    exists j :: 0 <= j < |o| && Matches(o[j], d, q)
  }

  /** The dividend during division: every cube is either untouched or was
   *  unmarked, contained some divisor cube, and now carries the mark. */
  predicate MarkedFrom(o: seq<Word>, cur: seq<Word>, divisor: seq<Word>)
  {
    |cur| == |o| &&
    forall k :: 0 <= k < |o| ==>
      cur[k] == o[k] || (cur[k] == Marked(o[k]) && !IsMarked(o[k]) && CoveredBySome(o[k], divisor))
  }

  /** An unmarked cube of the current dividend is still the original one. */
  lemma UnmarkedIsOriginal(o: seq<Word>, cur: seq<Word>, divisor: seq<Word>, k: nat)
    requires MarkedFrom(o, cur, divisor) && k < |cur| && !IsMarked(cur[k])
    ensures cur[k] == o[k]
  {
  }

  /** Marking an unmarked cube that contains a divisor cube keeps MarkedFrom. */
  lemma MarkStep(o: seq<Word>, cur: seq<Word>, divisor: seq<Word>, j: nat, e: nat)
    requires MarkedFrom(o, cur, divisor) && j < |cur| && e < |divisor|
    requires !IsMarked(cur[j]) && Covers(cur[j], divisor[e])
    ensures MarkedFrom(o, cur[j := Marked(cur[j])], divisor)
  {
    UnmarkedIsOriginal(o, cur, divisor, j);
  }

  /** The first divisor cube contained in c, or |divisor|. */
  method FindDivisor(c: Word, divisor: seq<Word>) returns (i: nat)
    ensures i <= |divisor|
    ensures i < |divisor| ==> Covers(c, divisor[i])
    ensures forall e :: 0 <= e < i ==> !Covers(c, divisor[e])
    ensures i == FirstDivisor(c, divisor, 0)
  {
    i := 0;
    while i < |divisor|
      invariant i <= |divisor|
      invariant forall e :: 0 <= e < i ==> !Covers(c, divisor[e])
    {
      if AndWord(c, divisor[i]) == divisor[i] {
        return;
      }
      i := i + 1;
    }
  }

  /** The first cube of the dividend that matches d for quotient q, or
   *  |cur|. */
  method FindMatch(cur: seq<Word>, d: Word, q: Word) returns (j: nat)
    ensures j <= |cur|
    ensures j < |cur| ==> Matches(cur[j], d, q)
    ensures forall k :: 0 <= k < j ==> !Matches(cur[k], d, q)
    ensures j == FirstMatch(cur, d, q, 0)
  {
    FirstMatchFirst(cur, d, q, 0);
    j := 0;
    while j < |cur|
      invariant j <= |cur|
      invariant forall k :: 0 <= k < j ==> !Matches(cur[k], d, q)
    {
      HasLitBit(cur[j], MarkBit);
      MarkIsBit63(cur[j]);
      if !HasLit(cur[j], MarkBit) && AndWord(cur[j], d) == d && q == DiffWord(cur[j], d) {
        return;
      }
      j := j + 1;
    }
  }

  /** Whether quotient q is obtained from every divisor cube other than (a
   *  copy of) divisor[di]. */
  method AllDivisorsMatch(cur: seq<Word>, divisor: seq<Word>, di: nat, q: Word) returns (found: bool)
    requires di < |divisor|
    ensures found <==> forall e :: 0 <= e < |divisor| && divisor[e] != divisor[di] ==> Produced(cur, divisor[e], q)
  {
    found := true;
    for e := 0 to |divisor|
      invariant found
      invariant forall f :: 0 <= f < e && divisor[f] != divisor[di] ==> Produced(cur, divisor[f], q)
    {
      if divisor[e] == divisor[di] {
        continue;
      }
      var j := FindMatch(cur, divisor[e], q);
      found := j < |cur|;
      if !found {
        return;
      }
    }
  }

  /** Marks the first cube matching each divisor cube other than (a copy of)
   *  divisor[di]. */
  method MarkCovered(dividend: array<Word>, divisor: seq<Word>, di: nat, q: Word, ghost o: seq<Word>)
    requires di < |divisor| && MarkedFrom(o, dividend[..], divisor)
    modifies dividend
    ensures MarkedFrom(o, dividend[..], divisor)
    ensures dividend[..] == MarkMatches(old(dividend[..]), divisor, di, q, 0)
  {
    ghost var target := MarkMatches(dividend[..], divisor, di, q, 0);
    for e := 0 to |divisor|
      invariant MarkedFrom(o, dividend[..], divisor)
      invariant target == MarkMatches(dividend[..], divisor, di, q, e)
    {
      if divisor[e] == divisor[di] {
        continue;
      }
      var j := FindMatch(dividend[..], divisor[e], q);
      if j < dividend.Length {
        MarkStep(o, dividend[..], divisor, j, e);
        MarkMatchesUnfold(dividend[..], divisor, di, q, e, j);
        dividend[j] := Marked(dividend[j]);
      }
    }
  }

  /** The original cubes whose covered flag is clear, among the first n. */
  function Uncovered<T>(o: seq<T>, covered: seq<bool>, n: nat): seq<T>
    requires n <= |o| && n <= |covered|
  {
    if n == 0 then [] else Uncovered(o, covered, n - 1) + (if covered[n - 1] then [] else [o[n - 1]])
  }

  /** sop_divide: algebraic division of the dividend by the divisor. A single
   *  cube divisor is sop_divide_by_cube. Otherwise each unmarked dividend cube
   *  containing a divisor cube yields a quotient cube when that quotient is
   *  obtained from every divisor cube; the cubes used are marked with bit 63.
   *  The unmarked cubes form the remainder, and the marks are cleared. */
  method SopDivide(dividend: array<Word>, divisor: seq<Word>) returns (quotient: seq<Word>, remainder: seq<Word>, ghost covered: seq<bool>)
    modifies dividend
    ensures |divisor| == 1 ==> dividend[..] == old(dividend[..])
    ensures |divisor| == 1 ==> quotient == QuotientBy(old(dividend[..]), divisor[0])
    ensures |divisor| == 1 ==> remainder == RemainderBy(old(dividend[..]), divisor[0])
    ensures |divisor| != 1 ==> Unmarks(old(dividend[..]), dividend[..])
    ensures NoMarks(old(dividend[..])) ==> dividend[..] == old(dividend[..])
    ensures |divisor| != 1 ==> forall x, e :: x in quotient && 0 <= e < |divisor| ==> Produced(old(dividend[..]), divisor[e], x)
    ensures |covered| == dividend.Length
    ensures |divisor| != 1 ==> FlagsExplained(old(dividend[..]), covered, divisor)
    ensures |divisor| != 1 ==> remainder == Uncovered(old(dividend[..]), covered, dividend.Length)
    ensures |divisor| != 1 ==> quotient == Select(old(dividend[..]), divisor, 0).0
    ensures |divisor| != 1 ==> covered == Flags(Select(old(dividend[..]), divisor, 0).1)
    ensures NoMarks(old(dividend[..])) && DistinctCubes(divisor) ==>
      multiset(Product(quotient, divisor)) + multiset(remainder) == multiset(old(dividend[..]))
  {
    ghost var o := dividend[..];
    if |divisor| == 1 {
      quotient, remainder := SopDivideByCube(dividend[..], divisor);
      covered := seq(dividend.Length, k => false);
      CubeDivisionRecombines(o, divisor);
      return;
    }
    quotient := SelectQuotient(dividend, divisor, o);
    ghost var cur := dividend[..];
    covered := seq(dividend.Length, k requires 0 <= k < dividend.Length => IsMarked(cur[k]));
    assert covered == Flags(cur);
    if NoMarks(o) && DistinctCubes(divisor) {
      SelectRecombines(o, divisor);
    }
    CoveredFlags(o, cur, divisor, covered);
    RemainderFacts(o, cur, divisor, covered, dividend.Length);
    remainder := CollectRemainder(dividend);
    UnmarksTrans(o, cur, dividend[..], divisor);
    if NoMarks(o) {
      UnmarksNoMarks(o, dividend[..]);
    }
  }

  /** Division by a one-cube divisor is exact: quotient times the divisor
   *  plus the remainder is the dividend, up to order. */
  lemma CubeDivisionRecombines(o: seq<Word>, divisor: seq<Word>)
    requires |divisor| == 1
    ensures multiset(Product(QuotientBy(o, divisor[0]), divisor)) + multiset(RemainderBy(o, divisor[0])) == multiset(o)
  {
    assert divisor == [divisor[0]];
    DivideRecombines(o, divisor[0]);
    ProductSingle(QuotientBy(o, divisor[0]), divisor[0]);
  }

  /** Every cube of a is the corresponding cube of o with the mark cleared. */
  predicate Unmarks(o: seq<Word>, a: seq<Word>)
  {
    |a| == |o| && forall k :: 0 <= k < |o| ==> a[k] == Unmarked(o[k])
  }

  /** No cube carries the mark. */
  predicate NoMarks(s: seq<Word>)
  {
    forall k :: 0 <= k < |s| ==> !IsMarked(s[k])
  }

  /** A cube without a covered flag had no mark; a flagged cube had the mark
   *  already or contains some divisor cube. */
  predicate FlagsExplained(o: seq<Word>, covered: seq<bool>, divisor: seq<Word>)
  {
    |covered| == |o| &&
    (forall k :: 0 <= k < |o| && !covered[k] ==> !IsMarked(o[k])) &&
    (forall k :: 0 <= k < |o| && covered[k] ==> IsMarked(o[k]) || CoveredBySome(o[k], divisor))
  }

  lemma UnmarksTrans(o: seq<Word>, cur: seq<Word>, a: seq<Word>, divisor: seq<Word>)
    requires MarkedFrom(o, cur, divisor) && Unmarks(cur, a)
    ensures Unmarks(o, a)
  {
    forall k | 0 <= k < |o| ensures a[k] == Unmarked(o[k]) {
      UnmarkStep(o, cur, divisor, k);
    }
  }

  /** Clearing marks that are not there changes nothing. */
  lemma UnmarksNoMarks(o: seq<Word>, a: seq<Word>)
    requires Unmarks(o, a) && NoMarks(o)
    ensures a == o
  {
    forall k | 0 <= k < |o| ensures a[k] == o[k] {
    }
  }

  /** The division loop of sop_divide: collects the quotient and marks the
   *  dividend cubes it accounts for. */
  method SelectQuotient(dividend: array<Word>, divisor: seq<Word>, ghost o: seq<Word>) returns (quotient: seq<Word>)
    requires o == dividend[..]
    modifies dividend
    ensures MarkedFrom(o, dividend[..], divisor)
    ensures forall x, e :: x in quotient && 0 <= e < |divisor| ==> Produced(o, divisor[e], x)
    ensures (quotient, dividend[..]) == Select(o, divisor, 0)
  {
    quotient := [];
    assert quotient + Select(o, divisor, 0).0 == Select(o, divisor, 0).0;
    for i := 0 to dividend.Length
      invariant MarkedFrom(o, dividend[..], divisor)
      invariant forall x, e :: x in quotient && 0 <= e < |divisor| ==> Produced(o, divisor[e], x)
      invariant Select(o, divisor, 0) == (quotient + Select(dividend[..], divisor, i).0, Select(dividend[..], divisor, i).1)
    {
      SelectStep(dividend[..], divisor, i, quotient);
      var qs := DivideAt(dividend, divisor, i, o);
      quotient := quotient + qs;
    }
    assert quotient + [] == quotient;
  }

  /** One round of the division loop at cube i: an unmarked cube containing
   *  divisor[di] gives quotient cube q when q is obtained from every other
   *  divisor cube; then it and one match per divisor cube are marked. */
  method DivideAt(dividend: array<Word>, divisor: seq<Word>, i: nat, ghost o: seq<Word>) returns (qs: seq<Word>)
    requires i < dividend.Length && MarkedFrom(o, dividend[..], divisor)
    modifies dividend
    ensures MarkedFrom(o, dividend[..], divisor)
    ensures forall x, e :: x in qs && 0 <= e < |divisor| ==> Produced(o, divisor[e], x)
    ensures (qs, dividend[..]) == DivideStep(old(dividend[..]), divisor, i)
  {
    qs := [];
    var c := dividend[i];
    HasLitBit(c, MarkBit);
    MarkIsBit63(c);
    if HasLit(c, MarkBit) {
      return;
    }
    var di := FindDivisor(c, divisor);
    if di >= |divisor| {
      return;
    }
    var cq := DiffWord(c, divisor[di]);
    var found := AllDivisorsMatch(dividend[..], divisor, di, cq);
    if !found {
      return;
    }
    QuotientProduced(o, dividend[..], divisor, i, di, cq);
    DivideStepAccepted(dividend[..], divisor, i, di, cq);
    qs := [cq];
    MarkStep(o, dividend[..], divisor, i, di);
    dividend[i] := Marked(dividend[i]);
    MarkCovered(dividend, divisor, di, cq, o);
  }

  /** The "add remainder" loop of sop_divide: unmarked cubes go to the
   *  remainder, marked ones lose their mark. */
  method CollectRemainder(dividend: array<Word>) returns (remainder: seq<Word>)
    modifies dividend
    ensures remainder == Unflagged(old(dividend[..]), dividend.Length)
    ensures Unmarks(old(dividend[..]), dividend[..])
  {
    ghost var cur := dividend[..];
    remainder := [];
    for k := 0 to dividend.Length
      invariant remainder == Unflagged(cur, k)
      invariant forall j :: 0 <= j < k ==> dividend[j] == Unmarked(cur[j])
      invariant forall j :: k <= j < dividend.Length ==> dividend[j] == cur[j]
    {
      UnflaggedStep(cur, k);
      var c := dividend[k];
      HasLitBit(c, MarkBit);
      MarkIsBit63(c);
      if !HasLit(c, MarkBit) {
        remainder := remainder + [c];
      } else {
        dividend[k] := Unmarked(c);
      }
    }
  }

  lemma UnflaggedStep(cur: seq<Word>, k: nat)
    requires k < |cur|
    ensures Unflagged(cur, k + 1) == Unflagged(cur, k) + (if IsMarked(cur[k]) then [] else [cur[k]])
  {
  }

  /** The cubes without the mark among the first n, in order. */
  function Unflagged(cur: seq<Word>, n: nat): seq<Word>
    requires n <= |cur|
  {
    if n == 0 then [] else Unflagged(cur, n - 1) + (if IsMarked(cur[n - 1]) then [] else [cur[n - 1]])
  }

  /** On the marked dividend, the unmarked cubes are the uncovered original
   *  ones. */
  lemma {:induction false} RemainderFacts(o: seq<Word>, cur: seq<Word>, divisor: seq<Word>, covered: seq<bool>, n: nat)
    requires MarkedFrom(o, cur, divisor) && |covered| == |cur| && n <= |cur|
    requires forall k :: 0 <= k < |cur| ==> covered[k] == IsMarked(cur[k])
    ensures Unflagged(cur, n) == Uncovered(o, covered, n)
    decreases n
  {
    if n > 0 {
      RemainderFacts(o, cur, divisor, covered, n - 1);
      UnmarkStep(o, cur, divisor, n - 1);
    }
  }

  lemma UncoveredStep<T>(o: seq<T>, covered: seq<bool>, k: nat)
    requires k < |o| && k < |covered|
    ensures Uncovered(o, covered, k + 1) == Uncovered(o, covered, k) + (if covered[k] then [] else [o[k]])
  {
  }

  /** The new quotient cube is produced by every divisor cube. */
  lemma QuotientProduced(o: seq<Word>, cur: seq<Word>, divisor: seq<Word>, i: nat, di: nat, q: Word)
    requires MarkedFrom(o, cur, divisor) && i < |cur| && di < |divisor|
    requires !IsMarked(cur[i]) && Covers(cur[i], divisor[di]) && q == DiffWord(cur[i], divisor[di])
    requires forall e :: 0 <= e < |divisor| && divisor[e] != divisor[di] ==> Produced(cur, divisor[e], q)
    ensures forall e :: 0 <= e < |divisor| ==> Produced(o, divisor[e], q)
  {
    UnmarkedIsOriginal(o, cur, divisor, i);
    forall e | 0 <= e < |divisor| ensures Produced(o, divisor[e], q) {
      if divisor[e] == divisor[di] {
        assert Matches(o[i], divisor[e], q);
      } else {
        var j :| 0 <= j < |cur| && Matches(cur[j], divisor[e], q);
        UnmarkedIsOriginal(o, cur, divisor, j);
        assert Matches(o[j], divisor[e], q);
      }
    }
  }

  /** Clearing the mark of a cube of the marked dividend gives back the
   *  original cube without its mark; an unmarked one is the original. */
  lemma UnmarkStep(o: seq<Word>, cur: seq<Word>, divisor: seq<Word>, k: nat)
    requires MarkedFrom(o, cur, divisor) && k < |cur|
    ensures !IsMarked(cur[k]) ==> cur[k] == o[k] && Unmarked(o[k]) == o[k]
    ensures IsMarked(cur[k]) ==> Unmarked(cur[k]) == Unmarked(o[k])
  {
  }

  /** What the covered flags of the marked dividend say about the original. */
  lemma CoveredFlags(o: seq<Word>, cur: seq<Word>, divisor: seq<Word>, covered: seq<bool>)
    requires MarkedFrom(o, cur, divisor) && |covered| == |cur|
    requires forall k :: 0 <= k < |cur| ==> covered[k] == IsMarked(cur[k])
    ensures FlagsExplained(o, covered, divisor)
  {
  }

  // ---------------------------------------------------------------------
  // The selection of sop_divide as functions, and the division identity

  /** The first divisor cube from e on that c contains, or |divisor| (the
   *  div_i loop). */
  function FirstDivisor(c: Word, divisor: seq<Word>, e: nat): (i: nat)
    requires e <= |divisor|
    ensures e <= i <= |divisor|
    ensures i < |divisor| ==> Covers(c, divisor[i])
    ensures forall f :: e <= f < i ==> !Covers(c, divisor[f])
    decreases |divisor| - e
  {
    if e == |divisor| || Covers(c, divisor[e]) then e else FirstDivisor(c, divisor, e + 1)
  }

  /** The first cube from j on that matches d for quotient q, or |cur| (the
   *  c2 loops). */
  function FirstMatch(cur: seq<Word>, d: Word, q: Word, j: nat): (r: nat)
    requires j <= |cur|
    ensures j <= r <= |cur|
    ensures r < |cur| ==> Matches(cur[r], d, q)
    decreases |cur| - j
  {
    if j == |cur| || Matches(cur[j], d, q) then j else FirstMatch(cur, d, q, j + 1)
  }

  /** FirstMatch passes over no match. */
  lemma {:induction false} FirstMatchFirst(cur: seq<Word>, d: Word, q: Word, j: nat)
    requires j <= |cur|
    ensures forall k :: j <= k < FirstMatch(cur, d, q, j) ==> !Matches(cur[k], d, q)
    decreases |cur| - j
  {
    if j < |cur| && !Matches(cur[j], d, q) {
      FirstMatchFirst(cur, d, q, j + 1);
    }
  }

  /** The found test: q is obtained from every divisor cube other than a copy
   *  of divisor[di]. */
  predicate AllProduced(cur: seq<Word>, divisor: seq<Word>, di: nat, q: Word)
    requires di < |divisor|
  {
    forall e :: 0 <= e < |divisor| && divisor[e] != divisor[di] ==> Produced(cur, divisor[e], q)
  }

  /** The cubes with cube j marked. */
  function MarkAt(cur: seq<Word>, j: nat): (r: seq<Word>)
    requires j < |cur|
    ensures |r| == |cur|
  {
    cur[j := Marked(cur[j])]
  }

  /** Setting a mark leaves every cube's unmarked form as it was. */
  lemma MarkAtUnmarked(cur: seq<Word>, j: nat)
    requires j < |cur|
    ensures forall k :: 0 <= k < |cur| ==> Unmarked(MarkAt(cur, j)[k]) == Unmarked(cur[k])
  {
  }

  /** The marking loop after a quotient cube is accepted: for each divisor
   *  cube from e on other than a copy of divisor[di], the first unmarked cube
   *  that is q times it gets the mark. Only marks are set. */
  function MarkMatches(cur: seq<Word>, divisor: seq<Word>, di: nat, q: Word, e: nat): (r: seq<Word>)
    requires di < |divisor| && e <= |divisor|
    ensures |r| == |cur|
    decreases |divisor| - e
  {
    if e == |divisor| then cur
    else if divisor[e] == divisor[di] then MarkMatches(cur, divisor, di, q, e + 1)
    else
      var j := FirstMatch(cur, divisor[e], q, 0);
      if j < |cur| then
        MarkMatches(MarkAt(cur, j), divisor, di, q, e + 1)
      else MarkMatches(cur, divisor, di, q, e + 1)
  }

  /** One round of the division loop at cube i: the quotient cubes it adds
   *  (none or one) and the dividend after it. Only marks are set. */
  function DivideStep(cur: seq<Word>, divisor: seq<Word>, i: nat): (r: (seq<Word>, seq<Word>))
    requires i < |cur|
    ensures |r.0| <= 1 && |r.1| == |cur|
  {
    var c := cur[i];
    if IsMarked(c) then ([], cur)
    else
      var di := FirstDivisor(c, divisor, 0);
      if di == |divisor| then ([], cur)
      else
        var q := DiffWord(c, divisor[di]);
        if !AllProduced(cur, divisor, di, q) then ([], cur)
        else
          ([q], MarkMatches(MarkAt(cur, i), divisor, di, q, 0))
  }

  /** The division loop from cube i on: the quotient cubes in order and the
   *  marked dividend. Only marks are set. */
  function Select(cur: seq<Word>, divisor: seq<Word>, i: nat): (r: (seq<Word>, seq<Word>))
    requires i <= |cur|
    ensures |r.1| == |cur|
    decreases |cur| - i
  {
    if i == |cur| then ([], cur)
    else
      var s := DivideStep(cur, divisor, i);
      var t := Select(s.1, divisor, i + 1);
      (s.0 + t.0, t.1)
  }

  /** One round of Select, with the quotient collected so far in front. */
  lemma SelectStep(cur: seq<Word>, divisor: seq<Word>, i: nat, before: seq<Word>)
    requires i < |cur|
    ensures var s := DivideStep(cur, divisor, i);
      var t := Select(s.1, divisor, i + 1);
      (before + Select(cur, divisor, i).0, Select(cur, divisor, i).1) == ((before + s.0) + t.0, t.1)
  {
    var s := DivideStep(cur, divisor, i);
    var t := Select(s.1, divisor, i + 1);
    assert before + (s.0 + t.0) == (before + s.0) + t.0;
  }

  /** MarkMatches only sets marks. */
  lemma {:induction false} MarkMatchesKeeps(o: seq<Word>, cur: seq<Word>, divisor: seq<Word>, di: nat, q: Word, e: nat)
    requires Unmarks(cur, o) && di < |divisor| && e <= |divisor|
    ensures Unmarks(MarkMatches(cur, divisor, di, q, e), o)
    decreases |divisor| - e
  {
    if e < |divisor| && divisor[e] != divisor[di] {
      var j := FirstMatch(cur, divisor[e], q, 0);
      if j < |cur| {
        MarkAtUnmarked(cur, j);
        MarkMatchesKeeps(o, MarkAt(cur, j), divisor, di, q, e + 1);
      } else {
        MarkMatchesKeeps(o, cur, divisor, di, q, e + 1);
      }
    } else if e < |divisor| {
      MarkMatchesKeeps(o, cur, divisor, di, q, e + 1);
    }
  }

  /** A round of the division loop only sets marks. */
  lemma DivideStepKeeps(o: seq<Word>, cur: seq<Word>, divisor: seq<Word>, i: nat)
    requires Unmarks(cur, o) && i < |cur|
    ensures Unmarks(DivideStep(cur, divisor, i).1, o)
  {
    var c := cur[i];
    if !IsMarked(c) {
      var di := FirstDivisor(c, divisor, 0);
      if di < |divisor| {
        MarkAtUnmarked(cur, i);
        MarkMatchesKeeps(o, MarkAt(cur, i), divisor, di, DiffWord(c, divisor[di]), 0);
      }
    }
  }

  /** The division loop only sets marks. */
  lemma {:induction false} SelectKeeps(o: seq<Word>, cur: seq<Word>, divisor: seq<Word>, i: nat)
    requires Unmarks(cur, o) && i <= |cur|
    ensures Unmarks(Select(cur, divisor, i).1, o)
    decreases |cur| - i
  {
    if i < |cur| {
      DivideStepKeeps(o, cur, divisor, i);
      SelectKeeps(o, DivideStep(cur, divisor, i).1, divisor, i + 1);
    }
  }

  /** The covered flags: which cubes carry the mark. */
  function Flags(cur: seq<Word>): (r: seq<bool>)
    ensures |r| == |cur| && forall k :: 0 <= k < |cur| ==> r[k] == IsMarked(cur[k])
  {
    seq(|cur|, k requires 0 <= k < |cur| => IsMarked(cur[k]))
  }

  /** No divisor cube occurs twice. */
  predicate DistinctCubes(divisor: seq<Word>)
  {
    forall a, b :: 0 <= a < b < |divisor| ==> divisor[a] != divisor[b]
  }

  /** q times each divisor cube from e on. */
  function Row(q: Word, divisor: seq<Word>, e: nat): (r: seq<Word>)
    requires e <= |divisor|
    ensures |r| == |divisor| - e
    decreases |divisor| - e
  {
    if e == |divisor| then [] else [OrWord(q, divisor[e])] + Row(q, divisor, e + 1)
  }

  /** q times each divisor cube from e on, except divisor[di]. */
  function RowExcept(q: Word, divisor: seq<Word>, di: nat, e: nat): multiset<Word>
    requires e <= |divisor|
    decreases |divisor| - e
  {
    if e == |divisor| then multiset{}
    else (if e == di then multiset{} else multiset{OrWord(q, divisor[e])}) + RowExcept(q, divisor, di, e + 1)
  }

  /** The product of the quotient and the divisor: each quotient cube times
   *  every divisor cube. */
  function Product(quotient: seq<Word>, divisor: seq<Word>): (r: seq<Word>)
    ensures |r| == |quotient| * |divisor|
  {
    if quotient == [] then []
    else Product(quotient[..|quotient| - 1], divisor) + Row(quotient[|quotient| - 1], divisor, 0)
  }

  /** For a one-cube divisor the product is Times. */
  lemma {:induction false} ProductSingle(quotient: seq<Word>, d: Word)
    ensures Product(quotient, [d]) == Times(quotient, d)
    decreases |quotient|
  {
    if quotient != [] {
      ProductSingle(quotient[..|quotient| - 1], d);
    }
  }

  /** Row as a multiset. */
  function RowBag(q: Word, divisor: seq<Word>, e: nat): multiset<Word>
    requires e <= |divisor|
    decreases |divisor| - e
  {
    if e == |divisor| then multiset{} else multiset{OrWord(q, divisor[e])} + RowBag(q, divisor, e + 1)
  }

  /** Product as a multiset. */
  function ProductBag(quotient: seq<Word>, divisor: seq<Word>): multiset<Word>
  {
    if quotient == [] then multiset{}
    else ProductBag(quotient[..|quotient| - 1], divisor) + RowBag(quotient[|quotient| - 1], divisor, 0)
  }

  lemma {:induction false} RowBagRow(q: Word, divisor: seq<Word>, e: nat)
    requires e <= |divisor|
    ensures RowBag(q, divisor, e) == multiset(Row(q, divisor, e))
    decreases |divisor| - e
  {
    if e < |divisor| {
      RowBagRow(q, divisor, e + 1);
      BagCons(OrWord(q, divisor[e]), Row(q, divisor, e + 1), RowBag(q, divisor, e + 1), RowBag(q, divisor, e), Row(q, divisor, e));
    }
  }

  lemma {:induction false} ProductBagProduct(quotient: seq<Word>, divisor: seq<Word>)
    ensures ProductBag(quotient, divisor) == multiset(Product(quotient, divisor))
    decreases |quotient|
  {
    if quotient != [] {
      ProductBagProduct(quotient[..|quotient| - 1], divisor);
      RowBagRow(quotient[|quotient| - 1], divisor, 0);
    }
  }

  lemma {:induction false} ProductBagAppend(a: seq<Word>, b: seq<Word>, divisor: seq<Word>)
    ensures ProductBag(a + b, divisor) == ProductBag(a, divisor) + ProductBag(b, divisor)
    decreases |b|
  {
    if b == [] {
      assert a + b == a;
    } else {
      var b' := b[..|b| - 1];
      assert (a + b)[..|a + b| - 1] == a + b';
      ProductBagAppend(a, b', divisor);
    }
  }

  /** The elements of s whose flag is set, among the first n. */
  function Picked<T>(s: seq<T>, flags: seq<bool>, n: nat): multiset<T>
    requires n <= |s| && n <= |flags|
  {
    if n == 0 then multiset{} else Picked(s, flags, n - 1) + (if flags[n - 1] then multiset{s[n - 1]} else multiset{})
  }

  /** Setting a clear flag j adds s[j] to the picked elements. */
  lemma {:induction false} PickOne<T>(s: seq<T>, flags: seq<bool>, j: nat, n: nat)
    requires j < |s| == |flags| && n <= |s| && !flags[j]
    ensures Picked(s, flags[j := true], n) == Picked(s, flags, n) + (if j < n then multiset{s[j]} else multiset{})
    decreases n
  {
    if n > 0 {
      PickOne(s, flags, j, n - 1);
    }
  }

  /** The first n elements of s, as a multiset. */
  function PrefixBag<T>(s: seq<T>, n: nat): multiset<T>
    requires n <= |s|
  {
    if n == 0 then multiset{} else PrefixBag(s, n - 1) + multiset{s[n - 1]}
  }

  lemma {:induction false} PrefixBagAll<T>(s: seq<T>, n: nat)
    requires n <= |s|
    ensures PrefixBag(s, n) == multiset(s[..n])
    decreases n
  {
    if n > 0 {
      PrefixBagAll(s, n - 1);
      assert s[..n] == s[..n - 1] + [s[n - 1]];
    }
  }

  /** The elements of s whose flag is clear, among the first n. */
  function Unpicked<T>(s: seq<T>, flags: seq<bool>, n: nat): multiset<T>
    requires n <= |s| && n <= |flags|
  {
    if n == 0 then multiset{} else Unpicked(s, flags, n - 1) + (if flags[n - 1] then multiset{} else multiset{s[n - 1]})
  }

  lemma {:induction false} UnpickedUncovered<T>(s: seq<T>, flags: seq<bool>, n: nat)
    requires n <= |s| && n <= |flags|
    ensures Unpicked(s, flags, n) == multiset(Uncovered(s, flags, n))
    decreases n
  {
    if n > 0 {
      UnpickedUncovered(s, flags, n - 1);
      var x: seq<T> := if flags[n - 1] then [] else [s[n - 1]];
      BagStep(Uncovered(s, flags, n - 1), x, Unpicked(s, flags, n - 1), Unpicked(s, flags, n), Uncovered(s, flags, n));
    }
  }

  /** A bag that tracks a sequence keeps tracking it when both get x in
   *  front. */
  lemma BagCons<T>(x: T, rest: seq<T>, restBag: multiset<T>, bag: multiset<T>, whole: seq<T>)
    requires restBag == multiset(rest) && whole == [x] + rest && bag == multiset{x} + restBag
    ensures bag == multiset(whole)
  {
  }

  /** A bag that tracks a sequence keeps tracking it when both grow by x. */
  lemma BagStep<T>(u: seq<T>, x: seq<T>, before: multiset<T>, after: multiset<T>, whole: seq<T>)
    requires before == multiset(u) && whole == u + x && after == before + multiset(x)
    ensures after == multiset(whole)
  {
  }

  /** The picked and the unpicked elements together make up the prefix. */
  lemma {:induction false} SplitPicked<T>(s: seq<T>, flags: seq<bool>, n: nat)
    requires n <= |s| && n <= |flags|
    ensures PrefixBag(s, n) == Picked(s, flags, n) + Unpicked(s, flags, n)
    decreases n
  {
    if n > 0 {
      SplitPicked(s, flags, n - 1);
    }
  }

  lemma {:induction false} NonePicked<T>(s: seq<T>, flags: seq<bool>, n: nat)
    requires n <= |s| && n <= |flags| && forall k :: 0 <= k < n ==> !flags[k]
    ensures Picked(s, flags, n) == multiset{}
    decreases n
  {
    if n > 0 {
      NonePicked(s, flags, n - 1);
    }
  }

  /** Marking cube j sets exactly its flag. */
  lemma FlagsMarkAt(cur: seq<Word>, j: nat)
    requires j < |cur|
    ensures Flags(MarkAt(cur, j)) == Flags(cur)[j := true]
  {
  }

  /** An unmarked cube of the dividend is the original cube. */
  lemma UnmarkedValue(o: seq<Word>, cur: seq<Word>, j: nat)
    requires Unmarks(cur, o) && j < |cur| && !IsMarked(cur[j])
    ensures o[j] == cur[j]
  {
  }

  /** From before to after, the marked cubes (taken from the original cubes
   *  o) grow by exactly the cubes added. */
  predicate Adds(o: seq<Word>, before: seq<Word>, after: seq<Word>, added: multiset<Word>)
    requires |before| == |o| && |after| == |o|
  {
    Picked(o, Flags(after), |o|) == Picked(o, Flags(before), |o|) + added
  }

  /** Marking the unmarked cube j adds it. */
  lemma MarkAdds(o: seq<Word>, cur: seq<Word>, j: nat)
    requires Unmarks(cur, o) && j < |cur| && !IsMarked(cur[j])
    ensures Adds(o, cur, MarkAt(cur, j), multiset{cur[j]})
  {
    FlagsMarkAt(cur, j);
    PickOne(o, Flags(cur), j, |o|);
    UnmarkedValue(o, cur, j);
  }

  /** q shares no literal with d. */
  predicate Disjoint(q: Word, d: Word)
  {
    forall i: nat :: i < 64 ==> !Bit(q, i) || !Bit(d, i)
  }

  /** A matching cube is q times d, with q disjoint from d. */
  lemma MatchValue(c: Word, d: Word, q: Word)
    requires Matches(c, d, q)
    ensures c == OrWord(q, d) && Disjoint(q, d)
  {
    OrDiffCovered(c, d);
  }

  /** q times d determines d when q is disjoint from it. */
  lemma OrInjective(q: Word, d1: Word, d2: Word)
    requires Disjoint(q, d1) && Disjoint(q, d2) && OrWord(q, d1) == OrWord(q, d2)
    ensures d1 == d2
  {
    forall i: nat | i < 64 ensures Bit(d1, i) == Bit(d2, i) {
      assert Bit(OrWord(q, d1), i) == Bit(OrWord(q, d2), i);
    }
    WordsEqual(d1, d2);
  }

  /** Marking a cube that is q times d' keeps every match of q times another
   *  cube d. */
  lemma MarkKeepsProduced(cur: seq<Word>, j: nat, d: Word, d': Word, q: Word)
    requires j < |cur| && OrWord(q, d') == cur[j] && Disjoint(q, d') && d != d'
    requires Produced(cur, d, q)
    ensures Produced(MarkAt(cur, j), d, q)
  {
    var k :| 0 <= k < |cur| && Matches(cur[k], d, q);
    MatchValue(cur[k], d, q);
    if k == j {
      OrInjective(q, d, d');
    }
    assert Matches(MarkAt(cur, j)[k], d, q);
  }

  /** What MarkMatchesAdds needs at divisor position e: cur is o with some
   *  marks, and q times every remaining divisor cube other than divisor[di]
   *  is still present unmarked. */
  predicate Ready(o: seq<Word>, cur: seq<Word>, divisor: seq<Word>, di: nat, q: Word, e: nat)
  {
    Unmarks(cur, o) && di < |divisor| && e <= |divisor| && DistinctCubes(divisor) &&
    forall f :: e <= f < |divisor| && f != di ==> Produced(cur, divisor[f], q)
  }

  /** Marking one match per remaining divisor cube adds q times each of
   *  them. */
  lemma {:induction false} MarkMatchesAdds(o: seq<Word>, cur: seq<Word>, divisor: seq<Word>, di: nat, q: Word, e: nat)
    requires Ready(o, cur, divisor, di, q, e)
    ensures Adds(o, cur, MarkMatches(cur, divisor, di, q, e), RowExcept(q, divisor, di, e))
    decreases |divisor| - e
  {
    if e == |divisor| {
      MarkMatchesEnd(o, cur, divisor, di, q);
    } else {
      var next, added := MarkRound(o, cur, divisor, di, q, e);
      MarkMatchesAdds(o, next, divisor, di, q, e + 1);
      AddsTrans(o, cur, next, MarkMatches(next, divisor, di, q, e + 1), added, RowExcept(q, divisor, di, e + 1));
    }
  }

  /** One round of the marking loop: the dividend after it, the cubes it
   *  marks, and how both loops move on. */
  lemma MarkRound(o: seq<Word>, cur: seq<Word>, divisor: seq<Word>, di: nat, q: Word, e: nat) returns (next: seq<Word>, added: multiset<Word>)
    requires Ready(o, cur, divisor, di, q, e) && e < |divisor|
    ensures |next| == |cur| && Ready(o, next, divisor, di, q, e + 1)
    ensures MarkMatches(cur, divisor, di, q, e) == MarkMatches(next, divisor, di, q, e + 1)
    ensures RowExcept(q, divisor, di, e) == added + RowExcept(q, divisor, di, e + 1)
    ensures Adds(o, cur, next, added)
  {
    if e == di {
      next, added := cur, multiset{};
    } else {
      var j := MarkFirstMatch(o, cur, divisor, di, q, e);
      next, added := MarkAt(cur, j), multiset{cur[j]};
      assert divisor[e] != divisor[di];
      MarkMatchesUnfold(cur, divisor, di, q, e, j);
      MarkAdds(o, cur, j);
      MatchValue(cur[j], divisor[e], q);
    }
  }

  /** Marking the first match of q times divisor[e] keeps the matches of
   *  the later divisor cubes. */
  lemma MarkFirstMatch(o: seq<Word>, cur: seq<Word>, divisor: seq<Word>, di: nat, q: Word, e: nat) returns (j: nat)
    requires Ready(o, cur, divisor, di, q, e) && e < |divisor| && e != di
    ensures j == FirstMatch(cur, divisor[e], q, 0) && j < |cur|
    ensures Ready(o, MarkAt(cur, j), divisor, di, q, e + 1)
  {
    j := FirstMatch(cur, divisor[e], q, 0);
    FirstMatchFound(cur, divisor[e], q);
    MatchValue(cur[j], divisor[e], q);
    var next := MarkAt(cur, j);
    MarkAtUnmarked(cur, j);
    forall f | e + 1 <= f < |divisor| && f != di ensures Produced(next, divisor[f], q) {
      MarkKeepsProduced(cur, j, divisor[f], divisor[e], q);
    }
  }

  lemma MarkMatchesEnd(o: seq<Word>, cur: seq<Word>, divisor: seq<Word>, di: nat, q: Word)
    requires |cur| == |o| && di < |divisor|
    ensures Adds(o, cur, MarkMatches(cur, divisor, di, q, |divisor|), RowExcept(q, divisor, di, |divisor|))
  {
    assert MarkMatches(cur, divisor, di, q, |divisor|) == cur;
    assert RowExcept(q, divisor, di, |divisor|) == multiset{};
  }

  /** A divisor cube with a match has its first match found. */
  lemma FirstMatchFound(cur: seq<Word>, d: Word, q: Word)
    requires Produced(cur, d, q)
    ensures FirstMatch(cur, d, q, 0) < |cur|
  {
    var k :| 0 <= k < |cur| && Matches(cur[k], d, q);
    FirstMatchFirst(cur, d, q, 0);
  }

  /** MarkMatches at a divisor cube other than a copy of divisor[di]. */
  lemma MarkMatchesUnfold(cur: seq<Word>, divisor: seq<Word>, di: nat, q: Word, e: nat, j: nat)
    requires di < |divisor| && e < |divisor| && divisor[e] != divisor[di]
    requires j == FirstMatch(cur, divisor[e], q, 0) && j < |cur|
    ensures MarkMatches(cur, divisor, di, q, e) == MarkMatches(MarkAt(cur, j), divisor, di, q, e + 1)
  {
  }

  /** The full row is the row without divisor[di] plus q times divisor[di]. */
  lemma {:induction false} RowSplit(q: Word, divisor: seq<Word>, di: nat, e: nat)
    requires e <= di < |divisor|
    ensures RowBag(q, divisor, e) == RowExcept(q, divisor, di, e) + multiset{OrWord(q, divisor[di])}
    decreases |divisor| - e
  {
    var x := OrWord(q, divisor[e]);
    if e < di {
      RowSplit(q, divisor, di, e + 1);
      assert RowExcept(q, divisor, di, e) == multiset{x} + RowExcept(q, divisor, di, e + 1);
    } else {
      RowExceptAfter(q, divisor, di, e + 1);
      assert RowExcept(q, divisor, di, e) == RowExcept(q, divisor, di, e + 1);
    }
  }

  /** Past di the two rows agree. */
  lemma {:induction false} RowExceptAfter(q: Word, divisor: seq<Word>, di: nat, e: nat)
    requires di < e <= |divisor|
    ensures RowExcept(q, divisor, di, e) == RowBag(q, divisor, e)
    decreases |divisor| - e
  {
    if e < |divisor| {
      RowExceptAfter(q, divisor, di, e + 1);
    }
  }

  /** DivideStep when cube i is accepted with quotient q. */
  lemma DivideStepAccepted(cur: seq<Word>, divisor: seq<Word>, i: nat, di: nat, q: Word)
    requires i < |cur| && !IsMarked(cur[i]) && di == FirstDivisor(cur[i], divisor, 0) && di < |divisor|
    requires q == DiffWord(cur[i], divisor[di]) && AllProduced(cur, divisor, di, q)
    ensures DivideStep(cur, divisor, i) == ([q], MarkMatches(MarkAt(cur, i), divisor, di, q, 0))
  {
  }

  /** One round adds the product of its quotient cubes. */
  lemma DivideStepAdds(o: seq<Word>, cur: seq<Word>, divisor: seq<Word>, i: nat)
    requires Unmarks(cur, o) && i < |cur| && DistinctCubes(divisor)
    ensures Adds(o, cur, DivideStep(cur, divisor, i).1, ProductBag(DivideStep(cur, divisor, i).0, divisor))
  {
    var c := cur[i];
    if !IsMarked(c) {
      var di := FirstDivisor(c, divisor, 0);
      if di < |divisor| {
        var q := DiffWord(c, divisor[di]);
        if AllProduced(cur, divisor, di, q) {
          DivideStepAccepted(cur, divisor, i, di, q);
          AcceptedAdds(o, cur, divisor, i, di, q);
        }
      }
    }
  }

  /** An accepted cube and its marked matches add the row of its quotient. */
  lemma AcceptedAdds(o: seq<Word>, cur: seq<Word>, divisor: seq<Word>, i: nat, di: nat, q: Word)
    requires Unmarks(cur, o) && i < |cur| && DistinctCubes(divisor)
    requires !IsMarked(cur[i]) && di < |divisor| && Covers(cur[i], divisor[di])
    requires q == DiffWord(cur[i], divisor[di]) && AllProduced(cur, divisor, di, q)
    ensures Adds(o, cur, MarkMatches(MarkAt(cur, i), divisor, di, q, 0), ProductBag([q], divisor))
  {
    var c := cur[i];
    OrDiffCovered(c, divisor[di]);
    assert Matches(c, divisor[di], q);
    MatchValue(c, divisor[di], q);
    var marked := MarkAt(cur, i);
    forall f | 0 <= f < |divisor| && f != di ensures Produced(marked, divisor[f], q) {
      MarkKeepsProduced(cur, i, divisor[f], divisor[di], q);
    }
    MarkAdds(o, cur, i);
    MarkAtUnmarked(cur, i);
    MarkMatchesAdds(o, marked, divisor, di, q, 0);
    RowSplit(q, divisor, di, 0);
    assert ProductBag([q], divisor) == RowBag(q, divisor, 0);
  }

  /** The division loop from cube i adds the product of its quotient. */
  lemma {:induction false} SelectAdds(o: seq<Word>, cur: seq<Word>, divisor: seq<Word>, i: nat)
    requires Unmarks(cur, o) && i <= |cur| && DistinctCubes(divisor)
    ensures Adds(o, cur, Select(cur, divisor, i).1, ProductBag(Select(cur, divisor, i).0, divisor))
    decreases |cur| - i
  {
    if i < |cur| {
      var s := DivideStep(cur, divisor, i);
      var t := Select(s.1, divisor, i + 1);
      DivideStepAdds(o, cur, divisor, i);
      DivideStepKeeps(o, cur, divisor, i);
      SelectAdds(o, s.1, divisor, i + 1);
      AddsTrans(o, cur, s.1, t.1, ProductBag(s.0, divisor), ProductBag(t.0, divisor));
      ProductBagAppend(s.0, t.0, divisor);
    }
  }

  /** Two rounds of marking add what each adds. */
  lemma AddsTrans(o: seq<Word>, a: seq<Word>, b: seq<Word>, c: seq<Word>, x: multiset<Word>, y: multiset<Word>)
    requires |a| == |o| && |b| == |o| && |c| == |o|
    requires Adds(o, a, b, x) && Adds(o, b, c, y)
    ensures Adds(o, a, c, x + y)
  {
  }

  /** Multi-cube division is exact on an unmarked dividend and a divisor
   *  without repeated cubes: quotient times divisor plus the uncovered cubes
   *  is the dividend, up to order. */
  lemma SelectRecombines(o: seq<Word>, divisor: seq<Word>)
    requires NoMarks(o) && DistinctCubes(divisor)
    ensures multiset(Product(Select(o, divisor, 0).0, divisor)) + multiset(Uncovered(o, Flags(Select(o, divisor, 0).1), |o|)) == multiset(o)
  {
    var r := Select(o, divisor, 0);
    forall k | 0 <= k < |o| ensures o[k] == Unmarked(o[k]) {
    }
    SelectAdds(o, o, divisor, 0);
    NonePicked(o, Flags(o), |o|);
    SplitPicked(o, Flags(r.1), |o|);
    UnpickedUncovered(o, Flags(r.1), |o|);
    ProductBagProduct(r.0, divisor);
    PrefixBagAll(o, |o|);
    assert o[..|o|] == o;
  }

  // ---------------------------------------------------------------------
  // From cubes over variables to products over literals

  /** A 32-bit half word. */
  type Half = x: nat | x < 0x1_0000_0000

  /** A cube over variables: variable i occurs when mask bit i is set, with
   *  the polarity given by bit i of bits (1 is positive). */
  datatype VarCube = VarCube(bits: Half, mask: Half)

  /** The literal of variable v with the given polarity: 2v + 1 is positive,
   *  2v negative. */
  function EncodeLit(v: nat, positive: bool): nat
  {
    2 * v + (if positive then 1 else 0)
  }

  /** Literal lit stands for variable lit / 2, positive when lit is odd. */
  function DecodeLit(lit: nat): (nat, bool)
  {
    (lit / 2, lit % 2 == 1)
  }

  lemma DecodeEncode(v: nat, positive: bool)
    ensures DecodeLit(EncodeLit(v, positive)) == (v, positive)
  {
  }

  lemma EncodeDecode(lit: nat)
    ensures EncodeLit(DecodeLit(lit).0, DecodeLit(lit).1) == lit
  {
  }

  /** The product over the first n variables of c contains literal lit. */
  predicate ProductHas(c: VarCube, n: nat, lit: nat)
  {
    var (v, positive) := DecodeLit(lit);
    v < n && Bit(c.mask, v) && (positive <==> Bit(c.bits, v))
  }

  /** Each variable of the cube gives exactly one literal of the product, of
   *  the cube's polarity; variables outside the cube give none. */
  lemma ProductLiterals(c: VarCube, n: nat, v: nat)
    requires v < n
    ensures Bit(c.mask, v) ==> ProductHas(c, n, EncodeLit(v, Bit(c.bits, v)))
    ensures !ProductHas(c, n, EncodeLit(v, !Bit(c.bits, v)))
    ensures !Bit(c.mask, v) ==> !ProductHas(c, n, EncodeLit(v, true)) && !ProductHas(c, n, EncodeLit(v, false))
  {
    DecodeEncode(v, true);
    DecodeEncode(v, false);
  }

  /** The product of one cube: the literal of each masked variable below n. */
  method CubeToProduct(c: VarCube, numVars: nat) returns (product: Word)
    requires numVars <= 32
    ensures forall lit: nat :: lit < 64 ==> (Bit(product, lit) <==> ProductHas(c, numVars, lit))
    ensures numVars <= 31 ==> !Bit(product, MarkBit)
  {
    product := 0;
    forall lit: nat ensures !Bit(0, lit) {
      BitZero(lit);
    }
    for i := 0 to numVars
      invariant forall lit: nat :: lit < 64 ==> (Bit(product, lit) <==> ProductHas(c, i, lit))
    {
      if Bit(c.mask, i) {
        product := OrWord(product, LitWord(EncodeLit(i, Bit(c.bits, i))));
      }
    }
  }

  /** cubes_to_sop: the product of every cube, in order. With at most 31
   *  variables the reserved bit 63 stays clear. */
  method CubesToSop(cubes: seq<VarCube>, numVars: nat) returns (sop: seq<Word>)
    requires numVars <= 32
    ensures |sop| == |cubes|
    ensures forall k, lit: nat :: 0 <= k < |cubes| && lit < 64 ==> (Bit(sop[k], lit) <==> ProductHas(cubes[k], numVars, lit))
    ensures numVars <= 31 ==> NoMarks(sop)
  {
    sop := [];
    for k := 0 to |cubes|
      invariant |sop| == k
      invariant forall j, lit: nat :: 0 <= j < k && lit < 64 ==> (Bit(sop[j], lit) <==> ProductHas(cubes[j], numVars, lit))
      invariant numVars <= 31 ==> NoMarks(sop)
    {
      var product := CubeToProduct(cubes[k], numVars);
      MarkIsBit63(product);
      sop := sop + [product];
    }
  }
}
