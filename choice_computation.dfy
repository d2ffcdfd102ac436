// Candidate equivalence classes for choice computation: nodes whose
// simulation words agree (up to their phase) share a class headed by a
// representative; refining a class splits off the members that disagree
// with its representative. Also the next-prime helper used to size the
// simulation hash table, and the duplicate-free push of the SAT wrapper.
module ChoiceComputation {
  import SopRefactoring
  import AigNetwork

  type Word = SopRefactoring.Word

  const M32: nat := 0x1_0000_0000

  /** ~x on a 64-bit word. */
  function Complement(x: Word): Word
  {
    SopRefactoring.AllOnes - x
  }

  lemma ComplementTwice(x: Word)
    ensures Complement(Complement(x)) == x
  {
  }

  // ---------------------------------------------------------------------
  // Comparing simulation words

  /** equal(n1, n2): same phase, every word equal; different phases, every
   *  word of the first equals the complement of the second's. */
  predicate SimEqual(a: seq<Word>, pa: bool, b: seq<Word>, pb: bool)
    requires |a| == |b|
  {
    forall k :: 0 <= k < |a| ==> a[k] == (if pa == pb then b[k] else Complement(b[k]))
  }

  /** is_const: all words 0, or all ones when the phase is set. */
  predicate SimConst(a: seq<Word>, pa: bool)
  {
    forall k :: 0 <= k < |a| ==> a[k] == (if pa then SopRefactoring.AllOnes else 0)
  }

  /** Simulation equality is an equivalence: reflexive, symmetric and
   *  transitive, whatever the phases. */
  lemma SimEqualEquivalence(a: seq<Word>, pa: bool, b: seq<Word>, pb: bool, c: seq<Word>, pc: bool)
    requires |a| == |b| == |c|
    ensures SimEqual(a, pa, a, pa)
    ensures SimEqual(a, pa, b, pb) ==> SimEqual(b, pb, a, pa)
    ensures SimEqual(a, pa, b, pb) && SimEqual(b, pb, c, pc) ==> SimEqual(a, pa, c, pc)
  {
    if SimEqual(a, pa, b, pb) {
      forall k | 0 <= k < |a|
        ensures b[k] == (if pb == pa then a[k] else Complement(a[k]))
      {
        ComplementTwice(b[k]);
      }
    }
    if SimEqual(a, pa, b, pb) && SimEqual(b, pb, c, pc) {
      forall k | 0 <= k < |a|
        ensures a[k] == (if pa == pc then c[k] else Complement(c[k]))
      {
        ComplementTwice(c[k]);
      }
    }
  }

  /** Two constant nodes are simulation-equal. */
  lemma ConstsAreEqual(a: seq<Word>, pa: bool, b: seq<Word>, pb: bool)
    requires |a| == |b| && SimConst(a, pa) && SimConst(b, pb)
    ensures SimEqual(a, pa, b, pb)
  {
  }

  /** A node is constant exactly when it is simulation-equal to the constant
   *  node: all-zero words with the phase cleared. */
  lemma ConstIsEqualToZero(a: seq<Word>, pa: bool)
    ensures SimConst(a, pa) <==> SimEqual(a, pa, seq(|a|, _ => 0), false)
  {
    var z: seq<Word> := seq(|a|, _ => 0);
    if SimEqual(a, pa, z, false) {
      forall k | 0 <= k < |a|
        ensures a[k] == (if pa then SopRefactoring.AllOnes else 0)
      {
        assert z[k] == 0;
      }
    }
  }

  // ---------------------------------------------------------------------
  // Splitting a class

  /** The members of a class that the representative's comparison accepts,
   *  in order. */
  function Keep(cls: seq<nat>, same: (nat, nat) -> bool, repr: nat): seq<nat>
  {
    if cls == [] then []
    else Keep(cls[..|cls| - 1], same, repr) + (if same(repr, cls[|cls| - 1]) then [cls[|cls| - 1]] else [])
  }

  /** The members it rejects, in order. */
  function Moved(cls: seq<nat>, same: (nat, nat) -> bool, repr: nat): seq<nat>
  {
    if cls == [] then []
    else Moved(cls[..|cls| - 1], same, repr) + (if same(repr, cls[|cls| - 1]) then [] else [cls[|cls| - 1]])
  }

  /** Keep and Moved partition the class: every member lands in exactly one
   *  of them, as often as it occurs. */
  lemma {:induction false} KeepMovedPartition(cls: seq<nat>, same: (nat, nat) -> bool, repr: nat)
    ensures multiset(Keep(cls, same, repr)) + multiset(Moved(cls, same, repr)) == multiset(cls)
    ensures |Keep(cls, same, repr)| + |Moved(cls, same, repr)| == |cls|
    ensures forall x :: x in Keep(cls, same, repr) <==> x in cls && same(repr, x)
    ensures forall x :: x in Moved(cls, same, repr) <==> x in cls && !same(repr, x)
  {
    if cls != [] {
      var init, last := cls[..|cls| - 1], cls[|cls| - 1];
      KeepMovedPartition(init, same, repr);
      assert cls == init + [last];
    }
  }

  /** The representative array after the moved members are pointed at head. */
  function Relabel(reprs: seq<nat>, moved: seq<nat>, head: nat): (r: seq<nat>)
    ensures |r| == |reprs|
    ensures forall i :: 0 <= i < |r| ==> r[i] == (if i in moved then head else reprs[i])
  {
    seq(|reprs|, i requires 0 <= i < |reprs| => if i in moved then head else reprs[i])
  }

  /** The table shape: one class and one representative per node, and class
   *  members are nodes. */
  predicate Shaped(classes: seq<seq<nat>>, reprs: seq<nat>, size: nat)
  {
    |classes| == size && |reprs| == size &&
    forall r, x :: 0 <= r < |classes| && x in classes[r] ==> x < size
  }

  /** Distance to the end of the splitting: a class that holds its own
   *  representative keeps it, so the split-off part is strictly smaller. */
  function SplitMeasure(cls: seq<nat>, repr: nat): nat
  {
    2 * |cls| + (if repr in cls then 0 else 1)
  }

  /** One split of repr's class: the agreeing members stay under repr, the
   *  others become the class of their first member, which becomes their
   *  representative. */
  function SplitOnce(classes: seq<seq<nat>>, reprs: seq<nat>, repr: nat, same: (nat, nat) -> bool)
    : (r: (seq<seq<nat>>, seq<nat>))
    requires Shaped(classes, reprs, |classes|) && repr < |classes|
    requires Moved(classes[repr], same, repr) != []
    ensures Shaped(r.0, r.1, |classes|)
  {
    var moved := Moved(classes[repr], same, repr);
    KeepMovedPartition(classes[repr], same, repr);
    assert moved[0] in moved;
    (classes[repr := Keep(classes[repr], same, repr)][moved[0] := moved], Relabel(reprs, moved, moved[0]))
  }

  /** refine_one_class on the tables: no differing member changes nothing
   *  and counts 0; otherwise one split, and with recursion the new class is
   *  refined in turn. */
  function Refined(classes: seq<seq<nat>>, reprs: seq<nat>, repr: nat, same: (nat, nat) -> bool,
                   recursively: bool): (r: (seq<seq<nat>>, seq<nat>, nat))
    requires Shaped(classes, reprs, |classes|) && repr < |classes|
    requires forall n :: same(n, n)
    ensures Shaped(r.0, r.1, |classes|)
    decreases SplitMeasure(classes[repr], repr)
  {
    var moved := Moved(classes[repr], same, repr);
    if moved == [] then (classes, reprs, 0)
    else
      var split := SplitOnce(classes, reprs, repr, same);
      if recursively && |moved| > 1 then
        SplitShrinks(classes, reprs, repr, same);
        var t := Refined(split.0, split.1, moved[0], same, true);
        (t.0, t.1, 1 + t.2)
      else
        (split.0, split.1, 1)
  }

  /** The split-off class holds its head, is no larger than the class it
   *  came from and is smaller when that class held its representative;
   *  nothing outside the class and its representative changes. */
  lemma SplitShrinks(classes: seq<seq<nat>>, reprs: seq<nat>, repr: nat, same: (nat, nat) -> bool)
    requires Shaped(classes, reprs, |classes|) && repr < |classes|
    requires forall n :: same(n, n)
    requires Moved(classes[repr], same, repr) != []
    ensures var moved := Moved(classes[repr], same, repr);
      var split := SplitOnce(classes, reprs, repr, same);
      && moved[0] < |classes| && moved[0] != repr && repr !in moved
      && split.0[moved[0]] == moved && split.0[repr] == Keep(classes[repr], same, repr)
      && SplitMeasure(split.0[moved[0]], moved[0]) < SplitMeasure(classes[repr], repr)
      && (forall i :: 0 <= i < |classes| && i != repr && i !in classes[repr] ==>
            split.0[i] == classes[i] && split.1[i] == reprs[i])
  {
    var cls := classes[repr];
    var moved := Moved(cls, same, repr);
    KeepMovedPartition(cls, same, repr);
    assert moved[0] in moved;
    if repr in cls {
      assert repr in Keep(cls, same, repr);
    }
  }

  /** Refined when every member agrees: nothing changes. */
  lemma RefinedNone(classes: seq<seq<nat>>, reprs: seq<nat>, repr: nat, same: (nat, nat) -> bool,
                    recursively: bool)
    requires Shaped(classes, reprs, |classes|) && repr < |classes|
    requires forall n :: same(n, n)
    requires Moved(classes[repr], same, repr) == []
    ensures Refined(classes, reprs, repr, same, recursively) == (classes, reprs, 0)
  {
  }

  /** Refined when one split ends it. */
  lemma RefinedOnce(classes: seq<seq<nat>>, reprs: seq<nat>, repr: nat, same: (nat, nat) -> bool,
                    recursively: bool)
    requires Shaped(classes, reprs, |classes|) && repr < |classes|
    requires forall n :: same(n, n)
    requires Moved(classes[repr], same, repr) != []
    requires !recursively || |Moved(classes[repr], same, repr)| <= 1
    ensures Refined(classes, reprs, repr, same, recursively)
         == (SplitOnce(classes, reprs, repr, same).0, SplitOnce(classes, reprs, repr, same).1, 1)
  {
  }

  /** Refined when the split-off class is refined in turn. */
  lemma RefinedAgain(classes: seq<seq<nat>>, reprs: seq<nat>, repr: nat, same: (nat, nat) -> bool,
                     recursively: bool, classes': seq<seq<nat>>, reprs': seq<nat>, head: nat,
                     classes'': seq<seq<nat>>, reprs'': seq<nat>, count: nat)
    requires recursively && Shaped(classes, reprs, |classes|) && repr < |classes|
    requires forall n :: same(n, n)
    requires |Moved(classes[repr], same, repr)| > 1 && head == Moved(classes[repr], same, repr)[0]
    requires (classes', reprs') == SplitOnce(classes, reprs, repr, same) && head < |classes'|
    requires (classes'', reprs'', count) == Refined(classes', reprs', head, same, true)
    ensures Refined(classes, reprs, repr, same, recursively) == (classes'', reprs'', 1 + count)
  {
  }

  /** refine_one_class returns 0 exactly when every member agrees with the
   *  representative, and then nothing changes. */
  lemma RefinedNoSplit(classes: seq<seq<nat>>, reprs: seq<nat>, repr: nat, same: (nat, nat) -> bool,
                       recursively: bool)
    requires Shaped(classes, reprs, |classes|) && repr < |classes|
    requires forall n :: same(n, n)
    ensures Refined(classes, reprs, repr, same, recursively).2 == 0
        <==> forall x :: x in classes[repr] ==> same(repr, x)
    ensures Refined(classes, reprs, repr, same, recursively).2 == 0
        ==> Refined(classes, reprs, repr, same, recursively) == (classes, reprs, 0)
  {
    var cls := classes[repr];
    var moved := Moved(cls, same, repr);
    KeepMovedPartition(cls, same, repr);
    if moved != [] {
      assert moved[0] in moved;
    }
  }

  /** The number of splits is bounded by the class size (one less when the
   *  representative is in its own class). */
  lemma {:induction false} RefinedCount(classes: seq<seq<nat>>, reprs: seq<nat>, repr: nat,
                                        same: (nat, nat) -> bool, recursively: bool)
    requires Shaped(classes, reprs, |classes|) && repr < |classes|
    requires forall n :: same(n, n)
    ensures Refined(classes, reprs, repr, same, recursively).2
         <= |classes[repr]| - (if repr in classes[repr] then 1 else 0)
    decreases SplitMeasure(classes[repr], repr)
  {
    var cls := classes[repr];
    var moved := Moved(cls, same, repr);
    KeepMovedPartition(cls, same, repr);
    if moved != [] {
      SplitShrinks(classes, reprs, repr, same);
      if recursively && |moved| > 1 {
        var split := SplitOnce(classes, reprs, repr, same);
        RefinedCount(split.0, split.1, moved[0], same, true);
      }
    }
  }

  /** Whatever the recursion does afterwards, the representative's class
   *  ends up as exactly the members that agree with it, in their order, and
   *  nodes outside the class keep their class and representative. */
  lemma {:induction false} RefinedKeepsRepr(classes: seq<seq<nat>>, reprs: seq<nat>, repr: nat,
                                            same: (nat, nat) -> bool, recursively: bool)
    requires Shaped(classes, reprs, |classes|) && repr < |classes|
    requires forall n :: same(n, n)
    ensures Refined(classes, reprs, repr, same, recursively).0[repr]
         == Keep(classes[repr], same, repr)
    ensures forall i :: 0 <= i < |classes| && i != repr && i !in classes[repr] ==>
              Refined(classes, reprs, repr, same, recursively).0[i] == classes[i] &&
              Refined(classes, reprs, repr, same, recursively).1[i] == reprs[i]
    decreases SplitMeasure(classes[repr], repr)
  {
    var cls := classes[repr];
    var moved := Moved(cls, same, repr);
    KeepMovedPartition(cls, same, repr);
    if moved == [] {
      RefinedNone(classes, reprs, repr, same, recursively);
      KeepAll(cls, same, repr);
    } else {
      SplitShrinks(classes, reprs, repr, same);
      var split := SplitOnce(classes, reprs, repr, same);
      if recursively && |moved| > 1 {
        var t := Refined(split.0, split.1, moved[0], same, true);
        RefinedAgain(classes, reprs, repr, same, recursively, split.0, split.1, moved[0], t.0, t.1, t.2);
        RefinedKeepsRepr(split.0, split.1, moved[0], same, true);
        forall i | 0 <= i < |classes| && i != repr && i !in cls
          ensures i != moved[0] && i !in moved
        {
        }
      } else {
        RefinedOnce(classes, reprs, repr, same, recursively);
      }
    }
  }

  /** When nothing is moved the kept part is the whole class. */
  lemma {:induction false} KeepAll(cls: seq<nat>, same: (nat, nat) -> bool, repr: nat)
    requires Moved(cls, same, repr) == []
    ensures Keep(cls, same, repr) == cls
  {
    if cls != [] {
      var init, last := cls[..|cls| - 1], cls[|cls| - 1];
      assert Moved(init, same, repr) == [];
      KeepAll(init, same, repr);
      assert cls == init + [last];
    }
  }

  /** equal or, on resimulation, equal_cex, as a relation between node
   *  indices (a node outside the tables only matches itself). */
  function Comparison(sim: seq<seq<Word>>, phase: seq<bool>, markB: seq<bool>, resimulation: bool)
    : (same: (nat, nat) -> bool)
    requires |sim| == |phase| == |markB|
    requires forall n :: 0 <= n < |sim| ==> |sim[n]| == |sim[0]|
    ensures forall n: nat :: same(n, n)
  {
    var same := (n1: nat, n2: nat) =>
      if n1 < |phase| && n2 < |phase| then
        if resimulation then (phase[n1] == phase[n2]) == (markB[n1] == markB[n2])
        else SimEqual(sim[n1], phase[n1], sim[n2], phase[n2])
      else n1 == n2;
    assert forall n: nat :: same(n, n) by {
      forall n: nat ensures same(n, n) {
        if n < |phase| && !resimulation {
          SimEqualEquivalence(sim[n], phase[n], sim[n], phase[n], sim[n], phase[n]);
        }
      }
    }
    same
  }

  /** What the comparison decides for two nodes of the tables. */
  lemma ComparisonMeans(sim: seq<seq<Word>>, phase: seq<bool>, markB: seq<bool>, resimulation: bool,
                        n1: nat, n2: nat)
    requires |sim| == |phase| == |markB|
    requires forall n :: 0 <= n < |sim| ==> |sim[n]| == |sim[0]|
    requires n1 < |phase| && n2 < |phase|
    ensures Comparison(sim, phase, markB, resimulation)(n1, n2)
        <==> if resimulation then (phase[n1] == phase[n2]) == (markB[n1] == markB[n2])
             else SimEqual(sim[n1], phase[n1], sim[n2], phase[n2])
  {
  }

  /** The candidate equivalence classes over the nodes of one AIG. */
  class CandEquivClasses {
    const nwords: nat
    const phase: seq<bool>
    const markB: seq<bool>
    var id2class: seq<seq<nat>>
    var reprs: seq<nat>
    var sim: seq<seq<Word>>

    ghost predicate Valid()
      reads this
    {
      |markB| == |phase| && |sim| == |phase| &&
      Shaped(id2class, reprs, |phase|) &&
      forall n :: 0 <= n < |sim| ==> |sim[n]| == nwords
    }

    /** Every node is its own representative and every class is empty; the
     *  simulation words start at zero. The nodes' phase and mark-b flags are
     *  read from the network. */
    constructor (phase: seq<bool>, markB: seq<bool>, nwords: nat)
      requires |markB| == |phase|
      ensures Valid()
      ensures this.phase == phase && this.markB == markB && this.nwords == nwords
      ensures id2class == seq(|phase|, _ => [])
      ensures reprs == seq(|phase|, i => i)
      ensures sim == seq(|phase|, _ => seq(nwords, _ => 0))
    {
      this.nwords := nwords;
      this.phase := phase;
      this.markB := markB;
      id2class := seq(|phase|, _ => []);
      reprs := seq(|phase|, i => i);
      sim := seq(|phase|, _ => seq(nwords, _ => 0));
    }

    /** The words a simulation run produced, one list per node; the random
     *  stream and the evaluation of the network are outside this class. */
    method SetSimulation(words: seq<seq<Word>>)
      requires Valid() && |words| == |phase|
      requires forall n :: 0 <= n < |words| ==> |words[n]| == nwords
      modifies this
      ensures Valid() && sim == words
      ensures id2class == old(id2class) && reprs == old(reprs)
    {
      sim := words;
    }

    /** equal(n1, n2), word by word. */
    method Equal(n1: nat, n2: nat) returns (r: bool)
      requires Valid() && n1 < |sim| && n2 < |sim|
      ensures r <==> SimEqual(sim[n1], phase[n1], sim[n2], phase[n2])
    {
      var sim0, sim1 := sim[n1], sim[n2];
      var flip := phase[n1] != phase[n2];
      for k := 0 to nwords
        invariant forall j :: 0 <= j < k ==> sim0[j] == (if flip then Complement(sim1[j]) else sim1[j])
      {
        if sim0[k] != (if flip then Complement(sim1[k]) else sim1[k]) {
          return false;
        }
      }
      return true;
    }

    /** is_const(n), word by word. */
    method IsConst(n: nat) returns (r: bool)
      requires Valid() && n < |sim|
      ensures r <==> SimConst(sim[n], phase[n])
    {
      var words := sim[n];
      for k := 0 to nwords
        invariant forall j :: 0 <= j < k ==> words[j] == (if phase[n] then SopRefactoring.AllOnes else 0)
      {
        if words[k] != (if phase[n] then SopRefactoring.AllOnes else 0) {
          return false;
        }
      }
      return true;
    }

    /** equal_cex: the two nodes agree on the counterexample when their
     *  phases relate as their mark-b flags do. */
    predicate EqualCex(n1: nat, n2: nat)
      requires |markB| == |phase| && n1 < |phase| && n2 < |phase|
    {
      (phase[n1] == phase[n2]) == (markB[n1] == markB[n2])
    }

    /** refine_one_class: splits repr's class by the comparison and returns
     *  the number of splits. */
    method RefineOneClass(repr: nat, resimulation: bool, recursively: bool) returns (count: nat)
      requires Valid() && repr < |id2class|
      modifies this
      ensures Valid() && sim == old(sim)
      ensures (id2class, reprs, count)
           == Refined(old(id2class), old(reprs), repr, Comparison(sim, phase, markB, resimulation), recursively)
      decreases SplitMeasure(id2class[repr], repr)
    {
      ghost var same := Comparison(sim, phase, markB, resimulation);
      ghost var classes0, reprs0 := id2class, reprs;
      var classOld, classNew := Partition(repr, resimulation);
      if classNew == [] {
        RefinedNone(classes0, reprs0, repr, same, recursively);
        return 0;
      }
      Split(repr, classOld, classNew, resimulation);
      if recursively && |classNew| > 1 {
        ghost var classes1, reprs1 := id2class, reprs;
        assert (classes1, reprs1) == SplitOnce(classes0, reprs0, repr, same);
        assert Moved(classes0[repr], same, repr) == classNew;
        var c := RefineOneClass(classNew[0], resimulation, true);
        assert same == Comparison(sim, phase, markB, resimulation);
        RefinedAgain(classes0, reprs0, repr, same, recursively, classes1, reprs1, classNew[0], id2class, reprs, c);
        return 1 + c;
      }
      RefinedOnce(classes0, reprs0, repr, same, recursively);
      return 1;
    }

    /** The swaps of refine_one_class: repr keeps the agreeing members, the
     *  first other member heads the rest and becomes their representative. */
    method Split(repr: nat, classOld: seq<nat>, classNew: seq<nat>, ghost resimulation: bool)
      requires Valid() && repr < |id2class|
      requires classOld == Keep(id2class[repr], Comparison(sim, phase, markB, resimulation), repr)
      requires classNew == Moved(id2class[repr], Comparison(sim, phase, markB, resimulation), repr)
      requires classNew != []
      modifies this
      ensures Valid() && sim == old(sim)
      ensures (id2class, reprs)
           == SplitOnce(old(id2class), old(reprs), repr, Comparison(sim, phase, markB, resimulation))
      ensures classNew[0] < |id2class|
      ensures SplitMeasure(id2class[classNew[0]], classNew[0]) < SplitMeasure(old(id2class)[repr], repr)
    {
      ghost var same := Comparison(sim, phase, markB, resimulation);
      SplitShrinks(id2class, reprs, repr, same);
      ghost var split := SplitOnce(id2class, reprs, repr, same);
      id2class := id2class[repr := classOld];
      var reprNew := classNew[0];
      PointAt(classNew, reprNew);
      id2class := id2class[reprNew := classNew];
    }

    /** The loop of refine_one_class that sorts the members into those equal
     *  to the representative and the rest, each in class order. */
    method Partition(repr: nat, resimulation: bool) returns (classOld: seq<nat>, classNew: seq<nat>)
      requires Valid() && repr < |id2class|
      ensures classOld == Keep(id2class[repr], Comparison(sim, phase, markB, resimulation), repr)
      ensures classNew == Moved(id2class[repr], Comparison(sim, phase, markB, resimulation), repr)
    {
      ghost var same := Comparison(sim, phase, markB, resimulation);
      var cls := id2class[repr];
      classOld, classNew := [], [];
      for j := 0 to |cls|
        invariant classOld == Keep(cls[..j], same, repr)
        invariant classNew == Moved(cls[..j], same, repr)
      {
        assert cls[j] in cls;
        ComparisonMeans(sim, phase, markB, resimulation, repr, cls[j]);
        var verify;
        if resimulation {
          verify := EqualCex(repr, cls[j]);
        } else {
          verify := Equal(repr, cls[j]);
        }
        assert cls[..j + 1][..j] == cls[..j];
        if verify {
          classOld := classOld + [cls[j]];
        } else {
          classNew := classNew + [cls[j]];
        }
      }
      assert cls[..|cls|] == cls;
    }

    /** The loop of refine_one_class that makes head the representative of
     *  every moved member. */
    method PointAt(moved: seq<nat>, head: nat)
      requires forall x :: x in moved ==> x < |reprs|
      modifies this
      ensures reprs == Relabel(old(reprs), moved, head)
      ensures id2class == old(id2class) && sim == old(sim)
    {
      ghost var reprs0 := reprs;
      for j := 0 to |moved|
        invariant |reprs| == |reprs0| && id2class == old(id2class) && sim == old(sim)
        invariant forall i :: 0 <= i < |reprs| ==> reprs[i] == (if i in moved[..j] then head else reprs0[i])
      {
        assert moved[j] in moved;
        reprs := reprs[moved[j] := head];
        assert forall i :: i in moved[..j + 1] <==> i in moved[..j] || i == moved[j];
      }
      assert moved[..|moved|] == moved;
    }
  }

  // ---------------------------------------------------------------------
  // The next prime

  /** What Abc_PrimeCudd accepts: an odd number with no odd divisor i,
   *  3 <= i, i * i <= x. */
  ghost predicate PrimeCandidate(x: nat)
  {
    x % 2 == 1 && forall i :: 3 <= i && i % 2 == 1 && i * i <= x ==> x % i != 0
  }

  ghost predicate IsPrime(x: nat)
  {
    x >= 2 && forall d :: 2 <= d < x ==> x % d != 0
  }

  lemma MulLe(a: nat, b: nat, c: nat)
    requires a <= b
    ensures a * c <= b * c
  {
  }

  lemma SquareLe(a: nat, b: nat)
    requires a <= b
    ensures a * a <= b * b
  {
    MulLe(a, b, a);
    MulLe(a, b, b);
  }

  /** A square of at least 3 exceeds its root. */
  lemma SquareAbove(i: nat)
    requires i >= 3
    ensures i * i >= 3 * i > i
  {
    MulLe(3, i, i);
  }

  /** Both factors of an odd number are odd. */
  lemma OddFactors(x: nat, d: nat, e: nat)
    requires x % 2 == 1 && d * e == x
    ensures d % 2 == 1 && e % 2 == 1
  {
    var a, r, b, t := d / 2, d % 2, e / 2, e % 2;
    assert d * e == 2 * (2 * a * b + a * t + b * r) + r * t;
  }

  /** a * b is a multiple of a. */
  lemma MulMod(a: nat, b: nat)
    requires a >= 1
    ensures (a * b) % a == 0
  {
    var x := a * b;
    var k := b - x / a;
    assert a * k == x % a by {
      assert x == a * (x / a) + x % a;
    }
    if k > 0 {
      MulLe(1, k, a);
    } else if k < 0 {
      MulLe(1, -k, a);
      assert a * k == -(a * -k);
    }
  }

  /** An odd number with a proper divisor has an odd divisor of at least 3
   *  whose square does not exceed it. */
  lemma SmallFactor(x: nat, d: nat) returns (i: nat)
    requires x % 2 == 1 && 2 <= d < x && x % d == 0
    ensures 3 <= i && i % 2 == 1 && i * i <= x && x % i == 0
  {
    var e := x / d;
    assert d * e == x;
    OddFactors(x, d, e);
    if d <= e {
      MulLe(d, e, d);
      i := d;
    } else {
      MulLe(e, d, e);
      MulMod(e, d);
      i := e;
    }
  }

  /** Every accepted number of at least 3 is prime. */
  lemma CandidateIsPrime(x: nat)
    requires x >= 3 && PrimeCandidate(x)
    ensures IsPrime(x)
  {
    forall d | 2 <= d < x
      ensures x % d != 0
    {
      if x % d == 0 {
        var i := SmallFactor(x, d);
        assert false;
      }
    }
  }

  /** Every odd prime is accepted. */
  lemma PrimeIsCandidate(x: nat)
    requires x >= 3 && IsPrime(x)
    ensures PrimeCandidate(x)
  {
    assert x % 2 != 0;
    forall i | 3 <= i && i % 2 == 1 && i * i <= x
      ensures x % i != 0
    {
      SquareAbove(i);
    }
  }

  /** 1 is accepted, 0 and 2 are not. */
  lemma SmallCandidates()
    ensures PrimeCandidate(1) && !PrimeCandidate(0) && !PrimeCandidate(2)
  {
    forall i | 3 <= i
      ensures i * i > 1
    {
      SquareAbove(i);
    }
  }

  /** The trial division for odd p: pn holds when no odd i with i * i <= p
   *  divides p. */
  method OddTrial(p: nat) returns (pn: bool)
    requires p % 2 == 1
    ensures pn <==> PrimeCandidate(p)
  {
    pn := true;
    var i := 3;
    while i * i <= p
      invariant i >= 3 && i % 2 == 1
      invariant forall j :: 3 <= j < i && j % 2 == 1 ==> p % j != 0
      decreases p - i
    {
      SquareAbove(i);
      if p % i == 0 {
        pn := false;
        return;
      }
      i := i + 2;
    }
    forall j | 3 <= j && j % 2 == 1 && j * j <= p
      ensures p % j != 0
    {
      if j >= i {
        SquareLe(i, j);
      }
    }
  }

  /** The 32-bit counter value after q increments from 0, for q between -1
   *  and 2^32 + 1. */
  function Wrap(q: int): nat
    requires -1 <= q
  {
    if q < 0 then q + M32 else if q < M32 then q else q - M32
  }

  /** Abc_PrimeCudd(p): starting at p, the first 32-bit value the do/while
   *  accepts. The counter is unsigned, so when no value from p up to
   *  0xFFFFFFFF is accepted it wraps to 0 and stops at 1. */
  method AbcPrimeCudd(p0: nat) returns (r: nat)
    requires p0 < M32
    ensures PrimeCandidate(r)
    ensures (p0 <= r < M32 && forall x :: p0 <= x < r ==> !PrimeCandidate(x))
         || (r == 1 && forall x :: p0 <= x < M32 ==> !PrimeCandidate(x))
  {
    var p: nat := if p0 == 0 then 0xFFFF_FFFF else p0 - 1;
    var pn := false;
    ghost var q: int := p0 - 1;
    SmallCandidates();
    while !pn
      invariant p0 - 1 <= q <= M32 + 1 && p == Wrap(q)
      invariant !pn ==> q <= M32 && forall x :: p0 <= x <= q ==> !PrimeCandidate(Wrap(x))
      invariant pn ==> p0 <= q && PrimeCandidate(p) && forall x :: p0 <= x < q ==> !PrimeCandidate(Wrap(x))
      decreases M32 + 1 - q
    {
      p := if p == 0xFFFF_FFFF then 0 else p + 1;
      q := q + 1;
      if p % 2 == 1 {
        pn := OddTrial(p);
      } else {
        pn := false;
      }
    }
    r := p;
    PrimeCuddResult(p0, q, r);
  }

  /** Reads the loop invariant of AbcPrimeCudd at exit back as values. */
  lemma PrimeCuddResult(p0: nat, q: int, r: nat)
    requires p0 < M32 && p0 <= q <= M32 + 1 && r == Wrap(q) && PrimeCandidate(r)
    requires forall x :: p0 <= x < q ==> !PrimeCandidate(Wrap(x))
    ensures (p0 <= r < M32 && forall x :: p0 <= x < r ==> !PrimeCandidate(x))
         || (r == 1 && forall x :: p0 <= x < M32 ==> !PrimeCandidate(x))
  {
    SmallCandidates();
    if q < M32 {
      forall x | p0 <= x < r
        ensures !PrimeCandidate(x)
      {
        assert Wrap(x) == x;
      }
    } else {
      forall x | p0 <= x < M32
        ensures !PrimeCandidate(x)
      {
        assert Wrap(x) == x;
      }
    }
  }

  // ---------------------------------------------------------------------
  // The SAT wrapper's fanin list

  predicate Distinct(v: seq<AigNetwork.Signal>)
  {
    forall i, j :: 0 <= i < j < |v| ==> v[i] != v[j]
  }

  /** vector_push_unique: appends n only when it is not already present, so
   *  a list without duplicates stays without duplicates. */
  method VectorPushUnique(vec: seq<AigNetwork.Signal>, n: AigNetwork.Signal) returns (out: seq<AigNetwork.Signal>)
    ensures n in vec ==> out == vec
    ensures n !in vec ==> out == vec + [n]
    ensures forall x :: x in out <==> x in vec || x == n
    ensures Distinct(vec) ==> Distinct(out)
  {
    for i := 0 to |vec|
      invariant forall j :: 0 <= j < i ==> vec[j] != n
    {
      if vec[i] == n {
        return vec;
      }
    }
    out := vec + [n];
  }
}
