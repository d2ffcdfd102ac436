/**
 * Range helpers: balanced binary and ternary reductions, the "maximum by
 * image" scan, and the integer range iterator.
 */
module Range {

  // ---------------------------------------------------------------------
  // tree_reduce

  /** Balanced binary reduction: halves are split at floor(len/2). */
  function TreeReduce<T>(s: seq<T>, init: T, op: (T, T) -> T): T
    decreases |s|
  {
    if |s| == 0 then init
    else if |s| == 1 then s[0]
    else if |s| == 2 then op(s[0], s[1])
    else op(TreeReduce(s[..|s| / 2], init, op), TreeReduce(s[|s| / 2..], init, op))
  }

  /** Reference definition: left fold of a non-empty sequence. */
  function Fold1<T>(s: seq<T>, op: (T, T) -> T): T
    requires |s| > 0
    decreases |s|
  {
    if |s| == 1 then s[0] else op(Fold1(s[..|s| - 1], op), s[|s| - 1])
  }

  ghost predicate Associative<T(!new)>(op: (T, T) -> T) {
    forall x: T, y: T, z: T :: op(op(x, y), z) == op(x, op(y, z))
  }

  lemma {:induction false} Fold1Append<T(!new)>(a: seq<T>, b: seq<T>, op: (T, T) -> T)
    requires Associative(op)
    requires |a| > 0 && |b| > 0
    ensures Fold1(a + b, op) == op(Fold1(a, op), Fold1(b, op))
    decreases |b|
  {
    var ab := a + b;
    if |b| == 1 {
      assert ab[..|ab| - 1] == a;
    } else {
      var b' := b[..|b| - 1];
      assert ab[..|ab| - 1] == a + b';
      Fold1Append(a, b', op);
    }
  }

  /** The empty range yields init and a singleton yields its element. */
  lemma TreeReduceSmall<T>(s: seq<T>, init: T, op: (T, T) -> T)
    ensures |s| == 0 ==> TreeReduce(s, init, op) == init
    ensures |s| == 1 ==> TreeReduce(s, init, op) == s[0]
  {
  }

  /** init is never combined into the result of a non-empty range. */
  lemma {:induction false} TreeReduceIgnoresInit<T>(s: seq<T>, i1: T, i2: T, op: (T, T) -> T)
    requires |s| > 0
    ensures TreeReduce(s, i1, op) == TreeReduce(s, i2, op)
    decreases |s|
  {
    if |s| > 2 {
      TreeReduceIgnoresInit(s[..|s| / 2], i1, i2, op);
      TreeReduceIgnoresInit(s[|s| / 2..], i1, i2, op);
    }
  }

  /** For an associative operation the balanced reduction equals the left fold. */
  lemma {:induction false} TreeReduceIsFold<T(!new)>(s: seq<T>, init: T, op: (T, T) -> T)
    requires Associative(op)
    requires |s| > 0
    ensures TreeReduce(s, init, op) == Fold1(s, op)
    decreases |s|
  {
    if |s| == 2 {
      assert s[..1] == [s[0]];
    } else if |s| > 2 {
      var m := |s| / 2;
      TreeReduceIsFold(s[..m], init, op);
      TreeReduceIsFold(s[m..], init, op);
      assert s == s[..m] + s[m..];
      Fold1Append(s[..m], s[m..], op);
    }
  }

  // ---------------------------------------------------------------------
  // ternary_tree_reduce

  /**
   * Ternary reduction: two elements are combined with init as the first
   * operand; longer ranges split into len/3, (len - len/3)/2 and the rest.
   */
  function TernaryTreeReduce<T>(s: seq<T>, init: T, op: (T, T, T) -> T): T
    decreases |s|
  {
    if |s| == 0 then init
    else if |s| == 1 then s[0]
    else if |s| == 2 then op(init, s[0], s[1])
    else if |s| == 3 then op(s[0], s[1], s[2])
    else
      var m1 := |s| / 3;
      var m2 := (|s| - m1) / 2;
      op(TernaryTreeReduce(s[..m1], init, op),
         TernaryTreeReduce(s[m1..m1 + m2], init, op),
         TernaryTreeReduce(s[m1 + m2..], init, op))
  }

  /** Left fold with a start value. */
  function Fold<T>(s: seq<T>, e: T, f: (T, T) -> T): T
    decreases |s|
  {
    if |s| == 0 then e else f(Fold(s[..|s| - 1], e, f), s[|s| - 1])
  }

  ghost predicate IsUnit<T(!new)>(f: (T, T) -> T, e: T) {
    forall x: T :: f(e, x) == x && f(x, e) == x
  }

  lemma {:induction false} FoldAppend<T(!new)>(a: seq<T>, b: seq<T>, e: T, f: (T, T) -> T)
    requires Associative(f) && IsUnit(f, e)
    ensures Fold(a + b, e, f) == f(Fold(a, e, f), Fold(b, e, f))
    decreases |b|
  {
    var ab := a + b;
    if |b| == 0 {
      assert ab == a;
    } else {
      var b' := b[..|b| - 1];
      assert ab[..|ab| - 1] == a + b';
      FoldAppend(a, b', e, f);
    }
  }

  /** Fold of up to three elements, written out. */
  lemma FoldSmall<T>(s: seq<T>, e: T, f: (T, T) -> T)
    requires 1 <= |s| <= 3
    ensures |s| == 1 ==> Fold(s, e, f) == f(e, s[0])
    ensures |s| == 2 ==> Fold(s, e, f) == f(f(e, s[0]), s[1])
    ensures |s| == 3 ==> Fold(s, e, f) == f(f(f(e, s[0]), s[1]), s[2])
  {
    if |s| >= 2 {
      assert s[..|s| - 1][..|s| - 2] == s[..|s| - 2];
    }
    if |s| == 3 {
      assert s[..1][..0] == [];
    }
  }

  /**
   * When the ternary operation is a pair of applications of an associative
   * f whose unit is init, the ternary reduction is the left fold of f.
   */
  lemma {:induction false} TernaryTreeReduceIsFold<T(!new)>(s: seq<T>, init: T, f: (T, T) -> T, op: (T, T, T) -> T)
    requires Associative(f) && IsUnit(f, init)
    requires forall x: T, y: T, z: T :: op(x, y, z) == f(f(x, y), z)
    ensures TernaryTreeReduce(s, init, op) == Fold(s, init, f)
    decreases |s|
  {
    if 1 <= |s| <= 3 {
      FoldSmall(s, init, f);
      assert f(init, s[0]) == s[0];
    } else if |s| > 3 {
      var m1 := |s| / 3;
      var m2 := (|s| - m1) / 2;
      var a, b, c := s[..m1], s[m1..m1 + m2], s[m1 + m2..];
      TernaryTreeReduceIsFold(a, init, f, op);
      TernaryTreeReduceIsFold(b, init, f, op);
      TernaryTreeReduceIsFold(c, init, f, op);
      FoldThree(a, b, c, init, f);
      var x, y, z := Fold(a, init, f), Fold(b, init, f), Fold(c, init, f);
      assert op(x, y, z) == f(f(x, y), z);
      TernaryStep(s, init, f, op, m1, m2, a, b, c);
    }
  }

  /** The recursive case, once each third reduces to its fold and op is f applied twice there. */
  lemma TernaryStep<T>(s: seq<T>, init: T, f: (T, T) -> T, op: (T, T, T) -> T, m1: nat, m2: nat, a: seq<T>, b: seq<T>, c: seq<T>)
    requires |s| > 3 && m1 == |s| / 3 && m2 == (|s| - m1) / 2
    requires a == s[..m1] && b == s[m1..m1 + m2] && c == s[m1 + m2..]
    requires TernaryTreeReduce(a, init, op) == Fold(a, init, f)
    requires TernaryTreeReduce(b, init, op) == Fold(b, init, f)
    requires TernaryTreeReduce(c, init, op) == Fold(c, init, f)
    requires op(Fold(a, init, f), Fold(b, init, f), Fold(c, init, f)) == f(f(Fold(a, init, f), Fold(b, init, f)), Fold(c, init, f))
    requires Fold(a + b + c, init, f) == f(f(Fold(a, init, f), Fold(b, init, f)), Fold(c, init, f))
    ensures TernaryTreeReduce(s, init, op) == Fold(s, init, f)
  {
    TernaryUnfold(s, init, op);
    SplitThree(s, m1, m1 + m2);
    assert s == a + b + c;
  }

  /** Above three elements the reduction combines the reductions of the three pieces. */
  lemma TernaryUnfold<T>(s: seq<T>, init: T, op: (T, T, T) -> T)
    requires |s| > 3
    ensures TernaryTreeReduce(s, init, op)
      == op(TernaryTreeReduce(s[..|s| / 3], init, op),
            TernaryTreeReduce(s[|s| / 3..|s| / 3 + (|s| - |s| / 3) / 2], init, op),
            TernaryTreeReduce(s[|s| / 3 + (|s| - |s| / 3) / 2..], init, op))
  {
  }

  /** A sequence is its three consecutive pieces. */
  lemma SplitThree<T>(s: seq<T>, i: nat, j: nat)
    requires i <= j <= |s|
    ensures s == s[..i] + s[i..j] + s[j..]
  {
  }

  /** Folding three consecutive pieces and combining the results folds the whole. */
  lemma FoldThree<T(!new)>(a: seq<T>, b: seq<T>, c: seq<T>, e: T, f: (T, T) -> T)
    requires Associative(f) && IsUnit(f, e)
    ensures Fold(a + b + c, e, f) == f(f(Fold(a, e, f), Fold(b, e, f)), Fold(c, e, f))
  {
    FoldAppend(a + b, c, e, f);
    FoldAppend(a, b, e, f);
  }

  // ---------------------------------------------------------------------
  // max_element_unary

  /**
   * The running maximum of the scan as written after the prefix s: the
   * comparison result (a boolean, converted to 1) is stored as the new
   * maximum, so after the first hit an element is selected whenever its
   * image exceeds 1.
   */
  function ScanMaxAsWritten<T>(s: seq<T>, fn: T -> int, init: int): int
    decreases |s|
  {
    if |s| == 0 then init
    else
      var m := ScanMaxAsWritten(s[..|s| - 1], fn, init);
      if fn(s[|s| - 1]) > m then 1 else m
  }

  /** Index of the as-written selection (|s| when nothing is selected). */
  function MaxElementAsWritten<T>(s: seq<T>, fn: T -> int, init: int): (r: nat)
    ensures r <= |s|
    decreases |s|
  {
    if |s| == 0 then 0
    else
      var k := |s| - 1;
      var prev := MaxElementAsWritten(s[..k], fn, init);
      if fn(s[k]) > ScanMaxAsWritten(s[..k], fn, init) then k
      else if prev == k then |s| else prev
  }

  /** max_element_unary as written (the comparison is stored as the maximum). */
  method MaxElementUnary<T>(s: seq<T>, fn: T -> int, init: int) returns (best: nat)
    ensures best == MaxElementAsWritten(s, fn, init)
  {
    best := |s|;
    var max := init;
    var i := 0;
    while i < |s|
      invariant 0 <= i <= |s|
      invariant max == ScanMaxAsWritten(s[..i], fn, init)
      invariant best == if MaxElementAsWritten(s[..i], fn, init) == i then |s| else MaxElementAsWritten(s[..i], fn, init)
    {
      assert s[..i + 1][..i] == s[..i];
      var v := fn(s[i]) > max;
      if v {
        max := 1;
        best := i;
      }
      i := i + 1;
    }
    assert s[..i] == s;
  }

  /** On [5, 3] with the identity image the as-written scan selects index 1. */
  lemma MaxElementAsWrittenCounterexample()
    ensures MaxElementAsWritten([5, 3], (x: int) => x, 0) == 1
  {
    var s := [5, 3];
    var id := (x: int) => x;
    assert s[..1] == [5];
    assert [5][..0] == [];
    assert ScanMaxAsWritten([5], id, 0) == 1;
    assert MaxElementAsWritten([5], id, 0) == 0;
  }

  /**
   * The evidently intended scan: the first index whose image is maximal
   * and exceeds init, or |s| when no image exceeds init.
   */
  method MaxElementUnaryFixed<T>(s: seq<T>, fn: T -> int, init: int) returns (best: nat)
    ensures best <= |s|
    ensures best == |s| <==> forall j :: 0 <= j < |s| ==> fn(s[j]) <= init
    ensures best < |s| ==> fn(s[best]) > init
    ensures best < |s| ==> forall j :: 0 <= j < |s| ==> fn(s[j]) <= fn(s[best])
    ensures best < |s| ==> forall j :: 0 <= j < best ==> fn(s[j]) < fn(s[best])
  {
    best := |s|;
    var max := init;
    var i := 0;
    while i < |s|
      invariant 0 <= i <= |s|
      invariant best == |s| || best < i
      invariant best == |s| ==> max == init && forall j :: 0 <= j < i ==> fn(s[j]) <= init
      invariant best < |s| ==> max == fn(s[best]) > init
      invariant best < |s| ==> forall j :: 0 <= j < i ==> fn(s[j]) <= max
      invariant best < |s| ==> forall j :: 0 <= j < best ==> fn(s[j]) < max
    {
      var v := fn(s[i]);
      if v > max {
        max := v;
        best := i;
      }
      i := i + 1;
    }
  }

  // ---------------------------------------------------------------------
  // range

  /** The values visited by iterating range(b, e): b, b+1, ..., e-1. */
  method RangeValues(b: int, e: int) returns (r: seq<int>)
    requires b <= e
    ensures |r| == e - b
    ensures forall i :: 0 <= i < |r| ==> r[i] == b + i
  {
    r := [];
    var curr := b;
    while curr != e
      invariant b <= curr <= e
      invariant |r| == curr - b
      invariant forall i :: 0 <= i < |r| ==> r[i] == b + i
      decreases e - curr
    {
      r := r + [curr];
      curr := curr + 1;
    }
  }

  /** range(e) starts at the default value 0. */
  method RangeTo(e: nat) returns (r: seq<int>)
    ensures |r| == e
    ensures forall i :: 0 <= i < |r| ==> r[i] == i
  {
    r := RangeValues(0, e);
  }
}
