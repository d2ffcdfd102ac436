/**
 * Early-exit iteration helpers.  A callback is a function of the element
 * and the running index that answers whether to continue; a callback that
 * returns nothing is the one that always answers true.  Each method
 * returns the position just past the last element handed to the callback
 * together with the calls it made.
 */
module Foreach {

  /** The index counter is a 32-bit unsigned integer. */
  const WORD32: nat := 0x1_0000_0000

  datatype Call<T> = Call(elem: T, index: nat)

  /** The counter value handed to the j-th call when counting starts at index. */
  function IndexAt(index: nat, j: nat): nat {
    (index + j) % WORD32
  }

  /** Elements consumed and calls made by foreach_element from the front of s. */
  function Visit<T>(s: seq<T>, fn: (T, nat) -> bool, index: nat): (nat, seq<Call<T>>)
    decreases |s|
  {
    if |s| == 0 then (0, [])
    else if !fn(s[0], index) then (1, [Call(s[0], index)])
    else
      var rest := Visit(s[1..], fn, (index + 1) % WORD32);
      (1 + rest.0, [Call(s[0], index)] + rest.1)
  }

  /** foreach_element with a continue/stop callback and a counter. */
  method ForeachElement<T>(s: seq<T>, fn: (T, nat) -> bool, counterOffset: nat) returns (pos: nat, calls: seq<Call<T>>)
    requires counterOffset < WORD32
    ensures pos == Visit(s, fn, counterOffset).0 && calls == Visit(s, fn, counterOffset).1
  {
    var index: nat := counterOffset;
    pos, calls := 0, [];
    assert s[pos..] == s;
    while pos < |s|
      invariant 0 <= pos <= |s| && index < WORD32
      invariant Visit(s, fn, counterOffset).0 == pos + Visit(s[pos..], fn, index).0
      invariant Visit(s, fn, counterOffset).1 == calls + Visit(s[pos..], fn, index).1
    {
      assert s[pos..][1..] == s[pos + 1..];
      var x, i := s[pos], index;
      pos, index := pos + 1, (index + 1) % WORD32;
      calls := calls + [Call(x, i)];
      if !fn(x, i) {
        return;
      }
    }
  }

  /**
   * foreach_element stops right after the first callback that answers
   * false; the calls are exactly the consumed prefix with indices
   * counting up (modulo 2^32) from the offset.
   */
  lemma {:induction false} VisitShape<T>(s: seq<T>, fn: (T, nat) -> bool, index: nat)
    requires index < WORD32
    ensures var (pos, calls) := Visit(s, fn, index);
      && pos <= |s| && |calls| == pos
      && (forall j :: 0 <= j < pos ==> calls[j] == Call(s[j], IndexAt(index, j)))
      && (forall j :: 0 <= j < pos - 1 ==> fn(s[j], IndexAt(index, j)))
      && (pos < |s| ==> 0 < pos && !fn(s[pos - 1], IndexAt(index, pos - 1)))
      && ((forall j :: 0 <= j < |s| ==> fn(s[j], IndexAt(index, j))) ==> pos == |s|)
    decreases |s|
  {
    if |s| > 0 && fn(s[0], index) {
      var next := (index + 1) % WORD32;
      VisitShape(s[1..], fn, next);
      var (pos, calls) := Visit(s, fn, index);
      var rest := Visit(s[1..], fn, next);
      assert calls == [Call(s[0], index)] + rest.1;
      forall j | 0 <= j < pos ensures calls[j] == Call(s[j], IndexAt(index, j)) {
        if j > 0 {
          assert calls[j] == rest.1[j - 1];
          IndexAtShift(index, j - 1);
        }
      }
      forall j | 0 < j < |s| ensures IndexAt(next, j - 1) == IndexAt(index, j) {
        IndexAtShift(index, j - 1);
      }
    }
  }

  lemma IndexAtShift(index: nat, j: nat)
    requires index < WORD32
    ensures IndexAt((index + 1) % WORD32, j) == IndexAt(index, j + 1)
  {
    if index + 1 == WORD32 {
      assert (index + j + 1) == j + WORD32;
    }
  }

  /** With a callback that returns nothing every element is visited and end is returned. */
  lemma VisitAll<T>(s: seq<T>, index: nat)
    requires index < WORD32
    ensures Visit(s, (x: T, i: nat) => true, index).0 == |s|
  {
    VisitShape(s, (x: T, i: nat) => true, index);
  }

  function Filter<T>(s: seq<T>, pred: T -> bool): (r: seq<T>)
    ensures |r| <= |s|
    decreases |s|
  {
    if |s| == 0 then [] else (if pred(s[0]) then [s[0]] else []) + Filter(s[1..], pred)
  }

  /** Elements consumed and calls made by foreach_element_if. */
  function VisitIf<T>(s: seq<T>, pred: T -> bool, fn: (T, nat) -> bool, index: nat): (nat, seq<Call<T>>)
    decreases |s|
  {
    if |s| == 0 then (0, [])
    else if !pred(s[0]) then
      var rest := VisitIf(s[1..], pred, fn, index);
      (1 + rest.0, rest.1)
    else if !fn(s[0], index) then (1, [Call(s[0], index)])
    else
      var rest := VisitIf(s[1..], pred, fn, (index + 1) % WORD32);
      (1 + rest.0, [Call(s[0], index)] + rest.1)
  }

  /** foreach_element_if: elements failing pred are skipped. */
  method ForeachElementIf<T>(s: seq<T>, pred: T -> bool, fn: (T, nat) -> bool, counterOffset: nat)
    returns (pos: nat, calls: seq<Call<T>>)
    requires counterOffset < WORD32
    ensures pos == VisitIf(s, pred, fn, counterOffset).0 && calls == VisitIf(s, pred, fn, counterOffset).1
  {
    var index: nat := counterOffset;
    pos, calls := 0, [];
    assert s[pos..] == s;
    while pos < |s|
      invariant 0 <= pos <= |s| && index < WORD32
      invariant VisitIf(s, pred, fn, counterOffset).0 == pos + VisitIf(s[pos..], pred, fn, index).0
      invariant VisitIf(s, pred, fn, counterOffset).1 == calls + VisitIf(s[pos..], pred, fn, index).1
    {
      assert s[pos..][1..] == s[pos + 1..];
      if !pred(s[pos]) {
        pos := pos + 1;
        continue;
      }
      var x, i := s[pos], index;
      pos, index := pos + 1, (index + 1) % WORD32;
      calls := calls + [Call(x, i)];
      if !fn(x, i) {
        return;
      }
    }
  }

  /**
   * Skipped elements neither reach the callback nor consume an index:
   * the calls are those foreach_element makes over the filtered sequence.
   */
  lemma {:induction false} VisitIfIsVisitOfFilter<T>(s: seq<T>, pred: T -> bool, fn: (T, nat) -> bool, index: nat)
    ensures VisitIf(s, pred, fn, index).1 == Visit(Filter(s, pred), fn, index).1
    decreases |s|
  {
    if |s| > 0 {
      var f := Filter(s, pred);
      if pred(s[0]) {
        assert f[0] == s[0] && f[1..] == Filter(s[1..], pred);
        VisitIfIsVisitOfFilter(s[1..], pred, fn, (index + 1) % WORD32);
      } else {
        assert f == Filter(s[1..], pred);
        VisitIfIsVisitOfFilter(s[1..], pred, fn, index);
      }
    }
  }

  function MapSeq<T, U>(s: seq<T>, transform: T -> U): (r: seq<U>)
    ensures |r| == |s| && forall i :: 0 <= i < |s| ==> r[i] == transform(s[i])
    decreases |s|
  {
    if |s| == 0 then [] else [transform(s[0])] + MapSeq(s[1..], transform)
  }

  /** foreach_element_transform: the callback sees transform(x) instead of x. */
  method ForeachElementTransform<T, U>(s: seq<T>, transform: T -> U, fn: (U, nat) -> bool, counterOffset: nat)
    returns (pos: nat, calls: seq<Call<U>>)
    requires counterOffset < WORD32
    ensures pos == Visit(MapSeq(s, transform), fn, counterOffset).0
    ensures calls == Visit(MapSeq(s, transform), fn, counterOffset).1
  {
    ghost var m := MapSeq(s, transform);
    var index: nat := counterOffset;
    pos, calls := 0, [];
    assert s[pos..] == s;
    while pos < |s|
      invariant 0 <= pos <= |s| && index < WORD32
      invariant Visit(m, fn, counterOffset).0 == pos + Visit(m[pos..], fn, index).0
      invariant Visit(m, fn, counterOffset).1 == calls + Visit(m[pos..], fn, index).1
    {
      assert m[pos..][1..] == m[pos + 1..];
      var y, i := transform(s[pos]), index;
      pos, index := pos + 1, (index + 1) % WORD32;
      calls := calls + [Call(y, i)];
      if !fn(y, i) {
        return;
      }
    }
  }
}
