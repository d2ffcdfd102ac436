// Priority cut sets: a pool of MaxCuts cut slots and an array of slot
// numbers (the pointer array) whose first `pend` entries are the cuts of the
// set, kept in non-decreasing order of size.
module CutSets {
  import opened Cuts

  // ---------------------------------------------------------------------
  // slot arrays and their view

  /** Slot numbers below n, no slot twice. */
  predicate SlotsOk(s: seq<nat>, n: nat) {
    (forall i :: 0 <= i < |s| ==> s[i] < n)
    && forall i, j :: 0 <= i < j < |s| ==> s[i] != s[j]
  }

  /** The cuts the slots point to, in order. */
  function View(pool: seq<CutValue>, slots: seq<nat>): (v: seq<CutValue>)
    requires forall i :: 0 <= i < |slots| ==> slots[i] < |pool|
    ensures |v| == |slots| && forall i :: 0 <= i < |slots| ==> v[i] == pool[slots[i]]
  {
    seq(|slots|, i requires 0 <= i < |slots| => pool[slots[i]])
  }

  lemma {:induction false} InjectiveCount(s: seq<nat>, x: nat)
    requires forall i, j :: 0 <= i < j < |s| ==> s[i] != s[j]
    ensures multiset(s)[x] <= 1
  {
    if |s| > 0 {
      var t := s[1..];
      assert s == [s[0]] + t;
      InjectiveCount(t, x);
      if s[0] == x {
        assert x !in t;
      }
    }
  }

  /** A rearrangement of distinct slots below n is again distinct slots below n. */
  lemma PermutedSlotsOk(s: seq<nat>, t: seq<nat>, n: nat)
    requires SlotsOk(s, n) && multiset(s) == multiset(t)
    ensures SlotsOk(t, n)
  {
    forall i | 0 <= i < |t| ensures t[i] < n {
      assert t[i] in multiset(t);
      assert t[i] in s;
    }
    forall i, j | 0 <= i < j < |t| ensures t[i] != t[j] {
      if t[i] == t[j] {
        assert t == t[..j] + t[j..];
        assert t[i] in t[..j];
        assert t[j] in t[j..];
        assert multiset(t)[t[i]] == multiset(t[..j])[t[i]] + multiset(t[j..])[t[i]];
        InjectiveCount(s, t[i]);
      }
    }
  }

  lemma ViewAppend(pool: seq<CutValue>, a: seq<nat>, b: seq<nat>)
    requires forall i :: 0 <= i < |a| ==> a[i] < |pool|
    requires forall i :: 0 <= i < |b| ==> b[i] < |pool|
    ensures View(pool, a + b) == View(pool, a) + View(pool, b)
  {
  }

  /** Writing a slot that no entry points to leaves the view unchanged. */
  lemma ViewUpdate(pool: seq<CutValue>, slots: seq<nat>, s: nat, v: CutValue)
    requires forall i :: 0 <= i < |slots| ==> slots[i] < |pool|
    requires s < |pool| && s !in slots
    ensures View(pool[s := v], slots) == View(pool, slots)
  {
  }

  // ---------------------------------------------------------------------
  // insertion as a function on the list of cuts

  /** set_leaves(cut) plus the data copy: the stored cut's signature is recomputed. */
  function Stored(c: CutValue): CutValue {
    CutValue(c.leaves, Sig(c.leaves), c.funcId)
  }

  /** The cuts c does not dominate, in their order (the first part of the stable partition). */
  function Kept(cuts: seq<CutValue>, c: CutValue): (r: seq<CutValue>)
    ensures |r| <= |cuts|
  {
    if |cuts| == 0 then []
    else if CutDominates(c, cuts[0]) then Kept(cuts[1..], c)
    else [cuts[0]] + Kept(cuts[1..], c)
  }

  /** The slots whose cut c does not dominate, in order. */
  function KeptSlots(pool: seq<CutValue>, slots: seq<nat>, c: CutValue): seq<nat>
    requires forall i :: 0 <= i < |slots| ==> slots[i] < |pool|
  {
    if |slots| == 0 then []
    else if CutDominates(c, pool[slots[0]]) then KeptSlots(pool, slots[1..], c)
    else [slots[0]] + KeptSlots(pool, slots[1..], c)
  }

  /** The slots whose cut c dominates, in order (the second part of the stable partition). */
  function DroppedSlots(pool: seq<CutValue>, slots: seq<nat>, c: CutValue): seq<nat>
    requires forall i :: 0 <= i < |slots| ==> slots[i] < |pool|
  {
    if |slots| == 0 then []
    else if CutDominates(c, pool[slots[0]]) then [slots[0]] + DroppedSlots(pool, slots[1..], c)
    else DroppedSlots(pool, slots[1..], c)
  }

  lemma {:induction false} KeptSlotsBound(pool: seq<CutValue>, slots: seq<nat>, c: CutValue)
    requires forall i :: 0 <= i < |slots| ==> slots[i] < |pool|
    ensures forall x :: x in KeptSlots(pool, slots, c) ==> x in slots
  {
    if |slots| > 0 {
      KeptSlotsBound(pool, slots[1..], c);
    }
  }

  /** The kept and the dropped slots together are a rearrangement of the slots. */
  lemma {:induction false} PartitionSlots(pool: seq<CutValue>, slots: seq<nat>, c: CutValue)
    requires forall i :: 0 <= i < |slots| ==> slots[i] < |pool|
    ensures multiset(KeptSlots(pool, slots, c) + DroppedSlots(pool, slots, c)) == multiset(slots)
  {
    if |slots| > 0 {
      var t := slots[1..];
      assert slots == [slots[0]] + t;
      PartitionSlots(pool, t, c);
    }
  }

  /** The kept slots point to the kept cuts. */
  lemma {:induction false} KeptSlotsView(pool: seq<CutValue>, slots: seq<nat>, c: CutValue)
    requires forall i :: 0 <= i < |slots| ==> slots[i] < |pool|
    ensures var k := KeptSlots(pool, slots, c);
            (forall i :: 0 <= i < |k| ==> k[i] < |pool|) && View(pool, k) == Kept(View(pool, slots), c)
  {
    KeptSlotsBound(pool, slots, c);
    if |slots| > 0 {
      var t := slots[1..];
      KeptSlotsView(pool, t, c);
      assert View(pool, slots)[1..] == View(pool, t);
      var k := KeptSlots(pool, t, c);
      KeptSlotsBound(pool, t, c);
      if !CutDominates(c, pool[slots[0]]) {
        assert View(pool, [slots[0]] + k) == [pool[slots[0]]] + View(pool, k);
      }
    }
  }

  /** Every kept cut is one of the cuts, and c dominates none of them. */
  lemma {:induction false} KeptMembers(cuts: seq<CutValue>, c: CutValue)
    ensures forall x :: x in Kept(cuts, c) <==> x in cuts && !CutDominates(c, x)
  {
    if |cuts| > 0 {
      assert cuts == [cuts[0]] + cuts[1..];
      KeptMembers(cuts[1..], c);
    }
  }

  /** std::lower_bound on the cuts with operator<, as its binary search runs. */
  function LowerBound(cuts: seq<CutValue>, c: CutValue, first: nat, count: nat): (r: nat)
    requires first + count <= |cuts|
    ensures first <= r <= first + count
    decreases count
  {
    if count == 0 then first
    else
      var half := count / 2;
      if Less(cuts[first + half], c) then LowerBound(cuts, c, first + half + 1, count - half - 1)
      else LowerBound(cuts, c, first, half)
  }

  /** Non-decreasing in size, the order operator< induces. */
  predicate SizeSorted(cuts: seq<CutValue>) {
    forall i, j :: 0 <= i < j < |cuts| ==> Size(cuts[i]) <= Size(cuts[j])
  }

  /** On size-sorted cuts the binary search finds the first cut at least as large as c. */
  lemma {:induction false} LowerBoundBelow(cuts: seq<CutValue>, c: CutValue, first: nat, count: nat)
    requires first + count <= |cuts| && SizeSorted(cuts)
    ensures forall i :: first <= i < LowerBound(cuts, c, first, count) ==> Size(cuts[i]) < Size(c)
    decreases count
  {
    if count > 0 {
      var half := count / 2;
      var mid := first + half;
      if Less(cuts[mid], c) {
        LowerBoundBelow(cuts, c, mid + 1, count - half - 1);
        forall i | first <= i <= mid ensures Size(cuts[i]) < Size(c) {
          assert Size(cuts[i]) <= Size(cuts[mid]);
        }
      } else {
        LowerBoundBelow(cuts, c, first, half);
      }
    }
  }

  lemma {:induction false} LowerBoundAbove(cuts: seq<CutValue>, c: CutValue, first: nat, count: nat)
    requires first + count <= |cuts| && SizeSorted(cuts)
    ensures forall i :: LowerBound(cuts, c, first, count) <= i < first + count ==> Size(c) <= Size(cuts[i])
    decreases count
  {
    if count > 0 {
      var half := count / 2;
      var mid := first + half;
      if Less(cuts[mid], c) {
        LowerBoundAbove(cuts, c, mid + 1, count - half - 1);
      } else {
        LowerBoundAbove(cuts, c, first, half);
        forall i | mid <= i < first + count ensures Size(c) <= Size(cuts[i]) {
          assert Size(cuts[mid]) <= Size(cuts[i]);
        }
      }
    }
  }

  /** On size-sorted cuts the binary search finds the first cut at least as large as c. */
  lemma LowerBoundSorted(cuts: seq<CutValue>, c: CutValue)
    requires SizeSorted(cuts)
    ensures var r := LowerBound(cuts, c, 0, |cuts|);
            (forall i :: 0 <= i < r ==> Less(cuts[i], c))
            && (forall i :: r <= i < |cuts| ==> !Less(cuts[i], c))
  {
    LowerBoundBelow(cuts, c, 0, |cuts|);
    LowerBoundAbove(cuts, c, 0, |cuts|);
  }

  /**
   * The cut list after insert(c): c's dominated cuts are removed, then c is
   * placed at its lower_bound position; when the set is full the last cut
   * gives way, unless c itself would be last, in which case it is not added.
   */
  function InsertResult(cuts: seq<CutValue>, c: CutValue, capacity: nat): seq<CutValue> {
    var kept := Kept(cuts, c);
    var ipos := LowerBound(kept, c, 0, |kept|);
    if |kept| >= capacity && ipos == |kept| then kept
    else
      var room := if |kept| >= capacity then kept[..|kept| - 1] else kept;
      room[..ipos] + [Stored(c)] + room[ipos..]
  }

  /** No cut of the list dominates another one. */
  predicate DominanceFree(cuts: seq<CutValue>) {
    forall i, j :: 0 <= i < |cuts| && 0 <= j < |cuts| && i != j ==> !CutDominates(cuts[i], cuts[j])
  }

  lemma {:induction false} KeptSorted(cuts: seq<CutValue>, c: CutValue)
    requires SizeSorted(cuts)
    ensures SizeSorted(Kept(cuts, c))
  {
    if |cuts| > 0 {
      var t := cuts[1..];
      assert SizeSorted(t) by {
        forall i, j | 0 <= i < j < |t| ensures Size(t[i]) <= Size(t[j]) {
          assert t[i] == cuts[i + 1] && t[j] == cuts[j + 1];
        }
      }
      KeptSorted(t, c);
      if !CutDominates(c, cuts[0]) {
        var k := Kept(t, c);
        KeptMembers(t, c);
        forall j | 0 <= j < |k| ensures Size(cuts[0]) <= Size(k[j]) {
          assert k[j] in t;
        }
        assert Kept(cuts, c) == [cuts[0]] + k;
      }
    }
  }

  lemma {:induction false} KeptDominanceFree(cuts: seq<CutValue>, c: CutValue)
    requires DominanceFree(cuts)
    ensures DominanceFree(Kept(cuts, c))
  {
    if |cuts| > 0 {
      var t := cuts[1..];
      assert DominanceFree(t) by {
        forall i, j | 0 <= i < |t| && 0 <= j < |t| && i != j ensures !CutDominates(t[i], t[j]) {
          assert t[i] == cuts[i + 1] && t[j] == cuts[j + 1];
        }
      }
      KeptDominanceFree(t, c);
      if !CutDominates(c, cuts[0]) {
        var k := Kept(t, c);
        KeptMembers(t, c);
        forall j | 0 <= j < |k| ensures !CutDominates(cuts[0], k[j]) && !CutDominates(k[j], cuts[0]) {
          assert k[j] in t;
        }
        assert Kept(cuts, c) == [cuts[0]] + k;
      }
    }
  }

  /** insert keeps the set sorted by size. */
  lemma InsertKeepsSorted(cuts: seq<CutValue>, c: CutValue, capacity: nat)
    requires SizeSorted(cuts)
    ensures SizeSorted(InsertResult(cuts, c, capacity))
  {
    var kept := Kept(cuts, c);
    KeptSorted(cuts, c);
    var ipos := LowerBound(kept, c, 0, |kept|);
    LowerBoundSorted(kept, c);
    if !(|kept| >= capacity && ipos == |kept|) {
      var room := if |kept| >= capacity then kept[..|kept| - 1] else kept;
      assert SizeSorted(room);
      assert forall i :: 0 <= i < ipos ==> Size(room[i]) < Size(c) by {
        forall i | 0 <= i < ipos ensures Size(room[i]) < Size(c) {
          assert room[i] == kept[i];
        }
      }
      assert forall i :: ipos <= i < |room| ==> Size(c) <= Size(room[i]) by {
        forall i | ipos <= i < |room| ensures Size(c) <= Size(room[i]) {
          assert room[i] == kept[i];
        }
      }
      InsertAtSorted(room, Stored(c), ipos);
    }
  }

  /** Putting x at a position where the sizes before it are smaller and the ones after it no smaller keeps the order. */
  lemma InsertAtSorted(room: seq<CutValue>, x: CutValue, ipos: nat)
    requires SizeSorted(room) && ipos <= |room|
    requires forall i :: 0 <= i < ipos ==> Size(room[i]) < Size(x)
    requires forall i :: ipos <= i < |room| ==> Size(x) <= Size(room[i])
    ensures SizeSorted(room[..ipos] + [x] + room[ipos..])
  {
    var r := room[..ipos] + [x] + room[ipos..];
    assert forall i :: 0 <= i < |r| ==> r[i] == (if i < ipos then room[i] else if i == ipos then x else room[i - 1]);
    forall i, j | 0 <= i < j < |r| ensures Size(r[i]) <= Size(r[j]) {
      if i < ipos && ipos < j {
        assert Size(r[i]) < Size(x) <= Size(r[j]);
      }
    }
  }

  /**
   * insert of a cut no stored cut dominates keeps the set free of
   * dominance: the cuts c dominates are gone, and c dominates no other.
   */
  lemma InsertKeepsDominanceFree(cuts: seq<CutValue>, c: CutValue, capacity: nat)
    requires DominanceFree(cuts)
    requires forall i :: 0 <= i < |cuts| ==> !CutDominates(cuts[i], c)
    ensures DominanceFree(InsertResult(cuts, c, capacity))
  {
    var kept := Kept(cuts, c);
    KeptDominanceFree(cuts, c);
    KeptMembers(cuts, c);
    var ipos := LowerBound(kept, c, 0, |kept|);
    if !(|kept| >= capacity && ipos == |kept|) {
      var room := if |kept| >= capacity then kept[..|kept| - 1] else kept;
      var r := room[..ipos] + [Stored(c)] + room[ipos..];
      assert |r| == |room| + 1;
      forall i | 0 <= i < |r| && i != ipos ensures r[i] == kept[if i < ipos then i else i - 1] {
      }
      forall i, j | 0 <= i < |r| && 0 <= j < |r| && i != j ensures !CutDominates(r[i], r[j]) {
        if i == ipos {
          var x := r[j];
          assert x in kept;
        } else if j == ipos {
          var x := r[i];
          assert x in kept;
          var m :| 0 <= m < |cuts| && cuts[m] == x;
        } else {
          var i' := if i < ipos then i else i - 1;
          var j' := if j < ipos then j else j - 1;
          assert r[i] == kept[i'] && r[j] == kept[j'];
        }
      }
    }
  }

  /** insert never grows a set beyond its capacity. */
  lemma InsertBounded(cuts: seq<CutValue>, c: CutValue, capacity: nat)
    requires |cuts| <= capacity
    ensures |InsertResult(cuts, c, capacity)| <= capacity
  {
  }

  /** A set with room left after the removals holds the inserted cut. */
  lemma InsertContains(cuts: seq<CutValue>, c: CutValue, capacity: nat)
    requires |Kept(cuts, c)| < capacity
    ensures Stored(c) in InsertResult(cuts, c, capacity)
    ensures |InsertResult(cuts, c, capacity)| == |Kept(cuts, c)| + 1
  {
    var kept := Kept(cuts, c);
    var ipos := LowerBound(kept, c, 0, |kept|);
    assert InsertResult(cuts, c, capacity)[ipos] == Stored(c);
  }

  /**
   * The cut set test: {3, 6} and then {1, 2, 3} go into an empty set of
   * 25, smaller first; {1, 2, 3, 8} is then dominated.
   */
  lemma InsertExample(c1: CutValue, c2: CutValue, c3: CutValue)
    requires c1.leaves == [3, 6] && c2.leaves == [1, 2, 3] && c3.leaves == [1, 2, 3, 8]
    ensures InsertResult([], c1, 25) == [Stored(c1)]
    ensures InsertResult([Stored(c1)], c2, 25) == [Stored(c1), Stored(c2)]
    ensures !CutDominates(Stored(c1), c2)
    ensures CutDominates(InsertResult([Stored(c1)], c2, 25)[1], c3)
  {
    assert 1 !in c1.leaves && 6 !in c2.leaves;
    assert Kept([Stored(c1)], c2) == [Stored(c1)];
  }

  /** Every cut of the list has sorted leaves and a matching signature. */
  predicate AllConsistent(cuts: seq<CutValue>) {
    forall i :: 0 <= i < |cuts| ==> Consistent(cuts[i])
  }

  /** insert of a consistent cut keeps every stored cut consistent. */
  lemma InsertKeepsConsistent(cuts: seq<CutValue>, c: CutValue, capacity: nat)
    requires AllConsistent(cuts) && Consistent(c)
    ensures AllConsistent(InsertResult(cuts, c, capacity))
  {
    var kept := Kept(cuts, c);
    KeptMembers(cuts, c);
    assert AllConsistent(kept) by {
      forall i | 0 <= i < |kept| ensures Consistent(kept[i]) {
        assert kept[i] in cuts;
      }
    }
    var ipos := LowerBound(kept, c, 0, |kept|);
    if !(|kept| >= capacity && ipos == |kept|) {
      var room := if |kept| >= capacity then kept[..|kept| - 1] else kept;
      var r := room[..ipos] + [Stored(c)] + room[ipos..];
      assert r == InsertResult(cuts, c, capacity);
      assert Stored(c) == c;
      forall i | 0 <= i < |r| ensures Consistent(r[i]) {
        if i < ipos {
          assert r[i] == kept[i];
        } else if i > ipos {
          assert r[i] == kept[i - 1];
        }
      }
    }
  }

  // ---------------------------------------------------------------------
  // moving one entry of the pointer array

  /** Identity on slots: slot i at position i, for i < n. */
  predicate Identity(s: seq<nat>, n: nat) {
    |s| == n && forall i :: 0 <= i < n ==> s[i] == i
  }

  /** s with the entry at hi moved down to lo and the entries lo..hi-1 moved up by one. */
  function Rotated(s: seq<nat>, lo: nat, hi: nat): (r: seq<nat>)
    requires lo <= hi < |s|
    ensures |r| == |s| && multiset(r) == multiset(s)
    ensures forall k :: 0 <= k < |s| ==> r[k] == (if k < lo || hi < k then s[k] else if k == lo then s[hi] else s[k - 1])
  {
    assert s == s[..lo] + s[lo..hi] + [s[hi]] + s[hi + 1..];
    s[..lo] + [s[hi]] + s[lo..hi] + s[hi + 1..]
  }

  /** The swap loop at the end of insert: walks the entry at hi down to lo. */
  method RotateDown(a: array<nat>, lo: nat, hi: nat)
    requires lo <= hi < a.Length
    modifies a
    ensures a[..] == Rotated(old(a[..]), lo, hi)
  {
    ghost var s := a[..];
    var it := hi;
    while it > lo
      invariant lo <= it && Rotating(s, a[..], lo, hi, it)
      decreases it
    {
      ghost var t := a[..];
      a[it], a[it - 1] := a[it - 1], a[it];
      assert a[..] == t[it - 1 := t[it]][it := t[it - 1]];
      RotatingStep(s, t, lo, hi, it);
      it := it - 1;
    }
    RotatingDone(s, a[..], lo, hi);
  }

  /** The swap loop with the moving entry at it: s[hi] sits at it, the
   *  entries it..hi-1 have moved up by one and the rest are as in s. */
  predicate Rotating(s: seq<nat>, t: seq<nat>, lo: nat, hi: nat, it: nat)
  {
    |t| == |s| && lo <= it <= hi < |s| &&
    forall k {:trigger t[k]} :: 0 <= k < |s| ==> t[k] == (if k < it || hi < k then s[k] else if k == it then s[hi] else s[k - 1])
  }

  /** One swap moves the entry down by one. */
  lemma RotatingStep(s: seq<nat>, t: seq<nat>, lo: nat, hi: nat, it: nat)
    requires Rotating(s, t, lo, hi, it) && lo < it
    ensures Rotating(s, t[it - 1 := t[it]][it := t[it - 1]], lo, hi, it - 1)
  {
    var u := t[it - 1 := t[it]][it := t[it - 1]];
    forall k | 0 <= k < |s|
      ensures u[k] == (if k < it - 1 || hi < k then s[k] else if k == it - 1 then s[hi] else s[k - 1])
    {
      assert t[k] == (if k < it || hi < k then s[k] else if k == it then s[hi] else s[k - 1]);
      if k == it - 1 {
        assert t[it] == s[hi];
      } else if k == it {
        assert t[it - 1] == s[it - 1];
      } else {
        assert u[k] == t[k];
      }
    }
  }

  /** At lo the walk is the rotation. */
  lemma RotatingDone(s: seq<nat>, t: seq<nat>, lo: nat, hi: nat)
    requires Rotating(s, t, lo, hi, lo)
    ensures t == Rotated(s, lo, hi)
  {
    var r := Rotated(s, lo, hi);
    forall k | 0 <= k < |t| ensures t[k] == r[k] {
      assert t[k] == (if k < lo || hi < k then s[k] else if k == lo then s[hi] else s[k - 1]);
    }
  }

  /** The loop of clear: slot i at position i. */
  method FillIdentity(a: array<nat>)
    modifies a
    ensures Identity(a[..], a.Length)
  {
    for i := 0 to a.Length
      invariant forall k :: 0 <= k < i ==> a[k] == k
    {
      a[i] := i;
    }
  }

  /** Rotating the slots rotates the cuts they point to. */
  lemma ViewRotated(pool: seq<CutValue>, s: seq<nat>, lo: nat, hi: nat, n: nat)
    requires lo <= hi < n <= |s|
    requires forall i :: 0 <= i < |s| ==> s[i] < |pool|
    ensures forall i :: 0 <= i < |s| ==> Rotated(s, lo, hi)[i] < |pool|
    ensures var v := View(pool, s[..n]);
            View(pool, Rotated(s, lo, hi)[..n]) == v[..lo] + [v[hi]] + v[lo..hi] + v[hi + 1..]
  {
    var r := Rotated(s, lo, hi);
    var v := View(pool, s[..n]);
    var w := v[..lo] + [v[hi]] + v[lo..hi] + v[hi + 1..];
    assert |w| == n;
    forall i | 0 <= i < n ensures View(pool, r[..n])[i] == w[i] {
      if i < lo {
      } else if i == lo {
      } else if i <= hi {
        assert w[i] == v[i - 1];
      } else {
        assert w[i] == v[i];
      }
    }
  }

  /** Storing v in the free slot at position e and rotating it down to ipos inserts v into the cuts. */
  lemma PlaceView(pool: seq<CutValue>, s: seq<nat>, e: nat, ipos: nat, v: CutValue)
    requires ipos <= e < |s|
    requires forall i :: 0 <= i < |s| ==> s[i] < |pool|
    requires s[e] !in s[..e]
    ensures var w := View(pool, s[..e]);
            View(pool[s[e] := v], Rotated(s, ipos, e)[..e + 1]) == w[..ipos] + [v] + w[ipos..]
  {
    var p := pool[s[e] := v];
    var w := View(pool, s[..e]);
    ViewUpdate(pool, s[..e], s[e], v);
    assert View(p, s[..e + 1]) == w + [v] by {
      assert s[..e + 1] == s[..e] + [s[e]];
      ViewAppend(p, s[..e], [s[e]]);
    }
    ViewRotated(p, s, ipos, e, e + 1);
    var u := View(p, s[..e + 1]);
    assert u[..ipos] == w[..ipos] && u[e] == v && u[ipos..e] == w[ipos..];
  }

  /** The shift loop of update_best: moves the entry at index to the front. */
  method MoveToFront(a: array<nat>, index: nat)
    requires index < a.Length
    modifies a
    ensures a[..] == Rotated(old(a[..]), 0, index)
  {
    ghost var s := a[..];
    var best := a[index];
    var i := index;
    while i > 0
      invariant i <= index
      invariant forall k :: 0 <= k <= i ==> a[k] == s[k]
      invariant forall k :: i < k <= index ==> a[k] == s[k - 1]
      invariant forall k :: index < k < a.Length ==> a[k] == s[k]
      decreases i
    {
      a[i] := a[i - 1];
      i := i - 1;
    }
    a[0] := best;
    var r := Rotated(s, 0, index);
    assert forall k :: 0 <= k < a.Length ==> a[k] == r[k];
  }

  /** s with the entry at lo moved up to hi and the entries lo+1..hi moved down by one. */
  function RotatedUp(s: seq<nat>, lo: nat, hi: nat): (r: seq<nat>)
    requires lo <= hi < |s|
    ensures |r| == |s| && multiset(r) == multiset(s)
    ensures forall k :: 0 <= k < |s| ==> r[k] == (if k < lo || hi < k then s[k] else if k == hi then s[lo] else s[k + 1])
  {
    RotatedUpCount(s, lo, hi);
    RotatedUpAt(s, lo, hi);
    s[..lo] + s[lo + 1..hi + 1] + [s[lo]] + s[hi + 1..]
  }

  lemma RotatedUpCount(s: seq<nat>, lo: nat, hi: nat)
    requires lo <= hi < |s|
    ensures multiset(s[..lo] + s[lo + 1..hi + 1] + [s[lo]] + s[hi + 1..]) == multiset(s)
  {
    var a, m, b := s[..lo], s[lo + 1..hi + 1], s[hi + 1..];
    assert s == a + [s[lo]] + m + b;
  }

  lemma RotatedUpAt(s: seq<nat>, lo: nat, hi: nat)
    requires lo <= hi < |s|
    ensures forall k :: 0 <= k < |s| ==> (s[..lo] + s[lo + 1..hi + 1] + [s[lo]] + s[hi + 1..])[k]
                                          == (if k < lo || hi < k then s[k] else if k == hi then s[lo] else s[k + 1])
  {
    var a, m, b := s[..lo], s[lo + 1..hi + 1], s[hi + 1..];
    var front := a + m + [s[lo]];
    var r := front + b;
    forall k | 0 <= k < |s|
      ensures r[k] == (if k < lo || hi < k then s[k] else if k == hi then s[lo] else s[k + 1])
    {
      if k <= hi {
        assert r[k] == front[k];
        if k < lo {
          assert front[k] == a[k];
        } else if k < hi {
          assert front[k] == m[k - lo];
        }
      } else {
        assert r[k] == b[k - hi - 1];
      }
    }
  }

  /** Moving the entry at index behind the first n - 1 entries removes its cut from the first n. */
  lemma ViewRemoved(pool: seq<CutValue>, s: seq<nat>, index: nat, n: nat)
    requires index < n <= |s|
    requires forall i :: 0 <= i < |s| ==> s[i] < |pool|
    ensures forall i {:trigger RotatedUp(s, index, n - 1)[i]} :: 0 <= i < |s| ==> RotatedUp(s, index, n - 1)[i] < |pool|
    ensures View(pool, RotatedUp(s, index, n - 1)[..n - 1]) == View(pool, s[..n])[..index] + View(pool, s[..n])[index + 1..]
  {
    var r := RotatedUp(s, index, n - 1);
    var v := View(pool, s[..n]);
    var w := v[..index] + v[index + 1..];
    forall i | 0 <= i < n - 1 ensures View(pool, r[..n - 1])[i] == w[i] {
      if i >= index {
        assert w[i] == v[i + 1];
      }
    }
  }

  /** The shift loop of remove, with the removed entry put back at position last. */
  method MoveToBack(a: array<nat>, index: nat, last: nat)
    requires index <= last < a.Length
    modifies a
    ensures a[..] == RotatedUp(old(a[..]), index, last)
  {
    ghost var s := a[..];
    var bad := a[index];
    var i := index;
    while i < last
      invariant index <= i <= last
      invariant forall k :: 0 <= k < index || i <= k < a.Length ==> a[k] == s[k]
      invariant forall k :: index <= k < i ==> a[k] == s[k + 1]
      decreases last - i
    {
      a[i] := a[i + 1];
      i := i + 1;
    }
    a[last] := bad;
    var r := RotatedUp(s, index, last);
    assert forall k :: 0 <= k < a.Length ==> a[k] == r[k];
  }

  // ---------------------------------------------------------------------
  // the cut set

  /** A cut with no leaves, no signature and function id 0, as a new slot holds. */
  const EmptyCut := CutValue([], 0, 0)

  class CutSet {
    /** MaxCuts: the number of slots. */
    const maxCuts: nat
    /** The cuts held in the slots (_cuts). */
    var pool: seq<CutValue>
    /** The pointer array (_pcuts): which slot holds the cut at each position. */
    const slots: array<nat>
    /** The end of the set (_pend and _pcend, which always move together). */
    var pend: nat

    predicate Valid()
      reads this, slots
    {
      slots.Length == maxCuts && |pool| == maxCuts && pend <= maxCuts && SlotsOk(slots[..], maxCuts)
    }

    /** The cuts of the set, in order. */
    function Cuts(): (cs: seq<CutValue>)
      reads this, slots
      requires Valid()
      ensures |cs| == pend
    {
      View(pool, slots[..pend])
    }

    /** A set of maxCuts empty slots, holding no cut. */
    constructor(maxCuts: nat)
      ensures Valid() && fresh(slots) && this.maxCuts == maxCuts
      ensures Cuts() == [] && pool == seq(maxCuts, _ => EmptyCut)
    {
      this.maxCuts := maxCuts;
      pool := seq(maxCuts, _ => EmptyCut);
      slots := new nat[maxCuts];
      pend := 0;
      new;
      Clear();
    }

    /** clear: every slot back at its own position, and the set empty. */
    method Clear()
      requires slots.Length == maxCuts && |pool| == maxCuts
      modifies this, slots
      ensures Valid() && Cuts() == [] && Identity(slots[..], maxCuts) && pool == old(pool)
    {
      FillIdentity(slots);
      pend := 0;
    }

    /**
     * add_cut: the next free slot gets the leaves and their signature and
     * becomes the last cut; its function id is whatever the slot held.
     * The position of the new cut is returned.
     */
    method AddCut(leaves: seq<nat>) returns (pos: nat)
      requires Valid() && pend < maxCuts
      modifies this
      ensures Valid() && pos == old(pend)
      ensures Cuts() == old(Cuts()) + [CutValue(leaves, Sig(leaves), old(pool[slots[pend]].funcId))]
    {
      var s := slots[pend];
      assert s !in slots[..pend] by {
        forall k | 0 <= k < pend ensures slots[k] != s {
        }
      }
      ViewUpdate(pool, slots[..pend], s, CutValue(leaves, Sig(leaves), pool[s].funcId));
      pool := pool[s := CutValue(leaves, Sig(leaves), pool[s].funcId)];
      assert slots[..pend + 1] == slots[..pend] + [s];
      pos := pend;
      pend := pend + 1;
    }

    /** Setting the function id of the cut at position pos, through the reference add_cut returns. */
    method SetFuncId(pos: nat, funcId: nat)
      requires Valid() && pos < pend
      modifies this
      ensures Valid() && Cuts() == old(Cuts())[pos := old(Cuts()[pos]).(funcId := funcId)]
    {
      var s := slots[pos];
      pool := pool[s := pool[s].(funcId := funcId)];
      forall k | 0 <= k < pend && k != pos ensures slots[k] != s {
      }
    }

    /** is_dominated: some cut of the set dominates c. */
    method IsDominated(c: CutValue) returns (r: bool)
      requires Valid()
      ensures r <==> exists i :: 0 <= i < pend && CutDominates(Cuts()[i], c)
    {
      var i := 0;
      while i < pend
        invariant i <= pend
        invariant forall j :: 0 <= j < i ==> !CutDominates(Cuts()[j], c)
      {
        if CutDominates(pool[slots[i]], c) {
          assert Cuts()[i] == pool[slots[i]];
          return true;
        }
        i := i + 1;
      }
      return false;
    }

    /** update_best: the cut at position index moves to the front, the others keep their order. */
    method UpdateBest(index: nat)
      requires Valid() && index < pend
      modifies slots
      ensures Valid()
      ensures Cuts() == [old(Cuts()[index])] + old(Cuts())[..index] + old(Cuts())[index + 1..]
    {
      ghost var s := slots[..];
      ghost var v := Cuts();
      MoveToFront(slots, index);
      PermutedSlotsOk(s, slots[..], maxCuts);
      ViewRotated(pool, s, 0, index, pend);
      assert slots[..] == Rotated(s, 0, index);
      assert v[..0] + [v[index]] + v[0..index] == [v[index]] + v[..index];
    }

    /** remove: the cut at position index leaves the set, the later ones move up by one. */
    method Remove(index: nat)
      requires Valid() && index < pend
      modifies this, slots
      ensures Valid() && pool == old(pool)
      ensures Cuts() == old(Cuts())[..index] + old(Cuts())[index + 1..]
    {
      ghost var s := slots[..];
      MoveToBack(slots, index, pend - 1);
      PermutedSlotsOk(s, slots[..], maxCuts);
      ViewRemoved(pool, s, index, pend);
      pend := pend - 1;
    }

    /**
     * The first step of insert, stable_partition: the cuts c dominates
     * leave the set, the others keep their order; the slots of the leaving
     * cuts follow the kept ones.
     */
    method Partition(c: CutValue)
      requires Valid()
      modifies this, slots
      ensures Valid() && pool == old(pool)
      ensures Cuts() == Kept(old(Cuts()), c)
    {
      var s := slots[..pend];
      var kept := KeptSlots(pool, s, c);
      var ps := kept + DroppedSlots(pool, s, c);
      PartitionSlots(pool, s, c);
      KeptSlotsView(pool, s, c);
      ghost var all := slots[..];
      assert all == s + all[pend..];
      assert |ps| == pend by {
        assert |ps| == |multiset(ps)|;
      }
      forall i | 0 <= i < pend {
        slots[i] := ps[i];
      }
      assert slots[..] == ps + all[pend..];
      PermutedSlotsOk(all, slots[..], maxCuts);
      pend := |kept|;
      assert slots[..pend] == kept;
    }

    /** Storing v in the free slot s[e] and rotating it down to ipos inserts v at ipos in the view of the first e slots. */
  lemma PlaceSlots(pool: seq<CutValue>, s: seq<nat>, t: seq<nat>, e: nat, ipos: nat, v: CutValue, n: nat)
    requires SlotsOk(s, n) && |pool| == n && ipos <= e < |s|
    requires s[e] !in s[..e] && t == Rotated(s, ipos, e)
    ensures SlotsOk(t, n)
    ensures View(pool[s[e] := v], t[..e + 1]) == View(pool, s[..e])[..ipos] + [v] + View(pool, s[..e])[ipos..]
  {
    PlaceView(pool, s, e, ipos, v);
    PermutedSlotsOk(s, t, n);
  }

  /** The last step of insert: c is stored in the first free slot, which moves to position ipos. */
    method Place(c: CutValue, ipos: nat)
      requires Valid() && ipos <= pend < maxCuts
      modifies this, slots
      ensures Valid()
      ensures Cuts() == old(Cuts())[..ipos] + [Stored(c)] + old(Cuts())[ipos..]
    {
      var e := pend;
      var x := slots[e];
      assert x !in slots[..e] by {
        forall k | 0 <= k < e ensures slots[k] != x {
        }
      }
      ghost var s := slots[..];
      ghost var p := pool;
      assert s[..e] == slots[..pend];
      pool := pool[x := Stored(c)];
      RotateDown(slots, ipos, e);
      PlaceSlots(p, s, slots[..], e, ipos, Stored(c), maxCuts);
      pend := e + 1;
    }

    /**
     * insert: the cuts c dominates are removed, and c is stored at its
     * lower_bound position; a full set gives up its last cut for it, unless
     * c would come last.
     */
    method Insert(c: CutValue)
      requires Valid() && |c.leaves| > 0
      modifies this, slots
      ensures Valid()
      ensures Cuts() == InsertResult(old(Cuts()), c, maxCuts)
    {
      Partition(c);
      ghost var kept := Cuts();
      var ipos := LowerBound(Cuts(), c, 0, pend);
      if pend == maxCuts {
        if ipos == pend {
          assert InsertResult(old(Cuts()), c, maxCuts) == kept;
          return;
        }
        pend := pend - 1;
        assert Cuts() == kept[..|kept| - 1];
      }
      ghost var room := Cuts();
      assert InsertResult(old(Cuts()), c, maxCuts) == room[..ipos] + [Stored(c)] + room[ipos..];
      Place(c, ipos);
    }

    /** limit: a set of more than size cuts keeps its first size - 1; a smaller one is unchanged. */
    method Limit(size: nat)
      requires Valid() && (0 < size || pend == 0)
      modifies this
      ensures Valid() && pool == old(pool)
      ensures Cuts() == if old(pend) > size then old(Cuts())[..size - 1] else old(Cuts())
    {
      if pend > size {
        pend := size - 1;
      }
    }

    /** resize: the set is cut back to its first size positions (or extended over the slots after it). */
    method Resize(size: nat)
      requires Valid() && size <= maxCuts && size < 256
      modifies this
      ensures Valid() && pool == old(pool) && pend == size
      ensures size <= old(pend) ==> Cuts() == old(Cuts())[..size]
    {
      pend := size;
    }
  }

  /** The pointer array after remove as written: the removed slot is not put back at the end. */
  function RemoveAsWritten(s: seq<nat>, index: nat, last: nat): (r: seq<nat>)
    requires index <= last < |s|
    ensures |r| == |s|
  {
    s[..index] + s[index + 1..last + 1] + [s[last]] + s[last + 1..]
  }

  /**
   * Removing position 1 of a full set of four cuts leaves slot 3 at two
   * positions and slot 1 at none; the next add_cut then writes over the
   * cut that is now third.
   */
  lemma RemoveAsWrittenLosesSlot(pool: seq<CutValue>, n: CutValue)
    requires |pool| == 4
    ensures RemoveAsWritten([0, 1, 2, 3], 1, 3) == [0, 2, 3, 3]
    ensures !SlotsOk(RemoveAsWritten([0, 1, 2, 3], 1, 3), 4)
    ensures View(pool[3 := n], [0, 2, 3]) == [pool[0], pool[2], n]
  {
    var r := RemoveAsWritten([0, 1, 2, 3], 1, 3);
    assert r == [0, 2, 3, 3];
    assert r[2] == r[3];
  }
}
