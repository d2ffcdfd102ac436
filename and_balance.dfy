/**
 * AND balancing: every multi-input AND (a supergate, collected through
 * uncomplemented single-fanout AND nodes) is rebuilt in a new network as
 * a tree that pairs the two shallowest inputs first. Inputs are signals
 * ordered by their word (2 * index + complement).
 *
 * The XOR branches of the source are not modelled: the and-inverter graph
 * reports no node as an XOR, so they are never taken.
 */
module AndBalance {
  import opened Wrappers
  import opened AigGraph
  import opened AigNetwork
  import DepthView

  // ---------------------------------------------------------------------
  // Signals against the graph.

  /** The fanin edge a signal denotes. */
  function EdgeOf(s: Signal): (e: Edge)
    ensures e.node == SigIndex(s) && (e.compl <==> SigComplement(s) == 1)
  {
    Edge(SigIndex(s), SigComplement(s) == 1)
  }

  /** The signal of a fanin edge. */
  function SigOf(e: Edge): (s: Signal)
    ensures EdgeOf(s) == e && SigIndex(s) == e.node
  {
    Signal(2 * e.node + (if e.compl then 1 else 0))
  }

  /** All signals point into a network of n nodes. */
  predicate InNet(n: nat, sup: seq<Signal>) {
    forall x :: x in sup ==> SigIndex(x) < n
  }

  /** The value of a signal under the primary-input values pv. */
  function EvalSig(kinds: seq<Kind>, pv: nat -> bool, s: Signal): bool
    requires Topological(kinds) && SigIndex(s) < |kinds|
  {
    Eval(kinds, pv, SigIndex(s)) != (SigComplement(s) == 1)
  }

  /** The AND of a list of signals. */
  predicate AllSig(kinds: seq<Kind>, pv: nat -> bool, sup: seq<Signal>)
    requires Topological(kinds) && InNet(|kinds|, sup)
  {
    forall x :: x in sup ==> EvalSig(kinds, pv, x)
  }

  lemma EvalSigNot(kinds: seq<Kind>, pv: nat -> bool, s: Signal)
    requires Topological(kinds) && SigIndex(s) < |kinds|
    ensures SigIndex(Not(s)) == SigIndex(s)
    ensures EvalSig(kinds, pv, Not(s)) == !EvalSig(kinds, pv, s)
  {
  }

  /** A network only extended at the end evaluates its old signals as before. */
  lemma EvalSigExtend(kinds: seq<Kind>, kinds': seq<Kind>, pv: nat -> bool, s: Signal)
    requires Topological(kinds) && Topological(kinds')
    requires |kinds| <= |kinds'| && kinds'[..|kinds|] == kinds && SigIndex(s) < |kinds|
    ensures EvalSig(kinds', pv, s) == EvalSig(kinds, pv, s)
  {
    assert kinds' == kinds + kinds'[|kinds|..];
    EvalAppend(kinds, kinds'[|kinds|..], pv, SigIndex(s));
  }

  lemma AllSigExtend(kinds: seq<Kind>, kinds': seq<Kind>, pv: nat -> bool, sup: seq<Signal>)
    requires Topological(kinds) && Topological(kinds')
    requires |kinds| <= |kinds'| && kinds'[..|kinds|] == kinds && InNet(|kinds|, sup)
    ensures AllSig(kinds', pv, sup) == AllSig(kinds, pv, sup)
  {
    forall x | x in sup
      ensures EvalSig(kinds', pv, x) == EvalSig(kinds, pv, x)
    {
      EvalSigExtend(kinds, kinds', pv, x);
    }
  }

  // ---------------------------------------------------------------------
  // balance_unify, AND case: sort the signals, drop repeats, and give up
  // (empty list) when a signal meets its complement.

  predicate Sorted(s: seq<Signal>) {
    forall i, j :: 0 <= i < j < |s| ==> s[i].data <= s[j].data
  }

  predicate Increasing(s: seq<Signal>) {
    forall i, j :: 0 <= i < j < |s| ==> s[i].data < s[j].data
  }

  function InsertSig(s: seq<Signal>, x: Signal): (r: seq<Signal>)
    ensures multiset(r) == multiset(s) + multiset{x}
  {
    if s == [] || x.data <= s[0].data then [x] + s
    else
      assert s == [s[0]] + s[1..];
      [s[0]] + InsertSig(s[1..], x)
  }

  lemma {:induction false} InsertSorted(s: seq<Signal>, x: Signal)
    requires Sorted(s)
    ensures Sorted(InsertSig(s, x))
  {
    if s != [] && x.data > s[0].data {
      var t := InsertSig(s[1..], x);
      InsertSorted(s[1..], x);
      forall j | 0 <= j < |t|
        ensures s[0].data <= t[j].data
      {
        assert t[j] in multiset(t);
        if t[j] != x {
          assert t[j] in multiset(s[1..]);
          assert t[j] in s[1..];
        }
      }
    }
  }

  /** std::sort on signals: the sorted permutation. */
  function SortSignals(s: seq<Signal>): (r: seq<Signal>)
    ensures Sorted(r) && multiset(r) == multiset(s)
  {
    if s == [] then []
    else
      assert s == s[..|s| - 1] + [s[|s| - 1]];
      InsertSorted(SortSignals(s[..|s| - 1]), s[|s| - 1]);
      InsertSig(SortSignals(s[..|s| - 1]), s[|s| - 1])
  }

  /** A sorted list holds a signal right before its complement. */
  predicate Clash(s: seq<Signal>) {
    exists i :: 0 <= i < |s| - 1 && s[i] == Not(s[i + 1])
  }

  /** Some signal of the list has its complement in the list too. */
  predicate HasComplementPair(s: seq<Signal>) {
    exists x :: x in s && Not(x) in s
  }

  /** Each run of equal signals reduced to one element. */
  function Dedup(s: seq<Signal>): seq<Signal> {
    if |s| <= 1 then s
    else if s[0] == s[1] then Dedup(s[1..])
    else [s[0]] + Dedup(s[1..])
  }

  /** The supergate after balance_unify. */
  function Unified(nodes: seq<Signal>): seq<Signal> {
    var s := SortSignals(nodes);
    if Clash(s) then [] else Dedup(s)
  }

  lemma {:induction false} DedupProps(s: seq<Signal>)
    requires Sorted(s)
    ensures Increasing(Dedup(s))
    ensures forall x :: x in Dedup(s) <==> x in s
    ensures |s| > 0 ==> |Dedup(s)| > 0 && Dedup(s)[0].data >= s[0].data
  {
    if |s| > 1 {
      DedupProps(s[1..]);
      assert forall x :: x in s <==> x == s[0] || x in s[1..];
    }
  }

  /** In a sorted list a signal and its complement are neighbours, so checking neighbours finds every pair. */
  lemma ClashIffPair(s: seq<Signal>)
    requires Sorted(s)
    ensures Clash(s) <==> HasComplementPair(s)
  {
    if Clash(s) {
      var i :| 0 <= i < |s| - 1 && s[i] == Not(s[i + 1]);
      assert s[i + 1] in s && Not(s[i + 1]) in s;
    }
    if HasComplementPair(s) {
      var x :| x in s && Not(x) in s;
      var i :| 0 <= i < |s| && s[i] == x;
      var j :| 0 <= j < |s| && s[j] == Not(x);
      if x.data % 2 == 0 {
        NeighbourPair(s, i, j);
      } else {
        NeighbourPair(s, j, i);
      }
    }
  }

  /** A signal at lo and its complement at hi > lo: the last copy of s[lo] sits right before a copy of s[hi]. */
  lemma NeighbourPair(s: seq<Signal>, lo: nat, hi: nat)
    requires Sorted(s) && lo < |s| && hi < |s| && s[hi] == Not(s[lo]) && s[lo].data % 2 == 0
    ensures Clash(s)
  {
    assert s[hi].data == s[lo].data + 1 && lo < hi;
    var k := lo;
    while k + 1 < hi && s[k + 1] == s[lo]
      invariant lo <= k < hi && s[k] == s[lo]
      decreases hi - k
    {
      k := k + 1;
    }
    assert s[k] == Not(s[k + 1]);
  }

  lemma SortedSameElements(nodes: seq<Signal>)
    ensures forall x :: x in SortSignals(nodes) <==> x in nodes
  {
    var s := SortSignals(nodes);
    forall x
      ensures x in s <==> x in nodes
    {
      assert x in s <==> x in multiset(s);
      assert x in nodes <==> x in multiset(nodes);
    }
  }

  /**
   * balance_unify (AND): the result is strictly increasing; it is empty
   * exactly when the input is empty or holds a signal with its complement;
   * otherwise it holds exactly the input signals.
   */
  lemma UnifiedProps(nodes: seq<Signal>)
    ensures Increasing(Unified(nodes))
    ensures Unified(nodes) == [] <==> nodes == [] || HasComplementPair(nodes)
    ensures !HasComplementPair(nodes) ==> forall x :: x in Unified(nodes) <==> x in nodes
  {
    var s := SortSignals(nodes);
    DedupProps(s);
    ClashIffPair(s);
    SortedSameElements(nodes);
    assert HasComplementPair(s) <==> HasComplementPair(nodes);
    assert nodes == [] <==> s == [] by {
      if nodes != [] {
        assert nodes[0] in s;
      }
    }
  }

  /** The AND of the unified list: constant 0 when a complement pair was found, the AND of the input otherwise. */
  lemma UnifiedValue(kinds: seq<Kind>, pv: nat -> bool, nodes: seq<Signal>)
    requires Topological(kinds) && InNet(|kinds|, nodes)
    ensures InNet(|kinds|, Unified(nodes))
    ensures Unified(nodes) == [] && nodes != [] ==> !AllSig(kinds, pv, nodes)
    ensures Unified(nodes) != [] ==> AllSig(kinds, pv, Unified(nodes)) == AllSig(kinds, pv, nodes)
  {
    UnifiedProps(nodes);
    if HasComplementPair(nodes) {
      var x :| x in nodes && Not(x) in nodes;
      EvalSigNot(kinds, pv, x);
    }
  }

  /** One step of Dedup at position i of a list. */
  lemma DedupAt(s: seq<Signal>, i: nat)
    requires i < |s|
    ensures i + 1 == |s| ==> Dedup(s[i..]) == [s[i]]
    ensures i + 1 < |s| ==> Dedup(s[i..]) == if s[i] == s[i + 1] then Dedup(s[i + 1..]) else [s[i]] + Dedup(s[i + 1..])
  {
    if i + 1 < |s| {
      assert s[i..][1..] == s[i + 1..];
    }
  }

  /** balance_unify on the collected supergate: the compacting loop over the sorted list. */
  method BalanceUnify(nodes: seq<Signal>) returns (r: seq<Signal>)
    ensures r == Unified(nodes)
  {
    r := Compact(SortSignals(nodes));
  }

  /** The duplicate-removing pass of balance_unify over an already sorted list. */
  method Compact(sorted: seq<Signal>) returns (r: seq<Signal>)
    ensures r == if Clash(sorted) then [] else Dedup(sorted)
  {
    var a := sorted;
    var k := 0;
    var i := 0;
    while i < |a|
      invariant 0 <= k <= i <= |a| == |sorted|
      invariant forall j :: i <= j < |a| ==> a[j] == sorted[j]
      invariant a[..k] + Dedup(sorted[i..]) == Dedup(sorted)
      invariant forall j :: 0 <= j < i && j + 1 < |sorted| ==> sorted[j] != Not(sorted[j + 1])
    {
      if i + 1 == |a| {
        KeepStep(sorted, a, k, i);
        a := a[k := a[i]];
        k := k + 1;
        i := i + 1;
        break;
      }
      if a[i] == Not(a[i + 1]) {
        assert sorted[i] == Not(sorted[i + 1]);
        return [];
      }
      if a[i] != a[i + 1] {
        KeepStep(sorted, a, k, i);
        a := a[k := a[i]];
        k := k + 1;
      } else {
        DedupAt(sorted, i);
      }
      i := i + 1;
    }
    assert !Clash(sorted);
    r := a[..k];
    assert r + Dedup(sorted[|sorted|..]) == r;
  }

  /** Keeping a[i], the last of its run, at position k of the compacted prefix. */
  lemma KeepStep(sorted: seq<Signal>, a: seq<Signal>, k: nat, i: nat)
    requires k <= i < |a| == |sorted| && a[i] == sorted[i]
    requires i + 1 == |a| || sorted[i] != sorted[i + 1]
    requires a[..k] + Dedup(sorted[i..]) == Dedup(sorted)
    ensures a[k := a[i]][..k + 1] + Dedup(sorted[i + 1..]) == Dedup(sorted)
  {
    DedupAt(sorted, i);
    assert a[k := a[i]][..k + 1] == a[..k] + [a[i]];
  }

  // ---------------------------------------------------------------------
  // get_balance_cone_rec: the inputs of the supergate rooted at node root.

  /** The old network: node 0 is the only constant, and gates never take it as a fanin (create_and folds it away). */
  predicate GraphOk(kinds: seq<Kind>, fanouts: seq<nat>) {
    && Topological(kinds) && |fanouts| == |kinds|
    && |kinds| > 0 && kinds[0].Const?
    && (forall n :: 0 < n < |kinds| ==> !kinds[n].Const?)
    && (forall n :: 0 <= n < |kinds| && kinds[n].And? ==> kinds[n].f0.node != 0 && kinds[n].f1.node != 0)
  }

  /**
   * The search stops at s (s becomes an input of the supergate) when s is
   * not the root and is complemented, a primary input, has more than one
   * fanout, or more than 10000 inputs were already collected.
   */
  predicate Stops(kinds: seq<Kind>, fanouts: seq<nat>, root: nat, s: Signal, collected: nat)
    requires |fanouts| == |kinds| && SigIndex(s) < |kinds|
  {
    s != NodeSignal(root)
    && (SigComplement(s) == 1 || kinds[SigIndex(s)].Pi? || fanouts[SigIndex(s)] > 1 || collected > 10000)
  }

  /** The root itself or a signal on a node below it. */
  predicate Below(root: nat, s: Signal) {
    s == NodeSignal(root) || SigIndex(s) < root
  }

  /**
   * The inputs get_balance_cone_rec appends to a list already holding sz
   * signals: at least one, each on a non-constant node strictly below the
   * root and not above s.
   */
  function ConeLeaves(kinds: seq<Kind>, fanouts: seq<nat>, root: nat, s: Signal, sz: nat): (r: seq<Signal>)
    requires GraphOk(kinds, fanouts) && root < |kinds| && kinds[root].And?
    requires SigIndex(s) < |kinds| && SigIndex(s) != 0 && Below(root, s)
    ensures |r| > 0 && forall x :: x in r ==> 0 < SigIndex(x) <= SigIndex(s) && SigIndex(x) < root
    decreases SigIndex(s)
  {
    if Stops(kinds, fanouts, root, s, sz) then [s]
    else
      var n := SigIndex(s);
      var l0 := ConeLeaves(kinds, fanouts, root, SigOf(kinds[n].f0), sz);
      l0 + ConeLeaves(kinds, fanouts, root, SigOf(kinds[n].f1), sz + |l0|)
  }

  /** The j-th signal of l was collected when base + j signals were already collected, and stopped the search. */
  predicate StopsAt(kinds: seq<Kind>, fanouts: seq<nat>, root: nat, l: seq<Signal>, j: nat, base: nat)
    requires |fanouts| == |kinds| && j < |l|
  {
    SigIndex(l[j]) < |kinds| && Stops(kinds, fanouts, root, l[j], base + j)
  }

  /** Each collected input satisfied the stop condition at the count it was collected at. */
  lemma {:induction false} ConeLeavesStop(kinds: seq<Kind>, fanouts: seq<nat>, root: nat, s: Signal, sz: nat)
    requires GraphOk(kinds, fanouts) && root < |kinds| && kinds[root].And?
    requires SigIndex(s) < |kinds| && SigIndex(s) != 0 && Below(root, s)
    ensures forall j :: 0 <= j < |ConeLeaves(kinds, fanouts, root, s, sz)| ==>
      StopsAt(kinds, fanouts, root, ConeLeaves(kinds, fanouts, root, s, sz), j, sz)
    decreases SigIndex(s)
  {
    if !Stops(kinds, fanouts, root, s, sz) {
      var n := SigIndex(s);
      var l0 := ConeLeaves(kinds, fanouts, root, SigOf(kinds[n].f0), sz);
      var l1 := ConeLeaves(kinds, fanouts, root, SigOf(kinds[n].f1), sz + |l0|);
      ConeLeavesStop(kinds, fanouts, root, SigOf(kinds[n].f0), sz);
      ConeLeavesStop(kinds, fanouts, root, SigOf(kinds[n].f1), sz + |l0|);
      StopsAtConcat(kinds, fanouts, root, l0, l1, ConeLeaves(kinds, fanouts, root, s, sz), sz, sz + |l0|);
    }
  }

  /** Inputs collected from sz on, followed by inputs collected from sz + |l0| on. */
  lemma StopsAtConcat(kinds: seq<Kind>, fanouts: seq<nat>, root: nat, l0: seq<Signal>, l1: seq<Signal>, l: seq<Signal>, sz: nat, sz1: nat)
    requires |fanouts| == |kinds| && l == l0 + l1 && sz1 == sz + |l0|
    requires forall j :: 0 <= j < |l0| ==> StopsAt(kinds, fanouts, root, l0, j, sz)
    requires forall j :: 0 <= j < |l1| ==> StopsAt(kinds, fanouts, root, l1, j, sz1)
    ensures forall j :: 0 <= j < |l| ==> StopsAt(kinds, fanouts, root, l, j, sz)
  {
    forall j | 0 <= j < |l|
      ensures StopsAt(kinds, fanouts, root, l, j, sz)
    {
      if j < |l0| {
        assert StopsAt(kinds, fanouts, root, l0, j, sz);
        assert l[j] == l0[j];
      } else {
        assert StopsAt(kinds, fanouts, root, l1, j - |l0|, sz1);
        assert l[j] == l1[j - |l0|];
      }
    }
  }

  /** The supergate is equivalent to its root: the value of s is the AND of the collected inputs. */
  lemma {:induction false} ConeLeavesValue(kinds: seq<Kind>, fanouts: seq<nat>, pv: nat -> bool, root: nat, s: Signal, sz: nat)
    requires GraphOk(kinds, fanouts) && root < |kinds| && kinds[root].And?
    requires SigIndex(s) < |kinds| && SigIndex(s) != 0 && Below(root, s)
    ensures AllSig(kinds, pv, ConeLeaves(kinds, fanouts, root, s, sz)) == EvalSig(kinds, pv, s)
    decreases SigIndex(s)
  {
    var l := ConeLeaves(kinds, fanouts, root, s, sz);
    if !Stops(kinds, fanouts, root, s, sz) {
      var n := SigIndex(s);
      assert SigComplement(s) == 0 by {
        if s == NodeSignal(root) {
        }
      }
      var e0, e1 := kinds[n].f0, kinds[n].f1;
      var l0 := ConeLeaves(kinds, fanouts, root, SigOf(e0), sz);
      var l1 := ConeLeaves(kinds, fanouts, root, SigOf(e1), sz + |l0|);
      ConeLeavesValue(kinds, fanouts, pv, root, SigOf(e0), sz);
      ConeLeavesValue(kinds, fanouts, pv, root, SigOf(e1), sz + |l0|);
      assert l == l0 + l1;
      assert forall x :: x in l <==> x in l0 || x in l1;
      assert kinds[n] == And(e0, e1);
      assert EdgeOf(SigOf(e0)) == e0 && EdgeOf(SigOf(e1)) == e1;
      assert Eval(kinds, pv, n) == (EvalEdge(kinds, pv, e0, n) && EvalEdge(kinds, pv, e1, n));
      assert EvalSig(kinds, pv, s) == (EvalSig(kinds, pv, SigOf(e0)) && EvalSig(kinds, pv, SigOf(e1)));
    } else {
      assert l == [s];
    }
  }

  /** get_balance_cone: the supergate inputs of gate n after balance_unify. */
  function Supergate(kinds: seq<Kind>, fanouts: seq<nat>, n: nat): (r: seq<Signal>)
    requires GraphOk(kinds, fanouts) && n < |kinds| && kinds[n].And?
    ensures forall x :: x in r ==> 0 < SigIndex(x) < n
  {
    var cone := ConeLeaves(kinds, fanouts, n, NodeSignal(n), 0);
    UnifiedProps(cone);
    Unified(cone)
  }

  /** The supergate computes its gate: the AND of its inputs when it is not empty, and the gate is constant 0 when it is. */
  lemma SupergateValue(kinds: seq<Kind>, fanouts: seq<nat>, pv: nat -> bool, n: nat)
    requires GraphOk(kinds, fanouts) && n < |kinds| && kinds[n].And?
    ensures var sg := Supergate(kinds, fanouts, n);
      (sg == [] ==> !Eval(kinds, pv, n)) && (sg != [] ==> AllSig(kinds, pv, sg) == Eval(kinds, pv, n))
  {
    var cone := ConeLeaves(kinds, fanouts, n, NodeSignal(n), 0);
    ConeLeavesValue(kinds, fanouts, pv, n, NodeSignal(n), 0);
    UnifiedValue(kinds, pv, cone);
  }

  // ---------------------------------------------------------------------
  // The new network and the ordering by level.

  /** The level on_add gives node n: 0 for the constant and inputs, one more than the deeper fanin for a gate. */
  function GateLevel(ks: seq<Kind>, lv: seq<nat>, n: nat): nat
    requires Topological(ks) && |lv| == |ks| && n < |ks|
  {
    match ks[n]
    case And(f0, f1) => DepthView.Max(lv[f0.node], lv[f1.node]) + 1
    case _ => 0
  }

  /** A well-formed new network: node 0 is the constant and every stored level is the one on_add computes. */
  predicate NetOk(ks: seq<Kind>, lv: seq<nat>) {
    && Topological(ks) && |lv| == |ks| && |ks| > 0 && ks[0].Const?
    && forall n :: 0 <= n < |ks| ==> lv[n] == GateLevel(ks, lv, n)
  }

  /** a is a prefix of b. */
  predicate Extends<T(==)>(a: seq<T>, b: seq<T>) {
    |a| <= |b| && b[..|a|] == a
  }

  lemma ExtendsTrans<T>(a: seq<T>, b: seq<T>, c: seq<T>)
    requires Extends(a, b) && Extends(b, c)
    ensures Extends(a, c)
  {
    assert c[..|a|] == c[..|b|][..|a|];
  }

  /** The node structurally hashed to g among the first k nodes (the latest one when several match). */
  function FindGate(ks: seq<Kind>, g: Kind, k: nat): (r: Option<nat>)
    requires k <= |ks|
    ensures r.Some? ==> r.value < k && ks[r.value] == g
    ensures r.None? ==> forall n :: 0 <= n < k ==> ks[n] != g
  {
    if k == 0 then None
    else if ks[k - 1] == g then Some(k - 1)
    else FindGate(ks, g, k - 1)
  }

  /** The gate create_and hashes for a and b: the children ordered by index. */
  function AndOf(a: Signal, b: Signal): Kind {
    var (lo, hi) := Ordered(a, b);
    And(EdgeOf(lo), EdgeOf(hi))
  }

  function Lv(lv: seq<nat>, s: Signal): nat
    requires SigIndex(s) < |lv|
  {
    lv[SigIndex(s)]
  }

  /** Levels do not increase along the list. */
  predicate NonIncreasing(lv: seq<nat>, s: seq<Signal>)
    requires InNet(|lv|, s)
  {
    forall i, j :: 0 <= i < j < |s| ==> Lv(lv, s[j]) <= Lv(lv, s[i])
  }

  /** The comparator of build_super's sort: a higher level first, then the larger index first. */
  predicate Before(lv: seq<nat>, a: Signal, b: Signal)
    requires SigIndex(a) < |lv| && SigIndex(b) < |lv|
  {
    Lv(lv, a) > Lv(lv, b) || (Lv(lv, a) == Lv(lv, b) && SigIndex(a) > SigIndex(b))
  }

  /** No later element of s should come before an earlier one. */
  predicate SortedByLevel(lv: seq<nat>, s: seq<Signal>)
    requires InNet(|lv|, s)
  {
    forall i, j :: 0 <= i < j < |s| ==> !Before(lv, s[j], s[i])
  }

  function InsertByLevel(lv: seq<nat>, s: seq<Signal>, x: Signal): (r: seq<Signal>)
    requires InNet(|lv|, s) && SigIndex(x) < |lv|
    ensures multiset(r) == multiset(s) + multiset{x} && InNet(|lv|, r)
  {
    if s == [] || !Before(lv, s[0], x) then [x] + s
    else
      assert s == [s[0]] + s[1..];
      [s[0]] + InsertByLevel(lv, s[1..], x)
  }

  lemma {:induction false} InsertByLevelSorted(lv: seq<nat>, s: seq<Signal>, x: Signal)
    requires InNet(|lv|, s) && SigIndex(x) < |lv| && SortedByLevel(lv, s)
    ensures SortedByLevel(lv, InsertByLevel(lv, s, x))
  {
    if s != [] && Before(lv, s[0], x) {
      var t := InsertByLevel(lv, s[1..], x);
      InsertByLevelSorted(lv, s[1..], x);
      forall j | 0 <= j < |t|
        ensures !Before(lv, t[j], s[0])
      {
        assert t[j] in multiset(t);
        if t[j] != x {
          assert t[j] in multiset(s[1..]);
          assert t[j] in s[1..];
        }
      }
    }
  }

  /** build_super's std::sort: a permutation ordered by the comparator (ties on level and index keep their input order). */
  function SortByLevel(lv: seq<nat>, s: seq<Signal>): (r: seq<Signal>)
    requires InNet(|lv|, s)
    ensures InNet(|lv|, r) && SortedByLevel(lv, r) && multiset(r) == multiset(s)
  {
    if s == [] then []
    else
      assert s == s[..|s| - 1] + [s[|s| - 1]];
      assert InNet(|lv|, s[..|s| - 1]);
      InsertByLevelSorted(lv, SortByLevel(lv, s[..|s| - 1]), s[|s| - 1]);
      InsertByLevel(lv, SortByLevel(lv, s[..|s| - 1]), s[|s| - 1])
  }

  /** Sorted by the comparator means sorted by non-increasing level. */
  lemma SortedByLevelNonIncreasing(lv: seq<nat>, s: seq<Signal>)
    requires InNet(|lv|, s) && SortedByLevel(lv, s)
    ensures NonIncreasing(lv, s)
  {
  }

  function Swap(s: seq<Signal>, i: nat, j: nat): (r: seq<Signal>)
    requires i < |s| && j < |s|
    ensures |r| == |s| && multiset(r) == multiset(s)
  {
    s[i := s[j]][j := s[i]]
  }

  /** Swapping two elements of a run of equal levels keeps the levels non-increasing. */
  lemma SwapInRun(lv: seq<nat>, s: seq<Signal>, i: nat, j: nat)
    requires InNet(|lv|, s) && NonIncreasing(lv, s) && i <= j < |s|
    requires Lv(lv, s[i]) == Lv(lv, s[j])
    ensures InNet(|lv|, Swap(s, i, j)) && NonIncreasing(lv, Swap(s, i, j))
  {
    var r := Swap(s, i, j);
    assert forall k :: 0 <= k < |s| ==> Lv(lv, r[k]) == Lv(lv, s[k]);
    assert forall x :: x in r ==> x in multiset(s);
  }

  /** A swap inside the run of equal levels that ends at the second-to-last signal keeps the levels non-increasing. */
  lemma PermuteInRun(lv: seq<nat>, s: seq<Signal>, left: nat, p: seq<Signal>)
    requires InNet(|lv|, s) && NonIncreasing(lv, s) && left <= |s| - 2
    requires forall j :: left <= j <= |s| - 2 ==> Lv(lv, s[j]) == Lv(lv, s[|s| - 2])
    requires p == s || exists i :: left <= i < |s| - 2 && p == Swap(s, i, |s| - 2) && p[|s| - 2] == s[i]
    ensures multiset(p) == multiset(s) && |p| == |s|
    ensures InNet(|lv|, p) && NonIncreasing(lv, p)
  {
    if p != s {
      var i :| left <= i < |s| - 2 && p == Swap(s, i, |s| - 2) && p[|s| - 2] == s[i];
      SwapInRun(lv, s, i, |s| - 2);
    }
  }

  lemma AllSigByIndex(kinds: seq<Kind>, pv: nat -> bool, a: seq<Signal>)
    requires Topological(kinds) && InNet(|kinds|, a)
    ensures AllSig(kinds, pv, a) <==> forall j :: 0 <= j < |a| ==> EvalSig(kinds, pv, a[j])
  {
    if forall j :: 0 <= j < |a| ==> EvalSig(kinds, pv, a[j]) {
      forall x | x in a
        ensures EvalSig(kinds, pv, x)
      {
        var j :| 0 <= j < |a| && a[j] == x;
      }
    }
  }

  /** Each signal of b evaluates like the signal at the same position of a. */
  lemma AllSigPointwise(ka: seq<Kind>, pa: nat -> bool, a: seq<Signal>, kb: seq<Kind>, pb: nat -> bool, b: seq<Signal>)
    requires Topological(ka) && InNet(|ka|, a) && Topological(kb) && InNet(|kb|, b) && |a| == |b|
    requires forall j :: 0 <= j < |a| ==> EvalSig(ka, pa, a[j]) == EvalSig(kb, pb, b[j])
    ensures AllSig(ka, pa, a) == AllSig(kb, pb, b)
  {
    AllSigByIndex(ka, pa, a);
    AllSigByIndex(kb, pb, b);
  }

  lemma NonIncreasingExtend(lv: seq<nat>, lv': seq<nat>, s: seq<Signal>)
    requires Extends(lv, lv') && InNet(|lv|, s) && NonIncreasing(lv, s)
    ensures InNet(|lv'|, s) && NonIncreasing(lv', s)
  {
    assert forall x :: x in s ==> Lv(lv', x) == Lv(lv, x) by {
      forall x | x in s
        ensures Lv(lv', x) == Lv(lv, x)
      {
        assert lv'[..|lv|][SigIndex(x)] == lv'[SigIndex(x)];
      }
    }
  }

  /** Every cached signal of the new network computes its node of the old one. */
  predicate SoundOn(kinds: seq<Kind>, newKinds: seq<Kind>, old2new: seq<Option<Signal>>, ov: nat -> bool, nv: nat -> bool)
    requires Topological(kinds) && Topological(newKinds) && |old2new| == |kinds|
    requires forall n :: 0 <= n < |kinds| && old2new[n].Some? ==> SigIndex(old2new[n].value) < |newKinds|
  {
    forall n :: 0 <= n < |kinds| && old2new[n].Some? ==> EvalSig(newKinds, nv, old2new[n].value) == Eval(kinds, ov, n)
  }

  lemma SoundExtend(kinds: seq<Kind>, nk: seq<Kind>, nk': seq<Kind>, old2new: seq<Option<Signal>>, ov: nat -> bool, nv: nat -> bool)
    requires Topological(kinds) && Topological(nk) && Topological(nk') && Extends(nk, nk') && |old2new| == |kinds|
    requires forall n :: 0 <= n < |kinds| && old2new[n].Some? ==> SigIndex(old2new[n].value) < |nk|
    requires SoundOn(kinds, nk, old2new, ov, nv)
    ensures SoundOn(kinds, nk', old2new, ov, nv)
  {
    forall n | 0 <= n < |kinds| && old2new[n].Some?
      ensures EvalSig(nk', nv, old2new[n].value) == Eval(kinds, ov, n)
    {
      EvalSigExtend(nk, nk', nv, old2new[n].value);
    }
  }

  /** The entries of a already cached stay in b. */
  predicate CacheExtends(a: seq<Option<Signal>>, b: seq<Option<Signal>>) {
    |a| == |b| && forall n :: 0 <= n < |a| && a[n].Some? ==> b[n] == a[n]
  }

  /** Caching a signal that computes its old node keeps the cache sound. */
  lemma SoundCache(kinds: seq<Kind>, newKinds: seq<Kind>, old2new: seq<Option<Signal>>, ov: nat -> bool, nv: nat -> bool, d: nat, r: Signal)
    requires Topological(kinds) && Topological(newKinds) && |old2new| == |kinds| && d < |kinds|
    requires forall n :: 0 <= n < |kinds| && old2new[n].Some? ==> SigIndex(old2new[n].value) < |newKinds|
    requires SoundOn(kinds, newKinds, old2new, ov, nv)
    requires SigIndex(r) < |newKinds| && EvalSig(newKinds, nv, r) == Eval(kinds, ov, d)
    ensures SoundOn(kinds, newKinds, old2new[d := Some(r)], ov, nv)
  {
  }

  /** The AND of a single signal is that signal. */
  lemma AllSigSingle(kinds: seq<Kind>, pv: nat -> bool, p: seq<Signal>)
    requires Topological(kinds) && InNet(|kinds|, p) && |p| == 1
    ensures SigIndex(p[0]) < |kinds| && AllSig(kinds, pv, p) == EvalSig(kinds, pv, p[0])
  {
    assert p[0] in p;
  }

  /** The entries of a from index d on are unchanged in b. */
  predicate CacheKeeps(a: seq<Option<Signal>>, b: seq<Option<Signal>>, d: nat) {
    |a| == |b| && forall n :: d <= n < |a| ==> b[n] == a[n]
  }

  /** Filling an empty entry d of a cache that kept every entry from d on. */
  lemma CacheSet(c0: seq<Option<Signal>>, c1: seq<Option<Signal>>, d: nat, r: Signal)
    requires CacheExtends(c0, c1) && CacheKeeps(c0, c1, d) && d < |c1| && c1[d].None?
    ensures CacheExtends(c0, c1[d := Some(r)]) && CacheKeeps(c0, c1[d := Some(r)], d + 1)
  {
  }

  /** The number of primary inputs among the first k nodes. */
  function CountPis(kinds: seq<Kind>, k: nat): (r: nat)
    requires k <= |kinds|
    ensures r <= k
  {
    if k == 0 then 0 else CountPis(kinds, k - 1) + (if kinds[k - 1].Pi? then 1 else 0)
  }

  lemma {:induction false} CountPisMono(kinds: seq<Kind>, m: nat, n: nat)
    requires m < n <= |kinds| && kinds[m].Pi?
    ensures CountPis(kinds, m) < CountPis(kinds, n)
    decreases n
  {
    if n > m + 1 {
      CountPisMono(kinds, m, n - 1);
    }
  }

  /** The initial _old2new entry of node n: the constant for node 0, the (k+1)-th new node for the k-th input, SIGNAL_NULL otherwise. */
  function InitialMap(kinds: seq<Kind>, n: nat): Option<Signal>
    requires n < |kinds|
  {
    if n == 0 then Some(GetConstant(false))
    else if kinds[n].Pi? then Some(NodeSignal(CountPis(kinds, n) + 1))
    else None
  }

  /** The constructor's loop over the primary inputs: one new input each, in index order. */
  method MapInputs(kinds: seq<Kind>) returns (nk: seq<Kind>, nl: seq<nat>, o2n: seq<Option<Signal>>)
    requires |kinds| > 0 && kinds[0].Const?
    ensures nk == [Const] + seq(CountPis(kinds, |kinds|), _ => Pi) && NetOk(nk, nl)
    ensures |o2n| == |kinds| && forall n :: 0 <= n < |kinds| ==> o2n[n] == InitialMap(kinds, n)
    ensures forall n :: 0 <= n < |kinds| && o2n[n].Some? ==> SigIndex(o2n[n].value) < |nk| && nk[SigIndex(o2n[n].value)] == kinds[n]
  {
    nk := [Const];
    nl := [0];
    o2n := seq(|kinds|, n => if n == 0 then Some(GetConstant(false)) else None);
    var n := 0;
    while n < |kinds|
      invariant 0 <= n <= |kinds| && |o2n| == |kinds|
      invariant nk == [Const] + seq(CountPis(kinds, n), _ => Pi) && nl == seq(|nk|, _ => 0)
      invariant forall m :: 0 <= m < |kinds| ==> o2n[m] == if m < n || m == 0 then InitialMap(kinds, m) else None
    {
      if kinds[n].Pi? {
        o2n := o2n[n := Some(NodeSignal(|nk|))];
        nk := nk + [Pi];
        nl := nl + [0];
      }
      n := n + 1;
    }
    forall m | 0 <= m < |kinds| && o2n[m].Some?
      ensures SigIndex(o2n[m].value) < |nk| && nk[SigIndex(o2n[m].value)] == kinds[m]
    {
      if m > 0 {
        CountPisMono(kinds, m, |kinds|);
      }
    }
  }

  /** The folded AND: its value is the AND of the operands and its level is at most one more than theirs. */
  lemma TrivialAndValue(ks: seq<Kind>, lv: seq<nat>, pv: nat -> bool, a: Signal, b: Signal)
    requires NetOk(ks, lv) && SigIndex(a) < |ks| && SigIndex(b) < |ks| && TrivialAnd(a, b).Some?
    ensures var r := TrivialAnd(a, b).value;
      && SigIndex(r) < |ks|
      && EvalSig(ks, pv, r) == (EvalSig(ks, pv, a) && EvalSig(ks, pv, b))
      && Lv(lv, r) <= DepthView.Max(Lv(lv, a), Lv(lv, b)) + 1
  {
    assert Eval(ks, pv, 0) == false;
  }

  /** A gate hashed for a and b computes their AND, one level above the deeper of them. */
  /** Appending and(a, b) with its level (the on_add event of the depth view) keeps the network well formed and computes the AND. */
  lemma AppendGate(ks: seq<Kind>, lv: seq<nat>, pv: nat -> bool, a: Signal, b: Signal)
    requires NetOk(ks, lv) && SigIndex(a) < |ks| && SigIndex(b) < |ks| && TrivialAnd(a, b).None?
    ensures var nk, nl := ks + [AndOf(a, b)], lv + [DepthView.Max(Lv(lv, a), Lv(lv, b)) + 1];
      && NetOk(nk, nl) && Extends(ks, nk) && Extends(lv, nl)
      && EvalSig(nk, pv, NodeSignal(|ks|)) == (EvalSig(ks, pv, a) && EvalSig(ks, pv, b))
  {
    var nk, nl := ks + [AndOf(a, b)], lv + [DepthView.Max(Lv(lv, a), Lv(lv, b)) + 1];
    assert forall n :: 0 <= n < |nk| ==> nl[n] == GateLevel(nk, nl, n);
    GateValue(nk, nl, pv, a, b, |ks|);
    EvalSigExtend(ks, nk, pv, a);
    EvalSigExtend(ks, nk, pv, b);
  }

  lemma GateValue(ks: seq<Kind>, lv: seq<nat>, pv: nat -> bool, a: Signal, b: Signal, n: nat)
    requires NetOk(ks, lv) && SigIndex(a) < |ks| && SigIndex(b) < |ks| && TrivialAnd(a, b).None?
    requires n < |ks| && ks[n] == AndOf(a, b)
    ensures SigIndex(NodeSignal(n)) == n
    ensures EvalSig(ks, pv, NodeSignal(n)) == (EvalSig(ks, pv, a) && EvalSig(ks, pv, b))
    ensures Lv(lv, NodeSignal(n)) == DepthView.Max(Lv(lv, a), Lv(lv, b)) + 1
  {
    var (lo, hi) := Ordered(a, b);
    assert Eval(ks, pv, n) == (EvalEdge(ks, pv, EdgeOf(lo), n) && EvalEdge(ks, pv, EdgeOf(hi), n));
    assert lv[n] == GateLevel(ks, lv, n);
  }

  lemma InsertElements(sup: seq<Signal>, x: Signal, p: nat)
    requires p <= |sup|
    ensures forall y :: y in sup[..p] + [x] + sup[p..] <==> y in sup || y == x
  {
    assert sup == sup[..p] + sup[p..];
  }

  /** Inserting x after every higher-or-equal level and before every lower one keeps the levels non-increasing. */
  lemma PushPreservesOrder(lv: seq<nat>, sup: seq<Signal>, x: Signal, p: nat)
    requires InNet(|lv|, sup) && SigIndex(x) < |lv| && p <= |sup|
    requires p == 0 || Lv(lv, x) <= Lv(lv, sup[p - 1])
    requires forall j :: p <= j < |sup| ==> Lv(lv, sup[j]) < Lv(lv, x)
    ensures InNet(|lv|, sup[..p] + [x] + sup[p..])
    ensures NonIncreasing(lv, sup) ==> NonIncreasing(lv, sup[..p] + [x] + sup[p..])
  {
    var r := sup[..p] + [x] + sup[p..];
    InsertIndex(sup, x, p);
    if NonIncreasing(lv, sup) {
      forall i, j | 0 <= i < j < |r|
        ensures Lv(lv, r[j]) <= Lv(lv, r[i])
      {
        if j < p {
        } else if j == p {
          assert Lv(lv, sup[i]) >= Lv(lv, sup[p - 1]);
        } else if i < p {
          assert Lv(lv, sup[j - 1]) <= Lv(lv, sup[i]);
        }
      }
    }
  }

  /** The positions of a list with x inserted at p. */
  lemma InsertIndex(sup: seq<Signal>, x: Signal, p: nat)
    requires p <= |sup|
    ensures var r := sup[..p] + [x] + sup[p..];
      && |r| == |sup| + 1
      && (forall j :: 0 <= j < |r| ==> r[j] == if j < p then sup[j] else if j == p then x else sup[j - 1])
      && (forall y :: y in r <==> y in sup || y == x)
  {
    var r := sup[..p] + [x] + sup[p..];
    assert sup == sup[..p] + sup[p..];
  }

  /** Lists with the same elements have the same AND. */
  lemma AllSigSame(kinds: seq<Kind>, pv: nat -> bool, a: seq<Signal>, b: seq<Signal>)
    requires Topological(kinds) && InNet(|kinds|, a) && multiset(a) == multiset(b)
    ensures InNet(|kinds|, b) && AllSig(kinds, pv, b) == AllSig(kinds, pv, a)
  {
    assert forall x :: x in a <==> x in multiset(a);
    assert forall x :: x in b <==> x in multiset(b);
  }

  /** get_balance_cone_rec: appends the inputs of root's supergate met below s to acc. */
  method GetBalanceConeRec(kinds: seq<Kind>, fanouts: seq<nat>, root: nat, s: Signal, acc: seq<Signal>) returns (acc': seq<Signal>)
    requires GraphOk(kinds, fanouts) && root < |kinds| && kinds[root].And?
    requires SigIndex(s) < |kinds| && SigIndex(s) != 0 && Below(root, s)
    ensures acc' == acc + ConeLeaves(kinds, fanouts, root, s, |acc|)
    decreases SigIndex(s)
  {
    if Stops(kinds, fanouts, root, s, |acc|) {
      return acc + [s];
    }
    ConeStep(kinds, fanouts, root, s, |acc|);
    var c0 := SigOf(kinds[SigIndex(s)].f0);
    var c1 := SigOf(kinds[SigIndex(s)].f1);
    ghost var l0 := ConeLeaves(kinds, fanouts, root, c0, |acc|);
    ghost var l1 := ConeLeaves(kinds, fanouts, root, c1, |acc| + |l0|);
    var mid := GetBalanceConeRec(kinds, fanouts, root, c0, acc);
    acc' := GetBalanceConeRec(kinds, fanouts, root, c1, mid);
    AppendAssoc(acc, l0, l1);
  }

  lemma AppendAssoc<T>(a: seq<T>, b: seq<T>, c: seq<T>)
    ensures a + b + c == a + (b + c)
  {
  }

  /** One step of the search below a signal it does not stop at: the cone splits into those of the two fanins. */
  lemma ConeStep(kinds: seq<Kind>, fanouts: seq<nat>, root: nat, s: Signal, sz: nat)
    requires GraphOk(kinds, fanouts) && root < |kinds| && kinds[root].And?
    requires SigIndex(s) < |kinds| && SigIndex(s) != 0 && Below(root, s)
    requires !Stops(kinds, fanouts, root, s, sz)
    ensures kinds[SigIndex(s)].And?
    ensures var c0 := SigOf(kinds[SigIndex(s)].f0); var c1 := SigOf(kinds[SigIndex(s)].f1);
      && SigIndex(c0) < SigIndex(s) && SigIndex(c0) != 0 && Below(root, c0)
      && SigIndex(c1) < SigIndex(s) && SigIndex(c1) != 0 && Below(root, c1)
      && ConeLeaves(kinds, fanouts, root, s, sz)
         == ConeLeaves(kinds, fanouts, root, c0, sz) + ConeLeaves(kinds, fanouts, root, c1, sz + |ConeLeaves(kinds, fanouts, root, c0, sz)|)
  {
  }

  /** The AND of a list is the AND of all but its last two elements with those two. */
  lemma AllSigSplit(kinds: seq<Kind>, pv: nat -> bool, p: seq<Signal>)
    requires Topological(kinds) && InNet(|kinds|, p) && |p| >= 2
    ensures InNet(|kinds|, p[..|p| - 2])
    ensures AllSig(kinds, pv, p) == (AllSig(kinds, pv, p[..|p| - 2]) && EvalSig(kinds, pv, p[|p| - 1]) && EvalSig(kinds, pv, p[|p| - 2]))
  {
    assert p == p[..|p| - 2] + [p[|p| - 2], p[|p| - 1]];
    assert forall x :: x in p <==> x in p[..|p| - 2] || x == p[|p| - 2] || x == p[|p| - 1];
  }

  /** A prefix of a list of non-increasing levels has non-increasing levels. */
  lemma PrefixNonIncreasing(lv: seq<nat>, p: seq<Signal>, n: nat)
    requires InNet(|lv|, p) && NonIncreasing(lv, p) && n <= |p|
    ensures InNet(|lv|, p[..n]) && NonIncreasing(lv, p[..n])
  {
    assert forall y :: y in p[..n] ==> y in p;
  }

  /** The AND of a list holding exactly the signals of rest and x. */
  lemma AllSigSameElements(kinds: seq<Kind>, pv: nat -> bool, r: seq<Signal>, rest: seq<Signal>, x: Signal)
    requires Topological(kinds) && InNet(|kinds|, rest) && SigIndex(x) < |kinds|
    requires forall y :: y in r <==> y in rest || y == x
    ensures InNet(|kinds|, r) && AllSig(kinds, pv, r) == (AllSig(kinds, pv, rest) && EvalSig(kinds, pv, x))
  {
  }

  lemma CacheExtendsTrans(a: seq<Option<Signal>>, b: seq<Option<Signal>>, c: seq<Option<Signal>>)
    requires CacheExtends(a, b) && CacheExtends(b, c)
    ensures CacheExtends(a, c)
  {
  }

  /** s ^ c computes the old signal when s computes its node. */
  lemma XorBoolValue(kinds: seq<Kind>, ov: nat -> bool, newKinds: seq<Kind>, nv: nat -> bool, t: Signal, leaf: Signal)
    requires Topological(kinds) && Topological(newKinds) && SigIndex(t) < |newKinds| && SigIndex(leaf) < |kinds|
    requires EvalSig(newKinds, nv, t) == Eval(kinds, ov, SigIndex(leaf))
    ensures SigIndex(XorBool(t, SigComplement(leaf) == 1)) < |newKinds|
    ensures EvalSig(newKinds, nv, XorBool(t, SigComplement(leaf) == 1)) == EvalSig(kinds, ov, leaf)
  {
    if SigComplement(leaf) == 1 {
      EvalSigNot(newKinds, nv, t);
    }
  }

  /** The first i new signals compute the old signals at the same positions. */
  predicate Translated(kinds: seq<Kind>, ov: nat -> bool, leaves: seq<Signal>, newKinds: seq<Kind>, nv: nat -> bool, sup: seq<Signal>, i: nat)
    requires Topological(kinds) && Topological(newKinds) && InNet(|kinds|, leaves) && i <= |sup| == |leaves|
  {
    forall j :: 0 <= j < i ==> SigIndex(sup[j]) < |newKinds| && EvalSig(newKinds, nv, sup[j]) == EvalSig(kinds, ov, leaves[j])
  }

  lemma TranslatedExtend(kinds: seq<Kind>, ov: nat -> bool, leaves: seq<Signal>, nk: seq<Kind>, nk': seq<Kind>, nv: nat -> bool, sup: seq<Signal>, i: nat)
    requires Topological(kinds) && Topological(nk) && Topological(nk') && Extends(nk, nk')
    requires InNet(|kinds|, leaves) && i <= |sup| == |leaves| && Translated(kinds, ov, leaves, nk, nv, sup, i)
    ensures Translated(kinds, ov, leaves, nk', nv, sup, i)
  {
    forall j | 0 <= j < i
      ensures EvalSig(nk', nv, sup[j]) == EvalSig(kinds, ov, leaves[j])
    {
      EvalSigExtend(nk, nk', nv, sup[j]);
    }
  }

  /** The output at position base + j computes old output j. */
  predicate OutputOk(kinds: seq<Kind>, ov: nat -> bool, pos: seq<Edge>, newKinds: seq<Kind>, nv: nat -> bool, outs: seq<Signal>, base: nat, j: nat)
    requires Topological(kinds) && Topological(newKinds) && j < |pos| && base + j < |outs|
    requires forall o :: o in pos ==> o.node < |kinds|
  {
    assert pos[j] in pos;
    SigIndex(outs[base + j]) < |newKinds| && EvalSig(newKinds, nv, outs[base + j]) == (Eval(kinds, ov, pos[j].node) != pos[j].compl)
  }

  /** The k outputs added after position base compute the first k old outputs. */
  predicate OutputsTranslated(kinds: seq<Kind>, ov: nat -> bool, pos: seq<Edge>, newKinds: seq<Kind>, nv: nat -> bool, outs: seq<Signal>, base: nat, k: nat)
    requires Topological(kinds) && Topological(newKinds) && k <= |pos| && base + k <= |outs|
    requires forall o :: o in pos ==> o.node < |kinds|
  {
    forall j :: 0 <= j < k ==> OutputOk(kinds, ov, pos, newKinds, nv, outs, base, j)
  }

  /** Appending a signal that computes old output k extends the translated outputs by one. */
  lemma OutputsPush(kinds: seq<Kind>, ov: nat -> bool, pos: seq<Edge>, nk: seq<Kind>, nv: nat -> bool, outs: seq<Signal>, base: nat, k: nat, t: Signal)
    requires Topological(kinds) && Topological(nk) && forall o :: o in pos ==> o.node < |kinds|
    requires k < |pos| && base + k == |outs| && OutputsTranslated(kinds, ov, pos, nk, nv, outs, base, k)
    requires SigIndex(t) < |nk| && EvalSig(nk, nv, t) == Eval(kinds, ov, pos[k].node)
    ensures OutputsTranslated(kinds, ov, pos, nk, nv, outs + [XorBool(t, pos[k].compl)], base, k + 1)
  {
    var outs' := outs + [XorBool(t, pos[k].compl)];
    if pos[k].compl {
      EvalSigNot(nk, nv, t);
    }
    forall j | 0 <= j < k + 1
      ensures OutputOk(kinds, ov, pos, nk, nv, outs', base, j)
    {
      if j < k {
        assert OutputOk(kinds, ov, pos, nk, nv, outs, base, j);
        assert outs'[base + j] == outs[base + j];
      }
    }
  }

  lemma OutputsExtend(kinds: seq<Kind>, ov: nat -> bool, pos: seq<Edge>, nk: seq<Kind>, nk': seq<Kind>, nv: nat -> bool, outs: seq<Signal>, base: nat, k: nat)
    requires Topological(kinds) && Topological(nk) && Topological(nk') && Extends(nk, nk')
    requires k <= |pos| && base + k <= |outs| && forall o :: o in pos ==> o.node < |kinds|
    requires OutputsTranslated(kinds, ov, pos, nk, nv, outs, base, k)
    ensures OutputsTranslated(kinds, ov, pos, nk', nv, outs, base, k)
  {
    forall j | 0 <= j < k
      ensures OutputOk(kinds, ov, pos, nk', nv, outs, base, j)
    {
      assert OutputOk(kinds, ov, pos, nk, nv, outs, base, j);
      EvalSigExtend(nk, nk', nv, outs[base + j]);
    }
  }

  // ---------------------------------------------------------------------
  // The balancer.

  class Balancer {
    /** The network being balanced, its fanout counts and its outputs. */
    const kinds: seq<Kind>
    const fanouts: seq<nat>
    const pos: seq<Edge>
    /** The new network (a depth view): its nodes, their levels and its outputs. */
    var newKinds: seq<Kind>
    var newLevels: seq<nat>
    var newOutputs: seq<Signal>
    /** _old2new: the new signal of an old node, None for SIGNAL_NULL. */
    var old2new: seq<Option<Signal>>

    ghost predicate Valid()
      reads this
    {
      && GraphOk(kinds, fanouts) && NetOk(newKinds, newLevels) && |old2new| == |kinds|
      && (forall o :: o in pos ==> o.node < |kinds|)
      && old2new[0] == Some(GetConstant(false))
      && (forall n :: 0 <= n < |kinds| && !kinds[n].And? ==> old2new[n].Some?)
      && (forall n :: 0 <= n < |kinds| && old2new[n].Some? ==> SigIndex(old2new[n].value) < |newKinds|)
      && InNet(|newKinds|, newOutputs)
    }

    /** Under old input values ov and new input values nv, every cached signal computes its old node. */
    ghost predicate Sound(ov: nat -> bool, nv: nat -> bool)
      requires Valid()
      reads this
    {
      SoundOn(kinds, newKinds, old2new, ov, nv)
    }

    /** The new inputs carry the values of the old inputs they were created for. */
    ghost predicate Agree(ov: nat -> bool, nv: nat -> bool)
      requires Valid()
      reads this
    {
      forall n :: 0 <= n < |kinds| && kinds[n].Pi? ==> nv(SigIndex(old2new[n].value)) == ov(n)
    }

    /**
     * The constructor: the new network starts with the constant, old node
     * 0 maps to it, and each primary input, in index order, gets a new input.
     */
    constructor(kinds: seq<Kind>, fanouts: seq<nat>, pos: seq<Edge>)
      requires GraphOk(kinds, fanouts) && forall o :: o in pos ==> o.node < |kinds|
      ensures this.kinds == kinds && this.fanouts == fanouts && this.pos == pos
      ensures Valid() && newOutputs == []
      ensures newKinds == [Const] + seq(CountPis(kinds, |kinds|), _ => Pi)
      ensures forall n :: 0 <= n < |kinds| ==> old2new[n] == InitialMap(kinds, n)
      ensures forall ov, nv :: Agree(ov, nv) ==> Sound(ov, nv)
    {
      var nk, nl, o2n := MapInputs(kinds);
      this.kinds := kinds;
      this.fanouts := fanouts;
      this.pos := pos;
      newKinds := nk;
      newLevels := nl;
      newOutputs := [];
      old2new := o2n;
      new;
      forall ov, nv | Agree(ov, nv)
        ensures Sound(ov, nv)
      {
      }
    }

    /** find_and: whether and(a, b) needs no new node (a trivial case or an existing gate). */
    function FindAnd(a: Signal, b: Signal): (r: bool)
      reads this
      ensures r <==> TrivialAnd(a, b).Some? || exists n :: 0 <= n < |newKinds| && newKinds[n] == AndOf(a, b)
    {
      TrivialAnd(a, b).Some? || FindGate(newKinds, AndOf(a, b), |newKinds|).Some?
    }

    /**
     * create_and in the new network: the trivial cases fold, an existing
     * gate with the same ordered children is returned, and otherwise a gate
     * is added whose level is one more than its deeper fanin.
     */
    method CreateAnd(a: Signal, b: Signal, ghost nv: nat -> bool) returns (r: Signal)
      requires Valid() && SigIndex(a) < |newKinds| && SigIndex(b) < |newKinds|
      modifies this
      ensures Valid() && old2new == old(old2new) && newOutputs == old(newOutputs)
      ensures Extends(old(newKinds), newKinds) && Extends(old(newLevels), newLevels)
      ensures SigIndex(r) < |newKinds|
      ensures EvalSig(newKinds, nv, r) == (EvalSig(old(newKinds), nv, a) && EvalSig(old(newKinds), nv, b))
      ensures Lv(newLevels, r) <= DepthView.Max(Lv(newLevels, a), Lv(newLevels, b)) + 1
      ensures TrivialAnd(a, b).Some? ==> r == TrivialAnd(a, b).value && newKinds == old(newKinds)
      ensures TrivialAnd(a, b).None? ==> SigComplement(r) == 0 && newKinds[SigIndex(r)] == AndOf(a, b)
      ensures |newKinds| > old(|newKinds|) <==> !old(FindAnd(a, b))
    {
      var lo, hi := a, b;
      if SigIndex(a) > SigIndex(b) {
        lo, hi := b, a;
      }
      if SigIndex(lo) == SigIndex(hi) {
        r := if SigComplement(lo) == SigComplement(hi) then lo else GetConstant(false);
        TrivialAndValue(newKinds, newLevels, nv, a, b);
        return;
      } else if SigIndex(lo) == 0 {
        r := if SigComplement(lo) == 1 then hi else GetConstant(false);
        TrivialAndValue(newKinds, newLevels, nv, a, b);
        return;
      }
      r := HashAnd(a, b, nv);
    }

    /** The structural-hashing half of create_and, for operands that do not fold. */
    method HashAnd(a: Signal, b: Signal, ghost nv: nat -> bool) returns (r: Signal)
      requires Valid() && SigIndex(a) < |newKinds| && SigIndex(b) < |newKinds| && TrivialAnd(a, b).None?
      modifies this
      ensures Valid() && old2new == old(old2new) && newOutputs == old(newOutputs)
      ensures Extends(old(newKinds), newKinds) && Extends(old(newLevels), newLevels)
      ensures SigIndex(r) < |newKinds|
      ensures EvalSig(newKinds, nv, r) == (EvalSig(old(newKinds), nv, a) && EvalSig(old(newKinds), nv, b))
      ensures Lv(newLevels, r) == DepthView.Max(Lv(newLevels, a), Lv(newLevels, b)) + 1
      ensures SigComplement(r) == 0 && newKinds[SigIndex(r)] == AndOf(a, b)
      ensures |newKinds| > old(|newKinds|) <==> !old(FindAnd(a, b))
    {
      var found := FindGate(newKinds, AndOf(a, b), |newKinds|);
      if found.Some? {
        r := NodeSignal(found.value);
        GateValue(newKinds, newLevels, nv, a, b, found.value);
      } else {
        r := AddAnd(a, b, nv);
      }
    }

    /** The structural hashing miss: a new gate and(a, b) is appended. */
    method AddAnd(a: Signal, b: Signal, ghost nv: nat -> bool) returns (r: Signal)
      requires Valid() && SigIndex(a) < |newKinds| && SigIndex(b) < |newKinds| && TrivialAnd(a, b).None?
      modifies this
      ensures Valid() && old2new == old(old2new) && newOutputs == old(newOutputs)
      ensures Extends(old(newKinds), newKinds) && Extends(old(newLevels), newLevels)
      ensures |newKinds| == old(|newKinds|) + 1 && r == NodeSignal(old(|newKinds|))
      ensures EvalSig(newKinds, nv, r) == (EvalSig(old(newKinds), nv, a) && EvalSig(old(newKinds), nv, b))
      ensures Lv(newLevels, r) == DepthView.Max(Lv(newLevels, a), Lv(newLevels, b)) + 1
      ensures newKinds[SigIndex(r)] == AndOf(a, b)
    {
      var l := DepthView.Max(Lv(newLevels, a), Lv(newLevels, b)) + 1;
      AppendGate(newKinds, newLevels, nv, a, b);
      newKinds, newLevels := newKinds + [AndOf(a, b)], newLevels + [l];
      r := NodeSignal(|newKinds| - 1);
    }

    /**
     * balance_find_left: 0 for fewer than three signals; otherwise the
     * leftmost position of the run of equal levels that ends at the
     * second-to-last signal.
     */
    method BalanceFindLeft(sup: seq<Signal>) returns (left: nat)
      requires InNet(|newLevels|, sup)
      ensures |sup| < 3 ==> left == 0
      ensures |sup| >= 3 ==>
        && left <= |sup| - 2
        && (forall j :: left <= j <= |sup| - 2 ==> Lv(newLevels, sup[j]) == Lv(newLevels, sup[|sup| - 2]))
        && (left == 0 || Lv(newLevels, sup[left - 1]) != Lv(newLevels, sup[|sup| - 2]))
    {
      if |sup| < 3 {
        return 0;
      }
      var right := sup[|sup| - 2];
      var current: int := |sup| - 3;
      while current >= 0 && Lv(newLevels, sup[current]) == Lv(newLevels, right)
        invariant -1 <= current <= |sup| - 3
        invariant forall j :: current < j <= |sup| - 2 ==> Lv(newLevels, sup[j]) == Lv(newLevels, right)
      {
        current := current - 1;
      }
      left := current + 1;
    }

    /**
     * balance_permute: looks, from the second-to-last position leftwards
     * down to left, for the first signal the last signal already shares a
     * gate with (find_and), and swaps it into the second-to-last position.
     * Nothing moves when the last two signals are on the constant or on
     * one node, or when the shared signal is on the node already there.
     */
    method BalancePermute(sup: seq<Signal>, left: nat) returns (r: seq<Signal>)
      requires InNet(|newKinds|, sup) && left <= |sup| - 2
      ensures var right := |sup| - 2;
        || r == sup
        || exists i :: left <= i < right && r == Swap(sup, i, right)
             && FindAnd(sup[right + 1], sup[i])
             && forall j :: i < j <= right ==> !FindAnd(sup[right + 1], sup[j])
    {
      var right := |sup| - 2;
      if left == right {
        return sup;
      }
      var node1 := sup[right + 1];
      var node2 := sup[right];
      if SigIndex(node1) == 0 || SigIndex(node2) == 0 || SigIndex(node1) == SigIndex(node2) {
        return sup;
      }
      var i: int := right;
      while i >= left
        invariant left - 1 <= i <= right
        invariant forall j :: i < j <= right ==> !FindAnd(node1, sup[j])
      {
        var node3 := sup[i];
        if SigIndex(node3) == 0 {
          assert FindAnd(node1, node3);
          return Swap(sup, i, right);
        }
        if SigIndex(node1) == SigIndex(node3) {
          if SigIndex(node2) == SigIndex(node3) {
            return sup;
          }
          assert FindAnd(node1, node3);
          return Swap(sup, i, right);
        }
        if FindAnd(node1, node3) {
          if SigIndex(node2) == SigIndex(node3) {
            return sup;
          }
          return Swap(sup, i, right);
        }
        i := i - 1;
      }
      r := sup;
    }

    /**
     * push_unique_by_level (AND): a signal already present is not added;
     * otherwise it is appended and moved left past every signal of lower
     * level, so a list of non-increasing levels stays so.
     */
    method PushUniqueByLevel(sup: seq<Signal>, x: Signal) returns (r: seq<Signal>)
      requires InNet(|newLevels|, sup) && SigIndex(x) < |newLevels|
      ensures x in sup ==> r == sup
      ensures x !in sup ==> exists p :: (0 <= p <= |sup| && r == sup[..p] + [x] + sup[p..]
        && (p == 0 || Lv(newLevels, x) <= Lv(newLevels, sup[p - 1]))
        && forall j :: p <= j < |sup| ==> Lv(newLevels, sup[j]) < Lv(newLevels, x))
      ensures InNet(|newLevels|, r) && (NonIncreasing(newLevels, sup) ==> NonIncreasing(newLevels, r))
      ensures forall y :: y in r <==> y in sup || y == x
    {
      var found := Contains(sup, x);
      if found {
        return sup;
      }
      ghost var p;
      r, p := InsertFromBack(sup, x);
      PushPreservesOrder(newLevels, sup, x, p);
      InsertElements(sup, x, p);
    }

    /** The search loop of push_unique_by_level. */
    static method Contains(sup: seq<Signal>, x: Signal) returns (found: bool)
      ensures found <==> x in sup
    {
      found := false;
      var k := 0;
      while k < |sup|
        invariant 0 <= k <= |sup|
        invariant found <==> x in sup[..k]
      {
        if sup[k] == x {
          found := true;
        }
        assert sup[..k + 1] == sup[..k] + [sup[k]];
        k := k + 1;
      }
      assert sup[..k] == sup;
    }

    /** The swapping loop of push_unique_by_level: x moves left while its level exceeds its neighbour's. */
    method InsertFromBack(sup: seq<Signal>, x: Signal) returns (r: seq<Signal>, ghost p: nat)
      requires InNet(|newLevels|, sup) && SigIndex(x) < |newLevels|
      ensures p <= |sup| && r == sup[..p] + [x] + sup[p..]
      ensures p == 0 || Lv(newLevels, x) <= Lv(newLevels, sup[p - 1])
      ensures forall j :: p <= j < |sup| ==> Lv(newLevels, sup[j]) < Lv(newLevels, x)
    {
      r := sup + [x];
      var i := |r| - 1;
      while i > 0 && Lv(newLevels, r[i]) > Lv(newLevels, r[i - 1])
        invariant 0 <= i <= |sup|
        invariant r == sup[..i] + [x] + sup[i..]
        invariant forall j :: i <= j < |sup| ==> Lv(newLevels, sup[j]) < Lv(newLevels, x)
      {
        assert r[i] == x && r[i - 1] == sup[i - 1];
        r := r[i := r[i - 1]][i - 1 := r[i]];
        assert r == sup[..i - 1] + [x] + sup[i - 1..];
        i := i - 1;
      }
      p := i;
    }

    /** The first half of a round of build_super: the left bound and the permutation, which keeps the levels non-increasing. */
    method FindLeftAndPermute(s: seq<Signal>) returns (p: seq<Signal>)
      requires Valid() && InNet(|newKinds|, s) && NonIncreasing(newLevels, s) && |s| > 1
      ensures multiset(p) == multiset(s) && |p| == |s|
      ensures InNet(|newKinds|, p) && NonIncreasing(newLevels, p)
    {
      var left := BalanceFindLeft(s);
      p := BalancePermute(s, left);
      PermuteInRun(newLevels, s, left, p);
    }

    /**
     * One round of build_super's loop: find the left bound, permute, pop
     * the last two signals, AND them in the new network and push the
     * result back by level.
     */
    method PairLastTwo(s: seq<Signal>, ghost nv: nat -> bool) returns (s': seq<Signal>)
      requires Valid() && InNet(|newKinds|, s) && NonIncreasing(newLevels, s) && |s| > 1
      modifies this
      ensures Valid() && old2new == old(old2new) && newOutputs == old(newOutputs)
      ensures Extends(old(newKinds), newKinds) && Extends(old(newLevels), newLevels)
      ensures InNet(|newKinds|, s') && NonIncreasing(newLevels, s') && 1 <= |s'| < |s|
      ensures AllSig(newKinds, nv, s') == AllSig(old(newKinds), nv, s)
    {
      var p := FindLeftAndPermute(s);
      AllSigSame(newKinds, nv, s, p);
      AllSigSplit(newKinds, nv, p);
      var node0 := p[|p| - 1];
      var node1 := p[|p| - 2];
      var rest := p[..|p| - 2];
      PrefixNonIncreasing(newLevels, p, |p| - 2);
      ghost var nk0, nl0 := newKinds, newLevels;
      var nn := CreateAnd(node0, node1, nv);
      NonIncreasingExtend(nl0, newLevels, rest);
      AllSigExtend(nk0, newKinds, nv, rest);
      s' := PushUniqueByLevel(rest, nn);
      AllSigSameElements(newKinds, nv, s', rest, nn);
    }

    /**
     * build_super (AND): sorts by non-increasing level (larger index first
     * on ties) and pairs the last two signals until one remains; the result
     * computes the AND of all inputs. The list never runs empty, so the
     * constant fallback of the source is never taken.
     */
    method BuildSuper(sup: seq<Signal>, ghost nv: nat -> bool) returns (r: Signal)
      requires Valid() && InNet(|newKinds|, sup) && |sup| > 1
      modifies this
      ensures Valid() && old2new == old(old2new) && newOutputs == old(newOutputs)
      ensures Extends(old(newKinds), newKinds) && Extends(old(newLevels), newLevels)
      ensures SigIndex(r) < |newKinds|
      ensures EvalSig(newKinds, nv, r) == AllSig(old(newKinds), nv, sup)
    {
      ghost var k0, l0, target := newKinds, newLevels, AllSig(newKinds, nv, sup);
      var s := SortByLevel(newLevels, sup);
      SortedByLevelNonIncreasing(newLevels, s);
      AllSigSame(newKinds, nv, sup, s);
      while |s| > 1
        invariant Valid() && old2new == old(old2new) && newOutputs == old(newOutputs)
        invariant Extends(k0, newKinds) && Extends(l0, newLevels)
        invariant InNet(|newKinds|, s) && NonIncreasing(newLevels, s) && |s| >= 1
        invariant AllSig(newKinds, nv, s) == target
        decreases |s|
      {
        ghost var nk, nl, s0 := newKinds, newLevels, s;
        s := PairLastTwo(s, nv);
        assert AllSig(newKinds, nv, s) == AllSig(nk, nv, s0);
        ExtendsTrans(k0, nk, newKinds);
        ExtendsTrans(l0, nl, newLevels);
      }
      assert s[0] in s;
      r := s[0];
    }

    /** get_balance_cone: the collected inputs of gate n, unified. */
    method GetBalanceCone(n: nat) returns (r: seq<Signal>)
      requires GraphOk(kinds, fanouts) && n < |kinds| && kinds[n].And?
      ensures r == Supergate(kinds, fanouts, n)
    {
      var nodes := GetBalanceConeRec(kinds, fanouts, n, NodeSignal(n), []);
      assert nodes == ConeLeaves(kinds, fanouts, n, NodeSignal(n), 0);
      r := BalanceUnify(nodes);
    }

    /**
     * balance_rec: the balanced new signal of old node driver, which
     * computes the same function. Results are cached in old2new, except
     * when the supergate has a single input.
     */
    method BalanceRec(driver: nat, ghost ov: nat -> bool, ghost nv: nat -> bool) returns (r: Signal)
      requires Valid() && Sound(ov, nv) && driver < |kinds|
      modifies this
      ensures Valid() && Sound(ov, nv) && newOutputs == old(newOutputs)
      ensures Extends(old(newKinds), newKinds)
      ensures CacheExtends(old(old2new), old2new) && CacheKeeps(old(old2new), old2new, driver + 1)
      ensures SigIndex(r) < |newKinds| && EvalSig(newKinds, nv, r) == Eval(kinds, ov, driver)
      ensures old(old2new[driver]).Some? ==> r == old(old2new[driver]).value && newKinds == old(newKinds)
      ensures old2new[driver] == Some(r)
              || (kinds[driver].And? && |Supergate(kinds, fanouts, driver)| == 1 && old2new[driver].None?)
      decreases driver, 3
    {
      if old2new[driver].Some? {
        return old2new[driver].value;
      }
      r := BalanceFresh(driver, ov, nv);
    }

    /** balance_rec on a node not yet rebuilt: an AND, whose supergate is collected and rebuilt. */
    method BalanceFresh(driver: nat, ghost ov: nat -> bool, ghost nv: nat -> bool) returns (r: Signal)
      requires Valid() && Sound(ov, nv) && driver < |kinds| && old2new[driver].None?
      modifies this
      ensures Valid() && Sound(ov, nv) && newOutputs == old(newOutputs)
      ensures Extends(old(newKinds), newKinds)
      ensures CacheExtends(old(old2new), old2new) && CacheKeeps(old(old2new), old2new, driver + 1)
      ensures SigIndex(r) < |newKinds| && EvalSig(newKinds, nv, r) == Eval(kinds, ov, driver)
      ensures old2new[driver] == Some(r)
              || (kinds[driver].And? && |Supergate(kinds, fanouts, driver)| == 1 && old2new[driver].None?)
      decreases driver, 2
    {
      var sg := GetBalanceCone(driver);
      SupergateValue(kinds, fanouts, ov, driver);
      if sg == [] {
        r := CacheConstant(driver, ov, nv);
      } else {
        r := BalanceSupergate(driver, sg, ov, nv);
      }
    }

    /** A supergate with two inputs of opposite polarity is the constant 0, cached for driver. */
    method CacheConstant(driver: nat, ghost ov: nat -> bool, ghost nv: nat -> bool) returns (r: Signal)
      requires Valid() && Sound(ov, nv) && driver < |kinds| && old2new[driver].None? && !Eval(kinds, ov, driver)
      modifies this
      ensures Valid() && Sound(ov, nv) && unchanged(`newKinds, `newLevels, `newOutputs)
      ensures old2new == old(old2new)[driver := Some(r)]
      ensures r == GetConstant(false) && EvalSig(newKinds, nv, r) == Eval(kinds, ov, driver)
    {
      r := GetConstant(false);
      SoundCache(kinds, newKinds, old2new, ov, nv, driver, r);
      old2new := old2new[driver := Some(r)];
    }

    /** balance_rec on a nonempty supergate: its inputs are rebuilt; a single one is returned, more are built into a tree. */
    method BalanceSupergate(driver: nat, sg: seq<Signal>, ghost ov: nat -> bool, ghost nv: nat -> bool) returns (r: Signal)
      requires Valid() && Sound(ov, nv) && driver < |kinds| && old2new[driver].None? && kinds[driver].And?
      requires sg != [] && (forall x :: x in sg ==> SigIndex(x) < driver) && AllSig(kinds, ov, sg) == Eval(kinds, ov, driver)
      modifies this
      ensures Valid() && Sound(ov, nv) && newOutputs == old(newOutputs)
      ensures Extends(old(newKinds), newKinds)
      ensures CacheExtends(old(old2new), old2new) && CacheKeeps(old(old2new), old2new, driver + 1)
      ensures SigIndex(r) < |newKinds| && EvalSig(newKinds, nv, r) == Eval(kinds, ov, driver)
      ensures old2new[driver] == Some(r) || (|sg| == 1 && old2new[driver].None?)
      decreases driver, 1
    {
      var sup := BalanceLeaves(driver, sg, ov, nv);
      AllSigPointwise(newKinds, nv, sup, kinds, ov, sg);
      if |sup| == 1 {
        AllSigSingle(newKinds, nv, sup);
        return sup[0];
      }
      ghost var nk1, c1 := newKinds, old2new;
      r := BuildAndCache(driver, sup, ov, nv);
      ExtendsTrans(old(newKinds), nk1, newKinds);
      CacheSet(old(old2new), c1, driver, r);
    }

    /** The end of balance_rec: the supergate of driver is built from its rebuilt inputs and cached. */
    method BuildAndCache(driver: nat, sup: seq<Signal>, ghost ov: nat -> bool, ghost nv: nat -> bool) returns (r: Signal)
      requires Valid() && Sound(ov, nv) && driver < |kinds| && old2new[driver].None?
      requires InNet(|newKinds|, sup) && |sup| > 1 && AllSig(newKinds, nv, sup) == Eval(kinds, ov, driver)
      modifies this
      ensures Valid() && Sound(ov, nv) && newOutputs == old(newOutputs)
      ensures Extends(old(newKinds), newKinds)
      ensures old2new == old(old2new)[driver := Some(r)]
      ensures SigIndex(r) < |newKinds| && EvalSig(newKinds, nv, r) == Eval(kinds, ov, driver)
    {
      ghost var nk0 := newKinds;
      r := BuildSuper(sup, nv);
      SoundExtend(kinds, nk0, newKinds, old2new, ov, nv);
      SoundCache(kinds, newKinds, old2new, ov, nv, driver, r);
      old2new := old2new[driver := Some(r)];
    }

    /** The loop of balance_rec over the supergate inputs: each is replaced by its balanced signal, complemented as the input was. */
    method BalanceLeaves(driver: nat, leaves: seq<Signal>, ghost ov: nat -> bool, ghost nv: nat -> bool) returns (sup: seq<Signal>)
      requires Valid() && Sound(ov, nv) && driver < |kinds|
      requires forall x :: x in leaves ==> SigIndex(x) < driver
      modifies this
      ensures Valid() && Sound(ov, nv) && newOutputs == old(newOutputs)
      ensures Extends(old(newKinds), newKinds)
      ensures CacheExtends(old(old2new), old2new)
      ensures CacheKeeps(old(old2new), old2new, driver)
      ensures |sup| == |leaves| && InNet(|newKinds|, sup) && InNet(|kinds|, leaves)
      ensures forall j :: 0 <= j < |sup| ==> EvalSig(newKinds, nv, sup[j]) == EvalSig(kinds, ov, leaves[j])
      decreases driver, 0
    {
      sup := leaves;
      var i := 0;
      while i < |sup|
        invariant 0 <= i <= |sup| == |leaves|
        invariant Valid() && Sound(ov, nv) && newOutputs == old(newOutputs)
        invariant Extends(old(newKinds), newKinds)
        invariant CacheExtends(old(old2new), old2new) && CacheKeeps(old(old2new), old2new, driver)
        invariant forall j :: i <= j < |sup| ==> sup[j] == leaves[j]
        invariant Translated(kinds, ov, leaves, newKinds, nv, sup, i)
      {
        assert sup[i] in leaves;
        ghost var nk0, c0 := newKinds, old2new;
        var newNode := BalanceRec(SigIndex(sup[i]), ov, nv);
        TranslatedExtend(kinds, ov, leaves, nk0, newKinds, nv, sup, i);
        ExtendsTrans(old(newKinds), nk0, newKinds);
        CacheExtendsTrans(old(old2new), c0, old2new);
        XorBoolValue(kinds, ov, newKinds, nv, newNode, sup[i]);
        sup := sup[i := XorBool(newNode, SigComplement(sup[i]) == 1)];
        i := i + 1;
      }
      assert InNet(|newKinds|, sup) by {
        forall x | x in sup
          ensures SigIndex(x) < |newKinds|
        {
          var j :| 0 <= j < |sup| && sup[j] == x;
        }
      }
    }

    /** run: balances the driver of every output and adds the new outputs, each computing the old one. */
    /** One round of run: output k is rebuilt and its new signal, complemented as the output was, is appended. */
    method RunStep(ghost base: nat, k: nat, ghost ov: nat -> bool, ghost nv: nat -> bool)
      requires Valid() && Sound(ov, nv) && k < |pos| && |newOutputs| == base + k
      requires OutputsTranslated(kinds, ov, pos, newKinds, nv, newOutputs, base, k)
      modifies this
      ensures Valid() && Sound(ov, nv)
      ensures |newOutputs| == base + k + 1 && newOutputs[..base + k] == old(newOutputs)
      ensures OutputsTranslated(kinds, ov, pos, newKinds, nv, newOutputs, base, k + 1)
    {
      assert pos[k] in pos;
      ghost var nk0 := newKinds;
      var newSignal := BalanceRec(pos[k].node, ov, nv);
      OutputsExtend(kinds, ov, pos, nk0, newKinds, nv, newOutputs, base, k);
      OutputsPush(kinds, ov, pos, newKinds, nv, newOutputs, base, k, newSignal);
      newOutputs := newOutputs + [XorBool(newSignal, pos[k].compl)];
    }

    method Run(ghost ov: nat -> bool, ghost nv: nat -> bool)
      requires Valid() && Sound(ov, nv)
      modifies this
      ensures Valid() && Sound(ov, nv)
      ensures |newOutputs| == old(|newOutputs|) + |pos| && newOutputs[..old(|newOutputs|)] == old(newOutputs)
      ensures forall k :: 0 <= k < |pos| ==>
        EvalSig(newKinds, nv, newOutputs[old(|newOutputs|) + k]) == (Eval(kinds, ov, pos[k].node) != pos[k].compl)
    {
      ghost var base := |newOutputs|;
      var k := 0;
      while k < |pos|
        invariant 0 <= k <= |pos|
        invariant Valid() && Sound(ov, nv)
        invariant |newOutputs| == base + k && newOutputs[..base] == old(newOutputs)
        invariant OutputsTranslated(kinds, ov, pos, newKinds, nv, newOutputs, base, k)
      {
        RunStep(base, k, ov, nv);
        k := k + 1;
      }
      forall j | 0 <= j < |pos|
        ensures EvalSig(newKinds, nv, newOutputs[base + j]) == (Eval(kinds, ov, pos[j].node) != pos[j].compl)
      {
        assert OutputOk(kinds, ov, pos, newKinds, nv, newOutputs, base, j);
      }
    }
  }
}
