// The depth view: the level of every node of an and-inverter graph and the
// depth of the network. A constant or primary input has level 0; a gate's
// level is the largest level of its fanins (one more through a complemented
// fanin when complemented edges are counted) plus the node's cost. The
// depth is the largest such level over the primary outputs. Levels are
// computed by a depth-first traversal memoised by the traversal id.
module DepthView {
  import opened AigGraph

  function Max(a: nat, b: nat): (r: nat)
    ensures r >= a && r >= b && (r == a || r == b)
  {
    if a >= b then a else b
  }

  /** The extra level a complemented edge costs when complements are counted. */
  function Bump(cc: bool, e: Edge): nat {
    if cc && e.compl then 1 else 0
  }

  /** The level of node n, by its definition. */
  function Level(kinds: seq<Kind>, cost: seq<nat>, cc: bool, n: nat): nat
    requires Topological(kinds) && |cost| == |kinds| && n < |kinds|
    decreases n
  {
    match kinds[n]
    case Const => 0
    case Pi => 0
    case And(f0, f1) =>
      Max(Level(kinds, cost, cc, f0.node) + Bump(cc, f0), Level(kinds, cost, cc, f1.node) + Bump(cc, f1)) + cost[n]
  }

  /** The level an output edge contributes to the depth. */
  function EdgeLevel(kinds: seq<Kind>, cost: seq<nat>, cc: bool, e: Edge): nat
    requires Topological(kinds) && |cost| == |kinds| && e.node < |kinds|
  {
    Level(kinds, cost, cc, e.node) + Bump(cc, e)
  }

  predicate OutputsIn(pos: seq<Edge>, size: nat) {
    forall i :: 0 <= i < |pos| ==> pos[i].node < size
  }

  /** The depth over the first k outputs. */
  function Depth(kinds: seq<Kind>, cost: seq<nat>, cc: bool, pos: seq<Edge>, k: nat): nat
    requires Topological(kinds) && |cost| == |kinds| && OutputsIn(pos, |kinds|) && k <= |pos|
  {
    if k == 0 then 0 else Max(Depth(kinds, cost, cc, pos, k - 1), EdgeLevel(kinds, cost, cc, pos[k - 1]))
  }

  /** The depth is the largest output level: it bounds every output, is reached by one, and is 0 without outputs. */
  lemma {:induction false} DepthIsMax(kinds: seq<Kind>, cost: seq<nat>, cc: bool, pos: seq<Edge>, k: nat)
    requires Topological(kinds) && |cost| == |kinds| && OutputsIn(pos, |kinds|) && k <= |pos|
    ensures forall i :: 0 <= i < k ==> EdgeLevel(kinds, cost, cc, pos[i]) <= Depth(kinds, cost, cc, pos, k)
    ensures k == 0 ==> Depth(kinds, cost, cc, pos, k) == 0
    ensures k > 0 ==> exists i :: 0 <= i < k && Depth(kinds, cost, cc, pos, k) == EdgeLevel(kinds, cost, cc, pos[i])
  {
    if k > 0 {
      DepthIsMax(kinds, cost, cc, pos, k - 1);
      if k - 1 > 0 && Depth(kinds, cost, cc, pos, k) == Depth(kinds, cost, cc, pos, k - 1) {
        var i :| 0 <= i < k - 1 && Depth(kinds, cost, cc, pos, k - 1) == EdgeLevel(kinds, cost, cc, pos[i]);
      }
    }
  }

  /** A gate of positive cost lies strictly above each of its fanins. */
  lemma LevelAboveFanins(kinds: seq<Kind>, cost: seq<nat>, cc: bool, n: nat)
    requires Topological(kinds) && |cost| == |kinds| && n < |kinds| && kinds[n].And? && cost[n] > 0
    ensures Level(kinds, cost, cc, kinds[n].f0.node) < Level(kinds, cost, cc, n)
    ensures Level(kinds, cost, cc, kinds[n].f1.node) < Level(kinds, cost, cc, n)
  {
  }

  /** With unit cost and complements not counted, a node's level never exceeds its index. */
  lemma {:induction false} UnitLevelBound(kinds: seq<Kind>, cost: seq<nat>, n: nat)
    requires Topological(kinds) && |cost| == |kinds| && n < |kinds|
    requires forall m :: 0 <= m < |cost| ==> cost[m] == 1
    ensures Level(kinds, cost, false, n) <= n
  {
    match kinds[n]
    case Const =>
    case Pi =>
    case And(f0, f1) =>
      UnitLevelBound(kinds, cost, f0.node);
      UnitLevelBound(kinds, cost, f1.node);
  }

  /** Appending a node leaves the levels of the existing nodes unchanged. */
  lemma {:induction false} LevelAppend(kinds: seq<Kind>, cost: seq<nat>, cc: bool, k: Kind, c: nat, n: nat)
    requires Topological(kinds) && Topological(kinds + [k]) && |cost| == |kinds| && n < |kinds|
    ensures Level(kinds + [k], cost + [c], cc, n) == Level(kinds, cost, cc, n)
  {
    assert (kinds + [k])[n] == kinds[n];
    assert (cost + [c])[n] == cost[n];
    match kinds[n]
    case Const =>
    case Pi =>
    case And(f0, f1) =>
      LevelAppend(kinds, cost, cc, k, c, f0.node);
      LevelAppend(kinds, cost, cc, k, c, f1.node);
  }

  /**
   * Appending a gate with the level computed from the stored fanin levels:
   * it is exact when both fanins' stored levels are, and the stored levels
   * that were exact stay exact.
   */
  lemma AppendAccurate(kinds: seq<Kind>, cost: seq<nat>, levels: seq<nat>, cc: bool, f0: Edge, f1: Edge, c: nat)
    requires Topological(kinds) && Topological(kinds + [And(f0, f1)]) && |cost| == |kinds| && |levels| == |kinds|
    requires f0.node < |kinds| && f1.node < |kinds|
    ensures levels[f0.node] == Level(kinds, cost, cc, f0.node) && levels[f1.node] == Level(kinds, cost, cc, f1.node) ==>
      Max(levels[f0.node] + Bump(cc, f0), levels[f1.node] + Bump(cc, f1)) + c == Level(kinds + [And(f0, f1)], cost + [c], cc, |kinds|)
    ensures forall m :: 0 <= m < |kinds| ==> Level(kinds + [And(f0, f1)], cost + [c], cc, m) == Level(kinds, cost, cc, m)
  {
    LevelOfNew(kinds, cost, cc, f0, f1, c);
    forall m | 0 <= m < |kinds|
      ensures Level(kinds + [And(f0, f1)], cost + [c], cc, m) == Level(kinds, cost, cc, m)
    {
      LevelAppend(kinds, cost, cc, And(f0, f1), c, m);
    }
  }

  /** The level of a gate appended for f0 and f1 is computed from the fanins' levels in the old network. */
  lemma LevelOfNew(kinds: seq<Kind>, cost: seq<nat>, cc: bool, f0: Edge, f1: Edge, c: nat)
    requires Topological(kinds) && Topological(kinds + [And(f0, f1)]) && |cost| == |kinds|
    requires f0.node < |kinds| && f1.node < |kinds|
    ensures Level(kinds + [And(f0, f1)], cost + [c], cc, |kinds|)
         == Max(Level(kinds, cost, cc, f0.node) + Bump(cc, f0), Level(kinds, cost, cc, f1.node) + Bump(cc, f1)) + c
  {
    var k', c' := kinds + [And(f0, f1)], cost + [c];
    assert k'[|kinds|] == And(f0, f1) && c'[|kinds|] == c;
    LevelAnd(k', c', cc, |kinds|);
    LevelAppend(kinds, cost, cc, And(f0, f1), c, f0.node);
    LevelAppend(kinds, cost, cc, And(f0, f1), c, f1.node);
  }

  /** One unfolding of the level of a gate. */
  lemma LevelAnd(kinds: seq<Kind>, cost: seq<nat>, cc: bool, n: nat)
    requires Topological(kinds) && |cost| == |kinds| && n < |kinds| && kinds[n].And?
    ensures Level(kinds, cost, cc, n)
         == Max(Level(kinds, cost, cc, kinds[n].f0.node) + Bump(cc, kinds[n].f0),
                Level(kinds, cost, cc, kinds[n].f1.node) + Bump(cc, kinds[n].f1)) + cost[n]
  {
  }

  /**
   * The balanced four-input AND: inputs 1 to 4, gates 5 = 1 & 2, 6 = 3 & 4
   * and 7 = 5 & 6 under unit cost have levels 1, 1 and 2, and depth 2.
   */
  lemma BalancedAnd4Levels()
    ensures var kinds := [Const, Pi, Pi, Pi, Pi,
                          And(Edge(1, false), Edge(2, false)), And(Edge(3, false), Edge(4, false)),
                          And(Edge(5, false), Edge(6, false))];
            var cost := [1, 1, 1, 1, 1, 1, 1, 1];
            Topological(kinds)
            && Level(kinds, cost, false, 0) == 0 && Level(kinds, cost, false, 4) == 0
            && Level(kinds, cost, false, 5) == 1 && Level(kinds, cost, false, 6) == 1
            && Level(kinds, cost, false, 7) == 2
            && Depth(kinds, cost, false, [Edge(7, false)], 1) == 2
  {
    var kinds := [Const, Pi, Pi, Pi, Pi,
                  And(Edge(1, false), Edge(2, false)), And(Edge(3, false), Edge(4, false)),
                  And(Edge(5, false), Edge(6, false))];
    var cost := [1, 1, 1, 1, 1, 1, 1, 1];
    assert Topological(kinds);
    assert Level(kinds, cost, false, 1) == 0 && Level(kinds, cost, false, 2) == 0;
    assert Level(kinds, cost, false, 3) == 0 && Level(kinds, cost, false, 4) == 0;
    assert Level(kinds, cost, false, 5) == 1;
    assert Level(kinds, cost, false, 6) == 1;
  }

  /** The number of nodes m < k carrying traversal mark t. */
  function CountMarked(visited: seq<nat>, t: nat, k: nat): nat
    requires k <= |visited|
  {
    if k == 0 then 0 else CountMarked(visited, t, k - 1) + (if visited[k - 1] == t then 1 else 0)
  }

  lemma {:induction false} CountMarkedUpdate(visited: seq<nat>, t: nat, k: nat, n: nat)
    requires k <= |visited| && n < |visited| && visited[n] != t
    ensures CountMarked(visited[n := t], t, k) == CountMarked(visited, t, k) + (if n < k then 1 else 0)
  {
    if k > 0 {
      CountMarkedUpdate(visited, t, k - 1, n);
    }
  }

  lemma {:induction false} CountMarkedNone(visited: seq<nat>, t: nat, k: nat)
    requires k <= |visited| && forall m :: 0 <= m < k ==> visited[m] < t
    ensures CountMarked(visited, t, k) == 0
  {
    if k > 0 {
      CountMarkedNone(visited, t, k - 1);
    }
  }

  lemma {:induction false} CountMarkedBound(visited: seq<nat>, t: nat, k: nat)
    requires k <= |visited|
    ensures CountMarked(visited, t, k) <= k
  {
    if k > 0 {
      CountMarkedBound(visited, t, k - 1);
    }
  }

  /**
   * An and-inverter graph seen through its depth view: the network's nodes,
   * outputs and traversal marks together with the levels and the depth.
   */
  class View {
    /** The network's nodes; gate fanins point to earlier nodes. */
    var kinds: seq<Kind>
    /** The cost function's value for each node (1 under unit cost). */
    var cost: seq<nat>
    /** The primary outputs. */
    var pos: seq<Edge>
    /** count_complements. */
    const cc: bool
    /** _levels. */
    var levels: seq<nat>
    /** The network's visited mark of each node. */
    var visited: seq<nat>
    /** The network's traversal id. */
    var travId: nat
    /** _depth. */
    var depth: nat
    /** The number of level computations in the current traversal. */
    ghost var evals: nat

    /** The shape every operation keeps. */
    ghost predicate Shape()
      reads this
    {
      |cost| == |kinds| && |levels| == |kinds| && |visited| == |kinds|
      && Topological(kinds) && OutputsIn(pos, |kinds|)
      && forall m :: 0 <= m < |visited| ==> visited[m] <= travId
    }

    /** Node m's stored level is its defined level. */
    ghost predicate Accurate(m: nat)
      reads this
      requires Shape() && m < |kinds|
    {
      levels[m] == Level(kinds, cost, cc, m)
    }

    /** Every node below lim marked in the current traversal has its level stored. */
    ghost predicate MemoBelow(lim: nat)
      reads this
      requires Shape()
    {
      forall m :: 0 <= m < lim && m < |kinds| && visited[m] == travId ==> Accurate(m)
    }

    /** A view of the network: every node unmarked, then update_levels. */
    constructor(kinds: seq<Kind>, cost: seq<nat>, pos: seq<Edge>, cc: bool)
      requires Topological(kinds) && |cost| == |kinds| && OutputsIn(pos, |kinds|)
      ensures Shape() && this.kinds == kinds && this.cost == cost && this.pos == pos && this.cc == cc
      ensures MemoBelow(|kinds|) && depth == Depth(kinds, cost, cc, pos, |pos|)
      ensures forall i :: 0 <= i < |pos| ==> visited[pos[i].node] == travId
    {
      this.kinds := kinds;
      this.cost := cost;
      this.pos := pos;
      this.cc := cc;
      levels := seq(|kinds|, _ => 0);
      visited := seq(|kinds|, _ => 0);
      travId := 0;
      depth := 0;
      evals := 0;
      new;
      UpdateLevels();
    }

    /**
     * update_levels: levels reset to 0, a new traversal id, then the levels
     * of the outputs' cones and the depth. Marked nodes hold their levels,
     * the others stay at 0, and no node was computed twice.
     */
    method UpdateLevels()
      requires Shape()
      modifies this
      ensures Shape() && kinds == old(kinds) && cost == old(cost) && pos == old(pos)
      ensures travId == old(travId) + 1
      ensures MemoBelow(|kinds|) && depth == Depth(kinds, cost, cc, pos, |pos|)
      ensures forall i :: 0 <= i < |pos| ==> visited[pos[i].node] == travId
      ensures forall m :: 0 <= m < |kinds| && visited[m] != travId ==> levels[m] == 0
      ensures evals == CountMarked(visited, travId, |kinds|) <= |kinds|
    {
      levels := seq(|kinds|, _ => 0);
      travId := travId + 1;
      evals := 0;
      CountMarkedNone(visited, travId, |kinds|);
      ComputeLevels();
      CountMarkedBound(visited, travId, |kinds|);
    }

    /** The state of compute_levels() after the first i outputs. */
    ghost predicate OutputsDone(i: nat)
      reads this
    {
      Shape() && i <= |pos| && MemoBelow(|kinds|) && evals == CountMarked(visited, travId, |kinds|)
      && depth == Depth(kinds, cost, cc, pos, i)
      && (forall j :: 0 <= j < i ==> visited[pos[j].node] == travId)
      && forall m :: 0 <= m < |kinds| && visited[m] != travId ==> levels[m] == 0
    }

    /** compute_levels(): the depth as the largest output level. */
    method ComputeLevels()
      requires Shape() && MemoBelow(|kinds|) && evals == CountMarked(visited, travId, |kinds|)
      requires forall m :: 0 <= m < |kinds| && visited[m] != travId ==> levels[m] == 0
      modifies this
      ensures kinds == old(kinds) && cost == old(cost) && pos == old(pos) && travId == old(travId)
      ensures OutputsDone(|pos|)
    {
      depth := 0;
      var i := 0;
      while i < |pos|
        invariant kinds == old(kinds) && cost == old(cost) && pos == old(pos) && travId == old(travId)
        invariant OutputsDone(i)
      {
        AddOutput(i);
        i := i + 1;
      }
    }

    /** One output of compute_levels(): its cone's levels, then the depth raised to its level. */
    method AddOutput(i: nat)
      requires OutputsDone(i) && i < |pos|
      modifies this
      ensures kinds == old(kinds) && cost == old(cost) && pos == old(pos) && travId == old(travId)
      ensures OutputsDone(i + 1)
    {
      var clevel := ComputeLevelsAt(pos[i].node);
      if cc && pos[i].compl {
        clevel := clevel + 1;
      }
      depth := Max(depth, clevel);
    }

    /**
     * compute_levels(n): n's level, computed once per traversal. Only nodes
     * up to n that were not yet marked are marked and given their levels.
     */
    method ComputeLevelsAt(n: nat) returns (r: nat)
      requires Shape() && n < |kinds| && MemoBelow(n + 1)
      requires evals == CountMarked(visited, travId, |kinds|)
      modifies this
      decreases n, 1
      ensures Shape() && kinds == old(kinds) && cost == old(cost) && pos == old(pos)
      ensures travId == old(travId) && depth == old(depth)
      ensures visited[n] == travId && levels[n] == r && r == Level(kinds, cost, cc, n)
      ensures MemoBelow(n + 1) && evals == CountMarked(visited, travId, |kinds|)
      ensures forall m :: 0 <= m < |kinds| && (n < m || old(visited[m]) == travId || visited[m] != travId) ==>
        visited[m] == old(visited[m]) && levels[m] == old(levels[m])
    {
      if visited[n] == travId {
        return levels[n];
      }
      CountMarkedUpdate(visited, travId, |kinds|, n);
      visited := visited[n := travId];
      evals := evals + 1;
      if kinds[n].And? {
        r := ComputeGateLevel(n);
      } else {
        r := 0;
        levels := levels[n := r];
      }
    }

    /** The gate case of compute_levels(n), n already marked: the largest fanin level plus n's cost. */
    method ComputeGateLevel(n: nat) returns (r: nat)
      requires Shape() && n < |kinds| && kinds[n].And? && visited[n] == travId && MemoBelow(n)
      requires evals == CountMarked(visited, travId, |kinds|)
      modifies this
      decreases n, 0
      ensures Shape() && kinds == old(kinds) && cost == old(cost) && pos == old(pos)
      ensures travId == old(travId) && depth == old(depth)
      ensures visited[n] == travId && levels[n] == r && r == Level(kinds, cost, cc, n)
      ensures MemoBelow(n + 1) && evals == CountMarked(visited, travId, |kinds|)
      ensures forall m :: 0 <= m < |kinds| && m != n && (n < m || old(visited[m]) == travId || visited[m] != travId) ==>
        visited[m] == old(visited[m]) && levels[m] == old(levels[m])
    {
      var f0, f1 := kinds[n].f0, kinds[n].f1;
      var level := 0;
      var c0 := ComputeLevelsAt(f0.node);
      if cc && f0.compl {
        c0 := c0 + 1;
      }
      level := Max(level, c0);
      var c1 := ComputeLevelsAt(f1.node);
      if cc && f1.compl {
        c1 := c1 + 1;
      }
      level := Max(level, c1);
      r := level + cost[n];
      levels := levels[n := r];
    }

    /**
     * create_po through the view: the output is added and the depth raised
     * to at least the driver's stored level (without the complement bump).
     * When the depth and the driver's level were exact and the bump does
     * not apply, the depth stays exact.
     */
    method CreatePo(f: Edge) returns (index: nat)
      requires Shape() && f.node < |kinds|
      modifies this
      ensures Shape() && kinds == old(kinds) && cost == old(cost) && levels == old(levels)
      ensures visited == old(visited) && travId == old(travId)
      ensures pos == old(pos) + [f] && index == |old(pos)|
      ensures depth == Max(old(depth), levels[f.node])
      ensures old(depth) == Depth(kinds, cost, cc, old(pos), |old(pos)|) && Accurate(f.node) && Bump(cc, f) == 0 ==>
        depth == Depth(kinds, cost, cc, pos, |pos|)
    {
      index := |pos|;
      pos := pos + [f];
      depth := Max(depth, levels[f.node]);
      assert forall k :: 0 <= k <= |old(pos)| ==>
        Depth(kinds, cost, cc, pos, k) == Depth(kinds, cost, cc, old(pos), k) by {
        forall k | 0 <= k <= |old(pos)|
          ensures Depth(kinds, cost, cc, pos, k) == Depth(kinds, cost, cc, old(pos), k)
        {
          DepthPrefix(kinds, cost, cc, old(pos), [f], k);
        }
      }
    }

    /**
     * A gate added to the network (fanins f0, f1, cost c) and on_add: its
     * level is the largest stored fanin level, with the complement bump,
     * plus c. It is exact when both fanins' levels are, and the exact
     * levels of the other nodes stay exact.
     */
    method AddAnd(f0: Edge, f1: Edge, c: nat) returns (n: nat)
      requires Shape() && f0.node < |kinds| && f1.node < |kinds| && travId > 0
      modifies this
      ensures Shape() && n == |old(kinds)|
      ensures kinds == old(kinds) + [And(f0, f1)] && cost == old(cost) + [c] && visited == old(visited) + [0]
      ensures pos == old(pos) && travId == old(travId) && depth == old(depth)
      ensures levels == old(levels) + [Max(old(levels)[f0.node] + Bump(cc, f0), old(levels)[f1.node] + Bump(cc, f1)) + c]
      ensures old(Accurate(f0.node)) && old(Accurate(f1.node)) ==> Accurate(n)
      ensures forall m :: 0 <= m < n && old(Accurate(m)) ==> Accurate(m)
      ensures old(MemoBelow(|kinds|)) ==> MemoBelow(|kinds|)
    {
      n := |kinds|;
      ghost var k0, c0 := kinds, cost;
      kinds := kinds + [And(f0, f1)];
      cost := cost + [c];
      visited := visited + [0];
      var level := 0;
      var l0 := levels[f0.node];
      if cc && f0.compl {
        l0 := l0 + 1;
      }
      level := Max(level, l0);
      var l1 := levels[f1.node];
      if cc && f1.compl {
        l1 := l1 + 1;
      }
      level := Max(level, l1);
      ghost var lv := levels;
      assert level == Max(lv[f0.node] + Bump(cc, f0), lv[f1.node] + Bump(cc, f1));
      levels := levels + [level + c];
      AppendAccurate(k0, c0, lv, cc, f0, f1, c);
    }

    /** level(n). */
    function LevelOf(n: nat): (r: nat)
      reads this
      requires Shape() && n < |kinds|
      ensures MemoBelow(|kinds|) && visited[n] == travId ==> r == Level(kinds, cost, cc, n)
    {
      levels[n]
    }

    /** depth(). */
    function DepthOf(): (r: nat)
      reads this
      ensures r == depth
    {
      depth
    }
  }

  /** Extending the outputs leaves the depth over the first k outputs alone. */
  lemma {:induction false} DepthPrefix(kinds: seq<Kind>, cost: seq<nat>, cc: bool, pos: seq<Edge>, more: seq<Edge>, k: nat)
    requires Topological(kinds) && |cost| == |kinds| && OutputsIn(pos + more, |kinds|) && k <= |pos|
    ensures OutputsIn(pos, |kinds|)
    ensures Depth(kinds, cost, cc, pos + more, k) == Depth(kinds, cost, cc, pos, k)
  {
    assert forall i :: 0 <= i < |pos| ==> (pos + more)[i] == pos[i];
    if k > 0 {
      DepthPrefix(kinds, cost, cc, pos, more, k - 1);
    }
  }
}
