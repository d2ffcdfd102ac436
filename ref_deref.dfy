// Reference counting over the maximum fanout-free cone (MFFC) of a node.
// Every node carries a 32-bit value counter. Dereferencing a node adds its
// cost and decrements each fanin's counter, descending into a fanin whose
// counter reaches 0; referencing increments instead, descending into a
// fanin whose counter was 0. Terminal nodes (by default the constant and
// the primary inputs) contribute 0 and are not descended into.
module RefDeref {
  import opened AigGraph

  const Word32: nat := 0x1_0000_0000

  /** The counter after a 32-bit decrement (0 wraps to the largest value). */
  function Dec(v: nat): nat {
    (v + Word32 - 1) % Word32
  }

  /** The counter after a 32-bit increment (the largest value wraps to 0). */
  function Inc(v: nat): nat {
    (v + 1) % Word32
  }

  lemma IncDec(v: nat)
    requires v < Word32
    ensures Inc(Dec(v)) == v && Dec(Inc(v)) == v
    ensures Dec(v) == 0 <==> v == 1
    ensures Inc(v) < Word32 && Dec(v) < Word32
  {
  }

  /** Every counter fits in 32 bits. */
  predicate Bounded(c: seq<nat>) {
    forall i :: 0 <= i < |c| ==> c[i] < Word32
  }

  /** The network's nodes, the cost function's values and the termination condition. */
  datatype Ctx = Ctx(kinds: seq<Kind>, cost: seq<nat>, term: seq<bool>) {
    predicate Ok() {
      Topological(kinds) && |cost| == |kinds| && |term| == |kinds|
    }
  }

  /** The default termination condition: the constant and the primary inputs. */
  function InputTerm(kinds: seq<Kind>): (r: seq<bool>)
    ensures |r| == |kinds| && forall n :: 0 <= n < |kinds| ==> (r[n] <==> !kinds[n].And?)
  {
    seq(|kinds|, n requires 0 <= n < |kinds| => !kinds[n].And?)
  }

  /** deref_node_recursive_cond on counters c: the value and the counters afterwards. */
  function Deref(g: Ctx, c: seq<nat>, n: nat): (r: (nat, seq<nat>))
    requires g.Ok() && |c| == |g.kinds| && n < |c|
    ensures |r.1| == |c|
    decreases n, 0
  {
    if g.term[n] then (0, c)
    else match g.kinds[n]
      case And(f0, f1) =>
        var (v0, c1) := DerefEdge(g, c, f0.node);
        var (v1, c2) := DerefEdge(g, c1, f1.node);
        (g.cost[n] + v0 + v1, c2)
      case _ => (g.cost[n], c)
  }

  /** One fanin edge of a dereference: m's counter is decremented, and m dereferenced when it reaches 0. */
  function DerefEdge(g: Ctx, c: seq<nat>, m: nat): (r: (nat, seq<nat>))
    requires g.Ok() && |c| == |g.kinds| && m < |c|
    ensures |r.1| == |c|
    decreases m, 1
  {
    var c1 := c[m := Dec(c[m])];
    if c1[m] == 0 then Deref(g, c1, m) else (0, c1)
  }

  /** ref_node_recursive_cond on counters c: the value and the counters afterwards. */
  function Ref(g: Ctx, c: seq<nat>, n: nat): (r: (nat, seq<nat>))
    requires g.Ok() && |c| == |g.kinds| && n < |c|
    ensures |r.1| == |c|
    decreases n, 0
  {
    if g.term[n] then (0, c)
    else match g.kinds[n]
      case And(f0, f1) =>
        var (v0, c1) := RefEdge(g, c, f0.node);
        var (v1, c2) := RefEdge(g, c1, f1.node);
        (g.cost[n] + v0 + v1, c2)
      case _ => (g.cost[n], c)
  }

  /** One fanin edge of a reference: m's counter is incremented, and m referenced when it was 0. */
  function RefEdge(g: Ctx, c: seq<nat>, m: nat): (r: (nat, seq<nat>))
    requires g.Ok() && |c| == |g.kinds| && m < |c|
    ensures |r.1| == |c|
    decreases m, 1
  {
    var c1 := c[m := Inc(c[m])];
    if c[m] == 0 then Ref(g, c1, m) else (0, c1)
  }

  // ---------------------------------------------------------------------
  // Frames: a traversal from n touches only counters below n, and reads
  // no counter above it.

  lemma {:induction false} DerefFrame(g: Ctx, c: seq<nat>, n: nat)
    requires g.Ok() && |c| == |g.kinds| && n < |c|
    ensures forall k :: n <= k < |c| ==> Deref(g, c, n).1[k] == c[k]
    ensures Bounded(c) ==> Bounded(Deref(g, c, n).1)
    decreases n, 0
  {
    if !g.term[n] && g.kinds[n].And? {
      var f0, f1 := g.kinds[n].f0, g.kinds[n].f1;
      DerefEdgeFrame(g, c, f0.node);
      DerefEdgeFrame(g, DerefEdge(g, c, f0.node).1, f1.node);
    }
  }

  lemma {:induction false} DerefEdgeFrame(g: Ctx, c: seq<nat>, m: nat)
    requires g.Ok() && |c| == |g.kinds| && m < |c|
    ensures forall k :: m < k < |c| ==> DerefEdge(g, c, m).1[k] == c[k]
    ensures Bounded(c) ==> Bounded(DerefEdge(g, c, m).1)
    decreases m, 1
  {
    var c1 := c[m := Dec(c[m])];
    if c1[m] == 0 {
      DerefFrame(g, c1, m);
    }
  }

  lemma {:induction false} RefFrame(g: Ctx, c: seq<nat>, n: nat)
    requires g.Ok() && |c| == |g.kinds| && n < |c|
    ensures forall k :: n <= k < |c| ==> Ref(g, c, n).1[k] == c[k]
    ensures Bounded(c) ==> Bounded(Ref(g, c, n).1)
    decreases n, 0
  {
    if !g.term[n] && g.kinds[n].And? {
      var f0, f1 := g.kinds[n].f0, g.kinds[n].f1;
      RefEdgeFrame(g, c, f0.node);
      RefEdgeFrame(g, RefEdge(g, c, f0.node).1, f1.node);
    }
  }

  lemma {:induction false} RefEdgeFrame(g: Ctx, c: seq<nat>, m: nat)
    requires g.Ok() && |c| == |g.kinds| && m < |c|
    ensures forall k :: m < k < |c| ==> RefEdge(g, c, m).1[k] == c[k]
    ensures Bounded(c) ==> Bounded(RefEdge(g, c, m).1)
    decreases m, 1
  {
    var c1 := c[m := Inc(c[m])];
    if c[m] == 0 {
      RefFrame(g, c1, m);
    }
  }

  /** A counter above n set beforehand is simply carried through a dereference of n. */
  lemma {:induction false} DerefLocal(g: Ctx, c: seq<nat>, n: nat, k: nat, x: nat)
    requires g.Ok() && |c| == |g.kinds| && n < k < |c|
    ensures Deref(g, c[k := x], n) == (Deref(g, c, n).0, Deref(g, c, n).1[k := x])
    decreases n, 0
  {
    if !g.term[n] && g.kinds[n].And? {
      var f0, f1 := g.kinds[n].f0, g.kinds[n].f1;
      DerefEdgeLocal(g, c, f0.node, k, x);
      DerefEdgeLocal(g, DerefEdge(g, c, f0.node).1, f1.node, k, x);
    }
  }

  lemma {:induction false} DerefEdgeLocal(g: Ctx, c: seq<nat>, m: nat, k: nat, x: nat)
    requires g.Ok() && |c| == |g.kinds| && m < k < |c|
    ensures DerefEdge(g, c[k := x], m) == (DerefEdge(g, c, m).0, DerefEdge(g, c, m).1[k := x])
    decreases m, 1
  {
    var c1 := c[m := Dec(c[m])];
    assert c[k := x][m := Dec(c[m])] == c1[k := x];
    if c1[m] == 0 {
      DerefLocal(g, c1, m, k, x);
    }
  }

  lemma {:induction false} RefLocal(g: Ctx, c: seq<nat>, n: nat, k: nat, x: nat)
    requires g.Ok() && |c| == |g.kinds| && n < k < |c|
    ensures Ref(g, c[k := x], n) == (Ref(g, c, n).0, Ref(g, c, n).1[k := x])
    decreases n, 0
  {
    if !g.term[n] && g.kinds[n].And? {
      var f0, f1 := g.kinds[n].f0, g.kinds[n].f1;
      RefEdgeLocal(g, c, f0.node, k, x);
      RefEdgeLocal(g, RefEdge(g, c, f0.node).1, f1.node, k, x);
    }
  }

  lemma {:induction false} RefEdgeLocal(g: Ctx, c: seq<nat>, m: nat, k: nat, x: nat)
    requires g.Ok() && |c| == |g.kinds| && m < k < |c|
    ensures RefEdge(g, c[k := x], m) == (RefEdge(g, c, m).0, RefEdge(g, c, m).1[k := x])
    decreases m, 1
  {
    var c1 := c[m := Inc(c[m])];
    assert c[k := x][m := Inc(c[m])] == c1[k := x];
    if c[m] == 0 {
      RefLocal(g, c1, m, k, x);
    }
  }

  // ---------------------------------------------------------------------
  // Order independence: two fanin edges may be processed in either order.

  function MaxOf(a: nat, b: nat): nat {
    if a >= b then a else b
  }

  lemma {:induction false} DerefEdgeCommute(g: Ctx, c: seq<nat>, a: nat, b: nat)
    requires g.Ok() && |c| == |g.kinds| && a < |c| && b < |c|
    ensures DerefEdge(g, DerefEdge(g, c, a).1, b).1 == DerefEdge(g, DerefEdge(g, c, b).1, a).1
    ensures DerefEdge(g, c, a).0 + DerefEdge(g, DerefEdge(g, c, a).1, b).0
         == DerefEdge(g, c, b).0 + DerefEdge(g, DerefEdge(g, c, b).1, a).0
    decreases MaxOf(a, b), if a < b then 1 else 0
  {
    if a == b {
    } else if a < b {
      DerefEdgeCommute(g, c, b, a);
    } else {
      var d := Dec(c[a]);
      var ca := c[a := d];
      var cb := DerefEdge(g, c, b).1;
      DerefEdgeFrame(g, c, b);
      DerefEdgeLocal(g, c, b, a, d);
      assert cb[a := d] == DerefEdge(g, ca, b).1;
      if d == 0 && !g.term[a] && g.kinds[a].And? {
        var a0, a1 := g.kinds[a].f0.node, g.kinds[a].f1.node;
        var c2 := DerefEdge(g, ca, a0).1;
        DerefEdgeCommute(g, ca, a0, b);
        DerefEdgeCommute(g, c2, a1, b);
      }
    }
  }

  lemma {:induction false} RefEdgeCommute(g: Ctx, c: seq<nat>, a: nat, b: nat)
    requires g.Ok() && |c| == |g.kinds| && a < |c| && b < |c|
    ensures RefEdge(g, RefEdge(g, c, a).1, b).1 == RefEdge(g, RefEdge(g, c, b).1, a).1
    ensures RefEdge(g, c, a).0 + RefEdge(g, RefEdge(g, c, a).1, b).0
         == RefEdge(g, c, b).0 + RefEdge(g, RefEdge(g, c, b).1, a).0
    decreases MaxOf(a, b), if a < b then 1 else 0
  {
    if a == b {
    } else if a < b {
      RefEdgeCommute(g, c, b, a);
    } else {
      var i := Inc(c[a]);
      var ca := c[a := i];
      var cb := RefEdge(g, c, b).1;
      RefEdgeFrame(g, c, b);
      RefEdgeLocal(g, c, b, a, i);
      assert cb[a := i] == RefEdge(g, ca, b).1;
      if c[a] == 0 && !g.term[a] && g.kinds[a].And? {
        var a0, a1 := g.kinds[a].f0.node, g.kinds[a].f1.node;
        var c2 := RefEdge(g, ca, a0).1;
        RefEdgeCommute(g, ca, a0, b);
        RefEdgeCommute(g, c2, a1, b);
      }
    }
  }

  // ---------------------------------------------------------------------
  // Inverses: referencing undoes a dereference and the other way round.

  /** Decrementing edge m (and freeing what it frees) then incrementing it restores the counters and gives the same value. */
  lemma {:induction false} DerefThenRefEdge(g: Ctx, c: seq<nat>, m: nat)
    requires g.Ok() && |c| == |g.kinds| && m < |c| && Bounded(c)
    ensures RefEdge(g, DerefEdge(g, c, m).1, m) == (DerefEdge(g, c, m).0, c)
    decreases m
  {
    var d := Dec(c[m]);
    var c1 := c[m := d];
    IncDec(c[m]);
    if d != 0 {
      assert c1[m := Inc(d)] == c;
    } else {
      assert c1[m := 1] == c;
      if !g.term[m] && g.kinds[m].And? {
        var m0, m1 := g.kinds[m].f0.node, g.kinds[m].f1.node;
        var c2 := DerefEdge(g, c1, m0).1;
        var c3 := DerefEdge(g, c2, m1).1;
        DerefEdgeFrame(g, c1, m0);
        DerefEdgeFrame(g, c2, m1);
        assert c3[m] == 0;
        DerefEdgeLocal(g, c1, m0, m, 1);
        DerefEdgeLocal(g, c2, m1, m, 1);
        var y := DerefEdge(g, c, m0).1;
        assert y == c2[m := 1];
        var c4 := c3[m := 1];
        assert c4 == DerefEdge(g, y, m1).1;
        DerefEdgeFrame(g, c, m0);
        RefEdgeCommute(g, c4, m0, m1);
        DerefThenRefEdge(g, y, m1);
        DerefThenRefEdge(g, c, m0);
      }
    }
  }

  /** Incrementing edge m (and re-referencing what it frees) then decrementing it restores the counters and gives the same value. */
  lemma {:induction false} RefThenDerefEdge(g: Ctx, c: seq<nat>, m: nat)
    requires g.Ok() && |c| == |g.kinds| && m < |c| && Bounded(c)
    ensures DerefEdge(g, RefEdge(g, c, m).1, m) == (RefEdge(g, c, m).0, c)
    decreases m
  {
    var i := Inc(c[m]);
    var c1 := c[m := i];
    IncDec(c[m]);
    if c[m] != 0 {
      assert c1[m := Dec(i)] == c;
    } else {
      assert c1[m := 0] == c;
      if !g.term[m] && g.kinds[m].And? {
        var m0, m1 := g.kinds[m].f0.node, g.kinds[m].f1.node;
        var c2 := RefEdge(g, c1, m0).1;
        var c3 := RefEdge(g, c2, m1).1;
        RefEdgeFrame(g, c1, m0);
        RefEdgeFrame(g, c2, m1);
        assert c3[m] == 1;
        RefEdgeLocal(g, c1, m0, m, 0);
        RefEdgeLocal(g, c2, m1, m, 0);
        var y := RefEdge(g, c, m0).1;
        assert y == c2[m := 0];
        var c4 := c3[m := 0];
        assert c4 == RefEdge(g, y, m1).1;
        RefEdgeFrame(g, c, m0);
        DerefEdgeCommute(g, c4, m0, m1);
        RefThenDerefEdge(g, y, m1);
        RefThenDerefEdge(g, c, m0);
      }
    }
  }

  /** derefed_size: referencing n after dereferencing it gives the same value and restores every counter. */
  lemma DerefThenRef(g: Ctx, c: seq<nat>, n: nat)
    requires g.Ok() && |c| == |g.kinds| && n < |c| && Bounded(c)
    ensures Ref(g, Deref(g, c, n).1, n) == (Deref(g, c, n).0, c)
  {
    if !g.term[n] && g.kinds[n].And? {
      var f0, f1 := g.kinds[n].f0.node, g.kinds[n].f1.node;
      var c1 := DerefEdge(g, c, f0).1;
      var c2 := DerefEdge(g, c1, f1).1;
      DerefEdgeFrame(g, c, f0);
      RefEdgeCommute(g, c2, f0, f1);
      DerefThenRefEdge(g, c1, f1);
      DerefThenRefEdge(g, c, f0);
    }
  }

  /** refed_size: dereferencing n after referencing it gives the same value and restores every counter. */
  lemma RefThenDeref(g: Ctx, c: seq<nat>, n: nat)
    requires g.Ok() && |c| == |g.kinds| && n < |c| && Bounded(c)
    ensures Deref(g, Ref(g, c, n).1, n) == (Ref(g, c, n).0, c)
  {
    if !g.term[n] && g.kinds[n].And? {
      var f0, f1 := g.kinds[n].f0.node, g.kinds[n].f1.node;
      var c1 := RefEdge(g, c, f0).1;
      var c2 := RefEdge(g, c1, f1).1;
      RefEdgeFrame(g, c, f0);
      DerefEdgeCommute(g, c2, f0, f1);
      RefThenDerefEdge(g, c1, f1);
      RefThenDerefEdge(g, c, f0);
    }
  }

  // ---------------------------------------------------------------------
  // ref_node_recursive_contained: dereferences like deref_node_recursive on
  // the constant and the inputs, and reports whether replaced was met.

  /**
   * The traversal of ref_node_recursive_contained, each freed node adding
   * start to the value: the value, whether rep was met, the counters.
   */
  function Contained(kinds: seq<Kind>, c: seq<nat>, n: nat, rep: nat, start: nat): (r: (nat, bool, seq<nat>))
    requires Topological(kinds) && |c| == |kinds| && n < |c|
    ensures |r.2| == |c|
    decreases n, 0
  {
    if !kinds[n].And? then (0, false, c)
    else
      var f0, f1 := kinds[n].f0.node, kinds[n].f1.node;
      var (v0, b0, c1) := ContainedEdge(kinds, c, f0, rep, start);
      var (v1, b1, c2) := ContainedEdge(kinds, c1, f1, rep, start);
      (start + v0 + v1, n == rep || f0 == rep || b0 || f1 == rep || b1, c2)
  }

  function ContainedEdge(kinds: seq<Kind>, c: seq<nat>, m: nat, rep: nat, start: nat): (r: (nat, bool, seq<nat>))
    requires Topological(kinds) && |c| == |kinds| && m < |c|
    ensures |r.2| == |c|
    decreases m, 1
  {
    var c1 := c[m := Dec(c[m])];
    if c1[m] == 0 then Contained(kinds, c1, m, rep, start) else (0, false, c1)
  }

  /** The context of deref_node_recursive under unit cost. */
  function UnitCtx(kinds: seq<Kind>): (g: Ctx)
    requires Topological(kinds)
    ensures g.Ok() && g.kinds == kinds
  {
    Ctx(kinds, seq(|kinds|, _ => 1), InputTerm(kinds))
  }

  /**
   * As written, the value starts at 0 and each freed node adds nothing, so
   * the reported value is 0 for every node and every counter state.
   */
  lemma {:induction false} ContainedAsWrittenIsZero(kinds: seq<Kind>, c: seq<nat>, n: nat, rep: nat)
    requires Topological(kinds) && |c| == |kinds| && n < |c|
    ensures Contained(kinds, c, n, rep, 0).0 == 0
    decreases n, 0
  {
    if kinds[n].And? {
      var f0, f1 := kinds[n].f0.node, kinds[n].f1.node;
      ContainedEdgeAsWrittenIsZero(kinds, c, f0, rep);
      ContainedEdgeAsWrittenIsZero(kinds, ContainedEdge(kinds, c, f0, rep, 0).2, f1, rep);
    }
  }

  lemma {:induction false} ContainedEdgeAsWrittenIsZero(kinds: seq<Kind>, c: seq<nat>, m: nat, rep: nat)
    requires Topological(kinds) && |c| == |kinds| && m < |c|
    ensures ContainedEdge(kinds, c, m, rep, 0).0 == 0
    decreases m, 1
  {
    var c1 := c[m := Dec(c[m])];
    if c1[m] == 0 {
      ContainedAsWrittenIsZero(kinds, c1, m, rep);
    }
  }

  /** A gate whose MFFC is nonempty: node 2 = 1 & 1 over input 1, whose counter is 2. */
  lemma ContainedAsWrittenExample()
    ensures var kinds := [Const, Pi, And(Edge(1, false), Edge(1, true))];
            Topological(kinds)
            && Contained(kinds, [0, 2, 1], 2, 0, 0).0 == 0
            && Deref(UnitCtx(kinds), [0, 2, 1], 2).0 == 1
  {
    var kinds := [Const, Pi, And(Edge(1, false), Edge(1, true))];
    assert Topological(kinds);
    ContainedAsWrittenIsZero(kinds, [0, 2, 1], 2, 0);
    var g := UnitCtx(kinds);
    assert g.term[2] == false && g.term[1] && g.cost[2] == 1;
    assert Dec(2) == 1 && Dec(1) == 0;
    assert [0, 2, 1][1 := 1] == [0, 1, 1] && [0, 1, 1][1 := 0] == [0, 0, 1];
    assert DerefEdge(g, [0, 2, 1], 1) == (0, [0, 1, 1]);
    assert DerefEdge(g, [0, 1, 1], 1) == (0, [0, 0, 1]);
  }

  /**
   * With each freed node counting 1, the traversal is deref_node_recursive
   * under unit cost: the same value (the MFFC size) and the same counters.
   */
  lemma {:induction false} ContainedIsDeref(kinds: seq<Kind>, c: seq<nat>, n: nat, rep: nat)
    requires Topological(kinds) && |c| == |kinds| && n < |c|
    ensures Contained(kinds, c, n, rep, 1).0 == Deref(UnitCtx(kinds), c, n).0
    ensures Contained(kinds, c, n, rep, 1).2 == Deref(UnitCtx(kinds), c, n).1
    decreases n, 0
  {
    if kinds[n].And? {
      var f0, f1 := kinds[n].f0.node, kinds[n].f1.node;
      ContainedEdgeIsDerefEdge(kinds, c, f0, rep);
      ContainedEdgeIsDerefEdge(kinds, ContainedEdge(kinds, c, f0, rep, 1).2, f1, rep);
    }
  }

  lemma {:induction false} ContainedEdgeIsDerefEdge(kinds: seq<Kind>, c: seq<nat>, m: nat, rep: nat)
    requires Topological(kinds) && |c| == |kinds| && m < |c|
    ensures ContainedEdge(kinds, c, m, rep, 1).0 == DerefEdge(UnitCtx(kinds), c, m).0
    ensures ContainedEdge(kinds, c, m, rep, 1).2 == DerefEdge(UnitCtx(kinds), c, m).1
    decreases m, 1
  {
    var c1 := c[m := Dec(c[m])];
    if c1[m] == 0 {
      ContainedIsDeref(kinds, c1, m, rep);
    }
  }

  // ---------------------------------------------------------------------
  // The network's value counters and the recursive procedures over them.

  /** The per-node value counters of a network. */
  class Network {
    const kinds: seq<Kind>
    var values: seq<nat>

    ghost predicate Valid()
      reads this
    {
      Topological(kinds) && |values| == |kinds| && Bounded(values)
    }

    constructor(kinds: seq<Kind>)
      requires Topological(kinds)
      ensures Valid() && this.kinds == kinds && values == seq(|kinds|, _ => 0)
    {
      this.kinds := kinds;
      values := seq(|kinds|, _ => 0);
    }

    /** decr_value: the counter decremented (wrapping at 0), returning the new value. */
    method DecrValue(m: nat) returns (r: nat)
      requires Valid() && m < |kinds|
      modifies this
      ensures Valid() && values == old(values)[m := Dec(old(values)[m])] && r == values[m]
      ensures r == 0 <==> old(values)[m] == 1
    {
      IncDec(values[m]);
      values := values[m := Dec(values[m])];
      r := values[m];
    }

    /** incr_value: the counter incremented (wrapping at the top), returning the old value. */
    method IncrValue(m: nat) returns (r: nat)
      requires Valid() && m < |kinds|
      modifies this
      ensures Valid() && values == old(values)[m := Inc(old(values)[m])] && r == old(values)[m]
      ensures Dec(values[m]) == r
    {
      IncDec(values[m]);
      r := values[m];
      values := values[m := Inc(values[m])];
    }
  }

  /** deref_node_recursive_cond: the value and the counters are those of Deref. */
  method DerefNodeRecursiveCond(ntk: Network, cost: seq<nat>, term: seq<bool>, n: nat) returns (value: nat)
    requires ntk.Valid() && |cost| == |ntk.kinds| && |term| == |ntk.kinds| && n < |ntk.kinds|
    modifies ntk
    decreases n
    ensures ntk.Valid() && (value, ntk.values) == Deref(Ctx(ntk.kinds, cost, term), old(ntk.values), n)
  {
    if term[n] {
      return 0;
    }
    value := cost[n];
    if ntk.kinds[n].And? {
      ghost var g := Ctx(ntk.kinds, cost, term);
      var f0, f1 := ntk.kinds[n].f0.node, ntk.kinds[n].f1.node;
      ghost var c0 := ntk.values;
      var v0 := 0;
      var d := ntk.DecrValue(f0);
      if d == 0 {
        v0 := DerefNodeRecursiveCond(ntk, cost, term, f0);
      }
      assert (v0, ntk.values) == DerefEdge(g, c0, f0);
      ghost var c1 := ntk.values;
      var v1 := 0;
      d := ntk.DecrValue(f1);
      if d == 0 {
        v1 := DerefNodeRecursiveCond(ntk, cost, term, f1);
      }
      assert (v1, ntk.values) == DerefEdge(g, c1, f1);
      value := value + v0 + v1;
    }
  }

  /** ref_node_recursive_cond: the value and the counters are those of Ref. */
  method RefNodeRecursiveCond(ntk: Network, cost: seq<nat>, term: seq<bool>, n: nat) returns (value: nat)
    requires ntk.Valid() && |cost| == |ntk.kinds| && |term| == |ntk.kinds| && n < |ntk.kinds|
    modifies ntk
    decreases n
    ensures ntk.Valid() && (value, ntk.values) == Ref(Ctx(ntk.kinds, cost, term), old(ntk.values), n)
  {
    if term[n] {
      return 0;
    }
    value := cost[n];
    if ntk.kinds[n].And? {
      ghost var g := Ctx(ntk.kinds, cost, term);
      var f0, f1 := ntk.kinds[n].f0.node, ntk.kinds[n].f1.node;
      ghost var c0 := ntk.values;
      var v0 := 0;
      var o := ntk.IncrValue(f0);
      if o == 0 {
        v0 := RefNodeRecursiveCond(ntk, cost, term, f0);
      }
      assert (v0, ntk.values) == RefEdge(g, c0, f0);
      ghost var c1 := ntk.values;
      var v1 := 0;
      o := ntk.IncrValue(f1);
      if o == 0 {
        v1 := RefNodeRecursiveCond(ntk, cost, term, f1);
      }
      assert (v1, ntk.values) == RefEdge(g, c1, f1);
      value := value + v0 + v1;
    }
  }

  /** deref_node_recursive: the condition stops at the constant and the inputs. */
  method DerefNodeRecursive(ntk: Network, cost: seq<nat>, n: nat) returns (value: nat)
    requires ntk.Valid() && |cost| == |ntk.kinds| && n < |ntk.kinds|
    modifies ntk
    ensures ntk.Valid() && (value, ntk.values) == Deref(Ctx(ntk.kinds, cost, InputTerm(ntk.kinds)), old(ntk.values), n)
  {
    value := DerefNodeRecursiveCond(ntk, cost, InputTerm(ntk.kinds), n);
  }

  /** ref_node_recursive: the condition stops at the constant and the inputs. */
  method RefNodeRecursive(ntk: Network, cost: seq<nat>, n: nat) returns (value: nat)
    requires ntk.Valid() && |cost| == |ntk.kinds| && n < |ntk.kinds|
    modifies ntk
    ensures ntk.Valid() && (value, ntk.values) == Ref(Ctx(ntk.kinds, cost, InputTerm(ntk.kinds)), old(ntk.values), n)
  {
    value := RefNodeRecursiveCond(ntk, cost, InputTerm(ntk.kinds), n);
  }

  /** derefed_size: the MFFC value of n; the two traversals agree and every counter is restored. */
  method DerefedSize(ntk: Network, cost: seq<nat>, n: nat) returns (s: nat)
    requires ntk.Valid() && |cost| == |ntk.kinds| && n < |ntk.kinds|
    modifies ntk
    ensures ntk.Valid() && ntk.values == old(ntk.values)
    ensures s == Deref(Ctx(ntk.kinds, cost, InputTerm(ntk.kinds)), old(ntk.values), n).0
  {
    DerefThenRef(Ctx(ntk.kinds, cost, InputTerm(ntk.kinds)), ntk.values, n);
    var s1 := DerefNodeRecursive(ntk, cost, n);
    var s2 := RefNodeRecursive(ntk, cost, n);
    assert s1 == s2;
    s := s1;
  }

  /** refed_size: the value of referencing n; the two traversals agree and every counter is restored. */
  method RefedSize(ntk: Network, cost: seq<nat>, n: nat) returns (s: nat)
    requires ntk.Valid() && |cost| == |ntk.kinds| && n < |ntk.kinds|
    modifies ntk
    ensures ntk.Valid() && ntk.values == old(ntk.values)
    ensures s == Ref(Ctx(ntk.kinds, cost, InputTerm(ntk.kinds)), old(ntk.values), n).0
  {
    RefThenDeref(Ctx(ntk.kinds, cost, InputTerm(ntk.kinds)), ntk.values, n);
    var s1 := RefNodeRecursive(ntk, cost, n);
    var s2 := DerefNodeRecursive(ntk, cost, n);
    assert s1 == s2;
    s := s1;
  }

  /**
   * ref_node_recursive_contained, each freed node counting 1: the MFFC size
   * and counters of deref_node_recursive under unit cost, and whether rep
   * is n, a fanin of n, or met inside the freed cone.
   */
  method RefNodeRecursiveContained(ntk: Network, n: nat, rep: nat) returns (value: nat, contains: bool)
    requires ntk.Valid() && n < |ntk.kinds|
    modifies ntk
    decreases n, 0
    ensures ntk.Valid() && (value, contains, ntk.values) == Contained(ntk.kinds, old(ntk.values), n, rep, 1)
    ensures ntk.kinds[n].And? && (rep == n || rep == ntk.kinds[n].f0.node || rep == ntk.kinds[n].f1.node) ==> contains
  {
    if !ntk.kinds[n].And? {
      return 0, false;
    }
    value := 1;
    contains := n == rep;
    var f0, f1 := ntk.kinds[n].f0.node, ntk.kinds[n].f1.node;
    contains := contains || f0 == rep;
    var v0, b0 := ContainedFanin(ntk, f0, rep);
    value := value + v0;
    contains := contains || b0;
    contains := contains || f1 == rep;
    var v1, b1 := ContainedFanin(ntk, f1, rep);
    value := value + v1;
    contains := contains || b1;
  }

  /** The per-fanin step of ref_node_recursive_contained: decrement, and descend when the counter reaches 0. */
  method ContainedFanin(ntk: Network, m: nat, rep: nat) returns (value: nat, contains: bool)
    requires ntk.Valid() && m < |ntk.kinds|
    modifies ntk
    decreases m, 1
    ensures ntk.Valid() && (value, contains, ntk.values) == ContainedEdge(ntk.kinds, old(ntk.values), m, rep, 1)
  {
    value, contains := 0, false;
    var d := ntk.DecrValue(m);
    if d == 0 {
      value, contains := RefNodeRecursiveContained(ntk, m, rep);
    }
  }
}
