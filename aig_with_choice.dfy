/**
 * An AIG with choice nodes: every node has a representative and a link to
 * the next node of its equivalence list.  The base network's nodes are a
 * fixed snapshot here; the application value (data[0].h2) and the visited
 * word (data[1].h1) of each node are kept in their own sequences.
 */
module AigWithChoice {
  import opened Node
  import opened NetworkStorage
  import opened AigNetwork

  /** AIG_NULL: the end of an equivalence list. */
  const AigNull: nat := 0x7FFF_FFFF_FFFF_FFFF

  /** A well-formed node array, as the base network keeps it. */
  ghost predicate WellFormed(nodes: seq<FixedNode>) {
    && 0 < |nodes| < AigNull
    && nodes[0].children == [NodePointer(0), NodePointer(0)]
    && (forall i :: 0 <= i < |nodes| ==> StatesOk(nodes[i]))
    && (forall i :: 0 <= i < |nodes| ==> FaninsOk(nodes, i))
  }

  /** get_child0 / get_child1 as signals. */
  function Child(nodes: seq<FixedNode>, n: nat, k: nat): Signal
    requires n < |nodes| && k < 2 && Shaped(nodes[n])
  {
    FromPointer(nodes[n].children[k])
  }

  /** is_and: a node other than the constant that is not an input. */
  predicate IsAndNode(nodes: seq<FixedNode>, n: nat) {
    0 < n < |nodes| && !IsCiNode(nodes, n)
  }

  // ---------------------------------------------------------------------
  // MUX recognition

  /**
   * is_mux: an AND whose children are both complemented ANDs, with one
   * grandchild of the first the complement of one grandchild of the second.
   */
  predicate IsMux(nodes: seq<FixedNode>, n: nat)
    requires WellFormed(nodes)
  {
    && IsAndNode(nodes, n)
    && var c0, c1 := Child(nodes, n, 0), Child(nodes, n, 1);
    && SigComplement(c0) == 1 && SigComplement(c1) == 1
    && IsAndNode(nodes, SigIndex(c0)) && IsAndNode(nodes, SigIndex(c1))
    && var c00, c01 := Child(nodes, SigIndex(c0), 0), Child(nodes, SigIndex(c0), 1);
    && var c10, c11 := Child(nodes, SigIndex(c1), 0), Child(nodes, SigIndex(c1), 1);
    c00 == Not(c10) || c00 == Not(c11) || c01 == Not(c10) || c01 == Not(c11)
  }

  /** The value of a signal under an assignment of values to node indices. */
  function SigValue(val: nat -> bool, s: Signal): bool {
    val(SigIndex(s)) != (SigComplement(s) == 1)
  }

  /** The value of AND node n computed from its two grandchild levels. */
  function MuxCandidateValue(nodes: seq<FixedNode>, n: nat, val: nat -> bool): bool
    requires WellFormed(nodes) && IsMux(nodes, n)
  {
    var c0, c1 := Child(nodes, n, 0), Child(nodes, n, 1);
    var a := SigValue(val, Child(nodes, SigIndex(c0), 0)) && SigValue(val, Child(nodes, SigIndex(c0), 1));
    var b := SigValue(val, Child(nodes, SigIndex(c1), 0)) && SigValue(val, Child(nodes, SigIndex(c1), 1));
    !a && !b
  }

  /**
   * recognize_mux: the control, then and else signals of a MUX, in the
   * order the four grandchild pairings are tried.
   */
  function RecognizeMux(nodes: seq<FixedNode>, n: nat): (r: (Signal, Signal, Signal))
    requires WellFormed(nodes) && IsMux(nodes, n)
    ensures SigComplement(r.0) == 0
  {
    var c0, c1 := Child(nodes, n, 0), Child(nodes, n, 1);
    var c00, c01 := Child(nodes, SigIndex(c0), 0), Child(nodes, SigIndex(c0), 1);
    var c10, c11 := Child(nodes, SigIndex(c1), 0), Child(nodes, SigIndex(c1), 1);
    if c01 == Not(c11) then
      if SigComplement(c01) == 1 then (c11, Not(c10), Not(c00)) else (c01, Not(c00), Not(c10))
    else if c00 == Not(c10) then
      if SigComplement(c00) == 1 then (c10, Not(c11), Not(c01)) else (c00, Not(c01), Not(c11))
    else if c00 == Not(c11) then
      if SigComplement(c00) == 1 then (c11, Not(c10), Not(c01)) else (c00, Not(c01), Not(c10))
    else
      if SigComplement(c01) == 1 then (c10, Not(c11), Not(c00)) else (c01, Not(c00), Not(c11))
  }

  lemma NotValue(val: nat -> bool, s: Signal)
    ensures SigIndex(Not(s)) == SigIndex(s)
    ensures SigValue(val, Not(s)) == !SigValue(val, s)
  {
  }

  /**
   * The recognised signals describe the node: under every assignment the
   * node's value is "if control then then-signal else else-signal".
   */
  lemma RecognizeMuxIsMux(nodes: seq<FixedNode>, n: nat, val: nat -> bool)
    requires WellFormed(nodes) && IsMux(nodes, n)
    ensures var (c, t, e) := RecognizeMux(nodes, n);
      MuxCandidateValue(nodes, n, val) == if SigValue(val, c) then SigValue(val, t) else SigValue(val, e)
  {
    var c0, c1 := Child(nodes, n, 0), Child(nodes, n, 1);
    var c00, c01 := Child(nodes, SigIndex(c0), 0), Child(nodes, SigIndex(c0), 1);
    var c10, c11 := Child(nodes, SigIndex(c1), 0), Child(nodes, SigIndex(c1), 1);
    NotValue(val, c00);
    NotValue(val, c01);
    NotValue(val, c10);
    NotValue(val, c11);
  }

  // ---------------------------------------------------------------------
  // equivalence lists

  /**
   * Every link leads to a node of smaller rank, so walking a list ends at
   * AIG_NULL (the rank is a proof device, not part of the network).
   */
  ghost predicate RankOk(equivs: seq<nat>, rank: seq<nat>) {
    |rank| == |equivs| < AigNull
    && forall x :: 0 <= x < |equivs| && equivs[x] != AigNull ==> equivs[x] < |equivs| && rank[equivs[x]] < rank[x]
  }

  /** The equivalence list from x: x, equivs[x], ... up to AIG_NULL. */
  ghost function Chain(equivs: seq<nat>, rank: seq<nat>, x: nat): seq<nat>
    requires RankOk(equivs, rank) && (x == AigNull || x < |equivs|)
    decreases if x == AigNull then 0 else rank[x] + 1
  {
    if x == AigNull then [] else [x] + Chain(equivs, rank, equivs[x])
  }

  lemma {:induction false} ChainMembers(equivs: seq<nat>, rank: seq<nat>, x: nat)
    requires RankOk(equivs, rank) && (x == AigNull || x < |equivs|)
    ensures forall y :: y in Chain(equivs, rank, x) ==> y < |equivs| && y != AigNull
    ensures x != AigNull ==> |Chain(equivs, rank, x)| > 0 && Chain(equivs, rank, x)[0] == x
    decreases if x == AigNull then 0 else rank[x] + 1
  {
    if x != AigNull {
      ChainMembers(equivs, rank, equivs[x]);
    }
  }

  /**
   * Linking n (which has no list of its own) after the tail t of a list
   * appends n to every list that runs through t.
   */
  lemma {:induction false} ChainAppend(equivs: seq<nat>, rank: seq<nat>, rank': seq<nat>, t: nat, n: nat, x: nat)
    requires RankOk(equivs, rank) && t < |equivs| && n < |equivs| && t != n
    requires equivs[t] == AigNull && equivs[n] == AigNull
    requires RankOk(equivs[t := n], rank')
    requires x < |equivs| && t in Chain(equivs, rank, x)
    ensures Chain(equivs[t := n], rank', x) == Chain(equivs, rank, x) + [n]
    decreases rank[x]
  {
    var e' := equivs[t := n];
    if x == t {
      assert Chain(equivs, rank, x) == [t];
      assert e'[n] == AigNull;
      assert Chain(e', rank', AigNull) == [];
      assert Chain(e', rank', n) == [n] + Chain(e', rank', AigNull);
    } else {
      ChainMembers(equivs, rank, equivs[x]);
      ChainAppend(equivs, rank, rank', t, n, equivs[x]);
    }
  }

  /** The last node of the equivalence list from x. */
  ghost function Tail(equivs: seq<nat>, rank: seq<nat>, x: nat): (t: nat)
    requires RankOk(equivs, rank) && x < |equivs|
    ensures t < |equivs| && equivs[t] == AigNull && t in Chain(equivs, rank, x)
    decreases rank[x]
  {
    if equivs[x] == AigNull then x else Tail(equivs, rank, equivs[x])
  }

  /** Re-ranking after the link t -> n: n drops to 0, every other node moves up by one. */
  lemma RerankAfterLink(equivs: seq<nat>, rank: seq<nat>, t: nat, n: nat)
    requires RankOk(equivs, rank) && t < |equivs| && n < |equivs| && t != n
    requires equivs[n] == AigNull
    ensures RankOk(equivs[t := n], seq(|rank|, i requires 0 <= i < |rank| => if i == n then 0 else rank[i] + 1))
  {
  }

  // ---------------------------------------------------------------------
  // traversal marks

  /** The number of nodes among the first k whose visited word is not t. */
  function Unvisited(visited: seq<nat>, t: nat, k: nat): nat
    requires k <= |visited|
  {
    if k == 0 then 0 else Unvisited(visited, t, k - 1) + if visited[k - 1] != t then 1 else 0
  }

  lemma {:induction false} UnvisitedMark(visited: seq<nat>, t: nat, i: nat, k: nat)
    requires i < |visited| && k <= |visited| && visited[i] != t
    ensures Unvisited(visited[i := t], t, k) + (if i < k then 1 else 0) == Unvisited(visited, t, k)
  {
    if k > 0 {
      UnvisitedMark(visited, t, i, k - 1);
    }
  }

  lemma {:induction false} UnvisitedMonotone(visited: seq<nat>, visited': seq<nat>, t: nat, k: nat)
    requires k <= |visited| == |visited'|
    requires forall x :: 0 <= x < |visited| && visited[x] == t ==> visited'[x] == t
    ensures Unvisited(visited', t, k) <= Unvisited(visited, t, k)
  {
    if k > 0 {
      UnvisitedMonotone(visited, visited', t, k - 1);
    }
  }

  // ---------------------------------------------------------------------
  // paths through the fanin cone and the equivalence lists

  /** A node the DFS of check_tfi does not enter: AIG_NULL or an input. */
  predicate Stop(nodes: seq<FixedNode>, x: nat) {
    x == AigNull || IsCiNode(nodes, x)
  }

  /** The nodes check_tfi_rec visits after x: its two fanins and its next equivalent. */
  predicate Step(nodes: seq<FixedNode>, equivs: seq<nat>, x: nat, y: nat)
    requires WellFormed(nodes) && |equivs| == |nodes|
  {
    0 < x < |nodes| && !IsCiNode(nodes, x)
    && (y == Index(nodes[x].children[0]) || y == Index(nodes[x].children[1]) || y == equivs[x])
  }

  /** A path of DFS steps; only its last node may be a stop node. */
  ghost predicate IsPath(nodes: seq<FixedNode>, equivs: seq<nat>, p: seq<nat>)
    requires WellFormed(nodes) && |equivs| == |nodes|
  {
    |p| > 0 && forall i :: 0 <= i < |p| - 1 ==> Step(nodes, equivs, p[i], p[i + 1])
  }

  /** A fanin-only path: the transitive fanin of p[0] contains the last node. */
  ghost predicate IsFaninPath(nodes: seq<FixedNode>, p: seq<nat>)
    requires WellFormed(nodes)
  {
    |p| > 0
    && forall i :: 0 <= i < |p| - 1 ==>
         0 < p[i] < |nodes| && !IsCiNode(nodes, p[i])
         && (p[i + 1] == Index(nodes[p[i]].children[0]) || p[i + 1] == Index(nodes[p[i]].children[1]))
  }

  lemma FaninPathIsPath(nodes: seq<FixedNode>, equivs: seq<nat>, p: seq<nat>)
    requires WellFormed(nodes) && |equivs| == |nodes| && IsFaninPath(nodes, p)
    ensures IsPath(nodes, equivs, p)
  {
    forall i | 0 <= i < |p| - 1 ensures Step(nodes, equivs, p[i], p[i + 1]) {
    }
  }

  /**
   * The DFS invariant: every node visited in traversal t that is not on
   * the call stack has value other than 1, and each of its DFS steps leads
   * to a stop node or to a node also visited in traversal t.
   */
  ghost predicate Closed(nodes: seq<FixedNode>, equivs: seq<nat>, values: seq<nat>, visited: seq<nat>, t: nat, stack: set<nat>)
    requires WellFormed(nodes) && |equivs| == |nodes| == |values| == |visited|
  {
    forall x :: 0 <= x < |nodes| && visited[x] == t && x !in stack ==>
      values[x] != 1
      && forall y: nat :: Step(nodes, equivs, x, y) ==> Stop(nodes, y) || (y < |nodes| && visited[y] == t)
  }

  /** A closed set of visited nodes contains every node a path reaches from a visited start. */
  lemma {:induction false} ClosedPaths(nodes: seq<FixedNode>, equivs: seq<nat>, values: seq<nat>, visited: seq<nat>, t: nat, p: seq<nat>, k: nat)
    requires WellFormed(nodes) && |equivs| == |nodes| == |values| == |visited|
    requires (forall x :: 0 <= x < |equivs| && equivs[x] != AigNull ==> equivs[x] < |equivs|)
    requires Closed(nodes, equivs, values, visited, t, {})
    requires IsPath(nodes, equivs, p) && k < |p|
    requires Stop(nodes, p[0]) || (p[0] < |nodes| && visited[p[0]] == t)
    ensures Stop(nodes, p[k]) || (p[k] < |nodes| && visited[p[k]] == t && values[p[k]] != 1)
  {
    if k > 0 {
      ClosedPaths(nodes, equivs, values, visited, t, p, k - 1);
      assert Step(nodes, equivs, p[k - 1], p[k]);
    }
  }

  // ---------------------------------------------------------------------
  // the network with choices

  class ChoiceAig {
    const nodes: seq<FixedNode>
    var equivs: seq<nat>
    var reprs: seq<nat>
    var values: seq<nat>
    var visited: seq<nat>
    var travId: nat
    ghost var rank: seq<nat>

    ghost predicate Valid()
      reads this
    {
      && WellFormed(nodes)
      && |equivs| == |nodes| && |reprs| == |nodes| && |values| == |nodes| && |visited| == |nodes|
      && RankOk(equivs, rank)
      && (forall x :: 0 <= x < |visited| ==> visited[x] <= travId)
    }

    ghost function ChainOf(x: nat): seq<nat>
      reads this
      requires Valid() && (x == AigNull || x < |equivs|)
    {
      Chain(equivs, rank, x)
    }

    /**
     * aig_with_choice(aig): the network's nodes, with values and visited
     * words read from the node data and choices initialised; the visited
     * words do not exceed the traversal id.
     */
    constructor (network: seq<FixedNode>, travId0: nat)
      requires WellFormed(network)
      requires forall i :: 0 <= i < |network| ==> H1(network[i].data[1]) <= travId0
      ensures Valid() && nodes == network && travId == travId0
      ensures forall i :: 0 <= i < |nodes| ==> equivs[i] == AigNull && reprs[i] == i
      ensures forall i :: 0 <= i < |nodes| ==> values[i] == H2(nodes[i].data[0]) && visited[i] == H1(nodes[i].data[1])
    {
      nodes := network;
      travId := travId0;
      values := seq(|network|, i requires 0 <= i < |network| => H2(network[i].data[0]));
      visited := seq(|network|, i requires 0 <= i < |network| => H1(network[i].data[1]));
      new;
      InitChoices();
    }

    /** init_choices: every list empty and every node its own representative. */
    method InitChoices()
      requires WellFormed(nodes) && |values| == |nodes| && |visited| == |nodes|
      requires forall x :: 0 <= x < |visited| ==> visited[x] <= travId
      modifies this
      ensures Valid()
      ensures forall i :: 0 <= i < |nodes| ==> equivs[i] == AigNull && reprs[i] == i
      ensures forall i :: 0 <= i < |nodes| ==> !IsRepr(i)
      ensures values == old(values) && visited == old(visited) && travId == old(travId)
    {
      equivs := seq(|nodes|, _ => AigNull);
      var rs: seq<nat> := [];
      var n := 0;
      while n < |nodes|
        invariant 0 <= n <= |nodes|
        invariant |rs| == n && forall i :: 0 <= i < n ==> rs[i] == i
        modifies {}
      {
        rs := rs + [n];
        n := n + 1;
      }
      reprs := rs;
      rank := seq(|nodes|, _ => 0);
    }

    /** get_equiv_node. */
    function EquivNode(n: nat): nat
      reads this
      requires Valid() && n < |nodes|
    {
      equivs[n]
    }

    /** is_repr: n has a next equivalent node and a positive fanout. */
    predicate IsRepr(n: nat)
      reads this
      requires Valid() && n < |nodes|
    {
      equivs[n] != AigNull && FanoutOf(nodes[n]) > 0
    }

    /**
     * check_tfi_rec: a DFS over fanins and equivalence links that stops at
     * AIG_NULL and inputs, reports a node whose value is 1, and skips nodes
     * already visited in the current traversal.
     */
    method CheckTfiRec(n: nat, ghost stack: set<nat>) returns (found: bool)
      requires Valid() && (n == AigNull || n < |nodes|)
      requires Closed(nodes, equivs, values, visited, travId, stack)
      requires forall x :: x in stack ==> x < |nodes| && visited[x] == travId
      modifies this
      decreases Unvisited(visited, travId, |visited|), 0
      ensures Valid()
      ensures equivs == old(equivs) && reprs == old(reprs) && values == old(values) && rank == old(rank) && travId == old(travId)
      ensures forall x :: 0 <= x < |visited| && old(visited[x]) == travId ==> visited[x] == travId
      ensures Unvisited(visited, travId, |visited|) <= old(Unvisited(visited, travId, |visited|))
      ensures !Stop(nodes, n) && values[n] == 1 ==> found
      ensures !found ==> Closed(nodes, equivs, values, visited, travId, stack)
      ensures !found ==> Stop(nodes, n) || visited[n] == travId
      ensures found ==> ReachesMarked(n)
    {
      if n == AigNull || IsCiNode(nodes, n) {
        return false;
      }
      if values[n] == 1 {
        assert IsPath(nodes, equivs, [n]) && Marked([n][0]);
        return true;
      }
      if visited[n] == travId {
        return false;
      }
      UnvisitedMark(visited, travId, n, |visited|);
      visited := visited[n := travId];
      var stack' := stack + {n};
      var c0, c1, e := Index(nodes[n].children[0]), Index(nodes[n].children[1]), equivs[n];
      assert FaninsOk(nodes, n);
      found := VisitFanins(n, stack');
      if found {
        return;
      }
      found := Visit(n, e, stack');
      if found {
        return;
      }
      forall y: nat | Step(nodes, equivs, n, y) ensures Stop(nodes, y) || (y < |nodes| && visited[y] == travId) {
        assert y == c0 || y == c1 || y == e;
      }
    }

    /** The calls of check_tfi_rec on the two fanins of n, in order. */
    method VisitFanins(n: nat, ghost stack: set<nat>) returns (found: bool)
      requires Valid() && 0 < n < |nodes| && !IsCiNode(nodes, n) && n in stack
      requires Closed(nodes, equivs, values, visited, travId, stack)
      requires forall x :: x in stack ==> x < |nodes| && visited[x] == travId
      modifies this
      decreases Unvisited(visited, travId, |visited|), 2
      ensures Valid()
      ensures equivs == old(equivs) && reprs == old(reprs) && values == old(values) && rank == old(rank) && travId == old(travId)
      ensures forall x :: 0 <= x < |visited| && old(visited[x]) == travId ==> visited[x] == travId
      ensures Unvisited(visited, travId, |visited|) <= old(Unvisited(visited, travId, |visited|))
      ensures !found ==> Closed(nodes, equivs, values, visited, travId, stack)
      ensures !found ==> forall k :: 0 <= k < 2 ==> Stop(nodes, Index(nodes[n].children[k])) || (Index(nodes[n].children[k]) < |nodes| && visited[Index(nodes[n].children[k])] == travId)
      ensures found ==> ReachesMarked(n)
    {
      assert FaninsOk(nodes, n);
      found := Visit(n, Index(nodes[n].children[0]), stack);
      if found {
        return;
      }
      found := Visit(n, Index(nodes[n].children[1]), stack);
    }

    /** One recursive call of check_tfi_rec from n (already visited) into its successor c. */
    method Visit(n: nat, c: nat, ghost stack: set<nat>) returns (found: bool)
      requires Valid() && Step(nodes, equivs, n, c) && n in stack
      requires Closed(nodes, equivs, values, visited, travId, stack)
      requires forall x :: x in stack ==> x < |nodes| && visited[x] == travId
      modifies this
      decreases Unvisited(visited, travId, |visited|), 1
      ensures Valid()
      ensures equivs == old(equivs) && reprs == old(reprs) && values == old(values) && rank == old(rank) && travId == old(travId)
      ensures forall x :: 0 <= x < |visited| && old(visited[x]) == travId ==> visited[x] == travId
      ensures Unvisited(visited, travId, |visited|) <= old(Unvisited(visited, travId, |visited|))
      ensures !found ==> Closed(nodes, equivs, values, visited, travId, stack)
      ensures !found ==> Stop(nodes, c) || (c < |nodes| && visited[c] == travId)
      ensures found ==> ReachesMarked(n)
    {
      assert FaninsOk(nodes, n);
      found := CheckTfiRec(c, stack);
      if found {
        ExtendPath(n, c);
      }
    }

    /** A node check_tfi_rec reports: an entered node whose value is 1. */
    predicate Marked(x: nat)
      reads this
      requires Valid()
    {
      x < |nodes| && !IsCiNode(nodes, x) && values[x] == 1
    }

    /** Some path of DFS steps from n ends at a marked node. */
    ghost predicate ReachesMarked(n: nat)
      reads this
      requires Valid()
    {
      exists p :: IsPath(nodes, equivs, p) && p[0] == n && Marked(p[|p| - 1])
    }

    /** A step from n followed by a path from c is a path from n. */
    lemma ExtendPath(n: nat, c: nat)
      requires Valid() && Step(nodes, equivs, n, c) && ReachesMarked(c)
      ensures ReachesMarked(n)
    {
      var p :| IsPath(nodes, equivs, p) && p[0] == c && Marked(p[|p| - 1]);
      var q := [n] + p;
      assert q[|q| - 1] == p[|p| - 1];
      assert IsPath(nodes, equivs, q);
    }

    /**
     * check_tfi: marks r's equivalence list with value 1, runs the DFS
     * from n in a fresh traversal, and resets the list's values to 0.
     */
    method CheckTfi(n: nat, r: nat) returns (inTfi: bool)
      requires Valid() && n < |nodes| && r < |nodes|
      modifies this
      ensures Valid()
      ensures equivs == old(equivs) && reprs == old(reprs) && rank == old(rank) && travId == old(travId) + 1
      ensures forall x :: 0 <= x < |nodes| ==> values[x] == if x in ChainOf(r) then 0 else old(values[x])
      ensures !IsCiNode(nodes, n) && n in ChainOf(r) ==> inTfi
      ensures !inTfi ==> forall p :: IsPath(nodes, equivs, p) && p[0] == n && p[|p| - 1] in ChainOf(r) ==> IsCiNode(nodes, p[|p| - 1])
    {
      ghost var chain := ChainOf(r);
      ChainMembers(equivs, rank, r);
      values := MarkList(r, 1);
      travId := travId + 1;
      inTfi := CheckTfiRec(n, {});
      if !inTfi {
        forall p | IsPath(nodes, equivs, p) && p[0] == n && p[|p| - 1] in chain ensures IsCiNode(nodes, p[|p| - 1]) {
          ClosedPaths(nodes, equivs, values, visited, travId, p, |p| - 1);
        }
      }
      values := MarkList(r, 0);
    }

    /** The values after setting v on every node of r's equivalence list (the for loops of check_tfi). */
    method MarkList(r: nat, v: nat) returns (vals: seq<nat>)
      requires Valid() && r < |nodes|
      ensures |vals| == |nodes|
      ensures forall x :: 0 <= x < |nodes| ==> vals[x] == if x in ChainOf(r) then v else values[x]
    {
      vals := values;
      var tmp: nat := r;
      ghost var walked: seq<nat> := [];
      while tmp != AigNull
        invariant tmp == AigNull || tmp < |nodes|
        invariant ChainOf(r) == walked + Chain(equivs, rank, tmp)
        invariant |vals| == |nodes|
        invariant forall x :: 0 <= x < |nodes| ==> vals[x] == if x in walked then v else values[x]
        decreases if tmp == AigNull then 0 else rank[tmp] + 1
      {
        vals := vals[tmp := v];
        walked := walked + [tmp];
        tmp := equivs[tmp];
      }
    }

    /**
     * set_choice(n, r): refused when r >= n or when check_tfi finds r's
     * list in the fanin cone of n; otherwise r becomes n's representative
     * and n is linked after the last node of r's list.
     */
    method SetChoice(n: nat, r: nat) returns (ok: bool)
      requires Valid() && n < |nodes| && r < |nodes|
      requires equivs[n] == AigNull && (IsCiNode(nodes, n) ==> n !in ChainOf(r))
      modifies this
      ensures Valid()
      ensures r >= n ==> !ok && equivs == old(equivs) && values == old(values) && visited == old(visited) && travId == old(travId)
      ensures !ok ==> equivs == old(equivs) && reprs == old(reprs)
      ensures ok ==> r < n && reprs == old(reprs)[n := r]
      ensures ok ==> ChainOf(r) == old(ChainOf(r)) + [n]
      ensures ok ==> equivs == old(equivs)[old(Tail(equivs, rank, r)) := n]
      ensures ok ==> forall p :: IsFaninPath(nodes, p) && p[0] == n && p[|p| - 1] == r ==> IsCiNode(nodes, r)
      ensures r < n ==> forall x :: 0 <= x < |nodes| ==> values[x] == if x in old(ChainOf(r)) then 0 else old(values[x])
    {
      if r >= n {
        return false;
      }
      var inTfi := CheckTfi(n, r);
      if inTfi {
        return false;
      }
      forall p | IsFaninPath(nodes, p) && p[0] == n && p[|p| - 1] == r ensures IsCiNode(nodes, r) {
        FaninPathIsPath(nodes, equivs, p);
      }
      reprs := reprs[n := r];
      var tail := FindTail(r);
      assert tail != n by {
        assert tail in ChainOf(r);
      }
      LinkAfter(tail, n, r);
      ok := true;
    }

    /** The walk of set_choice to the last node of r's equivalence list. */
    method FindTail(r: nat) returns (tail: nat)
      requires Valid() && r < |nodes|
      ensures tail == Tail(equivs, rank, r)
    {
      tail := r;
      while equivs[tail] != AigNull
        invariant tail < |nodes| && Tail(equivs, rank, tail) == Tail(equivs, rank, r)
        decreases rank[tail]
      {
        tail := equivs[tail];
      }
    }

    /** Links n after the last node of r's list: the list gains n at its end. */
    method LinkAfter(tail: nat, n: nat, r: nat)
      requires Valid() && r < |nodes| && n < |nodes|
      requires tail == Tail(equivs, rank, r) && tail != n && equivs[n] == AigNull
      modifies this
      ensures Valid()
      ensures equivs == old(equivs)[tail := n]
      ensures ChainOf(r) == old(ChainOf(r)) + [n]
      ensures reprs == old(reprs) && values == old(values) && visited == old(visited) && travId == old(travId)
    {
      ghost var rk := rank;
      ghost var rank' := seq(|rk|, i requires 0 <= i < |rk| => if i == n then 0 else rk[i] + 1);
      RerankAfterLink(equivs, rank, tail, n);
      ChainAppend(equivs, rank, rank', tail, n, r);
      equivs := equivs[tail := n];
      rank := rank';
    }
  }
}
