// Priority-cut enumeration over an AIG: every node gets a cut set built from
// the cross product of its two fanins' sets, pruned by dominance, limited in
// number, and closed by the node's own unit cut.
module CutEnumeration {
  import opened Bits
  import opened Cuts
  import opened CutSets

  /** max_cut_num: the slots of every cut set. */
  const MaxCutNum: nat := 12
  /** max_cut_size: the leaves a cut can hold. */
  const MaxCutSize: nat := 7
  /** 2^32, for the 32-bit reference counters. */
  const Word32: nat := 0x1_0000_0000

  /** cut_enumeration_params, without the verbosity and truth-table switches. */
  datatype Params = Params(cutSize: nat, cutLimit: nat, faninLimit: nat)

  /** The default parameters: cuts of at most 4 leaves, at most 25 cuts a node. */
  function DefaultParams(): (ps: Params)
    ensures ps.cutSize == 4 && ps.cutLimit == 25
  {
    Params(4, 25, 10)
  }

  /** The enumerator's own bound on the parameters, as its constructor asserts it. */
  predicate WithinLimit(ps: Params) {
    ps.cutLimit < MaxCutNum
  }

  // ---------------------------------------------------------------------
  // truth-table support

  /** std::find from position from: the first position at or after from holding x, or |s|. */
  function FindFrom(s: seq<nat>, from: nat, x: nat): (r: nat)
    requires from <= |s|
    ensures from <= r <= |s|
    ensures r < |s| ==> s[r] == x
    ensures forall k :: from <= k < r ==> s[k] != x
    decreases |s| - from
  {
    if from == |s| then from
    else if s[from] == x then from
    else FindFrom(s, from + 1, x)
  }

  /** The positions compute_truth_table_support reports, each search starting where the previous one stopped. */
  function Support(sub: seq<nat>, sup: seq<nat>, from: nat): (r: seq<nat>)
    requires from <= |sup|
    ensures |r| == |sub|
  {
    if |sub| == 0 then []
    else
      var p := FindFrom(sup, from, sub[0]);
      [p % 256] + Support(sub[1..], sup, p)
  }

  /** compute_truth_table_support: the position of each leaf of sub among the leaves of sup. */
  method TruthTableSupport(sub: seq<nat>, sup: seq<nat>) returns (support: seq<nat>)
    ensures support == Support(sub, sup, 0)
  {
    support := [];
    var itp: nat := 0;
    for k := 0 to |sub|
      invariant itp <= |sup|
      invariant support + Support(sub[k..], sup, itp) == Support(sub, sup, 0)
    {
      assert sub[k..] == [sub[k]] + sub[k + 1..];
      itp := FindFrom(sup, itp, sub[k]);
      support := support + [itp % 256];
    }
  }

  /** x occurs in s at or after position from. */
  predicate OccursFrom(s: seq<nat>, from: nat, x: nat) {
    exists j :: from <= j < |s| && s[j] == x
  }

  /** The later leaves of a sorted sub occur after the position where the first one was found. */
  lemma OccursAfter(sub: seq<nat>, sup: seq<nat>, from: nat, p: nat)
    requires 0 < |sub| && from <= p < |sup| && sup[p] == sub[0]
    requires Sorted(sub) && Sorted(sup) && forall i :: 0 <= i < |sub| ==> OccursFrom(sup, from, sub[i])
    ensures forall i :: 0 <= i < |sub| - 1 ==> OccursFrom(sup, p, sub[1..][i])
  {
    forall i | 0 <= i < |sub| - 1 ensures OccursFrom(sup, p, sub[1..][i]) {
      assert sub[1..][i] == sub[i + 1] && sub[0] < sub[i + 1];
      assert OccursFrom(sup, from, sub[i + 1]);
      var j :| from <= j < |sup| && sup[j] == sub[i + 1];
      assert p <= j;
    }
  }

  /**
   * When the leaves of sub occur in sup at or after from, both sorted,
   * every search succeeds: each reported position holds that leaf.
   */
  lemma {:induction false} SupportOfSubset(sub: seq<nat>, sup: seq<nat>, from: nat)
    requires from <= |sup| <= MaxCutSize
    requires Sorted(sub) && Sorted(sup) && forall i :: 0 <= i < |sub| ==> OccursFrom(sup, from, sub[i])
    ensures forall k :: 0 <= k < |sub| ==> from <= Support(sub, sup, from)[k] < |sup| && sup[Support(sub, sup, from)[k]] == sub[k]
  {
    if |sub| > 0 {
      var p := FindFrom(sup, from, sub[0]);
      assert p < |sup| by {
        assert OccursFrom(sup, from, sub[0]);
        var m :| from <= m < |sup| && sup[m] == sub[0];
        assert p <= m;
      }
      OccursAfter(sub, sup, from, p);
      SortedTail(sub);
      SupportOfSubset(sub[1..], sup, p);
      SupportCons(sub, sup, from);
      FoundCons(sub, sup, from, p, Support(sub[1..], sup, p));
    }
  }

  /** A sorted sequence stays sorted without its first element. */
  lemma SortedTail(s: seq<nat>)
    requires Sorted(s) && |s| > 0
    ensures Sorted(s[1..])
  {
  }

  /** A search that succeeds inside a short sup reports its position unchanged by the 8-bit store. */
  lemma SupportCons(sub: seq<nat>, sup: seq<nat>, from: nat)
    requires from <= |sup| <= MaxCutSize && |sub| > 0 && FindFrom(sup, from, sub[0]) < |sup|
    ensures Support(sub, sup, from) == [FindFrom(sup, from, sub[0])] + Support(sub[1..], sup, FindFrom(sup, from, sub[0]))
  {
    var p := FindFrom(sup, from, sub[0]);
    assert p < 256;
    assert p % 256 == p;
  }

  /** The first position found, followed by the positions of the rest found from it. */
  lemma FoundCons(sub: seq<nat>, sup: seq<nat>, from: nat, p: nat, t: seq<nat>)
    requires |sub| > 0 && from <= p < |sup| && sup[p] == sub[0] && |t| == |sub| - 1
    requires forall k :: 0 <= k < |sub| - 1 ==> p <= t[k] < |sup| && sup[t[k]] == sub[1..][k]
    ensures forall k :: 0 <= k < |sub| ==> from <= ([p] + t)[k] < |sup| && sup[([p] + t)[k]] == sub[k]
  {
    forall k | 0 <= k < |sub| ensures from <= ([p] + t)[k] < |sup| && sup[([p] + t)[k]] == sub[k] {
      if k > 0 {
        assert ([p] + t)[k] == t[k - 1] && sub[k] == sub[1..][k - 1];
      }
    }
  }

  /** The example of the source: {1, 3, 6} within {0, 1, 2, 3, 6, 7} is at positions {1, 3, 4}. */
  lemma SupportExample(sub: seq<nat>, sup: seq<nat>)
    requires sub == [1, 3, 6] && sup == [0, 1, 2, 3, 6, 7]
    ensures Support(sub, sup, 0) == [1, 3, 4]
  {
    assert OccursFrom(sup, 0, 1) && OccursFrom(sup, 0, 3) && OccursFrom(sup, 0, 6) by {
      assert sup[1] == 1 && sup[3] == 3 && sup[4] == 6;
    }
    SupportOfSubset(sub, sup, 0);
    var r := Support(sub, sup, 0);
    assert sup[r[0]] == 1 && sup[r[1]] == 3 && sup[r[2]] == 6;
  }

  // ---------------------------------------------------------------------
  // the merge of two fanin cut sets, on values

  /** The cut merge forms from a and b: the union of their leaves and the or of their signatures. */
  function Candidate(a: CutValue, b: CutValue): CutValue {
    CutValue(Union(a.leaves, b.leaves), Or(a.signature, b.signature), 0)
  }

  /** is_dominated on a list of cuts. */
  predicate Dominated(cuts: seq<CutValue>, c: CutValue) {
    exists i :: 0 <= i < |cuts| && CutDominates(cuts[i], c)
  }

  /** The body of the inner merge loop: merge, then skip or insert. */
  function Step(cuts: seq<CutValue>, a: CutValue, b: CutValue, cutSize: nat): seq<CutValue> {
    var n := Candidate(a, b);
    if |n.leaves| > cutSize || |n.leaves| > MaxCutSize || Dominated(cuts, n) then cuts
    else InsertResult(cuts, n, MaxCutNum)
  }

  /** a merged with every cut of bs, in order. */
  function Row(cuts: seq<CutValue>, a: CutValue, bs: seq<CutValue>, cutSize: nat): seq<CutValue> {
    if |bs| == 0 then cuts
    else Step(Row(cuts, a, bs[..|bs| - 1], cutSize), a, bs[|bs| - 1], cutSize)
  }

  /** Every cut of as merged with every cut of bs, row by row. */
  function Pairs(cuts: seq<CutValue>, as_: seq<CutValue>, bs: seq<CutValue>, cutSize: nat): seq<CutValue> {
    if |as_| == 0 then cuts
    else Row(Pairs(cuts, as_[..|as_| - 1], bs, cutSize), as_[|as_| - 1], bs, cutSize)
  }

  /**
   * The three cross products of merge_cuts2: the fanins' sets with each
   * other, then each fanin's set with the other fanin's kept best cuts.
   */
  function Merged(l0: seq<CutValue>, l1: seq<CutValue>, b0: seq<CutValue>, b1: seq<CutValue>, cutSize: nat): seq<CutValue> {
    Pairs(Pairs(Pairs([], l0, l1, cutSize), l0, b1, cutSize), b0, l1, cutSize)
  }

  /** limit(k) on a list: more than k cuts are cut back to k - 1. */
  function Limited(cuts: seq<CutValue>, k: nat): seq<CutValue>
    requires 0 < k || |cuts| == 0
  {
    if |cuts| > k then cuts[..k - 1] else cuts
  }

  /** add_unit_cut's cut: the node itself, with function id 2 (the projection). */
  function UnitCut(index: nat): CutValue {
    CutValue([index], Sig([index]), 2)
  }

  /** add_zero_cut's cut: no leaves, function id 0 (the constant). */
  function ZeroCut(): CutValue {
    CutValue([], 0, 0)
  }

  /** The invariant merge_cuts2 keeps on a node's set while it inserts. */
  predicate Good(cuts: seq<CutValue>, cutSize: nat) {
    SizeSorted(cuts) && DominanceFree(cuts) && AllConsistent(cuts) && |cuts| <= MaxCutNum
    && forall i :: 0 <= i < |cuts| ==> 0 < |cuts[i].leaves| <= cutSize
  }

  /** Cuts that can be merged: consistent, at least one leaf each. */
  predicate Mergeable(cuts: seq<CutValue>) {
    forall i :: 0 <= i < |cuts| ==> Consistent(cuts[i]) && 0 < |cuts[i].leaves|
  }

  lemma CandidateConsistent(a: CutValue, b: CutValue)
    requires Consistent(a) && Consistent(b) && 0 < |a.leaves|
    ensures Consistent(Candidate(a, b)) && 0 < |Candidate(a, b).leaves|
  {
    UnionMembers(a.leaves, b.leaves);
    UnionSorted(a.leaves, b.leaves);
    SigOfUnion(a.leaves, b.leaves, Union(a.leaves, b.leaves));
    assert a.leaves[0] in Union(a.leaves, b.leaves);
  }

  /** One merge step keeps the set sorted, free of dominance, consistent and within bounds. */
  lemma StepGood(cuts: seq<CutValue>, a: CutValue, b: CutValue, cutSize: nat)
    requires Good(cuts, cutSize) && Consistent(a) && Consistent(b) && 0 < |a.leaves|
    ensures Good(Step(cuts, a, b, cutSize), cutSize)
  {
    var n := Candidate(a, b);
    if !(|n.leaves| > cutSize || |n.leaves| > MaxCutSize || Dominated(cuts, n)) {
      CandidateConsistent(a, b);
      InsertKeepsSorted(cuts, n, MaxCutNum);
      InsertKeepsDominanceFree(cuts, n, MaxCutNum);
      InsertKeepsConsistent(cuts, n, MaxCutNum);
      InsertBounded(cuts, n, MaxCutNum);
      InsertSizes(cuts, n, cutSize);
    }
  }

  lemma InsertSizes(cuts: seq<CutValue>, c: CutValue, cutSize: nat)
    requires forall i :: 0 <= i < |cuts| ==> 0 < |cuts[i].leaves| <= cutSize
    requires 0 < |c.leaves| <= cutSize
    ensures var r := InsertResult(cuts, c, MaxCutNum);
            forall i :: 0 <= i < |r| ==> 0 < |r[i].leaves| <= cutSize
  {
    var kept := Kept(cuts, c);
    KeptMembers(cuts, c);
    var r := InsertResult(cuts, c, MaxCutNum);
    forall i | 0 <= i < |r| ensures 0 < |r[i].leaves| <= cutSize {
      if r[i] != Stored(c) {
        assert r[i] in kept;
        assert r[i] in cuts;
      }
    }
  }

  lemma {:induction false} RowGood(cuts: seq<CutValue>, a: CutValue, bs: seq<CutValue>, cutSize: nat)
    requires Good(cuts, cutSize) && Consistent(a) && 0 < |a.leaves| && Mergeable(bs)
    ensures Good(Row(cuts, a, bs, cutSize), cutSize)
  {
    if |bs| > 0 {
      RowGood(cuts, a, bs[..|bs| - 1], cutSize);
      StepGood(Row(cuts, a, bs[..|bs| - 1], cutSize), a, bs[|bs| - 1], cutSize);
    }
  }

  lemma {:induction false} PairsGood(cuts: seq<CutValue>, as_: seq<CutValue>, bs: seq<CutValue>, cutSize: nat)
    requires Good(cuts, cutSize) && Mergeable(as_) && Mergeable(bs)
    ensures Good(Pairs(cuts, as_, bs, cutSize), cutSize)
  {
    if |as_| > 0 {
      PairsGood(cuts, as_[..|as_| - 1], bs, cutSize);
      RowGood(Pairs(cuts, as_[..|as_| - 1], bs, cutSize), as_[|as_| - 1], bs, cutSize);
    }
  }

  /**
   * The merged cuts of a node are sorted by size, no one dominates
   * another, each is consistent and has at most cut_size leaves, and there
   * are at most max_cut_num of them.
   */
  lemma MergedGood(l0: seq<CutValue>, l1: seq<CutValue>, b0: seq<CutValue>, b1: seq<CutValue>, cutSize: nat)
    requires Mergeable(l0) && Mergeable(l1) && Mergeable(b0) && Mergeable(b1)
    ensures Good(Merged(l0, l1, b0, b1, cutSize), cutSize)
  {
    PairsGood([], l0, l1, cutSize);
    PairsGood(Pairs([], l0, l1, cutSize), l0, b1, cutSize);
    PairsGood(Pairs(Pairs([], l0, l1, cutSize), l0, b1, cutSize), b0, l1, cutSize);
  }

  /** Limiting keeps the first cuts; with a limit below max_cut_num a slot is left for the unit cut. */
  lemma LimitedRoom(cuts: seq<CutValue>, ps: Params)
    requires |cuts| <= MaxCutNum && 2 <= ps.cutLimit && WithinLimit(ps)
    ensures |Limited(cuts, ps.cutLimit - 1)| < MaxCutNum
    ensures Limited(cuts, ps.cutLimit - 1) == cuts[..|Limited(cuts, ps.cutLimit - 1)|]
  {
  }

  /**
   * What merge_cuts2 leaves in a node's set: the merged cuts limited to
   * cut_limit - 2, then the node's unit cut unless they are a single cut
   * with one leaf. When no merged cut is left, the test reads whatever cut
   * the first slot holds, so either outcome is possible.
   */
  predicate MergeOutcome(result: seq<CutValue>, l0: seq<CutValue>, l1: seq<CutValue>, b0: seq<CutValue>, b1: seq<CutValue>, ps: Params, index: nat)
    requires 2 <= ps.cutLimit
  {
    UnitRule(result, Limited(Merged(l0, l1, b0, b1, ps.cutSize), ps.cutLimit - 1), index)
  }

  /** The unit cut follows the limited cuts cs unless cs is one single-leaf cut; on no cuts either outcome. */
  predicate UnitRule(result: seq<CutValue>, cs: seq<CutValue>, index: nat) {
    (|cs| > 0 ==> result == cs + (if |cs| > 1 || |cs[0].leaves| > 1 then [UnitCut(index)] else []))
    && (|cs| == 0 ==> result == [] || result == [UnitCut(index)])
  }

  /** The test on the count and on the cut in the first slot decides the unit cut as the rule says. */
  lemma UnitRuleHolds(result: seq<CutValue>, cs: seq<CutValue>, index: nat, appended: bool, head: CutValue)
    requires result == cs + (if appended then [UnitCut(index)] else [])
    requires |cs| > 0 ==> cs[0] == head && (appended <==> |cs| > 1 || |head.leaves| > 1)
    ensures UnitRule(result, cs, index)
  {
  }

  /** The unit cut of a node is consistent and has one leaf. */
  lemma UnitCutConsistent(index: nat)
    ensures Consistent(UnitCut(index)) && |UnitCut(index).leaves| == 1
  {
  }

  /** The outcome of a merge is again a list of mergeable cuts. */
  lemma MergeOutcomeMergeable(result: seq<CutValue>, l0: seq<CutValue>, l1: seq<CutValue>, b0: seq<CutValue>, b1: seq<CutValue>, ps: Params, index: nat)
    requires 2 <= ps.cutLimit && Mergeable(l0) && Mergeable(l1) && Mergeable(b0) && Mergeable(b1)
    requires MergeOutcome(result, l0, l1, b0, b1, ps, index)
    ensures Mergeable(result)
  {
    var m := Merged(l0, l1, b0, b1, ps.cutSize);
    MergedGood(l0, l1, b0, b1, ps.cutSize);
    var cs := Limited(m, ps.cutLimit - 1);
    assert forall i :: 0 <= i < |cs| ==> cs[i] == m[i];
    UnitCutConsistent(index);
  }

  // ---------------------------------------------------------------------
  // the merge on a node's cut set

  /** The inner loop of merge_cuts2: a merged with each cut of bs in turn, on the node's set rc. */
  method MergeRow(rc: CutSet, a: CutValue, bs: seq<CutValue>, cutSize: nat)
    requires rc.Valid() && rc.maxCuts == MaxCutNum && 0 < |a.leaves|
    modifies rc, rc.slots
    ensures rc.Valid()
    ensures rc.Cuts() == Row(old(rc.Cuts()), a, bs, cutSize)
  {
    ghost var start := rc.Cuts();
    for j := 0 to |bs|
      invariant rc.Valid()
      invariant rc.Cuts() == Row(start, a, bs[..j], cutSize)
    {
      var n := Candidate(a, bs[j]);
      if |n.leaves| <= cutSize && |n.leaves| <= MaxCutSize {
        var dominated := rc.IsDominated(n);
        if !dominated {
          assert a.leaves[0] in n.leaves by {
            UnionMembers(a.leaves, bs[j].leaves);
          }
          rc.Insert(n);
        }
      }
      assert bs[..j + 1][..j] == bs[..j];
    }
    assert bs[..|bs|] == bs;
  }

  /** The outer loop of merge_cuts2: every cut of as merged with every cut of bs. */
  method MergePairs(rc: CutSet, as_: seq<CutValue>, bs: seq<CutValue>, cutSize: nat)
    requires rc.Valid() && rc.maxCuts == MaxCutNum
    requires Mergeable(as_)
    modifies rc, rc.slots
    ensures rc.Valid()
    ensures rc.Cuts() == Pairs(old(rc.Cuts()), as_, bs, cutSize)
  {
    ghost var start := rc.Cuts();
    for i := 0 to |as_|
      invariant rc.Valid()
      invariant rc.Cuts() == Pairs(start, as_[..i], bs, cutSize)
    {
      MergeRow(rc, as_[i], bs, cutSize);
      assert as_[..i + 1][..i] == as_[..i];
    }
    assert as_[..|as_|] == as_;
  }

  /** add_unit_cut on one set: the cut {index}, with function id 2. */
  method AppendUnit(rc: CutSet, index: nat)
    requires rc.Valid() && rc.pend < rc.maxCuts
    modifies rc
    ensures rc.Valid() && rc.Cuts() == old(rc.Cuts()) + [UnitCut(index)]
  {
    var pos := rc.AddCut([index]);
    rc.SetFuncId(pos, 2);
  }

  /** add_zero_cut on one set: the cut with no leaves, with function id 0. */
  method AppendZero(rc: CutSet)
    requires rc.Valid() && rc.pend < rc.maxCuts
    modifies rc
    ensures rc.Valid() && rc.Cuts() == old(rc.Cuts()) + [ZeroCut()]
  {
    var pos := rc.AddCut([]);
    rc.SetFuncId(pos, 0);
  }

  /** The first part of merge_cuts2: clear the node's set, then the three cross products. */
  method MergeAll(rc: CutSet, l0: seq<CutValue>, l1: seq<CutValue>, b0: seq<CutValue>, b1: seq<CutValue>, cutSize: nat)
    requires rc.Valid() && rc.maxCuts == MaxCutNum
    requires Mergeable(l0) && Mergeable(b0)
    modifies rc, rc.slots
    ensures rc.Valid() && rc.Cuts() == Merged(l0, l1, b0, b1, cutSize)
  {
    rc.Clear();
    MergePairs(rc, l0, l1, cutSize);
    MergePairs(rc, l0, b1, cutSize);
    MergePairs(rc, b0, l1, cutSize);
  }

  /**
   * merge_cuts2 on the node's set rc, given the cuts and the kept best
   * cuts of its two fanins: clear, the three cross products, the limit,
   * and the unit cut. Returns the number of cuts counted into total_cuts.
   */
  method MergeInto(rc: CutSet, l0: seq<CutValue>, l1: seq<CutValue>, b0: seq<CutValue>, b1: seq<CutValue>, ps: Params, index: nat)
    returns (counted: nat)
    requires rc.Valid() && rc.maxCuts == MaxCutNum
    requires Mergeable(l0) && Mergeable(b0)
    requires 2 <= ps.cutLimit && WithinLimit(ps)
    modifies rc, rc.slots
    ensures rc.Valid()
    ensures MergeOutcome(rc.Cuts(), l0, l1, b0, b1, ps, index)
    ensures counted == |Limited(Merged(l0, l1, b0, b1, ps.cutSize), ps.cutLimit - 1)|
  {
    MergeAll(rc, l0, l1, b0, b1, ps.cutSize);
    ghost var m := rc.Cuts();
    rc.Limit(ps.cutLimit - 1);
    ghost var cs := rc.Cuts();
    assert cs == Limited(m, ps.cutLimit - 1);
    counted := rc.pend;
    ghost var head := rc.pool[rc.slots[0]];
    assert |cs| > 0 ==> cs[0] == head;
    var appended := rc.pend > 1 || |rc.pool[rc.slots[0]].leaves| > 1;
    if appended {
      AppendUnit(rc, index);
    }
    UnitRuleHolds(rc.Cuts(), cs, index, appended, head);
  }

  /**
   * With the default cut_limit of 25 the limit never cuts a set of
   * max_cut_num cuts back, so such a set leaves no slot for the unit cut.
   */
  lemma DefaultLimitLeavesNoRoom(cuts: seq<CutValue>)
    requires |cuts| == MaxCutNum
    ensures !WithinLimit(DefaultParams())
    ensures Limited(cuts, DefaultParams().cutLimit - 1) == cuts
  {
  }

  // ---------------------------------------------------------------------
  // 32-bit reference counters

  /** ++ on a 32-bit counter. */
  function Incr32(v: nat): (r: nat)
    requires v < Word32
    ensures r < Word32
  {
    (v + 1) % Word32
  }

  /** -- on a 32-bit counter: 0 wraps to 2^32 - 1. */
  function Decr32(v: nat): (r: nat)
    requires v < Word32
    ensures r < Word32
  {
    (v + Word32 - 1) % Word32
  }

  /** Decrementing undoes incrementing and the other way round, wrap-around included. */
  lemma IncrDecrInverse(v: nat)
    requires v < Word32
    ensures Decr32(Incr32(v)) == v && Incr32(Decr32(v)) == v
  {
  }

  /** + on 32-bit counters. */
  function Add32(v: nat, w: nat): (r: nat)
    ensures r < Word32
    ensures v + w < Word32 ==> r == v + w
  {
    (v + w) % Word32
  }

  /** The pairs of the first cross product of merge_cuts2: the product of the fanins' set sizes. */
  function Tuples(l0: seq<CutValue>, l1: seq<CutValue>): nat {
    |l0| * |l1|
  }

  /** The kinds of node the enumeration tells apart; a gate names its two fanins. */
  datatype NodeKind = Constant | Pi | Gate(fanin0: nat, fanin1: nat)

  /** Every gate's fanins come earlier and are not the constant. */
  predicate Topological(kinds: seq<NodeKind>) {
    forall n :: 0 <= n < |kinds| && kinds[n].Gate? ==>
      kinds[n].fanin0 < n && kinds[n].fanin1 < n
      && !kinds[kinds[n].fanin0].Constant? && !kinds[kinds[n].fanin1].Constant?
  }

  /**
   * What run leaves at node n, given the node's cuts before the run (start),
   * the cuts of every node after it (cuts) and the kept best cuts (best):
   * on the first run the constant gets the zero cut and a primary input its
   * unit cut; a gate gets the merge of its fanins' cuts on every run.
   */
  predicate NodeDone(kinds: seq<NodeKind>, start: seq<CutValue>, cuts: seq<seq<CutValue>>, best: seq<seq<CutValue>>, ps: Params, first: bool, n: nat)
    requires 2 <= ps.cutLimit && Topological(kinds) && n < |kinds| == |cuts| == |best|
  {
    match kinds[n]
    case Constant => cuts[n] == (if first then start + [ZeroCut()] else start)
    case Pi => cuts[n] == (if first then start + [UnitCut(n)] else start)
    case Gate(f0, f1) => MergeOutcome(cuts[n], cuts[f0], cuts[f1], best[f0], best[f1], ps, n)
  }

  /** run has handled nodes 0 .. k-1, and nodes k .. are as they started. */
  predicate RunUpTo(kinds: seq<NodeKind>, start: seq<seq<CutValue>>, cuts: seq<seq<CutValue>>, best: seq<seq<CutValue>>, ps: Params, first: bool, k: nat)
    requires 2 <= ps.cutLimit && Topological(kinds) && |kinds| == |start| == |cuts| == |best| && k <= |kinds|
  {
    (forall n :: 0 <= n < k ==> NodeDone(kinds, start[n], cuts, best, ps, first, n))
    && (forall n :: k <= n < |kinds| ==> cuts[n] == start[n])
  }

  /** The sets of every node but the constant are mergeable. */
  predicate AllMergeable(kinds: seq<NodeKind>, cuts: seq<seq<CutValue>>)
    requires |kinds| == |cuts|
  {
    forall n :: 0 <= n < |kinds| && !kinds[n].Constant? ==> Mergeable(cuts[n])
  }

  /** Replacing node n's entry by a mergeable set extends the mergeable prefix by n. */
  lemma MergeableStep(kinds: seq<NodeKind>, before: seq<seq<CutValue>>, after: seq<seq<CutValue>>, n: nat)
    requires |before| == |kinds| == |after| && n < |kinds| && after == before[n := after[n]]
    requires forall m :: 0 <= m < n && !kinds[m].Constant? ==> Mergeable(before[m])
    requires !kinds[n].Constant? ==> Mergeable(after[n])
    ensures forall m :: 0 <= m < n + 1 && !kinds[m].Constant? ==> Mergeable(after[m])
  {
  }

  /** Handling node k changes only node k's entry, so what was done at the earlier nodes stays done. */
  lemma RunStep(kinds: seq<NodeKind>, start: seq<seq<CutValue>>, cuts: seq<seq<CutValue>>, best: seq<seq<CutValue>>, ps: Params, first: bool, k: nat, x: seq<CutValue>)
    requires 2 <= ps.cutLimit && Topological(kinds) && |kinds| == |start| == |cuts| == |best| && k < |kinds|
    requires RunUpTo(kinds, start, cuts, best, ps, first, k)
    requires NodeDone(kinds, start[k], cuts[k := x], best, ps, first, k)
    ensures RunUpTo(kinds, start, cuts[k := x], best, ps, first, k + 1)
  {
    var c := cuts[k := x];
    forall n | 0 <= n < k
      ensures NodeDone(kinds, start[n], c, best, ps, first, n)
    {
      assert NodeDone(kinds, start[n], cuts, best, ps, first, n);
      assert c[n] == cuts[n];
      if kinds[n].Gate? {
        assert c[kinds[n].fanin0] == cuts[kinds[n].fanin0];
        assert c[kinds[n].fanin1] == cuts[kinds[n].fanin1];
      }
    }
  }

  /**
   * A new cut set for every one of size nodes, each fresh and empty; owner
   * numbers each set and its slot array base, base + 1, ...
   */
  method NewSets(size: nat, base: nat) returns (ss: seq<CutSet>, ghost owner: map<object, nat>)
    ensures |ss| == size && fresh(owner.Keys)
    ensures forall i :: 0 <= i < size ==> ss[i] in owner && owner[ss[i]] == base + i && ss[i].slots in owner && owner[ss[i].slots] == base + i
    ensures forall i :: 0 <= i < size ==> Holds(ss[i], [])
  {
    ss := [];
    owner := map[];
    while |ss| < size
      invariant |ss| <= size && fresh(owner.Keys)
      invariant forall i :: 0 <= i < |ss| ==> ss[i] in owner && owner[ss[i]] == base + i && ss[i].slots in owner && owner[ss[i].slots] == base + i
      invariant forall i :: 0 <= i < |ss| ==> Holds(ss[i], [])
    {
      var s := new CutSet(MaxCutNum);
      owner := owner[s := base + |ss|][s.slots := base + |ss|];
      ss := ss + [s];
    }
  }

  // ---------------------------------------------------------------------
  // the cut database of a network

  /** Set s is a valid set of max_cut_num slots holding the cuts cuts. */
  ghost predicate Holds(s: CutSet, cuts: seq<CutValue>)
    reads s, s.slots
  {
    s.maxCuts == MaxCutNum && s.Valid() && s.Cuts() == cuts
  }

  class NetworkCuts {
    /** The cut set of every node (_cuts). */
    var sets: seq<CutSet>
    /** The kept best cuts of every node (_capsule_best_cuts). */
    var capsule: seq<CutSet>
    /** The reference counter of every node (_refs), 32-bit. */
    var refs: seq<nat>
    /** The number of enumeration runs so far, an 8-bit counter (_uCount_iter). */
    var iter: nat
    /** The pairs tried over all merges, 32-bit (_total_tuples). */
    var totalTuples: nat
    /** The cuts kept over all merges (_total_cuts). */
    var totalCuts: nat
    /** The cuts of every node, and the kept best cuts of every node. */
    ghost var cutLists: seq<seq<CutValue>>
    ghost var bestLists: seq<seq<CutValue>>
    /** Numbers the owned objects: set n and its slot array get n, best-cut set n and its array |sets| + n. */
    ghost var owner: map<object, nat>
    ghost var Repr: set<object>

    /** The sets and their slot arrays are all owned and, being numbered apart, all distinct. */
    ghost predicate Separate()
      reads this
    {
      Repr == owner.Keys
      && (forall i :: 0 <= i < |sets| ==> sets[i] in owner && owner[sets[i]] == i && sets[i].slots in owner && owner[sets[i].slots] == i)
      && (forall i :: 0 <= i < |capsule| ==>
            capsule[i] in owner && owner[capsule[i]] == |sets| + i
            && capsule[i].slots in owner && owner[capsule[i].slots] == |sets| + i)
    }

    ghost predicate Valid()
      reads this, Repr
    {
      |capsule| == |sets| && |refs| == |sets| && |cutLists| == |sets| && |bestLists| == |sets|
      && iter < 256 && totalTuples < Word32
      && (forall i :: 0 <= i < |refs| ==> refs[i] < Word32)
      && Separate()
      && (forall i :: 0 <= i < |sets| ==> Holds(sets[i], cutLists[i]))
      && (forall i :: 0 <= i < |capsule| ==> Holds(capsule[i], bestLists[i]))
    }

    /** network_cuts(size): an empty cut set and best-cut set for each of size nodes, every counter 0. */
    constructor(size: nat)
      ensures Valid() && fresh(Repr)
      ensures |sets| == size && iter == 0 && totalTuples == 0 && totalCuts == 0
      ensures forall n :: 0 <= n < size ==> refs[n] == 0 && cutLists[n] == [] && bestLists[n] == []
    {
      var ss, o0 := NewSets(size, 0);
      label Made:
      var cs, o1 := NewSets(size, size);
      sets := ss;
      capsule := cs;
      refs := seq(size, _ => 0);
      iter := 0;
      totalTuples := 0;
      totalCuts := 0;
      cutLists := seq(size, _ => []);
      bestLists := seq(size, _ => []);
      ghost var o := o0 + o1;
      forall i | 0 <= i < size
        ensures ss[i] in o && o[ss[i]] == i && ss[i].slots in o && o[ss[i].slots] == i && Holds(ss[i], [])
      {
        assert ss[i] !in o1 && ss[i].slots !in o1;
        assert old@Made(Holds(ss[i], []));
      }
      owner := o;
      Repr := o.Keys;
    }

    /** clear_refs: every counter 0. */
    method ClearRefs()
      requires Valid()
      modifies this
      ensures Valid() && sets == old(sets) && capsule == old(capsule) && Repr == old(Repr)
      ensures cutLists == old(cutLists) && bestLists == old(bestLists)
      ensures |refs| == |sets| && forall i :: 0 <= i < |refs| ==> refs[i] == 0
    {
      refs := seq(|refs|, _ => 0);
    }

    /** set_ref: counter n becomes v. */
    method SetRef(n: nat, v: nat)
      requires Valid() && n < |refs| && v < Word32
      modifies this
      ensures Valid() && sets == old(sets) && capsule == old(capsule) && Repr == old(Repr)
      ensures cutLists == old(cutLists) && bestLists == old(bestLists)
      ensures refs == old(refs)[n := v]
    {
      refs := refs[n := v];
    }

    /** incr_ref: counter n goes up by one, wrapping at 2^32, and its new value is returned. */
    method IncrRef(n: nat) returns (r: nat)
      requires Valid() && n < |refs|
      modifies this
      ensures Valid() && sets == old(sets) && capsule == old(capsule) && Repr == old(Repr)
      ensures cutLists == old(cutLists) && bestLists == old(bestLists)
      ensures r == Incr32(old(refs[n])) && refs == old(refs)[n := r]
    {
      r := Incr32(refs[n]);
      refs := refs[n := r];
    }

    /** decr_ref: counter n goes down by one, wrapping at 0, and its new value is returned. */
    method DecrRef(n: nat) returns (r: nat)
      requires Valid() && n < |refs|
      modifies this
      ensures Valid() && sets == old(sets) && capsule == old(capsule) && Repr == old(Repr)
      ensures cutLists == old(cutLists) && bestLists == old(bestLists)
      ensures r == Decr32(old(refs[n])) && refs == old(refs)[n := r]
    {
      r := Decr32(refs[n]);
      refs := refs[n := r];
    }

    /** add_zero_cut: the constant's set gets the cut with no leaves. */
    method AddZeroCut(index: nat)
      requires Valid() && index < |sets| && |cutLists[index]| < MaxCutNum
      modifies this, sets[index]
      ensures Valid() && sets == old(sets) && capsule == old(capsule) && Repr == old(Repr)
      ensures refs == old(refs) && iter == old(iter) && totalTuples == old(totalTuples) && totalCuts == old(totalCuts)
      ensures bestLists == old(bestLists) && cutLists == old(cutLists)[index := old(cutLists[index]) + [ZeroCut()]]
    {
      AppendZero(sets[index]);
      cutLists := cutLists[index := sets[index].Cuts()];
    }

    /** add_unit_cut: node index's set gets the cut {index}. */
    method AddUnitCut(index: nat)
      requires Valid() && index < |sets| && |cutLists[index]| < MaxCutNum
      modifies this, sets[index]
      ensures Valid() && sets == old(sets) && capsule == old(capsule) && Repr == old(Repr)
      ensures refs == old(refs) && iter == old(iter) && totalTuples == old(totalTuples) && totalCuts == old(totalCuts)
      ensures bestLists == old(bestLists) && cutLists == old(cutLists)[index := old(cutLists[index]) + [UnitCut(index)]]
    {
      AppendUnit(sets[index], index);
      cutLists := cutLists[index := sets[index].Cuts()];
    }

    /** push_2_capsule: cut c goes into node index's best cuts, as cut_set's insert puts it. */
    method PushToCapsule(index: nat, c: CutValue)
      requires Valid() && index < |sets| && 0 < |c.leaves|
      modifies this, capsule[index], capsule[index].slots
      ensures Valid() && sets == old(sets) && capsule == old(capsule) && Repr == old(Repr)
      ensures refs == old(refs) && iter == old(iter) && totalTuples == old(totalTuples) && totalCuts == old(totalCuts)
      ensures cutLists == old(cutLists)
      ensures bestLists == old(bestLists)[index := InsertResult(old(bestLists[index]), c, MaxCutNum)]
    {
      capsule[index].Insert(c);
      bestLists := bestLists[index := capsule[index].Cuts()];
    }

    /** The cuts of node n, read from its set. */
    function CutsAt(n: nat): (r: seq<CutValue>)
      reads this, Repr
      requires Valid() && n < |sets|
      ensures r == cutLists[n]
    {
      assert Holds(sets[n], cutLists[n]);
      sets[n].Cuts()
    }

    /** The kept best cuts of node n, read from its set. */
    function BestAt(n: nat): (r: seq<CutValue>)
      reads this, Repr
      requires Valid() && n < |sets|
      ensures r == bestLists[n]
    {
      assert Holds(capsule[n], bestLists[n]);
      capsule[n].Cuts()
    }

    /** incre_total_tuples: a 32-bit counter. */
    method IncreTotalTuples(size: nat)
      requires Valid()
      modifies this
      ensures Valid() && sets == old(sets) && capsule == old(capsule) && Repr == old(Repr)
      ensures refs == old(refs) && iter == old(iter) && cutLists == old(cutLists) && bestLists == old(bestLists)
      ensures totalCuts == old(totalCuts) && totalTuples == Add32(old(totalTuples), size)
    {
      totalTuples := Add32(totalTuples, size);
    }

    /** incre_total_cuts. */
    method IncreTotalCuts(size: nat)
      requires Valid()
      modifies this
      ensures Valid() && sets == old(sets) && capsule == old(capsule) && Repr == old(Repr)
      ensures refs == old(refs) && iter == old(iter) && cutLists == old(cutLists) && bestLists == old(bestLists)
      ensures totalTuples == old(totalTuples) && totalCuts == old(totalCuts) + size
    {
      totalCuts := totalCuts + size;
    }

    /**
     * MergeInto on the set of node index, given its fanins' cuts and best
     * cuts; it returns the number of cuts kept before the unit cut.
     */
    method MergeAt(index: nat, l0: seq<CutValue>, l1: seq<CutValue>, b0: seq<CutValue>, b1: seq<CutValue>, ps: Params)
      returns (counted: nat)
      requires Valid() && index < |sets| && Mergeable(l0) && Mergeable(b0)
      requires 2 <= ps.cutLimit && WithinLimit(ps)
      modifies this, sets[index], sets[index].slots
      ensures Valid() && sets == old(sets) && capsule == old(capsule) && Repr == old(Repr)
      ensures refs == old(refs) && iter == old(iter) && bestLists == old(bestLists)
      ensures totalTuples == old(totalTuples) && totalCuts == old(totalCuts)
      ensures cutLists == old(cutLists)[index := cutLists[index]]
      ensures MergeOutcome(cutLists[index], l0, l1, b0, b1, ps, index)
      ensures counted == |Limited(Merged(l0, l1, b0, b1, ps.cutSize), ps.cutLimit - 1)|
    {
      counted := MergeInto(sets[index], l0, l1, b0, b1, ps, index);
      cutLists := cutLists[index := sets[index].Cuts()];
      forall i | 0 <= i < |sets| && i != index
        ensures Holds(sets[i], cutLists[i])
      {
        assert owner[sets[i]] != owner[sets[index]];
        assert old(Holds(sets[i], cutLists[i]));
      }
      forall i | 0 <= i < |capsule|
        ensures Holds(capsule[i], bestLists[i])
      {
        assert owner[capsule[i]] != owner[sets[index]];
        assert old(Holds(capsule[i], bestLists[i]));
      }
    }

    /**
     * merge_cuts2 for gate index with fanins f0 and f1: the gate's set
     * becomes the merge of the fanins' cuts and kept best cuts, limited to
     * cut_limit - 2 cuts, plus its unit cut; total_tuples counts the pairs
     * of the first cross product and total_cuts the cuts kept.
     */
    method MergeCuts2(index: nat, f0: nat, f1: nat, ps: Params)
      requires Valid() && index < |sets| && f0 < |sets| && f1 < |sets| && f0 != index && f1 != index
      requires Mergeable(cutLists[f0]) && Mergeable(bestLists[f0])
      requires 2 <= ps.cutLimit && WithinLimit(ps)
      modifies this, sets[index], sets[index].slots
      ensures Valid() && sets == old(sets) && capsule == old(capsule) && Repr == old(Repr)
      ensures refs == old(refs) && iter == old(iter) && bestLists == old(bestLists)
      ensures cutLists == old(cutLists)[index := cutLists[index]]
      ensures MergeOutcome(cutLists[index], cutLists[f0], cutLists[f1], bestLists[f0], bestLists[f1], ps, index)
      ensures totalTuples == Add32(old(totalTuples), Tuples(cutLists[f0], cutLists[f1]))
      ensures totalCuts == old(totalCuts) + |Limited(Merged(cutLists[f0], cutLists[f1], bestLists[f0], bestLists[f1], ps.cutSize), ps.cutLimit - 1)|
    {
      var l0 := CutsAt(f0);
      var l1 := CutsAt(f1);
      var b0 := BestAt(f0);
      var b1 := BestAt(f1);
      IncreTotalTuples(Tuples(l0, l1));
      var counted := MergeAt(index, l0, l1, b0, b1, ps);
      IncreTotalCuts(counted);
      assert cutLists[f0] == l0 && cutLists[f1] == l1;
    }

    /** What run's node loop does at node n. */
    method Visit(kinds: seq<NodeKind>, n: nat, first: bool, ps: Params)
      requires Valid() && |kinds| == |sets| && Topological(kinds) && n < |kinds|
      requires 2 <= ps.cutLimit && WithinLimit(ps)
      requires forall m :: 0 <= m < n && !kinds[m].Constant? ==> Mergeable(cutLists[m])
      requires forall m :: 0 <= m < n && !kinds[m].Constant? ==> Mergeable(bestLists[m])
      requires first && !kinds[n].Gate? ==> cutLists[n] == []
      modifies this, Repr
      ensures Valid() && sets == old(sets) && capsule == old(capsule) && Repr == old(Repr)
      ensures refs == old(refs) && iter == old(iter) && bestLists == old(bestLists)
      ensures cutLists == old(cutLists)[n := cutLists[n]]
      ensures NodeDone(kinds, old(cutLists[n]), cutLists, bestLists, ps, first, n)
      ensures !kinds[n].Constant? && (first || Mergeable(old(cutLists[n]))) ==> Mergeable(cutLists[n])
    {
      match kinds[n] {
        case Constant =>
          if first {
            AddZeroCut(n);
          }
        case Pi =>
          if first {
            AddUnitCut(n);
            UnitCutConsistent(n);
          }
        case Gate(f0, f1) =>
          MergeCuts2(n, f0, f1, ps);
          MergeOutcomeMergeable(cutLists[n], cutLists[f0], cutLists[f1], bestLists[f0], bestLists[f1], ps, n);
      }
    }

    /**
     * run: the iteration counter goes up (modulo 256); on the first
     * iteration the constant gets the zero cut and each primary input its
     * unit cut; on every iteration each gate, in order, gets the merge of
     * its fanins' cuts.
     */
    method Run(kinds: seq<NodeKind>, ps: Params)
      requires Valid() && |kinds| == |sets| && Topological(kinds)
      requires 2 <= ps.cutLimit && WithinLimit(ps)
      requires AllMergeable(kinds, cutLists) && AllMergeable(kinds, bestLists)
      requires (iter + 1) % 256 == 1 ==> forall n :: 0 <= n < |kinds| && !kinds[n].Gate? ==> cutLists[n] == []
      modifies this, Repr
      ensures Valid() && sets == old(sets) && capsule == old(capsule) && Repr == old(Repr)
      ensures refs == old(refs) && bestLists == old(bestLists)
      ensures iter == (old(iter) + 1) % 256
      ensures |cutLists| == |kinds| && RunUpTo(kinds, old(cutLists), cutLists, bestLists, ps, iter == 1, |kinds|)
      ensures AllMergeable(kinds, cutLists)
    {
      iter := (iter + 1) % 256;
      var first := iter == 1;
      ghost var start := cutLists;
      var n := 0;
      while n < |kinds|
        decreases |kinds| - n
        invariant n <= |kinds| && Valid() && |cutLists| == |kinds|
        invariant sets == old(sets) && capsule == old(capsule) && Repr == old(Repr)
        invariant refs == old(refs) && bestLists == old(bestLists) && iter == (old(iter) + 1) % 256
        invariant RunUpTo(kinds, start, cutLists, bestLists, ps, first, n)
        invariant forall m :: 0 <= m < n && !kinds[m].Constant? ==> Mergeable(cutLists[m])
      {
        ghost var before := cutLists;
        assert before[n] == start[n];
        Visit(kinds, n, first, ps);
        RunStep(kinds, start, before, bestLists, ps, first, n, cutLists[n]);
        MergeableStep(kinds, before, cutLists, n);
        n := n + 1;
      }
    }
  }
}
