// Collapsing a mapped network into a k-LUT network. Every cell of the
// mapping becomes one LUT over the translations of its leaves. A node that
// outputs use only complemented is built complemented ("neg"); a node used
// both ways, or used complemented by an output and plain by a cell, gets
// two translations ("mixed"): the plain one and its opposite.
module NetworkToKlut {
  import opened Wrappers
  import TT = TruthTableCache
  import Bits

  /** How outputs and cells use a node: not at all, only plain, only complemented, or both ways. */
  datatype DriverType = NoDriver | Pos | Neg | Mixed

  /** An output of the source network: a node, complemented or not. */
  datatype Signal = Signal(node: nat, compl: bool)

  /**
   * A node of the mapped source network as the mapping interface shows it:
   * a constant, the k-th primary input, or a gate, which may be the root of
   * a cell with its leaves (the cell fanins) and its cell function.
   */
  datatype SrcNode = Const(value: bool) | Pi(index: nat) | Gate(root: bool, leaves: seq<nat>, table: TT.Table)

  datatype Source = Source(nodes: seq<SrcNode>, pis: seq<nat>, pos: seq<Signal>)

  // ---------------------------------------------------------------------
  // The source network
  // ---------------------------------------------------------------------

  predicate IsRoot(ntk: Source, n: nat) {
    n < |ntk.nodes| && ntk.nodes[n].Gate? && ntk.nodes[n].root
  }

  /** A node the collapse translates: a constant, a primary input or a cell root. */
  predicate IsCell(ntk: Source, x: nat) {
    x < |ntk.nodes| && (ntk.nodes[x].Gate? ==> ntk.nodes[x].root)
  }

  /** has_mapping: the mapping holds at least one cell. */
  predicate HasMapping(ntk: Source) {
    exists n :: 0 <= n < |ntk.nodes| && IsRoot(ntk, n)
  }

  /** num_gates() > 0. */
  predicate HasGates(ntk: Source) {
    exists n :: 0 <= n < |ntk.nodes| && ntk.nodes[n].Gate?
  }

  /** The node of get_constant(true): node 1 when the network has a separate constant-true node, else node 0. */
  function TrueNode(ntk: Source): (r: nat)
    ensures r == 0 || (r == 1 && |ntk.nodes| > 1)
  {
    if |ntk.nodes| > 1 && ntk.nodes[1] == Const(true) then 1 else 0
  }

  /** get_node(get_constant(value)). */
  function ConstantNode(ntk: Source, value: bool): nat {
    if value then TrueNode(ntk) else 0
  }

  /** Node 0 is constant false; a constant node is the node of its value. */
  predicate ConstantsOk(ntk: Source) {
    |ntk.nodes| > 0 && ntk.nodes[0] == Const(false)
    && forall n :: 0 <= n < |ntk.nodes| && ntk.nodes[n].Const? ==> n == ConstantNode(ntk, ntk.nodes[n].value)
  }

  /** pis lists every primary-input node once, the k-th being Pi(k). */
  predicate PisOk(ntk: Source) {
    (forall k :: 0 <= k < |ntk.pis| ==> ntk.pis[k] < |ntk.nodes| && ntk.nodes[ntk.pis[k]] == Pi(k))
    && forall n :: 0 <= n < |ntk.nodes| && ntk.nodes[n].Pi? ==>
      ntk.nodes[n].index < |ntk.pis| && ntk.pis[ntk.nodes[n].index] == n
  }

  /** Outputs and cell leaves name nodes of the network. */
  predicate InRange(ntk: Source) {
    (forall k :: 0 <= k < |ntk.pos| ==> ntk.pos[k].node < |ntk.nodes|)
    && forall n, j :: 0 <= n < |ntk.nodes| && ntk.nodes[n].Gate? && 0 <= j < |ntk.nodes[n].leaves| ==>
      ntk.nodes[n].leaves[j] < |ntk.nodes|
  }

  /** What every network under a mapping view satisfies. */
  predicate Network(ntk: Source) {
    ConstantsOk(ntk) && PisOk(ntk) && InRange(ntk)
  }

  /** A cell whose leaves are earlier translated nodes and whose function has one entry per leaf pattern. */
  predicate CellOk(ntk: Source, n: nat)
    requires n < |ntk.nodes| && ntk.nodes[n].Gate?
  {
    var g := ntk.nodes[n];
    |g.table| == Bits.Pow2(|g.leaves|)
    && forall j :: 0 <= j < |g.leaves| ==> g.leaves[j] < n && IsCell(ntk, g.leaves[j])
  }

  /** A complete mapping: every cell is well formed and every output is driven by a translated node. */
  predicate Mapped(ntk: Source) {
    (forall n :: 0 <= n < |ntk.nodes| && IsRoot(ntk, n) ==> CellOk(ntk, n))
    && forall k :: 0 <= k < |ntk.pos| ==> IsCell(ntk, ntk.pos[k].node)
  }

  // ---------------------------------------------------------------------
  // Evaluation of look-up tables and of both networks
  // ---------------------------------------------------------------------

  /** The row of a truth table selected by the values of its variables, variable 0 being the least significant bit. */
  function Row(vals: seq<bool>): (r: nat)
    ensures r < Bits.Pow2(|vals|)
  {
    if |vals| == 0 then 0 else (if vals[0] then 1 else 0) + 2 * Row(vals[1..])
  }

  /** A LUT's output for the values of its inputs (false outside the table). */
  function LutOut(table: TT.Table, vals: seq<bool>): bool {
    Row(vals) < |table| && table[Row(vals)]
  }

  lemma LutOutNot(table: TT.Table, vals: seq<bool>)
    requires |table| == Bits.Pow2(|vals|)
    ensures LutOut(TT.Not(table), vals) == !LutOut(table, vals)
  {
  }

  /** The value of input k under an assignment (false beyond its end). */
  function Input(inputs: seq<bool>, k: nat): bool {
    k < |inputs| && inputs[k]
  }

  /**
   * The value of node n of the mapped network when its k-th primary input
   * is input off + k: constants and inputs as given, a cell root by its
   * cell function over its leaves. A gate that is not a cell root has no
   * value in the mapped network.
   */
  function SValue(ntk: Source, inputs: seq<bool>, off: nat, n: nat): bool
    decreases n
  {
    if n >= |ntk.nodes| then false
    else match ntk.nodes[n]
      case Const(v) => v
      case Pi(k) => Input(inputs, off + k)
      case Gate(root, ls, t) =>
        root && LutOut(t, seq(|ls|, j requires 0 <= j < |ls| => ls[j] < n && SValue(ntk, inputs, off, ls[j])))
  }

  /** A node of the k-LUT network. */
  datatype KNode = KConst(value: bool) | KPi(index: nat) | Lut(children: seq<nat>, table: TT.Table)

  /** The value of node i of a k-LUT network under an input assignment. */
  function Eval(d: seq<KNode>, inputs: seq<bool>, i: nat): bool
    decreases i
  {
    if i >= |d| then false
    else match d[i]
      case KConst(v) => v
      case KPi(k) => Input(inputs, k)
      case Lut(ch, t) => LutOut(t, seq(|ch|, j requires 0 <= j < |ch| => ch[j] < i && Eval(d, inputs, ch[j])))
  }

  /** The one-input table of create_not. */
  const NotTable: TT.Table := [true, false]

  lemma {:induction false} EvalAppend(d: seq<KNode>, e: seq<KNode>, inputs: seq<bool>, i: nat)
    requires i < |d|
    ensures Eval(d + e, inputs, i) == Eval(d, inputs, i)
    decreases i
  {
    var de := d + e;
    assert de[i] == d[i];
    match d[i]
    case Lut(ch, t) =>
      forall j | 0 <= j < |ch| && ch[j] < i
        ensures Eval(de, inputs, ch[j]) == Eval(d, inputs, ch[j])
      {
        EvalAppend(d, e, inputs, ch[j]);
      }
      assert seq(|ch|, j requires 0 <= j < |ch| => ch[j] < i && Eval(de, inputs, ch[j]))
          == seq(|ch|, j requires 0 <= j < |ch| => ch[j] < i && Eval(d, inputs, ch[j]));
    case KConst(_) =>
    case KPi(_) =>
  }

  predicate Prefix(d: seq<KNode>, d': seq<KNode>) {
    |d| <= |d'| && d'[..|d|] == d
  }

  /** Node s of d computes node n of the source, complemented when flip is set, for every input assignment. */
  ghost predicate Realizes(ntk: Source, off: nat, d: seq<KNode>, n: nat, s: nat, flip: bool) {
    s < |d| && forall inputs: seq<bool> :: Eval(d, inputs, s) == (SValue(ntk, inputs, off, n) != flip)
  }

  lemma RealizesGrow(ntk: Source, off: nat, d: seq<KNode>, d': seq<KNode>, n: nat, s: nat, flip: bool)
    requires Realizes(ntk, off, d, n, s, flip) && Prefix(d, d')
    ensures Realizes(ntk, off, d', n, s, flip)
  {
    assert d' == d + d'[|d|..];
    forall inputs: seq<bool>
      ensures Eval(d', inputs, s) == (SValue(ntk, inputs, off, n) != flip)
    {
      EvalAppend(d, d'[|d|..], inputs, s);
    }
  }

  // ---------------------------------------------------------------------
  // Driver types
  // ---------------------------------------------------------------------

  /** The driver type of a node from whether some output uses it plain and whether some uses it complemented. */
  function Classify(plain: bool, compl: bool): DriverType {
    if plain && compl then Mixed else if plain then Pos else if compl then Neg else NoDriver
  }

  /** The switch of the first output pass: the type of a driver after one more output on it. */
  function PoStep(t: DriverType, compl: bool): (r: DriverType)
    ensures r != NoDriver
    ensures t == Mixed ==> r == Mixed
    ensures compl ==> r == Neg || r == Mixed
    ensures !compl ==> r == Pos || r == Mixed
  {
    match t
    case NoDriver => if compl then Neg else Pos
    case Pos => if compl then Mixed else Pos
    case Neg => if compl then Neg else Mixed
    case Mixed => Mixed
  }

  /** One step keeps the type equal to the classification of the outputs seen so far. */
  lemma PoStepClassify(plain: bool, compl: bool, c: bool)
    ensures PoStep(Classify(plain, compl), c) == Classify(plain || !c, compl || c)
  {
  }

  /** Some output among pos is node n with complement flag c. */
  predicate Drives(pos: seq<Signal>, n: nat, c: bool) {
    exists k :: 0 <= k < |pos| && pos[k] == Signal(n, c)
  }

  /** Some cell root among the first bound nodes has x among its leaves. */
  predicate FeedsCell(ntk: Source, x: nat, bound: nat) {
    exists m, j :: 0 <= m < bound && m < |ntk.nodes| && IsRoot(ntk, m)
      && 0 <= j < |ntk.nodes[m].leaves| && ntk.nodes[m].leaves[j] == x
  }

  /**
   * The driver type of node n once both passes are over: the classification
   * of the outputs on n, with "neg" raised to "mixed" when a cell uses n.
   */
  function DriverOf(ntk: Source, n: nat): (t: DriverType)
    ensures t == Mixed <==>
      (Drives(ntk.pos, n, true) && (Drives(ntk.pos, n, false) || FeedsCell(ntk, n, |ntk.nodes|)))
    ensures t == Neg <==> Drives(ntk.pos, n, true) && !Drives(ntk.pos, n, false) && !FeedsCell(ntk, n, |ntk.nodes|)
    ensures t == Pos <==> Drives(ntk.pos, n, false) && !Drives(ntk.pos, n, true)
    ensures t == NoDriver <==> !Drives(ntk.pos, n, false) && !Drives(ntk.pos, n, true)
  {
    var t := Classify(Drives(ntk.pos, n, false), Drives(ntk.pos, n, true));
    if t == Neg && FeedsCell(ntk, n, |ntk.nodes|) then Mixed else t
  }

  function DriverTypes(ntk: Source): (r: seq<DriverType>)
    ensures |r| == |ntk.nodes| && forall n :: 0 <= n < |r| ==> r[n] == DriverOf(ntk, n)
  {
    seq(|ntk.nodes|, n requires 0 <= n < |ntk.nodes| => DriverOf(ntk, n))
  }

  lemma DrivesPrefix(pos: seq<Signal>, i: nat, n: nat, c: bool)
    requires i < |pos|
    ensures Drives(pos[..i + 1], n, c) <==> Drives(pos[..i], n, c) || pos[i] == Signal(n, c)
  {
    if pos[i] == Signal(n, c) {
      assert pos[..i + 1][i] == pos[i];
    }
    if Drives(pos[..i + 1], n, c) && !Drives(pos[..i], n, c) {
      var k :| 0 <= k < i + 1 && pos[..i + 1][k] == Signal(n, c);
      if k < i {
        assert pos[..i][k] == pos[..i + 1][k];
      }
    }
    if Drives(pos[..i], n, c) {
      var k :| 0 <= k < i && pos[..i][k] == Signal(n, c);
      assert pos[..i + 1][k] == pos[..i][k];
    }
  }

  /** The first pass, over the outputs in order: each output moves its driver's type one PoStep. */
  method InitialDriverTypes(ntk: Source) returns (driver: seq<DriverType>)
    requires InRange(ntk)
    ensures |driver| == |ntk.nodes|
    ensures forall n :: 0 <= n < |driver| ==> driver[n] == Classify(Drives(ntk.pos, n, false), Drives(ntk.pos, n, true))
  {
    driver := seq(|ntk.nodes|, _ => NoDriver);
    var i := 0;
    while i < |ntk.pos|
      invariant i <= |ntk.pos| && |driver| == |ntk.nodes|
      invariant forall n :: 0 <= n < |driver| ==>
        driver[n] == Classify(Drives(ntk.pos[..i], n, false), Drives(ntk.pos[..i], n, true))
    {
      var f := ntk.pos[i];
      forall n, c | 0 <= n < |driver|
        ensures Drives(ntk.pos[..i + 1], n, c) <==> Drives(ntk.pos[..i], n, c) || f == Signal(n, c)
      {
        DrivesPrefix(ntk.pos, i, n, c);
      }
      PoStepClassify(Drives(ntk.pos[..i], f.node, false), Drives(ntk.pos[..i], f.node, true), f.compl);
      driver := driver[f.node := PoStep(driver[f.node], f.compl)];
      i := i + 1;
    }
    assert ntk.pos[..|ntk.pos|] == ntk.pos;
  }

  /** The inner loop of the second pass: each leaf of one cell whose type is "neg" becomes "mixed". */
  method MarkLeaves(leaves: seq<nat>, driver0: seq<DriverType>) returns (driver: seq<DriverType>)
    requires forall j :: 0 <= j < |leaves| ==> leaves[j] < |driver0|
    ensures |driver| == |driver0|
    ensures forall x :: 0 <= x < |driver| ==>
      driver[x] == if driver0[x] == Neg && x in leaves then Mixed else driver0[x]
  {
    driver := driver0;
    var j := 0;
    while j < |leaves|
      invariant j <= |leaves| && |driver| == |driver0|
      invariant forall x :: 0 <= x < |driver| ==>
        driver[x] == if driver0[x] == Neg && x in leaves[..j] then Mixed else driver0[x]
    {
      if driver[leaves[j]] == Neg {
        driver := driver[leaves[j] := Mixed];
      }
      assert leaves[..j + 1] == leaves[..j] + [leaves[j]];
      j := j + 1;
    }
    assert leaves[..j] == leaves;
  }

  /** The second pass, over all nodes: the leaves of every cell root are marked. */
  method MarkCellFanins(ntk: Source, driver0: seq<DriverType>) returns (driver: seq<DriverType>)
    requires InRange(ntk) && |driver0| == |ntk.nodes|
    ensures |driver| == |driver0|
    ensures forall x :: 0 <= x < |driver| ==>
      driver[x] == if driver0[x] == Neg && FeedsCell(ntk, x, |ntk.nodes|) then Mixed else driver0[x]
  {
    driver := driver0;
    var n := 0;
    while n < |ntk.nodes|
      invariant n <= |ntk.nodes| && |driver| == |driver0|
      invariant forall x :: 0 <= x < |driver| ==>
        driver[x] == if driver0[x] == Neg && FeedsCell(ntk, x, n) then Mixed else driver0[x]
    {
      ghost var before := driver;
      if IsRoot(ntk, n) {
        driver := MarkLeaves(ntk.nodes[n].leaves, driver);
      }
      forall x | 0 <= x < |driver|
        ensures driver[x] == if driver0[x] == Neg && FeedsCell(ntk, x, n + 1) then Mixed else driver0[x]
      {
        if IsRoot(ntk, n) && x in ntk.nodes[n].leaves {
          var j :| 0 <= j < |ntk.nodes[n].leaves| && ntk.nodes[n].leaves[j] == x;
          assert FeedsCell(ntk, x, n + 1);
        }
        if FeedsCell(ntk, x, n + 1) && !FeedsCell(ntk, x, n) {
          var m, j :| 0 <= m < n + 1 && m < |ntk.nodes| && IsRoot(ntk, m)
            && 0 <= j < |ntk.nodes[m].leaves| && ntk.nodes[m].leaves[j] == x;
          assert m == n;
        }
      }
      n := n + 1;
    }
  }

  // ---------------------------------------------------------------------
  // The k-LUT network that receives the collapse
  // ---------------------------------------------------------------------

  /** Node i is well formed: a constant is node 0 or 1, an input is one created so far, a LUT reads earlier nodes. */
  predicate NodeOk(d: seq<KNode>, numPis: nat, i: nat)
    requires i < |d|
  {
    match d[i]
    case KConst(_) => i < 2
    case KPi(k) => k < numPis
    case Lut(ch, _) => forall j :: 0 <= j < |ch| ==> ch[j] < i
  }

  /**
   * The destination network: node 0 is constant false, node 1 constant
   * true, and every create appends one node (the destination's structural
   * hashing is not modelled).
   */
  class Klut {
    var nodes: seq<KNode>
    var numPis: nat
    var outputs: seq<nat>

    predicate Valid()
      reads this
    {
      |nodes| >= 2 && nodes[0] == KConst(false) && nodes[1] == KConst(true)
      && (forall i :: 0 <= i < |nodes| ==> NodeOk(nodes, numPis, i))
      && forall k :: 0 <= k < |outputs| ==> outputs[k] < |nodes|
    }

    constructor ()
      ensures Valid() && nodes == [KConst(false), KConst(true)] && numPis == 0 && outputs == []
    {
      nodes := [KConst(false), KConst(true)];
      numPis := 0;
      outputs := [];
    }

    function GetConstant(value: bool): (s: nat)
      reads this
      requires Valid()
      ensures s < |nodes| && nodes[s] == KConst(value)
    {
      if value then 1 else 0
    }

    method CreatePi() returns (s: nat)
      requires Valid()
      modifies this
      ensures Valid() && s == |old(nodes)|
      ensures nodes == old(nodes) + [KPi(old(numPis))] && numPis == old(numPis) + 1 && outputs == old(outputs)
    {
      s := |nodes|;
      nodes := nodes + [KPi(numPis)];
      numPis := numPis + 1;
      forall i | 0 <= i < |nodes|
        ensures NodeOk(nodes, numPis, i)
      {
        if i < s {
          assert nodes[i] == old(nodes)[i] && NodeOk(old(nodes), old(numPis), i);
        }
      }
    }

    method CreateNode(children: seq<nat>, table: TT.Table) returns (s: nat)
      requires Valid() && forall j :: 0 <= j < |children| ==> children[j] < |nodes|
      modifies this
      ensures Valid() && s == |old(nodes)|
      ensures nodes == old(nodes) + [Lut(children, table)] && numPis == old(numPis) && outputs == old(outputs)
    {
      s := |nodes|;
      nodes := nodes + [Lut(children, table)];
      forall i | 0 <= i < |nodes|
        ensures NodeOk(nodes, numPis, i)
      {
        if i < s {
          assert nodes[i] == old(nodes)[i] && NodeOk(old(nodes), numPis, i);
        }
      }
    }

    method CreateNot(a: nat) returns (s: nat)
      requires Valid() && a < |nodes|
      modifies this
      ensures Valid() && s == |old(nodes)|
      ensures nodes == old(nodes) + [Lut([a], NotTable)] && numPis == old(numPis) && outputs == old(outputs)
    {
      s := CreateNode([a], NotTable);
    }

    method CreatePo(a: nat)
      requires Valid() && a < |nodes|
      modifies this
      ensures Valid() && nodes == old(nodes) && numPis == old(numPis) && outputs == old(outputs) + [a]
    {
      outputs := outputs + [a];
    }
  }

  /** A NOT node over a node computes its complement. */
  lemma NotValue(d: seq<KNode>, inputs: seq<bool>, a: nat)
    requires a < |d| - 1 && d[|d| - 1] == Lut([a], NotTable)
    ensures Eval(d, inputs, |d| - 1) == !Eval(d, inputs, a)
  {
    var args := seq(1, j requires 0 <= j < 1 => [a][j] < |d| - 1 && Eval(d, inputs, [a][j]));
    assert args == [Eval(d, inputs, a)];
    assert Row(args) == if Eval(d, inputs, a) then 1 else 0;
  }

  // ---------------------------------------------------------------------
  // The translation: node_to_signal (sig) and opposites (opp)
  // ---------------------------------------------------------------------

  /** Every translation is a node of the destination. */
  predicate Bounded(d: seq<KNode>, sig: seq<nat>, opp: map<nat, nat>) {
    (forall x :: 0 <= x < |sig| ==> sig[x] < |d|) && forall x :: x in opp ==> opp[x] < |d|
  }

  /** Only the translations of node n may differ between the two states. */
  predicate SameElsewhere(sig: seq<nat>, opp: map<nat, nat>, sig': seq<nat>, opp': map<nat, nat>, n: nat) {
    |sig'| == |sig|
    && (forall x :: 0 <= x < |sig| && x != n ==> sig'[x] == sig[x])
    && forall x :: x in opp && x != n ==> x in opp' && opp'[x] == opp[x]
  }

  /**
   * Node n is translated: sig[n] computes n, complemented when n's type is
   * "neg", and a "mixed" n also has an opposite computing its complement.
   */
  ghost predicate Translated(ntk: Source, off: nat, d: seq<KNode>, driver: seq<DriverType>, sig: seq<nat>, opp: map<nat, nat>, n: nat)
    requires n < |driver| && n < |sig|
  {
    Realizes(ntk, off, d, n, sig[n], driver[n] == Neg)
    && (driver[n] == Mixed ==> n in opp && Realizes(ntk, off, d, n, opp[n], true))
  }

  ghost predicate AllTranslated(ntk: Source, off: nat, d: seq<KNode>, driver: seq<DriverType>, sig: seq<nat>, opp: map<nat, nat>, done: set<nat>) {
    forall n :: n in done ==> n < |driver| && n < |sig| && Translated(ntk, off, d, driver, sig, opp, n)
  }

  /** Appending to the destination and touching no translation of a done node keeps every done node translated. */
  lemma AllTranslatedGrow(ntk: Source, off: nat, d: seq<KNode>, d': seq<KNode>, driver: seq<DriverType>,
                          sig: seq<nat>, opp: map<nat, nat>, sig': seq<nat>, opp': map<nat, nat>, done: set<nat>, n: nat)
    requires AllTranslated(ntk, off, d, driver, sig, opp, done) && Prefix(d, d')
    requires SameElsewhere(sig, opp, sig', opp', n) && n !in done
    ensures AllTranslated(ntk, off, d', driver, sig', opp', done)
  {
    forall x | x in done
      ensures x < |driver| && x < |sig'| && Translated(ntk, off, d', driver, sig', opp', x)
    {
      RealizesGrow(ntk, off, d, d', x, sig[x], driver[x] == Neg);
      if driver[x] == Mixed {
        RealizesGrow(ntk, off, d, d', x, opp[x], true);
      }
    }
  }

  /** The constant nodes, translated first. */
  function Constants(ntk: Source): set<nat> {
    set n | 0 <= n < |ntk.nodes| && ntk.nodes[n].Const?
  }

  /** The first i primary inputs. */
  function PisBelow(ntk: Source, i: nat): set<nat>
    requires i <= |ntk.pis|
  {
    set k | 0 <= k < i :: ntk.pis[k]
  }

  /** The cell roots among the first n nodes. */
  function RootsBelow(ntk: Source, n: nat): set<nat> {
    set m | 0 <= m < n && IsRoot(ntk, m)
  }

  /**
   * add_constant_to_map: the constant node of value gets the destination
   * constant of value, or of !value when its type is "neg"; a "mixed"
   * constant also gets the opposite constant.
   */
  method AddConstantToMap(ntk: Source, dest: Klut, driver: seq<DriverType>, sig: seq<nat>, opp: map<nat, nat>,
                          value: bool, ghost off: nat) returns (sig': seq<nat>, opp': map<nat, nat>)
    requires dest.Valid() && ConstantsOk(ntk) && |driver| == |ntk.nodes| && |sig| == |ntk.nodes|
    requires Bounded(dest.nodes, sig, opp)
    ensures var n := ConstantNode(ntk, value);
      n < |sig| && SameElsewhere(sig, opp, sig', opp', n) && Bounded(dest.nodes, sig', opp')
      && dest.nodes[sig'[n]] == KConst(value != (driver[n] == Neg))
      && (driver[n] == Mixed ==> n in opp' && dest.nodes[opp'[n]] == KConst(!value))
      && (driver[n] != Mixed ==> opp' == opp)
      && (ntk.nodes[n] == Const(value) ==> Translated(ntk, off, dest.nodes, driver, sig', opp', n))
  {
    var n := ConstantNode(ntk, value);
    match driver[n]
    case Neg =>
      sig' := sig[n := dest.GetConstant(!value)];
      opp' := opp;
    case Mixed =>
      sig' := sig[n := dest.GetConstant(value)];
      opp' := opp[n := dest.GetConstant(!value)];
    case _ =>
      sig' := sig[n := dest.GetConstant(value)];
      opp' := opp;
  }

  /** The nodes the translation of one primary input appends. */
  function PiNodes(p: nat, k: nat, t: DriverType): seq<KNode> {
    [KPi(k)] + if t == Neg || t == Mixed then [Lut([p], NotTable)] else []
  }

  /**
   * One primary input: exactly one destination input is created; a "neg"
   * input is translated to its negation, a "mixed" one to itself with the
   * negation as opposite.
   */
  method MapPi(ntk: Source, dest: Klut, driver: seq<DriverType>, sig: seq<nat>, opp: map<nat, nat>, k: nat, ghost off: nat)
    returns (sig': seq<nat>, opp': map<nat, nat>)
    requires dest.Valid() && PisOk(ntk) && k < |ntk.pis| && |driver| == |ntk.nodes| && |sig| == |ntk.nodes|
    requires Bounded(dest.nodes, sig, opp) && dest.numPis == off + k
    modifies dest
    ensures dest.Valid() && dest.numPis == old(dest.numPis) + 1 && dest.outputs == old(dest.outputs)
    ensures var n, p := ntk.pis[k], |old(dest.nodes)|;
      dest.nodes == old(dest.nodes) + PiNodes(p, old(dest.numPis), driver[n])
      && SameElsewhere(sig, opp, sig', opp', n) && Bounded(dest.nodes, sig', opp')
      && sig'[n] == (if driver[n] == Neg then p + 1 else p)
      && (driver[n] == Mixed ==> n in opp' && opp'[n] == p + 1)
      && (driver[n] != Mixed ==> opp' == opp)
      && Translated(ntk, off, dest.nodes, driver, sig', opp', n)
  {
    var n := ntk.pis[k];
    var p := dest.CreatePi();
    sig', opp' := sig[n := p], opp;
    if driver[n] == Neg {
      var q := dest.CreateNot(p);
      sig' := sig[n := q];
    } else if driver[n] == Mixed {
      var q := dest.CreateNot(sig'[n]);
      opp' := opp[n := q];
    }
    forall inputs: seq<bool>
      ensures Eval(dest.nodes, inputs, p) == SValue(ntk, inputs, off, n)
      ensures driver[n] == Neg || driver[n] == Mixed ==> Eval(dest.nodes, inputs, p + 1) == !SValue(ntk, inputs, off, n)
    {
      if driver[n] == Neg || driver[n] == Mixed {
        NotValue(dest.nodes, inputs, p);
      }
    }
  }

  /** The primary-input pass, in input order. */
  method MapPis(ntk: Source, dest: Klut, driver: seq<DriverType>, sig0: seq<nat>, opp0: map<nat, nat>, ghost off: nat)
    returns (sig: seq<nat>, opp: map<nat, nat>)
    requires dest.Valid() && Network(ntk) && |driver| == |ntk.nodes| && |sig0| == |ntk.nodes|
    requires Bounded(dest.nodes, sig0, opp0) && dest.numPis == off
    requires AllTranslated(ntk, off, dest.nodes, driver, sig0, opp0, Constants(ntk))
    modifies dest
    ensures dest.Valid() && dest.numPis == off + |ntk.pis| && dest.outputs == old(dest.outputs)
    ensures Prefix(old(dest.nodes), dest.nodes) && |sig| == |ntk.nodes| && Bounded(dest.nodes, sig, opp)
    ensures AllTranslated(ntk, off, dest.nodes, driver, sig, opp, Constants(ntk) + PisBelow(ntk, |ntk.pis|))
  {
    sig, opp := sig0, opp0;
    var i := 0;
    while i < |ntk.pis|
      invariant i <= |ntk.pis| && dest.Valid() && dest.numPis == off + i && dest.outputs == old(dest.outputs)
      invariant Prefix(old(dest.nodes), dest.nodes) && |sig| == |ntk.nodes| && Bounded(dest.nodes, sig, opp)
      invariant AllTranslated(ntk, off, dest.nodes, driver, sig, opp, Constants(ntk) + PisBelow(ntk, i))
    {
      ghost var d0, sig1, opp1 := dest.nodes, sig, opp;
      sig, opp := MapPi(ntk, dest, driver, sig, opp, i, off);
      ghost var n := ntk.pis[i];
      assert Prefix(old(dest.nodes), dest.nodes)
        && AllTranslated(ntk, off, dest.nodes, driver, sig, opp, Constants(ntk) + PisBelow(ntk, i + 1))
      by {
        forall k | 0 <= k < i
          ensures ntk.pis[k] != n
        {
          assert ntk.nodes[ntk.pis[k]] == Pi(k) && ntk.nodes[n] == Pi(i);
        }
        AllTranslatedGrow(ntk, off, d0, dest.nodes, driver, sig1, opp1, sig, opp, Constants(ntk) + PisBelow(ntk, i), n);
        assert PisBelow(ntk, i + 1) == PisBelow(ntk, i) + {n};
        assert dest.nodes[..|old(dest.nodes)|] == d0[..|old(dest.nodes)|];
      }
      i := i + 1;
    }
  }

  /** The signals of a cell's leaves, in leaf order. */
  function Children(leaves: seq<nat>, sig: seq<nat>): (r: seq<nat>)
    requires forall j :: 0 <= j < |leaves| ==> leaves[j] < |sig|
  {
    seq(|leaves|, j requires 0 <= j < |leaves| => sig[leaves[j]])
  }

  /** The foreach_cell_fanin loop that collects the children of a cell. */
  method CellChildren(leaves: seq<nat>, sig: seq<nat>) returns (children: seq<nat>)
    requires forall j :: 0 <= j < |leaves| ==> leaves[j] < |sig|
    ensures |children| == |leaves| && forall j :: 0 <= j < |leaves| ==> children[j] == sig[leaves[j]]
  {
    children := [];
    var j := 0;
    while j < |leaves|
      invariant j <= |leaves| && |children| == j
      invariant forall i :: 0 <= i < j ==> children[i] == sig[leaves[i]]
    {
      children := children + [sig[leaves[j]]];
      j := j + 1;
    }
  }

  /** The LUTs one cell becomes: its function, its complement for "neg", both for "mixed". */
  function CellNodes(ch: seq<nat>, t: TT.Table, ty: DriverType): seq<KNode> {
    if ty == Neg then [Lut(ch, TT.Not(t))]
    else if ty == Mixed then [Lut(ch, t), Lut(ch, TT.Not(t))]
    else [Lut(ch, t)]
  }

  /** One cell root of the node pass. */
  method MapCell(ntk: Source, dest: Klut, driver: seq<DriverType>, sig: seq<nat>, opp: map<nat, nat>, n: nat)
    returns (sig': seq<nat>, opp': map<nat, nat>)
    requires dest.Valid() && InRange(ntk) && IsRoot(ntk, n) && |driver| == |ntk.nodes| && |sig| == |ntk.nodes|
    requires Bounded(dest.nodes, sig, opp)
    modifies dest
    ensures dest.Valid() && dest.numPis == old(dest.numPis) && dest.outputs == old(dest.outputs)
    ensures var g, p := ntk.nodes[n], |old(dest.nodes)|;
      dest.nodes == old(dest.nodes) + CellNodes(Children(g.leaves, sig), g.table, driver[n])
      && sig' == sig[n := p]
      && (driver[n] == Mixed ==> opp' == opp[n := p + 1])
      && (driver[n] != Mixed ==> opp' == opp)
      && Bounded(dest.nodes, sig', opp')
  {
    var g := ntk.nodes[n];
    var children := CellChildren(g.leaves, sig);
    assert children == Children(g.leaves, sig);
    opp' := opp;
    var s;
    if driver[n] == Neg {
      s := dest.CreateNode(children, TT.Not(g.table));
    } else if driver[n] == Mixed {
      s := dest.CreateNode(children, g.table);
      var q := dest.CreateNode(children, TT.Not(g.table));
      opp' := opp[n := q];
    } else {
      s := dest.CreateNode(children, g.table);
    }
    sig' := sig[n := s];
  }

  /** A new LUT over translations of a cell's leaves computes the cell, or its complement. */
  lemma CellValue(ntk: Source, off: nat, d: seq<KNode>, d': seq<KNode>, ch: seq<nat>, n: nat, s: nat, table: TT.Table, flip: bool)
    requires IsRoot(ntk, n) && CellOk(ntk, n) && |ch| == |ntk.nodes[n].leaves|
    requires forall j :: 0 <= j < |ch| ==> ch[j] < |d|
    requires forall inputs: seq<bool>, j :: 0 <= j < |ch| ==>
      Eval(d, inputs, ch[j]) == SValue(ntk, inputs, off, ntk.nodes[n].leaves[j])
    requires Prefix(d, d') && |d| <= s < |d'| && d'[s] == Lut(ch, table)
    requires table == if flip then TT.Not(ntk.nodes[n].table) else ntk.nodes[n].table
    ensures Realizes(ntk, off, d', n, s, flip)
  {
    var g := ntk.nodes[n];
    assert d' == d + d'[|d|..];
    forall inputs: seq<bool>
      ensures Eval(d', inputs, s) == (SValue(ntk, inputs, off, n) != flip)
    {
      var args := seq(|ch|, j requires 0 <= j < |ch| => ch[j] < s && Eval(d', inputs, ch[j]));
      var sargs := seq(|g.leaves|, j requires 0 <= j < |g.leaves| => g.leaves[j] < n && SValue(ntk, inputs, off, g.leaves[j]));
      forall j | 0 <= j < |ch|
        ensures args[j] == sargs[j]
      {
        EvalAppend(d, d'[|d|..], inputs, ch[j]);
      }
      assert args == sargs;
      assert Eval(d', inputs, s) == LutOut(table, args);
      assert SValue(ntk, inputs, off, n) == LutOut(g.table, sargs);
      if flip {
        LutOutNot(g.table, args);
      }
    }
  }

  /**
   * The step of the node pass: once every leaf of cell root n is
   * translated, the LUTs for n translate n too. A leaf is never "neg" (the
   * second pass made it "mixed"), so its plain translation is its value.
   */
  lemma CellStep(ntk: Source, off: nat, d: seq<KNode>, driver: seq<DriverType>, sig: seq<nat>, opp: map<nat, nat>, n: nat, done: set<nat>)
    requires InRange(ntk) && Mapped(ntk) && IsRoot(ntk, n) && driver == DriverTypes(ntk)
    requires |sig| == |ntk.nodes| && Bounded(d, sig, opp) && n !in done
    requires AllTranslated(ntk, off, d, driver, sig, opp, done)
    requires forall j :: 0 <= j < |ntk.nodes[n].leaves| ==> ntk.nodes[n].leaves[j] in done
    ensures var g, p := ntk.nodes[n], |d|;
      AllTranslated(ntk, off, d + CellNodes(Children(g.leaves, sig), g.table, driver[n]), driver, sig[n := p],
                    if driver[n] == Mixed then opp[n := p + 1] else opp, done + {n})
  {
    var g, p := ntk.nodes[n], |d|;
    var ch := Children(g.leaves, sig);
    var d' := d + CellNodes(ch, g.table, driver[n]);
    var sig' := sig[n := p];
    var opp' := if driver[n] == Mixed then opp[n := p + 1] else opp;
    AllTranslatedGrow(ntk, off, d, d', driver, sig, opp, sig', opp', done, n);
    forall inputs: seq<bool>, j | 0 <= j < |ch|
      ensures Eval(d, inputs, ch[j]) == SValue(ntk, inputs, off, g.leaves[j])
    {
      var x := g.leaves[j];
      assert FeedsCell(ntk, x, |ntk.nodes|);
      assert Translated(ntk, off, d, driver, sig, opp, x);
    }
    assert d'[p] == Lut(ch, if driver[n] == Neg then TT.Not(g.table) else g.table);
    CellValue(ntk, off, d, d', ch, n, p, d'[p].table, driver[n] == Neg);
    if driver[n] == Mixed {
      CellValue(ntk, off, d, d', ch, n, p + 1, TT.Not(g.table), true);
    }
  }

  /** The nodes translated before the node pass reaches node n. */
  function DoneBefore(ntk: Source, n: nat): set<nat> {
    Constants(ntk) + PisBelow(ntk, |ntk.pis|) + RootsBelow(ntk, n)
  }

  /** The node pass adds node n to what is done exactly when n is a cell root. */
  lemma DoneStep(ntk: Source, n: nat)
    ensures IsRoot(ntk, n) ==> DoneBefore(ntk, n + 1) == DoneBefore(ntk, n) + {n}
    ensures !IsRoot(ntk, n) ==> DoneBefore(ntk, n + 1) == DoneBefore(ntk, n)
  {
    if IsRoot(ntk, n) {
      assert RootsBelow(ntk, n + 1) == RootsBelow(ntk, n) + {n};
    } else {
      assert RootsBelow(ntk, n + 1) == RootsBelow(ntk, n);
    }
  }

  /** Every node the collapse translates. */
  function Cells(ntk: Source): set<nat> {
    set x | 0 <= x < |ntk.nodes| && IsCell(ntk, x)
  }

  /** The node pass, in node order: every cell root becomes its LUTs. */
  method MapCells(ntk: Source, dest: Klut, driver: seq<DriverType>, sig0: seq<nat>, opp0: map<nat, nat>, ghost off: nat)
    returns (sig: seq<nat>, opp: map<nat, nat>)
    requires dest.Valid() && Network(ntk) && driver == DriverTypes(ntk) && |sig0| == |ntk.nodes|
    requires Bounded(dest.nodes, sig0, opp0)
    requires AllTranslated(ntk, off, dest.nodes, driver, sig0, opp0, DoneBefore(ntk, 0))
    modifies dest
    ensures dest.Valid() && dest.numPis == old(dest.numPis) && dest.outputs == old(dest.outputs)
    ensures Prefix(old(dest.nodes), dest.nodes) && |sig| == |ntk.nodes| && Bounded(dest.nodes, sig, opp)
    ensures Mapped(ntk) ==> AllTranslated(ntk, off, dest.nodes, driver, sig, opp, Cells(ntk))
  {
    sig, opp := sig0, opp0;
    var n := 0;
    while n < |ntk.nodes|
      invariant n <= |ntk.nodes| && dest.Valid() && dest.numPis == old(dest.numPis) && dest.outputs == old(dest.outputs)
      invariant Prefix(old(dest.nodes), dest.nodes) && |sig| == |ntk.nodes| && Bounded(dest.nodes, sig, opp)
      invariant Mapped(ntk) ==> AllTranslated(ntk, off, dest.nodes, driver, sig, opp, DoneBefore(ntk, n))
    {
      ghost var d0 := dest.nodes;
      sig, opp := MapNode(ntk, dest, driver, sig, opp, off, n);
      assert dest.nodes[..|old(dest.nodes)|] == d0[..|old(dest.nodes)|];
      n := n + 1;
    }
    assert Cells(ntk) <= DoneBefore(ntk, n) by {
      forall x | x in Cells(ntk)
        ensures x in DoneBefore(ntk, n)
      {
        if ntk.nodes[x].Pi? {
          assert ntk.pis[ntk.nodes[x].index] == x;
        }
      }
    }
  }

  /** One round of the node pass: a cell root is mapped, any other node is skipped. */
  method MapNode(ntk: Source, dest: Klut, driver: seq<DriverType>, sig: seq<nat>, opp: map<nat, nat>, ghost off: nat, n: nat)
    returns (sig': seq<nat>, opp': map<nat, nat>)
    requires dest.Valid() && Network(ntk) && driver == DriverTypes(ntk) && |sig| == |ntk.nodes| && n < |ntk.nodes|
    requires Bounded(dest.nodes, sig, opp)
    requires Mapped(ntk) ==> AllTranslated(ntk, off, dest.nodes, driver, sig, opp, DoneBefore(ntk, n))
    modifies dest
    ensures dest.Valid() && dest.numPis == old(dest.numPis) && dest.outputs == old(dest.outputs)
    ensures Prefix(old(dest.nodes), dest.nodes) && |sig'| == |ntk.nodes| && Bounded(dest.nodes, sig', opp')
    ensures Mapped(ntk) ==> AllTranslated(ntk, off, dest.nodes, driver, sig', opp', DoneBefore(ntk, n + 1))
  {
    DoneStep(ntk, n);
    sig', opp' := sig, opp;
    if IsRoot(ntk, n) {
      sig', opp' := MapCell(ntk, dest, driver, sig, opp, n);
      if Mapped(ntk) {
        LeavesDone(ntk, n);
        CellStep(ntk, off, old(dest.nodes), driver, sig, opp, n, DoneBefore(ntk, n));
      }
    }
  }

  lemma LeavesDone(ntk: Source, n: nat)
    requires Network(ntk) && Mapped(ntk) && IsRoot(ntk, n)
    ensures n !in DoneBefore(ntk, n)
    ensures forall j :: 0 <= j < |ntk.nodes[n].leaves| ==> ntk.nodes[n].leaves[j] in DoneBefore(ntk, n)
  {
    forall k | 0 <= k < |ntk.pis|
      ensures ntk.pis[k] != n
    {
      assert ntk.nodes[ntk.pis[k]] == Pi(k);
    }
    forall j | 0 <= j < |ntk.nodes[n].leaves|
      ensures ntk.nodes[n].leaves[j] in DoneBefore(ntk, n)
    {
      var x := ntk.nodes[n].leaves[j];
      assert CellOk(ntk, n);
      if ntk.nodes[x].Pi? {
        assert ntk.pis[ntk.nodes[x].index] == x;
      }
    }
  }

  // ---------------------------------------------------------------------
  // Outputs and the whole collapse
  // ---------------------------------------------------------------------

  /** opposites[n]: the entry for n, or a default signal (node 0) when there is none. */
  function Opposite(opp: map<nat, nat>, n: nat): nat {
    if n in opp then opp[n] else 0
  }

  /** The signal an output is given: the opposite of a "mixed" driver when complemented, else the driver's translation. */
  function PoSignal(driver: seq<DriverType>, sig: seq<nat>, opp: map<nat, nat>, f: Signal): nat
    requires f.node < |driver| && f.node < |sig|
  {
    if f.compl && driver[f.node] == Mixed then Opposite(opp, f.node) else sig[f.node]
  }

  /** Each output of a translated driver computes the output: the driver types never pick a wrong polarity. */
  lemma OutputSound(ntk: Source, off: nat, d: seq<KNode>, driver: seq<DriverType>, sig: seq<nat>, opp: map<nat, nat>, k: nat)
    requires k < |ntk.pos| && ntk.pos[k].node < |ntk.nodes| && driver == DriverTypes(ntk) && |sig| == |ntk.nodes|
    requires Translated(ntk, off, d, driver, sig, opp, ntk.pos[k].node)
    ensures Realizes(ntk, off, d, ntk.pos[k].node, PoSignal(driver, sig, opp, ntk.pos[k]), ntk.pos[k].compl)
  {
    var f := ntk.pos[k];
    assert Drives(ntk.pos, f.node, f.compl);
  }

  /** The output pass, in output order. */
  method CreateOutputs(ntk: Source, dest: Klut, driver: seq<DriverType>, sig: seq<nat>, opp: map<nat, nat>)
    requires dest.Valid() && InRange(ntk) && |driver| == |ntk.nodes| && |sig| == |ntk.nodes|
    requires Bounded(dest.nodes, sig, opp)
    modifies dest
    ensures dest.Valid() && dest.nodes == old(dest.nodes) && dest.numPis == old(dest.numPis)
    ensures |dest.outputs| == |old(dest.outputs)| + |ntk.pos|
    ensures dest.outputs[..|old(dest.outputs)|] == old(dest.outputs)
    ensures forall k :: 0 <= k < |ntk.pos| ==>
      dest.outputs[|old(dest.outputs)| + k] == PoSignal(driver, sig, opp, ntk.pos[k])
  {
    var i := 0;
    while i < |ntk.pos|
      invariant i <= |ntk.pos| && dest.Valid() && dest.nodes == old(dest.nodes) && dest.numPis == old(dest.numPis)
      invariant |dest.outputs| == |old(dest.outputs)| + i && dest.outputs[..|old(dest.outputs)|] == old(dest.outputs)
      invariant forall k :: 0 <= k < i ==> dest.outputs[|old(dest.outputs)| + k] == PoSignal(driver, sig, opp, ntk.pos[k])
    {
      var f := ntk.pos[i];
      if f.compl && driver[f.node] == Mixed {
        var o := if f.node in opp then opp[f.node] else 0;
        dest.CreatePo(o);
      } else {
        dest.CreatePo(sig[f.node]);
      }
      i := i + 1;
    }
  }

  /** Output k of the destination (from position base on) computes output k of the source, for every input assignment. */
  ghost predicate Computes(ntk: Source, off: nat, d: seq<KNode>, outs: seq<nat>) {
    |outs| == |ntk.pos|
    && forall k :: 0 <= k < |outs| ==> Realizes(ntk, off, d, ntk.pos[k].node, outs[k], ntk.pos[k].compl)
  }

  /** Both driver-type passes. */
  method ComputeDriverTypes(ntk: Source) returns (driver: seq<DriverType>)
    requires InRange(ntk)
    ensures driver == DriverTypes(ntk)
  {
    driver := InitialDriverTypes(ntk);
    driver := MarkCellFanins(ntk, driver);
  }

  /** The constants: false, then true when it is a node of its own. */
  method MapConstants(ntk: Source, dest: Klut, driver: seq<DriverType>, sig0: seq<nat>, opp0: map<nat, nat>, ghost off: nat)
    returns (sig: seq<nat>, opp: map<nat, nat>)
    requires dest.Valid() && ConstantsOk(ntk) && |driver| == |ntk.nodes| && |sig0| == |ntk.nodes|
    requires Bounded(dest.nodes, sig0, opp0)
    ensures |sig| == |ntk.nodes| && Bounded(dest.nodes, sig, opp)
    ensures AllTranslated(ntk, off, dest.nodes, driver, sig, opp, Constants(ntk))
  {
    sig, opp := AddConstantToMap(ntk, dest, driver, sig0, opp0, false, off);
    assert AllTranslated(ntk, off, dest.nodes, driver, sig, opp, {0});
    if ConstantNode(ntk, false) != ConstantNode(ntk, true) {
      ghost var sig1, opp1 := sig, opp;
      sig, opp := AddConstantToMap(ntk, dest, driver, sig, opp, true, off);
      assert AllTranslated(ntk, off, dest.nodes, driver, sig, opp, {0, 1}) by {
        AllTranslatedGrow(ntk, off, dest.nodes, dest.nodes, driver, sig1, opp1, sig, opp, {0}, 1);
      }
      assert Constants(ntk) == {0, 1};
    } else {
      assert Constants(ntk) == {0};
    }
  }

  /** Every pass of run before the outputs: on a complete mapping every translated node is translated right. */
  method TranslateNodes(ntk: Source, dest: Klut) returns (driver: seq<DriverType>, sig: seq<nat>, opp: map<nat, nat>)
    requires Network(ntk) && dest.Valid()
    modifies dest
    ensures dest.Valid() && Prefix(old(dest.nodes), dest.nodes) && dest.numPis == old(dest.numPis) + |ntk.pis|
    ensures dest.outputs == old(dest.outputs)
    ensures driver == DriverTypes(ntk) && |sig| == |ntk.nodes| && Bounded(dest.nodes, sig, opp)
    ensures Mapped(ntk) ==> AllTranslated(ntk, old(dest.numPis), dest.nodes, driver, sig, opp, Cells(ntk))
  {
    driver := ComputeDriverTypes(ntk);
    sig := seq(|ntk.nodes|, _ => 0);
    opp := map[];
    ghost var off := dest.numPis;
    sig, opp := MapConstants(ntk, dest, driver, sig, opp, off);
    ghost var d0 := dest.nodes;
    sig, opp := MapPis(ntk, dest, driver, sig, opp, off);
    ghost var d1 := dest.nodes;
    assert DoneBefore(ntk, 0) == Constants(ntk) + PisBelow(ntk, |ntk.pis|);
    sig, opp := MapCells(ntk, dest, driver, sig, opp, off);
    assert dest.nodes[..|d0|] == d1[..|d0|];
  }

  /**
   * collapse_mapped_network_impl::run: the two driver-type passes, the
   * constants, the primary inputs, the cells and the outputs. On a complete
   * mapping the new outputs compute the source's outputs, the source's k-th
   * input being the destination's input numbered from its inputs so far.
   */
  method Run(ntk: Source, dest: Klut)
    requires Network(ntk) && dest.Valid()
    modifies dest
    ensures dest.Valid() && Prefix(old(dest.nodes), dest.nodes) && dest.numPis == old(dest.numPis) + |ntk.pis|
    ensures |dest.outputs| == |old(dest.outputs)| + |ntk.pos| && dest.outputs[..|old(dest.outputs)|] == old(dest.outputs)
    ensures Mapped(ntk) ==> Computes(ntk, old(dest.numPis), dest.nodes, dest.outputs[|old(dest.outputs)|..])
  {
    var driver, sig, opp := TranslateNodes(ntk, dest);
    ghost var outs0 := dest.outputs;
    CreateOutputs(ntk, dest, driver, sig, opp);
    if Mapped(ntk) {
      forall k | 0 <= k < |ntk.pos|
        ensures Realizes(ntk, old(dest.numPis), dest.nodes, ntk.pos[k].node, dest.outputs[|outs0|..][k], ntk.pos[k].compl)
      {
        assert ntk.pos[k].node in Cells(ntk);
        OutputSound(ntk, old(dest.numPis), dest.nodes, driver, sig, opp, k);
      }
    }
  }

  /** The guard of network_to_klut: a network with gates but no mapping cannot be collapsed. */
  predicate Unmappable(ntk: Source) {
    !HasMapping(ntk) && HasGates(ntk)
  }

  /** network_to_klut returning an optional network: none exactly for an unmappable source, else a fresh collapse. */
  method NetworkToKlut(ntk: Source) returns (r: Option<Klut>)
    requires Network(ntk)
    ensures r.None? <==> Unmappable(ntk)
    ensures r.Some? ==> (fresh(r.value) && r.value.Valid() && r.value.numPis == |ntk.pis|
                         && (Mapped(ntk) ==> Computes(ntk, 0, r.value.nodes, r.value.outputs)))
  {
    if Unmappable(ntk) {
      r := None;
    } else {
      var dest := new Klut();
      Run(ntk, dest);
      assert dest.outputs[0..] == dest.outputs;
      r := Some(dest);
    }
  }

  /** network_to_klut into a given network: false, leaving it untouched, exactly for an unmappable source. */
  method NetworkToKlutInto(dest: Klut, ntk: Source) returns (ok: bool)
    requires Network(ntk) && dest.Valid()
    modifies dest
    ensures ok <==> !Unmappable(ntk)
    ensures !ok ==> dest.nodes == old(dest.nodes) && dest.numPis == old(dest.numPis) && dest.outputs == old(dest.outputs)
    ensures ok ==> (dest.Valid() && Prefix(old(dest.nodes), dest.nodes) && dest.numPis == old(dest.numPis) + |ntk.pis|
                    && |dest.outputs| == |old(dest.outputs)| + |ntk.pos| && dest.outputs[..|old(dest.outputs)|] == old(dest.outputs)
                    && (Mapped(ntk) ==> Computes(ntk, old(dest.numPis), dest.nodes, dest.outputs[|old(dest.outputs)|..])))
  {
    if Unmappable(ntk) {
      ok := false;
    } else {
      Run(ntk, dest);
      ok := true;
    }
  }
}
