/**
 * The and-inverter graph: signals (a node index with a complement bit),
 * primary inputs and outputs, structurally hashed two-input AND nodes,
 * fanout reference counters with a dead flag, and per-node flag bits.
 *
 * Node state words: data[0].h1 is the fanout counter whose top bit marks
 * a dead node, data[0].h2 an application value, data[1].h1 the visited
 * mark and data[1].h2 the flag bits (phase, mark a, mark b).
 */
module AigNetwork {
  import opened Wrappers
  import opened Node
  import opened NetworkStorage

  // ---------------------------------------------------------------------
  // signal

  /** A signal word: bit 0 is the complement flag, bits 1..63 the node index. */
  datatype Signal = Signal(data: nat)

  predicate ValidSignal(s: Signal) { s.data < WORD64 }

  /** signal(index, complement): both bit-fields truncate their value. */
  function MakeSignal(index: nat, complement: nat): (s: Signal)
    ensures ValidSignal(s)
  {
    Signal((index % WORD63) * 2 + complement % 2)
  }

  function SigIndex(s: Signal): nat { s.data / 2 }

  function SigComplement(s: Signal): nat { s.data % 2 }

  /** operator!: the word with its lowest bit flipped. */
  function Not(s: Signal): Signal {
    Signal(if s.data % 2 == 0 then s.data + 1 else s.data - 1)
  }

  /** operator+: the same node, uncomplemented. */
  function Pos(s: Signal): Signal { MakeSignal(SigIndex(s), 0) }

  /** operator-: the same node, complemented. */
  function Neg(s: Signal): Signal { MakeSignal(SigIndex(s), 1) }

  /** operator^(b): flips the complement iff b. */
  function XorBool(s: Signal, b: bool): Signal { if b then Not(s) else s }

  /** signal == node: the node itself, uncomplemented. */
  predicate IsNodeSignal(s: Signal, n: nat) { SigIndex(s) == n && SigComplement(s) == 0 }

  /** Conversion to the stored child pointer and back. */
  function ToPointer(s: Signal): NodePointer { NodePointer(s.data) }

  function FromPointer(p: NodePointer): Signal { Signal(p.data) }

  /** {index, 0}: the uncomplemented signal of a node (indices below 2^63). */
  function NodeSignal(n: nat): (s: Signal)
    ensures IsNodeSignal(s, n)
  {
    Signal(2 * n)
  }

  function GetConstant(value: bool): (s: Signal)
    ensures SigIndex(s) == 0 && (SigComplement(s) == 1 <==> value)
  {
    Signal(if value then 1 else 0)
  }

  /** The signal operators touch only the complement bit (or only set it). */
  lemma SignalOperators(s: Signal, b: bool)
    requires ValidSignal(s)
    ensures ValidSignal(Not(s)) && SigIndex(Not(s)) == SigIndex(s) && SigComplement(Not(s)) == 1 - SigComplement(s)
    ensures Not(Not(s)) == s
    ensures SigIndex(Pos(s)) == SigIndex(s) && SigComplement(Pos(s)) == 0
    ensures SigIndex(Neg(s)) == SigIndex(s) && SigComplement(Neg(s)) == 1
    ensures SigIndex(XorBool(s, b)) == SigIndex(s)
    ensures SigComplement(XorBool(s, b)) == if b then 1 - SigComplement(s) else SigComplement(s)
    ensures s.data == SigIndex(s) * 2 + SigComplement(s)
    ensures FromPointer(ToPointer(s)) == s
  {
  }

  /** The operator sequence of the primary-input test on the signal of node 1. */
  lemma SignalOperatorExample()
    ensures var a := Signal(2);
      && SigIndex(Not(a)) == 1 && SigComplement(Not(a)) == 1
      && Pos(Not(a)) == a && Pos(Pos(a)) == a
      && SigComplement(Neg(a)) == 1 && Neg(Neg(a)) == Neg(a)
      && XorBool(Neg(a), true) == a && XorBool(a, true) == Neg(a)
  {
  }

  // ---------------------------------------------------------------------
  // node-level views of the state words

  const DeadBit: nat := 0x8000_0000
  /** The largest fanout the 31-bit counter below the dead flag holds. */
  const MaxFanout: nat := 0x7FFF_FFFF

  /** is_ci: both child words are equal (they hold the input position). */
  predicate IsCiNode(nodes: seq<FixedNode>, n: nat) {
    n < |nodes| && |nodes[n].children| == 2 && nodes[n].children[0] == nodes[n].children[1]
  }

  /** fanout_size: the counter without the dead flag. */
  function FanoutOf(node: FixedNode): nat
    requires |node.data| == 2
  {
    H1(node.data[0]) % DeadBit
  }

  /** is_dead: bit 31 of the counter word. */
  predicate DeadNode(node: FixedNode)
    requires |node.data| == 2
  {
    H1(node.data[0]) >= DeadBit
  }

  predicate StatesOk(node: FixedNode) {
    Shaped(node) && ValidState(node.data[0]) && ValidState(node.data[1])
  }

  /** A live AND node: neither the constant, an input nor dead. */
  predicate LiveAnd(nodes: seq<FixedNode>, x: nat) {
    0 < x < |nodes| && StatesOk(nodes[x]) && !IsCiNode(nodes, x) && !DeadNode(nodes[x])
  }

  /**
   * Unless node i is the constant or an input, its two fanins are ordered,
   * non-constant and older than i.
   */
  predicate FaninsOk(nodes: seq<FixedNode>, i: nat)
    requires i < |nodes| && Shaped(nodes[i])
  {
    i == 0 || IsCiNode(nodes, i) || 0 < Index(nodes[i].children[0]) < Index(nodes[i].children[1]) < i
  }

  /** The same nodes with the same children (state words and links may differ). */
  predicate SameShape(nodes: seq<FixedNode>, nodes': seq<FixedNode>) {
    |nodes'| == |nodes|
    && forall i :: 0 <= i < |nodes| ==> nodes'[i].children == nodes[i].children
  }

  /**
   * The effect of take_out_node on nodes at most `bound`: the shape is kept,
   * nodes above `bound` keep their state, dead nodes stay dead, only gates
   * at most `bound` become dead, and no fanout counter grows.
   */
  ghost predicate Released(nodes0: seq<FixedNode>, nodes: seq<FixedNode>, bound: nat) {
    && SameShape(nodes0, nodes)
    && (forall i :: 0 <= i < |nodes| ==> StatesOk(nodes0[i]) && StatesOk(nodes[i]))
    && (forall i :: bound < i < |nodes| ==> nodes[i].data == nodes0[i].data)
    && (forall i :: 0 <= i < |nodes| && DeadNode(nodes0[i]) ==> DeadNode(nodes[i]))
    && (forall i :: 0 <= i < |nodes| && DeadNode(nodes[i]) && !DeadNode(nodes0[i]) ==> 0 < i <= bound && !IsCiNode(nodes, i))
    && (forall i :: 0 <= i < |nodes| ==> FanoutOf(nodes[i]) <= FanoutOf(nodes0[i]))
  }

  lemma ReleasedTrans(a: seq<FixedNode>, b: seq<FixedNode>, c: seq<FixedNode>, b1: nat, b2: nat)
    requires Released(a, b, b1) && Released(b, c, b2)
    ensures Released(a, c, if b1 < b2 then b2 else b1)
  {
  }

  /**
   * Every gate whose fanout counter went from positive to zero between the
   * two states is dead in the second: take_out_node frees it.
   */
  ghost predicate ZeroedDead(nodes0: seq<FixedNode>, nodes: seq<FixedNode>) {
    forall i ::
      (0 < i < |nodes| && i < |nodes0| && StatesOk(nodes0[i]) && StatesOk(nodes[i]) && !IsCiNode(nodes, i)
       && FanoutOf(nodes0[i]) > 0 && FanoutOf(nodes[i]) == 0) ==> DeadNode(nodes[i])
  }

  /**
   * take_out_node's fanin loop on gate n, as counters: the first fanin's
   * counter dropped if it was positive, and the second's (the larger index,
   * which releasing the first cannot reach) dropped by exactly one.
   */
  ghost predicate FaninsReleased(nodes0: seq<FixedNode>, nodes: seq<FixedNode>, n: nat) {
    && n < |nodes0| == |nodes| && |nodes0[n].children| == 2
    && var c0, c1 := Index(nodes0[n].children[0]), Index(nodes0[n].children[1]);
    && c0 < c1 < n
    && |nodes0[c0].data| == 2 && |nodes[c0].data| == 2 && |nodes0[c1].data| == 2 && |nodes[c1].data| == 2
    && (FanoutOf(nodes0[c0]) > 0 ==> FanoutOf(nodes[c0]) < FanoutOf(nodes0[c0]))
    && (FanoutOf(nodes0[c1]) > 0 ==> FanoutOf(nodes[c1]) == FanoutOf(nodes0[c1]) - 1)
  }

  /**
   * One dereference of node c: a positive counter drops by exactly one, and
   * a zero counter means nothing changed.
   */
  ghost predicate Derefed(nodes0: seq<FixedNode>, nodes: seq<FixedNode>, c: nat) {
    && c < |nodes0| && c < |nodes| && |nodes0[c].data| == 2 && |nodes[c].data| == 2
    && (FanoutOf(nodes0[c]) > 0 ==> FanoutOf(nodes[c]) == FanoutOf(nodes0[c]) - 1)
    && (FanoutOf(nodes0[c]) == 0 ==> nodes == nodes0)
  }

  /**
   * take_out_node's fanin loop on gate n after i of its two fanins: the
   * nodes released so far are at most n - 1, and the counters of the fanins
   * handled are down (the first) or down by one (the second, which is
   * untouched before its turn).
   */
  ghost predicate FaninProgress(nodes0: seq<FixedNode>, nodes: seq<FixedNode>, n: nat, i: nat) {
    && 0 < n < |nodes0| && Released(nodes0, nodes, n - 1) && ZeroedDead(nodes0, nodes)
    && |nodes0[n].children| == 2
    && var c0, c1 := Index(nodes0[n].children[0]), Index(nodes0[n].children[1]);
    && c0 < c1 < n
    && (i >= 1 && FanoutOf(nodes0[c0]) > 0 ==> FanoutOf(nodes[c0]) < FanoutOf(nodes0[c0]))
    && (i <= 1 ==> FanoutOf(nodes[c1]) == FanoutOf(nodes0[c1]))
    && (i >= 2 && FanoutOf(nodes0[c1]) > 0 ==> FanoutOf(nodes[c1]) == FanoutOf(nodes0[c1]) - 1)
  }

  /** Before the fanin loop of a dead gate. */
  lemma FaninStart(nodes: seq<FixedNode>, n: nat)
    requires 0 < n < |nodes| && !IsCiNode(nodes, n) && Shaped(nodes[n]) && FaninsOk(nodes, n)
    requires forall i :: 0 <= i < |nodes| ==> StatesOk(nodes[i])
    ensures FaninProgress(nodes, nodes, n, 0)
  {
  }

  /** After the fanin loop. */
  lemma FaninDone(nodes0: seq<FixedNode>, nodes: seq<FixedNode>, n: nat)
    requires FaninProgress(nodes0, nodes, n, 2)
    ensures FaninsReleased(nodes0, nodes, n)
  {
  }

  /** One round of the fanin loop moves FaninProgress on by one fanin. */
  lemma FaninStep(nodes0: seq<FixedNode>, before: seq<FixedNode>, nodes: seq<FixedNode>, n: nat, i: nat)
    requires i < 2 && FaninProgress(nodes0, before, n, i)
    requires var c := Index(nodes0[n].children[i]);
      Released(before, nodes, c) && ZeroedDead(before, nodes) && Derefed(before, nodes, c)
    ensures FaninProgress(nodes0, nodes, n, i + 1)
  {
    var c := Index(nodes0[n].children[i]);
    ReleasedTrans(nodes0, before, nodes, n - 1, c);
    ZeroedDeadTrans(nodes0, before, nodes, n - 1, c);
    var c0, c1 := Index(nodes0[n].children[0]), Index(nodes0[n].children[1]);
    if i == 0 {
      assert nodes[c1].data == before[c1].data;
    } else {
      assert FanoutOf(nodes[c0]) <= FanoutOf(before[c0]);
    }
  }

  /** A counter dropped to zero at c, and c was then taken out. */
  lemma DerefTakenOut(nodes0: seq<FixedNode>, nodes1: seq<FixedNode>, nodes: seq<FixedNode>, c: nat)
    requires c < |nodes0| == |nodes1| && nodes1 == nodes0[c := nodes1[c]]
    requires Released(nodes1, nodes, c) && ZeroedDead(nodes1, nodes)
    requires c == 0 || IsCiNode(nodes, c) || DeadNode(nodes[c])
    ensures ZeroedDead(nodes0, nodes)
  {
    forall i | 0 < i < |nodes| && StatesOk(nodes0[i]) && StatesOk(nodes[i]) && !IsCiNode(nodes, i)
        && FanoutOf(nodes0[i]) > 0 && FanoutOf(nodes[i]) == 0
      ensures DeadNode(nodes[i])
    {
      if i != c {
        assert nodes1[i] == nodes0[i];
      }
    }
  }

  /** take_out_node on a live gate n: marking it dead, then its fanin loop. */
  lemma TakeOutSteps(nodes0: seq<FixedNode>, nodes1: seq<FixedNode>, nodes: seq<FixedNode>, n: nat)
    requires 0 < n < |nodes0| && Released(nodes0, nodes1, n) && ZeroedDead(nodes0, nodes1)
    requires forall i :: 0 <= i < |nodes1| && i != n ==> nodes1[i].data == nodes0[i].data
    requires Released(nodes1, nodes, n - 1) && ZeroedDead(nodes1, nodes) && FaninsReleased(nodes1, nodes, n)
    ensures Released(nodes0, nodes, n) && ZeroedDead(nodes0, nodes) && FaninsReleased(nodes0, nodes, n)
    ensures nodes[n].data == nodes1[n].data
  {
    ReleasedTrans(nodes0, nodes1, nodes, n, n - 1);
    ZeroedDeadTrans(nodes0, nodes1, nodes, n, n - 1);
    FaninsReleasedAfterMark(nodes0, nodes1, nodes, n);
  }

  /** Marking gate n dead first does not touch the counters of its fanins. */
  lemma FaninsReleasedAfterMark(a: seq<FixedNode>, b: seq<FixedNode>, c: seq<FixedNode>, n: nat)
    requires |b| == |a| && n < |a| && b[n].children == a[n].children
    requires forall i :: 0 <= i < |a| && i != n ==> b[i].data == a[i].data
    requires FaninsReleased(b, c, n)
    ensures FaninsReleased(a, c, n)
  {
    var c0, c1 := Index(a[n].children[0]), Index(a[n].children[1]);
    assert b[c0].data == a[c0].data && b[c1].data == a[c1].data;
  }

  lemma ZeroedDeadTrans(a: seq<FixedNode>, b: seq<FixedNode>, c: seq<FixedNode>, b1: nat, b2: nat)
    requires Released(a, b, b1) && Released(b, c, b2) && ZeroedDead(a, b) && ZeroedDead(b, c)
    ensures ZeroedDead(a, c)
  {
    forall i | 0 < i < |c| && StatesOk(a[i]) && StatesOk(c[i]) && !IsCiNode(c, i) && FanoutOf(a[i]) > 0 && FanoutOf(c[i]) == 0
      ensures DeadNode(c[i])
    {
      assert IsCiNode(b, i) == IsCiNode(c, i);
    }
  }

  /** Marking a live gate dead (counter word 0x80000000) releases only that gate. */
  lemma MarkDeadReleases(nodes0: seq<FixedNode>, nodes: seq<FixedNode>, n: nat)
    requires forall i :: 0 <= i < |nodes0| ==> StatesOk(nodes0[i])
    requires LiveAnd(nodes0, n) && SameShape(nodes0, nodes)
    requires forall i :: 0 <= i < |nodes| && i != n ==> nodes[i].data == nodes0[i].data
    requires nodes[n].data == [SetH1(nodes0[n].data[0], DeadBit), nodes0[n].data[1]]
    ensures Released(nodes0, nodes, n)
    ensures DeadNode(nodes[n]) && FanoutOf(nodes[n]) == 0
  {
    assert H1(nodes[n].data[0]) == DeadBit;
    forall i | 0 <= i < |nodes| ensures StatesOk(nodes0[i]) && StatesOk(nodes[i]) {
    }
  }

  /** The fanout word after h1++ (a 32-bit increment). */
  function IncrFanoutState(node: FixedNode): (r: seq<NodeState>)
    requires StatesOk(node)
    ensures |r| == 2 && ValidState(r[0]) && r[1] == node.data[1]
  {
    [SetH1(node.data[0], H1(node.data[0]) + 1), node.data[1]]
  }

  /** Below the counter limit the increment adds one and keeps the dead flag. */
  lemma IncrFanoutCounts(node: FixedNode)
    requires StatesOk(node) && FanoutOf(node) < MaxFanout
    ensures var node' := node.(data := IncrFanoutState(node));
      && FanoutOf(node') == FanoutOf(node) + 1 && (DeadNode(node') <==> DeadNode(node))
      && H2(node'.data[0]) == H2(node.data[0])
  {
  }

  /** The fanout word after --h1 (a 32-bit decrement). */
  function DecrFanoutState(node: FixedNode): (r: seq<NodeState>)
    requires StatesOk(node)
    ensures |r| == 2 && ValidState(r[0]) && r[1] == node.data[1]
  {
    [SetH1(node.data[0], (H1(node.data[0]) + WORD32 - 1) % WORD32), node.data[1]]
  }

  /** On a positive counter the decrement subtracts one and keeps the dead flag. */
  lemma DecrFanoutCounts(node: FixedNode)
    requires StatesOk(node) && FanoutOf(node) > 0
    ensures var node' := node.(data := DecrFanoutState(node));
      && FanoutOf(node') == FanoutOf(node) - 1 && (DeadNode(node') <==> DeadNode(node))
      && H2(node'.data[0]) == H2(node.data[0])
  {
  }

  // ---------------------------------------------------------------------
  // flag bits of data[1].h2

  datatype Flag = Phase | MarkA | MarkB

  /** F_PHASE = 0x1, F_MARKA = 0x2, F_MARKB = 0x4. */
  function Mask(f: Flag): nat {
    match f
    case Phase => 1
    case MarkA => 2
    case MarkB => 4
  }

  /** `h & mask` is non-zero. */
  predicate HasFlag(h: nat, f: Flag) {
    match f
    case Phase => h % 2 == 1
    case MarkA => (h / 2) % 2 == 1
    case MarkB => (h / 4) % 2 == 1
  }

  /** `h |= mask` when b, `h &= ~mask` otherwise. */
  function SetFlag(h: nat, f: Flag, b: bool): nat {
    if b then (if HasFlag(h, f) then h else h + Mask(f))
    else (if HasFlag(h, f) then h - Mask(f) else h)
  }

  /** The three flags read off the low three bits of the word. */
  lemma FlagsOfLowBits(h: nat)
    ensures HasFlag(h, Phase) <==> h % 8 in {1, 3, 5, 7}
    ensures HasFlag(h, MarkA) <==> h % 8 in {2, 3, 6, 7}
    ensures HasFlag(h, MarkB) <==> h % 8 in {4, 5, 6, 7}
  {
    var r := h % 8;
    assert h == (h / 8) * 8 + r;
    assert h / 2 == (h / 8) * 4 + r / 2;
    assert h / 4 == (h / 8) * 2 + r / 4;
  }

  /** Setting one flag gives it the new value and leaves the other flags alone. */
  lemma SetFlagOnlyOwnBit(h: nat, f: Flag, b: bool, g: Flag)
    requires h < WORD32
    ensures SetFlag(h, f, b) < WORD32
    ensures HasFlag(SetFlag(h, f, b), g) == if g == f then b else HasFlag(h, g)
  {
    var h' := SetFlag(h, f, b);
    FlagsOfLowBits(h);
    FlagsOfLowBits(h');
    assert h' / 8 == h / 8;
  }

  // ---------------------------------------------------------------------
  // create_and: trivial cases

  /** The inputs ordered by node index (swapped only when a's index is larger). */
  function Ordered(a: Signal, b: Signal): (Signal, Signal) {
    if SigIndex(a) > SigIndex(b) then (b, a) else (a, b)
  }

  /**
   * The folded result of an AND that needs no node: x & x = x, x & !x = 0,
   * 1 & x = x and 0 & x = 0; None when a gate is needed.
   */
  function TrivialAnd(a: Signal, b: Signal): Option<Signal> {
    var (lo, hi) := Ordered(a, b);
    if SigIndex(lo) == SigIndex(hi) then
      Some(if SigComplement(lo) == SigComplement(hi) then lo else GetConstant(false))
    else if SigIndex(lo) == 0 then
      Some(if SigComplement(lo) == 1 then hi else GetConstant(false))
    else None
  }

  /** The folding laws, stated on signals. */
  lemma TrivialAndLaws(x: Signal)
    requires ValidSignal(x)
    ensures TrivialAnd(x, x) == Some(x)
    ensures TrivialAnd(x, Not(x)) == Some(GetConstant(false))
    ensures TrivialAnd(GetConstant(true), x) == Some(x)
    ensures TrivialAnd(GetConstant(false), x) == Some(GetConstant(false))
  {
  }

  /** Folding and ordering do not depend on the argument order. */
  lemma AndCommutes(a: Signal, b: Signal)
    ensures TrivialAnd(a, b) == TrivialAnd(b, a)
    ensures TrivialAnd(a, b).None? ==> Ordered(a, b) == Ordered(b, a)
  {
  }

  /** A gate is needed exactly when the indices differ and neither is the constant. */
  lemma TrivialAndNone(a: Signal, b: Signal)
    ensures TrivialAnd(a, b).None? <==> SigIndex(a) != SigIndex(b) && SigIndex(a) != 0 && SigIndex(b) != 0
    ensures TrivialAnd(a, b).None? ==> 0 < SigIndex(Ordered(a, b).0) < SigIndex(Ordered(a, b).1)
  {
  }

  /** The hashed node of a non-trivial AND: children ordered by index. */
  function AndNode(a: Signal, b: Signal): (n: FixedNode)
    ensures Shaped(n) && StatesOk(n) && n.next == 0
  {
    var (lo, hi) := Ordered(a, b);
    NewNode([ToPointer(lo), ToPointer(hi)], 2)
  }

  // ---------------------------------------------------------------------
  // the network

  class Aig {
    const st: Storage
    var travId: nat

    ghost predicate Valid()
      reads this, st
    {
      && st.Valid()
      && st.nodes[0].children == [NodePointer(0), NodePointer(0)]
      && (forall i :: 0 <= i < |st.nodes| ==> StatesOk(st.nodes[i]))
      && (forall i :: 0 <= i < |st.nodes| ==> FaninsOk(st.nodes, i))
      && (forall x: nat :: st.IsEntry(x) <==> LiveAnd(st.nodes, x))
      && (forall x: nat, y: nat :: st.IsEntry(x) && st.IsEntry(y) && st.nodes[x].children == st.nodes[y].children ==> x == y)
    }

    /** A fresh network: the constant node only, no inputs, outputs or gates. */
    constructor ()
      ensures Valid()
      ensures |st.nodes| == 1 && st.inputs == [] && st.outputs == [] && st.numPis == 0 && st.numPos == 0
      ensures st.numEntries == 0 && travId == 0
      ensures fresh(st)
    {
      st := new Storage();
      travId := 0;
    }

    function Size(): nat
      reads this, st
    {
      |st.nodes|
    }

    /** num_gates: the number of hashed AND nodes. */
    function NumGates(): nat
      reads this, st
    {
      st.numEntries
    }

    predicate IsConstant(n: nat) { n == 0 }

    predicate IsCi(n: nat)
      reads this, st
    {
      IsCiNode(st.nodes, n)
    }

    /** is_pi: a combinational input, i.e. its position is below num_pis. */
    predicate IsPi(n: nat)
      reads this, st
    {
      IsCi(n) && st.nodes[n].children[0].data < st.numPis
    }

    /** is_ro: an input at a position past the primary inputs. */
    predicate IsRo(n: nat)
      reads this, st
    {
      IsCi(n) && st.nodes[n].children[0].data >= st.numPis
    }

    predicate IsAnd(n: nat)
      reads this, st
    {
      n > 0 && !IsCi(n)
    }

    predicate IsCombinational()
      reads this, st
    {
      |st.inputs| == st.numPis && |st.outputs| == st.numPos
    }

    function FaninSize(n: nat): (r: nat)
      reads this, st
      ensures r == 0 <==> IsConstant(n) || IsCi(n)
    {
      if IsConstant(n) || IsCi(n) then 0 else 2
    }

    function FanoutSize(n: nat): nat
      requires Valid() && n < |st.nodes|
      reads this, st
    {
      FanoutOf(st.nodes[n])
    }

    predicate IsDead(n: nat)
      requires Valid() && n < |st.nodes|
      reads this, st
    {
      DeadNode(st.nodes[n])
    }

    function GetFlag(n: nat, f: Flag): bool
      requires Valid() && n < |st.nodes|
      reads this, st
    {
      HasFlag(H2(st.nodes[n].data[1]), f)
    }

    /** Node n's data words replaced; everything the invariant needs is kept. */
    /** No hashed gate has these children. */
    ghost predicate NoEntryWith(children: seq<NodePointer>)
      reads this, st
    {
      forall x: nat :: st.IsEntry(x) ==> st.nodes[x].children != children
    }

    method UpdateData(n: nat, data: seq<NodeState>)
      requires Valid() && n < |st.nodes| && |data| == 2 && ValidState(data[0]) && ValidState(data[1])
      requires H1(data[0]) >= DeadBit <==> DeadNode(st.nodes[n])
      modifies st
      ensures Valid()
      ensures st.nodes == old(st.nodes)[n := old(st.nodes)[n].(data := data)]
      ensures st.hash == old(st.hash) && st.chains == old(st.chains) && st.numEntries == old(st.numEntries)
      ensures st.inputs == old(st.inputs) && st.outputs == old(st.outputs)
      ensures st.numPis == old(st.numPis) && st.numPos == old(st.numPos)
    {
      st.SetData(n, data);
      forall x: nat ensures LiveAnd(st.nodes, x) <==> LiveAnd(old(st.nodes), x) {
        if x == n {
          assert st.nodes[n].children == old(st.nodes)[n].children;
        }
      }
      assert forall i :: 0 <= i < |st.nodes| ==> FaninsOk(st.nodes, i) by {
        forall i | 0 <= i < |st.nodes| ensures FaninsOk(st.nodes, i) {
          assert FaninsOk(old(st.nodes), i);
        }
      }
    }

    /** phase / mark_a / mark_b setters: rewrite one bit of data[1].h2. */
    method SetFlagOf(n: nat, f: Flag, b: bool)
      requires Valid() && n < |st.nodes|
      modifies st
      ensures Valid()
      ensures |st.nodes| == old(|st.nodes|)
      ensures GetFlag(n, f) == b
      ensures forall g :: g != f ==> GetFlag(n, g) == old(GetFlag(n, g))
      ensures forall i :: 0 <= i < |st.nodes| && i != n ==> st.nodes[i] == old(st.nodes[i])
      ensures st.nodes[n].children == old(st.nodes[n].children) && st.nodes[n].data[0] == old(st.nodes[n].data[0])
      ensures H1(st.nodes[n].data[1]) == old(H1(st.nodes[n].data[1]))
      ensures st.inputs == old(st.inputs) && st.outputs == old(st.outputs) && st.numEntries == old(st.numEntries)
      ensures st.numPis == old(st.numPis) && st.numPos == old(st.numPos)
    {
      var d := st.nodes[n].data;
      var h := H2(d[1]);
      forall g ensures SetFlag(h, f, b) < WORD32 && HasFlag(SetFlag(h, f, b), g) == if g == f then b else HasFlag(h, g) {
        SetFlagOnlyOwnBit(h, f, b, g);
      }
      UpdateData(n, [d[0], SetH2(d[1], SetFlag(h, f, b))]);
    }

    /** data[0].h1++ on node n (create_po and create_and raise the fanout so). */
    method IncrFanout(n: nat)
      requires Valid() && n < |st.nodes| && FanoutSize(n) < MaxFanout
      modifies st
      ensures Valid()
      ensures st.nodes == old(st.nodes)[n := old(st.nodes)[n].(data := IncrFanoutState(old(st.nodes)[n]))]
      ensures FanoutSize(n) == old(FanoutSize(n)) + 1 && IsDead(n) == old(IsDead(n))
      ensures st.inputs == old(st.inputs) && st.outputs == old(st.outputs) && st.numEntries == old(st.numEntries)
      ensures st.numPis == old(st.numPis) && st.numPos == old(st.numPos)
    {
      IncrFanoutCounts(st.nodes[n]);
      UpdateData(n, IncrFanoutState(st.nodes[n]));
    }

    /**
     * decr_fanout_size: --data[0].h1, returning the new fanout.  Only a
     * positive counter is decremented here.
     */
    method DecrFanoutSize(n: nat) returns (r: nat)
      requires Valid() && n < |st.nodes| && FanoutSize(n) > 0
      modifies st
      ensures Valid()
      ensures st.nodes == old(st.nodes)[n := old(st.nodes)[n].(data := DecrFanoutState(old(st.nodes)[n]))]
      ensures r == FanoutSize(n) == old(FanoutSize(n)) - 1 && IsDead(n) == old(IsDead(n))
      ensures st.inputs == old(st.inputs) && st.outputs == old(st.outputs) && st.numEntries == old(st.numEntries)
      ensures st.numPis == old(st.numPis) && st.numPos == old(st.numPos)
    {
      DecrFanoutCounts(st.nodes[n]);
      UpdateData(n, DecrFanoutState(st.nodes[n]));
      r := FanoutOf(st.nodes[n]);
    }

    /**
     * create_pi: appends a node whose two child words hold the input's
     * position, records it as the next input and clears its phase.
     */
    method CreatePi() returns (s: Signal)
      requires Valid()
      modifies st
      ensures Valid()
      ensures SigIndex(s) == old(|st.nodes|) && SigComplement(s) == 0
      ensures st.nodes == old(st.nodes) + [NewNode([NodePointer(old(|st.inputs|)), NodePointer(old(|st.inputs|))], 2)]
      ensures IsCi(SigIndex(s)) && !GetFlag(SigIndex(s), Phase)
      ensures st.inputs == old(st.inputs) + [old(|st.nodes|)] && st.numPis == old(st.numPis) + 1
      ensures st.outputs == old(st.outputs) && st.numPos == old(st.numPos) && st.numEntries == old(st.numEntries)
    {
      var k := |st.inputs|;
      var node := NewNode([NodePointer(k), NodePointer(k)], 2);
      var index := st.AddNode(node);
      st.PushInput(index);
      assert forall x: nat :: LiveAnd(st.nodes, x) <==> LiveAnd(old(st.nodes), x);
      assert forall i :: 0 <= i < |st.nodes| ==> FaninsOk(st.nodes, i) by {
        forall i | 0 <= i < |st.nodes| ensures FaninsOk(st.nodes, i) {
          if i < index {
            assert FaninsOk(old(st.nodes), i);
          }
        }
      }
      assert HasFlag(0, Phase) == false;
      s := Signal(index * 2);
    }

    /** create_po: raises the driver's fanout and appends the output. */
    method CreatePo(f: Signal) returns (po: nat)
      requires Valid() && ValidSignal(f) && SigIndex(f) < |st.nodes| && FanoutSize(SigIndex(f)) < MaxFanout
      modifies st
      ensures Valid()
      ensures po == old(|st.outputs|)
      ensures st.outputs == old(st.outputs) + [ToPointer(f)] && st.numPos == old(st.numPos) + 1
      ensures st.nodes == old(st.nodes)[SigIndex(f) := old(st.nodes)[SigIndex(f)].(data := IncrFanoutState(old(st.nodes)[SigIndex(f)]))]
      ensures FanoutSize(SigIndex(f)) == old(FanoutSize(SigIndex(f))) + 1
      ensures st.inputs == old(st.inputs) && st.numPis == old(st.numPis) && st.numEntries == old(st.numEntries)
    {
      IncrFanout(SigIndex(f));
      po := |st.outputs|;
      st.PushOutput(ToPointer(f));
    }

    /** The two fanout increments of create_and, on distinct children. */
    method IncrFanouts(l: nat, h: nat)
      requires Valid() && l < |st.nodes| && h < |st.nodes| && l != h
      requires FanoutSize(l) < MaxFanout && FanoutSize(h) < MaxFanout
      modifies st
      ensures Valid() && |st.nodes| == old(|st.nodes|)
      ensures FanoutSize(l) == old(FanoutSize(l)) + 1 && FanoutSize(h) == old(FanoutSize(h)) + 1
      ensures IsDead(l) == old(IsDead(l)) && IsDead(h) == old(IsDead(h))
      ensures forall i :: 0 <= i < |st.nodes| ==> st.nodes[i].children == old(st.nodes[i].children)
      ensures forall i :: 0 <= i < |st.nodes| && i != l && i != h ==> st.nodes[i] == old(st.nodes[i])
      ensures st.inputs == old(st.inputs) && st.outputs == old(st.outputs) && st.numEntries == old(st.numEntries)
      ensures st.numPis == old(st.numPis) && st.numPos == old(st.numPos)
    {
      IncrFanout(l);
      IncrFanout(h);
    }

    /**
     * The gate-creating half of create_and: appends the node and links it
     * into the hash table (the capacity reserve does not change the model).
     */
    method AddAnd(lo: Signal, hi: Signal) returns (index: nat)
      requires Valid() && ValidSignal(lo) && ValidSignal(hi)
      requires 0 < SigIndex(lo) < SigIndex(hi) < |st.nodes|
      requires forall x: nat :: st.IsEntry(x) ==> st.nodes[x].children != [ToPointer(lo), ToPointer(hi)]
      modifies st
      ensures Valid()
      ensures index == old(|st.nodes|) && |st.nodes| == index + 1
      ensures st.nodes[index].children == [ToPointer(lo), ToPointer(hi)] && st.nodes[index].data == NewNode([], 2).data
      ensures FanoutSize(index) == 0 && !IsDead(index) && st.IsEntry(index)
      ensures forall i :: 0 <= i < index ==> st.nodes[i].children == old(st.nodes[i].children) && st.nodes[i].data == old(st.nodes[i].data)
      ensures st.numEntries == old(st.numEntries) + 1
      ensures st.inputs == old(st.inputs) && st.outputs == old(st.outputs)
      ensures st.numPis == old(st.numPis) && st.numPos == old(st.numPos)
    {
      var node := NewNode([ToPointer(lo), ToPointer(hi)], 2);
      index := st.AddNode(node);
      st.HashInsert(node, index);
      ghost var nodes1 := old(st.nodes) + [node];
      assert st.nodes[index].children == node.children;
      assert st.nodes[index].data == node.data && node.data[0] == ZeroState;
      StateHalves(ZeroState);
      assert FanoutOf(st.nodes[index]) == 0 && !DeadNode(st.nodes[index]);
      forall x: nat ensures st.IsEntry(x) <==> LiveAnd(st.nodes, x) {
        if x < index {
          assert LiveAnd(st.nodes, x) <==> LiveAnd(old(st.nodes), x);
        }
      }
      forall i | 0 <= i < |st.nodes| ensures FaninsOk(st.nodes, i) {
        if i < index {
          assert FaninsOk(old(st.nodes), i);
        }
      }
    }

    /**
     * The new-gate path of create_and: the node is appended and hashed, its
     * phase is the AND of the children's phases under their complements,
     * and the fanout counters of both children go up by one.
     */
    method AddAndGate(lo: Signal, hi: Signal) returns (index: nat)
      requires Valid() && ValidSignal(lo) && ValidSignal(hi)
      requires 0 < SigIndex(lo) < SigIndex(hi) < |st.nodes|
      requires FanoutSize(SigIndex(lo)) < MaxFanout && FanoutSize(SigIndex(hi)) < MaxFanout
      requires forall x: nat :: st.IsEntry(x) ==> st.nodes[x].children != [ToPointer(lo), ToPointer(hi)]
      modifies st
      ensures Valid()
      ensures index == old(|st.nodes|) && |st.nodes| == index + 1
      ensures st.nodes[index].children == [ToPointer(lo), ToPointer(hi)] && st.IsEntry(index)
      ensures st.numEntries == old(st.numEntries) + 1
      ensures GetFlag(index, Phase) == ((old(GetFlag(SigIndex(lo), Phase)) != (SigComplement(lo) == 1))
                                        && (old(GetFlag(SigIndex(hi), Phase)) != (SigComplement(hi) == 1)))
      ensures FanoutSize(index) == 0 && !IsDead(index)
      ensures FanoutSize(SigIndex(lo)) == old(FanoutSize(SigIndex(lo))) + 1
      ensures FanoutSize(SigIndex(hi)) == old(FanoutSize(SigIndex(hi))) + 1
      ensures forall i :: 0 <= i < index ==> st.nodes[i].children == old(st.nodes[i].children)
      ensures forall i :: 0 <= i < index && i != SigIndex(lo) && i != SigIndex(hi) ==> st.nodes[i].data == old(st.nodes[i].data)
      ensures st.inputs == old(st.inputs) && st.outputs == old(st.outputs)
      ensures st.numPis == old(st.numPis) && st.numPos == old(st.numPos)
    {
      var ph := (GetFlag(SigIndex(lo), Phase) != (SigComplement(lo) == 1)) && (GetFlag(SigIndex(hi), Phase) != (SigComplement(hi) == 1));
      ghost var fl, fh := FanoutSize(SigIndex(lo)), FanoutSize(SigIndex(hi));
      index := AddAnd(lo, hi);
      assert FanoutSize(SigIndex(lo)) == fl && FanoutSize(SigIndex(hi)) == fh;
      SetFlagOf(index, Phase, ph);
      ghost var n2 := st.nodes[index];
      assert FanoutOf(n2) == 0 && !DeadNode(n2) && GetFlag(index, Phase) == ph;
      IncrFanouts(SigIndex(lo), SigIndex(hi));
      assert st.nodes[index] == n2;
    }

    /**
     * create_and: orders the inputs by index, folds the trivial cases,
     * returns the hashed node when one with the same children exists, and
     * otherwise adds a new gate.
     */
    method CreateAnd(a: Signal, b: Signal) returns (r: Signal)
      requires Valid() && ValidSignal(a) && ValidSignal(b)
      requires SigIndex(a) < |st.nodes| && SigIndex(b) < |st.nodes|
      requires FanoutSize(SigIndex(a)) < MaxFanout && FanoutSize(SigIndex(b)) < MaxFanout
      modifies st
      ensures Valid() && |st.nodes| >= old(|st.nodes|)
      ensures TrivialAnd(a, b).Some? ==> r == TrivialAnd(a, b).value && st.nodes == old(st.nodes)
      ensures TrivialAnd(a, b).None? ==> SigComplement(r) == 0 && st.IsEntry(SigIndex(r))
                                         && st.nodes[SigIndex(r)].children == AndNode(a, b).children
      ensures TrivialAnd(a, b).None? ==>
        (SigIndex(r) < old(|st.nodes|) <==> !old(NoEntryWith(AndNode(a, b).children)))
      ensures SigIndex(r) < old(|st.nodes|) ==> st.nodes == old(st.nodes) && st.numEntries == old(st.numEntries)
      ensures SigIndex(r) >= old(|st.nodes|) ==>
        var (lo, hi) := Ordered(a, b);
        && SigIndex(r) == old(|st.nodes|) && |st.nodes| == old(|st.nodes|) + 1
        && st.numEntries == old(st.numEntries) + 1
        && GetFlag(SigIndex(r), Phase) == ((old(GetFlag(SigIndex(lo), Phase)) != (SigComplement(lo) == 1))
                                           && (old(GetFlag(SigIndex(hi), Phase)) != (SigComplement(hi) == 1)))
        && FanoutSize(SigIndex(r)) == 0 && !IsDead(SigIndex(r))
        && FanoutSize(SigIndex(lo)) == old(FanoutSize(SigIndex(lo))) + 1
        && FanoutSize(SigIndex(hi)) == old(FanoutSize(SigIndex(hi))) + 1
        && (forall i :: 0 <= i < old(|st.nodes|) ==> st.nodes[i].children == old(st.nodes[i].children))
        && (forall i :: 0 <= i < old(|st.nodes|) && i != SigIndex(lo) && i != SigIndex(hi) ==> st.nodes[i].data == old(st.nodes[i].data))
      ensures st.inputs == old(st.inputs) && st.outputs == old(st.outputs)
      ensures st.numPis == old(st.numPis) && st.numPos == old(st.numPos)
    {
      var lo, hi := a, b;
      if SigIndex(a) > SigIndex(b) {
        lo, hi := b, a;
      }
      if SigIndex(lo) == SigIndex(hi) {
        return if SigComplement(lo) == SigComplement(hi) then lo else GetConstant(false);
      } else if SigIndex(lo) == 0 {
        return if SigComplement(lo) == 1 then hi else GetConstant(false);
      }
      var node := NewNode([ToPointer(lo), ToPointer(hi)], 2);
      var found := st.HashFind(node);
      if found != 0 {
        return NodeSignal(found);
      }
      var index := AddAndGate(lo, hi);
      r := NodeSignal(index);
    }

    /**
     * Structural hashing: asking for the same AND twice yields the same
     * signal, and the second request adds no node.
     */
    method CreateAndTwice(a: Signal, b: Signal) returns (r1: Signal, r2: Signal)
      requires Valid() && ValidSignal(a) && ValidSignal(b)
      requires SigIndex(a) < |st.nodes| && SigIndex(b) < |st.nodes|
      requires FanoutSize(SigIndex(a)) < MaxFanout - 1 && FanoutSize(SigIndex(b)) < MaxFanout - 1
      modifies st
      ensures Valid()
      ensures r1 == r2
      ensures |st.nodes| <= old(|st.nodes|) + 1 && st.numEntries <= old(st.numEntries) + 1
    {
      r1 := CreateAnd(a, b);
      ghost var size1, entries1 := |st.nodes|, st.numEntries;
      r2 := CreateAnd(a, b);
      if TrivialAnd(a, b).None? {
        assert SigIndex(r2) == SigIndex(r1);
        assert r2.data == 2 * SigIndex(r2) + SigComplement(r2);
      }
      assert |st.nodes| == size1 && st.numEntries == entries1;
    }

    /**
     * The first half of take_out_node: the counter word becomes 0x80000000
     * (fanout 0, dead) and the node leaves the hash table.
     */
    method MarkDead(n: nat)
      requires Valid() && LiveAnd(st.nodes, n)
      modifies st
      ensures Valid()
      ensures Released(old(st.nodes), st.nodes, n) && ZeroedDead(old(st.nodes), st.nodes)
      ensures forall i :: 0 <= i < |st.nodes| && i != n ==> st.nodes[i].data == old(st.nodes)[i].data
      ensures IsDead(n) && FanoutSize(n) == 0 && !st.IsEntry(n)
      ensures st.numEntries == old(st.numEntries) - 1
      ensures st.inputs == old(st.inputs) && st.outputs == old(st.outputs)
      ensures st.numPis == old(st.numPis) && st.numPos == old(st.numPos)
    {
      var node := st.nodes[n];
      st.SetData(n, [SetH1(node.data[0], DeadBit), node.data[1]]);
      FirstMatchSpec(st.nodes, st.hash, st.chains, node);
      st.HashErase(node);
      MarkDeadReleases(old(st.nodes), st.nodes, n);
      forall x: nat ensures st.IsEntry(x) <==> LiveAnd(st.nodes, x) {
        if x != n {
          assert LiveAnd(st.nodes, x) <==> LiveAnd(old(st.nodes), x);
        }
      }
      forall i | 0 <= i < |st.nodes| ensures FaninsOk(st.nodes, i) {
        assert FaninsOk(old(st.nodes), i);
      }
    }

    /**
     * One iteration of take_out_node's fanin loop: a child whose counter
     * is positive is dereferenced, and taken out when it reaches zero.
     */
    method ReleaseFanin(c: nat)
      requires Valid() && c < |st.nodes|
      modifies st
      decreases c, 2
      ensures Valid() && Released(old(st.nodes), st.nodes, c) && ZeroedDead(old(st.nodes), st.nodes)
      ensures st.numEntries <= old(st.numEntries)
      ensures old(FanoutSize(c)) > 0 ==> FanoutSize(c) < old(FanoutSize(c))
      ensures Derefed(old(st.nodes), st.nodes, c)
      ensures old(FanoutSize(c)) == 1 && !(c == 0 || IsCi(c) || old(IsDead(c))) ==> IsDead(c)
      ensures st.inputs == old(st.inputs) && st.outputs == old(st.outputs)
      ensures st.numPis == old(st.numPis) && st.numPos == old(st.numPos)
    {
      if FanoutSize(c) == 0 {
        return;
      }
      var r := DecrFanoutSize(c);
      ghost var nodes1 := st.nodes;
      assert Released(old(st.nodes), nodes1, c);
      if r == 0 {
        TakeOutNode(c);
        ReleasedTrans(old(st.nodes), nodes1, st.nodes, c, c);
        assert c == 0 || IsCi(c) || IsDead(c);
        DerefTakenOut(old(st.nodes), nodes1, st.nodes, c);
      }
    }

    /**
     * take_out_node: the constant, inputs and dead nodes are left alone;
     * any other node is marked dead, erased from the hash table, and each
     * fanin whose counter drops to zero is taken out in turn.
     */
    method TakeOutNode(n: nat)
      requires Valid() && n < |st.nodes|
      modifies st
      decreases n, 1
      ensures Valid() && Released(old(st.nodes), st.nodes, n) && ZeroedDead(old(st.nodes), st.nodes)
      ensures st.numEntries <= old(st.numEntries)
      ensures n == 0 || IsCi(n) || old(IsDead(n)) ==> st.nodes == old(st.nodes) && st.numEntries == old(st.numEntries)
      ensures !(n == 0 || IsCi(n) || old(IsDead(n))) ==>
        IsDead(n) && FanoutSize(n) == 0 && !st.IsEntry(n) && st.numEntries < old(st.numEntries)
      ensures !(n == 0 || IsCi(n) || old(IsDead(n))) ==> FaninsReleased(old(st.nodes), st.nodes, n)
      ensures st.inputs == old(st.inputs) && st.outputs == old(st.outputs)
      ensures st.numPis == old(st.numPis) && st.numPos == old(st.numPos)
    {
      if n == 0 || IsCi(n) || IsDead(n) {
        return;
      }
      MarkDead(n);
      ghost var nodes1 := st.nodes;
      ReleaseFanins(n);
      TakeOutSteps(old(st.nodes), nodes1, st.nodes, n);
    }

    /** The fanin loop of take_out_node, run on a gate that is already dead. */
    method ReleaseFanins(n: nat)
      requires Valid() && 0 < n < |st.nodes| && !IsCi(n)
      modifies st
      decreases n, 0
      ensures Valid() && Released(old(st.nodes), st.nodes, n - 1) && ZeroedDead(old(st.nodes), st.nodes)
      ensures st.numEntries <= old(st.numEntries)
      ensures st.inputs == old(st.inputs) && st.outputs == old(st.outputs)
      ensures st.numPis == old(st.numPis) && st.numPos == old(st.numPos)
      ensures FaninsReleased(old(st.nodes), st.nodes, n)
    {
      var children := st.nodes[n].children;
      assert FaninsOk(st.nodes, n);
      FaninStart(st.nodes, n);
      for i := 0 to 2
        invariant Valid() && FaninProgress(old(st.nodes), st.nodes, n, i)
        invariant st.numEntries <= old(st.numEntries)
        invariant st.inputs == old(st.inputs) && st.outputs == old(st.outputs)
        invariant st.numPis == old(st.numPis) && st.numPos == old(st.numPos)
      {
        ghost var before := st.nodes;
        ReleaseFanin(Index(children[i]));
        FaninStep(old(st.nodes), before, st.nodes, n, i);
      }
      FaninDone(old(st.nodes), st.nodes, n);
    }
  }
}
