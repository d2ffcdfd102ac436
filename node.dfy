/**
 * Node records of the network storage: a pointer word that packs a node
 * index with a small weight (the complement bit for AIGs), a 64-bit state
 * word read as two 32-bit halves, and a fixed-size node whose equality
 * looks only at its children.
 */
module Node {

  const WORD32: nat := 0x1_0000_0000
  const WORD63: nat := 0x8000_0000_0000_0000
  const WORD64: nat := 0x1_0000_0000_0000_0000

  // ---------------------------------------------------------------------
  // node_pointer

  /**
   * One 64-bit word.  The AIG instance has a one-bit weight field (the
   * complement flag) in the lowest bit and the index in the other 63 bits.
   */
  datatype NodePointer = NodePointer(data: nat)

  /** node_pointer(index, weight): both bit-fields truncate their value. */
  function MakePointer(index: nat, weight: nat): NodePointer {
    NodePointer((index % WORD63) * 2 + weight % 2)
  }

  function Index(p: NodePointer): nat { p.data / 2 }

  function Weight(p: NodePointer): nat { p.data % 2 }

  /** A constructed pointer fits one word and gives back its (truncated) fields. */
  lemma MakePointerFields(index: nat, weight: nat)
    ensures MakePointer(index, weight).data < WORD64
    ensures Index(MakePointer(index, weight)) == index % WORD63
    ensures Weight(MakePointer(index, weight)) == weight % 2
  {
  }

  /** Pointer equality compares the whole word, i.e. index and weight together. */
  lemma PointerEquality(p: NodePointer, q: NodePointer)
    ensures p == q <==> Index(p) == Index(q) && Weight(p) == Weight(q)
  {
  }

  /** node_pointer<0>: without a weight field the index is the whole word. */
  function IndexWithoutWeight(p: NodePointer): nat { p.data }

  // ---------------------------------------------------------------------
  // node_state

  /** A 64-bit word; h1 is its low and h2 its high 32-bit half. */
  datatype NodeState = NodeState(n: nat)

  const ZeroState: NodeState := NodeState(0)

  predicate ValidState(s: NodeState) { s.n < WORD64 }

  function H1(s: NodeState): nat { s.n % WORD32 }

  function H2(s: NodeState): nat { s.n / WORD32 }

  /** Assigning the low half truncates the value to 32 bits. */
  function SetH1(s: NodeState, v: nat): (r: NodeState)
    requires ValidState(s)
    ensures ValidState(r) && H1(r) == v % WORD32 && H2(r) == H2(s)
  {
    NodeState(H2(s) * WORD32 + v % WORD32)
  }

  /** Assigning the high half truncates the value to 32 bits. */
  function SetH2(s: NodeState, v: nat): (r: NodeState)
    requires ValidState(s)
    ensures ValidState(r) && H2(r) == v % WORD32 && H1(r) == H1(s)
  {
    NodeState((v % WORD32) * WORD32 + H1(s))
  }

  /** The word is the two halves side by side; the default state is zero in both. */
  lemma StateHalves(s: NodeState)
    requires ValidState(s)
    ensures s.n == H2(s) * WORD32 + H1(s) && H1(s) < WORD32 && H2(s) < WORD32
    ensures H1(ZeroState) == 0 && H2(ZeroState) == 0
  {
  }

  // ---------------------------------------------------------------------
  // fixed_node

  /** Children pointers, per-node state words and the hash-chain link. */
  datatype FixedNode = FixedNode(children: seq<NodePointer>, data: seq<NodeState>, next: nat)

  /** A node with the given children: all state zero, next 0 (end of chain). */
  function NewNode(children: seq<NodePointer>, size: nat): (r: FixedNode)
    ensures r.children == children && |r.data| == size && r.next == 0
    ensures forall i :: 0 <= i < size ==> r.data[i] == ZeroState
  {
    FixedNode(children, seq(size, i => ZeroState), 0)
  }

  /** fixed_node::operator== compares only the children. */
  predicate SameNode(a: FixedNode, b: FixedNode) {
    a.children == b.children
  }

  /** Two nodes that differ only in state and link are equal. */
  lemma SameNodeIgnoresStateAndLink(a: FixedNode, data: seq<NodeState>, next: nat)
    ensures SameNode(a, FixedNode(a.children, data, next))
  {
  }
}
