// The and-inverter graph as the views and algorithms over it see it: each
// node is the constant, a primary input or a two-input AND gate whose
// fanin edges point to nodes created before it.
module AigGraph {
  /** A fanin or output edge: the node it comes from and whether it is complemented. */
  datatype Edge = Edge(node: nat, compl: bool)

  datatype Kind = Const | Pi | And(f0: Edge, f1: Edge)

  /** Gates only read nodes created before them. */
  predicate Topological(kinds: seq<Kind>) {
    forall n :: 0 <= n < |kinds| && kinds[n].And? ==> kinds[n].f0.node < n && kinds[n].f1.node < n
  }

  /** The value of node n under the primary-input values pv. */
  function Eval(kinds: seq<Kind>, pv: nat -> bool, n: nat): bool
    requires Topological(kinds) && n < |kinds|
    decreases n
  {
    match kinds[n]
    case Const => false
    case Pi => pv(n)
    case And(f0, f1) => EvalEdge(kinds, pv, f0, n) && EvalEdge(kinds, pv, f1, n)
  }

  /** The value carried by an edge into a gate at node `at`. */
  function EvalEdge(kinds: seq<Kind>, pv: nat -> bool, e: Edge, at: nat): bool
    requires Topological(kinds) && e.node < at <= |kinds|
    decreases at, 0
  {
    Eval(kinds, pv, e.node) != e.compl
  }

  /** Adding nodes at the end leaves the value of every existing node unchanged. */
  lemma {:induction false} EvalAppend(kinds: seq<Kind>, more: seq<Kind>, pv: nat -> bool, n: nat)
    requires Topological(kinds) && Topological(kinds + more) && n < |kinds|
    ensures Eval(kinds + more, pv, n) == Eval(kinds, pv, n)
    decreases n
  {
    assert (kinds + more)[n] == kinds[n];
    match kinds[n] {
      case Const =>
      case Pi =>
      case And(f0, f1) =>
        EvalAppend(kinds, more, pv, f0.node);
        EvalAppend(kinds, more, pv, f1.node);
    }
  }
}
