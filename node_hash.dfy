/** Hash mixers for 64-bit words and for nodes, all arithmetic wrapping mod 2^64. */
module NodeHash {
  import opened Node

  /** hash_block: w xor (w + (w << 6) + (w >> 2)). */
  function HashBlock(w: bv64): bv64 {
    w ^ (w + (w << 6) + (w >> 2))
  }

  const M: bv64 := 0xc6a4a7935bd1e995

  /** The new seed after hash_combine(seed, other). */
  function HashCombine(seed: bv64, other: bv64): bv64 {
    var o1 := other * M;
    var o2 := o1 ^ (o1 >> 47);
    var o3 := o2 * M;
    ((seed ^ o3) * M) + 0xe6546b64
  }

  predicate WordPointers(children: seq<NodePointer>) {
    forall i :: 0 <= i < |children| ==> children[i].data < WORD64
  }

  /** The 64-bit words of the children. */
  function Words(children: seq<NodePointer>): (ws: seq<bv64>)
    requires WordPointers(children)
    ensures |ws| == |children|
  {
    seq(|children|, i requires 0 <= i < |children| => children[i].data as bv64)
  }

  /** Reference definition: fold hash_combine over the words after the first. */
  function HashOfWords(ws: seq<bv64>): bv64
    decreases |ws|
  {
    if |ws| == 0 then 0
    else if |ws| == 1 then HashBlock(ws[0])
    else HashCombine(HashOfWords(ws[..|ws| - 1]), HashBlock(ws[|ws| - 1]))
  }

  /** node_hash: 0 without children, else seed with the first child's block and combine the rest in order. */
  method NodeHash(n: FixedNode) returns (h: bv64)
    requires WordPointers(n.children)
    ensures h == HashOfWords(Words(n.children))
  {
    var ws := Words(n.children);
    if |ws| == 0 {
      return 0;
    }
    h := HashBlock(ws[0]);
    var i := 1;
    assert ws[..1] == [ws[0]];
    while i < |ws|
      invariant 1 <= i <= |ws|
      invariant h == HashOfWords(ws[..i])
    {
      assert ws[..i + 1][..i] == ws[..i];
      h := HashCombine(h, HashBlock(ws[i]));
      i := i + 1;
    }
    assert ws[..i] == ws;
  }

  /** Nodes that compare equal (same children) hash equally, whatever their state and link. */
  lemma EqualNodesHashEqually(a: FixedNode, b: FixedNode)
    requires WordPointers(a.children) && SameNode(a, b)
    ensures WordPointers(b.children) && HashOfWords(Words(a.children)) == HashOfWords(Words(b.children))
  {
  }

  /** A node without children hashes to 0; a zero word hashes to 0 and the word 1 to 64. */
  lemma HashValues()
    ensures HashOfWords([]) == 0
    ensures HashBlock(0) == 0 && HashBlock(1) == 64
  {
  }
}
