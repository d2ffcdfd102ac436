/**
 * Network storage: the node vector (node 0 is the constant), the input and
 * output lists and a chained structural-hash table.  Bucket b of `hash`
 * holds the first node index of its chain and each node's `next` field
 * links to the following one; 0 ends a chain (node 0 is never chained).
 *
 * The ghost field `chains` lists every chain in order; `Valid` ties it to
 * `hash` and to the `next` links.
 */
module NetworkStorage {
  import opened Node

  /** Number of buckets of a fresh table. */
  const InitialBuckets: nat := 10000

  /** An AIG node: two children and two state words. */
  predicate Shaped(n: FixedNode) {
    |n.children| == 2 && |n.data| == 2
  }

  /** The weighted sum abc_hash computes over the two children, wrapped to 64 bits. */
  function HashKey(c: seq<NodePointer>): nat
    requires |c| == 2
  {
    (Index(c[0]) * 7937 + Index(c[1]) * 2971 + Weight(c[0]) * 911 + Weight(c[1]) * 353) % WORD64
  }

  /** abc_hash: the bucket of a node with children c in a table of `size` buckets. */
  function AbcHash(c: seq<NodePointer>, size: nat): (r: nat)
    requires |c| == 2 && size > 0
    ensures r < size
  {
    HashKey(c) % size
  }

  /** The bucket count hash_insert grows to: about 3.1415 times the old one. */
  function GrowSize(size: nat): (r: nat)
    requires size > 0
    ensures r > size
  {
    size * 31415 / 10000
  }

  function EmptyChains(k: nat): (c: seq<seq<nat>>)
    ensures |c| == k && forall b :: 0 <= b < k ==> c[b] == []
  {
    seq(k, _ => [])
  }

  function HeadOf(chain: seq<nat>): nat {
    if |chain| == 0 then 0 else chain[0]
  }

  function NextOf(chain: seq<nat>, i: nat): nat {
    if i + 1 < |chain| then chain[i + 1] else 0
  }

  /**
   * A chain of bucket b in a table of `size` buckets: non-zero, distinct
   * node indices that hash to b, each linked to the next by its `next`.
   */
  ghost predicate ChainOk(nodes: seq<FixedNode>, chain: seq<nat>, b: nat, size: nat)
    requires size > 0
  {
    && (forall i :: 0 <= i < |chain| ==>
          && 0 < chain[i] < |nodes|
          && |nodes[chain[i]].children| == 2
          && AbcHash(nodes[chain[i]].children, size) == b)
    && (forall i {:trigger NextOf(chain, i)} :: 0 <= i < |chain| ==> nodes[chain[i]].next == NextOf(chain, i))
    && (forall i, j :: 0 <= i < j < |chain| ==> chain[i] != chain[j])
  }

  /** Bucket b of the table: its head and its chain agree and the chain is well formed. */
  ghost predicate BucketOk(nodes: seq<FixedNode>, hash: seq<nat>, chains: seq<seq<nat>>, b: nat)
    requires b < |hash| == |chains|
  {
    hash[b] == HeadOf(chains[b]) && ChainOk(nodes, chains[b], b, |hash|)
  }

  ghost predicate TableOk(nodes: seq<FixedNode>, hash: seq<nat>, chains: seq<seq<nat>>) {
    && |hash| > 0 && |chains| == |hash|
    && forall b {:trigger BucketOk(nodes, hash, chains, b)} :: 0 <= b < |hash| ==> BucketOk(nodes, hash, chains, b)
  }

  /** x is linked into the chain of the bucket its children hash to. */
  ghost predicate InTable(nodes: seq<FixedNode>, chains: seq<seq<nat>>, x: nat) {
    0 < x < |nodes| && |nodes[x].children| == 2 && |chains| > 0
    && x in chains[AbcHash(nodes[x].children, |chains|)]
  }

  /** Number of entries chained in the first n buckets. */
  function CountTo(chains: seq<seq<nat>>, n: nat): nat
    requires n <= |chains|
  {
    if n == 0 then 0 else CountTo(chains, n - 1) + |chains[n - 1]|
  }

  /** Total number of chained entries. */
  function Count(chains: seq<seq<nat>>): nat {
    CountTo(chains, |chains|)
  }

  lemma {:induction false} CountToUpdate(chains: seq<seq<nat>>, b: nat, c: seq<nat>, n: nat)
    requires b < |chains| && n <= |chains|
    ensures CountTo(chains[b := c], n) + (if b < n then |chains[b]| else 0) == CountTo(chains, n) + (if b < n then |c| else 0)
  {
    if n > 0 {
      CountToUpdate(chains, b, c, n - 1);
    }
  }

  lemma CountUpdate(chains: seq<seq<nat>>, b: nat, c: seq<nat>)
    requires b < |chains|
    ensures Count(chains[b := c]) + |chains[b]| == Count(chains) + |c|
  {
    CountToUpdate(chains, b, c, |chains|);
  }

  lemma {:induction false} EmptyCountTo(k: nat, n: nat)
    requires n <= k
    ensures CountTo(EmptyChains(k), n) == 0
  {
    if n > 0 {
      EmptyCountTo(k, n - 1);
    }
  }

  lemma EmptyCount(k: nat)
    ensures Count(EmptyChains(k)) == 0
  {
    EmptyCountTo(k, k);
  }

  /** The first node of the chain whose children equal n's, or 0. */
  function FirstMatch(nodes: seq<FixedNode>, chain: seq<nat>, n: FixedNode): nat
    decreases |chain|
  {
    if |chain| == 0 then 0
    else if chain[0] < |nodes| && nodes[chain[0]].children == n.children then chain[0]
    else FirstMatch(nodes, chain[1..], n)
  }

  /** Position of the first match in the chain (|chain| if none). */
  function MatchPos(nodes: seq<FixedNode>, chain: seq<nat>, n: FixedNode): (k: nat)
    ensures k <= |chain|
    decreases |chain|
  {
    if |chain| == 0 then 0
    else if chain[0] < |nodes| && nodes[chain[0]].children == n.children then 0
    else 1 + MatchPos(nodes, chain[1..], n)
  }

  lemma {:induction false} MatchPosSpec(nodes: seq<FixedNode>, chain: seq<nat>, n: FixedNode)
    requires forall i :: 0 <= i < |chain| ==> 0 < chain[i] < |nodes|
    ensures var k := MatchPos(nodes, chain, n);
      && (forall i :: 0 <= i < k ==> nodes[chain[i]].children != n.children)
      && (k < |chain| ==> nodes[chain[k]].children == n.children && FirstMatch(nodes, chain, n) == chain[k])
      && (k == |chain| ==> FirstMatch(nodes, chain, n) == 0)
    decreases |chain|
  {
    if |chain| > 0 {
      MatchPosSpec(nodes, chain[1..], n);
      var k := MatchPos(nodes, chain, n);
      forall i | 0 <= i < k ensures nodes[chain[i]].children != n.children {
        if i > 0 {
          assert chain[i] == chain[1..][i - 1];
        }
      }
    }
  }

  /**
   * What a lookup along n's bucket finds: an entry with n's children, or 0
   * exactly when no entry has them.
   */
  lemma FirstMatchSpec(nodes: seq<FixedNode>, hash: seq<nat>, chains: seq<seq<nat>>, n: FixedNode)
    requires TableOk(nodes, hash, chains) && |n.children| == 2
    ensures var r := FirstMatch(nodes, chains[AbcHash(n.children, |hash|)], n);
      && (r != 0 ==> InTable(nodes, chains, r) && nodes[r].children == n.children)
      && (r == 0 <==> forall x: nat :: InTable(nodes, chains, x) ==> nodes[x].children != n.children)
  {
    var key := AbcHash(n.children, |hash|);
    var chain := chains[key];
    assert BucketOk(nodes, hash, chains, key);
    MatchPosSpec(nodes, chain, n);
    var m := MatchPos(nodes, chain, n);
    if m < |chain| {
      ChainedIsInTable(nodes, hash, chains, key, chain[m]);
    }
  }

  /** A chain stays well formed when its nodes keep their children and links. */
  lemma ChainFrame(nodes: seq<FixedNode>, nodes': seq<FixedNode>, chain: seq<nat>, b: nat, size: nat)
    requires size > 0 && ChainOk(nodes, chain, b, size) && |nodes| <= |nodes'|
    requires forall i :: 0 <= i < |chain| ==> nodes'[chain[i]].children == nodes[chain[i]].children && nodes'[chain[i]].next == nodes[chain[i]].next
    ensures ChainOk(nodes', chain, b, size)
  {
    forall i | 0 <= i < |chain| ensures nodes'[chain[i]].next == NextOf(chain, i) {
      assert nodes[chain[i]].next == NextOf(chain, i);
    }
  }

  /** A table stays well formed when no node changes children or link. */
  lemma TableFrame(nodes: seq<FixedNode>, nodes': seq<FixedNode>, hash: seq<nat>, chains: seq<seq<nat>>)
    requires TableOk(nodes, hash, chains)
    requires |nodes| <= |nodes'|
    requires forall i :: 0 <= i < |nodes| ==> nodes'[i].children == nodes[i].children && nodes'[i].next == nodes[i].next
    ensures TableOk(nodes', hash, chains)
    ensures forall x: nat :: x < |nodes| ==> (InTable(nodes', chains, x) <==> InTable(nodes, chains, x))
  {
    forall b | 0 <= b < |hash| ensures BucketOk(nodes', hash, chains, b) {
      assert BucketOk(nodes, hash, chains, b);
      ChainFrame(nodes, nodes', chains[b], b, |hash|);
    }
  }

  /** Every chained node lies in the chain of its own bucket. */
  lemma ChainedIsInTable(nodes: seq<FixedNode>, hash: seq<nat>, chains: seq<seq<nat>>, b: nat, x: nat)
    requires TableOk(nodes, hash, chains) && b < |hash| && x in chains[b]
    ensures InTable(nodes, chains, x) && AbcHash(nodes[x].children, |hash|) == b
  {
    assert BucketOk(nodes, hash, chains, b);
  }

  /** Linking x in front of a chain whose bucket it hashes to. */
  lemma ChainPrepend(nodes: seq<FixedNode>, chain: seq<nat>, b: nat, size: nat, x: nat)
    requires size > 0 && ChainOk(nodes, chain, b, size)
    requires 0 < x < |nodes| && |nodes[x].children| == 2 && AbcHash(nodes[x].children, size) == b && x !in chain
    ensures ChainOk(nodes[x := nodes[x].(next := HeadOf(chain))], [x] + chain, b, size)
  {
    var nodes' := nodes[x := nodes[x].(next := HeadOf(chain))];
    var c := [x] + chain;
    forall i | 0 <= i < |c| ensures nodes'[c[i]].next == NextOf(c, i) {
      if i > 0 {
        assert c[i] == chain[i - 1];
        assert nodes[chain[i - 1]].next == NextOf(chain, i - 1);
      }
    }
    forall i | 0 <= i < |c| ensures 0 < c[i] < |nodes'| && |nodes'[c[i]].children| == 2 && AbcHash(nodes'[c[i]].children, size) == b {
      if i > 0 {
        assert c[i] == chain[i - 1];
      }
    }
  }

  /** Unlinking position m of a chain (from the head, or by relinking its predecessor). */
  lemma ChainRemove(nodes: seq<FixedNode>, nodes': seq<FixedNode>, chain: seq<nat>, b: nat, size: nat, m: nat)
    requires size > 0 && ChainOk(nodes, chain, b, size) && m < |chain|
    requires m == 0 ==> nodes' == nodes
    requires m > 0 ==> nodes' == nodes[chain[m - 1] := nodes[chain[m - 1]].(next := nodes[chain[m]].next)]
    ensures ChainOk(nodes', chain[..m] + chain[m + 1..], b, size)
  {
    var c := chain[..m] + chain[m + 1..];
    forall i | 0 <= i < |c| ensures c[i] == chain[if i < m then i else i + 1] {
    }
    forall i | 0 <= i < |c| ensures 0 < c[i] < |nodes'| && |nodes'[c[i]].children| == 2 && AbcHash(nodes'[c[i]].children, size) == b {
    }
    forall i, j | 0 <= i < j < |c| ensures c[i] != c[j] {
      var i' := if i < m then i else i + 1;
      var j' := if j < m then j else j + 1;
      assert c[i] == chain[i'] && c[j] == chain[j'];
    }
    ChainRemoveLinks(nodes, nodes', chain, b, size, m);
  }

  /** The links of the chain with its m-th node unlinked. */
  lemma ChainRemoveLinks(nodes: seq<FixedNode>, nodes': seq<FixedNode>, chain: seq<nat>, b: nat, size: nat, m: nat)
    requires size > 0 && ChainOk(nodes, chain, b, size) && m < |chain|
    requires m == 0 ==> nodes' == nodes
    requires m > 0 ==> nodes' == nodes[chain[m - 1] := nodes[chain[m - 1]].(next := nodes[chain[m]].next)]
    ensures var c := chain[..m] + chain[m + 1..];
      forall i {:trigger NextOf(c, i)} :: 0 <= i < |c| ==> nodes'[c[i]].next == NextOf(c, i)
  {
    var c := chain[..m] + chain[m + 1..];
    assert nodes[chain[m]].next == NextOf(chain, m);
    forall i | 0 <= i < |c| ensures nodes'[c[i]].next == NextOf(c, i) {
      if m > 0 && i == m - 1 {
        assert c[i] == chain[m - 1];
      } else {
        var i' := if i < m then i else i + 1;
        assert c[i] == chain[i'];
        assert nodes[chain[i']].next == NextOf(chain, i');
        assert m > 0 ==> chain[i'] != chain[m - 1];
      }
    }
  }

  /** The entries after prepending x to the chain of x's bucket. */
  lemma InsertEntries(nodes: seq<FixedNode>, chains: seq<seq<nat>>, key: nat, x: nat)
    requires key < |chains| && 0 < x < |nodes| && |nodes[x].children| == 2 && AbcHash(nodes[x].children, |chains|) == key
    ensures forall y: nat :: InTable(nodes, chains[key := [x] + chains[key]], y) <==> InTable(nodes, chains, y) || y == x
  {
    var chains' := chains[key := [x] + chains[key]];
    forall y: nat ensures InTable(nodes, chains', y) <==> InTable(nodes, chains, y) || y == x {
      if 0 < y < |nodes| && |nodes[y].children| == 2 {
        var b := AbcHash(nodes[y].children, |chains|);
        if b == key {
          assert y in chains'[b] <==> y == x || y in chains[b];
        } else {
          assert chains'[b] == chains[b];
        }
      }
    }
  }

  /** The entries after removing position m of bucket key. */
  lemma RemoveEntries(nodes: seq<FixedNode>, chains: seq<seq<nat>>, key: nat, m: nat)
    requires key < |chains| && m < |chains[key]|
    requires 0 < chains[key][m] < |nodes| && |nodes[chains[key][m]].children| == 2
    requires AbcHash(nodes[chains[key][m]].children, |chains|) == key
    requires forall i, j :: 0 <= i < j < |chains[key]| ==> chains[key][i] != chains[key][j]
    ensures var chain := chains[key];
      forall y: nat :: InTable(nodes, chains[key := chain[..m] + chain[m + 1..]], y) <==> InTable(nodes, chains, y) && y != chain[m]
  {
    var chain := chains[key];
    var c := chain[..m] + chain[m + 1..];
    forall y: nat ensures y in c <==> y in chain && y != chain[m] {
      if y in chain && y != chain[m] {
        var i :| 0 <= i < |chain| && chain[i] == y;
        assert y == c[if i < m then i else i - 1];
      }
      if y in c {
        var i :| 0 <= i < |c| && c[i] == y;
        assert y == chain[if i < m then i else i + 1];
      }
    }
    var chains' := chains[key := c];
    forall y: nat ensures InTable(nodes, chains', y) <==> InTable(nodes, chains, y) && y != chain[m] {
      if 0 < y < |nodes| && |nodes[y].children| == 2 {
        var b := AbcHash(nodes[y].children, |chains|);
        if b != key {
          assert chains'[b] == chains[b];
        }
      }
    }
  }

  /** Prepending a node that is not chained keeps the table well formed. */
  lemma InsertOk(nodes: seq<FixedNode>, hash: seq<nat>, chains: seq<seq<nat>>, key: nat, index: nat)
    requires TableOk(nodes, hash, chains)
    requires 0 < index < |nodes| && |nodes[index].children| == 2 && AbcHash(nodes[index].children, |hash|) == key
    requires !InTable(nodes, chains, index)
    ensures TableOk(nodes[index := nodes[index].(next := hash[key])], hash[key := index], chains[key := [index] + chains[key]])
  {
    var nodes' := nodes[index := nodes[index].(next := hash[key])];
    var hash' := hash[key := index];
    var chains' := chains[key := [index] + chains[key]];
    forall b | 0 <= b < |hash'| ensures BucketOk(nodes', hash', chains', b) {
      assert BucketOk(nodes, hash, chains, b);
      if b == key {
        ChainPrepend(nodes, chains[b], b, |hash|, index);
      } else {
        if index in chains[b] {
          ChainedIsInTable(nodes, hash, chains, b, index);
        }
        ChainFrame(nodes, nodes', chains[b], b, |hash|);
      }
    }
  }

  /** Everything hash_insert's linking step changes, in one statement. */
  lemma LinkOk(nodes: seq<FixedNode>, hash: seq<nat>, chains: seq<seq<nat>>, key: nat, index: nat)
    requires TableOk(nodes, hash, chains)
    requires 0 < index < |nodes| && |nodes[index].children| == 2 && AbcHash(nodes[index].children, |hash|) == key
    requires !InTable(nodes, chains, index)
    ensures var nodes' := nodes[index := nodes[index].(next := hash[key])];
      var chains' := chains[key := [index] + chains[key]];
      && TableOk(nodes', hash[key := index], chains')
      && Count(chains') == Count(chains) + 1
      && forall y: nat :: InTable(nodes', chains', y) <==> InTable(nodes, chains, y) || y == index
  {
    var nodes' := nodes[index := nodes[index].(next := hash[key])];
    var chains' := chains[key := [index] + chains[key]];
    InsertOk(nodes, hash, chains, key, index);
    InsertEntries(nodes, chains, key, index);
    assert SameContents(nodes, nodes');
    InTableSameChildren(nodes, nodes', chains');
    CountUpdate(chains, key, [index] + chains[key]);
  }

  /** Unlinking position m of bucket key keeps the table well formed. */
  lemma EraseOk(nodes: seq<FixedNode>, hash: seq<nat>, chains: seq<seq<nat>>, key: nat, m: nat,
                nodes': seq<FixedNode>, hash': seq<nat>)
    requires TableOk(nodes, hash, chains) && key < |hash| && m < |chains[key]|
    requires BucketOk(nodes, hash, chains, key)
    requires m == 0 ==> nodes' == nodes && hash' == hash[key := nodes[chains[key][0]].next]
    requires m > 0 ==> (hash' == hash
      && nodes' == nodes[chains[key][m - 1] := nodes[chains[key][m - 1]].(next := nodes[chains[key][m]].next)])
    ensures TableOk(nodes', hash', chains[key := chains[key][..m] + chains[key][m + 1..]])
  {
    var chain := chains[key];
    var chains' := chains[key := chain[..m] + chain[m + 1..]];
    assert BucketOk(nodes, hash, chains, key);
    assert nodes[chain[0]].next == NextOf(chain, 0);
    forall b | 0 <= b < |hash'| ensures BucketOk(nodes', hash', chains', b) {
      assert BucketOk(nodes, hash, chains, b);
      if b == key {
        ChainRemove(nodes, nodes', chain, b, |hash|, m);
      } else {
        if m > 0 && chain[m - 1] in chains[b] {
          ChainedIsInTable(nodes, hash, chains, b, chain[m - 1]);
        }
        ChainFrame(nodes, nodes', chains[b], b, |hash|);
      }
    }
  }

  /** Everything hash_erase's unlinking step changes, in one statement. */
  lemma UnlinkOk(nodes: seq<FixedNode>, hash: seq<nat>, chains: seq<seq<nat>>, key: nat, m: nat,
                 nodes': seq<FixedNode>, hash': seq<nat>)
    requires TableOk(nodes, hash, chains) && key < |hash| && m < |chains[key]|
    requires BucketOk(nodes, hash, chains, key)
    requires m == 0 ==> nodes' == nodes && hash' == hash[key := nodes[chains[key][0]].next]
    requires m > 0 ==> (hash' == hash
      && nodes' == nodes[chains[key][m - 1] := nodes[chains[key][m - 1]].(next := nodes[chains[key][m]].next)])
    ensures var chains' := chains[key := chains[key][..m] + chains[key][m + 1..]];
      && TableOk(nodes', hash', chains')
      && SameContents(nodes, nodes')
      && Count(chains') + 1 == Count(chains)
      && forall y: nat :: InTable(nodes', chains', y) <==> InTable(nodes, chains, y) && y != chains[key][m]
  {
    var chain := chains[key];
    var chains' := chains[key := chain[..m] + chain[m + 1..]];
    EraseOk(nodes, hash, chains, key, m, nodes', hash');
    RemoveEntries(nodes, chains, key, m);
    assert SameContents(nodes, nodes');
    InTableSameChildren(nodes, nodes', chains');
    CountUpdate(chains, key, chain[..m] + chain[m + 1..]);
  }

  /** Children and state of every node are as in nodes0. */
  predicate SameContents(nodes0: seq<FixedNode>, nodes: seq<FixedNode>) {
    |nodes| == |nodes0| && forall j :: 0 <= j < |nodes| ==> nodes[j].children == nodes0[j].children && nodes[j].data == nodes0[j].data
  }

  /** The old chains from bucket i, position k on, still have their old links. */
  ghost predicate Pending(nodes0: seq<FixedNode>, nodes: seq<FixedNode>, oldChains: seq<seq<nat>>, i: nat, k: nat) {
    && (forall j, m :: i < j < |oldChains| && 0 <= m < |oldChains[j]| && oldChains[j][m] < |nodes| && oldChains[j][m] < |nodes0| ==>
          nodes[oldChains[j][m]].next == nodes0[oldChains[j][m]].next)
    && (i < |oldChains| ==> forall m :: k <= m < |oldChains[i]| && oldChains[i][m] < |nodes| && oldChains[i][m] < |nodes0| ==>
          nodes[oldChains[i][m]].next == nodes0[oldChains[i][m]].next)
  }

  /** x was chained in an old bucket before i, or among the first k of bucket i. */
  ghost predicate Before(nodes0: seq<FixedNode>, oldChains: seq<seq<nat>>, i: nat, k: nat, x: nat) {
    InTable(nodes0, oldChains, x)
    && (AbcHash(nodes0[x].children, |oldChains|) < i || (i < |oldChains| && k <= |oldChains[i]| && x in oldChains[i][..k]))
  }

  /**
   * The loop invariant of hash_reserve after buckets [0, i) and the first
   * k nodes of bucket i: the new table is well formed and holds exactly the
   * moved nodes; nodes not yet moved keep their links.
   */
  ghost predicate ReserveInv(nodes0: seq<FixedNode>, nodes: seq<FixedNode>, oldChains: seq<seq<nat>>,
                             newHash: seq<nat>, newChains: seq<seq<nat>>, i: nat, k: nat)
  {
    && SameContents(nodes0, nodes)
    && TableOk(nodes0, MapHeads(oldChains), oldChains)
    && TableOk(nodes, newHash, newChains)
    && i <= |oldChains| && (i < |oldChains| ==> k <= |oldChains[i]|)
    && Pending(nodes0, nodes, oldChains, i, k)
    && (forall x: nat :: InTable(nodes0, newChains, x) <==> Before(nodes0, oldChains, i, k, x))
  }

  function MapHeads(chains: seq<seq<nat>>): (h: seq<nat>)
    ensures |h| == |chains| && forall b :: 0 <= b < |chains| ==> h[b] == HeadOf(chains[b])
  {
    seq(|chains|, b requires 0 <= b < |chains| => HeadOf(chains[b]))
  }

  /** InTable only looks at children. */
  lemma InTableSameChildren(nodes0: seq<FixedNode>, nodes: seq<FixedNode>, chains: seq<seq<nat>>)
    requires SameContents(nodes0, nodes)
    ensures forall x: nat :: InTable(nodes, chains, x) <==> InTable(nodes0, chains, x)
  {
  }

  /** Moving the k-th node of old bucket i into the new table. */
  /** Relinking the k-th node of old bucket i leaves the later old nodes' links alone. */
  lemma ReservePending(nodes0: seq<FixedNode>, nodes: seq<FixedNode>, oldChains: seq<seq<nat>>, i: nat, k: nat, v: FixedNode)
    requires TableOk(nodes0, MapHeads(oldChains), oldChains) && i < |oldChains| && k < |oldChains[i]|
    requires BucketOk(nodes0, MapHeads(oldChains), oldChains, i)
    requires Pending(nodes0, nodes, oldChains, i, k) && oldChains[i][k] < |nodes|
    ensures Pending(nodes0, nodes[oldChains[i][k] := v], oldChains, i, k + 1)
  {
    var x := oldChains[i][k];
    var nodes' := nodes[x := v];
    forall j, m | i < j < |oldChains| && 0 <= m < |oldChains[j]| && oldChains[j][m] < |nodes'| && oldChains[j][m] < |nodes0|
      ensures nodes'[oldChains[j][m]].next == nodes0[oldChains[j][m]].next
    {
      if oldChains[j][m] == x {
        ChainedIsInTable(nodes0, MapHeads(oldChains), oldChains, j, x);
        ChainedIsInTable(nodes0, MapHeads(oldChains), oldChains, i, x);
      }
    }
  }

  /** Moving the k-th node of old bucket i adds exactly that node to the new entries. */
  lemma ReserveEntries(nodes0: seq<FixedNode>, oldChains: seq<seq<nat>>, newChains: seq<seq<nat>>, i: nat, k: nat, key: nat,
                       newChains': seq<seq<nat>>)
    requires i < |oldChains| && k < |oldChains[i]| && key < |newChains|
    requires InTable(nodes0, oldChains, oldChains[i][k]) && AbcHash(nodes0[oldChains[i][k]].children, |oldChains|) == i
    requires AbcHash(nodes0[oldChains[i][k]].children, |newChains|) == key
    requires forall x: nat :: InTable(nodes0, newChains, x) <==> Before(nodes0, oldChains, i, k, x)
    requires newChains' == newChains[key := [oldChains[i][k]] + newChains[key]]
    ensures forall y: nat :: InTable(nodes0, newChains', y) <==> Before(nodes0, oldChains, i, k + 1, y)
  {
    var c := oldChains[i];
    var x := c[k];
    InsertEntries(nodes0, newChains, key, x);
    assert c[..k + 1] == c[..k] + [x];
    var newChains' := newChains[key := [x] + newChains[key]];
    forall y: nat ensures InTable(nodes0, newChains', y) <==> Before(nodes0, oldChains, i, k + 1, y) {
      assert y in c[..k + 1] <==> y in c[..k] || y == x;
      assert Before(nodes0, oldChains, i, k + 1, y) <==> Before(nodes0, oldChains, i, k, y) || y == x;
      assert InTable(nodes0, newChains', y) <==> InTable(nodes0, newChains, y) || y == x;
    }
  }

  /** Moving the k-th node of old bucket i into the new table. */
  lemma ReserveStep(nodes0: seq<FixedNode>, nodes: seq<FixedNode>, oldChains: seq<seq<nat>>,
                    newHash: seq<nat>, newChains: seq<seq<nat>>, i: nat, k: nat)
    requires i < |oldChains| && k < |oldChains[i]|
    requires ReserveInv(nodes0, nodes, oldChains, newHash, newChains, i, k)
    requires BucketOk(nodes0, MapHeads(oldChains), oldChains, i)
    ensures var x := oldChains[i][k]; var key := AbcHash(nodes[x].children, |newHash|);
      && 0 < x < |nodes| && nodes[x].next == NextOf(oldChains[i], k)
      && ReserveInv(nodes0, nodes[x := nodes[x].(next := newHash[key])], oldChains, newHash[key := x],
                    newChains[key := [x] + newChains[key]], i, k + 1)
  {
    var c := oldChains[i];
    var x := c[k];
    assert nodes0[c[k]].next == NextOf(c, k);
    var key := AbcHash(nodes[x].children, |newHash|);
    var nodes' := nodes[x := nodes[x].(next := newHash[key])];
    ChainedIsInTable(nodes0, MapHeads(oldChains), oldChains, i, x);
    InTableSameChildren(nodes0, nodes, newChains);
    assert !Before(nodes0, oldChains, i, k, x) by {
      forall m | 0 <= m < k ensures c[..k][m] != x {
      }
    }
    InsertOk(nodes, newHash, newChains, key, x);
    ReserveEntries(nodes0, oldChains, newChains, i, k, key, newChains[key := [x] + newChains[key]]);
    ReservePending(nodes0, nodes, oldChains, i, k, nodes[x].(next := newHash[key]));
    assert SameContents(nodes0, nodes');
  }

  lemma ReserveNextBucket(nodes0: seq<FixedNode>, nodes: seq<FixedNode>, oldChains: seq<seq<nat>>,
                          newHash: seq<nat>, newChains: seq<seq<nat>>, i: nat)
    requires i < |oldChains| && ReserveInv(nodes0, nodes, oldChains, newHash, newChains, i, |oldChains[i]|)
    ensures ReserveInv(nodes0, nodes, oldChains, newHash, newChains, i + 1, 0)
  {
    assert oldChains[i][..|oldChains[i]|] == oldChains[i];
    forall x: nat ensures Before(nodes0, oldChains, i, |oldChains[i]|, x) <==> Before(nodes0, oldChains, i + 1, 0, x) {
      if InTable(nodes0, oldChains, x) && x in oldChains[i] {
        ChainedIsInTable(nodes0, MapHeads(oldChains), oldChains, i, x);
      }
    }
  }

  /**
   * The inner loop of hash_reserve: walks old bucket i and pushes each of
   * its nodes onto the front of its bucket in the new table.
   */
  method MoveBucket(ghost nodes0: seq<FixedNode>, nodes: seq<FixedNode>, ghost oldChains: seq<seq<nat>>,
                    newHash: seq<nat>, ghost newChains: seq<seq<nat>>, i: nat, head: nat)
    returns (nodes': seq<FixedNode>, newHash': seq<nat>, ghost newChains': seq<seq<nat>>)
    requires i < |oldChains| && ReserveInv(nodes0, nodes, oldChains, newHash, newChains, i, 0)
    requires head == HeadOf(oldChains[i])
    ensures |newHash'| == |newHash|
    ensures ReserveInv(nodes0, nodes', oldChains, newHash', newChains', i + 1, 0)
    ensures Count(newChains') == Count(newChains) + |oldChains[i]|
  {
    ghost var c := oldChains[i];
    assert BucketOk(nodes0, MapHeads(oldChains), oldChains, i);
    assert c == [] || nodes0[c[0]].next == NextOf(c, 0);
    nodes', newHash', newChains' := nodes, newHash, newChains;
    var pEnt := head;
    var pEnt2 := if pEnt != 0 then nodes'[pEnt].next else 0;
    ghost var k := 0;
    while pEnt != 0
      invariant k <= |c| && pEnt == HeadOf(c[k..]) && pEnt2 == NextOf(c, k)
      invariant |newHash'| == |newHash|
      invariant ReserveInv(nodes0, nodes', oldChains, newHash', newChains', i, k)
      invariant Count(newChains') == Count(newChains) + k
      decreases |c| - k
    {
      ReserveStep(nodes0, nodes', oldChains, newHash', newChains', i, k);
      var key := AbcHash(nodes'[pEnt].children, |newHash'|);
      CountUpdate(newChains', key, [pEnt] + newChains'[key]);
      newChains' := newChains'[key := [pEnt] + newChains'[key]];
      nodes' := nodes'[pEnt := nodes'[pEnt].(next := newHash'[key])];
      newHash' := newHash'[key := pEnt];
      k := k + 1;
      pEnt := pEnt2;
      if pEnt != 0 {
        assert nodes0[c[k]].next == NextOf(c, k);
      }
      pEnt2 := if pEnt != 0 then nodes'[pEnt].next else 0;
    }
    assert k == |c|;
    ReserveNextBucket(nodes0, nodes', oldChains, newHash', newChains', i);
  }

  /**
   * The loops of hash_reserve: every chained node, bucket by bucket, is
   * relinked into a fresh table of `size` buckets.
   */
  method Rehash(nodes: seq<FixedNode>, hash: seq<nat>, ghost chains: seq<seq<nat>>, size: nat)
    returns (nodes': seq<FixedNode>, newHash: seq<nat>, ghost newChains: seq<seq<nat>>)
    requires TableOk(nodes, hash, chains) && size > 0
    ensures |newHash| == size && SameContents(nodes, nodes')
    ensures TableOk(nodes', newHash, newChains) && Count(newChains) == Count(chains)
    ensures forall x: nat :: InTable(nodes', newChains, x) <==> InTable(nodes, chains, x)
  {
    newHash := seq(size, _ => 0);
    newChains := EmptyChains(size);
    nodes' := nodes;
    EmptyCount(size);
    forall b | 0 <= b < |hash| ensures MapHeads(chains)[b] == hash[b] {
      assert BucketOk(nodes, hash, chains, b);
    }
    assert MapHeads(chains) == hash;
    var i := 0;
    while i < |hash|
      invariant i <= |hash| == |chains| && |newHash| == size
      invariant ReserveInv(nodes, nodes', chains, newHash, newChains, i, 0)
      invariant Count(newChains) == CountTo(chains, i)
    {
      nodes', newHash, newChains := MoveBucket(nodes, nodes', chains, newHash, newChains, i, hash[i]);
      i := i + 1;
    }
    InTableSameChildren(nodes, nodes', newChains);
  }

  class Storage {
    var nodes: seq<FixedNode>
    var inputs: seq<nat>
    var outputs: seq<NodePointer>
    var hash: seq<nat>
    var numEntries: nat
    var numPis: nat
    var numPos: nat
    ghost var chains: seq<seq<nat>>

    ghost predicate Valid()
      reads this
    {
      && |nodes| > 0
      && (forall i :: 0 <= i < |nodes| ==> Shaped(nodes[i]))
      && TableOk(nodes, hash, chains)
      && numEntries == Count(chains)
    }

    /** x is linked into the table (necessarily in the bucket its children hash to). */
    ghost predicate IsEntry(x: nat)
      reads this
    {
      InTable(nodes, chains, x)
    }

    /** A fresh storage: the constant node, 10000 empty buckets and no entries. */
    constructor ()
      ensures Valid()
      ensures |nodes| == 1 && nodes[0] == NewNode([NodePointer(0), NodePointer(0)], 2)
      ensures inputs == [] && outputs == [] && numPis == 0 && numPos == 0
      ensures |hash| == InitialBuckets && numEntries == 0
      ensures forall x: nat :: !IsEntry(x)
    {
      nodes := [NewNode([NodePointer(0), NodePointer(0)], 2)];
      inputs, outputs := [], [];
      hash := seq(InitialBuckets, _ => 0);
      numEntries, numPis, numPos := 0, 0, 0;
      chains := EmptyChains(InitialBuckets);
      new;
      EmptyCount(InitialBuckets);
    }

    /**
     * hash_find: walks the chain of n's bucket and returns the first node
     * whose children equal n's, or 0 when no entry has those children.
     */
    method HashFind(n: FixedNode) returns (r: nat)
      requires Valid() && |n.children| == 2
      ensures r == FirstMatch(nodes, chains[AbcHash(n.children, |hash|)], n)
      ensures r != 0 ==> IsEntry(r) && nodes[r].children == n.children
      ensures r == 0 <==> forall x: nat :: IsEntry(x) ==> nodes[x].children != n.children
    {
      var key := AbcHash(n.children, |hash|);
      ghost var chain := chains[key];
      assert BucketOk(nodes, hash, chains, key);
      MatchPosSpec(nodes, chain, n);
      ghost var m := MatchPos(nodes, chain, n);
      if m < |chain| {
        ChainedIsInTable(nodes, hash, chains, key, chain[m]);
      }
      var node := hash[key];
      ghost var k := 0;
      while node != 0
        invariant k <= m && node == HeadOf(chain[k..])
        decreases |chain| - k
      {
        assert nodes[chain[k]].next == NextOf(chain, k);
        if nodes[node].children == n.children {
          return node;
        }
        node := nodes[node].next;
        k := k + 1;
      }
      return 0;
    }

    /** Appends a node (push_back); the table is unaffected. */
    method AddNode(node: FixedNode) returns (index: nat)
      requires Valid() && Shaped(node)
      modifies this
      ensures Valid()
      ensures index == old(|nodes|) && nodes == old(nodes) + [node]
      ensures hash == old(hash) && chains == old(chains) && numEntries == old(numEntries)
      ensures inputs == old(inputs) && outputs == old(outputs) && numPis == old(numPis) && numPos == old(numPos)
      ensures forall x: nat :: IsEntry(x) <==> old(IsEntry(x))
    {
      index := |nodes|;
      nodes := nodes + [node];
      TableFrame(old(nodes), nodes, hash, chains);
      forall x: nat | IsEntry(x) ensures x < index {
        var b := AbcHash(nodes[x].children, |hash|);
        assert BucketOk(old(nodes), hash, chains, b);
      }
    }

    /** Replaces the state words of node i (children and link are untouched). */
    method SetData(i: nat, data: seq<NodeState>)
      requires Valid() && i < |nodes| && |data| == 2
      modifies this
      ensures Valid()
      ensures nodes == old(nodes)[i := old(nodes)[i].(data := data)]
      ensures hash == old(hash) && chains == old(chains) && numEntries == old(numEntries)
      ensures inputs == old(inputs) && outputs == old(outputs) && numPis == old(numPis) && numPos == old(numPos)
      ensures forall x: nat :: IsEntry(x) <==> old(IsEntry(x))
    {
      nodes := nodes[i := nodes[i].(data := data)];
      TableFrame(old(nodes), nodes, hash, chains);
    }

    /** Records a new primary input (storage side of create_pi). */
    method PushInput(index: nat)
      requires Valid()
      modifies this
      ensures Valid()
      ensures inputs == old(inputs) + [index] && numPis == old(numPis) + 1
      ensures nodes == old(nodes) && hash == old(hash) && chains == old(chains) && numEntries == old(numEntries)
      ensures outputs == old(outputs) && numPos == old(numPos)
    {
      inputs := inputs + [index];
      numPis := numPis + 1;
    }

    /** Records a new primary output (storage side of create_po). */
    method PushOutput(p: NodePointer)
      requires Valid()
      modifies this
      ensures Valid()
      ensures outputs == old(outputs) + [p] && numPos == old(numPos) + 1
      ensures nodes == old(nodes) && hash == old(hash) && chains == old(chains) && numEntries == old(numEntries)
      ensures inputs == old(inputs) && numPis == old(numPis)
    {
      outputs := outputs + [p];
      numPos := numPos + 1;
    }

    /**
     * hash_insert: grows the table first when it holds more than twice as
     * many entries as buckets, then links index at the head of its bucket.
     */
    method HashInsert(n: FixedNode, index: nat)
      requires Valid() && 0 < index < |nodes| && nodes[index].children == n.children && !IsEntry(index)
      modifies this
      ensures Valid()
      ensures SameContents(old(nodes), nodes)
      ensures inputs == old(inputs) && outputs == old(outputs) && numPis == old(numPis) && numPos == old(numPos)
      ensures |hash| == if old(numEntries) > 2 * old(|hash|) then GrowSize(old(|hash|)) else old(|hash|)
      ensures numEntries == old(numEntries) + 1
      ensures forall x: nat :: IsEntry(x) <==> old(IsEntry(x)) || x == index
      ensures HeadOf(chains[AbcHash(n.children, |hash|)]) == index
    {
      if numEntries > 2 * |hash| {
        HashReserve(GrowSize(|hash|));
      }
      HashLink(n, index);
    }

    /** The linking step of hash_insert: index becomes the head of its bucket. */
    method HashLink(n: FixedNode, index: nat)
      requires Valid() && 0 < index < |nodes| && nodes[index].children == n.children && !IsEntry(index)
      modifies this
      ensures Valid()
      ensures SameContents(old(nodes), nodes)
      ensures inputs == old(inputs) && outputs == old(outputs) && numPis == old(numPis) && numPos == old(numPos)
      ensures hash != [] && |hash| == old(|hash|)
      ensures numEntries == old(numEntries) + 1
      ensures forall x: nat :: IsEntry(x) <==> old(IsEntry(x)) || x == index
      ensures HeadOf(chains[AbcHash(n.children, |hash|)]) == index
    {
      var key := AbcHash(n.children, |hash|);
      LinkOk(nodes, hash, chains, key, index);
      nodes, hash, chains, numEntries :=
        nodes[index := nodes[index].(next := hash[key])], hash[key := index], chains[key := [index] + chains[key]], numEntries + 1;
    }

    /**
     * hash_erase: walks n's bucket to the first node with n's children
     * (which must exist) and unlinks it.
     */
    method HashErase(n: FixedNode)
      requires Valid() && |n.children| == 2
      requires FirstMatch(nodes, chains[AbcHash(n.children, |hash|)], n) != 0
      modifies this
      ensures Valid()
      ensures SameContents(old(nodes), nodes) && |hash| == old(|hash|)
      ensures inputs == old(inputs) && outputs == old(outputs) && numPis == old(numPis) && numPos == old(numPos)
      ensures numEntries == old(numEntries) - 1
      ensures forall x: nat :: IsEntry(x) <==> old(IsEntry(x)) && x != old(FirstMatch(nodes, chains[AbcHash(n.children, |hash|)], n))
    {
      var key := AbcHash(n.children, |hash|);
      ghost var chain := chains[key];
      assert BucketOk(nodes, hash, chains, key);
      MatchPosSpec(nodes, chain, n);
      ghost var m := MatchPos(nodes, chain, n);
      var cur, pre := hash[key], hash[key];
      ghost var k := 0;
      while !(nodes[cur].children == n.children) && nodes[cur].next != 0
        invariant k <= m && cur == chain[k]
        invariant k > 0 ==> pre == chain[k - 1]
        invariant k == 0 ==> pre == chain[0]
        decreases m - k
      {
        assert nodes[chain[k]].next == NextOf(chain, k);
        pre := cur;
        cur := nodes[cur].next;
        k := k + 1;
      }
      assert nodes[chain[k]].next == NextOf(chain, k);
      assert k == m;
      HashUnlink(key, m, cur, pre);
    }

    /** The unlinking tail of hash_erase: cur is the m-th node of bucket key and pre its predecessor. */
    method HashUnlink(key: nat, ghost m: nat, cur: nat, pre: nat)
      requires Valid() && key < |hash| && m < |chains[key]|
      requires cur == chains[key][m] && pre == chains[key][if m == 0 then 0 else m - 1]
      modifies this
      ensures Valid()
      ensures SameContents(old(nodes), nodes) && |hash| == old(|hash|)
      ensures inputs == old(inputs) && outputs == old(outputs) && numPis == old(numPis) && numPos == old(numPos)
      ensures numEntries == old(numEntries) - 1
      ensures forall x: nat :: IsEntry(x) <==> old(IsEntry(x)) && x != cur
    {
      ghost var chain := chains[key];
      assert BucketOk(nodes, hash, chains, key);
      var nodes', hash' := nodes, hash;
      if cur == hash[key] {
        assert m == 0;
        hash' := hash[key := nodes[cur].next];
      } else {
        assert m > 0;
        nodes' := nodes[pre := nodes[pre].(next := nodes[cur].next)];
      }
      UnlinkOk(nodes, hash, chains, key, m, nodes', hash');
      ghost var chains' := chains[key := chain[..m] + chain[m + 1..]];
      nodes, hash, chains, numEntries := nodes', hash', chains', numEntries - 1;
    }

    /**
     * hash_reserve: relinks every chained node into a fresh table of `size`
     * buckets, prepending each to the chain of its new bucket.
     */
    method HashReserve(size: nat)
      requires Valid() && size > 0
      modifies this
      ensures Valid()
      ensures |hash| == size && SameContents(old(nodes), nodes)
      ensures inputs == old(inputs) && outputs == old(outputs) && numPis == old(numPis) && numPos == old(numPos)
      ensures numEntries == old(numEntries)
      ensures forall x: nat :: IsEntry(x) <==> old(IsEntry(x))
    {
      var ns, newHash;
      ghost var newChains;
      ns, newHash, newChains := Rehash(nodes, hash, chains, size);
      nodes, hash, chains := ns, newHash, newChains;
    }
  }
}
