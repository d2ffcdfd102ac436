// The mapping view: which nodes of a network are roots of mapped cells, the
// leaves of each cell, and (optionally) each cell's function. The first
// `size` entries of `mappings` hold, per node, 0 (no cell) or the position
// of the node's leaf record further on; a leaf record is the number of
// leaves followed by the leaves' node indices, and records are only ever
// appended.
module MappingView {
  import opened TruthTableCache

  /** The number of nodes n < k that are cell roots. */
  function CountRoots(m: seq<nat>, k: nat): nat
    requires k <= |m|
  {
    if k == 0 then 0 else CountRoots(m, k - 1) + (if m[k - 1] != 0 then 1 else 0)
  }

  /** Setting entry n changes the count only when n's root status changes. */
  lemma {:induction false} CountRootsUpdate(m: seq<nat>, k: nat, n: nat, v: nat)
    requires k <= |m| && n < |m|
    ensures CountRoots(m[n := v], k) ==
      CountRoots(m, k) + (if n < k && v != 0 && m[n] == 0 then 1 else 0) - (if n < k && v == 0 && m[n] != 0 then 1 else 0)
  {
    if k > 0 {
      CountRootsUpdate(m, k - 1, n, v);
    }
  }

  /** Appending to the store leaves the count of the node entries alone. */
  lemma {:induction false} CountRootsAppend(m: seq<nat>, k: nat, tail: seq<nat>)
    requires k <= |m|
    ensures CountRoots(m + tail, k) == CountRoots(m, k)
  {
    if k > 0 {
      CountRootsAppend(m, k - 1, tail);
    }
  }

  /** The count is positive exactly when some node n < k is a root. */
  lemma {:induction false} CountRootsPositive(m: seq<nat>, k: nat)
    requires k <= |m|
    ensures CountRoots(m, k) > 0 <==> exists n :: 0 <= n < k && m[n] != 0
  {
    if k > 0 {
      CountRootsPositive(m, k - 1);
    }
  }

  /** Nothing is a root of the all-zero entries. */
  lemma {:induction false} CountRootsZero(m: seq<nat>, k: nat)
    requires k <= |m| && forall n :: 0 <= n < k ==> m[n] == 0
    ensures CountRoots(m, k) == 0
  {
    if k > 0 {
      CountRootsZero(m, k - 1);
    }
  }

  /** Every root's leaf record lies within the store, beyond the node entries. */
  predicate RecordsOk(m: seq<nat>, size: nat) {
    size <= |m|
    && forall n :: 0 <= n < size && m[n] != 0 ==> size <= m[n] < |m| && m[n] + 1 + m[m[n]] <= |m|
  }

  /** The leaves recorded for root n. */
  function LeavesOf(m: seq<nat>, size: nat, n: nat): seq<nat>
    requires RecordsOk(m, size) && n < size && m[n] != 0
  {
    m[m[n] + 1 .. m[n] + 1 + m[m[n]]]
  }

  /** Appending a leaf record: entry n points at the old end of the store. */
  lemma AppendRecord(m: seq<nat>, size: nat, n: nat, leaves: seq<nat>)
    requires RecordsOk(m, size) && n < size && size > 0
    ensures RecordsOk(m[n := |m|] + [|leaves|] + leaves, size)
    ensures LeavesOf(m[n := |m|] + [|leaves|] + leaves, size, n) == leaves
    ensures forall k :: 0 <= k < size && k != n && m[k] != 0 ==>
      LeavesOf(m[n := |m|] + [|leaves|] + leaves, size, k) == LeavesOf(m, size, k)
  {
    var m' := m[n := |m|] + [|leaves|] + leaves;
    AppendKeepsRecords(m, size, n, leaves, m');
    assert m'[|m|] == |leaves|;
    assert m'[|m| + 1 .. |m| + 1 + |leaves|] == leaves;
    forall k | 0 <= k < size && k != n && m[k] != 0
      ensures LeavesOf(m', size, k) == LeavesOf(m, size, k)
    {
      AppendKeepsRecord(m, size, n, leaves, m', k);
    }
  }

  lemma AppendKeepsRecords(m: seq<nat>, size: nat, n: nat, leaves: seq<nat>, m': seq<nat>)
    requires RecordsOk(m, size) && n < size && m' == m[n := |m|] + [|leaves|] + leaves
    ensures RecordsOk(m', size)
  {
    forall k | 0 <= k < size && m'[k] != 0
      ensures size <= m'[k] < |m'| && m'[k] + 1 + m'[m'[k]] <= |m'|
    {
      if k == n {
        assert m'[k] == |m| && m'[|m|] == |leaves|;
      } else {
        assert m'[k] == m[k] && m'[m[k]] == m[m[k]];
      }
    }
  }

  lemma AppendKeepsRecord(m: seq<nat>, size: nat, n: nat, leaves: seq<nat>, m': seq<nat>, k: nat)
    requires RecordsOk(m, size) && RecordsOk(m', size) && n < size && m' == m[n := |m|] + [|leaves|] + leaves
    requires k < size && k != n && m[k] != 0
    ensures LeavesOf(m', size, k) == LeavesOf(m, size, k)
  {
    assert m'[k] == m[k] && m'[m[k]] == m[m[k]];
    var lo := m[k] + 1;
    assert forall j :: lo <= j < lo + m[m[k]] ==> m'[j] == m[j];
  }

  class View {
    /** The number of nodes of the network. */
    const size: nat
    /** The node entries followed by the leaf records (mappings). */
    var mappings: seq<nat>
    /** The number of cell roots (mapping_size). */
    var mappingSize: nat
    /** The literal of each node's cell function in the cache (functions). */
    var functions: seq<nat>
    /** The cache of cell functions (cache). */
    const cache: Cache

    ghost predicate Valid()
      reads this, cache
    {
      RecordsOk(mappings, size) && mappingSize == CountRoots(mappings, size)
      && cache.Valid() && |functions| == size
      && forall n :: 0 <= n < size ==> functions[n] / 2 < |cache.data|
    }

    /** A view with no cell: every entry 0, the cache holding the constant-0 table, every function literal 0. */
    constructor(size: nat)
      ensures Valid() && this.size == size && fresh(cache)
      ensures mappings == seq(size, _ => 0) && mappingSize == 0
      ensures forall n :: 0 <= n < size ==> CellFunction(n) == [false]
    {
      this.size := size;
      mappings := seq(size, _ => 0);
      mappingSize := 0;
      var c := new Cache(1000);
      var zero := c.Insert([false]);
      CutDatabaseTables();
      functions := seq(size, _ => 0);
      cache := c;
      new;
      CountRootsZero(mappings, size);
    }

    /** has_mapping: some node is a cell root. */
    function HasMapping(): (r: bool)
      reads this, cache
      requires Valid()
      ensures r <==> exists n :: 0 <= n < size && mappings[n] != 0
    {
      CountRootsPositive(mappings, size);
      mappingSize > 0
    }

    /** is_cell_root. */
    predicate IsCellRoot(n: nat)
      reads this
      requires n < size <= |mappings|
    {
      mappings[n] != 0
    }

    /** num_cells: the number of cell roots. */
    function NumCells(): (r: nat)
      reads this, cache
      requires Valid()
      ensures r == CountRoots(mappings, size)
    {
      mappingSize
    }

    /** foreach_cell_fanin: the leaves of cell n, in the order they were given. */
    function CellFanins(n: nat): (r: seq<nat>)
      reads this, cache
      requires Valid() && n < size && IsCellRoot(n)
      ensures r == LeavesOf(mappings, size, n)
    {
      var start := mappings[n];
      mappings[start + 1 .. start + 1 + mappings[start]]
    }

    /** clear_mapping: every node back to no cell, the count 0. */
    method ClearMapping()
      requires Valid()
      modifies this
      ensures Valid() && functions == old(functions) && mappingSize == 0
      ensures mappings == seq(size, _ => 0)
    {
      mappings := seq(size, _ => 0);
      mappingSize := 0;
      CountRootsZero(mappings, size);
    }

    /**
     * add_to_mapping: n becomes a cell root whose leaves are leaves; the
     * count grows only when n was not a root; the record is appended, so
     * the other cells keep their leaves.
     */
    method AddToMapping(n: nat, leaves: seq<nat>)
      requires Valid() && n < size
      modifies this
      ensures Valid() && functions == old(functions)
      ensures mappings == old(mappings)[n := |old(mappings)|] + [|leaves|] + leaves
      ensures IsCellRoot(n) && CellFanins(n) == leaves
      ensures mappingSize == old(mappingSize) + (if old(mappings[n]) == 0 then 1 else 0)
      ensures forall k :: 0 <= k < size && k != n ==> (IsCellRoot(k) <==> old(mappings[k]) != 0)
      ensures forall k :: 0 <= k < size && k != n && old(mappings[k]) != 0 ==>
        CellFanins(k) == LeavesOf(old(mappings), size, k)
    {
      if mappings[n] == 0 {
        mappingSize := mappingSize + 1;
      }
      ghost var m0 := mappings;
      CountRootsUpdate(m0, size, n, |m0|);
      var m := mappings[n := |mappings|] + [|leaves|];
      var i := 0;
      while i < |leaves|
        modifies {}
        invariant 0 <= i <= |leaves|
        invariant m == m0[n := |m0|] + [|leaves|] + leaves[..i]
      {
        m := m + [leaves[i]];
        i := i + 1;
      }
      mappings := m;
      assert leaves[..i] == leaves;
      CountRootsAppend(m0[n := |m0|], size, [|leaves|] + leaves);
      assert m0[n := |m0|] + [|leaves|] + leaves == m0[n := |m0|] + ([|leaves|] + leaves);
      AppendRecord(m0, size, n, leaves);
    }

    /** remove_from_mapping: n is no cell root; the count drops only when it was one. */
    method RemoveFromMapping(n: nat)
      requires Valid() && n < size
      modifies this
      ensures Valid() && functions == old(functions)
      ensures mappings == old(mappings)[n := 0]
      ensures mappingSize == old(mappingSize) - (if old(mappings[n]) != 0 then 1 else 0)
    {
      CountRootsPositive(mappings, size);
      if mappings[n] != 0 {
        mappingSize := mappingSize - 1;
      }
      CountRootsUpdate(mappings, size, n, 0);
      mappings := mappings[n := 0];
    }

    /** cell_function: the table last set for n, read back from the cache. */
    function CellFunction(n: nat): Table
      reads this, cache
      requires Valid() && n < size
    {
      cache.Get(functions[n])
    }

    /** set_cell_function: n's function becomes tt; the other nodes' functions are unchanged. */
    method SetCellFunction(n: nat, tt: Table)
      requires Valid() && n < size && 0 < |tt|
      modifies this, cache
      ensures Valid() && mappings == old(mappings) && mappingSize == old(mappingSize)
      ensures CellFunction(n) == tt
      ensures forall k :: 0 <= k < size && k != n ==> CellFunction(k) == old(CellFunction(k))
    {
      ghost var d := cache.data;
      var lit := cache.Insert(tt);
      InsertedRoundTrip(d, tt);
      InsertedGrows(d, tt);
      functions := functions[n := lit];
      forall k | 0 <= k < size && k != n
        ensures CellFunction(k) == old(CellFunction(k))
      {
        assert cache.data[functions[k] / 2] == d[functions[k] / 2];
      }
    }
  }
}
