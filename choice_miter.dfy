/**
 * The choice miter: several and-inverter graphs with the same primary
 * inputs and outputs are merged into one network. The inputs are shared,
 * every AND node reachable from an output is rebuilt, structurally
 * hashed, in the new network, and of the outputs only those of the first
 * network are kept.
 */
module ChoiceMiter {
  import opened Wrappers
  import opened AigGraph
  import opened AigNetwork
  import AndBalance

  /** -1 as a 64-bit unsigned word: the id of a node of a network never added. */
  const NotFound: nat := 0xFFFF_FFFF_FFFF_FFFF

  // ---------------------------------------------------------------------
  // Networks as values.

  /**
   * Node 0 is the constant, nodes 1..numPis are the primary inputs, and
   * every later node is an AND gate whose two fanins are non-constant,
   * ordered by index and older than the gate.
   */
  predicate WellFormed(kinds: seq<Kind>, numPis: nat) {
    && numPis < |kinds| && kinds[0].Const? && Topological(kinds)
    && (forall n :: 1 <= n <= numPis ==> kinds[n].Pi?)
    && (forall n :: numPis < n < |kinds| ==> kinds[n].And? && 0 < kinds[n].f0.node < kinds[n].f1.node)
  }

  /** Structural hashing: no two AND nodes have the same fanins. */
  predicate Hashed(kinds: seq<Kind>) {
    forall x, y :: 0 <= x < y < |kinds| && kinds[x].And? ==> kinds[x] != kinds[y]
  }

  /** A network the miter accepts: well formed, hashed, outputs inside it. */
  predicate InputOk(kinds: seq<Kind>, numPis: nat, pos: seq<Edge>) {
    WellFormed(kinds, numPis) && Hashed(kinds) && forall o :: o in pos ==> o.node < |kinds|
  }

  /** The network merge_aigs_to_miter returns: its nodes, input count and outputs. */
  datatype Network = Network(kinds: seq<Kind>, numPis: nat, pos: seq<Edge>)

  /** The value of an output edge under the primary-input values pv. */
  function OutValue(kinds: seq<Kind>, pv: nat -> bool, e: Edge): bool
    requires Topological(kinds) && e.node < |kinds|
  {
    Eval(kinds, pv, e.node) != e.compl
  }

  /**
   * is_pi: both child words equal and below num_pis. The constant's child
   * words are both 0, so it passes whenever there is at least one input.
   */
  predicate IsPiNode(kinds: seq<Kind>, numPis: nat, n: nat) {
    n < |kinds| && (kinds[n].Pi? || (kinds[n].Const? && 0 < numPis))
  }

  // ---------------------------------------------------------------------
  // Id maps.

  /** std::map::insert: the pair is added only when the key is absent. */
  function Insert(m: map<nat, nat>, k: nat, v: nat): (r: map<nat, nat>)
    ensures k in r && (k !in m ==> r[k] == v)
    ensures forall x :: x in m ==> x in r && r[x] == m[x]
    ensures forall x :: x in r ==> x in m || x == k
  {
    if k in m then m else m[k := v]
  }

  /** m' keeps every entry of m. */
  predicate MapGrows(m: map<nat, nat>, m': map<nat, nat>) {
    forall x :: x in m ==> x in m' && m'[x] == m[x]
  }

  /** The id map after the input loop: input node i maps to miter node i. */
  function PiMap(n: nat): (r: map<nat, nat>)
    ensures forall x :: x in r <==> 1 <= x <= n
    ensures forall x :: x in r ==> r[x] == x
  {
    if n == 0 then map[] else PiMap(n - 1)[n := n]
  }

  lemma PiMapNext(n: nat)
    ensures Insert(PiMap(n), n + 1, n + 1) == PiMap(n + 1)
    ensures PiMap(0) == map[]
  {
    assert n + 1 !in PiMap(n);
    assert PiMap(n)[n + 1 := n + 1] == PiMap(n + 1);
  }

  /** The signal {child_id, weight} create_node builds for a fanin edge. */
  function MapEdge(m: map<nat, nat>, e: Edge): Signal
    requires e.node in m
  {
    AndBalance.SigOf(Edge(m[e.node], e.compl))
  }

  /** AND node x is rebuilt: its fanins are mapped and its image is the hashed gate of their images. */
  predicate Translated(kinds: seq<Kind>, nk: seq<Kind>, m: map<nat, nat>, x: nat)
    requires x < |kinds| && kinds[x].And? && x in m && m[x] < |nk|
  {
    && kinds[x].f0.node in m && kinds[x].f1.node in m
    && nk[m[x]] == AndBalance.AndOf(MapEdge(m, kinds[x].f0), MapEdge(m, kinds[x].f1))
  }

  /** Every mapped AND node is translated. */
  predicate AllTranslated(kinds: seq<Kind>, nk: seq<Kind>, m: map<nat, nat>) {
    forall x :: x in m && x < |kinds| && kinds[x].And? && m[x] < |nk| ==> Translated(kinds, nk, m, x)
  }

  /** An AND node is mapped exactly when it is visited. */
  predicate VisitedMapped(kinds: seq<Kind>, vis: seq<bool>, m: map<nat, nat>)
    requires |vis| == |kinds|
  {
    forall x :: 0 <= x < |kinds| && kinds[x].And? ==> (vis[x] <==> x in m)
  }

  /** No two nodes share an image. */
  predicate Injective(m: map<nat, nat>) {
    forall x, y :: x in m && y in m && m[x] == m[y] ==> x == y
  }

  /**
   * The id map of one input network against the miter nk: the inputs are
   * mapped, the constant and the inputs map to themselves, an AND node to
   * the gate of its mapped fanins, distinct nodes to distinct nodes, and
   * an AND node is mapped exactly when it is visited.
   */
  predicate EntryOk(kinds: seq<Kind>, numPis: nat, vis: seq<bool>, nk: seq<Kind>, m: map<nat, nat>) {
    && |vis| == |kinds|
    && (forall x :: 1 <= x <= numPis ==> x in m)
    && (forall x :: x in m ==> x < |kinds| && m[x] < |nk|)
    && (forall x :: x in m && x < |kinds| && !kinds[x].And? ==> m[x] == x)
    && AllTranslated(kinds, nk, m)
    && Injective(m)
    && VisitedMapped(kinds, vis, m)
  }

  lemma SigEdge(s: Signal)
    ensures AndBalance.SigOf(AndBalance.EdgeOf(s)) == s
  {
  }

  /** The hashed gate determines its unordered pair of fanins. */
  lemma AndOfInjective(a: Signal, b: Signal, c: Signal, d: Signal)
    requires TrivialAnd(a, b).None? && TrivialAnd(c, d).None?
    ensures AndBalance.AndOf(a, b) == AndBalance.AndOf(c, d) ==> (a == c && b == d) || (a == d && b == c)
  {
    SigEdge(a);
    SigEdge(b);
    SigEdge(c);
    SigEdge(d);
  }

  /** Through an injective map, equal fanin signals come from equal edges. */
  lemma MapEdgeInjective(m: map<nat, nat>, e1: Edge, e2: Edge)
    requires Injective(m) && e1.node in m && e2.node in m
    ensures MapEdge(m, e1) == MapEdge(m, e2) ==> e1 == e2
  {
  }

  /** Only the constant maps to the miter's constant. */
  lemma NonZero(kinds: seq<Kind>, numPis: nat, vis: seq<bool>, nk: seq<Kind>, m: map<nat, nat>, x: nat)
    requires WellFormed(nk, numPis) && EntryOk(kinds, numPis, vis, nk, m)
    requires x in m && x != 0
    ensures m[x] != 0
  {
    if kinds[x].And? {
      assert Translated(kinds, nk, m, x);
    }
  }

  /** The mapped fanins of an AND node never fold: create_and always hashes a gate for them. */
  lemma NoFold(kinds: seq<Kind>, numPis: nat, vis: seq<bool>, nk: seq<Kind>, m: map<nat, nat>, x: nat)
    requires WellFormed(kinds, numPis) && WellFormed(nk, numPis) && EntryOk(kinds, numPis, vis, nk, m)
    requires x < |kinds| && kinds[x].And? && kinds[x].f0.node in m && kinds[x].f1.node in m
    ensures TrivialAnd(MapEdge(m, kinds[x].f0), MapEdge(m, kinds[x].f1)).None?
  {
    var f0, f1 := kinds[x].f0, kinds[x].f1;
    NonZero(kinds, numPis, vis, nk, m, f0.node);
    NonZero(kinds, numPis, vis, nk, m, f1.node);
    TrivialAndNone(MapEdge(m, f0), MapEdge(m, f1));
  }

  /** Every mapped node computes, in the miter, the function it computes in its own network. */
  lemma {:induction false} EntrySound(kinds: seq<Kind>, numPis: nat, vis: seq<bool>, nk: seq<Kind>, m: map<nat, nat>, pv: nat -> bool, x: nat)
    requires WellFormed(kinds, numPis) && WellFormed(nk, numPis) && EntryOk(kinds, numPis, vis, nk, m)
    requires x in m
    ensures x < |kinds| && m[x] < |nk|
    ensures Eval(nk, pv, m[x]) == Eval(kinds, pv, x)
    decreases x
  {
    match kinds[x]
    case Const => EntryLeaf(kinds, numPis, vis, nk, m, pv, x);
    case Pi => EntryLeaf(kinds, numPis, vis, nk, m, pv, x);
    case And(f0, f1) =>
      assert Translated(kinds, nk, m, x);
      EntrySound(kinds, numPis, vis, nk, m, pv, f0.node);
      EntrySound(kinds, numPis, vis, nk, m, pv, f1.node);
      EntrySoundStep(kinds, numPis, vis, nk, m, pv, x);
  }

  /** The constant and the inputs are their own images, of the same kind in the miter. */
  lemma EntryLeaf(kinds: seq<Kind>, numPis: nat, vis: seq<bool>, nk: seq<Kind>, m: map<nat, nat>, pv: nat -> bool, x: nat)
    requires WellFormed(kinds, numPis) && WellFormed(nk, numPis) && EntryOk(kinds, numPis, vis, nk, m)
    requires x in m && x < |kinds| && !kinds[x].And?
    ensures m[x] < |nk| && Eval(nk, pv, m[x]) == Eval(kinds, pv, x)
  {
    assert m[x] == x;
    if kinds[x].Const? {
      assert x == 0;
    } else {
      assert 1 <= x <= numPis && nk[x].Pi?;
    }
  }

  /** The inductive step of EntrySound: a translated gate computes the AND of its translated fanins. */
  lemma EntrySoundStep(kinds: seq<Kind>, numPis: nat, vis: seq<bool>, nk: seq<Kind>, m: map<nat, nat>, pv: nat -> bool, x: nat)
    requires WellFormed(kinds, numPis) && WellFormed(nk, numPis) && EntryOk(kinds, numPis, vis, nk, m)
    requires x in m && x < |kinds| && kinds[x].And? && m[x] < |nk| && Translated(kinds, nk, m, x)
    requires m[kinds[x].f0.node] < |nk| && Eval(nk, pv, m[kinds[x].f0.node]) == Eval(kinds, pv, kinds[x].f0.node)
    requires m[kinds[x].f1.node] < |nk| && Eval(nk, pv, m[kinds[x].f1.node]) == Eval(kinds, pv, kinds[x].f1.node)
    ensures Eval(nk, pv, m[x]) == Eval(kinds, pv, x)
  {
    var f0, f1 := kinds[x].f0, kinds[x].f1;
    NoFold(kinds, numPis, vis, nk, m, x);
    AndGateValue(nk, pv, MapEdge(m, f0), MapEdge(m, f1), m[x]);
  }

  /** A gate hashed for a and b computes their AND. */
  lemma AndGateValue(nk: seq<Kind>, pv: nat -> bool, a: Signal, b: Signal, g: nat)
    requires Topological(nk) && g < |nk| && nk[g] == AndBalance.AndOf(a, b)
    requires SigIndex(a) < g && SigIndex(b) < g
    ensures Eval(nk, pv, g) == (AndBalance.EvalSig(nk, pv, a) && AndBalance.EvalSig(nk, pv, b))
  {
    var (lo, hi) := Ordered(a, b);
    assert Eval(nk, pv, g) == (EvalEdge(nk, pv, AndBalance.EdgeOf(lo), g) && EvalEdge(nk, pv, AndBalance.EdgeOf(hi), g));
  }

  /** Growing the miter at the end keeps an id map consistent. */
  lemma EntryExtends(kinds: seq<Kind>, numPis: nat, vis: seq<bool>, nk: seq<Kind>, nk': seq<Kind>, m: map<nat, nat>)
    requires EntryOk(kinds, numPis, vis, nk, m) && AndBalance.Extends(nk, nk')
    ensures EntryOk(kinds, numPis, vis, nk', m)
  {
    forall x | x in m && x < |kinds| && kinds[x].And? && m[x] < |nk'|
      ensures Translated(kinds, nk', m, x)
    {
      assert Translated(kinds, nk, m, x);
      assert nk'[m[x]] == nk'[..|nk|][m[x]];
    }
  }

  /** A gate already in the miter for the fanins of x is the image of no other node. */
  lemma NotAnImage(kinds: seq<Kind>, numPis: nat, vis: seq<bool>, nk: seq<Kind>, m: map<nat, nat>, x: nat, g: nat, y: nat)
    requires WellFormed(kinds, numPis) && Hashed(kinds) && WellFormed(nk, numPis) && EntryOk(kinds, numPis, vis, nk, m)
    requires x < |kinds| && kinds[x].And? && x !in m && kinds[x].f0.node in m && kinds[x].f1.node in m
    requires g < |nk| && nk[g] == AndBalance.AndOf(MapEdge(m, kinds[x].f0), MapEdge(m, kinds[x].f1))
    requires y in m
    ensures m[y] != g
  {
    if kinds[y].And? {
      assert Translated(kinds, nk, m, y);
      NoFold(kinds, numPis, vis, nk, m, x);
      NoFold(kinds, numPis, vis, nk, m, y);
      var fx0, fx1, fy0, fy1 := kinds[x].f0, kinds[x].f1, kinds[y].f0, kinds[y].f1;
      AndOfInjective(MapEdge(m, fx0), MapEdge(m, fx1), MapEdge(m, fy0), MapEdge(m, fy1));
      MapEdgeInjective(m, fx0, fy0);
      MapEdgeInjective(m, fx1, fy1);
      MapEdgeInjective(m, fx0, fy1);
      MapEdgeInjective(m, fx1, fy0);
      assert x != y;
      assert kinds[x] != kinds[y];
    }
  }

  /**
   * create_node followed by set_visited: AND node x, whose fanins are
   * mapped, is mapped to the gate g hashed for their images (found in the
   * miter or appended to it), and the map stays consistent.
   */
  lemma TranslateStep(kinds: seq<Kind>, numPis: nat, vis: seq<bool>, nk: seq<Kind>, m: map<nat, nat>, x: nat, nk': seq<Kind>, g: nat)
    requires WellFormed(kinds, numPis) && Hashed(kinds) && WellFormed(nk, numPis)
    requires EntryOk(kinds, numPis, vis, nk, m)
    requires x < |kinds| && kinds[x].And? && !vis[x]
    requires kinds[x].f0.node in m && kinds[x].f1.node in m
    requires AndBalance.Extends(nk, nk') && g < |nk'|
    requires nk'[g] == AndBalance.AndOf(MapEdge(m, kinds[x].f0), MapEdge(m, kinds[x].f1))
    ensures EntryOk(kinds, numPis, vis[x := true], nk', m[x := g])
  {
    EntryExtends(kinds, numPis, vis, nk, nk', m);
    FreshImage(kinds, numPis, vis, nk, m, x, nk', g);
    TranslatedAfterInsert(kinds, nk', m, x, g);
    InjectiveInsert(m, x, g);
    VisitedInsert(kinds, vis, m, x, g);
  }

  lemma InjectiveInsert(m: map<nat, nat>, x: nat, g: nat)
    requires Injective(m) && x !in m && forall y :: y in m ==> m[y] != g
    ensures Injective(m[x := g])
  {
  }

  lemma VisitedInsert(kinds: seq<Kind>, vis: seq<bool>, m: map<nat, nat>, x: nat, g: nat)
    requires |vis| == |kinds| && VisitedMapped(kinds, vis, m) && x < |kinds|
    ensures VisitedMapped(kinds, vis[x := true], m[x := g])
  {
  }

  /** The gate chosen for x is the image of no mapped node. */
  lemma FreshImage(kinds: seq<Kind>, numPis: nat, vis: seq<bool>, nk: seq<Kind>, m: map<nat, nat>, x: nat, nk': seq<Kind>, g: nat)
    requires WellFormed(kinds, numPis) && Hashed(kinds) && WellFormed(nk, numPis)
    requires EntryOk(kinds, numPis, vis, nk, m)
    requires x < |kinds| && kinds[x].And? && x !in m
    requires kinds[x].f0.node in m && kinds[x].f1.node in m
    requires AndBalance.Extends(nk, nk') && g < |nk'|
    requires nk'[g] == AndBalance.AndOf(MapEdge(m, kinds[x].f0), MapEdge(m, kinds[x].f1))
    ensures forall y :: y in m ==> m[y] != g
  {
    forall y | y in m
      ensures m[y] != g
    {
      if g < |nk| {
        assert nk[g] == nk'[..|nk|][g];
        NotAnImage(kinds, numPis, vis, nk, m, x, g, y);
      }
    }
  }

  /** Mapping a new node x leaves every other translated node translated, and translates x. */
  lemma TranslatedAfterInsert(kinds: seq<Kind>, nk: seq<Kind>, m: map<nat, nat>, x: nat, g: nat)
    requires x < |kinds| && kinds[x].And? && x !in m && g < |nk|
    requires kinds[x].f0.node in m && kinds[x].f1.node in m
    requires nk[g] == AndBalance.AndOf(MapEdge(m, kinds[x].f0), MapEdge(m, kinds[x].f1))
    requires AllTranslated(kinds, nk, m)
    ensures AllTranslated(kinds, nk, m[x := g])
  {
    var m' := m[x := g];
    forall e: Edge | e.node in m
      ensures MapEdge(m', e) == MapEdge(m, e)
    {
    }
    forall y | y in m' && y < |kinds| && kinds[y].And? && m'[y] < |nk|
      ensures Translated(kinds, nk, m', y)
    {
      if y != x {
        assert Translated(kinds, nk, m, y);
      }
    }
  }

  /** create_po reads the map with operator[]: a missing key (only ever the constant) is added with 0. */
  lemma PoStep(kinds: seq<Kind>, numPis: nat, vis: seq<bool>, nk: seq<Kind>, m: map<nat, nat>)
    requires WellFormed(kinds, numPis) && WellFormed(nk, numPis) && EntryOk(kinds, numPis, vis, nk, m)
    ensures EntryOk(kinds, numPis, vis, nk, Insert(m, 0, 0))
  {
    if 0 !in m {
      var m' := m[0 := 0];
      assert Insert(m, 0, 0) == m';
      PoInjective(kinds, numPis, vis, nk, m);
      PoTranslated(kinds, nk, m);
      assert VisitedMapped(kinds, vis, m') by {
        assert kinds[0].Const?;
      }
    }
  }

  /** The constant's image 0 is no other node's image, so adding it keeps the map injective. */
  lemma PoInjective(kinds: seq<Kind>, numPis: nat, vis: seq<bool>, nk: seq<Kind>, m: map<nat, nat>)
    requires WellFormed(nk, numPis) && EntryOk(kinds, numPis, vis, nk, m) && 0 !in m
    ensures Injective(m[0 := 0])
  {
    forall y | y in m
      ensures m[y] != 0
    {
      NonZero(kinds, numPis, vis, nk, m, y);
    }
  }

  /** Adding the constant leaves the translation of every mapped AND node as it was. */
  lemma PoTranslated(kinds: seq<Kind>, nk: seq<Kind>, m: map<nat, nat>)
    requires AllTranslated(kinds, nk, m) && 0 !in m && |kinds| > 0 && kinds[0].Const?
    ensures AllTranslated(kinds, nk, m[0 := 0])
  {
    var m' := m[0 := 0];
    forall y | y in m' && y < |kinds| && kinds[y].And? && m'[y] < |nk|
      ensures Translated(kinds, nk, m', y)
    {
      assert Translated(kinds, nk, m, y);
      assert MapEdge(m', kinds[y].f0) == MapEdge(m, kinds[y].f0);
      assert MapEdge(m', kinds[y].f1) == MapEdge(m, kinds[y].f1);
    }
  }

  /** Appending the gate of two mapped fanins that do not fold keeps the miter well formed. */
  lemma WellFormedAppend(nk: seq<Kind>, numPis: nat, a: Signal, b: Signal)
    requires WellFormed(nk, numPis) && TrivialAnd(a, b).None? && SigIndex(a) < |nk| && SigIndex(b) < |nk|
    ensures WellFormed(nk + [AndBalance.AndOf(a, b)], numPis)
  {
    TrivialAndNone(a, b);
  }

  lemma InitialEntry(kinds: seq<Kind>, numPis: nat, nk: seq<Kind>)
    requires WellFormed(kinds, numPis) && nk == [Const] + seq(numPis, _ => Pi)
    ensures WellFormed(nk, numPis)
    ensures EntryOk(kinds, numPis, seq(|kinds|, _ => false), nk, PiMap(numPis))
  {
  }

  // ---------------------------------------------------------------------
  // Output selection.

  /** The outputs the erase loop keeps: those whose position is a multiple of n. */
  function Kept(outs: seq<Edge>, n: nat): seq<Edge>
    requires n > 0
  {
    if |outs| == 0 then []
    else Kept(outs[..|outs| - 1], n) + (if (|outs| - 1) % n == 0 then [outs[|outs| - 1]] else [])
  }

  lemma MulAtLeast(k: int, n: nat)
    requires k >= 1
    ensures k * n >= n
  {
    assert k * n == (k - 1) * n + n;
  }

  lemma MulSub(a: int, b: int, n: int)
    ensures a * n - b * n == (a - b) * n
  {
  }

  /** Euclidean division is unique. */
  lemma DivModUnique(x: nat, n: nat, q: nat, r: nat)
    requires r < n && x == q * n + r
    ensures x % n == r
  {
    var q', r' := x / n, x % n;
    assert x == q' * n + r';
    MulSub(q, q', n);
    if q > q' {
      MulAtLeast(q - q', n);
    } else if q < q' {
      MulSub(q', q, n);
      MulAtLeast(q' - q, n);
    }
  }

  /** Appending one row of n outputs after q full rows keeps exactly the row's first output. */
  lemma {:induction false} KeptRow(a: seq<Edge>, row: seq<Edge>, n: nat, q: nat, k: nat)
    requires n > 0 && |a| == q * n && |row| == n && 1 <= k <= n
    ensures Kept(a + row[..k], n) == Kept(a, n) + [row[0]]
    decreases k
  {
    var s := a + row[..k];
    assert s[..|s| - 1] == a + row[..k - 1];
    if k == 1 {
      DivModUnique(|a|, n, q, 0);
      assert a + row[..0] == a;
    } else {
      KeptRow(a, row, n, q, k - 1);
      DivModUnique(|a| + k - 1, n, q, k - 1);
    }
  }

  /** After q full rows, a whole row of n outputs adds a row to the count and its first output to the kept ones. */
  lemma RowAppended(a: seq<Edge>, row: seq<Edge>, n: nat, q: nat)
    requires n > 0 && |a| == q * n && |row| == n
    ensures |a + row| == (q + 1) * n && Kept(a + row, n) == Kept(a, n) + [row[0]]
  {
    KeptRow(a, row, n, q, n);
    assert row[..n] == row;
  }

  // ---------------------------------------------------------------------
  // The loops as written.

  /** The uint8_t counter of the input loop: j + 1 wraps to 0 after 255. */
  function NextByte(j: nat): (r: nat)
    requires j < 256
    ensures r < 256
  {
    if j == 255 then 0 else j + 1
  }

  /**
   * With 256 or more networks the byte counter never reaches the count:
   * every value it can take passes the loop test and steps to another
   * such value.
   */
  lemma ByteCounterNeverExits(size: nat, j: nat)
    requires 256 <= size && j < 256
    ensures j < size && NextByte(j) < size
  {
  }

  /** The stopping test of dfs_recursion_po as written: an input by is_pi, or a visited node. */
  predicate DfsStopsAsWritten(kinds: seq<Kind>, numPis: nat, visited: seq<bool>, n: nat)
    requires n < |visited|
  {
    IsPiNode(kinds, numPis, n) || visited[n]
  }

  /** The node get_child0 names: the fanin of a gate, and node 0 for the constant (its child words are 0). */
  function Child0(kinds: seq<Kind>, n: nat): nat
    requires n < |kinds| && !kinds[n].Pi?
  {
    if kinds[n].And? then kinds[n].f0.node else 0
  }

  /**
   * In a network without inputs whose marks are cleared, the walk as
   * written does not stop at the constant and its first recursive call is
   * on the constant again, with nothing changed in between: an output
   * tied to a constant sends it into unbounded recursion.
   */
  lemma DfsLoopsOnConstant(kinds: seq<Kind>, pos: seq<Edge>, visited: seq<bool>)
    requires InputOk(kinds, 0, pos) && visited == seq(|kinds|, _ => false)
    ensures !DfsStopsAsWritten(kinds, 0, visited, 0) && Child0(kinds, 0) == 0
  {
  }

  /** The first entry holding network a (compared by pointer), None if it was never added. */
  function Find(aigs: seq<InputAig>, a: InputAig): (r: Option<nat>)
    ensures r.Some? ==> r.value < |aigs| && aigs[r.value] == a && forall i :: 0 <= i < r.value ==> aigs[i] != a
    ensures r.None? ==> a !in aigs
  {
    if |aigs| == 0 then None
    else if aigs[0] == a then Some(0)
    else match Find(aigs[1..], a)
      case None => None
      case Some(i) => Some(i + 1)
  }

  /** Entry j is the first entry holding its network. */
  predicate IsFirst(aigs: seq<InputAig>, j: nat) {
    j < |aigs| && forall i :: 0 <= i < j ==> aigs[i] != aigs[j]
  }

  /** Find lands on the first entry holding the network. */
  lemma {:induction false} FindIsFirst(aigs: seq<InputAig>, a: InputAig)
    requires a in aigs
    ensures Find(aigs, a).Some? && IsFirst(aigs, Find(aigs, a).value)
    ensures forall j: nat :: IsFirst(aigs, j) && aigs[j] == a ==> j == Find(aigs, a).value
  {
    if aigs[0] != a {
      FindIsFirst(aigs[1..], a);
      var i := Find(aigs[1..], a).value;
      assert IsFirst(aigs, i + 1) by {
        forall k | 0 <= k < i + 1
          ensures aigs[k] != aigs[i + 1]
        {
          if k > 0 {
            assert aigs[k] == aigs[1..][k - 1];
          }
        }
      }
      forall j: nat | IsFirst(aigs, j) && aigs[j] == a
        ensures j == i + 1
      {
        assert IsFirst(aigs[1..], j - 1);
      }
    }
  }

  // ---------------------------------------------------------------------
  // The state of a merge, as values.

  /** The marks after network a's marks become v: every entry holding a sees them. */
  function Mark(aigs: seq<InputAig>, marks: seq<seq<bool>>, a: InputAig, v: seq<bool>): (r: seq<seq<bool>>)
    requires |marks| == |aigs|
    ensures |r| == |aigs| && forall j :: 0 <= j < |aigs| ==> r[j] == if aigs[j] == a then v else marks[j]
  {
    seq(|aigs|, j requires 0 <= j < |aigs| => if aigs[j] == a then v else marks[j])
  }

  /** The marks of every network cleared. */
  function Cleared(aigs: seq<InputAig>): (r: seq<seq<bool>>)
    ensures |r| == |aigs| && forall j :: 0 <= j < |aigs| ==> r[j] == seq(|aigs[j].kinds|, _ => false)
  {
    seq(|aigs|, j requires 0 <= j < |aigs| => seq(|aigs[j].kinds|, _ => false))
  }

  /** Every network is valid, and marks holds the marks of every entry's network. */
  ghost predicate Mirrored(aigs: seq<InputAig>, marks: seq<seq<bool>>)
    reads aigs
  {
    |marks| == |aigs| && forall j :: 0 <= j < |aigs| ==> aigs[j].Valid() && aigs[j].visited == marks[j]
  }

  /** Every entry holds an acceptable network with np inputs. */
  predicate Inputs(aigs: seq<InputAig>, np: nat) {
    forall j :: 0 <= j < |aigs| ==> aigs[j].numPis == np && InputOk(aigs[j].kinds, np, aigs[j].pos)
  }

  /**
   * The state while nodes are rebuilt, given the marks of every entry:
   * the miter nk is well formed with the shared inputs, the map of the
   * first entry of every network is consistent with its marks and nk,
   * and every image in every map is a node of nk.
   */
  ghost predicate MergeState(aigs: seq<InputAig>, marks: seq<seq<bool>>, maps: seq<map<nat, nat>>, nk: seq<Kind>, np: nat) {
    && |marks| == |aigs| && |maps| == |aigs|
    && WellFormed(nk, np) && Inputs(aigs, np)
    && (forall j: nat :: IsFirst(aigs, j) ==> EntryOk(aigs[j].kinds, np, marks[j], nk, maps[j]))
    && (forall j, x :: 0 <= j < |maps| && x in maps[j] ==> maps[j][x] < |nk|)
  }

  /** maps' differs from maps only in entry f, which keeps its pairs and gains keys no larger than bound. */
  predicate Grown(maps: seq<map<nat, nat>>, maps': seq<map<nat, nat>>, f: nat, bound: nat) {
    && |maps'| == |maps| && f < |maps|
    && (forall j :: 0 <= j < |maps| && j != f ==> maps'[j] == maps[j])
    && MapGrows(maps[f], maps'[f])
    && (forall x :: x in maps'[f] && x !in maps[f] ==> x <= bound)
  }

  /** An image recorded in m survives in every map that keeps m's pairs. */
  lemma HeadKept(m: map<nat, nat>, m': map<nat, nat>, o: Edge, head: Edge)
    requires o.node in m && head == Edge(m[o.node], o.compl) && MapGrows(m, m')
    ensures o.node in m' && head == Edge(m'[o.node], o.compl)
  {
  }

  predicate AllGrow(maps: seq<map<nat, nat>>, maps': seq<map<nat, nat>>) {
    |maps'| == |maps| && forall j :: 0 <= j < |maps| ==> MapGrows(maps[j], maps'[j])
  }

  lemma GrownTrans(a: seq<map<nat, nat>>, b: seq<map<nat, nat>>, c: seq<map<nat, nat>>, f: nat, b1: nat, b2: nat, bound: nat)
    requires Grown(a, b, f, b1) && Grown(b, c, f, b2) && b1 <= bound && b2 <= bound
    ensures Grown(a, c, f, bound)
  {
  }

  lemma GrownAll(a: seq<map<nat, nat>>, b: seq<map<nat, nat>>, f: nat, bound: nat)
    requires Grown(a, b, f, bound)
    ensures AllGrow(a, b)
  {
  }

  /** Inserting into one map of the list keeps every pair of every map. */
  lemma InsertAllGrow(maps: seq<map<nat, nat>>, j: nat, k: nat)
    requires j < |maps|
    ensures AllGrow(maps, maps[j := Insert(maps[j], k, 0)])
  {
    var maps' := maps[j := Insert(maps[j], k, 0)];
    forall f | 0 <= f < |maps| ensures MapGrows(maps[f], maps'[f]) {
      if f == j {
        assert maps'[f] == Insert(maps[j], k, 0);
      } else {
        assert maps'[f] == maps[f];
      }
    }
  }

  lemma AllGrowTrans(a: seq<map<nat, nat>>, b: seq<map<nat, nat>>, c: seq<map<nat, nat>>)
    requires AllGrow(a, b) && AllGrow(b, c)
    ensures AllGrow(a, c)
  {
  }

  /** heads[k] is output k of a network with outputs pos, translated through m. */
  predicate Heads(pos: seq<Edge>, m: map<nat, nat>, heads: seq<Edge>) {
    |heads| <= |pos|
    && forall k :: 0 <= k < |heads| ==> pos[k].node in m && heads[k] == Edge(m[pos[k].node], pos[k].compl)
  }

  lemma HeadsGrow(pos: seq<Edge>, m: map<nat, nat>, m': map<nat, nat>, heads: seq<Edge>, h: Edge)
    requires Heads(pos, m, heads) && MapGrows(m, m') && |heads| < |pos|
    requires pos[|heads|].node in m' && h == Edge(m'[pos[|heads|].node], pos[|heads|].compl)
    ensures Heads(pos, m', heads + [h])
  {
  }

  lemma InsertGrown(maps: seq<map<nat, nat>>, f: nat, x: nat, g: nat)
    requires f < |maps|
    ensures Grown(maps, maps[f := Insert(maps[f], x, g)], f, x) && x in maps[f := Insert(maps[f], x, g)][f]
  {
  }

  /** An unvisited AND node stays unvisited while the map only gains smaller keys. */
  lemma StillUnvisited(kinds: seq<Kind>, np: nat, vis0: seq<bool>, nk0: seq<Kind>, m0: map<nat, nat>,
                       vis: seq<bool>, nk: seq<Kind>, m: map<nat, nat>, x: nat)
    requires EntryOk(kinds, np, vis0, nk0, m0) && EntryOk(kinds, np, vis, nk, m)
    requires x < |kinds| && kinds[x].And? && !vis0[x]
    requires forall y :: y in m && y !in m0 ==> y < x
    ensures !vis[x]
  {
    assert VisitedMapped(kinds, vis0, m0) && VisitedMapped(kinds, vis, m);
  }

  /** The state after the input loop: marks cleared, every map the input map, the miter the constant and the inputs. */
  lemma InitialState(aigs: seq<InputAig>, maps: seq<map<nat, nat>>, np: nat)
    requires Inputs(aigs, np) && |maps| == |aigs| && forall j :: 0 <= j < |maps| ==> maps[j] == PiMap(np)
    ensures MergeState(aigs, Cleared(aigs), maps, [Const] + seq(np, _ => Pi), np)
  {
    var nk := [Const] + seq(np, _ => Pi);
    forall j: nat | IsFirst(aigs, j)
      ensures EntryOk(aigs[j].kinds, np, Cleared(aigs)[j], nk, maps[j])
    {
      InitialEntry(aigs[j].kinds, np, nk);
    }
    if 0 < |aigs| {
      InitialEntry(aigs[0].kinds, np, nk);
    } else {
      assert WellFormed(nk, np);
    }
  }

  /**
   * The step of the walk on one network: an unvisited AND node x whose
   * fanins are mapped does not fold, and once its gate g is in the miter
   * (found, or appended) x is marked and mapped to g, keeping the entry
   * consistent and the miter well formed.
   */
  lemma GateStep(kinds: seq<Kind>, np: nat, vis: seq<bool>, nk: seq<Kind>, m: map<nat, nat>, x: nat, nk': seq<Kind>, g: nat)
    requires WellFormed(kinds, np) && Hashed(kinds) && WellFormed(nk, np) && EntryOk(kinds, np, vis, nk, m)
    requires x < |kinds| && kinds[x].And? && !vis[x] && kinds[x].f0.node in m && kinds[x].f1.node in m
    requires var a, b := MapEdge(m, kinds[x].f0), MapEdge(m, kinds[x].f1);
      TrivialAnd(a, b).None? ==>
        && g < |nk'| && nk'[g] == AndBalance.AndOf(a, b)
        && (nk' == nk || nk' == nk + [AndBalance.AndOf(a, b)])
    ensures x !in m && g < |nk'| && WellFormed(nk', np) && AndBalance.Extends(nk, nk')
    ensures EntryOk(kinds, np, vis[x := true], nk', Insert(m, x, g))
  {
    var a, b := MapEdge(m, kinds[x].f0), MapEdge(m, kinds[x].f1);
    NoFold(kinds, np, vis, nk, m, x);
    if nk' != nk {
      WellFormedAppend(nk, np, a, b);
    }
    assert nk'[..|nk|] == nk;
    TranslateStep(kinds, np, vis, nk, m, x, nk', g);
  }

  /**
   * The step of the walk on an unvisited AND node x of the first entry f
   * whose fanins are mapped: once its gate g is in the miter (found, or
   * appended), x is marked and mapped to g, and the state is kept.
   */
  lemma DfsStep(aigs: seq<InputAig>, marks: seq<seq<bool>>, maps: seq<map<nat, nat>>, nk: seq<Kind>, np: nat,
                f: nat, x: nat, nk': seq<Kind>, g: nat)
    requires MergeState(aigs, marks, maps, nk, np) && IsFirst(aigs, f)
    requires x < |aigs[f].kinds| && aigs[f].kinds[x].And? && !marks[f][x]
    requires aigs[f].kinds[x].f0.node in maps[f] && aigs[f].kinds[x].f1.node in maps[f]
    requires var a, b := MapEdge(maps[f], aigs[f].kinds[x].f0), MapEdge(maps[f], aigs[f].kinds[x].f1);
      TrivialAnd(a, b).None? ==>
        && g < |nk'| && nk'[g] == AndBalance.AndOf(a, b)
        && (nk' == nk || nk' == nk + [AndBalance.AndOf(a, b)])
    ensures MergeState(aigs, Mark(aigs, marks, aigs[f], marks[f][x := true]), maps[f := Insert(maps[f], x, g)], nk', np)
  {
    var v, mf := marks[f][x := true], Insert(maps[f], x, g);
    var marks', maps' := Mark(aigs, marks, aigs[f], v), maps[f := mf];
    assert WellFormed(nk', np) && |nk| <= |nk'| && g < |nk'|
      && forall j: nat :: IsFirst(aigs, j) ==> EntryOk(aigs[j].kinds, np, marks'[j], nk', maps'[j])
    by {
      assert InputOk(aigs[f].kinds, np, aigs[f].pos);
      GateStep(aigs[f].kinds, np, marks[f], nk, maps[f], x, nk', g);
      OthersStep(aigs, marks, maps, nk, np, f, v, mf, nk');
      assert marks'[f] == v;
    }
    InsertBounded(maps, nk, f, x, g, nk');
  }

  /** Inserting a pair whose image is a node of nk' keeps every image of every map a node of nk'. */
  lemma InsertBounded(maps: seq<map<nat, nat>>, nk: seq<Kind>, f: nat, x: nat, g: nat, nk': seq<Kind>)
    requires f < |maps| && |nk| <= |nk'| && g < |nk'|
    requires forall j, y :: 0 <= j < |maps| && y in maps[j] ==> maps[j][y] < |nk|
    ensures var maps' := maps[f := Insert(maps[f], x, g)];
      forall j, y :: 0 <= j < |maps'| && y in maps'[j] ==> maps'[j][y] < |nk'|
  {
    var maps' := maps[f := Insert(maps[f], x, g)];
    forall j, y | 0 <= j < |maps'| && y in maps'[j] ensures maps'[j][y] < |nk'| {
      if j == f && y !in maps[f] {
        assert y == x && maps'[j][y] == g;
      } else {
        assert y in maps[j] && maps'[j][y] == maps[j][y];
      }
    }
  }

  /** The entries of the other networks are kept when the miter grows and only network f's marks and map change. */
  lemma OthersStep(aigs: seq<InputAig>, marks: seq<seq<bool>>, maps: seq<map<nat, nat>>, nk: seq<Kind>, np: nat,
                   f: nat, v: seq<bool>, mf: map<nat, nat>, nk': seq<Kind>)
    requires MergeState(aigs, marks, maps, nk, np) && IsFirst(aigs, f) && AndBalance.Extends(nk, nk')
    ensures forall j: nat :: IsFirst(aigs, j) && j != f ==>
      EntryOk(aigs[j].kinds, np, Mark(aigs, marks, aigs[f], v)[j], nk', maps[f := mf][j])
  {
    forall j: nat | IsFirst(aigs, j) && j != f
      ensures EntryOk(aigs[j].kinds, np, Mark(aigs, marks, aigs[f], v)[j], nk', maps[f := mf][j])
    {
      assert aigs[j] != aigs[f];
      EntryExtends(aigs[j].kinds, np, marks[j], nk, nk', maps[j]);
    }
  }

  /** The output step: operator[] gives a missing key the image 0, and the state is kept. */
  lemma PoState(aigs: seq<InputAig>, marks: seq<seq<bool>>, maps: seq<map<nat, nat>>, nk: seq<Kind>, np: nat, j: nat, o: nat)
    requires MergeState(aigs, marks, maps, nk, np) && j < |aigs| && o < |aigs[j].kinds|
    requires IsFirst(aigs, j) && o != 0 ==> o in maps[j]
    ensures MergeState(aigs, marks, maps[j := Insert(maps[j], o, 0)], nk, np)
  {
    if IsFirst(aigs, j) && o == 0 {
      assert InputOk(aigs[j].kinds, np, aigs[j].pos);
      PoStep(aigs[j].kinds, np, marks[j], nk, maps[j]);
    }
  }

  // ---------------------------------------------------------------------
  // The networks.

  /** An input network (what a shared pointer in the list refers to) with its visited marks. */
  class InputAig {
    const kinds: seq<Kind>
    const numPis: nat
    const pos: seq<Edge>
    var visited: seq<bool>

    ghost predicate Valid()
      reads this
    {
      InputOk(kinds, numPis, pos) && |visited| == |kinds|
    }

    constructor (kinds: seq<Kind>, numPis: nat, pos: seq<Edge>)
      requires InputOk(kinds, numPis, pos)
      ensures Valid() && this.kinds == kinds && this.numPis == numPis && this.pos == pos
      ensures visited == seq(|kinds|, _ => false)
    {
      this.kinds := kinds;
      this.numPis := numPis;
      this.pos := pos;
      visited := seq(|kinds|, _ => false);
    }

    /** clear_visited: every mark reset. */
    method ClearVisited()
      requires Valid()
      modifies this
      ensures Valid() && visited == seq(|kinds|, _ => false)
    {
      visited := seq(|kinds|, _ => false);
    }
  }

  /**
   * The miter builder: the list of input networks with one id map each
   * (input node to miter node) and the miter under construction.
   */
  class Miter {
    var aigs: seq<InputAig>
    var idMaps: seq<map<nat, nat>>
    /** A copy of the visited marks of the network of every entry, for the proofs. */
    ghost var marks: seq<seq<bool>>
    /** The miter: its nodes, its input count and its outputs. */
    var newKinds: seq<Kind>
    var newPis: nat
    var newOutputs: seq<Edge>

    /** One id map per entry, every network valid, and the marks copy right. */
    ghost predicate Valid()
      reads this, aigs
    {
      |idMaps| == |aigs| && Mirrored(aigs, marks)
    }

    /** No merge has run on this object: the miter is the constant alone and every id map is empty. */
    ghost predicate Fresh()
      reads this
    {
      newKinds == [Const] && newPis == 0 && newOutputs == [] && forall j :: 0 <= j < |idMaps| ==> idMaps[j] == map[]
    }

    /** The state while nodes are rebuilt (MergeState), with every output a miter node. */
    ghost predicate MergeInv(np: nat)
      reads this, aigs
    {
      && Valid() && newPis == np && MergeState(aigs, marks, idMaps, newKinds, np)
      && forall e :: e in newOutputs ==> e.node < |newKinds|
    }

    /** The default constructor: no networks yet. */
    constructor ()
      ensures aigs == [] && idMaps == [] && marks == [] && Fresh()
    {
      aigs, idMaps, marks := [], [], [];
      newKinds, newPis, newOutputs := [Const], 0, [];
    }

    /** The constructor from a list: each network added in turn. */
    constructor FromList(list: seq<InputAig>)
      ensures aigs == list && |idMaps| == |list| && Fresh()
      ensures |marks| == |list| && forall j :: 0 <= j < |list| ==> marks[j] == list[j].visited
    {
      aigs, idMaps, marks := [], [], [];
      newKinds, newPis, newOutputs := [Const], 0, [];
      new;
      var i := 0;
      while i < |list|
        invariant i <= |list| && aigs == list[..i] && |idMaps| == i && Fresh()
        invariant |marks| == i && forall j :: 0 <= j < i ==> marks[j] == list[j].visited
      {
        AddAig(list[i]);
        i := i + 1;
      }
    }

    /** add_aig: the network is appended with an empty id map. */
    method AddAig(aig: InputAig)
      modifies this
      ensures aigs == old(aigs) + [aig] && idMaps == old(idMaps) + [map[]] && marks == old(marks) + [aig.visited]
      ensures newKinds == old(newKinds) && newPis == old(newPis) && newOutputs == old(newOutputs)
    {
      aigs := aigs + [aig];
      idMaps := idMaps + [map[]];
      marks := marks + [aig.visited];
    }

    /** clear: the list is emptied; the miter itself is kept. */
    method Clear()
      modifies this
      ensures aigs == [] && idMaps == [] && marks == []
      ensures newKinds == old(newKinds) && newPis == old(newPis) && newOutputs == old(newOutputs)
    {
      aigs, idMaps, marks := [], [], [];
    }

    /**
     * get_id_in_miter: the image of a node in the map of the first entry
     * holding the network, and all ones when the network was never added.
     */
    method GetIdInMiter(aig: InputAig, index: nat) returns (r: nat)
      requires |idMaps| == |aigs|
      requires Find(aigs, aig).Some? ==> index in idMaps[Find(aigs, aig).value]
      ensures aig in aigs ==> r == idMaps[Find(aigs, aig).value][index]
      ensures aig !in aigs ==> r == NotFound
    {
      var i := 0;
      while i < |aigs|
        invariant i <= |aigs| && forall k :: 0 <= k < i ==> aigs[k] != aig
      {
        if aig == aigs[i] {
          return idMaps[i][index];
        }
        i := i + 1;
      }
      return NotFound;
    }

    /**
     * update_id_map: the pair is inserted into the map of the first entry
     * holding the network, never replacing an existing image.
     */
    method UpdateIdMap(aig: InputAig, oldId: nat, newId: nat)
      requires |idMaps| == |aigs|
      modifies this
      ensures aigs == old(aigs) && marks == old(marks)
      ensures newKinds == old(newKinds) && newPis == old(newPis) && newOutputs == old(newOutputs)
      ensures aig in aigs ==> var f := Find(aigs, aig).value; idMaps == old(idMaps)[f := Insert(old(idMaps)[f], oldId, newId)]
      ensures aig !in aigs ==> idMaps == old(idMaps)
    {
      var i := 0;
      while i < |aigs|
        invariant i <= |aigs| && forall k :: 0 <= k < i ==> aigs[k] != aig
      {
        if aig == aigs[i] {
          idMaps := idMaps[i := Insert(idMaps[i], oldId, newId)];
          return;
        }
        i := i + 1;
      }
    }

    /**
     * create_and on the miter: the trivial cases fold, a gate with the
     * same ordered fanins is reused, and otherwise a gate is appended.
     */
    method CreateAnd(a: Signal, b: Signal) returns (r: Signal)
      requires SigIndex(a) < |newKinds| && SigIndex(b) < |newKinds|
      modifies this
      ensures aigs == old(aigs) && marks == old(marks) && idMaps == old(idMaps)
      ensures newPis == old(newPis) && newOutputs == old(newOutputs)
      ensures AndBalance.Extends(old(newKinds), newKinds)
      ensures TrivialAnd(a, b).Some? ==> r == TrivialAnd(a, b).value && newKinds == old(newKinds)
      ensures TrivialAnd(a, b).None? ==>
        && r == NodeSignal(SigIndex(r)) && SigIndex(r) < |newKinds|
        && newKinds[SigIndex(r)] == AndBalance.AndOf(a, b)
        && (newKinds == old(newKinds) || newKinds == old(newKinds) + [AndBalance.AndOf(a, b)])
    {
      var t := TrivialAnd(a, b);
      if t.Some? {
        return t.value;
      }
      var found := AndBalance.FindGate(newKinds, AndBalance.AndOf(a, b), |newKinds|);
      if found.Some? {
        r := NodeSignal(found.value);
      } else {
        newKinds := newKinds + [AndBalance.AndOf(a, b)];
        r := NodeSignal(|newKinds| - 1);
      }
    }

    /**
     * create_node: the AND node index of aig is rebuilt from the images of
     * its fanins, with their complement flags, and its image recorded.
     */
    method CreateNode(aig: InputAig, index: nat) returns (ghost g: nat)
      requires Valid() && aig in aigs && index < |aig.kinds| && aig.kinds[index].And?
      requires var m := idMaps[Find(aigs, aig).value];
        && aig.kinds[index].f0.node in m && aig.kinds[index].f1.node in m
        && m[aig.kinds[index].f0.node] < |newKinds| && m[aig.kinds[index].f1.node] < |newKinds|
      modifies this
      ensures Valid() && aigs == old(aigs) && marks == old(marks) && newPis == old(newPis) && newOutputs == old(newOutputs)
      ensures AndBalance.Extends(old(newKinds), newKinds)
      ensures var f := Find(aigs, aig).value; var m := old(idMaps)[f];
        var a, b := MapEdge(m, aig.kinds[index].f0), MapEdge(m, aig.kinds[index].f1);
        && idMaps == old(idMaps)[f := Insert(m, index, g)]
        && (TrivialAnd(a, b).None? ==>
              && g < |newKinds| && newKinds[g] == AndBalance.AndOf(a, b)
              && (newKinds == old(newKinds) || newKinds == old(newKinds) + [AndBalance.AndOf(a, b)]))
        && (TrivialAnd(a, b).Some? ==> g == SigIndex(TrivialAnd(a, b).value) && newKinds == old(newKinds))
    {
      var node := aig.kinds[index];
      var c0 := GetIdInMiter(aig, node.f0.node);
      var c1 := GetIdInMiter(aig, node.f1.node);
      var child0 := AndBalance.SigOf(Edge(c0, node.f0.compl));
      var child1 := AndBalance.SigOf(Edge(c1, node.f1.compl));
      var r := CreateAnd(child0, child1);
      g := SigIndex(r);
      UpdateIdMap(aig, index, SigIndex(r));
    }

    /**
     * The last two steps of dfs_recursion_po on an unvisited AND node whose
     * fanins are mapped: create_node, then set_visited.
     */
    method VisitNode(aig: InputAig, index: nat, ghost np: nat, ghost f: nat)
      requires MergeInv(np) && IsFirst(aigs, f) && aigs[f] == aig && index < |aig.kinds| && aig.kinds[index].And?
      requires !marks[f][index] && aig.kinds[index].f0.node in idMaps[f] && aig.kinds[index].f1.node in idMaps[f]
      modifies this, aig
      ensures MergeInv(np) && aigs == old(aigs) && newPis == old(newPis) && newOutputs == old(newOutputs)
      ensures AndBalance.Extends(old(newKinds), newKinds)
      ensures Grown(old(idMaps), idMaps, f, index) && index in idMaps[f]
    {
      FindIsFirst(aigs, aig);
      ghost var maps0, nk0, marks0 := idMaps, newKinds, marks;
      ghost var g := CreateNode(aig, index);
      assert MergeState(aigs, Mark(aigs, marks0, aig, marks0[f][index := true]), idMaps, newKinds, np)
        && Grown(maps0, idMaps, f, index) && index in idMaps[f]
      by {
        DfsStep(aigs, marks0, maps0, nk0, np, f, index, newKinds, g);
        InsertGrown(maps0, f, index, g);
      }
      assert aig.visited == marks0[f];
      SetVisited(aig, index);
      assert marks == Mark(aigs, marks0, aig, marks0[f][index := true]);
    }

    /** set_visited on node index of aig, seen by every entry holding aig. */
    method SetVisited(aig: InputAig, index: nat)
      requires Valid() && aig in aigs && index < |aig.visited|
      modifies this, aig
      ensures Valid() && aigs == old(aigs) && idMaps == old(idMaps)
      ensures newKinds == old(newKinds) && newPis == old(newPis) && newOutputs == old(newOutputs)
      ensures aig.visited == old(aig.visited)[index := true]
      ensures marks == Mark(aigs, old(marks), aig, aig.visited)
    {
      aig.visited := aig.visited[index := true];
      marks := Mark(aigs, marks, aig, aig.visited);
      forall j | 0 <= j < |aigs|
        ensures aigs[j].Valid() && aigs[j].visited == marks[j]
      {
        if aigs[j] != aig {
          assert old(aigs[j].Valid() && aigs[j].visited == marks[j]);
        }
      }
    }

    /**
     * dfs_recursion_po, with the walk stopping at the constant as well as
     * at the inputs: the fanins of a node are rebuilt before the node, a
     * visited node is not rebuilt again, and the node is then mapped. Only
     * the map of the network's first entry changes, and it gains keys no
     * larger than index, index among them.
     */
    method DfsRecursionPo(aig: InputAig, index: nat, ghost np: nat)
      requires MergeInv(np) && aig in aigs && index < |aig.kinds|
      modifies this, aig
      decreases index
      ensures MergeInv(np) && aigs == old(aigs) && newPis == old(newPis) && newOutputs == old(newOutputs)
      ensures AndBalance.Extends(old(newKinds), newKinds)
      ensures Grown(old(idMaps), idMaps, Find(aigs, aig).value, index)
      ensures index != 0 ==> index in idMaps[Find(aigs, aig).value]
    {
      FindIsFirst(aigs, aig);
      ghost var f := Find(aigs, aig).value;
      assert aigs[f] == aig && aig.Valid() && aig.numPis == np;
      assert EntryOk(aig.kinds, np, marks[f], newKinds, idMaps[f]);
      if index == 0 || IsPiNode(aig.kinds, aig.numPis, index) {
        return;
      }
      if aig.visited[index] {
        return;
      }
      var node := aig.kinds[index];
      ghost var maps0, nk0, marks0 := idMaps, newKinds, marks;
      DfsRecursionPo(aig, node.f0.node, np);
      ghost var maps1, nk1 := idMaps, newKinds;
      DfsRecursionPo(aig, node.f1.node, np);
      GrownTrans(maps0, maps1, idMaps, f, node.f0.node, node.f1.node, index - 1);
      AndBalance.ExtendsTrans(nk0, nk1, newKinds);
      ghost var maps2, nk2 := idMaps, newKinds;
      assert !marks[f][index] by {
        StillUnvisited(aig.kinds, np, marks0[f], nk0, maps0[f], marks[f], newKinds, idMaps[f], index);
      }
      VisitNode(aig, index, np, f);
      AndBalance.ExtendsTrans(nk0, nk2, newKinds);
      GrownTrans(maps0, maps2, idMaps, f, index - 1, index, index);
    }

    /** create_po(signal(id_map[po.index], po.complement)): operator[] adds a missing key with image 0. */
    method PushPo(j: nat, o: Edge, ghost np: nat)
      requires MergeInv(np) && j < |aigs| && o.node < |aigs[j].kinds|
      requires IsFirst(aigs, j) && o.node != 0 ==> o.node in idMaps[j]
      modifies this
      ensures MergeInv(np) && aigs == old(aigs) && marks == old(marks) && newKinds == old(newKinds) && newPis == old(newPis)
      ensures idMaps == old(idMaps)[j := Insert(old(idMaps[j]), o.node, 0)]
      ensures newOutputs == old(newOutputs) + [Edge(idMaps[j][o.node], o.compl)]
    {
      PoState(aigs, marks, idMaps, newKinds, np, j, o.node);
      var m: map<nat, nat> := idMaps[j];
      if o.node !in m {
        m := m[o.node := 0];
      }
      idMaps := idMaps[j := m];
      newOutputs := newOutputs + [Edge(m[o.node], o.compl)];
    }

    /** One step of the inner loop of create_internal_nodes: network j is rebuilt from its output i, and the output added. */
    method CreateCell(i: nat, j: nat, ghost np: nat)
      requires MergeInv(np) && j < |aigs| && i < |aigs[j].pos|
      modifies this, aigs
      ensures MergeInv(np) && aigs == old(aigs) && newPis == old(newPis)
      ensures AndBalance.Extends(old(newKinds), newKinds) && AllGrow(old(idMaps), idMaps)
      ensures var o := aigs[j].pos[i];
        && o.node in idMaps[j]
        && newOutputs == old(newOutputs) + [Edge(idMaps[j][o.node], o.compl)]
    {
      var aig := aigs[j];
      var o := aig.pos[i];
      assert aig.Valid() && o in aig.pos;
      ghost var maps0 := idMaps;
      DfsRecursionPo(aig, o.node, np);
      FindIsFirst(aigs, aig);
      GrownAll(maps0, idMaps, Find(aigs, aig).value, o.node);
      ghost var maps1 := idMaps;
      assert IsFirst(aigs, j) ==> Find(aigs, aig).value == j;
      PushPo(j, o, np);
      InsertAllGrow(maps1, j, o.node);
      AllGrowTrans(maps0, maps1, idMaps);
    }

    /** One pass of the outer loop of create_internal_nodes: output i of every network, in list order. */
    method CreateRow(i: nat, ghost np: nat) returns (ghost row: seq<Edge>)
      requires MergeInv(np) && |aigs| > 0 && forall j :: 0 <= j < |aigs| ==> i < |aigs[j].pos|
      modifies this, aigs
      ensures MergeInv(np) && aigs == old(aigs) && newPis == old(newPis)
      ensures AndBalance.Extends(old(newKinds), newKinds) && AllGrow(old(idMaps), idMaps)
      ensures newOutputs == old(newOutputs) + row && |row| == |aigs|
      ensures aigs[0].pos[i].node in idMaps[0] && row[0] == Edge(idMaps[0][aigs[0].pos[i].node], aigs[0].pos[i].compl)
    {
      ghost var o0 := aigs[0].pos[i];
      CreateCell(i, 0, np);
      ghost var nk1, maps1 := newKinds, idMaps;
      ghost var head := Edge(idMaps[0][o0.node], o0.compl);
      assert newOutputs == old(newOutputs) + [head];
      ghost var rest := CreateCells(i, 1, np);
      AndBalance.AppendAssoc(old(newOutputs), [head], rest);
      assert o0.node in idMaps[0] && head == Edge(idMaps[0][o0.node], o0.compl) by {
        assert MapGrows(maps1[0], idMaps[0]);
        HeadKept(maps1[0], idMaps[0], o0, head);
      }
      assert AndBalance.Extends(old(newKinds), newKinds) && AllGrow(old(idMaps), idMaps) by {
        AndBalance.ExtendsTrans(old(newKinds), nk1, newKinds);
        AllGrowTrans(old(idMaps), maps1, idMaps);
      }
      row := [head] + rest;
    }

    /** The inner loop of create_internal_nodes from network from on: output i of each, in list order. */
    method CreateCells(i: nat, from: nat, ghost np: nat) returns (ghost cells: seq<Edge>)
      requires MergeInv(np) && from <= |aigs| && forall j :: 0 <= j < |aigs| ==> i < |aigs[j].pos|
      modifies this, aigs
      ensures MergeInv(np) && aigs == old(aigs) && newPis == old(newPis)
      ensures AndBalance.Extends(old(newKinds), newKinds) && AllGrow(old(idMaps), idMaps)
      ensures newOutputs == old(newOutputs) + cells && |cells| == |aigs| - from
    {
      ghost var nkStart, mapsStart, outStart := newKinds, idMaps, newOutputs;
      cells := [];
      var j := from;
      while j < |aigs|
        invariant aigs == old(aigs) && from <= j <= |aigs| && MergeInv(np) && newPis == np
        invariant AndBalance.Extends(nkStart, newKinds) && AllGrow(mapsStart, idMaps)
        invariant newOutputs == outStart + cells && |cells| == j - from
      {
        ghost var nk0, maps0 := newKinds, idMaps;
        CreateCell(i, j, np);
        AndBalance.ExtendsTrans(nkStart, nk0, newKinds);
        AllGrowTrans(mapsStart, maps0, idMaps);
        var e := Edge(idMaps[j][aigs[j].pos[i].node], aigs[j].pos[i].compl);
        AndBalance.AppendAssoc(outStart, cells, [e]);
        cells := cells + [e];
        j := j + 1;
      }
    }

    /**
     * create_internal_nodes: for each output position, each network in
     * turn is rebuilt from that output and the output is added. Of every
     * row of |aigs| outputs the first is the first network's.
     */
    method CreateInternalNodes(ghost np: nat) returns (ghost heads: seq<Edge>)
      requires MergeInv(np) && |aigs| > 0 && newOutputs == []
      requires forall j :: 0 <= j < |aigs| ==> |aigs[j].pos| == |aigs[0].pos|
      modifies this, aigs
      ensures MergeInv(np) && aigs == old(aigs) && newPis == old(newPis) && AllGrow(old(idMaps), idMaps)
      ensures Kept(newOutputs, |aigs|) == heads && |heads| == |aigs[0].pos|
      ensures forall k :: 0 <= k < |heads| ==>
        aigs[0].pos[k].node in idMaps[0] && heads[k] == Edge(idMaps[0][aigs[0].pos[k].node], aigs[0].pos[k].compl)
    {
      heads := [];
      var outs, n := |aigs[0].pos|, |aigs|;
      ghost var pos0 := aigs[0].pos;
      var i := 0;
      while i < outs
        invariant aigs == old(aigs) && n == |aigs| && i <= outs && MergeInv(np) && newPis == old(newPis)
        invariant AllGrow(old(idMaps), idMaps)
        invariant |newOutputs| == i * n && Kept(newOutputs, n) == heads && |heads| == i
        invariant Heads(pos0, idMaps[0], heads)
      {
        ghost var before, maps0 := newOutputs, idMaps;
        ghost var row := CreateRow(i, np);
        assert AllGrow(old(idMaps), idMaps) && Heads(pos0, idMaps[0], heads + [row[0]]) by {
          AllGrowTrans(old(idMaps), maps0, idMaps);
          HeadsGrow(pos0, maps0[0], idMaps[0], heads, row[0]);
        }
        RowAppended(before, row, n, i);
        assert |newOutputs| == (i + 1) * n && Kept(newOutputs, n) == heads + [row[0]];
        heads := heads + [row[0]];
        i := i + 1;
      }
      assert aigs[0].pos == pos0 && n == |aigs| && |heads| == |pos0|;
    }

    /**
     * The erase loop of merge_aigs_to_miter: the outputs are walked with a
     * counter, and the one under the iterator is erased unless the counter
     * is a multiple of the number of networks; after an erase the iterator
     * stays on the element that moved into place.
     */
    method RemoveRedundantPos()
      requires |aigs| > 0
      modifies this
      ensures aigs == old(aigs) && marks == old(marks) && idMaps == old(idMaps)
      ensures newKinds == old(newKinds) && newPis == old(newPis)
      ensures newOutputs == Kept(old(newOutputs), |aigs|)
    {
      ghost var outs := newOutputs;
      var n := |aigs|;
      var count := 0;
      var i := 0;
      while i < |newOutputs|
        invariant aigs == old(aigs) && marks == old(marks) && idMaps == old(idMaps)
        invariant newKinds == old(newKinds) && newPis == old(newPis)
        invariant count <= |outs| && i <= |newOutputs|
        invariant newOutputs[..i] == Kept(outs[..count], n)
        invariant newOutputs[i..] == outs[count..]
        decreases |outs| - count
      {
        assert count < |outs| && newOutputs[i] == outs[count] by {
          assert newOutputs[i..][0] == outs[count..][0];
        }
        assert outs[..count + 1][..count] == outs[..count];
        ghost var before := newOutputs;
        if count % n != 0 {
          newOutputs := newOutputs[..i] + newOutputs[i + 1..];
          assert newOutputs[..i] == before[..i];
          assert newOutputs[i..] == before[i + 1..] == before[i..][1..];
        } else {
          assert before[..i + 1] == before[..i] + [outs[count]];
          assert before[i + 1..] == before[i..][1..];
          i := i + 1;
        }
        count := count + 1;
      }
      assert outs[..count] == outs;
    }

    /** create_pi on the miter. */
    method CreatePi()
      modifies this
      ensures newKinds == old(newKinds) + [Pi] && newPis == old(newPis) + 1
      ensures aigs == old(aigs) && marks == old(marks) && idMaps == old(idMaps) && newOutputs == old(newOutputs)
    {
      newKinds := newKinds + [Pi];
      newPis := newPis + 1;
    }

    /** The inner loop of the input copy: node i + 1 maps to node i + 1 in every id map (std::map insert). */
    method InsertPi(i: nat)
      requires |idMaps| == |aigs|
      modifies this
      ensures aigs == old(aigs) && marks == old(marks)
      ensures newKinds == old(newKinds) && newPis == old(newPis) && newOutputs == old(newOutputs)
      ensures |idMaps| == |old(idMaps)|
      ensures forall j :: 0 <= j < |idMaps| ==> idMaps[j] == Insert(old(idMaps[j]), i + 1, i + 1)
    {
      var j := 0;
      while j < |aigs|
        invariant j <= |aigs| == |idMaps| && aigs == old(aigs) && marks == old(marks)
        invariant newKinds == old(newKinds) && newPis == old(newPis) && newOutputs == old(newOutputs)
        invariant forall k :: 0 <= k < j ==> idMaps[k] == Insert(old(idMaps[k]), i + 1, i + 1)
        invariant forall k :: j <= k < |idMaps| ==> idMaps[k] == old(idMaps[k])
      {
        idMaps := idMaps[j := Insert(idMaps[j], i + 1, i + 1)];
        j := j + 1;
      }
    }

    /** The input loop: np inputs are created in the miter and input i + 1 of every network maps to node i + 1. */
    method CopyPis(np: nat)
      requires Valid() && Fresh()
      modifies this
      ensures Valid() && aigs == old(aigs) && marks == old(marks) && newOutputs == [] && newPis == np
      ensures newKinds == [Const] + seq(np, _ => Pi)
      ensures forall j :: 0 <= j < |idMaps| ==> idMaps[j] == PiMap(np)
    {
      PiMapNext(0);
      var i := 0;
      while i < np
        invariant i <= np && Valid() && aigs == old(aigs) && marks == old(marks) && newOutputs == [] && newPis == i
        invariant newKinds == [Const] + seq(i, _ => Pi)
        invariant forall j :: 0 <= j < |idMaps| ==> idMaps[j] == PiMap(i)
      {
        CreatePi();
        InsertPi(i);
        PiMapNext(i);
        assert [Const] + seq(i + 1, _ => Pi) == [Const] + seq(i, _ => Pi) + [Pi];
        i := i + 1;
      }
    }

    /** clear_visited on every network of the list. */
    method ClearAll()
      requires Valid()
      modifies this, aigs
      ensures Valid() && aigs == old(aigs) && marks == Cleared(aigs) && idMaps == old(idMaps)
      ensures newKinds == old(newKinds) && newPis == old(newPis) && newOutputs == old(newOutputs)
    {
      var j := 0;
      while j < |aigs|
        invariant j <= |aigs| && aigs == old(aigs) && marks == old(marks) && idMaps == old(idMaps)
        invariant newKinds == old(newKinds) && newPis == old(newPis) && newOutputs == old(newOutputs)
        invariant forall k :: 0 <= k < |aigs| ==> aigs[k].Valid()
        invariant forall k :: 0 <= k < j ==> aigs[k].visited == seq(|aigs[k].kinds|, _ => false)
      {
        aigs[j].ClearVisited();
        j := j + 1;
      }
      marks := Cleared(aigs);
    }

    /**
     * merge_aigs_to_miter. A single network is returned as it is.
     * Otherwise the inputs are shared (input i + 1 of every network is
     * miter node i + 1), the networks are rebuilt output by output, and
     * only the first network's outputs are kept: the miter has as many
     * outputs as each network, and output k computes what output k of the
     * first network computes.
     */
    method MergeAigsToMiter() returns (r: Network)
      requires Valid() && Fresh() && |aigs| > 0
      requires forall j :: 0 <= j < |aigs| ==> aigs[j].numPis == aigs[0].numPis && |aigs[j].pos| == |aigs[0].pos|
      modifies this, aigs
      ensures Valid() && aigs == old(aigs)
      ensures |aigs| == 1 ==> r == Network(aigs[0].kinds, aigs[0].numPis, aigs[0].pos)
      ensures |aigs| > 1 ==> r == Network(newKinds, aigs[0].numPis, newOutputs) && WellFormed(r.kinds, r.numPis)
      ensures |aigs| > 1 ==> |r.pos| == |aigs[0].pos|
      ensures |aigs| > 1 ==> forall j, x :: 0 <= j < |aigs| && 1 <= x <= r.numPis ==> x in idMaps[j] && idMaps[j][x] == x
      ensures |aigs| > 1 ==> forall k :: 0 <= k < |r.pos| ==> r.pos[k].node < |r.kinds| && r.pos[k].compl == aigs[0].pos[k].compl
      ensures |aigs| > 1 ==> forall k, pv :: 0 <= k < |r.pos| ==>
        OutValue(r.kinds, pv, r.pos[k]) == OutValue(aigs[0].kinds, pv, aigs[0].pos[k])
      ensures |aigs| > 1 ==> marks == Cleared(aigs)
    {
      if |aigs| == 1 {
        return Network(aigs[0].kinds, aigs[0].numPis, aigs[0].pos);
      }
      var np := aigs[0].numPis;
      ClearAll();
      CopyPis(np);
      assert Inputs(aigs, np) by {
        forall j | 0 <= j < |aigs|
          ensures aigs[j].numPis == np && InputOk(aigs[j].kinds, np, aigs[j].pos)
        {
          assert aigs[j].Valid();
        }
      }
      InitialState(aigs, idMaps, np);
      ghost var pis := idMaps;
      ghost var heads := CreateInternalNodes(np);
      assert IsFirst(aigs, 0);
      forall k, pv | 0 <= k < |heads|
        ensures heads[k].node < |newKinds|
        ensures OutValue(newKinds, pv, heads[k]) == OutValue(aigs[0].kinds, pv, aigs[0].pos[k])
      {
        EntrySound(aigs[0].kinds, np, marks[0], newKinds, idMaps[0], pv, aigs[0].pos[k].node);
      }
      RemoveRedundantPos();
      ClearAll();
      r := Network(newKinds, newPis, newOutputs);
    }
  }
}
