// The truth-table cache: each table is stored once together with its
// complement. A table is a sequence of bits, bit 0 being the value of the
// all-zeros input pattern; a literal 2i + c names the stored (normal) table
// at index i, complemented when c is 1.
module TruthTableCache {
  type Table = seq<bool>

  /** The complement ~t. */
  function Not(t: Table): (r: Table)
    ensures |r| == |t| && forall i :: 0 <= i < |t| ==> r[i] == !t[i]
  {
    seq(|t|, i requires 0 <= i < |t| => !t[i])
  }

  lemma NotNot(t: Table)
    ensures Not(Not(t)) == t
  {
  }

  /** A normal table maps the all-zeros pattern to 0. */
  predicate IsNormal(t: Table) {
    0 < |t| && !t[0]
  }

  /** The normal one of t and ~t. */
  function Normalize(t: Table): (r: Table)
    requires 0 < |t|
    ensures IsNormal(r)
    ensures r == t || r == Not(t)
  {
    if t[0] then Not(t) else t
  }

  /** 1 when t had to be complemented to become normal. */
  function Phase(t: Table): nat
    requires 0 < |t|
  {
    if t[0] then 1 else 0
  }

  /** operator[] on the stored tables: the table at lit / 2, complemented when lit is odd. */
  function At(data: seq<Table>, lit: nat): Table
    requires lit / 2 < |data|
  {
    if lit % 2 == 1 then Not(data[lit / 2]) else data[lit / 2]
  }

  predicate AllNormal(data: seq<Table>) {
    forall i :: 0 <= i < |data| ==> IsNormal(data[i])
  }

  predicate Distinct(data: seq<Table>) {
    forall i, j :: 0 <= i < j < |data| ==> data[i] != data[j]
  }

  /** The position of t among the stored tables. */
  function IndexOf(data: seq<Table>, t: Table): (r: nat)
    requires t in data
    ensures r < |data| && data[r] == t
    ensures forall j :: 0 <= j < r ==> data[j] != t
  {
    if data[0] == t then 0 else 1 + IndexOf(data[1..], t)
  }

  /**
   * insert on the stored tables: the tables afterwards and the literal
   * returned. The normal form of tt is looked up and, when absent,
   * appended at index |data|.
   */
  function Inserted(data: seq<Table>, tt: Table): (seq<Table>, nat)
    requires 0 < |tt|
  {
    var n := Normalize(tt);
    if n in data then (data, 2 * IndexOf(data, n) + Phase(tt))
    else (data + [n], 2 * |data| + Phase(tt))
  }

  /** Round trip: the literal insert returns names tt again. */
  lemma InsertedRoundTrip(data: seq<Table>, tt: Table)
    requires 0 < |tt|
    ensures Inserted(data, tt).1 / 2 < |Inserted(data, tt).0|
    ensures At(Inserted(data, tt).0, Inserted(data, tt).1) == tt
  {
    NotNot(tt);
  }

  /** insert only appends, at most one table: the tables stored before keep their places. */
  lemma InsertedGrows(data: seq<Table>, tt: Table)
    requires 0 < |tt|
    ensures data <= Inserted(data, tt).0 && |Inserted(data, tt).0| <= |data| + 1
  {
  }

  /** Only normal tables are stored, each once. */
  lemma InsertedKeepsStore(data: seq<Table>, tt: Table)
    requires 0 < |tt| && AllNormal(data) && Distinct(data)
    ensures AllNormal(Inserted(data, tt).0) && Distinct(Inserted(data, tt).0)
  {
  }

  /** A table not yet stored gets the next index, the old size. */
  lemma InsertedNewIndex(data: seq<Table>, tt: Table)
    requires 0 < |tt| && Normalize(tt) !in data
    ensures Inserted(data, tt).1 / 2 == |data| && |Inserted(data, tt).0| == |data| + 1
  {
  }

  /** Inserting a table again returns the same literal and stores nothing. */
  lemma InsertedIdempotent(data: seq<Table>, tt: Table)
    requires 0 < |tt|
    ensures Inserted(Inserted(data, tt).0, tt) == Inserted(data, tt)
  {
    var d := Inserted(data, tt).0;
    var n := Normalize(tt);
    if n !in data {
      assert d[|data|] == n;
      assert forall j :: 0 <= j < |data| ==> d[j] == data[j];
      assert IndexOf(d, n) == |data|;
    }
  }

  /** tt and ~tt get literals that differ only in the low bit, and share one stored table. */
  lemma InsertedComplement(data: seq<Table>, tt: Table)
    requires 0 < |tt|
    ensures Inserted(Inserted(data, tt).0, Not(tt)).0 == Inserted(data, tt).0
    ensures Inserted(Inserted(data, tt).0, Not(tt)).1 / 2 == Inserted(data, tt).1 / 2
    ensures Inserted(Inserted(data, tt).0, Not(tt)).1 % 2 != Inserted(data, tt).1 % 2
  {
    NotNot(tt);
    assert Normalize(Not(tt)) == Normalize(tt);
    InsertedIdempotent(data, tt);
  }

  /**
   * The two tables the cut database stores first: the constant-0 table of
   * no variable gets literal 0 and the projection x0 literal 2, the
   * function ids of the zero cut and of the unit cut.
   */
  lemma CutDatabaseTables()
    ensures Inserted([], [false]) == ([[false]], 0)
    ensures Inserted([[false]], [false, true]) == ([[false], [false, true]], 2)
  {
    var z: Table := [false];
    var e: seq<Table> := [];
    assert Normalize(z) == z && Phase(z) == 0 && z !in e;
    assert e + [z] == [[false]];
    assert Normalize([false, true]) == [false, true] && Phase([false, true]) == 0;
    assert [false, true] != [false];
    assert [false, true] !in [[false]];
    assert [[false]] + [[false, true]] == [[false], [false, true]];
  }

  class Cache {
    /** The stored normal tables (_data). */
    var data: seq<Table>
    /** The index of each stored table (_indexes). */
    var indexes: map<Table, nat>

    predicate Valid()
      reads this
    {
      AllNormal(data)
      && (forall i :: 0 <= i < |data| ==> data[i] in indexes && indexes[data[i]] == i)
      && (forall t :: t in indexes ==> indexes[t] < |data| && data[indexes[t]] == t)
    }

    /** An empty cache; the capacity only reserves memory. */
    constructor(capacity: nat)
      ensures Valid() && data == [] && indexes == map[]
    {
      data := [];
      indexes := map[];
    }

    /** size: the number of stored tables. */
    function Size(): nat
      reads this
    {
      |data|
    }

    /** operator[]: the table named by lit. */
    function Get(lit: nat): (r: Table)
      reads this
      requires Valid() && lit / 2 < |data|
      ensures r == At(data, lit)
      ensures IsNormal(r) <==> lit % 2 == 0
    {
      var entry := data[lit / 2];
      if lit % 2 == 1 then Not(entry) else entry
    }

    /** insert: the literal of tt, storing its normal form when new. */
    method Insert(tt: Table) returns (lit: nat)
      requires Valid() && 0 < |tt|
      modifies this
      ensures Valid() && (data, lit) == Inserted(old(data), tt)
    {
      var isCompl := 0;
      var t := tt;
      if tt[0] {
        isCompl := 1;
        t := Not(tt);
      }
      if t in indexes {
        assert t in data && IndexOf(data, t) == indexes[t];
        return 2 * indexes[t] + isCompl;
      }
      assert t !in data;
      var size := |data|;
      lit := 2 * size + isCompl;
      data := data + [t];
      indexes := indexes[t := size];
    }
  }
}
