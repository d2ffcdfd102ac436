// Writing a k-LUT network as a netlist of LUT primitives. Inputs are
// named `_i<node>_` (or by the declared port names, widths ignored),
// outputs `_o<i>_` (or declared), and every gate becomes one LUT instance
// `name<k>` driving the wire `_w<node>_`. A complemented fanin is folded
// into the LUT's function by flipping that variable, so the instance is
// fed by the plain fanin nets.
module WriterLut {
  import opened Wrappers
  import opened Decimal
  import Bits
  import TT = TruthTableCache
  import K = NetworkToKlut
  import WV = WriteVerilog

  // ---------------------------------------------------------------------
  // Flipping a variable of a truth table (kitty::flip_inplace)
  // ---------------------------------------------------------------------

  /** The row whose bit i differs from r's. */
  function FlipIndex(r: nat, i: nat): int {
    if Bits.Bit(r, i) then r - Bits.Pow2(i) else r + Bits.Pow2(i)
  }

  /** The table with the cofactors of variable i swapped (false outside the table). */
  function Flip(t: TT.Table, i: nat): (r: TT.Table)
    ensures |r| == |t|
  {
    seq(|t|, row requires 0 <= row < |t| => var s := FlipIndex(row, i); 0 <= s < |t| && t[s])
  }

  /** Bit i of the selected row is the value of variable i. */
  lemma {:induction false} RowBit(vals: seq<bool>, i: nat)
    requires i < |vals|
    ensures Bits.Bit(K.Row(vals), i) == vals[i]
    decreases i
  {
    var b := if vals[0] then 1 else 0;
    assert K.Row(vals) == b + 2 * K.Row(vals[1..]);
    if i > 0 {
      assert K.Row(vals) / 2 == K.Row(vals[1..]);
      RowBit(vals[1..], i - 1);
    }
  }

  /** Negating variable i moves to the row FlipIndex names. */
  lemma {:induction false} RowFlip(vals: seq<bool>, i: nat)
    requires i < |vals|
    ensures K.Row(vals[i := !vals[i]]) == FlipIndex(K.Row(vals), i)
    decreases i
  {
    var flipped := vals[i := !vals[i]];
    RowBit(vals, i);
    assert K.Row(vals) == (if vals[0] then 1 else 0) + 2 * K.Row(vals[1..]);
    assert K.Row(flipped) == (if flipped[0] then 1 else 0) + 2 * K.Row(flipped[1..]);
    if i > 0 {
      assert flipped[1..] == vals[1..][i - 1 := !vals[i]];
      RowFlip(vals[1..], i - 1);
      RowBit(vals[1..], i - 1);
    }
  }

  /** The flipped table reads, at any input, what the table reads with variable i negated. */
  lemma FlipComputes(t: TT.Table, i: nat, vals: seq<bool>)
    requires |t| == Bits.Pow2(|vals|) && i < |vals|
    ensures K.LutOut(Flip(t, i), vals) == K.LutOut(t, vals[i := !vals[i]])
  {
    RowFlip(vals, i);
    assert K.Row(vals[i := !vals[i]]) < Bits.Pow2(|vals|);
  }

  /** The function after folding in the complements of the first j fanins, in fanin order. */
  function Adjust(t: TT.Table, compl: seq<bool>, j: nat): (r: TT.Table)
    requires j <= |compl|
    ensures |r| == |t|
  {
    if j == 0 then t
    else
      var u := Adjust(t, compl, j - 1);
      if compl[j - 1] then Flip(u, j - 1) else u
  }

  /** The input values with those of the first j complemented fanins negated. */
  function Toggled(vals: seq<bool>, compl: seq<bool>, j: nat): (r: seq<bool>)
    ensures |r| == |vals|
  {
    seq(|vals|, m requires 0 <= m < |vals| => if m < j && m < |compl| && compl[m] then !vals[m] else vals[m])
  }

  /**
   * Folding the complements in is sound: the adjusted LUT on the plain
   * fanin values computes the node's function on the fanin signals.
   */
  lemma {:induction false} AdjustComputes(t: TT.Table, compl: seq<bool>, vals: seq<bool>, j: nat)
    requires |t| == Bits.Pow2(|vals|) && |compl| == |vals| && j <= |compl|
    ensures K.LutOut(Adjust(t, compl, j), vals) == K.LutOut(t, Toggled(vals, compl, j))
    decreases j
  {
    if j > 0 {
      var u := Adjust(t, compl, j - 1);
      if compl[j - 1] {
        FlipComputes(u, j - 1, vals);
        var negated := vals[j - 1 := !vals[j - 1]];
        assert Toggled(negated, compl, j - 1) == Toggled(vals, compl, j);
        AdjustComputes(t, compl, negated, j - 1);
      } else {
        assert Toggled(vals, compl, j - 1) == Toggled(vals, compl, j);
        AdjustComputes(t, compl, vals, j - 1);
      }
    } else {
      assert Toggled(vals, compl, 0) == vals;
    }
  }

  // ---------------------------------------------------------------------
  // The network and the names
  // ---------------------------------------------------------------------

  /** A fanin edge: the node it reads and whether it is complemented. */
  datatype Fanin = Fanin(node: nat, compl: bool)

  /** A node of the written network: a constant, a primary input, or a gate with its fanins and function. */
  datatype LNode = LConst(value: bool) | LPi | LGate(fanins: seq<Fanin>, table: TT.Table)

  /** The nodes in index order, the primary-input nodes in input order, and the output driver nodes. */
  datatype Net = Net(nodes: seq<LNode>, pis: seq<nat>, pos: seq<nat>)

  /**
   * What a k-LUT network guarantees: node 0 is constant false and node 1
   * constant true, pis lists the input nodes once each, outputs name
   * nodes, and a gate's function has one entry per fanin pattern.
   */
  predicate WellFormed(net: Net) {
    (forall x :: 0 <= x < |net.nodes| && net.nodes[x].LConst? ==> x < 2 && net.nodes[x].value == (x == 1))
    && (forall i :: 0 <= i < |net.pis| ==> net.pis[i] < |net.nodes| && net.nodes[net.pis[i]].LPi?)
    && (forall i, j :: 0 <= i < j < |net.pis| ==> net.pis[i] != net.pis[j])
    && (forall x :: 0 <= x < |net.nodes| && net.nodes[x].LPi? ==> x in net.pis)
    && (forall i :: 0 <= i < |net.pos| ==> net.pos[i] < |net.nodes|)
    && (forall x :: 0 <= x < |net.nodes| && net.nodes[x].LGate? ==>
          |net.nodes[x].table| == Bits.Pow2(|net.nodes[x].fanins|))
  }

  /** fmt::format("{}{}_", tag, x). */
  function Tagged(tag: string, x: nat): string {
    tag + NatToString(x) + "_"
  }

  lemma TaggedInjective(tag: string, a: nat, b: nat)
    requires Tagged(tag, a) == Tagged(tag, b)
    ensures a == b
  {
    var s := Tagged(tag, a);
    assert NatToString(a) == s[|tag|..|s| - 1];
    assert NatToString(b) == Tagged(tag, b)[|tag|..|s| - 1];
    NatToStringInjective(a, b);
  }

  /** The wire a gate drives. */
  function Wire(x: nat): string {
    Tagged("_w", x)
  }

  /** Input names: `_i<node>_` per input without declared inputs, else one name per declared port. */
  function PiNames(net: Net, ps: WV.Params): seq<string> {
    if ps.inputs == [] then seq(|net.pis|, i requires 0 <= i < |net.pis| => Tagged("_i", net.pis[i]))
    else seq(|ps.inputs|, i requires 0 <= i < |ps.inputs| => ps.inputs[i].name)
  }

  /** Output names: `_o<i>_` per output without declared outputs, else one name per declared port. */
  function PoNames(net: Net, ps: WV.Params): seq<string> {
    if ps.outputs == [] then seq(|net.pos|, i requires 0 <= i < |net.pos| => Tagged("_o", i))
    else seq(|ps.outputs|, i requires 0 <= i < |ps.outputs| => ps.outputs[i].name)
  }

  /**
   * The port names: one per input (output) by default, all different;
   * with declared ports one per port whatever its width, so a vector
   * port yields a single scalar name.
   */
  lemma PortNames(net: Net, ps: WV.Params)
    requires WellFormed(net)
    ensures |PiNames(net, ps)| == (if ps.inputs == [] then |net.pis| else |ps.inputs|)
    ensures |PoNames(net, ps)| == (if ps.outputs == [] then |net.pos| else |ps.outputs|)
    ensures ps.inputs == [] ==> forall i, j :: 0 <= i < j < |net.pis| ==> PiNames(net, ps)[i] != PiNames(net, ps)[j]
    ensures ps.outputs == [] ==> forall i, j :: 0 <= i < j < |net.pos| ==> PoNames(net, ps)[i] != PoNames(net, ps)[j]
    ensures ps.inputs != [] ==> forall i :: 0 <= i < |ps.inputs| ==> PiNames(net, ps)[i] == ps.inputs[i].name
  {
    if ps.inputs == [] {
      forall i, j | 0 <= i < j < |net.pis| ensures PiNames(net, ps)[i] != PiNames(net, ps)[j] {
        if PiNames(net, ps)[i] == PiNames(net, ps)[j] {
          TaggedInjective("_i", net.pis[i], net.pis[j]);
        }
      }
    }
    if ps.outputs == [] {
      forall i, j | 0 <= i < j < |net.pos| ensures PoNames(net, ps)[i] != PoNames(net, ps)[j] {
        if PoNames(net, ps)[i] == PoNames(net, ps)[j] {
          TaggedInjective("_o", i, j);
        }
      }
    }
  }

  /** Why writing stops: no name for input i, no name for output i, or fanin j of gate x names no wire or input. */
  datatype Fault = PiNameMissing(i: nat) | PoNameMissing(i: nat) | UnnamedFanin(x: nat, j: nat)

  /** pi_map after the first |pis| inputs are entered. */
  function Bind(pis: seq<nat>, names: seq<string>): map<nat, string>
    requires |pis| <= |names|
  {
    if |pis| == 0 then map[]
    else Bind(pis[..|pis| - 1], names)[pis[|pis| - 1] := names[|pis| - 1]]
  }

  /** Entering input i under vec_pis[i], which must exist. */
  function PiMap(pis: seq<nat>, names: seq<string>): Result<map<nat, string>, Fault> {
    if |names| < |pis| then Err(PiNameMissing(|names|)) else Ok(Bind(pis, names))
  }

  /** The map holds exactly the input nodes, each under its own name. */
  lemma {:induction false} BindLookup(pis: seq<nat>, names: seq<string>)
    requires |pis| <= |names|
    requires forall i, j :: 0 <= i < j < |pis| ==> pis[i] != pis[j]
    ensures forall x :: x in Bind(pis, names) <==> x in pis
    ensures forall i :: 0 <= i < |pis| ==> Bind(pis, names)[pis[i]] == names[i]
    decreases |pis|
  {
    if |pis| > 0 {
      var front := pis[..|pis| - 1];
      BindLookup(front, names);
      forall x ensures x in pis <==> x in front || x == pis[|pis| - 1] {
        assert pis == front + [pis[|pis| - 1]];
      }
    }
  }

  // ---------------------------------------------------------------------
  // The LUT instances
  // ---------------------------------------------------------------------

  /** The name a fanin node gets: its wire if it is a wire already, else its input name. */
  function NameOf(wires: set<nat>, piMap: map<nat, string>, f: nat): Option<string> {
    if f in wires then Some(Wire(f)) else if f in piMap then Some(piMap[f]) else None
  }

  /** The fanin names in order, or the position of the first fanin that has none. */
  function FaninNames(wires: set<nat>, piMap: map<nat, string>, fanins: seq<Fanin>): Result<seq<string>, nat>
    decreases |fanins|
  {
    if |fanins| == 0 then Ok([])
    else
      match FaninNames(wires, piMap, fanins[..|fanins| - 1])
      case Err(j) => Err(j)
      case Ok(names) =>
        match NameOf(wires, piMap, fanins[|fanins| - 1].node)
        case None => Err(|fanins| - 1)
        case Some(name) => Ok(names + [name])
  }

  /** Every fanin is named by NameOf, and naming fails at the first fanin that has no name. */
  lemma {:induction false} FaninNamesSpec(wires: set<nat>, piMap: map<nat, string>, fanins: seq<Fanin>)
    ensures (FaninNames(wires, piMap, fanins).Ok? <==>
      forall j :: 0 <= j < |fanins| ==> NameOf(wires, piMap, fanins[j].node).Some?)
    ensures (FaninNames(wires, piMap, fanins).Ok? ==>
      |FaninNames(wires, piMap, fanins).value| == |fanins|
      && forall j :: 0 <= j < |fanins| ==>
        FaninNames(wires, piMap, fanins).value[j] == NameOf(wires, piMap, fanins[j].node).value)
    ensures (FaninNames(wires, piMap, fanins).Err? ==>
      FaninNames(wires, piMap, fanins).error < |fanins|
      && NameOf(wires, piMap, fanins[FaninNames(wires, piMap, fanins).error].node).None?)
    decreases |fanins|
  {
    if |fanins| > 0 {
      var front := fanins[..|fanins| - 1];
      FaninNamesSpec(wires, piMap, front);
      assert forall j :: 0 <= j < |front| ==> front[j] == fanins[j];
    }
  }

  /** The complement flags of the fanins. */
  function Compl(fanins: seq<Fanin>): (r: seq<bool>)
    ensures |r| == |fanins|
  {
    seq(|fanins|, j requires 0 <= j < |fanins| => fanins[j].compl)
  }

  /** An instance: its name, its fanin nets in order, the net it drives and its function. */
  datatype Lut = Lut(name: string, fanins: seq<string>, fanout: string, table: TT.Table)

  /** The k-th instance, for gate x, once x has joined the wires. */
  function GateLut(net: Net, piMap: map<nat, string>, wires: set<nat>, k: nat, x: nat): Result<Lut, Fault>
    requires x < |net.nodes| && net.nodes[x].LGate?
  {
    var g := net.nodes[x];
    match FaninNames(wires, piMap, g.fanins)
    case Err(j) => Err(UnnamedFanin(x, j))
    case Ok(names) => Ok(Lut(WV.Numbered("name", k), names, Wire(x), Adjust(g.table, Compl(g.fanins), |g.fanins|)))
  }

  /** The instances and the wire set after visiting the first n nodes. */
  function Luts(net: Net, piMap: map<nat, string>, n: nat): Result<(seq<Lut>, set<nat>), Fault>
    requires n <= |net.nodes|
  {
    if n == 0 then Ok(([], {}))
    else
      match Luts(net, piMap, n - 1)
      case Err(e) => Err(e)
      case Ok(acc) =>
        if !net.nodes[n - 1].LGate? then Ok(acc)
        else
          match GateLut(net, piMap, acc.1 + {n - 1}, |acc.0|, n - 1)
          case Err(e) => Err(e)
          case Ok(lut) => Ok((acc.0 + [lut], acc.1 + {n - 1}))
  }

  /** The gates among the first n nodes, in index order. */
  function Gates(net: Net, n: nat): (r: seq<nat>)
    requires n <= |net.nodes|
    ensures forall k :: 0 <= k < |r| ==> r[k] < n && net.nodes[r[k]].LGate?
  {
    if n == 0 then []
    else Gates(net, n - 1) + (if net.nodes[n - 1].LGate? then [n - 1] else [])
  }

  /** The gates among the first n nodes, as a set. */
  function GateSet(net: Net, n: nat): set<nat>
    requires n <= |net.nodes|
  {
    set x | 0 <= x < n && net.nodes[x].LGate?
  }

  /** After n nodes the wires are the gates among them and there is one instance per gate, in order, numbered from 0. */
  lemma {:induction false} LutsOk(net: Net, piMap: map<nat, string>, n: nat)
    requires n <= |net.nodes| && Luts(net, piMap, n).Ok?
    ensures Luts(net, piMap, n).value.1 == GateSet(net, n)
    ensures |Luts(net, piMap, n).value.0| == |Gates(net, n)|
    ensures (forall k :: 0 <= k < |Gates(net, n)| ==>
      GateLut(net, piMap, GateSet(net, Gates(net, n)[k]) + {Gates(net, n)[k]}, k, Gates(net, n)[k])
        == Ok(Luts(net, piMap, n).value.0[k]))
  {
    if n > 0 {
      LutsOk(net, piMap, n - 1);
      var acc := Luts(net, piMap, n - 1).value;
      var gs := Gates(net, n - 1);
      assert forall k :: 0 <= k < |gs| ==> Gates(net, n)[k] == gs[k];
      if net.nodes[n - 1].LGate? {
        assert GateSet(net, n) == acc.1 + {n - 1};
        assert Luts(net, piMap, n).value.0 == acc.0 + [GateLut(net, piMap, acc.1 + {n - 1}, |acc.0|, n - 1).value];
      } else {
        assert GateSet(net, n) == acc.1;
      }
    }
  }

  /** Fanin f of gate x can be named: it is a gate no later than x, or an input. */
  predicate Resolves(net: Net, piMap: map<nat, string>, x: nat, f: nat) {
    (f <= x && f < |net.nodes| && net.nodes[f].LGate?) || f in piMap
  }

  /** Writing the instances stops exactly when some gate has a fanin that cannot be named. */
  lemma {:induction false} LutsFail(net: Net, piMap: map<nat, string>, n: nat)
    requires n <= |net.nodes|
    ensures (Luts(net, piMap, n).Err? <==>
      exists x, j :: 0 <= x < n && net.nodes[x].LGate? && 0 <= j < |net.nodes[x].fanins|
        && !Resolves(net, piMap, x, net.nodes[x].fanins[j].node))
  {
    if n > 0 {
      LutsFail(net, piMap, n - 1);
      var x := n - 1;
      if Luts(net, piMap, n - 1).Ok? && net.nodes[x].LGate? {
        LutsOk(net, piMap, n - 1);
        var wires := GateSet(net, x) + {x};
        var fanins := net.nodes[x].fanins;
        FaninNamesSpec(wires, piMap, fanins);
        forall j | 0 <= j < |fanins|
          ensures NameOf(wires, piMap, fanins[j].node).Some? <==> Resolves(net, piMap, x, fanins[j].node)
        {
        }
      }
    }
  }

  /**
   * The k-th instance of gate x is named `name<k>`, drives `_w<x>_`, and
   * is fed by the wire of each gate fanin and the input name of each
   * input fanin.
   */
  lemma GateLutNames(net: Net, piMap: map<nat, string>, k: nat, x: nat, lut: Lut)
    requires x < |net.nodes| && net.nodes[x].LGate?
    requires GateLut(net, piMap, GateSet(net, x) + {x}, k, x) == Ok(lut)
    ensures lut.name == WV.Numbered("name", k) && lut.fanout == Wire(x)
    ensures |lut.fanins| == |net.nodes[x].fanins|
    ensures (forall j :: 0 <= j < |lut.fanins| ==>
      var f := net.nodes[x].fanins[j].node;
      Resolves(net, piMap, x, f)
      && lut.fanins[j] == if f <= x && f < |net.nodes| && net.nodes[f].LGate? then Wire(f) else piMap[f])
  {
    FaninNamesSpec(GateSet(net, x) + {x}, piMap, net.nodes[x].fanins);
  }

  /**
   * The instance computes on the plain fanin nets what gate x computes on
   * its fanin signals, and its INIT literal, 1 << (number of fanins) bits
   * wide, covers its function exactly.
   */
  lemma GateLutComputes(net: Net, piMap: map<nat, string>, k: nat, x: nat, lut: Lut, vals: seq<bool>)
    requires WellFormed(net) && x < |net.nodes| && net.nodes[x].LGate?
    requires GateLut(net, piMap, GateSet(net, x) + {x}, k, x) == Ok(lut)
    requires |vals| == |net.nodes[x].fanins|
    ensures |lut.table| == InitWidth(lut)
    ensures K.LutOut(lut.table, vals) == K.LutOut(net.nodes[x].table, Toggled(vals, Compl(net.nodes[x].fanins), |vals|))
  {
    var g := net.nodes[x];
    FaninNamesSpec(GateSet(net, x) + {x}, piMap, g.fanins);
    AdjustComputes(g.table, Compl(g.fanins), vals, |g.fanins|);
  }

  /** The bit width of the INIT parameter, 1 << (number of fanins). */
  function InitWidth(lut: Lut): nat {
    Bits.Pow2(|lut.fanins|)
  }

  // ---------------------------------------------------------------------
  // Outputs and the whole netlist
  // ---------------------------------------------------------------------

  /** The net an output node drives: `1'b<node>` for a constant, the input's name, or the gate's wire. */
  function Driver(net: Net, piMap: map<nat, string>, x: nat): string
    requires x < |net.nodes|
  {
    match net.nodes[x]
    case LConst(_) => "1'b" + NatToString(x)
    case LPi => if x in piMap then piMap[x] else ""
    case LGate(_, _) => Wire(x)
  }

  /** In a k-LUT network the constant's node index is the bit literal of its value. */
  lemma ConstantDriver(net: Net, piMap: map<nat, string>, x: nat)
    requires WellFormed(net) && x < |net.nodes| && net.nodes[x].LConst?
    ensures Driver(net, piMap, x) == if net.nodes[x].value then "1'b1" else "1'b0"
  {
    assert NatToString(0) == "0";
    assert NatToString(1) == "1";
  }

  /** `assign <output> = <driver>;`. */
  datatype Assign = Assign(output: string, driver: string)

  /** The output assignments, output i under vec_pos[i], which must exist. */
  function Outputs(net: Net, piMap: map<nat, string>, names: seq<string>): Result<seq<Assign>, Fault>
    requires WellFormed(net)
  {
    if |names| < |net.pos| then Err(PoNameMissing(|names|))
    else Ok(seq(|net.pos|, i requires 0 <= i < |net.pos| => Assign(names[i], Driver(net, piMap, net.pos[i]))))
  }

  /**
   * The written module: the header's port list, the input and output
   * declarations, the declared wires (an unordered set), the instances
   * and the output assignments.
   */
  datatype Netlist = Netlist(
    ports: seq<string>, inputs: seq<string>, outputs: seq<string>,
    wires: set<nat>, luts: seq<Lut>, assigns: seq<Assign>)

  /** write_lut: inputs are mapped first, then the instances are built, then the outputs are assigned. */
  function Written(net: Net, ps: WV.Params): Result<Netlist, Fault>
    requires WellFormed(net)
  {
    var vecPis := PiNames(net, ps);
    var vecPos := PoNames(net, ps);
    match PiMap(net.pis, vecPis)
    case Err(e) => Err(e)
    case Ok(piMap) =>
      match Luts(net, piMap, |net.nodes|)
      case Err(e) => Err(e)
      case Ok(acc) =>
        match Outputs(net, piMap, vecPos)
        case Err(e) => Err(e)
        case Ok(assigns) => Ok(Netlist(vecPis + vecPos, vecPis, vecPos, acc.1, acc.0, assigns))
  }

  /** Fanin f of gate x is an input or a gate no later than x. */
  predicate Readable(net: Net, x: nat, f: nat) {
    f < |net.nodes| && (net.nodes[f].LPi? || (net.nodes[f].LGate? && f <= x))
  }

  /** With enough input names, the names reach exactly the input nodes. */
  lemma ResolvesReadable(net: Net, names: seq<string>, x: nat, f: nat)
    requires WellFormed(net) && |net.pis| <= |names|
    ensures Resolves(net, Bind(net.pis, names), x, f) <==> Readable(net, x, f)
  {
    BindLookup(net.pis, names);
    if f in net.pis {
      var i :| 0 <= i < |net.pis| && net.pis[i] == f;
    }
  }

  /**
   * Writing fails exactly when there are fewer input names than inputs,
   * when a gate reads a constant or a later gate (the assertion in the
   * fanin naming), or when there are fewer output names than outputs.
   */
  lemma WrittenFails(net: Net, ps: WV.Params)
    requires WellFormed(net)
    ensures (Written(net, ps).Err? <==>
      |PiNames(net, ps)| < |net.pis|
      || (exists x, j :: 0 <= x < |net.nodes| && net.nodes[x].LGate? && 0 <= j < |net.nodes[x].fanins|
            && !Readable(net, x, net.nodes[x].fanins[j].node))
      || |PoNames(net, ps)| < |net.pos|)
  {
    var vecPis := PiNames(net, ps);
    if |net.pis| <= |vecPis| {
      var piMap := Bind(net.pis, vecPis);
      LutsFail(net, piMap, |net.nodes|);
      forall x, f ensures Resolves(net, piMap, x, f) <==> Readable(net, x, f) {
        ResolvesReadable(net, vecPis, x, f);
      }
    }
  }

  /**
   * A written netlist lists the inputs then the outputs in its header,
   * declares a wire for every gate and nothing else, has one instance per
   * gate, and assigns every output under its own name.
   */
  lemma WrittenShape(net: Net, ps: WV.Params)
    requires WellFormed(net) && Written(net, ps).Ok?
    ensures Written(net, ps).value.inputs == PiNames(net, ps)
    ensures Written(net, ps).value.outputs == PoNames(net, ps)
    ensures Written(net, ps).value.ports == PiNames(net, ps) + PoNames(net, ps)
    ensures Written(net, ps).value.wires == GateSet(net, |net.nodes|)
    ensures |Written(net, ps).value.luts| == |Gates(net, |net.nodes|)|
    ensures |Written(net, ps).value.assigns| == |net.pos|
    ensures (forall i :: 0 <= i < |net.pos| ==>
      Written(net, ps).value.assigns[i].output == PoNames(net, ps)[i])
  {
    LutsOk(net, Bind(net.pis, PiNames(net, ps)), |net.nodes|);
  }

  /** Output i is driven by the literal of its constant, by its input's name, or by its gate's wire. */
  lemma WrittenDriver(net: Net, ps: WV.Params, i: nat)
    requires WellFormed(net) && Written(net, ps).Ok? && i < |net.pos|
    ensures (var x := net.pos[i];
      var d := Written(net, ps).value.assigns[i].driver;
      match net.nodes[x]
      case LConst(v) => d == if v then "1'b1" else "1'b0"
      case LPi => exists m :: 0 <= m < |net.pis| && net.pis[m] == x && d == PiNames(net, ps)[m]
      case LGate(_, _) => d == Wire(x))
  {
    var x := net.pos[i];
    var names := PiNames(net, ps);
    var piMap := Bind(net.pis, names);
    BindLookup(net.pis, names);
    match net.nodes[x]
    case LConst(v) => ConstantDriver(net, piMap, x);
    case LPi =>
      var m :| 0 <= m < |net.pis| && net.pis[m] == x;
      assert Driver(net, piMap, x) == names[m];
    case LGate(_, _) =>
  }

  /**
   * The k-th instance belongs to the k-th gate x: it is named `name<k>`,
   * drives `_w<x>_`, reads the wire of each gate fanin and the name of
   * each input fanin, and computes on those nets what x computes on its
   * possibly complemented fanins.
   */
  lemma WrittenLut(net: Net, ps: WV.Params, k: nat, vals: seq<bool>)
    requires WellFormed(net) && Written(net, ps).Ok? && k < |Written(net, ps).value.luts|
    ensures (var luts := Written(net, ps).value.luts;
      var gs := Gates(net, |net.nodes|);
      k < |gs| && luts[k].name == WV.Numbered("name", k) && luts[k].fanout == Wire(gs[k])
      && |luts[k].fanins| == |net.nodes[gs[k]].fanins|
      && |luts[k].table| == InitWidth(luts[k]))
    ensures (var luts := Written(net, ps).value.luts;
      var x := Gates(net, |net.nodes|)[k];
      forall j :: 0 <= j < |luts[k].fanins| ==>
        var f := net.nodes[x].fanins[j].node;
        Readable(net, x, f)
        && (net.nodes[f].LGate? ==> luts[k].fanins[j] == Wire(f))
        && (net.nodes[f].LPi? ==>
              exists m :: 0 <= m < |net.pis| && net.pis[m] == f && luts[k].fanins[j] == PiNames(net, ps)[m]))
    ensures (var luts := Written(net, ps).value.luts;
      var x := Gates(net, |net.nodes|)[k];
      |vals| == |luts[k].fanins| ==>
        K.LutOut(luts[k].table, vals) == K.LutOut(net.nodes[x].table, Toggled(vals, Compl(net.nodes[x].fanins), |vals|)))
  {
    var names := PiNames(net, ps);
    var piMap := Bind(net.pis, names);
    var n := |net.nodes|;
    LutsOk(net, piMap, n);
    var gs := Gates(net, n);
    var x := gs[k];
    var lut := Written(net, ps).value.luts[k];
    assert GateLut(net, piMap, GateSet(net, x) + {x}, k, x) == Ok(lut);
    GateLutNames(net, piMap, k, x, lut);
    BindLookup(net.pis, names);
    forall j | 0 <= j < |lut.fanins|
      ensures var f := net.nodes[x].fanins[j].node;
        Readable(net, x, f)
        && (net.nodes[f].LGate? ==> lut.fanins[j] == Wire(f))
        && (net.nodes[f].LPi? ==> exists m :: 0 <= m < |net.pis| && net.pis[m] == f && lut.fanins[j] == names[m])
    {
      var f := net.nodes[x].fanins[j].node;
      ResolvesReadable(net, names, x, f);
      if f < n && net.nodes[f].LPi? {
        var m :| 0 <= m < |net.pis| && net.pis[m] == f;
        assert lut.fanins[j] == names[m];
      }
    }
    if |vals| == |lut.fanins| {
      GateLutComputes(net, piMap, k, x, lut, vals);
    } else {
      GateLutComputes(net, piMap, k, x, lut, seq(|lut.fanins|, _ => false));
    }
  }

  // ---------------------------------------------------------------------
  // write_lut
  // ---------------------------------------------------------------------

  /** vec_pis: the default input names or the declared port names. */
  method NamePis(net: Net, ps: WV.Params) returns (vecPis: seq<string>)
    ensures vecPis == PiNames(net, ps)
  {
    vecPis := [];
    if ps.inputs == [] {
      for i := 0 to |net.pis|
        invariant vecPis == seq(i, m requires 0 <= m < i => Tagged("_i", net.pis[m]))
      {
        vecPis := vecPis + [Tagged("_i", net.pis[i])];
      }
    } else {
      for i := 0 to |ps.inputs|
        invariant vecPis == seq(i, m requires 0 <= m < i => ps.inputs[m].name)
      {
        vecPis := vecPis + [ps.inputs[i].name];
      }
    }
  }

  /** vec_pos: the default output names or the declared port names. */
  method NamePos(net: Net, ps: WV.Params) returns (vecPos: seq<string>)
    ensures vecPos == PoNames(net, ps)
  {
    vecPos := [];
    if ps.outputs == [] {
      for i := 0 to |net.pos|
        invariant vecPos == seq(i, m requires 0 <= m < i => Tagged("_o", m))
      {
        vecPos := vecPos + [Tagged("_o", i)];
      }
    } else {
      for i := 0 to |ps.outputs|
        invariant vecPos == seq(i, m requires 0 <= m < i => ps.outputs[m].name)
      {
        vecPos := vecPos + [ps.outputs[i].name];
      }
    }
  }

  /** pi_map: input i's node under vec_pis[i]; reading past the end of vec_pis stops writing. */
  method MapPis(pis: seq<nat>, vecPis: seq<string>) returns (r: Result<map<nat, string>, Fault>)
    ensures r == PiMap(pis, vecPis)
  {
    var piMap: map<nat, string> := map[];
    for i := 0 to |pis|
      invariant i <= |vecPis| ==> piMap == Bind(pis[..i], vecPis)
      invariant i <= |vecPis|
    {
      if i == |vecPis| {
        return Err(PiNameMissing(i));
      }
      assert pis[..i + 1][..i] == pis[..i];
      piMap := piMap[pis[i] := vecPis[i]];
    }
    assert pis[..|pis|] == pis;
    r := Ok(piMap);
  }

  /** One instance: fold each complemented fanin into the function and name each fanin, in fanin order. */
  method MakeLut(net: Net, piMap: map<nat, string>, wires: set<nat>, k: nat, x: nat) returns (r: Result<Lut, Fault>)
    requires x < |net.nodes| && net.nodes[x].LGate?
    ensures r == GateLut(net, piMap, wires, k, x)
  {
    var fanins := net.nodes[x].fanins;
    var table := net.nodes[x].table;
    var names: seq<string> := [];
    for i := 0 to |fanins|
      invariant table == Adjust(net.nodes[x].table, Compl(fanins), i)
      invariant FaninNames(wires, piMap, fanins[..i]) == Ok(names)
    {
      if fanins[i].compl {
        table := Flip(table, i);
      }
      var f := fanins[i].node;
      assert fanins[..i + 1][..i] == fanins[..i];
      if f in wires {
        names := names + [Wire(f)];
      } else if f in piMap {
        names := names + [piMap[f]];
      } else {
        FaninNamesErr(wires, piMap, fanins, i);
        return Err(UnnamedFanin(x, i));
      }
    }
    assert fanins[..|fanins|] == fanins;
    r := Ok(Lut(WV.Numbered("name", k), names, Wire(x), table));
  }

  /** A failure at fanin i is the failure of the whole fanin list. */
  lemma {:induction false} FaninNamesErr(wires: set<nat>, piMap: map<nat, string>, fanins: seq<Fanin>, i: nat)
    requires i < |fanins| && FaninNames(wires, piMap, fanins[..i]).Ok?
    requires NameOf(wires, piMap, fanins[i].node).None?
    ensures FaninNames(wires, piMap, fanins) == Err(i)
    decreases |fanins|
  {
    if i + 1 < |fanins| {
      var front := fanins[..|fanins| - 1];
      assert front[..i] == fanins[..i];
      FaninNamesErr(wires, piMap, front, i);
    } else {
      assert fanins[..|fanins| - 1] == fanins[..i];
    }
  }

  /** vec_LUTs and uset_wires: every gate in index order joins the wires and then yields its instance. */
  method BuildLuts(net: Net, piMap: map<nat, string>) returns (r: Result<(seq<Lut>, set<nat>), Fault>)
    ensures r == Luts(net, piMap, |net.nodes|)
  {
    var luts: seq<Lut> := [];
    var wires: set<nat> := {};
    for x := 0 to |net.nodes|
      invariant Luts(net, piMap, x) == Ok((luts, wires))
    {
      if net.nodes[x].LGate? {
        wires := wires + {x};
        var lut := MakeLut(net, piMap, wires, |luts|, x);
        if lut.Err? {
          LutsErrStays(net, piMap, x + 1, |net.nodes|);
          return Err(lut.error);
        }
        luts := luts + [lut.value];
      }
    }
    r := Ok((luts, wires));
  }

  /** Once writing the instances has stopped, visiting more nodes does not resume it. */
  lemma {:induction false} LutsErrStays(net: Net, piMap: map<nat, string>, n: nat, m: nat)
    requires n <= m <= |net.nodes| && Luts(net, piMap, n).Err?
    ensures Luts(net, piMap, m) == Luts(net, piMap, n)
    decreases m
  {
    if m > n {
      LutsErrStays(net, piMap, n, m - 1);
    }
  }

  /** The output assignments in output order; reading past the end of vec_pos stops writing. */
  method AssignOutputs(net: Net, piMap: map<nat, string>, vecPos: seq<string>) returns (r: Result<seq<Assign>, Fault>)
    requires WellFormed(net)
    ensures r == Outputs(net, piMap, vecPos)
  {
    var assigns: seq<Assign> := [];
    for i := 0 to |net.pos|
      invariant i <= |vecPos|
      invariant assigns == seq(i, m requires 0 <= m < i => Assign(vecPos[m], Driver(net, piMap, net.pos[m])))
    {
      if i == |vecPos| {
        assert Outputs(net, piMap, vecPos) == Err(PoNameMissing(i));
        return Err(PoNameMissing(i));
      }
      var x := net.pos[i];
      var driver: string;
      if net.nodes[x].LConst? {
        driver := "1'b" + NatToString(x);
      } else if net.nodes[x].LPi? {
        driver := if x in piMap then piMap[x] else "";
      } else {
        driver := Wire(x);
      }
      assigns := assigns + [Assign(vecPos[i], driver)];
    }
    assert |vecPos| >= |net.pos|;
    assert Outputs(net, piMap, vecPos).Ok?;
    assert |assigns| == |Outputs(net, piMap, vecPos).value|;
    assert forall m :: 0 <= m < |net.pos| ==> assigns[m] == Outputs(net, piMap, vecPos).value[m];
    assert assigns == Outputs(net, piMap, vecPos).value;
    r := Ok(assigns);
  }

  /** write_lut: the netlist of a k-LUT network, or why it cannot be written. */
  method WriteLut(net: Net, ps: WV.Params) returns (r: Result<Netlist, Fault>)
    requires WellFormed(net)
    ensures r == Written(net, ps)
  {
    var vecPis := NamePis(net, ps);
    var piMap := MapPis(net.pis, vecPis);
    if piMap.Err? {
      return Err(piMap.error);
    }
    var vecPos := NamePos(net, ps);
    var built := BuildLuts(net, piMap.value);
    if built.Err? {
      return Err(built.error);
    }
    var assigns := AssignOutputs(net, piMap.value, vecPos);
    if assigns.Err? {
      return Err(assigns.error);
    }
    r := Ok(Netlist(vecPis + vecPos, vecPis, vecPos, built.value.1, built.value.0, assigns.value));
  }
}
