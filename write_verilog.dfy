// The names write_verilog gives the ports, wires and nodes of a network
// before it streams the structural Verilog: input and output bits from the
// declared ports (or x0.., y0..), the gate wires n<index>, the constants
// 1'b0 / 1'b1, and the output assignments.
module WriteVerilog {
  import opened Wrappers
  import opened Decimal

  const WORD32: nat := 0x1_0000_0000

  /** A declared port: its name and bit width (0 for a scalar). */
  datatype Port = Port(name: string, width: nat)

  /** write_verilog_params: the module name and the declared input and output ports. */
  datatype Params = Params(moduleName: string, inputs: seq<Port>, outputs: seq<Port>)

  /** fmt::format("{}{}", prefix, i). */
  function Numbered(prefix: string, i: nat): string {
    prefix + NatToString(i)
  }

  /** Different numbers give different names under one prefix. */
  lemma NumberedInjective(prefix: string, i: nat, j: nat)
    requires Numbered(prefix, i) == Numbered(prefix, j)
    ensures i == j
  {
    assert NatToString(i) == Numbered(prefix, i)[|prefix|..];
    assert NatToString(j) == Numbered(prefix, j)[|prefix|..];
    NatToStringInjective(i, j);
  }

  // ---------------------------------------------------------------------
  // port bits
  // ---------------------------------------------------------------------

  /** The bits a port contributes: one bit for a scalar, one per index for a vector. */
  function BitWidth(p: Port): nat {
    if p.width == 0 then 1 else p.width
  }

  /** `name` for a scalar, `name[0]`..`name[w-1]` for a vector of width w. */
  function PortBits(p: Port): (r: seq<string>)
    ensures |r| == BitWidth(p)
  {
    if p.width == 0 then [p.name]
    else seq(p.width, i requires 0 <= i < p.width => p.name + "[" + NatToString(i) + "]")
  }

  /** The bits of all ports, port after port. */
  function AllBits(ports: seq<Port>): seq<string> {
    if |ports| == 0 then [] else AllBits(ports[..|ports| - 1]) + PortBits(ports[|ports| - 1])
  }

  /** The number of bits all ports declare. */
  function BitCount(ports: seq<Port>): nat {
    if |ports| == 0 then 0 else BitCount(ports[..|ports| - 1]) + BitWidth(ports[|ports| - 1])
  }

  /** The port names as declared. */
  function PortNames(ports: seq<Port>): (r: seq<string>)
    ensures |r| == |ports|
  {
    seq(|ports|, j requires 0 <= j < |ports| => ports[j].name)
  }

  /** The position of port j's first bit. */
  function Offset(ports: seq<Port>, j: nat): nat
    requires j <= |ports|
  {
    BitCount(ports[..j])
  }

  /** There are as many bits as the ports declare. */
  lemma {:induction false} AllBitsLength(ports: seq<Port>)
    ensures |AllBits(ports)| == BitCount(ports)
  {
    if |ports| > 0 {
      AllBitsLength(ports[..|ports| - 1]);
    }
  }

  /** Bit i of port j sits at port j's offset plus i: the ports partition the bits in order. */
  lemma {:induction false} AllBitsAt(ports: seq<Port>, j: nat, i: nat)
    requires j < |ports| && i < BitWidth(ports[j])
    ensures Offset(ports, j) + i < |AllBits(ports)|
    ensures AllBits(ports)[Offset(ports, j) + i] == PortBits(ports[j])[i]
  {
    var front := ports[..|ports| - 1];
    var a, p := AllBits(front), PortBits(ports[|ports| - 1]);
    assert AllBits(ports) == a + p;
    AllBitsLength(front);
    if j == |ports| - 1 {
      assert ports[..j] == front;
      assert Offset(ports, j) == |a|;
      assert (a + p)[|a| + i] == p[i];
    } else {
      assert front[..j] == ports[..j];
      AllBitsAt(front, j, i);
      assert Offset(ports, j) == Offset(front, j);
      assert front[j] == ports[j];
      assert (a + p)[Offset(front, j) + i] == a[Offset(front, j) + i];
    }
  }

  /** The declared widths summed as the 32-bit counter does: a scalar counts one. */
  function Counter(ports: seq<Port>): nat {
    BitCount(ports) % WORD32
  }

  /** The default names prefix0 .. prefix{count-1}. */
  function DefaultNames(prefix: string, count: nat): (r: seq<string>)
    ensures |r| == count
  {
    seq(count, i requires 0 <= i < count => Numbered(prefix, i))
  }

  /** Default names never repeat. */
  lemma DefaultNamesDistinct(prefix: string, count: nat)
    ensures forall i, j :: 0 <= i < j < count ==> DefaultNames(prefix, count)[i] != DefaultNames(prefix, count)[j]
  {
    forall i, j | 0 <= i < j < count ensures DefaultNames(prefix, count)[i] != DefaultNames(prefix, count)[j] {
      if DefaultNames(prefix, count)[i] == DefaultNames(prefix, count)[j] {
        NumberedInjective(prefix, i, j);
      }
    }
  }

  /** The bit names of one direction: the defaults without declared ports, else the declared bits. */
  function BitNames(ports: seq<Port>, count: nat, prefix: string): seq<string> {
    if |ports| == 0 then DefaultNames(prefix, count) else AllBits(ports)
  }

  /** One port's step of the uint32 counter: `ctr += width`, then one more for a scalar. */
  function Bump(ctr: nat, width: nat): nat {
    var c := (ctr + width) % WORD32;
    if width == 0 then (c + 1) % WORD32 else c
  }

  /** The counter holds the bit count so far, wrapped to 32 bits, whatever the widths. */
  lemma BumpCounts(a: nat, p: Port)
    ensures Bump(a % WORD32, p.width) == (a + BitWidth(p)) % WORD32
  {
    assert (a % WORD32 + p.width) % WORD32 == (a + p.width) % WORD32;
    if p.width == 0 {
      assert ((a + p.width) % WORD32 + 1) % WORD32 == (a + 1) % WORD32;
    }
  }

  /** The loop over the default names: prefix0 .. prefix{count-1}. */
  method DefaultBitNames(count: nat, prefix: string) returns (bits: seq<string>)
    ensures bits == DefaultNames(prefix, count)
  {
    bits := [];
    for i := 0 to count
      invariant bits == DefaultNames(prefix, i)
    {
      bits := bits + [Numbered(prefix, i)];
    }
  }

  /** The inner loop for a vector port: name[0] .. name[w-1] appended to the bits so far. */
  method AppendVectorBits(bits0: seq<string>, p: Port) returns (bits: seq<string>)
    requires p.width > 0
    ensures bits == bits0 + PortBits(p)
  {
    bits := bits0;
    for i := 0 to p.width
      invariant bits == bits0 + PortBits(p)[..i]
    {
      bits := bits + [p.name + "[" + NatToString(i) + "]"];
      assert PortBits(p)[..i + 1] == PortBits(p)[..i] + [PortBits(p)[i]];
    }
    assert PortBits(p)[..p.width] == PortBits(p);
  }

  /** The loop over declared ports: their names, their bits, and the 32-bit bit counter. */
  method DeclaredBitNames(ports: seq<Port>) returns (bits: seq<string>, names: seq<string>, ctr: nat)
    ensures bits == AllBits(ports) && names == PortNames(ports) && ctr == Counter(ports)
  {
    bits, names, ctr := [], [], 0;
    for j := 0 to |ports|
      invariant bits == AllBits(ports[..j])
      invariant names == PortNames(ports[..j])
      invariant ctr == BitCount(ports[..j]) % WORD32
    {
      var p := ports[j];
      ghost var upto := ports[..j + 1];
      assert upto[..j] == ports[..j] && upto[j] == p;
      assert AllBits(upto) == AllBits(ports[..j]) + PortBits(p);
      assert BitCount(upto) == BitCount(ports[..j]) + BitWidth(p);
      assert PortNames(upto) == PortNames(ports[..j]) + [p.name];
      BumpCounts(BitCount(ports[..j]), p);
      names := names + [p.name];
      ctr := Bump(ctr, p.width);
      if p.width == 0 {
        bits := bits + [p.name];
      } else {
        bits := AppendVectorBits(bits, p);
      }
    }
    assert ports[..|ports|] == ports;
  }

  /**
   * The bit names (xs or ys), the declared names (inputs or outputs) and
   * the partition error flag for one direction. Without declared ports the
   * bits are prefix0.. and the declared names are those bits; with declared
   * ports a bit total different from count only raises the error flag.
   */
  method PortBitNames(ports: seq<Port>, count: nat, prefix: string)
    returns (bits: seq<string>, names: seq<string>, mismatch: bool)
    ensures bits == BitNames(ports, count, prefix)
    ensures |ports| == 0 ==> names == bits && !mismatch
    ensures |ports| > 0 ==> names == PortNames(ports) && mismatch == (Counter(ports) != count)
  {
    if |ports| == 0 {
      bits := DefaultBitNames(count, prefix);
      return bits, bits, false;
    }
    var ctr;
    bits, names, ctr := DeclaredBitNames(ports);
    mismatch := ctr != count;
  }

  // ---------------------------------------------------------------------
  // node names
  // ---------------------------------------------------------------------

  datatype Kind = Constant | Input | Gate

  /**
   * The network as write_verilog sees it: the kind of each node, the
   * input nodes in input order, the outputs (node and complement flag), the
   * nodes of the false and true constants (the same node in an AIG), and
   * the nodes topo_view visits, in its order.
   */
  datatype Net = Net(kinds: seq<Kind>, pis: seq<nat>, pos: seq<(nat, bool)>,
                     constFalse: nat, constTrue: nat, topo: seq<nat>)

  predicate WellFormed(net: Net) {
    && net.constFalse < |net.kinds| && net.kinds[net.constFalse] == Constant
    && net.constTrue < |net.kinds| && net.kinds[net.constTrue] == Constant
    && (forall i :: 0 <= i < |net.pis| ==> net.pis[i] < |net.kinds| && net.kinds[net.pis[i]] == Input)
    && (forall i, j :: 0 <= i < j < |net.pis| ==> net.pis[i] != net.pis[j])
    && (forall i :: 0 <= i < |net.topo| ==> net.topo[i] < |net.kinds|)
    && (forall i :: 0 <= i < |net.pos| ==> net.pos[i].0 < |net.kinds|)
  }

  /** The gates in index order (foreach_gate). */
  function Gates(kinds: seq<Kind>): seq<nat> {
    if |kinds| == 0 then []
    else Gates(kinds[..|kinds| - 1]) + (if kinds[|kinds| - 1] == Gate then [|kinds| - 1] else [])
  }

  /** The wire list: n<index> for each gate, in index order. */
  function Wires(kinds: seq<Kind>): (r: seq<string>)
    ensures |r| == |Gates(kinds)|
  {
    seq(|Gates(kinds)|, i requires 0 <= i < |Gates(kinds)| => Numbered("n", Gates(kinds)[i]))
  }

  /** The gates listed are exactly the gate nodes, in increasing order. */
  lemma {:induction false} GatesExact(kinds: seq<Kind>)
    ensures forall i :: 0 <= i < |Gates(kinds)| ==> Gates(kinds)[i] < |kinds| && kinds[Gates(kinds)[i]] == Gate
    ensures forall n :: 0 <= n < |kinds| && kinds[n] == Gate ==> n in Gates(kinds)
    ensures forall i, j :: 0 <= i < j < |Gates(kinds)| ==> Gates(kinds)[i] < Gates(kinds)[j]
  {
    if |kinds| > 0 {
      var front := kinds[..|kinds| - 1];
      GatesExact(front);
      assert forall n :: 0 <= n < |front| ==> front[n] == kinds[n];
    }
  }

  /** Every gate has its own wire: no two wire names coincide. */
  lemma WiresDistinct(kinds: seq<Kind>)
    ensures forall i, j :: 0 <= i < j < |Wires(kinds)| ==> Wires(kinds)[i] != Wires(kinds)[j]
  {
    GatesExact(kinds);
    forall i, j | 0 <= i < j < |Wires(kinds)| ensures Wires(kinds)[i] != Wires(kinds)[j] {
      if Wires(kinds)[i] == Wires(kinds)[j] {
        NumberedInjective("n", Gates(kinds)[i], Gates(kinds)[j]);
      }
    }
  }

  /** Reading `xs[i]` past the end of the bit names: undefined behaviour in the source. */
  datatype Fault = NameOutOfRange

  /**
   * The node_map of names: "1'b0" for the false constant, "1'b1" for a
   * distinct true constant, bit name xs[i] for input i, n<index> for each
   * gate topo_view visits, and the empty default for every other node.
   */
  method NameNodes(net: Net, xs: seq<string>) returns (r: Result<seq<string>, Fault>)
    requires WellFormed(net)
    ensures r.Err? <==> |xs| < |net.pis|
    ensures r.Ok? ==> |r.value| == |net.kinds|
    ensures r.Ok? ==> r.value[net.constFalse] == "1'b0"
    ensures r.Ok? && net.constTrue != net.constFalse ==> r.value[net.constTrue] == "1'b1"
    ensures r.Ok? ==> forall i :: 0 <= i < |net.pis| ==> r.value[net.pis[i]] == xs[i]
    ensures r.Ok? ==> forall n :: n in net.topo && net.kinds[n] == Gate ==> r.value[n] == Numbered("n", n)
    ensures r.Ok? ==> forall n :: (0 <= n < |net.kinds| && n != net.constFalse && n != net.constTrue
      && n !in net.pis && !(n in net.topo && net.kinds[n] == Gate)) ==> r.value[n] == ""
  {
    if |xs| < |net.pis| {
      return Err(NameOutOfRange);
    }
    var names := seq(|net.kinds|, _ => "");
    names := names[net.constFalse := "1'b0"];
    if net.constTrue != net.constFalse {
      names := names[net.constTrue := "1'b1"];
    }
    names := NameInputs(names, net.pis, xs);
    names := NameGates(names, net.kinds, net.topo);
    return Ok(names);
  }

  /** The input loop of the naming: input i gets bit name xs[i]; other nodes keep their names. */
  method NameInputs(names: seq<string>, pis: seq<nat>, xs: seq<string>) returns (out: seq<string>)
    requires |pis| <= |xs| && (forall i :: 0 <= i < |pis| ==> pis[i] < |names|)
    requires forall i, j :: 0 <= i < j < |pis| ==> pis[i] != pis[j]
    ensures |out| == |names|
    ensures forall i :: 0 <= i < |pis| ==> out[pis[i]] == xs[i]
    ensures forall n :: 0 <= n < |names| && n !in pis ==> out[n] == names[n]
  {
    out := names;
    for i := 0 to |pis|
      invariant |out| == |names|
      invariant forall j :: 0 <= j < i ==> out[pis[j]] == xs[j]
      invariant forall n :: 0 <= n < |names| && n !in pis[..i] ==> out[n] == names[n]
    {
      out := out[pis[i] := xs[i]];
    }
    assert pis[..|pis|] == pis;
  }

  /** The gate loop of the naming: each gate in topo gets n<index>; other nodes keep their names. */
  method NameGates(names: seq<string>, kinds: seq<Kind>, topo: seq<nat>) returns (out: seq<string>)
    requires |names| == |kinds| && forall i :: 0 <= i < |topo| ==> topo[i] < |kinds|
    ensures |out| == |names|
    ensures forall n :: n in topo && kinds[n] == Gate ==> out[n] == Numbered("n", n)
    ensures forall n :: 0 <= n < |names| && !(n in topo && kinds[n] == Gate) ==> out[n] == names[n]
  {
    out := names;
    for t := 0 to |topo|
      invariant |out| == |names|
      invariant forall n :: n in topo[..t] && kinds[n] == Gate ==> out[n] == Numbered("n", n)
      invariant forall n :: (0 <= n < |names| && !(n in topo[..t] && kinds[n] == Gate)) ==> out[n] == names[n]
    {
      var n := topo[t];
      assert topo[..t + 1] == topo[..t] + [n];
      if kinds[n] != Constant && kinds[n] != Input {
        out := out[n := Numbered("n", n)];
      }
    }
    assert topo[..|topo|] == topo;
  }

  /** One output assignment: the output bit, the complement flag, and the driver's name. */
  datatype Assign = Assign(output: string, complemented: bool, driver: string)

  /** The output assignments: ys[i] gets output i's driver name with its complement flag. */
  method AssignOutputs(pos: seq<(nat, bool)>, ys: seq<string>, names: seq<string>) returns (r: Result<seq<Assign>, Fault>)
    requires forall i :: 0 <= i < |pos| ==> pos[i].0 < |names|
    ensures r.Err? <==> |ys| < |pos|
    ensures r.Ok? ==> (|r.value| == |pos|
      && forall i :: 0 <= i < |pos| ==> r.value[i] == Assign(ys[i], pos[i].1, names[pos[i].0]))
  {
    if |ys| < |pos| {
      return Err(NameOutOfRange);
    }
    var assigns: seq<Assign> := [];
    for i := 0 to |pos|
      invariant |assigns| == i
      invariant forall j :: 0 <= j < i ==> assigns[j] == Assign(ys[j], pos[j].1, names[pos[j].0])
    {
      assigns := assigns + [Assign(ys[i], pos[i].1, names[pos[i].0])];
    }
    return Ok(assigns);
  }

  /** All names write_verilog uses, and whether each direction's ports failed to partition its bits. */
  datatype Names = Names(inputs: seq<string>, xs: seq<string>, outputs: seq<string>, ys: seq<string>,
                         wires: seq<string>, nodeNames: seq<string>, assigns: seq<Assign>,
                         inputError: bool, outputError: bool)

  /**
   * The naming part of write_verilog, in its order: input bits, output
   * bits, wires, node names, output assignments. A partition error only
   * sets its flag; writing goes on.
   */
  method NameNetwork(net: Net, ps: Params) returns (r: Result<Names, Fault>)
    requires WellFormed(net)
    ensures r.Ok? ==> r.value.wires == Wires(net.kinds)
    ensures r.Ok? ==> (r.value.xs == BitNames(ps.inputs, |net.pis|, "x")
      && r.value.inputError == (|ps.inputs| > 0 && Counter(ps.inputs) != |net.pis|))
    ensures r.Ok? ==> (r.value.ys == BitNames(ps.outputs, |net.pos|, "y")
      && r.value.outputError == (|ps.outputs| > 0 && Counter(ps.outputs) != |net.pos|))
    ensures r.Ok? ==> |r.value.nodeNames| == |net.kinds| && |r.value.xs| >= |net.pis| && |r.value.ys| >= |net.pos|
    ensures r.Ok? ==> (r.value.inputs == (if |ps.inputs| == 0 then r.value.xs else PortNames(ps.inputs))
      && r.value.outputs == (if |ps.outputs| == 0 then r.value.ys else PortNames(ps.outputs)))
    ensures r.Ok? ==> forall i :: 0 <= i < |net.pis| ==> r.value.nodeNames[net.pis[i]] == r.value.xs[i]
    ensures r.Ok? ==> r.value.nodeNames[net.constFalse] == "1'b0"
    ensures r.Ok? && net.constTrue != net.constFalse ==> r.value.nodeNames[net.constTrue] == "1'b1"
    ensures r.Ok? ==> forall n :: n in net.topo && net.kinds[n] == Gate ==> r.value.nodeNames[n] == Numbered("n", n)
    ensures r.Ok? ==> forall n :: (0 <= n < |net.kinds| && n != net.constFalse && n != net.constTrue
      && n !in net.pis && !(n in net.topo && net.kinds[n] == Gate)) ==> r.value.nodeNames[n] == ""
    ensures r.Ok? ==> (|r.value.assigns| == |net.pos|
      && forall i :: 0 <= i < |net.pos| ==> r.value.assigns[i] == Assign(r.value.ys[i], net.pos[i].1, r.value.nodeNames[net.pos[i].0]))
    ensures r.Err? <==> (|BitNames(ps.inputs, |net.pis|, "x")| < |net.pis|
      || |BitNames(ps.outputs, |net.pos|, "y")| < |net.pos|)
  {
    var xs, inputs, inputError := PortBitNames(ps.inputs, |net.pis|, "x");
    var ys, outputs, outputError := PortBitNames(ps.outputs, |net.pos|, "y");
    var wires := Wires(net.kinds);
    var names := NameNodes(net, xs);
    if names.Err? {
      return Err(names.error);
    }
    var assigns := AssignOutputs(net.pos, ys, names.value);
    if assigns.Err? {
      return Err(assigns.error);
    }
    return Ok(Names(inputs, xs, outputs, ys, wires, names.value, assigns.value, inputError, outputError));
  }
}
