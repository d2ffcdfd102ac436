// The binary AIGER writer: a header line, one line per primary output
// literal, then every AND gate as two variable-length deltas, and a final
// comment marker. The network is given as its node kinds (node 0 the
// constant, then inputs and gates in creation order) and its output edges.
module WriteAiger {
  import opened Wrappers
  import opened AigGraph

  type Byte = x: nat | x < 256

  // ---------------------------------------------------------------------
  // Variable-length unsigned integers

  /** The encoding of x: 7-bit groups, least significant first, with 0x80
   *  set on every byte but the last. */
  function VarInt(x: nat): seq<Byte>
    decreases x
  {
    if x < 0x80 then [x] else [x % 0x80 + 0x80] + VarInt(x / 0x80)
  }

  /** Reads one encoded integer from the front of the bytes, returning it and
   *  the bytes after it. */
  function ReadVarInt(bytes: seq<Byte>): Option<(nat, seq<Byte>)>
    decreases |bytes|
  {
    if bytes == [] then None
    else if bytes[0] < 0x80 then Some((bytes[0], bytes[1..]))
    else match ReadVarInt(bytes[1..])
      case None => None
      case Some((high, rest)) => Some((bytes[0] - 0x80 + 0x80 * high, rest))
  }

  /** Decoding an encoded integer gives it back and leaves what follows. */
  lemma {:induction false} ReadVarIntRoundTrip(x: nat, rest: seq<Byte>)
    ensures ReadVarInt(VarInt(x) + rest) == Some((x, rest))
    decreases x
  {
    if x >= 0x80 {
      ReadVarIntRoundTrip(x / 0x80, rest);
      assert (VarInt(x) + rest)[1..] == VarInt(x / 0x80) + rest;
    }
  }

  /** At least one byte; the last is below 0x80 and all others are not. */
  lemma {:induction false} VarIntShape(x: nat)
    ensures |VarInt(x)| >= 1
    ensures VarInt(x)[|VarInt(x)| - 1] < 0x80
    ensures forall i :: 0 <= i < |VarInt(x)| - 1 ==> VarInt(x)[i] >= 0x80
    decreases x
  {
    if x >= 0x80 {
      VarIntShape(x / 0x80);
    }
  }

  /** encode: appends the encoding of lit to the buffer. */
  method Encode(buffer: seq<Byte>, lit: nat) returns (out: seq<Byte>)
    requires lit < 0x1_0000_0000
    ensures out == buffer + VarInt(lit)
  {
    out := buffer;
    var l := lit;
    while l >= 0x80
      invariant out + VarInt(l) == buffer + VarInt(lit)
      decreases l
    {
      out := out + [l % 0x80 + 0x80];
      l := l / 0x80;
    }
    out := out + [l];
  }

  // ---------------------------------------------------------------------
  // Decimal numbers

  /** The decimal digits of n, as printed by "%u". */
  function Dec(n: nat): (s: string)
    ensures |s| >= 1 && forall i :: 0 <= i < |s| ==> '0' <= s[i] <= '9'
  {
    if n < 10 then [Digit(n)] else Dec(n / 10) + [Digit(n % 10)]
  }

  function Digit(d: nat): (c: char)
    requires d < 10
    ensures '0' <= c <= '9'
  {
    ('0' as int + d) as char
  }

  /** The number a string of decimal digits denotes. */
  function DecValue(s: string): nat
  {
    if s == [] then 0
    else
      var c := s[|s| - 1];
      10 * DecValue(s[..|s| - 1]) + (if '0' <= c <= '9' then c as int - '0' as int else 0)
  }

  /** Reading the printed digits gives the number back. */
  lemma {:induction false} DecRoundTrip(n: nat)
    ensures DecValue(Dec(n)) == n
    decreases n
  {
    if n >= 10 {
      DecRoundTrip(n / 10);
      assert (Dec(n / 10) + [Digit(n % 10)])[..|Dec(n)| - 1] == Dec(n / 10);
    }
  }

  // ---------------------------------------------------------------------
  // The network's counts and literals

  /** Number of nodes among the first n with kind Pi. */
  function CountPis(kinds: seq<Kind>, n: nat): nat
    requires n <= |kinds|
  {
    if n == 0 then 0 else CountPis(kinds, n - 1) + (if kinds[n - 1].Pi? then 1 else 0)
  }

  /** Number of nodes among the first n that are AND gates. */
  function CountGates(kinds: seq<Kind>, n: nat): nat
    requires n <= |kinds|
  {
    if n == 0 then 0 else CountGates(kinds, n - 1) + (if kinds[n - 1].And? then 1 else 0)
  }

  /** The AIGER literal of an edge: twice the node index, plus one when
   *  complemented. */
  function Literal(e: Edge): nat
  {
    2 * e.node + (if e.compl then 1 else 0)
  }

  lemma LiteralDecodes(e: Edge)
    ensures Literal(e) / 2 == e.node
    ensures Literal(e) % 2 == 1 <==> e.compl
  {
  }

  /** The header line "aig M I L O A" with no latches. */
  function HeaderLine(m: nat, i: nat, o: nat, a: nat): string
  {
    "aig " + Dec(m) + " " + Dec(i) + " 0 " + Dec(o) + " " + Dec(a) + "\n"
  }

  /** One line per output, its literal in decimal. */
  function OutputLines(outputs: seq<Edge>): string
  {
    if outputs == [] then ""
    else OutputLines(outputs[..|outputs| - 1]) + Dec(Literal(outputs[|outputs| - 1])) + "\n"
  }

  /** The fanin literals of a gate, larger first. */
  function Fanins(f0: Edge, f1: Edge): (nat, nat)
  {
    var l1, l2 := Literal(f0), Literal(f1);
    if l1 > l2 then (l1, l2) else (l2, l1)
  }

  /** The two deltas of gate n: lhs - rhs0 and rhs0 - rhs1. */
  function GateBytes(kinds: seq<Kind>, n: nat): seq<Byte>
    requires Topological(kinds) && n < |kinds| && kinds[n].And?
  {
    var (rhs0, rhs1) := Fanins(kinds[n].f0, kinds[n].f1);
    VarInt(2 * n - rhs0) + VarInt(rhs0 - rhs1)
  }

  /** The gate section for the nodes from n on. */
  function GatesFrom(kinds: seq<Kind>, n: nat): seq<Byte>
    requires Topological(kinds) && 1 <= n <= |kinds|
    decreases |kinds| - n
  {
    if n == |kinds| then []
    else (if kinds[n].And? then GateBytes(kinds, n) else []) + GatesFrom(kinds, n + 1)
  }

  function Chars(bytes: seq<Byte>): (s: string)
    ensures |s| == |bytes| && forall i :: 0 <= i < |s| ==> s[i] as int == bytes[i]
  {
    seq(|bytes|, i requires 0 <= i < |bytes| => bytes[i] as char)
  }

  /** The whole binary AIGER stream of a network. */
  function AigerText(kinds: seq<Kind>, outputs: seq<Edge>): string
    requires Topological(kinds) && 1 <= |kinds|
  {
    var i, a := CountPis(kinds, |kinds|), CountGates(kinds, |kinds|);
    HeaderLine(i + a, i, |outputs|, a) + OutputLines(outputs) + Chars(GatesFrom(kinds, 1)) + "c"
  }

  // ---------------------------------------------------------------------
  // The writer

  /** write_aiger: the header with M = inputs + gates, the output literals,
   *  the encoded gates, and the comment marker 'c'. Every literal must fit
   *  the 32-bit words the writer prints. */
  method WriteAigerStream(kinds: seq<Kind>, outputs: seq<Edge>) returns (out: string)
    requires Topological(kinds) && 1 <= |kinds| && 2 * |kinds| <= 0x1_0000_0000
    ensures out == AigerText(kinds, outputs)
    ensures out[|out| - 1] == 'c'
  {
    var numPis, numGates := CountPis(kinds, |kinds|), CountGates(kinds, |kinds|);
    out := HeaderLine(numPis + numGates, numPis, |outputs|, numGates);
    out := WriteOutputs(out, outputs);
    var buffer := EncodeGates(kinds);
    out := PutBytes(out, buffer);
    out := out + "c";
  }

  /** The output loop: one decimal literal per line. */
  method WriteOutputs(text: string, outputs: seq<Edge>) returns (out: string)
    ensures out == text + OutputLines(outputs)
  {
    out := text;
    for k := 0 to |outputs|
      invariant out == text + OutputLines(outputs[..k])
    {
      assert outputs[..k + 1][..k] == outputs[..k];
      out := out + Dec(Literal(outputs[k])) + "\n";
    }
    assert outputs[..|outputs|] == outputs;
  }

  /** The gate loop: orders each gate's fanin literals so that the larger is
   *  rhs0, then encodes lhs - rhs0 and rhs0 - rhs1. */
  method EncodeGates(kinds: seq<Kind>) returns (buffer: seq<Byte>)
    requires Topological(kinds) && 1 <= |kinds| && 2 * |kinds| <= 0x1_0000_0000
    ensures buffer == GatesFrom(kinds, 1)
  {
    buffer := [];
    for n := 1 to |kinds|
      invariant buffer + GatesFrom(kinds, n) == GatesFrom(kinds, 1)
    {
      ghost var before := buffer;
      buffer := EncodeGate(buffer, kinds, n);
      GateStep(before, buffer, kinds, n);
    }
    assert GatesFrom(kinds, |kinds|) == [];
  }

  /** One round of the gate loop: an AND gate appends its two deltas, any other node nothing. */
  method EncodeGate(buffer: seq<Byte>, kinds: seq<Kind>, n: nat) returns (out: seq<Byte>)
    requires Topological(kinds) && 1 <= n < |kinds| && 2 * |kinds| <= 0x1_0000_0000
    ensures out == buffer + (if kinds[n].And? then GateBytes(kinds, n) else [])
  {
    out := buffer;
    if kinds[n].And? {
      var lits0, lits1, lits2 := 2 * n, Literal(kinds[n].f0), Literal(kinds[n].f1);
      if lits1 > lits2 {
        lits1, lits2 := lits2, lits1;
      }
      assert (lits2, lits1) == Fanins(kinds[n].f0, kinds[n].f1);
      GateEncoded(kinds, n, lits2, lits1);
      out := Encode(out, lits0 - lits2);
      out := Encode(out, lits2 - lits1);
      AppendAssoc(buffer, VarInt(lits0 - lits2), VarInt(lits2 - lits1));
    }
  }

  /** The bytes of gate n are the two deltas of its ordered fanin literals. */
  lemma GateEncoded(kinds: seq<Kind>, n: nat, rhs0: nat, rhs1: nat)
    requires Topological(kinds) && n < |kinds| && kinds[n].And?
    requires (rhs0, rhs1) == Fanins(kinds[n].f0, kinds[n].f1)
    ensures rhs1 <= rhs0 <= 2 * n
    ensures GateBytes(kinds, n) == VarInt(2 * n - rhs0) + VarInt(rhs0 - rhs1)
  {
  }

  lemma AppendAssoc<T>(a: seq<T>, b: seq<T>, c: seq<T>)
    ensures a + b + c == a + (b + c)
  {
  }

  /** One round of the gate loop keeps the buffer a prefix of the whole gate section. */
  lemma GateStep(before: seq<Byte>, after: seq<Byte>, kinds: seq<Kind>, n: nat)
    requires Topological(kinds) && 1 <= n < |kinds|
    requires before + GatesFrom(kinds, n) == GatesFrom(kinds, 1)
    requires after == before + (if kinds[n].And? then GateBytes(kinds, n) else [])
    ensures after + GatesFrom(kinds, n + 1) == GatesFrom(kinds, 1)
  {
    GatesFromUnfold(kinds, n);
    var g := if kinds[n].And? then GateBytes(kinds, n) else [];
    PrefixStep(before, after, g, GatesFrom(kinds, n), GatesFrom(kinds, n + 1), GatesFrom(kinds, 1));
  }

  lemma GatesFromUnfold(kinds: seq<Kind>, n: nat)
    requires Topological(kinds) && 1 <= n < |kinds|
    ensures GatesFrom(kinds, n) == (if kinds[n].And? then GateBytes(kinds, n) else []) + GatesFrom(kinds, n + 1)
  {
  }

  /** Moving one piece from the front of the rest to the end of the prefix keeps the whole. */
  lemma PrefixStep<T>(before: seq<T>, after: seq<T>, g: seq<T>, rest: seq<T>, tail: seq<T>, whole: seq<T>)
    requires before + rest == whole && rest == g + tail && after == before + g
    ensures after + tail == whole
  {
    assert before + g + tail == before + (g + tail);
  }

  /** Copies the byte buffer to the stream. */
  method PutBytes(text: string, buffer: seq<Byte>) returns (out: string)
    ensures out == text + Chars(buffer)
  {
    out := text;
    for k := 0 to |buffer|
      invariant out == text + Chars(buffer[..k])
    {
      out := out + [buffer[k] as char];
    }
    assert buffer[..|buffer|] == buffer;
  }

  // ---------------------------------------------------------------------
  // Reading the gate section back

  /** An AIGER reader's view of one gate with left literal lhs: two deltas,
   *  giving rhs0 = lhs - delta0 and rhs1 = rhs0 - delta1. */
  function ReadGate(bytes: seq<Byte>, lhs: nat): Option<((nat, nat), seq<Byte>)>
  {
    match ReadVarInt(bytes)
    case None => None
    case Some((d0, rest0)) =>
      match ReadVarInt(rest0)
      case None => None
      case Some((d1, rest1)) =>
        if d0 > lhs || d1 > lhs - d0 then None else Some(((lhs - d0, lhs - d0 - d1), rest1))
  }

  /** Reads count gates whose left literals are lhs, lhs + 2, ... */
  function ReadGates(bytes: seq<Byte>, lhs: nat, count: nat): Option<(seq<(nat, nat)>, seq<Byte>)>
    decreases count
  {
    if count == 0 then Some(([], bytes))
    else match ReadGate(bytes, lhs)
      case None => None
      case Some((gate, rest0)) =>
        match ReadGates(rest0, lhs + 2, count - 1)
        case None => None
        case Some((gates, rest)) => Some(([gate] + gates, rest))
  }

  /** Reading one encoded gate gives its fanin literals back. */
  lemma ReadGateRoundTrip(lhs: nat, rhs0: nat, rhs1: nat, rest: seq<Byte>)
    requires rhs1 <= rhs0 <= lhs
    ensures ReadGate(VarInt(lhs - rhs0) + (VarInt(rhs0 - rhs1) + rest), lhs) == Some(((rhs0, rhs1), rest))
  {
    ReadVarIntRoundTrip(lhs - rhs0, VarInt(rhs0 - rhs1) + rest);
    ReadVarIntRoundTrip(rhs0 - rhs1, rest);
  }

  /** The fanin literal pairs of the gates from node n on. */
  function FaninsFrom(kinds: seq<Kind>, n: nat): seq<(nat, nat)>
    requires n <= |kinds|
    decreases |kinds| - n
  {
    if n == |kinds| then []
    else (if kinds[n].And? then [Fanins(kinds[n].f0, kinds[n].f1)] else []) + FaninsFrom(kinds, n + 1)
  }

  /** Every node from n on is a gate, as in a network numbered the AIGER way
   *  (constant, inputs, then gates). */
  predicate GatesOnlyFrom(kinds: seq<Kind>, n: nat)
  {
    forall j :: n <= j < |kinds| ==> kinds[j].And?
  }

  /** A reader that knows the gates are numbered consecutively from n gets
   *  every gate's fanin literals back, larger first. */
  lemma {:induction false} ReadGatesRoundTrip(kinds: seq<Kind>, n: nat, rest: seq<Byte>)
    requires Topological(kinds) && 1 <= n <= |kinds| && GatesOnlyFrom(kinds, n)
    ensures ReadGates(GatesFrom(kinds, n) + rest, 2 * n, |kinds| - n) == Some((FaninsFrom(kinds, n), rest))
    decreases |kinds| - n
  {
    if n < |kinds| {
      ReadGatesRoundTrip(kinds, n + 1, rest);
      ReadGatesFromStep(kinds, n, rest);
    } else {
      assert GatesFrom(kinds, n) + rest == rest;
    }
  }

  /** The inductive step of ReadGatesRoundTrip: gate n, then the gates after it. */
  lemma ReadGatesFromStep(kinds: seq<Kind>, n: nat, rest: seq<Byte>)
    requires Topological(kinds) && 1 <= n < |kinds| && kinds[n].And?
    requires ReadGates(GatesFrom(kinds, n + 1) + rest, 2 * (n + 1), |kinds| - (n + 1))
          == Some((FaninsFrom(kinds, n + 1), rest))
    ensures ReadGates(GatesFrom(kinds, n) + rest, 2 * n, |kinds| - n) == Some((FaninsFrom(kinds, n), rest))
  {
    var gate := Fanins(kinds[n].f0, kinds[n].f1);
    var a, b := VarInt(2 * n - gate.0), VarInt(gate.0 - gate.1);
    var g := GatesFrom(kinds, n + 1);
    assert GatesFrom(kinds, n) + rest == a + b + g + rest by {
      GatesFromUnfold(kinds, n);
      assert GateBytes(kinds, n) == a + b;
    }
    assert 2 * (n + 1) == 2 * n + 2;
    ReadOneThenRest(GatesFrom(kinds, n) + rest, 2 * n, |kinds| - n, gate, g, rest,
                    FaninsFrom(kinds, n + 1), FaninsFrom(kinds, n));
  }

  /** Reading a gate's two deltas, then the remaining gates. */
  lemma ReadOneThenRest(bytes: seq<Byte>, lhs: nat, count: nat, gate: (nat, nat), gates: seq<Byte>,
                        rest: seq<Byte>, fanins: seq<(nat, nat)>, all: seq<(nat, nat)>)
    requires count >= 1 && gate.1 <= gate.0 <= lhs
    requires bytes == VarInt(lhs - gate.0) + VarInt(gate.0 - gate.1) + gates + rest
    requires all == [gate] + fanins
    requires ReadGates(gates + rest, lhs + 2, count - 1) == Some((fanins, rest))
    ensures ReadGates(bytes, lhs, count) == Some((all, rest))
  {
    var a, b := VarInt(lhs - gate.0), VarInt(gate.0 - gate.1);
    AppendAssoc3(a, b, gates, rest);
    ReadGateRoundTrip(lhs, gate.0, gate.1, gates + rest);
    ReadGatesStep(bytes, lhs, count, gate, gates + rest, fanins, rest);
  }

  /** One gate read, then the rest. */
  lemma ReadGatesStep(bytes: seq<Byte>, lhs: nat, count: nat, gate: (nat, nat), rest0: seq<Byte>,
                      gates: seq<(nat, nat)>, rest: seq<Byte>)
    requires count >= 1 && ReadGate(bytes, lhs) == Some((gate, rest0))
    requires ReadGates(rest0, lhs + 2, count - 1) == Some((gates, rest))
    ensures ReadGates(bytes, lhs, count) == Some(([gate] + gates, rest))
  {
  }

  lemma AppendAssoc3<T>(a: seq<T>, b: seq<T>, c: seq<T>, d: seq<T>)
    ensures a + b + c + d == a + (b + (c + d))
  {
  }

  /** The larger fanin literal comes first and both are below the gate's own
   *  literal, so both deltas are non-negative. */
  lemma FaninsOrdered(kinds: seq<Kind>, n: nat)
    requires Topological(kinds) && n < |kinds| && kinds[n].And?
    ensures Fanins(kinds[n].f0, kinds[n].f1).0 >= Fanins(kinds[n].f0, kinds[n].f1).1
    ensures Fanins(kinds[n].f0, kinds[n].f1).0 < 2 * n
  {
  }
}
