// The mapper regression script: it maps every benchmark with ABC and with
// iFPGA, reads the LUT histogram, area, level and resource figures back
// from each tool, calls a case better or worse than ABC, and averages the
// score ratios over small, medium and large cases.
module MapperTest {
  import opened Wrappers
  import opened Text
  import opened Decimal

  /** The Python exceptions the script can raise on the paths modelled here. */
  datatype Fault = IndexError | AttributeError | TypeError | ValueError | ZeroDivisionError

  /** The length of `[0] * k`: a negative k gives the empty list. */
  function Width(k: int): nat {
    if k < 0 then 0 else k
  }

  function Total(xs: seq<nat>): nat {
    if |xs| == 0 then 0 else xs[0] + Total(xs[1..])
  }

  /** Adding one to an entry adds one to the total. */
  lemma {:induction false} TotalUpdate(xs: seq<nat>, s: nat)
    requires s < |xs|
    ensures Total(xs[s := xs[s] + 1]) == Total(xs) + 1
  {
    var ys := xs[s := xs[s] + 1];
    if s == 0 {
      assert ys[1..] == xs[1..];
    } else {
      TotalUpdate(xs[1..], s - 1);
      assert ys[1..] == xs[1..][s - 1 := xs[s] + 1];
    }
  }

  lemma {:induction false} TotalSplit(xs: seq<nat>, n: nat)
    requires n <= |xs|
    ensures Total(xs) == Total(xs[..n]) + Total(xs[n..])
  {
    if n > 0 {
      TotalSplit(xs[1..], n - 1);
      assert xs[1..][..n - 1] == xs[..n][1..];
      assert xs[1..][n - 1..] == xs[n..];
    }
  }

  // ---------------------------------------------------------------------
  // the LUT histogram of ABC's Verilog
  // ---------------------------------------------------------------------

  /** len(set(inputs)): the number of distinct identifiers. */
  function Distinct(ids: seq<string>): nat {
    |set x | x in ids|
  }

  /**
   * How one line of ABC's Verilog is binned. None when the line is skipped:
   * no `assign`, a constant `1'b`, or a buffer (one identifier and no '~').
   * Otherwise the number of distinct identifiers right of the last '=';
   * identifiers(e) stands for re.findall of the identifier pattern on e.
   */
  function Bin(line: string, identifiers: string -> seq<string>): (r: Option<nat>)
    ensures !Contains(line, "assign") || Contains(line, "1'b") ==> r == None
    ensures r.Some? ==> r.value == Distinct(identifiers(AfterLast(line, "=")))
    ensures (Contains(line, "assign") && !Contains(line, "1'b")
      && (Distinct(identifiers(AfterLast(line, "="))) != 1 || '~' in AfterLast(line, "=")))
      <==> r.Some?
  {
    if !Contains(line, "assign") || Contains(line, "1'b") then None
    else
      var expr := AfterLast(line, "=");
      var n := Distinct(identifiers(expr));
      if n == 1 && '~' !in expr then None else Some(n)
  }

  /**
   * The entry `lut_nums[n - 1]` names in a list of width w: entry n - 1
   * for 1 <= n <= w, the last entry for n = 0 (Python's index -1), and an
   * IndexError past the end or in an empty list.
   */
  function Slot(n: nat, w: nat): (r: Result<nat, Fault>)
    ensures r.Ok? ==> r.value < w
    ensures r.Err? <==> n > w || w == 0
    ensures r.Err? ==> r.error == IndexError
  {
    if n == 0 then (if w == 0 then Err(IndexError) else Ok(w - 1))
    else if n <= w then Ok(n - 1)
    else Err(IndexError)
  }

  /** A counted line whose entry lies outside the list. */
  predicate Overflows(line: string, w: nat, identifiers: string -> seq<string>) {
    Bin(line, identifiers).Some? && Slot(Bin(line, identifiers).value, w).Err?
  }

  /** A counted line that lands in entry s. */
  predicate LandsIn(line: string, w: nat, identifiers: string -> seq<string>, s: nat) {
    Bin(line, identifiers).Some? && Slot(Bin(line, identifiers).value, w) == Ok(s)
  }

  /** The histogram after the lines, or the IndexError of the first overflowing line. */
  function Histogram(lines: seq<string>, w: nat, identifiers: string -> seq<string>): (r: Result<seq<nat>, Fault>)
    ensures r.Ok? ==> |r.value| == w
    ensures r.Err? ==> r.error == IndexError
    decreases |lines|
  {
    if |lines| == 0 then Ok(seq(w, _ => 0))
    else
      match Histogram(lines[..|lines| - 1], w, identifiers)
      case Err(e) => Err(e)
      case Ok(h) =>
        match Bin(lines[|lines| - 1], identifiers)
        case None => Ok(h)
        case Some(n) =>
          match Slot(n, w)
          case Err(e) => Err(e)
          case Ok(s) => Ok(h[s := h[s] + 1])
  }

  /** The number of lines that land in entry s. */
  function CountIn(lines: seq<string>, w: nat, identifiers: string -> seq<string>, s: nat): nat {
    if |lines| == 0 then 0
    else (CountIn(lines[..|lines| - 1], w, identifiers, s)
      + (if LandsIn(lines[|lines| - 1], w, identifiers, s) then 1 else 0))
  }

  /** The number of lines that are counted at all. */
  function Counted(lines: seq<string>, identifiers: string -> seq<string>): nat {
    if |lines| == 0 then 0
    else Counted(lines[..|lines| - 1], identifiers) + (if Bin(lines[|lines| - 1], identifiers).Some? then 1 else 0)
  }

  /** An error in a prefix of the lines is an error of all of them. */
  lemma {:induction false} HistogramPrefixErr(lines: seq<string>, i: nat, w: nat, identifiers: string -> seq<string>)
    requires i <= |lines| && Histogram(lines[..i], w, identifiers).Err?
    ensures Histogram(lines, w, identifiers).Err?
    decreases |lines|
  {
    if i < |lines| {
      var front := lines[..|lines| - 1];
      assert front[..i] == lines[..i];
      HistogramPrefixErr(front, i, w, identifiers);
    } else {
      assert lines[..i] == lines;
    }
  }

  /** The histogram fails exactly when some counted line overflows the list. */
  lemma {:induction false} HistogramFails(lines: seq<string>, w: nat, identifiers: string -> seq<string>)
    ensures Histogram(lines, w, identifiers).Err?
      <==> exists i :: 0 <= i < |lines| && Overflows(lines[i], w, identifiers)
    decreases |lines|
  {
    if |lines| > 0 {
      var front := lines[..|lines| - 1];
      HistogramFails(front, w, identifiers);
      if exists i :: 0 <= i < |front| && Overflows(front[i], w, identifiers) {
        var i :| 0 <= i < |front| && Overflows(front[i], w, identifiers);
        assert lines[i] == front[i];
      }
      if exists i :: 0 <= i < |lines| && Overflows(lines[i], w, identifiers) {
        var i :| 0 <= i < |lines| && Overflows(lines[i], w, identifiers);
        if i < |front| {
          assert front[i] == lines[i];
        }
      }
    }
  }

  /** Each entry of the histogram counts the lines that land in it. */
  lemma {:induction false} HistogramCounts(lines: seq<string>, w: nat, identifiers: string -> seq<string>)
    requires Histogram(lines, w, identifiers).Ok?
    ensures forall s :: 0 <= s < w ==> Histogram(lines, w, identifiers).value[s] == CountIn(lines, w, identifiers, s)
    decreases |lines|
  {
    if |lines| > 0 {
      HistogramCounts(lines[..|lines| - 1], w, identifiers);
    }
  }

  /** The histogram's total is the number of counted lines. */
  lemma {:induction false} HistogramTotal(lines: seq<string>, w: nat, identifiers: string -> seq<string>)
    requires Histogram(lines, w, identifiers).Ok?
    ensures Total(Histogram(lines, w, identifiers).value) == Counted(lines, identifiers)
    decreases |lines|
  {
    if |lines| == 0 {
      ZerosTotal(w);
    } else {
      var front := lines[..|lines| - 1];
      HistogramTotal(front, w, identifiers);
      var h := Histogram(front, w, identifiers).value;
      var b := Bin(lines[|lines| - 1], identifiers);
      if b.Some? {
        TotalUpdate(h, Slot(b.value, w).value);
      }
    }
  }

  lemma {:induction false} ZerosTotal(w: nat)
    ensures Total(seq(w, _ => 0)) == 0
  {
    if w > 0 {
      assert seq(w, _ => 0)[1..] == seq(w - 1, _ => 0);
      ZerosTotal(w - 1);
    }
  }

  /** area = sum(lut_nums), plus lut_nums[-1] once more when K is 7. */
  function Area(counts: seq<nat>, k: int): nat
    requires |counts| == Width(k)
  {
    Total(counts) + (if k == 7 then counts[6] else 0)
  }

  /** Seven-input LUTs weigh two, all others one. */
  lemma AreaWeights(counts: seq<nat>, k: int)
    requires |counts| == Width(k)
    ensures k != 7 ==> Area(counts, k) == Total(counts)
    ensures k == 7 ==> Area(counts, k) == Total(counts[..6]) + 2 * counts[6]
  {
    if k == 7 {
      TotalSplit(counts, 6);
      assert counts[6..][1..] == [];
    }
  }

  /** ABC's area counts every counted line once, and the 7-input ones twice. */
  lemma LutAreaCounts(lines: seq<string>, k: int, identifiers: string -> seq<string>)
    requires Histogram(lines, Width(k), identifiers).Ok?
    ensures Area(Histogram(lines, Width(k), identifiers).value, k)
      == Counted(lines, identifiers) + (if k == 7 then CountIn(lines, 7, identifiers, 6) else 0)
  {
    HistogramTotal(lines, Width(k), identifiers);
    HistogramCounts(lines, Width(k), identifiers);
  }

  /** Case.__lut_statistics: the histogram of the lines, filled in place, and its area. */
  method LutStatistics(lines: seq<string>, k: int, identifiers: string -> seq<string>)
    returns (r: Result<(seq<nat>, nat), Fault>)
    ensures Histogram(lines, Width(k), identifiers).Err? ==> r == Err(IndexError)
    ensures Histogram(lines, Width(k), identifiers).Ok? ==>
      r == Ok((Histogram(lines, Width(k), identifiers).value, Area(Histogram(lines, Width(k), identifiers).value, k)))
  {
    var w := Width(k);
    var counts := new nat[w](_ => 0);
    assert counts[..] == seq(w, _ => 0);
    for i := 0 to |lines|
      invariant Histogram(lines[..i], w, identifiers) == Ok(counts[..])
    {
      var line := lines[i];
      assert lines[..i + 1][..i] == lines[..i];
      assert lines[..i + 1][i] == line;
      if Contains(line, "assign") && !Contains(line, "1'b") {
        var expr := AfterLast(line, "=");
        var n := Distinct(identifiers(expr));
        if !(n == 1 && '~' !in expr) {
          var index := n as int - 1;
          if index < 0 {
            index := index + w;
          }
          if index < 0 || index >= w {
            HistogramPrefixErr(lines, i + 1, w, identifiers);
            return Err(IndexError);
          }
          counts[index] := counts[index] + 1;
        }
      }
    }
    assert lines[..|lines|] == lines;
    var area := Total(counts[..]);
    if k == 7 {
      area := area + counts[w - 1];
    }
    return Ok((counts[..], area));
  }

  // ---------------------------------------------------------------------
  // ABC's report
  // ---------------------------------------------------------------------

  /** The highest value, 0 for none. */
  function MaxOf(xs: seq<nat>): nat {
    if |xs| == 0 then 0
    else var m := MaxOf(xs[..|xs| - 1]); if xs[|xs| - 1] > m then xs[|xs| - 1] else m
  }

  /** MaxOf bounds every value and is one of them, or 0 when there is none. */
  lemma {:induction false} MaxOfIsMax(xs: seq<nat>)
    ensures forall i :: 0 <= i < |xs| ==> xs[i] <= MaxOf(xs)
    ensures MaxOf(xs) == 0 || MaxOf(xs) in xs
  {
    if |xs| > 0 {
      var front := xs[..|xs| - 1];
      MaxOfIsMax(front);
      assert forall i :: 0 <= i < |front| ==> xs[i] == front[i];
      assert MaxOf(front) in front ==> MaxOf(front) in xs;
    }
  }

  /** The level loop: the running maximum of every `Level = n` match, starting at 0. */
  method MaxLevel(levels: seq<nat>) returns (level: nat)
    ensures level == MaxOf(levels)
  {
    level := 0;
    for i := 0 to |levels|
      invariant level == MaxOf(levels[..i])
    {
      assert levels[..i + 1][..i] == levels[..i];
      if levels[i] > level {
        level := levels[i];
      }
    }
    assert levels[..|levels|] == levels;
  }

  /** What ABC's run yields: the histogram, area, level, peak memory and mapping time texts. */
  datatype AbcFigures = AbcFigures(luts: seq<nat>, area: nat, level: nat, memory: string, mapTime: string)

  /**
   * Case.__extract_abc_report: the histogram first, then the level; the
   * peak memory and total time lines must be present (a missing one makes
   * `None.group` raise AttributeError).
   */
  method ExtractAbcReport(lines: seq<string>, k: int, identifiers: string -> seq<string>,
                          levels: seq<nat>, memory: Option<string>, totalTime: Option<string>)
    returns (r: Result<AbcFigures, Fault>)
    ensures Histogram(lines, Width(k), identifiers).Err? ==> r == Err(IndexError)
    ensures Histogram(lines, Width(k), identifiers).Ok? && (memory.None? || totalTime.None?) ==> r == Err(AttributeError)
    ensures Histogram(lines, Width(k), identifiers).Ok? && memory.Some? && totalTime.Some? ==> r.Ok?
    ensures r.Ok? ==> (Histogram(lines, Width(k), identifiers) == Ok(r.value.luts)
      && r.value.area == Area(r.value.luts, k)
      && (forall i :: 0 <= i < |levels| ==> levels[i] <= r.value.level)
      && (r.value.level == 0 || r.value.level in levels)
      && memory == Some(r.value.memory) && totalTime == Some(r.value.mapTime))
  {
    var stats := LutStatistics(lines, k, identifiers);
    if stats.Err? {
      return Err(stats.error);
    }
    var level := MaxLevel(levels);
    MaxOfIsMax(levels);
    if memory.None? || totalTime.None? {
      return Err(AttributeError);
    }
    return Ok(AbcFigures(stats.value.0, stats.value.1, level, memory.value, totalTime.value));
  }

  // ---------------------------------------------------------------------
  // iFPGA's report
  // ---------------------------------------------------------------------

  /** The count for fanin i + 1: its line's number, 0 when the line is missing. */
  function MatchOrZero(matches: seq<Option<nat>>, i: nat): nat {
    if i < |matches| && matches[i].Some? then matches[i].value else 0
  }

  datatype IfpgaFigures = IfpgaFigures(luts: seq<nat>, area: nat, level: nat, memory: string, mapTime: string)

  /** What __extract_ifpga_report returns: the figures, the ('0', '0') failure pair, or an exception. */
  datatype IfpgaOutcome = Figures(figures: IfpgaFigures) | FailurePair | Raised(fault: Fault)

  /**
   * Case.__extract_ifpga_report. matches[i] stands for the first
   * `LUT fanins:<i+1> numbers:<n>` match, maxDelay for the `max delay`
   * match; a missing max delay returns the failure pair before anything
   * else is read.
   */
  method ExtractIfpgaReport(k: int, matches: seq<Option<nat>>, maxDelay: Option<nat>,
                            memory: Option<string>, mappingTime: Option<string>)
    returns (r: IfpgaOutcome)
    ensures r == FailurePair <==> maxDelay.None?
    ensures r.Raised? <==> maxDelay.Some? && (memory.None? || mappingTime.None?)
    ensures r.Raised? ==> r.fault == AttributeError
    ensures r.Figures? ==> (|r.figures.luts| == Width(k)
      && (forall i :: 0 <= i < Width(k) ==> r.figures.luts[i] == MatchOrZero(matches, i))
      && r.figures.area == Area(r.figures.luts, k)
      && maxDelay == Some(r.figures.level)
      && memory == Some(r.figures.memory) && mappingTime == Some(r.figures.mapTime))
  {
    var w := Width(k);
    var counts := new nat[w](_ => 0);
    for i := 0 to w
      invariant forall j :: 0 <= j < i ==> counts[j] == MatchOrZero(matches, j)
      invariant forall j :: i <= j < w ==> counts[j] == 0
    {
      if i < |matches| && matches[i].Some? {
        counts[i] := matches[i].value;
      }
    }
    if maxDelay.None? {
      return FailurePair;
    }
    var area := Total(counts[..]);
    if k == 7 {
      area := area + counts[w - 1];
    }
    if memory.None? || mappingTime.None? {
      return Raised(AttributeError);
    }
    return Figures(IfpgaFigures(counts[..], area, maxDelay.value, memory.value, mappingTime.value));
  }

  /** What run_ifpga hands to the main loop: nothing, the figures with the run time, or an exception. */
  datatype IfpgaRun = NoMetrics | Metrics(figures: IfpgaFigures, runtime: nat) | RunRaised(fault: Fault)

  /**
   * Case.run_ifpga as written: no metrics after output on stderr, else the
   * report plus the run time; `('0', '0') + [runtime]` adds a list to a
   * tuple and raises TypeError.
   */
  function RunIfpgaAsWritten(stderr: string, outcome: IfpgaOutcome, runtime: nat): (r: IfpgaRun)
    ensures r == NoMetrics <==> |stderr| > 0
    ensures |stderr| == 0 && outcome == FailurePair ==> r == RunRaised(TypeError)
  {
    if |stderr| > 0 then NoMetrics
    else
      match outcome
      case Figures(f) => Metrics(f, runtime)
      case FailurePair => RunRaised(TypeError)
      case Raised(e) => RunRaised(e)
  }

  /** A report without the max delay line stops the script as written, and only skips the case as intended. */
  lemma MissingDelayStopsScript(runtime: nat)
    ensures RunIfpgaAsWritten("", FailurePair, runtime) == RunRaised(TypeError)
    ensures RunIfpga("", FailurePair, runtime) == NoMetrics
  {
  }

  /** run_ifpga as intended: a report without a max delay is a failed run, like output on stderr. */
  function RunIfpga(stderr: string, outcome: IfpgaOutcome, runtime: nat): (r: IfpgaRun)
    ensures r == NoMetrics <==> |stderr| > 0 || outcome == FailurePair
    ensures r.Metrics? <==> |stderr| == 0 && outcome.Figures?
    ensures r.Metrics? ==> r.figures == outcome.figures && r.runtime == runtime
    ensures r.RunRaised? ==> outcome == Raised(r.fault)
  {
    if |stderr| > 0 then NoMetrics
    else
      match outcome
      case Figures(f) => Metrics(f, runtime)
      case FailurePair => NoMetrics
      case Raised(e) => RunRaised(e)
  }

  // ---------------------------------------------------------------------
  // the main loop: one row per compared case
  // ---------------------------------------------------------------------

  /** The time, map-time and memory ratios of a case, computed in floating point. */
  datatype Scores = Scores(mapTime: real, time: real, memory: real)

  /** float() of iFPGA's map-time and memory texts, the divisors of two of the score ratios. */
  datatype Readings = Readings(mapTime: real, memory: real)

  /** One benchmark: ABC's result and run time, iFPGA's stderr, report and run time. */
  datatype CaseRun = CaseRun(name: string, abc: Result<AbcFigures, Fault>, abcRuntime: nat,
                             ifpgaStderr: string, ifpga: IfpgaOutcome, ifpgaRuntime: nat, scores: Scores,
                             readings: Readings)

  datatype Row = Row(name: string, abc: AbcFigures, abcRuntime: nat, ifpga: IfpgaFigures, ifpgaRuntime: nat, scores: Scores)

  datatype Verdict = Worse | Better | Neither

  /** Worse when iFPGA loses on both area and delay, better when it loses on neither. */
  function VerdictOf(abcArea: nat, abcLevel: nat, ifpgaArea: nat, ifpgaLevel: nat): (v: Verdict)
    ensures v == Worse <==> ifpgaArea > abcArea && ifpgaLevel > abcLevel
    ensures v == Better <==> ifpgaArea <= abcArea && ifpgaLevel <= abcLevel
    ensures v == Neither <==> (ifpgaArea > abcArea) != (ifpgaLevel > abcLevel)
  {
    if ifpgaArea > abcArea && ifpgaLevel > abcLevel then Worse
    else if ifpgaArea <= abcArea && ifpgaLevel <= abcLevel then Better
    else Neither
  }

  function RowVerdict(row: Row): Verdict {
    VerdictOf(row.abc.area, row.abc.level, row.ifpga.area, row.ifpga.level)
  }

  /** The rows, and the names of the worse and of the better cases, in case order. */
  datatype Tally = Tally(rows: seq<Row>, worse: seq<string>, better: seq<string>)

  /** `area == '0'`: the area text is the digit zero exactly when the area is zero. */
  lemma AreaTextZero(n: nat)
    ensures NatToString(n) == "0" <==> n == 0
  {
    assert NatToString(0) == "0";
    if NatToString(n) == "0" {
      NatToStringInjective(n, 0);
    }
  }

  /**
   * One pass of the loop in main: ABC's failure stops the script, a zero
   * area skips the case, iFPGA's result is run_ifpga's, and the score
   * ratios divide by iFPGA's run time, map time, memory, area and delay.
   */
  function Step(t: Tally, c: CaseRun): Result<Tally, Fault> {
    match c.abc
    case Err(e) => Err(e)
    case Ok(a) =>
      if NatToString(a.area) == "0" then Ok(t)
      else
        match RunIfpga(c.ifpgaStderr, c.ifpga, c.ifpgaRuntime)
        case RunRaised(e) => Err(e)
        case NoMetrics => Ok(t)
        case Metrics(f, runtime) =>
          if runtime == 0 || c.readings.mapTime == 0.0 || c.readings.memory == 0.0 || f.area == 0 || f.level == 0 then
            Err(ZeroDivisionError)
          else
            var row := Row(c.name, a, c.abcRuntime, f, runtime, c.scores);
            var v := RowVerdict(row);
            Ok(Tally(t.rows + [row],
                     t.worse + (if v == Worse then [c.name] else []),
                     t.better + (if v == Better then [c.name] else [])))
  }

  /**
   * The divisions of a compared case: with ABC's area non-zero and iFPGA's
   * metrics present, the pass raises ZeroDivisionError exactly when one of
   * the five divisors is zero; a row is added only when none is.
   */
  lemma StepDivisions(t: Tally, c: CaseRun)
    ensures c.abc.Ok? && c.abc.value.area != 0 && RunIfpga(c.ifpgaStderr, c.ifpga, c.ifpgaRuntime).Metrics? ==>
      var m := RunIfpga(c.ifpgaStderr, c.ifpga, c.ifpgaRuntime);
      (Step(t, c) == Err(ZeroDivisionError) <==>
        m.runtime == 0 || c.readings.mapTime == 0.0 || c.readings.memory == 0.0 || m.figures.area == 0 || m.figures.level == 0)
    ensures Step(t, c).Ok? && Step(t, c).value != t ==>
      && |Step(t, c).value.rows| == |t.rows| + 1
      && var row := Step(t, c).value.rows[|t.rows|];
      && row.abc.area != 0 && row.ifpgaRuntime != 0 && row.ifpga.area != 0 && row.ifpga.level != 0
      && c.readings.mapTime != 0.0 && c.readings.memory != 0.0
  {
    if c.abc.Ok? {
      AreaTextZero(c.abc.value.area);
    }
  }

  function Collect(cases: seq<CaseRun>): Result<Tally, Fault>
    decreases |cases|
  {
    if |cases| == 0 then Ok(Tally([], [], []))
    else
      match Collect(cases[..|cases| - 1])
      case Err(e) => Err(e)
      case Ok(t) => Step(t, cases[|cases| - 1])
  }

  /** The names of the rows with verdict v, in row order. */
  function NamesWith(rows: seq<Row>, v: Verdict): seq<string> {
    if |rows| == 0 then []
    else NamesWith(rows[..|rows| - 1], v) + (if RowVerdict(rows[|rows| - 1]) == v then [rows[|rows| - 1].name] else [])
  }

  /** The worse and better lists name exactly the rows with those verdicts; every row has a non-zero ABC area. */
  lemma {:induction false} CollectVerdicts(cases: seq<CaseRun>)
    requires Collect(cases).Ok?
    ensures Collect(cases).value.worse == NamesWith(Collect(cases).value.rows, Worse)
    ensures Collect(cases).value.better == NamesWith(Collect(cases).value.rows, Better)
    ensures forall i :: 0 <= i < |Collect(cases).value.rows| ==> Collect(cases).value.rows[i].abc.area != 0
    ensures |Collect(cases).value.rows| <= |cases|
    decreases |cases|
  {
    if |cases| > 0 {
      var front := cases[..|cases| - 1];
      CollectVerdicts(front);
      var t := Collect(front).value;
      var c := cases[|cases| - 1];
      if c.abc.Ok? {
        AreaTextZero(c.abc.value.area);
      }
      var u := Collect(cases).value;
      if u.rows != t.rows {
        assert u.rows[..|u.rows| - 1] == t.rows;
      }
    }
  }

  lemma {:induction false} CollectPrefixErr(cases: seq<CaseRun>, i: nat)
    requires i <= |cases| && Collect(cases[..i]).Err?
    ensures Collect(cases) == Collect(cases[..i])
    decreases |cases|
  {
    if i < |cases| {
      var front := cases[..|cases| - 1];
      assert front[..i] == cases[..i];
      CollectPrefixErr(front, i);
    } else {
      assert cases[..i] == cases;
    }
  }

  /** The loop of main over the benchmarks, collecting rows and verdicts as it goes. */
  method CompareCases(cases: seq<CaseRun>) returns (r: Result<Tally, Fault>)
    ensures r == Collect(cases)
  {
    var rows: seq<Row> := [];
    var worse: seq<string> := [];
    var better: seq<string> := [];
    for i := 0 to |cases|
      invariant Collect(cases[..i]) == Ok(Tally(rows, worse, better))
    {
      var c := cases[i];
      assert cases[..i + 1][..i] == cases[..i];
      assert cases[..i + 1][i] == c;
      ghost var t0 := Tally(rows, worse, better);
      assert Collect(cases[..i + 1]) == Step(t0, c);
      if c.abc.Err? {
        CollectPrefixErr(cases, i + 1);
        return Err(c.abc.error);
      }
      var a := c.abc.value;
      if NatToString(a.area) == "0" {
        assert Step(t0, c) == Ok(t0);
        continue;
      }
      var metrics := RunIfpga(c.ifpgaStderr, c.ifpga, c.ifpgaRuntime);
      if metrics.RunRaised? {
        CollectPrefixErr(cases, i + 1);
        return Err(metrics.fault);
      }
      if metrics.NoMetrics? {
        assert Step(t0, c) == Ok(t0);
        continue;
      }
      var f := metrics.figures;
      if metrics.runtime == 0 || c.readings.mapTime == 0.0 || c.readings.memory == 0.0 || f.area == 0 || f.level == 0 {
        CollectPrefixErr(cases, i + 1);
        return Err(ZeroDivisionError);
      }
      var row := Row(c.name, a, c.abcRuntime, f, metrics.runtime, c.scores);
      rows := rows + [row];
      var verdict := VerdictOf(a.area, a.level, f.area, f.level);
      if verdict == Worse {
        worse := worse + [c.name];
      } else if verdict == Better {
        better := better + [c.name];
      }
      assert RunIfpga(c.ifpgaStderr, c.ifpga, c.ifpgaRuntime) == Metrics(f, metrics.runtime);
      assert Step(t0, c).value.rows == rows;
      assert Step(t0, c).value.worse == worse && Step(t0, c).value.better == better;
    }
    assert cases[..|cases|] == cases;
    return Ok(Tally(rows, worse, better));
  }

  // ---------------------------------------------------------------------
  // size buckets and their averages
  // ---------------------------------------------------------------------

  /** The leading cells of a row: name, ABC's histogram, area, level, map time, run time, memory. */
  function AbcCells(row: Row): (cells: seq<string>)
    ensures |cells| == 6 + |row.abc.luts|
  {
    [row.name] + seq(|row.abc.luts|, i requires 0 <= i < |row.abc.luts| => NatToString(row.abc.luts[i]))
      + [NatToString(row.abc.area), NatToString(row.abc.level), row.abc.mapTime,
         NatToString(row.abcRuntime), row.abc.memory]
  }

  /** int(row[5]) on a plain digit string; anything else raises ValueError. */
  function Key(row: Row): Result<nat, Fault> {
    var cell := AbcCells(row)[5];
    if |cell| > 0 && AllDigits(cell) then Ok(ParseNat(cell)) else Err(ValueError)
  }

  /** With five or more LUT sizes, column 5 is the 5-input LUT count, not the area. */
  lemma KeyIsLut5(row: Row)
    requires |row.abc.luts| >= 5
    ensures Key(row) == Ok(row.abc.luts[4])
  {
    assert AbcCells(row)[5] == NatToString(row.abc.luts[4]);
    ParseNatToString(row.abc.luts[4]);
  }

  /** With four LUT sizes, column 5 is the area. */
  lemma KeyIsAreaForK4(row: Row)
    requires |row.abc.luts| == 4
    ensures Key(row) == Ok(row.abc.area)
  {
    assert AbcCells(row)[5] == NatToString(row.abc.area);
    ParseNatToString(row.abc.area);
  }

  datatype Size = Small | Medium | Large

  /** Small below 1000, medium from 1000 to 5000 inclusive, large above 5000. */
  function SizeOf(key: nat): (s: Size)
    ensures s == Small <==> key < 1000
    ensures s == Medium <==> 1000 <= key <= 5000
    ensures s == Large <==> key > 5000
  {
    if key < 1000 then Small else if key <= 5000 then Medium else Large
  }

  predicate Keyed(rows: seq<Row>) {
    forall i :: 0 <= i < |rows| ==> Key(rows[i]).Ok?
  }

  /** The elements of one size, in order. */
  function SizeFilter<T>(xs: seq<T>, size: T -> Size, s: Size): seq<T> {
    if |xs| == 0 then []
    else (if size(xs[0]) == s then [xs[0]] else []) + SizeFilter(xs[1..], size, s)
  }

  /** Every element lands in exactly one of the three sizes. */
  lemma {:induction false} SizeFilterPartition<T>(xs: seq<T>, size: T -> Size)
    ensures multiset(SizeFilter(xs, size, Small)) + multiset(SizeFilter(xs, size, Medium))
      + multiset(SizeFilter(xs, size, Large)) == multiset(xs)
  {
    if |xs| > 0 {
      SizeFilterPartition(xs[1..], size);
      assert xs == [xs[0]] + xs[1..];
    }
  }

  /** The size a row's key gives it; rows whose key does not read never reach the buckets. */
  function RowSize(row: Row): Size {
    match Key(row)
    case Ok(key) => SizeOf(key)
    case Err(_) => Small
  }

  /** The rows of one size, in order. */
  function Bucket(rows: seq<Row>, s: Size): seq<Row>
    requires Keyed(rows)
  {
    SizeFilter(rows, RowSize, s)
  }

  /** Every element kept has the size asked for. */
  lemma {:induction false} SizeFilterSizes<T>(xs: seq<T>, size: T -> Size, s: Size)
    ensures forall i :: 0 <= i < |SizeFilter(xs, size, s)| ==> size(SizeFilter(xs, size, s)[i]) == s
  {
    if |xs| > 0 {
      SizeFilterSizes(xs[1..], size, s);
    }
  }

  /** Every row of a bucket has that bucket's size. */
  lemma BucketSizes(rows: seq<Row>, s: Size)
    requires Keyed(rows)
    ensures forall i :: 0 <= i < |Bucket(rows, s)| ==> RowSize(Bucket(rows, s)[i]) == s
  {
    SizeFilterSizes(rows, RowSize, s);
  }

  /** Every row lands in exactly one of the three buckets. */
  lemma BucketsPartition(rows: seq<Row>)
    requires Keyed(rows)
    ensures multiset(Bucket(rows, Small)) + multiset(Bucket(rows, Medium)) + multiset(Bucket(rows, Large)) == multiset(rows)
  {
    SizeFilterPartition(rows, RowSize);
  }

  function SumReal(xs: seq<real>): real {
    if |xs| == 0 then 0.0 else SumReal(xs[..|xs| - 1]) + xs[|xs| - 1]
  }

  /** The mean, or 0 for no values. */
  function Average(xs: seq<real>): real {
    if |xs| == 0 then 0.0 else SumReal(xs) / (|xs| as real)
  }

  lemma {:induction false} SumBetween(xs: seq<real>, lo: real, hi: real)
    requires forall i :: 0 <= i < |xs| ==> lo <= xs[i] <= hi
    ensures (|xs| as real) * lo <= SumReal(xs) <= (|xs| as real) * hi
  {
    if |xs| > 0 {
      SumBetween(xs[..|xs| - 1], lo, hi);
    }
  }

  /** The mean of values between lo and hi lies between lo and hi. */
  lemma AverageBetween(xs: seq<real>, lo: real, hi: real)
    requires |xs| > 0
    requires forall i :: 0 <= i < |xs| ==> lo <= xs[i] <= hi
    ensures lo <= Average(xs) <= hi
  {
    SumBetween(xs, lo, hi);
    var n := |xs| as real;
    assert Average(xs) * n == SumReal(xs);
  }

  lemma {:induction false} SumPositive(xs: seq<real>)
    requires |xs| > 0 && forall i :: 0 <= i < |xs| ==> xs[i] > 0.0
    ensures SumReal(xs) > 0.0
  {
    if |xs| > 1 {
      SumPositive(xs[..|xs| - 1]);
    }
  }

  /** The values above zero, in order. */
  function Positive(xs: seq<real>): (r: seq<real>)
    ensures forall i :: 0 <= i < |r| ==> r[i] > 0.0
  {
    if |xs| == 0 then []
    else Positive(xs[..|xs| - 1]) + (if xs[|xs| - 1] > 0.0 then [xs[|xs| - 1]] else [])
  }

  /** Some value is kept exactly when some value is above zero. */
  lemma {:induction false} PositiveNonEmpty(xs: seq<real>)
    ensures |Positive(xs)| > 0 <==> exists i :: 0 <= i < |xs| && xs[i] > 0.0
  {
    if |xs| > 0 {
      var front := xs[..|xs| - 1];
      PositiveNonEmpty(front);
      if exists i :: 0 <= i < |front| && front[i] > 0.0 {
        var i :| 0 <= i < |front| && front[i] > 0.0;
        assert xs[i] == front[i];
      }
      if exists i :: 0 <= i < |xs| && xs[i] > 0.0 {
        var i :| 0 <= i < |xs| && xs[i] > 0.0;
        if i < |front| {
          assert front[i] == xs[i];
        }
      }
    }
  }

  /** The mean of the positive values is above zero exactly when there is one, and is never negative. */
  lemma PositiveAverage(xs: seq<real>)
    ensures Average(Positive(xs)) > 0.0 <==> exists i :: 0 <= i < |xs| && xs[i] > 0.0
    ensures Average(Positive(xs)) >= 0.0
  {
    PositiveNonEmpty(xs);
    var p := Positive(xs);
    if |p| > 0 {
      SumPositive(p);
      QuotientPositive(SumReal(p), |p| as real);
    }
  }

  lemma QuotientPositive(a: real, b: real)
    requires a > 0.0 && b > 0.0
    ensures a / b > 0.0
  {
  }

  function MapTimes(rows: seq<Row>): (r: seq<real>)
    ensures |r| == |rows|
    ensures forall i :: 0 <= i < |rows| ==> r[i] == rows[i].scores.mapTime
  {
    seq(|rows|, i requires 0 <= i < |rows| => rows[i].scores.mapTime)
  }

  function Times(rows: seq<Row>): seq<real> {
    seq(|rows|, i requires 0 <= i < |rows| => rows[i].scores.time)
  }

  function Memories(rows: seq<Row>): seq<real> {
    seq(|rows|, i requires 0 <= i < |rows| => rows[i].scores.memory)
  }

  /** A bucket's memory, time and map-time score averages. */
  datatype Averages = Averages(memory: real, time: real, mapTime: real)

  /**
   * A bucket's averages as written: 0 for an empty bucket; otherwise the
   * map-time average is taken over the positive map-time scores only, and
   * dividing by their count raises ZeroDivisionError when there is none.
   */
  function BucketAveragesAsWritten(bucket: seq<Row>): (r: Result<Averages, Fault>)
    ensures |bucket| == 0 ==> r == Ok(Averages(0.0, 0.0, 0.0))
  {
    if |bucket| == 0 then Ok(Averages(0.0, 0.0, 0.0))
    else
      var valid := Positive(MapTimes(bucket));
      if |valid| == 0 then Err(ZeroDivisionError)
      else Ok(Averages(Average(Memories(bucket)), Average(Times(bucket)), Average(valid)))
  }

  /** A non-empty bucket whose map-time scores are all zero stops the script. */
  lemma ZeroMapTimesRaise(bucket: seq<Row>)
    requires |bucket| > 0
    requires forall i :: 0 <= i < |bucket| ==> bucket[i].scores.mapTime <= 0.0
    ensures BucketAveragesAsWritten(bucket) == Err(ZeroDivisionError)
  {
    PositiveNonEmpty(MapTimes(bucket));
  }

  /** A bucket's averages as intended: a bucket without positive map-time scores keeps that average at 0. */
  function BucketAverages(bucket: seq<Row>): (r: Averages)
    ensures |bucket| == 0 ==> r == Averages(0.0, 0.0, 0.0)
    ensures r.mapTime > 0.0 <==> exists i :: 0 <= i < |bucket| && bucket[i].scores.mapTime > 0.0
    ensures r.mapTime >= 0.0
  {
    var valid := Positive(MapTimes(bucket));
    PositiveAverage(MapTimes(bucket));
    assert (exists i :: 0 <= i < |bucket| && MapTimes(bucket)[i] > 0.0)
      <==> exists i :: 0 <= i < |bucket| && bucket[i].scores.mapTime > 0.0;
    if |bucket| == 0 then Averages(0.0, 0.0, 0.0)
    else Averages(Average(Memories(bucket)), Average(Times(bucket)), Average(valid))
  }

  /** Where both versions compute, they agree. */
  lemma BucketAveragesAgree(bucket: seq<Row>)
    requires BucketAveragesAsWritten(bucket).Ok?
    ensures BucketAveragesAsWritten(bucket).value == BucketAverages(bucket)
  {
  }

  /** The averages of the small, medium and large buckets. */
  datatype Summary = Summary(small: Averages, medium: Averages, large: Averages)

  /**
   * The summary of main: bucketing reads int(row[5]) of every row, and the
   * overall area and level scores then divide by the number of rows.
   */
  function Summarize(rows: seq<Row>): (r: Result<Summary, Fault>)
    ensures r.Err? <==> !Keyed(rows) || |rows| == 0
    ensures r.Ok? ==> (r.value.small == BucketAverages(Bucket(rows, Small))
      && r.value.medium == BucketAverages(Bucket(rows, Medium))
      && r.value.large == BucketAverages(Bucket(rows, Large)))
  {
    if !Keyed(rows) then Err(ValueError)
    else if |rows| == 0 then Err(ZeroDivisionError)
    else Ok(Summary(BucketAverages(Bucket(rows, Small)), BucketAverages(Bucket(rows, Medium)),
                    BucketAverages(Bucket(rows, Large))))
  }
}
