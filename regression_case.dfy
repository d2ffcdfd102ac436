// One regression case of the main test: the flow chosen by the
// configuration, the stages run_case goes through (run, verification,
// QoR, post-check) and the records it writes to the case log, which the
// reporter later classifies.
module RegressionCase {
  import opened Wrappers
  import opened Text
  import opened Decimal
  import opened Bits
  import Reporter

  // ---------------------------------------------------------------------
  // choosing the case class
  // ---------------------------------------------------------------------

  datatype Operator = Balance | Refactor | Rewrite

  /** The case classes: IfpgaCase, YosysCase and OperatorCase with its flow. */
  datatype Flow = Ifpga | Yosys | OperatorFlow(op: Operator)

  /** The configuration value that selects each flow. */
  function FlowName(f: Flow): string {
    match f
    case Ifpga => "ifpga"
    case Yosys => "yosys"
    case OperatorFlow(Balance) => "balance"
    case OperatorFlow(Refactor) => "refactor"
    case OperatorFlow(Rewrite) => "rewrite"
  }

  /** The Python exceptions a stage can raise. */
  datatype Fault = AssertionError | AttributeError | TypeError | UnboundLocalError

  /** The flow in force: the global configuration's key, else the case's, else "yosys". */
  function ConfiguredFlow(caseFlow: Option<string>, globalFlow: Option<string>): string {
    if globalFlow.Some? then globalFlow.value
    else if caseFlow.Some? then caseFlow.value
    else "yosys"
  }

  /** CaseFactory.create_case: the case class named by the flow in force; any other name fails an assertion. */
  function CreateCase(caseFlow: Option<string>, globalFlow: Option<string>): (r: Result<Flow, Fault>)
    ensures r.Ok? ==> FlowName(r.value) == ConfiguredFlow(caseFlow, globalFlow)
    ensures r.Err? ==> r.error == AssertionError && forall f: Flow :: FlowName(f) != ConfiguredFlow(caseFlow, globalFlow)
  {
    var flow := ConfiguredFlow(caseFlow, globalFlow);
    if flow == "ifpga" then Ok(Ifpga)
    else if flow == "yosys" then Ok(Yosys)
    else if flow == "balance" then Ok(OperatorFlow(Balance))
    else if flow == "refactor" then Ok(OperatorFlow(Refactor))
    else if flow == "rewrite" then Ok(OperatorFlow(Rewrite))
    else Err(AssertionError)
  }

  /** Every flow is reached from its name, in the case's file or in the global file, which wins. */
  lemma CreateCaseNames(f: Flow, other: Option<string>)
    ensures CreateCase(Some(FlowName(f)), None) == Ok(f)
    ensures CreateCase(other, Some(FlowName(f))) == Ok(f)
    ensures CreateCase(None, None) == Ok(Yosys)
  {
  }

  // ---------------------------------------------------------------------
  // the case log
  // ---------------------------------------------------------------------

  /** The text of a log file: each record followed by a newline. */
  function LogText(records: seq<string>): string {
    if |records| == 0 then "" else records[0] + "\n" + LogText(records[1..])
  }

  /** The log of two record lists is the log of the first followed by the log of the second. */
  lemma {:induction false} LogTextAppend(a: seq<string>, b: seq<string>)
    ensures LogText(a + b) == LogText(a) + LogText(b)
  {
    if |a| > 0 {
      LogTextAppend(a[1..], b);
      assert (a + b)[1..] == a[1..] + b;
      assert LogText(a + b) == a[0] + "\n" + LogText(a[1..] + b);
    } else {
      assert a + b == b;
    }
  }

  /** A phrase without newline occurs in the log iff it occurs in one of its records. */
  lemma {:induction false} LogContains(records: seq<string>, pat: string)
    requires 0 < |pat| && '\n' !in pat
    ensures Contains(LogText(records), pat) <==> exists j :: 0 <= j < |records| && Contains(records[j], pat)
  {
    if |records| > 0 {
      var rest := records[1..];
      LogContains(rest, pat);
      SplitAtChar(records[0], '\n', LogText(rest), pat);
      assert LogText(records) == records[0] + ['\n'] + LogText(rest);
      var inRecords := exists j :: 0 <= j < |records| && Contains(records[j], pat);
      var inRest := exists j :: 0 <= j < |rest| && Contains(rest[j], pat);
      assert inRecords <==> Contains(records[0], pat) || inRest by {
        if inRest {
          var j :| 0 <= j < |rest| && Contains(rest[j], pat);
          assert records[j + 1] == rest[j];
        }
        if inRecords {
          var j :| 0 <= j < |records| && Contains(records[j], pat);
          if j > 0 {
            assert rest[j - 1] == records[j];
          }
        }
      }
    }
  }

  /** What running one command gives: its exit code and its standard output and error text. */
  datatype Run = Run(rc: int, stdout: string, stderr: string)

  /** The records run_subprocess logs: the error text and a failure line when there is error text, else the output and a success line. */
  function RunRecords(cmd: string, run: Run): (r: seq<string>)
    ensures |r| == 2
  {
    if |run.stderr| > 0 then [run.stderr, "Failed to run cmd: " + cmd]
    else [run.stdout, "Finished to run cmd: " + cmd]
  }

  /** A record logged only when c holds. */
  function Note(c: bool, msg: string): seq<string> {
    if c then [msg] else []
  }

  // ---------------------------------------------------------------------
  // verification
  // ---------------------------------------------------------------------

  const NotEquivalent: string := "Networks are NOT EQUIVALENT"
  const Succeeded: string := "Verification SUCCEEDED"

  function CecCommand(a: string, b: string): string {
    "abc -q \"cec " + a + " " + b + "\""
  }

  function FormalityCommand(script: string): string {
    "fm_shell -file " + script
  }

  /** A cec check reports a difference: the command exited with 0 and the searched text holds the phrase. */
  predicate Reports(run: Run, searched: string) {
    run.rc == 0 && Contains(searched, NotEquivalent)
  }

  /** The first check of an ifpga case: the original network against merged.v, searching the whole log. */
  predicate CheckOne(log0: seq<string>, caseFile: string, c0: Run) {
    Reports(c0, LogText(log0 + RunRecords(CecCommand(caseFile, "merged.v"), c0)))
  }

  /** The second check (merged.v against choice.v), searching the records of its own run. */
  predicate CheckTwo(c1: Run) {
    Reports(c1, LogText(RunRecords(CecCommand("merged.v", "choice.v"), c1)))
  }

  /** The third check (choice.v against the synthesized netlist), searching the records of its own run. */
  predicate CheckThree(synthed: string, c2: Run) {
    Reports(c2, LogText(RunRecords(CecCommand("choice.v", synthed), c2)))
  }

  /**
   * One cec check: the command's records are logged; when it exits with 0
   * and the searched text (the whole log, or only the records of this run)
   * holds the phrase, the check fails and note is logged.
   */
  method CecCheck(log0: seq<string>, cmd: string, run: Run, whole: bool, note: string)
    returns (failed: bool, log: seq<string>)
    ensures failed == Reports(run, if whole then LogText(log0 + RunRecords(cmd, run)) else LogText(RunRecords(cmd, run)))
    ensures log == log0 + RunRecords(cmd, run) + Note(failed, note)
  {
    var own := RunRecords(cmd, run);
    log := log0 + own;
    failed := false;
    if run.rc == 0 {
      var content := if whole then LogText(log) else LogText(own);
      if Contains(content, NotEquivalent) {
        failed := true;
        log := log + [note];
      }
    }
  }

  /**
   * IfpgaCase._verify: three cec checks, each recording a failure only
   * when it exits with 0 and its text reports a difference; when none
   * failed and formality is enabled, the formality run decides, failing
   * on a non-zero exit or when the log lacks the success phrase. The
   * second and third checks search the records of their own run (see
   * CheckTwoNeverFires for the search as written).
   */
  method IfpgaVerify(log0: seq<string>, caseFile: string, synthed: string, c0: Run, c1: Run, c2: Run,
                     enableFormality: bool, fmScript: string, fm: Run)
    returns (ok: bool, log: seq<string>)
    ensures log == log0 + RunRecords(CecCommand(caseFile, "merged.v"), c0) + Note(CheckOne(log0, caseFile, c0), "merge.v are not equivalent.")
      + RunRecords(CecCommand("merged.v", "choice.v"), c1) + Note(CheckTwo(c1), "choice.v are not equivalent.")
      + RunRecords(CecCommand("choice.v", synthed), c2) + Note(CheckThree(synthed, c2), "synthed.v are not equivalent.")
      + (if !CheckOne(log0, caseFile, c0) && !CheckTwo(c1) && !CheckThree(synthed, c2) && enableFormality
         then RunRecords(FormalityCommand(fmScript), fm) else [])
    ensures ok <==> !CheckOne(log0, caseFile, c0) && !CheckTwo(c1) && !CheckThree(synthed, c2)
                    && (enableFormality ==> fm.rc == 0 && Contains(LogText(log), Succeeded))
  {
    var f0, f1, f2;
    f0, log := CecCheck(log0, CecCommand(caseFile, "merged.v"), c0, true, "merge.v are not equivalent.");
    f1, log := CecCheck(log, CecCommand("merged.v", "choice.v"), c1, false, "choice.v are not equivalent.");
    f2, log := CecCheck(log, CecCommand("choice.v", synthed), c2, false, "synthed.v are not equivalent.");
    var rc := if f0 || f1 || f2 then 1 else 0;
    if rc == 0 && enableFormality {
      log := log + RunRecords(FormalityCommand(fmScript), fm);
      rc := fm.rc;
      if rc == 0 {
        var content := LogText(log);
        if !Contains(content, Succeeded) {
          rc := 1;
        }
      }
    }
    ok := rc == 0;
  }

  /** The second check as written: the text after the last "merged.v" of the log once its run is recorded. */
  predicate CheckTwoAsWritten(before: seq<string>, c1: Run) {
    Reports(c1, AfterLast(LogText(before + RunRecords(CecCommand("merged.v", "choice.v"), c1)), "merged.v"))
  }

  /**
   * The command line logged after the check's output names merged.v, so
   * the searched text is only the rest of that line and the check never
   * reports, whatever the tool printed.
   */
  lemma CheckTwoNeverFires(before: seq<string>, c1: Run)
    ensures !CheckTwoAsWritten(before, c1)
  {
    var recs := RunRecords(CecCommand("merged.v", "choice.v"), c1);
    var head := if |c1.stderr| > 0 then "Failed to run cmd: " else "Finished to run cmd: ";
    var y := LogText(before) + recs[0] + "\n" + head + "abc -q \"cec ";
    var z := " " + "choice.v" + "\"" + "\n";
    CommandLog(before, recs[0], head, "merged.v", "choice.v", recs);
    AfterLastBound(y, "merged.v", z);
  }

  /** The log once a cec command's records are appended, cut around its second file name. */
  lemma CommandLog(before: seq<string>, out: string, head: string, a: string, b: string, recs: seq<string>)
    requires recs == [out, head + CecCommand(a, b)]
    ensures LogText(before + recs) == (LogText(before) + out + "\n" + head + "abc -q \"cec ") + a + (" " + b + "\"" + "\n")
  {
    LogTextAppend(before, recs);
    LogTextPair(out, head + CecCommand(a, b));
  }

  lemma LogTextPair(x: string, y: string)
    ensures LogText([x, y]) == x + "\n" + y + "\n"
  {
    assert [x, y][1..] == [y];
    assert [y][1..] == [];
    assert LogText([y]) == y + "\n" + LogText([]);
  }

  /** The third check as written: the text after the last "choice.v" of the log once its run is recorded. */
  predicate CheckThreeAsWritten(before: seq<string>, synthed: string, c2: Run) {
    Reports(c2, AfterLast(LogText(before + RunRecords(CecCommand("choice.v", synthed), c2)), "choice.v"))
  }

  /** The third check as written reports only when the phrase is part of its own command line. */
  lemma CheckThreeOnlyCommand(before: seq<string>, synthed: string, c2: Run)
    requires CheckThreeAsWritten(before, synthed, c2)
    ensures Contains("choice.v" + (" " + synthed + "\"" + "\n"), NotEquivalent)
  {
    var recs := RunRecords(CecCommand("choice.v", synthed), c2);
    var head := if |c2.stderr| > 0 then "Failed to run cmd: " else "Finished to run cmd: ";
    var y := LogText(before) + recs[0] + "\n" + head + "abc -q \"cec ";
    CommandLog(before, recs[0], head, "choice.v", synthed, recs);
    AfterLastInTail(y, "choice.v", " " + synthed + "\"" + "\n", NotEquivalent);
  }

  /** OperatorCase._verify: one cec check of the optimized netlist, searching the whole log. */
  method OperatorVerify(log0: seq<string>, caseFile: string, c0: Run) returns (ok: bool, log: seq<string>)
    ensures log == log0 + RunRecords(CecCommand(caseFile, "optimized.v"), c0)
      + Note(Reports(c0, LogText(log0 + RunRecords(CecCommand(caseFile, "optimized.v"), c0))), "optimized.v are not equivalent.")
    ensures ok <==> !Reports(c0, LogText(log0 + RunRecords(CecCommand(caseFile, "optimized.v"), c0)))
  {
    var failed;
    failed, log := CecCheck(log0, CecCommand(caseFile, "optimized.v"), c0, true, "optimized.v are not equivalent.");
    ok := !failed;
  }

  // ---------------------------------------------------------------------
  // QoR
  // ---------------------------------------------------------------------

  /**
   * OperatorCase._extract_qor: "area" and "level" read the after-number of
   * their report line (areaAfter, levelAfter: the first match, if any); a
   * missing line makes m.group fail, any other metric fails an assertion.
   */
  function OperatorMetric(metric: string, areaAfter: Option<nat>, levelAfter: Option<nat>): Result<nat, Fault> {
    var m := if metric == "area" then Ok(areaAfter) else if metric == "level" then Ok(levelAfter) else Err(AssertionError);
    if m.Err? then Err(m.error)
    else if m.value.None? then Err(AttributeError)
    else Ok(m.value.value)
  }

  /** A metric passes when its value is read and does not exceed the golden number. */
  predicate MetricPasses(metric: (string, int), areaAfter: Option<nat>, levelAfter: Option<nat>) {
    OperatorMetric(metric.0, areaAfter, levelAfter).Ok? && OperatorMetric(metric.0, areaAfter, levelAfter).value <= metric.1
  }

  /**
   * OperatorCase._qor_check over the (metric, golden) pairs of the flow's
   * section, in order: the first metric whose value exceeds its golden
   * number fails the check; an error reading a metric propagates.
   */
  method OperatorQorCheck(metrics: seq<(string, int)>, areaAfter: Option<nat>, levelAfter: Option<nat>)
    returns (r: Result<bool, Fault>)
    ensures r == Ok(true) <==> forall j :: 0 <= j < |metrics| ==> MetricPasses(metrics[j], areaAfter, levelAfter)
    ensures r == Ok(false) ==> exists j :: (0 <= j < |metrics|
      && OperatorMetric(metrics[j].0, areaAfter, levelAfter).Ok?
      && OperatorMetric(metrics[j].0, areaAfter, levelAfter).value > metrics[j].1
      && forall i :: 0 <= i < j ==> MetricPasses(metrics[i], areaAfter, levelAfter))
    ensures r.Err? ==> exists j :: (0 <= j < |metrics|
      && OperatorMetric(metrics[j].0, areaAfter, levelAfter) == Err(r.error)
      && forall i :: 0 <= i < j ==> MetricPasses(metrics[i], areaAfter, levelAfter))
  {
    for k := 0 to |metrics|
      invariant forall i :: 0 <= i < k ==> MetricPasses(metrics[i], areaAfter, levelAfter)
    {
      var golden := metrics[k].1;
      var rev := OperatorMetric(metrics[k].0, areaAfter, levelAfter);
      if rev.Err? {
        return Err(rev.error);
      }
      if rev.value > golden {
        return Ok(false);
      }
    }
    return Ok(true);
  }

  /** The counts read for fanin 1, 2, ... up to the first fanin without a line. */
  function Leading(matches: seq<Option<nat>>): (r: seq<nat>)
    ensures |r| <= |matches|
    ensures forall j :: 0 <= j < |r| ==> matches[j] == Some(r[j])
    ensures |r| < |matches| ==> matches[|r|].None?
  {
    if |matches| == 0 || matches[0].None? then []
    else [matches[0].value] + Leading(matches[1..])
  }

  function Sum(ns: seq<nat>): nat {
    if |ns| == 0 then 0 else Sum(ns[..|ns| - 1]) + ns[|ns| - 1]
  }

  /** sum(2**(e+i) * n for i, n in enumerate(ns)). */
  function Scaled(ns: seq<nat>, e: nat): nat {
    if |ns| == 0 then 0 else Scaled(ns[..|ns| - 1], e) + Pow2(e + |ns| - 1) * ns[|ns| - 1]
  }

  /** The weight of a LUT with p + 1 inputs in the area. */
  function Weight(p: nat): nat {
    if p < 6 then 1 else Pow2(p - 6)
  }

  /** The area from the LUT counts: the first six counted once, the j-th after them 2^j times. */
  function LutArea(luts: seq<nat>): nat {
    if |luts| <= 6 then Sum(luts) else Sum(luts[..6]) + Scaled(luts[6..], 0)
  }

  /** One more LUT size adds its count times its weight: a 7-input LUT weighs 1, an 8-input LUT 2. */
  lemma LutAreaAppend(luts: seq<nat>, n: nat)
    ensures LutArea(luts + [n]) == LutArea(luts) + Weight(|luts|) * n
    ensures |luts| == 6 ==> LutArea(luts + [n]) == LutArea(luts) + n
    ensures |luts| == 7 ==> LutArea(luts + [n]) == LutArea(luts) + 2 * n
  {
    var l := luts + [n];
    assert l[..|l| - 1] == luts;
    assert Pow2(0) == 1 && Pow2(1) == 2;
    if |luts| < 6 {
      assert LutArea(l) == Sum(luts) + n;
    } else if |luts| == 6 {
      assert l[..6] == luts;
      assert l[6..] == [n];
      assert [n][..0] == [];
      assert Scaled([n], 0) == Scaled([], 0) + Pow2(0) * n;
    } else {
      assert l[..6] == luts[..6];
      assert l[6..] == luts[6..] + [n];
      assert l[6..][..|l[6..]| - 1] == luts[6..];
      assert Scaled(l[6..], 0) == Scaled(luts[6..], 0) + Pow2(|luts| - 6) * n;
    }
  }

  /**
   * IfpgaCase._extract_qor: "level" is the max delay (an assertion fails
   * without it); "area" reads the counts for fanin 1, 2, ... until a fanin
   * has no line (lutMatches[i - 1] is the count for fanin i, if any) and
   * weighs them; any other metric leaves the value unbound.
   */
  method IfpgaExtractQor(metric: string, maxDelay: Option<nat>, lutMatches: seq<Option<nat>>)
    returns (r: Result<nat, Fault>)
    ensures metric == "level" ==> r == (if maxDelay.Some? then Ok(maxDelay.value) else Err(AssertionError))
    ensures metric == "area" ==> r == Ok(LutArea(Leading(lutMatches)))
    ensures metric != "level" && metric != "area" ==> r == Err(UnboundLocalError)
  {
    if metric == "level" {
      if maxDelay.None? {
        return Err(AssertionError);
      }
      return Ok(maxDelay.value);
    } else if metric == "area" {
      var i := 1;
      var luts: seq<nat> := [];
      while i <= |lutMatches| && lutMatches[i - 1].Some?
        invariant 1 <= i <= |lutMatches| + 1
        invariant |luts| == i - 1
        invariant forall j :: 0 <= j < i - 1 ==> lutMatches[j] == Some(luts[j])
        decreases |lutMatches| + 1 - i
      {
        luts := luts + [lutMatches[i - 1].value];
        i := i + 1;
      }
      LeadingUnique(lutMatches, luts);
      return Ok(LutArea(luts));
    }
    return Err(UnboundLocalError);
  }

  /** The counts up to the first missing line are the leading counts. */
  lemma LeadingUnique(matches: seq<Option<nat>>, luts: seq<nat>)
    requires |luts| <= |matches|
    requires forall j :: 0 <= j < |luts| ==> matches[j] == Some(luts[j])
    requires |luts| < |matches| ==> matches[|luts|].None?
    ensures luts == Leading(matches)
  {
    var l := Leading(matches);
    assert |l| == |luts|;
  }

  // ---------------------------------------------------------------------
  // run_case
  // ---------------------------------------------------------------------

  /** How run_case ends: it returns a verdict or a stage raises. */
  datatype Outcome = Returned(passed: bool) | Raised(fault: Fault)

  datatype CaseRun = CaseRun(outcome: Outcome, log: seq<string>)

  /**
   * What the stages of a case produce: the exit code and records of the
   * run command, the disable_verification flag, the verdict and records of
   * _verify, and the result and records of OperatorCase._qor_check.
   */
  datatype Stages = Stages(rc: int, runLog: seq<string>, disableVerify: bool,
                           verified: bool, verifyLog: seq<string>,
                           qor: Result<bool, Fault>, qorLog: seq<string>)

  /** A message quoting the case path between double quotes. */
  function Quoted(a: string, source: string, b: string): string {
    a + "\"" + source + "\"" + b
  }

  function ExitMessage(source: string, rc: int): string {
    Quoted("Failed to run case ", source, " with exit code = " + IntToString(rc))
  }

  function SkipMessage(source: string): string {
    "Skip verification for case " + source
  }

  function NonequivalentMessage(source: string): string {
    Quoted("Failed to run case ", source, " with nonequivalent")
  }

  const EquivalenceMessage: string := "Equivalence verification pass!"

  function WorseQorMessage(source: string): string {
    Quoted("Failed to run cae ", source, " with worse QoR")
  }

  const QorPassMessage: string := "QoR check pass!"

  function PostCheckMessage(source: string): string {
    Quoted("Failed to run case ", source, " with post check failure")
  }

  function FinishedMessage(source: string): string {
    Quoted("Finished to run case ", source, "")
  }

  /** The QoR stage: only operator cases compare metrics, the others inherit a check that passes. */
  function QorCheck(flow: Flow, qor: Result<bool, Fault>): Result<bool, Fault> {
    if flow.OperatorFlow? then qor else Ok(true)
  }

  /** Case.__post_check: feature checks are not written yet, so it passes. */
  function PostCheck(): bool {
    true
  }

  /**
   * Case.run_case: a non-zero exit ends the case; then verification
   * (skipped when disabled; a yosys case calls _verify without the
   * argument it needs and raises), QoR and the post-check, each failure
   * ending the case with its own record.
   */
  function RunCase(flow: Flow, source: string, st: Stages): CaseRun {
    if st.rc != 0 then CaseRun(Returned(false), st.runLog + [ExitMessage(source, st.rc)])
    else if !st.disableVerify && flow == Yosys then CaseRun(Raised(TypeError), st.runLog)
    else if !st.disableVerify && !st.verified then
      CaseRun(Returned(false), st.runLog + st.verifyLog + [NonequivalentMessage(source)])
    else
      var verifyPart := if st.disableVerify then [SkipMessage(source)] else st.verifyLog + [EquivalenceMessage];
      var qor := QorCheck(flow, st.qor);
      var qorLog := if flow.OperatorFlow? then st.qorLog else [];
      if qor.Err? then CaseRun(Raised(qor.error), st.runLog + verifyPart + qorLog)
      else if !qor.value then CaseRun(Returned(false), st.runLog + verifyPart + qorLog + [WorseQorMessage(source)])
      else if !PostCheck() then
        CaseRun(Returned(false), st.runLog + verifyPart + qorLog + [QorPassMessage, PostCheckMessage(source)])
      else CaseRun(Returned(true), st.runLog + verifyPart + qorLog + [QorPassMessage, FinishedMessage(source)])
  }

  /** A case passes iff it exits with 0, is verified (or skips verification) and passes the QoR check. */
  lemma RunCasePasses(flow: Flow, source: string, st: Stages)
    ensures RunCase(flow, source, st).outcome == Returned(true) <==>
      st.rc == 0 && (st.disableVerify || (flow != Yosys && st.verified)) && QorCheck(flow, st.qor) == Ok(true)
    ensures st.rc == 0 && !st.disableVerify && flow == Yosys ==> RunCase(flow, source, st).outcome == Raised(TypeError)
  {
  }

  /** A non-zero exit decides the case before any later stage: the verdict and the log do not depend on them. */
  lemma AbnormalExitStops(flow: Flow, source: string, st: Stages, later: Stages)
    requires st.rc != 0 && later.rc == st.rc && later.runLog == st.runLog
    ensures RunCase(flow, source, st) == RunCase(flow, source, later)
    ensures RunCase(flow, source, st).outcome == Returned(false)
  {
  }

  /** With verification disabled, the verdict and records of _verify play no part. */
  lemma VerificationSkipped(flow: Flow, source: string, st: Stages, verified: bool, verifyLog: seq<string>)
    requires st.disableVerify
    ensures RunCase(flow, source, st) == RunCase(flow, source, st.(verified := verified, verifyLog := verifyLog))
  {
  }

  /** A failed verification decides the case before the QoR stage. */
  lemma NonequivalentStops(flow: Flow, source: string, st: Stages, qor: Result<bool, Fault>, qorLog: seq<string>)
    requires st.rc == 0 && !st.disableVerify && flow != Yosys && !st.verified
    ensures RunCase(flow, source, st) == RunCase(flow, source, st.(qor := qor, qorLog := qorLog))
    ensures RunCase(flow, source, st).outcome == Returned(false)
  {
  }

  // ---------------------------------------------------------------------
  // what the reporter reads from the log
  // ---------------------------------------------------------------------

  /** No status marker occurs in the text. */
  predicate Silent(text: string) {
    forall s: Reporter.Status :: !Contains(text, Reporter.Marker(s))
  }

  /** No status marker occurs in any record. */
  predicate Quiet(records: seq<string>) {
    forall j :: 0 <= j < |records| ==> Silent(records[j])
  }

  /** A case path the messages can quote: no double quote and no marker in it. */
  predicate PlainSource(source: string) {
    '"' !in source && Silent(source)
  }

  lemma QuietAppend(a: seq<string>, b: seq<string>)
    requires Quiet(a) && Quiet(b)
    ensures Quiet(a + b)
  {
    forall j | 0 <= j < |a + b| ensures Silent((a + b)[j]) {
      if j >= |a| {
        assert (a + b)[j] == b[j - |a|];
      }
    }
  }

  lemma MarkerNoNewline(s: Reporter.Status)
    ensures '\n' !in Reporter.Marker(s)
  {
  }

  /** The reporter's classification of a log whose earlier records are quiet and whose last record holds the marker of Precedence[k] and no earlier one. */
  lemma ClassifyLast(records: seq<string>, msg: string, k: nat)
    requires k < |Reporter.Precedence| && Quiet(records)
    requires Contains(msg, Reporter.Marker(Reporter.Precedence[k]))
    requires forall j :: 0 <= j < k ==> !Contains(msg, Reporter.Marker(Reporter.Precedence[j]))
    ensures Reporter.Classify(LogText(records + [msg])) == Some(Reporter.Precedence[k])
  {
    var all := records + [msg];
    var text := LogText(all);
    forall s: Reporter.Status ensures Contains(text, Reporter.Marker(s)) <==> Contains(msg, Reporter.Marker(s)) {
      MarkerNoNewline(s);
      LogContains(all, Reporter.Marker(s));
      assert all[|records|] == msg;
    }
    Reporter.ClassifyIsFirstMarker(text, k);
  }

  /** A quiet log has no status. */
  lemma ClassifyQuiet(records: seq<string>)
    requires Quiet(records)
    ensures Reporter.Classify(LogText(records)) == None
  {
    forall s: Reporter.Status ensures !Contains(LogText(records), Reporter.Marker(s)) {
      MarkerNoNewline(s);
      LogContains(records, Reporter.Marker(s));
    }
    Reporter.ClassifyNone(LogText(records));
  }

  /**
   * The status the reporter gives the log of a case is the stage it ended
   * in: PASS iff the case passed, the abnormal exit, nonequivalence or
   * worse QoR it failed with, and none when a stage raised. Tool records
   * are assumed to hold no marker phrase.
   */
  lemma ReportedStatus(flow: Flow, source: string, st: Stages)
    requires PlainSource(source) && Quiet(st.runLog) && Quiet(st.verifyLog) && Quiet(st.qorLog)
    ensures RunCase(flow, source, st).outcome == Returned(true) <==>
      Reporter.Classify(LogText(RunCase(flow, source, st).log)) == Some(Reporter.Pass)
    ensures st.rc != 0 ==>
      Reporter.Classify(LogText(RunCase(flow, source, st).log)) == Some(Reporter.AbnormalExit)
    ensures st.rc == 0 && !st.disableVerify && flow != Yosys && !st.verified ==>
      Reporter.Classify(LogText(RunCase(flow, source, st).log)) == Some(Reporter.Nonequivalent)
    ensures st.rc == 0 && (st.disableVerify || (flow != Yosys && st.verified)) && QorCheck(flow, st.qor) == Ok(false) ==>
      Reporter.Classify(LogText(RunCase(flow, source, st).log)) == Some(Reporter.WorseQor)
    ensures RunCase(flow, source, st).outcome.Raised? <==> Reporter.Classify(LogText(RunCase(flow, source, st).log)) == None
  {
    if st.rc != 0 {
      ReportedAbnormalExit(flow, source, st);
    } else if !st.disableVerify && flow == Yosys {
      ClassifyQuiet(st.runLog);
    } else if !st.disableVerify && !st.verified {
      ReportedNonequivalent(flow, source, st);
    } else {
      ReportedAfterVerification(flow, source, st);
    }
  }

  lemma ReportedAbnormalExit(flow: Flow, source: string, st: Stages)
    requires PlainSource(source) && Quiet(st.runLog) && st.rc != 0
    ensures RunCase(flow, source, st) == CaseRun(Returned(false), st.runLog + [ExitMessage(source, st.rc)])
    ensures Reporter.Classify(LogText(st.runLog + [ExitMessage(source, st.rc)])) == Some(Reporter.AbnormalExit)
  {
    ExitMarks(source, st.rc);
    ClassifyLast(st.runLog, ExitMessage(source, st.rc), 1);
  }

  lemma ReportedNonequivalent(flow: Flow, source: string, st: Stages)
    requires PlainSource(source) && Quiet(st.runLog) && Quiet(st.verifyLog)
    requires st.rc == 0 && !st.disableVerify && flow != Yosys && !st.verified
    ensures RunCase(flow, source, st) == CaseRun(Returned(false), st.runLog + st.verifyLog + [NonequivalentMessage(source)])
    ensures Reporter.Classify(LogText(st.runLog + st.verifyLog + [NonequivalentMessage(source)])) == Some(Reporter.Nonequivalent)
  {
    NonequivalentMarks(source);
    QuietAppend(st.runLog, st.verifyLog);
    ClassifyLast(st.runLog + st.verifyLog, NonequivalentMessage(source), 2);
  }

  /** The records up to the QoR verdict of a case that got past verification. */
  function VerifiedLog(flow: Flow, source: string, st: Stages): seq<string> {
    st.runLog + (if st.disableVerify then [SkipMessage(source)] else st.verifyLog + [EquivalenceMessage])
    + (if flow.OperatorFlow? then st.qorLog else [])
  }

  lemma VerifiedLogQuiet(flow: Flow, source: string, st: Stages)
    requires PlainSource(source) && Quiet(st.runLog) && Quiet(st.verifyLog) && Quiet(st.qorLog)
    ensures Quiet(VerifiedLog(flow, source, st))
  {
    var verifyPart := if st.disableVerify then [SkipMessage(source)] else st.verifyLog + [EquivalenceMessage];
    if st.disableVerify {
      SkipSilent(source);
    } else {
      EquivalenceSilent();
      QuietAppend(st.verifyLog, [EquivalenceMessage]);
    }
    QuietAppend(st.runLog, verifyPart);
    QuietAppend(st.runLog + verifyPart, if flow.OperatorFlow? then st.qorLog else []);
  }

  lemma ReportedAfterVerification(flow: Flow, source: string, st: Stages)
    requires PlainSource(source) && Quiet(st.runLog) && Quiet(st.verifyLog) && Quiet(st.qorLog)
    requires st.rc == 0 && (st.disableVerify || (flow != Yosys && st.verified))
    ensures QorCheck(flow, st.qor).Err? ==>
      (RunCase(flow, source, st).log == VerifiedLog(flow, source, st)
       && Reporter.Classify(LogText(VerifiedLog(flow, source, st))) == None)
    ensures QorCheck(flow, st.qor) == Ok(false) ==>
      (RunCase(flow, source, st).log == VerifiedLog(flow, source, st) + [WorseQorMessage(source)]
       && Reporter.Classify(LogText(VerifiedLog(flow, source, st) + [WorseQorMessage(source)])) == Some(Reporter.WorseQor))
    ensures QorCheck(flow, st.qor) == Ok(true) ==>
      (RunCase(flow, source, st).log == VerifiedLog(flow, source, st) + [QorPassMessage] + [FinishedMessage(source)]
       && Reporter.Classify(LogText(VerifiedLog(flow, source, st) + [QorPassMessage] + [FinishedMessage(source)])) == Some(Reporter.Pass))
  {
    var log := VerifiedLog(flow, source, st);
    VerifiedLogQuiet(flow, source, st);
    var qor := QorCheck(flow, st.qor);
    if qor.Err? {
      ClassifyQuiet(log);
    } else if !qor.value {
      WorseQorMarks(source);
      ClassifyLast(log, WorseQorMessage(source), 4);
    } else {
      QorPassSilent();
      QuietAppend(log, [QorPassMessage]);
      FinishedMarks(source);
      ClassifyLast(log + [QorPassMessage], FinishedMessage(source), 0);
    }
  }

  // the markers in each message

  /** A marker without double quote occurs in a quoting message iff it occurs in one of its three parts. */
  lemma QuotedContains(a: string, source: string, b: string, m: string)
    requires '"' !in m && '"' !in source
    ensures Contains(Quoted(a, source, b), m) <==> Contains(a, m) || Contains(source, m) || Contains(b, m)
  {
    assert Quoted(a, source, b) == a + ['"'] + (source + ['"'] + b);
    SplitAtChar(a, '"', source + ['"'] + b, m);
    SplitAtChar(source, '"', b, m);
  }

  lemma MarkerNoQuote(s: Reporter.Status)
    ensures '"' !in Reporter.Marker(s)
  {
  }

  lemma FailedCaseText()
    ensures !Contains("Failed to run case ", Reporter.Marker(Reporter.Pass))
    ensures !Contains("Failed to run case ", Reporter.Marker(Reporter.AbnormalExit))
  {
    MissingChar("Failed to run case ", Reporter.Marker(Reporter.Pass), 5);
    MissingChar("Failed to run case ", Reporter.Marker(Reporter.AbnormalExit), 1);
  }

  lemma FailedCaeText()
    ensures forall j :: 0 <= j < 4 ==> !Contains("Failed to run cae ", Reporter.Marker(Reporter.Precedence[j]))
  {
    FailedCaeEarly();
    FailedCaeLate();
  }

  lemma FailedCaeEarly()
    ensures !Contains("Failed to run cae ", Reporter.Marker(Reporter.Pass))
    ensures !Contains("Failed to run cae ", Reporter.Marker(Reporter.AbnormalExit))
  {
    MissingChar("Failed to run cae ", Reporter.Marker(Reporter.Pass), 5);
    MissingChar("Failed to run cae ", Reporter.Marker(Reporter.AbnormalExit), 1);
  }

  lemma FailedCaeLate()
    ensures !Contains("Failed to run cae ", Reporter.Marker(Reporter.Nonequivalent))
    ensures !Contains("Failed to run cae ", Reporter.Marker(Reporter.PostCheckFailed))
  {
    MissingChar("Failed to run cae ", Reporter.Marker(Reporter.Nonequivalent), 4);
    MissingChar("Failed to run cae ", Reporter.Marker(Reporter.PostCheckFailed), 6);
  }

  lemma ExitText(rc: int)
    ensures Contains(" with exit code = " + IntToString(rc), Reporter.Marker(Reporter.AbnormalExit))
    ensures !Contains(" with exit code = " + IntToString(rc), Reporter.Marker(Reporter.Pass))
  {
    var b := " with exit code = ";
    assert OccursAt(b, "exit code", 6);
    ContainsGrow("", b, IntToString(rc), "exit code");
    assert "" + b + IntToString(rc) == b + IntToString(rc);
    assert 'F' !in b + IntToString(rc);
    MissingChar(b + IntToString(rc), Reporter.Marker(Reporter.Pass), 0);
  }

  lemma NonequivalentText()
    ensures Contains(" with nonequivalent", Reporter.Marker(Reporter.Nonequivalent))
    ensures !Contains(" with nonequivalent", Reporter.Marker(Reporter.Pass))
    ensures !Contains(" with nonequivalent", Reporter.Marker(Reporter.AbnormalExit))
  {
    var b := " with nonequivalent";
    assert OccursAt(b, "nonequivalent", 6);
    MissingChar(b, Reporter.Marker(Reporter.Pass), 0);
    MissingChar(b, Reporter.Marker(Reporter.AbnormalExit), 1);
  }

  lemma WorseQorText()
    ensures Contains(" with worse QoR", Reporter.Marker(Reporter.WorseQor))
    ensures forall j :: 0 <= j < 4 ==> !Contains(" with worse QoR", Reporter.Marker(Reporter.Precedence[j]))
  {
    var b := " with worse QoR";
    assert OccursAt(b, "worse QoR", 6);
    MissingChar(b, Reporter.Marker(Reporter.Pass), 0);
    MissingChar(b, Reporter.Marker(Reporter.AbnormalExit), 1);
    MissingChar(b, Reporter.Marker(Reporter.Nonequivalent), 4);
    MissingChar(b, Reporter.Marker(Reporter.PostCheckFailed), 9);
  }

  lemma ExitMarks(source: string, rc: int)
    requires PlainSource(source)
    ensures Contains(ExitMessage(source, rc), Reporter.Marker(Reporter.AbnormalExit))
    ensures !Contains(ExitMessage(source, rc), Reporter.Marker(Reporter.Pass))
  {
    var b := " with exit code = " + IntToString(rc);
    FailedCaseText();
    ExitText(rc);
    QuotedContains("Failed to run case ", source, b, Reporter.Marker(Reporter.AbnormalExit));
    QuotedContains("Failed to run case ", source, b, Reporter.Marker(Reporter.Pass));
  }

  lemma NonequivalentMarks(source: string)
    requires PlainSource(source)
    ensures Contains(NonequivalentMessage(source), Reporter.Marker(Reporter.Nonequivalent))
    ensures !Contains(NonequivalentMessage(source), Reporter.Marker(Reporter.Pass))
    ensures !Contains(NonequivalentMessage(source), Reporter.Marker(Reporter.AbnormalExit))
  {
    var b := " with nonequivalent";
    FailedCaseText();
    NonequivalentText();
    QuotedContains("Failed to run case ", source, b, Reporter.Marker(Reporter.Nonequivalent));
    QuotedContains("Failed to run case ", source, b, Reporter.Marker(Reporter.Pass));
    QuotedContains("Failed to run case ", source, b, Reporter.Marker(Reporter.AbnormalExit));
  }

  lemma WorseQorMarks(source: string)
    requires PlainSource(source)
    ensures Contains(WorseQorMessage(source), Reporter.Marker(Reporter.WorseQor))
    ensures forall j :: 0 <= j < 4 ==> !Contains(WorseQorMessage(source), Reporter.Marker(Reporter.Precedence[j]))
  {
    var a := "Failed to run cae ";
    var b := " with worse QoR";
    FailedCaeText();
    WorseQorText();
    QuotedContains(a, source, b, Reporter.Marker(Reporter.WorseQor));
    forall j | 0 <= j < 4 ensures !Contains(WorseQorMessage(source), Reporter.Marker(Reporter.Precedence[j])) {
      MarkerNoQuote(Reporter.Precedence[j]);
      QuotedContains(a, source, b, Reporter.Marker(Reporter.Precedence[j]));
    }
  }

  lemma FinishedMarks(source: string)
    requires PlainSource(source)
    ensures Contains(FinishedMessage(source), Reporter.Marker(Reporter.Pass))
  {
    var a := "Finished to run case ";
    assert OccursAt(a, "Finished to run case", 0);
    QuotedContains(a, source, "", Reporter.Marker(Reporter.Pass));
  }

  /** No marker phrase straddles the end of the skip message's fixed text. */
  lemma SkipNoStraddle(s: Reporter.Status)
    ensures var a := "Skip verification for case "; var pat := Reporter.Marker(s);
      forall k :: 0 < k < |pat| && k <= |a| ==> a[|a| - k..] != pat[..k]
  {
    var a := "Skip verification for case ";
    var pat := Reporter.Marker(s);
    forall k | 0 < k < |pat| && k <= |a| ensures a[|a| - k..] != pat[..k] {
      assert a[|a| - k..][k - 1] == ' ';
      assert a[|a| - k..][0] == a[|a| - k];
      assert pat[..k][k - 1] == pat[k - 1];
      assert pat[..k][0] == pat[0];
    }
  }

  lemma SkipLacks(c: char)
    requires c == 'F' || c == 'x' || c == 'q' || c == 'h' || c == 'w'
    ensures c !in "Skip verification for case "
  {
  }

  lemma SkipText(s: Reporter.Status)
    ensures !Contains("Skip verification for case ", Reporter.Marker(s))
  {
    var text := "Skip verification for case ";
    var (k, c) := match s
      case Pass => (0, 'F')
      case AbnormalExit => (1, 'x')
      case Nonequivalent => (4, 'q')
      case PostCheckFailed => (6, 'h')
      case WorseQor => (0, 'w')
      case WorsePerformance => (0, 'w');
    assert k < |Reporter.Marker(s)| && Reporter.Marker(s)[k] == c;
    SkipLacks(c);
    MissingChar(text, Reporter.Marker(s), k);
  }

  lemma SkipSilent(source: string)
    requires PlainSource(source)
    ensures Silent(SkipMessage(source))
  {
    forall s: Reporter.Status ensures !Contains(SkipMessage(source), Reporter.Marker(s)) {
      SkipNoStraddle(s);
      SkipText(s);
      NoStraddle("Skip verification for case ", source, Reporter.Marker(s));
    }
  }

  lemma EquivalenceLacksNonequivalent()
    ensures !Contains(EquivalenceMessage, Reporter.Marker(Reporter.Nonequivalent))
  {
    var m := Reporter.Marker(Reporter.Nonequivalent);
    assert EquivalenceMessage == "Equivalen" + ['c'] + "e verification pass!";
    assert "e verification pass!" == "e verifi" + ['c'] + "ation pass!";
    SplitAtChar("Equivalen", 'c', "e verification pass!", m);
    SplitAtChar("e verifi", 'c', "ation pass!", m);
  }

  lemma EquivalenceEarly()
    ensures !Contains(EquivalenceMessage, Reporter.Marker(Reporter.Pass))
    ensures !Contains(EquivalenceMessage, Reporter.Marker(Reporter.AbnormalExit))
  {
    EquivalenceLacksPass();
    MissingChar(EquivalenceMessage, Reporter.Marker(Reporter.AbnormalExit), 1);
  }

  lemma EquivalenceLacksPass()
    ensures !Contains(EquivalenceMessage, Reporter.Marker(Reporter.Pass))
  {
    MissingChar(EquivalenceMessage, Reporter.Marker(Reporter.Pass), 5);
  }

  lemma EquivalenceLate()
    ensures !Contains(EquivalenceMessage, Reporter.Marker(Reporter.PostCheckFailed))
    ensures !Contains(EquivalenceMessage, Reporter.Marker(Reporter.WorseQor))
    ensures !Contains(EquivalenceMessage, Reporter.Marker(Reporter.WorsePerformance))
  {
    MissingChar(EquivalenceMessage, Reporter.Marker(Reporter.PostCheckFailed), 6);
    MissingChar(EquivalenceMessage, Reporter.Marker(Reporter.WorseQor), 0);
    MissingChar(EquivalenceMessage, Reporter.Marker(Reporter.WorsePerformance), 0);
  }

  lemma EquivalenceSilent()
    ensures Silent(EquivalenceMessage)
  {
    EquivalenceLacksNonequivalent();
    EquivalenceEarly();
    EquivalenceLate();
    forall s: Reporter.Status ensures !Contains(EquivalenceMessage, Reporter.Marker(s)) {
    }
  }

  lemma QorPassText(s: Reporter.Status)
    ensures !Contains(QorPassMessage, Reporter.Marker(s))
  {
    var k := match s
      case Pass => 0
      case AbnormalExit => 1
      case Nonequivalent => 4
      case PostCheckFailed => 11
      case WorseQor => 0
      case WorsePerformance => 0;
    MissingChar(QorPassMessage, Reporter.Marker(s), k);
  }

  lemma QorPassSilent()
    ensures Silent(QorPassMessage)
  {
    forall s: Reporter.Status ensures !Contains(QorPassMessage, Reporter.Marker(s)) {
      QorPassText(s);
    }
  }
}
