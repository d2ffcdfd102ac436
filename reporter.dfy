// The regression reporter: each case's log is classified into one status
// by the marker phrases the case runner writes, the cases are bucketed by
// status, and a summary with totals, failures and pass rate is built.
module Reporter {
  import opened Wrappers
  import opened Text
  import opened Decimal
  import Util

  /** The terminal status of a case; Value gives the integer the script uses. */
  datatype Status = Pass | AbnormalExit | Nonequivalent | WorseQor | WorsePerformance | PostCheckFailed

  function Value(s: Status): nat {
    match s
    case Pass => 0
    case AbnormalExit => 1
    case Nonequivalent => 2
    case WorseQor => 3
    case WorsePerformance => 4
    case PostCheckFailed => 5
  }

  /** Status.TOTAL: the number of statuses, hence of result buckets. */
  const Total: nat := 6

  /** The integer attributes of the Status class, in declaration order. */
  const Attributes: seq<(string, int)> :=
    [("PASS", 0), ("ABNORMAL_EXIT", 1), ("NONEQUIVALENT", 2), ("WORSE_QOR", 3),
     ("WORSE_PERFORMANCE", 4), ("POST_CHECK_FAILED", 5), ("TOTAL", 6)]

  /** The status whose value is v, for 0 <= v < Total. */
  function OfValue(v: nat): (s: Status)
    requires v < Total
    ensures Value(s) == v
  {
    [Pass, AbnormalExit, Nonequivalent, WorseQor, WorsePerformance, PostCheckFailed][v]
  }

  /** Reference definition of to_string: the name of the first attribute holding v. */
  function NameOf(v: int): Option<string> {
    FirstNamed(Attributes, v)
  }

  function FirstNamed(attrs: seq<(string, int)>, v: int): Option<string> {
    if |attrs| == 0 then None
    else if attrs[0].1 == v then Some(attrs[0].0)
    else FirstNamed(attrs[1..], v)
  }

  /** Status.to_string: scans the class attributes and returns the first name whose value is v. */
  method ToString(v: int) returns (r: Option<string>)
    ensures r == NameOf(v)
  {
    var k := 0;
    while k < |Attributes|
      invariant 0 <= k <= |Attributes|
      invariant NameOf(v) == FirstNamed(Attributes[k..], v)
    {
      assert Attributes[k..][1..] == Attributes[k + 1..];
      if Attributes[k].1 == v {
        return Some(Attributes[k].0);
      }
      k := k + 1;
    }
    return None;
  }

  /** The search finds the first attribute holding v. */
  lemma {:induction false} FirstNamedAt(attrs: seq<(string, int)>, v: int, k: nat)
    requires k <= |attrs|
    requires forall j :: 0 <= j < k ==> attrs[j].1 != v
    ensures k < |attrs| && attrs[k].1 == v ==> FirstNamed(attrs, v) == Some(attrs[k].0)
    ensures k == |attrs| ==> FirstNamed(attrs, v) == None
  {
    if k > 0 {
      FirstNamedAt(attrs[1..], v, k - 1);
    }
  }

  /** Each status value maps back to its name, TOTAL to "TOTAL", anything else to nothing. */
  lemma NameOfValues(v: int)
    ensures 0 <= v < 6 ==> NameOf(v) == Some(Attributes[v].0)
    ensures v == 6 ==> NameOf(v) == Some("TOTAL")
    ensures (v < 0 || 6 < v) ==> NameOf(v) == None
  {
    assert forall j :: 0 <= j < |Attributes| ==> Attributes[j].1 == j;
    if 0 <= v <= 6 {
      FirstNamedAt(Attributes, v, v);
    } else {
      FirstNamedAt(Attributes, v, |Attributes|);
    }
  }

  // ---------------------------------------------------------------------
  // classification of one log
  // ---------------------------------------------------------------------

  /** The phrase the case runner logs for each status. */
  function Marker(s: Status): string {
    match s
    case Pass => "Finished to run case"
    case AbnormalExit => "exit code"
    case Nonequivalent => "nonequivalent"
    case PostCheckFailed => "post check failure"
    case WorseQor => "worse QoR"
    case WorsePerformance => "worse performance"
  }

  /** The order in which the markers are looked for. */
  const Precedence: seq<Status> := [Pass, AbnormalExit, Nonequivalent, PostCheckFailed, WorseQor, WorsePerformance]

  /** The status the reporter gives a log, None when no marker occurs. */
  function Classify(content: string): Option<Status> {
    if Contains(content, Marker(Pass)) then Some(Pass)
    else if Contains(content, Marker(AbnormalExit)) then Some(AbnormalExit)
    else if Contains(content, Marker(Nonequivalent)) then Some(Nonequivalent)
    else if Contains(content, Marker(PostCheckFailed)) then Some(PostCheckFailed)
    else if Contains(content, Marker(WorseQor)) then Some(WorseQor)
    else if Contains(content, Marker(WorsePerformance)) then Some(WorsePerformance)
    else None
  }

  /** No marker of a status earlier than position k in the precedence occurs. */
  predicate NoEarlierMarker(content: string, k: nat)
    requires k <= |Precedence|
  {
    forall j :: 0 <= j < k ==> !Contains(content, Marker(Precedence[j]))
  }

  /**
   * A log gets status s exactly when the marker of s occurs in it and no
   * marker of a status looked for earlier does.
   */
  lemma ClassifyIsFirstMarker(content: string, k: nat)
    requires k < |Precedence|
    ensures Classify(content) == Some(Precedence[k]) <==> Contains(content, Marker(Precedence[k])) && NoEarlierMarker(content, k)
  {
    var p := Precedence;
    assert p[0] == Pass && p[1] == AbnormalExit && p[2] == Nonequivalent && p[3] == PostCheckFailed && p[4] == WorseQor && p[5] == WorsePerformance;
    if k == 0 {
    } else if k == 1 {
    } else if k == 2 {
    } else if k == 3 {
    } else if k == 4 {
    } else {
      assert k == 5;
    }
  }

  /** A log with no marker has no status; one with any marker has one. */
  lemma ClassifyNone(content: string)
    ensures Classify(content).None? <==> forall s: Status :: !Contains(content, Marker(s))
  {
    if Classify(content).None? {
      forall s: Status ensures !Contains(content, Marker(s)) {
        match s
        case Pass =>
        case AbnormalExit =>
        case Nonequivalent =>
        case PostCheckFailed =>
        case WorseQor =>
        case WorsePerformance =>
      }
    } else {
      assert Contains(content, Marker(Classify(content).value));
    }
  }

  // ---------------------------------------------------------------------
  // the report over all cases
  // ---------------------------------------------------------------------

  /** os.path.split(path)[1]: the text after the last slash. */
  function BaseName(path: string): string {
    AfterLast(path, "/")
  }

  /** os.path.join(a, b): b when absolute, otherwise b appended with one slash between. */
  function PathJoin(a: string, b: string): string {
    if 0 < |b| && b[0] == '/' then b
    else if |a| == 0 || a[|a| - 1] == '/' then a + b
    else a + "/" + b
  }

  /** The entry listed for a case: its directory in the workspace. */
  function Entry(workspace: string, path: string): string {
    PathJoin(workspace, BaseName(path))
  }

  /** The entries of the first n cases whose log has status s, in case order. */
  function Bucket(cases: seq<string>, contents: seq<string>, workspace: string, s: Status, n: nat): (b: seq<string>)
    requires n <= |cases| == |contents|
    ensures |b| <= n
  {
    if n == 0 then []
    else
      Bucket(cases, contents, workspace, s, n - 1)
      + (if Classify(contents[n - 1]) == Some(s) then [Entry(workspace, cases[n - 1])] else [])
  }

  /** The sizes of all buckets. */
  function BucketSizes(cases: seq<string>, contents: seq<string>, workspace: string, n: nat): nat
    requires n <= |cases| == |contents|
  {
    |Bucket(cases, contents, workspace, Pass, n)| + |Bucket(cases, contents, workspace, AbnormalExit, n)|
    + |Bucket(cases, contents, workspace, Nonequivalent, n)| + |Bucket(cases, contents, workspace, WorseQor, n)|
    + |Bucket(cases, contents, workspace, WorsePerformance, n)| + |Bucket(cases, contents, workspace, PostCheckFailed, n)|
  }

  /** Every classified case lands in exactly one bucket, so the bucket sizes add up to the number of cases. */
  lemma {:induction false} BucketsPartition(cases: seq<string>, contents: seq<string>, workspace: string, n: nat)
    requires n <= |cases| == |contents|
    requires forall i :: 0 <= i < n ==> Classify(contents[i]).Some?
    ensures BucketSizes(cases, contents, workspace, n) == n
  {
    if n > 0 {
      BucketsPartition(cases, contents, workspace, n - 1);
    }
  }

  /** The summary of a report: the buckets by status value, the counts, the lines and their text. */
  datatype Summary = Summary(results: seq<seq<string>>, total: nat, failed: int, passRate: real, lines: seq<string>, text: string)

  /** What aborts the report: a log without status used as an index, or no cases at all. */
  datatype Failure = TypeError | ZeroDivisionError

  /** The lines for the statuses from value v on, skipping empty buckets. */
  function FailureLines(results: seq<seq<string>>, v: nat): seq<string>
    requires |results| == Total && 1 <= v <= Total
    decreases Total - v
  {
    if v == Total then []
    else
      (if |results[v]| > 0 then StatusLines(Attributes[v].0, results[v]) else [])
      + FailureLines(results, v + 1)
  }

  /** The report's lines: the summary header, then the failed statuses in ascending order. */
  function SummaryLines(results: seq<seq<string>>, total: nat, failed: int, rateText: string): seq<string>
    requires |results| == Total
  {
    ["Summary:", "Total:  " + NatToString(total), "Failed: " + IntToString(failed), "Pass Rate: " + rateText + "%"]
    + FailureLines(results, 1)
  }

  /** The loop of report over the cases: each case is appended to the bucket of its status; a log without status aborts. */
  method Bucketize(cases: seq<string>, contents: seq<string>, workspace: string) returns (r: Option<seq<seq<string>>>)
    requires |contents| == |cases|
    ensures r.None? <==> exists i :: 0 <= i < |cases| && Classify(contents[i]).None?
    ensures r.Some? ==> |r.value| == Total
    ensures r.Some? ==> forall v :: 0 <= v < Total ==> r.value[v] == Bucket(cases, contents, workspace, OfValue(v), |cases|)
  {
    var results: seq<seq<string>> := seq(Total, _ => []);
    for i := 0 to |cases|
      invariant |results| == Total
      invariant forall v :: 0 <= v < Total ==> results[v] == Bucket(cases, contents, workspace, OfValue(v), i)
      invariant forall k :: 0 <= k < i ==> Classify(contents[k]).Some?
    {
      var status := Classify(contents[i]);
      if status.None? {
        return None;
      }
      var v := Value(status.value);
      results := results[v := results[v] + [Entry(workspace, cases[i])]];
    }
    return Some(results);
  }

  /** The lines of the cases of one status, indented by four spaces. */
  function Indented(cases: seq<string>): (r: seq<string>)
    ensures |r| == |cases|
  {
    seq(|cases|, i requires 0 <= i < |cases| => "    " + cases[i])
  }

  /** The lines listing one failed status: its name, then each of its cases indented. */
  function StatusLines(name: string, cases: seq<string>): (r: seq<string>)
    ensures |r| == 1 + |cases|
  {
    [name + ":"] + Indented(cases)
  }

  /** rpt_lines.extend over one bucket. */
  method AppendIndented(lines: seq<string>, cases: seq<string>) returns (r: seq<string>)
    ensures r == lines + Indented(cases)
  {
    r := lines;
    for j := 0 to |cases|
      invariant r == lines + Indented(cases)[..j]
    {
      assert Indented(cases)[..j + 1] == Indented(cases)[..j] + ["    " + cases[j]];
      r := r + ["    " + cases[j]];
    }
    assert Indented(cases)[..|cases|] == Indented(cases);
  }

  /** The loop of report over the failed statuses: appends the name and the cases of each non-empty bucket. */
  method AppendFailureLines(head: seq<string>, results: seq<seq<string>>) returns (lines: seq<string>)
    requires |results| == Total
    ensures lines == head + FailureLines(results, 1)
  {
    lines := head;
    for v := 1 to Total
      invariant lines + FailureLines(results, v) == head + FailureLines(results, 1)
    {
      ghost var before := lines;
      lines := AppendStatus(lines, results, v);
      FailureLinesStep(results, v);
      PrefixStep(before, lines, (if |results[v]| > 0 then StatusLines(Attributes[v].0, results[v]) else []),
                 FailureLines(results, v), FailureLines(results, v + 1), head + FailureLines(results, 1));
    }
  }

  /** One round of that loop: a non-empty bucket adds its name line and its indented cases. */
  method AppendStatus(lines: seq<string>, results: seq<seq<string>>, v: nat) returns (out: seq<string>)
    requires |results| == Total && 1 <= v < Total
    ensures out == lines + (if |results[v]| > 0 then StatusLines(Attributes[v].0, results[v]) else [])
  {
    out := lines;
    if |results[v]| > 0 {
      var name := ToString(v);
      NameOfValues(v);
      out := AppendIndented(lines + [name.value + ":"], results[v]);
      AppendAssoc(lines, [name.value + ":"], Indented(results[v]));
    }
  }

  lemma AppendAssoc<T>(a: seq<T>, b: seq<T>, c: seq<T>)
    ensures a + b + c == a + (b + c)
  {
  }

  /** Moving one piece from the front of the rest to the end of the prefix keeps the whole. */
  lemma PrefixStep<T>(before: seq<T>, after: seq<T>, g: seq<T>, rest: seq<T>, tail: seq<T>, whole: seq<T>)
    requires before + rest == whole && rest == g + tail && after == before + g
    ensures after + tail == whole
  {
    AppendAssoc(before, g, tail);
  }

  /**
   * Reporter.report: classifies each case's log and appends the case to
   * its status bucket, then builds the summary. The log contents are given
   * (contents[i] is the text of the log of cases[i]); formatting the pass
   * rate with two decimals is the parameter format.
   */
  method Report(cases: seq<string>, contents: seq<string>, workspace: string, format: real -> string)
    returns (r: Result<Summary, Failure>)
    requires |contents| == |cases|
    ensures r == Err(TypeError) <==> exists i :: 0 <= i < |cases| && Classify(contents[i]).None?
    ensures r == Err(ZeroDivisionError) <==> |cases| == 0
    ensures r.Ok? ==>
      |r.value.results| == Total
      && (forall v :: 0 <= v < Total ==> r.value.results[v] == Bucket(cases, contents, workspace, OfValue(v), |cases|))
      && r.value.total == |cases|
      && r.value.failed == |cases| - |r.value.results[0]|
      && r.value.passRate == 100.0 * (|r.value.results[0]| as real) / (|cases| as real)
      && r.value.lines == SummaryLines(r.value.results, r.value.total, r.value.failed, format(r.value.passRate))
      && r.value.text == Util.Join(r.value.lines, "\n")
  {
    var buckets := Bucketize(cases, contents, workspace);
    if buckets.None? {
      return Err(TypeError);
    }
    var results := buckets.value;
    var total := |cases|;
    var failed := total - |results[0]|;
    if total == 0 {
      return Err(ZeroDivisionError);
    }
    var rate := 100.0 * (|results[0]| as real) / (total as real);
    var lines := AppendFailureLines(["Summary:", "Total:  " + NatToString(total), "Failed: " + IntToString(failed), "Pass Rate: " + format(rate) + "%"], results);
    return Ok(Summary(results, total, failed, rate, lines, Util.Join(lines, "\n")));
  }

  /** FailureLines from v is the block of v followed by the rest, as a suffix of the lines from 1. */
  lemma FailureLinesStep(results: seq<seq<string>>, v: nat)
    requires |results| == Total && 1 <= v < Total
    ensures FailureLines(results, v) == (if |results[v]| > 0 then StatusLines(Attributes[v].0, results[v]) else []) + FailureLines(results, v + 1)
  {
  }

  /** The line that opens the listing of status value v. */
  function Header(v: nat): string
    requires v < |Attributes|
  {
    Attributes[v].0 + ":"
  }

  /**
   * The summary lists a status exactly when its bucket is non-empty and it
   * is not PASS: the header of u occurs among the lines from v on iff
   * v <= u and bucket u has cases.
   */
  lemma {:induction false} FailureHeaders(results: seq<seq<string>>, v: nat, u: nat)
    requires |results| == Total && 1 <= v <= Total && u < Total
    ensures Header(u) in FailureLines(results, v) <==> v <= u && |results[u]| > 0
    decreases Total - v
  {
    if v < Total {
      FailureHeaders(results, v + 1, u);
      HeaderNotIndented(u, results[v]);
      if u != v {
        HeadersDistinct(u, v);
      }
      assert FailureLines(results, v) == (if |results[v]| > 0 then [Header(v)] + Indented(results[v]) else []) + FailureLines(results, v + 1);
    }
  }

  /** Headers of different statuses differ. */
  lemma HeadersDistinct(u: nat, v: nat)
    requires u < Total && v < Total && u != v
    ensures Header(u) != Header(v)
  {
    assert |Header(u)| != |Header(v)| || Header(u)[0] != Header(v)[0];
  }

  /** No header is an indented case line. */
  lemma HeaderNotIndented(u: nat, cases: seq<string>)
    requires u < Total
    ensures Header(u) !in Indented(cases)
  {
    assert Header(u)[0] != ' ';
    forall i | 0 <= i < |cases| ensures Indented(cases)[i][0] == ' ' {
    }
  }
}
