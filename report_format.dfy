/**
 * The lines of the apply report screen (src/tui/screens/report-format.ts):
 * the accepted count, then the done, failed and skipped results, each
 * group under a header with its size.
 */
module ReportFormat {
  import opened Wrappers
  import opened Strings
  import opened EnvTypes

  const NoReport := "No apply report available yet."

  /** `formatGroupLines`. */
  function FormatGroupLines(title: string, lines: seq<string>): (r: seq<string>)
    ensures |r| == 1 + |lines|
    ensures forall i :: 0 <= i < |lines| ==> r[i + 1] == "- " + lines[i]
  {
    if |lines| == 0 then [title + ": 0"]
    else [title + ": " + NatToString(|lines|)] + seq(|lines|, i requires 0 <= i < |lines| => "- " + lines[i])
  }

  /** A done result: its id, and its message in parentheses when the message is a non-empty string. */
  function DoneLine(item: ApplyOperationResult): string
  {
    item.operationId + (if item.message.Some? && item.message.value != "" then " (" + item.message.value + ")" else "")
  }

  /** A failed or skipped result: its id and its message, or the status name when there is none. */
  function ReasonLine(item: ApplyOperationResult, fallback: string): string
  {
    item.operationId + ": " + item.message.GetOr(fallback)
  }

  /** The line a result gets in the group of its status. */
  function LineFor(item: ApplyOperationResult): string
  {
    match item.status
    case Done => DoneLine(item)
    case Failed => ReasonLine(item, "failed")
    case Skipped => ReasonLine(item, "skipped")
  }

  /** `results.filter(status).map(line)`. */
  function StatusLines(results: seq<ApplyOperationResult>, status: ApplyStatus): (r: seq<string>)
    ensures |r| <= |results|
  {
    if results == [] then []
    else (if results[0].status == status then [LineFor(results[0])] else []) + StatusLines(results[1..], status)
  }

  /** `formatApplyReportLines`; `None` is a null report. */
  function FormatApplyReportLines(report: Option<ApplyResultData>): seq<string>
  {
    match report
    case None => [NoReport]
    case Some(data) =>
      ["Accepted operations: " + NatToString(data.accepted)]
      + FormatGroupLines("Done", StatusLines(data.results, Done))
      + FormatGroupLines("Failed", StatusLines(data.results, Failed))
      + FormatGroupLines("Skipped", StatusLines(data.results, Skipped))
  }

  // ---------------------------------------------------------------------
  // Properties
  // ---------------------------------------------------------------------

  /** The header is `<Title>: <count>` in both branches, `<Title>: 0` for an empty group. */
  lemma GroupHeader(title: string, lines: seq<string>)
    ensures FormatGroupLines(title, lines)[0] == title + ": " + NatToString(|lines|)
  {
    if |lines| == 0 {
      assert NatToString(0) == "0";
    }
  }

  /** Every result falls in exactly one of the three groups. */
  lemma {:induction false} GroupsPartition(results: seq<ApplyOperationResult>)
    ensures |StatusLines(results, Done)| + |StatusLines(results, Failed)| + |StatusLines(results, Skipped)| == |results|
  {
    if results != [] {
      GroupsPartition(results[1..]);
    }
  }

  /** A group lists the lines of exactly the results with its status. */
  lemma {:induction false} GroupMembers(results: seq<ApplyOperationResult>, status: ApplyStatus, line: string)
    ensures line in StatusLines(results, status) <==>
      exists i :: 0 <= i < |results| && results[i].status == status && line == LineFor(results[i])
  {
    if results != [] {
      GroupMembers(results[1..], status, line);
      if exists i :: 1 <= i < |results| && results[i].status == status && line == LineFor(results[i]) {
        var i :| 1 <= i < |results| && results[i].status == status && line == LineFor(results[i]);
        assert results[1..][i - 1] == results[i];
      }
      if exists i :: 0 <= i < |results[1..]| && results[1..][i].status == status && line == LineFor(results[1..][i]) {
        var i :| 0 <= i < |results[1..]| && results[1..][i].status == status && line == LineFor(results[1..][i]);
        assert results[i + 1] == results[1..][i];
      }
    }
  }

  /** A null report gives the placeholder alone; any other report has four lines more than it has results. */
  lemma ReportLineCount(report: Option<ApplyResultData>)
    ensures report.None? ==> FormatApplyReportLines(report) == [NoReport]
    ensures report.Some? ==> |FormatApplyReportLines(report)| == 4 + |report.value.results|
  {
    if report.Some? {
      GroupsPartition(report.value.results);
    }
  }

  /**
   * The layout of a report: the accepted count, then the done, failed and
   * skipped headers, each followed by its group's lines.
   */
  lemma ReportLayout(data: ApplyResultData)
    ensures var lines := FormatApplyReportLines(Some(data));
      var d := |StatusLines(data.results, Done)|;
      var f := |StatusLines(data.results, Failed)|;
      var k := |StatusLines(data.results, Skipped)|;
      |lines| == 4 + d + f + k
      && lines[0] == "Accepted operations: " + NatToString(data.accepted)
      && lines[1] == "Done: " + NatToString(d)
      && lines[2 + d] == "Failed: " + NatToString(f)
      && lines[3 + d + f] == "Skipped: " + NatToString(k)
  {
    GroupHeader("Done", StatusLines(data.results, Done));
    GroupHeader("Failed", StatusLines(data.results, Failed));
    GroupHeader("Skipped", StatusLines(data.results, Skipped));
  }

  /** Every result of a report appears as a `- ` line. */
  lemma EveryResultListed(data: ApplyResultData, i: nat)
    requires i < |data.results|
    ensures "- " + LineFor(data.results[i]) in FormatApplyReportLines(Some(data))
  {
    var item := data.results[i];
    GroupMembers(data.results, item.status, LineFor(item));
    var pre := ["Accepted operations: " + NatToString(data.accepted)];
    var d := FormatGroupLines("Done", StatusLines(data.results, Done));
    var f := FormatGroupLines("Failed", StatusLines(data.results, Failed));
    var k := FormatGroupLines("Skipped", StatusLines(data.results, Skipped));
    match item.status
    case Done =>
      ListedInGroup("Done", StatusLines(data.results, Done), LineFor(item));
      InConcat(pre, d, f + k, "- " + LineFor(item));
      assert pre + d + (f + k) == pre + d + f + k;
    case Failed =>
      ListedInGroup("Failed", StatusLines(data.results, Failed), LineFor(item));
      InConcat(pre + d, f, k, "- " + LineFor(item));
    case Skipped =>
      ListedInGroup("Skipped", StatusLines(data.results, Skipped), LineFor(item));
      InConcat(pre + d + f, k, [], "- " + LineFor(item));
      assert pre + d + f + k + [] == pre + d + f + k;
  }

  lemma ListedInGroup(title: string, lines: seq<string>, line: string)
    requires line in lines
    ensures "- " + line in FormatGroupLines(title, lines)
  {
    var j :| 0 <= j < |lines| && lines[j] == line;
    assert FormatGroupLines(title, lines)[j + 1] == "- " + line;
  }

  lemma InConcat(a: seq<string>, b: seq<string>, c: seq<string>, x: string)
    requires x in b
    ensures x in a + b + c
  {
  }

  /** A done line shows the message only when it is a non-empty string; a failed or skipped one falls back to its status. */
  lemma LineFormats(item: ApplyOperationResult)
    ensures item.status == Done && (item.message.None? || item.message == Some("")) ==> LineFor(item) == item.operationId
    ensures item.status == Failed && item.message.None? ==> LineFor(item) == item.operationId + ": failed"
    ensures item.status == Skipped && item.message.None? ==> LineFor(item) == item.operationId + ": skipped"
    ensures item.status != Done && item.message.Some? ==> LineFor(item) == item.operationId + ": " + item.message.value
  {
  }
}
