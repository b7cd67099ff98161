/**
 * The pending-operations panel of the editor (src/tui/screens/change-log.ts):
 * one line per planned operation, newest first, tagged with a three-letter
 * badge for its kind.
 */
module ChangeLog {
  import opened EnvTypes

  const NoPendingOperations := "No pending operations."

  /** `operationBadge`. */
  function OperationBadge(kind: OperationKind): (badge: string)
    ensures |badge| == 3
  {
    if kind == CreateEnv then "CRT"
    else if kind == UpdateEnv then "UPD"
    else if kind == DeleteEnv then "DEL"
    else if kind == RenameKey then "REN"
    else "RTG"
  }

  function OperationLine(operation: Operation): string
  {
    "[" + OperationBadge(operation.kind) + "] " + operation.summary
  }

  /** `[...operations].reverse()`: a reversed copy. */
  function Reverse<T>(s: seq<T>): (r: seq<T>)
    ensures |r| == |s|
    ensures forall i :: 0 <= i < |s| ==> r[i] == s[|s| - 1 - i]
  {
    if s == [] then [] else Reverse(s[1..]) + [s[0]]
  }

  /** `formatChangeLogLines`. */
  function FormatChangeLogLines(operations: seq<Operation>): seq<string>
  {
    if |operations| == 0 then [NoPendingOperations]
    else
      var reversed := Reverse(operations);
      seq(|reversed|, i requires 0 <= i < |reversed| => OperationLine(reversed[i]))
  }

  // ---------------------------------------------------------------------
  // Properties
  // ---------------------------------------------------------------------

  /**
   * With operations pending there is one line per operation, the last
   * operation first; otherwise the single placeholder line.
   */
  lemma LinesNewestFirst(operations: seq<Operation>)
    ensures operations == [] ==> FormatChangeLogLines(operations) == [NoPendingOperations]
    ensures operations != [] ==> |FormatChangeLogLines(operations)| == |operations|
    ensures operations != [] ==> forall i :: 0 <= i < |operations| ==>
      FormatChangeLogLines(operations)[i] == OperationLine(operations[|operations| - 1 - i])
  {
  }

  /** A new operation appended to the plan shows as the first line, above the earlier ones. */
  lemma NewOperationOnTop(operations: seq<Operation>, newest: Operation)
    requires operations != []
    ensures FormatChangeLogLines(operations + [newest]) == [OperationLine(newest)] + FormatChangeLogLines(operations)
  {
    var all := operations + [newest];
    LinesNewestFirst(all);
    LinesNewestFirst(operations);
    var a := FormatChangeLogLines(all);
    var rest := FormatChangeLogLines(operations);
    forall i | 0 < i < |a| ensures a[i] == rest[i - 1] {
      assert all[|all| - 1 - i] == operations[|operations| - 1 - (i - 1)];
    }
    assert a == [a[0]] + a[1..];
  }

  /** Reversing twice gives the list back: the reversal works on a copy and loses nothing. */
  lemma ReverseTwice<T>(s: seq<T>)
    ensures Reverse(Reverse(s)) == s
  {
  }

  /** The five kinds get five different badges; everything but the four named kinds is RTG. */
  lemma BadgesDistinct(a: OperationKind, b: OperationKind)
    ensures OperationBadge(a) == OperationBadge(b) <==> a == b
    ensures OperationBadge(a) == "RTG" <==> a == Retarget
  {
  }

  /** Every line starts with its badge in brackets and ends with the operation's summary. */
  lemma LineShape(operation: Operation)
    ensures OperationLine(operation)[..5] == "[" + OperationBadge(operation.kind) + "]"
    ensures OperationLine(operation)[6..] == operation.summary
  {
  }
}
