/**
 * Folding the per-action results of a CLI apply back into one result per
 * planned operation (`mergeActionResults` in
 * src/app/api/vercel/apply/route.ts).
 */
module ApplyMerge {
  import opened Wrappers
  import opened Strings
  import opened EnvTypes
  import opened ApplyExecutor

  /** `actionResults.filter((item) => item.operationId === operationId)`. */
  function PerOperation(operationId: string, actionResults: seq<CliApplyActionResult>): (r: seq<CliApplyActionResult>)
    ensures |r| <= |actionResults|
    ensures forall k :: 0 <= k < |r| ==> r[k].operationId == operationId && r[k] in actionResults
  {
    if actionResults == [] then []
    else
      (if actionResults[0].operationId == operationId then [actionResults[0]] else [])
        + PerOperation(operationId, actionResults[1..])
  }

  /** `.filter((item) => item.message).map((item) => item.message)`: the non-null, non-empty messages. */
  function Messages(items: seq<CliApplyActionResult>): (r: seq<string>)
    ensures forall k :: 0 <= k < |r| ==> r[k] != ""
  {
    if items == [] then []
    else
      (if items[0].message.Some? && items[0].message.value != "" then [items[0].message.value] else [])
        + Messages(items[1..])
  }

  /** The joined messages, or `fallback` when they join to the empty string. */
  function MessageOr(items: seq<CliApplyActionResult>, fallback: string): string
  {
    var message := Join(Messages(items), "; ");
    if |message| > 0 then message else fallback
  }

  predicate AnyFailed(items: seq<CliApplyActionResult>)
  {
    exists k :: 0 <= k < |items| && items[k].status == Failed
  }

  predicate AllSkipped(items: seq<CliApplyActionResult>)
  {
    forall k :: 0 <= k < |items| ==> items[k].status == Skipped
  }

  /** The `operationIds.map` callback: the result of one operation. */
  function MergeOne(operationId: string, actionResults: seq<CliApplyActionResult>): (r: ApplyOperationResult)
    ensures r.operationId == operationId && r.createdId.None?
    ensures r.status == Failed <==> AnyFailed(PerOperation(operationId, actionResults))
    ensures r.status == Skipped <==>
      !AnyFailed(PerOperation(operationId, actionResults)) && AllSkipped(PerOperation(operationId, actionResults))
    ensures r.status == Failed ==> r.message == Some(MessageOr(PerOperation(operationId, actionResults), "Operation failed."))
    ensures r.status == Skipped ==> r.message == Some(MessageOr(PerOperation(operationId, actionResults), "Operation skipped."))
    ensures r.status == Done <==> r.message.None?
  {
    var perOperation := PerOperation(operationId, actionResults);
    if AnyFailed(perOperation) then
      ApplyOperationResult(operationId, Failed, None, Some(MessageOr(perOperation, "Operation failed.")))
    else if AllSkipped(perOperation) then
      ApplyOperationResult(operationId, Skipped, None, Some(MessageOr(perOperation, "Operation skipped.")))
    else
      ApplyOperationResult(operationId, Done, None, None)
  }

  /** `mergeActionResults`. */
  function MergeActionResults(operationIds: seq<string>, actionResults: seq<CliApplyActionResult>): (r: ApplyResultData)
    ensures r.accepted == |operationIds| && |r.results| == |operationIds|
    ensures forall i :: 0 <= i < |operationIds| ==> r.results[i] == MergeOne(operationIds[i], actionResults)
  {
    ApplyResultData(|operationIds|,
      seq(|operationIds|, i requires 0 <= i < |operationIds| => MergeOne(operationIds[i], actionResults)))
  }

  // ---------------------------------------------------------------------
  // Properties
  // ---------------------------------------------------------------------

  /** An action result belongs to an operation's share exactly when it carries the operation's id. */
  lemma {:induction false} PerOperationExact(operationId: string, actionResults: seq<CliApplyActionResult>, item: CliApplyActionResult)
    ensures item in PerOperation(operationId, actionResults) <==> item in actionResults && item.operationId == operationId
    decreases |actionResults|
  {
    if actionResults != [] {
      PerOperationExact(operationId, actionResults[1..], item);
      assert actionResults == [actionResults[0]] + actionResults[1..];
    }
  }

  /** Joining non-empty messages gives the empty string only when there are none. */
  lemma {:induction false} JoinEmptyOnlyWhenNone(parts: seq<string>, sep: string)
    requires forall k :: 0 <= k < |parts| ==> parts[k] != ""
    ensures Join(parts, sep) == "" <==> parts == []
    decreases |parts|
  {
    if |parts| > 1 {
      assert |Join(parts, sep)| >= |parts[0]| > 0;
    }
  }

  /** A message is kept exactly when some item carries it and it is not empty. */
  lemma {:induction false} MessagesExact(items: seq<CliApplyActionResult>, m: string)
    ensures m in Messages(items) <==> m != "" && exists k :: 0 <= k < |items| && items[k].message == Some(m)
    decreases |items|
  {
    if items != [] {
      MessagesExact(items[1..], m);
      if exists k :: 0 <= k < |items[1..]| && items[1..][k].message == Some(m) {
        var k :| 0 <= k < |items[1..]| && items[1..][k].message == Some(m);
        assert items[k + 1].message == Some(m);
      }
      if exists k :: 0 <= k < |items| && items[k].message == Some(m) {
        var k :| 0 <= k < |items| && items[k].message == Some(m);
        if k > 0 {
          assert items[1..][k - 1].message == Some(m);
        }
      }
    }
  }

  /** The fallback text appears exactly when no item has a non-empty message. */
  lemma FallbackOnlyWithoutMessages(items: seq<CliApplyActionResult>, fallback: string)
    ensures MessageOr(items, fallback) == fallback || Messages(items) != []
    ensures Messages(items) == [] ==> MessageOr(items, fallback) == fallback
    ensures Messages(items) != [] ==> MessageOr(items, fallback) == Join(Messages(items), "; ")
  {
    JoinEmptyOnlyWhenNone(Messages(items), "; ");
  }

  /** An operation with no action results at all counts as skipped, with the default message. */
  lemma NoActionsSkipped(operationId: string, actionResults: seq<CliApplyActionResult>)
    requires forall k :: 0 <= k < |actionResults| ==> actionResults[k].operationId != operationId
    ensures MergeOne(operationId, actionResults) ==
      ApplyOperationResult(operationId, Skipped, None, Some("Operation skipped."))
  {
    PerOperationNone(operationId, actionResults);
  }

  lemma {:induction false} PerOperationNone(operationId: string, actionResults: seq<CliApplyActionResult>)
    requires forall k :: 0 <= k < |actionResults| ==> actionResults[k].operationId != operationId
    ensures PerOperation(operationId, actionResults) == []
    decreases |actionResults|
  {
    if actionResults != [] {
      PerOperationNone(operationId, actionResults[1..]);
    }
  }

  /** One failed action fails its operation, whatever its other actions did. */
  lemma OneFailureFailsOperation(operationIds: seq<string>, actionResults: seq<CliApplyActionResult>, i: nat, k: nat)
    requires i < |operationIds| && k < |actionResults|
    requires actionResults[k].operationId == operationIds[i] && actionResults[k].status == Failed
    ensures MergeActionResults(operationIds, actionResults).results[i].status == Failed
  {
    var per := PerOperation(operationIds[i], actionResults);
    PerOperationExact(operationIds[i], actionResults, actionResults[k]);
    var j :| 0 <= j < |per| && per[j] == actionResults[k];
  }

  /** An operation is done exactly when none of its actions failed and at least one was not skipped. */
  lemma DoneMeansSomeActionDone(operationIds: seq<string>, actionResults: seq<CliApplyActionResult>, i: nat)
    requires i < |operationIds|
    ensures MergeActionResults(operationIds, actionResults).results[i].status == Done <==>
      (forall k :: 0 <= k < |actionResults| && actionResults[k].operationId == operationIds[i] ==> actionResults[k].status != Failed)
      && (exists k :: 0 <= k < |actionResults| && actionResults[k].operationId == operationIds[i] && actionResults[k].status == Done)
  {
    var id := operationIds[i];
    var per := PerOperation(id, actionResults);
    forall k | 0 <= k < |actionResults| && actionResults[k].operationId == id
      ensures actionResults[k] in per
    {
      PerOperationExact(id, actionResults, actionResults[k]);
    }
    forall j | 0 <= j < |per|
      ensures exists k :: 0 <= k < |actionResults| && actionResults[k] == per[j]
    {
      assert per[j] in actionResults;
    }
  }
}
