/**
 * The legacy SDK applier (src/lib/vercel/apply.ts): creates first, then
 * updates, then deletes, then a skip for every other kind, each group in
 * input order. The SDK client is an outcome oracle: the n-th request it
 * receives gets `client(n)`, and the method also returns the requests in
 * the order they were made.
 */
module SdkApply {
  import opened Wrappers
  import opened Strings
  import opened EnvTypes
  import opened JsonValues
  import opened OracleRuns

  /** A request to the SDK client (the constant `type: "plain"` of each body is left implicit). */
  datatype ClientCall =
    | CreateProjectEnv(idOrName: string, teamId: Option<string>, key: string, value: Option<string>,
        target: Option<seq<BuiltIn>>, customEnvironmentIds: Option<seq<string>>)
    | EditProjectEnv(idOrName: string, id: string, teamId: Option<string>, key: string, value: Option<string>,
        target: Option<seq<BuiltIn>>, customEnvironmentIds: Option<seq<string>>)
    | RemoveProjectEnv(idOrName: string, id: string, teamId: Option<string>)

  /** What one request does: it resolves with a response or rejects with an error, both untyped. */
  datatype ClientOutcome = Resolved(response: Json) | Rejected(error: Json)

  const MissingValueMessage := "Create operation is missing value data."
  const MissingUpdateRowMessage := "Update operation is missing source row reference."
  const MissingDeleteRowMessage := "Delete operation is missing source row reference."
  const DefaultFailureMessage := "Operation failed."

  const UpdatePrefix := "update-row:"
  const DeletePrefix := "delete-row:"

  /** `getOperationRowId`: the rest of the id after `prefix`, when the id starts with it. */
  function OperationRowId(op: Operation, prefix: string): (r: Option<string>)
    ensures r.Some? <==> StartsWith(op.id, prefix)
    ensures r.Some? ==> prefix + r.value == op.id
  {
    if StartsWith(op.id, prefix) then
      assert prefix + op.id[|prefix|..] == op.id;
      Some(op.id[|prefix|..])
    else None
  }

  /** `!sourceRowId`: no such prefix, or nothing after it. */
  predicate MissingRowId(op: Operation, prefix: string)
  {
    OperationRowId(op, prefix).None? || OperationRowId(op, prefix).value == ""
  }

  /** `sanitizeErrorMessage`: the error's own message when it is a string that is not blank. */
  function SanitizeErrorMessage(error: Json): string
  {
    match GetString(error, "message")
    case Some(message) => if |Trim(message)| > 0 then message else DefaultFailureMessage
    case None => DefaultFailureMessage
  }

  /**
   * The sanitized message is the error's message exactly when that is a
   * non-blank string, the fixed text otherwise; either way it is never blank.
   */
  lemma SanitizedMessageMeaning(error: Json)
    ensures GetString(error, "message").Some? && |Trim(GetString(error, "message").value)| > 0 ==>
      SanitizeErrorMessage(error) == GetString(error, "message").value
    ensures !(GetString(error, "message").Some? && |Trim(GetString(error, "message").value)| > 0) ==>
      SanitizeErrorMessage(error) == DefaultFailureMessage
    ensures |Trim(SanitizeErrorMessage(error))| > 0
  {
    TrimOfNoSpace(DefaultFailureMessage);
  }

  /** `envs[0].id` when `envs` is an array whose first entry has a string id. */
  function FirstEnvId(response: Json): Option<string>
  {
    match GetArray(response, "envs")
    case Some(envs) => if |envs| > 0 then GetString(envs[0], "id") else None
    case None => None
  }

  /** `created.id` when `created` is an object with a string id. */
  function CreatedObjectId(response: Json): Option<string>
  {
    match Get(response, "created")
    case Some(created) => GetString(created, "id")
    case None => None
  }

  /** `extractCreatedId`: `id`, else `created.id`, else `envs[0].id`, else null. */
  function ExtractCreatedId(response: Json): (r: Option<string>)
    ensures r.Some? ==> response.JObject?
    ensures GetString(response, "id").Some? ==> r == GetString(response, "id")
    ensures GetString(response, "id").None? && CreatedObjectId(response).Some? ==> r == CreatedObjectId(response)
    ensures GetString(response, "id").None? && CreatedObjectId(response).None? ==> r == FirstEnvId(response)
  {
    if !response.JObject? then None
    else if GetString(response, "id").Some? then GetString(response, "id")
    else if CreatedObjectId(response).Some? then CreatedObjectId(response)
    else FirstEnvId(response)
  }

  /** `!after?.value`: no after snapshot, or no value, or an empty one. */
  predicate MissingCreateValue(op: Operation)
  {
    op.after.None? || op.after.value.value.None? || op.after.value.value.value == ""
  }

  /** The operation passes its pass's checks and a request is sent for it. */
  predicate SendsRequest(op: Operation)
  {
    match op.kind
    case CreateEnv => !MissingCreateValue(op)
    case UpdateEnv => !MissingRowId(op, UpdatePrefix) && op.after.Some?
    case DeleteEnv => !MissingRowId(op, DeletePrefix)
    case _ => false
  }

  /** The request an operation makes the client receive, or None when it fails or is skipped without one. */
  function CallFor(projectId: string, teamId: Option<string>, op: Operation): (r: Option<ClientCall>)
    ensures r.Some? <==> SendsRequest(op)
    ensures r.Some? ==> r.value.idOrName == projectId && r.value.teamId == teamId
    ensures r.Some? && r.value.CreateProjectEnv? ==> (op.kind == CreateEnv
      && r.value.key == op.after.value.key && r.value.value == op.after.value.value)
    ensures r.Some? && r.value.EditProjectEnv? ==> (op.kind == UpdateEnv
      && UpdatePrefix + r.value.id == op.id && r.value.key == op.after.value.key && r.value.value == op.after.value.value)
    ensures r.Some? && r.value.RemoveProjectEnv? ==> op.kind == DeleteEnv && DeletePrefix + r.value.id == op.id
  {
    match op.kind
    case CreateEnv =>
      if MissingCreateValue(op) then None
      else
        var after := op.after.value;
        Some(CreateProjectEnv(projectId, teamId, after.key, after.value, Some(after.target.GetOr([])), after.customEnvironmentIds))
    case UpdateEnv =>
      if MissingRowId(op, UpdatePrefix) || op.after.None? then None
      else
        var after := op.after.value;
        Some(EditProjectEnv(projectId, OperationRowId(op, UpdatePrefix).value, teamId, after.key, after.value,
          after.target, after.customEnvironmentIds))
    case DeleteEnv =>
      if MissingRowId(op, DeletePrefix) then None
      else Some(RemoveProjectEnv(projectId, OperationRowId(op, DeletePrefix).value, teamId))
    case _ => None
  }

  /** The message of a skipped kind. */
  function NotExecutableMessage(kind: OperationKind): string
  {
    "Operation kind " + OperationKindName(kind) + " is not executable yet."
  }

  /**
   * The result recorded for one operation, given the outcome the client
   * would produce if it were called (ignored when it is not).
   */
  function ResultFor(op: Operation, outcome: ClientOutcome): ApplyOperationResult
  {
    match op.kind
    case CreateEnv =>
      if MissingCreateValue(op) then ApplyOperationResult(op.id, Failed, None, Some(MissingValueMessage))
      else OutcomeResult(op, outcome, true)
    case UpdateEnv =>
      if MissingRowId(op, UpdatePrefix) || op.after.None? then
        ApplyOperationResult(op.id, Failed, None, Some(MissingUpdateRowMessage))
      else OutcomeResult(op, outcome, false)
    case DeleteEnv =>
      if MissingRowId(op, DeletePrefix) then
        ApplyOperationResult(op.id, Failed, None, Some(MissingDeleteRowMessage))
      else OutcomeResult(op, outcome, false)
    case _ => ApplyOperationResult(op.id, Skipped, None, Some(NotExecutableMessage(op.kind)))
  }

  /** The `try`/`catch` around one request; only a create reads an id from the response. */
  function OutcomeResult(op: Operation, outcome: ClientOutcome, readsCreatedId: bool): ApplyOperationResult
  {
    match outcome
    case Resolved(response) =>
      ApplyOperationResult(op.id, Done, if readsCreatedId then ExtractCreatedId(response) else None, None)
    case Rejected(error) => ApplyOperationResult(op.id, Failed, None, Some(SanitizeErrorMessage(error)))
  }

  /**
   * How each operation is classified: skipped exactly for the kinds with no
   * pass, done exactly when its request is sent and resolves, a created id
   * only from a successful create, and the fixed messages of each check.
   */
  lemma ResultClassification(op: Operation, outcome: ClientOutcome)
    ensures ResultFor(op, outcome).operationId == op.id
    ensures ResultFor(op, outcome).status == Skipped <==> op.kind in {RenameKey, Retarget}
    ensures ResultFor(op, outcome).status == Skipped ==> ResultFor(op, outcome).message == Some(NotExecutableMessage(op.kind))
    ensures ResultFor(op, outcome).status == Done <==> SendsRequest(op) && outcome.Resolved?
    ensures ResultFor(op, outcome).status == Done <==> ResultFor(op, outcome).message.None?
    ensures ResultFor(op, outcome).createdId.Some? ==> op.kind == CreateEnv && ResultFor(op, outcome).status == Done
    ensures ResultFor(op, outcome).status == Done && op.kind == CreateEnv ==> ResultFor(op, outcome).createdId == ExtractCreatedId(outcome.response)
    ensures ResultFor(op, outcome).status == Failed && SendsRequest(op) ==> ResultFor(op, outcome).message == Some(SanitizeErrorMessage(outcome.error))
    ensures op.kind == CreateEnv && MissingCreateValue(op) ==>
      ResultFor(op, outcome) == ApplyOperationResult(op.id, Failed, None, Some(MissingValueMessage))
    ensures op.kind == UpdateEnv && (MissingRowId(op, UpdatePrefix) || op.after.None?) ==>
      ResultFor(op, outcome) == ApplyOperationResult(op.id, Failed, None, Some(MissingUpdateRowMessage))
    ensures op.kind == DeleteEnv && MissingRowId(op, DeletePrefix) ==>
      ResultFor(op, outcome) == ApplyOperationResult(op.id, Failed, None, Some(MissingDeleteRowMessage))
  {
  }

  // ---------------------------------------------------------------------
  // The four passes
  // ---------------------------------------------------------------------

  /** `operations.filter((operation) => operation.kind === kind)`. */
  function OfKind(ops: seq<Operation>, kind: OperationKind): (r: seq<Operation>)
    ensures forall k :: 0 <= k < |r| ==> r[k].kind == kind
  {
    if ops == [] then []
    else (if ops[0].kind == kind then [ops[0]] else []) + OfKind(ops[1..], kind)
  }

  predicate Executable(kind: OperationKind)
  {
    kind == CreateEnv || kind == UpdateEnv || kind == DeleteEnv
  }

  /** The operations of any other kind, in input order. */
  function NotExecutable(ops: seq<Operation>): (r: seq<Operation>)
    ensures forall k :: 0 <= k < |r| ==> !Executable(r[k].kind)
  {
    if ops == [] then []
    else (if !Executable(ops[0].kind) then [ops[0]] else []) + NotExecutable(ops[1..])
  }

  /** The order in which operations are processed and their results listed. */
  function ProcessingOrder(ops: seq<Operation>): seq<Operation>
  {
    OfKind(ops, CreateEnv) + OfKind(ops, UpdateEnv) + OfKind(ops, DeleteEnv) + NotExecutable(ops)
  }

  /** The request of each operation, as a function value for the oracle runs. */
  function Requester(projectId: string, teamId: Option<string>): Operation -> Option<ClientCall>
  {
    op => CallFor(projectId, teamId, op)
  }

  /**
   * One turn of the `createOperations` loop: operation i runs after operations ..i
   * made `calls` and recorded `results`; its request, if it makes one, is
   * number `start + |calls|`.
   */
  method CreateStep(projectId: string, teamId: Option<string>, ops: seq<Operation>, client: nat -> ClientOutcome, start: nat,
    i: nat, results: seq<ApplyOperationResult>, calls: seq<ClientCall>)
    returns (results': seq<ApplyOperationResult>, calls': seq<ClientCall>)
    requires i < |ops| && ops[i].kind == CreateEnv
    requires calls == Requests(ops[..i], Requester(projectId, teamId))
    requires |calls| == RequestCount(ops[..i], Requester(projectId, teamId))
    requires results == Results(ops[..i], Requester(projectId, teamId), client, ResultFor, start)
    ensures calls' == Requests(ops[..i + 1], Requester(projectId, teamId))
    ensures |calls'| == RequestCount(ops[..i + 1], Requester(projectId, teamId))
    ensures results' == Results(ops[..i + 1], Requester(projectId, teamId), client, ResultFor, start)
  {
    var operation := ops[i];
    var result, call;
    var after := operation.after;
    if after.None? || after.value.value.None? || after.value.value.value == "" {
      result := ApplyOperationResult(operation.id, Failed, None, Some(MissingValueMessage));
      call := None;
    } else {
      call := Some(CreateProjectEnv(projectId, teamId, after.value.key, after.value.value,
        Some(after.value.target.GetOr([])), after.value.customEnvironmentIds));
      match client(start + |calls|)
      case Resolved(response) =>
        result := ApplyOperationResult(operation.id, Done, ExtractCreatedId(response), None);
      case Rejected(error) =>
        result := ApplyOperationResult(operation.id, Failed, None, Some(SanitizeErrorMessage(error)));
    }
    assert call == Requester(projectId, teamId)(operation) && result == ResultFor(operation, client(start + |calls|));
    RunStep(ops, Requester(projectId, teamId), client, ResultFor, start, i, calls, results, call, result);
    calls' := calls + Listed(call);
    results' := results + [result];
  }

  /** The `createOperations` loop; its first request is number `start`. */
  method ApplyCreates(projectId: string, teamId: Option<string>, ops: seq<Operation>, client: nat -> ClientOutcome, start: nat)
    returns (results: seq<ApplyOperationResult>, calls: seq<ClientCall>)
    requires forall k :: 0 <= k < |ops| ==> ops[k].kind == CreateEnv
    ensures results == Results(ops, Requester(projectId, teamId), client, ResultFor, start)
    ensures calls == Requests(ops, Requester(projectId, teamId))
  {
    results, calls := [], [];
    for i := 0 to |ops|
      invariant calls == Requests(ops[..i], Requester(projectId, teamId))
      invariant |calls| == RequestCount(ops[..i], Requester(projectId, teamId))
      invariant results == Results(ops[..i], Requester(projectId, teamId), client, ResultFor, start)
    {
      results, calls := CreateStep(projectId, teamId, ops, client, start, i, results, calls);
    }
    assert ops[..|ops|] == ops;
  }

  /**
   * One turn of the `updateOperations` loop: operation i runs after operations ..i
   * made `calls` and recorded `results`; its request, if it makes one, is
   * number `start + |calls|`.
   */
  method UpdateStep(projectId: string, teamId: Option<string>, ops: seq<Operation>, client: nat -> ClientOutcome, start: nat,
    i: nat, results: seq<ApplyOperationResult>, calls: seq<ClientCall>)
    returns (results': seq<ApplyOperationResult>, calls': seq<ClientCall>)
    requires i < |ops| && ops[i].kind == UpdateEnv
    requires calls == Requests(ops[..i], Requester(projectId, teamId))
    requires |calls| == RequestCount(ops[..i], Requester(projectId, teamId))
    requires results == Results(ops[..i], Requester(projectId, teamId), client, ResultFor, start)
    ensures calls' == Requests(ops[..i + 1], Requester(projectId, teamId))
    ensures |calls'| == RequestCount(ops[..i + 1], Requester(projectId, teamId))
    ensures results' == Results(ops[..i + 1], Requester(projectId, teamId), client, ResultFor, start)
  {
    var operation := ops[i];
    var result, call;
    var sourceRowId := OperationRowId(operation, UpdatePrefix);
    if sourceRowId.None? || sourceRowId.value == "" || operation.after.None? {
      result := ApplyOperationResult(operation.id, Failed, None, Some(MissingUpdateRowMessage));
      call := None;
    } else {
      var after := operation.after.value;
      call := Some(EditProjectEnv(projectId, sourceRowId.value, teamId, after.key, after.value,
        after.target, after.customEnvironmentIds));
      match client(start + |calls|)
      case Resolved(_) =>
        result := ApplyOperationResult(operation.id, Done, None, None);
      case Rejected(error) =>
        result := ApplyOperationResult(operation.id, Failed, None, Some(SanitizeErrorMessage(error)));
    }
    assert call == Requester(projectId, teamId)(operation) && result == ResultFor(operation, client(start + |calls|));
    RunStep(ops, Requester(projectId, teamId), client, ResultFor, start, i, calls, results, call, result);
    calls' := calls + Listed(call);
    results' := results + [result];
  }

  /** The `updateOperations` loop; its first request is number `start`. */
  method ApplyUpdates(projectId: string, teamId: Option<string>, ops: seq<Operation>, client: nat -> ClientOutcome, start: nat)
    returns (results: seq<ApplyOperationResult>, calls: seq<ClientCall>)
    requires forall k :: 0 <= k < |ops| ==> ops[k].kind == UpdateEnv
    ensures results == Results(ops, Requester(projectId, teamId), client, ResultFor, start)
    ensures calls == Requests(ops, Requester(projectId, teamId))
  {
    results, calls := [], [];
    for i := 0 to |ops|
      invariant calls == Requests(ops[..i], Requester(projectId, teamId))
      invariant |calls| == RequestCount(ops[..i], Requester(projectId, teamId))
      invariant results == Results(ops[..i], Requester(projectId, teamId), client, ResultFor, start)
    {
      results, calls := UpdateStep(projectId, teamId, ops, client, start, i, results, calls);
    }
    assert ops[..|ops|] == ops;
  }

  /**
   * One turn of the `deleteOperations` loop: operation i runs after operations ..i
   * made `calls` and recorded `results`; its request, if it makes one, is
   * number `start + |calls|`.
   */
  method DeleteStep(projectId: string, teamId: Option<string>, ops: seq<Operation>, client: nat -> ClientOutcome, start: nat,
    i: nat, results: seq<ApplyOperationResult>, calls: seq<ClientCall>)
    returns (results': seq<ApplyOperationResult>, calls': seq<ClientCall>)
    requires i < |ops| && ops[i].kind == DeleteEnv
    requires calls == Requests(ops[..i], Requester(projectId, teamId))
    requires |calls| == RequestCount(ops[..i], Requester(projectId, teamId))
    requires results == Results(ops[..i], Requester(projectId, teamId), client, ResultFor, start)
    ensures calls' == Requests(ops[..i + 1], Requester(projectId, teamId))
    ensures |calls'| == RequestCount(ops[..i + 1], Requester(projectId, teamId))
    ensures results' == Results(ops[..i + 1], Requester(projectId, teamId), client, ResultFor, start)
  {
    var operation := ops[i];
    var result, call;
    var sourceRowId := OperationRowId(operation, DeletePrefix);
    if sourceRowId.None? || sourceRowId.value == "" {
      result := ApplyOperationResult(operation.id, Failed, None, Some(MissingDeleteRowMessage));
      call := None;
    } else {
      call := Some(RemoveProjectEnv(projectId, sourceRowId.value, teamId));
      match client(start + |calls|)
      case Resolved(_) =>
        result := ApplyOperationResult(operation.id, Done, None, None);
      case Rejected(error) =>
        result := ApplyOperationResult(operation.id, Failed, None, Some(SanitizeErrorMessage(error)));
    }
    assert call == Requester(projectId, teamId)(operation) && result == ResultFor(operation, client(start + |calls|));
    RunStep(ops, Requester(projectId, teamId), client, ResultFor, start, i, calls, results, call, result);
    calls' := calls + Listed(call);
    results' := results + [result];
  }

  /** The `deleteOperations` loop; its first request is number `start`. */
  method ApplyDeletes(projectId: string, teamId: Option<string>, ops: seq<Operation>, client: nat -> ClientOutcome, start: nat)
    returns (results: seq<ApplyOperationResult>, calls: seq<ClientCall>)
    requires forall k :: 0 <= k < |ops| ==> ops[k].kind == DeleteEnv
    ensures results == Results(ops, Requester(projectId, teamId), client, ResultFor, start)
    ensures calls == Requests(ops, Requester(projectId, teamId))
  {
    results, calls := [], [];
    for i := 0 to |ops|
      invariant calls == Requests(ops[..i], Requester(projectId, teamId))
      invariant |calls| == RequestCount(ops[..i], Requester(projectId, teamId))
      invariant results == Results(ops[..i], Requester(projectId, teamId), client, ResultFor, start)
    {
      results, calls := DeleteStep(projectId, teamId, ops, client, start, i, results, calls);
    }
    assert ops[..|ops|] == ops;
  }

  /** The `skippedOperations` loop; it makes no request. */
  method SkipRest(projectId: string, teamId: Option<string>, ops: seq<Operation>, client: nat -> ClientOutcome, start: nat)
    returns (results: seq<ApplyOperationResult>)
    requires forall k :: 0 <= k < |ops| ==> !Executable(ops[k].kind)
    ensures results == Results(ops, Requester(projectId, teamId), client, ResultFor, start)
    ensures Requests(ops, Requester(projectId, teamId)) == []
  {
    var requester := Requester(projectId, teamId);
    results := [];
    for i := 0 to |ops|
      invariant Requests(ops[..i], requester) == [] && RequestCount(ops[..i], requester) == 0
      invariant results == Results(ops[..i], requester, client, ResultFor, start)
    {
      var operation := ops[i];
      var result := ApplyOperationResult(operation.id, Skipped, None,
        Some("Operation kind " + OperationKindName(operation.kind) + " is not executable yet."));
      assert requester(operation).None? && result == ResultFor(operation, client(start));
      RunStep(ops, requester, client, ResultFor, start, i, [], results, None, result);
      results := results + [result];
    }
    assert ops[..|ops|] == ops;
  }

  /** `applyPlannedOperations`: the four passes one after the other, the requests numbered across them. */
  method ApplyPlannedOperations(client: nat -> ClientOutcome, projectId: string, teamId: Option<string>, operations: seq<Operation>)
    returns (data: ApplyResultData, calls: seq<ClientCall>)
    ensures data.accepted == |operations|
    ensures data.results == Results(ProcessingOrder(operations), Requester(projectId, teamId), client, ResultFor, 0)
    ensures calls == Requests(ProcessingOrder(operations), Requester(projectId, teamId))
  {
    var creates := OfKind(operations, CreateEnv);
    var updates := OfKind(operations, UpdateEnv);
    var deletes := OfKind(operations, DeleteEnv);
    var skipped := NotExecutable(operations);

    var createResults, createCalls := ApplyCreates(projectId, teamId, creates, client, 0);
    var updateStart := |createCalls|;
    var updateResults, updateCalls := ApplyUpdates(projectId, teamId, updates, client, updateStart);
    var deleteStart := updateStart + |updateCalls|;
    var deleteResults, deleteCalls := ApplyDeletes(projectId, teamId, deletes, client, deleteStart);
    var skipStart := deleteStart + |deleteCalls|;
    var skipResults := SkipRest(projectId, teamId, skipped, client, skipStart);

    PlannedPassesJoin(client, projectId, teamId, operations, creates, updates, deletes, skipped,
      updateStart, deleteStart, skipStart, createCalls, updateCalls, deleteCalls,
      createResults, updateResults, deleteResults, skipResults);
    data := ApplyResultData(|operations|, createResults + updateResults + deleteResults + skipResults);
    calls := createCalls + updateCalls + deleteCalls;
  }

  /** The four passes of `applyPlannedOperations` together are one run over the processing order. */
  lemma PlannedPassesJoin(client: nat -> ClientOutcome, projectId: string, teamId: Option<string>, operations: seq<Operation>,
    creates: seq<Operation>, updates: seq<Operation>, deletes: seq<Operation>, skipped: seq<Operation>,
    updateStart: nat, deleteStart: nat, skipStart: nat,
    createCalls: seq<ClientCall>, updateCalls: seq<ClientCall>, deleteCalls: seq<ClientCall>,
    createResults: seq<ApplyOperationResult>, updateResults: seq<ApplyOperationResult>,
    deleteResults: seq<ApplyOperationResult>, skipResults: seq<ApplyOperationResult>)
    requires creates == OfKind(operations, CreateEnv) && updates == OfKind(operations, UpdateEnv)
    requires deletes == OfKind(operations, DeleteEnv) && skipped == NotExecutable(operations)
    requires updateStart == |createCalls| && deleteStart == updateStart + |updateCalls|
    requires skipStart == deleteStart + |deleteCalls|
    requires createCalls == Requests(creates, Requester(projectId, teamId))
    requires updateCalls == Requests(updates, Requester(projectId, teamId))
    requires deleteCalls == Requests(deletes, Requester(projectId, teamId))
    requires Requests(skipped, Requester(projectId, teamId)) == []
    requires createResults == Results(creates, Requester(projectId, teamId), client, ResultFor, 0)
    requires updateResults == Results(updates, Requester(projectId, teamId), client, ResultFor, updateStart)
    requires deleteResults == Results(deletes, Requester(projectId, teamId), client, ResultFor, deleteStart)
    requires skipResults == Results(skipped, Requester(projectId, teamId), client, ResultFor, skipStart)
    ensures createResults + updateResults + deleteResults + skipResults
      == Results(ProcessingOrder(operations), Requester(projectId, teamId), client, ResultFor, 0)
    ensures createCalls + updateCalls + deleteCalls == Requests(ProcessingOrder(operations), Requester(projectId, teamId))
  {
    PassesJoin(creates, updates, deletes, skipped, Requester(projectId, teamId), client, ResultFor,
      updateStart, deleteStart, skipStart, createCalls, updateCalls, deleteCalls, createResults, updateResults, deleteResults, skipResults);
  }

  /**
   * Four passes run one after the other, each numbering its requests after
   * the earlier passes', together are one run of their concatenation.
   */
  lemma PassesJoin<A, C, O, R>(c: seq<A>, u: seq<A>, d: seq<A>, s: seq<A>, request: A -> Option<C>, oracle: nat -> O,
    result: (A, O) -> R, uStart: nat, dStart: nat, sStart: nat, cCalls: seq<C>, uCalls: seq<C>, dCalls: seq<C>,
    cResults: seq<R>, uResults: seq<R>, dResults: seq<R>, sResults: seq<R>)
    requires cCalls == Requests(c, request) && uCalls == Requests(u, request) && dCalls == Requests(d, request)
    requires Requests(s, request) == []
    requires uStart == |cCalls| && dStart == uStart + |uCalls| && sStart == dStart + |dCalls|
    requires cResults == Results(c, request, oracle, result, 0)
    requires uResults == Results(u, request, oracle, result, uStart)
    requires dResults == Results(d, request, oracle, result, dStart)
    requires sResults == Results(s, request, oracle, result, sStart)
    ensures cResults + uResults + dResults + sResults == Results(c + u + d + s, request, oracle, result, 0)
    ensures cCalls + uCalls + dCalls == Requests(c + u + d + s, request)
  {
    ThreeRuns(c, u, d, request, oracle, result, uStart, dStart, cCalls, uCalls, dCalls, cResults, uResults, dResults);
    ThenRun(c + u + d, s, request, oracle, result, 0, cCalls + uCalls + dCalls, Requests(s, request),
      cResults + uResults + dResults, sResults, sStart);
    assert cCalls + uCalls + dCalls + [] == cCalls + uCalls + dCalls;
  }

  lemma ThreeRuns<A, C, O, R>(c: seq<A>, u: seq<A>, d: seq<A>, request: A -> Option<C>, oracle: nat -> O,
    result: (A, O) -> R, uStart: nat, dStart: nat, cCalls: seq<C>, uCalls: seq<C>, dCalls: seq<C>,
    cResults: seq<R>, uResults: seq<R>, dResults: seq<R>)
    requires cCalls == Requests(c, request) && uCalls == Requests(u, request) && dCalls == Requests(d, request)
    requires uStart == |cCalls| && dStart == uStart + |uCalls|
    requires cResults == Results(c, request, oracle, result, 0)
    requires uResults == Results(u, request, oracle, result, uStart)
    requires dResults == Results(d, request, oracle, result, dStart)
    ensures cResults + uResults + dResults == Results(c + u + d, request, oracle, result, 0)
    ensures cCalls + uCalls + dCalls == Requests(c + u + d, request)
  {
    ThenRun(c, u, request, oracle, result, 0, cCalls, uCalls, cResults, uResults, uStart);
    ThenRun(c + u, d, request, oracle, result, 0, cCalls + uCalls, dCalls, cResults + uResults, dResults, dStart);
  }

  // ---------------------------------------------------------------------
  // Properties
  // ---------------------------------------------------------------------

  /**
   * Result k of an apply belongs to operation k of the processing order: it
   * is done exactly when that operation sends a request and the request
   * numbered by the requests before it resolves, and skipped exactly when its
   * kind has no pass.
   */
  lemma ResultOfOperation(projectId: string, teamId: Option<string>, ops: seq<Operation>, client: nat -> ClientOutcome, k: nat)
    requires k < |ProcessingOrder(ops)|
    ensures Results(ProcessingOrder(ops), Requester(projectId, teamId), client, ResultFor, 0)[k].operationId
      == ProcessingOrder(ops)[k].id
    ensures Results(ProcessingOrder(ops), Requester(projectId, teamId), client, ResultFor, 0)[k].status == Done
      <==> (SendsRequest(ProcessingOrder(ops)[k])
        && client(RequestCount(ProcessingOrder(ops)[..k], Requester(projectId, teamId))).Resolved?)
    ensures Results(ProcessingOrder(ops), Requester(projectId, teamId), client, ResultFor, 0)[k].status == Skipped
      <==> !Executable(ProcessingOrder(ops)[k].kind)
  {
    ResultInOrder(Requester(projectId, teamId), ProcessingOrder(ops), client, k);
  }

  /** The same for any order of operations. */
  lemma ResultInOrder(request: Operation -> Option<ClientCall>, order: seq<Operation>, client: nat -> ClientOutcome, k: nat)
    requires k < |order|
    ensures Results(order, request, client, ResultFor, 0)[k].operationId == order[k].id
    ensures Results(order, request, client, ResultFor, 0)[k].status == Done
      <==> (SendsRequest(order[k]) && client(RequestCount(order[..k], request)).Resolved?)
    ensures Results(order, request, client, ResultFor, 0)[k].status == Skipped <==> !Executable(order[k].kind)
  {
    ResultAt(request, order, client, k);
    ResultStatus(order[k], client(RequestCount(order[..k], request)));
  }

  lemma ResultAt(request: Operation -> Option<ClientCall>, order: seq<Operation>, client: nat -> ClientOutcome, k: nat)
    requires k < |order|
    ensures Results(order, request, client, ResultFor, 0)[k] == ResultFor(order[k], client(RequestCount(order[..k], request)))
  {
    FirstRunAt(order, request, client, ResultFor, k);
  }

  lemma ResultStatus(op: Operation, outcome: ClientOutcome)
    ensures ResultFor(op, outcome).operationId == op.id
    ensures ResultFor(op, outcome).status == Done <==> SendsRequest(op) && outcome.Resolved?
    ensures ResultFor(op, outcome).status == Skipped <==> !Executable(op.kind)
  {
    ResultClassification(op, outcome);
  }

  /** Every operation lands in exactly one of the four passes. */
  lemma {:induction false} ProcessingOrderPermutes(ops: seq<Operation>)
    ensures multiset(ProcessingOrder(ops)) == multiset(ops)
    decreases |ops|
  {
    if ops != [] {
      var h, t := ops[0], ops[1..];
      ProcessingOrderPermutes(t);
      var order, rest := ProcessingOrder(ops), ProcessingOrder(t);
      assert multiset(order) == multiset(OfKind(ops, CreateEnv)) + multiset(OfKind(ops, UpdateEnv))
        + multiset(OfKind(ops, DeleteEnv)) + multiset(NotExecutable(ops));
      assert multiset(rest) == multiset(OfKind(t, CreateEnv)) + multiset(OfKind(t, UpdateEnv))
        + multiset(OfKind(t, DeleteEnv)) + multiset(NotExecutable(t));
      PassHeads(ops);
      assert ops == [h] + t;
    }
  }

  /** The first operation goes to exactly one of the four passes. */
  lemma PassHeads(ops: seq<Operation>)
    requires ops != []
    ensures multiset(OfKind(ops, CreateEnv)) + multiset(OfKind(ops, UpdateEnv))
        + multiset(OfKind(ops, DeleteEnv)) + multiset(NotExecutable(ops))
      == multiset{ops[0]} + multiset(OfKind(ops[1..], CreateEnv)) + multiset(OfKind(ops[1..], UpdateEnv))
        + multiset(OfKind(ops[1..], DeleteEnv)) + multiset(NotExecutable(ops[1..]))
  {
  }

  /** One result per operation. */
  lemma ResultPerOperation(ops: seq<Operation>)
    ensures |ProcessingOrder(ops)| == |ops|
  {
    ProcessingOrderPermutes(ops);
    assert |multiset(ProcessingOrder(ops))| == |multiset(ops)|;
  }

  function PassRank(kind: OperationKind): nat
  {
    match kind
    case CreateEnv => 0
    case UpdateEnv => 1
    case DeleteEnv => 2
    case _ => 3
  }

  /** Creates are processed before updates, updates before deletes, deletes before everything else. */
  lemma PassesInOrder(ops: seq<Operation>, i: nat, j: nat)
    requires i < j < |ProcessingOrder(ops)|
    ensures PassRank(ProcessingOrder(ops)[i].kind) <= PassRank(ProcessingOrder(ops)[j].kind)
  {
    var c, u, d, s := OfKind(ops, CreateEnv), OfKind(ops, UpdateEnv), OfKind(ops, DeleteEnv), NotExecutable(ops);
    var order := ProcessingOrder(ops);
    assert order == c + u + d + s;
    assert forall k :: 0 <= k < |c| ==> order[k] == c[k];
    assert forall k :: |c| <= k < |c| + |u| ==> order[k] == u[k - |c|];
    assert forall k :: |c| + |u| <= k < |c| + |u| + |d| ==> order[k] == d[k - |c| - |u|];
    assert forall k :: |c| + |u| + |d| <= k < |order| ==> order[k] == s[k - |c| - |u| - |d|];
  }

  /** Within a pass, operations keep their input order: a pass is the subsequence of one kind. */
  lemma {:induction false} OfKindExact(ops: seq<Operation>, kind: OperationKind, op: Operation)
    ensures op in OfKind(ops, kind) <==> op in ops && op.kind == kind
    decreases |ops|
  {
    if ops != [] {
      OfKindExact(ops[1..], kind, op);
      assert ops == [ops[0]] + ops[1..];
    }
  }

  /** An update id as the planner writes it ("update:" then the row id) never starts with "update-row:". */
  lemma PlannerUpdateIdRejected(op: Operation, rowId: string, outcome: ClientOutcome)
    requires op.kind == UpdateEnv && op.id == "update:" + rowId
    ensures !SendsRequest(op)
    ensures ResultFor(op, outcome) ==
      ApplyOperationResult(op.id, Failed, None, Some(MissingUpdateRowMessage))
  {
    assert op.id[6] == ':' && UpdatePrefix[6] == '-';
    ResultClassification(op, outcome);
  }

  /** A delete id as the planner writes it ("delete:" then the row id) never starts with "delete-row:". */
  lemma PlannerDeleteIdRejected(op: Operation, rowId: string, outcome: ClientOutcome)
    requires op.kind == DeleteEnv && op.id == "delete:" + rowId
    ensures !SendsRequest(op)
    ensures ResultFor(op, outcome) ==
      ApplyOperationResult(op.id, Failed, None, Some(MissingDeleteRowMessage))
  {
    assert op.id[6] == ':' && DeletePrefix[6] == '-';
    ResultClassification(op, outcome);
  }
}
