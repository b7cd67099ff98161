/**
 * Turning planned operations into CLI actions
 * (src/lib/vercel-cli/apply-builder.ts): one `env add` per target of a
 * create or update, one `env rm` per target of a delete, and a skip with a
 * reason for everything the CLI path cannot do; then one deterministic
 * order over all of them.
 */
module ApplyBuilder {
  import opened Wrappers
  import opened Sorting
  import opened EnvTypes

  datatype ActionKind = Add | Remove | Skip

  /** `CliApplyAction`. */
  datatype CliApplyAction = CliApplyAction(
    operationId: string,
    actionKind: ActionKind,
    key: Option<string>,
    environment: Option<BuiltIn>,
    value: Option<string>,
    reason: Option<string>)

  /** The shape every action has: an add carries key, environment and value; a remove key and environment; a skip only a reason. */
  predicate WellFormedAction(a: CliApplyAction)
  {
    match a.actionKind
    case Add => a.key.Some? && a.environment.Some? && a.value.Some? && a.reason.None?
    case Remove => a.key.Some? && a.environment.Some? && a.value.None? && a.reason.None?
    case Skip => a.environment.None? && a.value.None? && a.reason.Some?
  }

  function SkipAction(operationId: string, key: Option<string>, reason: string): CliApplyAction
  {
    CliApplyAction(operationId, Skip, key, None, None, Some(reason))
  }

  /** `customEnvironmentIds?.length ?? 0) > 0`. */
  predicate HasCustomIds(s: OpSnapshot)
  {
    s.customEnvironmentIds.Some? && |s.customEnvironmentIds.value| > 0
  }

  /** `!target || target.length === 0`. */
  predicate NoTarget(s: OpSnapshot)
  {
    s.target.None? || |s.target.value| == 0
  }

  /** `mapSetLikeOperation`. */
  function MapSetLikeOperation(op: Operation): (r: seq<CliApplyAction>)
    ensures |r| >= 1
    ensures forall i :: 0 <= i < |r| ==> r[i].operationId == op.id && WellFormedAction(r[i])
    ensures r[0].actionKind == Add <==>
      op.after.Some? && op.after.value.value.Some? && !HasCustomIds(op.after.value) && !NoTarget(op.after.value)
    ensures r[0].actionKind == Add ==>
      |r| == |op.after.value.target.value|
      && forall i :: 0 <= i < |r| ==> r[i] == CliApplyAction(op.id, Add, Some(op.after.value.key),
           Some(op.after.value.target.value[i]), op.after.value.value, None)
    ensures r[0].actionKind != Add ==> |r| == 1 && r[0].actionKind == Skip
    ensures r[0].reason == Some("missing_after_value") <==> op.after.None? || op.after.value.value.None?
    ensures op.after.None? ==> r == [SkipAction(op.id, None, "missing_after_value")]
    ensures op.after.Some? && op.after.value.value.None? ==>
      r == [SkipAction(op.id, Some(op.after.value.key), "missing_after_value")]
    ensures op.after.Some? && op.after.value.value.Some? && HasCustomIds(op.after.value) ==>
      r == [SkipAction(op.id, Some(op.after.value.key), "unsupported_custom_environment")]
    ensures op.after.Some? && op.after.value.value.Some? && !HasCustomIds(op.after.value) && NoTarget(op.after.value) ==>
      r == [SkipAction(op.id, Some(op.after.value.key), "missing_target_environment")]
  {
    match op.after
    case None => [SkipAction(op.id, None, "missing_after_value")]
    case Some(after) =>
      if after.value.None? then [SkipAction(op.id, Some(after.key), "missing_after_value")]
      else if HasCustomIds(after) then [SkipAction(op.id, Some(after.key), "unsupported_custom_environment")]
      else if NoTarget(after) then [SkipAction(op.id, Some(after.key), "missing_target_environment")]
      else
        var target := after.target.value;
        seq(|target|, i requires 0 <= i < |target| => CliApplyAction(op.id, Add, Some(after.key), Some(target[i]), after.value, None))
  }

  /** `mapDeleteOperation`. */
  function MapDeleteOperation(op: Operation): (r: seq<CliApplyAction>)
    ensures |r| >= 1
    ensures forall i :: 0 <= i < |r| ==> r[i].operationId == op.id && WellFormedAction(r[i])
    ensures r[0].actionKind == Remove <==>
      op.before.Some? && !HasCustomIds(op.before.value) && !NoTarget(op.before.value)
    ensures r[0].actionKind == Remove ==>
      |r| == |op.before.value.target.value|
      && forall i :: 0 <= i < |r| ==> r[i] == CliApplyAction(op.id, Remove, Some(op.before.value.key),
           Some(op.before.value.target.value[i]), None, None)
    ensures r[0].actionKind != Remove ==> |r| == 1 && r[0].actionKind == Skip
    ensures r[0].reason == Some("missing_before_snapshot") <==> op.before.None?
    ensures op.before.None? ==> r == [SkipAction(op.id, None, "missing_before_snapshot")]
    ensures op.before.Some? && HasCustomIds(op.before.value) ==>
      r == [SkipAction(op.id, Some(op.before.value.key), "unsupported_custom_environment")]
    ensures op.before.Some? && !HasCustomIds(op.before.value) && NoTarget(op.before.value) ==>
      r == [SkipAction(op.id, Some(op.before.value.key), "missing_target_environment")]
  {
    match op.before
    case None => [SkipAction(op.id, None, "missing_before_snapshot")]
    case Some(before) =>
      if HasCustomIds(before) then [SkipAction(op.id, Some(before.key), "unsupported_custom_environment")]
      else if NoTarget(before) then [SkipAction(op.id, Some(before.key), "missing_target_environment")]
      else
        var target := before.target.value;
        seq(|target|, i requires 0 <= i < |target| => CliApplyAction(op.id, Remove, Some(before.key), Some(target[i]), None, None))
  }

  /** `operation.after?.key ?? operation.before?.key ?? null`. */
  function EitherKey(op: Operation): Option<string>
  {
    if op.after.Some? then Some(op.after.value.key)
    else if op.before.Some? then Some(op.before.value.key)
    else None
  }

  /** The `flatMap` callback: the actions of one operation. */
  function ActionsFor(op: Operation): (r: seq<CliApplyAction>)
    ensures |r| >= 1
    ensures forall i :: 0 <= i < |r| ==> r[i].operationId == op.id && WellFormedAction(r[i])
    ensures op.kind in {RenameKey, Retarget} ==>
      r == [SkipAction(op.id, EitherKey(op), "unsupported_operation_kind")]
    ensures (exists i :: 0 <= i < |r| && r[i].actionKind == Add) ==> op.kind in {CreateEnv, UpdateEnv}
    ensures (exists i :: 0 <= i < |r| && r[i].actionKind == Remove) ==> op.kind == DeleteEnv
  {
    if op.kind == CreateEnv || op.kind == UpdateEnv then MapSetLikeOperation(op)
    else if op.kind == DeleteEnv then MapDeleteOperation(op)
    else [SkipAction(op.id, EitherKey(op), "unsupported_operation_kind")]
  }

  /** `operations.flatMap(...)`, before the sort. */
  function FlatActions(ops: seq<Operation>): (r: seq<CliApplyAction>)
  {
    if ops == [] then [] else ActionsFor(ops[0]) + FlatActions(ops[1..])
  }

  function KindRank(k: ActionKind): int
  {
    match k
    case Add => 0
    case Remove => 1
    case Skip => 2
  }

  /** `toDeterministicOrder` as a key: kind, then key, then environment name, then operation id. */
  function ActionKey(a: CliApplyAction): seq<SortAtom>
  {
    [IntAtom(KindRank(a.actionKind)),
     StrAtom(a.key.GetOr("")),
     StrAtom(if a.environment.Some? then BuiltInName(a.environment.value) else ""),
     StrAtom(a.operationId)]
  }

  /** `buildCliApplyActions`. */
  function BuildCliApplyActions(ops: seq<Operation>): (r: seq<CliApplyAction>)
    ensures Sorted(r, ActionKey)
    ensures multiset(r) == multiset(FlatActions(ops))
  {
    SortBySorted(FlatActions(ops), ActionKey);
    SortBy(FlatActions(ops), ActionKey)
  }

  // ---------------------------------------------------------------------
  // Properties
  // ---------------------------------------------------------------------

  /** The number of actions each operation yields, added up. */
  function ActionCount(ops: seq<Operation>): nat
  {
    if ops == [] then 0 else |ActionsFor(ops[0])| + ActionCount(ops[1..])
  }

  /** The flattened list has every action of every operation. */
  lemma {:induction false} FlatActionsCount(ops: seq<Operation>)
    ensures |FlatActions(ops)| == ActionCount(ops)
    decreases |ops|
  {
    if ops != [] {
      FlatActionsCount(ops[1..]);
    }
  }

  /** An action belongs to the operations exactly when one of them yields it. */
  lemma {:induction false} FlatActionsExact(ops: seq<Operation>, a: CliApplyAction)
    ensures a in FlatActions(ops) <==> exists i :: 0 <= i < |ops| && a in ActionsFor(ops[i])
    decreases |ops|
  {
    if ops != [] {
      FlatActionsExact(ops[1..], a);
      if exists i :: 0 <= i < |ops[1..]| && a in ActionsFor(ops[1..][i]) {
        var i :| 0 <= i < |ops[1..]| && a in ActionsFor(ops[1..][i]);
        assert ops[1..][i] == ops[i + 1];
      }
      if exists i :: 0 <= i < |ops| && a in ActionsFor(ops[i]) {
        var i :| 0 <= i < |ops| && a in ActionsFor(ops[i]);
        if i > 0 {
          assert ops[i] == ops[1..][i - 1];
        }
      }
    }
  }

  /** Sorting loses and invents nothing: the built list has as many actions as the operations yield. */
  lemma BuildCount(ops: seq<Operation>)
    ensures |BuildCliApplyActions(ops)| == ActionCount(ops)
  {
    var r := BuildCliApplyActions(ops);
    assert |r| == |multiset(r)| == |multiset(FlatActions(ops))| == |FlatActions(ops)|;
    FlatActionsCount(ops);
  }

  /** An action is built exactly when some operation yields it. */
  lemma BuildMembers(ops: seq<Operation>, a: CliApplyAction)
    ensures a in BuildCliApplyActions(ops) <==> exists i :: 0 <= i < |ops| && a in ActionsFor(ops[i])
  {
    var r := BuildCliApplyActions(ops);
    assert a in r <==> a in multiset(r);
    assert a in FlatActions(ops) <==> a in multiset(FlatActions(ops));
    FlatActionsExact(ops, a);
  }

  /** Every built action is well formed and carries the id of an operation. */
  lemma BuildWellFormed(ops: seq<Operation>, a: CliApplyAction)
    requires a in BuildCliApplyActions(ops)
    ensures WellFormedAction(a)
    ensures exists i :: 0 <= i < |ops| && a.operationId == ops[i].id
  {
    BuildMembers(ops, a);
    var i :| 0 <= i < |ops| && a in ActionsFor(ops[i]);
    var k :| 0 <= k < |ActionsFor(ops[i])| && ActionsFor(ops[i])[k] == a;
  }

  /** Every operation has at least one action carrying its id. */
  lemma BuildCoversOperations(ops: seq<Operation>, i: nat)
    requires i < |ops|
    ensures exists a :: a in BuildCliApplyActions(ops) && a.operationId == ops[i].id
  {
    var a := ActionsFor(ops[i])[0];
    assert a in ActionsFor(ops[i]);
    BuildMembers(ops, a);
  }

  /** Adds come before removes, and removes before skips. */
  lemma AddsBeforeRemovesBeforeSkips(ops: seq<Operation>, i: nat, j: nat)
    requires i < j < |BuildCliApplyActions(ops)|
    ensures KindRank(BuildCliApplyActions(ops)[i].actionKind) <= KindRank(BuildCliApplyActions(ops)[j].actionKind)
  {
    var r := BuildCliApplyActions(ops);
    assert KeyLe(ActionKey(r[i]), ActionKey(r[j]));
  }

  /** A rename or a retarget is never sent to the CLI: it becomes one skip. */
  lemma RenameAndRetargetSkipped(op: Operation)
    requires op.kind == RenameKey || op.kind == Retarget
    ensures ActionsFor(op) == [SkipAction(op.id, EitherKey(op), "unsupported_operation_kind")]
  {
  }
}
