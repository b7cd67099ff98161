/**
 * Running CLI actions one after the other
 * (src/lib/vercel-cli/apply-executor.ts). The runner is an outcome oracle:
 * the n-th command handed to it gets `runner(n)`, and the method also
 * returns the commands in the order they were handed over.
 */
module ApplyExecutor {
  import opened Wrappers
  import opened EnvTypes
  import opened CliRunner
  import opened ApplyBuilder
  import opened OracleRuns

  /** `CliApplyActionResult`. */
  datatype CliApplyActionResult = CliApplyActionResult(
    operationId: string,
    actionKind: ActionKind,
    status: ApplyStatus,
    message: Option<string>)

  /** `timeoutMs: 30_000` on every command. */
  const ActionTimeoutMs: nat := 30000

  /** `!action.key || !action.environment`: a null or empty key, or no environment. */
  predicate InvalidAction(a: CliApplyAction)
  {
    a.key.None? || |a.key.value| == 0 || a.environment.None?
  }

  /** The command the runner gets for an action, or None when it is never called for it. */
  function CommandFor(workspacePath: string, scope: string, a: CliApplyAction): (r: Option<Command>)
    ensures r.Some? <==> a.actionKind != Skip && !InvalidAction(a)
    ensures r.Some? ==> (r.value.executable == "vercel" && r.value.cwd == Some(workspacePath)
      && r.value.timeoutMs == ActionTimeoutMs && |r.value.args| == 8
      && r.value.args[2] == a.key.value && r.value.args[3] == BuiltInName(a.environment.value)
      && r.value.args[4..6] == ["--scope", scope])
    ensures r.Some? && a.actionKind == Add ==>
      r.value.args[..2] == ["env", "add"] && r.value.args[6..] == ["--force", "--no-color"]
      && r.value.stdinText == Some(a.value.GetOr("") + "\n")
    ensures r.Some? && a.actionKind == Remove ==>
      r.value.args[..2] == ["env", "rm"] && r.value.args[6..] == ["-y", "--no-color"]
      && r.value.stdinText.None?
  {
    if a.actionKind == Skip || InvalidAction(a) then None
    else
      var key, env := a.key.value, BuiltInName(a.environment.value);
      if a.actionKind == Add then
        Some(Command("vercel", ["env", "add", key, env, "--scope", scope, "--force", "--no-color"],
          Some(workspacePath), ActionTimeoutMs, Some(a.value.GetOr("") + "\n")))
      else
        Some(Command("vercel", ["env", "rm", key, env, "--scope", scope, "-y", "--no-color"],
          Some(workspacePath), ActionTimeoutMs, None))
  }

  /**
   * The result recorded for one action, given the outcome the runner would
   * produce if it were called (ignored when it is not).
   */
  function ResultFor(a: CliApplyAction, outcome: Outcome): (r: CliApplyActionResult)
    ensures r.operationId == a.operationId && r.actionKind == a.actionKind
    ensures r.status == Skipped <==> a.actionKind == Skip
    ensures r.status == Done <==> a.actionKind != Skip && !InvalidAction(a) && outcome.Succeeded?
    ensures a.actionKind == Skip ==> r.message == a.reason
    ensures a.actionKind != Skip && InvalidAction(a) ==> r == CliApplyActionResult(a.operationId, a.actionKind, Failed, Some("invalid_action"))
    ensures a.actionKind != Skip ==> (r.message.None? <==> r.status == Done)
    ensures r.status == Failed && !InvalidAction(a) ==>
      r.message == Some(if outcome.CliFailed? then outcome.message else "add_operation_failed")
  {
    if a.actionKind == Skip then CliApplyActionResult(a.operationId, a.actionKind, Skipped, a.reason)
    else if InvalidAction(a) then CliApplyActionResult(a.operationId, a.actionKind, Failed, Some("invalid_action"))
    else
      match outcome
      case Succeeded(_, _) => CliApplyActionResult(a.operationId, a.actionKind, Done, None)
      case CliFailed(_, message) => CliApplyActionResult(a.operationId, a.actionKind, Failed, Some(message))
      case OtherError => CliApplyActionResult(a.operationId, a.actionKind, Failed, Some("add_operation_failed"))
  }

  /** The runner's command for each action, as a function value for the oracle runs. */
  function Commander(workspacePath: string, scope: string): CliApplyAction -> Option<Command>
  {
    a => CommandFor(workspacePath, scope, a)
  }

  /**
   * One turn of the loop in `executeCliAddActions`: action i runs after
   * actions ..i handed `calls` to the runner and recorded `results`; its
   * command, if it has one, is call number |calls|.
   */
  method ExecuteStep(workspacePath: string, scope: string, actions: seq<CliApplyAction>, runner: nat -> Outcome, i: nat,
    results: seq<CliApplyActionResult>, calls: seq<Command>)
    returns (results': seq<CliApplyActionResult>, calls': seq<Command>)
    requires i < |actions|
    requires calls == Requests(actions[..i], Commander(workspacePath, scope))
    requires |calls| == RequestCount(actions[..i], Commander(workspacePath, scope))
    requires results == Results(actions[..i], Commander(workspacePath, scope), runner, ResultFor, 0)
    ensures calls' == Requests(actions[..i + 1], Commander(workspacePath, scope))
    ensures |calls'| == RequestCount(actions[..i + 1], Commander(workspacePath, scope))
    ensures results' == Results(actions[..i + 1], Commander(workspacePath, scope), runner, ResultFor, 0)
  {
    var action := actions[i];
    var result, command;
    if action.actionKind == Skip {
      result := CliApplyActionResult(action.operationId, action.actionKind, Skipped, action.reason);
      command := None;
    } else if action.key.None? || |action.key.value| == 0 || action.environment.None? {
      result := CliApplyActionResult(action.operationId, action.actionKind, Failed, Some("invalid_action"));
      command := None;
    } else {
      var key, env := action.key.value, BuiltInName(action.environment.value);
      if action.actionKind == Add {
        command := Some(Command("vercel", ["env", "add", key, env, "--scope", scope, "--force", "--no-color"],
          Some(workspacePath), ActionTimeoutMs, Some(action.value.GetOr("") + "\n")));
      } else {
        command := Some(Command("vercel", ["env", "rm", key, env, "--scope", scope, "-y", "--no-color"],
          Some(workspacePath), ActionTimeoutMs, None));
      }
      match runner(|calls|)
      case Succeeded(_, _) =>
        result := CliApplyActionResult(action.operationId, action.actionKind, Done, None);
      case CliFailed(_, message) =>
        result := CliApplyActionResult(action.operationId, action.actionKind, Failed, Some(message));
      case OtherError =>
        result := CliApplyActionResult(action.operationId, action.actionKind, Failed, Some("add_operation_failed"));
    }
    assert command == Commander(workspacePath, scope)(action) && result == ResultFor(action, runner(0 + |calls|));
    RunStep(actions, Commander(workspacePath, scope), runner, ResultFor, 0, i, calls, results, command, result);
    calls' := calls + Listed(command);
    results' := results + [result];
  }

  /** `executeCliAddActions`: the actions run one after the other, each call numbered by the calls before it. */
  method ExecuteCliAddActions(workspacePath: string, scope: string, actions: seq<CliApplyAction>, runner: nat -> Outcome)
    returns (results: seq<CliApplyActionResult>, calls: seq<Command>)
    ensures results == Results(actions, Commander(workspacePath, scope), runner, ResultFor, 0)
    ensures calls == Requests(actions, Commander(workspacePath, scope))
  {
    results, calls := [], [];
    for i := 0 to |actions|
      invariant calls == Requests(actions[..i], Commander(workspacePath, scope))
      invariant |calls| == RequestCount(actions[..i], Commander(workspacePath, scope))
      invariant results == Results(actions[..i], Commander(workspacePath, scope), runner, ResultFor, 0)
    {
      results, calls := ExecuteStep(workspacePath, scope, actions, runner, i, results, calls);
    }
    assert actions[..|actions|] == actions;
  }

  // ---------------------------------------------------------------------
  // Properties
  // ---------------------------------------------------------------------

  /** The value reaches the CLI only through stdin: the arguments are the same whatever the value is. */
  lemma ValueNeverInArgs(workspacePath: string, scope: string, a: CliApplyAction, other: Option<string>)
    requires CommandFor(workspacePath, scope, a).Some?
    ensures CommandFor(workspacePath, scope, a.(value := other)).Some?
    ensures CommandFor(workspacePath, scope, a.(value := other)).value.args == CommandFor(workspacePath, scope, a).value.args
  {
  }

  /** Whether the runner is called for an action: an add or a remove with a key and an environment. */
  predicate Runnable(a: CliApplyAction)
  {
    a.actionKind != Skip && !InvalidAction(a)
  }

  /** The number of actions the runner is called for. */
  function RunnableCount(actions: seq<CliApplyAction>): nat
  {
    if actions == [] then 0 else (if Runnable(actions[0]) then 1 else 0) + RunnableCount(actions[1..])
  }

  /** One runner call per runnable action, and none for skips and invalid actions. */
  lemma CallCount(workspacePath: string, scope: string, actions: seq<CliApplyAction>)
    ensures |Requests(actions, Commander(workspacePath, scope))| == RunnableCount(actions)
  {
    RequestsCounted(actions, Commander(workspacePath, scope));
    RequestCountRunnable(workspacePath, scope, actions);
  }

  lemma {:induction false} RequestCountRunnable(workspacePath: string, scope: string, actions: seq<CliApplyAction>)
    ensures RequestCount(actions, Commander(workspacePath, scope)) == RunnableCount(actions)
    decreases |actions|
  {
    if actions != [] {
      RequestCountRunnable(workspacePath, scope, actions[1..]);
    }
  }

  /** Call n is the command of the runnable action after n runnable ones: the runner sees the actions in order. */
  lemma CallOfAction(workspacePath: string, scope: string, actions: seq<CliApplyAction>, i: nat)
    requires i < |actions| && Runnable(actions[i])
    ensures RunnableCount(actions[..i]) < |Requests(actions, Commander(workspacePath, scope))|
    ensures Requests(actions, Commander(workspacePath, scope))[RunnableCount(actions[..i])]
      == CommandFor(workspacePath, scope, actions[i]).value
  {
    RequestsInOrder(actions, Commander(workspacePath, scope), i);
    RequestCountRunnable(workspacePath, scope, actions[..i]);
  }

  /** Result k is action k's own, from the outcome of the runner call numbered by the runnable actions before it. */
  lemma ResultOfAction(workspacePath: string, scope: string, actions: seq<CliApplyAction>, runner: nat -> Outcome, k: nat)
    requires k < |actions|
    ensures Results(actions, Commander(workspacePath, scope), runner, ResultFor, 0)[k]
      == ResultFor(actions[k], runner(RunnableCount(actions[..k])))
  {
    ResultsAt(actions, Commander(workspacePath, scope), runner, ResultFor, 0, k);
    RequestCountRunnable(workspacePath, scope, actions[..k]);
  }

  /** Both actions of a two-action add-then-remove run succeed, and the runner sees the add first with the value on stdin. */
  lemma AddThenRemove(workspacePath: string, scope: string, add: CliApplyAction, remove: CliApplyAction, runner: nat -> Outcome)
    requires add.actionKind == Add && !InvalidAction(add) && add.value == Some("value-a")
    requires remove.actionKind == Remove && !InvalidAction(remove)
    requires runner(0).Succeeded? && runner(1).Succeeded?
    ensures Requests([add, remove], Commander(workspacePath, scope)) ==
      [CommandFor(workspacePath, scope, add).value, CommandFor(workspacePath, scope, remove).value]
    ensures Requests([add, remove], Commander(workspacePath, scope))[0].stdinText == Some("value-a\n")
    ensures Requests([add, remove], Commander(workspacePath, scope))[1].stdinText.None?
    ensures forall k :: 0 <= k < 2 ==> Results([add, remove], Commander(workspacePath, scope), runner, ResultFor, 0)[k].status == Done
  {
    var c := Commander(workspacePath, scope);
    assert c(add) == CommandFor(workspacePath, scope, add) && c(remove) == CommandFor(workspacePath, scope, remove);
    assert [add, remove][1..] == [remove];
    assert [remove][1..] == [];
    assert Requests([remove], c) == [CommandFor(workspacePath, scope, remove).value];
    assert add.value.GetOr("") + "\n" == "value-a\n";
    assert Results([add, remove], c, runner, ResultFor, 0)
      == [ResultFor(add, runner(0)), ResultFor(remove, runner(1))];
  }
}
