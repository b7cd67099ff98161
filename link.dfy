/**
 * Linking a workspace folder to a project with `vercel link`
 * (src/lib/vercel-cli/link.ts), at most once per workspace, scope and
 * project: a cache of the keys already linked skips the command. The
 * runner is an outcome supplied from outside; a run that throws leaves the
 * key out of the cache.
 */
module Link {
  import opened Wrappers
  import opened CliRunner

  /** The timeout of the `vercel link` command, in milliseconds. */
  const LinkTimeoutMs: nat := 20000

  /** `linkedKey`: a null scope is written as `personal`. */
  function LinkedKey(workspacePath: string, project: string, scope: Option<string>): string
  {
    workspacePath + "::" + (if scope.Some? then scope.value else "personal") + "::" + project
  }

  /** The arguments of the link command; `--scope` only for a non-empty scope. */
  function LinkArgs(project: string, scope: Option<string>): (args: seq<string>)
  {
    ["link", "--yes", "--project", project, "--no-color"]
      + (if scope.Some? && scope.value != "" then ["--scope", scope.value] else [])
  }

  /** The command `linkVercelProjectWorkspace` runs, in the workspace folder. */
  function LinkCommand(workspacePath: string, project: string, scope: Option<string>): Command
  {
    Command("vercel", LinkArgs(project, scope), Some(workspacePath), LinkTimeoutMs, None)
  }

  /** How a call ends: without running anything, after a run that returned, or with the runner's error. */
  datatype LinkResult =
    | AlreadyLinked
    | Linked(command: Command)
    | LinkFailed(command: Command, error: Outcome)

  /**
   * `linkVercelProjectWorkspace` on the cache `linked`, with `outcome` the
   * outcome of the run if there is one: its result and the cache it leaves.
   */
  function LinkStep(linked: set<string>, workspacePath: string, project: string, scope: Option<string>, outcome: Outcome)
    : (set<string>, LinkResult)
  {
    var key := LinkedKey(workspacePath, project, scope);
    if key in linked then (linked, AlreadyLinked)
    else
      var command := LinkCommand(workspacePath, project, scope);
      if outcome.Succeeded? then (linked + {key}, Linked(command))
      else (linked, LinkFailed(command, outcome))
  }

  /** The cache of linked workspaces (`linkedWorkspaceKeys`). */
  class LinkCache {
    var linked: set<string>

    constructor()
      ensures linked == {}
    {
      linked := {};
    }

    method LinkVercelProjectWorkspace(workspacePath: string, project: string, scope: Option<string>, outcome: Outcome)
      returns (r: LinkResult)
      modifies this
      ensures (linked, r) == LinkStep(old(linked), workspacePath, project, scope, outcome)
    {
      var key := LinkedKey(workspacePath, project, scope);
      if key in linked {
        return AlreadyLinked;
      }
      var command := LinkCommand(workspacePath, project, scope);
      if !outcome.Succeeded? {
        return LinkFailed(command, outcome);
      }
      linked := linked + {key};
      r := Linked(command);
    }
  }

  // ---------------------------------------------------------------------
  // Properties
  // ---------------------------------------------------------------------

  /** A null scope and the scope `personal` share a cache key. */
  lemma NullScopeIsPersonal(workspacePath: string, project: string)
    ensures LinkedKey(workspacePath, project, None) == LinkedKey(workspacePath, project, Some("personal"))
  {
  }

  /** A cached key returns at once, runs nothing and leaves the cache alone, whatever the runner would do. */
  lemma CachedKeyRunsNothing(linked: set<string>, workspacePath: string, project: string, scope: Option<string>,
    outcome: Outcome)
    requires LinkedKey(workspacePath, project, scope) in linked
    ensures LinkStep(linked, workspacePath, project, scope, outcome) == (linked, AlreadyLinked)
  {
  }

  /**
   * The five fixed arguments come first; a `--scope` pair follows them
   * exactly when the scope is a non-empty string, and nothing else does.
   */
  lemma ScopeFlagOnlyForNonEmptyScope(project: string, scope: Option<string>)
    ensures |LinkArgs(project, scope)| >= 5
    ensures LinkArgs(project, scope)[..5] == ["link", "--yes", "--project", project, "--no-color"]
    ensures |LinkArgs(project, scope)| > 5 <==> scope.Some? && scope.value != ""
    ensures scope.Some? && scope.value != "" ==> LinkArgs(project, scope)[5..] == ["--scope", scope.value]
  {
  }

  /** The key is cached only after a run that returned; after a failure the next call runs the command again. */
  lemma FailureStaysUncached(linked: set<string>, workspacePath: string, project: string, scope: Option<string>,
    failure: Outcome, retry: Outcome)
    requires LinkedKey(workspacePath, project, scope) !in linked && !failure.Succeeded?
    ensures LinkStep(linked, workspacePath, project, scope, failure).0 == linked
    ensures LinkStep(LinkStep(linked, workspacePath, project, scope, failure).0, workspacePath, project, scope, retry).1
      != AlreadyLinked
  {
  }

  /** After a successful link, every later call for the same key is skipped. */
  lemma SuccessIsCached(linked: set<string>, workspacePath: string, project: string, scope: Option<string>,
    first: Outcome, later: Outcome)
    requires first.Succeeded?
    ensures LinkedKey(workspacePath, project, scope) in LinkStep(linked, workspacePath, project, scope, first).0
    ensures LinkStep(LinkStep(linked, workspacePath, project, scope, first).0, workspacePath, project, scope, later).1
      == AlreadyLinked
  {
  }

  /** The cache only grows, and by at most the one key of the call. */
  lemma CacheGrowsByOneKey(linked: set<string>, workspacePath: string, project: string, scope: Option<string>,
    outcome: Outcome)
    ensures linked <= LinkStep(linked, workspacePath, project, scope, outcome).0
    ensures LinkStep(linked, workspacePath, project, scope, outcome).0 <= linked + {LinkedKey(workspacePath, project, scope)}
  {
  }
}
