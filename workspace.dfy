/**
 * Per-project CLI workspaces (src/lib/vercel-cli/workspace.ts): the folder
 * a project's CLI commands run in is named from its scope and project id,
 * and a registry of last-use times lets folders idle for more than fifteen
 * minutes be cleaned up. The temporary directory, the sha1 digest and the
 * clock are parameters; creating and removing folders is not modelled
 * beyond the set of paths a cleanup removes.
 */
module Workspace {
  import opened Strings

  /** `WORKSPACE_TTL_MS`: fifteen minutes. */
  const WorkspaceTtlMs: int := 15 * 60 * 1000

  /** `[a-zA-Z0-9_-]`. */
  predicate IsPathChar(c: char)
  {
    IsAlnum(c) || c == '_' || c == '-'
  }

  /** The length of the run of characters outside `[a-zA-Z0-9_-]` from `i`. */
  function DisallowedRun(s: string, i: nat): (n: nat)
    requires i <= |s|
    ensures i + n <= |s|
    ensures forall j :: i <= j < i + n ==> !IsPathChar(s[j])
    ensures i + n == |s| || IsPathChar(s[i + n])
    decreases |s| - i
  {
    if i < |s| && !IsPathChar(s[i]) then 1 + DisallowedRun(s, i + 1) else 0
  }

  /** `value.replace(/[^a-zA-Z0-9_-]+/g, "-")`: each run of other characters becomes one `-`. */
  function CollapseDisallowed(s: string): (r: string)
    ensures forall j :: 0 <= j < |r| ==> IsPathChar(r[j])
    ensures |r| <= |s|
    decreases |s|
  {
    if s == [] then []
    else if IsPathChar(s[0]) then [s[0]] + CollapseDisallowed(s[1..])
    else "-" + CollapseDisallowed(s[DisallowedRun(s, 0)..])
  }

  /** `^-+` removed. */
  function DropLeadingDashes(s: string): (r: string)
    ensures |r| <= |s| && r == s[|s| - |r|..]
    ensures r == [] || r[0] != '-'
    ensures forall j :: 0 <= j < |s| - |r| ==> s[j] == '-'
  {
    if s != [] && s[0] == '-' then DropLeadingDashes(s[1..]) else s
  }

  /** `-+$` removed. */
  function DropTrailingDashes(s: string): (r: string)
    ensures |r| <= |s| && r == s[..|r|]
    ensures r == [] || r[|r| - 1] != '-'
    ensures forall j :: |r| <= j < |s| ==> s[j] == '-'
  {
    if s != [] && s[|s| - 1] == '-' then DropTrailingDashes(s[..|s| - 1]) else s
  }

  /**
   * `sanitizeForPath`. The pattern `/^-+|-+$/g` removes the leading run of
   * dashes and the trailing one (a string of dashes only goes whole with the
   * first); the cut to 48 characters comes last.
   */
  function SanitizeForPath(value: string): string
  {
    var trimmed := DropTrailingDashes(DropLeadingDashes(CollapseDisallowed(value)));
    if |trimmed| <= 48 then trimmed else trimmed[..48]
  }

  /** `.slice(0, 10)`. */
  function Take10(s: string): (r: string)
  {
    if |s| <= 10 then s else s[..10]
  }

  /** `workspaceFolderName`; `sha1Hex` is the hex sha1 digest. */
  function WorkspaceFolderName(projectId: string, scope: string, sha1Hex: string -> string): string
  {
    SanitizeForPath(scope) + "-" + SanitizeForPath(projectId) + "-" + Take10(sha1Hex(scope + "::" + projectId))
  }

  /** `getWorkspacePath`: the folder inside `root`, the workspace root under the temporary directory. */
  function GetWorkspacePath(root: string, projectId: string, scope: string, sha1Hex: string -> string): string
  {
    root + "/" + WorkspaceFolderName(projectId, scope, sha1Hex)
  }

  /** The entries a cleanup at `now` keeps: those used at most fifteen minutes before. */
  function Unexpired(lastUsedAt: map<string, int>, now: int): map<string, int>
  {
    map p | p in lastUsedAt && now - lastUsedAt[p] <= WorkspaceTtlMs :: lastUsedAt[p]
  }

  /** The paths a cleanup at `now` removes. */
  function Expired(lastUsedAt: map<string, int>, now: int): set<string>
  {
    set p | p in lastUsedAt && now - lastUsedAt[p] > WorkspaceTtlMs
  }

  /** The last-use registry (`workspaceLastUsedAt`). */
  class WorkspaceRegistry {
    var lastUsedAt: map<string, int>

    constructor()
      ensures lastUsedAt == map[]
    {
      lastUsedAt := map[];
    }

    /** `cleanupExpiredWorkspaces`: drops every expired entry and returns the paths whose folders it removes. */
    method CleanupExpiredWorkspaces(now: int) returns (removed: set<string>)
      modifies this
      ensures removed == Expired(old(lastUsedAt), now)
      ensures lastUsedAt == Unexpired(old(lastUsedAt), now)
    {
      removed := set p | p in lastUsedAt && now - lastUsedAt[p] > WorkspaceTtlMs;
      var pending := removed;
      while pending != {}
        invariant pending <= removed
        invariant lastUsedAt == old(lastUsedAt) - (removed - pending)
        decreases pending
      {
        var p :| p in pending;
        lastUsedAt := lastUsedAt - {p};
        pending := pending - {p};
      }
      assert lastUsedAt == old(lastUsedAt) - Expired(old(lastUsedAt), now);
      ExpiredComplement(old(lastUsedAt), now);
    }

    /**
     * `ensureProjectWorkspace`: cleans up at `now`, then records the path
     * with `usedAt`, the clock read once the folder exists; the clock does
     * not run backwards between the two readings.
     */
    method EnsureProjectWorkspace(root: string, projectId: string, scope: string, sha1Hex: string -> string,
      now: int, usedAt: int) returns (path: string)
      requires now <= usedAt
      modifies this
      ensures path == GetWorkspacePath(root, projectId, scope, sha1Hex)
      ensures lastUsedAt == Unexpired(old(lastUsedAt), now)[path := usedAt]
      ensures path in lastUsedAt && lastUsedAt[path] >= now
      ensures forall p :: p in lastUsedAt ==> now - lastUsedAt[p] <= WorkspaceTtlMs
    {
      path := GetWorkspacePath(root, projectId, scope, sha1Hex);
      var removed := CleanupExpiredWorkspaces(now);
      lastUsedAt := lastUsedAt[path := usedAt];
    }
  }

  // ---------------------------------------------------------------------
  // Properties
  // ---------------------------------------------------------------------

  /** Removing the expired paths leaves exactly the unexpired entries. */
  lemma ExpiredComplement(m: map<string, int>, now: int)
    ensures m - Expired(m, now) == Unexpired(m, now)
  {
  }

  /** A sanitized name uses only `[a-zA-Z0-9_-]`, has at most 48 characters and never starts with `-`. */
  lemma SanitizedShape(value: string)
    ensures forall j :: 0 <= j < |SanitizeForPath(value)| ==> IsPathChar(SanitizeForPath(value)[j])
    ensures |SanitizeForPath(value)| <= 48
    ensures SanitizeForPath(value) == [] || SanitizeForPath(value)[0] != '-'
  {
    var c := CollapseDisallowed(value);
    var l := DropLeadingDashes(c);
    var t := DropTrailingDashes(l);
    forall j | 0 <= j < |t|
      ensures IsPathChar(t[j])
    {
      assert t[j] == l[j] == c[|c| - |l| + j];
    }
    if t != [] {
      assert t[0] == l[0];
    }
  }

  /** A name already made of path characters, not starting or ending with `-` and short enough, is kept as it is. */
  lemma SanitizeKeepsCleanNames(value: string)
    requires forall j :: 0 <= j < |value| ==> IsPathChar(value[j])
    requires value == [] || (value[0] != '-' && value[|value| - 1] != '-')
    requires |value| <= 48
    ensures SanitizeForPath(value) == value
  {
    CollapseKeepsPathChars(value);
    CleanDashEndsKept(value);
  }

  lemma CleanDashEndsKept(s: string)
    requires s == [] || (s[0] != '-' && s[|s| - 1] != '-')
    ensures DropTrailingDashes(DropLeadingDashes(s)) == s
  {
  }

  lemma {:induction false} CollapseKeepsPathChars(s: string)
    requires forall j :: 0 <= j < |s| ==> IsPathChar(s[j])
    ensures CollapseDisallowed(s) == s
    decreases |s|
  {
    if s != [] {
      CollapseKeepsPathChars(s[1..]);
    }
  }

  /** Every character outside `[a-zA-Z0-9_-]` is replaced: a name made only of them sanitizes to the empty string. */
  lemma NothingAllowedGivesEmpty(value: string)
    requires forall j :: 0 <= j < |value| ==> !IsPathChar(value[j])
    ensures SanitizeForPath(value) == ""
  {
    if value != [] {
      assert DisallowedRun(value, 0) == |value| by {
        DisallowedRunAll(value, 0);
      }
      assert value[|value|..] == [];
      assert CollapseDisallowed(value) == "-";
    }
  }

  lemma {:induction false} DisallowedRunAll(s: string, i: nat)
    requires i <= |s| && forall j :: i <= j < |s| ==> !IsPathChar(s[j])
    ensures DisallowedRun(s, i) == |s| - i
    decreases |s| - i
  {
    if i < |s| {
      DisallowedRunAll(s, i + 1);
    }
  }

  /** Given a hex digest, a folder name holds no path separator, so the workspace sits directly inside the root. */
  lemma FolderNameHasNoSeparator(projectId: string, scope: string, sha1Hex: string -> string)
    requires forall j :: 0 <= j < |sha1Hex(scope + "::" + projectId)| ==> IsAlnum(sha1Hex(scope + "::" + projectId)[j])
    ensures '/' !in WorkspaceFolderName(projectId, scope, sha1Hex)
  {
    var a, b, d := SanitizeForPath(scope), SanitizeForPath(projectId), Take10(sha1Hex(scope + "::" + projectId));
    SanitizedShape(scope);
    SanitizedShape(projectId);
    DigestPrefixChars(sha1Hex(scope + "::" + projectId));
    NoSlash(a);
    NoSlash(b);
    NoSlash(d);
    assert WorkspaceFolderName(projectId, scope, sha1Hex) == a + "-" + b + "-" + d;
  }

  lemma DigestPrefixChars(h: string)
    requires forall j :: 0 <= j < |h| ==> IsAlnum(h[j])
    ensures forall j :: 0 <= j < |Take10(h)| ==> IsPathChar(Take10(h)[j])
  {
  }

  lemma NoSlash(s: string)
    requires forall j :: 0 <= j < |s| ==> IsPathChar(s[j])
    ensures '/' !in s
  {
  }

  /** Names whose sanitized parts coincide are still told apart by their digests. */
  lemma DigestSeparatesFolders(p1: string, s1: string, p2: string, s2: string, sha1Hex: string -> string)
    requires SanitizeForPath(s1) == SanitizeForPath(s2) && SanitizeForPath(p1) == SanitizeForPath(p2)
    requires Take10(sha1Hex(s1 + "::" + p1)) != Take10(sha1Hex(s2 + "::" + p2))
    ensures WorkspaceFolderName(p1, s1, sha1Hex) != WorkspaceFolderName(p2, s2, sha1Hex)
  {
    var prefix := SanitizeForPath(s1) + "-" + SanitizeForPath(p1) + "-";
    var n1 := WorkspaceFolderName(p1, s1, sha1Hex);
    var n2 := WorkspaceFolderName(p2, s2, sha1Hex);
    assert n1 == prefix + Take10(sha1Hex(s1 + "::" + p1));
    assert n2 == prefix + Take10(sha1Hex(s2 + "::" + p2));
    assert n1[|prefix|..] == Take10(sha1Hex(s1 + "::" + p1));
    assert n2[|prefix|..] == Take10(sha1Hex(s2 + "::" + p2));
  }

  /** A cleanup keeps an entry exactly fifteen minutes old and removes one a millisecond older. */
  lemma TtlBoundary(m: map<string, int>, p: string, now: int)
    requires p in m
    ensures now - m[p] == WorkspaceTtlMs ==> p in Unexpired(m, now) && Unexpired(m, now)[p] == m[p]
    ensures now - m[p] == WorkspaceTtlMs + 1 ==> p !in Unexpired(m, now) && p in Expired(m, now)
  {
  }

  /** Cleanup splits the registry: every path is either kept with its timestamp or removed, never both. */
  lemma CleanupPartitions(m: map<string, int>, now: int)
    ensures Unexpired(m, now).Keys + Expired(m, now) == m.Keys
    ensures Unexpired(m, now).Keys !! Expired(m, now)
    ensures forall p :: p in Unexpired(m, now) ==> Unexpired(m, now)[p] == m[p]
  {
  }

  /** A second cleanup at the same time removes nothing more. */
  lemma CleanupIdempotent(m: map<string, int>, now: int)
    ensures Unexpired(Unexpired(m, now), now) == Unexpired(m, now)
    ensures Expired(Unexpired(m, now), now) == {}
  {
  }

  /** A later cleanup keeps no more than an earlier one. */
  lemma LaterCleanupKeepsLess(m: map<string, int>, t1: int, t2: int)
    requires t1 <= t2
    ensures Unexpired(m, t2).Keys <= Unexpired(m, t1).Keys
    ensures Expired(m, t1) <= Expired(m, t2)
  {
  }

  /** A workspace just ensured survives every cleanup up to fifteen minutes after its recorded use. */
  lemma EnsuredWorkspaceSurvives(m: map<string, int>, now: int, path: string, usedAt: int, later: int)
    requires later - usedAt <= WorkspaceTtlMs
    ensures path in Unexpired(Unexpired(m, now)[path := usedAt], later)
    ensures Unexpired(Unexpired(m, now)[path := usedAt], later)[path] == usedAt
  {
  }
}
