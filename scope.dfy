/**
 * Turning a scope id into the `--scope` argument and the cache key
 * (src/lib/vercel-cli/scope.ts). Listing the teams runs the CLI; the model
 * takes the list it would return as an input.
 */
module Scope {
  import opened Wrappers
  import opened Strings
  import opened Teams

  datatype ResolvedScope = ResolvedScope(scopeArg: Option<string>, scopeCacheKey: string)

  /** The first team whose id is `scopeId`, as `find` returns it. */
  function FindTeam(teams: seq<TeamScope>, scopeId: string): (r: Option<TeamScope>)
    ensures r.None? <==> forall i :: 0 <= i < |teams| ==> teams[i].id != scopeId
    ensures r.Some? ==> exists i :: (0 <= i < |teams| && teams[i] == r.value && r.value.id == scopeId
      && forall j :: 0 <= j < i ==> teams[j].id != scopeId)
  {
    if teams == [] then None
    else if teams[0].id == scopeId then Some(teams[0])
    else
      var r := FindTeam(teams[1..], scopeId);
      assert forall j :: 1 <= j < |teams| ==> teams[j] == teams[1..][j - 1];
      r
  }

  /**
   * `resolveCliScopeFromScopeId`, with `teams` the list `listVercelTeamScopes`
   * would return. `replace("team:", "")` removes the first occurrence, which
   * is the prefix itself.
   */
  function ResolveCliScope(scopeId: string, teams: seq<TeamScope>): (r: ResolvedScope)
    ensures StartsWith(scopeId, "user:") ==> r == ResolvedScope(None, scopeId)
    ensures !StartsWith(scopeId, "user:") && StartsWith(scopeId, "team:") ==>
      r.scopeArg == Some(scopeId[5..]) && r.scopeCacheKey == scopeId
    ensures !StartsWith(scopeId, "user:") && !StartsWith(scopeId, "team:") ==>
      match FindTeam(teams, scopeId)
      case None => r == ResolvedScope(Some(scopeId), "unknown:" + scopeId)
      case Some(team) => r == ResolvedScope(Some(team.slug), "team:" + team.slug)
  {
    if StartsWith(scopeId, "user:") then ResolvedScope(None, scopeId)
    else if StartsWith(scopeId, "team:") then
      var slug := scopeId[5..];
      assert "team:" + slug == scopeId;
      ResolvedScope(Some(slug), "team:" + slug)
    else
      match FindTeam(teams, scopeId)
      case None => ResolvedScope(Some(scopeId), "unknown:" + scopeId)
      case Some(team) => ResolvedScope(Some(team.slug), "team:" + team.slug)
  }

  /** The team list matters only for ids with neither prefix. */
  lemma TeamListOnlyForBareIds(scopeId: string, teams: seq<TeamScope>, others: seq<TeamScope>)
    requires StartsWith(scopeId, "user:") || StartsWith(scopeId, "team:")
    ensures ResolveCliScope(scopeId, teams) == ResolveCliScope(scopeId, others)
  {
  }

  /** A team found in the list is passed by slug, and its key is the one a "team:" id with that slug gets. */
  lemma FoundTeamKeyAgrees(scopeId: string, teams: seq<TeamScope>)
    requires !StartsWith(scopeId, "user:") && !StartsWith(scopeId, "team:")
    requires FindTeam(teams, scopeId).Some?
    ensures ResolveCliScope(scopeId, teams)
      == ResolveCliScope("team:" + FindTeam(teams, scopeId).value.slug, [])
  {
    var slug := FindTeam(teams, scopeId).value.slug;
    var id := "team:" + slug;
    assert StartsWith(id, "team:") && id[5..] == slug;
    assert !StartsWith(id, "user:") by {
      assert id[0] == 't';
    }
  }

  /** Cache keys never confuse a user, a known team and an unknown id. */
  lemma CacheKeysSeparateKinds(a: string, b: string, teams: seq<TeamScope>)
    requires StartsWith(a, "user:")
    requires !StartsWith(b, "user:") && !StartsWith(b, "team:") && FindTeam(teams, b).None?
    ensures ResolveCliScope(a, teams).scopeCacheKey != ResolveCliScope(b, teams).scopeCacheKey
  {
    var ka := ResolveCliScope(a, teams).scopeCacheKey;
    var kb := ResolveCliScope(b, teams).scopeCacheKey;
    assert ka[0] == 'u' && ka[1] == 's';
    assert kb[0] == 'u' && kb[1] == 'n';
  }
}
