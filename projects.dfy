/**
 * The project list as the CLI prints it with `--json`
 * (src/lib/vercel-cli/projects.ts): the shape dispatch on the parsed
 * value, and `normalizeProjects`, which keeps well-formed entries matching
 * the search, newest first.
 */
module Projects {
  import opened Wrappers
  import opened Strings
  import opened Sorting
  import opened JsonValues

  /** `VercelProjectSummary`. */
  datatype ProjectSummary = ProjectSummary(id: string, name: string, framework: Option<string>, updatedAt: int)

  /** The array `parseProjectsJson` returns for an already parsed value. */
  function ProjectsArray(parsed: Json): (r: seq<Json>)
    ensures parsed.JArray? ==> r == parsed.items
    ensures !parsed.JArray? && GetArray(parsed, "projects").Some? ==> r == GetArray(parsed, "projects").value
    ensures !parsed.JArray? && GetArray(parsed, "projects").None? ==> r == []
  {
    if parsed.JArray? then parsed.items
    else
      match GetArray(parsed, "projects")
      case Some(items) => items
      case None => []
  }

  /** Reading `project.id` of `null` throws; every other value can be read. */
  predicate Readable(item: Json)
  {
    !item.JNull?
  }

  /** The `map` step for one entry: None when id or name is not a string. */
  function SummaryOf(item: Json): (r: Option<ProjectSummary>)
    ensures r.Some? <==> GetString(item, "id").Some? && GetString(item, "name").Some?
    ensures r.Some? ==> Get(item, "id") == Some(JString(r.value.id)) && Get(item, "name") == Some(JString(r.value.name))
    ensures r.Some? ==> (r.value.framework.Some? <==> Get(item, "framework").Some? && Get(item, "framework").value.JString?)
    ensures r.Some? && r.value.framework.Some? ==> Get(item, "framework") == Some(JString(r.value.framework.value))
    ensures r.Some? ==> r.value.updatedAt == (match Get(item, "updatedAt") case Some(JNumber(n)) => n case _ => 0)
  {
    match (GetString(item, "id"), GetString(item, "name"))
    case (Some(id), Some(name)) =>
      var updatedAt := match Get(item, "updatedAt") case Some(JNumber(n)) => n case _ => 0;
      Some(ProjectSummary(id, name, GetString(item, "framework"), updatedAt))
    case _ => None
  }

  /** `.map(...).filter(Boolean)`. */
  function Summaries(items: seq<Json>): (r: seq<ProjectSummary>)
    ensures |r| <= |items|
  {
    if items == [] then []
    else
      (match SummaryOf(items[0]) case Some(p) => [p] case None => []) + Summaries(items[1..])
  }

  /** `search.trim().toLowerCase()`. */
  function NormalizedSearch(search: string): string
  {
    ToLower(Trim(search))
  }

  /** The search filter: an empty search keeps everything, otherwise a case-insensitive substring of the name. */
  predicate MatchesSearch(p: ProjectSummary, normalizedSearch: string)
  {
    |normalizedSearch| == 0 || Contains(ToLower(p.name), normalizedSearch)
  }

  function Matching(ps: seq<ProjectSummary>, normalizedSearch: string): (r: seq<ProjectSummary>)
    ensures |r| <= |ps|
  {
    if ps == [] then []
    else (if MatchesSearch(ps[0], normalizedSearch) then [ps[0]] else []) + Matching(ps[1..], normalizedSearch)
  }

  /** `right.updatedAt - left.updatedAt || left.name.localeCompare(right.name)`: newest first, then by name. */
  function ProjectKey(p: ProjectSummary): seq<SortAtom>
  {
    [IntAtom(-p.updatedAt), StrAtom(p.name)]
  }

  /**
   * `normalizeProjects`. None is the TypeError the `map` step raises on a
   * `null` entry; an entry of any other kind without a string id and name
   * is dropped.
   */
  function NormalizeProjects(items: seq<Json>, search: string): (r: Option<seq<ProjectSummary>>)
    ensures r.None? <==> exists i :: 0 <= i < |items| && !Readable(items[i])
    ensures r.Some? ==> Sorted(r.value, ProjectKey)
    ensures r.Some? ==> multiset(r.value) == multiset(Matching(Summaries(items), NormalizedSearch(search)))
  {
    if exists i :: 0 <= i < |items| && !Readable(items[i]) then None
    else
      var kept := Matching(Summaries(items), NormalizedSearch(search));
      SortBySorted(kept, ProjectKey);
      Some(SortBy(kept, ProjectKey))
  }

  // ---------------------------------------------------------------------
  // Properties
  // ---------------------------------------------------------------------

  /** A summary is kept exactly when some entry yields it. */
  lemma {:induction false} SummariesExact(items: seq<Json>, p: ProjectSummary)
    ensures p in Summaries(items) <==> exists i :: 0 <= i < |items| && SummaryOf(items[i]) == Some(p)
    decreases |items|
  {
    if items != [] {
      SummariesExact(items[1..], p);
      if exists i :: 0 <= i < |items[1..]| && SummaryOf(items[1..][i]) == Some(p) {
        var i :| 0 <= i < |items[1..]| && SummaryOf(items[1..][i]) == Some(p);
        assert SummaryOf(items[i + 1]) == Some(p);
      }
      if exists i :: 0 <= i < |items| && SummaryOf(items[i]) == Some(p) {
        var i :| 0 <= i < |items| && SummaryOf(items[i]) == Some(p);
        if i > 0 {
          assert SummaryOf(items[1..][i - 1]) == Some(p);
        }
      }
    }
  }

  /** The search filter keeps exactly the matching summaries. */
  lemma {:induction false} MatchingExact(ps: seq<ProjectSummary>, normalizedSearch: string, p: ProjectSummary)
    ensures p in Matching(ps, normalizedSearch) <==> p in ps && MatchesSearch(p, normalizedSearch)
    decreases |ps|
  {
    if ps != [] {
      MatchingExact(ps[1..], normalizedSearch, p);
      assert ps == [ps[0]] + ps[1..];
    }
  }

  /**
   * A project is listed exactly when some entry has a string id and name
   * that yield it and its name matches the search.
   */
  lemma NormalizeProjectsExact(items: seq<Json>, search: string, p: ProjectSummary)
    requires NormalizeProjects(items, search).Some?
    ensures p in NormalizeProjects(items, search).value <==>
      (exists i :: 0 <= i < |items| && SummaryOf(items[i]) == Some(p)) && MatchesSearch(p, NormalizedSearch(search))
  {
    var r := NormalizeProjects(items, search).value;
    assert p in r <==> p in multiset(r);
    SummariesExact(items, p);
    MatchingExact(Summaries(items), NormalizedSearch(search), p);
  }

  /** An empty or blank search keeps every well-formed entry. */
  lemma BlankSearchKeepsAll(ps: seq<ProjectSummary>, search: string)
    requires AllSpace(search)
    ensures Matching(ps, NormalizedSearch(search)) == ps
  {
    assert Trim(search) == [];
    BlankMatchingKeepsAll(ps, NormalizedSearch(search));
  }

  lemma {:induction false} BlankMatchingKeepsAll(ps: seq<ProjectSummary>, normalizedSearch: string)
    requires normalizedSearch == []
    ensures Matching(ps, normalizedSearch) == ps
    decreases |ps|
  {
    if ps != [] {
      BlankMatchingKeepsAll(ps[1..], normalizedSearch);
      assert ps == [ps[0]] + ps[1..];
    }
  }

  /** Two well-formed entries and one without a name, with no search: the newer is listed first and the third dropped. */
  lemma MalformedEntryDropped(a: ProjectSummary, b: ProjectSummary, orphan: Json)
    requires a.updatedAt < b.updatedAt
    requires GetString(orphan, "name").None? && Readable(orphan)
    ensures NormalizeProjects([Entry(a), Entry(b), orphan], "") == Some([b, a])
  {
    var items := [Entry(a), Entry(b), orphan];
    ThreeSummaries(a, b, orphan);
    assert forall i :: 0 <= i < |items| ==> Readable(items[i]);
    AllReadable(items, "");
    assert NormalizedSearch("") == [];
    BlankMatchingKeepsAll([a, b], []);
    NewerFirst(a, b);
  }

  lemma ThreeSummaries(a: ProjectSummary, b: ProjectSummary, orphan: Json)
    requires GetString(orphan, "name").None?
    ensures Summaries([Entry(a), Entry(b), orphan]) == [a, b]
  {
    var items := [Entry(a), Entry(b), orphan];
    EntryRoundTrip(a);
    EntryRoundTrip(b);
    assert Summaries([orphan]) == [] by {
      assert [orphan][1..] == [];
    }
    assert Summaries([Entry(b), orphan]) == [b] by {
      assert [Entry(b), orphan][1..] == [orphan];
    }
    assert items[1..] == [Entry(b), orphan];
  }

  /** With no `null` entry the list is the sorted, filtered summaries. */
  lemma AllReadable(items: seq<Json>, search: string)
    requires forall i :: 0 <= i < |items| ==> Readable(items[i])
    ensures NormalizeProjects(items, search) == Some(SortBy(Matching(Summaries(items), NormalizedSearch(search)), ProjectKey))
  {
  }

  /** The newer of two projects sorts first. */
  lemma NewerFirst(a: ProjectSummary, b: ProjectSummary)
    requires a.updatedAt < b.updatedAt
    ensures SortBy([a, b], ProjectKey) == [b, a]
  {
    assert [a, b][1..] == [b] && [b][1..] == [];
    assert SortBy([b], ProjectKey) == [b];
    assert !KeyLe(ProjectKey(a), ProjectKey(b));
    assert Insert(a, [b], ProjectKey) == [b] + Insert(a, [], ProjectKey);
  }

  /** An entry as the CLI prints a project. */
  function Entry(p: ProjectSummary): Json
  {
    JObject([("id", JString(p.id)), ("name", JString(p.name)), ("updatedAt", JNumber(p.updatedAt))]
      + (if p.framework.Some? then [("framework", JString(p.framework.value))] else []))
  }

  /** The last field under a name is the one appended last, whatever came before. */
  lemma LastFieldAppend(fields: seq<(string, Json)>, f: (string, Json), name: string)
    ensures LastField(fields + [f], name) == if f.0 == name then Some(f.1) else LastField(fields, name)
  {
    assert (fields + [f])[..|fields|] == fields;
  }

  /** The three fields every entry has, read back one by one. */
  lemma BaseFieldsRead(p: ProjectSummary)
    ensures LastField([("id", JString(p.id)), ("name", JString(p.name)), ("updatedAt", JNumber(p.updatedAt))], "id") == Some(JString(p.id))
    ensures LastField([("id", JString(p.id)), ("name", JString(p.name)), ("updatedAt", JNumber(p.updatedAt))], "name") == Some(JString(p.name))
    ensures LastField([("id", JString(p.id)), ("name", JString(p.name)), ("updatedAt", JNumber(p.updatedAt))], "updatedAt") == Some(JNumber(p.updatedAt))
    ensures LastField([("id", JString(p.id)), ("name", JString(p.name)), ("updatedAt", JNumber(p.updatedAt))], "framework").None?
  {
    var f0, f1, f2 := ("id", JString(p.id)), ("name", JString(p.name)), ("updatedAt", JNumber(p.updatedAt));
    assert [f0, f1, f2][..2] == [f0, f1] && [f0, f1][..1] == [f0] && [f0][..0] == [];
    assert LastField([f0], "id") == Some(JString(p.id));
    assert LastField([f0, f1], "id") == Some(JString(p.id));
    assert LastField([f0, f1], "framework").None?;
  }

  /** Reading an entry back gives the project it was printed from. */
  lemma EntryRoundTrip(p: ProjectSummary)
    ensures SummaryOf(Entry(p)) == Some(p)
  {
    var base := [("id", JString(p.id)), ("name", JString(p.name)), ("updatedAt", JNumber(p.updatedAt))];
    BaseFieldsRead(p);
    if p.framework.Some? {
      var f3 := ("framework", JString(p.framework.value));
      LastFieldAppend(base, f3, "id");
      LastFieldAppend(base, f3, "name");
      LastFieldAppend(base, f3, "updatedAt");
      LastFieldAppend(base, f3, "framework");
      assert Entry(p).fields == base + [f3];
    } else {
      assert Entry(p).fields == base;
    }
  }
}
