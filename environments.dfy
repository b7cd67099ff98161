/**
 * The environment columns of a project as the platform API reports them
 * (src/lib/vercel/environments.ts): the three built-ins, then the project's
 * custom environments sorted by name. The list of custom environments is
 * the API call's answer, taken as input.
 */
module Environments {
  import opened Wrappers
  import opened Sorting
  import opened EnvTypes
  import CliSnapshot

  /** One custom environment as the API lists it. */
  datatype CustomEnvironment = CustomEnvironment(id: string, slug: string)

  /** `BUILT_IN_ENVIRONMENTS`. */
  const BuiltInEnvironments: seq<EnvironmentColumn> := [
    EnvironmentColumn("production", "Production", BuiltInKind, None),
    EnvironmentColumn("preview", "Preview", BuiltInKind, None),
    EnvironmentColumn("development", "Development", BuiltInKind, None)
  ]

  /** The column of one custom environment. */
  function CustomColumn(environment: CustomEnvironment): (c: EnvironmentColumn)
    ensures c.kind == CustomKind && c.customEnvironmentId == Some(environment.id)
  {
    EnvironmentColumn("custom:" + environment.id, environment.slug, CustomKind, Some(environment.id))
  }

  function CustomColumns(environments: seq<CustomEnvironment>): (cs: seq<EnvironmentColumn>)
    ensures |cs| == |environments|
    ensures forall i :: 0 <= i < |environments| ==> cs[i] == CustomColumn(environments[i])
  {
    seq(|environments|, i requires 0 <= i < |environments| => CustomColumn(environments[i]))
  }

  /** Custom columns are ordered by name. */
  function NameKey(c: EnvironmentColumn): seq<SortAtom>
  {
    [StrAtom(c.name)]
  }

  /** The column assembly of `getProjectEnvironments`; a missing list counts as empty. */
  function ProjectEnvironments(environments: Option<seq<CustomEnvironment>>): seq<EnvironmentColumn>
  {
    var customs := if environments.Some? then environments.value else [];
    BuiltInEnvironments + SortBy(CustomColumns(customs), NameKey)
  }

  // ---------------------------------------------------------------------
  // Properties
  // ---------------------------------------------------------------------

  /**
   * The result is the three built-ins in order, followed by one column per
   * custom environment, sorted by name.
   */
  lemma ColumnsShape(environments: Option<seq<CustomEnvironment>>)
    ensures var customs := if environments.Some? then environments.value else [];
      var r := ProjectEnvironments(environments);
      |r| == 3 + |customs|
      && r[..3] == BuiltInEnvironments
      && Sorted(r[3..], NameKey)
      && multiset(r[3..]) == multiset(CustomColumns(customs))
  {
    var customs := if environments.Some? then environments.value else [];
    var r := ProjectEnvironments(environments);
    SortBySorted(CustomColumns(customs), NameKey);
    assert r[3..] == SortBy(CustomColumns(customs), NameKey);
  }

  /** Every column after the built-ins is the column of one of the custom environments, and each of those appears. */
  lemma CustomColumnsFromInput(environments: seq<CustomEnvironment>)
    ensures forall c :: c in ProjectEnvironments(Some(environments))[3..] <==>
      exists i :: 0 <= i < |environments| && c == CustomColumn(environments[i])
  {
    var r := ProjectEnvironments(Some(environments));
    var sorted := SortBy(CustomColumns(environments), NameKey);
    assert r[3..] == sorted;
    forall c ensures c in sorted <==> exists i :: 0 <= i < |environments| && c == CustomColumn(environments[i]) {
      assert c in sorted <==> c in multiset(CustomColumns(environments));
      if c in CustomColumns(environments) {
        var i :| 0 <= i < |environments| && CustomColumns(environments)[i] == c;
      }
    }
  }

  /** A custom column is `custom:<id>`, named by its slug, and never clashes with a built-in id. */
  lemma CustomColumnMeaning(environment: CustomEnvironment)
    ensures CustomColumn(environment).id == "custom:" + environment.id
    ensures CustomColumn(environment).name == environment.slug
    ensures forall b :: b in BuiltInEnvironments ==> b.id != CustomColumn(environment).id
  {
    var id := CustomColumn(environment).id;
    assert id[0] == 'c';
  }

  /** Without custom environments, or without the list, only the built-ins remain. */
  lemma MissingListGivesBuiltIns()
    ensures ProjectEnvironments(None) == BuiltInEnvironments
    ensures ProjectEnvironments(Some([])) == BuiltInEnvironments
  {
    assert CustomColumns([]) == [];
  }

  /** The API path and the CLI path start from the same built-in columns. */
  lemma BuiltInsMatchCliSnapshot()
    ensures BuiltInEnvironments == CliSnapshot.BuiltInColumns
  {
  }
}
