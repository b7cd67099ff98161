/**
 * The entities shared by the environment-variable matrix engine: flat
 * records as the Vercel CLI and API report them, the matrix draft built from
 * them (rows of keys, each with a value pool and per-environment
 * assignments), and the changes and operations planned from two drafts.
 */
module EnvTypes {
  import opened Wrappers

  /** The three environments every Vercel project has. */
  datatype BuiltIn = Production | Preview | Development

  function BuiltInName(e: BuiltIn): (name: string)
    ensures name in {"production", "preview", "development"}
  {
    match e
    case Production => "production"
    case Preview => "preview"
    case Development => "development"
  }

  /** `target.map(...)` to environment names. */
  function Names(target: seq<BuiltIn>): (names: seq<string>)
    ensures |names| == |target|
    ensures forall i :: 0 <= i < |target| ==> names[i] == BuiltInName(target[i])
  {
    seq(|target|, i requires 0 <= i < |target| => BuiltInName(target[i]))
  }

  lemma BuiltInNameInjective(a: BuiltIn, b: BuiltIn)
    requires BuiltInName(a) == BuiltInName(b)
    ensures a == b
  {
  }

  /** Production < preview < development, the order every target list is sorted by. */
  function EnvOrder(e: BuiltIn): (n: nat)
    ensures n < 3
  {
    match e
    case Production => 0
    case Preview => 1
    case Development => 2
  }

  datatype ColumnKind = BuiltInKind | CustomKind

  /** A column of the matrix: a built-in environment or a custom one (`custom:<id>`). */
  datatype EnvironmentColumn = EnvironmentColumn(
    id: string,
    name: string,
    kind: ColumnKind,
    customEnvironmentId: Option<string>)

  datatype ValueType = Plain | Encrypted

  function ValueTypeName(t: ValueType): string
  {
    match t
    case Plain => "plain"
    case Encrypted => "encrypted"
  }

  datatype ReadOnlyReason = SystemReason | GitBranchReason

  function ReadOnlyReasonName(r: ReadOnlyReason): string
  {
    match r
    case SystemReason => "system"
    case GitBranchReason => "git_branch"
  }

  /** One environment variable as the platform stores it: one value shared by a set of environments. */
  datatype RawRecord = RawRecord(
    id: string,
    key: string,
    value: string,
    vtype: ValueType,
    target: seq<BuiltIn>,
    customEnvironmentIds: seq<string>,
    comment: Option<string>,
    gitBranch: Option<string>,
    system: bool,
    readOnlyReason: Option<ReadOnlyReason>)

  /** Which write paths the backend that produced a snapshot supports. */
  datatype Capabilities = Capabilities(supportsCustomEnvironments: bool, supportsBranchSpecificWrites: bool)

  /** A project's environment columns and flat records, with the hash of the state they were read from. */
  datatype Snapshot = Snapshot(
    projectId: string,
    environments: seq<EnvironmentColumn>,
    records: seq<RawRecord>,
    baselineHash: string,
    capabilities: Option<Capabilities>)

  /** One distinct value of a row, with the ids of the records that carried it. */
  datatype ValueEntry = ValueEntry(
    id: string,
    content: string,
    vtype: ValueType,
    comment: Option<string>,
    gitBranch: Option<string>,
    readOnlyReason: Option<ReadOnlyReason>,
    sourceRows: seq<string>)

  /**
   * Environment column id to value id; `None` is an explicit null, and an id
   * outside the domain is a missing property.
   */
  type Assignments = map<string, Option<string>>

  /** One key of the matrix. */
  datatype Row = Row(
    rowId: string,
    key: string,
    values: seq<ValueEntry>,
    assignments: Assignments,
    sourceRows: seq<RawRecord>,
    isNew: bool)

  /** The editable matrix. `capabilities` is absent on drafts built by normalisation. */
  datatype Draft = Draft(
    projectId: string,
    environments: seq<EnvironmentColumn>,
    rows: seq<Row>,
    sourceRowIndex: map<string, RawRecord>,
    baselineHash: string,
    capabilities: Option<Capabilities>)

  datatype ChangeKind = CreateChange | UpdateChange | DeleteChange | RenameChange | RetargetChange

  datatype Change = Change(changeId: string, kind: ChangeKind, rowId: string, summary: string)

  datatype OperationKind = CreateEnv | UpdateEnv | DeleteEnv | RenameKey | Retarget

  function OperationKindName(k: OperationKind): string
  {
    match k
    case CreateEnv => "create_env"
    case UpdateEnv => "update_env"
    case DeleteEnv => "delete_env"
    case RenameKey => "rename_key"
    case Retarget => "retarget"
  }

  /** What a row looked like on one side of an operation; absent fields are `undefined` in the source. */
  datatype OpSnapshot = OpSnapshot(
    rowId: string,
    key: string,
    value: Option<string>,
    target: Option<seq<BuiltIn>>,
    customEnvironmentIds: Option<seq<string>>)

  datatype Operation = Operation(
    id: string,
    kind: OperationKind,
    summary: string,
    rowId: string,
    before: Option<OpSnapshot>,
    after: Option<OpSnapshot>,
    undoToken: string)

  datatype ApplyStatus = Done | Failed | Skipped

  datatype ApplyOperationResult = ApplyOperationResult(
    operationId: string,
    status: ApplyStatus,
    createdId: Option<string>,
    message: Option<string>)

  datatype ApplyResultData = ApplyResultData(accepted: nat, results: seq<ApplyOperationResult>)

  /** The first row with this id, as `Array.prototype.find` returns it. */
  function FindRow(rows: seq<Row>, rowId: string): (r: Option<Row>)
    ensures r.None? <==> forall i :: 0 <= i < |rows| ==> rows[i].rowId != rowId
    ensures r.Some? ==> r.value in rows && r.value.rowId == rowId
  {
    if |rows| == 0 then None
    else if rows[0].rowId == rowId then Some(rows[0])
    else FindRow(rows[1..], rowId)
  }

  /** The row a `new Map(rows.map(r => [r.rowId, r]))` holds for this id: the last one. */
  function LastRow(rows: seq<Row>, rowId: string): (r: Option<Row>)
    ensures r.None? <==> !HasRow(rows, rowId)
    ensures r.Some? ==> r.value in rows && r.value.rowId == rowId
  {
    if |rows| == 0 then None
    else if rows[|rows| - 1].rowId == rowId then Some(rows[|rows| - 1])
    else LastRow(rows[..|rows| - 1], rowId)
  }

  predicate HasRow(rows: seq<Row>, rowId: string)
  {
    exists i :: 0 <= i < |rows| && rows[i].rowId == rowId
  }

  /** No two rows share a rowId. */
  predicate DistinctRowIds(rows: seq<Row>)
  {
    forall i, j :: 0 <= i < j < |rows| ==> rows[i].rowId != rows[j].rowId
  }

  lemma FindIsLastWhenDistinct(rows: seq<Row>, rowId: string)
    requires DistinctRowIds(rows)
    ensures FindRow(rows, rowId) == LastRow(rows, rowId)
  {
    var f, l := FindRow(rows, rowId), LastRow(rows, rowId);
    if f.Some? {
      var i :| 0 <= i < |rows| && rows[i] == f.value;
      var j :| 0 <= j < |rows| && rows[j] == l.value;
    }
  }

  predicate HasValueId(values: seq<ValueEntry>, valueId: string)
  {
    exists i :: 0 <= i < |values| && values[i].id == valueId
  }

  /** Every non-null assignment of the row names a value in its own pool. */
  predicate RowAssignmentsValid(row: Row)
  {
    forall env :: env in row.assignments && row.assignments[env].Some? ==> HasValueId(row.values, row.assignments[env].value)
  }

  predicate DraftAssignmentsValid(d: Draft)
  {
    forall i :: 0 <= i < |d.rows| ==> RowAssignmentsValid(d.rows[i])
  }
}
