/**
 * The baseline hash of a project snapshot (src/lib/vercel/project-snapshot.ts):
 * the SHA-256 of a payload whose environments and records are sorted by id,
 * so the hash does not depend on the order the platform listed them in.
 * The hash function and the JSON encoding it hashes are a parameter.
 */
module ProjectSnapshot {
  import opened Wrappers
  import opened Sorting
  import opened EnvTypes

  /** A snapshot without its hash (`Omit<ProjectEnvSnapshot, "baselineHash">`). */
  datatype SnapshotBase = SnapshotBase(
    projectId: string,
    environments: seq<EnvironmentColumn>,
    records: seq<RawRecord>,
    capabilities: Option<Capabilities>)

  /** `stablePayload`: what is hashed. */
  datatype StablePayload = StablePayload(
    projectId: string,
    capabilities: Option<Capabilities>,
    environments: seq<EnvironmentColumn>,
    records: seq<RawRecord>)

  /** Environments are ordered by `id`. */
  function ColumnIdKey(c: EnvironmentColumn): seq<SortAtom>
  {
    [StrAtom(c.id)]
  }

  /** Records are ordered by `id`. */
  function RecordIdKey(r: RawRecord): seq<SortAtom>
  {
    [StrAtom(r.id)]
  }

  /** The payload: the snapshot's fields, with both lists copied and sorted by id. */
  function Payload(snapshot: SnapshotBase): (p: StablePayload)
    ensures p.projectId == snapshot.projectId && p.capabilities == snapshot.capabilities
    ensures Sorted(p.environments, ColumnIdKey) && multiset(p.environments) == multiset(snapshot.environments)
    ensures Sorted(p.records, RecordIdKey) && multiset(p.records) == multiset(snapshot.records)
  {
    SortBySorted(snapshot.environments, ColumnIdKey);
    SortBySorted(snapshot.records, RecordIdKey);
    StablePayload(
      snapshot.projectId,
      snapshot.capabilities,
      SortBy(snapshot.environments, ColumnIdKey),
      SortBy(snapshot.records, RecordIdKey))
  }

  /** `hashProjectSnapshot`; `sha256Hex` stands for the hex SHA-256 of the payload's JSON text. */
  function HashProjectSnapshot(snapshot: SnapshotBase, sha256Hex: StablePayload -> string): string
  {
    sha256Hex(Payload(snapshot))
  }

  /** Ids are unique within each list, as the platform reports them. */
  predicate IdsUnique(snapshot: SnapshotBase)
  {
    KeysDistinct(snapshot.environments, ColumnIdKey) && KeysDistinct(snapshot.records, RecordIdKey)
  }

  /** Two snapshots that list the same columns and records, in any order. */
  predicate SameContents(a: SnapshotBase, b: SnapshotBase)
  {
    a.projectId == b.projectId && a.capabilities == b.capabilities
    && multiset(a.environments) == multiset(b.environments)
    && multiset(a.records) == multiset(b.records)
  }

  // ---------------------------------------------------------------------
  // Properties
  // ---------------------------------------------------------------------

  /**
   * With unique ids, the payload is determined by the contents alone:
   * reordering the environments or the records leaves it, and so the
   * hash, unchanged whatever the hash function.
   */
  lemma HashIgnoresListOrder(a: SnapshotBase, b: SnapshotBase, sha256Hex: StablePayload -> string)
    requires IdsUnique(a) && SameContents(a, b)
    ensures Payload(a) == Payload(b)
    ensures HashProjectSnapshot(a, sha256Hex) == HashProjectSnapshot(b, sha256Hex)
  {
    SortByPermutationInvariant(a.environments, b.environments, ColumnIdKey);
    SortByPermutationInvariant(a.records, b.records, RecordIdKey);
  }

  /**
   * Conversely, equal payloads come only from snapshots with the same
   * contents: any change to a column, a record, the project id or the
   * capabilities changes what is hashed.
   */
  lemma PayloadDeterminesContents(a: SnapshotBase, b: SnapshotBase)
    requires Payload(a) == Payload(b)
    ensures SameContents(a, b)
  {
  }

  /** So, for snapshots with unique ids, the payloads agree exactly when the contents do. */
  lemma PayloadsAgreeIffSameContents(a: SnapshotBase, b: SnapshotBase)
    requires IdsUnique(a)
    ensures Payload(a) == Payload(b) <==> SameContents(a, b)
  {
    if SameContents(a, b) {
      HashIgnoresListOrder(a, b, _ => "");
    }
    if Payload(a) == Payload(b) {
      PayloadDeterminesContents(a, b);
    }
  }

  /** A snapshot already sorted by id is hashed as it stands. */
  lemma SortedListsHashedAsGiven(snapshot: SnapshotBase)
    requires IdsUnique(snapshot)
    requires Sorted(snapshot.environments, ColumnIdKey) && Sorted(snapshot.records, RecordIdKey)
    ensures Payload(snapshot).environments == snapshot.environments
    ensures Payload(snapshot).records == snapshot.records
  {
    var p := Payload(snapshot);
    KeysDistinctPermuted(snapshot.environments, p.environments, ColumnIdKey);
    SortedUnique(snapshot.environments, p.environments, ColumnIdKey);
    SortedUnique(snapshot.records, p.records, RecordIdKey);
  }
}
