# better-vercel-env, modelled in Dafny

better-vercel-env edits a Vercel project's environment variables as a
matrix. Each row is one key. Each column is one environment: the three
built-ins `production`, `preview` and `development`, plus any custom
environments. A row holds a pool of distinct values, and each cell names
the value of the row that the environment uses. The flow of the program
is as follows:

- It reads the project's variables from the Vercel CLI (`vercel env pull`,
  `vercel env ls`) or from the platform API.
- It groups the flat records into a draft matrix.
- The user edits the draft in a terminal UI (values, cell assignments,
  undo).
- It diffs the draft against the baseline into planned operations.
- It applies those operations, either through the CLI (`vercel env add` /
  `vercel env rm`, one command per environment) or through the SDK.

This project models the program's core and proves properties of it:

- **Matrix engine.** Normalising records into rows, detecting changes,
  planning operations, the draft store, and the value-pool, assignment and
  undo edits.
- **CLI text parsing.** `env ls`, `teams list`, `whoami`, the project
  list, and the snapshot built from pulled dotenv maps.
- **SDK JSON readers and the snapshot hash payload.**
- **Apply pipeline.** Action building, the executor, merging results per
  operation, the legacy SDK applier, redaction, the apply lock, workspace
  naming with expiry, and the link cache.
- **Terminal UI.** The screen state machine, the store, the global keys,
  and the report and change-log formatters.

Each source file is one Dafny module, in the form the source takes:

- Code that pushes onto arrays in loops, or fills maps, is written as
  methods with loops. They are specified by functions and proved against
  them: the normaliser, the change detector, the snapshot builder, the
  apply executor, the SDK applier and the reserved-key filter.
- Objects and module-level registries whose state is updated in place
  become classes: the draft store, the TUI store, the apply lock, the
  workspace registry and the link cache.
- map/filter chains become functions, and lemmas state what they promise.

The shared modules are:

- `Wrappers`: `Option`.
- `Strings`: the JavaScript string helpers the source uses.
- `Sorting`: a stable sort by a list of keys.
- `EnvTypes`: the data types.
- `JsonValues`: parsed JSON.
- `CliText`: line and column splitting of CLI output.
- `OracleRuns`: sequences of calls to an outside runner.

External effects are parameters of the model:

- The CLI runner and the SDK client are oracles: functions from the call
  number to an outcome.
- SHA-1 and SHA-256 are functions passed in.
- `crypto.randomUUID` and `Date.now()` are plain inputs.

`localeCompare` is taken as the lexicographic order on character codes.
`toLowerCase` is ASCII lower-casing.

## Model

| member | source | states |
|---|---|---|
| Normalize.SignatureOf | src/lib/env-model/normalize.ts:5-13 | the value signature of a record is its value, type, comment (null as ""), git branch (null as "") and read-only reason (null as ""), kept as a tuple; the specified grouping compares these tuples (the source compares their "::"-joined string, see "## Left out") |
| Normalize.JoinedSignature | src/lib/env-model/normalize.ts:5-13 | the signature as the source writes it, the five parts joined by "::"; it starts with the value and "::" |
| Normalize.JoinedSignatureCoarser | src/lib/env-model/normalize.ts:5-13 | records with equal signature tuples get equal joined strings |
| Normalize.JoinedSignatureCollides | src/lib/env-model/normalize.ts:5-13 | two records with different tuples (value "x::plain" without a comment; value "x" with comment "plain::") get the same joined string |
| Normalize.ColonFreeNoCollision | src/lib/env-model/normalize.ts:5-13 | records whose value, comment and git branch contain no ':' get the same joined string only when their tuples are equal |
| Normalize.ColonFreeJoinedInjective | src/lib/env-model/normalize.ts:5-13 | so in a list of such records no two different tuples collide |
| Normalize.ValueIdInjective | src/lib/env-model/normalize.ts:34-36 | `value-m` and `value-n` are equal only when m = n |
| Normalize.EmptyAssignments | src/lib/env-model/normalize.ts:15-20 | the initial assignments map exactly the column ids, each to null |
| Normalize.AssignAll | src/lib/env-model/normalize.ts:49-55 | after writing a value id into listed columns, those columns hold it and every other entry is unchanged |
| Normalize.LastTargeting | src/lib/env-model/normalize.ts:49-55 | finds the last record that names a column, or reports that none does |
| Normalize.GroupFoldInvariant | src/lib/env-model/normalize.ts:28-56 | after any prefix of the records, the pool and assignment invariants of the tuple-keyed loop hold |
| Normalize.KeyGroupAssignmentsValid | src/lib/env-model/normalize.ts:30-55 | every non-null assignment of a normalised row names an entry of that row's pool |
| Normalize.KeyGroupPool | src/lib/env-model/normalize.ts:33-47 | for the tuple grouping: pool ids are value-1..value-n in creation order, signature tuples are pairwise distinct, every record's signature has an entry, and each entry's sourceRows are the ids of exactly the records with its signature, in order |
| Normalize.KeyGroupShareIff | src/lib/env-model/normalize.ts:28-45 | with the tuple grouping, two records of a key share an entry exactly when their signature tuples are equal (the intended behaviour) |
| Normalize.KeyGroupAssignments | src/lib/env-model/normalize.ts:15-55 | the assigned columns are the environment columns plus every column a record names; each holds the tuple-grouped entry of the last record naming it, or null |
| Normalize.KeysInOrder | src/lib/env-model/normalize.ts:69-77 | the grouping map's keys are exactly the keys of the records |
| Normalize.KeysInOrderFirstAppearance | src/lib/env-model/normalize.ts:69-81 | the keys are distinct and ordered by first appearance (case-sensitive) |
| Normalize.GroupOf | src/lib/env-model/normalize.ts:71-77 | a key's group contains only records of that key, in input order |
| Normalize.GroupOfMembers | src/lib/env-model/normalize.ts:71-77 | every record of the key is in the key's group |
| Normalize.RowsFor | src/lib/env-model/normalize.ts:79-81 | one row per key, each the tuple-grouped row of that key's group |
| Normalize.SourceIndex | src/lib/env-model/normalize.ts:83-89 | the sourceRowIndex domain is exactly the record ids |
| Normalize.SourceIndexLastWins | src/lib/env-model/normalize.ts:83-89 | each id maps to the last record carrying it |
| Normalize.RowIdInjective | src/lib/env-model/normalize.ts:59 | "row:"+a equals "row:"+b only when a = b |
| Normalize.NormalizedRows | src/lib/env-model/normalize.ts:58-81 | one row per distinct key in first-appearance order, with rowId "row:"+key, isNew false and the key's records as sourceRows; rowIds are distinct; every record lands in a row; every assignment is valid |
| Normalize.NormalizedPassThrough | src/lib/env-model/normalize.ts:91-97 | projectId, environments and baselineHash are copied; capabilities is not; the index covers exactly the record ids |
| Normalize.AssignTargets | src/lib/env-model/normalize.ts:49-55 | the forEach over targets and custom ids computes AssignAll |
| Normalize.NormalizeKeyGroup | src/lib/env-model/normalize.ts:22-66 | the loop with a signature map and a counter builds exactly the specified (tuple-keyed) row |
| Normalize.VisitRecord | src/lib/env-model/normalize.ts:28-56 | one record's callback performs the specified group step, its map keyed by the signature tuple and kept in step with the pool together with the counter |
| Normalize.GroupByKey | src/lib/env-model/normalize.ts:69-77 | the loop builds keys in first-appearance order and maps each to its group |
| Normalize.IndexSourceRows | src/lib/env-model/normalize.ts:83-89 | the reduce builds SourceIndex |
| Normalize.NormalizeRows | src/lib/env-model/normalize.ts:79-81 | the map over groups builds RowsFor, the tuple-grouped rows |
| Normalize.NormalizeSnapshotToDraft | src/lib/env-model/normalize.ts:68-98 | the whole procedure returns the specified draft, grouped by tuple |
| Normalize.JoinedIndex | src/lib/env-model/normalize.ts:29-30 | the lookup as written: the first pool entry whose joined signature is the given string, or none |
| Normalize.KeyGroupRowAsWritten | src/lib/env-model/normalize.ts:22-66 | no contract of its own: the row `normalizeKeyGroup` builds with its map keyed by the joined string; Normalize.KeyGroupAgrees and Normalize.AsWrittenMergesColliding state what it is |
| Normalize.JoinedIndexAgrees | src/lib/env-model/normalize.ts:29-30 | when no two records with different tuples join to the same string, the lookup by string finds the entry the lookup by tuple finds |
| Normalize.GroupStepAgrees | src/lib/env-model/normalize.ts:28-56 | under the same condition one step of the loop as written equals the specified step |
| Normalize.GroupFoldAgrees | src/lib/env-model/normalize.ts:28-56 | under the same condition the loop as written builds the specified pool and assignments after every prefix |
| Normalize.KeyGroupAgrees | src/lib/env-model/normalize.ts:22-66 | when no two records of the key with different tuples join to the same string, the row built as written is the specified row |
| Normalize.NormalizedDraftAgrees | src/lib/env-model/normalize.ts:68-98 | when no two records of the snapshot collide, every row of the specified draft is the row the source builds as written |
| Normalize.AsWrittenMergesColliding | src/lib/env-model/normalize.ts:22-66 | as written, the two colliding records of one key share one entry, value-1: both columns name it, it lists both record ids, and the second record's comment is lost |
| Normalize.CorrectedSeparatesColliding | src/lib/env-model/normalize.ts:22-66 | grouped by tuple, the same records get value-1 and value-2, the second keeping its comment, and each column names its own record's entry |
| ChangeDetector.ValuesFingerprint | src/lib/env-model/change-detector.ts:3-13 | the values fingerprint lists content, type, comment, branch and read-only reason of each entry, in pool order |
| ChangeDetector.FingerprintIgnoresIdsAndSources | src/lib/env-model/change-detector.ts:3-13 | renumbering value ids or changing sourceRows leaves the fingerprint equal |
| ChangeDetector.RowIndexLookup | src/lib/env-model/change-detector.ts:20-21 | the id→row Map holds exactly the row ids, each mapped to the last row with that id |
| ChangeDetector.CreatesExact | src/lib/env-model/change-detector.ts:25-34 | each create change names a draft row the baseline lacks ("create:"+rowId), and every such draft row gets one |
| ChangeDetector.DeletesExact | src/lib/env-model/change-detector.ts:36-45 | each delete change names a baseline row the draft lacks, and every such baseline row gets one |
| ChangeDetector.RowChangesIff | src/lib/env-model/change-detector.ts:53-82 | for a shared row: rename iff the keys differ, update iff the values fingerprints differ, retarget iff the assignments differ; no change iff all three agree |
| ChangeDetector.CreatesOfSelf | src/lib/env-model/change-detector.ts:25-34 | draft rows all present in the baseline give no creates |
| ChangeDetector.DeletesOfSelf | src/lib/env-model/change-detector.ts:36-45 | baseline rows all present in the draft give no deletes |
| ChangeDetector.SharedOfSelf | src/lib/env-model/change-detector.ts:47-83 | rows compared against a distinct-id list containing them give no per-row changes |
| ChangeDetector.SharedAppend | src/lib/env-model/change-detector.ts:47-83 | per-row changes of a + b are those of a followed by those of b (draft order) |
| ChangeDetector.NoChangesForIdenticalDrafts | src/lib/env-model/change-detector.ts:19-86 | a draft whose rows equal the baseline's (distinct ids) yields no changes |
| ChangeDetector.DuplicateRowIdsReportChanges | src/lib/env-model/change-detector.ts:20-60 | with two rows of one id and different keys, comparing a draft with itself reports a change, because the Map keeps the last row |
| ChangeDetector.AppendCreates | src/lib/env-model/change-detector.ts:25-34 | the first loop appends exactly Creates |
| ChangeDetector.AppendDeletes | src/lib/env-model/change-detector.ts:36-45 | the second loop appends exactly Deletes |
| ChangeDetector.CompareRow | src/lib/env-model/change-detector.ts:53-82 | the body of the third loop pushes RowChanges |
| ChangeDetector.AppendShared | src/lib/env-model/change-detector.ts:47-83 | the third loop appends exactly Shared |
| ChangeDetector.DetectDraftChanges | src/lib/env-model/change-detector.ts:19-86 | the result is creates (draft order), then deletes (baseline order), then rename/update/retarget per shared row (draft order) |
| Planner.ToSnapshot | src/lib/env-model/planner.ts:5-13 | a snapshot keeps the row's id and key; its value is the first pool entry's content, absent for an empty pool; target and custom ids are those of the first source row, absent without one |
| Planner.MapChangeKindInjective | src/lib/env-model/planner.ts:15-33 | the five change kinds map to five distinct operation kinds |
| Planner.PlanOperations | src/lib/env-model/planner.ts:35-56 | one operation per detected change, in order, with the change's id, summary and rowId, the mapped kind and undo token "undo:"+id |
| Planner.PlannedSnapshots | src/lib/env-model/planner.ts:37-50 | `before` is absent exactly when the baseline has no row with the operation's rowId, `after` exactly when the draft has none; present snapshots are of the last row with that id |
| Planner.CreatesHaveNoBefore | src/lib/env-model/planner.ts:40-50 | a create_env operation has an after snapshot and no before snapshot |
| Planner.DeletesHaveNoAfter | src/lib/env-model/planner.ts:40-50 | a delete_env operation has a before snapshot and no after snapshot |
| Planner.SharedKinds | src/lib/env-model/change-detector.ts:47-83 | per-row changes are renames, updates or retargets, of rows present on both sides |
| Planner.ClonePlansNothing | src/lib/env-model/planner.ts:35-56 | a draft whose rows equal the baseline's (distinct ids) plans no operations |
| Planner.NormalizedClonePlansNothing | src/lib/env-model/planner.ts:35-56 | the normalised draft of any snapshot, planned against a clone of itself, plans nothing |
| Planner.MapChangeKind | src/lib/env-model/planner.ts:15-33 | no contract of its own: the operation kind of each change kind; Planner.MapChangeKindInjective states that no two change kinds share one |
| Planning.ComputePendingOperations | src/tui/editor/planning.ts:4-10 | nothing is pending while the baseline or the draft is missing; otherwise one operation per detected change |
| Planning.FreshlyLoadedHasNoPending | src/tui/editor/planning.ts:4-10 | right after a snapshot is loaded (draft equal to baseline), nothing is pending |
| Planning.PendingIdsAreChangeIds | src/tui/editor/planning.ts:9 | the pending operation ids are the detected change ids, in order |
| EnvDraftStore.NewRow | src/lib/env-model/draft-store.ts:45-66 | the appended row has an id starting "row:new:", the given key, an empty pool and sources, isNew set, and exactly the draft's columns, each null |
| EnvDraftStore.WithoutRow | src/lib/env-model/draft-store.ts:88 | the filter keeps exactly the rows with another id |
| EnvDraftStore.RenamedRows | src/lib/env-model/draft-store.ts:103-110 | every row with the id gets the new key, every other row is unchanged, and the order is kept |
| EnvDraftStore.AddRowKeepsAssignmentsValid | src/lib/env-model/draft-store.ts:39-71 | adding a row keeps every assignment pointing into its row's pool |
| EnvDraftStore.RemoveRowKeepsAssignmentsValid | src/lib/env-model/draft-store.ts:72-92 | removing a row keeps every assignment valid |
| EnvDraftStore.RenameKeepsAssignmentsValid | src/lib/env-model/draft-store.ts:93-114 | renaming keeps every assignment valid |
| EnvDraftStore.RemoveRowRefusesBaselineRows | src/lib/env-model/draft-store.ts:78-82 | an unknown id, or a first matching row that is not new, leaves the draft unchanged |
| EnvDraftStore.RemoveRowDropsOnlyThatId | src/lib/env-model/draft-store.ts:84-90 | removing a new row drops every row with that id and keeps all others |
| EnvDraftStore.AddRowDetectedAsCreate | src/lib/env-model/draft-store.ts:39-71 | adding a row to an unedited draft is detected as exactly one create change, for the new row |
| EnvDraftStore.RenameDetectedAsRename | src/lib/env-model/draft-store.ts:93-114 | renaming a row of an unedited draft to a different key is detected as exactly one rename change |
| EnvDraftStore.LastRowOfDistinct | src/lib/env-model/change-detector.ts:20-21 | with distinct ids, the row found by id is the row itself |
| EnvDraftStore.SharedRenamed | src/lib/env-model/draft-store.ts:103-110 | against the original rows, only the renamed row shows per-row changes |
| EnvDraftStore.RenamedSplit | src/lib/env-model/draft-store.ts:103-110 | with distinct ids, renaming changes the one row at its place and nothing else |
| EnvDraftStore.DraftStore.constructor | src/lib/env-model/draft-store.ts:21-24 | the store starts with no baseline, no draft and no pending changes |
| EnvDraftStore.DraftStore.InitializeFromSnapshot | src/lib/env-model/draft-store.ts:25-32 | baseline and draft both become the normalised snapshot, nothing is pending, and the draft's assignments are valid and row ids distinct |
| EnvDraftStore.DraftStore.SetDraft | src/lib/env-model/draft-store.ts:33-35 | replaces the draft only |
| EnvDraftStore.DraftStore.SetPendingChanges | src/lib/env-model/draft-store.ts:36-38 | replaces the pending changes only |
| EnvDraftStore.DraftStore.AddRow | src/lib/env-model/draft-store.ts:39-71 | without a draft nothing changes; otherwise the new row is appended, the rest of the state is kept, and valid assignments stay valid |
| EnvDraftStore.DraftStore.RemoveRow | src/lib/env-model/draft-store.ts:72-92 | without a draft nothing changes; otherwise the draft becomes RemoveRowFrom, and valid assignments stay valid |
| EnvDraftStore.DraftStore.RenameRowKey | src/lib/env-model/draft-store.ts:93-114 | without a draft nothing changes; otherwise the rows are renamed, and valid assignments stay valid |
| EnvDraftStore.DraftStore.Reset | src/lib/env-model/draft-store.ts:115-121 | everything is cleared |
| ValuePool.SerialOf | src/tui/editor/value-pool.ts:11-16 | an id has a serial exactly when it is "value-" followed by one or more digits |
| ValuePool.SerialOfValueId | src/tui/editor/value-pool.ts:11-20 | the id `value-<n>` reads back as serial n |
| ValuePool.HighestSerialBounds | src/tui/editor/value-pool.ts:10-18 | the reduce's result bounds every serial in the pool and is 0 or one of them |
| ValuePool.NextValueIdFresh | src/tui/editor/value-pool.ts:9-21 | the generated id is not in the row's pool |
| ValuePool.NextValueIdExceeds | src/tui/editor/value-pool.ts:9-21 | the generated id has a serial larger than every existing one |
| ValuePool.CreateValueEntry | src/tui/editor/value-pool.ts:23-33 | a new entry has a fresh id, empty plain content, no comment, branch, read-only reason or sources |
| ValuePool.AddValueRows | src/tui/editor/value-pool.ts:38-50 | every row with the id gets a new entry appended; other rows are unchanged |
| ValuePool.AddedValueIdNone | src/tui/editor/value-pool.ts:36-44 | no id is reported exactly when no row has the row id |
| ValuePool.AddValueToDraft | src/tui/editor/value-pool.ts:35-59 | the loop over rows returns AddValueRows and the id made for the last matching row |
| ValuePool.AddValueKeepsAssignmentsValid | src/tui/editor/value-pool.ts:35-59 | adding a value keeps every assignment pointing into its row's pool |
| ValuePool.AddedValueIdIsAppended | src/tui/editor/value-pool.ts:43-48 | the reported id is the id of the entry appended to the last matching row |
| ValuePool.EditedValues | src/tui/editor/value-pool.ts:74-84 | entries with the id get the new content; others are unchanged |
| ValuePool.EditValueRows | src/tui/editor/value-pool.ts:69-90 | only rows with the row id have their values edited |
| ValuePool.EditValues | src/tui/editor/value-pool.ts:74-84 | the inner map computes EditedValues and raises the flag exactly on a hit |
| ValuePool.EditValueInDraft | src/tui/editor/value-pool.ts:61-99 | returns the edited rows, with `updated` true exactly when some matching row holds the value id |
| ValuePool.EditValueKeepsAssignmentsValid | src/tui/editor/value-pool.ts:61-99 | editing keeps every assignment valid |
| ValuePool.EditChangesOnlyContent | src/tui/editor/value-pool.ts:74-84 | an edit changes only the content of the matching entry; every other field and entry is kept |
| ValuePool.WithoutValue | src/tui/editor/value-pool.ts:126 | the filter keeps exactly the entries with another id |
| ValuePool.RemoveValueRows | src/tui/editor/value-pool.ts:105-128 | only rows with the row id are changed, each by the removal rule of one row |
| ValuePool.RemoveValueFromDraft | src/tui/editor/value-pool.ts:101-138 | the loop over rows computes the specified result: rows, `removed` and `reason` |
| ValuePool.RemoveValueKeepsAssignmentsValid | src/tui/editor/value-pool.ts:115-127 | a removed value was assigned nowhere in its row, so no assignment dangles |
| ValuePool.RemoveValueOutcome | src/tui/editor/value-pool.ts:101-138 | with distinct row ids: a missing row or value gives "not_found", an assigned value gives "assigned", both with rows unchanged and removed false; otherwise exactly that value is dropped, removed is true and the reason null |
| ValuePool.ReasonNoMatch | src/tui/editor/value-pool.ts:103 | with no matching row the reason stays "not_found" |
| ValuePool.ReasonDistinct | src/tui/editor/value-pool.ts:103-122 | with distinct row ids the reason is read off the single matching row |
| ValuePool.RemoveKeepsOtherValues | src/tui/editor/value-pool.ts:121-127 | a successful removal keeps every other entry and shortens the pool |
| ValuePool.NextValueId | src/tui/editor/value-pool.ts:9-21 | no contract of its own: `value-` and one more than the highest serial; ValuePool.NextValueIdFresh and ValuePool.NextValueIdExceeds state what it guarantees |
| ValuePool.RemoveValue | src/tui/editor/value-pool.ts:101-138 | no contract of its own: the draft with the entry removed where allowed, the removed flag and the reason; ValuePool.RemoveValueOutcome and ValuePool.RemoveValueKeepsAssignmentsValid state it |
| AssignmentEdits.FindColumn | src/tui/editor/assignments.ts:26 | finds a column with the id exactly when the draft has one |
| AssignmentEdits.CanEditAssignment | src/tui/editor/assignments.ts:21-60 | allowed iff no reason; environment_missing iff the column is unknown; custom_environment_unsupported iff a custom column without support; row_encrypted only for a row with an encrypted value; branch_unsupported only for a branch-scoped row without support; reading absent capabilities throws |
| AssignmentEdits.PlainBuiltInCellEditable | src/tui/editor/assignments.ts:21-60 | a built-in column on a plain row without branch values is always editable |
| AssignmentEdits.EncryptedRowBlocked | src/tui/editor/assignments.ts:41-46 | an encrypted row is blocked as row_encrypted once the column checks pass |
| AssignmentEdits.SetAssignmentRows | src/tui/editor/assignments.ts:70-92 | each row with the id is written unless the value is unknown to its pool or already assigned; other rows are unchanged |
| AssignmentEdits.SetRowAssignment | src/tui/editor/assignments.ts:62-101 | the loop returns SetAssignmentRows, with `updated` true exactly when some row was written |
| AssignmentEdits.SetAssignmentKeepsValid | src/tui/editor/assignments.ts:75-91 | an assignment is only set to null or to a value in the row's own pool |
| AssignmentEdits.UnknownValueRefused | src/tui/editor/assignments.ts:75-77 | a value id missing from the pool changes nothing and reports no update |
| AssignmentEdits.SameValueNoUpdate | src/tui/editor/assignments.ts:79-81 | setting the value already assigned changes nothing and reports no update |
| AssignmentEdits.WriteChangesOnlyThatEntry | src/tui/editor/assignments.ts:83-91 | a written row then holds the value in that environment, and differs from the original only in that entry |
| Undo.DropRow | src/tui/editor/undo.ts:32 | the filter keeps exactly the rows with another id |
| Undo.RestoreRow | src/tui/editor/undo.ts:49 | every row with the id becomes the baseline row; others are unchanged |
| Undo.UndoRowDraftChange | src/tui/editor/undo.ts:17-53 | no draft row: unchanged; draft-only row: dropped; else restored exactly when the fingerprints (key, values, assignments, isNew) differ; project and columns are kept |
| Undo.RestoreInPlace | src/tui/editor/undo.ts:46-52 | a restore puts the baseline row where each draft row of that id stood, and touches no other row |
| Undo.DropKeepsOthers | src/tui/editor/undo.ts:28-36 | dropping a draft-only row leaves no row of that id and keeps every other row |
| Undo.UndoIdempotent | src/tui/editor/undo.ts:17-53 | undoing the same row a second time reports no change |
| Undo.UndoKeepsAssignmentsValid | src/tui/editor/undo.ts:17-53 | undo keeps every assignment valid when baseline and draft had valid assignments |
| Undo.UnchangedRowKept | src/tui/editor/undo.ts:38-44 | a row equal to its baseline row is left alone |
| ReservedKeys.Lookup | src/lib/vercel-cli/reserved-keys.ts:37 | a key is read as the value stored under it, or as undefined when absent |
| ReservedKeys.LookupDistinct | src/lib/vercel-cli/reserved-keys.ts:37 | in a map without repeated keys, each key reads back its own value |
| ReservedKeys.ReservedExamples | src/lib/vercel-cli/reserved-keys.ts:1-20 | "VERCEL" and "VERCEL_URL" are reserved; "VERCELX", "MY_VERCEL_URL" and "vercel_url" are not (exact, case-sensitive prefix) |
| ReservedKeys.SortedKeys | src/lib/vercel-cli/reserved-keys.ts:29-30 | the keys are sorted and are a permutation of the input's keys |
| ReservedKeys.EditableOf | src/lib/vercel-cli/reserved-keys.ts:31-38 | every editable pair is a non-reserved input key with its input value |
| ReservedKeys.ReservedOf | src/lib/vercel-cli/reserved-keys.ts:31-35 | every reserved entry is a reserved input key |
| ReservedKeys.FilterReservedRuntimeEnvKeys | src/lib/vercel-cli/reserved-keys.ts:22-41 | the loop over the sorted keys builds exactly the specified editable map and reserved list |
| ReservedKeys.EditableOfComplete | src/lib/vercel-cli/reserved-keys.ts:31-38 | every non-reserved key visited is in the editable map |
| ReservedKeys.ReservedOfComplete | src/lib/vercel-cli/reserved-keys.ts:31-35 | every reserved key visited is in the reserved list |
| ReservedKeys.ReservedOfSorted | src/lib/vercel-cli/reserved-keys.ts:29-35 | the reserved list of sorted keys is sorted |
| ReservedKeys.SortedKeysDistinct | src/lib/vercel-cli/reserved-keys.ts:29-30 | an object's sorted keys are distinct |
| ReservedKeys.FilterPartitions | src/lib/vercel-cli/reserved-keys.ts:22-41 | each input key lands in exactly one output: the editable map with its value, or the sorted reserved list; no reserved key is editable, and editable keys are distinct |
| ReservedKeys.IsReservedRuntimeEnvKey | src/lib/vercel-cli/reserved-keys.ts:14-20 | no contract of its own: one of the six fixed names or a name starting `VERCEL_`; ReservedKeys.ReservedExamples pins it down on the boundary cases, and the filter lemmas use it |
| CliSnapshot.Slice12 | src/lib/vercel-cli/snapshot.ts:40 | keeps at most the first twelve characters, and the whole string when it is shorter |
| CliSnapshot.EnvRecordId | src/lib/vercel-cli/snapshot.ts:36-42 | the id is "cli:" and the "+"-joined target, then at most twelve leading characters of the digest of "target,joined::key::ordinal" |
| CliSnapshot.FirstHolder | src/lib/vercel-cli/snapshot.ts:84 | finds the first environment of the target whose editable map has the key, or none |
| CliSnapshot.CoverTarget | src/lib/vercel-cli/snapshot.ts:89-91 | the loop adds one covered pair per environment of the target |
| CliSnapshot.VisitTopologyRow | src/lib/vercel-cli/snapshot.ts:77-109 | one topology row's callback computes the specified step of the fold |
| CliSnapshot.AppendFallback | src/lib/vercel-cli/snapshot.ts:113-130 | the inner loop appends exactly the single-environment records of the uncovered keys |
| CliSnapshot.TopologyPass | src/lib/vercel-cli/snapshot.ts:74-110 | the topology loop computes the specified fold |
| CliSnapshot.FallbackPass | src/lib/vercel-cli/snapshot.ts:112-131 | the fallback loop appends the fallback records of every environment in the development, preview, production order |
| CliSnapshot.ToRecords | src/lib/vercel-cli/snapshot.ts:56-141 | the procedure returns the specified records |
| CliSnapshot.BuildSnapshotFromPulledEnvs | src/lib/vercel-cli/snapshot.ts:143-157 | the snapshot has the project id, the three built-in columns, the records, and no capability |
| CliSnapshot.EditableMapFor | src/lib/vercel-cli/snapshot.ts:62-66 | each environment's editable map is its pulled map with reserved keys filtered out |
| CliSnapshot.CoveredKeyInjective | src/lib/vercel-cli/snapshot.ts:90-114 | distinct (environment, key) pairs give distinct covered strings |
| CliSnapshot.RowRecordFacts | src/lib/vercel-cli/snapshot.ts:78-108 | a yielding row's record has the row's key, the sorted target and the id built from them and the ordinal |
| CliSnapshot.YieldingRows | src/lib/vercel-cli/snapshot.ts:80-87 | only rows with a non-empty target and a value in some environment yield records |
| CliSnapshot.PulledRecordsSorted | src/lib/vercel-cli/snapshot.ts:133-140 | the records are ordered by key, then by the first target's environment order, and are a permutation of what the two passes built |
| CliSnapshot.PulledRecordsWellFormed | src/lib/vercel-cli/snapshot.ts:56-141 | every record is plain with a non-empty sorted target and no custom ids, comment, branch or read-only reason; its value is the first holder's value in the pulled map; its key is not reserved |
| CliSnapshot.TopologyRowsYieldRecords | src/lib/vercel-cli/snapshot.ts:70-110 | the topology records are, in order, one per ordered yielding row, with that row's key and sorted target; every yielding row of the input is among them |
| CliSnapshot.TopologyCovered | src/lib/vercel-cli/snapshot.ts:89-91 | a pair is covered after the topology pass exactly when a topology record lists it |
| CliSnapshot.CoveredPairsNotRepeated | src/lib/vercel-cli/snapshot.ts:114-116 | no single-environment record repeats a pair listed by a topology record |
| CliSnapshot.FallbackUnique | src/lib/vercel-cli/snapshot.ts:112-131 | among the single-environment records, one at most lists a given environment and key |
| CliSnapshot.UncoveredPairOnce | src/lib/vercel-cli/snapshot.ts:112-131 | an editable pair no topology record lists gets exactly one record, carrying its value, and no other record lists that pair |
| CliSnapshot.EveryEditablePairEmitted | src/lib/vercel-cli/snapshot.ts:56-141 | every non-reserved key of every pulled map ends up in a record listing that environment |
| CliSnapshot.TopologyOrdinals | src/lib/vercel-cli/snapshot.ts:93-98 | each topology record's id is built from its key, target and ordinal, and repeated (key, target) rows get the ordinals 1, 2, … |
| CliText.StripAnsi | src/lib/vercel-cli/env-list.ts:50 | removing colour codes never lengthens a line |
| CliText.StripAnsiPlain | src/lib/vercel-cli/env-list.ts:50 | text without an escape character is kept as it is |
| CliText.StripAnsiCode | src/lib/vercel-cli/env-list.ts:50 | a colour code (escape, "[", digits and semicolons, "m") is removed |
| CliText.CleanLines | src/lib/vercel-cli/env-list.ts:48-51 | cleaning drops blank lines and never adds any |
| CliText.NonEmpty | src/lib/vercel-cli/env-list.ts:65 | `filter(Boolean)` keeps only non-empty columns |
| CliText.JoinSplitWide | src/lib/vercel-cli/env-list.ts:65 | cells printed two blanks apart split back into themselves |
| CliText.TrimJoinedCells | src/lib/vercel-cli/env-list.ts:65 | trimming a line of cells changes nothing |
| EnvList.EnvironmentNameToId | src/lib/vercel-cli/env-list.ts:10-25 | a text gives an environment exactly when its trimmed, lower-cased form is that environment's name; anything else gives null |
| EnvList.NameRoundTrip | src/lib/vercel-cli/env-list.ts:10-25 | a built-in name in any case, with surrounding blanks, reads back as its environment |
| EnvList.SortedTarget | src/lib/vercel-cli/env-list.ts:27-44 | sorting by environment order gives a sorted permutation |
| EnvList.SplitTargets | src/lib/vercel-cli/env-list.ts:41 | splitting on commas and the word "and" gives at least one piece, none holding a comma |
| EnvList.ParseEnvironmentList | src/lib/vercel-cli/env-list.ts:39-45 | the parsed list is in production, preview, development order |
| EnvList.ParseEnvironmentListMembers | src/lib/vercel-cli/env-list.ts:39-45 | an environment is in the parsed list exactly when some separated piece names it |
| EnvList.JoinSplitTargets | src/lib/vercel-cli/env-list.ts:41 | pieces without separators, joined by commas, split back into themselves |
| EnvList.ParseTargetText | src/lib/vercel-cli/env-list.ts:39-45 | parsing a target printed as names joined by ", " gives it back in environment order |
| EnvList.ColumnsOfCells | src/lib/vercel-cli/env-list.ts:65 | a line printed as cells two blanks apart has those cells as its columns |
| EnvList.RowOf | src/lib/vercel-cli/env-list.ts:56-76 | a heading line, or one with fewer than three columns, gives no row; a row has a non-empty trimmed key and a non-empty target in environment order |
| EnvList.VisitLine | src/lib/vercel-cli/env-list.ts:55-77 | the checks on one line yield RowOf |
| EnvList.ParseVercelEnvListOutput | src/lib/vercel-cli/env-list.ts:47-80 | the loop over the cleaned lines returns their rows in line order |
| EnvList.TopologyRowsAppend | src/lib/vercel-cli/env-list.ts:55-79 | rows keep the order of their lines |
| EnvList.TopologyRowsFromLines | src/lib/vercel-cli/env-list.ts:55-79 | every row comes from one of the lines |
| EnvList.TopologyRowsWellFormed | src/lib/vercel-cli/env-list.ts:70-76 | every row has a non-empty trimmed key and a non-empty target in environment order |
| EnvList.TableLineRow | src/lib/vercel-cli/env-list.ts:65-76 | a table line of key, type and target columns reads as that key and the target in environment order |
| Teams.DashRunsSlugBody | src/lib/vercel-cli/teams.ts:18 | replacing runs of other characters by one dash leaves no two dashes in a row |
| Teams.TrimDashStart | src/lib/vercel-cli/teams.ts:19 | the result is a suffix of the input and does not start with a dash |
| Teams.TrimDashEnd | src/lib/vercel-cli/teams.ts:19 | the result is a prefix of the input and does not end with a dash |
| Teams.ToSlugIsSlug | src/lib/vercel-cli/teams.ts:14-20 | a slug holds only lower-case letters, digits and single dashes, and has no dash at either end |
| Teams.SlugFixed | src/lib/vercel-cli/teams.ts:14-20 | a slug is its own slug |
| Teams.ToSlugIdempotent | src/lib/vercel-cli/teams.ts:14-20 | applying toSlug twice gives the same as once |
| Teams.RemoveCurrentTags | src/lib/vercel-cli/teams.ts:36 | removing the "(current)" tags never lengthens the line |
| Teams.AlnumRun | src/lib/vercel-cli/teams.ts:37 | measures the run of ASCII letters and digits at the start of a string |
| Teams.TeamTokenAt | src/lib/vercel-cli/teams.ts:37 | a match at a position is a `team_` token inside the string |
| Teams.FirstTeamToken | src/lib/vercel-cli/teams.ts:37 | a found id is a `team_` token |
| Teams.TrimEach | src/lib/vercel-cli/teams.ts:44 | every column is trimmed and none is dropped by the map |
| Teams.IndexOfColumnWith | src/lib/vercel-cli/teams.ts:53 | the index of the first column containing the id, or -1 when none does |
| Teams.TeamOf | src/lib/vercel-cli/teams.ts:31-63 | a team from a line has a `team_` token as its id |
| Teams.TeamOfFacts | src/lib/vercel-cli/teams.ts:31-63 | heading lines and lines without a token give no team; the id is the first token once the marker and tags are removed; isCurrent iff the line starts with ">" or carries "(current)" in any case; an empty slug is replaced by the name's slug |
| Teams.FirstColumnId | src/lib/vercel-cli/teams.ts:49-61 | when the first column is the id, the name is the second column (else the id) and the slug the third (else the name's slug) |
| Teams.VisitTeamLine | src/lib/vercel-cli/teams.ts:30-64 | the checks on one line yield TeamOf |
| Teams.ParseVercelTeamsListOutput | src/lib/vercel-cli/teams.ts:22-67 | the loop over the cleaned lines returns their teams in line order |
| Teams.TeamsOfAppend | src/lib/vercel-cli/teams.ts:30-64 | teams keep the order of their lines |
| Teams.TeamsFromLines | src/lib/vercel-cli/teams.ts:30-64 | every team comes from one of the lines |
| Teams.TeamIdsAreTokens | src/lib/vercel-cli/teams.ts:37-43 | every team's id is a `team_` token |
| Teams.ToSlug | src/lib/vercel-cli/teams.ts:14-20 | no contract of its own: lower-case, trim, one dash per run of other characters, no dash at either end; Teams.ToSlugIsSlug and Teams.ToSlugIdempotent state what it produces |
| Auth.NonBlankTrimmed | src/lib/vercel-cli/auth.ts:19-22 | every line kept is trimmed and non-empty, and none is added |
| Auth.FirstNonBanner | src/lib/vercel-cli/auth.ts:24 | finds the first line that starts with neither "Vercel CLI" nor "Retrieving", or none |
| Auth.SpacesFrom | src/lib/vercel-cli/auth.ts:29 | `\s*` consumes exactly the blanks at a position |
| Auth.TokenFrom | src/lib/vercel-cli/auth.ts:29 | `[^\s]+` consumes exactly the non-blanks at a position, up to a blank or the end |
| Auth.CapturedAt | src/lib/vercel-cli/auth.ts:29 | a captured scope is non-empty and holds no blank |
| Auth.FirstScopeMatch | src/lib/vercel-cli/auth.ts:29 | finds the leftmost position where the scope pattern matches, or none |
| Auth.ParseWhoamiOutput | src/lib/vercel-cli/auth.ts:18-35 | null exactly when every non-blank trimmed line is a banner; otherwise the username is a trimmed non-banner line and the scope is read from the joined lines |
| Auth.UsernameIsFirstIdentityLine | src/lib/vercel-cli/auth.ts:24-34 | the username is the first non-banner line |
| Auth.ActiveScopeIsLeftmostMatch | src/lib/vercel-cli/auth.ts:29-33 | the scope is the token after the leftmost "scope:" (any case) followed by a non-blank, and is null exactly when there is no such match |
| Auth.ScopeReadBack | src/lib/vercel-cli/auth.ts:29-33 | "scope: t" with nothing matching before it reads back as t |
| Auth.TokenOfWord | src/lib/vercel-cli/auth.ts:29 | a word that ends in a blank or at the end is read whole |
| Auth.FirstScopeAfterPlainPrefix | src/lib/vercel-cli/auth.ts:29 | with no label before a match, that match is the leftmost one |
| Auth.SingleNameLine | src/lib/vercel-cli/auth.ts:18-35 | a single name line parses to that name and no scope |
| Auth.AuthStatusOf | src/lib/vercel-cli/auth.ts:37-86 | authenticated iff the runner succeeded and an identity was parsed; cli_non_zero_exit gives the "Not logged in" message, cli_not_found the "not installed" message, any other failure the generic message, and a parse failure the "Unable to determine" message |
| Auth.ActiveScope | src/lib/vercel-cli/auth.ts:29-33 | no contract of its own: the text after the first case-insensitive `scope:` and white space, up to the next white space, or null; Auth.ActiveScopeIsLeftmostMatch states it |
| Projects.ProjectsArray | src/lib/vercel-cli/projects.ts:12-24 | an array is returned as it is, an object's `projects` array is returned, and anything else gives [] |
| Projects.SummaryOf | src/lib/vercel-cli/projects.ts:30-41 | an entry gives a summary exactly when its id and name are strings; it copies them, keeps a string framework (else null) and a number updatedAt (else 0) |
| Projects.Summaries | src/lib/vercel-cli/projects.ts:30-42 | the map and filter never add entries |
| Projects.Matching | src/lib/vercel-cli/projects.ts:43-45 | the search filter never adds entries |
| Projects.NormalizeProjects | src/lib/vercel-cli/projects.ts:26-47 | a null entry throws; otherwise the result is sorted newest first, then by name, and is a permutation of the matching summaries |
| Projects.SummariesExact | src/lib/vercel-cli/projects.ts:30-42 | a summary is kept exactly when some entry yields it |
| Projects.MatchingExact | src/lib/vercel-cli/projects.ts:43-45 | the search keeps exactly the summaries whose lower-cased name contains the search |
| Projects.NormalizeProjectsExact | src/lib/vercel-cli/projects.ts:26-47 | a project is listed exactly when an entry yields it and its name matches the search |
| Projects.BlankSearchKeepsAll | src/lib/vercel-cli/projects.ts:27-45 | an empty or blank search keeps every well-formed entry |
| Projects.MalformedEntryDropped | src/lib/vercel-cli/projects.ts:26-47 | with two entries and one without a name, and no search, the newer is listed first and the third is dropped |
| Projects.NewerFirst | src/lib/vercel-cli/projects.ts:46 | the newer of two projects sorts first |
| Projects.EntryRoundTrip | src/lib/vercel-cli/projects.ts:30-41 | reading back an entry as the CLI prints a project gives that project |
| Scope.FindTeam | src/lib/vercel-cli/scope.ts:25 | finds the first team with the id, or none when no team has it |
| Scope.ResolveCliScope | src/lib/vercel-cli/scope.ts:8-38 | "user:" ids pass no scope and key on the id; "team:<slug>" passes the slug and keys on the id; other ids go through the team list: a found team passes its slug with key "team:"+slug, else the id passes itself with key "unknown:"+id |
| Scope.TeamListOnlyForBareIds | src/lib/vercel-cli/scope.ts:9-25 | the team list does not matter for "user:" and "team:" ids |
| Scope.FoundTeamKeyAgrees | src/lib/vercel-cli/scope.ts:16-37 | a team found by id resolves exactly as the "team:<slug>" id of that team |
| Scope.CacheKeysSeparateKinds | src/lib/vercel-cli/scope.ts:9-32 | a user's cache key never equals an unknown id's |
| ApplyBuilder.MapSetLikeOperation | src/lib/vercel-cli/apply-builder.ts:30-79 | a create or update with a string value, no custom environments and a non-empty target gives one add per target environment with the key and value; otherwise exactly one skip keyed by the after key (null without an after side), checked in order: "missing_after_value" when the after side or its value is missing, then "unsupported_custom_environment" when it names custom environments, then "missing_target_environment" when its target is empty |
| ApplyBuilder.MapDeleteOperation | src/lib/vercel-cli/apply-builder.ts:81-130 | a delete with a before side, no custom environments and a non-empty target gives one remove per target environment; otherwise one skip, checked in order: "missing_before_snapshot" (key null) when the before side is missing, then "unsupported_custom_environment" when it names custom environments, then "missing_target_environment" when its target is empty, both keyed by the before key |
| ApplyBuilder.ActionsFor | src/lib/vercel-cli/apply-builder.ts:133-152 | every operation yields at least one well-formed action with its id; adds come only from creates and updates, removes only from deletes |
| ApplyBuilder.BuildCliApplyActions | src/lib/vercel-cli/apply-builder.ts:132-154 | the actions are sorted by kind, key, environment and operation id, and are a permutation of the flattened per-operation actions |
| ApplyBuilder.FlatActionsCount | src/lib/vercel-cli/apply-builder.ts:133 | the flattened list is as long as the per-operation lists together |
| ApplyBuilder.FlatActionsExact | src/lib/vercel-cli/apply-builder.ts:133 | an action is in the flattened list exactly when some operation yields it |
| ApplyBuilder.BuildCount | src/lib/vercel-cli/apply-builder.ts:132-154 | sorting neither loses nor adds actions |
| ApplyBuilder.BuildMembers | src/lib/vercel-cli/apply-builder.ts:132-154 | an action is built exactly when some operation yields it |
| ApplyBuilder.BuildWellFormed | src/lib/vercel-cli/apply-builder.ts:30-154 | every built action has the fields its kind needs and the id of one of the operations |
| ApplyBuilder.BuildCoversOperations | src/lib/vercel-cli/apply-builder.ts:132-152 | no operation is left without an action |
| ApplyBuilder.AddsBeforeRemovesBeforeSkips | src/lib/vercel-cli/apply-builder.ts:15-154 | in the built list every add precedes every remove, which precedes every skip |
| ApplyBuilder.RenameAndRetargetSkipped | src/lib/vercel-cli/apply-builder.ts:142-151 | a rename or retarget becomes one "unsupported_operation_kind" skip keyed by the after key, else the before key |
| ApplyExecutor.CommandFor | src/lib/vercel-cli/apply-executor.ts:34-78 | the runner is called exactly for an add or remove with a non-empty key and an environment: `vercel env add <key> <env> --scope <scope> --force --no-color` with the value and a newline on stdin, or `vercel env rm <key> <env> --scope <scope> -y --no-color` with no stdin, in the workspace, with a 30 000 ms timeout |
| ApplyExecutor.ResultFor | src/lib/vercel-cli/apply-executor.ts:24-103 | a skip is "skipped" with its reason; an action without key or environment fails with "invalid_action"; otherwise it is "done" with no message exactly when the command succeeds, and fails with the CLI error's message or "add_operation_failed" |
| ApplyExecutor.ExecuteStep | src/lib/vercel-cli/apply-executor.ts:23-104 | one turn of the loop extends the calls and results of the actions before it by those of the next action |
| ApplyExecutor.ExecuteCliAddActions | src/lib/vercel-cli/apply-executor.ts:17-107 | the results are each action's own result in order, with the runner's outcomes taken in call order, and the runner is handed the commands of the runnable actions in order |
| ApplyExecutor.ValueNeverInArgs | src/lib/vercel-cli/apply-executor.ts:48-60 | the value never appears in the arguments: changing it leaves them the same |
| ApplyExecutor.CallCount | src/lib/vercel-cli/apply-executor.ts:23-78 | there is one runner call per runnable action and none for skips or invalid actions |
| ApplyExecutor.RequestCountRunnable | src/lib/vercel-cli/apply-executor.ts:23-78 | the calls counted by the run are the runnable actions |
| ApplyExecutor.CallOfAction | src/lib/vercel-cli/apply-executor.ts:23-78 | the command of a runnable action is the call numbered by the runnable actions before it |
| ApplyExecutor.ResultOfAction | src/lib/vercel-cli/apply-executor.ts:23-104 | result k is action k's own, from the outcome of its call |
| ApplyExecutor.AddThenRemove | src/lib/vercel-cli/apply-executor.ts:17-107 | an add then a remove that both succeed give two "done" results, the add called first with the value on stdin and the remove with none |
| ApplyMerge.PerOperation | src/app/api/vercel/apply/route.ts:54 | an operation's share only holds action results carrying its id |
| ApplyMerge.Messages | src/app/api/vercel/apply/route.ts:57-60 | only non-empty messages are joined |
| ApplyMerge.MergeOne | src/app/api/vercel/apply/route.ts:53-90 | an operation fails exactly when one of its actions failed, with the joined messages or "Operation failed."; else it is skipped exactly when all its actions were skipped, with the joined messages or "Operation skipped."; else it is done with no message; createdId is always null |
| ApplyMerge.MergeActionResults | src/app/api/vercel/apply/route.ts:52-96 | accepted is the number of operations, and result i is operation i's merged result |
| ApplyMerge.PerOperationExact | src/app/api/vercel/apply/route.ts:54 | an action result is in an operation's share exactly when it carries the operation's id |
| ApplyMerge.JoinEmptyOnlyWhenNone | src/app/api/vercel/apply/route.ts:60-66 | non-empty messages join to the empty string only when there are none |
| ApplyMerge.MessagesExact | src/app/api/vercel/apply/route.ts:57-59 | a message is joined exactly when some action result carries it and it is not empty |
| ApplyMerge.FallbackOnlyWithoutMessages | src/app/api/vercel/apply/route.ts:66-80 | the fallback text is used exactly when no action result has a message |
| ApplyMerge.NoActionsSkipped | src/app/api/vercel/apply/route.ts:70-81 | an operation without action results is skipped with "Operation skipped." |
| ApplyMerge.OneFailureFailsOperation | src/app/api/vercel/apply/route.ts:56-67 | one failed action fails its operation |
| ApplyMerge.DoneMeansSomeActionDone | src/app/api/vercel/apply/route.ts:56-89 | an operation is done exactly when none of its actions failed and at least one is done |
| SdkApply.OperationRowId | src/lib/vercel/apply.ts:21-23 | a row id is read exactly when the operation id starts with the prefix, and prefix plus row id give back the operation id |
| SdkApply.SanitizedMessageMeaning | src/lib/vercel/apply.ts:25-34 | the error's message is kept exactly when it is a non-blank string, "Operation failed." is used otherwise, so the message is never blank |
| SdkApply.ExtractCreatedId | src/lib/vercel/apply.ts:36-64 | only an object response yields an id: its string `id`, else `created.id`, else `envs[0].id`, else null |
| SdkApply.CallFor | src/lib/vercel/apply.ts:81-197 | a request is sent exactly when the operation passes its pass's checks; it carries the project and team; a create sends the after side's key and value, an update the row id after "update-row:", a delete the row id after "delete-row:" |
| SdkApply.ResultClassification | src/lib/vercel/apply.ts:81-206 | renames and retargets are skipped with "Operation kind <kind> is not executable yet."; an operation is done exactly when its request is sent and resolves, with no message; only a done create has a created id, read from the response; a rejected request fails with the sanitized message; each check has its fixed failure message |
| SdkApply.OfKind | src/lib/vercel/apply.ts:73-75 | a pass only holds operations of its kind |
| SdkApply.NotExecutable | src/lib/vercel/apply.ts:76-79 | the last pass only holds operations of the other kinds |
| SdkApply.CreateStep | src/lib/vercel/apply.ts:81-120 | one turn of the create loop extends the requests and results of the operations before it by the next operation's |
| SdkApply.ApplyCreates | src/lib/vercel/apply.ts:81-120 | the create loop records each operation's result in order, the client's outcomes taken in request order |
| SdkApply.UpdateStep | src/lib/vercel/apply.ts:122-162 | one turn of the update loop, as for creates |
| SdkApply.ApplyUpdates | src/lib/vercel/apply.ts:122-162 | the update loop, as for creates |
| SdkApply.DeleteStep | src/lib/vercel/apply.ts:164-197 | one turn of the delete loop, as for creates |
| SdkApply.ApplyDeletes | src/lib/vercel/apply.ts:164-197 | the delete loop, as for creates |
| SdkApply.SkipRest | src/lib/vercel/apply.ts:199-206 | the skip loop records a skip per operation and sends no request |
| SdkApply.ApplyPlannedOperations | src/lib/vercel/apply.ts:66-212 | accepted is the number of operations; the results and the requests are those of one run over creates, then updates, then deletes, then the rest, the requests numbered across the passes |
| SdkApply.PassesJoin | src/lib/vercel/apply.ts:81-206 | four passes run one after the other equal one run over their concatenation |
| SdkApply.ResultOfOperation | src/lib/vercel/apply.ts:66-212 | result k belongs to operation k of the processing order; it is done exactly when that operation's request resolves, and skipped exactly when its kind has no pass |
| SdkApply.ProcessingOrderPermutes | src/lib/vercel/apply.ts:73-79 | every operation lands in exactly one pass |
| SdkApply.ResultPerOperation | src/lib/vercel/apply.ts:73-211 | there is one result per operation |
| SdkApply.PassesInOrder | src/lib/vercel/apply.ts:73-206 | creates are processed before updates, updates before deletes, and deletes before the rest |
| SdkApply.OfKindExact | src/lib/vercel/apply.ts:73-75 | an operation is in a pass exactly when it is in the input and has the pass's kind |
| SdkApply.PlannerUpdateIdRejected | src/lib/vercel/apply.ts:122-132 | an update whose id is "update:" then a row id is never sent, and fails with "Update operation is missing source row reference." |
| SdkApply.PlannerDeleteIdRejected | src/lib/vercel/apply.ts:164-174 | a delete whose id is "delete:" then a row id is never sent, and fails with "Delete operation is missing source row reference." |
| SdkApply.SanitizeErrorMessage | src/lib/vercel/apply.ts:25-34 | no contract of its own: the error's own message when it is a non-blank string, else "Operation failed."; SdkApply.SanitizedMessageMeaning states it |
| Redact.WordRun | src/lib/vercel-cli/redact.ts:1 | the run of name characters from a position is maximal: every character in it is one, and the next is not |
| Redact.AssignedNameExact | src/lib/vercel-cli/redact.ts:1-7 | the assignment pattern matches at a line's start exactly when the line begins with a name and `=`, and that name is the one captured |
| Redact.RedactLine | src/lib/vercel-cli/redact.ts:7-13 | rewriting one line never introduces a newline |
| Redact.RedactLines | src/lib/vercel-cli/redact.ts:7-13 | each line is rewritten on its own |
| Redact.SecretLineRedacted | src/lib/vercel-cli/redact.ts:4-13 | a line assigning to a name that contains a secret word in any case keeps only the name and `=[REDACTED]`; any other assignment line is kept whole |
| Redact.OtherLinesKept | src/lib/vercel-cli/redact.ts:1-7 | a line that does not start with a name and `=` is never touched |
| Redact.SecretWordsReduce | src/lib/vercel-cli/redact.ts:4 | a name is secret exactly when it contains TOKEN, SECRET, PASSWORD, PRIVATE, AUTH or KEY in any case; API_KEY and ACCESS_KEY add nothing |
| Redact.SplitJoin | src/lib/vercel-cli/redact.ts:1 | splitting a join of newline-free lines at newlines gives the lines back |
| Redact.EnvAssignmentsPerLine | src/lib/vercel-cli/redact.ts:1-14 | the newlines are kept, and line i of the output is line i of the input rewritten on its own |
| Redact.EnvAssignmentsKeepOtherText | src/lib/vercel-cli/redact.ts:6-14 | text with no secret assignment at the start of a line comes out unchanged |
| Redact.MarkerMeaning | src/lib/vercel-cli/redact.ts:2-3 | the `--token` marker is matched exactly, and `Bearer` in any case |
| Redact.SpaceRun | src/lib/vercel-cli/redact.ts:2-3 | the run of white space from a position is maximal |
| Redact.NonSpaceRun | src/lib/vercel-cli/redact.ts:2-3 | the run of non-space characters from a position is maximal |
| Redact.KeptLength | src/lib/vercel-cli/redact.ts:2-19 | the kept group, the marker and the spaces after it, lies within the text |
| Redact.MatchEnd | src/lib/vercel-cli/redact.ts:2-3 | a match ends after a non-empty value, within the text |
| Redact.MarkerNoOverlap | src/lib/vercel-cli/redact.ts:2-3 | a marker cannot start again inside itself |
| Redact.NoMatchKept | src/lib/vercel-cli/redact.ts:18-19 | text with no match comes out unchanged |
| Redact.FirstMatch | src/lib/vercel-cli/redact.ts:18-19 | the first match position has no match before it |
| Redact.NoNewMatch | src/lib/vercel-cli/redact.ts:18-19 | redacting creates no match at a position where the input had none |
| Redact.RedactArgsIdempotent | src/lib/vercel-cli/redact.ts:16-20 | redacting `--token` or `Bearer` values twice is the same as once |
| Redact.RedactArgs | src/lib/vercel-cli/redact.ts:2-3 | no contract of its own: one global `replace` of the `--token` or `Bearer` pattern, scanning left to right and resuming after each match; Redact.RedactArgsIdempotent and the per-match lemmas beside it state what it does |
| Redact.RedactEnvAssignments | src/lib/vercel-cli/redact.ts:6-14 | no contract of its own: the assignment pass, line by line; Redact.EnvAssignmentsPerLine and Redact.EnvAssignmentsKeepOtherText state what it does |
| Redact.RedactSensitiveText | src/lib/vercel-cli/redact.ts:16-20 | no contract of its own: the assignment pass, then the `--token` pass, then the `Bearer` pass, in the source's order; each pass is stated by the lemmas named on its own row |
| ApplyLock.ApplyLocks.constructor | src/lib/vercel-cli/apply-lock.ts:1 | the registry starts empty |
| ApplyLock.ApplyLocks.WithProjectApplyLock | src/lib/vercel-cli/apply-lock.ts:14-32 | the outcome and the registry left behind are those of the guarded call on the registry before it |
| ApplyLock.ConflictExactlyWhenHeld | src/lib/vercel-cli/apply-lock.ts:19-23 | a call fails with the conflict error exactly when its key is already held, and then `fn` does not run |
| ApplyLock.HeldWhileRunning | src/lib/vercel-cli/apply-lock.ts:25-28 | `fn` runs while its key is held, together with every key held before |
| ApplyLock.NestedCallConflicts | src/lib/vercel-cli/apply-lock.ts:21-28 | a nested call for the same key from inside `fn` conflicts |
| ApplyLock.RegistryRestored | src/lib/vercel-cli/apply-lock.ts:27-31 | whether `fn` returns or throws, the registry is left as the call found it |
| ApplyLock.SequentialCallsIndependent | src/lib/vercel-cli/apply-lock.ts:14-32 | a call after another behaves as if it ran alone |
| ApplyLock.DistinctKeysIndependent | src/lib/vercel-cli/apply-lock.ts:19-23 | another key being held never decides whether a call conflicts |
| ApplyLock.LockKeyInjective | src/lib/vercel-cli/apply-lock.ts:10-12 | when project ids contain no `:`, the key determines the scope id and the project id |
| ApplyLock.LockKey | src/lib/vercel-cli/apply-lock.ts:10-12 | no contract of its own: scope id and project id joined by "::"; ApplyLock.LockKeyInjective states when two keys are equal |
| Link.LinkCache.constructor | src/lib/vercel-cli/link.ts:9 | the cache starts empty |
| Link.LinkCache.LinkVercelProjectWorkspace | src/lib/vercel-cli/link.ts:15-37 | the result and the cache left behind are those of one link step on the cache before it: a cached key runs nothing, otherwise `vercel link` runs in the workspace with a 20 000 ms timeout and the key is cached only when the run returns |
| Link.NullScopeIsPersonal | src/lib/vercel-cli/link.ts:11-13 | a null scope and the scope "personal" share a cache key |
| Link.CachedKeyRunsNothing | src/lib/vercel-cli/link.ts:19-22 | a cached key returns at once, runs nothing and leaves the cache as it is, whatever the runner would do |
| Link.ScopeFlagOnlyForNonEmptyScope | src/lib/vercel-cli/link.ts:24-27 | the five fixed arguments come first, and a `--scope` pair follows exactly when the scope is a non-empty string |
| Link.FailureStaysUncached | src/lib/vercel-cli/link.ts:29-36 | a run that throws leaves the key uncached, so the next call runs the command again |
| Link.SuccessIsCached | src/lib/vercel-cli/link.ts:29-36 | after a run that returns, every later call for that key is skipped |
| Link.CacheGrowsByOneKey | src/lib/vercel-cli/link.ts:19-36 | the cache only grows, and only by the key of the call |
| Link.LinkedKey | src/lib/vercel-cli/link.ts:11-13 | no contract of its own: workspace, scope (`personal` when null) and project joined by "::"; Link.NullScopeIsPersonal and the cache lemmas state how it is used |
| Link.LinkArgs | src/lib/vercel-cli/link.ts:24-27 | no contract of its own: the `vercel link` arguments; Link.ScopeFlagOnlyForNonEmptyScope states them |
| ProjectSnapshot.Payload | src/lib/vercel/project-snapshot.ts:8-13 | the payload keeps the project id and capabilities, and holds the environments and the records sorted by id, as permutations of the snapshot's |
| ProjectSnapshot.HashIgnoresListOrder | src/lib/vercel/project-snapshot.ts:7-16 | with unique ids, listing the same environments and records in another order gives the same payload and so the same hash |
| ProjectSnapshot.PayloadDeterminesContents | src/lib/vercel/project-snapshot.ts:8-13 | equal payloads come only from snapshots with the same project id, capabilities, environments and records |
| ProjectSnapshot.PayloadsAgreeIffSameContents | src/lib/vercel/project-snapshot.ts:8-13 | with unique ids, payloads agree exactly when the contents do |
| ProjectSnapshot.SortedListsHashedAsGiven | src/lib/vercel/project-snapshot.ts:11-12 | lists already sorted by unique id are hashed as they stand |
| ProjectSnapshot.HashProjectSnapshot | src/lib/vercel/project-snapshot.ts:7-16 | no contract of its own: the digest, a parameter, of the payload with both lists sorted by id; ProjectSnapshot.HashIgnoresListOrder states that list order does not change it |
| EnvRecords.BuiltInOf | src/lib/vercel/env-records.ts:9-13 | a value names a built-in environment exactly when it is one of the strings "production", "preview" and "development" |
| EnvRecords.TargetArrayKeepsBuiltIns | src/lib/vercel/env-records.ts:6-11 | an array target keeps exactly its built-in names, each as often as listed |
| EnvRecords.BuiltInsCount | src/lib/vercel/env-records.ts:7-10 | the filter keeps each built-in name as often as the array lists it |
| EnvRecords.TargetOfSingleValue | src/lib/vercel/env-records.ts:13-17 | a single value gives a one-element target when it is a built-in name, and none otherwise |
| EnvRecords.MissingTargetEmpty | src/lib/vercel/env-records.ts:17 | a missing target is empty |
| EnvRecords.StringsKept | src/lib/vercel/env-records.ts:43-45 | customEnvironmentIds keeps exactly its string entries, each as often as it appears |
| EnvRecords.RecordFields | src/lib/vercel/env-records.ts:34-49 | string fields are taken as given and anything else is defaulted; the type is encrypted only for "encrypted"; a record is a system record when its type is "system" or its system flag is true |
| EnvRecords.IdentifiedIffStrings | src/lib/vercel/env-records.ts:38-51 | a record passes the final filter exactly when its id and key are non-empty strings |
| EnvRecords.RecordsComeFromItems | src/lib/vercel/env-records.ts:32-51 | every record kept has a non-empty id and key and comes from an object item |
| EnvRecords.IdentifiedItemsKept | src/lib/vercel/env-records.ts:32-51 | every object item with a non-empty string id and key yields a record |
| EnvRecords.ResponseShapes | src/lib/vercel/env-records.ts:20-31 | an array response is read as it is, an object through its envs array, and anything else gives no records |
| EnvRecords.NormalizeTarget | src/lib/vercel/env-records.ts:5-18 | no contract of its own: the built-in names of an array, a single built-in name as a list, anything else empty; EnvRecords.TargetArrayKeepsBuiltIns, EnvRecords.TargetOfSingleValue and EnvRecords.MissingTargetEmpty state it |
| EnvRecords.NormalizeProjectEnvsResponse | src/lib/vercel/env-records.ts:20-52 | no contract of its own: the records of a bare array or of an `envs` array, anything else none; EnvRecords.ResponseShapes states it |
| Environments.CustomColumn | src/lib/vercel/environments.ts:37-42 | a custom environment becomes a custom column that carries its id |
| Environments.CustomColumns | src/lib/vercel/environments.ts:36-42 | one column per custom environment, in the order given |
| Environments.ColumnsShape | src/lib/vercel/environments.ts:26-46 | the result is the three built-ins in order, then the custom columns sorted by name, as a permutation of the custom environments' columns |
| Environments.CustomColumnsFromInput | src/lib/vercel/environments.ts:36-45 | a column follows the built-ins exactly when it is the column of one of the custom environments |
| Environments.CustomColumnMeaning | src/lib/vercel/environments.ts:38-41 | a custom column has id "custom:<id>", is named by the slug, and never shares an id with a built-in |
| Environments.MissingListGivesBuiltIns | src/lib/vercel/environments.ts:36-45 | without custom environments, or without the list, only the built-ins remain |
| Environments.BuiltInsMatchCliSnapshot | src/lib/vercel/environments.ts:5-24 | the built-in columns are the same as on the CLI path |
| Environments.ProjectEnvironments | src/lib/vercel/environments.ts:26-44 | no contract of its own: the three built-in columns, then the custom ones sorted by name; Environments.ColumnsShape, Environments.CustomColumnsFromInput and Environments.MissingListGivesBuiltIns state it |
| TuiMachine.TransitionScreen | src/tui/state/machine.ts:15-28 | a move that succeeds always lands on the requested screen |
| TuiMachine.TransitionTable | src/tui/state/machine.ts:3-13 | a move is allowed exactly for the pairs auth→picker, picker→auth and editor, editor→picker, confirm and report, confirm→editor and report, report→editor and picker |
| TuiMachine.NoSelfTransition | src/tui/state/machine.ts:3-9 | no screen lists itself |
| TuiMachine.SameScreenUnchanged | src/tui/state/machine.ts:16-18 | moving to the current screen returns the state as it is |
| TuiMachine.TransitionOutcome | src/tui/state/machine.ts:15-28 | a move to another screen succeeds exactly when the table allows it and then changes the screen and nothing else; otherwise it throws "Invalid screen transition: <from> -> <to>" |
| TuiMachine.RejectionMessagePrefix | src/tui/state/machine.ts:21 | the rejection message starts with "Invalid screen transition" |
| TuiMachine.ApplyFlowAllowed | src/tui/state/machine.ts:3-9 | auth, picker, editor, confirm, report is allowed step by step, and auth cannot jump to the editor |
| TuiMachine.AllowedTransitions | src/tui/state/machine.ts:3-9 | no contract of its own: the transition table; TuiMachine.TransitionTable states the relation it defines |
| TuiMachine.CanTransitionScreen | src/tui/state/machine.ts:11-13 | no contract of its own: membership in the table; TuiMachine.TransitionTable and TuiMachine.NoSelfTransition state it |
| TuiStore.Notifications | src/tui/state/store.ts:47 | one call per listener, in subscription order, each with the new state |
| TuiStore.Removed | src/tui/state/store.ts:69 | removing a listener never grows the set |
| TuiStore.Store.constructor | src/tui/state/store.ts:8-39 | the store starts from the given state, or the initial one, with no listeners and no calls |
| TuiStore.Store.SetState | src/tui/state/store.ts:45-48 | the state is replaced and every listener is called once with it, in order |
| TuiStore.Store.PatchState | src/tui/state/store.ts:50-55 | the fields present in the patch are overwritten, then every listener is called with the new state |
| TuiStore.Store.TransitionTo | src/tui/state/store.ts:57-59 | an allowed move sets the moved state and calls the listeners; a rejected one throws its message and changes nothing |
| TuiStore.Store.Reset | src/tui/state/store.ts:61-63 | the state goes back to the initial one and every listener is called with it |
| TuiStore.Store.Subscribe | src/tui/state/store.ts:65-67 | the listener is added once, the state and calls untouched |
| TuiStore.Store.Unsubscribe | src/tui/state/store.ts:68-70 | the listener is removed, the state and calls untouched, and the set stays a set |
| TuiStore.InitialStateShape | src/tui/state/store.ts:8-31 | the initial state is the auth screen with nothing loaded or selected, no report, and not loading |
| TuiStore.NotifiedOncePerListener | src/tui/state/store.ts:47 | with a set of listeners, each is called exactly once per new state and no one else is |
| TuiStore.PatchIdentityAndIdempotence | src/tui/state/store.ts:50-55 | an empty patch changes nothing, and a patch applied twice is the same as once |
| TuiStore.PatchesCompose | src/tui/state/store.ts:50-55 | two patches in a row equal their merge, the later one winning on shared fields |
| TuiStore.PatchTouchesOnlyPresentFields | src/tui/state/store.ts:50-55 | a field absent from the patch keeps its value, and one present takes the patch's |
| TuiStore.RemovedMeaning | src/tui/state/store.ts:69 | after unsubscribing, the listener is gone and every other one stays |
| TuiStore.RemovedKeepsDistinct | src/tui/state/store.ts:69 | removing keeps a set a set |
| TuiStore.SubscribeThenUnsubscribe | src/tui/state/store.ts:65-71 | subscribing then unsubscribing a new listener leaves the set as it was |
| TuiStore.UnsubscribedNotCalled | src/tui/state/store.ts:47-70 | a listener that unsubscribed is not called by later state changes |
| TuiStore.InitialState | src/tui/state/store.ts:8-30 | no contract of its own: the state the store starts and resets to; TuiStore.InitialStateShape states it field by field |
| GlobalKeys.HandleGlobalKeySequence | src/tui/keyboard/global-keys.ts:8-34 | a sequence counts as handled exactly when a callback runs |
| GlobalKeys.CtrlCAlwaysQuits | src/tui/keyboard/global-keys.ts:9-12 | Ctrl+C quits in every mode |
| GlobalKeys.TextInputKeepsKeys | src/tui/keyboard/global-keys.ts:14-16 | with a text field focused, every other sequence is left unhandled |
| GlobalKeys.KeyBindings | src/tui/keyboard/global-keys.ts:8-34 | quit runs exactly for Ctrl+C, or q/Q outside text input; help exactly for ?, h or H outside text input; refresh exactly for r or R outside text input |
| GlobalKeys.HandledSequences | src/tui/keyboard/global-keys.ts:8-34 | outside text input exactly eight sequences are handled |
| ReportFormat.FormatGroupLines | src/tui/screens/report-format.ts:3-9 | a header line and then one "- " line per entry, in order |
| ReportFormat.StatusLines | src/tui/screens/report-format.ts:16-26 | a group never has more lines than there are results |
| ReportFormat.GroupHeader | src/tui/screens/report-format.ts:4-8 | the header is "<Title>: <count>", "<Title>: 0" for an empty group |
| ReportFormat.GroupsPartition | src/tui/screens/report-format.ts:16-26 | every result falls in exactly one of the three groups |
| ReportFormat.GroupMembers | src/tui/screens/report-format.ts:16-26 | a group lists the lines of exactly the results with its status |
| ReportFormat.ReportLineCount | src/tui/screens/report-format.ts:11-34 | a null report gives the placeholder alone; any other has four lines more than it has results |
| ReportFormat.ReportLayout | src/tui/screens/report-format.ts:28-33 | the accepted count comes first, then the done, failed and skipped headers, each followed by its group's lines |
| ReportFormat.EveryResultListed | src/tui/screens/report-format.ts:16-33 | every result appears as a "- " line |
| ReportFormat.ListedInGroup | src/tui/screens/report-format.ts:8 | every entry of a group appears as a "- " line of it |
| ReportFormat.LineFormats | src/tui/screens/report-format.ts:18-26 | a done line shows the message in parentheses only when it is non-empty; a failed or skipped line shows the message, or "failed" or "skipped" when there is none |
| ReportFormat.FormatApplyReportLines | src/tui/screens/report-format.ts:11-35 | no contract of its own: the accepted count, then the done, failed and skipped groups; ReportFormat.ReportLineCount, ReportFormat.ReportLayout and ReportFormat.EveryResultListed state it |
| ChangeLog.OperationBadge | src/tui/screens/change-log.ts:3-21 | every badge is three characters |
| ChangeLog.Reverse | src/tui/screens/change-log.ts:28-29 | the copy holds the same operations in the opposite order |
| ChangeLog.LinesNewestFirst | src/tui/screens/change-log.ts:23-31 | with operations pending, one line per operation, the last operation first; otherwise "No pending operations." |
| ChangeLog.NewOperationOnTop | src/tui/screens/change-log.ts:28-30 | an operation appended to the plan shows as the first line, above the earlier ones |
| ChangeLog.ReverseTwice | src/tui/screens/change-log.ts:28-29 | reversing twice gives the list back |
| ChangeLog.BadgesDistinct | src/tui/screens/change-log.ts:3-21 | the five kinds get five different badges, and only a retarget gets RTG |
| ChangeLog.LineShape | src/tui/screens/change-log.ts:30 | every line is the badge in brackets, a space and the operation's summary |
| ChangeLog.FormatChangeLogLines | src/tui/screens/change-log.ts:23-32 | no contract of its own: one badge line per operation, newest first, or the empty-log line; ChangeLog.LinesNewestFirst and ChangeLog.NewOperationOnTop state it |
| Workspace.DisallowedRun | src/lib/vercel-cli/workspace.ts:18 | the run of characters outside `[a-zA-Z0-9_-]` from a position is maximal |
| Workspace.CollapseDisallowed | src/lib/vercel-cli/workspace.ts:18 | after the first replace only path characters remain, and the text never grows |
| Workspace.DropLeadingDashes | src/lib/vercel-cli/workspace.ts:18 | the leading run of dashes, and only it, is removed |
| Workspace.DropTrailingDashes | src/lib/vercel-cli/workspace.ts:18 | the trailing run of dashes, and only it, is removed |
| Workspace.SanitizedShape | src/lib/vercel-cli/workspace.ts:17-19 | a sanitized name uses only `[a-zA-Z0-9_-]`, has at most 48 characters and never starts with `-` |
| Workspace.SanitizeKeepsCleanNames | src/lib/vercel-cli/workspace.ts:17-19 | a name of at most 48 path characters that neither starts nor ends with `-` is kept as it is |
| Workspace.CollapseKeepsPathChars | src/lib/vercel-cli/workspace.ts:18 | text made only of path characters is not changed by the first replace |
| Workspace.NothingAllowedGivesEmpty | src/lib/vercel-cli/workspace.ts:17-19 | a name without any path character sanitizes to the empty string |
| Workspace.DisallowedRunAll | src/lib/vercel-cli/workspace.ts:18 | a run to the end of the text is taken whole |
| Workspace.FolderNameHasNoSeparator | src/lib/vercel-cli/workspace.ts:21-24 | with a hex digest the folder name holds no `/`, so the workspace sits directly inside the root |
| Workspace.NoSlash | src/lib/vercel-cli/workspace.ts:17-19 | a string of path characters holds no `/` |
| Workspace.DigestSeparatesFolders | src/lib/vercel-cli/workspace.ts:21-24 | names whose sanitized parts coincide are told apart by different digest prefixes |
| Workspace.WorkspaceRegistry.constructor | src/lib/vercel-cli/workspace.ts:9 | the registry starts empty |
| Workspace.WorkspaceRegistry.CleanupExpiredWorkspaces | src/lib/vercel-cli/workspace.ts:30-41 | every entry last used more than fifteen minutes before is dropped, the rest kept, and the dropped paths are the folders removed |
| Workspace.WorkspaceRegistry.EnsureProjectWorkspace | src/lib/vercel-cli/workspace.ts:67-80 | the path is the workspace path of the scope and project; the registry is the cleaned one with the path recorded at its use time, so the path is tracked with a timestamp no older than the cleanup time and no entry left is expired at that time |
| Workspace.ExpiredComplement | src/lib/vercel-cli/workspace.ts:30-41 | removing the expired paths leaves exactly the unexpired entries |
| Workspace.TtlBoundary | src/lib/vercel-cli/workspace.ts:6-32 | an entry exactly fifteen minutes old is kept, and one a millisecond older is removed |
| Workspace.CleanupPartitions | src/lib/vercel-cli/workspace.ts:30-41 | every path is either kept with its timestamp or removed, never both |
| Workspace.CleanupIdempotent | src/lib/vercel-cli/workspace.ts:30-41 | a second cleanup at the same time removes nothing |
| Workspace.LaterCleanupKeepsLess | src/lib/vercel-cli/workspace.ts:30-41 | a later cleanup keeps no more than an earlier one |
| Workspace.EnsuredWorkspaceSurvives | src/lib/vercel-cli/workspace.ts:67-80 | a workspace just ensured survives every cleanup within fifteen minutes of its recorded use |
| Workspace.SanitizeForPath | src/lib/vercel-cli/workspace.ts:17-19 | no contract of its own: one dash per run of disallowed characters, dash runs dropped at both ends, at most 48 characters; Workspace.SanitizedShape and Workspace.SanitizeKeepsCleanNames state what it produces |
| Workspace.WorkspaceFolderName | src/lib/vercel-cli/workspace.ts:21-24 | no contract of its own: sanitized scope, sanitized project id and the first ten digest characters, joined by dashes; Workspace.FolderNameHasNoSeparator and Workspace.DigestSeparatesFolders state what it produces |
| Workspace.GetWorkspacePath | src/lib/vercel-cli/workspace.ts:26-28 | no contract of its own: the folder name inside the workspace root; Workspace.WorkspaceRegistry.EnsureProjectWorkspace returns it |

## Left out

- Process and network I/O are not modelled: spawning `vercel`, stream buffering, timeouts and killing, and the SDK's HTTP calls. Every call is an outcome supplied from outside, indexed by call number. That covers the runner in `executeCliAddActions`, `linkVercelProjectWorkspace` and the auth probes, and the client in `applyPlannedOperations`.
- `listVercelEnvTopology`, `listVercelTeamScopes` and `listVercelProjects` only run a CLI command and hand its output to the parsers. The parsers are modelled; the commands are outside calls.
- `getProjectEnvRecords` and the API call inside `getProjectEnvironments` are outside calls. The model starts from the response they return.
- `withWorkspaceLock` (src/lib/vercel-cli/workspace.ts:43-65) is not modelled. It chains promises to serialise concurrent callers, and the model is sequential. The apply lock is modelled as a registry of held keys, with the guarded function `fn` taking the keys held while it runs.
- Filesystem effects are not modelled: `mkdir`, `rm` with its mode and recursion, and the temporary directory. `Workspace.WorkspaceRegistry.CleanupExpiredWorkspaces` returns the set of paths whose folders it removes. The workspace root is a parameter, joined with `/` without `path.join`'s normalisation.
- SHA-1, SHA-256 and `crypto.randomUUID` are parameters. So the model does not state that a baseline hash has 64 hex digits, or that a digest slice has ten.
- Workspace.WorkspaceRegistry.EnsureProjectWorkspace: `Date.now()` is a parameter, and the two clock readings are `now` and `usedAt`. The model requires `now <= usedAt`, a clock that does not run backwards between them, which `Date.now()` does not guarantee when the system clock is set back.
- `JSON.parse` and `JSON.stringify` are not modelled. Responses arrive as parsed JSON values. The change and undo fingerprints are compared as structures: the assignments fingerprint's sensitivity to key insertion order is not modelled. Assignment maps in the model have no order.
- JavaScript objects list integer-like keys first. The dotenv maps keep insertion order for every key, which differs only for keys that are decimal integers, and those are not valid variable names.
- `localeCompare` is the lexicographic order on character codes, not a locale's collation. Every sort in the model uses this order.
- Projects.MatchingExact: `toLowerCase` is ASCII lower-casing. A project name with non-ASCII capitals may match differently.
- Teams.ToSlugIsSlug: `toSlug` lower-cases ASCII only. A few non-ASCII capitals lower-case to ASCII letters in JavaScript, such as the Kelvin sign and the dotted capital I. They become a dash in the model but a letter in the source.
- TuiStore.Store.PatchState: a patch field is either present or absent. A field present with the value `undefined` is not modelled.
- TuiStore: listeners are numbers, and each call is logged with the state it was given. What a listener does is not modelled. `getState` reads the `state` field, and `createTuiStore` is the constructor called with no initial state.
- ApplyLock.LockKeyInjective: this holds only when project ids contain no `:`. Project ids have the form `prj_…`.
- ValuePool.NextValueIdFresh: serials are unbounded integers. The source reads them with `Number.parseInt` and adds 1 in double precision (src/tui/editor/value-pool.ts:16, 20). From 2^53 on, two serials can read as one number and the next id can repeat an existing one; from 10^21 on, the id is printed in exponent form. The promise holds for the source only while serials stay below 2^53.
- ValuePool.NextValueIdExceeds: the same limit applies, since the next serial is computed exactly here and in double precision in the source.
- Projects.SummaryOf: JSON numbers are integers in the model. A non-integral `updatedAt` (src/lib/vercel-cli/projects.ts:39) cannot be represented, so sorting by it is stated for integer timestamps only.
- Normalize.SignatureOf: the model's value pool is keyed by this five-part tuple. src/lib/env-model/normalize.ts:23, 29-30 and 44 key it by the parts joined with "::". Records whose joined strings collide get one entry in the source and two in the specified grouping (see "## Findings"). The two build the same row whenever no two records of a key with different tuples collide (`Normalize.KeyGroupAgrees`, `Normalize.NormalizedDraftAgrees`). That holds whenever no value, comment or git branch contains ':' (`Normalize.ColonFreeJoinedInjective`).
- Normalize.GroupFoldInvariant: the invariant is the tuple-keyed loop's. The source's loop differs only on colliding joined strings, as under Normalize.SignatureOf.
- Normalize.KeyGroupPool: the pool stated is the tuple grouping's. On colliding joined strings the source's pool has fewer entries, as under Normalize.SignatureOf.
- Normalize.KeyGroupShareIff: this is the intended sharing rule. The source shares an entry exactly when the joined strings are equal, as under Normalize.SignatureOf.
- Normalize.KeyGroupAssignments: the entry a column names is chosen by tuple. On colliding records the source names the merged entry instead, as `Normalize.AsWrittenMergesColliding` shows.
- Normalize.RowsFor: the rows are tuple-grouped. They are the source's rows under the condition of `Normalize.NormalizedDraftAgrees`.
- Normalize.NormalizeKeyGroup: the loop's map is keyed by the signature tuple, not by the joined string. It builds the source's row under the condition of `Normalize.KeyGroupAgrees`.
- Normalize.VisitRecord: the callback looks up the signature tuple where the source looks up the joined string, as under Normalize.SignatureOf.
- Normalize.NormalizeRows: the rows are tuple-grouped, as under Normalize.RowsFor.
- Normalize.NormalizeSnapshotToDraft: the draft is tuple-grouped. With colliding joined signatures it keeps two pool entries, and both comments, where the source keeps one. Without collisions it is the source's draft (`Normalize.NormalizedDraftAgrees`).
- The route handler around `mergeActionResults` is not modelled: request validation, auth, scope resolution, the baseline hash check and the response. The React and TUI screens, session handling and the TUI data loaders are not modelled either.
- The source has no definition of `confirm-gate.ts` or `math.ts`. Neither is part of this model.

Some tests in the repository expect behaviour the code does not have. The model follows the code in each case:

- src/lib/env-model/normalize.test.ts:60-67 expects the value pool to be reordered, but normalize.ts:61 keeps pool entries in order of first appearance.
- src/lib/env-model/normalize.test.ts:84-90 expects built-in columns first, but normalize.ts:93 copies the environments as given.
- src/lib/env-model/planner.test.ts:246-250 expects a `delete_env`, but planner.ts emits a `retarget` for that change.
- src/lib/env-model/draft-store.test.ts:37-74 calls `addValue`, `editValue`, `setAssignment` and `undoRowChange` on the store. draft-store.ts defines none of them.
- src/lib/vercel-cli/apply-executor.test.ts:88 expects a redacted failure message. apply-executor.ts:92 passes the CLI error's message through unchanged, and `ApplyExecutor.ResultFor` states that.
- The legacy SDK applier reads row ids after "update-row:" and "delete-row:". The planner names its operations "update:<rowId>" and "delete:<rowId>". As `SdkApply.PlannerUpdateIdRejected` and `SdkApply.PlannerDeleteIdRejected` show, every planned update and delete fails there before any request is sent.

## Findings

| source | as written | input that shows it | evidently intended | confidence | as-written member | corrected member |
|---|---|---|---|---|---|---|
| src/lib/env-model/normalize.ts:5-13 | the value signature joins value, type, comment, git branch and read-only reason with "::", so two different records can share one string | two records of one key, both plain with no git branch: one has value "x::plain" and no comment, the other value "x" and comment "plain::"; both join to "x::plain::plain::::::", so they share one pool entry and one comment is lost | records share a pool entry exactly when all five parts are equal | not executed | Normalize.AsWrittenMergesColliding | Normalize.KeyGroupShareIff |
