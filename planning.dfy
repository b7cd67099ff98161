/** `computePendingOperations` (src/tui/editor/planning.ts). */
module Planning {
  import opened Wrappers
  import opened EnvTypes
  import opened Normalize
  import opened ChangeDetector
  import opened Planner

  /** The operations pending between the loaded baseline and the edited draft; nothing while either is missing. */
  function ComputePendingOperations(baseline: Option<Draft>, draft: Option<Draft>): (ops: seq<Operation>)
    ensures baseline.None? || draft.None? ==> ops == []
    ensures baseline.Some? && draft.Some? ==> |ops| == |DetectedChanges(baseline.value, draft.value)|
  {
    if baseline.None? || draft.None? then [] else PlanOperations(baseline.value, draft.value)
  }

  /** Right after a snapshot is loaded, baseline and draft agree, so nothing is pending. */
  lemma FreshlyLoadedHasNoPending(snapshot: Snapshot)
    ensures ComputePendingOperations(Some(NormalizedDraft(snapshot)), Some(NormalizedDraft(snapshot))) == []
  {
    NormalizedClonePlansNothing(snapshot, NormalizedDraft(snapshot));
  }

  /** Pending operation ids are the detected change ids, in order. */
  lemma PendingIdsAreChangeIds(baseline: Draft, draft: Draft)
    ensures |ComputePendingOperations(Some(baseline), Some(draft))| == |DetectedChanges(baseline, draft)|
    ensures forall i :: 0 <= i < |DetectedChanges(baseline, draft)| ==>
      ComputePendingOperations(Some(baseline), Some(draft))[i].id == DetectedChanges(baseline, draft)[i].changeId
  {
  }
}
