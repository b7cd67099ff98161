/**
 * Grouping of a snapshot's flat records into matrix rows
 * (src/lib/env-model/normalize.ts). Records of one key become one row;
 * records of the row whose value, type, comment, branch and read-only reason
 * agree share one entry of the row's value pool; each record points the
 * environments it targets at its entry.
 *
 * The source compares those five parts joined by "::", and two different
 * records can join to one string. The grouping specified here compares the
 * parts themselves; the grouping as written is defined beside it, with a
 * proof that the two build the same row whenever no two records of a key
 * collide, and with the input on which they differ.
 */
module Normalize {
  import opened Wrappers
  import opened Strings
  import opened EnvTypes

  // ---------------------------------------------------------------------
  // Value signatures
  // ---------------------------------------------------------------------

  /** What decides whether two records of a key share a value entry; null and "" coincide. */
  datatype ValueSignature = ValueSignature(
    content: string,
    vtype: ValueType,
    comment: string,
    gitBranch: string,
    readOnlyReason: string)

  function ReasonText(r: Option<ReadOnlyReason>): string
  {
    match r
    case None => ""
    case Some(x) => ReadOnlyReasonName(x)
  }

  /** The signature of a record, kept as a tuple of its five parts. */
  function SignatureOf(rec: RawRecord): (s: ValueSignature)
    ensures s.content == rec.value && s.vtype == rec.vtype
    ensures s.comment == rec.comment.GetOr("") && s.gitBranch == rec.gitBranch.GetOr("")
    ensures s.readOnlyReason == ReasonText(rec.readOnlyReason)
  {
    ValueSignature(rec.value, rec.vtype, rec.comment.GetOr(""), rec.gitBranch.GetOr(""), ReasonText(rec.readOnlyReason))
  }

  /** The signature a pool entry was created for. */
  function EntrySignature(v: ValueEntry): ValueSignature
  {
    ValueSignature(v.content, v.vtype, v.comment.GetOr(""), v.gitBranch.GetOr(""), ReasonText(v.readOnlyReason))
  }

  /** The five parts of a signature joined by "::", the string the source compares. */
  function JoinSig(sig: ValueSignature): string
  {
    Join([sig.content, ValueTypeName(sig.vtype), sig.comment, sig.gitBranch, sig.readOnlyReason], "::")
  }

  /** The source's signature as written: the five parts of the record joined by "::". */
  function JoinedSignature(rec: RawRecord): (s: string)
    ensures StartsWith(s, rec.value + "::")
  {
    var sig := SignatureOf(rec);
    JoinFive([sig.content, ValueTypeName(sig.vtype), sig.comment, sig.gitBranch, sig.readOnlyReason], "::");
    JoinSig(sig)
  }

  lemma JoinFive(p: seq<string>, sep: string)
    requires |p| == 5
    ensures Join(p, sep) == p[0] + sep + (p[1] + sep + (p[2] + sep + (p[3] + sep + p[4])))
  {
    assert Join(p[4..], sep) == p[4];
    assert Join(p[3..], sep) == p[3] + sep + Join(p[4..], sep);
    assert Join(p[2..], sep) == p[2] + sep + Join(p[3..], sep);
    assert Join(p[1..], sep) == p[1] + sep + Join(p[2..], sep);
  }

  /** The joined string is a function of the tuple: records sharing a tuple share a string. */
  lemma JoinedSignatureCoarser(a: RawRecord, b: RawRecord)
    requires SignatureOf(a) == SignatureOf(b)
    ensures JoinedSignature(a) == JoinedSignature(b)
  {
  }

  /**
   * Joining with "::" is not injective: a value containing "::plain" and a
   * comment ending in "::" produce one string, so the source would merge two
   * different values of a key into one entry.
   */
  lemma JoinedSignatureCollides(a: RawRecord, b: RawRecord)
    requires a.value == "x::plain" && a.vtype == Plain && a.comment.None?
    requires b.value == "x" && b.vtype == Plain && b.comment == Some("plain::")
    requires a.gitBranch.None? && b.gitBranch.None? && a.readOnlyReason.None? && b.readOnlyReason.None?
    ensures SignatureOf(a) != SignatureOf(b)
    ensures JoinedSignature(a) == JoinedSignature(b)
  {
    CollidingValueJoined(a);
    CollidingCommentJoined(b);
  }

  lemma CollidingValueJoined(a: RawRecord)
    requires a.value == "x::plain" && a.vtype == Plain && a.comment.None?
    requires a.gitBranch.None? && a.readOnlyReason.None?
    ensures JoinedSignature(a) == "x::plain::plain::::::"
  {
    var sa := [a.value, "plain", "", "", ""];
    JoinFive(sa, "::");
    ValueLiteral();
  }

  /** The five fields of the first record, joined, spelled out. */
  lemma ValueLiteral()
    ensures "x::plain" + "::" + ("plain" + "::" + ("" + "::" + ("" + "::" + ""))) == "x::plain::plain::::::"
  {
    var t3 := "" + "::" + "";
    assert t3 == "::";
    var t2 := "" + "::" + t3;
    assert t2 == "::::";
    var t1 := "plain" + "::" + t2;
    assert t1 == "plain::::::";
  }

  lemma CollidingCommentJoined(b: RawRecord)
    requires b.value == "x" && b.vtype == Plain && b.comment == Some("plain::")
    requires b.gitBranch.None? && b.readOnlyReason.None?
    ensures JoinedSignature(b) == "x::plain::plain::::::"
  {
    var sb := [b.value, "plain", "plain::", "", ""];
    JoinFive(sb, "::");
    CommentLiteral();
  }

  /** The five fields of the second record, joined, spelled out. */
  lemma CommentLiteral()
    ensures "x" + "::" + ("plain" + "::" + ("plain::" + "::" + ("" + "::" + ""))) == "x::plain::plain::::::"
  {
    var t3 := "" + "::" + "";
    assert t3 == "::";
    var t2 := "plain::" + "::" + t3;
    assert t2 == "plain::::::";
    var t1 := "plain" + "::" + t2;
    assert t1 == "plain::plain::::::";
  }

  // ---------------------------------------------------------------------
  // Specification of one key group
  // ---------------------------------------------------------------------

  /** The id of the n-th value entry created for a row. */
  function ValueId(n: nat): string
  {
    "value-" + NatToString(n)
  }

  lemma ValueIdInjective(m: nat, n: nat)
    requires ValueId(m) == ValueId(n)
    ensures m == n
  {
    assert NatToString(m) == ValueId(m)[6..];
    assert NatToString(n) == ValueId(n)[6..];
    NatToStringInjective(m, n);
  }

  /** The column ids of the environments. */
  function ColumnIds(envs: seq<EnvironmentColumn>): set<string>
  {
    set c | c in envs :: c.id
  }

  /** `createEmptyAssignments`: every column id mapped to null. */
  function EmptyAssignments(envs: seq<EnvironmentColumn>): (a: Assignments)
    ensures forall e :: e in a <==> e in ColumnIds(envs)
    ensures forall e :: e in a ==> a[e] == None
  {
    map e | e in ColumnIds(envs) :: None
  }

  /** The column ids a record's targets and custom environment ids name. */
  function BuiltInIds(target: seq<BuiltIn>): (r: seq<string>)
    ensures |r| == |target| && forall i :: 0 <= i < |target| ==> r[i] == BuiltInName(target[i])
  {
    seq(|target|, i requires 0 <= i < |target| => BuiltInName(target[i]))
  }

  function CustomIds(ids: seq<string>): (r: seq<string>)
    ensures |r| == |ids| && forall i :: 0 <= i < |ids| ==> r[i] == "custom:" + ids[i]
  {
    seq(|ids|, i requires 0 <= i < |ids| => "custom:" + ids[i])
  }

  function TargetIds(rec: RawRecord): seq<string>
  {
    BuiltInIds(rec.target) + CustomIds(rec.customEnvironmentIds)
  }

  /** Points every id of `ids` at value `v`, one write after another. */
  function AssignAll(a: Assignments, ids: seq<string>, v: string): (r: Assignments)
    ensures forall e :: e in r <==> e in a || e in ids
    ensures forall e :: e in r ==> r[e] == if e in ids then Some(v) else a[e]
  {
    if ids == [] then a else AssignAll(a, ids[..|ids| - 1], v)[ids[|ids| - 1] := Some(v)]
  }

  /** The index of the entry with this signature, or |values| when there is none. */
  function SigIndex(values: seq<ValueEntry>, sig: ValueSignature): (k: nat)
    ensures k <= |values|
    ensures k < |values| ==> EntrySignature(values[k]) == sig
    ensures forall j :: 0 <= j < k ==> EntrySignature(values[j]) != sig
  {
    if |values| == 0 then 0
    else if EntrySignature(values[0]) == sig then 0
    else 1 + SigIndex(values[1..], sig)
  }

  /** The entry a record creates when its signature is new; `n` is the counter after the increment. */
  function NewEntry(rec: RawRecord, n: nat): ValueEntry
  {
    ValueEntry(ValueId(n), rec.value, rec.vtype, rec.comment, rec.gitBranch, rec.readOnlyReason, [])
  }

  datatype GroupState = GroupState(values: seq<ValueEntry>, assignments: Assignments)

  /** The pool with an entry for the record's signature, created at the end when it is new. */
  function WithEntryFor(values: seq<ValueEntry>, rec: RawRecord): (r: seq<ValueEntry>)
    ensures SigIndex(values, SignatureOf(rec)) < |r|
  {
    if SigIndex(values, SignatureOf(rec)) < |values| then values else values + [NewEntry(rec, |values| + 1)]
  }

  /** The pool after a record: its entry (found or created) lists the record's id last. */
  function AddToPool(values: seq<ValueEntry>, rec: RawRecord): seq<ValueEntry>
  {
    var k := SigIndex(values, SignatureOf(rec));
    var v := WithEntryFor(values, rec);
    v[k := v[k].(sourceRows := v[k].sourceRows + [rec.id])]
  }

  /** One iteration of the loop over a key's records. */
  function GroupStep(st: GroupState, rec: RawRecord): GroupState
  {
    var id := WithEntryFor(st.values, rec)[SigIndex(st.values, SignatureOf(rec))].id;
    var a1 := AssignAll(st.assignments, BuiltInIds(rec.target), id);
    GroupState(AddToPool(st.values, rec), AssignAll(a1, CustomIds(rec.customEnvironmentIds), id))
  }

  function GroupFold(init: Assignments, recs: seq<RawRecord>): GroupState
  {
    if recs == [] then GroupState([], init)
    else GroupStep(GroupFold(init, recs[..|recs| - 1]), recs[|recs| - 1])
  }

  /** The row `normalizeKeyGroup` builds for a key and its records. */
  function KeyGroupRow(key: string, recs: seq<RawRecord>, envs: seq<EnvironmentColumn>): Row
  {
    var st := GroupFold(EmptyAssignments(envs), recs);
    Row("row:" + key, key, st.values, st.assignments, recs, false)
  }

  // ---------------------------------------------------------------------
  // Properties of one key group
  // ---------------------------------------------------------------------

  /** The ids, in record order, of the records with this signature. */
  function IdsWithSig(recs: seq<RawRecord>, sig: ValueSignature): seq<string>
  {
    if recs == [] then []
    else IdsWithSig(recs[..|recs| - 1], sig) + (if SignatureOf(recs[|recs| - 1]) == sig then [recs[|recs| - 1].id] else [])
  }

  /** The index of the last record that targets column `e`, if any. */
  function LastTargeting(recs: seq<RawRecord>, e: string): (r: Option<nat>)
    ensures r.Some? ==> r.value < |recs| && e in TargetIds(recs[r.value])
    ensures r.Some? ==> forall j :: r.value < j < |recs| ==> e !in TargetIds(recs[j])
    ensures r.None? ==> forall j :: 0 <= j < |recs| ==> e !in TargetIds(recs[j])
  {
    if recs == [] then None
    else if e in TargetIds(recs[|recs| - 1]) then Some(|recs| - 1)
    else
      var init := recs[..|recs| - 1];
      var r := LastTargeting(init, e);
      var from := if r.Some? then r.value + 1 else 0;
      UntargetedExtends(recs, init, e, from);
      r
  }

  /** A column no record of `recs[from..]` names but the last stays unnamed when the last one does not name it either. */
  lemma UntargetedExtends(recs: seq<RawRecord>, init: seq<RawRecord>, e: string, from: nat)
    requires recs != [] && init == recs[..|recs| - 1] && from <= |init|
    requires forall j :: from <= j < |init| ==> e !in TargetIds(init[j])
    requires e !in TargetIds(recs[|recs| - 1])
    ensures forall j :: from <= j < |recs| ==> e !in TargetIds(recs[j])
  {
    forall j | from <= j < |recs| ensures e !in TargetIds(recs[j]) {
      if j < |recs| - 1 {
        assert recs[j] == init[j];
      }
    }
  }

  /** The invariant of the value pool after processing `recs`. */
  ghost predicate PoolInvariant(values: seq<ValueEntry>, recs: seq<RawRecord>)
  {
    && (forall k :: 0 <= k < |values| ==> values[k].id == ValueId(k + 1))
    && (forall j, k :: 0 <= j < k < |values| ==> EntrySignature(values[j]) != EntrySignature(values[k]))
    && (forall k :: 0 <= k < |values| ==> values[k].sourceRows == IdsWithSig(recs, EntrySignature(values[k])))
    && (forall i :: 0 <= i < |recs| ==> SigIndex(values, SignatureOf(recs[i])) < |values|)
  }

  /** What the assignment of column `e` is after processing `recs`: the last record naming it wins. */
  function ExpectedAssignment(init: Assignments, values: seq<ValueEntry>, recs: seq<RawRecord>, e: string): Option<string>
    requires e in init || LastTargeting(recs, e).Some?
  {
    match LastTargeting(recs, e)
    case None => init[e]
    case Some(i) => Some(ValueId(SigIndex(values, SignatureOf(recs[i])) + 1))
  }

  ghost predicate AssignmentsInvariant(a: Assignments, init: Assignments, values: seq<ValueEntry>, recs: seq<RawRecord>)
  {
    && (forall e :: e in a <==> e in init || LastTargeting(recs, e).Some?)
    && (forall e :: e in a ==> a[e] == ExpectedAssignment(init, values, recs, e))
  }

  lemma IdsWithSigNone(recs: seq<RawRecord>, sig: ValueSignature)
    requires forall i :: 0 <= i < |recs| ==> SignatureOf(recs[i]) != sig
    ensures IdsWithSig(recs, sig) == []
  {
    if recs != [] {
      IdsWithSigNone(recs[..|recs| - 1], sig);
    }
  }

  /** Appending or extending entries never moves an existing signature. */
  lemma SigIndexStable(values: seq<ValueEntry>, values': seq<ValueEntry>, sig: ValueSignature)
    requires |values| <= |values'|
    requires forall k :: 0 <= k < |values| ==> EntrySignature(values'[k]) == EntrySignature(values[k])
    requires SigIndex(values, sig) < |values|
    ensures SigIndex(values', sig) == SigIndex(values, sig)
  {
  }

  /** The signatures of the pool after a step: the old ones in place, the record's one possibly appended. */
  lemma AddToPoolShape(values: seq<ValueEntry>, rec: RawRecord)
    ensures var v := AddToPool(values, rec); var k := SigIndex(values, SignatureOf(rec));
      && |v| == |WithEntryFor(values, rec)|
      && (forall j :: 0 <= j < |v| ==> EntrySignature(v[j]) == EntrySignature(WithEntryFor(values, rec)[j]))
      && (forall j :: 0 <= j < |v| ==> v[j].id == WithEntryFor(values, rec)[j].id)
      && (forall j :: 0 <= j < |v| && j != k ==> v[j] == WithEntryFor(values, rec)[j])
      && SigIndex(v, SignatureOf(rec)) == k
      && (forall s :: SigIndex(values, s) < |values| ==> SigIndex(v, s) == SigIndex(values, s))
  {
    var v, w := AddToPool(values, rec), WithEntryFor(values, rec);
    var sig := SignatureOf(rec);
    var k := SigIndex(values, sig);
    assert EntrySignature(w[k]) == sig;
    forall s | SigIndex(values, s) < |values| ensures SigIndex(v, s) == SigIndex(values, s) {
      SigIndexStable(values, v, s);
    }
    SigIndexStable(w, v, sig);
  }

  /** The signature index kept beside the pool stays in step with it. */
  lemma SignatureIndexStep(values: seq<ValueEntry>, rec: RawRecord, index: map<ValueSignature, nat>)
    requires forall s :: s in index <==> SigIndex(values, s) < |values|
    requires forall s :: s in index ==> index[s] == SigIndex(values, s)
    ensures var v := AddToPool(values, rec);
      var index' := if SignatureOf(rec) in index then index else index[SignatureOf(rec) := |values|];
      && (forall s :: s in index' <==> SigIndex(v, s) < |v|)
      && (forall s :: s in index' ==> index'[s] == SigIndex(v, s))
  {
    AddToPoolShape(values, rec);
  }

  /** One step keeps the pool invariant. */
  lemma PoolStep(values: seq<ValueEntry>, prefix: seq<RawRecord>, rec: RawRecord)
    requires PoolInvariant(values, prefix)
    ensures PoolInvariant(AddToPool(values, rec), prefix + [rec])
  {
    var v := AddToPool(values, rec);
    AddToPoolShape(values, rec);
    EntryForShape(values, rec);
    SourceRowsStep(values, prefix, rec);
    CoveredStep(values, prefix, rec);
  }

  /** Each entry still lists, in order, the ids of the records carrying its signature. */
  lemma SourceRowsStep(values: seq<ValueEntry>, prefix: seq<RawRecord>, rec: RawRecord)
    requires PoolInvariant(values, prefix)
    ensures var v := AddToPool(values, rec);
      forall j :: 0 <= j < |v| ==> v[j].sourceRows == IdsWithSig(prefix + [rec], EntrySignature(v[j]))
  {
    var v := AddToPool(values, rec);
    forall j | 0 <= j < |v| ensures v[j].sourceRows == IdsWithSig(prefix + [rec], EntrySignature(v[j])) {
      SourceRowsAt(values, prefix, rec, j);
    }
  }

  /** Entry j of the pool after a record lists the ids of the records with its signature. */
  lemma SourceRowsAt(values: seq<ValueEntry>, prefix: seq<RawRecord>, rec: RawRecord, j: nat)
    requires PoolInvariant(values, prefix)
    requires j < |AddToPool(values, rec)|
    ensures AddToPool(values, rec)[j].sourceRows == IdsWithSig(prefix + [rec], EntrySignature(AddToPool(values, rec)[j]))
  {
    var recs := prefix + [rec];
    assert recs[..|recs| - 1] == prefix;
    var v, w := AddToPool(values, rec), WithEntryFor(values, rec);
    var sig := SignatureOf(rec);
    var k := SigIndex(values, sig);
    var sj := EntrySignature(v[j]);
    AddToPoolShape(values, rec);
    assert IdsWithSig(recs, sj) == IdsWithSig(prefix, sj) + (if sig == sj then [rec.id] else []);
    if j == k && k == |values| {
      assert forall i :: 0 <= i < |prefix| ==> SignatureOf(prefix[i]) != sig;
      IdsWithSigNone(prefix, sig);
    } else if j != k {
      assert v[j] == w[j] == values[j];
      assert sj != sig;
    }
  }

  /** Every record seen so far, the new one included, has an entry. */
  lemma CoveredStep(values: seq<ValueEntry>, prefix: seq<RawRecord>, rec: RawRecord)
    requires PoolInvariant(values, prefix)
    ensures var v := AddToPool(values, rec);
      forall i :: 0 <= i < |prefix + [rec]| ==> SigIndex(v, SignatureOf((prefix + [rec])[i])) < |v|
  {
    var recs := prefix + [rec];
    var v := AddToPool(values, rec);
    AddToPoolShape(values, rec);
    forall i | 0 <= i < |recs| ensures SigIndex(v, SignatureOf(recs[i])) < |v| {
      if i < |prefix| {
        assert recs[i] == prefix[i];
      }
    }
  }

  /** Finding or creating the record's entry keeps the ids numbered and the signatures distinct. */
  lemma EntryForShape(values: seq<ValueEntry>, rec: RawRecord)
    requires forall k :: 0 <= k < |values| ==> values[k].id == ValueId(k + 1)
    requires forall j, k :: 0 <= j < k < |values| ==> EntrySignature(values[j]) != EntrySignature(values[k])
    ensures var w := WithEntryFor(values, rec);
      && (forall k :: 0 <= k < |w| ==> w[k].id == ValueId(k + 1))
      && (forall j, k :: 0 <= j < k < |w| ==> EntrySignature(w[j]) != EntrySignature(w[k]))
  {
    var w := WithEntryFor(values, rec);
    if SigIndex(values, SignatureOf(rec)) == |values| {
      assert w == values + [NewEntry(rec, |values| + 1)];
      assert EntrySignature(w[|values|]) == SignatureOf(rec);
    }
  }

  /** A column the record names now holds the record's entry. */
  lemma AssignTargeted(init: Assignments, st: GroupState, prefix: seq<RawRecord>, rec: RawRecord, e: string)
    requires PoolInvariant(st.values, prefix)
    requires e in TargetIds(rec)
    ensures var st' := GroupStep(st, rec);
      e in st'.assignments && st'.assignments[e] == ExpectedAssignment(init, st'.values, prefix + [rec], e)
  {
    var recs := prefix + [rec];
    var k := SigIndex(st.values, SignatureOf(rec));
    AddToPoolShape(st.values, rec);
    var id := WithEntryFor(st.values, rec)[k].id;
    assert id == ValueId(k + 1);
    var a1 := AssignAll(st.assignments, BuiltInIds(rec.target), id);
    var a2 := AssignAll(a1, CustomIds(rec.customEnvironmentIds), id);
    var st' := GroupStep(st, rec);
    assert st' == GroupState(AddToPool(st.values, rec), a2);
    assert e in a2 && a2[e] == Some(id) by {
      if e !in CustomIds(rec.customEnvironmentIds) {
        assert e in BuiltInIds(rec.target);
      }
    }
    assert LastTargeting(recs, e) == Some(|prefix|);
    assert recs[|prefix|] == rec;
    assert SigIndex(st'.values, SignatureOf(rec)) == k;
  }

  /** A column the record does not name keeps its assignment, which still names the same entry. */
  lemma AssignUntouched(init: Assignments, st: GroupState, prefix: seq<RawRecord>, rec: RawRecord, e: string)
    requires PoolInvariant(st.values, prefix)
    requires AssignmentsInvariant(st.assignments, init, st.values, prefix)
    requires e !in TargetIds(rec)
    ensures var st' := GroupStep(st, rec);
      (e in st'.assignments <==> e in st.assignments)
      && (e in st'.assignments ==> st'.assignments[e] == ExpectedAssignment(init, st'.values, prefix + [rec], e))
  {
    var recs := prefix + [rec];
    var st' := GroupStep(st, rec);
    assert recs[..|recs| - 1] == prefix;
    assert e !in BuiltInIds(rec.target) && e !in CustomIds(rec.customEnvironmentIds);
    assert LastTargeting(recs, e) == LastTargeting(prefix, e);
    assert e in st'.assignments <==> e in st.assignments;
    if e in st.assignments {
      assert st'.assignments[e] == st.assignments[e];
      ExpectedUntouched(init, st.values, prefix, rec, e);
    }
  }

  /** The expected assignment of a column the record does not name is the one before the record. */
  lemma ExpectedUntouched(init: Assignments, values: seq<ValueEntry>, prefix: seq<RawRecord>, rec: RawRecord, e: string)
    requires PoolInvariant(values, prefix)
    requires e !in TargetIds(rec)
    requires e in init || LastTargeting(prefix, e).Some?
    ensures ExpectedAssignment(init, AddToPool(values, rec), prefix + [rec], e) == ExpectedAssignment(init, values, prefix, e)
  {
    var recs := prefix + [rec];
    assert recs[..|recs| - 1] == prefix;
    assert LastTargeting(recs, e) == LastTargeting(prefix, e);
    match LastTargeting(prefix, e)
    case None =>
    case Some(i) =>
      assert recs[i] == prefix[i];
      AddToPoolShape(values, rec);
      assert SigIndex(AddToPool(values, rec), SignatureOf(prefix[i])) == SigIndex(values, SignatureOf(prefix[i]));
  }

  /** One step keeps the assignments equal to what the last targeting record names. */
  lemma AssignStep(init: Assignments, st: GroupState, prefix: seq<RawRecord>, rec: RawRecord)
    requires PoolInvariant(st.values, prefix)
    requires AssignmentsInvariant(st.assignments, init, st.values, prefix)
    ensures var st' := GroupStep(st, rec);
      AssignmentsInvariant(st'.assignments, init, st'.values, prefix + [rec])
  {
    var recs := prefix + [rec];
    assert recs[..|recs| - 1] == prefix;
    var st' := GroupStep(st, rec);
    forall e ensures e in st'.assignments <==> e in init || LastTargeting(recs, e).Some? {
      if e in TargetIds(rec) {
        AssignTargeted(init, st, prefix, rec, e);
      } else {
        AssignUntouched(init, st, prefix, rec, e);
      }
    }
    forall e | e in st'.assignments
      ensures st'.assignments[e] == ExpectedAssignment(init, st'.values, recs, e)
    {
      if e in TargetIds(rec) {
        AssignTargeted(init, st, prefix, rec, e);
      } else {
        AssignUntouched(init, st, prefix, rec, e);
      }
    }
  }

  lemma {:induction false} GroupFoldInvariant(init: Assignments, recs: seq<RawRecord>)
    ensures PoolInvariant(GroupFold(init, recs).values, recs)
    ensures AssignmentsInvariant(GroupFold(init, recs).assignments, init, GroupFold(init, recs).values, recs)
    decreases |recs|
  {
    if recs != [] {
      var prefix, rec := recs[..|recs| - 1], recs[|recs| - 1];
      assert recs == prefix + [rec];
      GroupFoldInvariant(init, prefix);
      PoolStep(GroupFold(init, prefix).values, prefix, rec);
      AssignStep(init, GroupFold(init, prefix), prefix, rec);
    }
  }

  /** A record whose signature is in the pool names the entry holding that signature. */
  lemma SigIndexAssigned(values: seq<ValueEntry>, sig: ValueSignature)
    requires forall k :: 0 <= k < |values| ==> values[k].id == ValueId(k + 1)
    requires SigIndex(values, sig) < |values|
    ensures HasValueId(values, ValueId(SigIndex(values, sig) + 1))
  {
    var k := SigIndex(values, sig);
    assert values[k].id == ValueId(k + 1);
  }

  /** Every non-null assignment of a normalised row names an entry of its pool. */
  lemma KeyGroupAssignmentsValid(key: string, recs: seq<RawRecord>, envs: seq<EnvironmentColumn>)
    ensures RowAssignmentsValid(KeyGroupRow(key, recs, envs))
  {
    var init := EmptyAssignments(envs);
    GroupFoldInvariant(init, recs);
    var st := GroupFold(init, recs);
    forall e | e in st.assignments && st.assignments[e].Some?
      ensures HasValueId(st.values, st.assignments[e].value)
    {
      var i := LastTargeting(recs, e).value;
      SigIndexAssigned(st.values, SignatureOf(recs[i]));
    }
  }

  /**
   * The pool of a normalised row: ids value-1 … value-n, one entry per
   * distinct signature, every record's signature present, and each entry's
   * sourceRows the ids of exactly the records with its signature, in order.
   */
  lemma KeyGroupPool(key: string, recs: seq<RawRecord>, envs: seq<EnvironmentColumn>)
    ensures var row := KeyGroupRow(key, recs, envs);
      && (forall k :: 0 <= k < |row.values| ==> row.values[k].id == ValueId(k + 1))
      && (forall j, k :: 0 <= j < k < |row.values| ==> EntrySignature(row.values[j]) != EntrySignature(row.values[k]))
      && (forall k :: 0 <= k < |row.values| ==> row.values[k].sourceRows == IdsWithSig(recs, EntrySignature(row.values[k])))
      && (forall i :: 0 <= i < |recs| ==> SigIndex(row.values, SignatureOf(recs[i])) < |row.values|)
  {
    GroupFoldInvariant(EmptyAssignments(envs), recs);
  }

  /**
   * Two records of a key share a value entry exactly when their signatures
   * are equal.
   */
  lemma KeyGroupShareIff(key: string, recs: seq<RawRecord>, envs: seq<EnvironmentColumn>, i: nat, j: nat)
    requires i < |recs| && j < |recs|
    ensures var vs := KeyGroupRow(key, recs, envs).values;
      SigIndex(vs, SignatureOf(recs[i])) == SigIndex(vs, SignatureOf(recs[j])) <==> SignatureOf(recs[i]) == SignatureOf(recs[j])
  {
    var vs := KeyGroupRow(key, recs, envs).values;
    KeyGroupPool(key, recs, envs);
  }

  /**
   * The assignments of a normalised row: every column id starts at null, and
   * a column any record targets points at the entry of the last such record.
   */
  lemma KeyGroupAssignments(key: string, recs: seq<RawRecord>, envs: seq<EnvironmentColumn>, e: string)
    ensures var row := KeyGroupRow(key, recs, envs);
      && (e in row.assignments <==> e in ColumnIds(envs) || LastTargeting(recs, e).Some?)
      && (e in row.assignments ==>
            row.assignments[e] == ExpectedAssignment(EmptyAssignments(envs), row.values, recs, e))
  {
    GroupFoldInvariant(EmptyAssignments(envs), recs);
  }

  // ---------------------------------------------------------------------
  // The grouping as written: a pool keyed by the joined string
  // ---------------------------------------------------------------------

  /** The index of the entry whose joined signature is `js`, or |values|: the source's `valueBySignature.get`. */
  function JoinedIndex(values: seq<ValueEntry>, js: string): (k: nat)
    ensures k <= |values|
    ensures k < |values| ==> JoinSig(EntrySignature(values[k])) == js
    ensures forall j :: 0 <= j < k ==> JoinSig(EntrySignature(values[j])) != js
  {
    if |values| == 0 then 0
    else if JoinSig(EntrySignature(values[0])) == js then 0
    else 1 + JoinedIndex(values[1..], js)
  }

  /** The pool with an entry for the record's joined signature, created at the end when it is new. */
  function WithJoinedEntryFor(values: seq<ValueEntry>, rec: RawRecord): (r: seq<ValueEntry>)
    ensures JoinedIndex(values, JoinedSignature(rec)) < |r|
  {
    if JoinedIndex(values, JoinedSignature(rec)) < |values| then values else values + [NewEntry(rec, |values| + 1)]
  }

  /** The pool after a record, looked up by joined string. */
  function AddToPoolAsWritten(values: seq<ValueEntry>, rec: RawRecord): seq<ValueEntry>
  {
    var k := JoinedIndex(values, JoinedSignature(rec));
    var v := WithJoinedEntryFor(values, rec);
    v[k := v[k].(sourceRows := v[k].sourceRows + [rec.id])]
  }

  /** One iteration of the `forEach` of `normalizeKeyGroup` as written. */
  function GroupStepAsWritten(st: GroupState, rec: RawRecord): GroupState
  {
    var id := WithJoinedEntryFor(st.values, rec)[JoinedIndex(st.values, JoinedSignature(rec))].id;
    var a1 := AssignAll(st.assignments, BuiltInIds(rec.target), id);
    GroupState(AddToPoolAsWritten(st.values, rec), AssignAll(a1, CustomIds(rec.customEnvironmentIds), id))
  }

  function GroupFoldAsWritten(init: Assignments, recs: seq<RawRecord>): GroupState
  {
    if recs == [] then GroupState([], init)
    else GroupStepAsWritten(GroupFoldAsWritten(init, recs[..|recs| - 1]), recs[|recs| - 1])
  }

  /** The row `normalizeKeyGroup` builds as written, its `Map` keyed by the joined signature. */
  function KeyGroupRowAsWritten(key: string, recs: seq<RawRecord>, envs: seq<EnvironmentColumn>): Row
  {
    var st := GroupFoldAsWritten(EmptyAssignments(envs), recs);
    Row("row:" + key, key, st.values, st.assignments, recs, false)
  }

  /** No two records with different signature tuples join to the same string. */
  predicate JoinedInjective(recs: seq<RawRecord>)
  {
    forall a, b :: a in recs && b in recs && JoinedSignature(a) == JoinedSignature(b) ==> SignatureOf(a) == SignatureOf(b)
  }

  /** Every entry of the pool carries the signature of one of the records. */
  ghost predicate SigsFrom(values: seq<ValueEntry>, recs: seq<RawRecord>)
  {
    forall k :: 0 <= k < |values| ==> exists r :: r in recs && EntrySignature(values[k]) == SignatureOf(r)
  }

  /** Where no joined strings collide, the lookup by string finds the entry the lookup by tuple finds. */
  lemma {:induction false} JoinedIndexAgrees(values: seq<ValueEntry>, recs: seq<RawRecord>, rec: RawRecord)
    requires JoinedInjective(recs) && rec in recs && SigsFrom(values, recs)
    ensures JoinedIndex(values, JoinedSignature(rec)) == SigIndex(values, SignatureOf(rec))
    decreases |values|
  {
    if values != [] {
      var r :| r in recs && EntrySignature(values[0]) == SignatureOf(r);
      assert JoinSig(EntrySignature(values[0])) == JoinedSignature(r);
      assert SigsFrom(values[1..], recs) by {
        forall k | 0 <= k < |values[1..]|
          ensures exists r :: r in recs && EntrySignature(values[1..][k]) == SignatureOf(r)
        {
          assert values[1..][k] == values[k + 1];
        }
      }
      JoinedIndexAgrees(values[1..], recs, rec);
    }
  }

  /** A step keeps every entry's signature one of the records'. */
  lemma SigsFromStep(values: seq<ValueEntry>, recs: seq<RawRecord>, rec: RawRecord)
    requires SigsFrom(values, recs) && rec in recs
    ensures SigsFrom(AddToPool(values, rec), recs)
  {
    var v, w := AddToPool(values, rec), WithEntryFor(values, rec);
    AddToPoolShape(values, rec);
    forall k | 0 <= k < |v| ensures exists r :: r in recs && EntrySignature(v[k]) == SignatureOf(r) {
      if k < |values| {
        assert w[k] == values[k];
        var r :| r in recs && EntrySignature(values[k]) == SignatureOf(r);
      } else {
        assert w[k] == NewEntry(rec, |values| + 1);
        assert EntrySignature(v[k]) == SignatureOf(rec);
      }
    }
  }

  /** Where no joined strings collide, one step as written is the step by tuple. */
  lemma GroupStepAgrees(st: GroupState, recs: seq<RawRecord>, rec: RawRecord)
    requires JoinedInjective(recs) && rec in recs && SigsFrom(st.values, recs)
    ensures GroupStepAsWritten(st, rec) == GroupStep(st, rec)
  {
    JoinedIndexAgrees(st.values, recs, rec);
  }

  lemma {:induction false} GroupFoldAgrees(init: Assignments, recs: seq<RawRecord>, all: seq<RawRecord>)
    requires JoinedInjective(all) && forall r :: r in recs ==> r in all
    ensures GroupFoldAsWritten(init, recs) == GroupFold(init, recs)
    ensures SigsFrom(GroupFold(init, recs).values, all)
    decreases |recs|
  {
    if recs != [] {
      var prefix, rec := recs[..|recs| - 1], recs[|recs| - 1];
      assert forall r :: r in prefix ==> r in recs;
      GroupFoldAgrees(init, prefix, all);
      var st := GroupFold(init, prefix);
      GroupStepAgrees(st, all, rec);
      SigsFromStep(st.values, all, rec);
    }
  }

  /**
   * Where no two records of the key with different signatures join to the
   * same string, the row built as written is the row specified by tuple.
   */
  lemma KeyGroupAgrees(key: string, recs: seq<RawRecord>, envs: seq<EnvironmentColumn>)
    requires JoinedInjective(recs)
    ensures KeyGroupRowAsWritten(key, recs, envs) == KeyGroupRow(key, recs, envs)
  {
    GroupFoldAgrees(EmptyAssignments(envs), recs, recs);
  }

  /** A string without ':' followed by "::" is told apart from every other such prefix. */
  lemma SplitAtSeparator(a: string, x: string, c: string, y: string)
    requires ':' !in a && ':' !in c
    requires a + "::" + x == c + "::" + y
    ensures a == c && x == y
  {
    var s := a + "::" + x;
    ColonAfterPrefix(a, x, c, y);
    ColonAfterPrefix(c, y, a, x);
    if |a| == |c| {
      assert a == s[..|a|] == c;
      assert x == s[|a| + 2..] == y;
    } else {
      assert false;
    }
  }

  /** Where the shorter prefix ends, the longer one holds the first ':' of the separator. */
  lemma ColonAfterPrefix(a: string, x: string, c: string, y: string)
    ensures |a| < |c| && a + "::" + x == c + "::" + y ==> c[|a|] == ':'
  {
    if |a| < |c| && a + "::" + x == c + "::" + y {
      assert c[|a|] == (c + "::" + y)[|a|];
    }
  }

  /** The parts of a record the joined string is read back from: value, comment and branch hold no ':'. */
  predicate ColonFree(rec: RawRecord)
  {
    ':' !in rec.value && ':' !in rec.comment.GetOr("") && ':' !in rec.gitBranch.GetOr("")
  }

  /** Records whose value, comment and branch hold no ':' collide only when their tuples are equal. */
  lemma ColonFreeNoCollision(a: RawRecord, b: RawRecord)
    requires ColonFree(a) && ColonFree(b)
    requires JoinedSignature(a) == JoinedSignature(b)
    ensures SignatureOf(a) == SignatureOf(b)
  {
    var sa, sb := SignatureOf(a), SignatureOf(b);
    var ta, tb := ValueTypeName(sa.vtype), ValueTypeName(sb.vtype);
    JoinFive([sa.content, ta, sa.comment, sa.gitBranch, sa.readOnlyReason], "::");
    JoinFive([sb.content, tb, sb.comment, sb.gitBranch, sb.readOnlyReason], "::");
    assert ':' !in ta && ':' !in tb;
    SplitAtSeparator(sa.content, ta + "::" + (sa.comment + "::" + (sa.gitBranch + "::" + sa.readOnlyReason)),
                     sb.content, tb + "::" + (sb.comment + "::" + (sb.gitBranch + "::" + sb.readOnlyReason)));
    SplitAtSeparator(ta, sa.comment + "::" + (sa.gitBranch + "::" + sa.readOnlyReason),
                     tb, sb.comment + "::" + (sb.gitBranch + "::" + sb.readOnlyReason));
    SplitAtSeparator(sa.comment, sa.gitBranch + "::" + sa.readOnlyReason, sb.comment, sb.gitBranch + "::" + sb.readOnlyReason);
    SplitAtSeparator(sa.gitBranch, sa.readOnlyReason, sb.gitBranch, sb.readOnlyReason);
  }

  /** So records without ':' in those parts are grouped the same as written and as specified. */
  lemma ColonFreeJoinedInjective(recs: seq<RawRecord>)
    requires forall r :: r in recs ==> ColonFree(r)
    ensures JoinedInjective(recs)
  {
    forall a, b | a in recs && b in recs && JoinedSignature(a) == JoinedSignature(b)
      ensures SignatureOf(a) == SignatureOf(b)
    {
      ColonFreeNoCollision(a, b);
    }
  }

  /**
   * As written, the two colliding records of one key share value-1: both
   * columns name it, it lists both records, and the second record's comment
   * is lost.
   */
  lemma AsWrittenMergesColliding(key: string, a: RawRecord, b: RawRecord, envs: seq<EnvironmentColumn>)
    requires a.value == "x::plain" && a.vtype == Plain && a.comment.None?
    requires b.value == "x" && b.vtype == Plain && b.comment == Some("plain::")
    requires a.gitBranch.None? && b.gitBranch.None? && a.readOnlyReason.None? && b.readOnlyReason.None?
    requires a.target == [Production] && b.target == [Preview]
    requires a.customEnvironmentIds == [] && b.customEnvironmentIds == []
    ensures var row := KeyGroupRowAsWritten(key, [a, b], envs);
      && |row.values| == 1 && row.values[0].id == ValueId(1)
      && row.values[0].comment.None? && row.values[0].sourceRows == [a.id, b.id]
      && "production" in row.assignments && row.assignments["production"] == Some(ValueId(1))
      && "preview" in row.assignments && row.assignments["preview"] == Some(ValueId(1))
  {
    JoinedSignatureCollides(a, b);
    var init := EmptyAssignments(envs);
    assert [a, b][..1] == [a];
    AsWrittenFirstRecord(init, a);
    var st1 := GroupFoldAsWritten(init, [a]);
    assert JoinSig(EntrySignature(st1.values[0])) == JoinedSignature(a);
    assert JoinedIndex(st1.values, JoinedSignature(b)) == 0;
  }

  /** The first record of a group, as written, opens value-1 and lists itself in it. */
  lemma AsWrittenFirstRecord(init: Assignments, a: RawRecord)
    ensures GroupFoldAsWritten(init, [a]).values == [NewEntry(a, 1).(sourceRows := [a.id])]
    ensures GroupFoldAsWritten(init, [a]) == GroupStepAsWritten(GroupState([], init), a)
  {
    assert [a][..0] == [];
    var st0 := GroupFoldAsWritten(init, []);
    assert st0 == GroupState([], init);
    assert JoinedIndex([], JoinedSignature(a)) == 0;
    assert WithJoinedEntryFor([], a) == [NewEntry(a, 1)];
    assert NewEntry(a, 1).sourceRows + [a.id] == [a.id];
    assert AddToPoolAsWritten([], a) == [NewEntry(a, 1).(sourceRows := [a.id])];
  }

  /** Specified by tuple, the same records keep two entries, the second with its comment. */
  lemma CorrectedSeparatesColliding(key: string, a: RawRecord, b: RawRecord, envs: seq<EnvironmentColumn>)
    requires a.value == "x::plain" && a.vtype == Plain && a.comment.None?
    requires b.value == "x" && b.vtype == Plain && b.comment == Some("plain::")
    requires a.gitBranch.None? && b.gitBranch.None? && a.readOnlyReason.None? && b.readOnlyReason.None?
    requires a.target == [Production] && b.target == [Preview]
    requires a.customEnvironmentIds == [] && b.customEnvironmentIds == []
    ensures var row := KeyGroupRow(key, [a, b], envs);
      && |row.values| == 2 && row.values[0].id == ValueId(1) && row.values[1].id == ValueId(2)
      && row.values[1].comment == Some("plain::")
      && "production" in row.assignments && row.assignments["production"] == Some(ValueId(1))
      && "preview" in row.assignments && row.assignments["preview"] == Some(ValueId(2))
  {
    var init := EmptyAssignments(envs);
    assert [a, b][..1] == [a] && [a][..0] == [];
    var st0 := GroupFold(init, []);
    assert st0 == GroupState([], init);
    var st1 := GroupFold(init, [a]);
    assert st1 == GroupStep(st0, a);
    assert SigIndex([], SignatureOf(a)) == 0;
    assert WithEntryFor([], a) == [NewEntry(a, 1)];
    assert NewEntry(a, 1).sourceRows + [a.id] == [a.id];
    assert AddToPool([], a) == [NewEntry(a, 1).(sourceRows := [a.id])];
    assert st1.values == [NewEntry(a, 1).(sourceRows := [a.id])];
    assert EntrySignature(st1.values[0]) == SignatureOf(a) != SignatureOf(b);
    assert SigIndex(st1.values, SignatureOf(b)) == 1;
  }

  // ---------------------------------------------------------------------
  // Specification of the whole snapshot
  // ---------------------------------------------------------------------

  /** The distinct keys of the records in order of first appearance (the Map's insertion order). */
  function KeysInOrder(recs: seq<RawRecord>): (keys: seq<string>)
    ensures forall k :: k in keys <==> exists i :: 0 <= i < |recs| && recs[i].key == k
  {
    if recs == [] then []
    else
      var keys := KeysInOrder(recs[..|recs| - 1]);
      if recs[|recs| - 1].key in keys then keys else keys + [recs[|recs| - 1].key]
  }

  /** The records of one key, in input order. */
  function GroupOf(recs: seq<RawRecord>, key: string): (g: seq<RawRecord>)
    ensures forall r :: r in g ==> r in recs && r.key == key
  {
    if recs == [] then []
    else GroupOf(recs[..|recs| - 1], key) + (if recs[|recs| - 1].key == key then [recs[|recs| - 1]] else [])
  }

  function RowsFor(keys: seq<string>, recs: seq<RawRecord>, envs: seq<EnvironmentColumn>): (rows: seq<Row>)
    ensures |rows| == |keys|
    ensures forall i :: 0 <= i < |keys| ==> rows[i] == KeyGroupRow(keys[i], GroupOf(recs, keys[i]), envs)
  {
    if keys == [] then []
    else RowsFor(keys[..|keys| - 1], recs, envs) + [KeyGroupRow(keys[|keys| - 1], GroupOf(recs, keys[|keys| - 1]), envs)]
  }

  lemma RowsForStep(keys: seq<string>, j: nat, recs: seq<RawRecord>, envs: seq<EnvironmentColumn>)
    requires j < |keys|
    ensures RowsFor(keys[..j + 1], recs, envs) == RowsFor(keys[..j], recs, envs) + [KeyGroupRow(keys[j], GroupOf(recs, keys[j]), envs)]
  {
    assert keys[..j + 1][..j] == keys[..j];
  }

  /** Record id to record; a later record with the same id replaces an earlier one. */
  function SourceIndex(recs: seq<RawRecord>): (m: map<string, RawRecord>)
    ensures forall id :: id in m <==> exists i :: 0 <= i < |recs| && recs[i].id == id
  {
    if recs == [] then map[]
    else SourceIndex(recs[..|recs| - 1])[recs[|recs| - 1].id := recs[|recs| - 1]]
  }

  /** The draft `normalizeSnapshotToDraft` returns; `capabilities` is not carried over. */
  function NormalizedDraft(snapshot: Snapshot): Draft
  {
    Draft(snapshot.projectId, snapshot.environments,
          RowsFor(KeysInOrder(snapshot.records), snapshot.records, snapshot.environments),
          SourceIndex(snapshot.records), snapshot.baselineHash, None)
  }

  // ---------------------------------------------------------------------
  // Properties of the whole snapshot
  // ---------------------------------------------------------------------

  /** The index of the first record with this key. */
  function FirstWithKey(recs: seq<RawRecord>, key: string): (i: nat)
    ensures i <= |recs|
    ensures i < |recs| ==> recs[i].key == key
    ensures forall j :: 0 <= j < i ==> recs[j].key != key
  {
    if recs == [] then 0
    else if recs[0].key == key then 0
    else 1 + FirstWithKey(recs[1..], key)
  }

  lemma FirstWithKeyPrefix(recs: seq<RawRecord>, n: nat, key: string)
    requires n <= |recs|
    requires FirstWithKey(recs[..n], key) < n
    ensures FirstWithKey(recs, key) == FirstWithKey(recs[..n], key)
  {
    var i, j := FirstWithKey(recs[..n], key), FirstWithKey(recs, key);
    assert recs[..n][i] == recs[i];
  }

  /** The keys are distinct and ordered by first appearance. */
  lemma {:induction false} KeysInOrderFirstAppearance(recs: seq<RawRecord>)
    ensures forall i, j :: 0 <= i < j < |KeysInOrder(recs)| ==> KeysInOrder(recs)[i] != KeysInOrder(recs)[j]
    ensures forall i, j :: 0 <= i < j < |KeysInOrder(recs)| ==>
      FirstWithKey(recs, KeysInOrder(recs)[i]) < FirstWithKey(recs, KeysInOrder(recs)[j])
  {
    KeysInOrderDistinct(recs);
    KeysInOrderOrdered(recs);
  }

  lemma {:induction false} KeysInOrderDistinct(recs: seq<RawRecord>)
    ensures forall i, j :: 0 <= i < j < |KeysInOrder(recs)| ==> KeysInOrder(recs)[i] != KeysInOrder(recs)[j]
    decreases |recs|
  {
    if recs != [] {
      var n := |recs| - 1;
      KeysInOrderDistinct(recs[..n]);
      KeysInOrderLast(recs);
    }
  }

  lemma {:induction false} KeysInOrderOrdered(recs: seq<RawRecord>)
    ensures forall i, j :: 0 <= i < j < |KeysInOrder(recs)| ==>
      FirstWithKey(recs, KeysInOrder(recs)[i]) < FirstWithKey(recs, KeysInOrder(recs)[j])
    decreases |recs|
  {
    if recs != [] {
      var n := |recs| - 1;
      var prefix := recs[..n];
      KeysInOrderOrdered(prefix);
      var keys0, keys := KeysInOrder(prefix), KeysInOrder(recs);
      KeysInOrderLast(recs);
      if recs[n].key in keys0 {
        assert keys == keys0;
        forall i, j | 0 <= i < j < |keys| ensures FirstWithKey(recs, keys[i]) < FirstWithKey(recs, keys[j]) {
          assert keys0[i] in keys0 && keys0[j] in keys0;
        }
      } else {
        assert keys == keys0 + [recs[n].key];
        forall i, j | 0 <= i < j < |keys| ensures FirstWithKey(recs, keys[i]) < FirstWithKey(recs, keys[j]) {
          assert keys[i] == keys0[i] && keys0[i] in keys0;
          if j < |keys0| {
            assert keys[j] == keys0[j] && keys0[j] in keys0;
          }
        }
      }
    }
  }

  /** The last record adds its key at the end when it is new, and leaves the first appearances of the earlier keys as they were. */
  lemma KeysInOrderLast(recs: seq<RawRecord>)
    requires recs != []
    ensures var n := |recs| - 1; var keys0 := KeysInOrder(recs[..n]);
      && KeysInOrder(recs) == (if recs[n].key in keys0 then keys0 else keys0 + [recs[n].key])
      && (forall k :: k in keys0 ==> FirstWithKey(recs, k) == FirstWithKey(recs[..n], k) < n)
      && (recs[n].key !in keys0 ==> FirstWithKey(recs, recs[n].key) == n)
  {
    var n := |recs| - 1;
    var prefix, key := recs[..n], recs[n].key;
    var keys0 := KeysInOrder(prefix);
    forall k | k in keys0
      ensures FirstWithKey(recs, k) == FirstWithKey(prefix, k) < n
    {
      var i :| 0 <= i < n && prefix[i].key == k;
      FirstWithKeyPrefix(recs, n, k);
    }
    if key !in keys0 {
      forall j | 0 <= j < n ensures recs[j].key != key {
        assert prefix[j] == recs[j];
      }
    }
  }

  lemma GroupOfMembers(recs: seq<RawRecord>, key: string)
    ensures forall i :: 0 <= i < |recs| && recs[i].key == key ==> recs[i] in GroupOf(recs, key)
  {
    if recs != [] {
      GroupOfMembers(recs[..|recs| - 1], key);
      assert forall i :: 0 <= i < |recs| - 1 ==> recs[i] == recs[..|recs| - 1][i];
    }
  }

  lemma RowIdInjective(a: string, b: string)
    requires "row:" + a == "row:" + b
    ensures a == b
  {
    assert a == ("row:" + a)[4..];
  }

  /**
   * The rows of a normalised draft: one per distinct key, in order of first
   * appearance, with rowId "row:"+key, isNew false and the key's records as
   * sourceRows; rowIds are distinct, every record sits in the row of its key,
   * and every non-null assignment names a value of its own row.
   */
  lemma NormalizedRows(snapshot: Snapshot)
    ensures var d := NormalizedDraft(snapshot);
      var keys := KeysInOrder(snapshot.records);
      && |d.rows| == |keys|
      && (forall i :: 0 <= i < |d.rows| ==>
            d.rows[i].key == keys[i] && d.rows[i].rowId == "row:" + keys[i] && !d.rows[i].isNew
            && d.rows[i].sourceRows == GroupOf(snapshot.records, keys[i]))
      && (forall i, j :: 0 <= i < j < |d.rows| ==> FirstWithKey(snapshot.records, d.rows[i].key) < FirstWithKey(snapshot.records, d.rows[j].key))
      && DistinctRowIds(d.rows)
      && (forall r :: r in snapshot.records ==> exists i :: 0 <= i < |d.rows| && r in d.rows[i].sourceRows)
      && DraftAssignmentsValid(d)
  {
    var d := NormalizedDraft(snapshot);
    KeysInOrderFirstAppearance(snapshot.records);
    NormalizedRowIdsDistinct(snapshot);
    NormalizedRowsCover(snapshot);
    NormalizedAssignmentsValid(snapshot);
  }

  lemma NormalizedRowIdsDistinct(snapshot: Snapshot)
    ensures DistinctRowIds(NormalizedDraft(snapshot).rows)
  {
    var rows := NormalizedDraft(snapshot).rows;
    var keys := KeysInOrder(snapshot.records);
    KeysInOrderFirstAppearance(snapshot.records);
    forall i, j | 0 <= i < j < |rows| ensures rows[i].rowId != rows[j].rowId {
      if rows[i].rowId == rows[j].rowId {
        RowIdInjective(keys[i], keys[j]);
      }
    }
  }

  lemma NormalizedRowsCover(snapshot: Snapshot)
    ensures var rows := NormalizedDraft(snapshot).rows;
      forall r :: r in snapshot.records ==> exists i :: 0 <= i < |rows| && r in rows[i].sourceRows
  {
    var rows := NormalizedDraft(snapshot).rows;
    var recs := snapshot.records;
    forall r | r in recs ensures exists i :: 0 <= i < |rows| && r in rows[i].sourceRows {
      var n :| 0 <= n < |recs| && recs[n] == r;
      var i := RowOfRecord(snapshot, n);
    }
  }

  /** The row that holds record n among its sources: the row of its key. */
  lemma RowOfRecord(snapshot: Snapshot, n: nat) returns (i: nat)
    requires n < |snapshot.records|
    ensures i < |NormalizedDraft(snapshot).rows|
    ensures snapshot.records[n] in NormalizedDraft(snapshot).rows[i].sourceRows
  {
    var recs := snapshot.records;
    var keys := KeysInOrder(recs);
    var key := recs[n].key;
    assert key in keys;
    i :| 0 <= i < |keys| && keys[i] == key;
    GroupOfMembers(recs, key);
    var row := NormalizedDraft(snapshot).rows[i];
    assert row == KeyGroupRow(key, GroupOf(recs, key), snapshot.environments);
    assert row.sourceRows == GroupOf(recs, key);
  }

  lemma NormalizedAssignmentsValid(snapshot: Snapshot)
    ensures DraftAssignmentsValid(NormalizedDraft(snapshot))
  {
    var d := NormalizedDraft(snapshot);
    var keys := KeysInOrder(snapshot.records);
    forall i | 0 <= i < |d.rows| ensures RowAssignmentsValid(d.rows[i]) {
      KeyGroupAssignmentsValid(keys[i], GroupOf(snapshot.records, keys[i]), snapshot.environments);
    }
  }

  /**
   * Where no two records of a key with different signatures join to the
   * same string, every row of the draft is the row `normalizeKeyGroup`
   * builds as written.
   */
  lemma NormalizedDraftAgrees(snapshot: Snapshot)
    requires JoinedInjective(snapshot.records)
    ensures var rows := NormalizedDraft(snapshot).rows; var keys := KeysInOrder(snapshot.records);
      forall i :: 0 <= i < |rows| ==>
        rows[i] == KeyGroupRowAsWritten(keys[i], GroupOf(snapshot.records, keys[i]), snapshot.environments)
  {
    var keys := KeysInOrder(snapshot.records);
    forall i | 0 <= i < |keys|
      ensures KeyGroupRow(keys[i], GroupOf(snapshot.records, keys[i]), snapshot.environments)
        == KeyGroupRowAsWritten(keys[i], GroupOf(snapshot.records, keys[i]), snapshot.environments)
    {
      var g := GroupOf(snapshot.records, keys[i]);
      assert JoinedInjective(g);
      KeyGroupAgrees(keys[i], g, snapshot.environments);
    }
  }

  /** The index of the last record with this id, or -1. */
  function LastWithId(recs: seq<RawRecord>, id: string): (i: int)
    ensures -1 <= i < |recs|
    ensures i >= 0 ==> recs[i].id == id
    ensures forall j :: i < j < |recs| ==> recs[j].id != id
  {
    if recs == [] then -1
    else if recs[|recs| - 1].id == id then |recs| - 1
    else LastWithId(recs[..|recs| - 1], id)
  }

  /** sourceRowIndex maps each record id to the last record carrying it. */
  lemma {:induction false} SourceIndexLastWins(recs: seq<RawRecord>, id: string)
    requires id in SourceIndex(recs)
    ensures 0 <= LastWithId(recs, id) && SourceIndex(recs)[id] == recs[LastWithId(recs, id)]
    decreases |recs|
  {
    var n := |recs| - 1;
    if recs[n].id != id {
      var prefix := recs[..n];
      SourceIndexLastWins(prefix, id);
      assert recs[LastWithId(prefix, id)] == prefix[LastWithId(prefix, id)];
    }
  }

  /** The fields a normalised draft copies through unchanged. */
  lemma NormalizedPassThrough(snapshot: Snapshot)
    ensures var d := NormalizedDraft(snapshot);
      d.projectId == snapshot.projectId && d.environments == snapshot.environments
      && d.baselineHash == snapshot.baselineHash && d.capabilities.None?
      && forall id :: id in d.sourceRowIndex <==> exists r :: r in snapshot.records && r.id == id
  {
  }

  // ---------------------------------------------------------------------
  // The procedure
  // ---------------------------------------------------------------------

  lemma GroupFoldSnoc(init: Assignments, recs: seq<RawRecord>, i: nat)
    requires i < |recs|
    ensures GroupFold(init, recs[..i + 1]) == GroupStep(GroupFold(init, recs[..i]), recs[i])
  {
    assert recs[..i + 1][..i] == recs[..i];
  }

  lemma GroupOfAbsent(recs: seq<RawRecord>, key: string)
    requires key !in KeysInOrder(recs)
    ensures GroupOf(recs, key) == []
  {
    if recs != [] {
      GroupOfAbsent(recs[..|recs| - 1], key);
    }
  }

  lemma GroupingSnoc(recs: seq<RawRecord>, i: nat)
    requires i < |recs|
    ensures KeysInOrder(recs[..i + 1]) == if recs[i].key in KeysInOrder(recs[..i]) then KeysInOrder(recs[..i]) else KeysInOrder(recs[..i]) + [recs[i].key]
    ensures forall k :: GroupOf(recs[..i + 1], k) == GroupOf(recs[..i], k) + (if recs[i].key == k then [recs[i]] else [])
  {
    assert recs[..i + 1][..i] == recs[..i];
  }

  /** The `forEach` that writes one value id into each listed column. */
  method AssignTargets(a: Assignments, ids: seq<string>, v: string) returns (r: Assignments)
    ensures r == AssignAll(a, ids, v)
  {
    r := a;
    for t := 0 to |ids|
      invariant r == AssignAll(a, ids[..t], v)
    {
      assert ids[..t + 1][..t] == ids[..t];
      r := r[ids[t] := Some(v)];
    }
    assert ids[..|ids|] == ids;
  }

  /** `normalizeKeyGroup`: one pass over the records with a signature index and a counter. */
  method NormalizeKeyGroup(key: string, recs: seq<RawRecord>, envs: seq<EnvironmentColumn>) returns (row: Row)
    ensures row == KeyGroupRow(key, recs, envs)
  {
    var init := EmptyAssignments(envs);
    var valueBySignature: map<ValueSignature, nat> := map[];
    var valueCounter := 0;
    var values: seq<ValueEntry> := [];
    var assignments := init;
    for i := 0 to |recs|
      invariant GroupState(values, assignments) == GroupFold(init, recs[..i])
      invariant valueCounter == |values|
      invariant forall s :: s in valueBySignature <==> SigIndex(values, s) < |values|
      invariant forall s :: s in valueBySignature ==> valueBySignature[s] == SigIndex(values, s)
    {
      GroupFoldSnoc(init, recs, i);
      values, assignments, valueBySignature, valueCounter :=
        VisitRecord(recs[i], values, assignments, valueBySignature, valueCounter);
    }
    assert recs[..|recs|] == recs;
    row := Row("row:" + key, key, values, assignments, recs, false);
  }

  /** One record of a key group: find or create its value entry, list its id there and point its columns at it. */
  method VisitRecord(rec: RawRecord, values: seq<ValueEntry>, assignments: Assignments,
                     valueBySignature: map<ValueSignature, nat>, valueCounter: nat)
    returns (values': seq<ValueEntry>, assignments': Assignments,
             valueBySignature': map<ValueSignature, nat>, valueCounter': nat)
    requires valueCounter == |values|
    requires forall s :: s in valueBySignature <==> SigIndex(values, s) < |values|
    requires forall s :: s in valueBySignature ==> valueBySignature[s] == SigIndex(values, s)
    ensures GroupState(values', assignments') == GroupStep(GroupState(values, assignments), rec)
    ensures valueCounter' == |values'|
    ensures forall s :: s in valueBySignature' <==> SigIndex(values', s) < |values'|
    ensures forall s :: s in valueBySignature' ==> valueBySignature'[s] == SigIndex(values', s)
  {
    var sig := SignatureOf(rec);
    SignatureIndexStep(values, rec, valueBySignature);
    values', valueBySignature', valueCounter' := values, valueBySignature, valueCounter;
    var k: nat;
    if sig in valueBySignature {
      k := valueBySignature[sig];
    } else {
      valueCounter' := valueCounter + 1;
      values' := values + [NewEntry(rec, valueCounter')];
      k := |values'| - 1;
      valueBySignature' := valueBySignature[sig := k];
    }
    assert values' == WithEntryFor(values, rec) && k == SigIndex(values, sig);
    var entry := values'[k];
    values' := values'[k := entry.(sourceRows := entry.sourceRows + [rec.id])];
    assert values' == AddToPool(values, rec);
    assignments' := AssignTargets(assignments, BuiltInIds(rec.target), entry.id);
    assignments' := AssignTargets(assignments', CustomIds(rec.customEnvironmentIds), entry.id);
  }

  /** The `forEach` that groups records by key in a Map that remembers insertion order. */
  method GroupByKey(recs: seq<RawRecord>) returns (keys: seq<string>, rowsByKey: map<string, seq<RawRecord>>)
    ensures keys == KeysInOrder(recs)
    ensures forall k :: k in rowsByKey <==> k in keys
    ensures forall k :: k in rowsByKey ==> rowsByKey[k] == GroupOf(recs, k)
  {
    keys, rowsByKey := [], map[];
    for i := 0 to |recs|
      invariant keys == KeysInOrder(recs[..i])
      invariant forall k :: k in rowsByKey <==> k in keys
      invariant forall k :: k in rowsByKey ==> rowsByKey[k] == GroupOf(recs[..i], k)
    {
      var rec := recs[i];
      GroupingSnoc(recs, i);
      if rec.key !in rowsByKey {
        GroupOfAbsent(recs[..i], rec.key);
        keys := keys + [rec.key];
        rowsByKey := rowsByKey[rec.key := [rec]];
      } else {
        rowsByKey := rowsByKey[rec.key := rowsByKey[rec.key] + [rec]];
      }
    }
    assert recs[..|recs|] == recs;
  }

  /** The `reduce` that indexes the records by id, a later record replacing an earlier one. */
  method IndexSourceRows(recs: seq<RawRecord>) returns (sourceRowIndex: map<string, RawRecord>)
    ensures sourceRowIndex == SourceIndex(recs)
  {
    sourceRowIndex := map[];
    for i := 0 to |recs|
      invariant sourceRowIndex == SourceIndex(recs[..i])
    {
      assert recs[..i + 1][..i] == recs[..i];
      sourceRowIndex := sourceRowIndex[recs[i].id := recs[i]];
    }
    assert recs[..|recs|] == recs;
  }

  /** The `map` over the groups: one normalised row per key, in key order. */
  method NormalizeRows(keys: seq<string>, rowsByKey: map<string, seq<RawRecord>>, recs: seq<RawRecord>, envs: seq<EnvironmentColumn>)
    returns (rows: seq<Row>)
    requires forall k :: k in keys ==> k in rowsByKey && rowsByKey[k] == GroupOf(recs, k)
    ensures rows == RowsFor(keys, recs, envs)
  {
    rows := [];
    for j := 0 to |keys|
      invariant rows == RowsFor(keys[..j], recs, envs)
    {
      RowsForStep(keys, j, recs, envs);
      var row := NormalizeKeyGroup(keys[j], rowsByKey[keys[j]], envs);
      rows := rows + [row];
    }
    assert keys[..|keys|] == keys;
  }

  /** `normalizeSnapshotToDraft`. */
  method NormalizeSnapshotToDraft(snapshot: Snapshot) returns (d: Draft)
    ensures d == NormalizedDraft(snapshot)
  {
    var keys, rowsByKey := GroupByKey(snapshot.records);
    var rows := NormalizeRows(keys, rowsByKey, snapshot.records, snapshot.environments);
    var sourceRowIndex := IndexSourceRows(snapshot.records);
    d := Draft(snapshot.projectId, snapshot.environments, rows, sourceRowIndex, snapshot.baselineHash, None);
  }
}
