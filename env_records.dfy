/**
 * Reading the platform's environment-variable listing (src/lib/vercel/env-records.ts):
 * an untyped JSON response is reduced to flat records, skipping whatever
 * does not have the expected shape instead of failing.
 */
module EnvRecords {
  import opened Wrappers
  import opened JsonValues
  import opened EnvTypes

  /** The built-in environment a JSON value names, if it is one of the three names. */
  function BuiltInOf(v: Json): (r: Option<BuiltIn>)
    ensures r.Some? <==> v.JString? && v.s in {"production", "preview", "development"}
    ensures r.Some? ==> v == JString(BuiltInName(r.value))
  {
    if v == JString("production") then Some(Production)
    else if v == JString("preview") then Some(Preview)
    else if v == JString("development") then Some(Development)
    else None
  }

  /** The `filter` of a target array: its built-in names, in order. */
  function BuiltInsOf(items: seq<Json>): (r: seq<BuiltIn>)
    ensures |r| <= |items|
  {
    if items == [] then [] else BuiltInList(items[0]) + BuiltInsOf(items[1..])
  }

  /** The one-item step of that filter. */
  function BuiltInList(v: Json): (r: seq<BuiltIn>)
    ensures |r| <= 1
  {
    match BuiltInOf(v) case Some(e) => [e] case None => []
  }

  /** `normalizeTarget` of the property `target` (None when it is missing). */
  function NormalizeTarget(value: Option<Json>): seq<BuiltIn>
  {
    match value
    case Some(JArray(items)) => BuiltInsOf(items)
    case Some(v) => BuiltInList(v)
    case None => []
  }

  /** The string entries of an array, in order. */
  function StringsOf(items: seq<Json>): (r: seq<string>)
    ensures |r| <= |items|
  {
    if items == [] then []
    else
      (if items[0].JString? then [items[0].s] else []) + StringsOf(items[1..])
  }

  /** `typeof item === "object" && item !== null`. */
  predicate IsObjectLike(item: Json)
  {
    item.JObject? || item.JArray?
  }

  /** The `map` step: one item, with every missing or ill-typed field defaulted. */
  function RecordOf(item: Json): (r: RawRecord)
  {
    RawRecord(
      id := (match GetString(item, "id") case Some(s) => s case None => ""),
      key := (match GetString(item, "key") case Some(s) => s case None => ""),
      value := (match GetString(item, "value") case Some(s) => s case None => ""),
      vtype := (if Get(item, "type") == Some(JString("encrypted")) then Encrypted else Plain),
      target := NormalizeTarget(Get(item, "target")),
      customEnvironmentIds := (match GetArray(item, "customEnvironmentIds") case Some(a) => StringsOf(a) case None => []),
      comment := GetString(item, "comment"),
      gitBranch := GetString(item, "gitBranch"),
      system := Get(item, "type") == Some(JString("system")) || Get(item, "system") == Some(JBool(true)),
      readOnlyReason := None)
  }

  /** The final `filter`: a record needs a non-empty id and key. */
  predicate Identified(r: RawRecord)
  {
    |r.id| > 0 && |r.key| > 0
  }

  /** `rawItems`: the response itself when it is an array, else its `envs` field (null or missing counts as empty). */
  function RawItems(response: Json): Option<Json>
  {
    if response.JArray? then Some(response)
    else
      match Get(response, "envs")
      case Some(JNull) => Some(JArray([]))
      case Some(v) => Some(v)
      case None => Some(JArray([]))
  }

  /** The filter/map/filter chain over the raw items. */
  function RecordsOf(items: seq<Json>): (r: seq<RawRecord>)
    ensures |r| <= |items|
  {
    if items == [] then []
    else
      (if IsObjectLike(items[0]) && Identified(RecordOf(items[0])) then [RecordOf(items[0])] else [])
      + RecordsOf(items[1..])
  }

  /** `normalizeProjectEnvsResponse`. */
  function NormalizeProjectEnvsResponse(response: Json): seq<RawRecord>
  {
    match RawItems(response)
    case Some(JArray(items)) => RecordsOf(items)
    case _ => []
  }

  // ---------------------------------------------------------------------
  // Properties
  // ---------------------------------------------------------------------

  /** An array target keeps exactly the built-in names it lists, each as often and in the order listed. */
  lemma {:induction false} TargetArrayKeepsBuiltIns(items: seq<Json>)
    ensures forall e :: e in NormalizeTarget(Some(JArray(items))) <==> JString(BuiltInName(e)) in items
    ensures forall e :: multiset(NormalizeTarget(Some(JArray(items))))[e] == multiset(items)[JString(BuiltInName(e))]
  {
    BuiltInsCount(items);
  }

  lemma BuiltInsCount(items: seq<Json>)
    ensures forall e :: multiset(BuiltInsOf(items))[e] == multiset(items)[JString(BuiltInName(e))]
  {
    forall e ensures multiset(BuiltInsOf(items))[e] == multiset(items)[JString(BuiltInName(e))] {
      BuiltInCount(items, e);
    }
  }

  lemma {:induction false} BuiltInCount(items: seq<Json>, e: BuiltIn)
    ensures multiset(BuiltInsOf(items))[e] == multiset(items)[JString(BuiltInName(e))]
  {
    if items != [] {
      BuiltInCount(items[1..], e);
      assert items == [items[0]] + items[1..];
      HeadCount(items[0], e);
    }
  }

  lemma HeadCount(v: Json, e: BuiltIn)
    ensures multiset(BuiltInList(v))[e] == multiset([v])[JString(BuiltInName(e))]
  {
    if BuiltInOf(v).Some? && v == JString(BuiltInName(e)) {
      BuiltInNameInjective(BuiltInOf(v).value, e);
    }
  }

  /** A single value gives a one-element target when it is a built-in name, else none. */
  lemma TargetOfSingleValue(v: Json)
    requires !v.JArray?
    ensures |NormalizeTarget(Some(v))| <= 1
    ensures NormalizeTarget(Some(v)) == [] <==> BuiltInOf(v).None?
    ensures forall e :: NormalizeTarget(Some(v)) == [e] <==> v == JString(BuiltInName(e))
  {
  }

  /** A missing target is empty. */
  lemma MissingTargetEmpty()
    ensures NormalizeTarget(None) == []
  {
  }

  /** customEnvironmentIds keeps exactly its string entries, each as often as it appears. */
  lemma {:induction false} StringsKept(items: seq<Json>)
    ensures forall s :: multiset(StringsOf(items))[s] == multiset(items)[JString(s)]
  {
    if items != [] {
      StringsKept(items[1..]);
      assert items == [items[0]] + items[1..];
      forall s ensures multiset(StringsOf(items))[s] == multiset(items)[JString(s)] {
        var head := if items[0].JString? then [items[0].s] else [];
        assert StringsOf(items) == head + StringsOf(items[1..]);
        assert multiset(head)[s] == multiset([items[0]])[JString(s)];
      }
    }
  }

  /**
   * The fields of one record: strings are taken as given and anything else
   * is defaulted; the type is encrypted only for the exact string
   * "encrypted"; a record is a system record when its type is "system" or
   * its `system` flag is `true`.
   */
  lemma RecordFields(item: Json)
    ensures GetString(item, "id").Some? ==> RecordOf(item).id == GetString(item, "id").value
    ensures GetString(item, "id").None? ==> RecordOf(item).id == ""
    ensures GetString(item, "key").Some? ==> RecordOf(item).key == GetString(item, "key").value
    ensures GetString(item, "key").None? ==> RecordOf(item).key == ""
    ensures GetString(item, "value").Some? ==> RecordOf(item).value == GetString(item, "value").value
    ensures GetString(item, "value").None? ==> RecordOf(item).value == ""
    ensures RecordOf(item).vtype == Encrypted <==> Get(item, "type") == Some(JString("encrypted"))
    ensures RecordOf(item).system <==>
      Get(item, "type") == Some(JString("system")) || Get(item, "system") == Some(JBool(true))
    ensures RecordOf(item).comment.Some? <==> Get(item, "comment").Some? && Get(item, "comment").value.JString?
    ensures RecordOf(item).gitBranch.Some? <==> Get(item, "gitBranch").Some? && Get(item, "gitBranch").value.JString?
    ensures RecordOf(item).readOnlyReason.None?
  {
  }

  /** A record with a string id and key is never dropped by the final filter unless one of them is empty. */
  lemma IdentifiedIffStrings(item: Json)
    ensures Identified(RecordOf(item)) <==>
      GetString(item, "id").Some? && GetString(item, "id").value != ""
      && GetString(item, "key").Some? && GetString(item, "key").value != ""
  {
  }

  /** Every record kept has a non-empty id and key and comes from an object-like item. */
  lemma {:induction false} RecordsComeFromItems(items: seq<Json>)
    ensures forall r :: r in RecordsOf(items) ==>
      Identified(r) && exists i :: 0 <= i < |items| && IsObjectLike(items[i]) && r == RecordOf(items[i])
  {
    if items != [] {
      var tail := items[1..];
      RecordsComeFromItems(tail);
      HeadOrTail(items);
      forall r | r in RecordsOf(items)
        ensures Identified(r) && exists i :: 0 <= i < |items| && IsObjectLike(items[i]) && r == RecordOf(items[i])
      {
        if r in RecordsOf(tail) {
          var i :| 0 <= i < |tail| && IsObjectLike(tail[i]) && r == RecordOf(tail[i]);
          assert items[i + 1] == tail[i];
        }
      }
    }
  }

  /** A record of a non-empty list is the head's record, kept, or one of the tail's. */
  lemma HeadOrTail(items: seq<Json>)
    requires items != []
    ensures forall r :: r in RecordsOf(items) ==>
      r in RecordsOf(items[1..]) || (r == RecordOf(items[0]) && IsObjectLike(items[0]) && Identified(r))
  {
  }

  /** Conversely, every object-like item with a non-empty string id and key yields a record. */
  lemma {:induction false} IdentifiedItemsKept(items: seq<Json>, i: nat)
    requires i < |items| && IsObjectLike(items[i]) && Identified(RecordOf(items[i]))
    ensures RecordOf(items[i]) in RecordsOf(items)
  {
    if i > 0 {
      IdentifiedItemsKept(items[1..], i - 1);
      assert items[1..][i - 1] == items[i];
    }
  }

  /** The response shapes: an array is read as is, an object through `envs`, anything else gives no records. */
  lemma ResponseShapes(response: Json)
    ensures response.JArray? ==> NormalizeProjectEnvsResponse(response) == RecordsOf(response.items)
    ensures response.JObject? && GetArray(response, "envs").Some? ==>
      NormalizeProjectEnvsResponse(response) == RecordsOf(GetArray(response, "envs").value)
    ensures !response.JArray? && GetArray(response, "envs").None? ==> NormalizeProjectEnvsResponse(response) == []
  {
  }
}
