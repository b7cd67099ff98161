/**
 * Keys the Vercel runtime injects itself, which the editor hides
 * (src/lib/vercel-cli/reserved-keys.ts). A pulled dotenv map is a list of
 * (key, value) pairs with distinct keys, in the order `Object.keys` lists
 * them.
 */
module ReservedKeys {
  import opened Wrappers
  import opened Strings
  import opened Sorting

  /** A `Record<string, string>`: pairs in key-insertion order. */
  type EnvMap = seq<(string, string)>

  function KeysOf(m: EnvMap): (ks: seq<string>)
    ensures |ks| == |m|
    ensures forall i :: 0 <= i < |m| ==> ks[i] == m[i].0
  {
    seq(|m|, i requires 0 <= i < |m| => m[i].0)
  }

  predicate DistinctKeys(m: EnvMap)
  {
    forall i, j :: 0 <= i < j < |m| ==> m[i].0 != m[j].0
  }

  predicate HasKey(m: EnvMap, k: string)
  {
    exists i :: 0 <= i < |m| && m[i].0 == k
  }

  /** `m[k]`: the value stored under `k`, or `None` for `undefined`. */
  function Lookup(m: EnvMap, k: string): (r: Option<string>)
    ensures r.None? <==> !HasKey(m, k)
    ensures r.Some? ==> (k, r.value) in m
  {
    if m == [] then None
    else if m[0].0 == k then Some(m[0].1)
    else
      var r := Lookup(m[1..], k);
      assert HasKey(m[1..], k) ==> HasKey(m, k) by {
        if HasKey(m[1..], k) {
          var i :| 0 <= i < |m[1..]| && m[1..][i].0 == k;
          assert m[i + 1].0 == k;
        }
      }
      r
  }

  lemma LookupDistinct(m: EnvMap, i: nat)
    requires DistinctKeys(m) && i < |m|
    ensures Lookup(m, m[i].0) == Some(m[i].1)
  {
    if i > 0 {
      assert m[1..][i - 1] == m[i];
      LookupDistinct(m[1..], i - 1);
    }
  }

  const ReservedRuntimeKeys: set<string> :=
    {"NX_DAEMON", "TURBO_CACHE", "TURBO_DOWNLOAD_LOCAL_ENABLED", "TURBO_REMOTE_ONLY", "TURBO_RUN_SUMMARY", "VERCEL"}

  /** `isReservedRuntimeEnvKey`: one of the fixed names, or anything starting `VERCEL_`. */
  predicate IsReservedRuntimeEnvKey(key: string)
  {
    key in ReservedRuntimeKeys || StartsWith(key, "VERCEL_")
  }

  lemma ReservedExamples()
    ensures IsReservedRuntimeEnvKey("VERCEL") && IsReservedRuntimeEnvKey("VERCEL_URL")
    ensures !IsReservedRuntimeEnvKey("VERCELX") && !IsReservedRuntimeEnvKey("MY_VERCEL_URL")
    ensures !IsReservedRuntimeEnvKey("vercel_url")
  {
    assert "VERCEL_URL"[..7] == "VERCEL_";
    assert "VERCELX"[..7] != "VERCEL_" by { assert "VERCELX"[6] != "VERCEL_"[6]; }
    assert "MY_VERCEL_URL"[..7] != "VERCEL_" by { assert "MY_VERCEL_URL"[0] != "VERCEL_"[0]; }
    assert "vercel_url"[..7] != "VERCEL_" by { assert "vercel_url"[0] != "VERCEL_"[0]; }
  }

  function StrKey(k: string): seq<SortAtom>
  {
    [StrAtom(k)]
  }

  /** `Object.keys(values).sort(localeCompare)`. */
  function SortedKeys(values: EnvMap): (ks: seq<string>)
    ensures multiset(ks) == multiset(KeysOf(values))
    ensures Sorted(ks, StrKey)
  {
    SortBySorted(KeysOf(values), StrKey);
    SortBy(KeysOf(values), StrKey)
  }

  /** The `editable` pairs the loop writes, over keys `ks` in order. */
  function EditableOf(ks: seq<string>, values: EnvMap): (m: EnvMap)
    ensures forall p :: p in m ==> p.0 in ks && !IsReservedRuntimeEnvKey(p.0) && Lookup(values, p.0) == Some(p.1)
  {
    if ks == [] then []
    else
      var k := ks[|ks| - 1];
      EditableOf(ks[..|ks| - 1], values)
      + (if IsReservedRuntimeEnvKey(k) || Lookup(values, k).None? then [] else [(k, Lookup(values, k).value)])
  }

  /** The `reservedKeys` the loop pushes, over keys `ks` in order. */
  function ReservedOf(ks: seq<string>): (r: seq<string>)
    ensures forall k :: k in r ==> k in ks && IsReservedRuntimeEnvKey(k)
  {
    if ks == [] then []
    else
      var k := ks[|ks| - 1];
      ReservedOf(ks[..|ks| - 1]) + (if IsReservedRuntimeEnvKey(k) then [k] else [])
  }

  /** The editable part of a pulled map, as `filterReservedRuntimeEnvKeys(values).editable`. */
  function Editable(values: EnvMap): EnvMap
  {
    EditableOf(SortedKeys(values), values)
  }

  function Reserved(values: EnvMap): seq<string>
  {
    ReservedOf(SortedKeys(values))
  }

  lemma EditableStep(ks: seq<string>, values: EnvMap, i: nat)
    requires i < |ks|
    ensures EditableOf(ks[..i + 1], values) == EditableOf(ks[..i], values)
      + (if IsReservedRuntimeEnvKey(ks[i]) || Lookup(values, ks[i]).None? then [] else [(ks[i], Lookup(values, ks[i]).value)])
    ensures ReservedOf(ks[..i + 1]) == ReservedOf(ks[..i]) + (if IsReservedRuntimeEnvKey(ks[i]) then [ks[i]] else [])
  {
    assert ks[..i + 1][..i] == ks[..i];
  }

  /** `filterReservedRuntimeEnvKeys`: walks the sorted keys, pushing each into one of the two outputs. */
  method FilterReservedRuntimeEnvKeys(values: EnvMap) returns (editable: EnvMap, reservedKeys: seq<string>)
    ensures editable == Editable(values)
    ensures reservedKeys == Reserved(values)
  {
    var keys := SortedKeys(values);
    editable := [];
    reservedKeys := [];
    for i := 0 to |keys|
      invariant editable == EditableOf(keys[..i], values)
      invariant reservedKeys == ReservedOf(keys[..i])
    {
      EditableStep(keys, values, i);
      var key := keys[i];
      if IsReservedRuntimeEnvKey(key) {
        reservedKeys := reservedKeys + [key];
      } else {
        var value := Lookup(values, key);
        if value.Some? {
          editable := editable + [(key, value.value)];
        }
      }
    }
    assert keys[..|keys|] == keys;
  }

  // ---------------------------------------------------------------------
  // Properties
  // ---------------------------------------------------------------------

  lemma {:induction false} EditableOfComplete(ks: seq<string>, values: EnvMap, k: string)
    requires k in ks && !IsReservedRuntimeEnvKey(k) && HasKey(values, k)
    ensures HasKey(EditableOf(ks, values), k)
    decreases |ks|
  {
    var e := EditableOf(ks, values);
    if ks[|ks| - 1] == k {
      assert e[|e| - 1].0 == k;
    } else {
      var prefix := ks[..|ks| - 1];
      assert k in prefix by {
        var j :| 0 <= j < |ks| && ks[j] == k;
        assert prefix[j] == k;
      }
      EditableOfComplete(prefix, values, k);
      var p := EditableOf(prefix, values);
      var j :| 0 <= j < |p| && p[j].0 == k;
      assert e[j] == p[j];
    }
  }

  lemma {:induction false} ReservedOfComplete(ks: seq<string>, k: string)
    requires k in ks && IsReservedRuntimeEnvKey(k)
    ensures k in ReservedOf(ks)
    decreases |ks|
  {
    if ks[|ks| - 1] != k {
      var prefix := ks[..|ks| - 1];
      assert k in prefix by {
        var j :| 0 <= j < |ks| && ks[j] == k;
        assert prefix[j] == k;
      }
      ReservedOfComplete(prefix, k);
    }
  }

  lemma {:induction false} ReservedOfSorted(ks: seq<string>)
    requires Sorted(ks, StrKey)
    ensures Sorted(ReservedOf(ks), StrKey)
    decreases |ks|
  {
    if ks != [] {
      var prefix := ks[..|ks| - 1];
      assert Sorted(prefix, StrKey);
      ReservedOfSorted(prefix);
      var r := ReservedOf(ks);
      var rp := ReservedOf(prefix);
      forall i, j | 0 <= i < j < |r| ensures KeyLe(StrKey(r[i]), StrKey(r[j])) {
        if j == |r| - 1 && |r| > |rp| {
          assert r[i] in rp;
          var m :| 0 <= m < |prefix| && prefix[m] == r[i];
          assert ks[m] == r[i];
        } else {
          assert r[i] == rp[i] && r[j] == rp[j];
        }
      }
    }
  }

  lemma {:induction false} EditableOfDistinct(ks: seq<string>, values: EnvMap)
    requires forall i, j :: 0 <= i < j < |ks| ==> ks[i] != ks[j]
    ensures DistinctKeys(EditableOf(ks, values))
    decreases |ks|
  {
    if ks != [] {
      var prefix := ks[..|ks| - 1];
      EditableOfDistinct(prefix, values);
      var e := EditableOf(ks, values);
      var p := EditableOf(prefix, values);
      forall i, j | 0 <= i < j < |e| ensures e[i].0 != e[j].0 {
        if j == |e| - 1 && |e| > |p| {
          assert e[i] in p;
          assert e[i].0 in prefix;
          var m :| 0 <= m < |prefix| && prefix[m] == e[i].0;
          assert ks[m] == e[i].0;
        } else {
          assert e[i] == p[i] && e[j] == p[j];
        }
      }
    }
  }

  lemma SortedKeysDistinct(values: EnvMap)
    requires DistinctKeys(values)
    ensures forall i, j :: 0 <= i < j < |SortedKeys(values)| ==> SortedKeys(values)[i] != SortedKeys(values)[j]
  {
    var ks := SortedKeys(values);
    forall i, j | 0 <= i < j < |ks| ensures ks[i] != ks[j] {
      if ks[i] == ks[j] {
        assert multiset(ks)[ks[i]] >= 2 by {
          assert ks == ks[..i] + [ks[i]] + ks[i + 1..j] + [ks[j]] + ks[j + 1..];
        }
        KeyOccursOnce(values, ks[i]);
        assert false;
      }
    }
  }

  lemma {:induction false} KeyOccursOnce(values: EnvMap, k: string)
    requires DistinctKeys(values)
    ensures multiset(KeysOf(values))[k] <= 1
    decreases |values|
  {
    if values != [] {
      var rest := values[1..];
      assert DistinctKeys(rest) by {
        forall i, j | 0 <= i < j < |rest| ensures rest[i].0 != rest[j].0 {
          assert rest[i] == values[i + 1] && rest[j] == values[j + 1];
        }
      }
      KeyOccursOnce(rest, k);
      assert KeysOf(values) == [values[0].0] + KeysOf(rest);
      if values[0].0 == k {
        assert k !in KeysOf(rest) by {
          forall i | 0 <= i < |rest| ensures rest[i].0 != k {
            assert rest[i] == values[i + 1];
          }
        }
      }
    }
  }

  /**
   * Every key of the input lands in exactly one output: the editable map
   * with its original value, or the sorted reserved list. No reserved key is
   * editable, and the editable keys are distinct.
   */
  lemma FilterPartitions(values: EnvMap)
    requires DistinctKeys(values)
    ensures forall k :: HasKey(values, k) ==> (HasKey(Editable(values), k) <==> k !in Reserved(values))
    ensures forall k :: HasKey(Editable(values), k) || k in Reserved(values) ==> HasKey(values, k)
    ensures forall p :: p in Editable(values) ==> Lookup(values, p.0) == Some(p.1) && !IsReservedRuntimeEnvKey(p.0)
    ensures forall k :: k in Reserved(values) ==> IsReservedRuntimeEnvKey(k)
    ensures Sorted(Reserved(values), StrKey)
    ensures DistinctKeys(Editable(values))
  {
    var ks := SortedKeys(values);
    ReservedOfSorted(ks);
    SortedKeysDistinct(values);
    EditableOfDistinct(ks, values);
    forall k | HasKey(values, k) ensures HasKey(Editable(values), k) <==> k !in Reserved(values) {
      var i :| 0 <= i < |values| && values[i].0 == k;
      assert k in multiset(KeysOf(values)) by { assert KeysOf(values)[i] == k; }
      assert k in ks;
      if IsReservedRuntimeEnvKey(k) {
        ReservedOfComplete(ks, k);
      } else {
        EditableOfComplete(ks, values, k);
      }
    }
    forall k | HasKey(Editable(values), k) || k in Reserved(values) ensures HasKey(values, k) {
      if HasKey(Editable(values), k) {
        var j :| 0 <= j < |Editable(values)| && Editable(values)[j].0 == k;
        assert Editable(values)[j] in Editable(values);
      } else {
        assert k in ks;
      }
      assert k in multiset(KeysOf(values));
      var i :| 0 <= i < |values| && KeysOf(values)[i] == k;
    }
  }
}
