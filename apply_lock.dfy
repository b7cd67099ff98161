/**
 * The per-project apply lock (src/lib/vercel-cli/apply-lock.ts): a registry
 * of the keys whose apply is in flight. A call for a held key fails at once;
 * otherwise the key is held while the guarded function `fn` runs and released however
 * `fn` ends. The registry is modelled sequentially: `fn` is a
 * function of the keys held while it runs, which is all it can observe of
 * the registry (a nested call for the same key, say).
 */
module ApplyLock {
  import opened Strings

  const ConflictMessage := "Another apply request is already in progress for this project scope."

  /** `lockKey`. */
  function LockKey(projectId: string, scopeId: string): string
  {
    scopeId + "::" + projectId
  }

  /** How the guarded function `fn` ends: with a value or by throwing. */
  datatype Completion<T> = Returned(value: T) | Threw(error: string)

  /** How `withProjectApplyLock` ends: as `fn` did, or with `ApplyLockConflictError` before `fn` runs. */
  datatype LockOutcome<T> = Ran(completion: Completion<T>) | Conflict(message: string)

  /**
   * `withProjectApplyLock` on the registry `held`: its outcome and the
   * registry it leaves. `fn` runs on the registry with the key added, and
   * the `finally` deletes the key again.
   */
  function Guarded<T>(held: set<string>, key: string, fn: set<string> -> Completion<T>): (LockOutcome<T>, set<string>)
  {
    if key in held then (Conflict(ConflictMessage), held)
    else
      var during := held + {key};
      (Ran(fn(during)), during - {key})
  }

  /** The registry of in-flight applies (`inFlightApplyLocks`). */
  class ApplyLocks {
    var inFlight: set<string>

    constructor()
      ensures inFlight == {}
    {
      inFlight := {};
    }

    method WithProjectApplyLock<T>(projectId: string, scopeId: string, fn: set<string> -> Completion<T>)
      returns (r: LockOutcome<T>)
      modifies this
      ensures (r, inFlight) == Guarded(old(inFlight), LockKey(projectId, scopeId), fn)
    {
      var key := LockKey(projectId, scopeId);
      if key in inFlight {
        return Conflict(ConflictMessage);
      }
      inFlight := inFlight + {key};
      var completion := fn(inFlight);
      inFlight := inFlight - {key};
      r := Ran(completion);
    }
  }

  // ---------------------------------------------------------------------
  // Properties
  // ---------------------------------------------------------------------

  /** A call conflicts exactly when its key is already held, and then `fn` does not run. */
  lemma ConflictExactlyWhenHeld<T>(held: set<string>, key: string, fn: set<string> -> Completion<T>)
    ensures Guarded(held, key, fn).0.Conflict? <==> key in held
    ensures key in held ==> Guarded(held, key, fn).0 == Conflict(ConflictMessage)
  {
  }

  /** While `fn` runs, its key is held together with every key held before. */
  lemma HeldWhileRunning<T>(held: set<string>, key: string, fn: set<string> -> Completion<T>)
    requires key !in held
    ensures Guarded(held, key, fn).0 == Ran(fn(held + {key}))
  {
  }

  /** A nested call for the same key, made from inside `fn`, conflicts. */
  lemma NestedCallConflicts<U>(held: set<string>, key: string, inner: set<string> -> Completion<U>)
    ensures Guarded(held + {key}, key, inner).0.Conflict?
  {
  }

  /** Whether `fn` returns or throws, the call leaves the registry as it found it. */
  lemma RegistryRestored<T>(held: set<string>, key: string, fn: set<string> -> Completion<T>)
    ensures Guarded(held, key, fn).1 == held
  {
    if key !in held {
      assert held + {key} - {key} == held;
    }
  }

  /** Two calls one after the other behave as if each ran alone. */
  lemma SequentialCallsIndependent<T, U>(held: set<string>, k1: string, k2: string,
    f: set<string> -> Completion<T>, g: set<string> -> Completion<U>)
    ensures Guarded(Guarded(held, k1, f).1, k2, g) == Guarded(held, k2, g)
  {
    RegistryRestored(held, k1, f);
  }

  /** Another key being held never blocks a call. */
  lemma DistinctKeysIndependent<T>(held: set<string>, key: string, other: string, fn: set<string> -> Completion<T>)
    requires key != other
    ensures Guarded(held + {other}, key, fn).0.Conflict? == Guarded(held - {other}, key, fn).0.Conflict?
  {
  }

  /**
   * Project ids contain no `:`, so the key tells scope and project apart,
   * whatever the scope id holds ("team:…" and "user:…" ids included).
   */
  lemma LockKeyInjective(p1: string, s1: string, p2: string, s2: string)
    requires ':' !in p1 && ':' !in p2
    requires LockKey(p1, s1) == LockKey(p2, s2)
    ensures p1 == p2 && s1 == s2
  {
    var k := LockKey(p1, s1);
    ProjectIsColonFreeSuffix(p1, s1);
    ProjectIsColonFreeSuffix(p2, s2);
    assert |p1| == |p2|;
    assert p1 == k[|k| - |p1|..] == p2;
    assert s1 == k[..|s1|] == s2;
  }

  /**
   * In a key whose project id has no `:`, the project id is the longest
   * colon-free suffix: the character before it is a `:`.
   */
  lemma ProjectIsColonFreeSuffix(p: string, s: string)
    requires ':' !in p
    ensures var k := LockKey(p, s);
      k[|k| - |p| - 1] == ':' && forall j :: |k| - |p| <= j < |k| ==> k[j] != ':'
  {
    var k := LockKey(p, s);
    forall j | |k| - |p| <= j < |k|
      ensures k[j] != ':'
    {
      assert k[j] == p[j - (|k| - |p|)];
    }
  }
}
