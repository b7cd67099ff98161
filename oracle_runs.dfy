/**
 * Running a list of items against an outside service, one item at a time:
 * each item may send one request, the n-th request sent gets the n-th
 * outcome of an oracle, and each item's result is a function of the item
 * and the outcome of its request (an item that sends none gets an outcome
 * it ignores). Both appliers of the project follow this shape, the CLI one
 * with a command runner and the SDK one with an API client.
 */
module OracleRuns {
  import opened Wrappers

  /** The requests these items send, in order. */
  function Requests<A, C>(items: seq<A>, request: A -> Option<C>): seq<C>
  {
    if items == [] then [] else Listed(request(items[0])) + Requests(items[1..], request)
  }

  /** 1 when the item sends a request, else 0. */
  function Sent<A, C>(item: A, request: A -> Option<C>): nat
  {
    if request(item).Some? then 1 else 0
  }

  /** How many of these items send a request. */
  function RequestCount<A, C>(items: seq<A>, request: A -> Option<C>): nat
  {
    if items == [] then 0 else Sent(items[0], request) + RequestCount(items[1..], request)
  }

  /** The results of these items, the first request they send being number `start`. */
  function Results<A, C, O, R>(items: seq<A>, request: A -> Option<C>, oracle: nat -> O, result: (A, O) -> R, start: nat)
    : (r: seq<R>)
    ensures |r| == |items|
  {
    if items == [] then []
    else [result(items[0], oracle(start))] + Results(items[1..], request, oracle, result, start + Sent(items[0], request))
  }

  /** One request per item that sends one, and none for the others. */
  lemma {:induction false} RequestsCounted<A, C>(items: seq<A>, request: A -> Option<C>)
    ensures |Requests(items, request)| == RequestCount(items, request)
    decreases |items|
  {
    if items != [] {
      RequestsCounted(items[1..], request);
    }
  }

  lemma {:induction false} RequestsConcat<A, C>(a: seq<A>, b: seq<A>, request: A -> Option<C>)
    ensures Requests(a + b, request) == Requests(a, request) + Requests(b, request)
    decreases |a|
  {
    if a == [] {
      assert a + b == b;
    } else {
      assert (a + b)[1..] == a[1..] + b;
      RequestsConcat(a[1..], b, request);
    }
  }

  lemma {:induction false} RequestCountConcat<A, C>(a: seq<A>, b: seq<A>, request: A -> Option<C>)
    ensures RequestCount(a + b, request) == RequestCount(a, request) + RequestCount(b, request)
    decreases |a|
  {
    if a == [] {
      assert a + b == b;
    } else {
      assert (a + b)[1..] == a[1..] + b;
      RequestCountConcat(a[1..], b, request);
    }
  }

  /** Running a + b is running a, then running b with its requests numbered after a's. */
  lemma {:induction false} ResultsConcat<A, C, O, R>(a: seq<A>, b: seq<A>, request: A -> Option<C>, oracle: nat -> O,
    result: (A, O) -> R, start: nat)
    ensures Results(a + b, request, oracle, result, start)
      == Results(a, request, oracle, result, start) + Results(b, request, oracle, result, start + RequestCount(a, request))
    decreases |a|
  {
    if a == [] {
      assert a + b == b;
    } else {
      assert (a + b)[1..] == a[1..] + b;
      ResultsConcat(a[1..], b, request, oracle, result, start + Sent(a[0], request));
    }
  }

  /** Adding one item to a run adds its request, if it sends one. */
  lemma RequestsStep<A, C>(items: seq<A>, request: A -> Option<C>, i: nat)
    requires i < |items|
    ensures Requests(items[..i + 1], request) == Requests(items[..i], request) + Listed(request(items[i]))
    ensures RequestCount(items[..i + 1], request) == RequestCount(items[..i], request) + Sent(items[i], request)
  {
    assert items[..i + 1] == items[..i] + [items[i]];
    RequestsConcat(items[..i], [items[i]], request);
    RequestCountConcat(items[..i], [items[i]], request);
    assert [items[i]][1..] == [];
  }

  /** Adding one item to a run adds its result, from the outcome numbered after the earlier requests. */
  lemma ResultsStep<A, C, O, R>(items: seq<A>, request: A -> Option<C>, oracle: nat -> O, result: (A, O) -> R,
    start: nat, i: nat)
    requires i < |items|
    ensures Results(items[..i + 1], request, oracle, result, start)
      == Results(items[..i], request, oracle, result, start)
        + [result(items[i], oracle(start + RequestCount(items[..i], request)))]
  {
    assert items[..i + 1] == items[..i] + [items[i]];
    ResultsConcat(items[..i], [items[i]], request, oracle, result, start);
    assert [items[i]][1..] == [];
  }

  /**
   * One step of a run: after items[..i] sent `calls` and recorded `results`,
   * item i sends `call` (its request, if any) as the next call and records
   * `r`, its result from that call's outcome.
   */
  lemma RunStep<A, C, O, R>(items: seq<A>, request: A -> Option<C>, oracle: nat -> O, result: (A, O) -> R,
    start: nat, i: nat, calls: seq<C>, results: seq<R>, call: Option<C>, r: R)
    requires i < |items|
    requires calls == Requests(items[..i], request) && |calls| == RequestCount(items[..i], request)
    requires results == Results(items[..i], request, oracle, result, start)
    requires call == request(items[i]) && r == result(items[i], oracle(start + |calls|))
    ensures calls + Listed(call) == Requests(items[..i + 1], request)
    ensures |calls + Listed(call)| == RequestCount(items[..i + 1], request)
    ensures results + [r] == Results(items[..i + 1], request, oracle, result, start)
  {
    RequestsStep(items, request, i);
    ResultsStep(items, request, oracle, result, start, i);
  }

  /**
   * Two runs one after the other, the second numbering its requests after
   * the first's, together are one run of the two lists joined.
   */
  lemma ThenRun<A, C, O, R>(a: seq<A>, b: seq<A>, request: A -> Option<C>, oracle: nat -> O, result: (A, O) -> R,
    start: nat, aCalls: seq<C>, bCalls: seq<C>, aResults: seq<R>, bResults: seq<R>, bStart: nat)
    requires aCalls == Requests(a, request) && bCalls == Requests(b, request)
    requires aResults == Results(a, request, oracle, result, start)
    requires bStart == start + |aCalls| && bResults == Results(b, request, oracle, result, bStart)
    ensures aCalls + bCalls == Requests(a + b, request)
    ensures aResults + bResults == Results(a + b, request, oracle, result, start)
  {
    RequestsCounted(a, request);
    RequestsConcat(a, b, request);
    ResultsConcat(a, b, request, oracle, result, start);
  }

  /** Result k is item k's, from the outcome of the request numbered by the requests sent before it. */
  lemma {:induction false} ResultsAt<A, C, O, R>(items: seq<A>, request: A -> Option<C>, oracle: nat -> O,
    result: (A, O) -> R, start: nat, k: nat)
    requires k < |items|
    ensures Results(items, request, oracle, result, start)[k]
      == result(items[k], oracle(start + RequestCount(items[..k], request)))
    decreases k
  {
    if k > 0 {
      ResultsAt(items[1..], request, oracle, result, start + Sent(items[0], request), k - 1);
      assert items[..k][1..] == items[1..][..k - 1];
    }
  }

  /** The same for a run whose first request is number 0. */
  lemma FirstRunAt<A, C, O, R>(items: seq<A>, request: A -> Option<C>, oracle: nat -> O, result: (A, O) -> R, k: nat)
    requires k < |items|
    ensures Results(items, request, oracle, result, 0)[k] == result(items[k], oracle(RequestCount(items[..k], request)))
  {
    ResultsAt(items, request, oracle, result, 0, k);
  }

  /** Requests go out in item order: request number RequestCount(items[..i]) is item i's own. */
  lemma RequestsInOrder<A, C>(items: seq<A>, request: A -> Option<C>, i: nat)
    requires i < |items| && request(items[i]).Some?
    ensures RequestCount(items[..i], request) < |Requests(items, request)|
    ensures Requests(items, request)[RequestCount(items[..i], request)] == request(items[i]).value
  {
    assert items == items[..i] + [items[i]] + items[i + 1..];
    RequestsConcat(items[..i] + [items[i]], items[i + 1..], request);
    RequestsConcat(items[..i], [items[i]], request);
    RequestsCounted(items[..i], request);
    assert [items[i]][1..] == [];
  }
}
