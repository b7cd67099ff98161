/**
 * The terminal UI's state store (src/tui/state/store.ts): one application
 * state, replaced by each action, and a set of listeners called with the new
 * state after every replacement. Listeners are identified by a number; what
 * a listener does is outside the store, so each call is recorded in the
 * `notified` log instead.
 */
module TuiStore {
  import opened Wrappers
  import opened EnvTypes
  import opened TuiMachine

  type ListenerId = nat

  /** One call of a listener, with the state it was given. */
  datatype Notice = Notice(listener: ListenerId, state: TuiAppState)

  /** `createInitialState`. */
  function InitialState(): TuiAppState
  {
    TuiAppState(
      screen := Auth,
      scopes := [],
      projects := [],
      selection := Selection(None, None),
      editor := EditorContext(None, None, None, [], []),
      applyReport := None,
      status := StatusState(false, None, None))
  }

  /** `Partial<TuiAppState>`: the fields present in a patch. */
  datatype StatePatch = StatePatch(
    screen: Option<Screen>,
    scopes: Option<seq<ScopeSummary>>,
    projects: Option<seq<Projects.ProjectSummary>>,
    selection: Option<Selection>,
    editor: Option<EditorContext>,
    applyReport: Option<Option<ApplyResultData>>,
    status: Option<StatusState>)

  const EmptyPatch := StatePatch(None, None, None, None, None, None, None)

  /** `{ ...state, ...patch }`. */
  function Patched(s: TuiAppState, p: StatePatch): TuiAppState
  {
    TuiAppState(
      screen := p.screen.GetOr(s.screen),
      scopes := p.scopes.GetOr(s.scopes),
      projects := p.projects.GetOr(s.projects),
      selection := p.selection.GetOr(s.selection),
      editor := p.editor.GetOr(s.editor),
      applyReport := p.applyReport.GetOr(s.applyReport),
      status := p.status.GetOr(s.status))
  }

  /** Two patches applied one after the other: the later one's fields win. */
  function ThenPatch(first: StatePatch, second: StatePatch): StatePatch
  {
    StatePatch(
      if second.screen.Some? then second.screen else first.screen,
      if second.scopes.Some? then second.scopes else first.scopes,
      if second.projects.Some? then second.projects else first.projects,
      if second.selection.Some? then second.selection else first.selection,
      if second.editor.Some? then second.editor else first.editor,
      if second.applyReport.Some? then second.applyReport else first.applyReport,
      if second.status.Some? then second.status else first.status)
  }

  /** The calls `listeners.forEach` makes for a new state, in subscription order. */
  function Notifications(listeners: seq<ListenerId>, s: TuiAppState): (n: seq<Notice>)
    ensures |n| == |listeners|
    ensures forall i :: 0 <= i < |listeners| ==> n[i] == Notice(listeners[i], s)
  {
    seq(|listeners|, i requires 0 <= i < |listeners| => Notice(listeners[i], s))
  }

  /** A set of listeners: each subscribed at most once. */
  predicate Distinct(listeners: seq<ListenerId>)
  {
    forall i, j :: 0 <= i < j < |listeners| ==> listeners[i] != listeners[j]
  }

  /** `listeners.add`: a listener already in the set keeps its place. */
  function Added(listeners: seq<ListenerId>, l: ListenerId): seq<ListenerId>
  {
    if l in listeners then listeners else listeners + [l]
  }

  /** `listeners.delete`. */
  function Removed(listeners: seq<ListenerId>, l: ListenerId): (r: seq<ListenerId>)
    ensures |r| <= |listeners|
  {
    if listeners == [] then []
    else (if listeners[0] == l then [] else [listeners[0]]) + Removed(listeners[1..], l)
  }

  class Store {
    var state: TuiAppState
    var listeners: seq<ListenerId>
    var notified: seq<Notice>

    predicate Valid()
      reads this
    {
      Distinct(listeners)
    }

    /** `new TuiStore(initialState = createInitialState())`. */
    constructor(initialState: Option<TuiAppState>)
      ensures Valid()
      ensures state == initialState.GetOr(InitialState()) && listeners == [] && notified == []
    {
      state := initialState.GetOr(InitialState());
      listeners := [];
      notified := [];
    }

    /** `setState`: replace the state, then call every listener once with it. */
    method SetState(nextState: TuiAppState)
      modifies this
      ensures state == nextState && listeners == old(listeners)
      ensures notified == old(notified) + Notifications(listeners, nextState)
    {
      state := nextState;
      ghost var before := notified;
      for i := 0 to |listeners|
        invariant state == nextState && listeners == old(listeners)
        invariant notified == before + Notifications(listeners[..i], nextState)
      {
        assert Notifications(listeners[..i + 1], nextState)
          == Notifications(listeners[..i], nextState) + [Notice(listeners[i], nextState)];
        notified := notified + [Notice(listeners[i], state)];
      }
      assert listeners[..|listeners|] == listeners;
    }

    /** `patchState`: overwrite the fields present in the patch. */
    method PatchState(patch: StatePatch)
      modifies this
      ensures state == Patched(old(state), patch) && listeners == old(listeners)
      ensures notified == old(notified) + Notifications(listeners, state)
    {
      SetState(Patched(state, patch));
    }

    /**
     * `transitionTo`: a rejected move throws before `setState`, so nothing
     * changes and no listener is called; `thrown` is the error's message.
     */
    method TransitionTo(nextScreen: Screen) returns (thrown: Option<string>)
      modifies this
      ensures listeners == old(listeners)
      ensures match TransitionScreen(old(state), nextScreen)
        case Moved(s) => thrown.None? && state == s && notified == old(notified) + Notifications(listeners, s)
        case Thrown(m) => thrown == Some(m) && state == old(state) && notified == old(notified)
    {
      match TransitionScreen(state, nextScreen)
      case Moved(s) =>
        SetState(s);
        thrown := None;
      case Thrown(m) =>
        thrown := Some(m);
    }

    /** `reset`. */
    method Reset()
      modifies this
      ensures state == InitialState() && listeners == old(listeners)
      ensures notified == old(notified) + Notifications(listeners, InitialState())
    {
      SetState(InitialState());
    }

    /** `subscribe`. */
    method Subscribe(listener: ListenerId)
      requires Valid()
      modifies this
      ensures Valid()
      ensures listeners == Added(old(listeners), listener) && state == old(state) && notified == old(notified)
    {
      if listener !in listeners {
        listeners := listeners + [listener];
      }
    }

    /** The function `subscribe` returns. */
    method Unsubscribe(listener: ListenerId)
      requires Valid()
      modifies this
      ensures Valid()
      ensures listeners == Removed(old(listeners), listener) && state == old(state) && notified == old(notified)
    {
      RemovedKeepsDistinct(listeners, listener);
      listeners := Removed(listeners, listener);
    }
  }

  // ---------------------------------------------------------------------
  // Properties
  // ---------------------------------------------------------------------

  /** The initial state: the auth screen, nothing loaded or selected, no report, not loading. */
  lemma InitialStateShape()
    ensures InitialState().screen == Auth
    ensures InitialState().scopes == [] && InitialState().projects == []
    ensures InitialState().selection.scopeId.None? && InitialState().selection.projectId.None?
    ensures InitialState().editor.snapshot.None? && InitialState().editor.draft.None?
    ensures InitialState().editor.pendingOperations == [] && InitialState().editor.failedOperationIds == []
    ensures InitialState().applyReport.None? && !InitialState().status.loading
  {
  }

  /** Each subscribed listener is called exactly once per new state, and no one else is. */
  lemma NotifiedOncePerListener(listeners: seq<ListenerId>, s: TuiAppState, l: ListenerId)
    requires Distinct(listeners)
    ensures (exists i :: 0 <= i < |listeners| && Notifications(listeners, s)[i] == Notice(l, s)) <==> l in listeners
    ensures forall i, j :: 0 <= i < j < |listeners| ==>
      Notifications(listeners, s)[i].listener != Notifications(listeners, s)[j].listener
  {
    if l in listeners {
      var i :| 0 <= i < |listeners| && listeners[i] == l;
      assert Notifications(listeners, s)[i] == Notice(l, s);
    }
  }

  /** An empty patch changes nothing, and applying a patch twice is the same as once. */
  lemma PatchIdentityAndIdempotence(s: TuiAppState, p: StatePatch)
    ensures Patched(s, EmptyPatch) == s
    ensures Patched(Patched(s, p), p) == Patched(s, p)
  {
  }

  /** Two patches in a row equal their merge, the later one winning on shared fields. */
  lemma PatchesCompose(s: TuiAppState, p: StatePatch, q: StatePatch)
    ensures Patched(Patched(s, p), q) == Patched(s, ThenPatch(p, q))
  {
  }

  /** A field absent from the patch keeps its value; one present takes the patch's. */
  lemma PatchTouchesOnlyPresentFields(s: TuiAppState, p: StatePatch)
    ensures p.screen.None? ==> Patched(s, p).screen == s.screen
    ensures p.screen.Some? ==> Patched(s, p).screen == p.screen.value
    ensures p.applyReport.None? ==> Patched(s, p).applyReport == s.applyReport
    ensures p.applyReport.Some? ==> Patched(s, p).applyReport == p.applyReport.value
    ensures p.editor.None? ==> Patched(s, p).editor == s.editor
    ensures p.status.None? ==> Patched(s, p).status == s.status
  {
  }

  /** After unsubscribing, a listener is gone and every other one stays, in order. */
  lemma {:induction false} RemovedMeaning(listeners: seq<ListenerId>, l: ListenerId)
    ensures l !in Removed(listeners, l)
    ensures forall m :: m != l ==> (m in Removed(listeners, l) <==> m in listeners)
  {
    if listeners != [] {
      RemovedMeaning(listeners[1..], l);
      assert listeners == [listeners[0]] + listeners[1..];
    }
  }

  /** Removing keeps a set a set. */
  lemma {:induction false} RemovedKeepsDistinct(listeners: seq<ListenerId>, l: ListenerId)
    requires Distinct(listeners)
    ensures Distinct(Removed(listeners, l))
  {
    if listeners != [] {
      RemovedKeepsDistinct(listeners[1..], l);
      RemovedMeaning(listeners[1..], l);
      var head := if listeners[0] == l then [] else [listeners[0]];
      var r := Removed(listeners, l);
      assert r == head + Removed(listeners[1..], l);
      assert listeners[0] !in listeners[1..];
    }
  }

  /** Subscribing and then unsubscribing a new listener leaves the set as it was. */
  lemma {:induction false} SubscribeThenUnsubscribe(listeners: seq<ListenerId>, l: ListenerId)
    requires l !in listeners
    ensures Removed(Added(listeners, l), l) == listeners
  {
    RemovedAbsent(listeners, l);
    RemovedAppend(listeners, [l], l);
    assert Removed([l], l) == [] by {
      assert [l][1..] == [];
    }
  }

  lemma {:induction false} RemovedAbsent(listeners: seq<ListenerId>, l: ListenerId)
    requires l !in listeners
    ensures Removed(listeners, l) == listeners
  {
    if listeners != [] {
      RemovedAbsent(listeners[1..], l);
      assert listeners == [listeners[0]] + listeners[1..];
    }
  }

  lemma {:induction false} RemovedAppend(a: seq<ListenerId>, b: seq<ListenerId>, l: ListenerId)
    ensures Removed(a + b, l) == Removed(a, l) + Removed(b, l)
  {
    if a != [] {
      RemovedAppend(a[1..], b, l);
      assert (a + b)[1..] == a[1..] + b;
    } else {
      assert a + b == b;
    }
  }

  /** A listener that unsubscribed is not called by later state changes. */
  lemma UnsubscribedNotCalled(listeners: seq<ListenerId>, l: ListenerId, s: TuiAppState)
    ensures forall i :: 0 <= i < |Removed(listeners, l)| ==> Notifications(Removed(listeners, l), s)[i].listener != l
  {
    RemovedMeaning(listeners, l);
  }
}
