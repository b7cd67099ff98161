/**
 * The terminal UI's application state and its screen state machine
 * (src/tui/state/types.ts, src/tui/state/machine.ts): a fixed table of the
 * screens reachable from each screen, and a transition that either moves
 * to an allowed screen or throws.
 */
module TuiMachine {
  import opened Wrappers
  import opened EnvTypes
  import Projects

  datatype Screen = Auth | Picker | Editor | Confirm | Report

  function ScreenName(s: Screen): string
  {
    match s
    case Auth => "auth"
    case Picker => "picker"
    case Editor => "editor"
    case Confirm => "confirm"
    case Report => "report"
  }

  datatype ScopeType = Personal | Team

  /** `VercelScopeSummary`. */
  datatype ScopeSummary = ScopeSummary(id: string, slug: string, name: string, scopeType: ScopeType)

  /** `TuiSelection`. */
  datatype Selection = Selection(scopeId: Option<string>, projectId: Option<string>)

  /** `TuiEditorContext`. */
  datatype EditorContext = EditorContext(
    snapshot: Option<Snapshot>,
    baseline: Option<Draft>,
    draft: Option<Draft>,
    pendingOperations: seq<Operation>,
    failedOperationIds: seq<string>)

  /** `TuiStatusState`. */
  datatype StatusState = StatusState(loading: bool, message: Option<string>, error: Option<string>)

  /** `TuiAppState`. */
  datatype TuiAppState = TuiAppState(
    screen: Screen,
    scopes: seq<ScopeSummary>,
    projects: seq<Projects.ProjectSummary>,
    selection: Selection,
    editor: EditorContext,
    applyReport: Option<ApplyResultData>,
    status: StatusState)

  /** `allowedTransitions`. */
  function AllowedTransitions(from: Screen): seq<Screen>
  {
    match from
    case Auth => [Picker]
    case Picker => [Auth, Editor]
    case Editor => [Picker, Confirm, Report]
    case Confirm => [Editor, Report]
    case Report => [Editor, Picker]
  }

  /** `canTransitionScreen`. */
  predicate CanTransitionScreen(from: Screen, to: Screen)
  {
    to in AllowedTransitions(from)
  }

  /** How `transitionScreen` ends: with the next state, or by throwing. */
  datatype TransitionResult = Moved(state: TuiAppState) | Thrown(message: string)

  function InvalidTransitionMessage(from: Screen, to: Screen): string
  {
    "Invalid screen transition: " + ScreenName(from) + " -> " + ScreenName(to)
  }

  /** `transitionScreen`. */
  function TransitionScreen(state: TuiAppState, nextScreen: Screen): (r: TransitionResult)
    ensures r.Moved? ==> r.state.screen == nextScreen
  {
    if state.screen == nextScreen then Moved(state)
    else if !CanTransitionScreen(state.screen, nextScreen) then
      Thrown(InvalidTransitionMessage(state.screen, nextScreen))
    else Moved(state.(screen := nextScreen))
  }

  // ---------------------------------------------------------------------
  // Properties
  // ---------------------------------------------------------------------

  /** The table in full, as an if-and-only-if over every pair of screens. */
  lemma TransitionTable(from: Screen, to: Screen)
    ensures CanTransitionScreen(from, to) <==>
      (from == Auth && to == Picker)
      || (from == Picker && (to == Auth || to == Editor))
      || (from == Editor && (to == Picker || to == Confirm || to == Report))
      || (from == Confirm && (to == Editor || to == Report))
      || (from == Report && (to == Editor || to == Picker))
  {
  }

  /** No screen lists itself. */
  lemma NoSelfTransition(s: Screen)
    ensures !CanTransitionScreen(s, s)
  {
  }

  /** Moving to the current screen returns the state as it is. */
  lemma SameScreenUnchanged(state: TuiAppState)
    ensures TransitionScreen(state, state.screen) == Moved(state)
  {
  }

  /**
   * Moving to another screen succeeds exactly when the table allows it, and
   * then changes the screen and nothing else; otherwise it throws with a
   * message naming both screens.
   */
  lemma TransitionOutcome(state: TuiAppState, nextScreen: Screen)
    requires state.screen != nextScreen
    ensures TransitionScreen(state, nextScreen).Moved? <==> CanTransitionScreen(state.screen, nextScreen)
    ensures CanTransitionScreen(state.screen, nextScreen) ==>
      TransitionScreen(state, nextScreen).state == state.(screen := nextScreen)
    ensures !CanTransitionScreen(state.screen, nextScreen) ==>
      TransitionScreen(state, nextScreen) == Thrown(InvalidTransitionMessage(state.screen, nextScreen))
  {
  }

  /** The message of a rejected move starts with "Invalid screen transition". */
  lemma RejectionMessagePrefix(from: Screen, to: Screen)
    ensures InvalidTransitionMessage(from, to)[..25] == "Invalid screen transition"
  {
  }

  /** The path the machine tests take, auth, picker, editor, confirm, report, is allowed step by step. */
  lemma ApplyFlowAllowed()
    ensures CanTransitionScreen(Auth, Picker) && CanTransitionScreen(Picker, Editor)
    ensures CanTransitionScreen(Editor, Confirm) && CanTransitionScreen(Confirm, Report)
    ensures !CanTransitionScreen(Auth, Editor)
  {
  }
}
