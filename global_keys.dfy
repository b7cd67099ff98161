/**
 * The keys the terminal UI handles on every screen
 * (src/tui/keyboard/global-keys.ts). Which callback runs is the result;
 * whether a text field has focus is an input.
 */
module GlobalKeys {
  import opened Wrappers

  /** The callbacks: `onQuit`, `onHelp` and `onRefresh`. */
  datatype GlobalAction = Quit | Help | Refresh

  /** The returned flag, and the one callback invoked, if any. */
  datatype KeyOutcome = KeyOutcome(handled: bool, action: Option<GlobalAction>)

  /** The sequence a terminal sends for Ctrl+C. */
  const CtrlC: string := [3 as char]

  /** `handleGlobalKeySequence`. */
  function HandleGlobalKeySequence(sequence: string, textInputMode: bool): (r: KeyOutcome)
    ensures r.handled <==> r.action.Some?
  {
    if sequence == CtrlC then KeyOutcome(true, Some(Quit))
    else if textInputMode then KeyOutcome(false, None)
    else if sequence == "q" || sequence == "Q" then KeyOutcome(true, Some(Quit))
    else if sequence == "?" || sequence == "h" || sequence == "H" then KeyOutcome(true, Some(Help))
    else if sequence == "r" || sequence == "R" then KeyOutcome(true, Some(Refresh))
    else KeyOutcome(false, None)
  }

  // ---------------------------------------------------------------------
  // Properties
  // ---------------------------------------------------------------------

  /** Ctrl+C quits whatever the mode. */
  lemma CtrlCAlwaysQuits(textInputMode: bool)
    ensures HandleGlobalKeySequence(CtrlC, textInputMode) == KeyOutcome(true, Some(Quit))
  {
  }

  /** With a text field focused, every other sequence is left to the field. */
  lemma TextInputKeepsKeys(sequence: string)
    requires sequence != CtrlC
    ensures HandleGlobalKeySequence(sequence, true) == KeyOutcome(false, None)
  {
  }

  /** The bindings, each as an if-and-only-if. */
  lemma KeyBindings(sequence: string, textInputMode: bool)
    ensures HandleGlobalKeySequence(sequence, textInputMode).action == Some(Quit) <==>
      sequence == CtrlC || (!textInputMode && sequence in ["q", "Q"])
    ensures HandleGlobalKeySequence(sequence, textInputMode).action == Some(Help) <==>
      !textInputMode && sequence in ["?", "h", "H"]
    ensures HandleGlobalKeySequence(sequence, textInputMode).action == Some(Refresh) <==>
      !textInputMode && sequence in ["r", "R"]
  {
  }

  /** Outside text input, the handled sequences are exactly these eight. */
  lemma HandledSequences(sequence: string)
    ensures HandleGlobalKeySequence(sequence, false).handled <==>
      sequence in [CtrlC, "q", "Q", "?", "h", "H", "r", "R"]
  {
  }
}
