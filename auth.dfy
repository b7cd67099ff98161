/**
 * Reading the CLI login state (src/lib/vercel-cli/auth.ts): the parser of
 * `vercel whoami` output and the classification of one runner outcome into
 * an authentication status.
 */
module Auth {
  import opened Wrappers
  import opened Strings
  import opened CliRunner

  datatype Identity = Identity(username: string, activeScope: Option<string>)

  datatype AuthStatus = AuthStatus(authenticated: bool, identity: Option<Identity>, message: string)

  // ---------------------------------------------------------------------
  // parseWhoamiOutput
  // ---------------------------------------------------------------------

  /** Non-empty, with no blank at either end. */
  predicate TrimmedLine(line: string)
  {
    line != [] && !IsSpace(line[0]) && !IsSpace(line[|line| - 1])
  }

  /** `.map(line => line.trim()).filter(line => line.length > 0)`. */
  function NonBlankTrimmed(lines: seq<string>): (r: seq<string>)
    ensures |r| <= |lines|
    ensures forall i :: 0 <= i < |r| ==> TrimmedLine(r[i])
  {
    if lines == [] then []
    else
      var t := Trim(lines[0]);
      var head := if t != [] then [t] else [];
      var rest := NonBlankTrimmed(lines[1..]);
      assert forall i :: 0 <= i < |head| ==> TrimmedLine(head[i]);
      head + rest
  }

  /** The lines `parseWhoamiOutput` works on. */
  function WhoamiLines(stdout: string): seq<string>
  {
    NonBlankTrimmed(SplitLines(stdout))
  }

  /** The CLI's own chatter, which is never the user name. */
  predicate IsBanner(line: string)
  {
    StartsWith(line, "Vercel CLI") || StartsWith(line, "Retrieving")
  }

  /** The position of the first line that is not a banner, or |lines| when every line is one. */
  function FirstNonBanner(lines: seq<string>): (k: nat)
    ensures k <= |lines|
    ensures k < |lines| ==> !IsBanner(lines[k])
    ensures forall j :: 0 <= j < k ==> IsBanner(lines[j])
  {
    if lines == [] then 0
    else if !IsBanner(lines[0]) then 0
    else 1 + FirstNonBanner(lines[1..])
  }

  /** The number of whitespace characters from position `j` on: `\s*`. */
  function SpacesFrom(s: string, j: nat): (n: nat)
    requires j <= |s|
    ensures j + n <= |s|
    ensures forall m :: j <= m < j + n ==> IsSpace(s[m])
    ensures j + n == |s| || !IsSpace(s[j + n])
    decreases |s| - j
  {
    if j < |s| && IsSpace(s[j]) then 1 + SpacesFrom(s, j + 1) else 0
  }

  /** The number of non-whitespace characters from position `j` on: `[^\s]+`, taken greedily. */
  function TokenFrom(s: string, j: nat): (n: nat)
    requires j <= |s|
    ensures j + n <= |s|
    ensures forall m :: j <= m < j + n ==> !IsSpace(s[m])
    ensures j + n == |s| || IsSpace(s[j + n])
    decreases |s| - j
  {
    if j < |s| && !IsSpace(s[j]) then 1 + TokenFrom(s, j + 1) else 0
  }

  /** `scope:` in any letter case starts at `i`. */
  predicate ScopeLabelAt(s: string, i: nat)
  {
    i + 6 <= |s| && ToLower(s[i..i + 6]) == "scope:"
  }

  /**
   * `/scope:\s*([^\s]+)/i` matches at `i`: the label, then blanks, then at
   * least one non-blank. Backtracking into `\s*` cannot help, since the
   * character it would give back is a blank.
   */
  predicate ScopeMatchAt(s: string, i: nat)
  {
    ScopeLabelAt(s, i) && i + 6 + SpacesFrom(s, i + 6) < |s|
  }

  /** The text of the capture group of a match at `i`. */
  function CapturedAt(s: string, i: nat): (t: string)
    requires ScopeMatchAt(s, i)
    ensures t != [] && forall m :: 0 <= m < |t| ==> !IsSpace(t[m])
  {
    var j := i + 6 + SpacesFrom(s, i + 6);
    var t := s[j..j + TokenFrom(s, j)];
    assert forall m :: 0 <= m < |t| ==> t[m] == s[j + m];
    t
  }

  /** The leftmost match position at or after `from`, or |s| when there is none. */
  function FirstScopeMatch(s: string, from: nat): (k: nat)
    requires from <= |s|
    ensures from <= k <= |s|
    ensures k < |s| ==> ScopeMatchAt(s, k)
    ensures forall m :: from <= m < k ==> !ScopeMatchAt(s, m)
    decreases |s| - from
  {
    if from == |s| then |s|
    else if ScopeMatchAt(s, from) then from
    else FirstScopeMatch(s, from + 1)
  }

  /** `match(/scope:\s*([^\s]+)/i)?.[1] ?? null`. */
  function ActiveScope(text: string): Option<string>
  {
    var k := FirstScopeMatch(text, 0);
    if k < |text| then Some(CapturedAt(text, k)) else None
  }

  /** `parseWhoamiOutput`. */
  function ParseWhoamiOutput(stdout: string): (r: Option<Identity>)
    ensures r.None? <==> forall i :: 0 <= i < |WhoamiLines(stdout)| ==> IsBanner(WhoamiLines(stdout)[i])
    ensures r.Some? ==> TrimmedLine(r.value.username) && !IsBanner(r.value.username)
    ensures r.Some? ==> r.value.activeScope == ActiveScope(Join(WhoamiLines(stdout), "\n"))
  {
    var lines := WhoamiLines(stdout);
    var k := FirstNonBanner(lines);
    if k == |lines| then None
    else Some(Identity(lines[k], ActiveScope(Join(lines, "\n"))))
  }

  /** The user name is the first trimmed, non-blank line that is not a banner. */
  lemma UsernameIsFirstIdentityLine(stdout: string)
    requires ParseWhoamiOutput(stdout).Some?
    ensures exists k :: (0 <= k < |WhoamiLines(stdout)|
      && WhoamiLines(stdout)[k] == ParseWhoamiOutput(stdout).value.username
      && forall j :: 0 <= j < k ==> IsBanner(WhoamiLines(stdout)[j]))
  {
    var k := FirstNonBanner(WhoamiLines(stdout));
    assert WhoamiLines(stdout)[k] == ParseWhoamiOutput(stdout).value.username;
  }

  /**
   * The scope is the token after the leftmost `scope:` that is followed by
   * a non-blank, and is absent exactly when no `scope:` is.
   */
  lemma ActiveScopeIsLeftmostMatch(text: string)
    ensures ActiveScope(text).None? <==> forall m :: 0 <= m < |text| ==> !ScopeMatchAt(text, m)
    ensures ActiveScope(text).Some? ==> exists k :: (0 <= k < |text| && ScopeMatchAt(text, k)
      && ActiveScope(text).value == CapturedAt(text, k)
      && forall m :: 0 <= m < k ==> !ScopeMatchAt(text, m))
  {
    var k := FirstScopeMatch(text, 0);
    if k < |text| {
      assert ActiveScope(text).value == CapturedAt(text, k);
    }
  }

  /** A scope written right after the label, with nothing before it that matches, is read back whole. */
  lemma {:induction false} ScopeReadBack(before: string, t: string, after: string)
    requires forall m :: 0 <= m < |before| ==> !ScopeLabelAt(before + "scope: " + t + after, m)
    requires t != [] && forall m :: 0 <= m < |t| ==> !IsSpace(t[m])
    requires after == [] || IsSpace(after[0])
    ensures ActiveScope(before + "scope: " + t + after) == Some(t)
  {
    var s := before + "scope: " + t + after;
    var i := |before|;
    LabelPlaced(before, t, after);
    TokenOfWord(s, i + 7, t);
    FirstScopeAfterPlainPrefix(s, i);
    assert CapturedAt(s, i) == t;
  }

  /** The label written at |before| is found there, followed by one blank and then `t`. */
  lemma LabelPlaced(before: string, t: string, after: string)
    requires t != [] && !IsSpace(t[0])
    ensures var s := before + "scope: " + t + after; var i := |before|;
      && ScopeLabelAt(s, i) && SpacesFrom(s, i + 6) == 1
      && i + 7 + |t| <= |s| && s[i + 7..i + 7 + |t|] == t
  {
    var lab := "scope: ";
    var s := before + lab + t + after;
    var i := |before|;
    PieceAt(before + lab, t, after);
    assert s[i + 7] == t[0];
    assert s == before + lab + (t + after);
    LabelAtEndOf(before, t + after);
    OneSpace(s, i + 6);
  }

  /** `scope: ` written at |before| is a label there, with its blank right after. */
  lemma LabelAtEndOf(before: string, rest: string)
    ensures var s := before + "scope: " + rest; ScopeLabelAt(s, |before|) && s[|before| + 6] == ' '
  {
    var s := before + "scope: " + rest;
    var i := |before|;
    PieceAt(before, "scope: ", rest);
    assert s[i..i + 6] == s[i..i + 7][..6] == "scope:";
    LowerOfNoUpper("scope:");
  }

  /** One blank followed by a non-blank is a `\s*` of length one. */
  lemma OneSpace(s: string, j: nat)
    requires j + 1 < |s| && IsSpace(s[j]) && !IsSpace(s[j + 1])
    ensures SpacesFrom(s, j) == 1
  {
    assert SpacesFrom(s, j + 1) == 0;
  }

  /** Where a word of non-blanks ends in a blank or the end, the token read is that word. */
  lemma {:induction false} TokenOfWord(s: string, j: nat, t: string)
    requires j + |t| <= |s| && s[j..j + |t|] == t
    requires forall m :: 0 <= m < |t| ==> !IsSpace(t[m])
    requires j + |t| == |s| || IsSpace(s[j + |t|])
    ensures TokenFrom(s, j) == |t|
    decreases |t|
  {
    if t != [] {
      assert s[j + 1..j + 1 + |t[1..]|] == t[1..];
      TokenOfWord(s, j + 1, t[1..]);
    }
  }

  /** With no label before `i` and a match at `i`, the leftmost match is `i`. */
  lemma FirstScopeAfterPlainPrefix(s: string, i: nat)
    requires i < |s| && ScopeMatchAt(s, i)
    requires forall m :: 0 <= m < i ==> !ScopeLabelAt(s, m)
    ensures FirstScopeMatch(s, 0) == i
  {
    var k := FirstScopeMatch(s, 0);
    assert k <= i;
  }

  /** Output that is one name line, as `vercel whoami` prints for a personal account, parses to that name and no scope. */
  lemma SingleNameLine(name: string)
    requires TrimmedLine(name) && !IsBanner(name) && '\n' !in name
    requires forall m :: 0 <= m < |name| ==> !ScopeLabelAt(name, m)
    ensures ParseWhoamiOutput(name + "\n") == Some(Identity(name, None))
  {
    var s := name + "\n";
    assert FindChar(s, '\n') == |name| by {
      forall j | 0 <= j < |name| ensures s[j] != '\n' {
        assert s[j] == name[j] && name[j] in name;
      }
    }
    assert s[..|name|] == name;
    assert s[|name| + 1..] == "";
    assert SplitLines(s) == [name, ""];
    TrimOfNoSpace(name);
    assert Trim("") == "";
    assert [name, ""][1..] == [""] && [""][1..] == [];
    assert NonBlankTrimmed([""]) == [];
    assert WhoamiLines(s) == [name];
    assert FirstScopeMatch(name, 0) == |name|;
  }

  // ---------------------------------------------------------------------
  // getVercelCliAuthStatus
  // ---------------------------------------------------------------------

  /** `vercel whoami --no-color` with a ten second timeout. */
  const WhoamiCommand: Command := Command("vercel", ["whoami", "--no-color"], None, 10000, None)

  const ActiveMessage := "CLI session is active."
  const UndeterminedMessage := "Unable to determine CLI login status. Run `vercel whoami` locally."
  const NotLoggedInMessage := "Not logged in. Run `vercel login` and refresh."
  const NotInstalledMessage := "Vercel CLI is not installed. Install it, then run `vercel login`."
  const UnreadableMessage := "Unable to read CLI auth status right now. Retry after running `vercel whoami`."

  /** `getVercelCliAuthStatus` once the runner has answered `WhoamiCommand` with `outcome`. */
  function AuthStatusOf(outcome: Outcome): (s: AuthStatus)
    ensures s.authenticated <==> outcome.Succeeded? && ParseWhoamiOutput(outcome.stdout).Some?
    ensures s.identity.Some? <==> s.authenticated
    ensures s.authenticated ==> s.identity == ParseWhoamiOutput(outcome.stdout) && s.message == ActiveMessage
    ensures outcome.Succeeded? && !s.authenticated ==> s.message == UndeterminedMessage
    ensures outcome.CliFailed? && outcome.code == CliNonZeroExit ==> s.message == NotLoggedInMessage
    ensures outcome.CliFailed? && outcome.code == CliNotFound ==> s.message == NotInstalledMessage
    ensures outcome.OtherError? || (outcome.CliFailed? && outcome.code in {CliTimeout, CliIoError}) ==>
      s.message == UnreadableMessage
  {
    match outcome
    case Succeeded(stdout, _) =>
      (match ParseWhoamiOutput(stdout)
       case None => AuthStatus(false, None, UndeterminedMessage)
       case Some(identity) => AuthStatus(true, Some(identity), ActiveMessage))
    case CliFailed(code, _) =>
      if code == CliNonZeroExit then AuthStatus(false, None, NotLoggedInMessage)
      else if code == CliNotFound then AuthStatus(false, None, NotInstalledMessage)
      else AuthStatus(false, None, UnreadableMessage)
    case OtherError => AuthStatus(false, None, UnreadableMessage)
  }
}
