/**
 * Redaction of secrets in text that comes back from the CLI
 * (src/lib/vercel-cli/redact.ts): `NAME=value` lines whose name looks
 * secret, the argument after `--token`, and the word after `Bearer`.
 */
module Redact {
  import opened Wrappers
  import opened Strings

  const Redacted := "[REDACTED]"

  /**
   * The alternatives of the secret-name pattern, lower-cased: the pattern
   * carries the `i` flag and a name only holds ASCII letters, digits and `_`.
   */
  const SecretWords: seq<string> := ["token", "secret", "password", "private", "api_key", "access_key", "auth", "key"]

  /** The secret-name pattern finds one of its words somewhere in the name. */
  predicate SecretName(name: string)
  {
    exists w :: 0 <= w < |SecretWords| && Contains(ToLower(name), SecretWords[w])
  }

  /** `[A-Za-z_]`: the first character of a name. */
  predicate IsNameStart(c: char)
  {
    IsUpper(c) || IsLower(c) || c == '_'
  }

  /** The length of the run of `\w` characters of `s` from `i`. */
  function WordRun(s: string, i: nat): (n: nat)
    requires i <= |s|
    ensures i + n <= |s|
    ensures forall j :: i <= j < i + n ==> IsWordChar(s[j])
    ensures i + n == |s| || !IsWordChar(s[i + n])
    decreases |s| - i
  {
    if i < |s| && IsWordChar(s[i]) then 1 + WordRun(s, i + 1) else 0
  }

  /** The name a line assigns to, when the line starts with `[A-Za-z_][A-Za-z0-9_]*=`. */
  function AssignedName(line: string): Option<string>
  {
    if |line| > 0 && IsNameStart(line[0]) then
      var n := WordRun(line, 0);
      if n < |line| && line[n] == '=' then Some(line[..n]) else None
    else None
  }

  /** A name followed by `=` at the start of the line, as the assignment pattern's first two groups match it. */
  predicate NameThenEquals(line: string, n: nat)
  {
    0 < n < |line| && line[n] == '=' && IsNameStart(line[0]) && forall j :: 0 <= j < n ==> IsWordChar(line[j])
  }

  /** The assignment pattern matches at the start of a line exactly when the line has a name then `=`, and the name is unique. */
  lemma AssignedNameExact(line: string)
    ensures AssignedName(line).Some? ==>
      (NameThenEquals(line, |AssignedName(line).value|) && line[..|AssignedName(line).value|] == AssignedName(line).value)
    ensures forall n: nat :: NameThenEquals(line, n) ==> AssignedName(line) == Some(line[..n])
  {
    forall n: nat | NameThenEquals(line, n)
      ensures AssignedName(line) == Some(line[..n])
    {
      var w := WordRun(line, 0);
      assert !IsWordChar('=');
      assert w == n;
    }
  }

  /** The replacement callback of `redactEnvAssignments` applied to one line. */
  function RedactLine(line: string): (r: string)
    ensures '\n' in r ==> '\n' in line
  {
    match AssignedName(line)
    case Some(name) => if SecretName(name) then name + "=" + Redacted else line
    case None => line
  }

  function RedactLines(lines: seq<string>): (r: seq<string>)
    ensures |r| == |lines|
    ensures forall i :: 0 <= i < |lines| ==> r[i] == RedactLine(lines[i])
  {
    seq(|lines|, i requires 0 <= i < |lines| => RedactLine(lines[i]))
  }

  /**
   * `redactEnvAssignments`. The pattern has no `m` flag, so `^` is only the
   * start of the input and every other match starts at a newline; the value
   * `[^\n]*` stops before the next newline. Every line is therefore tried
   * once, at its start, and rewritten on its own.
   */
  function RedactEnvAssignments(input: string): string
  {
    Join(RedactLines(SplitChar(input, '\n')), "\n")
  }

  // ---------------------------------------------------------------------
  // `--token <value>` and `Bearer <value>`
  // ---------------------------------------------------------------------

  /** The two argument patterns: `--token` (case-sensitive) and `Bearer` (with the `i` flag). */
  datatype Marker = TokenFlag | BearerWord

  /** The marker word, lower-cased for `Bearer`. */
  function MarkerWord(m: Marker): string
  {
    match m
    case TokenFlag => "--token"
    case BearerWord => "bearer"
  }

  function MarkerLength(m: Marker): nat
  {
    |MarkerWord(m)|
  }

  /** A character as the marker compares it: as is for `--token`, lower-cased for `Bearer`. */
  function Folded(m: Marker, c: char): char
  {
    match m
    case TokenFlag => c
    case BearerWord => ToLowerChar(c)
  }

  /** The marker word starts `s`. */
  predicate MarkerAt(m: Marker, s: string)
  {
    MarkerLength(m) <= |s| && forall j :: 0 <= j < MarkerLength(m) ==> Folded(m, s[j]) == MarkerWord(m)[j]
  }

  /** The marker test is the regular expression's: `--token` exactly, `Bearer` in any case. */
  lemma MarkerMeaning(s: string)
    ensures MarkerAt(TokenFlag, s) <==> StartsWith(s, "--token")
    ensures MarkerAt(BearerWord, s) <==> StartsWithNoCase(s, "bearer")
  {
    if StartsWith(s, "--token") {
      forall j | 0 <= j < 7
        ensures s[j] == "--token"[j]
      {
        assert s[j] == s[..7][j];
      }
    }
    if MarkerAt(TokenFlag, s) {
      assert s[..7] == "--token";
    }
    if StartsWithNoCase(s, "bearer") {
      forall j | 0 <= j < 6
        ensures ToLowerChar(s[j]) == "bearer"[j]
      {
        assert ToLowerChar(s[j]) == ToLower(s[..6])[j];
      }
    }
    if MarkerAt(BearerWord, s) {
      assert ToLower(s[..6]) == "bearer";
    }
  }

  /** The length of the run of `\s` characters of `s` from `i`. */
  function SpaceRun(s: string, i: nat): (n: nat)
    requires i <= |s|
    ensures i + n <= |s|
    ensures forall j :: i <= j < i + n ==> IsSpace(s[j])
    ensures i + n == |s| || !IsSpace(s[i + n])
    decreases |s| - i
  {
    if i < |s| && IsSpace(s[i]) then 1 + SpaceRun(s, i + 1) else 0
  }

  /** The length of the run of `[^\s]` characters of `s` from `i`. */
  function NonSpaceRun(s: string, i: nat): (n: nat)
    requires i <= |s|
    ensures i + n <= |s|
    ensures forall j :: i <= j < i + n ==> !IsSpace(s[j])
    ensures i + n == |s| || IsSpace(s[i + n])
    decreases |s| - i
  {
    if i < |s| && !IsSpace(s[i]) then 1 + NonSpaceRun(s, i + 1) else 0
  }

  /**
   * The length of `$1`, the marker and the spaces after it. The greedy `\s+`
   * takes every space, and `[^\s]+` then needs at least one more character.
   */
  function KeptLength(m: Marker, s: string): (n: nat)
    requires MarkerAt(m, s)
    ensures n <= |s|
  {
    MarkerLength(m) + SpaceRun(s, MarkerLength(m))
  }

  /** The pattern matches at the start of `s`. */
  predicate PatternAt(m: Marker, s: string)
  {
    MarkerAt(m, s) && SpaceRun(s, MarkerLength(m)) > 0 && NonSpaceRun(s, KeptLength(m, s)) > 0
  }

  /** Where a match at the start of `s` ends: after the value. */
  function MatchEnd(m: Marker, s: string): (n: nat)
    requires PatternAt(m, s)
    ensures KeptLength(m, s) < n <= |s|
  {
    KeptLength(m, s) + NonSpaceRun(s, KeptLength(m, s))
  }

  /** `s.replace(pattern, "$1[REDACTED]")` for a global pattern: scan, replace each match, resume after it. */
  function RedactArgs(m: Marker, s: string): (r: string)
    decreases |s|
  {
    if s == [] then []
    else if PatternAt(m, s) then s[..KeptLength(m, s)] + Redacted + RedactArgs(m, s[MatchEnd(m, s)..])
    else [s[0]] + RedactArgs(m, s[1..])
  }

  /** `redactSensitiveText`. */
  function RedactSensitiveText(input: string): string
  {
    RedactArgs(BearerWord, RedactArgs(TokenFlag, RedactEnvAssignments(input)))
  }

  // ---------------------------------------------------------------------
  // Properties
  // ---------------------------------------------------------------------

  /** A line that assigns to a secret-looking name keeps only the name; every other line is kept whole. */
  lemma SecretLineRedacted(line: string, n: nat)
    requires NameThenEquals(line, n)
    ensures SecretName(line[..n]) ==> RedactLine(line) == line[..n] + "=" + Redacted
    ensures !SecretName(line[..n]) ==> RedactLine(line) == line
  {
    AssignedNameExact(line);
  }

  /** A line that does not start with a name and `=` is never touched: a mid-line assignment is not redacted by this rule. */
  lemma OtherLinesKept(line: string)
    requires forall n: nat :: !NameThenEquals(line, n)
    ensures RedactLine(line) == line
  {
    AssignedNameExact(line);
  }

  /** `API_KEY` and `ACCESS_KEY` add nothing to the pattern: a name is secret exactly when it contains one of six words. */
  lemma SecretWordsReduce(name: string)
    ensures SecretName(name) <==>
      Contains(ToLower(name), "token") || Contains(ToLower(name), "secret") || Contains(ToLower(name), "password")
      || Contains(ToLower(name), "private") || Contains(ToLower(name), "auth") || Contains(ToLower(name), "key")
  {
    var low := ToLower(name);
    if Contains(low, "api_key") {
      var i :| 0 <= i <= |low| && MatchAt(low, "api_key", i);
      assert MatchAt(low, "key", i + 4);
    }
    if Contains(low, "access_key") {
      var i :| 0 <= i <= |low| && MatchAt(low, "access_key", i);
      assert MatchAt(low, "key", i + 7);
    }
    if Contains(low, "key") {
      assert Contains(low, SecretWords[7]);
    }
    if Contains(low, "token") {
      assert Contains(low, SecretWords[0]);
    }
    if Contains(low, "secret") {
      assert Contains(low, SecretWords[1]);
    }
    if Contains(low, "password") {
      assert Contains(low, SecretWords[2]);
    }
    if Contains(low, "private") {
      assert Contains(low, SecretWords[3]);
    }
    if Contains(low, "auth") {
      assert Contains(low, SecretWords[6]);
    }
  }

  /** Splitting a join of newline-free lines at newlines gives the lines back. */
  lemma {:induction false} SplitJoin(lines: seq<string>)
    requires |lines| >= 1 && forall i :: 0 <= i < |lines| ==> '\n' !in lines[i]
    ensures SplitChar(Join(lines, "\n"), '\n') == lines
    decreases |lines|
  {
    if |lines| > 1 {
      var s := Join(lines, "\n");
      var first := lines[0];
      assert s == first + "\n" + Join(lines[1..], "\n");
      assert FindChar(s, '\n') == |first| by {
        assert s[|first|] == '\n';
        assert forall j :: 0 <= j < |first| ==> s[j] == first[j];
      }
      assert s[..|first|] == first;
      assert s[|first| + 1..] == Join(lines[1..], "\n");
      SplitJoin(lines[1..]);
    } else {
      assert Join(lines, "\n") == lines[0];
      assert FindChar(lines[0], '\n') == |lines[0]|;
    }
  }

  /**
   * The newlines and the line structure are kept: line i of the output is
   * line i of the input, rewritten on its own.
   */
  lemma EnvAssignmentsPerLine(input: string)
    ensures SplitChar(RedactEnvAssignments(input), '\n') == RedactLines(SplitChar(input, '\n'))
  {
    var lines := SplitChar(input, '\n');
    var out := RedactLines(lines);
    forall i | 0 <= i < |out|
      ensures '\n' !in out[i]
    {
      assert '\n' !in lines[i];
    }
    SplitJoin(out);
  }

  /** Text with no secret assignment at the start of any line comes out as it went in. */
  lemma EnvAssignmentsKeepOtherText(input: string)
    requires forall i :: 0 <= i < |SplitChar(input, '\n')| ==> RedactLine(SplitChar(input, '\n')[i]) == SplitChar(input, '\n')[i]
    ensures RedactEnvAssignments(input) == input
  {
    var lines := SplitChar(input, '\n');
    assert RedactLines(lines) == lines;
    JoinSplitChar(input, '\n');
  }

  /** A marker starts with a character that is not a space. */
  lemma MarkerStartsSolid(m: Marker, s: string)
    requires MarkerAt(m, s)
    ensures |s| > 0 && !IsSpace(s[0])
  {
    assert Folded(m, s[0]) == MarkerWord(m)[0];
  }

  /** A marker cannot start again inside itself. */
  lemma MarkerNoOverlap(m: Marker, s: string, q: nat)
    requires MarkerAt(m, s) && 0 < q < MarkerLength(m) && q <= |s|
    ensures !MarkerAt(m, s[q..])
  {
    assert Folded(m, s[q]) == MarkerWord(m)[q];
    assert s[q..][0] == s[q];
  }

  /** A run of spaces that ends at a non-space or at the end is the space run. */
  lemma {:induction false} SpaceRunIs(s: string, i: nat, n: nat)
    requires i + n <= |s|
    requires forall j :: i <= j < i + n ==> IsSpace(s[j])
    requires i + n == |s| || !IsSpace(s[i + n])
    ensures SpaceRun(s, i) == n
    decreases n
  {
    if n > 0 {
      SpaceRunIs(s, i + 1, n - 1);
    }
  }

  /** A run of non-spaces that ends at a space or at the end is the non-space run. */
  lemma {:induction false} NonSpaceRunIs(s: string, i: nat, n: nat)
    requires i + n <= |s|
    requires forall j :: i <= j < i + n ==> !IsSpace(s[j])
    requires i + n == |s| || IsSpace(s[i + n])
    ensures NonSpaceRun(s, i) == n
    decreases n
  {
    if n > 0 {
      NonSpaceRunIs(s, i + 1, n - 1);
    }
  }

  /** Where the pattern matches, the scan keeps the marker and its spaces, writes `[REDACTED]` and resumes after the value. */
  lemma ReplaceOne(m: Marker, s: string, p: nat, t: string, rt: string, r: string)
    requires PatternAt(m, s) && p == KeptLength(m, s) && t == s[MatchEnd(m, s)..]
    requires rt == RedactArgs(m, t) && r == RedactArgs(m, s)
    ensures r == s[..p] + Redacted + rt
  {
  }

  /** Where the pattern does not match, the scan copies one character and goes on. */
  lemma CopyOne(m: Marker, s: string)
    requires s != [] && !PatternAt(m, s)
    ensures RedactArgs(m, s) == [s[0]] + RedactArgs(m, s[1..])
  {
  }

  /** Text the pattern never matches in comes out as it went in. */
  lemma {:induction false} NoMatchKept(m: Marker, s: string)
    requires forall i :: 0 <= i < |s| ==> !PatternAt(m, s[i..])
    ensures RedactArgs(m, s) == s
    decreases |s|
  {
    if s != [] {
      assert s[0..] == s;
      forall i | 0 <= i < |s[1..]|
        ensures !PatternAt(m, s[1..][i..])
      {
        assert s[1..][i..] == s[i + 1..];
      }
      NoMatchKept(m, s[1..]);
      CopyOne(m, s);
    }
  }

  /** The position of the first match in `s`, or |s| when there is none. */
  function FirstMatch(m: Marker, s: string): (q: nat)
    ensures q <= |s|
    ensures q < |s| ==> PatternAt(m, s[q..])
    ensures forall i :: 0 <= i < q ==> !PatternAt(m, s[i..])
    decreases |s|
  {
    if s == [] then 0
    else if PatternAt(m, s) then (assert s[0..] == s; 0)
    else
      var q := 1 + FirstMatch(m, s[1..]);
      assert forall i :: 1 <= i <= |s| ==> s[1..][i - 1..] == s[i..];
      assert s[0..] == s;
      q
  }

  /**
   * `r` repeats `s` up to `n`, where `s` holds a non-space and `r` the `[`
   * that opens `[REDACTED]`.
   */
  predicate SameUpTo(s: string, r: string, n: nat)
  {
    n < |s| && n < |r| && r[..n] == s[..n] && !IsSpace(s[n]) && r[n] == '['
  }

  /** Where the pattern matches, the scan keeps the marker and its spaces, then writes `[REDACTED]`. */
  lemma MatchHead(m: Marker, s: string)
    requires PatternAt(m, s)
    ensures SameUpTo(s, RedactArgs(m, s), KeptLength(m, s))
  {
    var p := KeptLength(m, s);
    var r := RedactArgs(m, s);
    assert r == s[..p] + Redacted + RedactArgs(m, s[MatchEnd(m, s)..]);
    assert r[p] == Redacted[0];
  }

  lemma HeadTail(s: string)
    requires s != []
    ensures s == [s[0]] + s[1..]
  {
  }

  /** Putting one character in front of both strings moves SameUpTo one place on. */
  lemma ConsPrefix(c: char, rt: string, t: string, n: nat, rs: string, ts: string, e: nat)
    requires SameUpTo(t, rt, n)
    requires rs == [c] + rt && ts == [c] + t && e == n + 1
    ensures SameUpTo(ts, rs, e)
  {
    assert rs[..e] == [c] + rt[..n];
    assert ts[..e] == [c] + t[..n];
  }

  /** Where the kept part of a match at `q` ends. */
  function KeptEnd(m: Marker, s: string, q: nat): nat
    requires q <= |s| && MarkerAt(m, s[q..])
  {
    q + KeptLength(m, s[q..])
  }

  /**
   * Up to the end of the kept part of the first match, the output is the
   * input; right after it the input holds a non-space and the output `[`.
   */
  lemma {:induction false} PrefixUntilMatch(m: Marker, s: string, q: nat)
    requires q < |s| && PatternAt(m, s[q..])
    requires forall i :: 0 <= i < q ==> !PatternAt(m, s[i..])
    ensures SameUpTo(s, RedactArgs(m, s), KeptEnd(m, s, q))
    decreases q
  {
    if q == 0 {
      assert s[0..] == s;
      MatchHead(m, s);
    } else {
      ShiftSearch(m, s, q);
      PrefixUntilMatch(m, s[1..], q - 1);
      PrefixAfterCopy(m, s, q);
    }
  }

  /** The step of PrefixUntilMatch past a character the scan copies. */
  lemma PrefixAfterCopy(m: Marker, s: string, q: nat)
    requires 0 < q < |s| && PatternAt(m, s[q..])
    requires s != [] && !PatternAt(m, s)
    requires PatternAt(m, s[1..][q - 1..]) && KeptEnd(m, s[1..], q - 1) + 1 == KeptEnd(m, s, q)
    requires SameUpTo(s[1..], RedactArgs(m, s[1..]), KeptEnd(m, s[1..], q - 1))
    ensures SameUpTo(s, RedactArgs(m, s), KeptEnd(m, s, q))
  {
    var t := s[1..];
    CopyOne(m, s);
    HeadTail(s);
    ConsPrefix(s[0], RedactArgs(m, t), t, KeptEnd(m, t, q - 1), RedactArgs(m, s), s, KeptEnd(m, s, q));
  }

  /** The first match of `s` at `q > 0` is the first match of its tail, at `q - 1`. */
  lemma ShiftSearch(m: Marker, s: string, q: nat)
    requires 0 < q < |s| && PatternAt(m, s[q..])
    requires forall i :: 0 <= i < q ==> !PatternAt(m, s[i..])
    ensures s != [] && !PatternAt(m, s)
    ensures PatternAt(m, s[1..][q - 1..])
    ensures forall i :: 0 <= i < q - 1 ==> !PatternAt(m, s[1..][i..])
    ensures KeptEnd(m, s[1..], q - 1) + 1 == KeptEnd(m, s, q)
  {
    assert s[0..] == s;
    var t := s[1..];
    assert t[q - 1..] == s[q..];
    forall i | 0 <= i < q - 1
      ensures !PatternAt(m, t[i..])
    {
      assert t[i..] == s[i + 1..];
    }
  }

  /** If the marker starts `s`, the first later match cannot start before the marker ends. */
  lemma LaterMatchAfterMarker(m: Marker, s: string, q: nat)
    requires MarkerAt(m, s) && 0 < q < |s| && PatternAt(m, s[q..])
    ensures MarkerLength(m) <= q
  {
    if q < MarkerLength(m) {
      MarkerNoOverlap(m, s, q);
    }
  }

  /** Scanning never creates a match at a position where the input had none. */
  lemma NoNewMatch(m: Marker, s: string)
    requires s != [] && !PatternAt(m, s)
    ensures !PatternAt(m, RedactArgs(m, s))
  {
    var q := FirstMatch(m, s);
    if q == |s| {
      NoMatchKept(m, s);
    } else {
      assert s[0..] == s;
      PrefixUntilMatch(m, s, q);
      NoNewMatchAt(m, s, RedactArgs(m, s), q, KeptEnd(m, s, q));
    }
  }

  /**
   * A marker at the start of `s` that does not make a match there, while a
   * match follows later, is followed at once by a non-space.
   */
  lemma MarkerThenSolid(m: Marker, s: string, q: nat)
    requires MarkerAt(m, s) && !PatternAt(m, s)
    requires 0 < q < |s| && PatternAt(m, s[q..])
    ensures MarkerLength(m) < |s| && !IsSpace(s[MarkerLength(m)])
  {
    var k := MarkerLength(m);
    LaterMatchAfterMarker(m, s, q);
    MarkerStartsSolid(m, s[q..]);
    assert s[q] == s[q..][0];
  }

  /** Strings that agree on a prefix as long as the marker both start with it or neither does. */
  lemma MarkerAgree(m: Marker, r: string, s: string, n: nat)
    requires MarkerLength(m) <= n <= |r| && n <= |s| && r[..n] == s[..n]
    ensures MarkerAt(m, r) <==> MarkerAt(m, s)
    ensures forall j :: 0 <= j < n ==> r[j] == s[j]
  {
    assert forall j :: 0 <= j < n ==> r[j] == r[..n][j] && s[j] == s[..n][j];
  }

  /** The core of NoNewMatch, on the facts PrefixUntilMatch gives about the first match at `q`. */
  lemma NoNewMatchAt(m: Marker, s: string, r: string, q: nat, n: nat)
    requires 0 < q < |s| && !PatternAt(m, s) && PatternAt(m, s[q..])
    requires n == KeptEnd(m, s, q) && n < |s| && n < |r| && r[..n] == s[..n]
    ensures !PatternAt(m, r)
  {
    var k := MarkerLength(m);
    MarkerAgree(m, r, s, n);
    if MarkerAt(m, r) {
      MarkerThenSolid(m, s, q);
      SpaceRunIs(r, k, 0);
    }
  }

  /** What follows a non-space run is a space or nothing. */
  lemma ValueEndsAtSpace(m: Marker, s: string, p: nat, t: string)
    requires PatternAt(m, s) && p == KeptLength(m, s) && t == s[MatchEnd(m, s)..]
    ensures t == [] || IsSpace(t[0])
  {
  }

  /** What follows a redacted value is a space or nothing, and scanning keeps it so. */
  lemma AfterValue(m: Marker, t: string)
    requires t == [] || IsSpace(t[0])
    ensures RedactArgs(m, t) == [] || IsSpace(RedactArgs(m, t)[0])
  {
    if t != [] && MarkerAt(m, t) {
      MarkerStartsSolid(m, t);
    }
  }

  /** A string that repeats the kept part of a match and then holds a non-space has the same marker and kept part. */
  lemma KeptAgain(m: Marker, s: string, r: string, p: nat)
    requires PatternAt(m, s) && p == KeptLength(m, s)
    requires p < |r| && r[..p] == s[..p] && !IsSpace(r[p])
    ensures MarkerAt(m, r) && KeptLength(m, r) == p
  {
    var k := MarkerLength(m);
    MarkerAgree(m, r, s, p);
    SpaceRunIs(r, k, p - k);
  }

  /** `[REDACTED]` followed by a space or by nothing is a whole non-space run. */
  lemma ValueAgain(r: string, p: nat, rt: string)
    requires p + |Redacted| <= |r| && r[p..p + |Redacted|] == Redacted && r[p + |Redacted|..] == rt
    requires rt == [] || IsSpace(rt[0])
    ensures NonSpaceRun(r, p) == |Redacted|
  {
    assert forall j :: p <= j < p + |Redacted| ==> r[j] == r[p..p + |Redacted|][j - p];
    assert p + |Redacted| == |r| || r[p + |Redacted|] == rt[0];
    NonSpaceRunIs(r, p, |Redacted|);
  }

  /** The output of a match, scanned again, matches at the same place with the same kept part and `[REDACTED]` as its value. */
  lemma RedactedMatchesAgain(m: Marker, s: string, p: nat, rt: string, r: string)
    requires PatternAt(m, s) && p == KeptLength(m, s)
    requires rt == [] || IsSpace(rt[0])
    requires r == s[..p] + Redacted + rt
    ensures PatternAt(m, r)
    ensures KeptLength(m, r) == p
    ensures NonSpaceRun(r, p) == |Redacted|
    ensures r[..p] == s[..p] && r[p + |Redacted|..] == rt
  {
    assert r[..p] == s[..p];
    assert r[p..p + |Redacted|] == Redacted;
    assert r[p + |Redacted|..] == rt;
    assert r[p] == Redacted[0];
    KeptAgain(m, s, r, p);
    ValueAgain(r, p, rt);
  }

  /** One step of idempotence where the pattern matches at the start. */
  lemma IdempotentAtMatch(m: Marker, s: string, p: nat, t: string, rt: string, r: string)
    requires PatternAt(m, s) && p == KeptLength(m, s) && t == s[MatchEnd(m, s)..]
    requires rt == RedactArgs(m, t) && RedactArgs(m, rt) == rt
    requires r == RedactArgs(m, s)
    ensures RedactArgs(m, r) == r
  {
    ReplaceOne(m, s, p, t, rt, r);
    ValueEndsAtSpace(m, s, p, t);
    AfterValue(m, t);
    RescanRedacted(m, s, p, rt, r);
  }

  lemma RescanRedacted(m: Marker, s: string, p: nat, rt: string, r: string)
    requires PatternAt(m, s) && p == KeptLength(m, s)
    requires rt == [] || IsSpace(rt[0])
    requires r == s[..p] + Redacted + rt && RedactArgs(m, rt) == rt
    ensures RedactArgs(m, r) == r
  {
    RedactedMatchesAgain(m, s, p, rt, r);
    RescanMatch(m, r, p, rt, s[..p]);
  }

  /** Scanning a string that matches at its start, with the scan of its tail known. */
  lemma RescanMatch(m: Marker, r: string, p: nat, rt: string, kept: string)
    requires PatternAt(m, r) && p == KeptLength(m, r) && NonSpaceRun(r, p) == |Redacted|
    requires r[..p] == kept && r[p + |Redacted|..] == rt && RedactArgs(m, rt) == rt
    requires r == kept + Redacted + rt
    ensures RedactArgs(m, r) == r
  {
  }

  /** One step of idempotence where the pattern does not match at the start. */
  lemma IdempotentAtCopy(m: Marker, s: string)
    requires s != [] && !PatternAt(m, s)
    requires RedactArgs(m, RedactArgs(m, s[1..])) == RedactArgs(m, s[1..])
    ensures RedactArgs(m, RedactArgs(m, s)) == RedactArgs(m, s)
  {
    var r := RedactArgs(m, s);
    CopyOne(m, s);
    NoNewMatch(m, s);
    assert r[1..] == RedactArgs(m, s[1..]);
    CopyOne(m, r);
  }

  /** Redacting twice is redacting once: a redacted value is matched again and replaced by the same text. */
  lemma {:induction false} RedactArgsIdempotent(m: Marker, s: string)
    ensures RedactArgs(m, RedactArgs(m, s)) == RedactArgs(m, s)
    decreases |s|
  {
    if s != [] {
      if PatternAt(m, s) {
        var p := KeptLength(m, s);
        var t := s[MatchEnd(m, s)..];
        RedactArgsIdempotent(m, t);
        IdempotentAtMatch(m, s, p, t, RedactArgs(m, t), RedactArgs(m, s));
      } else {
        RedactArgsIdempotent(m, s[1..]);
        IdempotentAtCopy(m, s);
      }
    }
  }
}
