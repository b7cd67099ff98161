/**
 * Reading `vercel teams list` (src/lib/vercel-cli/teams.ts): which team
 * each line names, whether it is the current one, and the slug a team gets
 * from its name when the table prints none.
 */
module Teams {
  import opened Wrappers
  import opened Strings
  import opened CliText

  // ---------------------------------------------------------------------
  // toSlug
  // ---------------------------------------------------------------------

  /** `[a-z0-9]`, what a slug keeps as it is. */
  predicate IsSlugChar(c: char) { IsLower(c) || IsDigit(c) }

  /** Two dashes in a row at position `i`. */
  predicate DoubleDashAt(s: string, i: int)
  {
    0 <= i < |s| - 1 && s[i] == '-' && s[i + 1] == '-'
  }

  /** Lower-case letters, digits and single dashes. */
  predicate SlugBody(s: string)
  {
    && (forall i :: 0 <= i < |s| ==> IsSlugChar(s[i]) || s[i] == '-')
    && (forall i :: 0 <= i < |s| ==> !DoubleDashAt(s, i))
  }

  /** Lower-case letters, digits and single dashes, with no dash at either end. */
  predicate IsSlug(s: string)
  {
    SlugBody(s) && (s == [] || (s[0] != '-' && s[|s| - 1] != '-'))
  }

  lemma SlugBodySlice(s: string, a: nat, b: nat)
    requires SlugBody(s) && a <= b <= |s|
    ensures SlugBody(s[a..b])
  {
    var t := s[a..b];
    assert forall i :: 0 <= i < |t| ==> t[i] == s[a + i];
    forall i | 0 <= i < |t| ensures !DoubleDashAt(t, i) {
      if DoubleDashAt(t, i) {
        assert DoubleDashAt(s, a + i);
      }
    }
  }

  /** `replace(/[^a-z0-9]+/g, "-")`, where `inRun` says the character before `s` was already replaced. */
  function DashRuns(s: string, inRun: bool): string
  {
    if s == [] then []
    else if IsSlugChar(s[0]) then [s[0]] + DashRuns(s[1..], false)
    else if inRun then DashRuns(s[1..], true)
    else "-" + DashRuns(s[1..], true)
  }

  /** Collapsed runs hold no two dashes in a row, and none at the start after a replaced character. */
  lemma {:induction false} DashRunsSlugBody(s: string, inRun: bool)
    ensures SlugBody(DashRuns(s, inRun))
    ensures inRun ==> DashRuns(s, inRun) == [] || DashRuns(s, inRun)[0] != '-'
    decreases |s|
  {
    if s != [] {
      var r := DashRuns(s, inRun);
      if IsSlugChar(s[0]) {
        var rest := DashRuns(s[1..], false);
        DashRunsSlugBody(s[1..], false);
        forall i | 0 <= i < |r| ensures !DoubleDashAt(r, i) {
          if i > 0 {
            assert !DoubleDashAt(rest, i - 1);
          }
        }
      } else if !inRun {
        var rest := DashRuns(s[1..], true);
        DashRunsSlugBody(s[1..], true);
        forall i | 0 <= i < |r| ensures !DoubleDashAt(r, i) {
          if i > 0 {
            assert !DoubleDashAt(rest, i - 1);
          }
        }
      } else {
        DashRunsSlugBody(s[1..], true);
      }
    }
  }

  /** `replace(/^-+/, "")`. */
  function TrimDashStart(s: string): (r: string)
    ensures |r| <= |s| && r == s[|s| - |r|..]
    ensures r == [] || r[0] != '-'
  {
    if s != [] && s[0] == '-' then TrimDashStart(s[1..]) else s
  }

  /** `replace(/-+$/, "")`. */
  function TrimDashEnd(s: string): (r: string)
    ensures |r| <= |s| && r == s[..|r|]
    ensures r == [] || r[|r| - 1] != '-'
  {
    if s != [] && s[|s| - 1] == '-' then TrimDashEnd(s[..|s| - 1]) else s
  }

  /** `toSlug`. */
  function ToSlug(value: string): string
  {
    TrimDashEnd(TrimDashStart(DashRuns(Trim(ToLower(value)), false)))
  }

  /** A slug holds only lower-case letters, digits and single dashes, and does not start or end with a dash. */
  lemma ToSlugIsSlug(value: string)
    ensures IsSlug(ToSlug(value))
  {
    DashRunsSlugBody(Trim(ToLower(value)), false);
    TrimDashesSlug(DashRuns(Trim(ToLower(value)), false));
  }

  /** Trimming the dashes off both ends of collapsed runs leaves a slug. */
  lemma TrimDashesSlug(runs: string)
    requires SlugBody(runs)
    ensures IsSlug(TrimDashEnd(TrimDashStart(runs)))
  {
    var start := TrimDashStart(runs);
    SlugBodySlice(runs, |runs| - |start|, |runs|);
    assert start == runs[|runs| - |start|..|runs|];
    var r := TrimDashEnd(start);
    SlugBodySlice(start, 0, |r|);
    if r != [] {
      assert r[0] == start[0];
    }
  }

  lemma {:induction false} DashRunsKeepsSlug(s: string, inRun: bool)
    requires SlugBody(s)
    requires inRun ==> s == [] || s[0] != '-'
    ensures DashRuns(s, inRun) == s
  {
    if s != [] {
      SlugBodySlice(s, 1, |s|);
      assert s[1..|s|] == s[1..];
      assert !DoubleDashAt(s, 0);
      DashRunsKeepsSlug(s[1..], s[0] == '-');
    }
  }

  /** A slug is its own slug, so `toSlug` is idempotent. */
  lemma SlugFixed(s: string)
    requires IsSlug(s)
    ensures ToSlug(s) == s
  {
    SlugLowerFixed(s);
    TrimOfNoSpace(s);
    DashRunsKeepsSlug(s, false);
    SlugDashEndsFixed(s);
  }

  lemma SlugLowerFixed(s: string)
    requires SlugBody(s)
    ensures ToLower(s) == s
  {
    forall i | 0 <= i < |s| ensures ToLower(s)[i] == s[i] {
      assert IsSlugChar(s[i]) || s[i] == '-';
    }
  }

  lemma SlugDashEndsFixed(s: string)
    requires IsSlug(s)
    ensures TrimDashStart(s) == s && TrimDashEnd(s) == s
  {
  }

  lemma ToSlugIdempotent(value: string)
    ensures ToSlug(ToSlug(value)) == ToSlug(value)
  {
    ToSlugIsSlug(value);
    SlugFixed(ToSlug(value));
  }

  // ---------------------------------------------------------------------
  // One line of the table
  // ---------------------------------------------------------------------

  datatype TeamScope = TeamScope(id: string, slug: string, name: string, isCurrent: bool)

  /** The banner, progress and heading lines skipped. */
  predicate IsTeamsHeader(line: string)
  {
    || StartsWithNoCase(line, "vercel cli")
    || StartsWithNoCase(line, "fetching")
    || (StartsWithNoCase(line, "id") && |line| >= 3 && IsSpace(line[2]))
  }

  const CurrentTag: string := "(current)"

  /** `(current)`, in any case, starts `s`. */
  predicate StartsCurrentTag(s: string)
  {
    |s| >= |CurrentTag| && ToLower(s[..|CurrentTag|]) == CurrentTag
  }

  /** `/\(current\)/i.test(s)`. */
  predicate HasCurrentTag(s: string)
    decreases |s|
  {
    s != [] && (StartsCurrentTag(s) || HasCurrentTag(s[1..]))
  }

  /** `replace(/\(current\)/gi, "")`. */
  function RemoveCurrentTags(s: string): (r: string)
    ensures |r| <= |s|
    decreases |s|
  {
    if s == [] then []
    else if StartsCurrentTag(s) then RemoveCurrentTags(s[|CurrentTag|..])
    else [s[0]] + RemoveCurrentTags(s[1..])
  }

  // `/^>\s*/.test(line) || /\(current\)/i.test(line)`.
  predicate IsCurrentLine(line: string)
  {
    (line != [] && line[0] == '>') || HasCurrentTag(line)
  }

  // `replace(/^>\s*/, "")`.
  function StripMarker(line: string): string
  {
    if line != [] && line[0] == '>' then TrimStart(line[1..]) else line
  }

  function Normalized(line: string): string
  {
    Trim(RemoveCurrentTags(StripMarker(line)))
  }

  /** The length of the run of ASCII letters and digits starting `s`. */
  function AlnumRun(s: string): (k: nat)
    ensures k <= |s|
    ensures forall j :: 0 <= j < k ==> IsAlnum(s[j])
    ensures k == |s| || !IsAlnum(s[k])
  {
    if s != [] && IsAlnum(s[0]) then 1 + AlnumRun(s[1..]) else 0
  }

  /** `team_` followed by ASCII letters and digits. */
  predicate IsTeamToken(t: string)
  {
    |t| > 5 && t[..5] == "team_" && forall j :: 5 <= j < |t| ==> IsAlnum(t[j])
  }

  /** The length of the match of `\bteam_[a-zA-Z0-9]+\b` at position `i` of `s`, or 0. */
  function TeamTokenAt(s: string, i: nat): (n: nat)
    requires i <= |s|
    ensures n > 0 ==> i + n <= |s| && IsTeamToken(s[i..i + n])
  {
    if (i == 0 || !IsWordChar(s[i - 1])) && StartsWith(s[i..], "team_") then
      var k := AlnumRun(s[i + 5..]);
      if k >= 1 && (i + 5 + k == |s| || !IsWordChar(s[i + 5 + k])) then
        var t := s[i..i + 5 + k];
        assert t[..5] == s[i..][..5];
        assert forall j :: 5 <= j < |t| ==> t[j] == s[i + 5..][j - 5];
        5 + k
      else 0
    else 0
  }

  /** `s.match(/\bteam_[a-zA-Z0-9]+\b/)`, searching from position `i`. */
  function FirstTeamToken(s: string, i: nat): (r: Option<string>)
    requires i <= |s|
    ensures r.Some? ==> IsTeamToken(r.value)
    decreases |s| - i
  {
    if i == |s| then None
    else if TeamTokenAt(s, i) > 0 then Some(s[i..i + TeamTokenAt(s, i)])
    else FirstTeamToken(s, i + 1)
  }

  /** `.map((column) => column.trim())`. */
  function TrimEach(parts: seq<string>): (r: seq<string>)
    ensures |r| == |parts|
    ensures forall i :: 0 <= i < |parts| ==> r[i] == Trim(parts[i])
  {
    seq(|parts|, i requires 0 <= i < |parts| => Trim(parts[i]))
  }

  /** `normalized.split(/\s{2,}/).map(trim).filter(Boolean)`. */
  function TeamColumns(normalized: string): seq<string>
  {
    NonEmpty(TrimEach(SplitWide(normalized, [])))
  }

  /** `columns.findIndex((column) => column.includes(id))`: -1 when no column contains the id. */
  function IndexOfColumnWith(columns: seq<string>, id: string): (k: int)
    ensures -1 <= k < |columns|
    ensures k >= 0 ==> Includes(columns[k], id)
    ensures forall j :: 0 <= j < |columns| && (k == -1 || j < k) ==> !Includes(columns[j], id)
  {
    if columns == [] then -1
    else if Includes(columns[0], id) then 0
    else
      var k := IndexOfColumnWith(columns[1..], id);
      if k == -1 then -1 else k + 1
  }

  /** `columns[i]`, undefined outside the list. */
  function ColumnAt(columns: seq<string>, i: int): Option<string>
  {
    if 0 <= i < |columns| then Some(columns[i]) else None
  }

  function OrElse(o: Option<string>, fallback: string): string
  {
    if o.Some? then o.value else fallback
  }

  /** The name and slug chosen for a team id (before an empty slug is replaced). */
  function NameAndSlug(columns: seq<string>, id: string): (string, string)
  {
    if ColumnAt(columns, 0) == Some(id) then
      var name := OrElse(ColumnAt(columns, 1), id);
      (name, OrElse(ColumnAt(columns, 2), ToSlug(name)))
    else
      var idIndex := IndexOfColumnWith(columns, id);
      var name := OrElse(ColumnAt(columns, idIndex + 1), OrElse(ColumnAt(columns, 0), id));
      (name, OrElse(ColumnAt(columns, idIndex + 2), ToSlug(name)))
  }

  /** The team one prepared line contributes, if any. */
  function TeamOf(line: string): (r: Option<TeamScope>)
    ensures r.Some? ==> IsTeamToken(r.value.id)
  {
    if IsTeamsHeader(line) then None
    else
      var normalized := Normalized(line);
      match FirstTeamToken(normalized, 0)
      case None => None
      case Some(id) =>
        var (name, slug) := NameAndSlug(TeamColumns(normalized), id);
        Some(TeamScope(id, if slug == [] then ToSlug(name) else slug, name, IsCurrentLine(line)))
  }

  /**
   * No team comes from a banner or heading line or from a line without a
   * `team_` token; a team's id is the first such token once the marker and
   * the `(current)` tags are removed, and it is current exactly when the
   * line starts with `>` or carries the tag. An empty slug is replaced by
   * the name's slug.
   */
  lemma TeamOfFacts(line: string)
    ensures IsTeamsHeader(line) ==> TeamOf(line).None?
    ensures !IsTeamsHeader(line) ==> (TeamOf(line).None? <==> FirstTeamToken(Normalized(line), 0).None?)
    ensures TeamOf(line).Some? ==> TeamOf(line).value.id == FirstTeamToken(Normalized(line), 0).value
    ensures TeamOf(line).Some? ==> (TeamOf(line).value.isCurrent <==> IsCurrentLine(line))
    ensures TeamOf(line).Some? && TeamOf(line).value.slug == [] ==> ToSlug(TeamOf(line).value.name) == []
  {
  }

  /**
   * When the first column is the id, the name is the second column (the id
   * when there is none) and the slug the third (the name's slug when there
   * is none).
   */
  lemma FirstColumnId(line: string)
    requires TeamOf(line).Some?
    requires ColumnAt(TeamColumns(Normalized(line)), 0) == Some(TeamOf(line).value.id)
    ensures var columns := TeamColumns(Normalized(line));
      var team := TeamOf(line).value;
      && team.name == (if |columns| >= 2 then columns[1] else team.id)
      && team.slug == (if |columns| >= 3 then columns[2] else ToSlug(team.name))
  {
  }

  // ---------------------------------------------------------------------
  // parseVercelTeamsListOutput
  // ---------------------------------------------------------------------

  /** The teams of the prepared lines, in line order. */
  function TeamsOf(lines: seq<string>): seq<TeamScope>
  {
    if lines == [] then [] else TeamsOf(lines[..|lines| - 1]) + Listed(TeamOf(lines[|lines| - 1]))
  }

  lemma TeamsOfStep(lines: seq<string>, i: nat)
    requires i < |lines|
    ensures TeamsOf(lines[..i + 1]) == TeamsOf(lines[..i]) + Listed(TeamOf(lines[i]))
  {
    assert lines[..i + 1][..i] == lines[..i];
  }

  /** The body of the loop over lines: the checks one line goes through before it yields a team. */
  method VisitTeamLine(rawLine: string) returns (team: Option<TeamScope>)
    ensures team == TeamOf(rawLine)
  {
    if IsTeamsHeader(rawLine) {
      return None;
    }
    var isCurrent := IsCurrentLine(rawLine);
    var normalized := Normalized(rawLine);
    var idMatch := FirstTeamToken(normalized, 0);
    if idMatch.None? {
      return None;
    }
    var id := idMatch.value;
    var (name, slug) := NameAndSlug(TeamColumns(normalized), id);
    team := Some(TeamScope(id, if slug == [] then ToSlug(name) else slug, name, isCurrent));
  }

  /** `parseVercelTeamsListOutput`. */
  method ParseVercelTeamsListOutput(output: string) returns (teams: seq<TeamScope>)
    ensures teams == TeamsOf(PreparedLines(output))
  {
    teams := TeamsOfLines(PreparedLines(output));
  }

  /** The loop over the prepared lines. */
  method TeamsOfLines(lines: seq<string>) returns (teams: seq<TeamScope>)
    ensures teams == TeamsOf(lines)
  {
    teams := [];
    for i := 0 to |lines|
      invariant teams == TeamsOf(lines[..i])
    {
      teams := AddTeamLine(lines, i, teams);
    }
    assert lines[..|lines|] == lines;
  }

  /** One turn of the loop over lines: the team of line `i`, if any, is appended. */
  method AddTeamLine(lines: seq<string>, i: nat, teams: seq<TeamScope>) returns (next: seq<TeamScope>)
    requires i < |lines| && teams == TeamsOf(lines[..i])
    ensures next == TeamsOf(lines[..i + 1])
  {
    TeamsOfStep(lines, i);
    var team := VisitTeamLine(lines[i]);
    next := teams + Listed(team);
  }

  /** Teams keep the order of their lines. */
  lemma {:induction false} TeamsOfAppend(a: seq<string>, b: seq<string>)
    ensures TeamsOf(a + b) == TeamsOf(a) + TeamsOf(b)
    decreases |b|
  {
    if b == [] {
      assert a + b == a;
    } else {
      var b' := b[..|b| - 1];
      var last := Listed(TeamOf(b[|b| - 1]));
      assert (a + b)[..|a + b| - 1] == a + b';
      assert (a + b)[|a + b| - 1] == b[|b| - 1];
      TeamsOfLast(a + b);
      TeamsOfLast(b);
      TeamsOfAppend(a, b');
      assert TeamsOf(a + b) == (TeamsOf(a) + TeamsOf(b')) + last;
    }
  }

  lemma TeamsOfLast(lines: seq<string>)
    requires lines != []
    ensures TeamsOf(lines) == TeamsOf(lines[..|lines| - 1]) + Listed(TeamOf(lines[|lines| - 1]))
  {
  }

  /** Every team comes from one of the lines. */
  lemma {:induction false} TeamsFromLines(lines: seq<string>)
    ensures forall t :: t in TeamsOf(lines) ==> exists i :: 0 <= i < |lines| && TeamOf(lines[i]) == Some(t)
  {
    if lines != [] {
      var init := lines[..|lines| - 1];
      TeamsFromLines(init);
      assert TeamsOf(lines) == TeamsOf(init) + Listed(TeamOf(lines[|lines| - 1]));
      forall t | t in TeamsOf(lines) ensures exists i :: 0 <= i < |lines| && TeamOf(lines[i]) == Some(t) {
        if t in TeamsOf(init) {
          var i :| 0 <= i < |init| && TeamOf(init[i]) == Some(t);
          assert lines[i] == init[i];
        } else {
          assert TeamOf(lines[|lines| - 1]) == Some(t);
        }
      }
    }
  }

  /** Every team's id is a `team_` token. */
  lemma TeamIdsAreTokens(lines: seq<string>)
    ensures forall t :: t in TeamsOf(lines) ==> IsTeamToken(t.id)
  {
    TeamsFromLines(lines);
    forall t | t in TeamsOf(lines) ensures IsTeamToken(t.id) {
      var i :| 0 <= i < |lines| && TeamOf(lines[i]) == Some(t);
    }
  }
}
