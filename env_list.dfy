/**
 * Reading the table `vercel env ls` prints (src/lib/vercel-cli/env-list.ts):
 * environment names, target lists separated by commas or the word "and",
 * and the rows that say which built-in environments each key is set for.
 */
module EnvList {
  import opened Wrappers
  import opened Strings
  import opened Sorting
  import opened EnvTypes
  import opened CliText

  /** One line of the table: a key and the built-in environments it is set for. */
  datatype TopologyRow = TopologyRow(key: string, target: seq<BuiltIn>)

  // ---------------------------------------------------------------------
  // Environment names
  // ---------------------------------------------------------------------

  /**
   * `environmentNameToId`: the trimmed, lower-cased text names a built-in
   * environment. The `i` flag and `toLowerCase` only fold ASCII letters onto
   * these three names, so ASCII lowering decides the same cases.
   */
  function EnvironmentNameToId(value: string): (r: Option<BuiltIn>)
    ensures r.Some? ==> BuiltInName(r.value) == ToLower(Trim(value))
    ensures r.None? ==> forall e :: BuiltInName(e) != ToLower(Trim(value))
  {
    var normalized := ToLower(Trim(value));
    if normalized == "production" then Some(Production)
    else if normalized == "preview" then Some(Preview)
    else if normalized == "development" then Some(Development)
    else None
  }

  /** `environmentOrder` as a sort key. */
  function EnvKey(e: BuiltIn): seq<SortAtom>
  {
    [IntAtom(EnvOrder(e))]
  }

  /** `[...target].sort(by environmentOrder)`. */
  function SortedTarget(target: seq<BuiltIn>): (t: seq<BuiltIn>)
    ensures multiset(t) == multiset(target)
    ensures Sorted(t, EnvKey)
  {
    SortBySorted(target, EnvKey);
    SortBy(target, EnvKey)
  }

  predicate NoSpace(s: string)
  {
    forall i :: 0 <= i < |s| ==> !IsSpace(s[i])
  }

  lemma TrimNoSpace(s: string)
    requires NoSpace(s)
    ensures Trim(s) == s
  {
    TrimOfNoSpace(s);
  }

  /** Whitespace in front of a word is trimmed away. */
  lemma TrimLeadingSpace(s: string)
    requires s != [] && NoSpace(s)
    ensures Trim(" " + s) == s
  {
    var t := " " + s;
    assert TrimEnd(t) == t;
    assert t[1..] == s;
    TrimOfNoSpace(s);
    assert TrimEnd(s) == s;
    assert TrimStart(s) == s;
  }

  /** A built-in name, in any case and with surrounding blanks trimmed, reads back as its environment. */
  lemma NameRoundTrip(e: BuiltIn, text: string)
    requires ToLower(Trim(text)) == BuiltInName(e)
    ensures EnvironmentNameToId(text) == Some(e)
  {
  }

  /** The names are lower case already. */
  lemma LowerName(e: BuiltIn)
    ensures ToLower(BuiltInName(e)) == BuiltInName(e)
  {
    var n := BuiltInName(e);
    assert forall i :: 0 <= i < |n| ==> 'a' <= n[i] <= 'z';
    LowerOfNoUpper(n);
  }

  // ---------------------------------------------------------------------
  // Target lists: `raw.split(/,|\band\b/gi)`
  // ---------------------------------------------------------------------

  /**
   * The word "and", in any case, starts `s` with a word boundary on both
   * sides; `afterWord` says whether the character before `s` is a word
   * character.
   */
  predicate AndWordAt(s: string, afterWord: bool)
  {
    (&& !afterWord && |s| >= 3
     && ToLowerChar(s[0]) == 'a' && ToLowerChar(s[1]) == 'n' && ToLowerChar(s[2]) == 'd'
     && (|s| == 3 || !IsWordChar(s[3])))
  }

  /** `split(/,|\band\b/gi)` of `s`, where `cur` is the piece read so far. */
  function SplitTargets(s: string, afterWord: bool, cur: string): (r: seq<string>)
    requires ',' !in cur
    ensures |r| >= 1
    ensures forall i :: 0 <= i < |r| ==> ',' !in r[i]
    decreases |s|
  {
    if s == [] then [cur]
    else if s[0] == ',' then [cur] + SplitTargets(s[1..], false, [])
    else if AndWordAt(s, afterWord) then [cur] + SplitTargets(s[3..], true, [])
    else SplitTargets(s[1..], IsWordChar(s[0]), cur + [s[0]])
  }

  /** `.map(environmentNameToId)`. */
  function NameIds(items: seq<string>): (r: seq<Option<BuiltIn>>)
    ensures |r| == |items|
    ensures forall i :: 0 <= i < |items| ==> r[i] == EnvironmentNameToId(items[i])
  {
    seq(|items|, i requires 0 <= i < |items| => EnvironmentNameToId(items[i]))
  }

  /** `.filter(Boolean)` on optional values: the present ones, in order. */
  function Present<T>(xs: seq<Option<T>>): (r: seq<T>)
    ensures |r| <= |xs|
  {
    if xs == [] then []
    else (if xs[0].Some? then [xs[0].value] else []) + Present(xs[1..])
  }

  /** `parseEnvironmentList`. */
  function ParseEnvironmentList(raw: string): (r: seq<BuiltIn>)
    ensures Sorted(r, EnvKey)
  {
    SortedTarget(Present(NameIds(SplitTargets(raw, false, []))))
  }

  lemma {:induction false} PresentMembers<T>(xs: seq<Option<T>>, e: T)
    ensures e in Present(xs) <==> Some(e) in xs
  {
    if xs != [] {
      PresentMembers(xs[1..], e);
      assert xs == [xs[0]] + xs[1..];
    }
  }

  /** An environment is in the parsed list exactly when some separated piece names it. */
  lemma ParseEnvironmentListMembers(raw: string, e: BuiltIn)
    ensures e in ParseEnvironmentList(raw) <==>
      exists i :: 0 <= i < |SplitTargets(raw, false, [])| && EnvironmentNameToId(SplitTargets(raw, false, [])[i]) == Some(e)
  {
    var ids := NameIds(SplitTargets(raw, false, []));
    PresentMembers(ids, e);
    assert e in ParseEnvironmentList(raw) <==> e in multiset(Present(ids));
    if Some(e) in ids {
      var i :| 0 <= i < |ids| && ids[i] == Some(e);
    }
  }

  /** `s` holds no "and" word, read with `afterWord` before it and the end of `s` as a boundary. */
  predicate NoAndWord(s: string, afterWord: bool)
    decreases |s|
  {
    s == [] || (!AndWordAt(s, afterWord) && NoAndWord(s[1..], IsWordChar(s[0])))
  }

  /** Whether the character before `s`'s end is a word character. */
  function EndsInWord(s: string, afterWord: bool): bool
  {
    if s == [] then afterWord else IsWordChar(s[|s| - 1])
  }

  lemma {:induction false} NoLetterANoAndWord(s: string, afterWord: bool)
    requires NoSeparatorLetters(s)
    ensures NoAndWord(s, afterWord)
    decreases |s|
  {
    if s != [] {
      NoLetterANoAndWord(s[1..], IsWordChar(s[0]));
    }
  }

  /** A piece free of separators is read whole, up to a following non-word character. */
  lemma {:induction false} SplitTargetsPiece(p: string, rest: string, afterWord: bool, cur: string)
    requires ',' !in p && ',' !in cur && NoAndWord(p, afterWord)
    requires rest == [] || !IsWordChar(rest[0])
    ensures SplitTargets(p + rest, afterWord, cur) == SplitTargets(rest, EndsInWord(p, afterWord), cur + p)
    decreases |p|
  {
    if p == [] {
      assert p + rest == rest;
      assert cur + p == cur;
    } else {
      var s := p + rest;
      assert s[0] == p[0];
      assert s[1..] == p[1..] + rest;
      assert cur + [p[0]] + p[1..] == cur + p;
      SplitTargetsPiece(p[1..], rest, IsWordChar(p[0]), cur + [p[0]]);
    }
  }

  /** Pieces without separators, joined by commas, split back into themselves. */
  lemma {:induction false} JoinSplitTargets(parts: seq<string>)
    requires |parts| >= 1
    requires forall i :: 0 <= i < |parts| ==> ',' !in parts[i] && NoAndWord(parts[i], false)
    ensures SplitTargets(Join(parts, ","), false, []) == parts
    decreases |parts|
  {
    if |parts| == 1 {
      SplitTargetsPiece(parts[0], [], false, []);
      assert parts[0] + [] == parts[0];
    } else {
      var rest := "," + Join(parts[1..], ",");
      assert Join(parts, ",") == parts[0] + rest;
      SplitTargetsPiece(parts[0], rest, false, []);
      assert rest[0] == ',' && rest[1..] == Join(parts[1..], ",");
      assert [] + parts[0] == parts[0];
      JoinSplitTargets(parts[1..]);
    }
  }

  /** How the table prints a target: the names joined by ", ". */
  function TargetText(target: seq<BuiltIn>): string
  {
    Join(Names(target), ", ")
  }

  /** `" " + p` for every part. */
  function Pad(parts: seq<string>): (r: seq<string>)
    ensures |r| == |parts|
    ensures forall i :: 0 <= i < |parts| ==> r[i] == " " + parts[i]
  {
    seq(|parts|, i requires 0 <= i < |parts| => " " + parts[i])
  }

  lemma JoinHeadPrefix(c: string, x: string, ys: seq<string>, sep: string)
    ensures Join([c + x] + ys, sep) == c + Join([x] + ys, sep)
  {
    if ys != [] {
      assert ([c + x] + ys)[1..] == ys;
      assert ([x] + ys)[1..] == ys;
    }
  }

  /** Parts joined by ", " are the parts, each after the first with its blank, joined by ",". */
  lemma {:induction false} JoinPadded(parts: seq<string>)
    requires |parts| >= 1
    ensures Join(parts, ", ") == Join([parts[0]] + Pad(parts[1..]), ",")
    decreases |parts|
  {
    if |parts| >= 2 {
      JoinPadded(parts[1..]);
      var tail := Pad(parts[2..]);
      assert parts[1..][1..] == parts[2..];
      assert Pad(parts[1..]) == [" " + parts[1]] + tail;
      JoinHeadPrefix(" ", parts[1], tail, ",");
      assert ([parts[0]] + Pad(parts[1..]))[1..] == Pad(parts[1..]);
      calc {
        Join([parts[0]] + Pad(parts[1..]), ",");
        parts[0] + "," + Join(Pad(parts[1..]), ",");
        parts[0] + "," + (" " + Join([parts[1]] + tail, ","));
        parts[0] + "," + (" " + Join(parts[1..], ", "));
        { assert parts[0] + "," + (" " + Join(parts[1..], ", ")) == parts[0] + ", " + Join(parts[1..], ", "); }
        Join(parts, ", ");
      }
    }
  }

  /** The pieces a printed target splits into: each name after the first keeps its leading blank. */
  function TargetPieces(target: seq<BuiltIn>): (r: seq<string>)
    requires target != []
    ensures |r| == |target|
  {
    [BuiltInName(target[0])] + Pad(Names(target)[1..])
  }

  /** No letter a (so no "and") and no comma. */
  predicate NoSeparatorLetters(s: string)
  {
    forall i :: 0 <= i < |s| ==> s[i] != 'a' && s[i] != 'A' && s[i] != ','
  }

  lemma NamesHaveNoA(e: BuiltIn)
    ensures NoSpace(BuiltInName(e))
    ensures NoSeparatorLetters(BuiltInName(e)) && NoSeparatorLetters(" " + BuiltInName(e))
  {
    var n := BuiltInName(e);
    assert forall i :: 0 <= i < |n| ==> 'b' <= n[i] <= 'z';
    PaddedNoSeparatorLetters(n);
  }

  lemma PaddedNoSeparatorLetters(n: string)
    requires NoSeparatorLetters(n)
    ensures NoSeparatorLetters(" " + n)
  {
    assert forall i :: 1 <= i < |" " + n| ==> (" " + n)[i] == n[i - 1];
  }

  /** Each piece of a printed target is free of separators and names its environment. */
  lemma TargetPiece(target: seq<BuiltIn>, i: nat)
    requires i < |target|
    ensures ',' !in TargetPieces(target)[i] && NoAndWord(TargetPieces(target)[i], false)
    ensures EnvironmentNameToId(TargetPieces(target)[i]) == Some(target[i])
  {
    var piece := TargetPieces(target)[i];
    var n := BuiltInName(target[i]);
    NamesHaveNoA(target[i]);
    LowerName(target[i]);
    if i == 0 {
      assert piece == n;
      TrimNoSpace(n);
    } else {
      assert piece == " " + n;
      TrimLeadingSpace(n);
    }
    NameRoundTrip(target[i], piece);
    NoLetterANoAndWord(piece, false);
  }

  /** Parsing a printed target gives it back in environment order. */
  lemma ParseTargetText(target: seq<BuiltIn>)
    requires target != []
    ensures ParseEnvironmentList(TargetText(target)) == SortedTarget(target)
  {
    var pieces := TargetPieces(target);
    JoinPadded(Names(target));
    assert TargetText(target) == Join(pieces, ",");
    forall i | 0 <= i < |pieces|
      ensures ',' !in pieces[i] && NoAndWord(pieces[i], false) && NameIds(pieces)[i] == Some(target[i])
    {
      TargetPiece(target, i);
    }
    JoinSplitTargets(pieces);
    PresentAll(NameIds(pieces), target);
  }

  lemma {:induction false} PresentAll<T>(xs: seq<Option<T>>, ys: seq<T>)
    requires |xs| == |ys|
    requires forall i :: 0 <= i < |xs| ==> xs[i] == Some(ys[i])
    ensures Present(xs) == ys
  {
    if xs != [] {
      PresentAll(xs[1..], ys[1..]);
    }
  }

  // ---------------------------------------------------------------------
  // Columns: `line.trim().split(/\s{2,}/).filter(Boolean)`
  // ---------------------------------------------------------------------

  /** The columns of one table line. */
  function Columns(line: string): seq<string>
  {
    NonEmpty(SplitWide(Trim(line), []))
  }

  /** The columns of a line printed as cells separated by two blanks are those cells. */
  lemma ColumnsOfCells(cells: seq<string>)
    requires |cells| >= 1
    requires forall i :: 0 <= i < |cells| ==> Cell(cells[i])
    ensures Columns(Join(cells, "  ")) == cells
  {
    TrimJoinedCells(cells);
    JoinSplitWide(cells);
    NonEmptyKeeps(cells);
  }

  // ---------------------------------------------------------------------
  // Rows
  // ---------------------------------------------------------------------

  /** The banner, progress and heading lines the parser skips. */
  predicate IsHeader(line: string)
  {
    || StartsWithNoCase(line, "vercel cli")
    || StartsWithNoCase(line, "retrieving project")
    || (|line| >= 1 && line[0] == '>' && StartsWithNoCase(TrimStart(line[1..]), "environment variables"))
    || (StartsWithNoCase(line, "name") && |line| >= 6 && IsSpace(line[4]) && IsSpace(line[5]))
  }

  /** The row one prepared line contributes, if any. */
  function RowOf(line: string): (r: Option<TopologyRow>)
    ensures IsHeader(line) || |Columns(line)| < 3 ==> r.None?
    ensures r.Some? ==> WellFormedRow(r.value)
  {
    if IsHeader(line) then None
    else
      var columns := Columns(line);
      if |columns| < 3 then None
      else
        var key := Trim(columns[0]);
        var target := ParseEnvironmentList(columns[2]);
        if key == [] || target == [] then None
        else Some(TopologyRow(key, target))
  }

  /** A parsed row: a non-empty key without surrounding blanks and a non-empty target in environment order. */
  predicate WellFormedRow(row: TopologyRow)
  {
    && row.key != [] && !IsSpace(row.key[0]) && !IsSpace(row.key[|row.key| - 1])
    && row.target != [] && Sorted(row.target, EnvKey)
  }

  /** The rows of the prepared lines, in line order. */
  function TopologyRows(lines: seq<string>): seq<TopologyRow>
  {
    if lines == [] then [] else TopologyRows(lines[..|lines| - 1]) + Listed(RowOf(lines[|lines| - 1]))
  }

  lemma TopologyRowsStep(lines: seq<string>, i: nat)
    requires i < |lines|
    ensures TopologyRows(lines[..i + 1]) == TopologyRows(lines[..i]) + Listed(RowOf(lines[i]))
  {
    assert lines[..i + 1][..i] == lines[..i];
  }

  /** The `forEach` callback: the checks one line goes through. */
  method VisitLine(line: string) returns (row: Option<TopologyRow>)
    ensures row == RowOf(line)
  {
    if IsHeader(line) {
      return None;
    }
    var columns := Columns(line);
    if |columns| < 3 {
      return None;
    }
    var key := Trim(columns[0]);
    var target := ParseEnvironmentList(columns[2]);
    if key == [] || target == [] {
      return None;
    }
    row := Some(TopologyRow(key, target));
  }

  /** `parseVercelEnvListOutput`. */
  method ParseVercelEnvListOutput(stdout: string) returns (rows: seq<TopologyRow>)
    ensures rows == TopologyRows(PreparedLines(stdout))
  {
    var lines := PreparedLines(stdout);
    rows := [];
    for i := 0 to |lines|
      invariant rows == TopologyRows(lines[..i])
    {
      TopologyRowsStep(lines, i);
      var row := VisitLine(lines[i]);
      rows := rows + Listed(row);
    }
    assert lines[..|lines|] == lines;
  }

  /** Rows keep the order of their lines: the rows of two blocks of lines are the rows of each, in turn. */
  lemma {:induction false} TopologyRowsAppend(a: seq<string>, b: seq<string>)
    ensures TopologyRows(a + b) == TopologyRows(a) + TopologyRows(b)
    decreases |b|
  {
    if b == [] {
      assert a + b == a;
    } else {
      var b' := b[..|b| - 1];
      assert (a + b)[..|a + b| - 1] == a + b';
      assert (a + b)[|a + b| - 1] == b[|b| - 1];
      TopologyRowsAppend(a, b');
    }
  }

  /** Every row comes from one of the lines. */
  lemma {:induction false} TopologyRowsFromLines(lines: seq<string>)
    ensures forall r :: r in TopologyRows(lines) ==> exists i :: 0 <= i < |lines| && RowOf(lines[i]) == Some(r)
  {
    if lines != [] {
      var init := lines[..|lines| - 1];
      TopologyRowsFromLines(init);
      assert TopologyRows(lines) == TopologyRows(init) + Listed(RowOf(lines[|lines| - 1]));
      forall r | r in TopologyRows(lines) ensures exists i :: 0 <= i < |lines| && RowOf(lines[i]) == Some(r) {
        if r in TopologyRows(init) {
          var i :| 0 <= i < |init| && RowOf(init[i]) == Some(r);
          assert lines[i] == init[i];
        } else {
          assert RowOf(lines[|lines| - 1]) == Some(r);
        }
      }
    }
  }

  /** Every row has a non-empty, trimmed key and a non-empty target in environment order. */
  lemma TopologyRowsWellFormed(lines: seq<string>)
    ensures forall r :: r in TopologyRows(lines) ==> WellFormedRow(r)
  {
    TopologyRowsFromLines(lines);
    forall r | r in TopologyRows(lines) ensures WellFormedRow(r) {
      var i :| 0 <= i < |lines| && RowOf(lines[i]) == Some(r);
    }
  }

  /**
   * A line printed as key, type and target columns (and any further ones),
   * two blanks apart, reads as that key and the target in environment order.
   */
  lemma TableLineRow(cells: seq<string>, target: seq<BuiltIn>)
    requires |cells| >= 3 && target != []
    requires forall i :: 0 <= i < |cells| ==> Cell(cells[i])
    requires cells[2] == TargetText(target)
    requires !IsHeader(Join(cells, "  "))
    ensures RowOf(Join(cells, "  ")) == Some(TopologyRow(cells[0], SortedTarget(target)))
  {
    ColumnsOfCells(cells);
    TrimOfNoSpace(cells[0]);
    ParseTargetText(target);
    assert SortedTarget(target) != [] by {
      assert target[0] in multiset(SortedTarget(target));
    }
  }
}
