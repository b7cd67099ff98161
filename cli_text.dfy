/**
 * The text handling the Vercel CLI parsers share: output split into lines,
 * ANSI colour codes removed (`replace(/\u001b\[[0-9;]*m/g, "")`), trailing
 * blanks trimmed and blank lines dropped, and table lines split into
 * columns on runs of two or more blanks (`split(/\s{2,}/)`).
 */
module CliText {
  import opened Strings

  // ---------------------------------------------------------------------
  // Lines: `split(/\r?\n/)`, colour codes removed, `trimEnd`, blanks dropped
  // ---------------------------------------------------------------------

  const Esc: char := '\U{001B}'

  predicate IsCodeChar(c: char) { IsDigit(c) || c == ';' }

  /** The length of the run of `[0-9;]` starting `s`. */
  function CodeRun(s: string): (k: nat)
    ensures k <= |s|
    ensures forall j :: 0 <= j < k ==> IsCodeChar(s[j])
    ensures k == |s| || !IsCodeChar(s[k])
  {
    if s != [] && IsCodeChar(s[0]) then 1 + CodeRun(s[1..]) else 0
  }

  /** The length of the match of `\u001b\[[0-9;]*m` at the start of `s`, or 0 when there is none. */
  function AnsiLength(s: string): (n: nat)
    ensures n == 0 || 3 <= n <= |s|
  {
    if |s| >= 2 && s[0] == Esc && s[1] == '[' then
      var k := 2 + CodeRun(s[2..]);
      if k < |s| && s[k] == 'm' then k + 1 else 0
    else 0
  }

  /** `replace(/\u001b\[[0-9;]*m/g, "")`: every match, leftmost first, removed in one pass. */
  function StripAnsi(s: string): (r: string)
    ensures |r| <= |s|
    decreases |s|
  {
    if s == [] then []
    else if AnsiLength(s) > 0 then StripAnsi(s[AnsiLength(s)..])
    else [s[0]] + StripAnsi(s[1..])
  }

  /** A colour code: escape, `[`, digits and semicolons, `m`. */
  function AnsiCode(codes: string): string
  {
    [Esc, '['] + codes + "m"
  }

  /** Text without an escape character is kept as it is. */
  lemma {:induction false} StripAnsiPlain(a: string, s: string)
    requires Esc !in a
    ensures StripAnsi(a + s) == a + StripAnsi(s)
    decreases |a|
  {
    if a != [] {
      PlainHead(a, s);
      assert Esc !in a[1..];
      StripAnsiPlain(a[1..], s);
      assert a == [a[0]] + a[1..];
    } else {
      assert a + s == s;
    }
  }

  /** A first character that is not an escape is kept. */
  lemma PlainHead(a: string, s: string)
    requires a != [] && a[0] != Esc
    ensures StripAnsi(a + s) == [a[0]] + StripAnsi(a[1..] + s)
  {
    var t := a + s;
    assert t[0] == a[0];
    assert AnsiLength(t) == 0;
    assert t[1..] == a[1..] + s;
  }

  /** A colour code is removed. */
  lemma StripAnsiCode(codes: string, s: string)
    requires forall i :: 0 <= i < |codes| ==> IsCodeChar(codes[i])
    ensures StripAnsi(AnsiCode(codes) + s) == StripAnsi(s)
  {
    var t := AnsiCode(codes) + s;
    AnsiLengthOfCode(codes, s);
    assert StripAnsi(t) == StripAnsi(t[|codes| + 3..]);
  }

  /** A colour code at the start of a text is matched whole. */
  lemma AnsiLengthOfCode(codes: string, s: string)
    requires forall i :: 0 <= i < |codes| ==> IsCodeChar(codes[i])
    ensures AnsiLength(AnsiCode(codes) + s) == |codes| + 3
    ensures (AnsiCode(codes) + s)[|codes| + 3..] == s
  {
    var rest := codes + ("m" + s);
    var t := [Esc, '['] + rest;
    assert AnsiCode(codes) + s == t;
    assert t[0] == Esc && t[1] == '[';
    assert t[2..] == rest;
    CodeRunOf(codes, "m" + s);
    PieceAt([Esc, '['] + codes, "m", s);
    assert t == [Esc, '['] + codes + "m" + s;
    assert t[|codes| + 2] == 'm';
    assert t[|codes| + 3..] == s;
  }

  lemma {:induction false} CodeRunOf(codes: string, s: string)
    requires forall i :: 0 <= i < |codes| ==> IsCodeChar(codes[i])
    requires s == [] || !IsCodeChar(s[0])
    ensures CodeRun(codes + s) == |codes|
    decreases |codes|
  {
    if codes != [] {
      assert (codes + s)[1..] == codes[1..] + s;
      CodeRunOf(codes[1..], s);
    } else {
      assert codes + s == s;
    }
  }

  /** One raw line after colour codes and trailing blanks are removed. */
  function CleanLine(line: string): string
  {
    TrimEnd(StripAnsi(line))
  }

  /** `.map(clean).filter(line => line.trim().length > 0)`. */
  function CleanLines(raw: seq<string>): (r: seq<string>)
    ensures |r| <= |raw|
  {
    if raw == [] then []
    else
      var line := CleanLine(raw[0]);
      (if Trim(line) != [] then [line] else []) + CleanLines(raw[1..])
  }

  /** The lines the table parser looks at. */
  function PreparedLines(stdout: string): seq<string>
  {
    CleanLines(SplitLines(stdout))
  }

  // ---------------------------------------------------------------------
  // Columns: `split(/\s{2,}/)` and `filter(Boolean)`
  // ---------------------------------------------------------------------

  /** `split(/\s{2,}/)` of `s`, where `cur` is the column read so far. */
  function SplitWide(s: string, cur: string): (r: seq<string>)
    ensures |r| >= 1
    decreases |s|
  {
    if s == [] then [cur]
    else if |s| >= 2 && IsSpace(s[0]) && IsSpace(s[1]) then
      var rest := TrimStart(s);
      assert |rest| < |s|;
      [cur] + SplitWide(rest, [])
    else SplitWide(s[1..], cur + [s[0]])
  }

  /** `.filter(Boolean)` on strings: the non-empty ones. */
  function NonEmpty(parts: seq<string>): (r: seq<string>)
    ensures |r| <= |parts|
    ensures forall i :: 0 <= i < |r| ==> r[i] != []
  {
    if parts == [] then []
    else (if parts[0] != [] then [parts[0]] else []) + NonEmpty(parts[1..])
  }

  /** Two whitespace characters in a row at position `i`. */
  predicate WideGapAt(s: string, i: int)
  {
    0 <= i < |s| - 1 && IsSpace(s[i]) && IsSpace(s[i + 1])
  }

  /** No two whitespace characters in a row. */
  predicate NoWideGap(s: string)
  {
    forall i :: 0 <= i < |s| ==> !WideGapAt(s, i)
  }

  /** A column as the table prints it: not empty, not padded, no wide gap inside. */
  predicate Cell(s: string)
  {
    s != [] && !IsSpace(s[0]) && !IsSpace(s[|s| - 1]) && NoWideGap(s)
  }

  lemma {:induction false} SplitWidePiece(p: string, rest: string, cur: string)
    requires NoWideGap(p) && (p == [] || !IsSpace(p[|p| - 1]))
    ensures SplitWide(p + rest, cur) == SplitWide(rest, cur + p)
    decreases |p|
  {
    if p == [] {
      assert p + rest == rest;
      assert cur + p == cur;
    } else {
      var s := p + rest;
      assert s[0] == p[0];
      if |p| >= 2 {
        assert s[1] == p[1];
        assert !WideGapAt(p, 0);
      }
      assert s[1..] == p[1..] + rest;
      assert cur + [p[0]] + p[1..] == cur + p;
      forall i | 0 <= i < |p[1..]| ensures !WideGapAt(p[1..], i) {
        assert !WideGapAt(p, i + 1);
      }
      SplitWidePiece(p[1..], rest, cur + [p[0]]);
    }
  }

  lemma TrimStartSpaces(w: string, s: string)
    requires w != [] && AllSpace(w)
    requires s != [] && !IsSpace(s[0])
    ensures TrimStart(w + s) == s
  {
    var t := w + s;
    var r := TrimStart(t);
    var k := |t| - |r|;
    assert t[|w|] == s[0];
    if k < |w| {
      assert false;
    }
    if k > |w| {
      assert false;
    }
    assert t[|w|..] == s;
  }

  /** Cells joined by two blanks split back into themselves. */
  lemma {:induction false} JoinSplitWide(cells: seq<string>)
    requires |cells| >= 1
    requires forall i :: 0 <= i < |cells| ==> Cell(cells[i])
    ensures SplitWide(Join(cells, "  "), []) == cells
    decreases |cells|
  {
    if |cells| == 1 {
      SplitWidePiece(cells[0], [], []);
      assert cells[0] + [] == cells[0];
      assert [] + cells[0] == cells[0];
    } else {
      var tail := Join(cells[1..], "  ");
      assert Join(cells, "  ") == cells[0] + "  " + tail;
      JoinEdges(cells[1..], "  ");
      SplitAtGap(cells[0], tail);
      JoinSplitWide(cells[1..]);
      assert cells == [cells[0]] + cells[1..];
    }
  }

  /** A cell, two blanks and text starting with a non-blank: the cell is the first column. */
  lemma SplitAtGap(cell: string, tail: string)
    requires Cell(cell) && tail != [] && !IsSpace(tail[0])
    ensures SplitWide(cell + "  " + tail, []) == [cell] + SplitWide(tail, [])
  {
    var rest := "  " + tail;
    assert cell + "  " + tail == cell + rest;
    SplitWidePiece(cell, rest, []);
    assert [] + cell == cell;
    TrimStartSpaces("  ", tail);
    assert rest[0] == ' ' && rest[1] == ' ';
  }

  /** A join of non-empty parts starts with the first part's first character and ends with the last part's last. */
  lemma {:induction false} JoinEdges(parts: seq<string>, sep: string)
    requires |parts| >= 1 && forall i :: 0 <= i < |parts| ==> parts[i] != []
    ensures Join(parts, sep) != []
    ensures Join(parts, sep)[0] == parts[0][0]
    ensures Join(parts, sep)[|Join(parts, sep)| - 1] == parts[|parts| - 1][|parts[|parts| - 1]| - 1]
    decreases |parts|
  {
    if |parts| > 1 {
      JoinEdges(parts[1..], sep);
    }
  }

  lemma {:induction false} NonEmptyKeeps(parts: seq<string>)
    requires forall i :: 0 <= i < |parts| ==> parts[i] != []
    ensures NonEmpty(parts) == parts
  {
    if parts != [] {
      NonEmptyKeeps(parts[1..]);
    }
  }

  lemma TrimJoinedCells(cells: seq<string>)
    requires |cells| >= 1
    requires forall i :: 0 <= i < |cells| ==> Cell(cells[i])
    ensures Trim(Join(cells, "  ")) == Join(cells, "  ")
  {
    var line := Join(cells, "  ");
    JoinEdges(cells, "  ");
    assert Cell(cells[0]) && Cell(cells[|cells| - 1]);
    TrimOfNoSpace(line);
  }
}
