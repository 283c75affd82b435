/** The announcement table (handlers/renderer.go): three column groups filled column by column, with Markdown
    escapes, and the reader that gets the mappings back out of the text. */
module AnnouncementTable {
  import opened Text

  datatype Mapping = Mapping(shortName: string, emojiName: string)

  const COLS: nat := 3

  const HEADER := "| Course | Emoji |" + "   | Course | Emoji |" + "   | Course | Emoji |"

  const RULE := "| --- | --- |" + " --- | --- | --- |" + " --- | --- | --- |"

  // ---- Escaping ----

  predicate Special(c: char) {
    c == '|' || c == '*' || c == '`'
  }

  /** `strings.ReplaceAll(s, c, "\" + c)`. */
  function ReplaceAll(s: string, c: char): string {
    if s == "" then "" else (if s[0] == c then ['\\', c] else [s[0]]) + ReplaceAll(s[1..], c)
  }

  function EscapeMarkdown(s: string): string {
    ReplaceAll(ReplaceAll(ReplaceAll(s, '|'), '*'), '`')
  }

  /** The three replacements as one pass. */
  function Escaped(s: string): string {
    if s == "" then "" else (if Special(s[0]) then ['\\', s[0]] else [s[0]]) + Escaped(s[1..])
  }

  /** The reader's pass: a backslash before an escapable character is dropped. */
  function Unescaped(s: string): string {
    if |s| < 2 then s
    else if s[0] == '\\' && Special(s[1]) then [s[1]] + Unescaped(s[2..])
    else [s[0]] + Unescaped(s[1..])
  }

  lemma {:induction false} ReplaceAllConcat(a: string, b: string, c: char)
    ensures ReplaceAll(a + b, c) == ReplaceAll(a, c) + ReplaceAll(b, c)
  {
    if a == "" {
      assert a + b == b;
    } else {
      ReplaceAllConcat(a[1..], b, c);
      assert (a + b)[1..] == a[1..] + b;
      assert (if a[0] == c then ['\\', c] else [a[0]]) + (ReplaceAll(a[1..], c) + ReplaceAll(b, c))
          == (if a[0] == c then ['\\', c] else [a[0]]) + ReplaceAll(a[1..], c) + ReplaceAll(b, c);
    }
  }

  lemma ReplaceAllShort(x: string, c: char)
    requires |x| == 1 || (|x| == 2 && x[0] != c)
    ensures ReplaceAll(x, c) == if x[|x| - 1] == c then x[..|x| - 1] + ['\\', c] else x
  {
  }

  lemma {:induction false} EscapeIsOnePass(s: string)
    ensures EscapeMarkdown(s) == Escaped(s)
  {
    if s != "" {
      EscapeIsOnePass(s[1..]);
      var x := [s[0]];
      assert s == x + s[1..];
      ReplaceAllConcat(x, s[1..], '|');
      ReplaceAllShort(x, '|');
      var y := ReplaceAll(x, '|');
      ReplaceAllConcat(y, ReplaceAll(s[1..], '|'), '*');
      ReplaceAllShort(y, '*');
      var z := ReplaceAll(y, '*');
      ReplaceAllConcat(z, ReplaceAll(ReplaceAll(s[1..], '|'), '*'), '`');
      ReplaceAllShort(z, '`');
      assert ReplaceAll(z, '`') == if Special(s[0]) then ['\\', s[0]] else x;
    }
  }

  /** Undoing the escapes gives the text back, backslashes of its own included. */
  lemma {:induction false} UnescapeEscaped(s: string)
    ensures Unescaped(Escaped(s)) == s
    ensures Escaped(s) != "" ==> !Special(Escaped(s)[0])
  {
    if s != "" {
      UnescapeEscaped(s[1..]);
      var e, rest := Escaped(s), Escaped(s[1..]);
      assert s == [s[0]] + s[1..];
      if Special(s[0]) {
        assert e[2..] == rest;
      } else {
        assert e[1..] == rest;
        if rest == "" { assert s[1..] == ""; }
      }
    }
  }

  // ---- Rendering ----

  /** The number of rows for `n` mappings. */
  function RowCount(n: nat): nat {
    (n + COLS - 1) / COLS
  }

  function CellAt(sorted: seq<Mapping>, rows: nat, row: nat, col: nat): Mapping {
    var i := col * rows + row;
    if i < |sorted| then sorted[i] else Mapping("", "")
  }

  function CourseText(m: Mapping): string {
    if m.shortName != "" then EscapeMarkdown(m.shortName) else ""
  }

  function EmojiText(m: Mapping): string {
    if m.shortName != "" then ":" + m.emojiName + ":" else ""
  }

  /** The pieces of a row, each of which is followed by a pipe, from column group `col` on. */
  function Pieces(sorted: seq<Mapping>, rows: nat, row: nat, col: nat): seq<string>
    requires col <= COLS
    decreases COLS - col
  {
    if col == COLS then []
    else
      var m := CellAt(sorted, rows, row, col);
      [" " + CourseText(m) + " ", " " + EmojiText(m) + " "]
      + (if col < COLS - 1 then ["   "] else [])
      + Pieces(sorted, rows, row, col + 1)
  }

  function WithPipes(pieces: seq<string>): string {
    if pieces == [] then "" else pieces[0] + "|" + WithPipes(pieces[1..])
  }

  function RowText(sorted: seq<Mapping>, rows: nat, row: nat): string {
    "|" + WithPipes(Pieces(sorted, rows, row, 0))
  }

  /** The lines of the table. */
  function TableLines(sorted: seq<Mapping>): seq<string> {
    var rows := RowCount(|sorted|);
    [HEADER, RULE] + seq(rows, row requires 0 <= row < rows => RowText(sorted, rows, row))
  }

  function WithNewlines(lines: seq<string>): string {
    if lines == [] then "" else lines[0] + "\n" + WithNewlines(lines[1..])
  }

  /** `strings.TrimRight(s, "\n")`. */
  function TrimNewlines(s: string): string {
    if s != "" && s[|s| - 1] == '\n' then TrimNewlines(s[..|s| - 1]) else s
  }

  lemma Regroup(a: string, b: string, c: string)
    ensures a + (b + c) == a + b + c
  {
  }

  lemma {:induction false} WithPipesAppend(a: seq<string>, b: seq<string>)
    ensures WithPipes(a + b) == WithPipes(a) + WithPipes(b)
  {
    if a == [] {
      assert a + b == b;
    } else {
      WithPipesAppend(a[1..], b);
      assert (a + b)[1..] == a[1..] + b && (a + b)[0] == a[0];
      Regroup(a[0] + "|", WithPipes(a[1..]), WithPipes(b));
    }
  }

  lemma {:induction false} WithNewlinesSnoc(lines: seq<string>, line: string)
    ensures WithNewlines(lines + [line]) == WithNewlines(lines) + line + "\n"
  {
    if lines == [] {
      assert lines + [line] == [line];
      assert [line][1..] == [];
    } else {
      WithNewlinesSnoc(lines[1..], line);
      assert (lines + [line])[1..] == lines[1..] + [line];
      assert lines[0] + "\n" + (WithNewlines(lines[1..]) + line + "\n")
          == lines[0] + "\n" + WithNewlines(lines[1..]) + line + "\n";
    }
  }

  /** One column group in front of the rest of a row. */
  lemma PiecesStep(sorted: seq<Mapping>, rows: nat, row: nat, col: nat, b: string)
    requires col < COLS
    ensures var m := CellAt(sorted, rows, row, col);
      b + WithPipes(Pieces(sorted, rows, row, col))
      == b + " " + CourseText(m) + " | " + EmojiText(m) + " |" + (if col < COLS - 1 then "   |" else "")
         + WithPipes(Pieces(sorted, rows, row, col + 1))
  {
    hide CellAt, CourseText, EmojiText, WithPipes;
    var m := CellAt(sorted, rows, row, col);
    var c, e := CourseText(m), EmojiText(m);
    var front := [" " + c + " ", " " + e + " "];
    var gap := if col < COLS - 1 then ["   "] else [];
    var rest := Pieces(sorted, rows, row, col + 1);
    assert Pieces(sorted, rows, row, col) == front + gap + rest;
    hide Pieces;
    WithPipesAppend(front + gap, rest);
    WithPipesAppend(front, gap);
    TwoPieces(" " + c + " ", " " + e + " ");
    GapText(gap);
    GroupText(b, c, e, WithPipes(gap), WithPipes(rest));
  }

  lemma GapText(gap: seq<string>)
    ensures gap == ["   "] ==> WithPipes(gap) == "   |"
    ensures gap == [] ==> WithPipes(gap) == ""
  {
    if gap == ["   "] { assert gap[1..] == []; }
  }

  lemma GroupText(b: string, c: string, e: string, gap: string, rest: string)
    ensures b + (" " + c + " " + "|" + (" " + e + " ") + "|" + gap + rest)
         == b + " " + c + " | " + e + " |" + gap + rest
  {
  }

  lemma TwoPieces(x: string, y: string)
    ensures WithPipes([x, y]) == x + "|" + y + "|"
  {
    assert [x, y][1..] == [y] && [y][1..] == [];
    assert WithPipes([y]) == y + "|" + "" == y + "|";
    assert x + "|" + (y + "|") == x + "|" + y + "|";
  }

  /** The comparison of the sort: lower-cased short names first, then emoji names. */
  predicate ComesBefore(lower: char -> char, a: Mapping, b: Mapping) {
    var x, y := ToLower(lower, a.shortName), ToLower(lower, b.shortName);
    LexLess(x, y) || (x == y && LexLess(a.emojiName, b.emojiName))
  }

  /** Any order the library sort may leave the copy in: by lower-cased short name, then by emoji name. */
  ghost predicate SortedCopy(lower: char -> char, mappings: seq<Mapping>, sorted: seq<Mapping>) {
    && multiset(sorted) == multiset(mappings)
    && InOrder(lower, sorted)
  }

  ghost predicate InOrder(lower: char -> char, sorted: seq<Mapping>) {
    forall i, j :: 0 <= i < j < |sorted| ==> !ComesBefore(lower, sorted[j], sorted[i])
  }

  /** The nested loops over rows and columns that append to the builder; `sorted` is what the library sort made of
      the mappings. */
  method RenderTable(mappings: seq<Mapping>, sorted: seq<Mapping>, ghost lower: char -> char)
    returns (text: string)
    requires SortedCopy(lower, mappings, sorted)
    ensures text == TrimNewlines(WithNewlines(TableLines(sorted)))
  {
    hide CellAt, CourseText, EmojiText, Pieces, WithNewlines, TrimNewlines, SortedCopy;
    var b := HEADER + "\n" + RULE + "\n";
    HeaderLines();
    SameEmptiness(lower, mappings, sorted);
    if mappings == [] {
      assert TableLines(sorted) == [HEADER, RULE];
      return TrimNewlines(b);
    }
    var rows := (|sorted| + COLS - 1) / COLS;
    ghost var lines := TableLines(sorted);
    assert lines[..2] == [HEADER, RULE];
    for row := 0 to rows
      invariant b == WithNewlines(lines[..2 + row])
    {
      ghost var start := b;
      b := b + "|";
      for col := 0 to COLS
        invariant start + RowText(sorted, rows, row) == b + WithPipes(Pieces(sorted, rows, row, col))
      {
        var i := col * rows + row;
        var m := Mapping("", "");
        if i < |sorted| { m := sorted[i]; }
        assert m == CellAt(sorted, rows, row, col) by { CellMeans(sorted, rows, row, col); }
        var courseName, emojiStr := "", "";
        if m.shortName != "" {
          courseName := EscapeMarkdown(m.shortName);
          emojiStr := ":" + m.emojiName + ":";
        }
        TextMeans(m);
        PiecesStep(sorted, rows, row, col, b);
        b := b + " " + courseName + " | " + emojiStr + " |";
        if col < COLS - 1 { b := b + "   |"; }
      }
      NoPieces(sorted, rows, row, b);
      assert lines[..2 + row + 1] == lines[..2 + row] + [RowText(sorted, rows, row)];
      WithNewlinesSnoc(lines[..2 + row], RowText(sorted, rows, row));
      b := b + "\n";
      assert b == start + RowText(sorted, rows, row) + "\n";
    }
    assert lines[..2 + rows] == lines;
    text := TrimNewlines(b);
  }

  lemma HeaderLines()
    ensures WithNewlines([HEADER, RULE]) == HEADER + "\n" + RULE + "\n"
  {
    WithNewlinesSnoc([HEADER], RULE);
    WithNewlinesSnoc([], HEADER);
    assert [] + [HEADER] == [HEADER] && [HEADER] + [RULE] == [HEADER, RULE];
    assert WithNewlines([]) + HEADER + "\n" == HEADER + "\n";
  }

  lemma SameEmptiness(lower: char -> char, mappings: seq<Mapping>, sorted: seq<Mapping>)
    requires SortedCopy(lower, mappings, sorted)
    ensures |mappings| == |sorted|
  {
    assert |multiset(sorted)| == |multiset(mappings)|;
  }

  lemma CellMeans(sorted: seq<Mapping>, rows: nat, row: nat, col: nat)
    ensures var i := col * rows + row;
      CellAt(sorted, rows, row, col) == if i < |sorted| then sorted[i] else Mapping("", "")
  {
  }

  lemma TextMeans(m: Mapping)
    ensures m.shortName != "" ==> CourseText(m) == EscapeMarkdown(m.shortName) && EmojiText(m) == ":" + m.emojiName + ":"
    ensures m.shortName == "" ==> CourseText(m) == "" && EmojiText(m) == ""
  {
  }

  lemma NoPieces(sorted: seq<Mapping>, rows: nat, row: nat, b: string)
    ensures b + WithPipes(Pieces(sorted, rows, row, COLS)) == b
  {
  }

  // ---- Reading back ----

  /** The pieces of `s[i..]` between separators at the indices that `cut` accepts. */
  function SplitAt(s: string, i: nat, from: nat, cut: (string, nat) -> bool): seq<string>
    requires i <= from <= |s|
    decreases |s| - from
  {
    if from == |s| then [s[i..]]
    else if cut(s, from) then [s[i..from]] + SplitAt(s, from + 1, from + 1, cut)
    else SplitAt(s, i, from + 1, cut)
  }

  predicate NewlineAt(s: string, i: nat) {
    i < |s| && s[i] == '\n'
  }

  /** A pipe that no backslash precedes. */
  predicate PipeAt(s: string, i: nat) {
    i < |s| && s[i] == '|' && (i == 0 || s[i - 1] != '\\')
  }

  function Lines(text: string): seq<string> {
    SplitAt(text, 0, 0, NewlineAt)
  }

  function Cells(line: string): seq<string> {
    SplitAt(line, 0, 0, PipeAt)
  }

  function Strip(cell: string, n: nat): string {
    if 2 * n <= |cell| then cell[n..|cell| - n] else ""
  }

  /** The mapping in column group `col` of a line; a blank course cell means there is none. */
  function ReadCell(line: string, col: nat): Mapping {
    var cells := Cells(line);
    if 3 * col + 2 < |cells| then
      Mapping(Unescaped(Strip(cells[3 * col + 1], 1)), Strip(cells[3 * col + 2], 2))
    else Mapping("", "")
  }

  function ReadFrom(lines: seq<string>, rows: nat, i: nat): seq<Mapping>
    requires |lines| == rows + 2 && i <= COLS * rows
    decreases COLS * rows - i
  {
    if i == COLS * rows then []
    else
      var m := ReadCell(lines[2 + i % rows], i / rows);
      if m.shortName == "" then ReadFrom(lines, rows, i + 1) else [m] + ReadFrom(lines, rows, i + 1)
  }

  /** All mappings of a table text: its columns from left to right, each from top to bottom, blanks left out. */
  function ReadTable(text: string): seq<Mapping> {
    var lines := Lines(text);
    if |lines| < 2 then [] else ReadFrom(lines, |lines| - 2, 0)
  }

  // ---- Splitting what was joined ----

  /** No separator cuts inside `s[i..k]`: the next cut is looked for from `k` on. */
  lemma {:induction false} SplitSkips(s: string, i: nat, from: nat, k: nat, cut: (string, nat) -> bool)
    requires i <= from <= k <= |s| && forall p :: from <= p < k ==> !cut(s, p)
    ensures SplitAt(s, i, from, cut) == SplitAt(s, i, k, cut)
    decreases k - from
  {
    if from < k { SplitSkips(s, i, from + 1, k, cut); }
  }

  /** A piece that pipes enclose: its own pipes are escaped and it does not end in a backslash. */
  predicate Enclosed(piece: string) {
    && (forall p :: 0 <= p < |piece| && piece[p] == '|' ==> 0 < p && piece[p - 1] == '\\')
    && (piece != "" ==> piece[|piece| - 1] != '\\')
  }

  lemma PieceCut(s: string, i: nat, piece: string)
    requires At(s, i, piece + "|") && Enclosed(piece) && (0 < i ==> s[i - 1] == '|')
    ensures SplitAt(s, i, i, PipeAt) == [piece] + SplitAt(s, i + |piece| + 1, i + |piece| + 1, PipeAt)
  {
    AtConcat(s, i, piece, "|");
    var k := i + |piece|;
    assert s[k] == '|';
    forall p | i <= p < k ensures !PipeAt(s, p) {
      assert s[p] == piece[p - i];
      if s[p] == '|' { assert s[p - 1] == piece[p - 1 - i]; }
    }
    SplitSkips(s, i, i, k, PipeAt);
    if piece != "" { assert s[k - 1] == piece[|piece| - 1]; }
    assert PipeAt(s, k);
    assert s[i..k] == piece;
  }

  lemma {:induction false} SplitWithPipes(s: string, i: nat, pieces: seq<string>)
    requires At(s, i, WithPipes(pieces)) && i + |WithPipes(pieces)| == |s|
    requires forall k :: 0 <= k < |pieces| ==> Enclosed(pieces[k])
    requires 0 < i ==> s[i - 1] == '|'
    ensures SplitAt(s, i, i, PipeAt) == pieces + [""]
    decreases |pieces|
  {
    hide Enclosed, PipeAt, At;
    if pieces == [] {
      assert s[i..] == "";
      assert pieces + [""] == [""];
    } else {
      var n := i + |pieces[0]| + 1;
      AtConcat(s, i, pieces[0] + "|", WithPipes(pieces[1..]));
      PieceCut(s, i, pieces[0]);
      AtLast(s, i, pieces[0], '|');
      SplitWithPipes(s, n, pieces[1..]);
      assert pieces == [pieces[0]] + pieces[1..];
    }
  }

  lemma AtLast(s: string, i: nat, t: string, c: char)
    requires At(s, i, t + [c])
    ensures i + |t| < |s| && s[i + |t|] == c
  {
  }

  predicate NoNewline(s: string) {
    '\n' !in s
  }

  /** Lines joined by newlines, with the last newline trimmed off. */
  lemma {:induction false} SplitJoinedLines(s: string, i: nat, lines: seq<string>)
    requires lines != [] && At(s, i, WithNewlines(lines)[..|WithNewlines(lines)| - 1])
    requires i + |WithNewlines(lines)| - 1 == |s|
    requires forall k :: 0 <= k < |lines| ==> NoNewline(lines[k])
    ensures SplitAt(s, i, i, NewlineAt) == lines
    decreases |lines|
  {
    var line, rest := lines[0], lines[1..];
    var k := i + |line|;
    if rest == [] {
      assert WithNewlines(lines) == line + "\n" + "";
      assert WithNewlines(lines)[..|WithNewlines(lines)| - 1] == line;
      forall p | i <= p < k ensures !NewlineAt(s, p) { assert s[p] == line[p - i]; }
      SplitSkips(s, i, i, k, NewlineAt);
      assert s[i..] == line;
      assert lines == [line];
    } else {
      var w := WithNewlines(rest);
      NonEmptyLines(rest);
      assert WithNewlines(lines)[..|WithNewlines(lines)| - 1] == line + ("\n" + w[..|w| - 1]);
      AtConcat(s, i, line, "\n" + w[..|w| - 1]);
      AtConcat(s, k, "\n", w[..|w| - 1]);
      LineCut(s, i, line);
      SplitJoinedLines(s, k + 1, rest);
      assert lines == [line] + rest;
    }
  }

  lemma LineCut(s: string, i: nat, line: string)
    requires At(s, i, line) && At(s, i + |line|, "\n") && NoNewline(line)
    ensures SplitAt(s, i, i, NewlineAt) == [line] + SplitAt(s, i + |line| + 1, i + |line| + 1, NewlineAt)
  {
    var k := i + |line|;
    assert s[k] == '\n';
    forall p | i <= p < k ensures !NewlineAt(s, p) { assert s[p] == line[p - i]; }
    SplitSkips(s, i, i, k, NewlineAt);
    assert s[i..k] == line;
  }

  lemma NonEmptyLines(lines: seq<string>)
    requires lines != []
    ensures WithNewlines(lines) != ""
  {
  }

  lemma {:induction false} TrimOneNewline(lines: seq<string>)
    requires lines != []
    requires forall k :: 0 <= k < |lines| ==> lines[k] != "" && NoNewline(lines[k])
    ensures var w := WithNewlines(lines); w != "" && TrimNewlines(w) == w[..|w| - 1]
  {
    var n := |lines| - 1;
    assert lines == lines[..n] + [lines[n]];
    WithNewlinesSnoc(lines[..n], lines[n]);
    var w := WithNewlines(lines);
    assert w[..|w| - 1] == WithNewlines(lines[..n]) + lines[n];
    assert w[..|w| - 1][|w| - 2] == lines[n][|lines[n]| - 1];
  }

  // ---- The round trip ----

  predicate Readable(m: Mapping) {
    && m.shortName != "" && NoNewline(m.shortName)
    && NoNewline(m.emojiName) && forall p :: 0 <= p < |m.emojiName| ==> m.emojiName[p] != '|'
  }

  lemma {:induction false} EscapedPipes(s: string)
    ensures forall p :: 0 <= p < |Escaped(s)| && Escaped(s)[p] == '|' ==> 0 < p && Escaped(s)[p - 1] == '\\'
    ensures NoNewline(s) ==> NoNewline(Escaped(s))
  {
    if s != "" {
      EscapedPipes(s[1..]);
      var head := if Special(s[0]) then ['\\', s[0]] else [s[0]];
      var e, rest := Escaped(s), Escaped(s[1..]);
      assert e == head + rest;
      forall p | 0 <= p < |e| && e[p] == '|' ensures 0 < p && e[p - 1] == '\\' {
        if |head| <= p { assert rest[p - |head|] == '|'; }
      }
      if NoNewline(s) {
        assert NoNewline(s[1..]) && s[0] != '\n';
        forall p | 0 <= p < |e| ensures e[p] != '\n' {
          if |head| <= p { assert e[p] == rest[p - |head|]; }
        }
      }
    }
  }

  /** The two cells of a mapping are enclosed, newline-free, and read back. */
  lemma CellRoundTrip(m: Mapping)
    requires Readable(m) || m == Mapping("", "")
    ensures var c, e := " " + CourseText(m) + " ", " " + EmojiText(m) + " ";
      && Enclosed(c) && Enclosed(e) && NoNewline(c) && NoNewline(e)
      && Mapping(Unescaped(Strip(c, 1)), Strip(e, 2)) == m
  {
    hide Escaped, Unescaped, EscapeMarkdown;
    var c, e := " " + CourseText(m) + " ", " " + EmojiText(m) + " ";
    if m.shortName != "" {
      EscapeIsOnePass(m.shortName);
      EscapedPipes(m.shortName);
      UnescapeEscaped(m.shortName);
      var t := Escaped(m.shortName);
      assert c[1..|c| - 1] == t;
      forall p | 0 <= p < |c| && c[p] == '|' ensures 0 < p && c[p - 1] == '\\' {
        assert c[p] == t[p - 1];
      }
      assert e == " :" + m.emojiName + ": ";
      assert e[2..|e| - 2] == m.emojiName;
    } else {
      assert c == "  " && e == "  ";
      UnescapeEscaped("");
      assert Escaped("") == "" by { NothingEscaped(); }
    }
  }

  lemma NothingEscaped()
    ensures Escaped("") == "" && Unescaped("") == ""
  {
  }

  predicate AllReadable(sorted: seq<Mapping>) {
    forall i :: 0 <= i < |sorted| ==> Readable(sorted[i])
  }

  function CellPieces(m: Mapping): seq<string> {
    [" " + CourseText(m) + " ", " " + EmojiText(m) + " "]
  }

  lemma PiecesOfRow(sorted: seq<Mapping>, rows: nat, row: nat)
    ensures Pieces(sorted, rows, row, 0)
      == CellPieces(CellAt(sorted, rows, row, 0)) + ["   "]
         + (CellPieces(CellAt(sorted, rows, row, 1)) + ["   "] + CellPieces(CellAt(sorted, rows, row, 2)))
  {
  }

  lemma PiecesRead(sorted: seq<Mapping>, rows: nat, row: nat, col: nat)
    requires AllReadable(sorted) && col < COLS
    ensures |Pieces(sorted, rows, row, 0)| == 3 * COLS - 1
    ensures forall k :: 0 <= k < |Pieces(sorted, rows, row, 0)| ==>
      Enclosed(Pieces(sorted, rows, row, 0)[k]) && NoNewline(Pieces(sorted, rows, row, 0)[k])
    ensures Pieces(sorted, rows, row, 0)[3 * col..3 * col + 2] == CellPieces(CellAt(sorted, rows, row, col))
  {
    hide CourseText, EmojiText, Enclosed, NoNewline, Readable, CellAt, Pieces;
    PiecesOfRow(sorted, rows, row);
    forall j | 0 <= j < COLS ensures forall k :: 0 <= k < 2 ==>
      Enclosed(CellPieces(CellAt(sorted, rows, row, j))[k]) && NoNewline(CellPieces(CellAt(sorted, rows, row, j))[k])
    {
      CellReadable(sorted, rows, row, j);
      CellRoundTrip(CellAt(sorted, rows, row, j));
    }
    SpacesEnclosed();
  }

  lemma CellReadable(sorted: seq<Mapping>, rows: nat, row: nat, col: nat)
    requires AllReadable(sorted)
    ensures Readable(CellAt(sorted, rows, row, col)) || CellAt(sorted, rows, row, col) == Mapping("", "")
  {
  }

  lemma SpacesEnclosed()
    ensures Enclosed("   ") && NoNewline("   ")
  {
  }

  lemma {:induction false} PipesNoNewline(pieces: seq<string>)
    requires forall k :: 0 <= k < |pieces| ==> NoNewline(pieces[k])
    ensures NoNewline(WithPipes(pieces))
  {
    if pieces != [] {
      PipesNoNewline(pieces[1..]);
      assert NoNewline(pieces[0]);
    }
  }

  /** Splitting one row on its unescaped pipes and undoing the escapes gives the entry of each column group. */
  lemma RowRead(sorted: seq<Mapping>, rows: nat, row: nat, col: nat)
    requires AllReadable(sorted) && col < COLS
    ensures ReadCell(RowText(sorted, rows, row), col) == CellAt(sorted, rows, row, col)
    ensures RowText(sorted, rows, row) != "" && NoNewline(RowText(sorted, rows, row))
    ensures 3 * col + 2 < |Cells(RowText(sorted, rows, row))|
    ensures Cells(RowText(sorted, rows, row))[3 * col + 1] == CellPieces(CellAt(sorted, rows, row, col))[0]
    ensures Cells(RowText(sorted, rows, row))[3 * col + 2] == CellPieces(CellAt(sorted, rows, row, col))[1]
  {
    hide Pieces, CellAt, CourseText, EmojiText, Enclosed, Unescaped, Strip, WithPipes, Readable;
    var pieces := Pieces(sorted, rows, row, 0);
    var s := RowText(sorted, rows, row);
    PiecesRead(sorted, rows, row, col);
    PipesNoNewline(pieces);
    var m := CellAt(sorted, rows, row, col);
    CellReadable(sorted, rows, row, col);
    CellRoundTrip(m);
    AtWhole(s);
    AtConcat(s, 0, "|", WithPipes(pieces));
    assert s[0] == '|';
    PieceCut(s, 0, "") by { NothingEnclosed(); }
    SplitWithPipes(s, 1, pieces);
    assert Cells(s) == [""] + (pieces + [""]);
    assert pieces[3 * col] == pieces[3 * col..3 * col + 2][0] && pieces[3 * col + 1] == pieces[3 * col..3 * col + 2][1];
    assert Cells(s)[3 * col + 1] == pieces[3 * col];
    assert Cells(s)[3 * col + 2] == pieces[3 * col + 1];
  }

  lemma NothingEnclosed()
    ensures Enclosed("") && "" + "|" == "|"
  {
  }

  lemma JoinedNoNewline(a: string, b: string, c: string)
    requires NoNewline(a) && NoNewline(b) && NoNewline(c)
    ensures NoNewline(a + b + c)
  {
  }

  lemma HeaderNoNewline()
    ensures HEADER != "" && NoNewline(HEADER) && RULE != "" && NoNewline(RULE)
  {
    JoinedNoNewline("| Course | Emoji |", "   | Course | Emoji |", "   | Course | Emoji |");
    JoinedNoNewline("| --- | --- |", " --- | --- | --- |", " --- | --- | --- |");
  }

  lemma LinesOfTable(sorted: seq<Mapping>)
    requires AllReadable(sorted)
    ensures Lines(TrimNewlines(WithNewlines(TableLines(sorted)))) == TableLines(sorted)
  {
    hide RowText, NoNewline, WithNewlines, TrimNewlines, At, AllReadable;
    var lines := TableLines(sorted);
    HeaderNoNewline();
    var rows := RowCount(|sorted|);
    forall k | 0 <= k < |lines| ensures lines[k] != "" && NoNewline(lines[k]) {
      if 2 <= k {
        assert lines[k] == RowText(sorted, rows, k - 2);
        RowRead(sorted, rows, k - 2, 0);
      }
    }
    TrimOneNewline(lines);
    var w := WithNewlines(lines);
    AtWhole(w[..|w| - 1]);
    SplitJoinedLines(w[..|w| - 1], 0, lines);
  }

  lemma IndexParts(i: nat, rows: nat)
    requires i < COLS * rows
    ensures i % rows < rows && i / rows < COLS && (i / rows) * rows + i % rows == i
  {
  }

  lemma LineOfRow(sorted: seq<Mapping>, row: nat, col: nat)
    requires AllReadable(sorted) && row < RowCount(|sorted|) && col < COLS
    ensures var rows := RowCount(|sorted|);
      && |TableLines(sorted)| == rows + 2
      && TableLines(sorted)[2 + row] == RowText(sorted, rows, row)
      && ReadCell(TableLines(sorted)[2 + row], col) == CellAt(sorted, rows, row, col)
  {
    hide RowText, CellAt, RowCount, ReadCell, Cells, CellPieces, NoNewline, Readable, AllReadable;
    RowRead(sorted, RowCount(|sorted|), row, col);
  }

  lemma TextsOfEntry(m: Mapping)
    requires Readable(m)
    ensures CellPieces(m) == [" " + Escaped(m.shortName) + " ", " :" + m.emojiName + ": "]
  {
    EscapeIsOnePass(m.shortName);
    hide EscapeMarkdown, Escaped;
    assert " " + (":" + m.emojiName + ":") + " " == " :" + m.emojiName + ": ";
  }

  /** What the two cells of entry i show: its escaped short name, and its emoji name between colons. */
  lemma EntryCells(sorted: seq<Mapping>, row: nat, col: nat)
    requires AllReadable(sorted) && row < RowCount(|sorted|) && col < COLS && col * RowCount(|sorted|) + row < |sorted|
    ensures var m := sorted[col * RowCount(|sorted|) + row];
      var cells := Cells(RowText(sorted, RowCount(|sorted|), row));
      && 3 * col + 2 < |cells|
      && cells[3 * col + 1] == " " + Escaped(m.shortName) + " "
      && cells[3 * col + 2] == " :" + m.emojiName + ": "
  {
    hide RowText, Cells, Escaped, CellPieces, RowCount, CellAt, Readable;
    var rows := RowCount(|sorted|);
    RowRead(sorted, rows, row, col);
    CellMeans(sorted, rows, row, col);
    TextsOfEntry(sorted[col * rows + row]);
  }

  lemma {:induction false} ReadColumns(sorted: seq<Mapping>, rows: nat, i: nat)
    requires AllReadable(sorted) && rows == RowCount(|sorted|) && i <= COLS * rows
    requires |TableLines(sorted)| == rows + 2
    ensures ReadFrom(TableLines(sorted), rows, i) == if i <= |sorted| then sorted[i..] else []
    decreases COLS * rows - i
  {
    hide ReadCell, RowText, RowCount, TableLines, CellAt;
    if i < COLS * rows {
      IndexParts(i, rows);
      LineOfRow(sorted, i % rows, i / rows);
      CellMeans(sorted, rows, i % rows, i / rows);
      ReadColumns(sorted, rows, i + 1);
      if i < |sorted| { assert sorted[i..] == [sorted[i]] + sorted[i + 1..]; }
    } else {
      RowsSuffice(|sorted|);
    }
  }

  lemma RowsSuffice(n: nat)
    ensures n <= COLS * RowCount(n)
  {
  }

  /** The table can be read back: the mappings come out in their sorted order, entry i from column group i / rows of
      row i mod rows, each once, and every other cell is blank. */
  lemma {:induction false} TableReadBack(sorted: seq<Mapping>)
    requires AllReadable(sorted)
    ensures var text := TrimNewlines(WithNewlines(TableLines(sorted)));
      var rows := RowCount(|sorted|);
      && ReadTable(text) == sorted
      && |Lines(text)| == rows + 2
      && Lines(text)[0] == "| Course | Emoji |" + "   | Course | Emoji |" + "   | Course | Emoji |"
      && Lines(text)[1] == "| --- | --- |" + " --- | --- | --- |" + " --- | --- | --- |"
      && forall row, col {:trigger ReadCell(Lines(text)[2 + row], col)} :: 0 <= row < rows && 0 <= col < COLS ==>
           ReadCell(Lines(text)[2 + row], col)
           == if col * rows + row < |sorted| then sorted[col * rows + row] else Mapping("", "")
  {
    hide ReadCell, RowText, WithNewlines, TrimNewlines, Lines, Readable, RowCount, CellAt, ReadFrom, TableLines,
      AllReadable;
    var rows := RowCount(|sorted|);
    var lines := TableLines(sorted);
    LinesOfTable(sorted);
    LineCount(sorted);
    ReadColumns(sorted, rows, 0);
    assert sorted[0..] == sorted;
    forall row, col {:trigger ReadCell(lines[2 + row], col)} | 0 <= row < rows && 0 <= col < COLS
      ensures ReadCell(lines[2 + row], col)
        == if col * rows + row < |sorted| then sorted[col * rows + row] else Mapping("", "")
    {
      LineOfRow(sorted, row, col);
      CellMeans(sorted, rows, row, col);
    }
  }

  lemma LineCount(sorted: seq<Mapping>)
    ensures |TableLines(sorted)| == RowCount(|sorted|) + 2
    ensures TableLines(sorted)[0] == HEADER && TableLines(sorted)[1] == RULE
  {
  }

  /** What the table rendered for some mappings reads back as: the same mappings, each as often, ordered by lower-cased
      short name and then by emoji name. */
  lemma RenderedReadsBack(lower: char -> char, mappings: seq<Mapping>, sorted: seq<Mapping>)
    requires AllReadable(mappings) && SortedCopy(lower, mappings, sorted)
    ensures var read := ReadTable(TrimNewlines(WithNewlines(TableLines(sorted))));
      && multiset(read) == multiset(mappings)
      && forall i, j :: 0 <= i < j < |read| ==>
           var x, y := ToLower(lower, read[i].shortName), ToLower(lower, read[j].shortName);
           !LexLess(y, x) && (x == y ==> !LexLess(read[j].emojiName, read[i].emojiName))
  {
    forall i | 0 <= i < |sorted|
      ensures Readable(sorted[i])
    {
      assert sorted[i] in multiset(sorted);
      assert sorted[i] in mappings;
    }
    hide ReadTable, TrimNewlines, WithNewlines, TableLines, Readable, LexLess, ToLower;
    TableReadBack(sorted);
  }
}
