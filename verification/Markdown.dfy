/** The markdown writer (pkg/clifmt/markdown.go over pkg/clifmt/doc.go): blocks written one after the
    other, tables as GFM pipe tables.

    A table must survive any cell text. Here a reader splits each written line at its unescaped pipes
    and gets the escaped cells back, one line is one row, and no table ever runs into what follows it,
    at any nesting. */
module Markdown {
  import opened Base
  import opened Docs

  // ---- one table row ----------------------------------------------------------------------------------------

  /** strings.ReplaceAll of the character c. */
  function ReplaceChar(c: char, with: string, s: string): string {
    if s == "" then "" else (if s[0] == c then with else [s[0]]) + ReplaceChar(c, with, s[1..])
  }

  function EscapeCell(s: string): string {
    ReplaceChar('\n', "<br>", ReplaceChar('|', "\\|", s))
  }

  function RowLine(cells: seq<string>): string {
    "| " + Join(" | ", Map(EscapeCell, cells)) + " |"
  }

  /** The pieces of line between its delimiting pipes: those no backslash comes right before. */
  function Cut(line: string, before: char, piece: string): seq<string> {
    if line == "" then [piece]
    else if line[0] == '|' && before != '\\' then [piece] + Cut(line[1..], '|', "")
    else Cut(line[1..], line[0], piece + [line[0]])
  }

  function Pieces(line: string): seq<string> { Cut(line, ' ', "") }

  /** Every pipe of s, read after the character before, has a backslash right before it. */
  predicate Guarded(s: string, before: char) {
    s == "" || ((s[0] == '|' ==> before == '\\') && Guarded(s[1..], s[0]))
  }

  function LastOf(s: string, before: char): char {
    if s == "" then before else s[|s| - 1]
  }

  lemma {:induction false} GuardedConcat(a: string, b: string, before: char)
    requires Guarded(a, before) && Guarded(b, LastOf(a, before))
    ensures Guarded(a + b, before)
  {
    if a == "" {
      assert a + b == b;
    } else {
      assert (a + b)[1..] == a[1..] + b;
      GuardedConcat(a[1..], b, a[0]);
    }
  }

  lemma {:induction false} NoPipes(s: string, before: char)
    requires '|' !in s
    ensures Guarded(s, before)
  {
    if s != "" {
      NoPipes(s[1..], s[0]);
    }
  }

  lemma {:induction false} CutGuarded(s: string, rest: string, before: char, piece: string)
    requires Guarded(s, before)
    ensures Cut(s + rest, before, piece) == Cut(rest, LastOf(s, before), piece + s)
  {
    if s == "" {
      assert s + rest == rest && piece + s == piece;
    } else {
      assert (s + rest)[1..] == s[1..] + rest;
      CutGuarded(s[1..], rest, s[0], piece + [s[0]]);
      assert (piece + [s[0]]) + s[1..] == piece + s;
    }
  }

  lemma {:induction false} ReplacePipes(s: string, before: char)
    ensures Guarded(ReplaceChar('|', "\\|", s), before)
  {
    if s != "" {
      var head := if s[0] == '|' then "\\|" else [s[0]];
      ReplacePipes(s[1..], LastOf(head, before));
      assert "\\|"[1..] == "|" && "|"[1..] == "";
      GuardedConcat(head, ReplaceChar('|', "\\|", s[1..]), before);
    }
  }

  /** A newline is no backslash, so no pipe comes right after it. */
  lemma {:induction false} ReplaceNewlines(s: string, before: char)
    requires Guarded(s, before)
    ensures Guarded(ReplaceChar('\n', "<br>", s), before)
    ensures '\n' !in ReplaceChar('\n', "<br>", s)
  {
    if s != "" {
      var head := if s[0] == '\n' then "<br>" else [s[0]];
      var last := LastOf(head, before);
      assert Guarded(s[1..], last);
      ReplaceNewlines(s[1..], last);
      if s[0] == '\n' {
        NoPipes(head, before);
      }
      GuardedConcat(head, ReplaceChar('\n', "<br>", s[1..]), before);
    }
  }

  /** An escaped cell holds no delimiting pipe and no line break. */
  lemma CellIsGuarded(s: string)
    ensures Guarded(EscapeCell(s), ' ') && '\n' !in EscapeCell(s)
  {
    ReplacePipes(s, ' ');
    ReplaceNewlines(ReplaceChar('|', "\\|", s), ' ');
  }

  /** A cell as it stands between two delimiters. */
  function Padded(s: string): string { " " + EscapeCell(s) + " " }

  lemma PaddedIsGuarded(s: string)
    ensures Guarded(Padded(s), '|') && LastOf(Padded(s), '|') == ' ' && '\n' !in Padded(s)
  {
    CellIsGuarded(s);
    assert " "[1..] == "";
    GuardedConcat(" ", EscapeCell(s), '|');
    GuardedConcat(" " + EscapeCell(s), " ", '|');
  }

  /** Each cell padded, then a pipe. */
  function Closed(cells: seq<string>): string {
    if cells == [] then "" else Padded(cells[0]) + "|" + Closed(cells[1..])
  }

  lemma {:induction false} RowLineIsClosed(cells: seq<string>)
    requires cells != []
    ensures " " + Join(" | ", Map(EscapeCell, cells)) + " |" == Closed(cells)
  {
    var escaped := Map(EscapeCell, cells);
    if |cells| == 1 {
      assert Closed(cells[1..]) == "";
    } else {
      assert escaped[1..] == Map(EscapeCell, cells[1..]);
      RowLineIsClosed(cells[1..]);
    }
  }

  lemma {:induction false} CutClosed(cells: seq<string>)
    ensures Cut(Closed(cells), '|', "") == Map(Padded, cells) + [""]
  {
    if cells == [] {
    } else {
      var rest := "|" + Closed(cells[1..]);
      assert Closed(cells) == Padded(cells[0]) + rest;
      PaddedIsGuarded(cells[0]);
      CutGuarded(Padded(cells[0]), rest, '|', "");
      assert "" + Padded(cells[0]) == Padded(cells[0]);
      assert rest[1..] == Closed(cells[1..]);
      CutClosed(cells[1..]);
      assert Map(Padded, cells) == [Padded(cells[0])] + Map(Padded, cells[1..]);
    }
  }

  /** Splitting a written row at its delimiting pipes recovers the escaped cells, in order, each
      between its two spaces. */
  lemma RowReadsBack(cells: seq<string>)
    requires cells != []
    ensures Pieces(RowLine(cells)) == [""] + Map(Padded, cells) + [""]
  {
    RowLineIsClosed(cells);
    assert RowLine(cells) == "|" + Closed(cells);
    assert ("|" + Closed(cells))[1..] == Closed(cells);
    CutClosed(cells);
  }

  lemma {:induction false} ClosedIsOneLine(cells: seq<string>)
    ensures '\n' !in Closed(cells)
  {
    if cells != [] {
      PaddedIsGuarded(cells[0]);
      ClosedIsOneLine(cells[1..]);
    }
  }

  /** A row is one line, whatever its cells hold. */
  lemma RowIsOneLine(cells: seq<string>)
    ensures '\n' !in RowLine(cells)
  {
    if cells == [] {
      assert RowLine(cells) == "|  |";
    } else {
      RowLineIsClosed(cells);
      ClosedIsOneLine(cells);
      assert RowLine(cells) == "|" + Closed(cells);
    }
  }

  // ---- a document ---------------------------------------------------------------------------------------------

  /** One write: a table line (first when it is a table's header), the blank line between blocks, a
      heading, or any other text; each ends its last line. */
  datatype Chunk = Row(line: string, first: bool) | Blank | Title(title: string, level: nat) | Text(s: string)

  function HeadingLine(title: string, level: nat): string {
    seq(level, i => '#') + " " + title
  }

  /** What a write puts on the stream, up to the newline that ends it. */
  function Body(c: Chunk): string {
    match c
    case Row(line, _) => line
    case Blank => ""
    case Title(title, level) => HeadingLine(title, level) + "\n"
    case Text(s) => s
  }

  function Written(c: Chunk): string { Body(c) + "\n" }

  /** The text of a run of writes. */
  function TextOf(out: seq<Chunk>): string { Flatten(Map(Written, out)) }

  predicate IsLine(b: Block) { b.Field? || b.Para? }

  function NextLevel(level: nat): nat { if level >= 6 then 6 else level + 1 }

  function Separators(columns: seq<string>): seq<string> {
    seq(|columns|, i => "---")
  }

  function RowChunks(rows: seq<seq<string>>): (r: seq<Chunk>)
    ensures |r| == |rows|
    ensures forall i | 0 <= i < |rows| :: r[i] == Row(RowLine(rows[i]), false)
  {
    seq(|rows|, i requires 0 <= i < |rows| => Row(RowLine(rows[i]), false))
  }

  function TableChunks(columns: seq<string>, rows: seq<seq<string>>): seq<Chunk> {
    [Row(RowLine(columns), true), Row("| " + Join(" | ", Separators(columns)) + " |", false)] + RowChunks(rows)
  }

  function ItemChunks(items: seq<string>): (r: seq<Chunk>)
    ensures |r| == |items| && forall i | 0 <= i < |items| :: r[i] == Text("- " + items[i])
  {
    seq(|items|, i requires 0 <= i < |items| => Text("- " + items[i]))
  }

  function BlockChunks(b: Block, level: nat): seq<Chunk>
    decreases b, 1
  {
    match b
    case Field(caption, value) => [Text("**" + caption + ":** " + value)]
    case Para(text) => [Text(text)]
    case Section(title, body) => [Title(title, level)] + DocChunks(body, NextLevel(level))
    case Table(title, columns, rows) =>
      (if title != "" then [Title(title, level)] else []) + TableChunks(columns, rows)
    case List(title, items) =>
      (if title != "" then [Title(title, level)] else []) + ItemChunks(items)
  }

  function DocChunks(doc: Doc, level: nat): seq<Chunk>
    decreases doc, 0
  {
    if doc == [] then []
    else
      var k := |doc| - 1;
      DocChunks(doc[..k], level) + Gap(doc, k) + BlockChunks(doc[k], level)
  }

  /** The blank line before block k, unless it and the one before are single lines. */
  function Gap(doc: Doc, k: nat): seq<Chunk>
    requires k < |doc|
  {
    if k > 0 && (!IsLine(doc[k - 1]) || !IsLine(doc[k])) then [Blank] else []
  }

  lemma OneMoreBlock(doc: Doc, i: nat, level: nat, before: seq<Chunk>)
    requires i < |doc|
    ensures ((before + DocChunks(doc[..i], level)) + Gap(doc, i)) + BlockChunks(doc[i], level)
         == before + DocChunks(doc[..i + 1], level)
  {
    assert doc[..i + 1][..i] == doc[..i];
    assert Gap(doc[..i + 1], i) == Gap(doc, i);
  }

  lemma OneMoreRow(start: seq<Chunk>, rows: seq<seq<string>>, i: nat)
    requires i < |rows|
    ensures (start + RowChunks(rows[..i])) + [Row(RowLine(rows[i]), false)] == start + RowChunks(rows[..i + 1])
  {
    assert RowChunks(rows[..i + 1]) == RowChunks(rows[..i]) + [Row(RowLine(rows[i]), false)];
  }

  /** How many pieces a row of n cells cuts into; a row of none is read as one empty cell. */
  function PieceCount(n: nat): nat { if n == 0 then 3 else n + 2 }

  lemma PiecesCounted(cells: seq<string>)
    ensures |Pieces(RowLine(cells))| == PieceCount(|cells|)
  {
    if cells == [] {
      var line := "|  |";
      assert RowLine(cells) == line;
      assert line[1..] == "  |" && line[1..][1..] == " |" && line[1..][1..][1..] == "|" && "|"[1..] == "";
      assert Cut("|", ' ', "  ") == ["  "] + Cut("", '|', "");
      assert Cut(" |", ' ', " ") == Cut("|", ' ', " " + " ");
      assert Cut("  |", '|', "") == Cut(" |", ' ', "" + " ");
      assert "" + " " == " " && " " + " " == "  ";
      assert Pieces(line) == [""] + (["  "] + [""]);
    } else {
      RowReadsBack(cells);
    }
  }

  lemma {:induction false} Unescaped(s: string)
    requires '|' !in s && '\n' !in s
    ensures EscapeCell(s) == s
  {
    NothingReplaced('|', "\\|", s);
    NothingReplaced('\n', "<br>", s);
  }

  lemma {:induction false} NothingReplaced(c: char, with: string, s: string)
    requires c !in s
    ensures ReplaceChar(c, with, s) == s
  {
    if s != "" {
      NothingReplaced(c, with, s[1..]);
      assert s[0] in s;
    }
  }

  lemma SeparatorIsRow(columns: seq<string>)
    ensures "| " + Join(" | ", Separators(columns)) + " |" == RowLine(Separators(columns))
  {
    Unescaped("---");
    assert Map(EscapeCell, Separators(columns)) == Separators(columns);
  }

  /** Rows as long as the header make lines that cut into as many pieces as it and its separator do. */
  lemma TableLinesAlign(columns: seq<string>, rows: seq<seq<string>>)
    requires forall i | 0 <= i < |rows| :: |rows[i]| == |columns|
    ensures forall c | c in TableChunks(columns, rows) :: c.Row? && |Pieces(c.line)| == PieceCount(|columns|)
  {
    PiecesCounted(columns);
    SeparatorIsRow(columns);
    PiecesCounted(Separators(columns));
    forall i | 0 <= i < |rows| ensures |Pieces(RowLine(rows[i]))| == PieceCount(|columns|) {
      PiecesCounted(rows[i]);
    }
  }

  /** The writer as it runs: a stream that writes append to. */
  class Writer {
    var out: seq<Chunk>

    constructor ()
      ensures out == []
    {
      out := [];
    }

    method WriteTable(columns: seq<string>, rows: seq<seq<string>>)
      modifies this
      ensures out == old(out) + TableChunks(columns, rows)
    {
      out := out + [Row(RowLine(columns), true)];
      out := out + [Row("| " + Join(" | ", Separators(columns)) + " |", false)];
      ghost var start := out;
      for i := 0 to |rows|
        invariant out == start + RowChunks(rows[..i])
      {
        OneMoreRow(start, rows, i);
        out := out + [Row(RowLine(rows[i]), false)];
      }
      assert rows[..|rows|] == rows;
    }

    method WriteList(title: string, items: seq<string>, level: nat)
      modifies this
      ensures out == old(out) + BlockChunks(List(title, items), level)
    {
      if title != "" {
        out := out + [Title(title, level)];
      }
      ghost var start := out;
      for i := 0 to |items|
        invariant out == start + ItemChunks(items[..i])
      {
        assert ItemChunks(items[..i + 1]) == ItemChunks(items[..i]) + [Text("- " + items[i])];
        out := out + [Text("- " + items[i])];
      }
      assert items[..|items|] == items;
    }

    method WriteBlock(b: Block, level: nat)
      modifies this
      ensures out == old(out) + BlockChunks(b, level)
      decreases b, 1
    {
      match b
      case Field(caption, value) => out := out + [Text("**" + caption + ":** " + value)];
      case Para(text) => out := out + [Text(text)];
      case Section(title, body) =>
        out := out + [Title(title, level)];
        WriteDoc(body, NextLevel(level));
      case Table(title, columns, rows) => WriteTitledTable(title, columns, rows, level);
      case List(title, items) => WriteList(title, items, level);
    }

    method WriteTitledTable(title: string, columns: seq<string>, rows: seq<seq<string>>, level: nat)
      modifies this
      ensures out == old(out) + BlockChunks(Table(title, columns, rows), level)
    {
      if title != "" {
        out := out + [Title(title, level)];
      }
      WriteTable(columns, rows);
    }

    method WriteDoc(doc: Doc, level: nat)
      modifies this
      ensures out == old(out) + DocChunks(doc, level)
      decreases doc, 0
    {
      for i := 0 to |doc|
        invariant out == old(out) + DocChunks(doc[..i], level)
      {
        OneMoreBlock(doc, i, level, old(out));
        if i > 0 && (!IsLine(doc[i - 1]) || !IsLine(doc[i])) {
          out := out + [Blank];
        }
        WriteBlock(doc[i], level);
      }
      assert doc[..|doc|] == doc;
    }
  }

  /** A whole document, its outermost headings at level two. */
  method WriteMarkdown(doc: Doc) returns (text: string)
    ensures text == TextOf(DocChunks(doc, 2))
  {
    var w := new Writer();
    w.WriteDoc(doc, 2);
    assert [] + DocChunks(doc, 2) == DocChunks(doc, 2);
    text := TextOf(w.out);
  }

  /** What follows a table line is a further line of the same table, or a blank line. */
  ghost predicate TablesEnd(out: seq<Chunk>) {
    forall i | 0 <= i < |out| - 1 && out[i].Row? :: out[i + 1].Blank? || (out[i + 1].Row? && !out[i + 1].first)
  }

  ghost predicate EndsInRow(out: seq<Chunk>) { out != [] && out[|out| - 1].Row? }

  lemma TablesEndConcat(a: seq<Chunk>, b: seq<Chunk>)
    requires TablesEnd(a) && TablesEnd(b)
    requires EndsInRow(a) && b != [] ==> b[0].Blank? || (b[0].Row? && !b[0].first)
    ensures TablesEnd(a + b)
  {
    var out := a + b;
    forall i | 0 <= i < |out| - 1 && out[i].Row? ensures out[i + 1].Blank? || (out[i + 1].Row? && !out[i + 1].first) {
      if i >= |a| {
        assert out[i] == b[i - |a|] && out[i + 1] == b[i + 1 - |a|];
      }
    }
  }

  /** At any nesting, what is written after a table's last row is a blank line, if anything is. */
  lemma TableChunksEnd(doc: Doc, level: nat)
    ensures TablesEnd(DocChunks(doc, level))
    ensures doc != [] && EndsInRow(DocChunks(doc, level)) ==> !IsLine(doc[|doc| - 1]) || BlockChunks(doc[|doc| - 1], level) == []
    decreases doc, 0
  {
    if doc != [] {
      var k := |doc| - 1;
      TableChunksEnd(doc[..k], level);
      BlockEndsTables(doc[k], level);
      var front, block := DocChunks(doc[..k], level), BlockChunks(doc[k], level);
      var gap := Gap(doc, k);
      TablesEndConcat(front, gap);
      TablesEndConcat(front + gap, block);
    }
  }

  lemma BlockEndsTables(b: Block, level: nat)
    ensures TablesEnd(BlockChunks(b, level))
    ensures IsLine(b) ==> BlockChunks(b, level) != [] && !EndsInRow(BlockChunks(b, level))
    decreases b, 1
  {
    match b
    case Section(title, body) =>
      TableChunksEnd(body, NextLevel(level));
      TablesEndConcat([Title(title, level)], DocChunks(body, NextLevel(level)));
    case _ =>
  }

  // ---- the lines of the text ----------------------------------------------------------------------------------

  function LinesOf(c: Chunk): seq<string> { SplitOn('\n', Body(c)) }

  function Lines(out: seq<Chunk>): seq<string> { Flatten(Map(LinesOf, out)) }

  /** The line of the text that write i begins on. */
  function At(out: seq<Chunk>, i: nat): nat
    requires i <= |out|
  {
    |Lines(out[..i])|
  }

  lemma {:induction false} TextSplits(out: seq<Chunk>)
    ensures SplitOn('\n', TextOf(out)) == Lines(out) + [""]
  {
    if out != [] {
      var rest := out[1..];
      assert Map(Written, out)[1..] == Map(Written, rest) && Map(LinesOf, out)[1..] == Map(LinesOf, rest);
      TextSplits(rest);
      SplitConcat('\n', Body(out[0]), TextOf(rest));
      assert TextOf(out) == Body(out[0]) + "\n" + TextOf(rest);
      assert LinesOf(out[0]) + (Lines(rest) + [""]) == (LinesOf(out[0]) + Lines(rest)) + [""];
    }
  }

  lemma {:induction false} LinesConcat(a: seq<Chunk>, b: seq<Chunk>)
    ensures Lines(a + b) == Lines(a) + Lines(b)
  {
    if a == [] {
      assert a + b == b;
    } else {
      assert Map(LinesOf, a + b)[1..] == Map(LinesOf, a[1..] + b) && Map(LinesOf, a)[1..] == Map(LinesOf, a[1..]);
      assert (a + b)[0] == a[0] && (a + b)[1..] == a[1..] + b;
      LinesConcat(a[1..], b);
      assert LinesOf(a[0]) + (Lines(a[1..]) + Lines(b)) == (LinesOf(a[0]) + Lines(a[1..])) + Lines(b);
    }
  }

  lemma LinesOfOne(c: Chunk)
    ensures Lines([c]) == LinesOf(c)
  {
    var lines := [LinesOf(c)];
    assert Map(LinesOf, [c]) == lines && lines[1..] == [];
    assert Flatten(lines) == LinesOf(c) + Flatten([]);
    assert LinesOf(c) + [] == LinesOf(c);
  }

  /** Write i's lines stand in the text from its own index on, before write i + 1's. */
  lemma LinesStandAt(out: seq<Chunk>, i: nat)
    requires i < |out|
    ensures At(out, i) < At(out, i) + |LinesOf(out[i])| == At(out, i + 1) <= |Lines(out)|
    ensures Lines(out)[At(out, i)..At(out, i + 1)] == LinesOf(out[i])
  {
    var before, after := out[..i], out[i + 1..];
    assert out[..i + 1] == before + [out[i]];
    LinesConcat(before, [out[i]]);
    LinesOfOne(out[i]);
    assert out == out[..i + 1] + after;
    LinesConcat(out[..i + 1], after);
  }

  lemma RowsAreOneLine(doc: Doc, level: nat)
    ensures forall c | c in DocChunks(doc, level) && c.Row? :: '\n' !in c.line
    decreases doc, 0
  {
    if doc != [] {
      var k := |doc| - 1;
      RowsAreOneLine(doc[..k], level);
      BlockRowsAreOneLine(doc[k], level);
    }
  }

  lemma BlockRowsAreOneLine(b: Block, level: nat)
    ensures forall c | c in BlockChunks(b, level) && c.Row? :: '\n' !in c.line
    decreases b, 1
  {
    match b
    case Section(_, body) => RowsAreOneLine(body, NextLevel(level));
    case Table(_, columns, rows) =>
      RowIsOneLine(columns);
      SeparatorIsRow(columns);
      RowIsOneLine(Separators(columns));
      forall i | 0 <= i < |rows| ensures '\n' !in RowLine(rows[i]) {
        RowIsOneLine(rows[i]);
      }
    case _ =>
  }

  lemma RowStandsAt(doc: Doc, level: nat, i: nat)
    requires i < |DocChunks(doc, level)| && DocChunks(doc, level)[i].Row?
    ensures var out := DocChunks(doc, level);
      && At(out, i + 1) == At(out, i) + 1 <= |Lines(out)|
      && Lines(out)[At(out, i)] == out[i].line
  {
    var out := DocChunks(doc, level);
    RowsAreOneLine(doc, level);
    assert out[i] in out;
    SplitNone('\n', out[i].line);
    LinesStandAt(out, i);
    assert Lines(out)[At(out, i)..At(out, i + 1)][0] == Lines(out)[At(out, i)];
  }

  /** In the text, at any nesting, a table line stands on a line of its own, and the line after it is
      the next line of the same table, or is blank, or is the end. */
  lemma TablesNeverRunOn(doc: Doc, level: nat, i: nat)
    requires i < |DocChunks(doc, level)| && DocChunks(doc, level)[i].Row?
    ensures var out := DocChunks(doc, level);
      var lines, at := SplitOn('\n', TextOf(out)), At(out, i);
      && at + 1 < |lines| && lines[at] == out[i].line
      && (i + 1 == |out| ==> at + 2 == |lines|)
      && if i + 1 < |out| && out[i + 1].Row? then !out[i + 1].first && lines[at + 1] == out[i + 1].line else lines[at + 1] == ""
  {
    var out := DocChunks(doc, level);
    TextSplits(out);
    TableChunksEnd(doc, level);
    RowStandsAt(doc, level, i);
    if i + 1 == |out| {
      assert out[..i + 1] == out;
    } else if out[i + 1].Row? {
      RowStandsAt(doc, level, i + 1);
    } else {
      assert LinesOf(out[i + 1]) == [""];
      LinesStandAt(out, i + 1);
      assert Lines(out)[At(out, i + 1)..At(out, i + 2)][0] == Lines(out)[At(out, i + 1)];
    }
  }

  // ---- nothing is left out ------------------------------------------------------------------------------------

  predicate IsTitle(c: Chunk) { c.Title? }

  predicate IsRow(c: Chunk) { c.Row? }

  function FirstLine(c: Chunk): string { LinesOf(c)[0] }

  /** The lines that the writes keep selects begin on. */
  function Places(keep: Chunk -> bool, out: seq<Chunk>): seq<nat> {
    if out == [] then []
    else
      var k := |out| - 1;
      Places(keep, out[..k]) + if keep(out[k]) then [At(out, k)] else []
  }

  /** Places go up, and on each stands the first line of its write. */
  ghost predicate Stand(lines: seq<string>, at: seq<nat>, texts: seq<string>) {
    && |at| == |texts|
    && (forall j | 0 <= j < |at| :: at[j] < |lines| && lines[at[j]] == texts[j])
    && (forall i, j | 0 <= i < j < |at| :: at[i] < at[j])
  }

  lemma {:induction false} PlacesStand(keep: Chunk -> bool, out: seq<Chunk>)
    ensures Stand(Lines(out), Places(keep, out), Map(FirstLine, Filter(keep, out)))
  {
    if out != [] {
      var k := |out| - 1;
      var front := out[..k];
      PlacesStand(keep, front);
      assert out == front + [out[k]];
      LinesConcat(front, [out[k]]);
      LinesOfOne(out[k]);
      FilterAppend(keep, front, out[k]);
      MapConcat(FirstLine, Filter(keep, front), [out[k]]);
      assert forall j | 0 <= j < |Lines(front)| :: Lines(out)[j] == Lines(front)[j];
      assert Lines(out)[At(out, k)] == FirstLine(out[k]);
      assert Filter(keep, front) + [] == Filter(keep, front);
    }
  }

  lemma StandInText(keep: Chunk -> bool, out: seq<Chunk>)
    ensures Stand(SplitOn('\n', TextOf(out)), Places(keep, out), Map(FirstLine, Filter(keep, out)))
  {
    TextSplits(out);
    PlacesStand(keep, out);
  }

  /** A title and the level of its heading. */
  datatype Entry = Entry(title: string, level: nat)

  /** The titles of a document at a heading level, each section's before its body's. */
  function Outline(doc: Doc, level: nat): seq<Entry>
    decreases doc, 0
  {
    if doc == [] then [] else Outline(doc[..|doc| - 1], level) + TitlesOf(doc[|doc| - 1], level)
  }

  function TitlesOf(b: Block, level: nat): seq<Entry>
    decreases b, 1
  {
    match b
    case Section(title, body) => [Entry(title, level)] + Outline(body, NextLevel(level))
    case Table(title, _, _) => if title == "" then [] else [Entry(title, level)]
    case List(title, _) => if title == "" then [] else [Entry(title, level)]
    case _ => []
  }

  /** The cells of every table of a document, row after row: its header, its separator, its rows. */
  function TableCells(doc: Doc): seq<seq<string>>
    decreases doc, 0
  {
    if doc == [] then [] else TableCells(doc[..|doc| - 1]) + CellsOf(doc[|doc| - 1])
  }

  function CellsOf(b: Block): seq<seq<string>>
    decreases b, 1
  {
    match b
    case Section(_, body) => TableCells(body)
    case Table(_, columns, rows) => [columns, Separators(columns)] + rows
    case _ => []
  }

  lemma PartsKept(keep: Chunk -> bool, doc: Doc, level: nat)
    requires doc != [] && !keep(Blank)
    ensures var k := |doc| - 1;
      Filter(keep, DocChunks(doc, level)) == Filter(keep, DocChunks(doc[..k], level)) + Filter(keep, BlockChunks(doc[k], level))
  {
    var k := |doc| - 1;
    var front, gap, block := DocChunks(doc[..k], level), Gap(doc, k), BlockChunks(doc[k], level);
    FilterConcat(keep, front + gap, block);
    FilterConcat(keep, front, gap);
    FilterAll(keep, gap, false);
    assert Filter(keep, front) + [] == Filter(keep, front);
  }

  function EntryOf(c: Chunk): Entry { if c.Title? then Entry(c.title, c.level) else Entry("", 0) }

  lemma KeptTitles(doc: Doc, level: nat)
    ensures Map(EntryOf, Filter(IsTitle, DocChunks(doc, level))) == Outline(doc, level)
    decreases doc, 0
  {
    if doc != [] {
      var k := |doc| - 1;
      KeptTitles(doc[..k], level);
      BlockTitles(doc[k], level);
      PartsKept(IsTitle, doc, level);
      MapConcat(EntryOf, Filter(IsTitle, DocChunks(doc[..k], level)), Filter(IsTitle, BlockChunks(doc[k], level)));
    }
  }

  /** A heading, if there is one, and writes none of which is one. */
  lemma TitleKept(head: seq<Chunk>, rest: seq<Chunk>)
    requires (forall c | c in head :: c.Title?) && (forall c | c in rest :: !c.Title?)
    ensures Filter(IsTitle, head + rest) == head
  {
    FilterConcat(IsTitle, head, rest);
    FilterAll(IsTitle, head, true);
    FilterAll(IsTitle, rest, false);
    assert head + [] == head;
  }

  lemma BlockTitles(b: Block, level: nat)
    ensures Map(EntryOf, Filter(IsTitle, BlockChunks(b, level))) == TitlesOf(b, level)
    decreases b, 1
  {
    match b
    case Section(title, body) =>
      var head, rest := [Title(title, level)], DocChunks(body, NextLevel(level));
      KeptTitles(body, NextLevel(level));
      FilterConcat(IsTitle, head, rest);
      FilterAll(IsTitle, head, true);
      MapConcat(EntryOf, head, Filter(IsTitle, rest));
      assert Map(EntryOf, head) == [Entry(title, level)];
    case Table(title, columns, rows) =>
      TitleKept(if title != "" then [Title(title, level)] else [], TableChunks(columns, rows));
    case List(title, items) =>
      TitleKept(if title != "" then [Title(title, level)] else [], ItemChunks(items));
    case _ =>
      FilterAll(IsTitle, BlockChunks(b, level), false);
  }

  lemma KeptRows(doc: Doc, level: nat)
    ensures Map(FirstLine, Filter(IsRow, DocChunks(doc, level))) == Map(RowLine, TableCells(doc))
    decreases doc, 0
  {
    if doc != [] {
      var k := |doc| - 1;
      KeptRows(doc[..k], level);
      BlockRows(doc[k], level);
      PartsKept(IsRow, doc, level);
      MapConcat(FirstLine, Filter(IsRow, DocChunks(doc[..k], level)), Filter(IsRow, BlockChunks(doc[k], level)));
      MapConcat(RowLine, TableCells(doc[..k]), CellsOf(doc[k]));
    }
  }

  lemma TableRows(columns: seq<string>, rows: seq<seq<string>>)
    ensures Map(FirstLine, TableChunks(columns, rows)) == Map(RowLine, [columns, Separators(columns)] + rows)
  {
    var cells, out := [columns, Separators(columns)] + rows, TableChunks(columns, rows);
    SeparatorIsRow(columns);
    forall i | 0 <= i < |cells| ensures FirstLine(out[i]) == RowLine(cells[i]) {
      RowIsOneLine(cells[i]);
      SplitNone('\n', RowLine(cells[i]));
      assert i >= 2 ==> cells[i] == rows[i - 2];
      assert Body(out[i]) == RowLine(cells[i]);
    }
  }

  /** A heading, if there is one, and writes all of which are table lines. */
  lemma RowsKept(head: seq<Chunk>, rest: seq<Chunk>)
    requires (forall c | c in head :: !c.Row?) && (forall c | c in rest :: c.Row?)
    ensures Filter(IsRow, head + rest) == rest
  {
    FilterConcat(IsRow, head, rest);
    FilterAll(IsRow, head, false);
    FilterAll(IsRow, rest, true);
    assert [] + rest == rest;
  }

  lemma BlockRows(b: Block, level: nat)
    ensures Map(FirstLine, Filter(IsRow, BlockChunks(b, level))) == Map(RowLine, CellsOf(b))
    decreases b, 1
  {
    match b
    case Section(title, body) =>
      KeptRows(body, NextLevel(level));
      FilterConcat(IsRow, [Title(title, level)], DocChunks(body, NextLevel(level)));
      FilterAll(IsRow, [Title(title, level)], false);
    case Table(title, columns, rows) =>
      RowsKept(if title != "" then [Title(title, level)] else [], TableChunks(columns, rows));
      TableRows(columns, rows);
    case _ =>
      FilterAll(IsRow, BlockChunks(b, level), false);
  }

  /** In the text, the rows of every table at any nesting stand in order on lines of their own; cut at
      its delimiting pipes, each gives back its escaped cells. */
  lemma TablesAreWritten(doc: Doc, level: nat) returns (at: seq<nat>)
    ensures Stand(SplitOn('\n', TextOf(DocChunks(doc, level))), at, Map(RowLine, TableCells(doc)))
    ensures forall j | 0 <= j < |at| && TableCells(doc)[j] != [] ::
      Pieces(SplitOn('\n', TextOf(DocChunks(doc, level)))[at[j]]) == [""] + Map(Padded, TableCells(doc)[j]) + [""]
  {
    at := Places(IsRow, DocChunks(doc, level));
    StandInText(IsRow, DocChunks(doc, level));
    KeptRows(doc, level);
    forall j | 0 <= j < |at| && TableCells(doc)[j] != []
      ensures Pieces(RowLine(TableCells(doc)[j])) == [""] + Map(Padded, TableCells(doc)[j]) + [""]
    {
      RowReadsBack(TableCells(doc)[j]);
    }
  }

  /** The line of a heading; a title of several lines goes on below it. */
  function HeadOf(e: Entry): string { SplitOn('\n', HeadingLine(e.title, e.level))[0] }

  lemma TitleHead(c: Chunk)
    requires c.Title?
    ensures FirstLine(c) == HeadOf(EntryOf(c))
  {
    var line := HeadingLine(c.title, c.level);
    SplitConcat('\n', line, "");
    assert line + "\n" + "" == line + "\n";
  }

  /** In the text, every title stands in order on a heading line, at the level its nesting gives it. */
  lemma TitlesAreWritten(doc: Doc, level: nat) returns (at: seq<nat>)
    ensures Stand(SplitOn('\n', TextOf(DocChunks(doc, level))), at, Map(HeadOf, Outline(doc, level)))
  {
    var out := DocChunks(doc, level);
    var kept := Filter(IsTitle, out);
    at := Places(IsTitle, out);
    StandInText(IsTitle, out);
    KeptTitles(doc, level);
    forall j | 0 <= j < |kept| ensures FirstLine(kept[j]) == HeadOf(Outline(doc, level)[j]) {
      FilterKeeps(IsTitle, out, j);
      TitleHead(kept[j]);
      assert Map(EntryOf, kept)[j] == EntryOf(kept[j]);
    }
  }

  /** Headings nest: no title stands above its document's level, and none goes deeper than markdown has. */
  lemma LevelsNest(doc: Doc, level: nat)
    requires level <= 6
    ensures forall e | e in Outline(doc, level) :: level <= e.level <= 6
    decreases doc, 0
  {
    if doc != [] {
      var k := |doc| - 1;
      LevelsNest(doc[..k], level);
      match doc[k]
      case Section(_, body) => LevelsNest(body, NextLevel(level));
      case _ =>
    }
  }

  // ---- every field, paragraph and item ------------------------------------------------------------------------

  predicate IsText(c: Chunk) { c.Text? }

  /** What the fields, paragraphs and list items of a document say, in document order. */
  function Spoken(doc: Doc): seq<string>
    decreases doc, 0
  {
    if doc == [] then [] else Spoken(doc[..|doc| - 1]) + SpokenOf(doc[|doc| - 1])
  }

  function SpokenOf(b: Block): seq<string>
    decreases b, 1
  {
    match b
    case Field(caption, value) => ["**" + caption + ":** " + value]
    case Para(text) => [text]
    case Section(_, body) => Spoken(body)
    case Table(_, _, _) => []
    case List(_, items) => Map(item => "- " + item, items)
  }

  /** All lines of the text stand from line at on. */
  ghost predicate Whole(lines: seq<string>, at: nat, text: string) {
    var whole := SplitOn('\n', text);
    at + |whole| <= |lines| && lines[at..at + |whole|] == whole
  }

  /** Each text stands whole from its place on, and before the next. */
  ghost predicate StandWhole(lines: seq<string>, at: seq<nat>, texts: seq<string>) {
    && |at| == |texts|
    && (forall j | 0 <= j < |at| :: Whole(lines, at[j], texts[j]))
    && (forall i, j | 0 <= i < j < |at| :: at[i] + |SplitOn('\n', texts[i])| <= at[j])
  }

  lemma WholeInMore(lines: seq<string>, at: nat, text: string, more: seq<string>)
    requires Whole(lines, at, text)
    ensures Whole(lines + more, at, text)
  {
    var whole := SplitOn('\n', text);
    assert (lines + more)[at..at + |whole|] == lines[at..at + |whole|];
  }

  lemma StandWholeGrows(lines: seq<string>, at: seq<nat>, texts: seq<string>, more: seq<string>)
    requires StandWhole(lines, at, texts)
    ensures StandWhole(lines + more, at, texts)
  {
    forall j | 0 <= j < |at| ensures Whole(lines + more, at[j], texts[j]) {
      WholeInMore(lines, at[j], texts[j], more);
    }
  }

  lemma WholeAtEnd(lines: seq<string>, last: string)
    ensures Whole(lines + SplitOn('\n', last), |lines|, last)
  {
    var whole := SplitOn('\n', last);
    assert (lines + whole)[|lines|..|lines| + |whole|] == whole;
  }

  lemma StandWholeSnoc(lines: seq<string>, at: seq<nat>, texts: seq<string>, last: string)
    requires StandWhole(lines, at, texts)
    ensures StandWhole(lines + SplitOn('\n', last), at + [|lines|], texts + [last])
  {
    var all, ats, ts := lines + SplitOn('\n', last), at + [|lines|], texts + [last];
    StandWholeGrows(lines, at, texts, SplitOn('\n', last));
    WholeAtEnd(lines, last);
    forall j | 0 <= j < |ats| ensures Whole(all, ats[j], ts[j]) {
      if j < |at| {
        assert ats[j] == at[j] && ts[j] == texts[j];
      }
    }
    forall i, j | 0 <= i < j < |ats| ensures ats[i] + |SplitOn('\n', ts[i])| <= ats[j] {
      assert ats[i] == at[i] && ts[i] == texts[i];
      assert Whole(lines, at[i], texts[i]);
    }
  }

  lemma {:induction false} WritesStandWhole(keep: Chunk -> bool, out: seq<Chunk>)
    ensures StandWhole(Lines(out), Places(keep, out), Map(Body, Filter(keep, out)))
  {
    if out != [] {
      var k := |out| - 1;
      var front := out[..k];
      WritesStandWhole(keep, front);
      assert out == front + [out[k]];
      LinesConcat(front, [out[k]]);
      LinesOfOne(out[k]);
      FilterAppend(keep, front, out[k]);
      MapConcat(Body, Filter(keep, front), [out[k]]);
      var texts := Map(Body, Filter(keep, front));
      if keep(out[k]) {
        StandWholeSnoc(Lines(front), Places(keep, front), texts, Body(out[k]));
        assert Map(Body, [out[k]]) == [Body(out[k])];
      } else {
        StandWholeGrows(Lines(front), Places(keep, front), texts, LinesOf(out[k]));
        assert Filter(keep, front) + [] == Filter(keep, front);
      }
    }
  }

  lemma KeptTexts(doc: Doc, level: nat)
    ensures Map(Body, Filter(IsText, DocChunks(doc, level))) == Spoken(doc)
    decreases doc, 0
  {
    if doc != [] {
      var k := |doc| - 1;
      KeptTexts(doc[..k], level);
      BlockTexts(doc[k], level);
      PartsKept(IsText, doc, level);
      MapConcat(Body, Filter(IsText, DocChunks(doc[..k], level)), Filter(IsText, BlockChunks(doc[k], level)));
    }
  }

  /** A heading, if there is one, and writes all of which are text. */
  lemma TextsKept(head: seq<Chunk>, rest: seq<Chunk>)
    requires (forall c | c in head :: !c.Text?) && (forall c | c in rest :: c.Text?)
    ensures Filter(IsText, head + rest) == rest
  {
    FilterConcat(IsText, head, rest);
    FilterAll(IsText, head, false);
    FilterAll(IsText, rest, true);
    assert [] + rest == rest;
  }

  lemma BlockTexts(b: Block, level: nat)
    ensures Map(Body, Filter(IsText, BlockChunks(b, level))) == SpokenOf(b)
    decreases b, 1
  {
    match b
    case Section(title, body) =>
      KeptTexts(body, NextLevel(level));
      FilterConcat(IsText, [Title(title, level)], DocChunks(body, NextLevel(level)));
      FilterAll(IsText, [Title(title, level)], false);
    case List(title, items) =>
      TextsKept(if title != "" then [Title(title, level)] else [], ItemChunks(items));
    case Table(title, columns, rows) =>
      FilterAll(IsText, BlockChunks(b, level), false);
    case _ =>
      FilterAll(IsText, BlockChunks(b, level), true);
  }

  /** In the text, at any nesting, every field, paragraph and list item stands in document order with all
      its lines, from "**label:** value", the paragraph or "- item" on. */
  lemma TextsAreWritten(doc: Doc, level: nat) returns (at: seq<nat>)
    ensures StandWhole(SplitOn('\n', TextOf(DocChunks(doc, level))), at, Spoken(doc))
  {
    var out := DocChunks(doc, level);
    at := Places(IsText, out);
    WritesStandWhole(IsText, out);
    KeptTexts(doc, level);
    TextSplits(out);
    StandWholeGrows(Lines(out), at, Spoken(doc), [""]);
  }

  // ---- the text, block by block -------------------------------------------------------------------------------

  lemma {:induction false} TextConcat(a: seq<Chunk>, b: seq<Chunk>)
    ensures TextOf(a + b) == TextOf(a) + TextOf(b)
  {
    if a == [] {
      assert a + b == b;
    } else {
      assert Map(Written, a + b)[1..] == Map(Written, a[1..] + b) && Map(Written, a)[1..] == Map(Written, a[1..]);
      assert (a + b)[0] == a[0] && (a + b)[1..] == a[1..] + b;
      TextConcat(a[1..], b);
      assert Written(a[0]) + (TextOf(a[1..]) + TextOf(b)) == (Written(a[0]) + TextOf(a[1..])) + TextOf(b);
    }
  }

  lemma TextOfOne(c: Chunk)
    ensures TextOf([c]) == Written(c) && TextOf([]) == ""
  {
    assert Map(Written, [c]) == [Written(c)] && [Written(c)][1..] == [];
    assert Map(Written, []) == [];
    assert Flatten([Written(c)]) == Written(c) + Flatten<char>([]);
  }

  /** A block is written after those before it: straight after when it and the one before are a field or a
      paragraph each, and a blank line after otherwise. */
  lemma BlocksFollow(doc: Doc, k: nat, level: nat)
    requires k < |doc|
    ensures TextOf(DocChunks(doc[..k + 1], level)) ==
            TextOf(DocChunks(doc[..k], level))
            + (if k == 0 || ((doc[k - 1].Field? || doc[k - 1].Para?) && (doc[k].Field? || doc[k].Para?)) then "" else "\n")
            + TextOf(BlockChunks(doc[k], level))
  {
    var front, gap, block := DocChunks(doc[..k], level), Gap(doc, k), BlockChunks(doc[k], level);
    assert doc[..k + 1][..k] == doc[..k] && Gap(doc[..k + 1], k) == gap;
    TextConcat(front + gap, block);
    TextConcat(front, gap);
    TextOfOne(Blank);
    assert Written(Blank) == "\n";
  }

  lemma LineBlocksText(level: nat, caption: string, value: string)
    ensures TextOf(BlockChunks(Field(caption, value), level)) == "**" + caption + ":** " + value + "\n"
    ensures TextOf(BlockChunks(Para(value), level)) == value + "\n"
  {
    TextOfOne(Text("**" + caption + ":** " + value));
    TextOfOne(Text(value));
  }

  lemma HeadingText(title: string, level: nat)
    ensures TextOf([Title(title, level)]) == seq(level, i => '#') + " " + title + "\n\n"
  {
    TextOfOne(Title(title, level));
    assert (seq(level, i => '#') + " " + title + "\n") + "\n" == seq(level, i => '#') + " " + title + "\n\n";
  }

  /** A section is its heading, a blank line, and its body one level deeper, to the sixth. */
  lemma SectionText(title: string, body: Doc, level: nat)
    ensures TextOf(BlockChunks(Section(title, body), level)) ==
            seq(level, i => '#') + " " + title + "\n\n" + TextOf(DocChunks(body, if level >= 6 then 6 else level + 1))
  {
    HeadingText(title, level);
    TextConcat([Title(title, level)], DocChunks(body, NextLevel(level)));
  }

  /** One line for each text, in order. */
  function LineByLine(texts: seq<string>): string {
    if texts == [] then "" else LineByLine(texts[..|texts| - 1]) + texts[|texts| - 1] + "\n"
  }

  lemma {:induction false} BodiesText(out: seq<Chunk>, texts: seq<string>)
    requires |out| == |texts| && forall i | 0 <= i < |out| :: Body(out[i]) == texts[i]
    ensures TextOf(out) == LineByLine(texts)
  {
    if out == [] {
      TextOfOne(Blank);
    } else {
      var k := |out| - 1;
      assert out == out[..k] + [out[k]];
      BodiesText(out[..k], texts[..k]);
      TextConcat(out[..k], [out[k]]);
      TextOfOne(out[k]);
    }
  }

  /** A titled block is its heading and a blank line, then its lines; untitled, its lines alone. */
  lemma TitledText(title: string, level: nat, out: seq<Chunk>, texts: seq<string>)
    requires |out| == |texts| && forall i | 0 <= i < |out| :: Body(out[i]) == texts[i]
    ensures TextOf((if title != "" then [Title(title, level)] else []) + out) ==
            (if title != "" then seq(level, i => '#') + " " + title + "\n\n" else "") + LineByLine(texts)
  {
    BodiesText(out, texts);
    TextConcat(if title != "" then [Title(title, level)] else [], out);
    HeadingText(title, level);
    TextOfOne(Blank);
  }

  lemma ListText(title: string, items: seq<string>, level: nat)
    ensures TextOf(BlockChunks(List(title, items), level)) ==
            (if title != "" then seq(level, i => '#') + " " + title + "\n\n" else "")
            + LineByLine(Map(item => "- " + item, items))
  {
    TitledText(title, level, ItemChunks(items), Map(item => "- " + item, items));
  }

  /** A table is its header, a row of dashes for each column, and its rows. */
  lemma TableText(title: string, columns: seq<string>, rows: seq<seq<string>>, level: nat)
    ensures TextOf(BlockChunks(Table(title, columns, rows), level)) ==
            (if title != "" then seq(level, i => '#') + " " + title + "\n\n" else "")
            + LineByLine([RowLine(columns), RowLine(seq(|columns|, i => "---"))] + Map(RowLine, rows))
  {
    var texts := [RowLine(columns), RowLine(seq(|columns|, i => "---"))] + Map(RowLine, rows);
    var out := TableChunks(columns, rows);
    SeparatorIsRow(columns);
    assert Separators(columns) == seq(|columns|, i => "---");
    forall i | 0 <= i < |out| ensures Body(out[i]) == texts[i] {
      assert i >= 2 ==> texts[i] == RowLine(rows[i - 2]);
    }
    TitledText(title, level, out, texts);
  }

  /** A cell is written character by character: a pipe with a backslash before it, a line break as "<br>". */
  lemma {:induction false} CellText(s: string, c: char)
    ensures EscapeCell("") == ""
    ensures EscapeCell(s + [c]) == EscapeCell(s) + if c == '|' then "\\|" else if c == '\n' then "<br>" else [c]
  {
    ReplaceConcat('|', "\\|", s, [c]);
    ReplaceOne('|', "\\|", c);
    ReplaceConcat('\n', "<br>", ReplaceChar('|', "\\|", s), ReplaceChar('|', "\\|", [c]));
    if c == '|' {
      NothingReplaced('\n', "<br>", "\\|");
    } else {
      ReplaceOne('\n', "<br>", c);
    }
  }

  lemma {:induction false} ReplaceConcat(c: char, with: string, a: string, b: string)
    ensures ReplaceChar(c, with, a + b) == ReplaceChar(c, with, a) + ReplaceChar(c, with, b)
  {
    if a == "" {
      assert a + b == b;
    } else {
      assert (a + b)[1..] == a[1..] + b;
      ReplaceConcat(c, with, a[1..], b);
      var head := if a[0] == c then with else [a[0]];
      assert head + (ReplaceChar(c, with, a[1..]) + ReplaceChar(c, with, b))
          == (head + ReplaceChar(c, with, a[1..])) + ReplaceChar(c, with, b);
    }
  }

  lemma ReplaceOne(c: char, with: string, x: char)
    ensures ReplaceChar(c, with, [x]) == if x == c then with else [x]
  {
    assert [x][1..] == "";
    assert ReplaceChar(c, with, "") == "";
  }
}
