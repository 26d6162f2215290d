/** The survivor ratchet's text baseline (scripts/mutshard/ratchet.go): a file of rows that people edit
    and the tool rewrites in place.

    The promise is about the two together: recording a row leaves a file that still parses, in which
    that row alone has changed and every other line stands, and against which the same run holds. */
module Ratchet {
  import opened Base
  import Judge

  // ---- fields of a line -----------------------------------------------------------------------------------

  /** unicode.IsSpace. */
  predicate Space(c: char) {
    c in "\t\n\r " || c == '\U{000B}' || c == '\U{000C}' || c == '\U{0085}' || c == '\U{00A0}' || c == '\U{1680}'
    || '\U{2000}' <= c <= '\U{200A}' || c == '\U{2028}' || c == '\U{2029}' || c == '\U{202F}' || c == '\U{205F}'
    || c == '\U{3000}'
  }

  /** The space-separated fields of s, given what has been read of the current one. */
  function Scan(s: string, field: string): seq<string> {
    if s == "" then if field == "" then [] else [field]
    else if !Space(s[0]) then Scan(s[1..], field + [s[0]])
    else (if field == "" then [] else [field]) + Scan(s[1..], "")
  }

  /** strings.Fields. */
  function Fields(line: string): seq<string> { Scan(line, "") }

  predicate NoSpace(s: string) {
    forall i | 0 <= i < |s| :: !Space(s[i])
  }

  // ---- rows ---------------------------------------------------------------------------------------------------

  datatype Provenance = Measured | Stale | Unknown

  datatype Row = Row(total: int, survived: int, provenance: Provenance)

  datatype FormatError = BadShape | UnknownWithCounts | BadCounts | DuplicateRow

  function ProvenanceNamed(s: string): Option<Provenance> {
    if s == "measured" then Some(Measured)
    else if s == "stale" then Some(Stale)
    else if s == "unknown" then Some(Unknown)
    else None
  }

  /** Whole numbers, SURVIVED no more than TOTAL. */
  function ParseCounts(totalField: string, survivedField: string): Option<(int, int)> {
    var total, survived := ParseInt(totalField), ParseInt(survivedField);
    if total.None? || survived.None? || survived.value < 0 || survived.value > total.value then None
    else Some((total.value, survived.value))
  }

  /** TARGET TOTAL SURVIVED PROVENANCE. */
  function ParseRow(f: seq<string>): Result<Row, FormatError> {
    if |f| != 4 || ProvenanceNamed(f[3]).None? then Err(BadShape)
    else if ProvenanceNamed(f[3]).value.Unknown? then
      if f[1] != "-" || f[2] != "-" then Err(UnknownWithCounts) else Ok(Row(0, 0, Unknown))
    else
      var counts := ParseCounts(f[1], f[2]);
      if counts.None? then Err(BadCounts)
      else Ok(Row(counts.value.0, counts.value.1, ProvenanceNamed(f[3]).value))
  }

  type Rows = map<string, Row>

  /** A line that holds no row: blank, or a comment. */
  predicate NoRow(f: seq<string>) {
    f == [] || (f[0] != "" && f[0][0] == '#')
  }

  function AddLine(rows: Rows, line: string): Result<Rows, FormatError> {
    var f := Fields(line);
    if NoRow(f) then Ok(rows)
    else
      var row := ParseRow(f);
      if row.Err? then Err(row.error)
      else if f[0] in rows then Err(DuplicateRow)
      else Ok(rows[f[0] := row.value])
  }

  function RowsOf(lines: seq<string>): Result<Rows, FormatError> {
    if lines == [] then Ok(map[])
    else
      var front := RowsOf(lines[..|lines| - 1]);
      if front.Err? then front else AddLine(front.value, lines[|lines| - 1])
  }

  /** The rows a baseline file holds. */
  function Baseline(raw: string): Result<Rows, FormatError> { RowsOf(SplitOn('\n', raw)) }

  lemma {:induction false} RowsOfPrefix(lines: seq<string>, i: nat)
    requires i <= |lines| && RowsOf(lines[..i]).Err?
    ensures RowsOf(lines) == RowsOf(lines[..i])
    decreases |lines|
  {
    if i < |lines| {
      assert lines[..|lines| - 1][..i] == lines[..i];
      RowsOfPrefix(lines[..|lines| - 1], i);
    } else {
      assert lines[..i] == lines;
    }
  }

  method ReadBaseline(raw: string) returns (r: Result<Rows, FormatError>)
    ensures r == Baseline(raw)
  {
    var lines := SplitOn('\n', raw);
    var rows: Rows := map[];
    for i := 0 to |lines|
      invariant RowsOf(lines[..i]) == Ok(rows)
    {
      assert lines[..i + 1][..i] == lines[..i];
      var f := Fields(lines[i]);
      if |f| == 0 || (f[0] != "" && f[0][0] == '#') {
        continue;
      }
      var row := ParseRow(f);
      if row.Err? {
        RowsOfPrefix(lines, i + 1);
        return Err(row.error);
      }
      if f[0] in rows {
        RowsOfPrefix(lines, i + 1);
        return Err(DuplicateRow);
      }
      rows := rows[f[0] := row.value];
    }
    assert lines[..|lines|] == lines;
    return Ok(rows);
  }

  // ---- writing a row ------------------------------------------------------------------------------------------

  function Spaces(n: nat): (s: string)
    ensures |s| == n
  {
    seq(n, i => ' ')
  }

  function PadRight(s: string, width: nat): string { s + Spaces(if |s| < width then width - |s| else 0) }

  function PadLeft(s: string, width: nat): string { Spaces(if |s| < width then width - |s| else 0) + s }

  /** The row as fmt lays it out: "%-42s %5d %9d  measured". */
  function RowLine(target: string, total: nat, survived: nat): string {
    PadRight(target, 42) + " " + PadLeft(Decimal(total), 5) + " " + PadLeft(Decimal(survived), 9) + "  measured"
  }

  /** strings.TrimRight of newlines. */
  function TrimNewlines(s: string): string {
    if s != "" && s[|s| - 1] == '\n' then TrimNewlines(s[..|s| - 1]) else s
  }

  predicate IsRowOf(line: string, target: string) {
    Fields(line) != [] && Fields(line)[0] == target
  }

  /** target's row put in place of every line that holds one. */
  function Replaced(lines: seq<string>, target: string, row: string): (r: seq<string>)
    ensures |r| == |lines|
    ensures forall i | 0 <= i < |lines| :: r[i] == if IsRowOf(lines[i], target) then row else lines[i]
  {
    seq(|lines|, i requires 0 <= i < |lines| => if IsRowOf(lines[i], target) then row else lines[i])
  }

  predicate HasRowOf(lines: seq<string>, target: string) {
    exists i :: 0 <= i < |lines| && IsRowOf(lines[i], target)
  }

  /** The lines of the rewritten file. */
  function NewLines(lines: seq<string>, target: string, row: string): seq<string> {
    Replaced(lines, target, row) + if HasRowOf(lines, target) then [] else [row]
  }

  function Written(raw: string, target: string, total: nat, survived: nat): string {
    Join("\n", NewLines(SplitOn('\n', TrimNewlines(raw)), target, RowLine(target, total, survived))) + "\n"
  }

  /** WriteRow's loop: the lines overwritten where they stand. */
  method ReplaceRow(lines: array<string>, target: string, row: string) returns (done: bool)
    modifies lines
    ensures lines[..] == Replaced(old(lines[..]), target, row)
    ensures done <==> HasRowOf(old(lines[..]), target)
  {
    done := false;
    for i := 0 to lines.Length
      invariant forall j | 0 <= j < i :: lines[j] == if IsRowOf(old(lines[j]), target) then row else old(lines[j])
      invariant forall j | i <= j < lines.Length :: lines[j] == old(lines[j])
      invariant done <==> exists j :: 0 <= j < i && IsRowOf(old(lines[j]), target)
    {
      if IsRowOf(lines[i], target) {
        lines[i], done := row, true;
      }
    }
    ghost var was := old(lines[..]);
    assert forall j | 0 <= j < |was| :: was[j] == old(lines[j]);
  }

  method WriteRow(raw: string, target: string, total: nat, survived: nat) returns (text: string)
    ensures text == Written(raw, target, total, survived)
  {
    var row := RowLine(target, total, survived);
    var split := SplitOn('\n', TrimNewlines(raw));
    var lines := new string[|split|](i requires 0 <= i < |split| => split[i]);
    assert lines[..] == split;
    var done := ReplaceRow(lines, target, row);
    text := Join("\n", lines[..] + if done then [] else [row]) + "\n";
  }

  // ---- a written row reads back -----------------------------------------------------------------------------

  lemma {:induction false} ScanWord(w: string, rest: string, field: string)
    requires NoSpace(w)
    ensures Scan(w + rest, field) == Scan(rest, field + w)
  {
    if w == "" {
      assert w + rest == rest && field + w == field;
    } else {
      assert (w + rest)[1..] == w[1..] + rest;
      ScanWord(w[1..], rest, field + [w[0]]);
      assert (field + [w[0]]) + w[1..] == field + w;
    }
  }

  lemma {:induction false} ScanSpaces(n: nat, rest: string)
    ensures Scan(Spaces(n) + rest, "") == Scan(rest, "")
  {
    if n == 0 {
      assert Spaces(0) + rest == rest;
    } else {
      assert (Spaces(n) + rest)[1..] == Spaces(n - 1) + rest;
      ScanSpaces(n - 1, rest);
    }
  }

  /** A word, at least one space, and what follows. */
  lemma ScanField(w: string, n: nat, rest: string)
    requires NoSpace(w) && w != "" && n >= 1
    ensures Scan(w + (Spaces(n) + rest), "") == [w] + Scan(rest, "")
  {
    ScanWord(w, Spaces(n) + rest, "");
    assert "" + w == w;
    assert (Spaces(n) + rest)[1..] == Spaces(n - 1) + rest;
    ScanSpaces(n - 1, rest);
  }

  lemma DecimalNoSpace(n: nat)
    ensures NoSpace(Decimal(n))
  {
  }

  /** Three fields and a last one, each followed by at least one space. */
  lemma ScanFour(f: seq<string>, a: nat, b: nat, c: nat)
    requires |f| == 4 && a >= 1 && b >= 1 && c >= 1
    requires forall i | 0 <= i < 4 :: NoSpace(f[i]) && f[i] != ""
    ensures Fields(f[0] + (Spaces(a) + (f[1] + (Spaces(b) + (f[2] + (Spaces(c) + f[3])))))) == f
  {
    ScanField(f[0], a, f[1] + (Spaces(b) + (f[2] + (Spaces(c) + f[3]))));
    ScanField(f[1], b, f[2] + (Spaces(c) + f[3]));
    ScanField(f[2], c, f[3]);
    ScanWord(f[3], "", "");
    assert f[3] + "" == f[3] && "" + f[3] == f[3];
    assert Scan("", f[3]) == [f[3]];
    assert f == [f[0]] + ([f[1]] + ([f[2]] + [f[3]]));
  }

  lemma Regroup(a: string, i: string, j: string, t: string, k: string, s: string, m: string, w: string)
    ensures (a + i) + " " + (j + t) + " " + (k + s) + (m + w)
         == a + ((i + " " + j) + (t + ((" " + k) + (s + (m + w)))))
  {
    var tail := (" " + k) + (s + (m + w));
    assert " " + (k + s) + (m + w) == tail;
    assert (a + i) + " " + (j + t) + tail == a + ((i + " " + j) + (t + tail));
    assert (a + i) + " " + (j + t) + " " + (k + s) + (m + w) == ((a + i) + " " + (j + t)) + (" " + (k + s) + (m + w));
  }

  lemma SpaceRuns(i: nat, j: nat, k: nat)
    ensures Spaces(i) + " " + Spaces(j) == Spaces(i + 1 + j)
    ensures " " + Spaces(k) == Spaces(1 + k)
    ensures "  measured" == Spaces(2) + "measured"
  {
  }

  lemma RowLineLayout(target: string, t: string, s: string) returns (a: nat, b: nat)
    ensures a >= 1 && b >= 1
    ensures PadRight(target, 42) + " " + PadLeft(t, 5) + " " + PadLeft(s, 9) + "  measured"
         == target + (Spaces(a) + (t + (Spaces(b) + (s + (Spaces(2) + "measured")))))
  {
    var i: nat := if |target| < 42 then 42 - |target| else 0;
    var j: nat := if |t| < 5 then 5 - |t| else 0;
    var k: nat := if |s| < 9 then 9 - |s| else 0;
    a, b := i + 1 + j, 1 + k;
    SpaceRuns(i, j, k);
    assert PadRight(target, 42) == target + Spaces(i);
    assert PadLeft(t, 5) == Spaces(j) + t && PadLeft(s, 9) == Spaces(k) + s;
    Regroup(target, Spaces(i), Spaces(j), t, Spaces(k), s, Spaces(2), "measured");
  }

  lemma RowLineFields(target: string, total: nat, survived: nat)
    requires target != "" && NoSpace(target)
    ensures Fields(RowLine(target, total, survived)) == [target, Decimal(total), Decimal(survived), "measured"]
  {
    var a, b := RowLineLayout(target, Decimal(total), Decimal(survived));
    DecimalNoSpace(total);
    DecimalNoSpace(survived);
    ScanFour([target, Decimal(total), Decimal(survived), "measured"], a, b, 2);
  }

  lemma RowLineParses(target: string, total: nat, survived: nat)
    requires target != "" && NoSpace(target) && survived <= total < TWO63
    ensures ParseRow(Fields(RowLine(target, total, survived))) == Ok(Row(total, survived, Measured))
  {
    RowLineFields(target, total, survived);
    ParseIntDecimal(total);
    ParseIntDecimal(survived);
  }

  // ---- recording a row changes that row alone -------------------------------------------------------------------

  /** What a package's name in the baseline must be: one field that does not read as a comment. */
  predicate GoodTarget(target: string) {
    target != "" && NoSpace(target) && target[0] != '#'
  }

  lemma {:induction false} SplitTrailing(s: string)
    ensures SplitOn('\n', s + "\n") == SplitOn('\n', s) + [""]
  {
    if s == "" {
      assert "" + "\n" == "\n" && "\n"[1..] == "";
      assert SplitOn('\n', "") == [""];
    } else {
      assert (s + "\n")[1..] == s[1..] + "\n";
      SplitTrailing(s[1..]);
    }
  }

  lemma BlankLineAddsNothing(lines: seq<string>)
    ensures RowsOf(lines + [""]) == RowsOf(lines)
  {
    assert (lines + [""])[..|lines|] == lines;
    assert Fields("") == [];
  }

  /** Trailing newlines hold no rows. */
  lemma {:induction false} TrimKeepsRows(raw: string)
    ensures RowsOf(SplitOn('\n', TrimNewlines(raw))) == RowsOf(SplitOn('\n', raw))
  {
    if raw != "" && raw[|raw| - 1] == '\n' {
      var front := raw[..|raw| - 1];
      assert raw == front + "\n";
      SplitTrailing(front);
      BlankLineAddsNothing(SplitOn('\n', front));
      TrimKeepsRows(front);
    }
  }

  /** A line that is not target's says the same whatever target's row is. */
  lemma OtherLine(rows: Rows, line: string, target: string, recorded: Row)
    requires !IsRowOf(line, target) && AddLine(rows, line).Ok?
    ensures AddLine(rows[target := recorded], line) == Ok(AddLine(rows, line).value[target := recorded])
    ensures target in AddLine(rows, line).value <==> target in rows
  {
    var f := Fields(line);
    if !NoRow(f) {
      var row := ParseRow(f).value;
      assert rows[f[0] := row][target := recorded] == rows[target := recorded][f[0] := row];
    }
  }

  /** A line of target's that parses is the first one, and can be any row of target's instead. */
  lemma OwnLine(rows: Rows, line: string, target: string, row: string, recorded: Row)
    requires GoodTarget(target) && IsRowOf(line, target) && AddLine(rows, line).Ok?
    requires IsRowOf(row, target) && ParseRow(Fields(row)) == Ok(recorded)
    ensures target !in rows && target in AddLine(rows, line).value
    ensures AddLine(rows, row) == Ok(AddLine(rows, line).value[target := recorded])
  {
    assert AddLine(rows, line).value[target := recorded] == rows[target := recorded];
  }

  lemma HasRowOfOneMore(front: seq<string>, last: string, target: string)
    ensures HasRowOf(front + [last], target) <==> HasRowOf(front, target) || IsRowOf(last, target)
  {
    var lines := front + [last];
    if i :| 0 <= i < |front| && IsRowOf(front[i], target) {
      assert IsRowOf(lines[i], target);
    }
    if IsRowOf(last, target) {
      assert IsRowOf(lines[|front|], target);
    }
  }

  lemma RowsOfOneMore(front: seq<string>, last: string)
    ensures RowsOf(front + [last]) == if RowsOf(front).Err? then RowsOf(front) else AddLine(RowsOf(front).value, last)
  {
    assert (front + [last])[..|front|] == front;
  }

  lemma {:induction false} ReplacedRows(lines: seq<string>, target: string, row: string, recorded: Row)
    requires GoodTarget(target) && IsRowOf(row, target) && ParseRow(Fields(row)) == Ok(recorded)
    requires RowsOf(lines).Ok?
    ensures target in RowsOf(lines).value <==> HasRowOf(lines, target)
    ensures RowsOf(Replaced(lines, target, row))
         == Ok(if HasRowOf(lines, target) then RowsOf(lines).value[target := recorded] else RowsOf(lines).value)
  {
    if lines != [] {
      var k := |lines| - 1;
      var front, last := lines[..k], lines[k];
      assert lines == front + [last];
      RowsOfOneMore(front, last);
      ReplacedRows(front, target, row, recorded);
      HasRowOfOneMore(front, last, target);
      var shown := if IsRowOf(last, target) then row else last;
      assert RowsOf(Replaced(lines, target, row)) == AddLine(RowsOf(Replaced(front, target, row)).value, shown) by {
        assert Replaced(lines, target, row) == Replaced(front, target, row) + [shown];
        RowsOfOneMore(Replaced(front, target, row), shown);
      }
      if IsRowOf(last, target) {
        OwnLine(RowsOf(front).value, last, target, row, recorded);
      } else {
        OtherLine(RowsOf(front).value, last, target, recorded);
      }
    }
  }

  lemma {:induction false} NewlineFree(s: string)
    requires NoSpace(s)
    ensures '\n' !in s
  {
    assert Space('\n');
  }

  lemma RowLineIsOneLine(target: string, total: nat, survived: nat)
    requires GoodTarget(target)
    ensures '\n' !in RowLine(target, total, survived)
  {
    NewlineFree(target);
    DecimalNoSpace(total);
    DecimalNoSpace(survived);
    NewlineFree(Decimal(total));
    NewlineFree(Decimal(survived));
    assert forall n: nat :: '\n' !in Spaces(n);
  }

  lemma {:induction false} JoinTrailing(lines: seq<string>)
    requires lines != []
    ensures Join("\n", lines + [""]) == Join("\n", lines) + "\n"
  {
    if |lines| > 1 {
      assert (lines + [""])[1..] == lines[1..] + [""];
      JoinTrailing(lines[1..]);
    } else {
      assert (lines + [""])[1..] == [""];
    }
  }

  /** The rewritten file's lines: target's row in its place, or added at the end; every other line,
      comments included, as it was, up to the newlines at the end of the file. */
  lemma WrittenLines(raw: string, target: string, total: nat, survived: nat)
    requires GoodTarget(target)
    ensures var row := RowLine(target, total, survived);
      SplitOn('\n', Written(raw, target, total, survived))
        == NewLines(SplitOn('\n', TrimNewlines(raw)), target, row) + [""]
  {
    var row := RowLine(target, total, survived);
    var lines := SplitOn('\n', TrimNewlines(raw));
    var new' := NewLines(lines, target, row);
    JoinSplit('\n', TrimNewlines(raw));
    RowLineIsOneLine(target, total, survived);
    forall p | p in new' + [""] ensures '\n' !in p {
      var i :| 0 <= i < |new' + [""]| && (new' + [""])[i] == p;
      if i < |lines| {
        assert lines[i] in lines;
      }
    }
    JoinTrailing(new');
    SplitJoin('\n', new' + [""]);
  }

  /** What Scan splits off is never empty and holds no white space. */
  lemma {:induction false} ScannedWords(s: string, field: string)
    requires NoSpace(field)
    ensures forall w | w in Scan(s, field) :: w != "" && NoSpace(w)
    decreases |s|
  {
    if s != "" {
      if !Space(s[0]) {
        ScannedWords(s[1..], field + [s[0]]);
      } else {
        ScannedWords(s[1..], "");
      }
    }
  }

  /** Every target a readable file has a row for is a good one. */
  lemma {:induction false} TargetsAreGood(lines: seq<string>)
    requires RowsOf(lines).Ok?
    ensures forall t | t in RowsOf(lines).value :: GoodTarget(t)
  {
    if lines != [] {
      var last := lines[|lines| - 1];
      TargetsAreGood(lines[..|lines| - 1]);
      ScannedWords(last, "");
      if Fields(last) != [] {
        assert Fields(last)[0] in Fields(last);
      }
    }
  }

  /** After recording, the file still parses and its rows differ from before at target alone, exactly
      when target is one that a row can name. */
  lemma RecordingChangesOneRow(raw: string, target: string, total: nat, survived: nat)
    requires survived <= total < TWO63 && Baseline(raw).Ok?
    ensures Baseline(Written(raw, target, total, survived))
              == Ok(Baseline(raw).value[target := Row(total, survived, Measured)])
            <==> GoodTarget(target)
  {
    if GoodTarget(target) {
      GoodTargetRecorded(raw, target, total, survived);
    } else {
      OnlyGoodTargetsRead(Written(raw, target, total, survived), target);
      assert target in Baseline(raw).value[target := Row(total, survived, Measured)];
    }
  }

  lemma OnlyGoodTargetsRead(raw: string, target: string)
    ensures Baseline(raw).Ok? && target in Baseline(raw).value ==> GoodTarget(target)
  {
    if Baseline(raw).Ok? {
      TargetsAreGood(SplitOn('\n', raw));
    }
  }

  lemma GoodTargetRecorded(raw: string, target: string, total: nat, survived: nat)
    requires GoodTarget(target) && survived <= total < TWO63 && Baseline(raw).Ok?
    ensures Baseline(Written(raw, target, total, survived))
         == Ok(Baseline(raw).value[target := Row(total, survived, Measured)])
  {
    var row, recorded := RowLine(target, total, survived), Row(total, survived, Measured);
    var lines := SplitOn('\n', TrimNewlines(raw));
    TrimKeepsRows(raw);
    WrittenLines(raw, target, total, survived);
    RowLineParses(target, total, survived);
    RowLineFields(target, total, survived);
    BlankLineAddsNothing(NewLines(lines, target, row));
    ReplacedRows(lines, target, row, recorded);
    var replaced := Replaced(lines, target, row);
    if HasRowOf(lines, target) {
      assert replaced + [] == replaced;
    } else {
      assert (replaced + [row])[..|replaced|] == replaced;
    }
  }

  // ---- what a file says -----------------------------------------------------------------------------------------

  /** The white space of a line, by code point. */
  lemma SpaceExactly(c: char)
    ensures var i := c as int;
      Space(c) <==> 9 <= i <= 13 || i == 32 || i == 0x85 || i == 0xA0 || i == 0x1680 || 0x2000 <= i <= 0x200A
                    || i == 0x2028 || i == 0x2029 || i == 0x202F || i == 0x205F || i == 0x3000
  {
  }

  predicate AllSpace(s: string) {
    forall i | 0 <= i < |s| :: Space(s[i])
  }

  lemma {:induction false} ScanGap(gap: string, rest: string)
    requires AllSpace(gap)
    ensures Scan(gap + rest, "") == Scan(rest, "")
  {
    if gap == "" {
      assert gap + rest == rest;
    } else {
      assert (gap + rest)[1..] == gap[1..] + rest;
      ScanGap(gap[1..], rest);
    }
  }

  /** Each word with the white space before it. */
  function Spaced(gaps: seq<string>, words: seq<string>): string
    requires |gaps| == |words|
  {
    if words == [] then "" else gaps[0] + (words[0] + Spaced(gaps[1..], words[1..]))
  }

  lemma ScanLastWord(word: string, rest: string)
    requires NoSpace(word) && word != "" && (rest == "" || Space(rest[0]))
    ensures Scan(word + rest, "") == [word] + Scan(rest, "")
  {
    ScanWord(word, rest, "");
    assert "" + word == word;
    if rest != "" {
      assert Scan(rest, "") == Scan(rest[1..], "");
    }
  }

  /** The fields of a line are its words, whatever white space stands between and around them. */
  lemma {:induction false} FieldsAreWords(gaps: seq<string>, words: seq<string>, end: string)
    requires |gaps| == |words| && AllSpace(end)
    requires forall i | 0 <= i < |words| :: words[i] != "" && NoSpace(words[i]) && AllSpace(gaps[i]) && (i > 0 ==> gaps[i] != "")
    ensures Fields(Spaced(gaps, words) + end) == words
    decreases |words|
  {
    if words == [] {
      assert Spaced(gaps, words) + end == end + "";
      ScanGap(end, "");
    } else {
      var rest := Spaced(gaps[1..], words[1..]) + end;
      assert Spaced(gaps, words) + end == gaps[0] + (words[0] + rest);
      ScanGap(gaps[0], words[0] + rest);
      FieldsAreWordsHead(gaps, words, end, rest);
      ScanLastWord(words[0], rest);
      FieldsAreWords(gaps[1..], words[1..], end);
      assert words == [words[0]] + words[1..];
    }
  }

  lemma FieldsAreWordsHead(gaps: seq<string>, words: seq<string>, end: string, rest: string)
    requires |gaps| == |words| > 0 && AllSpace(end) && rest == Spaced(gaps[1..], words[1..]) + end
    requires forall i | 0 <= i < |words| :: AllSpace(gaps[i]) && (i > 0 ==> gaps[i] != "")
    ensures rest == "" || Space(rest[0])
  {
    if |words| > 1 {
      assert rest[0] == gaps[1][0];
    }
  }

  /** A row is read exactly from four fields: a target; its counts, whole numbers with no more survivors than
      mutants, under "measured" or "stale"; or two dashes under "unknown". */
  lemma RowReadExactly(f: seq<string>, row: Row)
    ensures ParseRow(f) == Ok(row) <==>
            && |f| == 4
            && ((f[3] == "unknown" && f[1] == f[2] == "-" && row == Row(0, 0, Unknown))
                || (((f[3] == "measured" && row.provenance == Measured) || (f[3] == "stale" && row.provenance == Stale))
                    && ParseInt(f[1]) == Some(row.total) && ParseInt(f[2]) == Some(row.survived)
                    && 0 <= row.survived <= row.total))
  {
  }

  /** Why a line is refused. */
  lemma RowRefusedFor(f: seq<string>)
    requires ParseRow(f).Err?
    ensures ParseRow(f).error == if |f| != 4 || f[3] !in {"measured", "stale", "unknown"} then BadShape
                                 else if f[3] == "unknown" then UnknownWithCounts
                                 else BadCounts
  {
  }

  /** The line holds a row, or is meant to: it has a field, and no "#" begins it. */
  ghost predicate HoldsRow(line: string) {
    Fields(line) != [] && Fields(line)[0] != "" && Fields(line)[0][0] != '#'
  }

  lemma HoldsRowExactly(line: string)
    ensures HoldsRow(line) <==> !NoRow(Fields(line))
  {
    ScannedWords(line, "");
    assert Fields(line) != [] ==> Fields(line)[0] in Fields(line);
  }

  /** Every line that should be a row is one, and no two are one target's. */
  ghost predicate Readable(lines: seq<string>) {
    && (forall i | 0 <= i < |lines| && HoldsRow(lines[i]) :: ParseRow(Fields(lines[i])).Ok?)
    && (forall i, j | 0 <= i < j < |lines| && HoldsRow(lines[i]) && HoldsRow(lines[j]) ::
          Fields(lines[i])[0] != Fields(lines[j])[0])
  }

  ghost predicate NamesTarget(lines: seq<string>, t: string) {
    exists i :: 0 <= i < |lines| && HoldsRow(lines[i]) && Fields(lines[i])[0] == t
  }

  /** The rows say what the lines do. */
  ghost predicate SaysLines(rows: Rows, lines: seq<string>) {
    && (forall t :: t in rows <==> NamesTarget(lines, t))
    && (forall i | 0 <= i < |lines| && HoldsRow(lines[i]) ::
          Fields(lines[i])[0] in rows && Ok(rows[Fields(lines[i])[0]]) == ParseRow(Fields(lines[i])))
  }

  lemma ReadableOneMore(front: seq<string>, last: string)
    ensures Readable(front + [last]) <==>
              Readable(front) && (HoldsRow(last) ==> ParseRow(Fields(last)).Ok? && !NamesTarget(front, Fields(last)[0]))
    ensures forall t :: NamesTarget(front + [last], t) <==> NamesTarget(front, t) || (HoldsRow(last) && Fields(last)[0] == t)
  {
    var lines := front + [last];
    assert lines[|front|] == last && forall i | 0 <= i < |front| :: lines[i] == front[i];
  }

  lemma SaysOneMore(rows: Rows, front: seq<string>, last: string)
    requires SaysLines(rows, front) && Readable(front + [last]) && (HoldsRow(last) ==> ParseRow(Fields(last)).Ok?)
    ensures var more := if HoldsRow(last) then rows[Fields(last)[0] := ParseRow(Fields(last)).value] else rows;
      SaysLines(more, front + [last])
  {
    ReadableOneMore(front, last);
    var lines := front + [last];
    assert lines[|front|] == last && forall i | 0 <= i < |front| :: lines[i] == front[i];
    forall i | 0 <= i < |front| && HoldsRow(front[i]) ensures HoldsRow(last) ==> Fields(front[i])[0] != Fields(last)[0] {
      assert NamesTarget(front, Fields(front[i])[0]);
    }
  }

  /** A file is read exactly when its lines are readable, and then it says what they do. */
  lemma {:induction false} RowsExactly(lines: seq<string>)
    ensures RowsOf(lines).Ok? <==> Readable(lines)
    ensures RowsOf(lines).Ok? ==> SaysLines(RowsOf(lines).value, lines)
  {
    if lines != [] {
      var front, last := lines[..|lines| - 1], lines[|lines| - 1];
      assert lines == front + [last];
      RowsExactly(front);
      HoldsRowExactly(last);
      ReadableOneMore(front, last);
      if Readable(lines) {
        SaysOneMore(RowsOf(front).value, front, last);
      }
    }
  }

  /** A file that is not read is refused for its first bad line: for what is wrong with the row, or for naming
      a target an earlier row names. */
  lemma RefusedForFirst(lines: seq<string>, i: nat)
    requires i < |lines| && Readable(lines[..i]) && !Readable(lines[..i] + [lines[i]])
    ensures RowsOf(lines) ==
            Err(if ParseRow(Fields(lines[i])).Err? then ParseRow(Fields(lines[i])).error else DuplicateRow)
  {
    BadLineRefused(lines[..i], lines[i]);
    RowsRefusedAt(lines, i);
  }

  lemma RowsRefusedAt(lines: seq<string>, i: nat)
    requires i < |lines| && RowsOf(lines[..i] + [lines[i]]).Err?
    ensures RowsOf(lines) == RowsOf(lines[..i] + [lines[i]])
  {
    assert lines[..i + 1] == lines[..i] + [lines[i]];
    RowsOfPrefix(lines, i + 1);
  }

  lemma BadLineRefused(front: seq<string>, last: string)
    requires Readable(front) && !Readable(front + [last])
    ensures RowsOf(front + [last]) ==
            Err(if ParseRow(Fields(last)).Err? then ParseRow(Fields(last)).error else DuplicateRow)
  {
    RowsExactly(front);
    HoldsRowExactly(last);
    ReadableOneMore(front, last);
    RowsOfOneMore(front, last);
  }

  /** All newlines at the end go, and nothing else. */
  lemma {:induction false} TrimExactly(s: string) returns (n: nat)
    ensures s == TrimNewlines(s) + seq(n, i => '\n')
    ensures TrimNewlines(s) == "" || TrimNewlines(s)[|TrimNewlines(s)| - 1] != '\n'
  {
    n := 0;
    if s != "" && s[|s| - 1] == '\n' {
      var m := TrimExactly(s[..|s| - 1]);
      n := m + 1;
      assert s == s[..|s| - 1] + ['\n'];
      assert seq(n, i => '\n') == seq(m, i => '\n') + ['\n'];
    }
  }

  // ---- the verdict ------------------------------------------------------------------------------------------------

  datatype Outcome = MeasuredNothing | Unbaselined | NoCountYet | Regressed | Improved | Held

  /** The run judged against its row: by the count of survivors, never by a score. */
  function Check(rows: Rows, target: string, t: Judge.Tally): Outcome {
    if t.notViable == t.Total() then MeasuredNothing
    else if target !in rows then Unbaselined
    else if rows[target].provenance.Unknown? then NoCountYet
    else if t.Survived() > rows[target].survived then Regressed
    else if t.Survived() < rows[target].survived then Improved
    else Held
  }

  /** The outcome in numbers. A run that no test could judge says nothing; one without a row, or whose row
      has no counts, is no pass; otherwise its unverified mutants, survived or never reached, are held
      against the row's, whatever its total. */
  lemma CheckedExactly(rows: Rows, target: string, t: Judge.Tally)
    requires Counted(t)
    ensures var outcome, survivors := Check(rows, target, t), t.lived + t.notCovered;
      && (outcome == MeasuredNothing <==> t.killed + survivors + t.timedOut + t.infraError == 0)
      && (outcome != MeasuredNothing ==>
            && (outcome == Unbaselined <==> target !in rows)
            && (outcome == NoCountYet <==> target in rows && rows[target].provenance == Unknown)
            && (target in rows && rows[target].provenance != Unknown ==>
                  && (outcome == Regressed <==> survivors > rows[target].survived)
                  && (outcome == Improved <==> survivors < rows[target].survived)
                  && (outcome == Held <==> survivors == rows[target].survived)))
  {
  }

  ghost predicate Counted(t: Judge.Tally) {
    t.killed >= 0 && t.lived >= 0 && t.notCovered >= 0 && t.timedOut >= 0 && t.notViable >= 0 && t.infraError >= 0
    && t.Total() < TWO63
  }

  /** A run just recorded holds against the recorded file exactly when its target is one that a row
      can name; from then on exactly the runs that leave more survivors than it regress. */
  lemma RecordedRunHolds(raw: string, target: string, t: Judge.Tally, next: Judge.Tally)
    requires Counted(t) && t.notViable != t.Total() && Baseline(raw).Ok?
    requires next.notViable != next.Total()
    ensures var after := Baseline(Written(raw, target, t.Total(), t.Survived()));
      && (after.Ok? && Check(after.value, target, t) == Held <==> GoodTarget(target))
      && (GoodTarget(target) ==>
            && (Check(after.value, target, next) == Regressed <==> next.Survived() > t.Survived())
            && (forall other | other != target ::
                  Check(after.value, other, next) == Check(Baseline(raw).value, other, next)))
  {
    RecordingChangesOneRow(raw, target, t.Total(), t.Survived());
    OnlyGoodTargetsRead(Written(raw, target, t.Total(), t.Survived()), target);
  }
}
