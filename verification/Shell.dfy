/** The command a prune report prints for its reader to paste back (cmd/taskloom/prune.go).

    Its words are quoted so that a POSIX shell gives them back unchanged. The shell's side is written
    here from the standard (POSIX.1-2017 Shell Command Language, sections 2.2.1, 2.2.2 and 2.3), and
    refuses any line whose meaning would go beyond field splitting and quote removal. The program then
    reads each --status value as comma-separated values, so a status need not survive its own flag. */
module Shell {
  import opened Base

  // ---- the shell's reading --------------------------------------------------------------------------

  /** The characters that always stand for themselves in a word after the first: none that ends a word or
      quotes, and none that begins an expansion, a pattern or a comment. */
  predicate Ordinary(c: char) {
    c !in "|&;<>()$`\\\"' \t\n" && c !in "*?[]#~!{}^"
  }

  predicate Blank(c: char) { c == ' ' || c == '\t' }

  /** The fields of line outside quotes; field is the one being read, if any. A character that would
      be an operator, an expansion or a pattern refuses the line. */
  function Unquoted(line: string, field: Option<string>): Option<seq<string>>
    decreases |line|
  {
    var text := if field.Some? then field.value else "";
    if line == "" then Some(if field.Some? then [text] else [])
    else if Blank(line[0]) then
      var rest := Unquoted(line[1..], None);
      if rest.Some? && field.Some? then Some([text] + rest.value) else rest
    else if line[0] == '\'' then Quoted(line[1..], text)
    else if line[0] == '\\' then
      if |line| == 1 then None
      else if line[1] == '\n' then Unquoted(line[2..], field)
      else Unquoted(line[2..], Some(text + [line[1]]))
    else if Ordinary(line[0]) then Unquoted(line[1..], Some(text + [line[0]]))
    else None
  }

  /** The fields of line from inside single quotes, where every character stands for itself. */
  function Quoted(line: string, text: string): Option<seq<string>>
    decreases |line|
  {
    if line == "" then None
    else if line[0] == '\'' then Unquoted(line[1..], Some(text))
    else Quoted(line[1..], text + [line[0]])
  }

  /** The words a shell passes on from line. */
  function Words(line: string): Option<seq<string>> { Unquoted(line, None) }

  // ---- quoting ----------------------------------------------------------------------------------------

  /** The characters the report leaves unquoted. */
  predicate Literal(c: char) {
    'a' <= c <= 'z' || 'A' <= c <= 'Z' || '0' <= c <= '9' || c in "@%+,-./:=_"
  }

  predicate Plain(s: string) {
    s != "" && forall i | 0 <= i < |s| :: Literal(s[i])
  }

  /** strings.ReplaceAll of each ' by '\''. */
  function Escape(s: string): string {
    if s == "" then "" else (if s[0] == '\'' then "'\\''" else [s[0]]) + Escape(s[1..])
  }

  function ShellWord(s: string): string {
    if Plain(s) then s else "'" + Escape(s) + "'"
  }

  lemma LiteralIsOrdinary(c: char)
    requires Literal(c)
    ensures Ordinary(c) && !Blank(c)
  {
  }

  lemma {:induction false} EscapeLength(s: string)
    ensures |Escape(s)| >= |s|
  {
    if s != "" {
      EscapeLength(s[1..]);
    }
  }

  /** A word is printed bare exactly when there is something in it and it is all letters, digits and marks
      that no shell minds. */
  lemma BareExactly(s: string)
    ensures ShellWord(s) == s <==>
            s != "" && forall c | c in s :: 'a' <= c <= 'z' || 'A' <= c <= 'Z' || '0' <= c <= '9' || c in "@%+,-./:=_"
  {
    EscapeLength(s);
    assert (forall c | c in s :: Literal(c)) <==> forall i | 0 <= i < |s| :: Literal(s[i]);
  }

  lemma {:induction false} ReadPlain(s: string, rest: string, text: string)
    requires forall i | 0 <= i < |s| :: Literal(s[i])
    ensures Unquoted(s + rest, Some(text)) == Unquoted(rest, Some(text + s))
  {
    if s == "" {
      assert s + rest == rest && text + s == text;
    } else {
      var line := s + rest;
      assert line[0] == s[0] && line[1..] == s[1..] + rest;
      LiteralIsOrdinary(s[0]);
      ReadPlain(s[1..], rest, text + [s[0]]);
      assert (text + [s[0]]) + s[1..] == text + s;
    }
  }

  lemma {:induction false} ReadEscaped(s: string, rest: string, text: string)
    ensures Quoted(Escape(s) + "'" + rest, text) == Unquoted(rest, Some(text + s))
  {
    var line := Escape(s) + "'" + rest;
    if s == "" {
      assert line[0] == '\'' && line[1..] == rest && text + s == text;
    } else {
      var tail := Escape(s[1..]) + "'" + rest;
      ReadEscaped(s[1..], rest, text + [s[0]]);
      assert (text + [s[0]]) + s[1..] == text + s;
      if s[0] == '\'' {
        assert line == "'\\''" + tail;
        var inner := "\\''" + tail;
        assert line[0] == '\'' && line[1..] == inner;
        assert inner[0] == '\\' && inner[1] == '\'' && inner[2..] == "'" + tail;
        assert ("'" + tail)[1..] == tail;
        assert Unquoted("'" + tail, Some(text + ['\''])) == Quoted(tail, text + ['\'']);
      } else {
        assert line == [s[0]] + tail;
        assert line[1..] == tail;
      }
    }
  }

  lemma ReadBare(s: string, rest: string)
    requires Plain(s)
    ensures Unquoted(s + rest, None) == Unquoted(rest, Some(s))
  {
    var line := s + rest;
    assert line[0] == s[0] && line[1..] == s[1..] + rest;
    LiteralIsOrdinary(s[0]);
    ReadPlain(s[1..], rest, "" + [s[0]]);
    assert ("" + [s[0]]) + s[1..] == s;
  }

  lemma ReadQuoted(s: string, rest: string)
    ensures Unquoted("'" + Escape(s) + "'" + rest, None) == Unquoted(rest, Some(s))
  {
    var line := "'" + Escape(s) + "'" + rest;
    assert line[0] == '\'' && line[1..] == Escape(s) + "'" + rest;
    ReadEscaped(s, rest, "");
    assert "" + s == s;
  }

  /** A quoted word is read back as itself, whatever follows it. */
  lemma ReadWord(s: string, rest: string)
    ensures Unquoted(ShellWord(s) + rest, None) == Unquoted(rest, Some(s))
  {
    if Plain(s) {
      ReadBare(s, rest);
    } else {
      ReadQuoted(s, rest);
    }
  }

  /** Any words, quoted and joined by spaces, are read back as exactly those words: empty ones, ones
      with blanks, quotes, newlines and operators included. */
  lemma {:induction false} ShellGivesWordsBack(words: seq<string>)
    ensures Words(Join(" ", Map(ShellWord, words))) == Some(words)
  {
    var line := Join(" ", Map(ShellWord, words));
    if words != [] {
      if |words| == 1 {
        assert line == ShellWord(words[0]) + "";
        ReadWord(words[0], "");
        assert [words[0]] == words;
      } else {
        assert Map(ShellWord, words)[1..] == Map(ShellWord, words[1..]);
        var rest := Join(" ", Map(ShellWord, words[1..]));
        assert line == ShellWord(words[0]) + (" " + rest);
        ReadWord(words[0], " " + rest);
        assert (" " + rest)[1..] == rest;
        ShellGivesWordsBack(words[1..]);
        assert [words[0]] + words[1..] == words;
      }
    }
  }

  // ---- the prune command --------------------------------------------------------------------------------

  /** The selection of a prune, as typed. */
  datatype Options = Options(olderThan: string, statuses: seq<string>, tagQuery: string, yes: bool)

  const DEFAULTS := Options("7d", ["Done"], "", false)

  function StatusFlags(statuses: seq<string>): seq<string> {
    if statuses == [] then [] else StatusFlags(statuses[..|statuses| - 1]) + ["--status", statuses[|statuses| - 1]]
  }

  /** The arguments that make the selection and apply it. */
  function Argv(o: Options): seq<string> {
    ["taskloom", "prune", "--older-than", o.olderThan] + StatusFlags(o.statuses)
    + (if o.tagQuery != "" then ["--tag-query", o.tagQuery] else []) + ["--yes"]
  }

  lemma ProgramIsPlain()
    ensures Plain("taskloom") && Plain("prune")
  {
  }

  lemma FlagIsPlain()
    ensures Plain("--older-than")
  {
  }

  lemma FixedWords(value: string)
    ensures ["taskloom", "prune", "--older-than", ShellWord(value)]
         == Map(ShellWord, ["taskloom", "prune", "--older-than", value])
  {
    ProgramIsPlain();
    FlagIsPlain();
    assert ShellWord("taskloom") == "taskloom" && ShellWord("prune") == "prune";
    assert ShellWord("--older-than") == "--older-than";
  }

  lemma FlagQuoted(words: seq<string>, args: seq<string>, flag: string, value: string)
    requires words == Map(ShellWord, args) && Plain(flag)
    ensures words + [flag, ShellWord(value)] == Map(ShellWord, args + [flag, value])
  {
    MapConcat(ShellWord, args, [flag, value]);
    assert Map(ShellWord, [flag, value]) == [flag, ShellWord(value)];
  }

  lemma OneMoreStatus(statuses: seq<string>, i: nat, args: seq<string>)
    requires i < |statuses|
    ensures args + StatusFlags(statuses[..i + 1]) == (args + StatusFlags(statuses[..i])) + ["--status", statuses[i]]
  {
    assert statuses[..i + 1][..i] == statuses[..i];
  }

  method PruneApplyCommand(o: Options) returns (line: string)
    ensures line == Join(" ", Map(ShellWord, Argv(o)))
  {
    ghost var args := ["taskloom", "prune", "--older-than", o.olderThan];
    var words := ["taskloom", "prune", "--older-than", ShellWord(o.olderThan)];
    FixedWords(o.olderThan);
    words := QuoteStatuses(words, args, o.statuses);
    line := FinishCommand(words, args + StatusFlags(o.statuses), o.tagQuery);
  }

  /** PruneApplyCommand's loop over the statuses. */
  method QuoteStatuses(start: seq<string>, ghost args: seq<string>, statuses: seq<string>) returns (words: seq<string>)
    requires start == Map(ShellWord, args)
    ensures words == Map(ShellWord, args + StatusFlags(statuses))
  {
    words := start;
    assert args + StatusFlags(statuses[..0]) == args;
    for i := 0 to |statuses|
      invariant words == Map(ShellWord, args + StatusFlags(statuses[..i]))
    {
      OneMoreStatus(statuses, i, args);
      FlagQuoted(words, args + StatusFlags(statuses[..i]), "--status", statuses[i]);
      words := words + ["--status", ShellWord(statuses[i])];
    }
    assert statuses[..|statuses|] == statuses;
  }

  /** PruneApplyCommand's last words: the tag query, if any, and --yes. */
  method FinishCommand(start: seq<string>, ghost args: seq<string>, tagQuery: string) returns (line: string)
    requires start == Map(ShellWord, args)
    ensures line == Join(" ", Map(ShellWord, args + (if tagQuery != "" then ["--tag-query", tagQuery] else []) + ["--yes"]))
  {
    var words := start;
    if tagQuery != "" {
      FlagQuoted(words, args, "--tag-query", tagQuery);
      words := words + ["--tag-query", ShellWord(tagQuery)];
      line := JoinWithYes(words, args + ["--tag-query", tagQuery]);
    } else {
      assert args + [] == args;
      line := JoinWithYes(words, args);
    }
  }

  method JoinWithYes(words: seq<string>, ghost args: seq<string>) returns (line: string)
    requires words == Map(ShellWord, args)
    ensures line == Join(" ", Map(ShellWord, args + ["--yes"]))
  {
    MapConcat(ShellWord, args, ["--yes"]);
    assert Map(ShellWord, ["--yes"]) == ["--yes"];
    line := Join(" ", words + ["--yes"]);
  }

  // ---- the command line read back ---------------------------------------------------------------------

  /** What encoding/csv makes of the line ends of a value: CR LF is one newline, and a CR that ends the
      value is dropped. */
  function LineEnds(s: string): string {
    if s == "" || s == "\r" then ""
    else if |s| >= 2 && s[0] == '\r' && s[1] == '\n' then ['\n'] + LineEnds(s[2..])
    else [s[0]] + LineEnds(s[1..])
  }

  /** Empty lines hold no record. */
  function SkipBlank(s: string): string {
    if s != "" && s[0] == '\n' then SkipBlank(s[1..]) else s
  }

  /** The fields of the record that s goes on with. */
  function CsvFields(s: string): Option<seq<string>>
    decreases |s|, 1
  {
    if s != "" && s[0] == '"' then CsvQuoted(s[1..], "") else CsvPlain(s, "")
  }

  function CsvPlain(s: string, field: string): Option<seq<string>>
    decreases |s|, 0
  {
    if s == "" || s[0] == '\n' then if '"' in field then None else Some([field])
    else if s[0] == ',' then
      var rest := CsvFields(s[1..]);
      if '"' in field || rest.None? then None else Some([field] + rest.value)
    else CsvPlain(s[1..], field + [s[0]])
  }

  function CsvQuoted(s: string, field: string): Option<seq<string>>
    decreases |s|, 0
  {
    if s == "" then None
    else if s[0] != '"' then CsvQuoted(s[1..], field + [s[0]])
    else if |s| == 1 || s[1] == '\n' then Some([field])
    else if s[1] == '"' then CsvQuoted(s[2..], field + ['"'])
    else if s[1] == ',' then
      var rest := CsvFields(s[2..]);
      if rest.None? then None else Some([field] + rest.value)
    else None
  }

  /** The values one --status adds: its argument read as a record of comma-separated values. */
  function CsvValues(s: string): Option<seq<string>> {
    if s == "" then Some([])
    else
      var record := SkipBlank(LineEnds(s));
      if record == "" then None else CsvFields(record)
  }

  /** A status that is read back as itself. */
  predicate Survives(s: string) {
    s != "" && ',' !in s && '"' !in s && '\n' !in s && s[|s| - 1] != '\r'
  }

  function Length(s: string): int { |s| }

  lemma {:induction false} LineEndsKept(s: string)
    ensures |LineEnds(s)| <= |s|
    ensures s != "" && s[|s| - 1] == '\r' ==> |LineEnds(s)| < |s|
    ensures '\n' !in s && (s == "" || s[|s| - 1] != '\r') ==> LineEnds(s) == s
    ensures |LineEnds(s)| == |s| ==> LineEnds(s) == s
    decreases |s|
  {
    if s == "" || s == "\r" {
    } else if |s| >= 2 && s[0] == '\r' && s[1] == '\n' {
      LineEndsKept(s[2..]);
      assert s[1] in s;
    } else {
      LineEndsKept(s[1..]);
    }
  }

  lemma {:induction false} SkipBlankShortens(s: string)
    ensures |SkipBlank(s)| <= |s|
    ensures |SkipBlank(s)| == |s| ==> SkipBlank(s) == s
  {
    if s != "" && s[0] == '\n' {
      SkipBlankShortens(s[1..]);
    }
  }

  /** Reading a record only ever loses characters, and loses none only of a plain single field. */
  lemma CsvLoses(s: string)
    ensures CsvFields(s).Some? ==> SumBy(Length, CsvFields(s).value) <= |s|
    ensures CsvFields(s).Some? && SumBy(Length, CsvFields(s).value) == |s| ==>
              CsvFields(s).value == [s] && ',' !in s && '"' !in s && '\n' !in s
    decreases |s|, 1
  {
    if s != "" && s[0] == '"' {
      CsvQuotedLoses(s[1..], "");
    } else {
      CsvPlainLoses(s, "");
      assert "" + s == s;
    }
  }

  lemma CsvPlainLoses(s: string, field: string)
    requires ',' !in field && '\n' !in field
    ensures CsvPlain(s, field).Some? ==> SumBy(Length, CsvPlain(s, field).value) <= |field| + |s|
    ensures CsvPlain(s, field).Some? && SumBy(Length, CsvPlain(s, field).value) == |field| + |s| ==>
              CsvPlain(s, field).value == [field + s] && ',' !in field + s && '"' !in field + s && '\n' !in field + s
    decreases |s|, 0
  {
    if s == "" {
      assert field + s == field;
    } else if s[0] == '\n' {
    } else if s[0] == ',' {
      CsvLoses(s[1..]);
      if CsvPlain(s, field).Some? {
        assert CsvPlain(s, field).value[1..] == CsvFields(s[1..]).value;
      }
    } else {
      CsvPlainLoses(s[1..], field + [s[0]]);
      assert (field + [s[0]]) + s[1..] == field + s;
    }
  }

  lemma CsvQuotedLoses(s: string, field: string)
    ensures CsvQuoted(s, field).Some? ==> SumBy(Length, CsvQuoted(s, field).value) <= |field| + |s|
    decreases |s|, 0
  {
    if s == "" {
    } else if s[0] != '"' {
      CsvQuotedLoses(s[1..], field + [s[0]]);
    } else if |s| == 1 || s[1] == '\n' {
    } else if s[1] == '"' {
      CsvQuotedLoses(s[2..], field + ['"']);
    } else if s[1] == ',' {
      CsvLoses(s[2..]);
      if CsvQuoted(s, field).Some? {
        assert CsvQuoted(s, field).value[1..] == CsvFields(s[2..]).value;
      }
    }
  }

  lemma {:induction false} CsvPlainKeeps(s: string, field: string)
    requires ',' !in s && '\n' !in s && '"' !in s && '"' !in field
    ensures CsvPlain(s, field) == Some([field + s])
    decreases |s|
  {
    if s == "" {
      assert field + s == field;
    } else {
      assert s[0] in s;
      CsvPlainKeeps(s[1..], field + [s[0]]);
      assert (field + [s[0]]) + s[1..] == field + s;
    }
  }

  /** A status comes back as the one value it is exactly when it survives; whatever else it is read as
      is shorter. */
  lemma ReadsAsItself(s: string)
    ensures CsvValues(s) == Some([s]) <==> Survives(s)
    ensures CsvValues(s).Some? ==> SumBy(Length, CsvValues(s).value) <= |s|
    ensures CsvValues(s).Some? && s != "" && !Survives(s) ==> SumBy(Length, CsvValues(s).value) < |s|
  {
    if s != "" {
      var ends := LineEnds(s);
      var record := SkipBlank(ends);
      LineEndsKept(s);
      SkipBlankShortens(ends);
      CsvLoses(record);
      assert SumBy(Length, [s]) == |s| by {
        assert [s][1..] == [];
      }
      if Survives(s) {
        assert s[0] in s;
        CsvPlainKeeps(s, "");
        assert "" + s == s;
      }
    }
  }

  /** The flags gathered so far; the first --status puts the default statuses aside. */
  datatype Flags = Flags(olderThan: string, statuses: Option<seq<string>>, tagQuery: string, yes: bool) {
    function Given(): seq<string> { if statuses.Some? then statuses.value else [] }
  }

  function ReadFlags(args: seq<string>, f: Flags): Option<Flags>
    decreases |args|
  {
    if args == [] then Some(f)
    else if args[0] == "--yes" then ReadFlags(args[1..], f.(yes := true))
    else if |args| == 1 then None
    else if args[0] == "--older-than" then ReadFlags(args[2..], f.(olderThan := args[1]))
    else if args[0] == "--tag-query" then ReadFlags(args[2..], f.(tagQuery := args[1]))
    else if args[0] == "--status" then
      match CsvValues(args[1])
      case None => None
      case Some(more) => ReadFlags(args[2..], f.(statuses := Some(f.Given() + more)))
    else None
  }

  /** The options a command line selects. */
  function ReadCommand(argv: seq<string>): Option<Options> {
    if |argv| < 2 || argv[..2] != ["taskloom", "prune"] then None
    else
      match ReadFlags(argv[2..], Flags(DEFAULTS.olderThan, None, DEFAULTS.tagQuery, DEFAULTS.yes))
      case None => None
      case Some(f) =>
        Some(Options(f.olderThan, if f.statuses.Some? then f.statuses.value else DEFAULTS.statuses, f.tagQuery, f.yes))
  }

  /** The values all the --status flags add. */
  function ValuesOf(statuses: seq<string>): Option<seq<string>> {
    if statuses == [] then Some([])
    else
      var front, last := ValuesOf(statuses[..|statuses| - 1]), CsvValues(statuses[|statuses| - 1]);
      if front.None? || last.None? then None else Some(front.value + last.value)
  }

  lemma {:induction false} ReadStatuses(statuses: seq<string>, rest: seq<string>, f: Flags)
    ensures var vs := ValuesOf(statuses);
      ReadFlags(StatusFlags(statuses) + rest, f) ==
        if vs.None? then None
        else ReadFlags(rest, if statuses == [] then f else f.(statuses := Some(f.Given() + vs.value)))
    decreases |statuses|
  {
    if statuses == [] {
      assert StatusFlags(statuses) + rest == rest;
    } else {
      var front, last := statuses[..|statuses| - 1], statuses[|statuses| - 1];
      var tail := ["--status", last] + rest;
      assert StatusFlags(statuses) + rest == StatusFlags(front) + tail;
      ReadStatuses(front, tail, f);
      assert tail[2..] == rest;
      if ValuesOf(statuses).Some? {
        assert (f.Given() + ValuesOf(front).value) + CsvValues(last).value == f.Given() + ValuesOf(statuses).value;
        assert front == [] ==> f.Given() + CsvValues(last).value == f.Given() + ValuesOf(statuses).value;
      }
    }
  }

  lemma ReadArgv(o: Options)
    ensures var vs := ValuesOf(o.statuses);
      ReadFlags(Argv(o)[2..], Flags(DEFAULTS.olderThan, None, DEFAULTS.tagQuery, DEFAULTS.yes)) ==
        if vs.None? then None
        else Some(Flags(o.olderThan, if o.statuses == [] then None else Some(vs.value), o.tagQuery, true))
  {
    var query := if o.tagQuery != "" then ["--tag-query", o.tagQuery] else [];
    var rest := query + ["--yes"];
    var flags := ["--older-than", o.olderThan] + (StatusFlags(o.statuses) + rest);
    assert Argv(o)[2..] == flags && flags[2..] == StatusFlags(o.statuses) + rest;
    var f := Flags(o.olderThan, None, DEFAULTS.tagQuery, DEFAULTS.yes);
    ReadStatuses(o.statuses, rest, f);
    assert ValuesOf(o.statuses).Some? ==> f.Given() + ValuesOf(o.statuses).value == ValuesOf(o.statuses).value;
    assert ["--yes"][1..] == [];
    if o.tagQuery != "" {
      assert rest[2..] == ["--yes"];
    } else {
      assert rest == ["--yes"];
    }
  }

  lemma {:induction false} ValuesLose(statuses: seq<string>)
    ensures ValuesOf(statuses).Some? ==> SumBy(Length, ValuesOf(statuses).value) <= SumBy(Length, statuses)
    ensures ValuesOf(statuses).Some? && SumBy(Length, ValuesOf(statuses).value) == SumBy(Length, statuses) ==>
              |ValuesOf(statuses).value| <= |statuses|
              && (|ValuesOf(statuses).value| == |statuses| ==> forall i | 0 <= i < |statuses| :: Survives(statuses[i]))
    decreases |statuses|
  {
    if statuses != [] {
      var front, last := statuses[..|statuses| - 1], statuses[|statuses| - 1];
      ValuesLose(front);
      ReadsAsItself(last);
      SumByConcat(Length, front, [last]);
      assert statuses == front + [last] && [last][1..] == [];
      if ValuesOf(statuses).Some? {
        SumByConcat(Length, ValuesOf(front).value, CsvValues(last).value);
      }
    }
  }

  lemma {:induction false} SurvivorsReadBack(statuses: seq<string>)
    requires forall i | 0 <= i < |statuses| :: Survives(statuses[i])
    ensures ValuesOf(statuses) == Some(statuses)
    decreases |statuses|
  {
    if statuses != [] {
      var front, last := statuses[..|statuses| - 1], statuses[|statuses| - 1];
      SurvivorsReadBack(front);
      ReadsAsItself(last);
      assert statuses == front + [last];
    }
  }

  /** Pasted back, the printed command gives the program exactly the printed words; and they select what
      was reported exactly when some status is given and each is read back as itself. */
  lemma PastedCommandSelectsTheSame(o: Options)
    ensures Words(Join(" ", Map(ShellWord, Argv(o)))) == Some(Argv(o))
    ensures ReadCommand(Argv(o)) == Some(o.(yes := true)) <==>
            o.statuses != [] && forall i | 0 <= i < |o.statuses| :: Survives(o.statuses[i])
  {
    ShellGivesWordsBack(Argv(o));
    ReadArgv(o);
    assert Argv(o)[..2] == ["taskloom", "prune"];
    ValuesLose(o.statuses);
    if forall i | 0 <= i < |o.statuses| :: Survives(o.statuses[i]) {
      SurvivorsReadBack(o.statuses);
    }
  }
}
