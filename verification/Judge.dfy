/** The verdict over a sharded mutation run (scripts/mutshard/judge.go): the shards' reports are
    vetted against the plan, their counts summed, and the thresholds judged once over the sum.

    The claim is that cutting a run into shards changes nothing: the reports of any plan, in any
    order, are judged exactly as one unsharded run's report would be. */
module Judge {
  import opened Base
  import Plan

  /** gomutants' status strings: six a finished run leaves, PENDING of a dry run, and any other. */
  datatype Status = Killed | Lived | NotCovered | TimedOut | NotViable | InfraError | Pending | Other(text: string) {
    predicate Finished() { !Pending? && !Other? }
  }

  datatype Mutation = Mutation(id: string, status: Status, line: int)

  function StatusOf(m: Mutation): Status { m.status }

  /** The module-relative file a mutant is in: its id up to the first colon. */
  function FileOf(m: Mutation): string { SplitOn(':', m.id)[0] }

  /** gomutants' own output: the records by file, and its summary counters. */
  datatype Output = Output(
    goModule: string, files: seq<seq<Mutation>>,
    total: int, killed: int, lived: int, notViable: int, notCovered: int, timedOut: int, infraError: int)

  /** The raw report a shard carries: none, bytes that do not decode, or an output. */
  datatype Raw = Absent | Garbled | Parsed(output: Output)

  datatype Report = Report(
    scope: string, head: string, mergeBase: string, shard: int, shards: int, packages: seq<string>, gomutants: Raw)

  /** What every report of one run must agree on with the aggregate. */
  datatype Stamp = Stamp(scope: string, head: string, mergeBase: string)

  datatype JudgeError = MissingShard | Stale | MeasuredNothing | Leak | Unreadable | Efficacy | MutantCoverage {
    /** A refusal to judge, as against a judgement that a threshold is missed. */
    predicate Refusal() { !Efficacy? && !MutantCoverage? }
  }

  datatype Thresholds = Thresholds(efficacy: real, mutantCoverage: real)

  datatype Tally = Tally(killed: int, lived: int, notCovered: int, timedOut: int, notViable: int, infraError: int) {
    function Add(o: Tally): Tally {
      Tally(killed + o.killed, lived + o.lived, notCovered + o.notCovered,
            timedOut + o.timedOut, notViable + o.notViable, infraError + o.infraError)
    }

    function Scored(): int { killed + lived }

    function Total(): int { killed + lived + notCovered + timedOut + notViable + infraError }

    function Survived(): int { lived + notCovered }

    function Efficacy(): real {
      if killed == 0 || killed + lived == 0 then 0.0 else killed as real / (killed + lived) as real * 100.0
    }

    function MutantCoverage(): real {
      if killed + lived == 0 || killed + lived + notCovered == 0 then 0.0
      else (killed + lived) as real / (killed + lived + notCovered) as real * 100.0
    }
  }

  const ZERO := Tally(0, 0, 0, 0, 0, 0)

  /** How many records have each status. */
  function TallyOf(records: seq<Mutation>): Tally
  {
    var statuses := multiset(Map(StatusOf, records));
    Tally(statuses[Killed], statuses[Lived], statuses[NotCovered],
          statuses[TimedOut], statuses[NotViable], statuses[InfraError])
  }

  lemma TallyConcat(a: seq<Mutation>, b: seq<Mutation>)
    ensures TallyOf(a + b) == TallyOf(a).Add(TallyOf(b))
  {
    MapConcat(StatusOf, a, b);
  }

  // ---- Go's path.Dir --------------------------------------------------------------------------

  /** path.Clean's reading of the segments of a path, given those already kept. */
  function CleanSegments(rooted: bool, segments: seq<string>, kept: seq<string>): seq<string> {
    if segments == [] then kept
    else
      var s := segments[0];
      var next :=
        if s == "" || s == "." then kept
        else if s != ".." then kept + [s]
        else if kept != [] && kept[|kept| - 1] != ".." then kept[..|kept| - 1]
        else if rooted then kept
        else kept + [s];
      CleanSegments(rooted, segments[1..], next)
  }

  function Clean(path: string): string {
    var rooted := path != "" && path[0] == '/';
    var body := Join("/", CleanSegments(rooted, SplitOn('/', path), []));
    if rooted then "/" + body else if body == "" then "." else body
  }

  /** path.Dir: all but the last element of file, cleaned. */
  function Dir(file: string): string {
    var segments := SplitOn('/', file);
    var up := Join("/", segments[..|segments| - 1]);
    Clean(if |segments| == 1 then "" else up + "/")
  }

  /** The package directory that owns a mutant. */
  function Owner(m: Mutation): string { Dir(FileOf(m)) }

  ghost predicate PlainSegment(s: string) {
    s != "" && s != "." && s != ".." && '/' !in s
  }

  lemma {:induction false} CleanKeepsPlain(segments: seq<string>, kept: seq<string>)
    requires forall s | s in segments :: PlainSegment(s)
    ensures CleanSegments(false, segments + [""], kept) == kept + segments
  {
    if segments == [] {
      assert segments + [""] == [""];
      assert CleanSegments(false, [""][1..], kept) == kept;
    } else {
      assert segments[0] in segments && forall s | s in segments[1..] :: s in segments;
      assert (segments + [""])[1..] == segments[1..] + [""];
      CleanKeepsPlain(segments[1..], kept + [segments[0]]);
      assert kept + segments == (kept + [segments[0]]) + segments[1..];
    }
  }

  lemma {:induction false} JoinAppend(parts: seq<string>, last: string)
    requires parts != []
    ensures Join("/", parts + [last]) == Join("/", parts) + "/" + last
  {
    if |parts| > 1 {
      assert (parts + [last])[1..] == parts[1..] + [last];
      JoinAppend(parts[1..], last);
    }
  }

  lemma CleanPackage(segments: seq<string>)
    requires segments != [] && forall s | s in segments :: PlainSegment(s)
    ensures Clean(Join("/", segments) + "/") == Join("/", segments)
  {
    var path := Join("/", segments) + "/";
    JoinAppend(segments, "");
    assert path == Join("/", segments + [""]);
    SplitJoin('/', segments + [""]);
    CleanKeepsPlain(segments, []);
    assert [] + segments == segments;
    assert segments[0] in segments;
    assert path[0] == segments[0][0];
  }

  /** A file directly in a planned package is owned by that package. */
  lemma OwnerOfPackageFile(segments: seq<string>, name: string)
    requires segments != [] && '/' !in name && forall s | s in segments :: PlainSegment(s)
    ensures Dir(Join("/", segments) + "/" + name) == Join("/", segments)
  {
    JoinAppend(segments, name);
    SplitJoin('/', segments + [name]);
    assert (segments + [name])[..|segments|] == segments;
    CleanPackage(segments);
  }

  lemma {:induction false} CleanKeepsRooted(segments: seq<string>, kept: seq<string>)
    requires forall s | s in segments :: PlainSegment(s)
    ensures CleanSegments(true, segments + [""], kept) == kept + segments
  {
    if segments == [] {
      assert segments + [""] == [""];
      assert CleanSegments(true, [""][1..], kept) == kept;
    } else {
      assert segments[0] in segments && forall s | s in segments[1..] :: s in segments;
      assert (segments + [""])[1..] == segments[1..] + [""];
      CleanKeepsRooted(segments[1..], kept + [segments[0]]);
      assert kept + segments == (kept + [segments[0]]) + segments[1..];
    }
  }

  lemma SplitRooted(parts: seq<string>)
    requires |parts| > 1 && parts[0] == "" && forall s | s in parts[1..] :: PlainSegment(s)
    ensures SplitOn('/', Join("/", parts) + "/") == [parts[0]] + (parts[1..] + [""])
  {
    JoinAppend(parts, "");
    assert Join("/", parts) + "/" + "" == Join("/", parts) + "/";
    assert forall p | p in parts + [""] :: p == "" || p in parts[1..];
    SplitJoin('/', parts + [""]);
    HeadFirst(parts, "");
  }

  lemma JoinRooted(parts: seq<string>)
    requires |parts| > 1 && parts[0] == ""
    ensures Join("/", parts) == "/" + Join("/", parts[1..])
  {
    assert parts[0] + "/" == "/";
  }

  lemma HeadFirst<T>(s: seq<T>, last: T)
    requires s != []
    ensures s + [last] == [s[0]] + (s[1..] + [last])
  {
  }

  lemma CleanRooted(parts: seq<string>)
    requires |parts| > 1 && parts[0] == "" && forall s | s in parts[1..] :: PlainSegment(s)
    ensures Clean(Join("/", parts) + "/") == Join("/", parts)
  {
    SplitRooted(parts);
    JoinRooted(parts);
    var rest := parts[1..] + [""];
    assert ([""] + rest)[1..] == rest;
    assert CleanSegments(true, [""] + rest, []) == CleanSegments(true, rest, []);
    CleanKeepsRooted(parts[1..], []);
    assert [] + parts[1..] == parts[1..];
  }

  /** A file named from the root of the file system stays so, and belongs to no package of the module. */
  lemma OwnerOfAbsoluteFile(parts: seq<string>, name: string)
    requires |parts| > 1 && parts[0] == "" && '/' !in name && forall s | s in parts[1..] :: PlainSegment(s)
    ensures Dir(Join("/", parts) + "/" + name) == Join("/", parts)
  {
    assert forall p | p in parts :: p == "" || p in parts[1..];
    SplitAppended(parts, name);
    assert (parts + [name])[..|parts|] == parts;
    CleanRooted(parts);
  }

  lemma SplitAppended(parts: seq<string>, name: string)
    requires parts != [] && '/' !in name && forall p | p in parts :: '/' !in p
    ensures SplitOn('/', Join("/", parts) + "/" + name) == parts + [name]
  {
    JoinAppend(parts, name);
    SplitJoin('/', parts + [name]);
  }

  /** A bare file is owned by the root package ".". */
  lemma OwnerOfRootFile(name: string)
    requires '/' !in name
    ensures Dir(name) == "."
  {
    SplitNone('/', name);
    assert [""][1..] == [];
    assert CleanSegments(false, [""], []) == CleanSegments(false, [""][1..], []);
  }

  // ---- one shard's report ---------------------------------------------------------------------

  /** What is wrong with one record of a shard given pkgs, if anything. */
  function RecordFault(pkgs: seq<string>, m: Mutation): Option<JudgeError> {
    if FileOf(m) == "" then Some(Unreadable)
    else if m.status.Pending? then Some(MeasuredNothing)
    else if !m.status.Finished() then Some(Unreadable)
    else if Owner(m) !in pkgs then Some(Leak)
    else None
  }

  function FirstFault(pkgs: seq<string>, records: seq<Mutation>): Option<JudgeError> {
    if records == [] then None
    else
      var front := FirstFault(pkgs, records[..|records| - 1]);
      if front.Some? then front else RecordFault(pkgs, records[|records| - 1])
  }

  lemma {:induction false} FirstFaultOf(pkgs: seq<string>, a: seq<Mutation>, b: seq<Mutation>)
    ensures FirstFault(pkgs, a).Some? ==> FirstFault(pkgs, a + b) == FirstFault(pkgs, a)
  {
    if b == [] {
      assert a + b == a;
    } else {
      assert (a + b)[..|a + b| - 1] == a + b[..|b| - 1];
      FirstFaultOf(pkgs, a, b[..|b| - 1]);
    }
  }

  lemma {:induction false} NoFault(pkgs: seq<string>, records: seq<Mutation>)
    ensures FirstFault(pkgs, records).None? <==> forall m | m in records :: RecordFault(pkgs, m).None?
  {
    if records != [] {
      var front, last := records[..|records| - 1], records[|records| - 1];
      NoFault(pkgs, front);
      assert records == front + [last];
    }
  }

  predicate Agrees(t: Tally, o: Output) {
    && t.Total() == o.total && t.killed == o.killed && t.lived == o.lived && t.notCovered == o.notCovered
    && t.notViable == o.notViable && t.timedOut == o.timedOut && t.infraError == o.infraError
  }

  /** A shard's report as counts, or why it cannot be vouched for. */
  function ShardVerdict(pkgs: seq<string>, raw: Raw): Result<Tally, JudgeError> {
    match raw
    case Absent => Err(MeasuredNothing)
    case Garbled => Err(Unreadable)
    case Parsed(out) =>
      var records := Flatten(out.files);
      if out.goModule == "" then Err(Unreadable)
      else if FirstFault(pkgs, records).Some? then Err(FirstFault(pkgs, records).value)
      else if !Agrees(TallyOf(records), out) then Err(Unreadable)
      else Ok(TallyOf(records))
  }

  /** One more record counted, or why it cannot be. */
  method Count(t: Tally, m: Mutation) returns (next: Tally, fault: Option<JudgeError>)
    ensures fault.None? <==> FileOf(m) != "" && m.status.Finished()
    ensures fault.Some? ==> forall pkgs :: fault == RecordFault(pkgs, m)
    ensures fault.None? ==> next == t.Add(TallyOf([m]))
  {
    fault := None;
    next := t;
    if FileOf(m) == "" {
      return t, Some(Unreadable);
    }
    assert Map(StatusOf, [m]) == [m.status];
    match m.status
    case Killed => next := t.(killed := t.killed + 1);
    case Lived => next := t.(lived := t.lived + 1);
    case NotCovered => next := t.(notCovered := t.notCovered + 1);
    case TimedOut => next := t.(timedOut := t.timedOut + 1);
    case NotViable => next := t.(notViable := t.notViable + 1);
    case InfraError => next := t.(infraError := t.infraError + 1);
    case Pending => fault := Some(MeasuredNothing);
    case Other(_) => fault := Some(Unreadable);
  }

  /** The records of the files before file i, and the first j of file i. */
  function SeenTo(files: seq<seq<Mutation>>, i: nat, j: nat): seq<Mutation>
    requires i < |files| && j <= |files[i]|
  {
    Flatten(files[..i]) + files[i][..j]
  }

  lemma {:induction false} FlattenSplit<T>(parts: seq<seq<T>>, i: nat)
    requires i <= |parts|
    ensures Flatten(parts) == Flatten(parts[..i]) + Flatten(parts[i..])
  {
    if i == 0 {
      assert parts[0..] == parts;
    } else {
      assert parts[..i][1..] == parts[1..][..i - 1];
      FlattenSplit(parts[1..], i - 1);
    }
  }

  lemma SeenWhole(files: seq<seq<Mutation>>, i: nat)
    requires i < |files|
    ensures Flatten(files[..i + 1]) == SeenTo(files, i, |files[i]|)
  {
    FlattenSplit(files[..i + 1], i);
    assert files[..i + 1][..i] == files[..i] && files[..i + 1][i..] == [files[i]];
    assert files[i][..|files[i]|] == files[i];
    assert [files[i]][1..] == [];
  }

  lemma SeenNext(files: seq<seq<Mutation>>, i: nat, j: nat)
    requires i < |files| && j < |files[i]|
    ensures SeenTo(files, i, j + 1) == SeenTo(files, i, j) + [files[i][j]]
    ensures SeenTo(files, i, j + 1) <= Flatten(files)
  {
    var before, file := Flatten(files[..i]), files[i];
    FlattenSplit(files, i + 1);
    SeenWhole(files, i);
    assert before + file == (before + file[..j + 1]) + file[j + 1..];
  }

  /** Reading one more record: a fault in it is the report's, and no fault leaves none so far. */
  lemma NextRecord(pkgs: seq<string>, files: seq<seq<Mutation>>, i: nat, j: nat)
    requires i < |files| && j < |files[i]| && FirstFault(pkgs, SeenTo(files, i, j)).None?
    ensures FirstFault(pkgs, SeenTo(files, i, j + 1)) == RecordFault(pkgs, files[i][j])
    ensures RecordFault(pkgs, files[i][j]).Some? ==>
              FirstFault(pkgs, Flatten(files)) == RecordFault(pkgs, files[i][j])
  {
    SeenNext(files, i, j);
    var next := SeenTo(files, i, j + 1);
    assert next[..|next| - 1] == SeenTo(files, i, j);
    assert Flatten(files) == next + Flatten(files)[|next|..];
    FirstFaultOf(pkgs, next, Flatten(files)[|next|..]);
  }

  method ShardTally(pkgs: seq<string>, raw: Raw) returns (r: Result<Tally, JudgeError>)
    ensures r == ShardVerdict(pkgs, raw)
  {
    match raw
    case Absent => return Err(MeasuredNothing);
    case Garbled => return Err(Unreadable);
    case Parsed(out) =>
      if out.goModule == "" {
        return Err(Unreadable);
      }
      var t, fault := TallyFiles(pkgs, out.files);
      if fault.Some? {
        return Err(fault.value);
      }
      if !Agrees(t, out) {
        return Err(Unreadable);
      }
      return Ok(t);
  }

  /** ShardTally's loops over the files and their records. */
  method TallyFiles(pkgs: seq<string>, files: seq<seq<Mutation>>) returns (t: Tally, fault: Option<JudgeError>)
    ensures fault == FirstFault(pkgs, Flatten(files))
    ensures fault.None? ==> t == TallyOf(Flatten(files))
  {
    t := ZERO;
    for i := 0 to |files|
      invariant t == TallyOf(Flatten(files[..i])) && FirstFault(pkgs, Flatten(files[..i])).None?
    {
      assert SeenTo(files, i, 0) == Flatten(files[..i]);
      for j := 0 to |files[i]|
        invariant t == TallyOf(SeenTo(files, i, j)) && FirstFault(pkgs, SeenTo(files, i, j)).None?
      {
        var m := files[i][j];
        NextRecord(pkgs, files, i, j);
        SeenNext(files, i, j);
        TallyConcat(SeenTo(files, i, j), [m]);
        t, fault := Count(t, m);
        if fault.Some? {
          return;
        }
        if Owner(m) !in pkgs {
          return t, Some(Leak);
        }
      }
      SeenWhole(files, i);
    }
    assert files[..|files|] == files;
    fault := None;
  }

  /** Shard k's report held to the plan and the stamp, then tallied. A shard given nothing counts
      nothing. */
  function Vetted(pkgs: seq<string>, r: Report, st: Stamp): Result<Tally, JudgeError> {
    if r.scope != st.scope || r.head != st.head || r.mergeBase != st.mergeBase || r.packages != pkgs then Err(Stale)
    else if pkgs == [] then Ok(ZERO)
    else ShardVerdict(pkgs, r.gomutants)
  }

  method VetShard(pkgs: seq<string>, r: Report, st: Stamp) returns (v: Result<Tally, JudgeError>)
    ensures v == Vetted(pkgs, r, st)
  {
    if r.scope != st.scope || r.head != st.head || r.mergeBase != st.mergeBase {
      return Err(Stale);
    }
    if r.packages != pkgs {
      return Err(Stale);
    }
    if |pkgs| == 0 {
      return Ok(ZERO);
    }
    v := ShardTally(pkgs, r.gomutants);
  }

  // ---- the union ------------------------------------------------------------------------------

  predicate Reported(reports: seq<Report>, k: int) {
    exists i :: 0 <= i < |reports| && reports[i].shard == k
  }

  /** The first thing wrong with the set of reports, if anything. */
  function IndexFault(n: nat, reports: seq<Report>): Option<JudgeError> {
    if reports == [] then None
    else
      var front, r := reports[..|reports| - 1], reports[|reports| - 1];
      var earlier := IndexFault(n, front);
      if earlier.Some? then earlier
      else if r.shards != n then Some(Stale)
      else if Reported(front, r.shard) || r.shard < 0 || r.shard >= n then Some(MissingShard)
      else None
  }

  /** Shard k's report. */
  function ReportOf(reports: seq<Report>, k: int): Option<Report> {
    if reports == [] then None
    else
      var earlier := ReportOf(reports[..|reports| - 1], k);
      if earlier.Some? then earlier
      else if reports[|reports| - 1].shard == k then Some(reports[|reports| - 1]) else None
  }

  lemma {:induction false} ReportOfReported(reports: seq<Report>, k: int)
    ensures ReportOf(reports, k).Some? <==> Reported(reports, k)
    ensures ReportOf(reports, k).Some? ==> ReportOf(reports, k).value in reports && ReportOf(reports, k).value.shard == k
  {
    if reports != [] {
      var front := reports[..|reports| - 1];
      ReportOfReported(front, k);
      assert reports == front + [reports[|reports| - 1]];
      if i :| 0 <= i < |front| && front[i].shard == k {
        assert reports[i].shard == k;
      }
    }
  }

  lemma {:induction false} IndexFaultPrefix(n: nat, reports: seq<Report>, i: nat)
    requires i <= |reports| && IndexFault(n, reports[..i]).Some?
    ensures IndexFault(n, reports) == IndexFault(n, reports[..i])
    decreases |reports|
  {
    if i < |reports| {
      assert reports[..|reports| - 1][..i] == reports[..i];
      IndexFaultPrefix(n, reports[..|reports| - 1], i);
    } else {
      assert reports[..i] == reports;
    }
  }

  method IndexReports(n: nat, reports: seq<Report>) returns (r: Result<map<int, Report>, JudgeError>)
    ensures r.Err? <==> IndexFault(n, reports).Some?
    ensures r.Err? ==> r.error == IndexFault(n, reports).value
    ensures r.Ok? ==> forall k :: if ReportOf(reports, k).Some?
              then k in r.value && r.value[k] == ReportOf(reports, k).value else k !in r.value
  {
    var byShard: map<int, Report> := map[];
    for i := 0 to |reports|
      invariant IndexFault(n, reports[..i]).None?
      invariant forall k :: if ReportOf(reports[..i], k).Some?
                  then k in byShard && byShard[k] == ReportOf(reports[..i], k).value else k !in byShard
    {
      var p := reports[i];
      assert reports[..i + 1][..i] == reports[..i];
      ReportOfReported(reports[..i], p.shard);
      if p.shards != n {
        IndexFaultPrefix(n, reports, i + 1);
        return Err(Stale);
      }
      if p.shard in byShard || p.shard < 0 || p.shard >= n {
        IndexFaultPrefix(n, reports, i + 1);
        return Err(MissingShard);
      }
      byShard := byShard[p.shard := p];
    }
    assert reports[..|reports|] == reports;
    return Ok(byShard);
  }

  function VetAt(shards: seq<seq<string>>, st: Stamp, reports: seq<Report>, k: nat): Result<Tally, JudgeError>
    requires k < |shards|
  {
    match ReportOf(reports, k)
    case None => Err(MissingShard)
    case Some(r) => Vetted(shards[k], r, st)
  }

  /** Each shard's counts, or why it is refused. */
  function Verdicts(shards: seq<seq<string>>, st: Stamp, reports: seq<Report>): (vs: seq<Result<Tally, JudgeError>>)
    ensures |vs| == |shards|
  {
    seq(|shards|, k requires 0 <= k < |shards| => VetAt(shards, st, reports, k))
  }

  /** The sum over the shards, stopping at the first that is refused. */
  function Summed(verdicts: seq<Result<Tally, JudgeError>>): (Tally, Option<JudgeError>) {
    if verdicts == [] then (ZERO, None)
    else
      var (t, fault) := Summed(verdicts[..|verdicts| - 1]);
      if fault.Some? then (t, fault)
      else
        match verdicts[|verdicts| - 1]
        case Err(e) => (t, Some(e))
        case Ok(u) => (t.Add(u), None)
  }

  /** Failing AT a threshold, not only below it; a zero threshold is not judged. */
  function Assess(th: Thresholds, t: Tally): Option<JudgeError>
  {
    if th.efficacy > 0.0 && t.Efficacy() <= th.efficacy then Some(Efficacy)
    else if th.mutantCoverage > 0.0 && t.MutantCoverage() <= th.mutantCoverage then Some(MutantCoverage)
    else None
  }

  ghost predicate Looked(shards: seq<seq<string>>) {
    exists k :: 0 <= k < |shards| && shards[k] != []
  }

  /** The verdict on a union that is vouched for. */
  ghost function Verdict(looked: bool, t: Tally, th: Thresholds): Option<JudgeError>
  {
    if looked && t.Scored() == 0 then None else Assess(th, t)
  }

  /** Records a shard given pkgs contributes through its report. */
  function RecordsOf(pkgs: seq<string>, r: Report): seq<Mutation> {
    if pkgs != [] && r.gomutants.Parsed? then Flatten(r.gomutants.output.files) else []
  }

  function RecordsAt(shards: seq<seq<string>>, reports: seq<Report>, k: nat): seq<Mutation>
    requires k < |shards|
  {
    match ReportOf(reports, k)
    case None => []
    case Some(r) => RecordsOf(shards[k], r)
  }

  function RecordsTo(shards: seq<seq<string>>, reports: seq<Report>, k: nat): seq<Mutation>
    requires k <= |shards|
  {
    if k == 0 then [] else RecordsTo(shards, reports, k - 1) + RecordsAt(shards, reports, k - 1)
  }

  /** Every record that the reports hold for the plan. */
  function AllRecords(shards: seq<seq<string>>, reports: seq<Report>): seq<Mutation> {
    RecordsTo(shards, reports, |shards|)
  }

  /** Every report is for this run's shards. */
  ghost predicate InRange(n: nat, reports: seq<Report>) {
    forall i | 0 <= i < |reports| :: reports[i].shards == n && 0 <= reports[i].shard < n
  }

  /** No two reports are for one shard. */
  ghost predicate OnePerShard(reports: seq<Report>) {
    forall i, j | 0 <= i < j < |reports| :: reports[i].shard != reports[j].shard
  }

  /** Exactly one report for each of n shards, and none besides. */
  ghost predicate OneEach(n: nat, reports: seq<Report>) {
    InRange(n, reports) && OnePerShard(reports) && forall k | 0 <= k < n :: Reported(reports, k)
  }

  /** A report that shows its shard ran exactly its part of this run, and nothing else. */
  ghost predicate Sound(pkgs: seq<string>, r: Report, st: Stamp) {
    && r.scope == st.scope && r.head == st.head && r.mergeBase == st.mergeBase
    && r.packages == pkgs
    && (pkgs != [] ==>
          && r.gomutants.Parsed? && r.gomutants.output.goModule != ""
          && Agrees(TallyOf(RecordsOf(pkgs, r)), r.gomutants.output)
          && forall m | m in RecordsOf(pkgs, r) :: FileOf(m) != "" && m.status.Finished() && Owner(m) in pkgs)
  }

  /** Exactly one report per shard, none for another plan, and each of them sound. */
  ghost predicate Vouched(shards: seq<seq<string>>, st: Stamp, reports: seq<Report>) {
    && OneEach(|shards|, reports)
    && (forall i | 0 <= i < |reports| && 0 <= reports[i].shard < |shards| ::
          Sound(shards[reports[i].shard], reports[i], st))
  }

  lemma VettedSound(pkgs: seq<string>, r: Report, st: Stamp)
    ensures Vetted(pkgs, r, st).Ok? <==> Sound(pkgs, r, st)
    ensures Sound(pkgs, r, st) ==> Vetted(pkgs, r, st).value == TallyOf(RecordsOf(pkgs, r))
    ensures Vetted(pkgs, r, st).Err? ==> Vetted(pkgs, r, st).error.Refusal()
  {
    var records := RecordsOf(pkgs, r);
    NoFault(pkgs, records);
    FaultsAreRefusals(pkgs, records);
    if pkgs == [] {
      assert Map(StatusOf, records) == [];
    }
  }

  lemma {:induction false} FaultsAreRefusals(pkgs: seq<string>, records: seq<Mutation>)
    ensures FirstFault(pkgs, records).Some? ==> FirstFault(pkgs, records).value.Refusal()
  {
    if records != [] {
      FaultsAreRefusals(pkgs, records[..|records| - 1]);
    }
  }

  lemma OneMoreReport(n: nat, reports: seq<Report>)
    requires reports != []
    ensures var front, r := reports[..|reports| - 1], reports[|reports| - 1];
      && (OnePerShard(reports) <==> OnePerShard(front) && !Reported(front, r.shard))
      && (InRange(n, reports) <==> InRange(n, front) && r.shards == n && 0 <= r.shard < n)
  {
    var front, r := reports[..|reports| - 1], reports[|reports| - 1];
    assert forall i | 0 <= i < |front| :: front[i] == reports[i];
    if Reported(front, r.shard) {
      var i :| 0 <= i < |front| && front[i].shard == r.shard;
      assert reports[i].shard == reports[|front|].shard;
    }
  }

  lemma {:induction false} IndexSound(n: nat, reports: seq<Report>)
    ensures IndexFault(n, reports).None? <==> InRange(n, reports) && OnePerShard(reports)
    ensures IndexFault(n, reports).Some? ==> IndexFault(n, reports).value.Refusal()
  {
    if reports != [] {
      IndexSound(n, reports[..|reports| - 1]);
      OneMoreReport(n, reports);
    }
  }

  lemma {:induction false} SummedFault(verdicts: seq<Result<Tally, JudgeError>>)
    ensures var fault := Summed(verdicts).1;
      && (fault.None? <==> forall k | 0 <= k < |verdicts| :: verdicts[k].Ok?)
      && (fault.Some? ==> exists k :: 0 <= k < |verdicts| && verdicts[k] == Err(fault.value))
  {
    if verdicts != [] {
      SummedFault(verdicts[..|verdicts| - 1]);
    }
  }

  lemma VetAtSound(shards: seq<seq<string>>, st: Stamp, reports: seq<Report>, k: nat)
    requires k < |shards|
    ensures VetAt(shards, st, reports, k).Err? ==> VetAt(shards, st, reports, k).error.Refusal()
    ensures VetAt(shards, st, reports, k).Ok? ==>
              VetAt(shards, st, reports, k).value == TallyOf(RecordsAt(shards, reports, k))
  {
    if ReportOf(reports, k).Some? {
      VettedSound(shards[k], ReportOf(reports, k).value, st);
    }
  }

  lemma {:induction false} SummedSound(shards: seq<seq<string>>, reports: seq<Report>, vs: seq<Result<Tally, JudgeError>>)
    requires |vs| <= |shards|
    requires forall m | 0 <= m < |vs| :: CountsOf(vs[m], RecordsAt(shards, reports, m))
    ensures Summed(vs) == (TallyOf(RecordsTo(shards, reports, |vs|)), None)
  {
    if vs == [] {
      TallyOfNone();
    } else {
      var k := |vs| - 1;
      SummedSound(shards, reports, vs[..k]);
      OneMoreSummed(vs, RecordsTo(shards, reports, k), RecordsAt(shards, reports, k));
    }
  }

  lemma OneMoreSummed(vs: seq<Result<Tally, JudgeError>>, before: seq<Mutation>, at: seq<Mutation>)
    requires vs != [] && Summed(vs[..|vs| - 1]) == (TallyOf(before), None) && CountsOf(vs[|vs| - 1], at)
    ensures Summed(vs) == (TallyOf(before + at), None)
  {
    TallyConcat(before, at);
  }

  predicate CountsOf(v: Result<Tally, JudgeError>, records: seq<Mutation>) {
    v == Ok(TallyOf(records))
  }

  lemma TallyOfNone()
    ensures TallyOf([]) == ZERO
  {
    assert Map(StatusOf, []) == [];
  }

  /** One more shard's counts, or the refusal the sum stops at. */
  lemma SummedNext(vs: seq<Result<Tally, JudgeError>>, k: nat, t: Tally)
    requires k < |vs| && Summed(vs[..k]) == (t, None)
    ensures vs[k].Ok? ==> Summed(vs[..k + 1]) == (t.Add(vs[k].value), None)
    ensures vs[k].Err? ==> Summed(vs) == (t, Some(vs[k].error))
  {
    assert vs[..k + 1][..k] == vs[..k];
    if vs[k].Err? {
      SummedRefusal(vs, k + 1);
    }
  }

  /** The verdict the aggregate reaches. */
  ghost function Judged(shards: seq<seq<string>>, st: Stamp, reports: seq<Report>, th: Thresholds)
    : (Tally, Option<JudgeError>)
  {
    var index := IndexFault(|shards|, reports);
    if index.Some? then (ZERO, index)
    else
      var (t, fault) := Summed(Verdicts(shards, st, reports));
      (t, if fault.Some? then fault else Verdict(Looked(shards), t, th))
  }

  method JudgeUnion(shards: seq<seq<string>>, st: Stamp, reports: seq<Report>, th: Thresholds)
    returns (total: Tally, verdict: Option<JudgeError>)
    ensures (total, verdict) == Judged(shards, st, reports, th)
  {
    total := ZERO;
    var indexed := IndexReports(|shards|, reports);
    if indexed.Err? {
      return ZERO, Some(indexed.error);
    }
    var looked := false;
    ghost var vs := Verdicts(shards, st, reports);
    for k := 0 to |shards|
      invariant Summed(vs[..k]) == (total, None)
      invariant looked <==> exists m :: 0 <= m < k && shards[m] != []
    {
      SummedNext(vs, k, total);
      assert vs[k] == VetAt(shards, st, reports, k);
      if k !in indexed.value {
        assert ReportOf(reports, k).None?;
        return total, Some(MissingShard);
      }
      assert ReportOf(reports, k) == Some(indexed.value[k]);
      var t := VetShard(shards[k], indexed.value[k], st);
      if t.Err? {
        return total, Some(t.error);
      }
      total := total.Add(t.value);
      looked := looked || |shards[k]| > 0;
    }
    assert vs[..|shards|] == vs;
    if looked && total.Scored() == 0 {
      return total, None;
    }
    return total, Assess(th, total);
  }

  /** Once refused, the sum stays refused for the same reason. */
  lemma {:induction false} SummedRefusal(verdicts: seq<Result<Tally, JudgeError>>, k: nat)
    requires k <= |verdicts| && Summed(verdicts[..k]).1.Some?
    ensures Summed(verdicts) == Summed(verdicts[..k])
    decreases |verdicts|
  {
    if k == |verdicts| {
      assert verdicts[..k] == verdicts;
    } else {
      assert verdicts[..|verdicts| - 1][..k] == verdicts[..k];
      SummedRefusal(verdicts[..|verdicts| - 1], k);
    }
  }

  /** When no two reports are for one shard, each is its shard's report. */
  lemma {:induction false} ReportOfOwn(reports: seq<Report>, i: nat)
    requires i < |reports| && OnePerShard(reports)
    ensures ReportOf(reports, reports[i].shard) == Some(reports[i])
  {
    ReportOfReported(reports, reports[i].shard);
    assert Reported(reports, reports[i].shard);
  }

  lemma UnionSound(shards: seq<seq<string>>, st: Stamp, reports: seq<Report>)
    requires IndexFault(|shards|, reports).None?
    ensures Vouched(shards, st, reports) <==> forall k | 0 <= k < |shards| :: VetAt(shards, st, reports, k).Ok?
  {
    IndexSound(|shards|, reports);
    if Vouched(shards, st, reports) {
      forall k | 0 <= k < |shards| ensures VetAt(shards, st, reports, k).Ok? {
        ReportOfReported(reports, k);
        VettedSound(shards[k], ReportOf(reports, k).value, st);
      }
    }
    if forall k | 0 <= k < |shards| :: VetAt(shards, st, reports, k).Ok? {
      forall k | 0 <= k < |shards| ensures Reported(reports, k) {
        ReportOfReported(reports, k);
        assert VetAt(shards, st, reports, k).Ok?;
      }
      forall i | 0 <= i < |reports| ensures Sound(shards[reports[i].shard], reports[i], st) {
        ReportOfOwn(reports, i);
        assert VetAt(shards, st, reports, reports[i].shard).Ok?;
        VettedSound(shards[reports[i].shard], reports[i], st);
      }
    }
  }

  /** The sum goes through exactly when every shard is vetted, and it then counts every record. */
  lemma SumExactly(shards: seq<seq<string>>, st: Stamp, reports: seq<Report>)
    ensures var (t, fault) := Summed(Verdicts(shards, st, reports));
      && (fault.None? <==> forall k | 0 <= k < |shards| :: VetAt(shards, st, reports, k).Ok?)
      && (fault.None? ==> t == TallyOf(AllRecords(shards, reports)))
      && (fault.Some? ==> fault.value.Refusal())
  {
    var n, vs := |shards|, Verdicts(shards, st, reports);
    SummedFault(vs);
    forall k | 0 <= k < n
      ensures vs[k].Err? ==> vs[k].error.Refusal()
      ensures vs[k].Ok? ==> CountsOf(vs[k], RecordsAt(shards, reports, k))
    {
      VetAtSound(shards, st, reports, k);
    }
    if Summed(vs).1.None? {
      SummedSound(shards, reports, vs);
    }
    assert forall k | 0 <= k < n :: vs[k] == VetAt(shards, st, reports, k);
  }

  lemma AssessIsNoRefusal(looked: bool, t: Tally, th: Thresholds)
    ensures Verdict(looked, t, th).Some? ==> !Verdict(looked, t, th).value.Refusal()
  {
  }

  /** A verdict is reached exactly when the union is vouched for: one matching report per shard and
      no record outside its own shard. It is then the verdict over every record, each counted once. */
  lemma JudgedExactly(shards: seq<seq<string>>, st: Stamp, reports: seq<Report>, th: Thresholds)
    ensures var (t, verdict) := Judged(shards, st, reports, th);
      && (Vouched(shards, st, reports) <==> verdict.None? || !verdict.value.Refusal())
      && (Vouched(shards, st, reports) ==>
            && t == TallyOf(AllRecords(shards, reports))
            && verdict == Verdict(Looked(shards), t, th))
  {
    IndexSound(|shards|, reports);
    if IndexFault(|shards|, reports).None? {
      UnionSound(shards, st, reports);
      SumExactly(shards, st, reports);
      AssessIsNoRefusal(Looked(shards), Summed(Verdicts(shards, st, reports)).0, th);
    }
  }

  // ---- sharding changes nothing -----------------------------------------------------------------

  /** The test whether a record belongs to one of pkgs. */
  function OwnedBy(pkgs: seq<string>): Mutation -> bool { m => Owner(m) in pkgs }

  /** The reports, in any order, of a run in which every shard finished and measured its own part of
      records: each is stamped, and lists its records in any order over any files. */
  ghost predicate ReportsRun(shards: seq<seq<string>>, st: Stamp, records: seq<Mutation>, reports: seq<Report>) {
    && OneEach(|shards|, reports)
    && (forall i | 0 <= i < |reports| && 0 <= reports[i].shard < |shards| ::
          Measured(shards[reports[i].shard], st, records, reports[i]))
  }

  ghost predicate Measured(pkgs: seq<string>, st: Stamp, records: seq<Mutation>, r: Report) {
    && r.scope == st.scope && r.head == st.head && r.mergeBase == st.mergeBase
    && r.packages == pkgs
    && (pkgs != [] ==>
          && r.gomutants.Parsed? && r.gomutants.output.goModule != ""
          && Agrees(TallyOf(RecordsOf(pkgs, r)), r.gomutants.output)
          && multiset(RecordsOf(pkgs, r)) == multiset(Filter(OwnedBy(pkgs), records)))
  }

  /** Finished records of mutants in the planned packages. */
  ghost predicate RecordsOfPlan(records: seq<Mutation>, paths: seq<string>) {
    forall m | m in records :: FileOf(m) != "" && m.status.Finished() && Owner(m) in paths
  }

  lemma MeasuredIsSound(pkgs: seq<string>, st: Stamp, records: seq<Mutation>, r: Report, paths: seq<string>)
    requires Measured(pkgs, st, records, r) && RecordsOfPlan(records, paths)
    ensures Sound(pkgs, r, st)
    ensures multiset(RecordsOf(pkgs, r)) == multiset(Filter(OwnedBy(pkgs), records))
  {
    var mine := Filter(OwnedBy(pkgs), records);
    forall m ensures multiset(mine)[m] == if Owner(m) in pkgs then multiset(records)[m] else 0 {
      FilterCount(OwnedBy(pkgs), records, m);
    }
    forall m | m in RecordsOf(pkgs, r) ensures Owner(m) in pkgs && m in records {
      assert m in multiset(RecordsOf(pkgs, r));
      assert m in multiset(mine);
    }
    if pkgs == [] {
      assert multiset(mine) == multiset{};
    }
  }

  lemma HeldAt(
    shards: seq<seq<string>>, st: Stamp, records: seq<Mutation>, reports: seq<Report>, paths: seq<string>, k: nat, m: Mutation)
    requires k < |shards| && ReportsRun(shards, st, records, reports) && RecordsOfPlan(records, paths)
    ensures multiset(RecordsAt(shards, reports, k))[m] == if Owner(m) in shards[k] then multiset(records)[m] else 0
  {
    ReportOfReported(reports, k);
    MeasuredIsSound(shards[k], st, records, ReportOf(reports, k).value, paths);
    FilterCount(OwnedBy(shards[k]), records, m);
  }

  ghost predicate OwnedBefore(shards: seq<seq<string>>, k: nat, m: Mutation)
    requires k <= |shards|
  {
    exists i :: 0 <= i < k && Owner(m) in shards[i]
  }

  lemma CountConcat<T>(a: seq<T>, b: seq<T>, x: T)
    ensures multiset(a + b)[x] == multiset(a)[x] + multiset(b)[x]
  {
  }

  /** A record that at most one shard owns is held as often as it is in records, or not at all. */
  lemma {:induction false} HeldOnce(shards: seq<seq<string>>, reports: seq<Report>, k: nat, m: Mutation, times: nat)
    requires k <= |shards|
    requires forall i, j | 0 <= i < j < |shards| :: !(Owner(m) in shards[i] && Owner(m) in shards[j])
    requires forall i | 0 <= i < |shards| ::
      multiset(RecordsAt(shards, reports, i))[m] == if Owner(m) in shards[i] then times else 0
    ensures multiset(RecordsTo(shards, reports, k))[m] == if OwnedBefore(shards, k, m) then times else 0
  {
    if k > 0 {
      HeldOnce(shards, reports, k - 1, m, times);
      assert OwnedBefore(shards, k - 1, m) ==> Owner(m) !in shards[k - 1] by {
        if i :| 0 <= i < k - 1 && Owner(m) in shards[i] {
          assert !(Owner(m) in shards[i] && Owner(m) in shards[k - 1]);
        }
      }
      assert OwnedBefore(shards, k, m) <==> OwnedBefore(shards, k - 1, m) || Owner(m) in shards[k - 1];
      CountConcat(RecordsTo(shards, reports, k - 1), RecordsAt(shards, reports, k - 1), m);
    }
  }

  lemma RunHoldsRecords(cands: seq<Plan.Candidate>, n: nat, st: Stamp, records: seq<Mutation>, reports: seq<Report>)
    requires n >= 1 && Plan.Distinct(Plan.Paths(cands)) && RecordsOfPlan(records, Plan.Paths(cands))
    requires ReportsRun(Plan.Assigned(cands, n), st, records, reports)
    ensures multiset(AllRecords(Plan.Assigned(cands, n), reports)) == multiset(records)
  {
    var shards := Plan.Assigned(cands, n);
    forall m ensures multiset(AllRecords(shards, reports))[m] == multiset(records)[m] {
      Plan.EveryPathOnExactlyOneShard(cands, n, Owner(m));
      forall i | 0 <= i < n
        ensures multiset(RecordsAt(shards, reports, i))[m] == if Owner(m) in shards[i] then multiset(records)[m] else 0
      {
        HeldAt(shards, st, records, reports, Plan.Paths(cands), i, m);
      }
      HeldOnce(shards, reports, n, m, multiset(records)[m]);
      assert m in multiset(records) ==> m in records;
    }
  }

  /** Any plan's run is judged over exactly the records there are. */
  lemma RunJudged(cands: seq<Plan.Candidate>, n: nat, st: Stamp, records: seq<Mutation>, reports: seq<Report>, th: Thresholds)
    requires cands != [] && n >= 1 && Plan.Distinct(Plan.Paths(cands))
    requires RecordsOfPlan(records, Plan.Paths(cands))
    requires ReportsRun(Plan.Assigned(cands, n), st, records, reports)
    ensures Judged(Plan.Assigned(cands, n), st, reports, th)
         == (TallyOf(records), Verdict(true, TallyOf(records), th))
  {
    var shards, paths := Plan.Assigned(cands, n), Plan.Paths(cands);
    assert Vouched(shards, st, reports) by {
      forall i | 0 <= i < |reports| ensures Sound(shards[reports[i].shard], reports[i], st) {
        MeasuredIsSound(shards[reports[i].shard], st, records, reports[i], paths);
      }
    }
    assert Looked(shards) by {
      Plan.EveryPathOnExactlyOneShard(cands, n, paths[0]);
    }
    JudgedExactly(shards, st, reports, th);
    RunHoldsRecords(cands, n, st, records, reports);
    MapPermutation(StatusOf, AllRecords(shards, reports), records);
  }

  /** However many shards a run is cut into, and in whatever order their reports are collected, the
      verdict and the counts are those of the unsharded run. */
  lemma ShardingPreservesVerdict(
    cands: seq<Plan.Candidate>, n: nat, st: Stamp, records: seq<Mutation>,
    reports: seq<Report>, whole: seq<Report>, th: Thresholds)
    requires cands != [] && n >= 1 && Plan.Distinct(Plan.Paths(cands))
    requires RecordsOfPlan(records, Plan.Paths(cands))
    requires ReportsRun(Plan.Assigned(cands, n), st, records, reports)
    requires ReportsRun(Plan.Assigned(cands, 1), st, records, whole)
    ensures Judged(Plan.Assigned(cands, n), st, reports, th) == Judged(Plan.Assigned(cands, 1), st, whole, th)
  {
    RunJudged(cands, n, st, records, reports, th);
    RunJudged(cands, 1, st, records, whole, th);
  }
}
