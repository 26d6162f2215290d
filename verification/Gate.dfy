/** What the gate of a sharded run decides (scripts/mutshard/judge.go), said of the records alone.

    How many mutants were killed, how many lived and how many went uncovered fixes the verdict; what is
    wrong with the first report or record at fault fixes the refusal. Nothing here speaks of tallies,
    ratios or the functions that compute them. */
module Gate {
  import opened Base
  import opened Judge

  /** How many of the records have the status. */
  function HowMany(records: seq<Mutation>, s: Status): nat {
    if records == [] then 0
    else HowMany(records[..|records| - 1], s) + One(records[|records| - 1], s)
  }

  /** The tally counts the records of each status under its name. */
  ghost predicate Tells(t: Tally, records: seq<Mutation>) {
    && t.killed == HowMany(records, Killed) && t.lived == HowMany(records, Lived)
    && t.notCovered == HowMany(records, NotCovered) && t.timedOut == HowMany(records, TimedOut)
    && t.notViable == HowMany(records, NotViable) && t.infraError == HowMany(records, InfraError)
  }

  function One(m: Mutation, s: Status): nat { if m.status == s then 1 else 0 }

  lemma TallyOfOne(m: Mutation)
    ensures TallyOf([m]) == Tally(One(m, Killed), One(m, Lived), One(m, NotCovered),
                                  One(m, TimedOut), One(m, NotViable), One(m, InfraError))
  {
    assert Map(StatusOf, [m]) == [m.status];
  }

  lemma TellsMore(t: Tally, u: Tally, records: seq<Mutation>, last: Mutation)
    requires records != [] && last == records[|records| - 1] && Tells(t, records[..|records| - 1])
    requires u == Tally(One(last, Killed), One(last, Lived), One(last, NotCovered),
                        One(last, TimedOut), One(last, NotViable), One(last, InfraError))
    ensures Tells(t.Add(u), records)
  {
  }

  lemma {:induction false} TallyCounts(records: seq<Mutation>)
    ensures Tells(TallyOf(records), records)
  {
    if records == [] {
      assert Map(StatusOf, records) == [];
    } else {
      var front, last := records[..|records| - 1], records[|records| - 1];
      TallyCounts(front);
      TallyOfOne(last);
      TellsMore(TallyOf(front), TallyOf([last]), records, last);
      assert TallyOf(records) == TallyOf(front).Add(TallyOf([last])) by {
        assert records == front + [last];
        TallyConcat(front, [last]);
      }
    }
  }

  /** Every finished record has one of the six statuses. */
  lemma {:induction false} AllAreCounted(records: seq<Mutation>)
    requires forall m | m in records :: m.status.Finished()
    ensures HowMany(records, Killed) + HowMany(records, Lived) + HowMany(records, NotCovered)
          + HowMany(records, TimedOut) + HowMany(records, NotViable) + HowMany(records, InfraError) == |records|
  {
    if records != [] {
      var front, last := records[..|records| - 1], records[|records| - 1];
      assert records == front + [last] && last in records && forall m | m in front :: m in records;
      AllAreCounted(front);
    }
  }

  // ---- the verdict --------------------------------------------------------------------------------------

  /** Scoring k kills and l survivors at a threshold, in percent: below it or at it is failing. */
  lemma EfficacyFails(t: Tally, threshold: real)
    requires t.killed >= 0 && t.lived >= 0 && threshold > 0.0
    ensures t.Efficacy() <= threshold <==> 100.0 * t.killed as real <= threshold * (t.killed + t.lived) as real
  {
    if t.killed != 0 {
      RatioAtMost(t.killed as real, (t.killed + t.lived) as real, threshold);
    } else {
      ProductNonNegative(threshold, (t.killed + t.lived) as real);
    }
  }

  lemma CoverageFails(t: Tally, threshold: real)
    requires t.killed >= 0 && t.lived >= 0 && t.notCovered >= 0 && threshold > 0.0
    ensures t.MutantCoverage() <= threshold <==>
            100.0 * (t.killed + t.lived) as real <= threshold * (t.killed + t.lived + t.notCovered) as real
  {
    if t.killed + t.lived != 0 {
      RatioAtMost((t.killed + t.lived) as real, (t.killed + t.lived + t.notCovered) as real, threshold);
    } else {
      ProductNonNegative(threshold, (t.killed + t.lived + t.notCovered) as real);
    }
  }

  lemma ProductNonNegative(x: real, y: real)
    requires x >= 0.0 && y >= 0.0
    ensures x * y >= 0.0
  {
  }

  lemma RatioAtMost(a: real, b: real, limit: real)
    requires b > 0.0
    ensures a / b * 100.0 <= limit <==> 100.0 * a <= limit * b
  {
    var q := a / b;
    assert q * b == a;
    if q * 100.0 <= limit {
      Scale(q * 100.0, limit, b);
    } else {
      Scale(limit, q * 100.0, b);
      StrictScale(limit, q * 100.0, b);
    }
    assert (q * 100.0) * b == 100.0 * (q * b);
  }

  lemma Scale(x: real, y: real, b: real)
    requires x <= y && b > 0.0
    ensures x * b <= y * b
  {
  }

  lemma StrictScale(x: real, y: real, b: real)
    requires x < y && b > 0.0
    ensures x * b < y * b
  {
  }

  /** The gate over the numbers of killed, surviving and uncovered mutants: killed against killed and
      lived, then those against the uncovered too. At a threshold, not only below it, is failing; a zero
      threshold is not judged; and nothing is when some shard had work and no mutant was scored. */
  function Gated(worked: bool, killed: nat, lived: nat, missed: nat, th: Thresholds): Option<JudgeError> {
    if worked && killed + lived == 0 then None
    else if th.efficacy > 0.0 && 100.0 * killed as real <= th.efficacy * (killed + lived) as real then Some(Efficacy)
    else if th.mutantCoverage > 0.0
         && 100.0 * (killed + lived) as real <= th.mutantCoverage * (killed + lived + missed) as real
    then Some(MutantCoverage)
    else None
  }

  lemma VerdictIsGated(worked: bool, t: Tally, th: Thresholds)
    requires t.killed >= 0 && t.lived >= 0 && t.notCovered >= 0
    ensures Verdict(worked, t, th) == Gated(worked, t.killed, t.lived, t.notCovered, th)
  {
    if th.efficacy > 0.0 {
      EfficacyFails(t, th.efficacy);
    }
    if th.mutantCoverage > 0.0 {
      CoverageFails(t, th.mutantCoverage);
    }
  }

  /** The verdict on a union that is vouched for is the gate's, over what its records say. */
  lemma VerdictOverRecords(shards: seq<seq<string>>, st: Stamp, reports: seq<Report>, th: Thresholds)
    requires Vouched(shards, st, reports)
    ensures var (t, verdict) := Judged(shards, st, reports, th);
      var all := AllRecords(shards, reports);
      && t.killed == HowMany(all, Killed) && t.lived == HowMany(all, Lived) && t.notCovered == HowMany(all, NotCovered)
      && t.timedOut == HowMany(all, TimedOut) && t.notViable == HowMany(all, NotViable)
      && t.infraError == HowMany(all, InfraError)
      && verdict == Gated(exists k :: 0 <= k < |shards| && shards[k] != [],
                          HowMany(all, Killed), HowMany(all, Lived), HowMany(all, NotCovered), th)
  {
    JudgedExactly(shards, st, reports, th);
    TallyCounts(AllRecords(shards, reports));
    VerdictIsGated(Looked(shards), TallyOf(AllRecords(shards, reports)), th);
  }

  // ---- what is refused, and why ---------------------------------------------------------------------------

  ghost predicate Stamped(pkgs: seq<string>, r: Report, st: Stamp) {
    r.scope == st.scope && r.head == st.head && r.mergeBase == st.mergeBase && r.packages == pkgs
  }

  /** The summary counters are the numbers of records of each status, and of all. */
  ghost predicate CountersTell(records: seq<Mutation>, out: Output) {
    && out.total == |records|
    && out.killed == HowMany(records, Killed) && out.lived == HowMany(records, Lived)
    && out.notCovered == HowMany(records, NotCovered) && out.timedOut == HowMany(records, TimedOut)
    && out.notViable == HowMany(records, NotViable) && out.infraError == HowMany(records, InfraError)
  }

  /** A record that can be counted for a shard given pkgs: of a file, finished, in one of the packages. */
  ghost predicate Counts(pkgs: seq<string>, m: Mutation) {
    FileOf(m) != "" && m.status in {Killed, Lived, NotCovered, TimedOut, NotViable, InfraError} && Dir(FileOf(m)) in pkgs
  }

  /** Record i is the first that cannot be counted. */
  ghost predicate FirstBad(pkgs: seq<string>, records: seq<Mutation>, i: nat) {
    i < |records| && !Counts(pkgs, records[i]) && forall j | 0 <= j < i :: Counts(pkgs, records[j])
  }

  ghost predicate ReadAsOutput(r: Report) {
    r.gomutants.Parsed? && r.gomutants.output.goModule != ""
  }

  /** A shard's report is accepted exactly when it is stamped for this run and, given packages, holds a
      readable output whose records all count and whose counters tell of just those. */
  lemma AcceptedExactly(pkgs: seq<string>, r: Report, st: Stamp)
    ensures var records := RecordsOf(pkgs, r);
      Vetted(pkgs, r, st).Ok? <==>
        && Stamped(pkgs, r, st)
        && (pkgs != [] ==>
              ReadAsOutput(r) && CountersTell(records, r.gomutants.output) && forall m | m in records :: Counts(pkgs, m))
  {
    var records := RecordsOf(pkgs, r);
    VettedSound(pkgs, r, st);
    TallyCounts(records);
    if forall m | m in records :: Counts(pkgs, m) {
      AllAreCounted(records);
    }
    forall m ensures Counts(pkgs, m) <==> FileOf(m) != "" && m.status.Finished() && Owner(m) in pkgs {
      CountsIfFinished(pkgs, m);
    }
  }

  lemma CountsIfFinished(pkgs: seq<string>, m: Mutation)
    ensures Counts(pkgs, m) <==> FileOf(m) != "" && m.status.Finished() && Owner(m) in pkgs
  {
  }

  /** The reason a record that cannot be counted gives. */
  function ReasonOf(m: Mutation): JudgeError {
    if FileOf(m) == "" then Unreadable
    else match m.status
         case Pending => MeasuredNothing
         case Other(_) => Unreadable
         case _ => Leak
  }

  lemma RecordFaultIs(pkgs: seq<string>, m: Mutation)
    ensures RecordFault(pkgs, m) == if Counts(pkgs, m) then None else Some(ReasonOf(m))
  {
  }

  lemma {:induction false} FirstFaultAt(pkgs: seq<string>, records: seq<Mutation>, i: nat)
    requires FirstBad(pkgs, records, i)
    ensures FirstFault(pkgs, records) == Some(ReasonOf(records[i]))
    decreases |records|
  {
    var k := |records| - 1;
    RecordFaultIs(pkgs, records[k]);
    if i < k {
      FirstFaultAt(pkgs, records[..k], i);
    } else {
      NoFault(pkgs, records[..k]);
      forall m | m in records[..k] ensures RecordFault(pkgs, m).None? {
        RecordFaultIs(pkgs, m);
      }
    }
  }

  lemma NoFirstFault(pkgs: seq<string>, records: seq<Mutation>)
    requires forall m | m in records :: Counts(pkgs, m)
    ensures FirstFault(pkgs, records).None?
  {
    NoFault(pkgs, records);
    forall m | m in records ensures RecordFault(pkgs, m).None? {
      RecordFaultIs(pkgs, m);
    }
  }

  /** Why a shard's report is refused: for its stamp; for carrying nothing, or nothing readable; for the
      first record that cannot be counted; or for counters that do not tell of its records. */
  lemma RefusedFor(pkgs: seq<string>, r: Report, st: Stamp, i: nat)
    requires Vetted(pkgs, r, st).Err?
    ensures var e, records := Vetted(pkgs, r, st).error, RecordsOf(pkgs, r);
      && (!Stamped(pkgs, r, st) ==> e == Stale)
      && (Stamped(pkgs, r, st) && r.gomutants.Absent? ==> e == MeasuredNothing)
      && (Stamped(pkgs, r, st) && !r.gomutants.Absent? && !ReadAsOutput(r) ==> e == Unreadable)
      && (Stamped(pkgs, r, st) && ReadAsOutput(r) && FirstBad(pkgs, records, i) ==> e == ReasonOf(records[i]))
      && (Stamped(pkgs, r, st) && ReadAsOutput(r) && (forall m | m in records :: Counts(pkgs, m)) ==> e == Unreadable)
  {
    var records := RecordsOf(pkgs, r);
    if Stamped(pkgs, r, st) && ReadAsOutput(r) {
      assert records == Flatten(r.gomutants.output.files);
      if FirstBad(pkgs, records, i) {
        FirstFaultAt(pkgs, records, i);
      } else if forall m | m in records :: Counts(pkgs, m) {
        NoFirstFault(pkgs, records);
      }
    }
  }

  /** Report i is the first that is of another cut, out of range, or the second for its shard. */
  ghost predicate FirstMisfit(n: nat, reports: seq<Report>, i: nat) {
    && i < |reports| && InRange(n, reports[..i]) && OnePerShard(reports[..i])
    && (reports[i].shards != n || !(0 <= reports[i].shard < n) || exists j :: 0 <= j < i && reports[j].shard == reports[i].shard)
  }

  lemma {:induction false} IndexFaultAt(n: nat, reports: seq<Report>, i: nat)
    requires FirstMisfit(n, reports, i)
    ensures IndexFault(n, reports) == Some(if reports[i].shards != n then Stale else MissingShard)
  {
    IndexSound(n, reports[..i]);
    assert reports[..i + 1][..i] == reports[..i];
    if j :| 0 <= j < i && reports[j].shard == reports[i].shard {
      assert reports[..i][j].shard == reports[i].shard;
    }
    assert Reported(reports[..i], reports[i].shard) <==> exists j :: 0 <= j < i && reports[j].shard == reports[i].shard;
    IndexFaultPrefix(n, reports, i + 1);
  }

  /** The first report that does not fit decides, before any shard is looked at. */
  lemma MisfitDecides(shards: seq<seq<string>>, st: Stamp, reports: seq<Report>, th: Thresholds, i: nat)
    requires FirstMisfit(|shards|, reports, i)
    ensures Judged(shards, st, reports, th)
         == (Tally(0, 0, 0, 0, 0, 0), Some(if reports[i].shards != |shards| then Stale else MissingShard))
  {
    IndexFaultAt(|shards|, reports, i);
  }

  /** With reports that all fit, the lowest shard that has none, or whose own is refused, decides. */
  lemma LowestShardDecides(shards: seq<seq<string>>, st: Stamp, reports: seq<Report>, th: Thresholds, k: nat)
    requires InRange(|shards|, reports) && OnePerShard(reports) && k < |shards|
    requires forall m | 0 <= m < k :: VetAt(shards, st, reports, m).Ok?
    requires VetAt(shards, st, reports, k).Err?
    ensures Judged(shards, st, reports, th).1 ==
              if exists i :: 0 <= i < |reports| && reports[i].shard == k
              then Some(VetAt(shards, st, reports, k).error) else Some(MissingShard)
    ensures forall i | 0 <= i < |reports| && reports[i].shard == k ::
              VetAt(shards, st, reports, k) == Vetted(shards[k], reports[i], st)
  {
    IndexSound(|shards|, reports);
    var vs := Verdicts(shards, st, reports);
    SummedFault(vs[..k]);
    SummedNext(vs, k, Summed(vs[..k]).0);
    ReportOfReported(reports, k);
    forall i | 0 <= i < |reports| && reports[i].shard == k
      ensures VetAt(shards, st, reports, k) == Vetted(shards[k], reports[i], st)
    {
      ReportOfOwn(reports, i);
    }
  }

  // ---- which file, which package --------------------------------------------------------------------------

  /** A mutant's file is what stands before the first colon of its id. */
  lemma FileBeforeColon(file: string, rest: string, m: Mutation)
    requires ':' !in file && (m.id == file || m.id == file + ":" + rest)
    ensures FileOf(m) == file
  {
    if m.id == file {
      SplitNone(':', file);
    } else {
      SplitFirst(':', file, rest);
    }
  }

  /** A step up takes back the step down before it. */
  lemma {:induction false} UpUndoesDown(rooted: bool, a: seq<string>, x: string, b: seq<string>, kept: seq<string>)
    requires PlainSegment(x)
    ensures CleanSegments(rooted, a + [x, ".."] + b, kept) == CleanSegments(rooted, a + b, kept)
    decreases |a|
  {
    var whole := a + [x, ".."] + b;
    if a == [] {
      assert whole[1..] == [".."] + b && whole[1..][1..] == b && a + b == b;
      assert (kept + [x])[..|kept|] == kept;
    } else {
      assert whole[1..] == a[1..] + [x, ".."] + b && (a + b)[1..] == a[1..] + b;
      var s := a[0];
      var next :=
        if s == "" || s == "." then kept
        else if s != ".." then kept + [s]
        else if kept != [] && kept[|kept| - 1] != ".." then kept[..|kept| - 1]
        else if rooted then kept
        else kept + [s];
      UpUndoesDown(rooted, a[1..], x, b, next);
    }
  }

  /** Segments that lead nowhere make no difference. */
  lemma {:induction false} IdleSegments(rooted: bool, a: seq<string>, s: string, b: seq<string>, kept: seq<string>)
    requires s == "" || s == "."
    ensures CleanSegments(rooted, a + [s] + b, kept) == CleanSegments(rooted, a + b, kept)
    decreases |a|
  {
    var whole := a + [s] + b;
    if a == [] {
      assert whole[1..] == b && a + b == b;
    } else {
      assert whole[1..] == a[1..] + [s] + b && (a + b)[1..] == a[1..] + b && whole[0] == a[0];
      var first := a[0];
      var next :=
        if first == "" || first == "." then kept
        else if first != ".." then kept + [first]
        else if kept != [] && kept[|kept| - 1] != ".." then kept[..|kept| - 1]
        else if rooted then kept
        else kept + [first];
      IdleSegments(rooted, a[1..], s, b, next);
    }
  }
}
