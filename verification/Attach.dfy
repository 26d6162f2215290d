/** Teardown of a container attach (internal/adapters/attach/attach.go).

    Any number of callers run End and Kill at once; the first End starts a goroutine that removes the
    container and then gives the run CLI a grace period; two sync.Once values decide who does what; and
    the CLI and the daemon carry on underneath. Ending the CLI while its create is in flight would
    orphan the container that create makes. Every interleaving is a run of the system below. */
module Attach {
  type Tid = nat

  datatype Program = KillCall | EndCall | Goroutine

  /** Where a thread is: about to enter removeOnce, running the removal, waiting for another's, past
      it, past endOnce, returned. */
  datatype Pc = Entering | Removing | Waiting | Past | Ended | Returned

  datatype Thread = Thread(program: Program, pc: Pc)

  /** A sync.Once: untouched, being run by a thread, done. */
  datatype Once = Untouched | RunBy(t: Tid) | Done

  datatype State = State(
    hasRemove: bool,             // the session was given a removal
    threads: map<Tid, Thread>,
    removal: Once,
    removals: nat,               // how often the removal was started
    endStarted: bool,            // endOnce
    goroutines: nat,             // how often End started its goroutine
    cliAlive: bool,
    requested: bool,             // the CLI has asked the daemon to create the container
    inFlight: bool,              // that request has not landed yet
    created: bool,               // the container was created
    container: bool)             // and still exists

  datatype Step =
    // the CLI, the daemon and the container
    | Request
    | Land(ok: bool)
    | CliExits
    | ContainerEnds
    // the session's threads
    | Call(t: Tid, program: Program)
    | EnterRemove(t: Tid)
    | Delete(t: Tid)
    | RemoveReturns(t: Tid)
    | Resume(t: Tid)
    | CallEnd(t: Tid, spawn: Tid)
    | KillCli(t: Tid)
    | SeeExit(t: Tid)
    | GraceOver(t: Tid)

  predicate At(s: State, t: Tid, pc: Pc) {
    t in s.threads && s.threads[t].pc == pc
  }

  /** What a removal must have achieved to return: the container deleted, or nothing found and a CLI
      that has exited with no request in flight. */
  predicate MayReturn(s: State) {
    s.hasRemove ==> !s.container && (s.created || (!s.cliAlive && !s.inFlight))
  }

  predicate Enabled(s: State, a: Step) {
    match a
    case Request => s.cliAlive && !s.requested
    case Land(_) => s.inFlight
    case CliExits => s.cliAlive
    case ContainerEnds => s.container
    case Call(t, p) => t !in s.threads && !p.Goroutine?
    case EnterRemove(t) => At(s, t, Entering) && !s.threads[t].program.EndCall?
    case Delete(t) => At(s, t, Removing) && s.hasRemove && s.container
    case RemoveReturns(t) => At(s, t, Removing) && MayReturn(s)
    case Resume(t) => At(s, t, Waiting) && s.removal.Done?
    case CallEnd(t, spawn) =>
      && spawn !in s.threads
      && ((At(s, t, Past) && s.threads[t].program.KillCall?) || (At(s, t, Entering) && s.threads[t].program.EndCall?))
    case KillCli(t) => At(s, t, Ended) && s.threads[t].program.KillCall?
    case SeeExit(t) => At(s, t, Past) && s.threads[t].program.Goroutine? && !s.cliAlive
    case GraceOver(t) => At(s, t, Past) && s.threads[t].program.Goroutine? && s.cliAlive
  }

  function Move(s: State, t: Tid, pc: Pc): State
    requires t in s.threads
  {
    s.(threads := s.threads[t := s.threads[t].(pc := pc)])
  }

  function Do(s: State, a: Step): (next: State)
    requires Enabled(s, a)
    ensures next.hasRemove == s.hasRemove
    ensures s.removal.Done? ==> next.removal.Done?
  {
    match a
    case Request => s.(requested := true, inFlight := true)
    case Land(ok) => if ok then s.(inFlight := false, created := true, container := true) else s.(inFlight := false)
    case CliExits => s.(cliAlive := false)
    case ContainerEnds => s.(container := false)
    case Call(t, p) => s.(threads := s.threads[t := Thread(p, Entering)])
    case EnterRemove(t) =>
      (match s.removal
       case Untouched => Move(s, t, Removing).(removal := RunBy(t), removals := s.removals + 1)
       case RunBy(_) => Move(s, t, Waiting)
       case Done => Move(s, t, Past))
    case Delete(_) => s.(container := false)
    case RemoveReturns(t) => Move(s, t, Past).(removal := Once.Done)
    case Resume(t) => Move(s, t, Past)
    case CallEnd(t, spawn) =>
      var next := Move(s, t, if s.threads[t].program.KillCall? then Ended else Returned);
      if s.endStarted then next
      else next.(endStarted := true, goroutines := s.goroutines + 1,
                 threads := next.threads[spawn := Thread(Goroutine, Entering)])
    case KillCli(t) => Move(s, t, Returned).(cliAlive := false)
    case SeeExit(t) => Move(s, t, Returned)
    case GraceOver(t) => Move(s, t, Returned).(cliAlive := false)
  }

  /** A session just started: its CLI runs, nothing is created, and nobody has called anything. */
  predicate Init(s: State) {
    && s.threads == map[] && s.removal.Untouched? && s.removals == 0 && !s.endStarted && s.goroutines == 0
    && s.cliAlive && !s.requested && !s.inFlight && !s.created && !s.container
  }

  predicate ValidRun(s: State, run: seq<Step>)
    decreases |run|
  {
    run == [] || (Enabled(s, run[0]) && ValidRun(Do(s, run[0]), run[1..]))
  }

  function After(s: State, run: seq<Step>): State
    requires ValidRun(s, run)
    decreases |run|
  {
    if run == [] then s else After(Do(s, run[0]), run[1..])
  }

  // ---- the invariant ------------------------------------------------------------------------------------

  /** No container exists, and none can come to exist any more. */
  predicate Clean(s: State) {
    !s.container && !s.inFlight && (s.requested || !s.cliAlive)
  }

  /** How far a thread is agrees with the removal. */
  ghost predicate ThreadAgrees(th: Thread, t: Tid, removal: Once) {
    match th.pc
    case Entering => true
    case Removing => removal == RunBy(t) && !th.program.EndCall?
    case Waiting => !removal.Untouched? && !th.program.EndCall?
    case Past => removal.Done? && !th.program.EndCall?
    case Ended => removal.Done? && th.program.KillCall?
    case Returned => th.program.EndCall? || removal.Done?
  }

  ghost predicate ThreadsAgree(s: State) {
    && (forall t | t in s.threads :: ThreadAgrees(s.threads[t], t, s.removal))
    && (s.removal.RunBy? ==> At(s, s.removal.t, Removing))
  }

  /** What is counted, and what the CLI and the container may be doing. */
  ghost predicate Accounted(s: State) {
    && s.removals == (if s.removal.Untouched? then 0 else 1)
    && s.goroutines == (if s.endStarted then 1 else 0)
    && (s.inFlight ==> s.requested && !s.created)
    && (s.created ==> s.requested) && (s.container ==> s.created)
    && (s.hasRemove && s.removal.Done? ==> Clean(s))
  }

  ghost predicate KilledIsDead(s: State) {
    forall t | t in s.threads && s.threads[t] == Thread(KillCall, Returned) :: !s.cliAlive
  }

  ghost predicate Inv(s: State) { ThreadsAgree(s) && Accounted(s) && KilledIsDead(s) }

  lemma WorldKeepsInv(s: State, a: Step)
    requires Inv(s) && Enabled(s, a) && (a.Request? || a.Land? || a.CliExits? || a.ContainerEnds? || a.Delete?)
    ensures Inv(Do(s, a))
  {
    assert Do(s, a).threads == s.threads;
  }

  lemma CallKeepsInv(s: State, a: Step)
    requires Inv(s) && Enabled(s, a) && a.Call?
    ensures Inv(Do(s, a))
  {
  }

  /** One thread moves on, and the removal perhaps with it. */
  lemma MoveAgrees(s: State, t: Tid, pc: Pc, removal: Once)
    requires t in s.threads && ThreadsAgree(s)
    requires ThreadAgrees(s.threads[t].(pc := pc), t, removal)
    requires forall u | u in s.threads && u != t :: ThreadAgrees(s.threads[u], u, removal)
    requires removal.RunBy? ==> At(Move(s, t, pc), removal.t, Removing)
    ensures ThreadsAgree(Move(s, t, pc).(removal := removal))
  {
    var next := Move(s, t, pc).(removal := removal);
    forall u | u in next.threads ensures ThreadAgrees(next.threads[u], u, next.removal) {
      assert u != t ==> next.threads[u] == s.threads[u];
    }
  }

  lemma EnterRemoveKeepsInv(s: State, a: Step)
    requires Inv(s) && Enabled(s, a) && a.EnterRemove?
    ensures Inv(Do(s, a))
  {
    match s.removal
    case Untouched =>
      forall u | u in s.threads && u != a.t ensures ThreadAgrees(s.threads[u], u, RunBy(a.t)) {
        assert ThreadAgrees(s.threads[u], u, s.removal);
      }
      MoveAgrees(s, a.t, Removing, RunBy(a.t));
    case RunBy(_) => MoveAgrees(s, a.t, Waiting, s.removal);
    case Done => MoveAgrees(s, a.t, Past, s.removal);
  }

  lemma RemoveReturnsKeepsInv(s: State, a: Step)
    requires Inv(s) && Enabled(s, a) && a.RemoveReturns?
    ensures Inv(Do(s, a))
  {
    assert ThreadsAgree(Do(s, a));
  }

  lemma ResumeKeepsInv(s: State, a: Step)
    requires Inv(s) && Enabled(s, a) && a.Resume?
    ensures Inv(Do(s, a))
  {
  }

  lemma SpawnAgrees(s: State, spawn: Tid)
    requires ThreadsAgree(s) && spawn !in s.threads
    ensures ThreadsAgree(s.(threads := s.threads[spawn := Thread(Goroutine, Entering)]))
  {
    var next := s.(threads := s.threads[spawn := Thread(Goroutine, Entering)]);
    forall u | u in next.threads ensures ThreadAgrees(next.threads[u], u, next.removal) {
      assert u != spawn ==> next.threads[u] == s.threads[u];
    }
  }

  lemma CallEndMoveAgrees(s: State, t: Tid, spawn: Tid, pc: Pc)
    requires ThreadsAgree(s) && Enabled(s, CallEnd(t, spawn))
    requires pc == if s.threads[t].program.KillCall? then Ended else Returned
    ensures ThreadsAgree(Move(s, t, pc))
  {
    MoveAgrees(s, t, pc, s.removal);
    assert Move(s, t, pc) == Move(s, t, pc).(removal := s.removal);
  }

  lemma CallEndAgrees(s: State, t: Tid, spawn: Tid, pc: Pc)
    requires ThreadsAgree(s) && Enabled(s, CallEnd(t, spawn))
    requires pc == if s.threads[t].program.KillCall? then Ended else Returned
    requires ThreadsAgree(Move(s, t, pc)) && spawn !in Move(s, t, pc).threads
    ensures ThreadsAgree(Do(s, CallEnd(t, spawn)))
  {
    if !s.endStarted {
      SpawnAgrees(Move(s, t, pc), spawn);
    }
  }

  lemma CallEndAccounted(s: State, a: Step)
    requires Accounted(s) && Enabled(s, a) && a.CallEnd?
    ensures Accounted(Do(s, a))
  {
  }

  lemma CallEndKillsNone(s: State, t: Tid, spawn: Tid)
    requires KilledIsDead(s) && Enabled(s, CallEnd(t, spawn))
    ensures KilledIsDead(Do(s, CallEnd(t, spawn)))
  {
    var next := Do(s, CallEnd(t, spawn));
    forall u | u in next.threads && next.threads[u] == Thread(KillCall, Returned) ensures !next.cliAlive {
      assert u != t && u != spawn;
      assert s.threads[u] == next.threads[u];
    }
  }

  lemma CallEndKeepsInv(s: State, a: Step)
    requires Inv(s) && Enabled(s, a) && a.CallEnd?
    ensures Inv(Do(s, a))
  {
    var pc := if s.threads[a.t].program.KillCall? then Ended else Returned;
    CallEndMoveAgrees(s, a.t, a.spawn, pc);
    CallEndAgrees(s, a.t, a.spawn, pc);
    CallEndAccounted(s, a);
    CallEndKillsNone(s, a.t, a.spawn);
  }

  lemma KillCliKeepsInv(s: State, a: Step)
    requires Inv(s) && Enabled(s, a) && a.KillCli?
    ensures Inv(Do(s, a))
  {
    assert ThreadsAgree(Do(s, a));
  }

  lemma GoroutineKeepsInv(s: State, a: Step)
    requires Inv(s) && Enabled(s, a) && (a.SeeExit? || a.GraceOver?)
    ensures Inv(Do(s, a))
  {
    assert ThreadsAgree(Do(s, a));
  }

  lemma StepKeepsInv(s: State, a: Step)
    requires Inv(s) && Enabled(s, a)
    ensures Inv(Do(s, a))
  {
    if a.Call? {
      CallKeepsInv(s, a);
    } else if a.EnterRemove? {
      EnterRemoveKeepsInv(s, a);
    } else if a.RemoveReturns? {
      RemoveReturnsKeepsInv(s, a);
    } else if a.Resume? {
      ResumeKeepsInv(s, a);
    } else if a.CallEnd? {
      CallEndKeepsInv(s, a);
    } else if a.KillCli? {
      KillCliKeepsInv(s, a);
    } else if a.SeeExit? || a.GraceOver? {
      GoroutineKeepsInv(s, a);
    } else {
      WorldKeepsInv(s, a);
    }
  }

  lemma {:induction false} RunKeepsInv(s: State, run: seq<Step>)
    requires Inv(s) && ValidRun(s, run)
    ensures Inv(After(s, run))
    decreases |run|
  {
    if run != [] {
      StepKeepsInv(s, run[0]);
      RunKeepsInv(Do(s, run[0]), run[1..]);
    }
  }

  lemma {:induction false} StableAlongRun(s: State, run: seq<Step>)
    requires ValidRun(s, run)
    ensures After(s, run).hasRemove == s.hasRemove
    ensures s.removal.Done? ==> After(s, run).removal.Done?
    decreases |run|
  {
    if run != [] {
      var next := Do(s, run[0]);
      StableAlongRun(next, run[1..]);
    }
  }

  // ---- what teardown promises ---------------------------------------------------------------------------

  /** However End and Kill race, the removal is started at most once, and End's goroutine too. */
  lemma RemovalRunsOnce(s: State, run: seq<Step>)
    requires Init(s) && ValidRun(s, run)
    ensures After(s, run).removals <= 1 && After(s, run).goroutines <= 1
  {
    RunKeepsInv(s, run);
  }

  /** Whatever ends the run CLI, other than its own exit, comes after the removal has completed. */
  lemma CliOutlivesRemoval(s: State, run: seq<Step>, a: Step)
    requires Init(s) && ValidRun(s, run) && Enabled(After(s, run), a)
    ensures var v := After(s, run); v.cliAlive && !Do(v, a).cliAlive && !a.CliExits? ==> v.removal.Done?
  {
    RunKeepsInv(s, run);
    var v := After(s, run);
    if a.KillCli? || a.GraceOver? {
      assert ThreadAgrees(v.threads[a.t], a.t, v.removal);
    }
  }

  /** Once any Kill has returned, the CLI is gone, no container exists, and however the run goes on
      none ever will again. */
  lemma KillLeavesNothing(s: State, run: seq<Step>, t: Tid, more: seq<Step>)
    requires Init(s) && s.hasRemove && ValidRun(s, run) && ValidRun(After(s, run), more)
    requires t in After(s, run).threads && After(s, run).threads[t] == Thread(KillCall, Returned)
    ensures !After(s, run).cliAlive
    ensures Clean(After(After(s, run), more)) && !After(After(s, run), more).container
  {
    RunKeepsInv(s, run);
    StableAlongRun(s, run);
    StableAlongRun(After(s, run), more);
    RunKeepsInv(After(s, run), more);
  }

  // ---- the goroutine of End -----------------------------------------------------------------------------

  ghost predicate IsGoroutine(s: State, t: Tid) { t in s.threads && s.threads[t].program.Goroutine? }

  /** End's goroutine exists exactly when End was started, and there is but one; when it is over the CLI is
      gone. A call gets past its End, or returns from it, only with End started. */
  ghost predicate EndAgrees(s: State) {
    && (s.endStarted <==> exists t :: IsGoroutine(s, t))
    && (forall t, u | IsGoroutine(s, t) && IsGoroutine(s, u) :: t == u)
    && (forall t | IsGoroutine(s, t) && s.threads[t].pc.Returned? :: !s.cliAlive)
    && (forall t | t in s.threads && (s.threads[t].pc.Ended? || s.threads[t].pc.Returned?) :: s.endStarted)
  }

  /** A thread that is there moves on, and the CLI does not come back. */
  lemma MoveKeepsEnd(s: State, t: Tid, pc: Pc, next: State)
    requires EndAgrees(s) && t in s.threads && next.threads == Move(s, t, pc).threads
    requires next.endStarted == s.endStarted && (next.cliAlive ==> s.cliAlive)
    requires pc.Ended? || pc.Returned? ==> s.endStarted
    requires pc.Returned? && IsGoroutine(s, t) ==> !next.cliAlive
    ensures EndAgrees(next)
  {
    forall u ensures IsGoroutine(next, u) <==> IsGoroutine(s, u) {
    }
    if s.endStarted {
      var u :| IsGoroutine(s, u);
      assert IsGoroutine(next, u);
    }
  }

  lemma CallKeepsEnd(s: State, a: Step)
    requires EndAgrees(s) && Enabled(s, a) && a.Call?
    ensures EndAgrees(Do(s, a))
  {
    var next := Do(s, a);
    forall u ensures IsGoroutine(next, u) <==> IsGoroutine(s, u) {
    }
    if s.endStarted {
      var u :| IsGoroutine(s, u);
      assert IsGoroutine(next, u);
    }
  }

  lemma CallEndKeepsEnd(s: State, t: Tid, spawn: Tid)
    requires EndAgrees(s) && Enabled(s, CallEnd(t, spawn))
    ensures EndAgrees(Do(s, CallEnd(t, spawn)))
  {
    var next := Do(s, CallEnd(t, spawn));
    if s.endStarted {
      MoveKeepsEnd(s, t, if s.threads[t].program.KillCall? then Ended else Returned, next);
    } else {
      assert IsGoroutine(next, spawn);
      forall u ensures IsGoroutine(next, u) <==> u == spawn {
        assert !IsGoroutine(s, u);
      }
    }
  }

  lemma StepKeepsEnd(s: State, a: Step)
    requires Inv(s) && EndAgrees(s) && Enabled(s, a)
    ensures EndAgrees(Do(s, a))
  {
    match a
    case Call(_, _) => CallKeepsEnd(s, a);
    case EnterRemove(t) =>
      MoveKeepsEnd(s, t, if s.removal.Untouched? then Removing else if s.removal.Done? then Past else Waiting, Do(s, a));
    case RemoveReturns(t) => MoveKeepsEnd(s, t, Past, Do(s, a));
    case Resume(t) => MoveKeepsEnd(s, t, Past, Do(s, a));
    case CallEnd(t, spawn) => CallEndKeepsEnd(s, t, spawn);
    case KillCli(t) => MoveKeepsEnd(s, t, Returned, Do(s, a));
    case SeeExit(t) => GoroutineMeansEnd(s, t); MoveKeepsEnd(s, t, Returned, Do(s, a));
    case GraceOver(t) => GoroutineMeansEnd(s, t); MoveKeepsEnd(s, t, Returned, Do(s, a));
    case _ => WorldKeepsEnd(s, Do(s, a));
  }

  lemma GoroutineMeansEnd(s: State, t: Tid)
    requires EndAgrees(s) && IsGoroutine(s, t)
    ensures s.endStarted
  {
  }

  lemma WorldKeepsEnd(s: State, next: State)
    requires EndAgrees(s) && next.threads == s.threads && next.endStarted == s.endStarted && (next.cliAlive ==> s.cliAlive)
    ensures EndAgrees(next)
  {
    assert forall t :: IsGoroutine(next, t) <==> IsGoroutine(s, t);
  }

  lemma {:induction false} RunKeepsEnd(s: State, run: seq<Step>)
    requires Inv(s) && EndAgrees(s) && ValidRun(s, run)
    ensures EndAgrees(After(s, run))
    decreases |run|
  {
    if run != [] {
      StepKeepsInv(s, run[0]);
      StepKeepsEnd(s, run[0]);
      RunKeepsEnd(Do(s, run[0]), run[1..]);
    }
  }

  /** A call that has returned has left exactly one goroutine behind; and once that is over the CLI is gone,
      no container exists, and none ever will again. */
  lemma EndLeavesNothing(s: State, run: seq<Step>, more: seq<Step>)
    requires Init(s) && ValidRun(s, run) && ValidRun(After(s, run), more)
    ensures var v := After(s, run);
      && ((exists t :: At(v, t, Returned)) ==> exists t :: IsGoroutine(v, t))
      && (forall t, u | IsGoroutine(v, t) && IsGoroutine(v, u) :: t == u)
      && (s.hasRemove && (exists t :: IsGoroutine(v, t) && At(v, t, Returned)) ==> !v.cliAlive && Clean(After(v, more)))
  {
    var v := After(s, run);
    RunKeepsInv(s, run);
    RunKeepsEnd(s, run);
    if t :| IsGoroutine(v, t) && At(v, t, Returned) {
      assert ThreadAgrees(v.threads[t], t, v.removal);
      StableAlongRun(s, run);
      StableAlongRun(v, more);
      RunKeepsInv(v, more);
    }
  }

  // ---- every call can return ----------------------------------------------------------------------------

  lemma StepFirst(s: State, a: Step, run: seq<Step>)
    requires Enabled(s, a) && ValidRun(Do(s, a), run)
    ensures ValidRun(s, [a] + run) && After(s, [a] + run) == After(Do(s, a), run)
  {
    assert ([a] + run)[1..] == run;
  }

  /** The same threads, each where it was. */
  ghost predicate SameThreads(s: State, v: State) {
    v.threads == s.threads && v.removal == s.removal && v.hasRemove == s.hasRemove
  }

  /** While a thread runs the removal, the daemon and the CLI can always let it return. */
  lemma RemovalMayReturn(s: State, u: Tid) returns (run: seq<Step>)
    requires Inv(s) && s.removal == RunBy(u)
    ensures ValidRun(s, run) && SameThreads(s, After(s, run)) && Enabled(After(s, run), RemoveReturns(u))
  {
    run := [];
    if s.container && s.hasRemove {
      StepFirst(s, Delete(u), run);
      run := [Delete(u)];
    } else if !MayReturn(s) {
      if s.inFlight {
        var landed := Do(s, Land(false));
        if s.cliAlive {
          StepFirst(landed, CliExits, []);
          StepFirst(s, Land(false), [CliExits]);
          run := [Land(false)] + [CliExits];
        } else {
          StepFirst(s, Land(false), []);
          run := [Land(false)];
        }
      } else {
        StepFirst(s, CliExits, []);
        run := [CliExits];
      }
    }
  }

  lemma {:induction false} RunsJoin(s: State, a: seq<Step>, b: seq<Step>)
    requires ValidRun(s, a) && ValidRun(After(s, a), b)
    ensures ValidRun(s, a + b) && After(s, a + b) == After(After(s, a), b)
    decreases |a|
  {
    if a == [] {
      assert a + b == b;
    } else {
      RunsJoin(Do(s, a[0]), a[1..], b);
      assert a + b == [a[0]] + (a[1..] + b);
      StepFirst(s, a[0], a[1..] + b);
    }
  }

  /** The removal can always be finished, and no other thread need move. */
  lemma RemovalCanFinish(s: State, u: Tid) returns (run: seq<Step>)
    requires Inv(s) && s.removal == RunBy(u)
    ensures ValidRun(s, run) && Inv(After(s, run)) && After(s, run).removal.Done?
    ensures After(s, run).threads == s.threads[u := s.threads[u].(pc := Past)]
  {
    run := RemovalMayReturn(s, u);
    var v := After(s, run);
    RunKeepsInv(s, run);
    StepKeepsInv(v, RemoveReturns(u));
    StepFirst(v, RemoveReturns(u), []);
    RunsJoin(s, run, [RemoveReturns(u)] + []);
    run := run + ([RemoveReturns(u)] + []);
  }

  function Rank(pc: Pc): nat {
    match pc
    case Entering => 5
    case Waiting => 4
    case Removing => 3
    case Past => 2
    case Ended => 1
    case Returned => 0
  }

  lemma {:induction false} FreshTid(ts: set<Tid>) returns (t: Tid)
    ensures t !in ts && forall u | u in ts :: u < t
  {
    t := 0;
    if ts != {} {
      var u :| u in ts;
      var v := FreshTid(ts - {u});
      t := if u < v then v else u + 1;
      forall w | w in ts ensures w < t {
        assert w == u || w in ts - {u};
      }
    }
  }

  /** a brings thread t on. */
  ghost predicate BringsOn(s: State, t: Tid, a: Step) {
    && t in s.threads && Enabled(s, a) && t in Do(s, a).threads
    && Do(s, a).threads[t].program == s.threads[t].program && Rank(Do(s, a).threads[t].pc) < Rank(s.threads[t].pc)
  }

  lemma CallEndBringsOn(s: State, t: Tid) returns (a: Step)
    requires (At(s, t, Past) && s.threads[t].program.KillCall?) || (At(s, t, Entering) && s.threads[t].program.EndCall?)
    ensures BringsOn(s, t, a)
  {
    var spawn := FreshTid(s.threads.Keys);
    a := CallEnd(t, spawn);
    assert Do(s, a).threads[t] == Thread(s.threads[t].program, if s.threads[t].program.KillCall? then Ended else Returned);
  }

  lemma EnterBringsOn(s: State, t: Tid)
    requires At(s, t, Entering) && !s.threads[t].program.EndCall?
    ensures BringsOn(s, t, EnterRemove(t))
  {
    var pc := if s.removal.Untouched? then Removing else if s.removal.Done? then Past else Waiting;
    assert Enabled(s, EnterRemove(t));
    assert Do(s, EnterRemove(t)).threads == Move(s, t, pc).threads;
    assert Move(s, t, pc).threads[t] == Thread(s.threads[t].program, pc);
  }

  lemma LastBringsOn(s: State, t: Tid) returns (a: Step)
    requires (At(s, t, Past) && s.threads[t].program.Goroutine?) || (At(s, t, Ended) && s.threads[t].program.KillCall?)
             || (At(s, t, Waiting) && s.removal.Done?)
    ensures BringsOn(s, t, a)
  {
    a := if s.threads[t].pc.Waiting? then Resume(t)
         else if s.threads[t].pc.Ended? then KillCli(t)
         else if s.cliAlive then GraceOver(t) else SeeExit(t);
  }

  /** The step that brings a thread on, when it need not wait for the removal. */
  lemma ThreadCanMove(s: State, t: Tid) returns (a: Step)
    requires Inv(s) && t in s.threads
    requires var pc := s.threads[t].pc; pc.Entering? || pc.Past? || pc.Ended? || (pc.Waiting? && s.removal.Done?)
    ensures BringsOn(s, t, a)
  {
    var th := s.threads[t];
    assert ThreadAgrees(th, t, s.removal);
    if th.pc.Entering? && !th.program.EndCall? {
      EnterBringsOn(s, t);
      a := EnterRemove(t);
    } else if th.pc.Entering? || (th.pc.Past? && th.program.KillCall?) {
      a := CallEndBringsOn(s, t);
    } else {
      a := LastBringsOn(s, t);
    }
  }

  /** No call hangs: wherever a run has got to, it can go on so that the thread returns. */
  lemma {:induction false} CallCanReturn(s: State, t: Tid) returns (run: seq<Step>)
    requires Inv(s) && t in s.threads
    ensures ValidRun(s, run) && At(After(s, run), t, Returned)
    decreases Rank(s.threads[t].pc)
  {
    var th := s.threads[t];
    assert ThreadAgrees(th, t, s.removal);
    if th.pc.Returned? {
      run := [];
    } else if th.pc.Removing? || (th.pc.Waiting? && !s.removal.Done?) {
      run := RemovalCanFinish(s, s.removal.t);
      var v := After(s, run);
      var more;
      if th.pc.Removing? {
        more := CallCanReturn(v, t);
      } else {
        var a := ThreadCanMove(v, t);
        StepKeepsInv(v, a);
        more := CallCanReturn(Do(v, a), t);
        StepFirst(v, a, more);
        more := [a] + more;
      }
      RunsJoin(s, run, more);
      run := run + more;
    } else {
      var a := ThreadCanMove(s, t);
      StepKeepsInv(s, a);
      run := CallCanReturn(Do(s, a), t);
      StepFirst(s, a, run);
      run := [a] + run;
    }
  }

  /** So from any state of any run each call that was made, and End's goroutine, can be brought to its end. */
  lemma NoCallHangs(s: State, run: seq<Step>, t: Tid) returns (more: seq<Step>)
    requires Init(s) && ValidRun(s, run) && t in After(s, run).threads
    ensures ValidRun(After(s, run), more) && At(After(After(s, run), more), t, Returned)
  {
    RunKeepsInv(s, run);
    more := CallCanReturn(After(s, run), t);
  }
}
