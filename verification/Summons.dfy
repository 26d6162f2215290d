/** When a summon outlives its reason (internal/adapters/cli/approval_presenter.go).

    A summon should be in flight only while something is pending or a resolution is still to be heard.
    Just two kinds of step can leave one without a reason, both after a resolution was lost to a full
    channel; and what ends it again is exactly known. */
module Summons {
  import opened Base
  import opened Presenter
  import opened PresenterRuns

  /** A summon is in flight though nothing is pending and no resolution is to be heard. */
  ghost predicate Stale(w: World) {
    w.s.flight.Some? && w.pending == map[] && !ResolvedComing(w)
  }

  /** The step loses the one resolution still to be heard, with a summon in flight and nothing pending. */
  ghost predicate LosesTheLast(w: World, a: Action) {
    && a.Publish? && a.e.Resolved? && |w.events| >= BACKLOG && w.s.flight.Some? && w.pending == map[]
    && forall id, timedOut :: Resolved(id, timedOut) !in (w.unsent - multiset{a.e}) + multiset(w.events)
  }

  /** The step warns of a request of the tick's snapshot after it is gone, and its resolution lost. */
  ghost predicate WarnsTooLate(w: World, a: Action) {
    && a.TickVisit? && Enabled(w, a) && w.pending == map[] && !ResolvedComing(w)
    && var r := w.phase.snapshot[w.phase.next]; r.id !in w.s.warned && Inside(r, w.phase.at)
  }

  lemma PublishMakesStale(w: World, e: Event)
    requires Enabled(w, Publish(e)) && !Stale(w)
    ensures Stale(Do(w, Publish(e))) <==> LosesTheLast(w, Publish(e))
  {
    var v := Do(w, Publish(e));
    if |w.events| < BACKLOG {
      assert v.unsent + multiset(v.events) == w.unsent + multiset(w.events) by {
        assert multiset(v.events) == multiset(w.events) + multiset{e};
        assert v.unsent + multiset{e} == w.unsent;
      }
    } else if !e.Resolved? {
      assert forall id, timedOut :: Resolved(id, timedOut) in v.unsent + multiset(v.events) <==>
                                    Resolved(id, timedOut) in w.unsent + multiset(w.events);
    }
  }

  lemma QueueMakesNoneStale(w: World, a: Action)
    requires Enabled(w, a) && !Stale(w) && (a.Park? || a.Settle? || a.ChangeGrants?)
    ensures !Stale(Do(w, a))
  {
    var v := Do(w, a);
    match a
    case Park(r) => assert r.id in v.pending;
    case Settle(id, timedOut) => assert Resolved(id, timedOut) in v.unsent + multiset(v.events);
    case ChangeGrants =>
      assert forall e: Event | e in w.unsent + multiset(w.events) :: e in v.unsent + multiset(v.events);
  }

  lemma HandleMakesNoneStale(w: World, queue: seq<Request>)
    requires Enabled(w, Handle(queue)) && !Stale(w)
    ensures !Stale(Do(w, Handle(queue)))
  {
    var v, e := Do(w, Handle(queue)), w.events[0];
    MultisetTail(w.events);
    assert forall f: Event | f != e && f in w.unsent + multiset(w.events) :: f in v.unsent + multiset(v.events);
    assert queue == [] <==> w.pending == map[];
    if !e.Resolved? && ResolvedComing(w) {
      var id, timedOut :| Resolved(id, timedOut) in w.unsent + multiset(w.events);
      assert Resolved(id, timedOut) in v.unsent + multiset(v.events);
    }
  }

  /** A step makes a summon stale in just these two ways. */
  lemma StepMakesStale(w: World, a: Action)
    requires Enabled(w, a) && !Stale(w)
    ensures Stale(Do(w, a)) <==> LosesTheLast(w, a) || WarnsTooLate(w, a)
  {
    match a
    case Publish(e) => PublishMakesStale(w, e);
    case Park(_) => QueueMakesNoneStale(w, a);
    case Settle(_, _) => QueueMakesNoneStale(w, a);
    case ChangeGrants => QueueMakesNoneStale(w, a);
    case Handle(q) => HandleMakesNoneStale(w, q);
    case Start(q) => assert q == [] <==> w.pending == map[];
    case _ => assert ResolvedComing(Do(w, a)) <==> ResolvedComing(w);
  }

  lemma PublishKeepsNoneComing(w: World, e: Event)
    requires Enabled(w, Publish(e)) && !ResolvedComing(w)
    ensures !ResolvedComing(Do(w, Publish(e)))
  {
    var v := Do(w, Publish(e));
    if |w.events| < BACKLOG {
      assert multiset(v.events) == multiset(w.events) + multiset{e};
    }
    assert forall f: Event | f in v.unsent + multiset(v.events) :: f in w.unsent + multiset(w.events);
  }

  /** And only a return of the summon, or a new request to be summoned for, makes it stale no more. */
  lemma StepEndsStale(w: World, a: Action)
    requires Enabled(w, a) && Stale(w)
    ensures !Stale(Do(w, a)) <==> a.SummonReturns? || a.Park?
  {
    var v := Do(w, a);
    match a
    case Park(r) => assert r.id in v.pending;
    case Settle(id, _) => assert false;
    case Start(q) => assert q == [];
    case Publish(e) => PublishKeepsNoneComing(w, e);
    case ChangeGrants =>
      assert forall id, timedOut :: Resolved(id, timedOut) !in w.unsent + multiset(w.events);
    case Handle(q) =>
      assert q == [];
      assert w.events[0] in multiset(w.events);
      MultisetTail(w.events);
      assert forall id, timedOut :: Resolved(id, timedOut) !in w.unsent + multiset(w.events);
      assert !w.events[0].Resolved?;
    case _ => assert ResolvedComing(v) <==> ResolvedComing(w);
  }

  /** Whatever it was for, a summon ends only by returning, or when a resolution finds the queue empty. */
  lemma SummonEndsExactly(w: World, a: Action)
    requires Enabled(w, a) && w.s.flight.Some?
    ensures Do(w, a).s.flight.None? <==> a.SummonReturns? || (a.Handle? && w.events[0].Resolved? && a.queue == [])
  {
  }

  // ---- over a whole run ---------------------------------------------------------------------------------

  lemma {:induction false} Prefix(w: World, run: seq<Action>, i: nat)
    requires ValidRun(w, run) && i < |run|
    ensures ValidRun(w, run[..i]) && Enabled(After(w, run[..i]), run[i])
    ensures ValidRun(w, run[..i + 1]) && After(w, run[..i + 1]) == Do(After(w, run[..i]), run[i])
    decreases |run|
  {
    if i == 0 {
      assert run[..1][1..] == [] && run[..0] == [];
      assert After(Do(w, run[0]), []) == Do(w, run[0]);
    } else {
      Prefix(Do(w, run[0]), run[1..], i - 1);
      assert run[..i][1..] == run[1..][..i - 1] && run[..i + 1][1..] == run[1..][..i];
    }
  }

  ghost predicate MakesStale(w: World, a: Action) { LosesTheLast(w, a) || WarnsTooLate(w, a) }

  /** Step i leaves a summon without a reason, and no later step gives it one or ends it. */
  ghost predicate Leaves(w: World, run: seq<Action>, i: nat)
    requires i < |run|
  {
    && ValidRun(w, run[..i]) && MakesStale(After(w, run[..i]), run[i])
    && forall j | i < j < |run| :: !run[j].SummonReturns? && !run[j].Park?
  }

  lemma LeavesLonger(w: World, run: seq<Action>, i: nat)
    requires i + 1 < |run|
    ensures var last := run[|run| - 1];
      Leaves(w, run, i) <==> Leaves(w, run[..|run| - 1], i) && !last.SummonReturns? && !last.Park?
  {
    var front := run[..|run| - 1];
    assert front[..i] == run[..i] && front[i] == run[i];
    assert forall j | i < j < |front| :: front[j] == run[j];
  }

  lemma LastLeaves(w: World, run: seq<Action>)
    requires ValidRun(w, run) && run != []
    requires Leaves(w, run, |run| - 1)
    ensures Stale(After(w, run))
  {
    var k := |run| - 1;
    Prefix(w, run, k);
    assert run[..k + 1] == run;
    var v := After(w, run[..k]);
    if Stale(v) {
      StepEndsStale(v, run[k]);
    } else {
      StepMakesStale(v, run[k]);
    }
  }

  /** Over any run, a summon is left in flight without a reason exactly when some step leaves one so, and
      none after it gives it a reason or lets it return. */
  lemma {:induction false} StaleExactly(w: World, run: seq<Action>)
    requires !Stale(w) && ValidRun(w, run)
    ensures Stale(After(w, run)) <==> exists i | 0 <= i < |run| :: Leaves(w, run, i)
    decreases |run|
  {
    if run != [] {
      var k := |run| - 1;
      var front := run[..k];
      Prefix(w, run, k);
      assert run[..k + 1] == run;
      StaleExactly(w, front);
      StaleAtLast(w, run);
    }
  }

  lemma StaleAtLast(w: World, run: seq<Action>)
    requires ValidRun(w, run) && run != [] && ValidRun(w, run[..|run| - 1])
    requires var front := run[..|run| - 1];
      Stale(After(w, front)) <==> exists i | 0 <= i < |front| :: Leaves(w, front, i)
    ensures Stale(After(w, run)) <==> exists i | 0 <= i < |run| :: Leaves(w, run, i)
  {
    var k := |run| - 1;
    var front := run[..k];
    Prefix(w, run, k);
    assert run[..k + 1] == run;
    if Stale(After(w, run)) {
      if Stale(After(w, front)) {
        StepEndsStale(After(w, front), run[k]);
        var i :| 0 <= i < |front| && Leaves(w, front, i);
        LeavesLonger(w, run, i);
        assert Leaves(w, run, i);
      } else {
        StepMakesStale(After(w, front), run[k]);
        assert Leaves(w, run, k);
      }
    }
    if i :| 0 <= i < |run| && Leaves(w, run, i) {
      if i == k {
        LastLeaves(w, run);
      } else {
        LeavesLonger(w, run, i);
        StepEndsStale(After(w, front), run[k]);
      }
    }
  }

  // ---- runs that leave one ------------------------------------------------------------------------------

  function Grants(k: nat): seq<Event> { seq(k, i => GrantsChanged) }

  /** Changes of grants fill the channel up. */
  lemma {:induction false} FillUp(w: World, k: nat) returns (run: seq<Action>)
    requires |w.events| + k <= BACKLOG
    ensures ValidRun(w, run) && After(w, run) == w.(events := w.events + Grants(k))
  {
    if k == 0 {
      run := [];
      assert w.events + Grants(0) == w.events;
    } else {
      run := FillUp(w, k - 1);
      var v := After(w, run);
      RunThen(w, run, ChangeGrants);
      run := run + [ChangeGrants];
      RunThen(w, run, Publish(GrantsChanged));
      run := run + [Publish(GrantsChanged)];
      assert w.unsent + multiset{GrantsChanged} - multiset{GrantsChanged} == w.unsent;
      assert (w.events + Grants(k - 1)) + [GrantsChanged] == w.events + Grants(k);
    }
  }

  /** And handling them empties it again. */
  lemma {:induction false} HandleAll(w: World, k: nat, queue: seq<Request>) returns (run: seq<Action>)
    requires w.phase.Idle? && w.events == Grants(k) && IsQueue(queue, w.pending)
    ensures ValidRun(w, run) && After(w, run) == w.(events := [])
    decreases k
  {
    if k == 0 {
      run := [];
    } else {
      var v := Do(w, Handle(queue));
      assert v.events == Grants(k - 1);
      var rest := HandleAll(v, k - 1, queue);
      run := [Handle(queue)] + rest;
      assert run[1..] == rest;
    }
  }

  const SUMMONED := PARKED.(unsent := multiset{}, s := FRESH.(
    presented := {1}, warned := {1}, spent := {1}, flight := Some(1), panel := Panel(1, Some(0)), bells := 1,
    summoned := multiset{1}))

  lemma SummonShort()
    ensures Arrived(FRESH, 1, [SHORT], 0) == SUMMONED.s
  {
    ShortBar(FRESH, true);
    assert Find([SHORT], 1) == Some(SHORT);
    assert InsideOf([SHORT], 0) == {1} by {
      assert [SHORT][0].id in InsideOf([SHORT], 0);
    }
    assert {} + {1} == {1} && multiset{} + multiset{1} == multiset{1};
  }

  lemma SummonFirst() returns (run: seq<Action>)
    ensures ValidRun(QUIET, run) && After(QUIET, run) == SUMMONED
  {
    run := ParkFirst();
    OneRequestQueue();
    RunThen(QUIET, run, Publish(Added(1)));
    run := run + [Publish(Added(1))];
    assert After(QUIET, run) == PARKED.(unsent := multiset{}, events := [Added(1)]);
    SummonShort();
    RunThen(QUIET, run, Handle([SHORT]));
    run := run + [Handle([SHORT])];
    assert [Added(1)][1..] == [];
  }

  /** With the channel full of other news, the answer to the one request that waits is lost. */
  ghost function Unheard(w: World, id: Id): World {
    w.(pending := map[], dropped := multiset{Resolved(id, false)}, events := Grants(BACKLOG))
  }

  lemma SettleUnheard(w: World, r: Request) returns (run: seq<Action>)
    requires w.pending == map[r.id := r] && w.unsent == multiset{} && w.events == [] && w.dropped == multiset{}
    ensures ValidRun(w, run) && After(w, run) == Unheard(w, r.id)
  {
    var gone := Resolved(r.id, false);
    run := FillUp(w, BACKLOG);
    assert [] + Grants(BACKLOG) == Grants(BACKLOG);
    RunThen(w, run, Settle(r.id, false));
    run := run + [Settle(r.id, false)];
    var v := After(w, run);
    assert v.pending == map[] && v.unsent == multiset{gone};
    RunThen(w, run, Publish(gone));
    run := run + [Publish(gone)];
    assert v.unsent - multiset{gone} == multiset{};
    assert multiset{} + multiset{gone} == multiset{gone};
  }

  lemma NoQueue()
    ensures IsQueue([], map[])
  {
    assert IdsOf([]) == {};
  }

  /** A summon left behind: nothing is pending, nothing is unpublished, nothing is to be heard, and it is
      still in flight, for a request whose resolution was lost. */
  lemma StaleSummon() returns (run: seq<Action>)
    ensures Init(QUIET) && ValidRun(QUIET, run)
    ensures var v := After(QUIET, run);
      v.pending == map[] && v.unsent == multiset{} && v.events == [] && v.s.flight == Some(1) && v.s.panel.count == 1
  {
    var first := SummonFirst();
    var unheard := SettleUnheard(SUMMONED, SHORT);
    RunsConcat(QUIET, first, unheard);
    run := first + unheard;
    NoQueue();
    var rest := HandleAll(Unheard(SUMMONED, 1), BACKLOG, []);
    RunsConcat(QUIET, run, rest);
    run := run + rest;
  }

  const LONG := Request(1, "wiry-otter", 0, 1000)

  const WAITING := World(0, map[1 := LONG], {1}, multiset{}, [], multiset{}, FRESH.(
    presented := {1}, flight := Some(1), panel := Panel(1, Some(0)), bells := 1, summoned := multiset{1}), Idle)

  lemma LongQueue()
    ensures IsQueue([LONG], map[1 := LONG])
    ensures forall s: State, ring :: Bar(s, [LONG], ring) ==
              s.(panel := Panel(1, Some(0)), bells := s.bells + if ring then 1 else 0)
  {
    var q := [LONG];
    assert q[0].id in IdsOf(q);
    assert IdsOf(q) == {1} == map[1 := LONG].Keys;
    assert q[..0] == [];
    assert Oldest(q) == Some(0);
  }

  lemma HearLong()
    ensures Arrived(FRESH, 1, [LONG], 0) == WAITING.s
  {
    LongQueue();
    assert Find([LONG], 1) == Some(LONG);
    assert InsideOf([LONG], 0) == {};
    assert {} + {1} == {1} && multiset{} + multiset{1} == multiset{1};
  }

  lemma ParkLong() returns (run: seq<Action>)
    ensures ValidRun(QUIET, run) && After(QUIET, run) == WAITING.(s := FRESH, events := [Added(1)])
  {
    NoQueue();
    run := [];
    RunThen(QUIET, run, Start([]));
    run := run + [Start([])];
    assert After(QUIET, run) == QUIET.(phase := Idle);
    RunThen(QUIET, run, Park(LONG));
    run := run + [Park(LONG)];
    RunThen(QUIET, run, Publish(Added(1)));
    run := run + [Publish(Added(1))];
  }

  lemma SummonLong() returns (run: seq<Action>)
    ensures ValidRun(QUIET, run) && After(QUIET, run) == WAITING
  {
    run := ParkLong();
    LongQueue();
    HearLong();
    RunThen(QUIET, run, Handle([LONG]));
    run := run + [Handle([LONG])];
    assert [Added(1)][1..] == [];
  }

  /** Its summon over, time passes until the warning is due, and a tick takes its snapshot. */
  const LOOKING := WAITING.(now := 900, s := WAITING.s.(flight := None), phase := Ticking([LONG], 0, 900))

  lemma LookLate() returns (run: seq<Action>)
    ensures ValidRun(WAITING, run) && After(WAITING, run) == LOOKING
  {
    LongQueue();
    run := [];
    RunThen(WAITING, run, SummonReturns);
    run := run + [SummonReturns];
    RunThen(WAITING, run, Advance(900));
    run := run + [Advance(900)];
    RunThen(WAITING, run, TickBegin([LONG]));
    run := run + [TickBegin([LONG])];
  }

  /** Its request settled behind the tick's back, and the resolution lost. */
  lemma SettleBehind() returns (run: seq<Action>)
    ensures ValidRun(QUIET, run) && After(QUIET, run) == Unheard(LOOKING, 1)
  {
    var first := SummonLong();
    var looking := LookLate();
    RunsConcat(QUIET, first, looking);
    run := first + looking;
    var unheard := SettleUnheard(LOOKING, LONG);
    RunsConcat(QUIET, run, unheard);
    run := run + unheard;
  }

  lemma VisitTooLate()
    ensures WarnsTooLate(Unheard(LOOKING, 1), TickVisit([]))
  {
    var v := Unheard(LOOKING, 1);
    NoQueue();
    assert forall e: Event | e in v.unsent + multiset(v.events) :: e == GrantsChanged;
  }

  /** A tick starts a summon with no reason: the request of its snapshot was settled meanwhile, and the
      resolution lost. Nothing was in flight before. */
  lemma TickSummonsTooLate() returns (run: seq<Action>)
    ensures Init(QUIET) && ValidRun(QUIET, run) && After(QUIET, run).s.flight == None
    ensures WarnsTooLate(After(QUIET, run), TickVisit([]))
    ensures ValidRun(QUIET, run + [TickVisit([])]) && Stale(After(QUIET, run + [TickVisit([])]))
  {
    run := SettleBehind();
    VisitTooLate();
    RunThen(QUIET, run, TickVisit([]));
    StepMakesStale(After(QUIET, run), TickVisit([]));
  }
}
