/** What each step of the approval presenter (internal/adapters/cli/approval_presenter.go) does to the
    bell, the note, the summon and what it remembers, told by what is pending rather than by its handlers;
    and over every run how often a request can ring. */
module Bells {
  import opened Base
  import opened Presenter
  import opened PresenterRuns

  /** Why the bell rings: a request is heard of, or is warned of. */
  datatype Ring = Arrival(id: Id) | Warning(id: Id)

  /** The ring of one step, if any: an arrival not presented yet, and a request within two minutes of its
      deadline that has had no warning. The start rings for nobody, nor does a resolution. */
  ghost function RingOf(w: World, a: Action): seq<Ring>
    requires Enabled(w, a)
  {
    match a
    case Handle(_) =>
      var e := w.events[0];
      if e.Added? && e.id !in w.s.presented then [Arrival(e.id)] else []
    case TickVisit(_) =>
      var r := w.phase.snapshot[w.phase.next];
      if r.id !in w.s.warned && r.deadline - w.phase.at <= 120 then [Warning(r.id)] else []
    case _ => []
  }

  /** A step that hears of a request nobody decided. */
  ghost predicate HearsTimeout(w: World, a: Action)
    requires Enabled(w, a)
  {
    a.Handle? && w.events[0].Resolved? && w.events[0].timedOut
  }

  /** t is s after ringing as told, with a note if told. */
  ghost predicate Rang(s: State, t: State, rings: seq<Ring>, noted: bool) {
    && t.bells == s.bells + |rings|
    && t.notes == s.notes + (if noted then 1 else 0)
    && forall id :: t.warnings[id] == s.warnings[id] + multiset(rings)[Warning(id)]
  }

  lemma HandleRings(s: State, e: Event, queue: seq<Request>, now: int)
    ensures Rang(s, Handled(s, e, queue, now),
                 if e.Added? && e.id !in s.presented then [Arrival(e.id)] else [], e.Resolved? && e.timedOut)
  {
  }

  lemma VisitRings(s: State, r: Request, now: int, queue: seq<Request>)
    ensures Rang(s, Visited(s, r, now, queue),
                 if r.id !in s.warned && r.deadline - now <= 120 then [Warning(r.id)] else [], false)
  {
  }

  lemma StepRings(w: World, a: Action)
    requires Enabled(w, a)
    ensures Rang(w.s, Do(w, a).s, RingOf(w, a), HearsTimeout(w, a))
  {
    match a
    case Handle(q) => HandleRings(w.s, w.events[0], q, w.now);
    case TickVisit(q) => VisitRings(w.s, w.phase.snapshot[w.phase.next], w.phase.at, q);
    case _ =>
  }

  ghost function RingsIn(w: World, run: seq<Action>): seq<Ring>
    requires ValidRun(w, run)
    decreases |run|
  {
    if run == [] then [] else RingOf(w, run[0]) + RingsIn(Do(w, run[0]), run[1..])
  }

  ghost function TimeoutsIn(w: World, run: seq<Action>): nat
    requires ValidRun(w, run)
    decreases |run|
  {
    if run == [] then 0 else (if HearsTimeout(w, run[0]) then 1 else 0) + TimeoutsIn(Do(w, run[0]), run[1..])
  }

  /** Over a run the bell sounds once for each ring, and the panel is given a note once for each timeout
      that is heard of. */
  lemma {:induction false} RunRings(w: World, run: seq<Action>)
    requires ValidRun(w, run)
    ensures After(w, run).s.bells == w.s.bells + |RingsIn(w, run)|
    ensures After(w, run).s.notes == w.s.notes + TimeoutsIn(w, run)
    ensures forall id :: After(w, run).s.warnings[id] == w.s.warnings[id] + multiset(RingsIn(w, run))[Warning(id)]
    decreases |run|
  {
    if run != [] {
      StepRings(w, run[0]);
      RunRings(Do(w, run[0]), run[1..]);
    }
  }

  /** The request's arrival may still be heard of. */
  ghost predicate MayArrive(w: World, id: Id) {
    id !in w.known || Added(id) in Undelivered(w)
  }

  lemma ArrivalIsTaken(w: World, queue: seq<Request>, id: Id)
    requires OneArrivalEach(w) && Enabled(w, Handle(queue)) && w.events[0] == Added(id)
    ensures MayArrive(w, id) && !MayArrive(Do(w, Handle(queue)), id)
  {
    HandleTakesOne(w, queue);
    assert w.events[0] in multiset(w.events);
    assert Added(id) in Undelivered(w);
  }

  lemma NoNewArrival(w: World, a: Action, id: Id)
    requires OneArrivalEach(w) && Enabled(w, a) && !MayArrive(w, id)
    ensures !MayArrive(Do(w, a), id)
  {
    KnownStays(w, a);
    if a.Park? {
      ParkAddsOne(w, a.r);
    } else {
      NoMoreArrivals(w, a);
    }
  }

  lemma StepTakesArrival(w: World, a: Action, id: Id)
    requires OneArrivalEach(w) && Enabled(w, a)
    ensures Arrival(id) in RingOf(w, a) ==> MayArrive(w, id) && !MayArrive(Do(w, a), id)
    ensures !MayArrive(w, id) ==> !MayArrive(Do(w, a), id)
    ensures multiset(RingOf(w, a))[Arrival(id)] <= 1
  {
    if Arrival(id) in RingOf(w, a) {
      ArrivalIsTaken(w, a.queue, id);
    } else if !MayArrive(w, id) {
      NoNewArrival(w, a, id);
    }
  }

  lemma {:induction false} ArrivalRings(w: World, run: seq<Action>, id: Id)
    requires OneArrivalEach(w) && ValidRun(w, run)
    ensures multiset(RingsIn(w, run))[Arrival(id)] <= if MayArrive(w, id) then 1 else 0
    decreases |run|
  {
    if run != [] {
      var first, rest := RingOf(w, run[0]), RingsIn(Do(w, run[0]), run[1..]);
      StepKeepsOneArrival(w, run[0]);
      ArrivalRings(Do(w, run[0]), run[1..], id);
      StepTakesArrival(w, run[0], id);
      assert RingsIn(w, run) == first + rest;
      assert multiset(first + rest)[Arrival(id)] == multiset(first)[Arrival(id)] + multiset(rest)[Arrival(id)];
    }
  }

  /** A request rings the bell at most twice, however the run goes: once for its arrival and once for its
      warning. */
  lemma RingsOnceEach(w: World, run: seq<Action>, r: Ring)
    requires Init(w) && OneArrivalEach(w) && ValidRun(w, run)
    ensures multiset(RingsIn(w, run))[r] <= 1
  {
    match r
    case Arrival(id) => ArrivalRings(w, run, id);
    case Warning(id) =>
      RunRings(w, run);
      SummonedAndWarnedOnce(w, run, id);
  }

  // ---- the summon and the memory ------------------------------------------------------------------------

  lemma FoundIfPending(queue: seq<Request>, pending: map<Id, Request>, id: Id)
    requires IsQueue(queue, pending)
    ensures Find(queue, id) == if id in pending then Some(pending[id]) else None
  {
    if id in pending {
      assert id in IdsOf(queue);
    }
  }

  /** A step that warns. */
  ghost predicate Warns(w: World, a: Action)
    requires Enabled(w, a)
  {
    a.TickVisit? && RingOf(w, a) != []
  }

  /** A step that hears of a pending request that is not presented yet. */
  ghost predicate Presents(w: World, a: Action)
    requires Enabled(w, a)
  {
    a.Handle? && w.events[0].Added? && w.events[0].id !in w.s.presented && w.events[0].id in w.pending
  }

  /** Who is summoned for: at the start whoever runs out first, then each new request, and each one warned
      of; a summon ends by itself, or with the queue. */
  lemma SummonAfter(w: World, a: Action)
    requires Enabled(w, a) && (w.phase.Subscribed? ==> w.s == FRESH)
    ensures var flight := Do(w, a).s.flight;
      if a.Start? && w.pending != map[] then
        && flight.Some? && flight.value in w.pending
        && forall id | id in w.pending :: w.pending[flight.value].deadline <= w.pending[id].deadline
      else if Presents(w, a) then flight == Some(w.events[0].id)
      else if Warns(w, a) then flight == Some(w.phase.snapshot[w.phase.next].id)
      else if a.SummonReturns? || (a.Handle? && w.events[0].Resolved? && w.pending == map[]) then flight == None
      else flight == w.s.flight
  {
    match a
    case Start(q) =>
      assert q == [] <==> w.pending == map[];
      if q != [] {
        assert q[0].id in w.pending;
        forall id | id in w.pending ensures q[0].deadline <= w.pending[id].deadline {
          assert id in IdsOf(q);
        }
      }
    case Handle(q) =>
      assert q == [] <==> w.pending == map[];
      if w.events[0].Added? {
        FoundIfPending(q, w.pending, w.events[0].id);
      }
    case _ =>
  }

  /** What counts as presented: everything pending at the start, and each request as it is heard of, until
      its resolution is heard or a tick no longer finds it. */
  lemma PresentedAfter(w: World, a: Action)
    requires Enabled(w, a)
    ensures Do(w, a).s.presented ==
              if a.Start? then w.s.presented + w.pending.Keys
              else if Presents(w, a) then w.s.presented + {w.events[0].id}
              else if a.Handle? && w.events[0].Resolved? then w.s.presented - {w.events[0].id}
              else if a.TickEnd? then w.s.presented * IdsOf(w.phase.snapshot)
              else w.s.presented
  {
    if a.Handle? && w.events[0].Added? {
      FoundIfPending(a.queue, w.pending, w.events[0].id);
    }
  }

  /** Pending, with no more than two minutes left. */
  ghost function Short(w: World): set<Id> {
    set id | id in w.pending && w.pending[id].deadline - w.now <= 120
  }

  /** Whose warning is spent: of those pending at the start and those heard of, the ones that are short
      already; of the others, each as it is warned of; until a tick no longer finds them. */
  lemma WarnedAfter(w: World, a: Action)
    requires Enabled(w, a)
    ensures Do(w, a).s.warned ==
              if a.Start? then w.s.warned + Short(w)
              else if Presents(w, a) then w.s.warned + Short(w) * {w.events[0].id}
              else if Warns(w, a) then w.s.warned + {w.phase.snapshot[w.phase.next].id}
              else if a.TickEnd? then w.s.warned * IdsOf(w.phase.snapshot)
              else w.s.warned
  {
    if a.Start? {
      StartWarned(w, a.queue);
    } else if a.Handle? {
      HandleWarned(w, a.queue);
    } else {
      OtherWarned(w, a);
    }
  }

  lemma OtherWarned(w: World, a: Action)
    requires Enabled(w, a) && !a.Start? && !a.Handle?
    ensures Do(w, a).s.warned ==
              if Warns(w, a) then w.s.warned + {w.phase.snapshot[w.phase.next].id}
              else if a.TickEnd? then w.s.warned * IdsOf(w.phase.snapshot)
              else w.s.warned
  {
  }

  lemma StartWarned(w: World, queue: seq<Request>)
    requires IsQueue(queue, w.pending)
    ensures Started(w.s, queue, w.now).warned == w.s.warned + Short(w)
  {
    ShortOfQueue(w, queue);
    if queue == [] {
      assert Short(w) == {};
    }
  }

  lemma HandleWarned(w: World, queue: seq<Request>)
    requires Enabled(w, Handle(queue))
    ensures Handled(w.s, w.events[0], queue, w.now).warned ==
            w.s.warned + if Presents(w, Handle(queue)) then Short(w) * {w.events[0].id} else {}
  {
    if w.events[0].Added? {
      FoundIfPending(queue, w.pending, w.events[0].id);
      if Presents(w, Handle(queue)) {
        InsideOfOne(w, w.pending[w.events[0].id]);
      }
    }
  }

  lemma InsideOfOne(w: World, r: Request)
    requires r.id in w.pending && w.pending[r.id] == r
    ensures InsideOf([r], w.now) == Short(w) * {r.id}
  {
    assert [r][0] == r;
    assert InsideOf([r], w.now) == if Inside(r, w.now) then {r.id} else {};
  }

  lemma ShortOfQueue(w: World, queue: seq<Request>)
    requires IsQueue(queue, w.pending)
    ensures InsideOf(queue, w.now) == Short(w)
  {
    forall id | id in Short(w) ensures id in InsideOf(queue, w.now) {
      assert id in IdsOf(queue);
    }
  }
}
