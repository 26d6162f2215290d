/** Every run of the approval presenter beside a changing queue (internal/adapters/cli/
    approval_presenter.go over internal/core/coord/approvalqueue.go).

    A change to the queue and the publication of its event are two steps; a publication finds room in
    the channel or loses the event; time passes; a summon returns by itself; and a tick works through a
    snapshot that is already ageing. What the presenter promises is proved of every run. */
module PresenterRuns {
  import opened Base
  import opened Presenter

  datatype Phase = Subscribed | Idle | Ticking(snapshot: seq<Request>, next: nat, at: int)

  datatype World = World(
    now: int,
    pending: map<Id, Request>,
    known: set<Id>,              // every id ever parked: none is used twice
    unsent: multiset<Event>,     // of changes made but not published yet
    events: seq<Event>,          // published, in the presenter's channel
    dropped: multiset<Event>,    // published to a full channel
    s: State,
    phase: Phase)

  datatype Action =
    | Park(r: Request)
    | Settle(id: Id, timedOut: bool)
    | ChangeGrants
    | Publish(e: Event)
    | Advance(to: int)
    | SummonReturns
    | Start(queue: seq<Request>)
    | Handle(queue: seq<Request>)
    | TickBegin(queue: seq<Request>)
    | TickVisit(queue: seq<Request>)
    | TickEnd

  /** queue is what Pending returns: every pending request once, soonest deadline first. */
  ghost predicate IsQueue(queue: seq<Request>, pending: map<Id, Request>) {
    && |queue| == |pending|
    && (forall i | 0 <= i < |queue| :: queue[i].id in pending && pending[queue[i].id] == queue[i])
    && (forall i, j | 0 <= i < j < |queue| :: queue[i].id != queue[j].id && queue[i].deadline <= queue[j].deadline)
    && IdsOf(queue) == pending.Keys
  }

  ghost predicate Enabled(w: World, a: Action) {
    match a
    case Park(r) => r.id !in w.known
    case Settle(id, _) => id in w.pending
    case ChangeGrants => true
    case Publish(e) => e in w.unsent
    case Advance(to) => w.now <= to
    case SummonReturns => true
    case Start(q) => w.phase.Subscribed? && IsQueue(q, w.pending)
    case Handle(q) => w.phase.Idle? && w.events != [] && IsQueue(q, w.pending)
    case TickBegin(q) => w.phase.Idle? && IsQueue(q, w.pending)
    case TickVisit(q) => w.phase.Ticking? && w.phase.next < |w.phase.snapshot| && IsQueue(q, w.pending)
    case TickEnd => w.phase.Ticking? && w.phase.next == |w.phase.snapshot|
  }

  ghost function Do(w: World, a: Action): World
    requires Enabled(w, a)
  {
    match a
    case Park(r) =>
      w.(pending := w.pending[r.id := r], known := w.known + {r.id}, unsent := w.unsent + multiset{Added(r.id)})
    case Settle(id, timedOut) =>
      w.(pending := w.pending - {id}, unsent := w.unsent + multiset{Resolved(id, timedOut)})
    case ChangeGrants => w.(unsent := w.unsent + multiset{GrantsChanged})
    case Publish(e) =>
      if |w.events| < BACKLOG then w.(unsent := w.unsent - multiset{e}, events := w.events + [e])
      else w.(unsent := w.unsent - multiset{e}, dropped := w.dropped + multiset{e})
    case Advance(to) => w.(now := to)
    case SummonReturns => w.(s := w.s.(flight := None))
    case Start(q) => w.(s := Started(w.s, q, w.now), phase := Idle)
    case Handle(q) => w.(s := Handled(w.s, w.events[0], q, w.now), events := w.events[1..])
    case TickBegin(q) => w.(s := Bar(w.s, q, false), phase := Ticking(q, 0, w.now))
    case TickVisit(q) =>
      w.(s := Visited(w.s, w.phase.snapshot[w.phase.next], w.phase.at, q),
         phase := w.phase.(next := w.phase.next + 1))
    case TickEnd => w.(s := Pruned(w.s, w.phase.snapshot), phase := Idle)
  }

  /** The presenter has just subscribed; anything may already be parked or still to be published. */
  ghost predicate Init(w: World) {
    && w.phase.Subscribed? && w.s == FRESH && w.events == [] && w.dropped == multiset{}
    && w.pending.Keys <= w.known && (forall id | id in w.pending :: w.pending[id].id == id)
    && (forall id, timedOut | Resolved(id, timedOut) in w.unsent :: id in w.known && id !in w.pending)
  }

  ghost predicate ValidRun(w: World, run: seq<Action>)
    decreases |run|
  {
    run == [] || (Enabled(w, run[0]) && ValidRun(Do(w, run[0]), run[1..]))
  }

  ghost function After(w: World, run: seq<Action>): World
    requires ValidRun(w, run)
    decreases |run|
  {
    if run == [] then w else After(Do(w, run[0]), run[1..])
  }

  // ---- the invariants -----------------------------------------------------------------------------------

  /** The events the presenter has not handled and the ones it never will. */
  ghost function Undelivered(w: World): multiset<Event> {
    w.unsent + multiset(w.events) + w.dropped
  }

  ghost predicate Told(w: World, id: Id) {
    id in w.s.presented || Added(id) in Undelivered(w)
  }

  ghost predicate ResolvedUndelivered(w: World) {
    exists id, timedOut :: Resolved(id, timedOut) in Undelivered(w)
  }

  /** An event is on its way that will set the panel anew. */
  ghost predicate PanelDue(w: World) {
    ResolvedUndelivered(w) || exists id :: id !in w.s.presented && Added(id) in Undelivered(w)
  }

  /** The panel says what is pending: how many, and since when the oldest waits. */
  ghost predicate Shows(panel: Panel, pending: map<Id, Request>) {
    && panel.count == |pending|
    && match panel.oldest
       case None => pending == map[]
       case Some(t) =>
         && (exists id :: id in pending && pending[id].since == t)
         && (forall id | id in pending :: t <= pending[id].since)
  }

  /** A request that is gone, and no longer in the snapshot a tick is working through. */
  ghost predicate Gone(w: World, id: Id) {
    id !in w.pending && (w.phase.Ticking? ==> id !in IdsOf(w.phase.snapshot))
  }

  ghost predicate Sane(w: World) {
    && w.pending.Keys <= w.known && (forall id | id in w.pending :: w.pending[id].id == id)
    && w.s.presented <= w.known && w.s.warned <= w.known
    && (forall id | id in w.s.summoned || id in w.s.warnings || id in w.s.spent :: id in w.known)
    && (w.phase.Subscribed? ==> w.s == FRESH)
    && (w.phase.Ticking? ==>
          && w.phase.next <= |w.phase.snapshot| && IdsOf(w.phase.snapshot) <= w.known
          && (forall i, j | 0 <= i < j < |w.phase.snapshot| :: w.phase.snapshot[i].id != w.phase.snapshot[j].id)
          && (forall id | id in w.s.presented || id in w.s.warned :: id in w.pending ==> id in IdsOf(w.phase.snapshot))
          && (w.phase.snapshot != [] ==> w.pending != map[] || ResolvedUndelivered(w)))
  }

  /** A resolution is only ever of a request that is gone, and stays gone. */
  ghost predicate ResolvedIsGone(w: World) {
    forall id, timedOut | Resolved(id, timedOut) in Undelivered(w) :: id in w.known && id !in w.pending
  }

  ghost predicate NothingLost(w: World) {
    !w.phase.Subscribed? ==> forall id | id in w.pending :: Told(w, id)
  }

  ghost predicate PanelTrue(w: World) {
    !w.phase.Subscribed? ==> Shows(w.s.panel, w.pending) || PanelDue(w)
  }

  ghost predicate SummonedOnce(w: World) {
    forall id :: w.s.summoned[id] <= 1 && (w.s.summoned[id] == 1 ==> id in w.s.presented || id !in w.pending)
  }

  ghost predicate WarnedOnce(w: World) {
    forall id :: w.s.warnings[id] <= 1 && (w.s.warnings[id] == 1 ==> id in w.s.warned || Gone(w, id))
  }

  ghost predicate SpentHolds(w: World) {
    forall id | id in w.s.spent :: id in w.s.warned || Gone(w, id)
  }

  ghost predicate SummonJustified(w: World) {
    w.s.flight.Some? ==> w.pending != map[] || ResolvedUndelivered(w)
  }

  /** Once each: nobody has been summoned or warned for anything twice. */
  ghost predicate OnceEach(w: World) {
    SummonedOnce(w) && WarnedOnce(w) && SpentHolds(w)
  }

  ghost predicate Inv(w: World) {
    Sane(w) && ResolvedIsGone(w) && NothingLost(w) && PanelTrue(w) && OnceEach(w) && SummonJustified(w)
  }

  // ---- each step keeps them -----------------------------------------------------------------------------

  lemma {:induction false} OldestIsLeast(queue: seq<Request>)
    ensures queue == [] <==> Oldest(queue).None?
    ensures queue != [] ==>
      && (exists i :: 0 <= i < |queue| && queue[i].since == Oldest(queue).value)
      && (forall i | 0 <= i < |queue| :: Oldest(queue).value <= queue[i].since)
  {
    if queue != [] {
      OldestIsLeast(queue[..|queue| - 1]);
    }
  }

  lemma BarShows(s: State, queue: seq<Request>, ring: bool, pending: map<Id, Request>)
    requires IsQueue(queue, pending)
    ensures Shows(Bar(s, queue, ring).panel, pending)
  {
    OldestIsLeast(queue);
    if queue == [] {
      assert pending.Keys == {};
    } else {
      var i :| 0 <= i < |queue| && queue[i].since == Oldest(queue).value;
      assert queue[i].id in pending;
      forall id | id in pending ensures Oldest(queue).value <= pending[id].since {
        assert id in IdsOf(queue);
      }
    }
  }

  /** Publishing loses nothing from sight: the event is undelivered before and after. */
  lemma PublishKeepsUndelivered(w: World, e: Event)
    requires e in w.unsent
    ensures Undelivered(Do(w, Publish(e))) == Undelivered(w)
  {
    var v := Do(w, Publish(e));
    if |w.events| < BACKLOG {
      assert multiset(v.events) == multiset(w.events) + multiset{e};
    }
    assert v.unsent + multiset{e} == w.unsent;
  }

  lemma HandleTakesOne(w: World, queue: seq<Request>)
    requires Enabled(w, Handle(queue))
    ensures Undelivered(Do(w, Handle(queue))) == Undelivered(w) - multiset{w.events[0]}
  {
    MultisetTail(w.events);
    assert w.events[0] in multiset(w.events);
  }

  lemma HandleKeepsOthers(w: World, queue: seq<Request>)
    requires Enabled(w, Handle(queue))
    ensures var v := Do(w, Handle(queue));
      Undelivered(v) <= Undelivered(w) && forall e | e != w.events[0] && e in Undelivered(w) :: e in Undelivered(v)
  {
    HandleTakesOne(w, queue);
  }

  lemma ParkAddsOne(w: World, r: Request)
    requires Enabled(w, Park(r))
    ensures Undelivered(Do(w, Park(r))) == Undelivered(w) + multiset{Added(r.id)}
  {
  }

  lemma ParkKeepsSane(w: World, r: Request, v: World)
    requires Sane(w) && ResolvedIsGone(w) && r.id !in w.known
    requires v == w.(pending := w.pending[r.id := r], known := w.known + {r.id}, unsent := w.unsent + multiset{Added(r.id)})
    requires Undelivered(v) == Undelivered(w) + multiset{Added(r.id)}
    ensures Sane(v) && ResolvedIsGone(v)
  {
    assert r.id in v.pending;
  }

  lemma ParkKeepsTold(w: World, r: Request, v: World)
    requires Sane(w) && NothingLost(w) && r.id !in w.known
    requires v == w.(pending := w.pending[r.id := r], known := w.known + {r.id}, unsent := w.unsent + multiset{Added(r.id)})
    requires Undelivered(v) == Undelivered(w) + multiset{Added(r.id)}
    ensures NothingLost(v) && PanelTrue(v) && SummonJustified(v)
  {
    assert Added(r.id) in Undelivered(v) && r.id !in v.s.presented && r.id in v.pending;
    assert forall e | e in Undelivered(w) :: e in Undelivered(v);
  }

  lemma ParkKeepsOnce(w: World, r: Request, v: World)
    requires Sane(w) && OnceEach(w) && r.id !in w.known
    requires v == w.(pending := w.pending[r.id := r], known := w.known + {r.id}, unsent := w.unsent + multiset{Added(r.id)})
    ensures OnceEach(v)
  {
    assert r.id !in w.s.summoned && r.id !in w.s.warnings && r.id !in w.s.spent;
    assert forall id | id != r.id :: Gone(v, id) <==> Gone(w, id);
  }

  lemma ParkKeepsInv(w: World, r: Request)
    requires Inv(w) && Enabled(w, Park(r))
    ensures Inv(Do(w, Park(r)))
  {
    var v := Do(w, Park(r));
    ParkAddsOne(w, r);
    ParkKeepsSane(w, r, v);
    ParkKeepsTold(w, r, v);
    ParkKeepsOnce(w, r, v);
  }

  lemma SettleKeepsInv(w: World, id: Id, timedOut: bool)
    requires Inv(w) && Enabled(w, Settle(id, timedOut))
    ensures Inv(Do(w, Settle(id, timedOut)))
  {
    var v := Do(w, Settle(id, timedOut));
    assert Undelivered(v) == Undelivered(w) + multiset{Resolved(id, timedOut)};
    assert Resolved(id, timedOut) in Undelivered(v);
    assert ResolvedUndelivered(v);
    assert Sane(v);
    assert NothingLost(v);
  }

  /** Steps that change neither the queue nor what the presenter has yet to hear. */
  lemma QuietKeepsInv(w: World, v: World)
    requires Inv(w)
    requires v.pending == w.pending && v.known == w.known && v.phase == w.phase
    requires forall e: Event | !e.GrantsChanged? :: e in Undelivered(v) <==> e in Undelivered(w)
    requires v.s == w.s || (v.s == w.s.(flight := None) && !w.phase.Subscribed?)
    ensures Inv(v)
  {
    assert ResolvedUndelivered(w) ==> ResolvedUndelivered(v);
    assert PanelDue(w) ==> PanelDue(v);
    assert forall id :: Told(w, id) ==> Told(v, id);
    assert forall id :: Gone(w, id) <==> Gone(v, id);
  }

  lemma PublishChangesNoMore(w: World, e: Event)
    requires Enabled(w, Publish(e))
    ensures var v := Do(w, Publish(e)); v.s == w.s && v.pending == w.pending && v.known == w.known && v.phase == w.phase
  {
  }

  lemma PublishKeepsInv(w: World, e: Event)
    requires Inv(w) && Enabled(w, Publish(e))
    ensures Inv(Do(w, Publish(e)))
  {
    PublishKeepsUndelivered(w, e);
    PublishChangesNoMore(w, e);
    QuietKeepsInv(w, Do(w, Publish(e)));
  }

  lemma PassingKeepsInv(w: World, a: Action)
    requires Inv(w) && Enabled(w, a) && (a.ChangeGrants? || a.Advance? || a.SummonReturns?)
    ensures Inv(Do(w, a))
  {
    QuietKeepsInv(w, Do(w, a));
  }

  lemma StartIsFresh(w: World, queue: seq<Request>)
    requires Sane(w) && Enabled(w, Start(queue))
    ensures Do(w, Start(queue)) == w.(s := Started(FRESH, queue, w.now), phase := Idle)
  {
  }

  lemma StartedHolds(queue: seq<Request>, now: int)
    ensures var s := Started(FRESH, queue, now);
      && s.presented == IdsOf(queue) && s.warned == s.spent <= IdsOf(queue) && s.warnings == multiset{}
      && s.panel == Bar(FRESH, queue, false).panel
      && (queue == [] ==> s.summoned == multiset{} && s.flight == None)
      && (queue != [] ==> s.summoned == multiset{queue[0].id})
  {
    assert InsideOf(queue, now) <= IdsOf(queue);
    assert {} + InsideOf(queue, now) == InsideOf(queue, now) && {} + IdsOf(queue) == IdsOf(queue);
  }

  lemma StartKeepsSane(w: World, queue: seq<Request>, v: World)
    requires Sane(w) && ResolvedIsGone(w) && IsQueue(queue, w.pending)
    requires v == w.(s := Started(FRESH, queue, w.now), phase := Idle)
    ensures Sane(v) && ResolvedIsGone(v)
  {
    StartedHolds(queue, w.now);
    assert Undelivered(v) == Undelivered(w);
    if queue != [] {
      assert queue[0].id in w.pending;
    }
  }

  lemma StartKeepsTold(w: World, queue: seq<Request>, v: World)
    requires IsQueue(queue, w.pending) && v == w.(s := Started(FRESH, queue, w.now), phase := Idle)
    ensures NothingLost(v) && PanelTrue(v) && SummonJustified(v)
  {
    StartedHolds(queue, w.now);
    BarShows(FRESH, queue, false, w.pending);
    if queue != [] {
      assert queue[0].id in w.pending;
    }
  }

  lemma StartKeepsOnce(w: World, queue: seq<Request>, v: World)
    requires IsQueue(queue, w.pending) && v == w.(s := Started(FRESH, queue, w.now), phase := Idle)
    ensures OnceEach(v)
  {
    StartedHolds(queue, w.now);
    if queue != [] {
      assert queue[0].id in IdsOf(queue);
    }
  }

  lemma StartKeepsInv(w: World, queue: seq<Request>)
    requires Inv(w) && Enabled(w, Start(queue))
    ensures Inv(Do(w, Start(queue)))
  {
    var v := Do(w, Start(queue));
    StartIsFresh(w, queue);
    StartKeepsSane(w, queue, v);
    StartKeepsTold(w, queue, v);
    StartKeepsOnce(w, queue, v);
  }

  lemma ArrivalKeepsInv(w: World, queue: seq<Request>, id: Id)
    requires Inv(w) && Enabled(w, Handle(queue)) && w.events[0] == Added(id)
    ensures Inv(Do(w, Handle(queue)))
  {
    var v := Do(w, Handle(queue));
    HandleKeepsOthers(w, queue);
    if id in w.s.presented {
      KnownArrivalKeepsInv(w, v, id);
    } else {
      BarShows(w.s, queue, true, w.pending);
      NewArrivalKeepsInv(w, queue, id, v);
    }
  }

  lemma KnownArrivalKeepsInv(w: World, v: World, id: Id)
    requires Inv(w) && id in w.s.presented
    requires v.pending == w.pending && v.known == w.known && v.phase == w.phase && v.s == w.s
    requires Undelivered(v) <= Undelivered(w)
    requires forall e: Event | e != Added(id) && e in Undelivered(w) :: e in Undelivered(v)
    ensures Inv(v)
  {
    assert ResolvedUndelivered(w) ==> ResolvedUndelivered(v);
    assert PanelDue(w) ==> PanelDue(v);
  }

  lemma NewArrivalKeepsInv(w: World, queue: seq<Request>, id: Id, v: World)
    requires Inv(w) && id !in w.s.presented && w.phase.Idle? && IsQueue(queue, w.pending)
    requires v.pending == w.pending && v.known == w.known && v.phase == w.phase
    requires v.s == Arrived(w.s, id, queue, w.now) && Shows(Bar(w.s, queue, true).panel, w.pending)
    requires Undelivered(v) <= Undelivered(w)
    requires forall e: Event | e != Added(id) && e in Undelivered(w) :: e in Undelivered(v)
    ensures Inv(v)
  {
    assert ResolvedUndelivered(w) ==> ResolvedUndelivered(v);
    var found := Find(queue, id);
    if found.Some? {
      assert InsideOf([found.value], w.now) <= {id};
      assert id in w.pending;
    } else {
      assert id !in IdsOf(queue);
    }
  }

  lemma SettledKeepsOnce(w: World, v: World, id: Id)
    requires OnceEach(w) && w.phase.Idle? && v.phase.Idle? && v.pending == w.pending && id !in w.pending
    requires v.s.presented == w.s.presented - {id} && v.s.warned == w.s.warned
    requires v.s.summoned == w.s.summoned && v.s.warnings == w.s.warnings && v.s.spent == w.s.spent
    ensures OnceEach(v)
  {
    assert forall i :: Gone(v, i) <==> Gone(w, i);
  }

  lemma SettledKeepsSane(w: World, v: World, id: Id)
    requires Sane(w) && ResolvedIsGone(w) && w.phase.Idle? && v.phase.Idle?
    requires v.pending == w.pending && v.known == w.known && Undelivered(v) <= Undelivered(w)
    requires v.s.presented == w.s.presented - {id} && v.s.warned == w.s.warned
    requires v.s.summoned == w.s.summoned && v.s.warnings == w.s.warnings && v.s.spent == w.s.spent
    ensures Sane(v) && ResolvedIsGone(v)
  {
    assert forall e | e in Undelivered(v) :: e in Undelivered(w);
  }

  lemma SettledKeepsTold(w: World, v: World, id: Id)
    requires NothingLost(w) && w.phase.Idle? && v.phase.Idle? && v.pending == w.pending && id !in w.pending
    requires v.s.presented == w.s.presented - {id} && Shows(v.s.panel, v.pending)
    requires v.s.flight.Some? ==> v.pending != map[]
    requires forall e: Event | !e.Resolved? && e in Undelivered(w) :: e in Undelivered(v)
    ensures NothingLost(v) && PanelTrue(v) && SummonJustified(v)
  {
    forall j | j in v.pending ensures Told(v, j) {
      assert Told(w, j);
    }
  }

  /** What handling a resolution leaves. */
  lemma HandleSettles(w: World, queue: seq<Request>, id: Id, timedOut: bool)
    requires Enabled(w, Handle(queue)) && w.events[0] == Resolved(id, timedOut)
    ensures var v := Do(w, Handle(queue));
      && v.phase == w.phase && v.pending == w.pending && v.known == w.known
      && v.s.presented == w.s.presented - {id} && v.s.warned == w.s.warned
      && v.s.summoned == w.s.summoned && v.s.warnings == w.s.warnings && v.s.spent == w.s.spent
      && v.s.panel == Bar(w.s, queue, false).panel && (v.s.flight.Some? ==> queue != [])
  {
  }

  lemma ResolvedFirstIsGone(w: World, id: Id, timedOut: bool)
    requires ResolvedIsGone(w) && w.events != [] && w.events[0] == Resolved(id, timedOut)
    ensures id !in w.pending
  {
    assert Resolved(id, timedOut) in multiset(w.events);
    assert Resolved(id, timedOut) in Undelivered(w);
  }

  lemma SettledKeepsInv(w: World, queue: seq<Request>, id: Id, timedOut: bool)
    requires Inv(w) && Enabled(w, Handle(queue)) && w.events[0] == Resolved(id, timedOut)
    ensures Inv(Do(w, Handle(queue)))
  {
    var v := Do(w, Handle(queue));
    HandleKeepsOthers(w, queue);
    HandleSettles(w, queue, id, timedOut);
    BarShows(w.s, queue, false, w.pending);
    ResolvedFirstIsGone(w, id, timedOut);
    SettledKeepsSane(w, v, id);
    SettledKeepsOnce(w, v, id);
    if queue != [] {
      assert queue[0].id in w.pending;
    }
    SettledKeepsTold(w, v, id);
  }

  lemma GrantsKeepInv(w: World, queue: seq<Request>)
    requires Inv(w) && Enabled(w, Handle(queue)) && w.events[0] == GrantsChanged
    ensures Inv(Do(w, Handle(queue)))
  {
    HandleTakesOne(w, queue);
    QuietKeepsInv(w, Do(w, Handle(queue)));
  }

  lemma TickBeginKeepsInv(w: World, queue: seq<Request>)
    requires Inv(w) && Enabled(w, TickBegin(queue))
    ensures Inv(Do(w, TickBegin(queue)))
  {
    var v := Do(w, TickBegin(queue));
    assert Undelivered(v) == Undelivered(w);
    BarShows(w.s, queue, false, w.pending);
    if queue != [] {
      assert queue[0].id in w.pending;
    }
  }

  lemma TickVisitKeepsOnce(w: World, queue: seq<Request>)
    requires Inv(w) && Enabled(w, TickVisit(queue))
    ensures OnceEach(Do(w, TickVisit(queue)))
  {
    var v := Do(w, TickVisit(queue));
    var r := w.phase.snapshot[w.phase.next];
    assert r.id in IdsOf(w.phase.snapshot);
    assert forall id :: Gone(v, id) <==> Gone(w, id);
  }

  lemma TickVisitKeepsInv(w: World, queue: seq<Request>)
    requires Inv(w) && Enabled(w, TickVisit(queue))
    ensures Inv(Do(w, TickVisit(queue)))
  {
    var v := Do(w, TickVisit(queue));
    var r := w.phase.snapshot[w.phase.next];
    assert Undelivered(v) == Undelivered(w);
    TickVisitKeepsOnce(w, queue);
    BarShows(w.s, queue, true, w.pending);
    assert ResolvedUndelivered(w) ==> ResolvedUndelivered(v);
    assert PanelDue(w) ==> PanelDue(v);
    assert Sane(v) by {
      assert r.id in IdsOf(w.phase.snapshot);
    }
  }

  lemma TickEndKeepsInv(w: World)
    requires Inv(w) && Enabled(w, TickEnd)
    ensures Inv(Do(w, TickEnd))
  {
    var v := Do(w, TickEnd);
    assert Undelivered(v) == Undelivered(w);
    assert ResolvedUndelivered(w) ==> ResolvedUndelivered(v);
    assert PanelDue(w) ==> PanelDue(v);
    assert Sane(v);
    assert NothingLost(v);
  }

  // ---- every run ------------------------------------------------------------------------------------------

  lemma StepKeepsInv(w: World, a: Action)
    requires Inv(w) && Enabled(w, a)
    ensures Inv(Do(w, a))
  {
    match a
    case Park(r) => ParkKeepsInv(w, r);
    case Settle(id, timedOut) => SettleKeepsInv(w, id, timedOut);
    case ChangeGrants => PassingKeepsInv(w, a);
    case Publish(e) => PublishKeepsInv(w, e);
    case Advance(_) => PassingKeepsInv(w, a);
    case SummonReturns => PassingKeepsInv(w, a);
    case Start(q) => StartKeepsInv(w, q);
    case Handle(q) => HandleKeepsInv(w, q);
    case TickBegin(q) => TickBeginKeepsInv(w, q);
    case TickVisit(q) => TickVisitKeepsInv(w, q);
    case TickEnd => TickEndKeepsInv(w);
  }

  lemma HandleKeepsInv(w: World, queue: seq<Request>)
    requires Inv(w) && Enabled(w, Handle(queue))
    ensures Inv(Do(w, Handle(queue)))
  {
    match w.events[0]
    case Added(id) => ArrivalKeepsInv(w, queue, id);
    case Resolved(id, timedOut) => SettledKeepsInv(w, queue, id, timedOut);
    case GrantsChanged => GrantsKeepInv(w, queue);
  }

  lemma InitInv(w: World)
    requires Init(w)
    ensures Inv(w)
  {
  }

  lemma {:induction false} RunKeepsInv(w: World, run: seq<Action>)
    requires Inv(w) && ValidRun(w, run)
    ensures Inv(After(w, run))
    decreases |run|
  {
    if run != [] {
      StepKeepsInv(w, run[0]);
      RunKeepsInv(Do(w, run[0]), run[1..]);
    }
  }

  /** No approval is lost: after the start, whatever has happened, each request still pending is
      presented, or its arrival is yet to be handled, or its event was lost to a full channel. */
  lemma NoApprovalIsLost(w: World, run: seq<Action>, id: Id)
    requires Init(w) && ValidRun(w, run)
    ensures var v := After(w, run);
      !v.phase.Subscribed? && id in v.pending ==>
        id in v.s.presented || Added(id) in v.unsent || Added(id) in v.events || Added(id) in v.dropped
  {
    InitInv(w);
    RunKeepsInv(w, run);
  }

  /** With nothing left to hear and nothing lost, every pending request is presented and the panel
      counts them and dates the oldest. */
  lemma DrainedPanelIsTrue(w: World, run: seq<Action>)
    requires Init(w) && ValidRun(w, run)
    ensures var v := After(w, run);
      !v.phase.Subscribed? && v.unsent == multiset{} && v.events == [] && v.dropped == multiset{} ==>
        Shows(v.s.panel, v.pending) && v.pending.Keys <= v.s.presented
  {
    InitInv(w);
    RunKeepsInv(w, run);
    var v := After(w, run);
    if v.unsent == multiset{} && v.events == [] && v.dropped == multiset{} {
      assert Undelivered(v) == multiset{};
    }
  }

  /** Each request is summoned for at most once as new, and warned of at most once. */
  lemma SummonedAndWarnedOnce(w: World, run: seq<Action>, id: Id)
    requires Init(w) && ValidRun(w, run)
    ensures After(w, run).s.summoned[id] <= 1 && After(w, run).s.warnings[id] <= 1
  {
    InitInv(w);
    RunKeepsInv(w, run);
  }

  /** A resolution is still to be heard. */
  ghost predicate ResolvedComing(w: World) {
    exists id, timedOut :: Resolved(id, timedOut) in w.unsent + multiset(w.events)
  }

  /** A resolution was lost to a full channel. */
  ghost predicate ResolvedDropped(w: World) {
    exists id, timedOut :: Resolved(id, timedOut) in w.dropped
  }

  /** A summon is in flight only while something is pending or a resolution is still to be heard, or
      after a resolution was lost to a full channel. */
  lemma SummonIsJustified(w: World, run: seq<Action>)
    requires Init(w) && ValidRun(w, run)
    ensures var v := After(w, run); v.s.flight.Some? ==> v.pending != map[] || ResolvedComing(v) || ResolvedDropped(v)
  {
    InitInv(w);
    RunKeepsInv(w, run);
    var v := After(w, run);
    if ResolvedUndelivered(v) {
      var id, timedOut :| Resolved(id, timedOut) in Undelivered(v);
      assert Resolved(id, timedOut) in v.unsent + multiset(v.events) || Resolved(id, timedOut) in v.dropped;
    }
  }

  // ---- the panel's repair -------------------------------------------------------------------------------

  lemma HandleKeepsPanel(s: State, e: Event, queue: seq<Request>, now: int, pending: map<Id, Request>)
    requires Shows(s.panel, pending) && IsQueue(queue, pending)
    ensures Shows(Handled(s, e, queue, now).panel, pending)
  {
    BarShows(s, queue, false, pending);
    BarShows(s, queue, true, pending);
  }

  lemma StepKeepsPanel(w: World, a: Action)
    requires Enabled(w, a) && Shows(w.s.panel, w.pending) && !a.Park? && !a.Settle?
    ensures Shows(Do(w, a).s.panel, Do(w, a).pending)
  {
    match a
    case Start(q) => BarShows(w.s, q, false, w.pending);
    case Handle(q) => HandleKeepsPanel(w.s, w.events[0], q, w.now, w.pending);
    case TickBegin(q) => BarShows(w.s, q, false, w.pending);
    case TickVisit(q) => BarShows(w.s, q, true, w.pending);
    case _ =>
  }

  lemma {:induction false} RunKeepsPanel(w: World, run: seq<Action>)
    requires ValidRun(w, run) && Shows(w.s.panel, w.pending)
    requires forall i | 0 <= i < |run| :: !run[i].Park? && !run[i].Settle?
    ensures Shows(After(w, run).s.panel, After(w, run).pending)
    decreases |run|
  {
    if run != [] {
      StepKeepsPanel(w, run[0]);
      RunKeepsPanel(Do(w, run[0]), run[1..]);
    }
  }

  /** Whatever was lost before, from the beginning of a tick until the queue next changes the panel says
      what is pending. */
  lemma TickRepairsPanel(w: World, queue: seq<Request>, more: seq<Action>)
    requires Enabled(w, TickBegin(queue)) && ValidRun(Do(w, TickBegin(queue)), more)
    requires forall i | 0 <= i < |more| :: !more[i].Park? && !more[i].Settle?
    ensures var v := After(Do(w, TickBegin(queue)), more); Shows(v.s.panel, v.pending)
  {
    BarShows(w.s, queue, false, w.pending);
    RunKeepsPanel(Do(w, TickBegin(queue)), more);
  }

  // ---- a dropped arrival --------------------------------------------------------------------------------

  /** No request's arrival is announced twice. */
  ghost predicate OneArrivalEach(w: World) {
    forall id :: Undelivered(w)[Added(id)] <= 1 && (Added(id) in Undelivered(w) ==> id in w.known)
  }

  lemma ParkKeepsOneArrival(w: World, r: Request)
    requires OneArrivalEach(w) && Enabled(w, Park(r))
    ensures OneArrivalEach(Do(w, Park(r)))
  {
    assert Undelivered(Do(w, Park(r))) == Undelivered(w) + multiset{Added(r.id)};
    assert Undelivered(w)[Added(r.id)] == 0;
  }

  /** Every other step but a handling adds no arrival. */
  lemma NoMoreArrivals(w: World, a: Action)
    requires Enabled(w, a) && !a.Park?
    ensures forall id :: Undelivered(Do(w, a))[Added(id)] <= Undelivered(w)[Added(id)]
  {
    match a
    case Park(_) => assert false;
    case Settle(id, timedOut) => assert Undelivered(Do(w, a)) == Undelivered(w) + multiset{Resolved(id, timedOut)};
    case ChangeGrants => assert Undelivered(Do(w, a)) == Undelivered(w) + multiset{GrantsChanged};
    case Publish(e) => PublishKeepsUndelivered(w, e);
    case Handle(q) => HandleTakesOne(w, q);
    case _ => assert Undelivered(Do(w, a)) == Undelivered(w);
  }

  lemma KnownStays(w: World, a: Action)
    requires Enabled(w, a)
    ensures w.known <= Do(w, a).known
  {
  }

  lemma StepKeepsOneArrival(w: World, a: Action)
    requires OneArrivalEach(w) && Enabled(w, a)
    ensures OneArrivalEach(Do(w, a))
  {
    if a.Park? {
      ParkKeepsOneArrival(w, a.r);
    } else {
      NoMoreArrivals(w, a);
      KnownStays(w, a);
      forall id ensures Undelivered(Do(w, a))[Added(id)] <= 1 && (Added(id) in Undelivered(Do(w, a)) ==> id in Do(w, a).known) {
        assert Added(id) in Undelivered(Do(w, a)) ==> Added(id) in Undelivered(w);
      }
    }
  }

  lemma {:induction false} RunKeepsOneArrival(w: World, run: seq<Action>)
    requires OneArrivalEach(w) && ValidRun(w, run)
    ensures OneArrivalEach(After(w, run))
    decreases |run|
  {
    if run != [] {
      StepKeepsOneArrival(w, run[0]);
      RunKeepsOneArrival(Do(w, run[0]), run[1..]);
    }
  }

  /** The presenter has not presented the request, and no event will tell it to. */
  ghost predicate Missed(w: World, id: Id) {
    !w.phase.Subscribed? && id in w.known && id !in w.s.presented && Added(id) !in w.unsent && Added(id) !in w.events
  }

  lemma HandleKeepsMissed(w: World, queue: seq<Request>, id: Id)
    requires Missed(w, id) && Enabled(w, Handle(queue))
    ensures Missed(Do(w, Handle(queue)), id) && Do(w, Handle(queue)).s.summoned[id] == w.s.summoned[id]
  {
    assert w.events[0] in w.events && forall e | e in w.events[1..] :: e in w.events;
  }

  lemma StepKeepsMissed(w: World, a: Action, id: Id)
    requires Missed(w, id) && Enabled(w, a)
    ensures Missed(Do(w, a), id) && Do(w, a).s.summoned[id] == w.s.summoned[id]
  {
    if a.Handle? {
      HandleKeepsMissed(w, a.queue, id);
    }
  }

  lemma {:induction false} RunKeepsMissed(w: World, run: seq<Action>, id: Id)
    requires Missed(w, id) && ValidRun(w, run)
    ensures Missed(After(w, run), id) && After(w, run).s.summoned[id] == w.s.summoned[id]
    decreases |run|
  {
    if run != [] {
      StepKeepsMissed(w, run[0], id);
      RunKeepsMissed(Do(w, run[0]), run[1..], id);
    }
  }

  /** A missed request is summoned for by a tick's warning and by nothing else: the first look at it
      inside the warning. */
  lemma MissedIsOnlyWarned(w: World, a: Action, id: Id)
    requires Missed(w, id) && Enabled(w, a)
    ensures var v := Do(w, a);
      var looked := a.TickVisit? && w.phase.snapshot[w.phase.next].id == id
                    && id !in w.s.warned && Inside(w.phase.snapshot[w.phase.next], w.phase.at);
      && (looked ==> v.s.flight == Some(id) && v.s.warnings[id] == w.s.warnings[id] + 1)
      && (!looked ==> v.s.warnings[id] == w.s.warnings[id] && (v.s.flight == Some(id) ==> w.s.flight == Some(id)))
  {
    if a.Handle? {
      assert w.events[0] in w.events;
    }
  }

  /** A request whose arrival finds the channel full, and that is not presented already, is never
      presented and never summoned for as new, however the run goes on; a deadline warning, once, is the
      one summon it can still cause. */
  lemma DroppedArrivalIsMissed(w: World, run: seq<Action>, id: Id, more: seq<Action>)
    requires Init(w) && OneArrivalEach(w) && ValidRun(w, run)
    requires var v := After(w, run);
      && !v.phase.Subscribed? && Enabled(v, Publish(Added(id))) && |v.events| >= BACKLOG && id !in v.s.presented
      && ValidRun(Do(v, Publish(Added(id))), more)
    ensures var v := After(w, run);
      var u := After(Do(v, Publish(Added(id))), more);
      && Missed(u, id) && u.s.summoned[id] == v.s.summoned[id] && u.s.warnings[id] <= 1
  {
    var v := After(w, run);
    var dropped := Do(v, Publish(Added(id)));
    RunKeepsOneArrival(w, run);
    assert Undelivered(v)[Added(id)] == v.unsent[Added(id)] + multiset(v.events)[Added(id)] + v.dropped[Added(id)];
    assert Added(id) !in multiset(v.events);
    assert Missed(dropped, id);
    RunKeepsMissed(dropped, more, id);
    InitInv(w);
    RunKeepsInv(w, run);
    StepKeepsInv(v, Publish(Added(id)));
    RunKeepsInv(dropped, more);
  }

  // ---- requests already inside the warning --------------------------------------------------------------

  lemma VisitSparesSpent(w: World, queue: seq<Request>, id: Id)
    requires SpentHolds(w) && Enabled(w, TickVisit(queue)) && id in w.s.spent
    ensures Do(w, TickVisit(queue)).s.warnings[id] == w.s.warnings[id] && id in Do(w, TickVisit(queue)).s.spent
  {
    var r := w.phase.snapshot[w.phase.next];
    assert r.id in IdsOf(w.phase.snapshot);
    assert r.id == id ==> id in w.s.warned;
  }

  lemma HandleSparesSpent(s: State, e: Event, queue: seq<Request>, now: int, id: Id)
    requires id in s.spent
    ensures Handled(s, e, queue, now).warnings == s.warnings && id in Handled(s, e, queue, now).spent
  {
  }

  /** Nothing after a spent warning warns again. */
  lemma StepSparesSpent(w: World, a: Action, id: Id)
    requires SpentHolds(w) && Enabled(w, a) && id in w.s.spent
    ensures Do(w, a).s.warnings[id] == w.s.warnings[id] && id in Do(w, a).s.spent
  {
    match a
    case TickVisit(q) => VisitSparesSpent(w, q, id);
    case Handle(q) => HandleSparesSpent(w.s, w.events[0], q, w.now, id);
    case _ =>
  }

  lemma {:induction false} RunSparesSpent(w: World, run: seq<Action>, id: Id)
    requires Inv(w) && ValidRun(w, run) && id in w.s.spent
    ensures After(w, run).s.warnings[id] == w.s.warnings[id]
    decreases |run|
  {
    if run != [] {
      StepKeepsInv(w, run[0]);
      StepSparesSpent(w, run[0], id);
      RunSparesSpent(Do(w, run[0]), run[1..], id);
    }
  }

  /** Being marked warned has a reason: the warning was given, or it was spent. */
  ghost predicate MarkedForAReason(w: World) {
    && (forall id | id in w.s.warned :: id in w.s.spent || w.s.warnings[id] >= 1)
    && (forall id | id in w.s.spent && id in w.pending :: id in w.s.presented)
  }

  lemma WorldKeepsReason(w: World, a: Action)
    requires Inv(w) && MarkedForAReason(w) && Enabled(w, a)
    requires a.Park? || a.Settle? || a.ChangeGrants? || a.Publish? || a.Advance? || a.SummonReturns?
    ensures MarkedForAReason(Do(w, a))
  {
    if a.Park? {
      assert forall id | id in w.s.spent :: id in w.known;
    }
  }

  lemma StartKeepsReason(w: World, queue: seq<Request>)
    requires Inv(w) && MarkedForAReason(w) && Enabled(w, Start(queue))
    ensures MarkedForAReason(Do(w, Start(queue)))
  {
    assert InsideOf(queue, w.now) <= IdsOf(queue);
  }

  lemma HandleKeepsReason(w: World, queue: seq<Request>)
    requires Inv(w) && MarkedForAReason(w) && Enabled(w, Handle(queue))
    ensures MarkedForAReason(Do(w, Handle(queue)))
  {
    match w.events[0]
    case Added(id) =>
      var r := Find(queue, id);
      if r.Some? {
        assert InsideOf([r.value], w.now) <= {id};
      }
    case Resolved(id, timedOut) =>
      assert Resolved(id, timedOut) in multiset(w.events);
      assert Resolved(id, timedOut) in Undelivered(w);
    case GrantsChanged =>
  }

  lemma TickKeepsReason(w: World, a: Action)
    requires Inv(w) && MarkedForAReason(w) && Enabled(w, a) && (a.TickBegin? || a.TickVisit? || a.TickEnd?)
    ensures MarkedForAReason(Do(w, a))
  {
  }

  lemma {:induction false} RunKeepsReason(w: World, run: seq<Action>)
    requires Inv(w) && MarkedForAReason(w) && ValidRun(w, run)
    ensures MarkedForAReason(After(w, run))
    decreases |run|
  {
    if run != [] {
      var a := run[0];
      StepKeepsInv(w, a);
      if a.Start? {
        StartKeepsReason(w, a.queue);
      } else if a.Handle? {
        HandleKeepsReason(w, a.queue);
      } else if a.TickBegin? || a.TickVisit? || a.TickEnd? {
        TickKeepsReason(w, a);
      } else {
        WorldKeepsReason(w, a);
      }
      RunKeepsReason(Do(w, a), run[1..]);
    }
  }

  /** A request whose arrival is heard when it is already inside the warning is warned of exactly when
      a tick marked it before that, and however the run goes on. */
  lemma ShortRequestWarnedIffMarkedFirst(w: World, run: seq<Action>, queue: seq<Request>, more: seq<Action>, id: Id)
    requires Init(w) && ValidRun(w, run)
    requires var v := After(w, run);
      && Enabled(v, Handle(queue)) && v.events[0] == Added(id) && id !in v.s.presented
      && Find(queue, id).Some? && Inside(Find(queue, id).value, v.now)
      && ValidRun(Do(v, Handle(queue)), more)
    ensures var v := After(w, run);
      After(Do(v, Handle(queue)), more).s.warnings[id] == 1 <==> id in v.s.warned
  {
    InitInv(w);
    RunKeepsInv(w, run);
    RunKeepsReason(w, run);
    var v := After(w, run);
    var heard := Do(v, Handle(queue));
    var r := Find(queue, id).value;
    assert [r][0].id in InsideOf([r], v.now);
    StepKeepsInv(v, Handle(queue));
    RunSparesSpent(heard, more, id);
    assert id in v.pending;
  }

  // ---- a tick that does come first ------------------------------------------------------------------------

  const QUIET := World(0, map[], {}, multiset{}, [], multiset{}, FRESH, Subscribed)

  const SHORT := Request(1, "wiry-otter", 0, 60)

  lemma OneRequestQueue()
    ensures IsQueue([SHORT], map[1 := SHORT])
  {
    var q := [SHORT];
    assert q[0].id in IdsOf(q);
    assert IdsOf(q) == {1} == map[1 := SHORT].Keys;
  }

  lemma {:induction false} RunThen(w: World, run: seq<Action>, a: Action)
    requires ValidRun(w, run) && Enabled(After(w, run), a)
    ensures ValidRun(w, run + [a]) && After(w, run + [a]) == Do(After(w, run), a)
    decreases |run|
  {
    if run == [] {
      assert [] + [a] == [a] && [a][1..] == [];
      assert After(Do(w, a), []) == Do(w, a);
    } else {
      assert (run + [a])[1..] == run[1..] + [a];
      RunThen(Do(w, run[0]), run[1..], a);
    }
  }

  const PARKED := World(0, map[1 := SHORT], {1}, multiset{Added(1)}, [], multiset{}, FRESH, Idle)

  const WARNED := PARKED.(s := FRESH.(
    warned := {1}, flight := Some(1), panel := Panel(1, Some(0)), bells := 1, warnings := multiset{1}))

  lemma ParkFirst() returns (run: seq<Action>)
    ensures ValidRun(QUIET, run) && After(QUIET, run) == PARKED
  {
    assert IdsOf([]) == {};
    run := [];
    RunThen(QUIET, run, Start([]));
    run := run + [Start([])];
    assert After(QUIET, run) == QUIET.(phase := Idle);
    RunThen(QUIET, run, Park(SHORT));
    run := run + [Park(SHORT)];
  }

  lemma ShortBar(s: State, ring: bool)
    ensures Bar(s, [SHORT], ring) == s.(panel := Panel(1, Some(0)), bells := s.bells + if ring then 1 else 0)
  {
    assert [SHORT][..0] == [];
    assert Oldest([SHORT]) == Some(0);
  }

  const LOOKED := PARKED.(s := FRESH.(panel := Panel(1, Some(0))), phase := Ticking([SHORT], 0, 0))

  lemma LookShort()
    ensures Enabled(PARKED, TickBegin([SHORT])) && Do(PARKED, TickBegin([SHORT])) == LOOKED
    ensures Enabled(LOOKED, TickVisit([SHORT]))
    ensures Do(LOOKED, TickVisit([SHORT])) == WARNED.(phase := Ticking([SHORT], 1, 0))
  {
    OneRequestQueue();
    ShortBar(FRESH, false);
    ShortBar(LOOKED.s.(warned := {1}, flight := Some(1), warnings := multiset{1}), true);
    assert {} + {1} == {1} && multiset{} + multiset{1} == multiset{1};
  }

  lemma LookOver()
    ensures var w := WARNED.(phase := Ticking([SHORT], 1, 0)); Enabled(w, TickEnd) && Do(w, TickEnd) == WARNED
  {
    OneRequestQueue();
    assert {1} * IdsOf([SHORT]) == {1} && {} * IdsOf([SHORT]) == {};
  }

  /** A tick looks at the parked request before its event is handled. */
  lemma TickFirst() returns (run: seq<Action>)
    ensures ValidRun(PARKED, run) && After(PARKED, run) == WARNED
  {
    LookShort();
    LookOver();
    run := [];
    RunThen(PARKED, run, TickBegin([SHORT]));
    run := run + [TickBegin([SHORT])];
    RunThen(PARKED, run, TickVisit([SHORT]));
    run := run + [TickVisit([SHORT])];
    RunThen(PARKED, run, TickEnd);
    run := run + [TickEnd];
  }

  lemma {:induction false} RunsConcat(w: World, a: seq<Action>, b: seq<Action>)
    requires ValidRun(w, a) && ValidRun(After(w, a), b)
    ensures ValidRun(w, a + b) && After(w, a + b) == After(After(w, a), b)
    decreases |a|
  {
    if a == [] {
      assert a + b == b;
    } else {
      assert (a + b)[1..] == a[1..] + b;
      RunsConcat(Do(w, a[0]), a[1..], b);
    }
  }

  /** Spending the warning at the arrival does not hold a short request to one summon: when a tick
      sees the request before its event is handled, it is summoned for as a warning and then again as
      an arrival. */
  lemma EarlyTickSummonsTwice() returns (run: seq<Action>)
    ensures Init(QUIET) && ValidRun(QUIET, run) && Inside(SHORT, SHORT.since)
    ensures var s := After(QUIET, run).s; s.warnings[SHORT.id] == 1 && s.summoned[SHORT.id] == 1
  {
    var parked := ParkFirst();
    var ticked := TickFirst();
    RunsConcat(QUIET, parked, ticked);
    run := parked + ticked;
    OneRequestQueue();
    RunThen(QUIET, run, Publish(Added(1)));
    run := run + [Publish(Added(1))];
    assert After(QUIET, run).events == [Added(1)];
    RunThen(QUIET, run, Handle([SHORT]));
    run := run + [Handle([SHORT])];
    assert Find([SHORT], 1) == Some(SHORT);
  }

  // ---- a channel that fills up ----------------------------------------------------------------------------

  function Req(i: nat): Request { Request(i, "", 0, 60) }

  ghost function Asked(k: nat): map<Id, Request> { map i: nat | 0 <= i < k :: Req(i) }

  /** The first k requests parked and announced, and none of the events handled yet. */
  ghost function Announced(k: nat): World {
    World(0, Asked(k), Asked(k).Keys, multiset{}, seq(k, i requires 0 <= i < k => Added(i)), multiset{}, FRESH, Idle)
  }

  lemma ParkOneMore(k: nat)
    ensures var w := Announced(k);
      && Enabled(w, Park(Req(k)))
      && var v := Do(w, Park(Req(k)));
      && Enabled(v, Publish(Added(k)))
      && v.pending == Announced(k + 1).pending && v.known == Announced(k + 1).known
      && v.unsent == multiset{Added(k)} && v.events == w.events && v.dropped == w.dropped && v.s == w.s
  {
  }

  lemma AnnounceOneMore(k: nat)
    requires k < BACKLOG
    ensures Enabled(Announced(k), Park(Req(k)))
    ensures var v := Do(Announced(k), Park(Req(k))); Enabled(v, Publish(Added(k))) && Do(v, Publish(Added(k))) == Announced(k + 1)
  {
    ParkOneMore(k);
    var v := Do(Announced(k), Park(Req(k)));
    assert v.unsent - multiset{Added(k)} == multiset{};
    assert v.events + [Added(k)] == Announced(k + 1).events;
  }

  lemma {:induction false} AnnounceMany(k: nat) returns (run: seq<Action>)
    requires k <= BACKLOG
    ensures ValidRun(QUIET, run) && After(QUIET, run) == Announced(k)
  {
    if k == 0 {
      assert IdsOf([]) == {};
      run := [];
      RunThen(QUIET, run, Start([]));
      run := run + [Start([])];
      assert Announced(0).pending == map[] && Announced(0).known == {} && Announced(0).events == [];
    } else {
      run := AnnounceMany(k - 1);
      AnnounceOneMore(k - 1);
      RunThen(QUIET, run, Park(Req(k - 1)));
      run := run + [Park(Req(k - 1))];
      RunThen(QUIET, run, Publish(Added(k - 1)));
      run := run + [Publish(Added(k - 1))];
    }
  }

  /** One request more than the channel holds: its arrival is dropped, and it is missed while pending. */
  lemma OneTooMany() returns (run: seq<Action>)
    ensures Init(QUIET) && OneArrivalEach(QUIET) && ValidRun(QUIET, run)
    ensures var v := After(QUIET, run);
      v.unsent == multiset{} && v.dropped == multiset{Added(64)} && 64 in v.pending && Missed(v, 64)
  {
    run := AnnounceMany(BACKLOG);
    ParkOneMore(BACKLOG);
    RunThen(QUIET, run, Park(Req(BACKLOG)));
    run := run + [Park(Req(BACKLOG))];
    var v := After(QUIET, run);
    assert v.unsent - multiset{Added(BACKLOG)} == multiset{};
    assert multiset{} + multiset{Added(BACKLOG)} == multiset{Added(BACKLOG)};
    RunThen(QUIET, run, Publish(Added(BACKLOG)));
    run := run + [Publish(Added(BACKLOG))];
    assert BACKLOG in Announced(BACKLOG + 1).pending;
    assert forall e | e in v.events :: e != Added(BACKLOG);
  }
}
