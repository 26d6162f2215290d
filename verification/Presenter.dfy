/** The approval presenter (internal/adapters/cli/approval_presenter.go): the one loop that shows the
    root's approval queue on the panel and summons the approvals view.

    The queue changes while the presenter runs: requests are parked and resolved, their events are
    published after the change and pass through a bounded channel, and a tick's look at the queue is
    stale by the time it has worked through it. The presenter is a class whose handlers are proved
    against the functions below; the interleaving is a transition system over those functions, and its
    promises are invariants of every run. */
module Presenter {
  import opened Base

  type Id = nat

  /** A parked request; times are in seconds. */
  datatype Request = Request(id: Id, harp: string, since: int, deadline: int)

  datatype Event = Added(id: Id) | Resolved(id: Id, timedOut: bool) | GrantsChanged

  /** A request still waiting this long before its deadline gets one more summon and bell. */
  const WARN_BEFORE := 120

  /** The capacity of a subscriber's channel; an event that finds it full is lost. */
  const BACKLOG := 64

  /** What the panel says: how many requests wait, and since when the oldest does. */
  datatype Panel = Panel(count: nat, oldest: Option<int>)

  /** The presenter's state, with the history of what it has shown. */
  datatype State = State(
    warned: set<Id>,
    presented: set<Id>,
    flight: Option<Id>,            // the request whose summon is in flight
    panel: Panel,
    bells: nat,
    notes: nat,
    summoned: multiset<Id>,        // summons by the start or by an arrival
    warnings: multiset<Id>,        // summons by the deadline warning
    spent: set<Id>)                // requests first shown when already inside the warning

  const FRESH := State({}, {}, None, Panel(0, None), 0, 0, multiset{}, multiset{}, {})

  // ---- the handlers -----------------------------------------------------------------------------------

  function Oldest(queue: seq<Request>): Option<int> {
    if queue == [] then None
    else
      var earlier, last := Oldest(queue[..|queue| - 1]), queue[|queue| - 1].since;
      if earlier.None? || last < earlier.value then Some(last) else earlier
  }

  function Bar(s: State, queue: seq<Request>, ring: bool): State {
    s.(panel := Panel(|queue|, Oldest(queue)), bells := s.bells + if ring then 1 else 0)
  }

  predicate Inside(r: Request, now: int) { r.deadline - now <= WARN_BEFORE }

  function IdsOf(queue: seq<Request>): set<Id> { set i | 0 <= i < |queue| :: queue[i].id }

  function InsideOf(queue: seq<Request>, now: int): set<Id> {
    set i | 0 <= i < |queue| && Inside(queue[i], now) :: queue[i].id
  }

  lemma IdsAppend(queue: seq<Request>, i: nat, now: int)
    requires i < |queue|
    ensures IdsOf(queue[..i + 1]) == IdsOf(queue[..i]) + {queue[i].id}
    ensures InsideOf(queue[..i + 1], now) ==
            InsideOf(queue[..i], now) + if Inside(queue[i], now) then {queue[i].id} else {}
  {
    assert queue[..i + 1] == queue[..i] + [queue[i]];
  }

  /** The warnings of requests already inside it when first seen are spent: their summon is it. */
  function Spend(s: State, queue: seq<Request>, now: int): State {
    s.(warned := s.warned + InsideOf(queue, now), spent := s.spent + InsideOf(queue, now))
  }

  /** A summon replaces the one in flight. */
  function Summon(s: State, r: Request): State {
    s.(flight := Some(r.id), summoned := s.summoned + multiset{r.id})
  }

  /** What was already waiting is shown without a bell. */
  function Started(s: State, queue: seq<Request>, now: int): State {
    var shown := Bar(s, queue, false);
    var marked := shown.(presented := shown.presented + IdsOf(queue));
    if queue == [] then marked else Summon(Spend(marked, queue, now), queue[0])
  }

  function Find(queue: seq<Request>, id: Id): (r: Option<Request>)
    ensures r.Some? ==> r.value in queue && r.value.id == id
    ensures r.None? <==> forall i | 0 <= i < |queue| :: queue[i].id != id
  {
    if queue == [] then None
    else if queue[|queue| - 1].id == id then Some(queue[|queue| - 1])
    else Find(queue[..|queue| - 1], id)
  }

  function Arrived(s: State, id: Id, queue: seq<Request>, now: int): State {
    if id in s.presented then s
    else
      var shown := Bar(s, queue, true);
      match Find(queue, id)
      case None => shown
      case Some(r) => Summon(Spend(shown.(presented := shown.presented + {id}), [r], now), r)
  }

  function Settled(s: State, id: Id, timedOut: bool, queue: seq<Request>): State {
    var shown := Bar(s.(presented := s.presented - {id}, notes := s.notes + if timedOut then 1 else 0), queue, false);
    if queue == [] then shown.(flight := None) else shown
  }

  function Handled(s: State, e: Event, queue: seq<Request>, now: int): State {
    match e
    case Added(id) => Arrived(s, id, queue, now)
    case Resolved(id, timedOut) => Settled(s, id, timedOut, queue)
    case GrantsChanged => s
  }

  /** A tick's look at one request of its snapshot; queue is what is pending by then. */
  function Visited(s: State, r: Request, now: int, queue: seq<Request>): State {
    if r.id !in s.warned && Inside(r, now) then
      Bar(s.(warned := s.warned + {r.id}, flight := Some(r.id), warnings := s.warnings + multiset{r.id}), queue, true)
    else s
  }

  /** A tick forgets what its snapshot did not hold. */
  function Pruned(s: State, snapshot: seq<Request>): State {
    s.(warned := s.warned * IdsOf(snapshot), presented := s.presented * IdsOf(snapshot))
  }

  function VisitedTo(s: State, snapshot: seq<Request>, now: int, looks: nat -> seq<Request>, k: nat): State
    requires k <= |snapshot|
  {
    if k == 0 then s else Visited(VisitedTo(s, snapshot, now, looks, k - 1), snapshot[k - 1], now, looks(k - 1))
  }

  /** A whole tick; looks is what each look at the queue inside it found. */
  function Ticked(s: State, snapshot: seq<Request>, now: int, looks: nat -> seq<Request>): State {
    Pruned(VisitedTo(Bar(s, snapshot, false), snapshot, now, looks, |snapshot|), snapshot)
  }

  // ---- the presenter as it runs -----------------------------------------------------------------------

  class Loop {
    var warned: set<Id>
    var presented: set<Id>
    var flight: Option<Id>
    var panel: Panel
    var bells: nat
    var notes: nat
    ghost var summoned: multiset<Id>
    ghost var warnings: multiset<Id>
    ghost var spent: set<Id>

    ghost function View(): State
      reads this
    {
      State(warned, presented, flight, panel, bells, notes, summoned, warnings, spent)
    }

    constructor ()
      ensures View() == FRESH
    {
      warned, presented, flight, panel := {}, {}, None, Panel(0, None);
      bells, notes := 0, 0;
      summoned, warnings, spent := multiset{}, multiset{}, {};
    }

    /** The panel set from what is pending. */
    method SetBar(queue: seq<Request>, ring: bool)
      modifies this
      ensures View() == Bar(old(View()), queue, ring)
    {
      var oldest: Option<int> := None;
      for i := 0 to |queue|
        invariant oldest == Oldest(queue[..i])
        invariant View() == old(View())
      {
        assert queue[..i + 1][..i] == queue[..i];
        if oldest.None? || queue[i].since < oldest.value {
          oldest := Some(queue[i].since);
        }
      }
      assert queue[..|queue|] == queue;
      panel := Panel(|queue|, oldest);
      if ring {
        bells := bells + 1;
      }
    }

    method MarkWarned(queue: seq<Request>, now: int)
      modifies this
      ensures View() == Spend(old(View()), queue, now)
    {
      for i := 0 to |queue|
        invariant View() == Spend(old(View()), queue[..i], now)
      {
        var r := queue[i];
        IdsAppend(queue, i, now);
        if Inside(r, now) {
          warned := warned + {r.id};
          spent := spent + {r.id};
        }
      }
      assert queue[..|queue|] == queue;
    }

    method DoSummon(r: Request)
      modifies this
      ensures View() == Summon(old(View()), r)
    {
      flight := Some(r.id);
      summoned := summoned + multiset{r.id};
    }

    method Start(queue: seq<Request>, now: int)
      modifies this
      ensures View() == Started(old(View()), queue, now)
    {
      SetBar(queue, false);
      ghost var shown := View();
      for i := 0 to |queue|
        invariant View() == shown.(presented := shown.presented + IdsOf(queue[..i]))
      {
        IdsAppend(queue, i, now);
        presented := presented + {queue[i].id};
      }
      assert queue[..|queue|] == queue;
      if |queue| > 0 {
        MarkWarned(queue, now);
        DoSummon(queue[0]);
      }
    }

    /** OnEvent's case of an arrival. */
    method OnArrival(id: Id, queue: seq<Request>, now: int)
      requires forall i, j | 0 <= i < j < |queue| :: queue[i].id != queue[j].id
      modifies this
      ensures View() == Arrived(old(View()), id, queue, now)
    {
      if id in presented {
        return;
      }
      SetBar(queue, true);
      ghost var shown := View();
      for i := 0 to |queue|
        invariant View() == match Find(queue[..i], id)
                            case None => shown
                            case Some(r) => Summon(Spend(shown.(presented := shown.presented + {id}), [r], now), r)
      {
        assert queue[..i + 1][..i] == queue[..i];
        assert Find(queue[..i], id).Some? ==> queue[i].id != id;
        if queue[i].id == id {
          presented := presented + {id};
          MarkWarned([queue[i]], now);
          DoSummon(queue[i]);
        }
      }
      assert queue[..|queue|] == queue;
    }

    method OnEvent(e: Event, queue: seq<Request>, now: int)
      requires forall i, j | 0 <= i < j < |queue| :: queue[i].id != queue[j].id
      modifies this
      ensures View() == Handled(old(View()), e, queue, now)
    {
      match e
      case Added(id) =>
        OnArrival(id, queue, now);
      case Resolved(id, timedOut) =>
        presented := presented - {id};
        if timedOut {
          notes := notes + 1;
        }
        SetBar(queue, false);
        if |queue| == 0 {
          flight := None;
        }
      case GrantsChanged =>
    }

    /** A tick's look at one request. */
    method Visit(r: Request, now: int, queue: seq<Request>)
      modifies this
      ensures View() == Visited(old(View()), r, now, queue)
    {
      if r.id !in warned && Inside(r, now) {
        warned := warned + {r.id};
        SetBar(queue, true);
        flight := Some(r.id);
        warnings := warnings + multiset{r.id};
      }
    }

    method OnTick(snapshot: seq<Request>, now: int, looks: nat -> seq<Request>)
      modifies this
      ensures View() == Ticked(old(View()), snapshot, now, looks)
    {
      SetBar(snapshot, false);
      var live: set<Id> := {};
      for i := 0 to |snapshot|
        invariant live == IdsOf(snapshot[..i])
        invariant View() == VisitedTo(Bar(old(View()), snapshot, false), snapshot, now, looks, i)
      {
        IdsAppend(snapshot, i, now);
        live := live + {snapshot[i].id};
        Visit(snapshot[i], now, looks(i));
      }
      assert snapshot[..|snapshot|] == snapshot;
      warned := warned * live;
      presented := presented * live;
    }
  }
}
