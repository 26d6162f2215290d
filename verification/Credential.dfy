/** The credential notice (internal/adapters/cli/credential_presenter.go): while runs are held on their
    credential the panel says so; a credential refused outright rings the bell once as it opens.

    The panel has one line for notes, and others write it too. The notice expires unless it is set
    again, and is deliberately not set again on every poll: that would clobber every other note. So the
    other notes clobber it, and what is proved is exactly when it shows. Times are in seconds. */
module Credential {
  import opened Base

  datatype Kind = Refused | RateLimited | Overloaded | Unreachable

  /** Runs held on a credential: which one, since when, why, and which runs. engine is "" when it is not
      known; carrier, until and remedy are as they are spelled for the human. */
  datatype Hold = Hold(
    key: string, since: int, kind: Kind, harps: seq<string>,
    engine: string, carrier: string, until: string, remedy: string)

  /** What tells holds apart across polls; an endpoint failure's is its one run's own. */
  datatype HoldId = HoldId(key: string, since: int, harp: Option<string>)

  function IdOf(h: Hold): HoldId {
    HoldId(h.key, h.since, if (h.kind.Overloaded? || h.kind.Unreachable?) && h.harps != [] then Some(h.harps[0]) else None)
  }

  /** A credential's hold is one and the same, whichever runs it holds and however it is refused. */
  lemma CredentialKeepsId(h: Hold, kind: Kind, harps: seq<string>)
    requires (h.kind == Refused || h.kind == RateLimited) && (kind == Refused || kind == RateLimited)
    ensures IdOf(h.(kind := kind, harps := harps)) == IdOf(h)
  {
  }

  /** Of endpoint failures each run has its own, and so do credentials, and instants. */
  lemma HoldsApart(a: Hold, b: Hold)
    ensures IdOf(a) == IdOf(b) ==> a.key == b.key && a.since == b.since
    ensures a.kind in {Overloaded, Unreachable} && b.kind in {Overloaded, Unreachable} && a.harps != [] && b.harps != [] ==>
      (IdOf(a) == IdOf(b) <==> a.key == b.key && a.since == b.since && a.harps[0] == b.harps[0])
  {
  }

  const REFRESH := 60
  const NOTE_FOR := 2 * REFRESH

  /** The panel's one note (internal/adapters/cli/tui/split_approvals.go), and when it goes away by itself. */
  datatype Note = Note(text: string, until: int)

  datatype State = State(
    shown: string, shownAt: int,
    known: Option<map<HoldId, Hold>>,    // the holds of the last poll; None until the first
    rings: nat,
    note: Option<Note>)

  const FRESH := State("", 0, None, 0, None)

  // ---- the notice's text ------------------------------------------------------------------------------------

  function KindName(kind: Kind): string {
    match kind
    case Refused => "CREDENTIAL REFUSED"
    case RateLimited => "RATE LIMITED"
    case Overloaded => "OVERLOADED"
    case Unreachable => "ENDPOINT UNREACHABLE"
  }

  function HoldDetail(h: Hold): string {
    var who := if h.engine == "" then "the engine" else h.engine;
    match h.kind
    case Refused => who + " (" + h.carrier + "): " + Decimal(|h.harps|) + " parked — " + h.remedy
    case RateLimited =>
      who + " (" + h.carrier + "): " + Decimal(|h.harps|) + " waiting — they resume on their own at " + h.until
    case _ => who + ": " + Join(", ", h.harps) + " backs off — it resumes on its own at " + h.until
  }

  function HoldNotice(h: Hold): (text: string)
    ensures text != ""
  {
    KindName(h.kind) + ": " + HoldDetail(h)
  }

  /** What a notice begins with tells its kind, whatever else it says. */
  lemma NoticeNamesKind(a: Hold, b: Hold)
    ensures SplitOn(':', HoldNotice(a))[0] == SplitOn(':', HoldNotice(b))[0] <==> a.kind == b.kind
    ensures SplitOn(':', HoldNotice(a))[0] ==
              match a.kind
              case Refused => "CREDENTIAL REFUSED"
              case RateLimited => "RATE LIMITED"
              case Overloaded => "OVERLOADED"
              case Unreachable => "ENDPOINT UNREACHABLE"
  {
    NoticeBegins(a);
    NoticeBegins(b);
    NamesDiffer(a.kind, b.kind);
  }

  lemma NamesDiffer(a: Kind, b: Kind)
    ensures KindName(a) == KindName(b) <==> a == b
  {
    assert |KindName(a)| == match a case Refused => 18 case RateLimited => 12 case Overloaded => 10 case Unreachable => 20;
    assert |KindName(b)| == match b case Refused => 18 case RateLimited => 12 case Overloaded => 10 case Unreachable => 20;
  }

  lemma NoticeBegins(h: Hold)
    ensures SplitOn(':', HoldNotice(h))[0] == KindName(h.kind)
  {
    FirstPart(KindName(h.kind), HoldDetail(h));
  }

  lemma FirstPart(name: string, rest: string)
    requires ':' !in name
    ensures SplitOn(':', name + ": " + rest)[0] == name
  {
    assert name + ": " + rest == name + [':'] + (" " + rest);
    SplitFirst(':', name, " " + rest);
  }

  /** What a hold on a credential says: who waits, what carries the credential, how many runs wait, and
      what the human must do, or until when it lasts. */
  lemma CredentialNotice(h: Hold, who: string)
    requires who == h.engine != "" || (h.engine == "" && who == "the engine")
    ensures h.kind == Refused ==>
      HoldDetail(h) == who + " (" + h.carrier + "): " + Decimal(|h.harps|) + " parked — " + h.remedy
    ensures h.kind == RateLimited ==>
      HoldDetail(h) == who + " (" + h.carrier + "): " + Decimal(|h.harps|) + " waiting — they resume on their own at " + h.until
  {
  }

  /** What an endpoint's failure says: which run backs off, and until when. */
  lemma EndpointNotice(h: Hold, who: string)
    requires who == h.engine != "" || (h.engine == "" && who == "the engine")
    requires h.kind == Overloaded || h.kind == Unreachable
    ensures HoldDetail(h) == who + ": " + Join(", ", h.harps) + " backs off — it resumes on its own at " + h.until
  {
  }

  /** The oldest hold in full, and how many more there are. */
  function NoticeText(holds: seq<Hold>): (text: string)
    ensures text == "" <==> holds == []
  {
    if holds == [] then ""
    else if |holds| == 1 then HoldNotice(holds[0])
    else HoldNotice(holds[0]) + (" (+" + Decimal(|holds| - 1) + " more)")
  }

  lemma NoticeCounts(h: Hold, more: seq<Hold>)
    ensures NoticeText([h]) == HoldNotice(h)
    ensures more != [] ==> NoticeText([h] + more) == HoldNotice(h) + (" (+" + Decimal(|more|) + " more)")
  {
    var holds := [h] + more;
    assert holds[0] == h && |holds| - 1 == |more|;
  }

  // ---- one poll -----------------------------------------------------------------------------------------------

  function Known(holds: seq<Hold>): map<HoldId, Hold> {
    if holds == [] then map[]
    else
      var last := holds[|holds| - 1];
      Known(holds[..|holds| - 1])[IdOf(last) := last]
  }

  /** The hold is refused now, and was not among the last poll's as refused. */
  predicate Opens(prev: map<HoldId, Hold>, now: map<HoldId, Hold>, id: HoldId) {
    id in now && now[id].kind.Refused? && (id !in prev || prev[id].kind != now[id].kind)
  }

  ghost predicate RefusalOpened(prev: map<HoldId, Hold>, now: map<HoldId, Hold>) {
    exists id :: Opens(prev, now, id)
  }

  /** Of the holds with its id, the one at i is the last. */
  predicate LastOfId(holds: seq<Hold>, i: nat)
    requires i < |holds|
  {
    forall j | i < j < |holds| :: IdOf(holds[j]) != IdOf(holds[i])
  }

  /** The ids known of holds are theirs, and each stands for the last hold of that id. */
  lemma {:induction false} KnownHolds(holds: seq<Hold>, i: nat)
    requires i < |holds| && LastOfId(holds, i)
    ensures IdOf(holds[i]) in Known(holds) && Known(holds)[IdOf(holds[i])] == holds[i]
  {
    var k := |holds| - 1;
    if i < k {
      KnownHolds(holds[..k], i);
    }
  }

  lemma {:induction false} KnownIsOfHolds(holds: seq<Hold>, id: HoldId) returns (i: nat)
    requires id in Known(holds)
    ensures i < |holds| && LastOfId(holds, i) && IdOf(holds[i]) == id && Known(holds)[id] == holds[i]
  {
    i := |holds| - 1;
    var last := i;
    if IdOf(holds[i]) != id {
      i := KnownIsOfHolds(holds[..last], id);
      assert forall j | i < j < last :: holds[j] == holds[..last][j];
    }
  }

  /** The hold at i is refused, and no hold of its id was at the last poll. */
  ghost predicate NewlyRefused(prev: seq<Hold>, now: seq<Hold>, i: nat)
    requires i < |now|
  {
    && LastOfId(now, i) && now[i].kind == Refused
    && forall j | 0 <= j < |prev| && LastOfId(prev, j) && IdOf(prev[j]) == IdOf(now[i]) :: prev[j].kind != Refused
  }

  /** A refusal opens between two polls exactly when some hold is newly refused. */
  lemma OpenedExactly(prev: seq<Hold>, now: seq<Hold>)
    ensures RefusalOpened(Known(prev), Known(now)) <==> exists i :: 0 <= i < |now| && NewlyRefused(prev, now, i)
  {
    if RefusalOpened(Known(prev), Known(now)) {
      var id :| Opens(Known(prev), Known(now), id);
      var i := KnownIsOfHolds(now, id);
      OpensIfNewlyRefused(prev, now, i);
      assert NewlyRefused(prev, now, i);
    }
    if i :| 0 <= i < |now| && NewlyRefused(prev, now, i) {
      OpensIfNewlyRefused(prev, now, i);
    }
  }

  lemma OpensIfNewlyRefused(prev: seq<Hold>, now: seq<Hold>, i: nat)
    requires i < |now| && LastOfId(now, i)
    ensures Opens(Known(prev), Known(now), IdOf(now[i])) <==> NewlyRefused(prev, now, i)
  {
    var id := IdOf(now[i]);
    KnownHolds(now, i);
    if id in Known(prev) {
      var j := KnownIsOfHolds(prev, id);
    }
    forall j: nat | j < |prev| && LastOfId(prev, j)
      ensures IdOf(prev[j]) in Known(prev) && Known(prev)[IdOf(prev[j])] == prev[j]
    {
      KnownHolds(prev, j);
    }
  }

  ghost function Tracked(s: State, holds: seq<Hold>): State {
    var now := Known(holds);
    s.(rings := s.rings + (if s.known.Some? && RefusalOpened(s.known.value, now) then 1 else 0), known := Some(now))
  }

  /** A note shown for a while, in place of whatever the line read. */
  function Flashed(s: State, text: string, now: int, lasts: int): State {
    s.(note := Some(Note(text, now + lasts)))
  }

  /** Whether a poll leaves the notice as it is. */
  predicate Stands(s: State, text: string, now: int) {
    text == s.shown && (text == "" || now - s.shownAt < REFRESH)
  }

  /** The notice set, set again, cleared, or left to stand. */
  function Noted(s: State, text: string, now: int): State {
    if Stands(s, text, now) then s
    else Flashed(s, text, now, if text == "" then 0 else NOTE_FOR).(shown := text, shownAt := now)
  }

  ghost function Refreshed(s: State, holds: seq<Hold>, now: int): State {
    Noted(Tracked(s, holds), NoticeText(holds), now)
  }

  class Presenter {
    var shown: string
    var shownAt: int
    var known: Option<map<HoldId, Hold>>
    var rings: nat
    var note: Option<Note>

    ghost function View(): State
      reads this
    {
      State(shown, shownAt, known, rings, note)
    }

    constructor ()
      ensures View() == FRESH
    {
      shown, shownAt, known, rings, note := "", 0, None, 0, None;
    }

    /** Whether a refusal opened since the last poll. */
    method FindOpened(prev: map<HoldId, Hold>, now: map<HoldId, Hold>) returns (found: bool)
      ensures found <==> RefusalOpened(prev, now)
    {
      var rest := now.Keys;
      while rest != {}
        invariant rest <= now.Keys
        invariant forall id | id in now.Keys - rest :: !Opens(prev, now, id)
        decreases rest
      {
        var id :| id in rest;
        if Opens(prev, now, id) {
          return true;
        }
        rest := rest - {id};
      }
      return false;
    }

    method Track(holds: seq<Hold>)
      modifies this
      ensures View() == Tracked(old(View()), holds)
    {
      var now: map<HoldId, Hold> := map[];
      for i := 0 to |holds|
        invariant now == Known(holds[..i])
        invariant View() == old(View())
      {
        assert holds[..i + 1][..i] == holds[..i];
        now := now[IdOf(holds[i]) := holds[i]];
      }
      assert holds[..|holds|] == holds;
      if known.Some? {
        var found := FindOpened(known.value, now);
        if found {
          rings := rings + 1;
        }
      }
      known := Some(now);
    }

    method Refresh(holds: seq<Hold>, now: int)
      modifies this
      ensures View() == Refreshed(old(View()), holds, now)
    {
      Track(holds);
      var text := NoticeText(holds);
      if text == shown && (text == "" || now - shownAt < REFRESH) {
        return;
      }
      if text == "" {
        Flash("", now, 0);
      } else {
        Flash(text, now, NOTE_FOR);
      }
      shown, shownAt := text, now;
    }

    /** The panel's own setter, for any writer: a later note replaces this one. */
    method Flash(text: string, now: int, lasts: int)
      modifies this
      ensures View() == Flashed(old(View()), text, now, lasts)
    {
      note := Some(Note(text, now + lasts));
    }
  }

  // ---- every run ----------------------------------------------------------------------------------------------

  datatype Poll = Poll(holds: seq<Hold>, at: int)

  /** A poll of the holds, or a note of another writer: an approval that timed out, a key pressed. */
  datatype Event = Polled(poll: Poll) | Other(text: string, at: int, lasts: int)

  ghost function After(events: seq<Event>): State {
    if events == [] then FRESH
    else
      var s := After(events[..|events| - 1]);
      match events[|events| - 1]
      case Polled(p) => Refreshed(s, p.holds, p.at)
      case Other(text, at, lasts) => Flashed(s, text, at, lasts)
  }

  function LastPoll(events: seq<Event>): Option<Poll> {
    if events == [] then None
    else
      match events[|events| - 1]
      case Polled(p) => Some(p)
      case Other(_, _, _) => LastPoll(events[..|events| - 1])
  }

  /** What the note line reads at time t. */
  function Reads(s: State, t: int): string {
    if s.note.Some? && t < s.note.value.until then s.note.value.text else ""
  }

  /** The other note set since the notice was last set or cleared, if any: the last of them. */
  ghost function Replacing(events: seq<Event>): Option<Note> {
    if events == [] then None
    else
      var front := events[..|events| - 1];
      match events[|events| - 1]
      case Polled(p) => if Stands(After(front), NoticeText(p.holds), p.at) then Replacing(front) else None
      case Other(text, at, lasts) => Some(Note(text, at + lasts))
  }

  /** The line is the notice's, as it was last set. */
  ghost predicate NoteAgrees(s: State) {
    if s.shown == "" then forall t :: Reads(s, t) == "" else s.note == Some(Note(s.shown, s.shownAt + NOTE_FOR))
  }

  ghost predicate Agrees(events: seq<Event>) {
    var s, last := After(events), LastPoll(events);
    && (if Replacing(events).Some? then s.note == Replacing(events) else NoteAgrees(s))
    && (s.known.Some? <==> last.Some?)
    && (last.Some? ==> s.known == Some(Known(last.value.holds)) && s.shown == NoticeText(last.value.holds))
    && (last.Some? && s.shown != "" ==> last.value.at - s.shownAt < REFRESH)
    && (last.None? ==> s.shown == "" && s.rings == 0)
  }

  lemma NotedAgrees(s: State, text: string, now: int)
    requires Stands(s, text, now) ==> NoteAgrees(s)
    ensures NoteAgrees(Noted(s, text, now)) && Noted(s, text, now).shown == text
    ensures text != "" ==> now - Noted(s, text, now).shownAt < REFRESH
    ensures Noted(s, text, now).known == s.known
  {
  }

  lemma TrackedKeepsNote(s: State, holds: seq<Hold>)
    ensures var u := Tracked(s, holds);
      u.shown == s.shown && u.shownAt == s.shownAt && u.note == s.note && u.known == Some(Known(holds))
    ensures NoteAgrees(Tracked(s, holds)) <==> NoteAgrees(s)
  {
    assert forall t :: Reads(Tracked(s, holds), t) == Reads(s, t);
  }

  lemma PollAgrees(front: seq<Event>, p: Poll)
    requires Agrees(front)
    ensures Agrees(front + [Polled(p)])
  {
    var events := front + [Polled(p)];
    assert events[..|events| - 1] == front;
    var s, text := After(front), NoticeText(p.holds);
    var tracked := Tracked(s, p.holds);
    TrackedKeepsNote(s, p.holds);
    assert After(events) == Noted(tracked, text, p.at);
    if Stands(s, text, p.at) {
      assert Noted(tracked, text, p.at) == tracked;
    } else {
      NotedAgrees(tracked, text, p.at);
    }
  }

  lemma {:induction false} EventsAgree(events: seq<Event>)
    ensures Agrees(events)
  {
    if events != [] {
      var front, last := events[..|events| - 1], events[|events| - 1];
      EventsAgree(front);
      assert events == front + [last];
      if last.Polled? {
        PollAgrees(front, last.poll);
      }
    }
  }

  /** From a poll until a minute later, the panel reads exactly what that poll's holds say, unless
      another note was set since the notice was last set; then it reads that note, while it lasts. */
  lemma NoticeReadsUnlessReplaced(events: seq<Event>, t: int)
    requires var p := LastPoll(events); p.Some? && p.value.at <= t <= p.value.at + 60
    ensures var other := Replacing(events);
      Reads(After(events), t) ==
        if other.None? then NoticeText(LastPoll(events).value.holds)
        else if t < other.value.until then other.value.text
        else ""
  {
    EventsAgree(events);
  }

  /** So while a hold is in force the notice shows exactly when no other note, of another text, was set
      since. */
  lemma NoticeShowsExactly(events: seq<Event>, t: int)
    requires var p := LastPoll(events);
      p.Some? && p.value.holds != [] && p.value.at <= t <= p.value.at + 60
    requires Replacing(events).Some? ==> Replacing(events).value.text != NoticeText(LastPoll(events).value.holds)
    ensures Reads(After(events), t) == NoticeText(LastPoll(events).value.holds) <==> Replacing(events).None?
  {
    NoticeReadsUnlessReplaced(events, t);
  }

  /** With no other writer, polls no further apart than the margin of the note over its refresh never
      let the notice lapse, nor outlive its holds. */
  lemma NoticeNeverLapses(events: seq<Event>, t: int)
    requires forall i | 0 <= i < |events| :: events[i].Polled?
    requires var p := LastPoll(events); p.Some? && p.value.at <= t <= p.value.at + 60
    ensures Reads(After(events), t) == NoticeText(LastPoll(events).value.holds)
  {
    NothingReplaces(events);
    NoticeReadsUnlessReplaced(events, t);
  }

  lemma {:induction false} NothingReplaces(events: seq<Event>)
    requires forall i | 0 <= i < |events| :: events[i].Polled?
    ensures Replacing(events).None?
  {
    if events != [] {
      NothingReplaces(events[..|events| - 1]);
    }
  }

  /** A replaced notice comes back with the first poll that finds other words to say, or comes a refresh
      after it was last set; an earlier poll that says the same leaves the line alone. */
  lemma NoticeComesBackExactly(events: seq<Event>, p: Poll)
    requires Replacing(events).Some? && LastPoll(events).Some? && p.holds != []
    ensures Replacing(events + [Polled(p)]).None? <==>
            NoticeText(p.holds) != NoticeText(LastPoll(events).value.holds) || p.at - After(events).shownAt >= 60
  {
    EventsAgree(events);
    assert (events + [Polled(p)])[..|events|] == events;
  }

  /** The refresh does not keep the notice up: one approval times out, and for most of a minute the
      panel does not say that a hold is in force. */
  lemma TimedOutNoteHidesNotice(h: Hold)
    ensures var events := [Polled(Poll([h], 0)), Other("timed out", 1, 15), Polled(Poll([h], REFRESH - 1))];
      && Replacing(events) == Some(Note("timed out", 16))
      && Reads(After(events), REFRESH - 1) == "" != NoticeText(LastPoll(events).value.holds)
  {
    var events := [Polled(Poll([h], 0)), Other("timed out", 1, 15), Polled(Poll([h], REFRESH - 1))];
    assert events[..2] == [Polled(Poll([h], 0)), Other("timed out", 1, 15)];
    assert events[..2][..1] == [Polled(Poll([h], 0))] && events[..2][..1][..0] == [];
    assert After(events[..2][..1]).shown == NoticeText([h]) && After(events[..2][..1]).shownAt == 0;
    assert After(events[..2]).shown == NoticeText([h]) && After(events[..2]).shownAt == 0;
    assert Stands(After(events[..2]), NoticeText([h]), REFRESH - 1);
    assert Replacing(events[..2]) == Some(Note("timed out", 16));
    NoticeReadsUnlessReplaced(events, REFRESH - 1);
  }

  /** The margin is no wider than that: a second past it, a notice left standing can have lapsed. */
  lemma NoticeCanLapseBeyond(h: Hold)
    ensures var events := [Polled(Poll([h], 0)), Polled(Poll([h], 59))];
      Reads(After(events), 59 + 60 + 1) == "" != NoticeText([h])
  {
    var events := [Polled(Poll([h], 0)), Polled(Poll([h], REFRESH - 1))];
    assert events[..1] == [Polled(Poll([h], 0))] && events[..1][..0] == [];
    assert After(events[..1]).note == Some(Note(NoticeText([h]), NOTE_FOR));
  }

  /** A poll rings at most once; the first never; and it rings exactly when a refusal opens. Nothing else
      rings. */
  lemma RingsExactlyOnOpening(events: seq<Event>)
    requires events != []
    ensures var front, last := events[..|events| - 1], events[|events| - 1];
      After(events).rings == After(front).rings +
        if last.Polled? && LastPoll(front).Some?
           && RefusalOpened(Known(LastPoll(front).value.holds), Known(last.poll.holds)) then 1 else 0
  {
    EventsAgree(events[..|events| - 1]);
  }

  /** The hold is refused at poll i. */
  predicate RefusedAt(polls: seq<Poll>, i: nat, id: HoldId)
    requires i < |polls|
  {
    var now := Known(polls[i].holds);
    id in now && now[id].kind.Refused?
  }

  predicate OpensAt(polls: seq<Poll>, i: nat, id: HoldId)
    requires i < |polls|
  {
    i > 0 && Opens(Known(polls[i - 1].holds), Known(polls[i].holds), id)
  }

  /** A hold that stays refused contributes to one ring only: between two of its openings there is a
      poll at which it was not refused. */
  lemma OneRingPerRefusal(polls: seq<Poll>, i: nat, j: nat, id: HoldId) returns (k: nat)
    requires i < j < |polls| && OpensAt(polls, i, id) && OpensAt(polls, j, id)
    ensures i < k < j && !RefusedAt(polls, k, id)
  {
    k := j - 1;
    assert RefusedAt(polls, i, id);
  }

  /** A limit upgraded to a refusal opens as one, under the id it had. */
  lemma UpgradeOpens(before: Hold, after: Hold)
    requires before.key == after.key && before.since == after.since
    requires before.kind.RateLimited? && after.kind.Refused?
    ensures IdOf(before) == IdOf(after) && Opens(Known([before]), Known([after]), IdOf(after))
  {
    assert [before][..0] == [] && [after][..0] == [];
  }
}
