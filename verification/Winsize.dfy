/** The mock engine's resize channel (cmd/mockengine/winsize_unix.go): one slot, one producer, latest
    wins.

    The producer tries to send, and finding the slot taken drains it and sends again; the consumer may
    take the slot at any moment in between. Sizes are numbered in the order the producer reads them. */
module Winsize {
  import opened Base

  /** Where the producer is: at the top of its loop, about to try, about to drain, about to send. */
  datatype Pc = Waiting | Trying | Draining | Sending

  datatype State = State(
    produced: nat,          // how many sizes the producer has read; the newest is number produced
    pc: Pc,
    slot: Option<nat>,      // the channel's one buffered size
    got: seq<nat>)          // what the consumer has received, in order

  /** A signal whose geometry cannot be read is skipped. */
  datatype Step = Signal(readable: bool) | Try | Drain | Send | Receive

  predicate Enabled(s: State, a: Step) {
    match a
    case Signal(_) => s.pc.Waiting?
    case Try => s.pc.Trying?
    case Drain => s.pc.Draining?
    case Send => s.pc.Sending? && s.slot.None?
    case Receive => s.slot.Some?
  }

  function Do(s: State, a: Step): State
    requires Enabled(s, a)
  {
    match a
    case Signal(readable) => if readable then s.(produced := s.produced + 1, pc := Trying) else s
    case Try => if s.slot.None? then s.(slot := Some(s.produced), pc := Waiting) else s.(pc := Draining)
    case Drain => s.(slot := None, pc := Sending)
    case Send => s.(slot := Some(s.produced), pc := Waiting)
    case Receive => s.(slot := None, got := s.got + [s.slot.value])
  }

  const START := State(0, Waiting, None, [])

  predicate ValidRun(s: State, run: seq<Step>)
    decreases |run|
  {
    run == [] || (Enabled(s, run[0]) && ValidRun(Do(s, run[0]), run[1..]))
  }

  function After(s: State, run: seq<Step>): State
    requires ValidRun(s, run)
    decreases |run|
  {
    if run == [] then s else After(Do(s, run[0]), run[1..])
  }

  function LastGot(s: State): nat { if s.got == [] then 0 else s.got[|s.got| - 1] }

  ghost predicate Inv(s: State) {
    && (forall i, j | 0 <= i < j < |s.got| :: s.got[i] < s.got[j])
    && (forall i | 0 <= i < |s.got| :: 1 <= s.got[i] <= s.produced)
    && (s.slot.Some? ==> LastGot(s) < s.slot.value <= s.produced)
    && (s.pc.Sending? ==> s.slot.None?)
    && (!s.pc.Waiting? ==>
          s.produced >= 1 && LastGot(s) < s.produced && (s.slot.Some? ==> s.slot.value < s.produced))
    && (s.pc.Waiting? && s.produced >= 1 ==> s.slot == Some(s.produced) || LastGot(s) == s.produced)
  }

  lemma StepKeepsInv(s: State, a: Step)
    requires Inv(s) && Enabled(s, a)
    ensures Inv(Do(s, a))
  {
  }

  lemma {:induction false} RunKeepsInv(s: State, run: seq<Step>)
    requires Inv(s) && ValidRun(s, run)
    ensures Inv(After(s, run))
    decreases |run|
  {
    if run != [] {
      StepKeepsInv(s, run[0]);
      RunKeepsInv(Do(s, run[0]), run[1..]);
    }
  }

  /** The send after a drain never blocks: nobody else fills the slot. */
  lemma SendNeverBlocks(run: seq<Step>)
    requires ValidRun(START, run) && After(START, run).pc.Sending?
    ensures Enabled(After(START, run), Send)
  {
    RunKeepsInv(START, run);
  }

  /** The consumer sees sizes that were read, each at most once, never an older after a newer. */
  lemma ReceivedInOrder(run: seq<Step>, i: nat, j: nat)
    requires ValidRun(START, run) && i < j < |After(START, run).got|
    ensures 1 <= After(START, run).got[i] < After(START, run).got[j] <= After(START, run).produced
  {
    RunKeepsInv(START, run);
  }

  /** Whenever the producer is back at its loop, the newest size is waiting or was received last. */
  lemma NewestIsNeverLost(run: seq<Step>)
    requires ValidRun(START, run) && After(START, run).pc.Waiting? && After(START, run).produced >= 1
    ensures var s := After(START, run); s.slot == Some(s.produced) || (s.got != [] && s.got[|s.got| - 1] == s.produced)
  {
    RunKeepsInv(START, run);
  }

  /** How many of the steps are of the kind: signals whose geometry was read, and sizes taken. */
  function SizesRead(run: seq<Step>): nat {
    if run == [] then 0 else (if run[0] == Signal(true) then 1 else 0) + SizesRead(run[1..])
  }

  function SizesTaken(run: seq<Step>): nat {
    if run == [] then 0 else (if run[0] == Receive then 1 else 0) + SizesTaken(run[1..])
  }

  /** Every signal that can be read yields a size, and every receive takes one. */
  lemma {:induction false} SizesAccounted(s: State, run: seq<Step>)
    requires ValidRun(s, run)
    ensures After(s, run).produced == s.produced + SizesRead(run)
    ensures |After(s, run).got| == |s.got| + SizesTaken(run)
    decreases |run|
  {
    if run != [] {
      SizesAccounted(Do(s, run[0]), run[1..]);
    }
  }

  /** The producer's own next step. */
  function Next(s: State): Step {
    match s.pc
    case Waiting => Signal(true)
    case Trying => Try
    case Draining => Drain
    case Sending => Send
  }

  /** From its loop's top to the same place again the producer needs at most three steps of its own,
      whatever the consumer does meanwhile, and none of them ever waits for the consumer. */
  lemma ProducerNeverWaits(run: seq<Step>)
    requires ValidRun(START, run)
    ensures var s := After(START, run);
      && Enabled(s, Next(s))
      && (s.pc.Sending? ==> Do(s, Next(s)).pc.Waiting?)
      && (s.pc.Draining? ==> Do(s, Next(s)).pc.Sending?)
      && (s.pc.Trying? ==> Do(s, Next(s)).pc.Waiting? || Do(s, Next(s)).pc.Draining?)
  {
    RunKeepsInv(START, run);
  }
}
