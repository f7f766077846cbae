/**
  The theorems about whole runs of the capture engine: what was delivered, who
  may touch which slot, and that every run the source has ended also ends.
 */
module EngineTheorems {
  import opened DiskBufferRing
  import opened Engine
  import opened EngineSafety

  // ----- Runs -----

  /** states[0] --moves[0]--> states[1] --moves[1]--> ... */
  predicate IsRun(states: seq<State>, moves: seq<Move>)
  {
    && |states| == |moves| + 1
    && forall i :: 0 <= i < |moves| ==>
         WellFormed(states[i]) && Enabled(states[i], moves[i]) && states[i + 1] == Next(states[i], moves[i])
  }

  ghost predicate Starts(s: State)
  {
    exists n: nat, data: seq<Block> :: |data| == n > 0 && s == Initial(n, data)
  }

  lemma {:induction false} RunKeepsInv(states: seq<State>, moves: seq<Move>, i: nat)
    requires IsRun(states, moves) && Inv(states[0]) && i < |states|
    ensures Inv(states[i])
  {
    if i > 0 {
      RunKeepsInv(states, moves, i - 1);
      NextKeepsInv(states[i - 1], moves[i - 1]);
    }
  }

  lemma ReachableInv(states: seq<State>, moves: seq<Move>, i: nat)
    requires IsRun(states, moves) && Starts(states[0]) && i < |states|
    ensures Inv(states[i])
  {
    var n: nat, data: seq<Block> :| |data| == n > 0 && states[0] == Initial(n, data);
    InitialInv(n, data);
    RunKeepsInv(states, moves, i);
  }

  // ----- Delivery -----

  lemma HistoryGrows(s: State, m: Move)
    requires WellFormed(s) && Enabled(s, m)
    ensures s.history.handed <= Next(s, m).history.handed
    ensures s.history.taken <= Next(s, m).history.taken
  {
  }

  lemma {:induction false} HistoryGrowsAlong(states: seq<State>, moves: seq<Move>, i: nat, j: nat)
    requires IsRun(states, moves) && i <= j < |states|
    ensures states[i].history.handed <= states[j].history.handed
    ensures states[i].history.taken <= states[j].history.taken
    decreases j
  {
    if i < j {
      HistoryGrowsAlong(states, moves, i, j - 1);
      HistoryGrows(states[j - 1], moves[j - 1]);
    }
  }

  /** At every moment the consumer has read a prefix of what will ever have been
      handed over: in order, unmodified, nothing twice and nothing skipped. */
  lemma DeliveredInOrder(states: seq<State>, moves: seq<Move>, i: nat, j: nat)
    requires IsRun(states, moves) && Starts(states[0]) && i <= j < |states|
    ensures states[i].history.taken <= states[j].history.handed
  {
    ReachableInv(states, moves, i);
    HistoryGrowsAlong(states, moves, i, j);
  }

  /** A run nothing failed or aborted loses nothing: when the consumer is done,
      every buffer handed over has been processed. */
  lemma CleanRunDeliversAll(states: seq<State>, moves: seq<Move>, i: nat)
    requires IsRun(states, moves) && Starts(states[0]) && i < |states|
    requires states[i].cons.CDone? && !states[i].flags.abort && !states[i].flags.failed
    ensures states[i].history.taken == states[i].history.handed
    ensures states[i].flags.transferFinished && states[i].prod.PDone?
  {
    ReachableInv(states, moves, i);
  }

  // ----- Ownership and slot states -----

  /** While the producer may write its slot and the consumer owns one, they differ. */
  lemma NeverShareASlot(s: State)
    requires Inv(s)
    requires Filling(s.prod) && (Processing(s.cons) || s.cons.CMarkFree?)
    ensures s.pi != s.ci
  {
    WindowDistinct(Base(s), s.Count());
  }

  /** MarkSlotFull never answers overflow: the wait before it has secured the slot. */
  lemma OverflowUnreachable(s: State)
    requires Inv(s) && s.prod.PMarkFull?
    ensures s.ring.slots[s.pi] in {Empty, Aborted}
  {
    assert s.pi == SlotOf(|s.history.handed|, s.Count());
  }

  lemma AbortedForever(s: State, m: Move, slot: nat)
    requires WellFormed(s) && Enabled(s, m) && slot < s.Count() && s.ring.slots[slot] == Aborted
    ensures |Next(s, m).ring.slots| == s.Count() && Next(s, m).ring.slots[slot] == Aborted
  {
    hide SlotOf;
    match m
    case Produce(c) =>
      if Securing(s.prod) { } else if Filling(s.prod) { } else { }
    case Consume(c) =>
      if Waiting(s.cons) { } else if Releasing(s.cons) { } else { }
    case Control(c) =>
      if Dumping(s.ctrl) { } else if s.ctrl.KAborting? { } else { }
    case _ =>
  }

  /** The two counters tell the number of full slots to within one, in either
      direction, and the high-water mark never wraps and never exceeds the ring
      by more than one. */
  lemma CountersAgree(s: State)
    requires Inv(s)
    ensures !s.ring.aborting ==> FullSlots(s.ring.slots) - 1 <= s.ring.filled - s.ring.freed <= FullSlots(s.ring.slots) + 1
    ensures s.prod.PLoadFreed? ==> s.ring.freed <= s.ring.filled
    ensures 0 <= s.ring.peak <= s.Count() + 1
  {
  }

  ghost predicate Reachable(s: State)
  {
    exists states: seq<State>, moves: seq<Move> ::
      IsRun(states, moves) && Starts(states[0]) && states[|moves|] == s
  }

  lemma ReachInitial(n: nat, data: seq<Block>)
    requires |data| == n > 0
    ensures Reachable(Initial(n, data))
  {
    assert IsRun([Initial(n, data)], []);
  }

  lemma ReachNext(s: State, m: Move)
    requires Reachable(s) && WellFormed(s) && Enabled(s, m)
    ensures Reachable(Next(s, m))
  {
    var states: seq<State>, moves: seq<Move> :|
      IsRun(states, moves) && Starts(states[0]) && states[|moves|] == s;
    var states', moves' := states + [Next(s, m)], moves + [m];
    assert IsRun(states', moves');
    assert states'[|moves'|] == Next(s, m);
  }

  /** A ring of one slot; the producer has found it free. */
  lemma FirstSlotSecured() returns (s: State)
    ensures Reachable(s)
    ensures s == State(Ring([Empty], [[]], 0, 0, 0, false), Flags(false, false, false, false, false),
                       PFillFirst, 0, CCheckAbort, 0, KTop, UIdle, History([], []))
  {
    hide IsRun, Starts, Reachable;
    var p := Produce(Choice([], false, false, false));
    s := Initial(1, [[]]);
    ReachInitial(1, [[]]);
    ReachNext(s, p); s := Next(s, p);
    ReachNext(s, p); s := Next(s, p);
    ReachNext(s, p); s := Next(s, p);
    ReachNext(s, p); s := Next(s, p);
  }

  /** The first buffer is in its slot but the producer has not counted it yet. */
  lemma FirstHandOver() returns (s: State)
    ensures Reachable(s)
    ensures s == State(Ring([Full], [[]], 0, 0, 0, false), Flags(false, false, false, false, false),
                       PAddFilled, 0, CCheckAbort, 0, KTop, UIdle, History([[]], []))
  {
    hide IsRun, Starts, Reachable;
    var p := Produce(Choice([], false, false, false));
    s := FirstSlotSecured();
    ReachNext(s, p); s := Next(s, p);
    ReachNext(s, p); s := Next(s, p);
    ReachNext(s, p); s := Next(s, p);
  }

  /** The consumer has already read that buffer. */
  lemma FirstBufferRead() returns (s: State)
    ensures Reachable(s)
    ensures s == State(Ring([Full], [[]], 0, 0, 0, false), Flags(false, false, false, false, false),
                       PAddFilled, 0, CStrip, 0, KTop, UIdle, History([[]], [[]]))
  {
    hide IsRun, Starts, Reachable;
    var c := Consume(Choice([], false, false, false));
    s := FirstHandOver();
    ReachNext(s, c); s := Next(s, c);
    ReachNext(s, c); s := Next(s, c);
    ReachNext(s, c); s := Next(s, c);
    ReachNext(s, c); s := Next(s, c);
  }

  /** While the producer is about to hand its slot over nobody else writes to it. */
  lemma FilledStays(s: State, m: Move)
    requires Inv(s) && Enabled(s, m) && s.prod.PMarkFull? && !m.Produce?
    ensures var t := Next(s, m);
            && WellFormed(t) && t.prod.PMarkFull? && t.pi == s.pi && t.ring.data[t.pi] == s.ring.data[s.pi]
            && t.history.handed == s.history.handed
  {
    hide Wakes, FlagsAgree, Contents, Counters;
    if m.Consume? && s.cons.CStrip? { NeverShareASlot(s); }
  }

  /** What is handed over is what the source last wrote into the slot. */
  lemma {:induction false} HandsOverWhatWasFilled(states: seq<State>, moves: seq<Move>, i: nat, j: nat)
    requires IsRun(states, moves) && (forall k :: 0 <= k < |states| ==> Inv(states[k])) && i < j < |moves|
    requires moves[i].Produce? && states[i].prod.PFillRest? && states[i + 1].prod.PMarkFull?
    requires forall k :: i < k < j ==> !moves[k].Produce?
    requires moves[j].Produce? && states[j].ring.slots[states[j].pi] == Empty
    ensures states[j].prod.PMarkFull?
    ensures states[j + 1].history.handed == states[j].history.handed + [moves[i].c.block]
  {
    FilledUntil(states, moves, i, j);
  }

  lemma {:induction false} FilledUntil(states: seq<State>, moves: seq<Move>, i: nat, j: nat)
    requires IsRun(states, moves) && (forall k :: 0 <= k < |states| ==> Inv(states[k])) && i < j < |states|
    requires moves[i].Produce? && states[i].prod.PFillRest? && states[i + 1].prod.PMarkFull?
    requires forall k :: i < k < j ==> !moves[k].Produce?
    ensures WellFormed(states[j]) && states[j].prod.PMarkFull? && states[j].ring.data[states[j].pi] == moves[i].c.block
    decreases j
  {
    hide Carries, Wakes, FlagsAgree;
    if j > i + 1 {
      FilledUntil(states, moves, i, j - 1);
      FilledStays(states[j - 1], moves[j - 1]);
    }
  }

  /** The guard in SlotsInUse is needed: the consumer can give a slot back, and
      count it, before the producer has counted handing it over. */
  lemma FreedCanOvertakeFilled()
    ensures exists s :: Reachable(s) && s.ring.freed > s.ring.filled
  {
    hide IsRun, Starts;
    var c := Consume(Choice([], false, false, false));
    var s := FirstBufferRead();
    ReachNext(s, c); s := Next(s, c);
    ReachNext(s, c); s := Next(s, c);
    ReachNext(s, c); s := Next(s, c);
    assert s.ring.freed > s.ring.filled;
  }

  // ----- Blocking -----

  predicate ProducerBlocked(s: State)
    requires WellFormed(s)
  {
    s.prod.PParked? && s.ring.slots[s.pi] == s.prod.seen
  }

  predicate ConsumerBlocked(s: State)
    requires WellFormed(s)
  {
    s.cons.CParked? && s.ring.slots[s.ci] == Empty
  }

  /** The two sides never wait for each other. */
  lemma NeverBothBlocked(s: State)
    requires Inv(s)
    ensures !(ProducerBlocked(s) && ConsumerBlocked(s))
  {
    if ProducerBlocked(s) && ConsumerBlocked(s) {
      SlotOfPeriodic(Base(s), s.Count());
      assert false;
    }
  }

  predicate Useful(s: State, m: Move)
  {
    m.Produce? || m.Consume? || m.Control? || (m.UserAbort? && s.user.UAborting?)
  }

  /** A parked worker whose slot has changed: some thread's very next steps notify it. */
  lemma WakeInFlight(s: State)
    requires Inv(s)
    ensures s.prod.PParked? && !ProducerBlocked(s) ==> NotifyPending(s, s.pi)
    ensures s.cons.CParked? && !ConsumerBlocked(s) ==> NotifyPending(s, s.ci)
  {
  }

  /** No reachable state short of the end is stuck, even without spurious wakes
      and without the user doing anything new. */
  lemma NothingStuck(s: State)
    requires Inv(s) && !Final(s)
    ensures exists m :: Enabled(s, m) && Useful(s, m)
  {
    var c := Choice([], false, false, false);
    if Enabled(s, Control(c)) {
      assert Useful(s, Control(c));
    } else if Enabled(s, Produce(c)) {
      assert Useful(s, Produce(c));
    } else if s.ctrl.KJoinTransfer? {
      // The producer is parked on a slot that has been aborted, so its wake is in flight.
      assert s.prod.PParked?;
      assert s.ring.slots[s.pi] == Aborted;
      assert Enabled(s, UserAbort) && Useful(s, UserAbort);
    }
  }

  // ----- Ending -----

  /** A bound on the steps left to the consumer once the source has finished:
      fifteen for every buffer still waiting, and its place in the current round. */
  function ConsumerRank(s: State): int
    requires WellFormed(s)
  {
    15 * (|s.history.handed| - |s.history.taken|) + ConsumerPlace(s.cons, s.ring.slots[s.ci] == Empty)
  }

  function ConsumerPlace(pc: ConsumerPc, empty: bool): nat
  {
    match pc
    case CDone => 0
    case CSetFinished => 1
    case CRead => 2
    case CLoadFull => if empty then 8 else 3
    case CWaitFull => if empty then 7 else 4
    case CParked => if empty then 6 else 5
    case CSinkChange => 9
    case CCheckAbort => 10
    case CAdvance => 11
    case CNotifyFree(_) => 12
    case CAddFreed(_) => 13
    case CMarkDumpedFree(_) => 13
    case CMarkFree(_) => 14
    case CLatch => 15
    case CStrip => 16
  }

  lemma RankDecreases(s: State, m: Move)
    requires Inv(s) && s.flags.transferFinished && Enabled(s, m)
    requires WellFormed(Next(s, m))
    ensures Next(s, m).flags.transferFinished
    ensures ConsumerRank(Next(s, m)) + (if m.Consume? then 1 else 0)
         <= ConsumerRank(s) + (if m.SpuriousConsumerWake? then 1 else 0)
  {
    match m
    case Consume(c) => ConsumerStepDecreases(s, c);
    case Control(c) => ControlKeepsRank(s, c);
    case UserAbort => UserKeepsRank(s);
    case _ =>
  }

  lemma ConsumerStepDecreases(s: State, c: Choice)
    requires Positions(s) && s.flags.transferFinished && Enabled(s, Consume(c))
    ensures ConsumerNext(s, c).flags.transferFinished
    ensures WellFormed(ConsumerNext(s, c)) ==> ConsumerRank(ConsumerNext(s, c)) < ConsumerRank(s)
  {
    if Waiting(s.cons) { WaitingStepDecreases(s, c); }
  }

  lemma WaitingStepDecreases(s: State, c: Choice)
    requires Positions(s) && s.flags.transferFinished && Waiting(s.cons) && !s.cons.CParked?
    ensures ConsumerWaits(s, c).flags.transferFinished
    ensures WellFormed(ConsumerWaits(s, c)) ==> ConsumerRank(ConsumerWaits(s, c)) < ConsumerRank(s)
  {
  }

  lemma ControlKeepsRank(s: State, c: Choice)
    requires WellFormed(s) && Wakes(s) && s.flags.transferFinished && Enabled(s, Control(c))
    requires WellFormed(ControlNext(s, c))
    ensures ControlNext(s, c).flags.transferFinished
    ensures ConsumerRank(ControlNext(s, c)) <= ConsumerRank(s)
  {
    hide NoLostWake, AbortSwept;
  }

  lemma UserKeepsRank(s: State)
    requires WellFormed(s) && Wakes(s) && s.flags.transferFinished
    requires WellFormed(UserNext(s))
    ensures UserNext(s).flags.transferFinished
    ensures ConsumerRank(UserNext(s)) <= ConsumerRank(s)
  {
    hide NoLostWake, AbortSwept;
  }

  function ConsumerSteps(moves: seq<Move>): nat
  {
    if moves == [] then 0 else ConsumerSteps(moves[..|moves| - 1]) + (if moves[|moves| - 1].Consume? then 1 else 0)
  }

  function SpuriousWakes(moves: seq<Move>): nat
  {
    if moves == [] then 0 else SpuriousWakes(moves[..|moves| - 1]) + (if moves[|moves| - 1].SpuriousConsumerWake? then 1 else 0)
  }

  /** After the source has finished, the processing thread takes a bounded number
      of steps, whatever the others do and however long the run goes on. */
  lemma {:induction false} ConsumerEnds(states: seq<State>, moves: seq<Move>)
    requires IsRun(states, moves) && Inv(states[0]) && states[0].flags.transferFinished
    ensures Inv(states[|moves|]) && states[|moves|].flags.transferFinished
    ensures 0 <= ConsumerRank(states[|moves|])
    ensures ConsumerSteps(moves) + ConsumerRank(states[|moves|]) <= ConsumerRank(states[0]) + SpuriousWakes(moves)
  {
    if moves != [] {
      var last := |moves| - 1;
      ConsumerEnds(states[..|moves|], moves[..last]);
      NextKeepsInv(states[last], moves[last]);
      RankDecreases(states[last], moves[last]);
    }
  }

  /** The steps the control thread needs, from where it is, to reach the slot the
      consumer is waiting on. */
  function ControlDistance(pc: ControlPc, ci: nat, n: nat): int
  {
    match pc
    case KDump(i) => if i <= ci then 2 * (ci - i) + 1 else 2 * (n - i) + 2 * ci + 6
    case KDumpNotify(i) => if i <= ci then 2 * (ci - i) else 2 * (n - i) + 2 * ci + 5
    case KAborting(ASetFlag, _) => 2 * ci + 2
    case KAborting(AStore(i), _) => 2 * (ci - i) + 1
    case KAborting(ANotify(i), _) => 2 * (ci - i)
    case KLoadFinished => 2 * ci + 2
    case KWatchFinished => 2 * ci + 3
    case KSetAbort(_) => 2 * ci + 3
    case KTop => 2 * ci + 4
    case KWatchFire => 2 * ci + 4
    case KWatchStop => 2 * ci + 5
    case KLoadFailed => 2 * ci + 5
    case _ => 0
  }

  /** Because dumping is repeated on every iteration, a consumer blocked on a slot
      that will never be filled is reached: each control step brings it closer. */
  lemma ControlApproaches(s: State, c: Choice)
    requires Inv(s) && s.flags.transferFinished && ConsumerBlocked(s) && Enabled(s, Control(c))
    requires WellFormed(ControlNext(s, c))
    ensures ControlNext(s, c).ci == s.ci
    ensures ConsumerBlocked(ControlNext(s, c)) ==>
              ControlDistance(ControlNext(s, c).ctrl, s.ci, s.Count()) < ControlDistance(s.ctrl, s.ci, s.Count())
  {
  }

  function ControlSteps(moves: seq<Move>): nat
  {
    if moves == [] then 0 else ControlSteps(moves[..|moves| - 1]) + (if moves[|moves| - 1].Control? then 1 else 0)
  }

  lemma BlockedStep(s: State, m: Move)
    requires Inv(s) && s.flags.transferFinished && ConsumerBlocked(s) && Enabled(s, m)
    requires WellFormed(Next(s, m)) && ConsumerBlocked(Next(s, m))
    ensures Next(s, m).ci == s.ci && Next(s, m).Count() == s.Count() && Next(s, m).flags.transferFinished
    ensures ControlDistance(Next(s, m).ctrl, s.ci, s.Count())
         <= ControlDistance(s.ctrl, s.ci, s.Count()) - (if m.Control? then 1 else 0)
  {
    if m.Control? { ControlApproaches(s, m.c); }
  }

  lemma DistanceBounds(s: State)
    requires Inv(s) && s.flags.transferFinished && ConsumerBlocked(s)
    ensures 0 <= ControlDistance(s.ctrl, s.ci, s.Count()) <= 4 * s.Count() + 6
  {
  }

  predicate StaysBlocked(states: seq<State>)
  {
    forall i :: 0 <= i < |states| ==> WellFormed(states[i]) && ConsumerBlocked(states[i])
  }

  /** So however the threads are interleaved, a blocked consumer stays blocked for
      at most 4n + 6 steps of the control thread. */
  lemma BlockedConsumerIsReleased(states: seq<State>, moves: seq<Move>)
    requires IsRun(states, moves) && StaysBlocked(states)
    requires Inv(states[0]) && states[0].flags.transferFinished
    ensures ControlSteps(moves) <= 4 * states[0].Count() + 6
  {
    DistanceShrinks(states, moves);
    DistanceBounds(states[0]);
    DistanceBounds(states[|moves|]);
  }

  lemma {:induction false} DistanceShrinks(states: seq<State>, moves: seq<Move>)
    requires IsRun(states, moves) && StaysBlocked(states)
    requires Inv(states[0]) && states[0].flags.transferFinished
    ensures Inv(states[|moves|]) && states[|moves|].flags.transferFinished
    ensures states[|moves|].ci == states[0].ci && states[|moves|].Count() == states[0].Count()
    ensures ControlDistance(states[|moves|].ctrl, states[0].ci, states[0].Count()) + ControlSteps(moves)
         <= ControlDistance(states[0].ctrl, states[0].ci, states[0].Count())
  {
    if moves != [] {
      var last := |moves| - 1;
      var s, t := states[last], states[last + 1];
      DistanceShrinks(states[..|moves|], moves[..last]);
      assert t == Next(s, moves[last]) && ConsumerBlocked(s) && ConsumerBlocked(t);
      NextKeepsInv(s, moves[last]);
      BlockedStep(s, moves[last]);
    }
  }

  /** Once the control thread waits to join a live producer, every slot is aborted
      and the producer has at most eight steps left. */
  function ProducerRank(pc: ProducerPc): nat
  {
    match pc
    case PDone => 0
    case PSetFinished => 1
    case PReturned(_) => 2
    case PCheckRingAbort => 3
    case PLoadFree => 3
    case PMarkFull => 3
    case PCheckAbort => 4
    case PCheckStop => 4
    case PWaitFree(_) => 4
    case PParked(_) => 5
    case PFillRest => 5
    case PNotifyFull => 5
    case PFillFirst => 6
    case PRaisePeak(_) => 6
    case PLoadFreed => 7
    case PAddFilled => 8
  }

  lemma ProducerIsJoined(s: State, m: Move)
    requires Inv(s) && s.ctrl.KJoinTransfer? && !s.prod.PDone? && Enabled(s, m)
    ensures m.Produce? ==> ProducerRank(Next(s, m).prod) < ProducerRank(s.prod)
    ensures !m.Produce? ==> ProducerRank(Next(s, m).prod) <= ProducerRank(s.prod)
  {
  }
}
