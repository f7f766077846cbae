/**
  Every run that has been told to end ends, and one that has not goes on capturing:
  one bound on the moves until both workers and the control thread have finished, or
  until the next buffer is handed over, under any schedule that does not keep back for
  ever a thread that could go on.

  At every moment one worker is the one everything waits for.  Its next step lowers
  a rank that no step of the others raises.
 */
module EngineEnding {
  import Division
  import opened DiskBufferRing
  import opened Engine
  import opened EngineSafety
  import opened EngineTheorems

  datatype Worker = TheProducer | TheConsumer | TheControl | TheUser

  /** The worker can step and, for the user, is in the middle of an abort. */
  predicate Able(s: State, w: Worker)
  {
    match w
    case TheProducer => !s.prod.PParked? && !s.prod.PDone?
    case TheConsumer => !s.cons.CParked? && !s.cons.CDone?
    case TheControl => Enabled(s, Control(Choice([], false, false, false)))
    case TheUser => s.user.UAborting?
  }

  predicate Does(m: Move, w: Worker)
  {
    match w
    case TheProducer => m.Produce?
    case TheConsumer => m.Consume?
    case TheControl => m.Control?
    case TheUser => m.UserAbort?
  }

  /** Nobody who is able to step is kept from it for `patience` moves on end. */
  ghost predicate Fair(states: seq<State>, moves: seq<Move>, patience: nat)
    requires |states| == |moves| + 1
  {
    forall w: Worker, i: nat {:trigger AbleFrom(states, w, i, patience)} ::
      i + patience <= |moves| && AbleFrom(states, w, i, patience) ==> DoesFrom(moves, w, i, patience)
  }

  predicate AbleFrom(states: seq<State>, w: Worker, i: nat, count: nat)
    requires i + count <= |states|
  {
    forall j :: i <= j < i + count ==> Able(states[j], w)
  }

  predicate DoesFrom(moves: seq<Move>, w: Worker, i: nat, count: nat)
    requires i + count <= |moves|
  {
    exists j :: i <= j < i + count && Does(moves[j], w)
  }

  // ----- The work left to the producer and the consumer -----

  /** The run has been told to end: stopped, aborted, or its source has ended. */
  predicate Told(f: Flags) { f.stop || f.abort || f.transferFinished }

  /** Between looking at the stop flag and handing over. */
  predicate Committed(pc: ProducerPc)
  {
    pc.PLoadFree? || pc.PWaitFree? || pc.PParked? || Filling(pc)
  }

  /** How many buffers the producer of a run told to end can still hand over. */
  function Budget(pc: ProducerPc, stop: bool): nat
  {
    if Committed(pc) || (!stop && (pc.PCheckRingAbort? || pc.PCheckStop?)) then 1 else 0
  }

  /** The producer's steps to its end, `full` saying whether its slot is still full. */
  function PlaceToEnd(pc: ProducerPc, full: bool, stop: bool): nat
  {
    match pc
    case PDone => 0
    case PSetFinished => 1
    case PReturned(_) => 2
    case PCheckStop => if stop then 3 else 19
    case PCheckRingAbort => if stop then 4 else 20
    case PCheckAbort => 5
    case PNotifyFull => 6
    case PRaisePeak(_) => 7
    case PLoadFreed => 8
    case PAddFilled => 9
    case PMarkFull => 10
    case PFillRest => 11
    case PFillFirst => 12
    case PLoadFree => if full then 18 else 13
    case PWaitFree(_) => if full then 17 else 14
    case PParked(_) => if full then 16 else 15
  }

  /** Its steps to the next hand-over. */
  function PlaceToHandOver(pc: ProducerPc, full: bool): nat
  {
    match pc
    case PMarkFull => 1
    case PFillRest => 2
    case PFillFirst => 3
    case PLoadFree => if full then 9 else 4
    case PWaitFree(_) => if full then 8 else 5
    case PParked(_) => if full then 7 else 6
    case PCheckStop => 10
    case PCheckRingAbort => 11
    case PCheckAbort => 12
    case PNotifyFull => 13
    case PRaisePeak(_) => 14
    case PLoadFreed => 15
    case PAddFilled => 16
    case _ => 0
  }

  /** The consumer has still to announce that it has given its slot back. */
  predicate ToGiveBack(pc: ConsumerPc)
  {
    pc.CStrip? || pc.CLatch? || Releasing(pc)
  }

  /** A bound on the steps the two workers have left, to the end of a run told to end
      or to the next hand-over of any other.  A notify can wake the other worker for
      nothing, which costs that one a step: each still to come is counted. */
  function Work(s: State, told: bool): int
    requires WellFormed(s)
  {
    var full, empty := s.ring.slots[s.pi] == Full, s.ring.slots[s.ci] == Empty;
    var coming := if told then Budget(s.prod, s.flags.stop) else 0;
    (if told then PlaceToEnd(s.prod, full, s.flags.stop) else PlaceToHandOver(s.prod, full))
    + ConsumerPlace(s.cons, empty)
    + 16 * (|s.history.handed| + coming - |s.history.taken|) + (if ToGiveBack(s.cons) then 1 else 0)
    + coming + (if Announcing(s.prod) then 1 else 0)
  }

  /** Nothing has gone wrong and nobody has asked for an abort. */
  predicate Sound(s: State)
  {
    && !s.flags.abort && !s.flags.failed && !s.ring.aborting && s.user == UIdle
    && !s.ctrl.KWatchStop? && !s.ctrl.KWatchFire? && !s.ctrl.KSetAbort? && !s.ctrl.KAborting? && !s.ctrl.KExitStop?
    && s.prod != PReturned(true) && !s.cons.CLatch?
  }

  /** Nor has the run been told to end. */
  predicate Capturing(s: State)
  {
    Sound(s) && !Told(s.flags) && !s.prod.PReturned? && !s.prod.PSetFinished?
  }

  /** No fault, no watchdog, no abort. */
  predicate Faultless(m: Move)
  {
    match m
    case Produce(c) => !c.fault
    case Consume(c) => !c.fault
    case Control(c) => !c.end
    case UserAbort => false
    case _ => true
  }

  /** Nor an end of the source, a stop or a buffer to be discarded. */
  predicate Undisturbed(m: Move)
  {
    Faultless(m) && !m.UserStop? && (m.Produce? ==> !m.c.end && !m.c.discard)
  }

  lemma Parts(s: State)
    requires Inv(s)
    ensures Positions(s) && Carries(s) && Wakes(s)
  {
  }

  /** What a move is being asked for. */
  predicate Purposeful(s: State, m: Move, told: bool)
  {
    if told then Told(s.flags) else Capturing(s) && Undisturbed(m) && !(s.prod.PMarkFull? && m.Produce?)
  }

  lemma ProducerWorks(s: State, c: Choice, told: bool)
    requires Positions(s) && Wakes(s) && Enabled(s, Produce(c)) && Purposeful(s, Produce(c), told)
    requires WellFormed(ProducerNext(s, c))
    ensures Work(ProducerNext(s, c), told) < Work(s, told)
  {
    hide Work;
    if Securing(s.prod) { SecuringWorks(s, c, told); }
    else if Filling(s.prod) { FillingWorks(s, c, told); }
    else if Announcing(s.prod) { AnnouncingWorks(s, told); }
    else { LeavingWorks(s, told); }
  }

  lemma SecuringWorks(s: State, c: Choice, told: bool)
    requires Positions(s) && Wakes(s) && Securing(s.prod) && Enabled(s, Produce(c)) && Purposeful(s, Produce(c), told)
    requires WellFormed(ProducerSecures(s, c))
    ensures Work(ProducerSecures(s, c), told) < Work(s, told)
  {
    hide ConsumerPlace, Indices, ControlFlags, ExitReason, NotifiedSlots, AbortSwept, NotifyPending;
  }

  lemma FillingWorks(s: State, c: Choice, told: bool)
    requires WellFormed(s) && Filling(s.prod) && Purposeful(s, Produce(c), told)
    requires WellFormed(ProducerFills(s, c))
    ensures Work(ProducerFills(s, c), told) < Work(s, told)
  {
    hide Sound;
  }

  lemma AnnouncingWorks(s: State, told: bool)
    requires WellFormed(s) && Announcing(s.prod)
    requires WellFormed(ProducerAnnounces(s))
    ensures Work(ProducerAnnounces(s), told) < Work(s, told)
  {
  }

  lemma LeavingWorks(s: State, told: bool)
    requires WellFormed(s) && (s.prod.PReturned? || s.prod.PSetFinished?) && (told || !Returned(s.prod))
    requires WellFormed(ProducerLeaves(s))
    ensures Work(ProducerLeaves(s), told) < Work(s, told)
  {
  }

  lemma ConsumerWorks(s: State, c: Choice, told: bool)
    requires Positions(s) && Carries(s) && Enabled(s, Consume(c))
    requires WellFormed(ConsumerNext(s, c))
    ensures Work(ConsumerNext(s, c), told) < Work(s, told)
  {
    hide Work;
    if Waiting(s.cons) { WaitingWorks(s, c, told); }
    else if Processing(s.cons) { ProcessingWorks(s, c, told); }
    else if Releasing(s.cons) { ReleasingWorks(s, told); }
    else { GoingOnWorks(s, told); }
  }

  lemma WaitingWorks(s: State, c: Choice, told: bool)
    requires WellFormed(s) && Waiting(s.cons) && !s.cons.CParked?
    requires WellFormed(ConsumerWaits(s, c))
    ensures Work(ConsumerWaits(s, c), told) < Work(s, told)
  {
    hide PlaceToEnd, PlaceToHandOver;
  }

  lemma ProcessingWorks(s: State, c: Choice, told: bool)
    requires WellFormed(s) && Processing(s.cons)
    requires WellFormed(ConsumerProcesses(s, c))
    ensures Work(ConsumerProcesses(s, c), told) < Work(s, told)
  {
    hide PlaceToEnd, PlaceToHandOver;
  }

  lemma ReleasingWorks(s: State, told: bool)
    requires WellFormed(s) && Releasing(s.cons) && (s.cons.CMarkDumpedFree? ==> s.ring.slots[s.ci] == Aborted)
    requires WellFormed(ConsumerReleases(s))
    ensures Work(ConsumerReleases(s), told) < Work(s, told)
  {
  }

  lemma GoingOnWorks(s: State, told: bool)
    requires WellFormed(s) && (s.cons.CAdvance? || s.cons.CSetFinished?)
    requires WellFormed(ConsumerGoesOn(s))
    ensures Work(ConsumerGoesOn(s), told) < Work(s, told)
  {
    hide PlaceToEnd, PlaceToHandOver;
  }

  /** Parked on a slot that has changed. */
  predicate ProducerReleased(s: State)
    requires WellFormed(s)
  {
    s.prod.PParked? && !ProducerBlocked(s)
  }

  predicate ConsumerReleased(s: State)
    requires WellFormed(s)
  {
    s.cons.CParked? && !ConsumerBlocked(s)
  }

  /** The workers are as they were, or have been woken. */
  predicate OthersStep(s: State, t: State)
  {
    && (t.prod == s.prod || (s.prod.PParked? && t.prod == PWaitFree(s.prod.seen)))
    && (t.cons == s.cons || (s.cons.CParked? && t.cons == CWaitFull))
    && t.pi == s.pi && t.ci == s.ci && t.Count() == s.Count()
  }

  /** Nothing has happened to a worker that is parked, nor to its slot. */
  predicate Unmoved(s: State, t: State)
    requires WellFormed(s) && WellFormed(t)
  {
    && OthersStep(s, t) && t.prod == s.prod && t.cons == s.cons
    && (s.prod.PParked? ==> (ProducerReleased(t) <==> ProducerReleased(s)))
    && (s.cons.CParked? ==> (ConsumerReleased(t) <==> ConsumerReleased(s)))
  }

  /** Unless the work is less, a step of the control thread or the user has left the
      parked workers and their slots as they were. */
  predicate LessOrUnmoved(s: State, t: State, told: bool)
    requires WellFormed(s) && WellFormed(t)
  {
    OthersStep(s, t) && Work(t, told) <= Work(s, told) && (Work(t, told) < Work(s, told) || Unmoved(s, t))
  }

  /** What the work depends on. */
  predicate SameWorkers(s: State, t: State)
  {
    && t.prod == s.prod && t.cons == s.cons && t.pi == s.pi && t.ci == s.ci && t.history == s.history
    && t.ring.slots == s.ring.slots && t.flags.stop == s.flags.stop
  }

  lemma SameWork(s: State, t: State, told: bool)
    requires WellFormed(s) && WellFormed(t) && SameWorkers(s, t)
    ensures Work(t, told) == Work(s, told)
    ensures LessOrUnmoved(s, t, told)
    ensures forall r | WellFormed(r) && LessOrUnmoved(r, s, told) :: LessOrUnmoved(r, t, told)
  {
  }

  /** A notify on a slot that has been dumped or aborted. */
  lemma WakeWorks(s: State, slot: nat, told: bool)
    requires WellFormed(s) && slot < s.Count() && s.ring.slots[slot] in {Dumped, Aborted}
    ensures WellFormed(Wake(s, slot)) && Work(Wake(s, slot), told) <= Work(s, told)
    ensures LessOrUnmoved(s, Wake(s, slot), told)
  {
  }

  /** Dumping an empty slot, or aborting any. */
  lemma RetireWorks(s: State, slot: nat, x: SlotState, told: bool)
    requires WellFormed(s) && slot < s.Count() && (x == Aborted || (x == Dumped && s.ring.slots[slot] == Empty))
    requires s.prod.PParked? ==> s.prod.seen == Full
    ensures var t := s.(ring := SetSlot(s.ring, slot, x)); WellFormed(t) && LessOrUnmoved(s, t, told)
  {
    hide Budget;
  }

  lemma ControlWorks(s: State, c: Choice, told: bool)
    requires WellFormed(s) && NotifiedSlots(s.ctrl, s.user, s.ring.slots) && NoLostWake(s) && Enabled(s, Control(c))
    requires !told ==> Sound(s)
    requires WellFormed(ControlNext(s, c))
    ensures LessOrUnmoved(s, ControlNext(s, c), told)
  {
    hide Work, WellFormed, LessOrUnmoved;
    if s.ctrl.KAborting? { AbortingWorks(s, told); }
    else if Dumping(s.ctrl) { DumpingWorks(s, told); }
    else { DecidingWorks(s, c, told); }
  }

  lemma AbortingWorks(s: State, told: bool)
    requires WellFormed(s) && s.ctrl.KAborting? && NotifiedSlots(s.ctrl, s.user, s.ring.slots) && NoLostWake(s)
    requires WellFormed(ControlAborts(s))
    ensures LessOrUnmoved(s, ControlAborts(s), told)
  {
    hide Work, LessOrUnmoved;
    var at := s.ctrl.at;
    var t := ControlAborts(s);
    if AbortReturns(at, s.Count()) || at.ASetFlag? { SameWork(s, t, told); }
    else if at.AStore? {
      RetireWorks(s, at.slot, Aborted, told);
      SameWork(s.(ring := SetSlot(s.ring, at.slot, Aborted)), t, told);
    } else {
      WakeWorks(s, at.slot, told);
      SameWork(Wake(s, at.slot), t, told);
    }
  }

  lemma DumpingWorks(s: State, told: bool)
    requires WellFormed(s) && Dumping(s.ctrl) && NotifiedSlots(s.ctrl, s.user, s.ring.slots) && NoLostWake(s)
    requires WellFormed(ControlDumps(s))
    ensures LessOrUnmoved(s, ControlDumps(s), told)
  {
    hide Work, LessOrUnmoved;
    var i, t := s.ctrl.slot, ControlDumps(s);
    if s.ctrl.KDumpNotify? {
      WakeWorks(s, i, told);
      SameWork(Wake(s, i), t, told);
    } else if i < s.Count() && s.ring.slots[i] == Empty {
      RetireWorks(s, i, Dumped, told);
      SameWork(s.(ring := SetSlot(s.ring, i, Dumped)), t, told);
    } else {
      SameWork(s, t, told);
    }
  }

  lemma DecidingWorks(s: State, c: Choice, told: bool)
    requires WellFormed(s) && Enabled(s, Control(c)) && !s.ctrl.KAborting? && !Dumping(s.ctrl)
    requires !told ==> Sound(s)
    requires WellFormed(ControlDecides(s, c))
    ensures LessOrUnmoved(s, ControlDecides(s, c), told)
  {
    hide Work, LessOrUnmoved;
    StopWorks(s, told);
    var t := ControlDecides(s, c);
    SameWork(if t.flags.stop == s.flags.stop then s else s.(flags := s.flags.(stop := true)), t, told);
  }

  /** Setting the stop flag. */
  lemma StopWorks(s: State, told: bool)
    requires WellFormed(s)
    ensures LessOrUnmoved(s, s.(flags := s.flags.(stop := true)), told)
  {
  }

  lemma UserWorks(s: State, told: bool)
    requires WellFormed(s) && NotifiedSlots(s.ctrl, s.user, s.ring.slots) && NoLostWake(s)
    requires WellFormed(UserNext(s))
    ensures LessOrUnmoved(s, UserNext(s), told)
  {
    hide Work, LessOrUnmoved;
    StopWorks(s, told);
    var t := UserNext(s);
    match s.user
    case USetStop => SameWork(s.(flags := s.flags.(stop := true)), t, told);
    case UAborting(at) =>
      if AbortReturns(at, s.Count()) || at.ASetFlag? { SameWork(s, t, told); }
      else if at.AStore? {
        RetireWorks(s, at.slot, Aborted, told);
        SameWork(s.(ring := SetSlot(s.ring, at.slot, Aborted)), t, told);
      } else {
        WakeWorks(s, at.slot, told);
        SameWork(Wake(s, at.slot), t, told);
      }
    case _ => SameWork(s, t, told);
  }

  // ----- Who everything waits for -----

  predicate ControlNotifies(ctrl: ControlPc, slot: nat)
  {
    ctrl == KDumpNotify(slot) || (ctrl.KAborting? && ctrl.at == ANotify(slot))
  }

  predicate UserNotifies(user: UserPc, slot: nat) { user == UAborting(ANotify(slot)) }

  predicate ControlWakes(s: State)
    requires WellFormed(s)
  {
    (ProducerReleased(s) && ControlNotifies(s.ctrl, s.pi)) || (ConsumerReleased(s) && ControlNotifies(s.ctrl, s.ci))
  }

  predicate UserWakes(s: State)
    requires WellFormed(s)
  {
    (ProducerReleased(s) && UserNotifies(s.user, s.pi)) || (ConsumerReleased(s) && UserNotifies(s.user, s.ci))
  }

  function Helper(s: State): Worker
    requires WellFormed(s)
  {
    if Able(s, TheProducer) then TheProducer
    else if Able(s, TheConsumer) then TheConsumer
    else if UserWakes(s) then TheUser
    else TheControl
  }

  /** The steps of an abort still to come. */
  function AbortLeft(at: AbortPc, n: nat): int
  {
    match at case ASetFlag => 2 * n + 2 case AStore(i) => 2 * (n - i) + 1 case ANotify(i) => 2 * (n - i)
  }

  /** The steps the control thread has left once the processing thread has finished:
      the rest of this iteration, the abort if the source goes on, and the joins. */
  function LeavingDistance(pc: ControlPc, n: nat): int
  {
    match pc
    case KDone => 0
    case KJoinProcessing => 1
    case KJoinTransfer => 2
    case KExitStop => 2 * n + 5
    case KExitFinished => 2 * n + 6
    case KTop => 2 * n + 7
    case KAborting(at, after) =>
      AbortLeft(at, n) + (match after case ThenJoin => 2 case ThenTop => 2 * n + 7 case ThenTransfer => 6 * n + 13)
    case KSetAbort(after) => 2 * n + 3 + (match after case ThenTransfer => 6 * n + 13 case _ => 2 * n + 7)
    case KLoadFailed => 4 * n + 11
    case KDump(i) => 4 * n + 12 + 2 * (n - i)
    case KDumpNotify(i) => 4 * n + 11 + 2 * (n - i)
    case KLoadFinished => 6 * n + 13
    case KWatchFire => 8 * n + 17
    case KWatchStop => 8 * n + 18
    case KWatchFinished => 8 * n + 19
  }

  /** While neither worker can step: how far the others are from the step that lets one
      of them go on or, once both are done, from the end. */
  function Distance(s: State): int
    requires WellFormed(s)
  {
    if Able(s, TheProducer) || Able(s, TheConsumer) then 0
    else if ProducerReleased(s) || ConsumerReleased(s) then if ControlWakes(s) && UserWakes(s) then 0 else 1
    else if s.cons.CParked? then ControlDistance(s.ctrl, s.ci, s.Count())
    else LeavingDistance(s.ctrl, s.Count())
  }

  /** More than any distance. */
  function Span(n: nat): nat { 8 * n + 20 }

  lemma DistanceBelowSpan(s: State)
    requires Inv(s)
    ensures 0 <= Distance(s) < Span(s.Count())
  {
    hide LeavingDistance, ControlDistance;
    LeavingBelowSpan(s.ctrl, s.Count());
    if ConsumerBlocked(s) && !ProducerReleased(s) && !Able(s, TheProducer) {
      BlockedAfterEnd(s);
      DistanceBounds(s);
    }
  }

  lemma LeavingBelowSpan(ctrl: ControlPc, n: nat)
    requires ControlPcOk(ctrl, n)
    ensures 0 <= LeavingDistance(ctrl, n) < Span(n)
  {
  }

  /** A consumer left to the control thread waits for a source that has ended. */
  lemma BlockedAfterEnd(s: State)
    requires Inv(s) && ConsumerBlocked(s) && !ProducerReleased(s) && !Able(s, TheProducer)
    ensures s.flags.transferFinished
  {
    hide Carries, Wakes, Indices;
    NeverBothBlocked(s);
  }

  predicate Lower(s: State, t: State, told: bool)
    requires WellFormed(s) && WellFormed(t)
  {
    Work(t, told) < Work(s, told) || (Work(t, told) == Work(s, told) && Distance(t) < Distance(s))
  }

  predicate Level(s: State, t: State, told: bool)
    requires WellFormed(s) && WellFormed(t)
  {
    Work(t, told) == Work(s, told) && Distance(t) == Distance(s) && Helper(t) == Helper(s)
  }

  /** Until everything is over the helper can take its step. */
  lemma HelperIsAble(s: State)
    requires Inv(s) && !Final(s)
    ensures Able(s, Helper(s))
  {
    hide Carries;
    if !Able(s, TheProducer) && !Able(s, TheConsumer) && !UserWakes(s) {
      Parts(s);
      NeverBothBlocked(s);
      ReleasedAreWoken(s);
    }
  }

  /** Whoever is released while the other cannot step is woken by the others. */
  lemma ReleasedAreWoken(s: State)
    requires WellFormed(s) && NoLostWake(s) && !Able(s, TheProducer) && !Able(s, TheConsumer)
    ensures ProducerReleased(s) || ConsumerReleased(s) ==> ControlWakes(s) || UserWakes(s)
  {
  }

  predicate Spurious(m: Move) { m.SpuriousConsumerWake? || m.SpuriousProducerWake? }

  lemma SameCount(s: State, m: Move)
    requires WellFormed(s) && Enabled(s, m)
    ensures Next(s, m).Count() == s.Count()
  {
  }

  /** A step of the control thread or the user, while a worker can step. */
  lemma AbleStep(s: State, t: State, told: bool)
    requires WellFormed(s) && WellFormed(t) && LessOrUnmoved(s, t, told)
    requires Able(s, TheProducer) || Able(s, TheConsumer)
    ensures Lower(s, t, told) || (Level(s, t, told) && Helper(s) in {TheProducer, TheConsumer})
  {
    hide Work;
  }

  lemma ControlLowers(s: State, c: Choice, told: bool)
    requires Inv(s) && Enabled(s, Control(c)) && (!told ==> Sound(s))
    requires WellFormed(ControlNext(s, c))
    ensures Lower(s, ControlNext(s, c), told) || (Level(s, ControlNext(s, c), told) && Helper(s) != TheControl)
  {
    hide Work, Carries;
    var t := ControlNext(s, c);
    ControlWorks(s, c, told);
    hide ControlNext, Indices, FlagsAgree, ControlDistance, LeavingDistance, LessOrUnmoved, Unmoved;
    if Able(s, TheProducer) || Able(s, TheConsumer) { AbleStep(s, t, told); }
    else if ProducerReleased(s) || ConsumerReleased(s) { ReleasedControl(s, c, told); }
    else if s.cons.CParked? { BlockedControl(s, c, told); }
    else { LeavingControl(s, c, told); }
  }

  /** A wake that is due is the control thread's next step, or the user's. */
  lemma ReleasedControl(s: State, c: Choice, told: bool)
    requires WellFormed(s) && NoLostWake(s) && Enabled(s, Control(c)) && WellFormed(ControlNext(s, c))
    requires LessOrUnmoved(s, ControlNext(s, c), told) && !Able(s, TheProducer) && !Able(s, TheConsumer)
    requires ProducerReleased(s) || ConsumerReleased(s)
    ensures Lower(s, ControlNext(s, c), told) || (Level(s, ControlNext(s, c), told) && Helper(s) != TheControl)
  {
    hide Work, LeavingDistance, ControlDistance;
    ReleasedAreWoken(s);
    ControlWakesOne(s, c);
    UserUntouched(s, c);
    hide ControlNext, NotifyPending;
  }

  lemma ControlWakesOne(s: State, c: Choice)
    requires WellFormed(s) && Enabled(s, Control(c)) && WellFormed(ControlNext(s, c))
    ensures ControlWakes(s) ==> !Unmoved(s, ControlNext(s, c))
  {
  }

  lemma UserUntouched(s: State, c: Choice)
    requires WellFormed(s) && Enabled(s, Control(c))
    ensures ControlNext(s, c).user == s.user
  {
  }

  lemma BlockedControl(s: State, c: Choice, told: bool)
    requires Inv(s) && ConsumerBlocked(s) && !ProducerReleased(s) && !Able(s, TheProducer)
    requires Enabled(s, Control(c)) && WellFormed(ControlNext(s, c)) && LessOrUnmoved(s, ControlNext(s, c), told)
    ensures Lower(s, ControlNext(s, c), told)
  {
    hide Work, Carries;
    BlockedAfterEnd(s);
    ControlApproaches(s, c);
    hide ControlNext, ControlDistance, Indices, FlagsAgree, Wakes;
  }

  lemma LeavingControl(s: State, c: Choice, told: bool)
    requires Inv(s) && s.cons.CDone? && !ProducerReleased(s) && !Able(s, TheProducer)
    requires Enabled(s, Control(c)) && WellFormed(ControlNext(s, c)) && LessOrUnmoved(s, ControlNext(s, c), told)
    ensures Lower(s, ControlNext(s, c), told)
  {
    hide Work, Carries;
    LeavingShorter(s, c);
    hide ControlNext, LeavingDistance, Indices, Wakes;
  }

  lemma LeavingShorter(s: State, c: Choice)
    requires WellFormed(s) && s.flags.processingFinished && Enabled(s, Control(c))
    ensures LeavingDistance(ControlNext(s, c).ctrl, s.Count()) < LeavingDistance(s.ctrl, s.Count())
  {
    hide LeavingDistance;
    if s.ctrl.KAborting? { assert ControlNext(s, c) == ControlAborts(s); LeavingAborts(s); }
    else if Dumping(s.ctrl) { assert ControlNext(s, c) == ControlDumps(s); LeavingDumps(s); }
    else { assert ControlNext(s, c) == ControlDecides(s, c); LeavingDecides(s, c); }
  }

  lemma LeavingAborts(s: State)
    requires WellFormed(s) && s.ctrl.KAborting?
    ensures LeavingDistance(ControlAborts(s).ctrl, s.Count()) < LeavingDistance(s.ctrl, s.Count())
  {
  }

  lemma LeavingDumps(s: State)
    requires WellFormed(s) && Dumping(s.ctrl)
    ensures LeavingDistance(ControlDumps(s).ctrl, s.Count()) < LeavingDistance(s.ctrl, s.Count())
  {
  }

  lemma LeavingDecides(s: State, c: Choice)
    requires WellFormed(s) && Enabled(s, Control(c)) && !s.ctrl.KAborting? && !Dumping(s.ctrl)
    requires s.flags.processingFinished
    ensures LeavingDistance(ControlDecides(s, c).ctrl, s.Count()) < LeavingDistance(s.ctrl, s.Count())
  {
  }

  /** A step of the user, who stops or aborts. */
  lemma UserLowers(s: State, t: State, told: bool)
    requires WellFormed(s) && WellFormed(t) && LessOrUnmoved(s, t, told) && t.ctrl == s.ctrl
    requires UserWakes(s) ==> !Unmoved(s, t)
    requires ProducerReleased(s) || ConsumerReleased(s) ==> Able(s, TheProducer) || Able(s, TheConsumer) || ControlWakes(s) || UserWakes(s)
    ensures Lower(s, t, told) || (Level(s, t, told) && Helper(s) != TheUser)
  {
    hide Work, LeavingDistance, ControlDistance;
  }

  lemma UserWakesOne(s: State)
    requires WellFormed(s) && WellFormed(UserNext(s))
    ensures UserWakes(s) ==> !Unmoved(s, UserNext(s))
    ensures UserNext(s).ctrl == s.ctrl
  {
  }

  /** Every move lowers the rank, or leaves it and the helper as they are, and the
      helper's own moves lower it; but for a spurious wake, which costs one. */
  lemma MoveLowers(s: State, m: Move, told: bool)
    requires Inv(s) && Enabled(s, m) && Purposeful(s, m, told)
    ensures WellFormed(Next(s, m)) && Next(s, m).Count() == s.Count()
    ensures Spurious(m) ==> Work(Next(s, m), told) <= Work(s, told) + 1
    ensures !Spurious(m) ==>
              Lower(s, Next(s, m), told) || (Level(s, Next(s, m), told) && !Does(m, Helper(s)))
  {
    hide Inv;
    NextKeepsInv(s, m);
    Parts(s);
    Parts(Next(s, m));
    SameCount(s, m);
    hide Work, Distance, Helper, Carries, NotifyPending, AbortSwept, Window, SlotFlags, ControlFlags, ExitReason;
    match m
    case Produce(c) => ProducerWorks(s, c, told);
    case Consume(c) => ConsumerWorks(s, c, told);
    case Control(c) => ControlLowers(s, c, told);
    case UserAbort => UserMoveLowers(s, told);
    case UserStop => StopMoveLowers(s, told);
    case SpuriousProducerWake => SpuriousWorks(s, m, told);
    case SpuriousConsumerWake => SpuriousWorks(s, m, told);
  }

  lemma UserMoveLowers(s: State, told: bool)
    requires Positions(s) && Wakes(s) && WellFormed(UserNext(s))
    ensures Lower(s, UserNext(s), told) || (Level(s, UserNext(s), told) && Helper(s) != TheUser)
  {
    hide Work, Distance, Lower, Level, Helper;
    UserWorks(s, told);
    UserWakesOne(s);
    SomeoneWakes(s);
    UserLowers(s, UserNext(s), told);
  }

  lemma StopMoveLowers(s: State, told: bool)
    requires Positions(s) && Wakes(s)
    ensures var t := s.(flags := s.flags.(stop := true)); Lower(s, t, told) || Level(s, t, told)
  {
    hide Work, LeavingDistance, ControlDistance;
    StopWorks(s, told);
  }

  lemma SomeoneWakes(s: State)
    requires WellFormed(s) && NoLostWake(s)
    ensures ProducerReleased(s) || ConsumerReleased(s) ==> Able(s, TheProducer) || Able(s, TheConsumer) || ControlWakes(s) || UserWakes(s)
  {
    if !Able(s, TheProducer) && !Able(s, TheConsumer) { ReleasedAreWoken(s); }
  }

  lemma SpuriousWorks(s: State, m: Move, told: bool)
    requires WellFormed(s) && Enabled(s, m) && Spurious(m)
    ensures WellFormed(Next(s, m)) && Work(Next(s, m), told) <= Work(s, told) + 1
  {
  }

  // ----- What stays true -----

  lemma ToldStays(s: State, m: Move)
    requires WellFormed(s) && Enabled(s, m) && Told(s.flags)
    ensures Told(Next(s, m).flags)
  {
  }

  lemma SoundStays(s: State, m: Move)
    requires Inv(s) && Enabled(s, m) && Sound(s) && Faultless(m)
    ensures Sound(Next(s, m))
  {
    hide Window, Contents, Counters, Wakes;
    match m
    case Produce(c) => if s.prod.PMarkFull? { OverflowUnreachable(s); }
    case _ =>
  }

  lemma CapturingStays(s: State, m: Move)
    requires Inv(s) && Enabled(s, m) && Capturing(s) && Undisturbed(m)
    ensures Capturing(Next(s, m))
    ensures s.prod.PMarkFull? && m.Produce? ==> |Next(s, m).history.handed| == |s.history.handed| + 1
  {
    hide Window, Contents, Counters, Wakes, ControlFlags;
    SoundStays(s, m);
    if s.prod.PMarkFull? { OverflowUnreachable(s); }
  }

  /** The hand-overs still possible, told to end. */
  lemma BudgetSpent(s: State, m: Move)
    requires WellFormed(s) && Enabled(s, m) && Told(s.flags)
    requires s.flags.transferFinished <==> s.prod.PDone?
    ensures |Next(s, m).history.handed| + Budget(Next(s, m).prod, Next(s, m).flags.stop)
         <= |s.history.handed| + Budget(s.prod, s.flags.stop)
  {
    if m.Produce? { ProducerSpends(s, m.c); } else { OthersSpendNothing(s, m); }
  }

  lemma ProducerSpends(s: State, c: Choice)
    requires WellFormed(s) && Enabled(s, Produce(c)) && (s.flags.stop || s.flags.abort)
    ensures |ProducerNext(s, c).history.handed| + Budget(ProducerNext(s, c).prod, s.flags.stop)
         <= |s.history.handed| + Budget(s.prod, s.flags.stop)
    ensures ProducerNext(s, c).flags.stop == s.flags.stop
  {
  }

  lemma OthersSpendNothing(s: State, m: Move)
    requires WellFormed(s) && Enabled(s, m) && !m.Produce?
    ensures Next(s, m).history.handed == s.history.handed
    ensures Budget(Next(s, m).prod, Next(s, m).flags.stop) <= Budget(s.prod, s.flags.stop)
  {
    hide Next, Enabled, Budget, WellFormed;
    OthersHandOverNothing(s, m);
    OthersLeaveProducer(s, m);
    BudgetShrinks(s.prod, Next(s, m).prod, s.flags.stop, Next(s, m).flags.stop);
  }

  lemma OthersHandOverNothing(s: State, m: Move)
    requires WellFormed(s) && Enabled(s, m) && !m.Produce?
    ensures Next(s, m).history.handed == s.history.handed
  {
  }

  lemma OthersLeaveProducer(s: State, m: Move)
    requires WellFormed(s) && Enabled(s, m) && !m.Produce?
    ensures var t := Next(s, m);
            (t.prod == s.prod || (s.prod.PParked? && t.prod.PWaitFree?)) && (s.flags.stop ==> t.flags.stop)
  {
  }

  lemma BudgetShrinks(pc: ProducerPc, pc': ProducerPc, stop: bool, stop': bool)
    requires (pc' == pc || (pc.PParked? && pc'.PWaitFree?)) && (stop ==> stop')
    ensures Budget(pc', stop') <= Budget(pc, stop)
  {
  }

  // ----- Runs -----

  /** The moves of a run, each made in a state that keeps the invariant, before the run
      is over, and to the same purpose. */
  predicate Running(states: seq<State>, moves: seq<Move>, told: bool)
  {
    && IsRun(states, moves)
    && (forall i :: 0 <= i < |states| ==> Inv(states[i]))
    && (forall i :: 0 <= i < |moves| ==> !Final(states[i]) && Purposeful(states[i], moves[i], told))
  }

  /** How long the rank has stood still after i moves. */
  function Stalled(states: seq<State>, moves: seq<Move>, told: bool, i: nat): nat
    requires i <= |moves| && |states| == |moves| + 1 && forall j :: 0 <= j < |states| ==> WellFormed(states[j])
  {
    if i == 0 || Spurious(moves[i - 1]) || Lower(states[i - 1], states[i], told) then 0 else Stalled(states, moves, told, i - 1) + 1
  }

  /** One move of such a run. */
  lemma RunStep(states: seq<State>, moves: seq<Move>, told: bool, i: nat)
    requires Running(states, moves, told) && 0 < i <= |moves| && |states| == |moves| + 1
    ensures var s, t, m := states[i - 1], states[i], moves[i - 1];
            && WellFormed(s) && WellFormed(t) && s.Count() == t.Count()
            && (Spurious(m) ==> Work(t, told) <= Work(s, told) + 1)
            && (!Spurious(m) && !Lower(s, t, told) ==> Level(s, t, told) && Helper(t) == Helper(s) && !Does(m, Helper(s)))
  {
    hide Inv, Lower, Helper, Does, Work, Distance;
    MoveLowers(states[i - 1], moves[i - 1], told);
  }

  lemma {:induction false} StalledHelper(states: seq<State>, moves: seq<Move>, told: bool, i: nat)
    requires Running(states, moves, told) && i <= |moves| && |states| == |moves| + 1
    requires forall j :: 0 <= j < |states| ==> WellFormed(states[j])
    ensures var d := Stalled(states, moves, told, i);
            && d <= i
            && (forall j :: i - d <= j < i ==> Helper(states[j]) == Helper(states[i]) && !Does(moves[j], Helper(states[i])))
  {
    hide Running, WellFormed, Lower, Level, Helper, Does;
    if Stalled(states, moves, told, i) > 0 {
      StalledHelper(states, moves, told, i - 1);
      RunStep(states, moves, told, i);
    }
  }

  lemma RunIsWellFormed(states: seq<State>, moves: seq<Move>, told: bool)
    requires Running(states, moves, told)
    ensures forall j :: 0 <= j < |states| ==> WellFormed(states[j])
  {
    hide Carries, Wakes, FlagsAgree;
  }

  lemma StallIsShort(states: seq<State>, moves: seq<Move>, told: bool, patience: nat, i: nat)
    requires Running(states, moves, told) && patience > 0 && Fair(states, moves, patience) && i <= |moves|
    requires forall j :: 0 <= j < |states| ==> WellFormed(states[j])
    ensures Stalled(states, moves, told, i) < patience
  {
    hide Inv, Lower, Level, Helper, Does, Able, Fair, DoesFrom;
    if Stalled(states, moves, told, i) >= patience {
      StalledHelper(states, moves, told, i);
      var w, from := Helper(states[i]), i - patience;
      forall j | from <= j < from + patience ensures Able(states[j], w) { HelperIsAble(states[j]); }
      NotDone(moves, w, from, patience);
      Patience(states, moves, patience, w, from);
    }
  }

  lemma NotDone(moves: seq<Move>, w: Worker, i: nat, count: nat)
    requires i + count <= |moves| && forall j :: i <= j < i + count ==> !Does(moves[j], w)
    ensures !DoesFrom(moves, w, i, count)
  {
  }

  lemma Patience(states: seq<State>, moves: seq<Move>, patience: nat, w: Worker, i: nat)
    requires |states| == |moves| + 1 && Fair(states, moves, patience) && i + patience <= |moves|
    requires AbleFrom(states, w, i, patience)
    ensures DoesFrom(moves, w, i, patience)
  {
  }

  /** The rank in one number. */
  function Rank(s: State, told: bool): int
    requires WellFormed(s)
  {
    Work(s, told) * Span(s.Count()) + Distance(s)
  }

  lemma RankLower(s: State, t: State, told: bool)
    requires Inv(s) && Inv(t) && s.Count() == t.Count()
    ensures Lower(s, t, told) ==> Rank(t, told) < Rank(s, told)
    ensures Level(s, t, told) ==> Rank(t, told) == Rank(s, told)
    ensures Work(t, told) <= Work(s, told) + 1 ==> Rank(t, told) < Rank(s, told) + 2 * Span(s.Count())
  {
    hide Inv, Work, Distance;
    Parts(s);
    Parts(t);
    DistanceBelowSpan(s);
    DistanceBelowSpan(t);
    WorkIsBounded(s, told);
    WorkIsBounded(t, told);
    Weigh(Work(s, told), Work(t, told), Span(s.Count()));
  }

  lemma Weigh(a: nat, b: nat, weight: nat)
    ensures b < a ==> b * weight + weight <= a * weight
    ensures b <= a + 1 ==> b * weight <= a * weight + weight
  {
    if b < a { Division.Apart(b, a, weight); }
    if b <= a + 1 { Division.Apart(b, a + 2, weight); Spread(a, 2, weight); }
  }

  lemma Spread(a: int, b: int, c: int)
    ensures (a + b) * c == a * c + b * c
  {
  }

  lemma WorkIsBounded(s: State, told: bool)
    requires Positions(s)
    ensures 0 <= Work(s, told) < 16 * (|s.history.handed| - |s.history.taken|) + 56
  {
    hide FlagsAgree;
  }

  function NeedlessWakes(moves: seq<Move>): nat
  {
    if moves == [] then 0 else NeedlessWakes(moves[..|moves| - 1]) + (if Spurious(moves[|moves| - 1]) then 1 else 0)
  }

  /** What i moves may have spent: the fall of the rank, and a price for each spurious wake. */
  function Spent(states: seq<State>, moves: seq<Move>, told: bool, i: nat): int
    requires i <= |moves| && |states| == |moves| + 1 && forall j :: 0 <= j < |states| ==> WellFormed(states[j])
  {
    Rank(states[0], told) - Rank(states[i], told) + 2 * Span(states[0].Count()) * NeedlessWakes(moves[..i])
  }

  /** Each move of them spends something, or stalls for less than `patience`. */
  lemma {:induction false} MovesAreBounded(states: seq<State>, moves: seq<Move>, told: bool, patience: nat, i: nat)
    requires Running(states, moves, told) && patience > 0 && Fair(states, moves, patience) && i <= |moves|
    requires |states| == |moves| + 1 && forall j :: 0 <= j < |states| ==> WellFormed(states[j])
    ensures states[i].Count() == states[0].Count()
    ensures i <= patience * Spent(states, moves, told, i) + Stalled(states, moves, told, i)
  {
    hide Running, WellFormed, Lower, Level, Helper, Does, Rank, Fair, Span, Spent, NeedlessWakes;
    if i == 0 {
      NothingSpent(states, moves, told);
    } else {
      MovesAreBounded(states, moves, told, patience, i - 1);
      StallIsShort(states, moves, told, patience, i - 1);
      RunStep(states, moves, told, i);
      SpendsMore(states, moves, told, i);
      Account(patience, Spent(states, moves, told, i - 1), Spent(states, moves, told, i), Stalled(states, moves, told, i - 1), Stalled(states, moves, told, i), i);
    }
  }

  lemma NothingSpent(states: seq<State>, moves: seq<Move>, told: bool)
    requires |states| == |moves| + 1 && forall j :: 0 <= j < |states| ==> WellFormed(states[j])
    ensures Spent(states, moves, told, 0) == 0
  {
  }

  lemma SpendsMore(states: seq<State>, moves: seq<Move>, told: bool, i: nat)
    requires Running(states, moves, told) && 0 < i <= |moves|
    requires |states| == |moves| + 1 && forall j :: 0 <= j < |states| ==> WellFormed(states[j])
    requires states[i - 1].Count() == states[0].Count()
    ensures if Spurious(moves[i - 1]) || Lower(states[i - 1], states[i], told) then Spent(states, moves, told, i) > Spent(states, moves, told, i - 1)
            else Spent(states, moves, told, i) == Spent(states, moves, told, i - 1)
  {
    hide Inv, WellFormed, Lower, Level, Helper, Does, Rank, Span, Work, Distance, Spent, NeedlessWakes;
    var s, t, cost := states[i - 1], states[i], 2 * Span(states[0].Count());
    RunStep(states, moves, told, i);
    RankLower(s, t, told);
    WakesGrow(moves, i);
    SpentIs(states, moves, told, i - 1);
    SpentIs(states, moves, told, i);
    ThreeParts(cost, NeedlessWakes(moves[..i - 1]), 0);
  }

  lemma SpentIs(states: seq<State>, moves: seq<Move>, told: bool, i: nat)
    requires i <= |moves| && |states| == |moves| + 1 && forall j :: 0 <= j < |states| ==> WellFormed(states[j])
    ensures Spent(states, moves, told, i)
         == Rank(states[0], told) - Rank(states[i], told) + 2 * Span(states[0].Count()) * NeedlessWakes(moves[..i])
  {
  }

  lemma WakesGrow(moves: seq<Move>, i: nat)
    requires 0 < i <= |moves|
    ensures NeedlessWakes(moves[..i]) == NeedlessWakes(moves[..i - 1]) + (if Spurious(moves[i - 1]) then 1 else 0)
  {
    assert moves[..i][..i - 1] == moves[..i - 1];
  }

  lemma Account(patience: nat, before: int, after: int, d: nat, d': nat, i: nat)
    requires i > 0 && d < patience && i - 1 <= patience * before + d
    requires (after > before && d' == 0) || (after == before && d' == d + 1)
    ensures i <= patience * after + d'
  {
    if after > before { Enough(patience, before, after); }
  }

  /** The rank a run begins with is below this, by what the ring holds. */
  function Rounds(s: State): int
  {
    (16 * (|s.history.handed| - |s.history.taken|) + 56) * Span(s.Count())
  }

  lemma RankBelowRounds(s: State, told: bool)
    requires Inv(s)
    ensures WellFormed(s) && 0 <= Rank(s, told) < Rounds(s)
  {
    hide Inv, Span, Work, Distance;
    Parts(s);
    DistanceBelowSpan(s);
    WorkIsBounded(s, told);
    Weigh(16 * (|s.history.handed| - |s.history.taken|) + 56, Work(s, told), Span(s.Count()));
    assert Work(s, told) * Span(s.Count()) >= 0;
  }

  lemma SpentInAll(states: seq<State>, moves: seq<Move>, told: bool)
    requires Running(states, moves, told)
    requires |states| == |moves| + 1 && forall j :: 0 <= j < |states| ==> WellFormed(states[j])
    ensures Spent(states, moves, told, |moves|) < Rounds(states[0]) + 2 * Span(states[0].Count()) * NeedlessWakes(moves)
  {
    hide Inv, WellFormed, Span, Work, Distance, Rank, Spent, Rounds, NeedlessWakes, Purposeful;
    RankBelowRounds(states[0], told);
    RankBelowRounds(states[|moves|], told);
    SpentIs(states, moves, told, |moves|);
    assert moves[..|moves|] == moves;
  }

  lemma Enough(patience: nat, spent: int, allowed: int)
    requires spent < allowed
    ensures patience * spent + patience <= patience * allowed
  {
    var more := allowed - spent - 1;
    assert allowed == spent + 1 + more;
    ThreeParts(patience, spent, more);
    assert patience * more >= 0;
  }

  lemma ThreeParts(p: int, a: int, b: int)
    ensures p * (a + 1 + b) == p * a + p + p * b
  {
  }

  /** More moves than this cannot all be made to one purpose. */
  function Allowed(states: seq<State>, moves: seq<Move>, patience: nat): int
    requires |states| > 0
  {
    patience * (Rounds(states[0]) + 2 * Span(states[0].Count()) * NeedlessWakes(moves))
  }

  lemma RunsOut(states: seq<State>, moves: seq<Move>, told: bool, patience: nat)
    requires Running(states, moves, told) && patience > 0 && |states| == |moves| + 1 && Fair(states, moves, patience)
    ensures |moves| < Allowed(states, moves, patience)
  {
    hide Inv, Running, WellFormed, Final, Fair, Span, Rounds, Spent, NeedlessWakes;
    RunIsWellFormed(states, moves, told);
    var last := |moves|;
    MovesAreBounded(states, moves, told, patience, last);
    StallIsShort(states, moves, told, patience, last);
    SpentInAll(states, moves, told);
    Enough(patience, Spent(states, moves, told, last), Rounds(states[0]) + 2 * Span(states[0].Count()) * NeedlessWakes(moves));
  }

  // ----- The theorems -----

  /** From the moment a run has been told to end, whoever is waiting for whom, under a
      fair schedule it is over after a bounded number of moves: both workers and the
      control thread have finished, the joins included.  The bound counts what was
      waiting in the ring; each spurious wake can add to it. */
  lemma FairRunsEnd(states: seq<State>, moves: seq<Move>, patience: nat)
    requires IsRun(states, moves) && Inv(states[0]) && Told(states[0].flags)
    requires patience > 0 && Fair(states, moves, patience) && |moves| >= Allowed(states, moves, patience)
    ensures exists i :: 0 <= i < |states| && Final(states[i])
  {
    hide Inv, Final, Fair, Allowed;
    if forall i :: 0 <= i < |states| ==> !Final(states[i]) {
      ToldRuns(states, moves);
      RunsOut(states, moves, true, patience);
    }
  }

  lemma {:induction false} ToldRuns(states: seq<State>, moves: seq<Move>)
    requires IsRun(states, moves) && Inv(states[0]) && Told(states[0].flags)
    requires forall i :: 0 <= i < |moves| ==> !Final(states[i])
    ensures Running(states, moves, true) && Told(states[|moves|].flags)
  {
    hide Inv, Final, Told;
    if moves != [] {
      var last := |moves| - 1;
      ToldRuns(states[..|moves|], moves[..last]);
      NextKeepsInv(states[last], moves[last]);
      ToldStays(states[last], moves[last]);
    }
  }

  /** And from that moment at most one more buffer is handed over, none if the source
      has ended; after a stop only one that the producer was already about. */
  lemma {:induction false} HandsOverAtMostOne(states: seq<State>, moves: seq<Move>)
    requires IsRun(states, moves) && Inv(states[0]) && Told(states[0].flags)
    ensures Inv(states[|moves|]) && Told(states[|moves|].flags)
    ensures |states[|moves|].history.handed| + Budget(states[|moves|].prod, states[|moves|].flags.stop)
         <= |states[0].history.handed| + Budget(states[0].prod, states[0].flags.stop)
    ensures |states[|moves|].history.handed| <= |states[0].history.handed| + 1
    ensures states[0].flags.stop && !Committed(states[0].prod) ==> |states[|moves|].history.handed| <= |states[0].history.handed|
    ensures states[0].flags.transferFinished ==> |states[|moves|].history.handed| <= |states[0].history.handed|
  {
    hide Inv, Told;
    EndedIsDone(states[0]);
    if moves != [] {
      var last := |moves| - 1;
      HandsOverAtMostOne(states[..|moves|], moves[..last]);
      NextKeepsInv(states[last], moves[last]);
      ToldStays(states[last], moves[last]);
      EndedIsDone(states[last]);
      BudgetSpent(states[last], moves[last]);
    }
  }

  lemma EndedIsDone(s: State)
    requires Inv(s)
    ensures s.flags.transferFinished <==> s.prod.PDone?
  {
    hide Carries, Wakes, Indices;
  }

  /** A run that nobody has stopped, and in which nothing goes wrong, goes on capturing:
      under a fair schedule the next buffer is handed over within the same bound, a
      source waiting for a slot included. */
  lemma CaptureGoesOn(states: seq<State>, moves: seq<Move>, patience: nat)
    requires IsRun(states, moves) && Inv(states[0]) && Capturing(states[0])
    requires forall i :: 0 <= i < |moves| ==> Undisturbed(moves[i])
    requires patience > 0 && Fair(states, moves, patience) && |moves| >= Allowed(states, moves, patience)
    ensures |states[|moves|].history.handed| > |states[0].history.handed|
  {
    hide Inv, Fair, Allowed, Capturing, Undisturbed;
    HistoryGrowsAlong(states, moves, 0, |moves|);
    if |states[|moves|].history.handed| == |states[0].history.handed| {
      CapturingRuns(states, moves);
      RunsOut(states, moves, false, patience);
    }
  }

  lemma {:induction false} CapturingRuns(states: seq<State>, moves: seq<Move>)
    requires IsRun(states, moves) && Inv(states[0]) && Capturing(states[0])
    requires forall i :: 0 <= i < |moves| ==> Undisturbed(moves[i])
    requires |states[|moves|].history.handed| == |states[0].history.handed|
    ensures Running(states, moves, false) && Capturing(states[|moves|])
  {
    hide Inv, Capturing, Undisturbed;
    if moves != [] {
      var last := |moves| - 1;
      HistoryGrowsAlong(states, moves, 0, last);
      HistoryGrowsAlong(states, moves, last, last + 1);
      CapturingRuns(states[..|moves|], moves[..last]);
      NextKeepsInv(states[last], moves[last]);
      CapturingStays(states[last], moves[last]);
      CapturingIsNotFinal(states[last]);
    }
  }

  lemma CapturingIsNotFinal(s: State)
    requires Inv(s) && Capturing(s)
    ensures !Final(s)
  {
    EndedIsDone(s);
  }

  /** Nothing fails of itself: without a fault, the watchdog or an abort a run stays
      sound to its end, and then every buffer handed over has been read. */
  lemma {:induction false} SoundRunDeliversAll(states: seq<State>, moves: seq<Move>)
    requires IsRun(states, moves) && Inv(states[0]) && Sound(states[0])
    requires forall i :: 0 <= i < |moves| ==> Faultless(moves[i])
    ensures Inv(states[|moves|]) && Sound(states[|moves|])
    ensures Final(states[|moves|]) ==> states[|moves|].history.taken == states[|moves|].history.handed
  {
    hide Inv, Sound, Faultless;
    if moves != [] {
      var last := |moves| - 1;
      SoundRunDeliversAll(states[..|moves|], moves[..last]);
      NextKeepsInv(states[last], moves[last]);
      SoundStays(states[last], moves[last]);
    }
    if Final(states[|moves|]) { SoundFinal(states[|moves|]); }
  }

  lemma SoundFinal(s: State)
    requires Inv(s) && Sound(s) && Final(s)
    ensures s.history.taken == s.history.handed
  {
  }

  /** A fresh run is one of these. */
  lemma InitialIsCapturing(n: nat, data: seq<Block>)
    requires |data| == n > 0
    ensures Capturing(Initial(n, data))
  {
  }
}
