/**
  What every interleaving keeps: the ring carries the buffers in order and
  unmodified, the two sides never own the same slot, no wake is lost, and
  nothing handed over is left behind by a clean run.
 */
module EngineSafety {
  import opened DiskBufferRing
  import opened Engine

  // ----- Positions in the stream of buffers -----

  /** The consumer has read the buffer in its slot and not yet given it back. */
  predicate Holding(pc: ConsumerPc)
  {
    pc.CStrip? || pc.CLatch? || pc.CMarkFree?
  }

  /** The consumer is still at the slot of the last buffer it read. */
  predicate AtTakenSlot(pc: ConsumerPc)
  {
    Holding(pc) || Releasing(pc) || pc.CAdvance?
  }

  predicate Leaving(pc: ConsumerPc)
  {
    pc.CSetFinished? || pc.CDone?
  }

  predicate Returned(pc: ProducerPc)
  {
    pc.PReturned? || pc.PSetFinished? || pc.PDone?
  }

  /** Buffers given back so far; the ring's window starts here. */
  function Base(s: State): int
  {
    |s.history.taken| - (if Holding(s.cons) then 1 else 0)
  }

  // ----- The invariant, one concern at a time -----

  predicate ProducerAt(pc: ProducerPc, pi: nat, handed: nat, n: nat)
    requires n > 0
  {
    if Announcing(pc) then handed > 0 && pi == SlotOf(handed - 1, n)
    else !Returned(pc) ==> pi == SlotOf(handed, n)
  }

  predicate ConsumerAt(pc: ConsumerPc, ci: nat, taken: nat, n: nat)
    requires n > 0
  {
    if AtTakenSlot(pc) then taken > 0 && ci == SlotOf(taken - 1, n)
    else !Leaving(pc) ==> ci == SlotOf(taken, n)
  }

  /** The window [Base, Base + n) of the stream is what the slots stand for. */
  predicate Indices(s: State)
  {
    var handed, taken := |s.history.handed|, |s.history.taken|;
    && WellFormed(s)
    && 0 <= Base(s) <= handed <= Base(s) + s.Count()
    && taken <= handed
    && ProducerAt(s.prod, s.pi, handed, s.Count())
    && ConsumerAt(s.cons, s.ci, taken, s.Count())
    && (Filling(s.prod) ==> handed < Base(s) + s.Count())
    && (s.cons.CRead? ==> taken < handed)
  }

  /** Slots inside the window hold data and the others do not, unless aborted. */
  predicate Window(slots: seq<SlotState>, base: int, handed: nat)
    requires |slots| > 0
  {
    && (forall k: nat {:trigger SlotOf(k, |slots|)} :: base <= k < handed ==>
          slots[SlotOf(k, |slots|)] in {Full, Aborted})
    && (forall k: nat {:trigger SlotOf(k, |slots|)} :: handed <= k < base + |slots| ==>
          slots[SlotOf(k, |slots|)] in {Empty, Dumped, Aborted})
  }

  /** What the consumer has read is what was handed over, and so is what waits for it. */
  predicate Contents(data: seq<Block>, h: History)
    requires |data| > 0 && |h.taken| <= |h.handed|
  {
    && h.taken == h.handed[..|h.taken|]
    && (forall k: nat {:trigger SlotOf(k, |data|)} :: |h.taken| <= k < |h.handed| ==>
          data[SlotOf(k, |data|)] == h.handed[k])
  }

  /** The control thread has left its loop. */
  predicate PastLoop(ctrl: ControlPc)
  {
    ctrl.KExitFinished? || ctrl.KExitStop? || ctrl.KJoinTransfer? || ctrl.KJoinProcessing? || ctrl.KDone?
  }

  predicate SlotFlags(slots: seq<SlotState>, aborting: bool, transferFinished: bool)
  {
    && (forall j :: 0 <= j < |slots| && slots[j] == Aborted ==> aborting)
    && (forall j :: 0 <= j < |slots| && slots[j] == Dumped ==> transferFinished)
  }

  predicate ControlFlags(ctrl: ControlPc, user: UserPc, flags: Flags, aborting: bool)
  {
    && (aborting ==> flags.abort || flags.processingFinished)
    && (ctrl.KDump? || ctrl.KDumpNotify? ==> flags.transferFinished)
    && (ctrl.KSetAbort? ==> ctrl.after != ThenJoin)
    && (ctrl.KAborting? ==> if ctrl.after == ThenJoin then flags.processingFinished else flags.abort)
    && (PastLoop(ctrl) ==> flags.processingFinished)
    && (ctrl.KJoinProcessing? || ctrl.KDone? ==> flags.transferFinished)
    && (user.USetStop? || user.UAborting? ==> flags.abort)
    && (ctrl.KAborting? && !ctrl.at.ASetFlag? ==> aborting)
    && (user.UAborting? && !user.at.ASetFlag? ==> aborting)
  }

  /** The consumer leaves its loop only when it is told to, or with nothing left to do. */
  predicate ExitReason(cons: ConsumerPc, flags: Flags, h: History)
  {
    && (Leaving(cons) ==> flags.abort || flags.failed || (flags.transferFinished && |h.taken| == |h.handed|))
    && (Releasing(cons) && !cons.more ==> flags.failed)
  }

  predicate FlagsAgree(s: State)
  {
    && SlotFlags(s.ring.slots, s.ring.aborting, s.flags.transferFinished)
    && ControlFlags(s.ctrl, s.user, s.flags, s.ring.aborting)
    && (s.flags.transferFinished <==> s.prod.PDone?)
    && (s.flags.processingFinished <==> s.cons.CDone?)
    && ExitReason(s.cons, s.flags, s.history)
  }

  /** slots_freed_ is never more than one behind, and exact once a loop iteration has settled. */
  predicate FreedCount(pc: ConsumerPc, freed: int, base: int, abort: bool)
  {
    if pc.CAddFreed? then freed == base - 1
    else if abort && (pc.CMarkDumpedFree? || pc.CAdvance? || pc.CCheckAbort? || Leaving(pc)) then base - 1 <= freed <= base
    else freed == base
  }

  predicate Counters(s: State)
    requires Indices(s)
  {
    var handed, base := |s.history.handed|, Base(s);
    && s.ring.filled == handed - (if s.prod.PAddFilled? then 1 else 0)
    && FreedCount(s.cons, s.ring.freed, base, s.flags.abort)
    && (!s.ring.aborting ==> FullSlots(s.ring.slots) == handed - base)
    && (s.prod.PRaisePeak? ==> 0 <= s.prod.inUse <= s.Count() + 1)
    && 0 <= s.ring.peak <= s.Count() + 1
  }

  /** Some thread has changed the slot and is about to announce it. */
  predicate NotifyPending(s: State, slot: nat)
  {
    || (Announcing(s.prod) && s.pi == slot)
    || ((s.cons.CAddFreed? || s.cons.CNotifyFree?) && s.ci == slot)
    || s.ctrl == KDumpNotify(slot)
    || (s.ctrl.KAborting? && s.ctrl.at == ANotify(slot))
    || s.user == UAborting(ANotify(slot))
  }

  /** A blocked worker whose slot has changed has a wake on its way. */
  predicate NoLostWake(s: State)
    requires WellFormed(s)
  {
    && (s.prod.PParked? && s.ring.slots[s.pi] != s.prod.seen ==> NotifyPending(s, s.pi))
    && (s.cons.CParked? && s.ring.slots[s.ci] != Empty ==> NotifyPending(s, s.ci))
    && (s.prod.PParked? || s.prod.PWaitFree? ==> s.prod.seen == Full)
  }

  /** A notify that follows an abort's or a dump's store finds the store still there. */
  predicate NotifiedSlots(ctrl: ControlPc, user: UserPc, slots: seq<SlotState>)
    requires ControlPcOk(ctrl, |slots|) && (user.UAborting? ==> AbortPcOk(user.at, |slots|))
  {
    && (ctrl.KDumpNotify? ==> slots[ctrl.slot] in {Dumped, Aborted})
    && (ctrl.KAborting? && ctrl.at.ANotify? ==> slots[ctrl.at.slot] == Aborted)
    && (user.UAborting? && user.at.ANotify? ==> slots[user.at.slot] == Aborted)
  }

  predicate AllAborted(slots: seq<SlotState>, upTo: nat)
    requires upTo <= |slots|
  {
    forall j :: 0 <= j < upTo ==> slots[j] == Aborted
  }

  /** After the control thread has aborted to join, every slot is aborted for good. */
  predicate AbortSwept(ctrl: ControlPc, slots: seq<SlotState>, transferFinished: bool)
    requires ControlPcOk(ctrl, |slots|)
  {
    && (ctrl.KAborting? && !ctrl.at.ASetFlag? ==> AllAborted(slots, ctrl.at.slot))
    && (ctrl.KJoinTransfer? && !transferFinished ==> AllAborted(slots, |slots|))
  }

  /** Where everyone is. */
  predicate Positions(s: State)
  {
    Indices(s) && FlagsAgree(s)
  }

  /** What the ring holds. */
  predicate Carries(s: State)
    requires Indices(s)
  {
    && Window(s.ring.slots, Base(s), |s.history.handed|)
    && Contents(s.ring.data, s.history)
    && Counters(s)
    && (s.cons.CMarkDumpedFree? ==> s.ring.slots[s.ci] == Aborted)
  }

  /** Who will be woken. */
  predicate Wakes(s: State)
    requires WellFormed(s)
  {
    && NoLostWake(s)
    && NotifiedSlots(s.ctrl, s.user, s.ring.slots)
    && AbortSwept(s.ctrl, s.ring.slots, s.flags.transferFinished)
  }

  predicate Inv(s: State)
  {
    Positions(s) && Carries(s) && Wakes(s)
  }

  // ----- The window under each kind of store -----

  lemma WindowHandOver(slots: seq<SlotState>, base: nat, handed: nat)
    requires |slots| > 0 && Window(slots, base, handed) && base <= handed < base + |slots|
    ensures Window(slots[SlotOf(handed, |slots|) := Full], base, handed + 1)
  {
    WindowDistinct(base, |slots|);
  }

  lemma WindowGiveBack(slots: seq<SlotState>, base: nat, handed: nat)
    requires |slots| > 0 && Window(slots, base, handed) && base < handed <= base + |slots|
    ensures slots[SlotOf(base, |slots|)] in {Full, Aborted}
    ensures Window(slots[SlotOf(base, |slots|) := Empty], base + 1, handed)
    ensures slots[SlotOf(base, |slots|)] == Aborted ==> Window(slots, base + 1, handed)
  {
    WindowDistinct(base, |slots|);
    SlotOfPeriodic(base, |slots|);
  }

  lemma WindowRetire(slots: seq<SlotState>, base: int, handed: nat, i: nat, x: SlotState)
    requires |slots| > 0 && Window(slots, base, handed) && i < |slots|
    requires x == Aborted || (x == Dumped && slots[i] == Empty)
    ensures Window(slots[i := x], base, handed)
  {
  }

  lemma ContentsWrite(data: seq<Block>, h: History, base: nat, x: Block)
    requires |data| > 0 && |h.taken| <= |h.handed| && Contents(data, h)
    requires base <= |h.taken| <= |h.handed| < base + |data|
    ensures Contents(data[SlotOf(|h.handed|, |data|) := x], h)
  {
    WindowDistinct(base, |data|);
  }

  lemma ContentsHandOver(data: seq<Block>, h: History)
    requires |data| > 0 && |h.taken| <= |h.handed| && Contents(data, h)
    ensures Contents(data, h.(handed := h.handed + [data[SlotOf(|h.handed|, |data|)]]))
  {
    hide SlotOf;
    assert (h.handed + [data[SlotOf(|h.handed|, |data|)]])[..|h.taken|] == h.handed[..|h.taken|];
  }

  lemma ContentsStrip(data: seq<Block>, h: History, x: Block)
    requires |data| > 0 && 0 < |h.taken| <= |h.handed| < |h.taken| + |data| && Contents(data, h)
    ensures Contents(data[SlotOf(|h.taken| - 1, |data|) := x], h)
  {
    WindowDistinct(|h.taken| - 1, |data|);
  }

  // ----- It holds initially and is kept by every move -----

  lemma InitialInv(n: nat, data: seq<Block>)
    requires |data| == n > 0
    ensures Inv(Initial(n, data))
  {
    FullSlotsNone(Initial(n, data).ring.slots);
  }

  /** An empty slot seen at the producer's place is outside the consumer's window. */
  lemma EmptyIsFree(s: State)
    requires Indices(s) && Carries(s) && !Announcing(s.prod) && !Returned(s.prod)
    ensures s.ring.slots[s.pi] == Empty ==> |s.history.handed| < Base(s) + s.Count()
    ensures |s.history.handed| < Base(s) + s.Count() ==> s.ring.slots[s.pi] != Full
  {
    var handed := |s.history.handed|;
    SlotOfPeriodic(Base(s), s.Count());
    assert s.pi == SlotOf(|s.history.handed|, s.Count());
    if |s.history.handed| == Base(s) + s.Count() {
      assert s.pi == SlotOf(Base(s), s.Count());
    }
  }

  /** What the consumer finds in its slot tells whether a buffer is waiting for it. */
  lemma FullIsWaiting(s: State)
    requires Indices(s) && Carries(s) && !AtTakenSlot(s.cons) && !Leaving(s.cons)
    ensures s.ring.slots[s.ci] == Full ==> |s.history.taken| < |s.history.handed|
    ensures s.ring.slots[s.ci] in {Empty, Dumped} ==> |s.history.taken| == |s.history.handed|
  {
    assert s.ci == SlotOf(|s.history.taken|, s.Count());
  }

  lemma ProducerKeepsInv(s: State, c: Choice)
    requires Inv(s) && Enabled(s, Produce(c))
    ensures Inv(ProducerNext(s, c))
  {
    if Securing(s.prod) { SecuringKeepsInv(s, c); }
    else if Filling(s.prod) { FillingKeepsInv(s, c); }
    else if Announcing(s.prod) { AnnouncingKeepsInv(s); }
    else { ReturningKeepsInv(s); }
  }

  lemma SecuringPositions(s: State, c: Choice)
    requires Positions(s) && Securing(s.prod) && !s.prod.PParked?
    requires s.ring.slots[s.pi] == Empty ==> |s.history.handed| < Base(s) + s.Count()
    ensures Positions(ProducerSecures(s, c))
  {
  }

  lemma SecuringCarries(s: State, c: Choice)
    requires Positions(s) && Carries(s) && Securing(s.prod) && !s.prod.PParked?
    requires Indices(ProducerSecures(s, c))
    ensures Carries(ProducerSecures(s, c))
  {
  }

  lemma SecuringWakes(s: State, c: Choice)
    requires Positions(s) && Carries(s) && Wakes(s) && Securing(s.prod) && !s.prod.PParked?
    requires WellFormed(ProducerSecures(s, c))
    ensures Wakes(ProducerSecures(s, c))
  {
  }

  lemma SecuringKeepsInv(s: State, c: Choice)
    requires Inv(s) && Securing(s.prod) && !s.prod.PParked?
    ensures Inv(ProducerSecures(s, c))
  {
    EmptyIsFree(s);
    SecuringPositions(s, c);
    SecuringCarries(s, c);
    SecuringWakes(s, c);
  }

  lemma FillingKeepsInv(s: State, c: Choice)
    requires Inv(s) && Filling(s.prod)
    ensures Inv(ProducerFills(s, c))
  {
    if s.prod.PMarkFull? {
      MarkFullPositions(s, c);
      MarkFullCarries(s, c);
      MarkFullWakes(s, c);
    } else {
      WritingPositions(s, c);
      WritingCarries(s, c);
      WritingWakes(s, c);
    }
  }

  lemma WritingPositions(s: State, c: Choice)
    requires Positions(s) && Filling(s.prod) && !s.prod.PMarkFull?
    ensures Positions(ProducerFills(s, c))
  {
  }

  lemma WritingCarries(s: State, c: Choice)
    requires Positions(s) && Carries(s) && Filling(s.prod) && !s.prod.PMarkFull?
    requires Indices(ProducerFills(s, c))
    ensures Carries(ProducerFills(s, c))
  {
    ContentsWrite(s.ring.data, s.history, Base(s), c.block);
  }

  lemma WritingWakes(s: State, c: Choice)
    requires Positions(s) && Wakes(s) && Filling(s.prod) && !s.prod.PMarkFull?
    requires WellFormed(ProducerFills(s, c))
    ensures Wakes(ProducerFills(s, c))
  {
  }

  lemma MarkFullPositions(s: State, c: Choice)
    requires Positions(s) && s.prod.PMarkFull?
    ensures Positions(ProducerFills(s, c))
  {
  }

  lemma MarkFullCarries(s: State, c: Choice)
    requires Positions(s) && Carries(s) && s.prod.PMarkFull?
    requires Indices(ProducerFills(s, c))
    ensures Carries(ProducerFills(s, c))
  {
    hide Window, Contents, SlotOf, FullSlots;
    if s.ring.slots[s.pi] == Empty {
      WindowHandOver(s.ring.slots, Base(s), |s.history.handed|);
      ContentsHandOver(s.ring.data, s.history);
      FullSlotsUpdate(s.ring.slots, s.pi, Full);
    }
  }

  lemma MarkFullWakes(s: State, c: Choice)
    requires Positions(s) && Carries(s) && Wakes(s) && s.prod.PMarkFull?
    requires WellFormed(ProducerFills(s, c))
    ensures Wakes(ProducerFills(s, c))
  {
  }

  lemma AnnouncingPositions(s: State)
    requires Positions(s) && Announcing(s.prod)
    ensures Positions(ProducerAnnounces(s))
  {
    SlotOfNext(|s.history.handed| - 1, s.Count());
  }

  lemma AnnouncingCarries(s: State)
    requires Positions(s) && Carries(s) && Announcing(s.prod)
    requires Indices(ProducerAnnounces(s))
    ensures Carries(ProducerAnnounces(s))
  {
  }

  lemma AnnouncingWakes(s: State)
    requires Positions(s) && Carries(s) && Wakes(s) && Announcing(s.prod)
    requires WellFormed(ProducerAnnounces(s))
    ensures Wakes(ProducerAnnounces(s))
  {
  }

  lemma AnnouncingKeepsInv(s: State)
    requires Inv(s) && Announcing(s.prod)
    ensures Inv(ProducerAnnounces(s))
  {
    AnnouncingPositions(s);
    AnnouncingCarries(s);
    AnnouncingWakes(s);
  }

  lemma ReturningPositions(s: State)
    requires Positions(s) && (s.prod.PReturned? || s.prod.PSetFinished?)
    ensures Positions(ProducerLeaves(s))
  {
  }

  lemma ReturningCarries(s: State)
    requires Positions(s) && Carries(s) && (s.prod.PReturned? || s.prod.PSetFinished?)
    requires Indices(ProducerLeaves(s))
    ensures Carries(ProducerLeaves(s))
  {
  }

  lemma ReturningWakes(s: State)
    requires Positions(s) && Carries(s) && Wakes(s) && (s.prod.PReturned? || s.prod.PSetFinished?)
    requires WellFormed(ProducerLeaves(s))
    ensures Wakes(ProducerLeaves(s))
  {
  }

  lemma ReturningKeepsInv(s: State)
    requires Inv(s) && (s.prod.PReturned? || s.prod.PSetFinished?)
    ensures Inv(ProducerLeaves(s))
  {
    ReturningPositions(s);
    ReturningCarries(s);
    ReturningWakes(s);
  }

  lemma ConsumerKeepsInv(s: State, c: Choice)
    requires Inv(s) && Enabled(s, Consume(c))
    ensures Inv(ConsumerNext(s, c))
  {
    if Waiting(s.cons) { WaitingKeepsInv(s, c); }
    else if Processing(s.cons) { ProcessingKeepsInv(s, c); }
    else if Releasing(s.cons) { ReleasingKeepsInv(s); }
    else { GoingOnKeepsInv(s); }
  }

  lemma WaitingPositions(s: State, c: Choice)
    requires Positions(s) && Waiting(s.cons) && !s.cons.CParked?
    requires s.ring.slots[s.ci] == Full ==> |s.history.taken| < |s.history.handed|
    requires s.ring.slots[s.ci] in {Empty, Dumped} ==> |s.history.taken| == |s.history.handed|
    ensures Positions(ConsumerWaits(s, c))
  {
  }

  lemma WaitingCarries(s: State, c: Choice)
    requires Positions(s) && Carries(s) && Waiting(s.cons) && !s.cons.CParked?
    requires Indices(ConsumerWaits(s, c))
    ensures Carries(ConsumerWaits(s, c))
  {
  }

  lemma WaitingWakes(s: State, c: Choice)
    requires Positions(s) && Carries(s) && Wakes(s) && Waiting(s.cons) && !s.cons.CParked?
    requires WellFormed(ConsumerWaits(s, c))
    ensures Wakes(ConsumerWaits(s, c))
  {
  }

  lemma WaitingKeepsInv(s: State, c: Choice)
    requires Inv(s) && Waiting(s.cons) && !s.cons.CParked?
    ensures Inv(ConsumerWaits(s, c))
  {
    FullIsWaiting(s);
    WaitingPositions(s, c);
    WaitingCarries(s, c);
    WaitingWakes(s, c);
  }

  lemma ProcessingPositions(s: State, c: Choice)
    requires Positions(s) && Processing(s.cons)
    ensures Positions(ConsumerProcesses(s, c))
  {
  }

  lemma ProcessingCarries(s: State, c: Choice)
    requires Positions(s) && Carries(s) && Processing(s.cons)
    requires Indices(ConsumerProcesses(s, c))
    ensures Carries(ConsumerProcesses(s, c))
  {
    if s.cons.CStrip? { ContentsStrip(s.ring.data, s.history, c.block); }
  }

  lemma ProcessingWakes(s: State, c: Choice)
    requires Positions(s) && Carries(s) && Wakes(s) && Processing(s.cons)
    requires WellFormed(ConsumerProcesses(s, c))
    ensures Wakes(ConsumerProcesses(s, c))
  {
  }

  lemma ProcessingKeepsInv(s: State, c: Choice)
    requires Inv(s) && Processing(s.cons)
    ensures Inv(ConsumerProcesses(s, c))
  {
    ProcessingPositions(s, c);
    ProcessingCarries(s, c);
    ProcessingWakes(s, c);
  }

  lemma ReleasingPositions(s: State)
    requires Positions(s) && Releasing(s.cons)
    ensures Positions(ConsumerReleases(s))
  {
    hide SlotOf, ControlFlags;
  }

  lemma MarkFreeCarries(s: State)
    requires Positions(s) && Carries(s) && s.cons.CMarkFree?
    requires Indices(ConsumerReleases(s))
    ensures Carries(ConsumerReleases(s))
  {
    assert s.ci == SlotOf(Base(s), s.Count());
    WindowGiveBack(s.ring.slots, Base(s), |s.history.handed|);
    FullSlotsUpdate(s.ring.slots, s.ci, Empty);
  }

  lemma ReleasingCarries(s: State)
    requires Positions(s) && Carries(s) && Releasing(s.cons)
    requires Indices(ConsumerReleases(s))
    ensures Carries(ConsumerReleases(s))
  {
    if s.cons.CMarkFree? { MarkFreeCarries(s); }
  }

  lemma ReleasingWakes(s: State)
    requires Positions(s) && Carries(s) && Wakes(s) && Releasing(s.cons)
    requires WellFormed(ConsumerReleases(s))
    ensures Wakes(ConsumerReleases(s))
  {
  }

  lemma ReleasingKeepsInv(s: State)
    requires Inv(s) && Releasing(s.cons)
    ensures Inv(ConsumerReleases(s))
  {
    ReleasingPositions(s);
    ReleasingCarries(s);
    ReleasingWakes(s);
  }

  lemma GoingOnPositions(s: State)
    requires Positions(s) && (s.cons.CAdvance? || s.cons.CSetFinished?)
    ensures Positions(ConsumerGoesOn(s))
  {
    if s.cons.CAdvance? { SlotOfNext(|s.history.taken| - 1, s.Count()); }
  }

  lemma GoingOnCarries(s: State)
    requires Positions(s) && Carries(s) && (s.cons.CAdvance? || s.cons.CSetFinished?)
    requires Indices(ConsumerGoesOn(s))
    ensures Carries(ConsumerGoesOn(s))
  {
  }

  lemma GoingOnWakes(s: State)
    requires Positions(s) && Carries(s) && Wakes(s) && (s.cons.CAdvance? || s.cons.CSetFinished?)
    requires WellFormed(ConsumerGoesOn(s))
    ensures Wakes(ConsumerGoesOn(s))
  {
  }

  lemma GoingOnKeepsInv(s: State)
    requires Inv(s) && (s.cons.CAdvance? || s.cons.CSetFinished?)
    ensures Inv(ConsumerGoesOn(s))
  {
    GoingOnPositions(s);
    GoingOnCarries(s);
    GoingOnWakes(s);
  }

  /** The workers and the ring are as they were; an abort may have been flagged. */
  predicate OnlyDecides(s: State, t: State)
  {
    && t.ring == s.ring && t.history == s.history
    && t.prod == s.prod && t.pi == s.pi && t.cons == s.cons && t.ci == s.ci
    && (s.flags.abort ==> t.flags.abort)
  }

  lemma DecidingFrame(s: State, t: State)
    requires Positions(s) && Carries(s) && OnlyDecides(s, t) && Indices(t)
    ensures Carries(t)
  {
  }

  lemma UserFlagsKeepInv(s: State)
    requires Inv(s) && !s.user.UAborting?
    ensures Inv(UserNext(s))
  {
    hide Window, Contents, Counters, SlotFlags, SlotOf, ProducerAt, ConsumerAt, AllAborted;
    DecidingFrame(s, UserNext(s));
  }

  lemma DecideFlags(ctrl: ControlPc, user: UserPc, f: Flags, aborting: bool, c: Choice)
    requires !ctrl.KAborting? && !Dumping(ctrl) && !ctrl.KDone? && ControlFlags(ctrl, user, f, aborting)
    requires ctrl.KJoinTransfer? ==> f.transferFinished
    ensures var (ctrl', f') := Decide(ctrl, f, c);
            && ControlFlags(ctrl', user, f', aborting)
            && f'.transferFinished == f.transferFinished && f'.processingFinished == f.processingFinished
            && (f.abort ==> f'.abort) && (f.failed ==> f'.failed)
            && !ctrl'.KDumpNotify? && (ctrl'.KDump? ==> ctrl'.slot == 0)
            && (ctrl'.KAborting? ==> ctrl'.at == ASetFlag) && (ctrl'.KJoinTransfer? ==> f'.transferFinished)
  {
  }

  lemma DecidingPositions(s: State, c: Choice)
    requires Positions(s) && Enabled(s, Control(c)) && !s.ctrl.KAborting? && !Dumping(s.ctrl)
    ensures Indices(ControlDecides(s, c)) && OnlyDecides(s, ControlDecides(s, c))
    ensures FlagsAgree(ControlDecides(s, c))
  {
    hide SlotFlags, SlotOf, ProducerAt, ConsumerAt, Decide, ControlFlags;
    DecideFlags(s.ctrl, s.user, s.flags, s.ring.aborting, c);
  }

  lemma DecidingWakes(s: State, c: Choice)
    requires Positions(s) && Wakes(s) && Enabled(s, Control(c)) && !s.ctrl.KAborting? && !Dumping(s.ctrl)
    requires WellFormed(ControlDecides(s, c))
    ensures Wakes(ControlDecides(s, c))
  {
    hide AllAborted, SlotFlags, SlotOf, ProducerAt, ConsumerAt, Decide, ControlFlags, ExitReason;
    DecideFlags(s.ctrl, s.user, s.flags, s.ring.aborting, c);
  }

  lemma DecidingKeepsInv(s: State, c: Choice)
    requires Inv(s) && Enabled(s, Control(c)) && !s.ctrl.KAborting? && !Dumping(s.ctrl)
    ensures Inv(ControlDecides(s, c))
  {
    DecidingPositions(s, c);
    DecidingFrame(s, ControlDecides(s, c));
    DecidingWakes(s, c);
  }

  lemma WakePositions(s: State, slot: nat)
    requires Positions(s)
    ensures Positions(Wake(s, slot))
  {
    hide SlotOf, SlotFlags, ControlFlags;
  }

  lemma DumpingPositions(s: State)
    requires Positions(s) && Dumping(s.ctrl)
    ensures Positions(ControlDumps(s))
  {
    DumpingKind(s);
    if s.ctrl.KDumpNotify? {
      hide SlotOf, SlotFlags, ProducerAt, ConsumerAt, ExitReason, Wake;
      WakePositions(s, s.ctrl.slot);
      WakeKeepsRest(s, s.ctrl.slot);
    } else {
      hide Indices, FlagsAgree;
      StoringDumpIndices(s);
      StoringDumpFlags(s);
    }
  }

  lemma DumpingKind(s: State)
    requires Indices(s) && Dumping(s.ctrl)
    ensures WellFormed(s) && (s.ctrl.KDumpNotify? || s.ctrl.KDump?)
  {
  }

  lemma StoringDumpIndices(s: State)
    requires Indices(s) && s.ctrl.KDump?
    ensures Indices(ControlDumps(s))
  {
    hide SlotOf, ProducerAt, ConsumerAt;
  }

  lemma StoringDumpFlags(s: State)
    requires WellFormed(s) && FlagsAgree(s) && s.ctrl.KDump?
    ensures FlagsAgree(ControlDumps(s))
  {
    hide ExitReason;
  }

  lemma WakeKeepsRest(s: State, slot: nat)
    ensures var t := Wake(s, slot); t == s.(prod := t.prod, cons := t.cons)
  {
  }

  lemma DumpingCarries(s: State)
    requires Positions(s) && Carries(s) && Dumping(s.ctrl)
    requires Indices(ControlDumps(s))
    ensures Carries(ControlDumps(s))
  {
    hide Window, Contents, SlotOf, FullSlots;
    var i := s.ctrl.slot;
    if s.ctrl.KDump? && i < s.Count() && s.ring.slots[i] == Empty {
      WindowRetire(s.ring.slots, Base(s), |s.history.handed|, i, Dumped);
      FullSlotsUpdate(s.ring.slots, i, Dumped);
    }
  }

  lemma DumpingWakes(s: State)
    requires Positions(s) && Wakes(s) && Dumping(s.ctrl)
    requires WellFormed(ControlDumps(s))
    ensures Wakes(ControlDumps(s))
  {
  }

  lemma DumpingKeepsInv(s: State)
    requires Inv(s) && Dumping(s.ctrl)
    ensures Inv(ControlDumps(s))
  {
    DumpingPositions(s);
    DumpingCarries(s);
    DumpingWakes(s);
  }

  lemma AbortingPositions(s: State)
    requires Positions(s) && s.ctrl.KAborting?
    ensures Positions(ControlAborts(s))
  {
  }

  lemma AbortingCarries(s: State)
    requires Positions(s) && Carries(s) && s.ctrl.KAborting?
    requires Indices(ControlAborts(s))
    ensures Carries(ControlAborts(s))
  {
    hide Window, Contents, SlotOf, FullSlots;
    if s.ctrl.at.AStore? && s.ctrl.at.slot < s.Count() {
      WindowRetire(s.ring.slots, Base(s), |s.history.handed|, s.ctrl.at.slot, Aborted);
    }
  }

  lemma AbortingWakes(s: State)
    requires Positions(s) && Wakes(s) && s.ctrl.KAborting?
    requires WellFormed(ControlAborts(s))
    ensures Wakes(ControlAborts(s))
  {
  }

  lemma AbortingKeepsInv(s: State)
    requires Inv(s) && s.ctrl.KAborting?
    ensures Inv(ControlAborts(s))
  {
    AbortingPositions(s);
    AbortingCarries(s);
    AbortingWakes(s);
  }

  lemma UserAbortsPositions(s: State)
    requires Positions(s) && s.user.UAborting?
    ensures Positions(UserAborts(s))
  {
  }

  lemma UserAbortsCarries(s: State)
    requires Positions(s) && Carries(s) && s.user.UAborting?
    requires Indices(UserAborts(s))
    ensures Carries(UserAborts(s))
  {
    hide Window, Contents, SlotOf, FullSlots;
    if s.user.at.AStore? && s.user.at.slot < s.Count() {
      WindowRetire(s.ring.slots, Base(s), |s.history.handed|, s.user.at.slot, Aborted);
    }
  }

  lemma UserAbortsWakes(s: State)
    requires Positions(s) && Wakes(s) && s.user.UAborting?
    requires WellFormed(UserAborts(s))
    ensures Wakes(UserAborts(s))
  {
  }

  lemma UserAbortsKeepsInv(s: State)
    requires Inv(s) && s.user.UAborting?
    ensures Inv(UserAborts(s))
  {
    UserAbortsPositions(s);
    UserAbortsCarries(s);
    UserAbortsWakes(s);
  }

  lemma ControlKeepsInv(s: State, c: Choice)
    requires Inv(s) && Enabled(s, Control(c))
    ensures Inv(ControlNext(s, c))
  {
    if s.ctrl.KAborting? { AbortingKeepsInv(s); }
    else if Dumping(s.ctrl) { DumpingKeepsInv(s); }
    else { DecidingKeepsInv(s, c); }
  }

  lemma UserKeepsInv(s: State)
    requires Inv(s)
    ensures Inv(UserNext(s))
  {
    if s.user.UAborting? { UserAbortsKeepsInv(s); } else { UserFlagsKeepInv(s); }
  }

  lemma StopKeepsInv(s: State)
    requires Inv(s)
    ensures Inv(Next(s, UserStop))
  {
    hide SlotOf, Window, Contents;
  }

  lemma SpuriousWakeKeepsInv(s: State, m: Move)
    requires Inv(s) && Enabled(s, m) && (m.SpuriousProducerWake? || m.SpuriousConsumerWake?)
    ensures Inv(Next(s, m))
  {
    hide SlotOf, Window, Contents, SlotFlags, ControlFlags;
  }

  lemma NextKeepsInv(s: State, m: Move)
    requires Inv(s) && Enabled(s, m)
    ensures Inv(Next(s, m))
  {
    hide Positions, Carries, Wakes, ProducerNext, ConsumerNext, ControlNext, UserNext;
    match m
    case Produce(c) => ProducerKeepsInv(s, c);
    case Consume(c) => ConsumerKeepsInv(s, c);
    case Control(c) => ControlKeepsInv(s, c);
    case UserAbort => UserKeepsInv(s);
    case UserStop => StopKeepsInv(s);
    case _ => SpuriousWakeKeepsInv(s, m);
  }
}
