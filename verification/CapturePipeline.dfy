/**
  The three capture threads, and a user who may stop or abort them, as a state
  machine.  Every move performs one atomic operation of the program: one load,
  one store, one compare-exchange, one fetch-add or one notify.

  Atomics are sequentially consistent here.  A blocked thread follows the
  language's rule for atomic waiting: it blocks only if the value still is the
  one it saw, and it is unblocked by a later notify on that atomic (or
  spuriously), after which it compares again.
 */
module Engine {
  import opened DiskBufferRing

  /** The transfer thread: SyntheticSource::Run inside TransferThread. */
  datatype ProducerPc =
    | PCheckAbort | PCheckRingAbort | PCheckStop
    | PLoadFree | PWaitFree(seen: SlotState) | PParked(seen: SlotState)
    | PFillFirst | PFillRest | PMarkFull
    | PAddFilled | PLoadFreed | PRaisePeak(inUse: int) | PNotifyFull
    | PReturned(failed: bool) | PSetFinished | PDone

  /** The processing thread. `more` says whether its loop goes round again. */
  datatype ConsumerPc =
    | CCheckAbort | CSinkChange
    | CLoadFull | CWaitFull | CParked
    | CRead | CStrip | CLatch
    | CMarkFree(more: bool) | CAddFreed(more: bool) | CNotifyFree(more: bool) | CMarkDumpedFree(more: bool)
    | CAdvance | CSetFinished | CDone

  /** Progress through DiskBufferRing::Abort. */
  datatype AbortPc = ASetFlag | AStore(slot: nat) | ANotify(slot: nat)

  /** Where the control thread goes after an abort. */
  datatype AfterAbort = ThenTransfer | ThenTop | ThenJoin

  datatype ControlPc =
    | KTop | KWatchFinished | KWatchStop | KWatchFire
    | KLoadFinished | KDump(slot: nat) | KDumpNotify(slot: nat)
    | KLoadFailed | KSetAbort(after: AfterAbort)
    | KExitFinished | KExitStop
    | KAborting(at: AbortPc, after: AfterAbort)
    | KJoinTransfer | KJoinProcessing | KDone

  /** CapturePipeline::Abort called from outside, any number of times. */
  datatype UserPc = UIdle | USetAbort | USetStop | UAborting(at: AbortPc)

  /** The members of DiskBufferRing. */
  datatype Ring = Ring(
    slots: seq<SlotState>, data: seq<Block>,
    filled: int, freed: int, peak: int,
    aborting: bool)

  /** The flags of CapturePipeline. */
  datatype Flags = Flags(
    abort: bool, stop: bool, failed: bool,
    transferFinished: bool, processingFinished: bool)

  /** Every buffer handed over, and every buffer the consumer read, in order. */
  datatype History = History(handed: seq<Block>, taken: seq<Block>)

  datatype State = State(
    ring: Ring, flags: Flags,
    prod: ProducerPc, pi: nat,
    cons: ConsumerPc, ci: nat,
    ctrl: ControlPc, user: UserPc,
    history: History)
  {
    function Count(): nat { |ring.slots| }
  }

  /** What the code under the model does not decide. */
  datatype Choice = Choice(block: Block, end: bool, fault: bool, discard: bool)

  datatype Move =
    | Produce(c: Choice) | Consume(c: Choice) | Control(c: Choice)
    | UserStop | UserAbort
    | SpuriousProducerWake | SpuriousConsumerWake

  function Initial(n: nat, data: seq<Block>): State
    requires |data| == n > 0
  {
    State(Ring(seq(n, _ => Empty), data, 0, 0, 0, false),
          Flags(false, false, false, false, false),
          PCheckAbort, 0, CCheckAbort, 0, KTop, UIdle, History([], []))
  }

  predicate WellFormed(s: State)
  {
    && s.Count() == |s.ring.data| > 0
    && s.pi < s.Count()
    && s.ci < s.Count()
    && ControlPcOk(s.ctrl, s.Count())
    && (s.user.UAborting? ==> AbortPcOk(s.user.at, s.Count()))
  }

  predicate ControlPcOk(ctrl: ControlPc, n: nat)
  {
    && (ctrl.KDump? ==> ctrl.slot <= n)
    && (ctrl.KDumpNotify? ==> ctrl.slot < n)
    && (ctrl.KAborting? ==> AbortPcOk(ctrl.at, n))
  }

  predicate AbortPcOk(at: AbortPc, n: nat)
  {
    match at
    case ASetFlag => true
    case AStore(i) => i <= n
    case ANotify(i) => i < n
  }

  function SetSlot(r: Ring, slot: nat, x: SlotState): Ring
    requires slot < |r.slots|
  {
    r.(slots := r.slots[slot := x])
  }

  function SetData(r: Ring, slot: nat, x: Block): Ring
    requires slot < |r.data|
  {
    r.(data := r.data[slot := x])
  }

  /** notify_all on one slot: whoever is parked there compares again. */
  function Wake(s: State, slot: nat): State
  {
    s.(prod := if s.prod.PParked? && s.pi == slot then PWaitFree(s.prod.seen) else s.prod,
       cons := if s.cons.CParked? && s.ci == slot then CWaitFull else s.cons)
  }

  predicate Enabled(s: State, m: Move)
  {
    match m
    case Produce(_) => !s.prod.PParked? && !s.prod.PDone?
    case Consume(_) => !s.cons.CParked? && !s.cons.CDone?
    case Control(_) =>
      && !s.ctrl.KDone?
      && (s.ctrl.KJoinTransfer? ==> s.prod.PDone?)
      && (s.ctrl.KJoinProcessing? ==> s.cons.CDone?)
    case UserStop => true
    case UserAbort => true
    case SpuriousProducerWake => s.prod.PParked?
    case SpuriousConsumerWake => s.cons.CParked?
  }

  function Next(s: State, m: Move): State
    requires WellFormed(s) && Enabled(s, m)
  {
    match m
    case Produce(c) => ProducerNext(s, c)
    case Consume(c) => ConsumerNext(s, c)
    case Control(c) => ControlNext(s, c)
    case UserStop => s.(flags := s.flags.(stop := true))
    case UserAbort => UserNext(s)
    case SpuriousProducerWake => s.(prod := PWaitFree(s.prod.seen))
    case SpuriousConsumerWake => s.(cons := CWaitFull)
  }

  function ProducerNext(s: State, c: Choice): State
    requires WellFormed(s) && Enabled(s, Produce(c))
  {
    if Securing(s.prod) then ProducerSecures(s, c)
    else if Filling(s.prod) then ProducerFills(s, c)
    else if Announcing(s.prod) then ProducerAnnounces(s)
    else ProducerLeaves(s)
  }

  /** Up to and including WaitForSlotFree. */
  predicate Securing(pc: ProducerPc)
  {
    pc.PCheckAbort? || pc.PCheckRingAbort? || pc.PCheckStop? || pc.PLoadFree? || pc.PWaitFree? || pc.PParked?
  }

  /** The producer has secured its slot and may be writing into it. */
  predicate Filling(pc: ProducerPc)
  {
    pc.PFillFirst? || pc.PFillRest? || pc.PMarkFull?
  }

  /** MarkSlotFull has changed the slot and not yet returned. */
  predicate Announcing(pc: ProducerPc)
  {
    pc.PAddFilled? || pc.PLoadFreed? || pc.PRaisePeak? || pc.PNotifyFull?
  }

  function ProducerSecures(s: State, c: Choice): State
    requires WellFormed(s) && Securing(s.prod) && !s.prod.PParked?
  {
    var slot := s.ring.slots[s.pi];
    match s.prod
    case PCheckAbort => s.(prod := if s.flags.abort then PReturned(true) else PCheckRingAbort)
    case PCheckRingAbort => s.(prod := if s.ring.aborting then PReturned(true) else PCheckStop)
    case PCheckStop =>
      // The slot limit and an injected transfer failure end the run here too.
      s.(prod := if s.flags.stop then PReturned(false) else if c.end then PReturned(c.fault) else PLoadFree)
    case PLoadFree =>
      s.(prod := match slot
                 case Empty => PFillFirst
                 case Aborted => PReturned(true)
                 case _ => PWaitFree(slot))
    case PWaitFree(seen) => s.(prod := if slot == seen then PParked(seen) else PLoadFree)
  }

  function ProducerFills(s: State, c: Choice): State
    requires WellFormed(s) && Filling(s.prod)
  {
    match s.prod
    case PFillFirst => s.(ring := SetData(s.ring, s.pi, c.block), prod := PFillRest)
    case PFillRest =>
      s.(ring := SetData(s.ring, s.pi, c.block),
         prod := if c.discard then PCheckAbort else if c.fault then PReturned(true) else PMarkFull)
    case PMarkFull =>
      if s.ring.slots[s.pi] == Empty then
        s.(ring := SetSlot(s.ring, s.pi, Full),
           history := s.history.(handed := s.history.handed + [s.ring.data[s.pi]]),
           prod := PAddFilled)
      else
        s.(prod := PReturned(true))
  }

  function ProducerAnnounces(s: State): State
    requires WellFormed(s) && Announcing(s.prod)
  {
    match s.prod
    case PAddFilled => s.(ring := s.ring.(filled := s.ring.filled + 1), prod := PLoadFreed)
    case PLoadFreed => s.(prod := PRaisePeak(s.ring.filled - s.ring.freed))
    case PRaisePeak(inUse) =>
      s.(ring := s.ring.(peak := if inUse > s.ring.peak then inUse else s.ring.peak), prod := PNotifyFull)
    case PNotifyFull => Wake(s, s.pi).(pi := NextSlot(s.pi, s.Count()), prod := PCheckAbort)
  }

  function ProducerLeaves(s: State): State
    requires WellFormed(s) && (s.prod.PReturned? || s.prod.PSetFinished?)
  {
    match s.prod
    case PReturned(failed) => s.(flags := s.flags.(failed := s.flags.failed || failed), prod := PSetFinished)
    case PSetFinished => s.(flags := s.flags.(transferFinished := true), prod := PDone)
  }

  function ConsumerNext(s: State, c: Choice): State
    requires WellFormed(s) && Enabled(s, Consume(c))
  {
    if Waiting(s.cons) then ConsumerWaits(s, c)
    else if Processing(s.cons) then ConsumerProcesses(s, c)
    else if Releasing(s.cons) then ConsumerReleases(s)
    else ConsumerGoesOn(s)
  }

  /** Up to and including WaitForSlotFull. */
  predicate Waiting(pc: ConsumerPc)
  {
    pc.CCheckAbort? || pc.CSinkChange? || pc.CLoadFull? || pc.CWaitFull? || pc.CParked?
  }

  /** The consumer owns its slot. */
  predicate Processing(pc: ConsumerPc)
  {
    pc.CRead? || pc.CStrip? || pc.CLatch?
  }

  /** Inside MarkSlotFree. */
  predicate Releasing(pc: ConsumerPc)
  {
    pc.CMarkFree? || pc.CAddFreed? || pc.CNotifyFree? || pc.CMarkDumpedFree?
  }

  function ConsumerWaits(s: State, c: Choice): State
    requires WellFormed(s) && Waiting(s.cons) && !s.cons.CParked?
  {
    var slot := s.ring.slots[s.ci];
    match s.cons
    case CCheckAbort => s.(cons := if s.flags.abort then CSetFinished else CSinkChange)
    case CSinkChange => s.(flags := s.flags.(failed := s.flags.failed || c.fault), cons := CLoadFull)
    case CLoadFull =>
      s.(cons := match slot
                 case Empty => CWaitFull
                 case Full => CRead
                 case _ => CSetFinished)
    case CWaitFull => s.(cons := if slot == Empty then CParked else CLoadFull)
  }

  function ConsumerProcesses(s: State, c: Choice): State
    requires WellFormed(s) && Processing(s.cons)
  {
    match s.cons
    case CRead => s.(history := s.history.(taken := s.history.taken + [s.ring.data[s.ci]]), cons := CStrip)
    case CStrip =>
      // Markers are stripped in place; validation, the test ramp or the sink may fail.
      s.(ring := SetData(s.ring, s.ci, c.block), cons := if c.fault then CLatch else CMarkFree(true))
    case CLatch => s.(flags := s.flags.(failed := true), cons := CMarkFree(false))
  }

  function ConsumerReleases(s: State): State
    requires WellFormed(s) && Releasing(s.cons)
  {
    var slot := s.ring.slots[s.ci];
    match s.cons
    case CMarkFree(more) =>
      if slot == Full then s.(ring := SetSlot(s.ring, s.ci, Empty), cons := CAddFreed(more))
      else s.(cons := CMarkDumpedFree(more))
    case CAddFreed(more) => s.(ring := s.ring.(freed := s.ring.freed + 1), cons := CNotifyFree(more))
    case CNotifyFree(more) => Wake(s, s.ci).(cons := if more then CAdvance else CSetFinished)
    case CMarkDumpedFree(more) =>
      if slot == Dumped then s.(ring := SetSlot(s.ring, s.ci, Empty), cons := CNotifyFree(more))
      else s.(cons := if more then CAdvance else CSetFinished)
  }

  function ConsumerGoesOn(s: State): State
    requires WellFormed(s) && (s.cons.CAdvance? || s.cons.CSetFinished?)
  {
    match s.cons
    case CAdvance => s.(ci := NextSlot(s.ci, s.Count()), cons := CCheckAbort)
    case CSetFinished => s.(flags := s.flags.(processingFinished := true), cons := CDone)
  }

  /** DiskBufferRing::Abort has swept every slot. */
  predicate AbortReturns(at: AbortPc, n: nat)
  {
    at.AStore? && at.slot == n
  }

  function ControlNext(s: State, c: Choice): State
    requires WellFormed(s) && Enabled(s, Control(c))
  {
    if s.ctrl.KAborting? then ControlAborts(s)
    else if Dumping(s.ctrl) then ControlDumps(s)
    else ControlDecides(s, c)
  }

  /** Inside MarkEmptySlotsDumped. */
  predicate Dumping(pc: ControlPc)
  {
    pc.KDump? || pc.KDumpNotify?
  }

  function ControlDecides(s: State, c: Choice): State
    requires WellFormed(s) && Enabled(s, Control(c)) && !s.ctrl.KAborting? && !Dumping(s.ctrl)
  {
    var (ctrl, flags) := Decide(s.ctrl, s.flags, c);
    s.(ctrl := ctrl, flags := flags)
  }

  /** The control thread's own steps, which touch nothing but the flags. */
  function Decide(ctrl: ControlPc, f: Flags, c: Choice): (ControlPc, Flags)
    requires !ctrl.KAborting? && !Dumping(ctrl) && !ctrl.KDone?
  {
    match ctrl
    case KTop => (if f.processingFinished then KExitFinished else KWatchFinished, f)
    // The stall watchdog may fire on any iteration that finds both flags clear.
    case KWatchFinished => (if c.end && !f.transferFinished then KWatchStop else KLoadFinished, f)
    case KWatchStop => (if f.stop then KLoadFinished else KWatchFire, f)
    case KWatchFire => (KSetAbort(ThenTransfer), f.(failed := true))
    case KLoadFinished => (if f.transferFinished then KDump(0) else KLoadFailed, f)
    case KLoadFailed => (if f.failed then KSetAbort(ThenTop) else KTop, f)
    case KSetAbort(after) => (KAborting(ASetFlag, after), f.(abort := true))
    case KExitFinished => (if f.transferFinished then KJoinTransfer else KExitStop, f)
    case KExitStop => (KAborting(ASetFlag, ThenJoin), f.(stop := true))
    case KJoinTransfer => (KJoinProcessing, f)
    case KJoinProcessing => (KDone, f)
  }

  function ControlDumps(s: State): State
    requires WellFormed(s) && Dumping(s.ctrl)
  {
    var i := s.ctrl.slot;
    if s.ctrl.KDumpNotify? then Wake(s, i).(ctrl := KDump(i + 1))
    else if i == s.Count() then s.(ctrl := KLoadFailed)
    else if s.ring.slots[i] == Empty then s.(ring := SetSlot(s.ring, i, Dumped), ctrl := KDumpNotify(i))
    else s.(ctrl := KDump(i + 1))
  }

  function ControlAborts(s: State): State
    requires WellFormed(s) && s.ctrl.KAborting?
  {
    var KAborting(at, after) := s.ctrl;
    if AbortReturns(at, s.Count()) then
      s.(ctrl := match after
                 case ThenTransfer => KLoadFinished
                 case ThenTop => KTop
                 case ThenJoin => KJoinTransfer)
    else
      match at
      case ASetFlag => s.(ring := s.ring.(aborting := true), ctrl := KAborting(AStore(0), after))
      case AStore(i) => s.(ring := SetSlot(s.ring, i, Aborted), ctrl := KAborting(ANotify(i), after))
      case ANotify(i) => Wake(s, i).(ctrl := KAborting(AStore(i + 1), after))
  }

  function UserNext(s: State): State
    requires WellFormed(s)
  {
    match s.user
    case UIdle => s.(user := USetAbort)
    case USetAbort => s.(flags := s.flags.(abort := true), user := USetStop)
    case USetStop => s.(flags := s.flags.(stop := true), user := UAborting(ASetFlag))
    case UAborting(_) => UserAborts(s)
  }

  function UserAborts(s: State): State
    requires WellFormed(s) && s.user.UAborting?
  {
    var at := s.user.at;
    if AbortReturns(at, s.Count()) then s.(user := UIdle)
    else
      match at
      case ASetFlag => s.(ring := s.ring.(aborting := true), user := UAborting(AStore(0)))
      case AStore(i) => s.(ring := SetSlot(s.ring, i, Aborted), user := UAborting(ANotify(i)))
      case ANotify(i) => Wake(s, i).(user := UAborting(AStore(i + 1)))
  }

  predicate Final(s: State)
  {
    s.prod.PDone? && s.cons.CDone? && s.ctrl.KDone?
  }
}
