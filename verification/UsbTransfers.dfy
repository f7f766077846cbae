/**
  LibUsbSource: a fixed set of transfers rolling through the ring.

  One event is one callback, one turn of the event loop or one buffer given back
  by the consumer.  A callback that has to wait for a slot is cut in two there.
  Transfers on the endpoint complete in the order they were submitted; how each
  one ends, and when the run is stopped or aborted, is up to the environment.

  The k-th transfer submitted carries the k-th piece of the stream.  `number`,
  `arrived`, `taken` and the turn of a full slot record which pieces went where;
  no step of the program depends on them.
 */
module UsbTransfers {
  import opened TransferLayout

  datatype Entry = Entry(slot: nat, index: nat, last: bool, number: nat)

  datatype Slot = Empty | Full(turn: nat)

  datatype Transfers = Transfers(entries: seq<Entry>, pending: seq<nat>, submitted: nat, completed: nat, arrived: set<nat>)

  /** memory[slot][index] is the piece last written there. */
  datatype Ring = Ring(slots: seq<Slot>, memory: seq<seq<int>>, freed: nat, taken: seq<seq<int>>)

  datatype Waiting = Nobody | Held(id: nat)

  datatype Control = Control(opening: bool, discarded: nat, complete: bool, failed: bool, waiting: Waiting)

  datatype State = State(x: Transfers, ring: Ring, c: Control)

  datatype Event =
    | Submit(accepted: bool)
    // arrived: the transfer completed, whole; otherwise it ended any other way.
    | Completion(arrived: bool, stop: bool, abort: bool, ringAborted: bool)
    | Resubmit(secured: bool, accepted: bool)
    | AbortSeen
    | GiveBack

  /** The turn a piece belongs to, and its place in it. */
  function Turn(l: Layout, k: nat): nat
    requires Sound(l)
  {
    k / l.transfersPerSlot
  }

  function Place(l: Layout, k: nat): (i: nat)
    requires Sound(l)
    ensures i < l.transfersPerSlot
  {
    k % l.transfersPerSlot
  }

  /** The ring slot a turn is aimed at. */
  function SlotFor(l: Layout, turn: nat): (slot: nat)
    requires Sound(l)
    ensures slot < l.slotCount
  {
    (l.firstSlotIndex + turn) % l.slotCount
  }

  // ----- Prepare -----

  /** The loop of Prepare, as the entry it produces in its e-th turn. */
  function Prepared(l: Layout, e: nat): (entry: Entry)
    requires Sound(l)
  {
    Entry(SlotFor(l, Turn(l, e)), Place(l, e), Place(l, e) + 1 == l.transfersPerSlot, e)
  }

  method Prepare(l: Layout) returns (entries: seq<Entry>)
    requires Sound(l)
    ensures |entries| == l.transferCount
    ensures forall e :: 0 <= e < |entries| ==> entries[e] == Prepared(l, e)
  {
    entries := [];
    var slotIndex, indexInSlot := l.firstSlotIndex, 0;
    FirstTurn(l);
    while |entries| < l.transferCount
      invariant |entries| <= l.transferCount
      invariant slotIndex == SlotFor(l, Turn(l, |entries|)) && indexInSlot == Place(l, |entries|)
      invariant forall e :: 0 <= e < |entries| ==> entries[e] == Prepared(l, e)
    {
      var last := indexInSlot + 1 >= l.transfersPerSlot;
      NextPiece(l, |entries|);
      entries := entries + [Entry(slotIndex, indexInSlot, last, |entries|)];
      indexInSlot := indexInSlot + 1;
      if last {
        indexInSlot := 0;
        slotIndex := (slotIndex + 1) % l.slotCount;
      }
    }
  }

  lemma FirstTurn(l: Layout)
    requires Sound(l)
    ensures SlotFor(l, Turn(l, 0)) == l.firstSlotIndex && Place(l, 0) == 0
  {
    Division.Quotient(0, l.transfersPerSlot, 0, 0);
    Division.Quotient(l.firstSlotIndex, l.slotCount, 0, l.firstSlotIndex);
  }

  lemma NextPiece(l: Layout, k: nat)
    requires Sound(l)
    ensures if Place(l, k) + 1 < l.transfersPerSlot then Turn(l, k + 1) == Turn(l, k) && Place(l, k + 1) == Place(l, k) + 1
            else Turn(l, k + 1) == Turn(l, k) + 1 && Place(l, k + 1) == 0
    ensures (SlotFor(l, Turn(l, k)) + 1) % l.slotCount == SlotFor(l, Turn(l, k) + 1)
  {
    Division.NextPosition(k, l.transfersPerSlot);
    SlotAhead(l, Turn(l, k), 1);
  }

  /** Stepping a slot index round the ring is stepping the turn. */
  lemma SlotAhead(l: Layout, turn: nat, ahead: nat)
    requires Sound(l)
    ensures (SlotFor(l, turn) + ahead) % l.slotCount == SlotFor(l, turn + ahead)
  {
    Division.ModuloAhead(l.firstSlotIndex + turn, ahead, l.slotCount);
  }

  // ----- The events -----

  predicate Enabled(l: Layout, s: State, event: Event)
    requires Sound(l)
  {
    match event
    case Submit(_) => s.c.opening && s.x.submitted < |s.x.entries|
    case Completion(_, _, _, _) => !s.c.opening && s.c.waiting == Nobody && s.x.pending != [] && s.x.pending[0] < |s.x.entries|
    case Resubmit(secured, _) =>
      && s.c.waiting != Nobody && s.c.waiting.id < |s.x.entries|
      && var e := s.x.entries[s.c.waiting.id];
         e.slot < |s.ring.slots| && (e.index == 0 && secured ==> s.ring.slots[e.slot] == Empty)
    case AbortSeen => !s.c.opening && s.c.waiting == Nobody && !s.c.failed
    case GiveBack =>
      var slot := s.ring.freed % l.slotCount;
      slot < |s.ring.slots| && slot < |s.ring.memory| && s.ring.slots[slot].Full?
  }

  function Next(l: Layout, s: State, event: Event): State
    requires Sound(l) && Enabled(l, s, event)
  {
    match event
    case Submit(accepted) => Submitted(l, s, accepted)
    case Completion(arrived, stop, abort, ringAborted) => Completed(l, s, arrived, stop, abort, ringAborted)
    case Resubmit(secured, accepted) => Resubmitted(l, s, secured, accepted)
    case AbortSeen => s.(c := s.c.(failed := true))
    case GiveBack => s.(ring := GivenBack(l, s.ring))
  }

  /** The loop at the top of Run. */
  function Submitted(l: Layout, s: State, accepted: bool): State
    requires Sound(l)
  {
    if !accepted then s.(c := s.c.(failed := true, opening := false))
    else
      s.(x := s.x.(pending := s.x.pending + [s.x.submitted], submitted := s.x.submitted + 1),
         c := s.c.(opening := s.x.submitted + 1 < l.transferCount))
  }

  /** OnCompletion, as far as the point where it may have to wait. */
  function Completed(l: Layout, s: State, arrived: bool, stop: bool, abort: bool, ringAborted: bool): State
    requires Sound(l) && s.x.pending != [] && s.x.pending[0] < |s.x.entries|
  {
    var id := s.x.pending[0];
    var e := s.x.entries[id];
    var x := s.x.(pending := s.x.pending[1..], completed := s.x.completed + 1);
    if !arrived then State(x, s.ring, s.c.(failed := true))
    else
      var x := x.(arrived := x.arrived + {s.x.completed});
      var ring := s.ring.(memory := Written(s.ring.memory, e.slot, e.index, s.x.completed));
      if abort then State(x, ring, s.c.(failed := true))
      else
        var (slots, c) := HandOver(l, e, ring.slots, s.c, stop, ringAborted, Turn(l, s.x.completed));
        var ring := ring.(slots := slots);
        if c.complete || c.failed then State(x, ring, c)
        else
          var again := e.(slot := (e.slot + l.slotSpan) % l.slotCount, number := e.number + l.transferCount);
          State(x.(entries := x.entries[id := again]), ring, c.(waiting := Held(id)))
  }

  /** Discard, or mark the slot full when its last transfer has arrived. */
  function HandOver(l: Layout, e: Entry, slots: seq<Slot>, c: Control, stop: bool, ringAborted: bool, turn: nat): (seq<Slot>, Control)
    requires Sound(l)
  {
    if c.discarded < l.discardTransfers then
      (slots, c.(discarded := c.discarded + 1, complete := c.complete || (stop && e.last)))
    else if e.last then
      if ringAborted || e.slot >= |slots| || slots[e.slot] != Empty then (slots, c.(failed := true))
      else (slots[e.slot := Full(turn)], c.(complete := c.complete || stop))
    else (slots, c)
  }

  function Written(memory: seq<seq<int>>, slot: nat, index: nat, piece: int): (m: seq<seq<int>>)
    ensures |m| == |memory|
  {
    if slot < |memory| && index < |memory[slot]| then memory[slot := memory[slot][index := piece]] else memory
  }

  /** The rest of OnCompletion: wait for the first transfer of a slot, and submit. */
  function Resubmitted(l: Layout, s: State, secured: bool, accepted: bool): State
    requires Sound(l) && s.c.waiting != Nobody && s.c.waiting.id < |s.x.entries|
  {
    var id := s.c.waiting.id;
    var c := s.c.(waiting := Nobody);
    if (s.x.entries[id].index == 0 && !secured) || !accepted then s.(c := c.(failed := true))
    else s.(x := s.x.(pending := s.x.pending + [id], submitted := s.x.submitted + 1), c := c)
  }

  /** The consumer has finished with the slot its own count says. */
  function GivenBack(l: Layout, r: Ring): Ring
    requires Sound(l) && r.freed % l.slotCount < |r.slots| && r.freed % l.slotCount < |r.memory|
  {
    var slot := r.freed % l.slotCount;
    r.(slots := r.slots[slot := Empty], freed := r.freed + 1, taken := r.taken + [r.memory[slot]])
  }

  function Blank(l: Layout): State
    requires Sound(l)
  {
    State(Transfers(Entries(l, l.transferCount), [], 0, 0, {}),
          Ring(Repeat(Empty, l.slotCount), Repeat(Repeat(-1, l.transfersPerSlot), l.slotCount), 0, []),
          Control(true, 0, false, false, Nobody))
  }

  function Entries(l: Layout, n: nat): (s: seq<Entry>)
    requires Sound(l)
    ensures |s| == n && forall e :: 0 <= e < n ==> s[e] == Prepared(l, e)
  {
    if n == 0 then [] else Entries(l, n - 1) + [Prepared(l, n - 1)]
  }

  function Repeat<T>(x: T, n: nat): (s: seq<T>)
    ensures |s| == n && forall i :: 0 <= i < n ==> s[i] == x
  {
    if n == 0 then [] else Repeat(x, n - 1) + [x]
  }
}
