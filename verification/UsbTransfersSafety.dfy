/**
  What every sequence of events keeps: the pieces of the stream land where their
  order says, no two transfers in flight share a place, none is aimed at a slot
  the consumer still has, and while nothing has failed the consumer is handed the
  stream in order and whole.
 */
module UsbTransfersSafety {
  import opened TransferLayout
  import opened UsbTransfers
  import Division

  // ----- Turns and slots -----

  lemma SlotRepeats(l: Layout, a: nat, b: nat)
    requires Sound(l) && a <= b
    ensures SlotFor(l, a) == SlotFor(l, b) && b < a + l.slotCount ==> a == b
    ensures b == a + l.slotCount ==> SlotFor(l, a) == SlotFor(l, b)
  {
    var n, x, y := l.slotCount, l.firstSlotIndex + a, l.firstSlotIndex + b;
    assert x == x / n * n + x % n && y == y / n * n + y % n;
    if x / n < y / n { Division.Apart(x / n, y / n, n); }
    if x / n > y / n { Division.Apart(y / n, x / n, n); }
    if b == a + n { Division.AddBlocks(x, n, 1); }
  }

  lemma PieceIs(l: Layout, k: nat)
    requires Sound(l)
    ensures k == Turn(l, k) * l.transfersPerSlot + Place(l, k)
  {
  }

  lemma PieceAt(l: Layout, turn: nat, i: nat) returns (k: nat)
    requires Sound(l) && i < l.transfersPerSlot
    ensures k == turn * l.transfersPerSlot + i && Turn(l, k) == turn && Place(l, k) == i
  {
    assert turn * l.transfersPerSlot >= 0;
    k := turn * l.transfersPerSlot + i;
    Division.Quotient(k, l.transfersPerSlot, turn, i);
  }

  lemma TurnMonotone(l: Layout, a: nat, b: nat)
    requires Sound(l) && a <= b
    ensures Turn(l, a) <= Turn(l, b)
  {
    Division.Monotone(a, b, l.transfersPerSlot);
  }

  /** Going round once more through all the transfers moves a piece on by the span. */
  lemma AroundOnce(l: Layout, k: nat)
    requires Sound(l)
    ensures Turn(l, k + l.transferCount) == Turn(l, k) + l.slotSpan && Place(l, k + l.transferCount) == Place(l, k)
  {
    assert l.transferCount == l.slotSpan * l.transfersPerSlot;
    Division.AddBlocks(k, l.transfersPerSlot, l.slotSpan);
  }

  // ----- The invariant -----

  /** An entry is aimed where the piece with its number belongs. */
  predicate Aimed(l: Layout, e: Entry)
    requires Sound(l)
  {
    && e.slot == SlotFor(l, Turn(l, e.number)) && e.index == Place(l, e.number)
    && (e.last <==> e.index + 1 == l.transfersPerSlot)
  }

  predicate AllAimed(l: Layout, entries: seq<Entry>)
    requires Sound(l)
  {
    |entries| == l.transferCount && forall i :: 0 <= i < |entries| ==> Aimed(l, entries[i])
  }

  /** The transfers in flight are the pieces from `completed` up to `submitted`, in order. */
  predicate InOrder(x: Transfers)
  {
    && x.completed + |x.pending| == x.submitted
    && (forall i :: 0 <= i < |x.pending| ==> x.pending[i] < |x.entries|)
    && (forall i :: 0 <= i < |x.pending| ==> x.entries[x.pending[i]].number == x.completed + i)
  }

  predicate Phase(l: Layout, x: Transfers, c: Control)
    requires Sound(l)
  {
    && x.submitted <= x.completed + l.transferCount
    && (c.opening ==> x.completed == 0 && x.submitted < l.transferCount && !c.failed && !c.complete && c.waiting == Nobody
                      && forall i :: x.submitted <= i < |x.entries| ==> x.entries[i].number == i)
    && (c.waiting.Held? ==> x.completed > 0 && !c.failed && !c.complete && c.waiting.id < |x.entries|
                            && x.entries[c.waiting.id].number == x.submitted)
    && (!c.opening && !c.failed && !c.complete ==>
          x.submitted + (if c.waiting.Held? then 1 else 0) == x.completed + l.transferCount)
    && (forall k :: k in x.arrived ==> k < x.completed)
    && c.discarded <= x.completed
  }

  /** Nothing has gone wrong, so every completion brought its piece. */
  ghost predicate Clean(l: Layout, x: Transfers, c: Control)
    requires Sound(l)
  {
    !c.failed ==>
      && c.discarded == Min(x.completed, l.discardTransfers)
      && forall k: nat :: k < x.completed ==> k in x.arrived
  }

  /** The turn the consumer is due to be handed or to give back next. */
  function Base(l: Layout, r: Ring): nat
    requires Sound(l)
  {
    l.discardSlots + r.freed
  }

  /** Full slots hold turns that have completed and have not been given back. */
  predicate Turns(l: Layout, slots: seq<Slot>, base: nat, completed: nat)
    requires Sound(l)
  {
    && |slots| == l.slotCount
    && forall i :: 0 <= i < |slots| && slots[i].Full? ==>
         SlotFor(l, slots[i].turn) == i && base <= slots[i].turn < Turn(l, completed)
  }

  /** No transfer has been aimed a whole ring ahead of the consumer. */
  predicate Room(l: Layout, submitted: nat, base: nat)
    requires Sound(l)
  {
    submitted > 0 ==> Turn(l, submitted - 1) < base + l.slotCount
  }

  predicate Ready(l: Layout, slots: seq<Slot>, base: nat, completed: nat)
    requires Sound(l)
  {
    forall turn: nat :: base <= turn < Turn(l, completed) && SlotFor(l, turn) < |slots| ==>
      slots[SlotFor(l, turn)] == Full(turn)
  }

  /** Whether turns are given back only after they were due. */
  predicate Due(l: Layout, freed: nat, completed: nat)
    requires Sound(l)
  {
    freed > 0 ==> l.discardSlots + freed <= Turn(l, completed)
  }

  predicate Shaped(l: Layout, memory: seq<seq<int>>)
    requires Sound(l)
  {
    |memory| == l.slotCount && forall i :: 0 <= i < |memory| ==> |memory[i]| == l.transfersPerSlot
  }

  /** What lies where piece k belongs. */
  function Cell(l: Layout, memory: seq<seq<int>>, k: nat): int
    requires Sound(l) && Shaped(l, memory)
  {
    memory[SlotFor(l, Turn(l, k))][Place(l, k)]
  }

  predicate Stale(memory: seq<seq<int>>, completed: nat)
  {
    forall i, j :: 0 <= i < |memory| && 0 <= j < |memory[i]| ==> memory[i][j] < completed
  }

  /** From the consumer's turn on, exactly the pieces that arrived are in their places. */
  predicate Landed(l: Layout, memory: seq<seq<int>>, base: nat, completed: nat, arrived: set<nat>)
    requires Sound(l) && Shaped(l, memory)
  {
    forall k: nat :: k < completed && base <= Turn(l, k) ==> (Cell(l, memory, k) == k <==> k in arrived)
  }

  /** A buffer given back held its turn's pieces, except those that never arrived. */
  ghost predicate Holds(l: Layout, row: seq<int>, turn: nat, arrived: set<nat>)
    requires Sound(l)
  {
    && |row| == l.transfersPerSlot
    && forall k: nat :: Turn(l, k) == turn ==> (row[Place(l, k)] == k <==> k in arrived)
  }

  ghost predicate Taken(l: Layout, r: Ring, arrived: set<nat>)
    requires Sound(l)
  {
    |r.taken| == r.freed && forall j :: 0 <= j < |r.taken| ==> Holds(l, r.taken[j], l.discardSlots + j, arrived)
  }

  ghost predicate Inv(l: Layout, s: State)
    requires Sound(l)
  {
    && AllAimed(l, s.x.entries) && InOrder(s.x) && Phase(l, s.x, s.c) && Clean(l, s.x, s.c)
    && RingInv(l, s.ring, s.x.completed, s.x.submitted, s.x.arrived)
    && (!s.c.failed ==> Ready(l, s.ring.slots, Base(l, s.ring), s.x.completed))
  }

  ghost predicate RingInv(l: Layout, r: Ring, completed: nat, submitted: nat, arrived: set<nat>)
    requires Sound(l)
  {
    && Turns(l, r.slots, Base(l, r), completed) && Room(l, submitted, Base(l, r)) && Due(l, r.freed, completed)
    && Shaped(l, r.memory) && Stale(r.memory, completed) && Landed(l, r.memory, Base(l, r), completed, arrived)
    && Taken(l, r, arrived)
  }

  // ----- Beginning -----

  lemma BlankInv(l: Layout)
    requires Sound(l)
    ensures Inv(l, Blank(l))
  {
    FirstTurn(l);
  }

  // ----- The ring under each change -----

  lemma CellsDistinct(l: Layout, a: nat, b: nat)
    requires Sound(l) && Turn(l, a) <= Turn(l, b) < Turn(l, a) + l.slotCount
    requires SlotFor(l, Turn(l, a)) == SlotFor(l, Turn(l, b)) && Place(l, a) == Place(l, b)
    ensures a == b
  {
    SlotRepeats(l, Turn(l, a), Turn(l, b));
    PieceIs(l, a);
    PieceIs(l, b);
  }

  function Filled(l: Layout, r: Ring, k: nat): Ring
    requires Sound(l)
  {
    r.(memory := Written(r.memory, SlotFor(l, Turn(l, k)), Place(l, k), k))
  }

  lemma LandsInPlace(l: Layout, r: Ring, k: nat, submitted: nat, arrived: set<nat>)
    requires Sound(l) && RingInv(l, r, k, submitted, arrived) && k < submitted && k !in arrived
    ensures Shaped(l, Filled(l, r, k).memory) && Stale(Filled(l, r, k).memory, k + 1)
    ensures Landed(l, Filled(l, r, k).memory, Base(l, r), k + 1, arrived + {k})
  {
    var m := Filled(l, r, k).memory;
    TurnMonotone(l, k, submitted - 1);
    forall j: nat | j < k + 1 && Base(l, r) <= Turn(l, j)
      ensures Cell(l, m, j) == j <==> j in arrived + {k}
    {
      if j < k {
        TurnMonotone(l, j, k);
        if SlotFor(l, Turn(l, j)) == SlotFor(l, Turn(l, k)) && Place(l, j) == Place(l, k) { CellsDistinct(l, j, k); }
        assert Cell(l, m, j) == Cell(l, r.memory, j);
      }
    }
  }

  lemma NeverLands(l: Layout, r: Ring, k: nat, submitted: nat, arrived: set<nat>)
    requires Sound(l) && RingInv(l, r, k, submitted, arrived) && k !in arrived
    ensures Stale(r.memory, k + 1) && Landed(l, r.memory, Base(l, r), k + 1, arrived)
  {
    assert Cell(l, r.memory, k) < k;
  }

  lemma TakenStays(l: Layout, r: Ring, k: nat, arrived: set<nat>)
    requires Sound(l) && Taken(l, r, arrived) && Due(l, r.freed, k)
    ensures Taken(l, r, arrived + {k})
  {
    forall j | 0 <= j < |r.taken| ensures Holds(l, r.taken[j], l.discardSlots + j, arrived + {k}) {
    }
  }

  lemma CountsOn(l: Layout, r: Ring, k: nat, base: nat)
    requires Sound(l)
    ensures Turns(l, r.slots, base, k) ==> Turns(l, r.slots, base, k + 1)
    ensures Due(l, r.freed, k) ==> Due(l, r.freed, k + 1)
  {
    TurnMonotone(l, k, k + 1);
  }

  /** A completion that brought its piece, before any slot is marked. */
  lemma ArrivalKeepsRing(l: Layout, r: Ring, k: nat, submitted: nat, arrived: set<nat>)
    requires Sound(l) && RingInv(l, r, k, submitted, arrived) && k < submitted && k !in arrived
    ensures RingInv(l, Filled(l, r, k), k + 1, submitted, arrived + {k})
  {
    LandsInPlace(l, r, k, submitted, arrived);
    TakenStays(l, r, k, arrived);
    CountsOn(l, r, k, Base(l, r));
  }

  lemma FailureKeepsRing(l: Layout, r: Ring, k: nat, submitted: nat, arrived: set<nat>)
    requires Sound(l) && RingInv(l, r, k, submitted, arrived) && k < submitted && k !in arrived
    ensures RingInv(l, r, k + 1, submitted, arrived)
  {
    NeverLands(l, r, k, submitted, arrived);
    CountsOn(l, r, k, Base(l, r));
  }

  /** When the last piece of a turn that is to be handed over arrives, its slot is empty. */
  lemma SlotIsEmpty(l: Layout, slots: seq<Slot>, base: nat, k: nat, submitted: nat)
    requires Sound(l) && Turns(l, slots, base, k) && Room(l, submitted, base) && k < submitted
    ensures slots[SlotFor(l, Turn(l, k))] == Empty
  {
    TurnMonotone(l, k, submitted - 1);
    var slot := SlotFor(l, Turn(l, k));
    if slots[slot].Full? { SlotRepeats(l, slots[slot].turn, Turn(l, k)); }
  }

  lemma MarkingKeepsRing(l: Layout, r: Ring, k: nat, submitted: nat, arrived: set<nat>)
    requires Sound(l) && RingInv(l, r, k + 1, submitted, arrived)
    requires Place(l, k) + 1 == l.transfersPerSlot && Base(l, r) <= Turn(l, k)
    ensures RingInv(l, r.(slots := r.slots[SlotFor(l, Turn(l, k)) := Full(Turn(l, k))]), k + 1, submitted, arrived)
  {
    NextPiece(l, k);
  }

  lemma MarkingIsReady(l: Layout, slots: seq<Slot>, base: nat, k: nat, submitted: nat)
    requires Sound(l) && |slots| == l.slotCount && Ready(l, slots, base, k) && Room(l, submitted, base) && k < submitted
    requires Place(l, k) + 1 == l.transfersPerSlot && base <= Turn(l, k)
    ensures Ready(l, slots[SlotFor(l, Turn(l, k)) := Full(Turn(l, k))], base, k + 1)
  {
    NextPiece(l, k);
    TurnMonotone(l, k, submitted - 1);
    var marked := slots[SlotFor(l, Turn(l, k)) := Full(Turn(l, k))];
    forall turn: nat | base <= turn < Turn(l, k + 1) && SlotFor(l, turn) < |marked|
      ensures marked[SlotFor(l, turn)] == Full(turn)
    {
      if turn < Turn(l, k) && SlotFor(l, turn) == SlotFor(l, Turn(l, k)) { SlotRepeats(l, turn, Turn(l, k)); }
    }
  }

  lemma DiscardTurns(l: Layout, k: nat)
    requires Sound(l)
    ensures l.discardTransfers <= k ==> l.discardSlots <= Turn(l, k)
    ensures k <= l.discardTransfers ==> Turn(l, k) <= l.discardSlots
  {
    Division.Multiple(l.discardTransfers, l.discardSlots, l.transfersPerSlot);
    if l.discardTransfers <= k { TurnMonotone(l, l.discardTransfers, k); }
    if k <= l.discardTransfers { TurnMonotone(l, k, l.discardTransfers); }
  }

  /** The slot the consumer's own count leads to is its turn's. */
  lemma BaseSlot(l: Layout, freed: nat)
    requires Sound(l)
    ensures SlotFor(l, l.discardSlots + freed) == freed % l.slotCount
  {
    var start := l.firstSlotIndex + l.discardSlots;
    assert start == start / l.slotCount * l.slotCount;
    Division.AddBlocks(freed, l.slotCount, start / l.slotCount);
    assert l.firstSlotIndex + (l.discardSlots + freed) == freed + start / l.slotCount * l.slotCount;
  }

  /** The full slot the consumer finds holds exactly the turn it is due. */
  lemma GivesBackItsTurn(l: Layout, r: Ring, completed: nat, submitted: nat)
    requires Sound(l) && Turns(l, r.slots, Base(l, r), completed) && Room(l, submitted, Base(l, r)) && completed <= submitted
    requires r.slots[r.freed % l.slotCount].Full?
    ensures r.slots[r.freed % l.slotCount] == Full(Base(l, r)) && Base(l, r) < Turn(l, completed)
  {
    BaseSlot(l, r.freed);
    var turn := r.slots[r.freed % l.slotCount].turn;
    LastOfTurn(l, turn, completed);
    TurnMonotone(l, completed - 1, submitted - 1);
    SlotRepeats(l, Base(l, r), turn);
  }

  lemma LastOfTurn(l: Layout, turn: nat, completed: nat)
    requires Sound(l) && turn < Turn(l, completed)
    ensures completed > 0 && turn <= Turn(l, completed - 1)
  {
    if completed == 0 {
      FirstTurnIsZero(l);
    } else {
      NextPiece(l, completed - 1);
    }
  }

  lemma FirstTurnIsZero(l: Layout)
    requires Sound(l)
    ensures Turn(l, 0) == 0
  {
    Division.Quotient(0, l.transfersPerSlot, 0, 0);
  }

  lemma GivingBackKeepsRing(l: Layout, r: Ring, completed: nat, submitted: nat, arrived: set<nat>)
    requires Sound(l) && RingInv(l, r, completed, submitted, arrived) && completed <= submitted
    requires r.slots[r.freed % l.slotCount].Full?
    ensures RingInv(l, GivenBack(l, r), completed, submitted, arrived)
    ensures Ready(l, r.slots, Base(l, r), completed) ==> Ready(l, GivenBack(l, r).slots, Base(l, r) + 1, completed)
  {
    var slot, base := r.freed % l.slotCount, Base(l, r);
    GivesBackItsTurn(l, r, completed, submitted);
    BaseSlot(l, r.freed);
    RowHolds(l, r.memory, base, completed, arrived);
    TurnsGivenBack(l, r.slots, base, completed, submitted);
  }

  lemma RowHolds(l: Layout, memory: seq<seq<int>>, base: nat, completed: nat, arrived: set<nat>)
    requires Sound(l) && Shaped(l, memory) && Landed(l, memory, base, completed, arrived) && base < Turn(l, completed)
    ensures Holds(l, memory[SlotFor(l, base)], base, arrived)
  {
    forall k: nat | Turn(l, k) == base
      ensures memory[SlotFor(l, base)][Place(l, k)] == k <==> k in arrived
    {
      if completed <= k { TurnMonotone(l, completed, k); }
      assert Cell(l, memory, k) == memory[SlotFor(l, base)][Place(l, k)];
    }
  }

  lemma TurnsGivenBack(l: Layout, slots: seq<Slot>, base: nat, completed: nat, submitted: nat)
    requires Sound(l) && Turns(l, slots, base, completed) && Room(l, submitted, base) && completed <= submitted
    ensures Turns(l, slots[SlotFor(l, base) := Empty], base + 1, completed)
    ensures Ready(l, slots, base, completed) ==> Ready(l, slots[SlotFor(l, base) := Empty], base + 1, completed)
  {
    var left := slots[SlotFor(l, base) := Empty];
    if Ready(l, slots, base, completed) {
      forall turn: nat | base + 1 <= turn < Turn(l, completed) && SlotFor(l, turn) < |left|
        ensures left[SlotFor(l, turn)] == Full(turn)
      {
        LastOfTurn(l, turn, completed);
        TurnMonotone(l, completed - 1, submitted - 1);
        if SlotFor(l, turn) == SlotFor(l, base) { SlotRepeats(l, base, turn); }
      }
    }
  }

  /** Waiting for the slot to be empty is enough to keep a ring's distance. */
  lemma SecuredIsRoom(l: Layout, slots: seq<Slot>, base: nat, completed: nat, submitted: nat)
    requires Sound(l) && |slots| == l.slotCount && Ready(l, slots, base, completed)
    requires completed > 0 && submitted + 1 == completed + l.transferCount && Room(l, submitted, base)
    requires Place(l, submitted) == 0 ==> slots[SlotFor(l, Turn(l, submitted))] == Empty
    ensures Room(l, submitted + 1, base)
  {
    AroundOnce(l, completed - 1);
    TurnMonotone(l, completed - 1, completed);
    if Place(l, submitted) == 0 {
      if base + l.slotCount <= Turn(l, submitted) {
        SlotRepeats(l, Turn(l, submitted) - l.slotCount, Turn(l, submitted));
      }
    } else {
      SameTurn(l, submitted);
    }
  }

  lemma SameTurn(l: Layout, k: nat)
    requires Sound(l) && Place(l, k) != 0
    ensures k > 0 && Turn(l, k - 1) == Turn(l, k)
  {
    FirstTurn(l);
    NextPiece(l, k - 1);
  }

  // ----- The transfers under each event -----

  lemma SubmittedKeepsInv(l: Layout, s: State, accepted: bool)
    requires Sound(l) && Inv(l, s) && Enabled(l, s, Submit(accepted))
    ensures Inv(l, Submitted(l, s, accepted))
  {
    hide Turns, Due, Landed, Taken, Stale, Shaped, Ready, SlotFor, Turn, Place;
    if accepted {
      AroundOnce(l, 0);
      FirstTurnIsZero(l);
      TurnMonotone(l, s.x.submitted, l.transferCount);
    }
  }

  /** The transfer at the head of the queue carries the next piece. */
  lemma HeadIsNext(l: Layout, s: State)
    requires Sound(l) && Inv(l, s) && s.x.pending != []
    ensures s.x.pending[0] < |s.x.entries| && s.x.completed < s.x.submitted
    ensures var e := s.x.entries[s.x.pending[0]];
            e.number == s.x.completed && Aimed(l, e) && e.slot < |s.ring.slots|
    ensures s.x.completed !in s.x.arrived
    ensures Filled(l, s.ring, s.x.completed).memory
         == Written(s.ring.memory, s.x.entries[s.x.pending[0]].slot, s.x.entries[s.x.pending[0]].index, s.x.completed)
  {
  }

  /** Taking the head off the queue; the entry may be re-aimed at the piece after the last. */
  lemma QueueMovesOn(l: Layout, x: Transfers, again: bool)
    requires Sound(l) && AllAimed(l, x.entries) && InOrder(x) && x.pending != []
    ensures var e := x.entries[x.pending[0]];
            var entries := if again then x.entries[x.pending[0] := Again(l, e)] else x.entries;
            var y := x.(entries := entries, pending := x.pending[1..], completed := x.completed + 1);
            AllAimed(l, y.entries) && InOrder(y)
  {
    var e := x.entries[x.pending[0]];
    AroundOnce(l, e.number);
    SlotAhead(l, Turn(l, e.number), l.slotSpan);
  }

  function Again(l: Layout, e: Entry): Entry
    requires Sound(l)
  {
    e.(slot := (e.slot + l.slotSpan) % l.slotCount, number := e.number + l.transferCount)
  }

  lemma FailedCompletionKeepsInv(l: Layout, s: State, stop: bool, abort: bool, ringAborted: bool)
    requires Sound(l) && Inv(l, s) && Enabled(l, s, Completion(false, stop, abort, ringAborted))
    ensures Inv(l, Completed(l, s, false, stop, abort, ringAborted))
  {
    hide Turns, Due, Landed, Taken, Stale, Shaped, Ready, SlotFor, Turn, Place, Room;
    HeadIsNext(l, s);
    QueueMovesOn(l, s.x, false);
    FailureKeepsRing(l, s.ring, s.x.completed, s.x.submitted, s.x.arrived);
  }

  /** What HandOver leaves, for the piece k that has just arrived. */
  lemma HandOverKeepsRing(l: Layout, e: Entry, r: Ring, c: Control, k: nat, submitted: nat, arrived: set<nat>,
                          stop: bool, ringAborted: bool)
    requires Sound(l) && e.number == k && Aimed(l, e) && k < submitted
    requires RingInv(l, r, k + 1, submitted, arrived) && Turns(l, r.slots, Base(l, r), k) && Due(l, r.freed, k)
    requires c.discarded <= k
    ensures var (slots, c') := HandOver(l, e, r.slots, c, stop, ringAborted, Turn(l, k));
            && RingInv(l, r.(slots := slots), k + 1, submitted, arrived)
            && c' == c.(discarded := c'.discarded, complete := c'.complete, failed := c'.failed)
            && c'.discarded == (if c.discarded < l.discardTransfers then c.discarded + 1 else c.discarded)
            && (c.failed ==> c'.failed) && (c.complete ==> c'.complete)
  {
    hide RingInv, Turn, SlotFor, Place;
    if c.discarded >= l.discardTransfers && e.last {
      DiscardTurns(l, k);
      MarkingKeepsRing(l, r, k, submitted, arrived);
    }
    SameSlots(r);
  }

  lemma SameSlots(r: Ring)
    ensures r.(slots := r.slots) == r
  {
  }

  /** It never answers overflow, and a run without failure keeps every turn due in its slot. */
  lemma HandOverIsReady(l: Layout, e: Entry, slots: seq<Slot>, base: nat, freed: nat, c: Control, k: nat, submitted: nat,
                        stop: bool, ringAborted: bool)
    requires Sound(l) && e.number == k && Aimed(l, e) && k < submitted && base == l.discardSlots + freed
    requires Turns(l, slots, base, k) && Room(l, submitted, base) && Ready(l, slots, base, k) && Due(l, freed, k)
    requires c.discarded == Min(k, l.discardTransfers)
    ensures var (slots', c') := HandOver(l, e, slots, c, stop, ringAborted, Turn(l, k));
            && (!c'.failed ==> Ready(l, slots', base, k + 1))
            && (!c.failed && !ringAborted ==> !c'.failed)
  {
    hide Turn, SlotFor, Place, Turns, Ready;
    SlotIsEmpty(l, slots, base, k, submitted);
    NextPiece(l, k);
    if c.discarded < l.discardTransfers {
      DiscardTurns(l, k + 1);
      NoneDue(l, slots, base, k + 1);
    } else {
      DiscardTurns(l, k);
      if e.last {
        TurnsShape(l, slots, base, k);
        MarkingIsReady(l, slots, base, k, submitted);
      } else {
        SameReady(l, slots, base, k, k + 1);
      }
    }
  }

  lemma NoneDue(l: Layout, slots: seq<Slot>, base: nat, completed: nat)
    requires Sound(l) && Turn(l, completed) <= base
    ensures Ready(l, slots, base, completed)
  {
  }

  lemma SameReady(l: Layout, slots: seq<Slot>, base: nat, a: nat, b: nat)
    requires Sound(l) && Turn(l, a) == Turn(l, b) && Ready(l, slots, base, a)
    ensures Ready(l, slots, base, b)
  {
  }

  lemma ArrivalKeepsInv(l: Layout, s: State, stop: bool, abort: bool, ringAborted: bool)
    requires Sound(l) && Inv(l, s) && Enabled(l, s, Completion(true, stop, abort, ringAborted))
    ensures Inv(l, Completed(l, s, true, stop, abort, ringAborted))
  {
    hide Turns, Due, Landed, Taken, Stale, Shaped, Ready, SlotFor, Turn, Place, Room, HandOver, Aimed;
    var k := s.x.completed;
    var e := s.x.entries[s.x.pending[0]];
    HeadIsNext(l, s);
    QueueMovesOn(l, s.x, false);
    QueueMovesOn(l, s.x, true);
    var arrived := s.x.arrived + {k};
    ArrivalKeepsRing(l, s.ring, k, s.x.submitted, s.x.arrived);
    var r := Filled(l, s.ring, k);
    HandOverKeepsRing(l, e, r, s.c, k, s.x.submitted, arrived, stop, ringAborted);
    if !s.c.failed {
      HandOverIsReady(l, e, r.slots, Base(l, r), r.freed, s.c, k, s.x.submitted, stop, ringAborted);
    }
  }

  lemma ResubmitKeepsInv(l: Layout, s: State, secured: bool, accepted: bool)
    requires Sound(l) && Inv(l, s) && Enabled(l, s, Resubmit(secured, accepted))
    ensures Inv(l, Resubmitted(l, s, secured, accepted))
  {
    hide Turns, Due, Landed, Taken, Stale, Shaped, Ready, SlotFor, Turn, Place, Room;
    var e := s.x.entries[s.c.waiting.id];
    if (e.index != 0 || secured) && accepted {
      TurnsShape(l, s.ring.slots, Base(l, s.ring), s.x.completed);
      SecuredIsRoom(l, s.ring.slots, Base(l, s.ring), s.x.completed, s.x.submitted);
    }
  }

  lemma TurnsShape(l: Layout, slots: seq<Slot>, base: nat, completed: nat)
    requires Sound(l) && Turns(l, slots, base, completed)
    ensures |slots| == l.slotCount
  {
  }

  lemma GiveBackKeepsInv(l: Layout, s: State)
    requires Sound(l) && Inv(l, s) && Enabled(l, s, GiveBack)
    ensures Inv(l, Next(l, s, GiveBack))
  {
    hide Turns, Due, Landed, Taken, Stale, Shaped, Ready, SlotFor, Turn, Place, Room;
    GivingBackKeepsRing(l, s.ring, s.x.completed, s.x.submitted, s.x.arrived);
  }

  lemma NextKeepsInv(l: Layout, s: State, event: Event)
    requires Sound(l) && Inv(l, s) && Enabled(l, s, event)
    ensures Inv(l, Next(l, s, event))
  {
    match event
    case Submit(accepted) => SubmittedKeepsInv(l, s, accepted);
    case Completion(arrived, stop, abort, ringAborted) =>
      if arrived { ArrivalKeepsInv(l, s, stop, abort, ringAborted); }
      else { FailedCompletionKeepsInv(l, s, stop, abort, ringAborted); }
    case Resubmit(secured, accepted) => ResubmitKeepsInv(l, s, secured, accepted);
    case GiveBack => GiveBackKeepsInv(l, s);
    case AbortSeen =>
  }

  // ----- What follows -----

  /** states[0] --events[0]--> states[1] --events[1]--> ... */
  predicate IsRun(l: Layout, states: seq<State>, events: seq<Event>)
    requires Sound(l)
  {
    && |states| == |events| + 1 && states[0] == Blank(l)
    && forall i :: 0 <= i < |events| ==> Enabled(l, states[i], events[i]) && states[i + 1] == Next(l, states[i], events[i])
  }

  lemma {:induction false} RunKeepsInv(l: Layout, states: seq<State>, events: seq<Event>, i: nat)
    requires Sound(l) && IsRun(l, states, events) && i < |states|
    ensures Inv(l, states[i])
  {
    if i == 0 {
      BlankInv(l);
    } else {
      RunKeepsInv(l, states, events, i - 1);
      NextKeepsInv(l, states[i - 1], events[i - 1]);
    }
  }

  /** Every transfer in flight is aimed where its piece belongs. */
  lemma AimedByNumber(l: Layout, s: State, i: nat)
    requires Sound(l) && Inv(l, s) && i < |s.x.pending|
    ensures s.x.pending[i] < |s.x.entries|
    ensures var e, k := s.x.entries[s.x.pending[i]], s.x.completed + i;
            && e.slot == (l.firstSlotIndex + k / l.transfersPerSlot) % l.slotCount
            && e.index == k % l.transfersPerSlot
  {
  }

  /** No two transfers in flight write to the same place. */
  lemma NoOverlap(l: Layout, s: State, i: nat, j: nat)
    requires Sound(l) && Inv(l, s) && i < j < |s.x.pending|
    ensures s.x.pending[i] < |s.x.entries| && s.x.pending[j] < |s.x.entries|
    ensures var a, b := s.x.entries[s.x.pending[i]], s.x.entries[s.x.pending[j]];
            a.slot != b.slot || a.index != b.index
  {
    var p, q := s.x.completed + i, s.x.completed + j;
    TurnMonotone(l, p, q);
    AroundOnce(l, p);
    TurnMonotone(l, q, p + l.transferCount);
    var a, b := s.x.entries[s.x.pending[i]], s.x.entries[s.x.pending[j]];
    assert Aimed(l, a) && Aimed(l, b);
    if a.slot == b.slot && a.index == b.index { CellsDistinct(l, p, q); }
  }

  /** And none writes to a slot the consumer has not given back. */
  lemma NeverIntoAFullSlot(l: Layout, s: State, i: nat)
    requires Sound(l) && Inv(l, s) && i < |s.x.pending|
    ensures s.x.pending[i] < |s.x.entries| && s.x.entries[s.x.pending[i]].slot < |s.ring.slots|
    ensures s.ring.slots[s.x.entries[s.x.pending[i]].slot] == Empty
  {
    var k, slot := s.x.completed + i, s.x.entries[s.x.pending[i]].slot;
    assert Aimed(l, s.x.entries[s.x.pending[i]]);
    TurnMonotone(l, s.x.completed, k);
    TurnMonotone(l, k, s.x.submitted - 1);
    if s.ring.slots[slot].Full? { SlotRepeats(l, s.ring.slots[slot].turn, Turn(l, k)); }
  }

  /** Handing a slot over never finds it still full. */
  lemma OverflowUnreachable(l: Layout, s: State, stop: bool)
    requires Sound(l) && Inv(l, s) && Enabled(l, s, Completion(true, stop, false, false)) && !s.c.failed
    ensures !Completed(l, s, true, stop, false, false).c.failed
  {
    hide Turns, Due, Landed, Taken, Stale, Shaped, Ready, SlotFor, Turn, Place, Room, HandOver, Aimed;
    var e := s.x.entries[s.x.pending[0]];
    HeadIsNext(l, s);
    HandOverIsReady(l, e, s.ring.slots, Base(l, s.ring), s.ring.freed, s.c, s.x.completed, s.x.submitted, stop, false);
  }

  /** A run nothing has gone wrong in delivers the stream after the discard, in
      order, every buffer whole. */
  lemma DeliversTheStream(l: Layout, states: seq<State>, events: seq<Event>, at: nat, j: nat, i: nat)
    requires Sound(l) && IsRun(l, states, events) && at < |states| && !states[at].c.failed
    requires j < |states[at].ring.taken| && i < l.transfersPerSlot
    ensures |states[at].ring.taken[j]| == l.transfersPerSlot
    ensures states[at].ring.taken[j][i] == l.discardTransfers + j * l.transfersPerSlot + i
  {
    hide Turns, Landed, Stale, Shaped, Ready, Turn, Place, Room, AllAimed, InOrder, Phase;
    RunKeepsInv(l, states, events, at);
    var s := states[at];
    var k := PieceAt(l, l.discardSlots + j, i);
    assert Holds(l, s.ring.taken[j], l.discardSlots + j, s.x.arrived);
    TurnBefore(l, k, s.x.completed);
    Distributes(l.discardSlots, j, l.transfersPerSlot);
  }

  lemma Distributes(a: nat, b: nat, d: nat)
    ensures (a + b) * d == a * d + b * d
  {
  }

  lemma TurnBefore(l: Layout, k: nat, completed: nat)
    requires Sound(l) && Turn(l, k) < Turn(l, completed)
    ensures k < completed
  {
    if completed <= k { TurnMonotone(l, completed, k); }
  }

  ghost predicate Whole(l: Layout, row: seq<int>, turn: nat)
    requires Sound(l)
  {
    |row| == l.transfersPerSlot && forall k: nat :: Turn(l, k) == turn ==> row[Place(l, k)] == k
  }

  /** However the run goes, a buffer the consumer got is whole exactly when none
      of the transfers of its turn failed. */
  lemma WholeUnlessFailed(l: Layout, states: seq<State>, events: seq<Event>, at: nat, j: nat)
    requires Sound(l) && IsRun(l, states, events) && at < |states| && j < |states[at].ring.taken|
    ensures Whole(l, states[at].ring.taken[j], l.discardSlots + j)
       <==> (forall k: nat :: Turn(l, k) == l.discardSlots + j ==> k in states[at].x.arrived)
  {
    RunKeepsInv(l, states, events, at);
    assert Holds(l, states[at].ring.taken[j], l.discardSlots + j, states[at].x.arrived);
  }

  /** After a failure the transfers behind it still complete, and OnCompletion does
      not look at the failure before it marks a slot: a turn whose first transfer
      failed is handed over when its last one arrives. */
  lemma HandedOverWithAHole() returns (l: Layout, states: seq<State>, events: seq<Event>)
    ensures Sound(l) && IsRun(l, states, events) && states[|events|].c.failed
    ensures |states[|events|].ring.taken| == 1 && !Whole(l, states[|events|].ring.taken[0], l.discardSlots)
  {
    l := Layout(4, 1, 2, 1, 2, 0, 0, 0);
    var one, arrives := Submit(true), Completion(true, false, false, false);
    var fails := Completion(false, false, false, false);
    var s0 := Blank(l);
    var s1 := Submitted(l, s0, true);
    var s2 := Submitted(l, s1, true);
    var s3 := Completed(l, s2, false, false, false, false);
    HoleArrives(l, s3);
    var s4 := Completed(l, s3, true, false, false, false);
    var s5 := s4.(ring := GivenBack(l, s4.ring));
    states, events := [s0, s1, s2, s3, s4, s5], [one, one, fails, arrives, GiveBack];
    assert Place(l, 0) == 0 && Turn(l, 0) == 0;
    assert s5.ring.taken[0][0] == -1;
  }

  lemma HoleArrives(l: Layout, s: State)
    requires l == Layout(4, 1, 2, 1, 2, 0, 0, 0) && s.x.pending == [1] && s.x.completed == 1
    requires |s.x.entries| == 2 && s.x.entries[1] == Prepared(l, 1) && s.c == Control(false, 0, false, true, Nobody)
    requires s.ring == Blank(l).ring
    ensures var t := Completed(l, s, true, false, false, false);
            && t.ring.slots == [Full(0), Empty, Empty, Empty] && t.c.failed && t.c.waiting == Nobody
            && t.ring.memory == [[-1, 1], [-1, -1], [-1, -1], [-1, -1]] && t.ring.freed == 0
  {
    assert Prepared(l, 1) == Entry(0, 1, true, 1);
    var row := Repeat(-1, 2);
    assert row == [-1, -1];
    assert s.ring.memory == [row, row, row, row];
    assert Written(s.ring.memory, 0, 1, 1) == [row[1 := 1], row, row, row];
    assert row[1 := 1] == [-1, 1];
  }

  /** Once the run has failed or been told to end, nothing new goes on the wire, so
      reaping the transfers in flight comes to an end. */
  lemma NothingResubmitted(l: Layout, s: State, event: Event)
    requires Sound(l) && Inv(l, s) && Enabled(l, s, event) && (s.c.failed || s.c.complete)
    ensures var t := Next(l, s, event);
            && (t.c.failed || t.c.complete) && t.x.submitted == s.x.submitted
            && |t.x.pending| == |s.x.pending| - (if event.Completion? then 1 else 0)
  {
    hide RingInv, Ready, Turns;
  }

  /** A transfer that arrives in a run in which nothing has gone wrong: the run is
      complete if and only if a stop has been asked for and the transfer is the last of
      its slot; otherwise the same transfer is to be submitted again. */
  lemma ArrivalGoesOn(l: Layout, s: State, stop: bool)
    requires Sound(l) && Inv(l, s) && Enabled(l, s, Completion(true, stop, false, false)) && !s.c.failed && !s.c.complete
    ensures var t := Next(l, s, Completion(true, stop, false, false));
            && !t.c.failed && (t.c.complete <==> stop && (s.x.completed + 1) % l.transfersPerSlot == 0)
            && t.c.waiting == (if t.c.complete then Nobody else Held(s.x.pending[0]))
            && t.x.pending == s.x.pending[1..] && t.x.submitted == s.x.submitted
  {
    hide Turns, Due, Landed, Taken, Stale, Shaped, Ready, Room, RingInv;
    OverflowUnreachable(l, s, stop);
    HeadIsNext(l, s);
    NextPiece(l, s.x.completed);
    assert Aimed(l, s.x.entries[s.x.pending[0]]);
    hide SlotFor;
  }

  /** And it is submitted, unless its slot is lost or libusb refuses. */
  lemma ResubmissionGoesOn(l: Layout, s: State)
    requires Sound(l) && Inv(l, s) && Enabled(l, s, Resubmit(true, true))
    ensures var t := Next(l, s, Resubmit(true, true));
            && t.c == s.c.(waiting := Nobody) && t.x.submitted == s.x.submitted + 1
            && t.x.pending == s.x.pending + [s.c.waiting.id] && |t.x.pending| == l.transferCount
  {
    hide Turns, Due, Landed, Taken, Stale, Shaped, Ready, Room, RingInv, SlotFor;
  }

  function Completions(events: seq<Event>): nat
  {
    if events == [] then 0
    else Completions(events[..|events| - 1]) + if events[|events| - 1].Completion? then 1 else 0
  }

  /** Once a run is complete or has failed it drains: nothing more is submitted, there
      are as many completions left as transfers in flight, and each can come. */
  lemma {:induction false} RunDrains(l: Layout, states: seq<State>, events: seq<Event>, at: nat, i: nat)
    requires Sound(l) && IsRun(l, states, events) && at <= i < |states| && (states[at].c.failed || states[at].c.complete)
    ensures (states[i].c.failed || states[i].c.complete) && states[i].x.submitted == states[at].x.submitted
    ensures Completions(events[at..i]) + |states[i].x.pending| == |states[at].x.pending|
    ensures states[i].x.pending != [] ==> Enabled(l, states[i], Completion(false, false, false, false))
    decreases i
  {
    hide RingInv, Next;
    RunKeepsInv(l, states, events, i);
    if i == at {
      assert events[at..i] == [];
    } else {
      RunDrains(l, states, events, at, i - 1);
      RunKeepsInv(l, states, events, i - 1);
      NothingResubmitted(l, states[i - 1], events[i - 1]);
      assert events[at..i][..|events[at..i]| - 1] == events[at..i - 1];
    }
  }
}
