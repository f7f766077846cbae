/**
  The triple buffer that publishes raw-sample snapshots: one writer, one reader,
  three buffers, and one atomic word that names the buffer in between.

  Every move is one atomic operation, the copy of one byte, or one plain
  assignment, so that the copying and the assignments after an exchange can be
  interleaved with anything the other side does.
 */
module SnapshotPublisher {

  const FRESH_FLAG: nat := 4
  const INDEX_MASK: nat := 3

  /** The low bits of the handover word name a buffer, the flag says it is unread. */
  function IndexOf(word: nat): nat { word % (INDEX_MASK + 1) }
  predicate IsFresh(word: nat) { (word / FRESH_FLAG) % 2 == 1 }

  datatype Buffer = Buffer(data: seq<int>, used: nat, generation: nat)

  datatype Writer =
    | WIdle
    | WCopy(wire: seq<int>, at: nat)
    | WCount(wire: seq<int>)
    | WNumber(wire: seq<int>) | WStoreNumber(wire: seq<int>, number: nat)
    | WExchange(wire: seq<int>)
    | WAssign(previous: nat)

  datatype Reader =
    | RIdle
    | RExchange
    | RAssign(previous: nat)
    | RCopy(out: seq<int>)
    | RNumber(out: seq<int>)

  datatype Delivery = Delivery(generation: nat, content: seq<int>)

  datatype State = State(
    buffers: seq<Buffer>, writeIndex: nat, readIndex: nat, ready: nat, generation: nat,
    writer: Writer, reader: Reader,
    published: seq<seq<int>>,     // history: the snapshots handed over, generation g at g - 1
    taken: nat,                   // history: how many had been handed over at the reader's last exchange
    delivered: seq<Delivery>)     // history: what TryRead has returned

  datatype Move = Publish(wire: seq<int>) | WriterStep | TryRead | ReaderStep

  function Initial(bytes: seq<int>): State
  {
    var empty := Buffer(bytes, 0, 0);
    State([empty, empty, empty], 0, 1, 2, 0, WIdle, RIdle, [], 0, [])
  }

  function SnapshotBytes(s: State): nat
    requires |s.buffers| == 3
  {
    |s.buffers[0].data|
  }

  /** How much of the wire data a snapshot keeps. */
  function Copied(s: State, wire: seq<int>): nat
    requires |s.buffers| == 3
  {
    if |wire| < SnapshotBytes(s) then |wire| else SnapshotBytes(s)
  }

  predicate WellFormed(s: State)
  {
    && |s.buffers| == 3
    && (forall b :: 0 <= b < 3 ==> |s.buffers[b].data| == SnapshotBytes(s))
    && s.writeIndex < 3 && s.readIndex < 3
    && (s.writer.WCopy? ==> s.writer.at <= Copied(s, s.writer.wire))
    && (s.reader.RCopy? ==> |s.reader.out| <= s.buffers[s.readIndex].used <= SnapshotBytes(s))
  }

  predicate Enabled(s: State, m: Move)
  {
    match m
    case Publish(_) => s.writer.WIdle?
    case WriterStep => !s.writer.WIdle?
    case TryRead => s.reader.RIdle?
    case ReaderStep => !s.reader.RIdle?
  }

  function Next(s: State, m: Move): State
    requires WellFormed(s) && Enabled(s, m)
  {
    match m
    case Publish(wire) => s.(writer := WCopy(wire, 0))
    case WriterStep => WriterNext(s)
    case TryRead => s.(reader := if IsFresh(s.ready) then RExchange else RIdle)
    case ReaderStep => ReaderNext(s)
  }

  function WriterNext(s: State): State
    requires WellFormed(s) && !s.writer.WIdle?
  {
    var w := s.writeIndex;
    var target := s.buffers[w];
    match s.writer
    case WCopy(wire, at) =>
      if at == Copied(s, wire) then s.(writer := WCount(wire))
      else s.(buffers := s.buffers[w := target.(data := target.data[at := wire[at]])], writer := WCopy(wire, at + 1))
    case WCount(wire) => s.(buffers := s.buffers[w := target.(used := Copied(s, wire))], writer := WNumber(wire))
    case WNumber(wire) => s.(generation := s.generation + 1, writer := WStoreNumber(wire, s.generation + 1))
    case WStoreNumber(wire, number) =>
      s.(buffers := s.buffers[w := target.(generation := number)], writer := WExchange(wire))
    case WExchange(wire) =>
      s.(ready := w + FRESH_FLAG, writer := WAssign(s.ready), published := s.published + [wire[..Copied(s, wire)]])
    case WAssign(previous) =>
      if IndexOf(previous) < 3 then s.(writeIndex := IndexOf(previous), writer := WIdle) else s
  }

  function ReaderNext(s: State): State
    requires WellFormed(s) && !s.reader.RIdle?
  {
    var source := s.buffers[s.readIndex];
    match s.reader
    case RExchange => s.(ready := s.readIndex, reader := RAssign(s.ready), taken := |s.published|)
    case RAssign(previous) =>
      if IndexOf(previous) < 3 then s.(readIndex := IndexOf(previous), reader := RCopy([])) else s
    case RCopy(out) =>
      if |out| == source.used then s.(reader := RNumber(out))
      else s.(reader := RCopy(out + [source.data[|out|]]))
    case RNumber(out) =>
      s.(reader := RIdle, delivered := s.delivered + [Delivery(source.generation, out)])
  }

  // ----- The invariant -----

  /** The buffer each side holds, counting an exchange not yet assigned. */
  function WriterHolds(s: State): nat
  {
    if s.writer.WAssign? then IndexOf(s.writer.previous) else s.writeIndex
  }

  function ReaderHolds(s: State): nat
  {
    if s.reader.RAssign? then IndexOf(s.reader.previous) else s.readIndex
  }

  /** The two sides and the handover word name three different buffers. */
  predicate Apart(s: State)
  {
    && WriterHolds(s) < 3 && ReaderHolds(s) < 3 && IndexOf(s.ready) < 3
    && WriterHolds(s) != ReaderHolds(s)
    && WriterHolds(s) != IndexOf(s.ready)
    && ReaderHolds(s) != IndexOf(s.ready)
  }

  /** The buffer holds, complete, the snapshot of generation g. */
  predicate Holds(buffer: Buffer, published: seq<seq<int>>, g: nat)
  {
    && 0 < g <= |published|
    && buffer.generation == g
    && buffer.used <= |buffer.data|
    && buffer.data[..buffer.used] == published[g - 1]
  }

  predicate WriterInv(s: State)
    requires WellFormed(s) && Apart(s)
  {
    var target := s.buffers[s.writeIndex];
    match s.writer
    case WIdle => s.generation == |s.published|
    case WCopy(wire, at) => s.generation == |s.published| && target.data[..at] == wire[..at]
    case WCount(wire) => s.generation == |s.published| && Filled(target, s, wire)
    case WNumber(wire) => s.generation == |s.published| && Filled(target, s, wire) && target.used == Copied(s, wire)
    case WStoreNumber(wire, number) =>
      && s.generation == number == |s.published| + 1
      && Filled(target, s, wire) && target.used == Copied(s, wire)
    case WExchange(wire) =>
      && s.generation == target.generation == |s.published| + 1
      && Filled(target, s, wire) && target.used == Copied(s, wire)
    case WAssign(_) => s.generation == |s.published|
  }

  predicate Filled(target: Buffer, s: State, wire: seq<int>)
    requires WellFormed(s)
  {
    |target.data| == SnapshotBytes(s) && target.data[..Copied(s, wire)] == wire[..Copied(s, wire)]
  }

  predicate ReaderInv(s: State)
    requires WellFormed(s) && Apart(s)
  {
    && s.taken <= |s.published|
    && (s.reader.RExchange? ==> IsFresh(s.ready))
    && (s.reader.RAssign? || s.reader.RCopy? || s.reader.RNumber? ==>
          Holds(s.buffers[ReaderHolds(s)], s.published, s.taken))
    && (s.reader.RCopy? ==> s.reader.out == s.published[s.taken - 1][..|s.reader.out|])
    && (s.reader.RNumber? ==> s.reader.out == s.published[s.taken - 1])
  }

  /** An unread buffer is the newest, and newer than anything the reader took. */
  predicate ReadyInv(s: State)
    requires WellFormed(s) && Apart(s)
  {
    IsFresh(s.ready) ==> s.taken < |s.published| && Holds(s.buffers[IndexOf(s.ready)], s.published, |s.published|)
  }

  predicate DeliveredInv(s: State)
  {
    && (forall i :: 0 <= i < |s.delivered| ==>
          && 0 < s.delivered[i].generation <= s.taken <= |s.published|
          && s.delivered[i].content == s.published[s.delivered[i].generation - 1])
    && (forall i, j :: 0 <= i < j < |s.delivered| ==> s.delivered[i].generation < s.delivered[j].generation)
    && (s.reader.RAssign? || s.reader.RCopy? || s.reader.RNumber? ==>
          forall i :: 0 <= i < |s.delivered| ==> s.delivered[i].generation < s.taken)
  }

  predicate Inv(s: State)
  {
    && WellFormed(s)
    && Apart(s)
    && WriterInv(s)
    && ReaderInv(s)
    && ReadyInv(s)
    && DeliveredInv(s)
  }

  lemma InitialInv(bytes: seq<int>)
    ensures Inv(Initial(bytes))
  {
  }

  lemma CopyKeepsInv(s: State)
    requires Inv(s) && s.writer.WCopy?
    ensures Inv(WriterNext(s))
  {
    var WCopy(wire, at) := s.writer;
    if at < Copied(s, wire) {
      var t := WriterNext(s);
      assert wire[..at + 1] == wire[..at] + [wire[at]];
      assert t.buffers[s.writeIndex].data[..at + 1] == s.buffers[s.writeIndex].data[..at] + [wire[at]];
      OtherBuffersKeep(s, t);
    }
  }

  lemma LabelKeepsInv(s: State)
    requires Inv(s) && (s.writer.WCount? || s.writer.WNumber? || s.writer.WStoreNumber?)
    ensures Inv(WriterNext(s))
  {
    OtherBuffersKeep(s, WriterNext(s));
  }

  /** The writer changed nothing but its own buffer. */
  lemma OtherBuffersKeep(s: State, t: State)
    requires Inv(s) && WellFormed(t) && !s.writer.WAssign? && !t.writer.WAssign?
    requires t == s.(buffers := t.buffers, writer := t.writer, generation := t.generation)
    requires t.buffers == s.buffers[s.writeIndex := t.buffers[s.writeIndex]]
    ensures Apart(t) && ReaderInv(t) && ReadyInv(t) && DeliveredInv(t)
  {
  }

  lemma HandOverKeepsInv(s: State)
    requires Inv(s) && (s.writer.WExchange? || s.writer.WAssign?)
    ensures Inv(WriterNext(s))
  {
    if s.writer.WExchange? {
      var wire := s.writer.wire;
      assert Holds(s.buffers[s.writeIndex], s.published + [wire[..Copied(s, wire)]], |s.published| + 1);
    }
  }

  lemma WriterKeepsInv(s: State)
    requires Inv(s) && !s.writer.WIdle?
    ensures Inv(WriterNext(s))
  {
    if s.writer.WCopy? { CopyKeepsInv(s); }
    else if s.writer.WExchange? || s.writer.WAssign? { HandOverKeepsInv(s); }
    else { LabelKeepsInv(s); }
  }

  lemma TakeKeepsInv(s: State)
    requires Inv(s) && (s.reader.RExchange? || s.reader.RAssign?)
    ensures Inv(ReaderNext(s))
  {
  }

  lemma ReadOutKeepsInv(s: State)
    requires Inv(s) && s.reader.RCopy?
    ensures Inv(ReaderNext(s))
  {
    var out := s.reader.out;
    var source := s.buffers[s.readIndex];
    if |out| < source.used {
      assert source.data[..source.used][|out|] == s.published[s.taken - 1][|out|];
    }
  }

  lemma DeliverKeepsInv(s: State)
    requires Inv(s) && s.reader.RNumber?
    ensures Inv(ReaderNext(s))
  {
  }

  lemma ReaderKeepsInv(s: State)
    requires Inv(s) && !s.reader.RIdle?
    ensures Inv(ReaderNext(s))
  {
    if s.reader.RCopy? { ReadOutKeepsInv(s); }
    else if s.reader.RNumber? { DeliverKeepsInv(s); }
    else { TakeKeepsInv(s); }
  }

  lemma NextKeepsInv(s: State, m: Move)
    requires Inv(s) && Enabled(s, m)
    ensures Inv(Next(s, m))
  {
    match m
    case WriterStep => WriterKeepsInv(s);
    case ReaderStep => ReaderKeepsInv(s);
    case _ =>
  }

  // ----- Runs -----

  predicate IsRun(states: seq<State>, moves: seq<Move>)
  {
    && |states| == |moves| + 1
    && forall i :: 0 <= i < |moves| ==>
         WellFormed(states[i]) && Enabled(states[i], moves[i]) && states[i + 1] == Next(states[i], moves[i])
  }

  lemma {:induction false} RunKeepsInv(states: seq<State>, moves: seq<Move>, bytes: seq<int>, i: nat)
    requires IsRun(states, moves) && states[0] == Initial(bytes) && i < |states|
    ensures Inv(states[i])
  {
    if i == 0 {
      InitialInv(bytes);
    } else {
      RunKeepsInv(states, moves, bytes, i - 1);
      NextKeepsInv(states[i - 1], moves[i - 1]);
    }
  }

  /** Outside the assignments that follow an exchange, the three indices are a
      permutation of the three buffers. */
  lemma IndicesArePermutation(states: seq<State>, moves: seq<Move>, bytes: seq<int>, i: nat)
    requires IsRun(states, moves) && states[0] == Initial(bytes) && i < |states|
    requires !states[i].writer.WAssign? && !states[i].reader.RAssign?
    ensures {states[i].writeIndex, states[i].readIndex, IndexOf(states[i].ready)} == {0, 1, 2}
  {
    RunKeepsInv(states, moves, bytes, i);
  }

  /** While the reader is copying, no move changes the buffer it copies from. */
  lemma ReadBufferUntouched(s: State, m: Move)
    requires Inv(s) && Enabled(s, m) && (s.reader.RCopy? || s.reader.RNumber?)
    ensures Next(s, m).buffers[s.readIndex] == s.buffers[s.readIndex]
  {
  }

  /** The reader's exchange takes the newest snapshot handed over so far. */
  lemma ExchangeTakesNewest(s: State)
    requires Inv(s) && s.reader.RExchange?
    ensures var t := ReaderNext(s);
            && t.taken == |s.published| > s.taken
            && Holds(t.buffers[ReaderHolds(t)], s.published, |s.published|)
  {
  }

  /** Everything TryRead returns is a complete snapshot as it was published. */
  lemma DeliveriesAreGenuine(states: seq<State>, moves: seq<Move>, bytes: seq<int>, i: nat)
    requires IsRun(states, moves) && states[0] == Initial(bytes)
    requires i < |states[|moves|].delivered|
    ensures var s := states[|moves|]; var given := s.delivered[i];
            && 0 < given.generation <= |s.published|
            && given.content == s.published[given.generation - 1]
  {
    RunKeepsInv(states, moves, bytes, |moves|);
  }

  /** No snapshot is returned twice, nor an older one after a newer one. */
  lemma GenerationsIncrease(states: seq<State>, moves: seq<Move>, bytes: seq<int>, i: nat, j: nat)
    requires IsRun(states, moves) && states[0] == Initial(bytes)
    requires i < j < |states[|moves|].delivered|
    ensures states[|moves|].delivered[i].generation < states[|moves|].delivered[j].generation
  {
    RunKeepsInv(states, moves, bytes, |moves|);
  }

  /** Neither side ever waits for the other: each can always take a step. */
  lemma NobodyWaits(s: State, wire: seq<int>)
    requires Inv(s)
    ensures Enabled(s, Publish(wire)) || (Enabled(s, WriterStep) && WriterNext(s).writer != s.writer)
    ensures Enabled(s, TryRead) || (Enabled(s, ReaderStep) && ReaderNext(s).reader != s.reader)
  {
  }

  /** The reader's next n steps, with the writer wherever it is. */
  function ReaderSteps(s: State, n: nat): State
    requires Inv(s)
    decreases n
  {
    if n == 0 || s.reader.RIdle? then s
    else
      ReaderKeepsInv(s);
      ReaderSteps(ReaderNext(s), n - 1)
  }

  /** A call of TryRead returns nothing when the word is not fresh, and otherwise the
      newest snapshot, whole, after one step for each byte of it and four more. */
  lemma TryReadDelivers(s: State)
    requires Inv(s) && s.reader.RIdle?
    ensures !IsFresh(s.ready) ==> Next(s, TryRead) == s
    ensures IsFresh(s.ready) ==>
              && s.published != []
              && var newest := s.published[|s.published| - 1];
                 var begun := Next(s, TryRead);
                 && Inv(begun)
                 && var t := ReaderSteps(begun, |newest| + 4);
                    t.reader == RIdle && t.delivered == s.delivered + [Delivery(|s.published|, newest)]
  {
    if IsFresh(s.ready) {
      var begun := Next(s, TryRead);
      NextKeepsInv(s, TryRead);
      ReaderKeepsInv(begun);
      var one := ReaderNext(begun);
      ReaderKeepsInv(one);
      var two := ReaderNext(one);
      var newest := s.published[|s.published| - 1];
      CopiesOut(two, |newest|);
    }
  }

  /** From anywhere in the copy, the rest of it and then the delivery. */
  lemma {:induction false} CopiesOut(s: State, left: nat)
    requires Inv(s) && s.reader.RCopy? && s.taken > 0 && s.taken <= |s.published|
    requires |s.reader.out| + left == |s.published[s.taken - 1]|
    ensures var t := ReaderSteps(s, left + 2);
            t.reader == RIdle && t.delivered == s.delivered + [Delivery(s.taken, s.published[s.taken - 1])]
    decreases left
  {
    ReaderKeepsInv(s);
    var t := ReaderNext(s);
    if left > 0 {
      CopiesOut(t, left - 1);
    } else {
      ReaderKeepsInv(t);
      var u := ReaderNext(t);
      assert ReaderSteps(t, 1) == ReaderSteps(u, 0);
    }
  }

  /** The wire data given to Publish, in order, as much of each as a snapshot keeps. */
  function Given(moves: seq<Move>, bytes: nat): seq<seq<int>>
  {
    if moves == [] then []
    else
      Given(moves[..|moves| - 1], bytes)
      + match moves[|moves| - 1] case Publish(wire) => [if |wire| < bytes then wire else wire[..bytes]] case _ => []
  }

  function InHand(s: State): seq<seq<int>>
    requires WellFormed(s)
  {
    match s.writer
    case WIdle => []
    case WAssign(_) => []
    case WCopy(wire, _) => [wire[..Copied(s, wire)]]
    case WCount(wire) => [wire[..Copied(s, wire)]]
    case WNumber(wire) => [wire[..Copied(s, wire)]]
    case WStoreNumber(wire, _) => [wire[..Copied(s, wire)]]
    case WExchange(wire) => [wire[..Copied(s, wire)]]
  }

  lemma HandsOn(s: State, m: Move)
    requires Inv(s) && Enabled(s, m) && Inv(Next(s, m))
    ensures var t := Next(s, m);
            && SnapshotBytes(t) == SnapshotBytes(s)
            && t.published + InHand(t) == s.published + InHand(s) + Given([m], SnapshotBytes(s))
  {
    hide WriterInv, ReaderInv, ReadyInv, DeliveredInv;
    assert [m][..0] == [];
    if m.Publish? && |m.wire| < SnapshotBytes(s) { assert m.wire[..|m.wire|] == m.wire; }
  }

  /** What has been handed over is what was given, but for one still being written. */
  lemma {:induction false} PublishesWhatIsGiven(states: seq<State>, moves: seq<Move>, bytes: seq<int>, i: nat)
    requires IsRun(states, moves) && states[0] == Initial(bytes) && i <= |moves|
    ensures Inv(states[i]) && SnapshotBytes(states[i]) == |bytes|
    ensures states[i].published + InHand(states[i]) == Given(moves[..i], |bytes|)
  {
    RunKeepsInv(states, moves, bytes, i);
    hide Inv, InHand, SnapshotBytes;
    if i == 0 {
      NothingGiven(bytes);
    } else {
      PublishesWhatIsGiven(states, moves, bytes, i - 1);
      HandsOn(states[i - 1], moves[i - 1]);
      OneMoreGiven(moves, i, |bytes|);
    }
  }

  lemma NothingGiven(bytes: seq<int>)
    ensures WellFormed(Initial(bytes)) && SnapshotBytes(Initial(bytes)) == |bytes| && Initial(bytes).published + InHand(Initial(bytes)) == []
    ensures Given([], |bytes|) == []
  {
    hide WellFormed, InHand, Initial;
    InitialIsIdle(bytes);
    IdleHasNothing(Initial(bytes));
  }

  lemma InitialIsIdle(bytes: seq<int>)
    ensures WellFormed(Initial(bytes)) && SnapshotBytes(Initial(bytes)) == |bytes|
    ensures Initial(bytes).published == [] && Initial(bytes).writer == WIdle
  {
  }

  lemma IdleHasNothing(s: State)
    requires WellFormed(s) && s.writer == WIdle
    ensures InHand(s) == []
  {
  }

  lemma OneMoreGiven(moves: seq<Move>, i: nat, bytes: nat)
    requires 0 < i <= |moves|
    ensures Given(moves[..i], bytes) == Given(moves[..i - 1], bytes) + Given([moves[i - 1]], bytes)
  {
    assert moves[..i][..i - 1] == moves[..i - 1] && [moves[i - 1]][..0] == [];
  }
}
