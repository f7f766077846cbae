/**
  The sequence lock that publishes the statistics block: one writer, any number
  of readers, the value copied field by field on both sides.

  Every move is one atomic operation or the copy of one field.  The order in
  which the fields of a struct are copied is left open.
 */
module StatsPublisher {

  type Value = seq<int>

  datatype Writer = WIdle | WWriting(value: Value, todo: set<nat>)

  /** `since` is the generation that was current when Read was entered. */
  datatype Reader =
    | RIdle
    | RLoadBefore(since: nat)
    | RCopying(since: nat, before: nat, copy: map<nat, int>)
    | RLoadAfter(since: nat, before: nat, copy: map<nat, int>)

  /** A finished Read: the value, and the generation it is claimed to be. */
  datatype Reading = Reading(generation: nat, since: nat, copy: map<nat, int>)

  datatype State = State(
    sequence: nat, value: Value,
    writer: Writer, readers: seq<Reader>,
    published: seq<Value>,           // history: the initial value and every one published since
    readings: seq<seq<Reading>>)     // history: what each reader's calls have returned

  datatype Move =
    | BeginPublish(value: Value) | WriteField(field: nat) | EndPublish
    | BeginRead(r: nat) | LoadBefore(r: nat) | CopyField(r: nat, field: nat) | EndCopy(r: nat) | LoadAfter(r: nat)

  function Fields(s: State): nat
  {
    |s.value|
  }

  function AllFields(n: nat): (fields: set<nat>)
    ensures forall f: nat :: f in fields <==> f < n
  {
    if n == 0 then {} else AllFields(n - 1) + {n - 1}
  }

  predicate Enabled(s: State, m: Move)
  {
    match m
    case BeginPublish(value) => s.writer.WIdle? && |value| == Fields(s)
    case WriteField(f) => s.writer.WWriting? && f in s.writer.todo && f < Fields(s) && f < |s.writer.value|
    case EndPublish => s.writer.WWriting? && s.writer.todo == {}
    case BeginRead(r) => r < |s.readers| && s.readers[r].RIdle?
    case LoadBefore(r) => r < |s.readers| && s.readers[r].RLoadBefore?
    case CopyField(r, f) => r < |s.readers| && s.readers[r].RCopying? && f < Fields(s)
    case EndCopy(r) => r < |s.readers| && s.readers[r].RCopying? && Complete(s.readers[r].copy, Fields(s))
    case LoadAfter(r) => r < |s.readers| && |s.readings| == |s.readers| && s.readers[r].RLoadAfter?
  }

  function SetReader(s: State, r: nat, reader: Reader): State
    requires r < |s.readers|
  {
    s.(readers := s.readers[r := reader])
  }

  function Next(s: State, m: Move): State
    requires Enabled(s, m)
  {
    match m
    case BeginPublish(value) =>
      s.(sequence := s.sequence + 1, writer := WWriting(value, AllFields(Fields(s))))
    case WriteField(f) =>
      s.(value := s.value[f := s.writer.value[f]], writer := s.writer.(todo := s.writer.todo - {f}))
    case EndPublish =>
      s.(sequence := s.sequence + 1, writer := WIdle, published := s.published + [s.writer.value])
    case BeginRead(r) => SetReader(s, r, RLoadBefore(s.sequence / 2))
    case LoadBefore(r) =>
      // An odd counter means a write is in progress: look again.
      if s.sequence % 2 != 0 then s
      else SetReader(s, r, RCopying(s.readers[r].since, s.sequence, map[]))
    case CopyField(r, f) =>
      var RCopying(since, before, copy) := s.readers[r];
      SetReader(s, r, RCopying(since, before, copy[f := s.value[f]]))
    case EndCopy(r) =>
      var RCopying(since, before, copy) := s.readers[r];
      SetReader(s, r, RLoadAfter(since, before, copy))
    case LoadAfter(r) =>
      var RLoadAfter(since, before, copy) := s.readers[r];
      if s.sequence == before then
        SetReader(s, r, RIdle).(readings := s.readings[r := s.readings[r] + [Reading(before / 2, since, copy)]])
      else
        SetReader(s, r, RLoadBefore(since))
  }

  function Initial(value: Value, readers: nat): State
  {
    State(0, value, WIdle, seq(readers, _ => RIdle), [value], seq(readers, _ => []))
  }

  // ----- The invariant -----

  /** An even counter means the value is the last one published; an odd one, that
      the fields still to be written are the only ones that can be old. */
  predicate WriterInv(s: State)
  {
    && |s.published| == s.sequence / 2 + 1
    && (forall p :: p in s.published ==> |p| == Fields(s))
    && (s.writer.WIdle? <==> s.sequence % 2 == 0)
    && (s.writer.WIdle? ==> s.value == s.published[s.sequence / 2])
    && (s.writer.WWriting? ==>
          && |s.writer.value| == Fields(s)
          && (forall f: nat :: f in s.writer.todo ==> f < Fields(s))
          && (forall f: nat :: f < Fields(s) && f !in s.writer.todo ==> s.value[f] == s.writer.value[f]))
  }

  /** A copy holds fields of one published value. */
  predicate CopyOf(copy: map<nat, int>, v: Value)
  {
    forall f: nat :: f in copy ==> f < |v| && copy[f] == v[f]
  }

  predicate Complete(copy: map<nat, int>, fields: nat)
  {
    forall f: nat :: f < fields ==> f in copy
  }

  /** While the counter has not moved since `before`, what was copied is genuine. */
  predicate ReaderInv(reader: Reader, sequence: nat, fields: nat, published: seq<Value>)
  {
    match reader
    case RIdle => true
    case RLoadBefore(since) => since <= sequence / 2
    case RCopying(since, before, copy) =>
      && before % 2 == 0 && since <= before / 2 < |published| && before <= sequence
      && (before == sequence ==> CopyOf(copy, published[before / 2]))
    case RLoadAfter(since, before, copy) =>
      && before % 2 == 0 && since <= before / 2 < |published| && before <= sequence
      && Complete(copy, fields)
      && (before == sequence ==> CopyOf(copy, published[before / 2]))
  }

  /** The reading is one whole published value, no older than the call. */
  predicate Genuine(reading: Reading, fields: nat, published: seq<Value>)
  {
    && reading.since <= reading.generation < |published|
    && |published[reading.generation]| == fields
    && Complete(reading.copy, fields)
    && CopyOf(reading.copy, published[reading.generation])
  }

  predicate ReadingsInv(readings: seq<Reading>, reader: Reader, fields: nat, published: seq<Value>)
  {
    && (forall i :: 0 <= i < |readings| ==> Genuine(readings[i], fields, published))
    && (forall i, j :: 0 <= i < j < |readings| ==> readings[i].generation <= readings[j].since)
    && (!reader.RIdle? ==> forall i :: 0 <= i < |readings| ==> readings[i].generation <= reader.since)
  }

  predicate Inv(s: State)
  {
    && WriterInv(s)
    && |s.readings| == |s.readers|
    && (forall r :: 0 <= r < |s.readers| ==> ReaderInv(s.readers[r], s.sequence, Fields(s), s.published))
    && (forall r :: 0 <= r < |s.readers| ==> ReadingsInv(s.readings[r], s.readers[r], Fields(s), s.published))
  }

  lemma InitialInv(value: Value, readers: nat)
    ensures Inv(Initial(value, readers))
  {
  }

  lemma WriterKeepsInv(s: State, m: Move)
    requires Inv(s) && Enabled(s, m) && (m.BeginPublish? || m.WriteField? || m.EndPublish?)
    ensures Inv(Next(s, m))
  {
    var t := Next(s, m);
    forall r | 0 <= r < |s.readers|
      ensures ReaderInv(t.readers[r], t.sequence, Fields(t), t.published)
    {
      assert ReaderInv(s.readers[r], s.sequence, Fields(s), s.published);
    }
    forall r | 0 <= r < |s.readers|
      ensures ReadingsInv(t.readings[r], t.readers[r], Fields(t), t.published)
    {
      var readings := s.readings[r];
      assert ReadingsInv(readings, s.readers[r], Fields(s), s.published);
      forall i | 0 <= i < |readings| ensures Genuine(readings[i], Fields(t), t.published) {
        assert Genuine(readings[i], Fields(s), s.published);
      }
    }
  }

  lemma ReaderKeepsInv(s: State, m: Move)
    requires Inv(s) && Enabled(s, m) && !(m.BeginPublish? || m.WriteField? || m.EndPublish?)
    ensures Inv(Next(s, m))
  {
    var t, r := Next(s, m), m.r;
    ReaderStep(s, m);
    forall q | 0 <= q < |s.readers|
      ensures ReaderInv(t.readers[q], t.sequence, Fields(t), t.published)
      ensures ReadingsInv(t.readings[q], t.readers[q], Fields(t), t.published)
    {
      assert q != r ==> t.readers[q] == s.readers[q] && t.readings[q] == s.readings[q];
    }
  }

  /** The reader that moves: its own part of the invariant, and what it leaves alone. */
  lemma ReaderStep(s: State, m: Move)
    requires Inv(s) && Enabled(s, m) && !(m.BeginPublish? || m.WriteField? || m.EndPublish?)
    ensures var t, r := Next(s, m), m.r;
            && t == s.(readers := t.readers, readings := t.readings)
            && t.readers == s.readers[r := t.readers[r]]
            && t.readings == s.readings[r := t.readings[r]]
            && ReaderInv(t.readers[r], s.sequence, Fields(s), s.published)
            && ReadingsInv(t.readings[r], t.readers[r], Fields(s), s.published)
  {
    var r := m.r;
    assert ReaderInv(s.readers[r], s.sequence, Fields(s), s.published);
    assert ReadingsInv(s.readings[r], s.readers[r], Fields(s), s.published);
    if m.LoadAfter? { LoadAfterStep(s, r); }
  }

  lemma LoadAfterStep(s: State, r: nat)
    requires Inv(s) && Enabled(s, LoadAfter(r))
    ensures var t := Next(s, LoadAfter(r));
            && ReaderInv(t.readers[r], s.sequence, Fields(s), s.published)
            && ReadingsInv(t.readings[r], t.readers[r], Fields(s), s.published)
  {
    assert ReaderInv(s.readers[r], s.sequence, Fields(s), s.published);
    assert ReadingsInv(s.readings[r], s.readers[r], Fields(s), s.published);
    var RLoadAfter(since, before, copy) := s.readers[r];
    if s.sequence == before {
      assert Genuine(Reading(before / 2, since, copy), Fields(s), s.published);
    }
  }

  // ----- Runs -----

  predicate IsRun(states: seq<State>, moves: seq<Move>)
  {
    && |states| == |moves| + 1
    && forall i :: 0 <= i < |moves| ==> Enabled(states[i], moves[i]) && states[i + 1] == Next(states[i], moves[i])
  }

  lemma {:induction false} RunKeepsInv(states: seq<State>, moves: seq<Move>)
    requires IsRun(states, moves) && Inv(states[0])
    ensures Inv(states[|moves|])
  {
    if moves != [] {
      var last := |moves| - 1;
      RunKeepsInv(states[..|moves|], moves[..last]);
      var s, m := states[last], moves[last];
      assert states[last + 1] == Next(s, m);
      if m.BeginPublish? || m.WriteField? || m.EndPublish? { WriterKeepsInv(s, m); } else { ReaderKeepsInv(s, m); }
    }
  }

  function AsMap(v: Value): map<nat, int>
  {
    map f: nat | f < |v| :: v[f]
  }

  /** Whatever the interleaving, every value Read has returned is one complete
      published value, is at least as new as the value current when that call
      began, and no reader's successive results go backwards. */
  lemma ReadsAreConsistent(states: seq<State>, moves: seq<Move>, value: Value, readers: nat, r: nat, i: nat)
    requires IsRun(states, moves) && states[0] == Initial(value, readers)
    requires r < |states[|moves|].readings| && i < |states[|moves|].readings[r]|
    ensures var s := states[|moves|]; var reading := s.readings[r][i];
            && reading.since <= reading.generation < |s.published|
            && reading.copy == AsMap(s.published[reading.generation])
            && forall j :: i < j < |s.readings[r]| ==> reading.generation <= s.readings[r][j].generation
  {
    InitialInv(value, readers);
    RunKeepsInv(states, moves);
    var s := states[|moves|];
    assert ReadingsInv(s.readings[r], s.readers[r], Fields(s), s.published);
    var reading := s.readings[r][i];
    assert Genuine(reading, Fields(s), s.published);
    forall j | i < j < |s.readings[r]| ensures reading.generation <= s.readings[r][j].generation {
      assert Genuine(s.readings[r][j], Fields(s), s.published);
    }
  }

  /** The writer never waits: from any state it can take its next step. */
  lemma WriterNeverWaits(s: State, value: Value)
    requires Inv(s) && |value| == Fields(s)
    ensures exists m :: (m == BeginPublish(value) || m.WriteField? || m.EndPublish?) && Enabled(s, m)
  {
    if s.writer.WIdle? {
      assert Enabled(s, BeginPublish(value));
    } else if s.writer.todo == {} {
      assert Enabled(s, EndPublish);
    } else {
      var f :| f in s.writer.todo;
      assert Enabled(s, WriteField(f));
    }
  }

  // ----- Reads with the writer quiet -----

  /** The last look at the counter finds it where the first did exactly when no publish
      has touched it since; then the call returns the newest value, else it begins again. */
  lemma ReadReturns(s: State, r: nat)
    requires Inv(s) && Enabled(s, LoadAfter(r))
    ensures var t, before := Next(s, LoadAfter(r)), s.readers[r].before;
            if s.sequence == before then
              && t.readers[r] == RIdle && |t.readings[r]| == |s.readings[r]| + 1 && s.writer.WIdle?
              && var reading := t.readings[r][|s.readings[r]|];
                 reading.generation == |s.published| - 1 && reading.copy == AsMap(s.published[|s.published| - 1])
            else t.readers[r].RLoadBefore? && t.readings == s.readings
  {
    assert ReaderInv(s.readers[r], s.sequence, Fields(s), s.published);
    if s.sequence == s.readers[r].before {
      assert s.published[s.sequence / 2] in s.published;
    }
  }

  /** A move of one reader in a call of Read. */
  predicate PartOfRead(m: Move, r: nat)
  {
    m == LoadBefore(r) || m == EndCopy(r) || m == LoadAfter(r) || (m.CopyField? && m.r == r)
  }

  predicate OnlyReads(moves: seq<Move>, r: nat)
  {
    forall i :: 0 <= i < |moves| ==> PartOfRead(moves[i], r)
  }

  /** It is copying, nothing has been published meanwhile, and nothing else has changed. */
  predicate Copying(s: State, t: State, r: nat, fields: nat)
  {
    && r < |t.readers| && |t.readers| == |s.readers| && t == s.(readers := t.readers)
    && t.readers[r].RCopying? && t.readers[r].before == s.sequence
    && forall g: nat :: g < fields ==> g in t.readers[r].copy
  }

  /** A reader left alone with an idle writer finishes: it copies each field once and
      returns the newest value. */
  lemma ReadsAlone(s: State, r: nat) returns (states: seq<State>, moves: seq<Move>)
    requires Inv(s) && s.writer.WIdle? && r < |s.readers| && s.readers[r].RLoadBefore?
    ensures IsRun(states, moves) && states[0] == s && |moves| == Fields(s) + 3 && OnlyReads(moves, r)
    ensures var t := states[|moves|];
            && |t.readings| == |s.readings| > r && |t.readers| == |s.readers| && t.readers[r] == RIdle
            && |t.readings[r]| == |s.readings[r]| + 1 && t.published == s.published != []
            && t.readings[r][|s.readings[r]|].copy == AsMap(s.published[|s.published| - 1])
  {
    hide IsRun, OnlyReads, Inv, Copying, CopyOf;
    LoadsBefore(s, r);
    var t;
    states, moves := [s], [];
    NoMoves(s, r);
    states, moves, t := Extended(states, moves, LoadBefore(r), r);
    for f := 0 to Fields(s)
      invariant |moves| == f + 1 && |states| == f + 2 && IsRun(states, moves) && states[0] == s && states[f + 1] == t && Inv(t)
      invariant OnlyReads(moves, r) && Copying(s, t, r, f)
    {
      CopiesOne(s, t, r, f);
      states, moves, t := Extended(states, moves, CopyField(r, f), r);
    }
    EndsCopy(s, t, r);
    states, moves, t := Extended(states, moves, EndCopy(r), r);
    ReadReturns(t, r);
    states, moves, t := Extended(states, moves, LoadAfter(r), r);
  }

  lemma NoMoves(s: State, r: nat)
    ensures IsRun([s], []) && OnlyReads([], r)
  {
  }

  lemma LoadsBefore(s: State, r: nat)
    requires Inv(s) && s.writer.WIdle? && r < |s.readers| && s.readers[r].RLoadBefore?
    ensures Enabled(s, LoadBefore(r)) && Copying(s, Next(s, LoadBefore(r)), r, 0) && |s.readings| == |s.readers| && s.published != []
  {
  }

  lemma CopiesOne(s: State, t: State, r: nat, f: nat)
    requires Copying(s, t, r, f) && f < Fields(s)
    ensures Enabled(t, CopyField(r, f)) && Copying(s, Next(t, CopyField(r, f)), r, f + 1)
  {
  }

  lemma EndsCopy(s: State, t: State, r: nat)
    requires Copying(s, t, r, Fields(s)) && |s.readings| == |s.readers|
    ensures Enabled(t, EndCopy(r))
    ensures var u := Next(t, EndCopy(r));
            && Enabled(u, LoadAfter(r)) && u.readers[r].before == s.sequence && u == s.(readers := u.readers) && |u.readers| == |s.readers|
  {
  }

  lemma Extended(states: seq<State>, moves: seq<Move>, m: Move, r: nat) returns (states': seq<State>, moves': seq<Move>, t: State)
    requires |states| == |moves| + 1 && IsRun(states, moves) && Inv(states[0]) && Enabled(states[|moves|], m)
    requires OnlyReads(moves, r) && PartOfRead(m, r)
    ensures |states'| == |moves'| + 1 == |moves| + 2 && IsRun(states', moves') && states'[0] == states[0] && moves' == moves + [m]
    ensures t == Next(states[|moves|], m) && Inv(t) && states'[|moves| + 1] == t && OnlyReads(moves', r)
  {
    t := Next(states[|moves|], m);
    states', moves' := states + [t], moves + [m];
    RunExtends(states, moves, m);
    hide Inv, Next, Enabled, IsRun;
    RunKeepsInv(states', moves');
  }

  lemma RunExtends(states: seq<State>, moves: seq<Move>, m: Move)
    requires |states| == |moves| + 1 && IsRun(states, moves) && Enabled(states[|moves|], m)
    ensures IsRun(states + [Next(states[|moves|], m)], moves + [m])
  {
    hide Next, Enabled;
  }

  /** The values given to Publish, in order. */
  function Given(moves: seq<Move>): seq<Value>
  {
    if moves == [] then []
    else Given(moves[..|moves| - 1]) + if moves[|moves| - 1].BeginPublish? then [moves[|moves| - 1].value] else []
  }

  function InHand(w: Writer): seq<Value> { if w.WWriting? then [w.value] else [] }

  lemma HandsOn(s: State, m: Move)
    requires Enabled(s, m)
    ensures var t := Next(s, m);
            t.published + InHand(t.writer) == s.published + InHand(s.writer) + if m.BeginPublish? then [m.value] else []
  {
    hide AllFields;
  }

  /** What has been published is what was given to be, but for one still being written. */
  lemma {:induction false} PublishesWhatIsGiven(states: seq<State>, moves: seq<Move>, value: Value, readers: nat)
    requires IsRun(states, moves) && states[0] == Initial(value, readers)
    ensures states[|moves|].published + InHand(states[|moves|].writer) == [value] + Given(moves)
  {
    if moves == [] {
      assert [value] + [] == [value];
    } else {
      var last := |moves| - 1;
      PublishesWhatIsGiven(states[..|moves|], moves[..last], value, readers);
      HandsOn(states[last], moves[last]);
    }
  }
}
