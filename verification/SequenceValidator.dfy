/**
  SequenceValidator: validating, stripping and measuring one buffer in one pass.

  `Processed` is what a call does, as a function of the validator's fields and the
  bytes; the class performs it in place, in the loop the program uses.
 */
module Validator {
  import opened SampleFormat

  datatype SequenceState = Synchronising | Running | Disabled | Failed

  /** The four fields of the validator. */
  datatype Tracker = Tracker(state: SequenceState, counter: nat, run: nat, block: nat)

  const RESET := Tracker(Synchronising, 0, 0, 0)

  function NextCounterValue(value: nat): nat
  {
    if value + 1 >= SEQUENCE_COUNTER_VALUES then 0 else value + 1
  }

  /** How long the current run may get before the missing change is the fault. */
  function RunLimit(v: Tracker): nat
  {
    if v.block != 0 then v.block else MAXIMUM_SAMPLES_PER_COUNTER
  }

  predicate RunComplete(v: Tracker)
  {
    if v.block != 0 then v.run == v.block else IsKnownBlock(v.run)
  }

  /** The counter check for one sample. A failed tracker stays as it is. */
  function Advance(v: Tracker, counter: nat): Tracker
  {
    if v.state != Running then v
    else if counter == v.counter then
      Tracker(if v.run + 1 > RunLimit(v) then Failed else Running, v.counter, v.run + 1, v.block)
    else if counter == NextCounterValue(v.counter) && RunComplete(v) then
      Tracker(Running, counter, 1, if v.block == 0 then v.run else v.block)
    else
      v.(state := Failed)
  }

  function Track(v: Tracker, counters: seq<nat>): Tracker
  {
    if counters == [] then v
    else Advance(Track(v, counters[..|counters| - 1]), counters[|counters| - 1])
  }

  /** How many samples are accepted before the check fails, or all of them. */
  function Passed(v: Tracker, counters: seq<nat>): (n: nat)
    ensures n <= |counters|
  {
    if counters == [] then 0
    else
      var last := |counters| - 1;
      var n := Passed(v, counters[..last]);
      if n < last || Track(v, counters).state == Failed then n else last + 1
  }

  // ----- The bytes of a buffer -----

  function Samples(bytes: seq<byte>): nat { |bytes| / BYTES_PER_SAMPLE }

  /** The counters carried by the first n samples. */
  function CountersTo(bytes: seq<byte>, n: nat): (cs: seq<nat>)
    requires n <= Samples(bytes)
    ensures |cs| == n
    ensures forall i :: 0 <= i < n ==> cs[i] == CounterBits(bytes[2 * i + 1])
  {
    if n == 0 then [] else CountersTo(bytes, n - 1) + [CounterBits(bytes[2 * n - 1])]
  }

  function Counters(bytes: seq<byte>): (cs: seq<nat>)
    ensures |cs| == Samples(bytes)
  {
    CountersTo(bytes, Samples(bytes))
  }

  function WordValue(low: byte, high: byte): nat { low as int + 256 * high as int }

  /** The values of the first n samples. */
  function Values(bytes: seq<byte>, n: nat): (vs: seq<nat>)
    requires n <= Samples(bytes)
    ensures |vs| == n
  {
    if n == 0 then [] else Values(bytes, n - 1) + [WordValue(bytes[2 * n - 2], ValueBits(bytes[2 * n - 1]))]
  }

  /** The markers of the first n samples cleared, everything else untouched. */
  function Stripped(bytes: seq<byte>, n: nat): (r: seq<byte>)
    requires n <= Samples(bytes)
    ensures |r| == |bytes|
    ensures forall i :: 2 * n <= i < |bytes| ==> r[i] == bytes[i]
  {
    if n == 0 then bytes else Stripped(bytes, n - 1)[2 * n - 1 := ValueBits(bytes[2 * n - 1])]
  }

  // ----- One call -----

  datatype Outcome = Outcome(
    ok: bool, tally: BufferTally,
    mismatchIndex: nat, expected: nat, actual: nat, remaining: int,
    synchronisedHere: bool, synchronisationIndex: nat, firstCounter: nat)

  const QUIET := Outcome(true, EMPTY_TALLY, 0, 0, 0, 0, false, 0, 0)

  datatype Result = Result(tracker: Tracker, outcome: Outcome, bytes: seq<byte>)

  /** The first index from `from` on, below `limit`, whose counter differs from the opening one. */
  function FirstChange(counters: seq<nat>, from: nat, limit: nat): (k: nat)
    requires 1 <= from <= limit <= |counters|
    ensures from <= k <= limit
    ensures forall i :: from <= i < k ==> counters[i] == counters[0]
    ensures k < limit ==> counters[k] != counters[0]
    decreases limit - from
  {
    if from == limit || counters[from] != counters[0] then from
    else FirstChange(counters, from + 1, limit)
  }

  function SearchLimit(counters: seq<nat>): nat
  {
    Min(|counters|, MAXIMUM_SAMPLES_PER_COUNTER + 1)
  }

  /** The tracker to validate with, from which sample on, and what is already known. */
  function Synchronise(v: Tracker, counters: seq<nat>): (r: (Tracker, nat, Outcome))
    requires |counters| > 0
    ensures r.1 <= |counters|
  {
    if v.state != Synchronising then (v, 0, QUIET)
    else
      var k := FirstChange(counters, 1, SearchLimit(counters));
      if k < SearchLimit(counters) then
        (Tracker(Running, counters[k], 0, v.block), k,
         QUIET.(firstCounter := counters[0], synchronisedHere := true, synchronisationIndex := k))
      else
        (v.(state := Disabled), 0, QUIET.(firstCounter := counters[0]))
  }

  /** The report for a counter the tracker does not accept. */
  function Mismatch(outcome: Outcome, v: Tracker, counter: nat, index: nat): Outcome
  {
    if counter == v.counter then
      outcome.(ok := false, mismatchIndex := index, actual := counter,
               expected := NextCounterValue(v.counter), remaining := 0)
    else
      outcome.(ok := false, mismatchIndex := index, actual := counter,
               expected := v.counter, remaining := RunLimit(v) - v.run)
  }

  function Processed(v: Tracker, bytes: seq<byte>): Result
  {
    if Samples(bytes) == 0 then Result(v, QUIET, bytes)
    else if v.state == Failed then Result(v, QUIET.(ok := false), bytes)
    else
      var counters := Counters(bytes);
      var (w, from, outcome) := Synchronise(v, counters);
      var n := from + Passed(w, counters[from..]);
      var tally := TallyOf(Values(bytes, n));
      if n == |counters| then
        Result(Track(w, counters[from..]), outcome.(tally := tally), Stripped(bytes, n))
      else
        var u := Track(w, counters[from..n]);
        Result(Advance(u, counters[n]), Mismatch(outcome, u, counters[n], n).(tally := tally), Stripped(bytes, n))
  }

  // ----- Lemmas the loop needs -----

  lemma {:induction false} FailedStays(v: Tracker, counters: seq<nat>)
    requires v.state != Running
    ensures Track(v, counters) == v
    ensures v.state != Failed ==> Passed(v, counters) == |counters|
  {
    if counters != [] { FailedStays(v, counters[..|counters| - 1]); }
  }

  lemma {:induction false} PassedMeans(v: Tracker, counters: seq<nat>)
    requires v.state != Failed
    ensures Passed(v, counters) == |counters| <==> Track(v, counters).state != Failed
  {
    if counters != [] {
      var last := |counters| - 1;
      PassedMeans(v, counters[..last]);
    }
  }

  /** The first failure decides how many samples pass, whatever follows it. */
  lemma {:induction false} PassedStops(v: Tracker, counters: seq<nat>, n: nat)
    requires n < |counters| && Passed(v, counters[..n]) == n && Track(v, counters[..n + 1]).state == Failed
    ensures Passed(v, counters) == n
  {
    var last := |counters| - 1;
    if n < last {
      assert counters[..last][..n] == counters[..n] && counters[..last][..n + 1] == counters[..n + 1];
      PassedStops(v, counters[..last], n);
    } else {
      assert counters[..n + 1] == counters;
    }
  }

  /** The tracker after samples from..upTo, when all of them have been accepted. */
  ghost function TrackedTo(w: Tracker, counters: seq<nat>, from: nat, upTo: nat): Tracker
    requires upTo <= |counters|
  {
    if upTo <= from then w else Track(w, counters[from..upTo])
  }

  ghost predicate PassedTo(w: Tracker, counters: seq<nat>, from: nat, upTo: nat)
    requires upTo <= |counters|
  {
    from < upTo ==> Passed(w, counters[from..upTo]) == upTo - from
  }

  lemma Extend(w: Tracker, counters: seq<nat>, from: nat, index: nat)
    requires from <= index < |counters| && PassedTo(w, counters, from, index)
    ensures TrackedTo(w, counters, from, index + 1) == Advance(TrackedTo(w, counters, from, index), counters[index])
    ensures Advance(TrackedTo(w, counters, from, index), counters[index]).state != Failed ==>
              PassedTo(w, counters, from, index + 1)
  {
    var upTo := counters[from..index + 1];
    assert upTo[..|upTo| - 1] == counters[from..index];
    if from == index { assert counters[from..index] == []; }
    assert Track(w, upTo) == Advance(Track(w, counters[from..index]), counters[index]);
  }

  /** One more marker cleared, one more value measured. */
  lemma StripOne(bytes: seq<byte>, n: nat)
    requires n < Samples(bytes)
    ensures Stripped(bytes, n)[2 * n + 1 := ValueBits(bytes[2 * n + 1])] == Stripped(bytes, n + 1)
    ensures TallyOf(Values(bytes, n + 1))
         == AddSample(TallyOf(Values(bytes, n)), WordValue(bytes[2 * n], ValueBits(bytes[2 * n + 1])))
  {
    assert Values(bytes, n + 1)[..n] == Values(bytes, n);
  }

  /** Every sample was accepted, or none was checked. */
  lemma ProcessedAll(v: Tracker, bytes: seq<byte>)
    requires Samples(bytes) > 0 && v.state != Failed
    requires var counters := Counters(bytes); var (w, from, known) := Synchronise(v, counters);
             PassedTo(w, counters, from, |counters|)
    ensures var counters := Counters(bytes); var n := |counters|; var (w, from, known) := Synchronise(v, counters);
            Processed(v, bytes) == Result(TrackedTo(w, counters, from, n),
                                          known.(tally := TallyOf(Values(bytes, n))), Stripped(bytes, n))
  {
    var counters := Counters(bytes);
    var (w, from, known) := Synchronise(v, counters);
    assert counters[from..] == counters[from..|counters|];
  }

  /** The loop has stopped at a sample the tracker refuses. */
  lemma ProcessedUpTo(v: Tracker, bytes: seq<byte>, index: nat)
    requires v.state != Failed && index < Samples(bytes)
    requires var counters := Counters(bytes); var (w, from, known) := Synchronise(v, counters);
             from <= index && Stops(w, counters, from, index)
    ensures var counters := Counters(bytes); var (w, from, known) := Synchronise(v, counters);
            var u := Track(w, counters[from..index]);
            Processed(v, bytes) == Result(Advance(u, counters[index]),
                                          Mismatch(known, u, counters[index], index).(tally := TallyOf(Values(bytes, index))),
                                          Stripped(bytes, index))
  {
    hide TallyOf, Values, Stripped, Track, Passed, Counters, Advance, Mismatch, Synchronise;
  }

  ghost predicate Stops(w: Tracker, counters: seq<nat>, from: nat, index: nat)
    requires from <= index < |counters|
  {
    && Passed(w, counters[from..]) == index - from
    && Advance(Track(w, counters[from..index]), counters[index]).state == Failed
  }

  lemma StopAt(w: Tracker, counters: seq<nat>, from: nat, index: nat)
    requires from <= index < |counters| && PassedTo(w, counters, from, index)
    requires Advance(TrackedTo(w, counters, from, index), counters[index]).state == Failed
    ensures Stops(w, counters, from, index)
    ensures TrackedTo(w, counters, from, index) == Track(w, counters[from..index])
  {
    Extend(w, counters, from, index);
    var rest := counters[from..];
    assert rest[..index - from] == counters[from..index] && rest[..index - from + 1] == counters[from..index + 1];
    if index == from { assert counters[from..index] == []; }
    PassedStops(w, rest, index - from);
  }

  /** The loop at the head of an iteration: everything before `index` accepted and stripped. */
  ghost predicate Walking(w: Tracker, bytes: seq<byte>, from: nat, index: nat, t: Tracker, now: seq<byte>, tally: BufferTally)
    requires index <= Samples(bytes)
  {
    var counters := Counters(bytes);
    && now == Stripped(bytes, index)
    && tally == TallyOf(Values(bytes, index))
    && t == TrackedTo(w, counters, from, index) && t.state == w.state
    && PassedTo(w, counters, from, index)
  }

  /** What the loop leaves behind. */
  ghost predicate Walked(w: Tracker, bytes: seq<byte>, from: nat, known: Outcome,
                         outcome: Outcome, index: nat, t: Tracker, now: seq<byte>)
  {
    var counters := Counters(bytes);
    && index <= |counters|
    && outcome.tally == TallyOf(Values(bytes, index))
    && now == Stripped(bytes, index)
    && if outcome.ok then
         index == |counters| && outcome == known.(tally := outcome.tally)
         && PassedTo(w, counters, from, index) && t == TrackedTo(w, counters, from, index)
       else
         from <= index < |counters| && Stops(w, counters, from, index)
         && var u := Track(w, counters[from..index]);
            outcome == Mismatch(known, u, counters[index], index).(tally := outcome.tally) && t == Advance(u, counters[index])
  }

  lemma WalkingBytes(w: Tracker, bytes: seq<byte>, from: nat, index: nat, t: Tracker, now: seq<byte>, tally: BufferTally)
    requires index < Samples(bytes) && Walking(w, bytes, from, index, t, now, tally)
    ensures |now| == |bytes| && now[2 * index] == bytes[2 * index] && now[2 * index + 1] == bytes[2 * index + 1]
    ensures CounterBits(bytes[2 * index + 1]) == Counters(bytes)[index]
  {
  }

  lemma WalkBegins(w: Tracker, bytes: seq<byte>, from: nat)
    ensures Walking(w, bytes, from, 0, w, bytes, EMPTY_TALLY)
  {
  }

  lemma WalkEnds(w: Tracker, bytes: seq<byte>, from: nat, known: Outcome, t: Tracker, now: seq<byte>, tally: BufferTally)
    requires Walking(w, bytes, from, Samples(bytes), t, now, tally) && known.ok
    ensures Walked(w, bytes, from, known, known.(tally := tally), Samples(bytes), t, now)
  {
  }

  lemma WalkStops(w: Tracker, bytes: seq<byte>, from: nat, known: Outcome, index: nat, t: Tracker, now: seq<byte>, tally: BufferTally)
    requires from <= index < Samples(bytes) && Walking(w, bytes, from, index, t, now, tally)
    requires t.state == Running && Advance(t, Counters(bytes)[index]).state == Failed
    ensures Walked(w, bytes, from, known, Mismatch(known, t, Counters(bytes)[index], index).(tally := tally), index,
                   Advance(t, Counters(bytes)[index]), now)
  {
    StopAt(w, Counters(bytes), from, index);
  }

  lemma WalkGoesOn(w: Tracker, bytes: seq<byte>, from: nat, index: nat, t: Tracker, now: seq<byte>, tally: BufferTally)
    requires index < Samples(bytes) && Walking(w, bytes, from, index, t, now, tally) && |now| == |bytes|
    ensures var t' := if from <= index then Advance(t, Counters(bytes)[index]) else t;
            var value := WordValue(now[2 * index], ValueBits(now[2 * index + 1]));
            t'.state == t.state && t.state != Failed ==>
              Walking(w, bytes, from, index + 1, t', now[2 * index + 1 := ValueBits(now[2 * index + 1])], AddSample(tally, value))
  {
    StripOne(bytes, index);
    WalkingBytes(w, bytes, from, index, t, now, tally);
    if from <= index { Extend(w, Counters(bytes), from, index); }
  }

  // ----- The class -----

  class SequenceValidator {
    var state: SequenceState
    var counterValue: nat
    var runLength: nat
    var samplesPerCounter: nat

    function Tracked(): Tracker
      reads this
    {
      Tracker(state, counterValue, runLength, samplesPerCounter)
    }

    constructor ()
      ensures Tracked() == RESET
    {
      state, counterValue, runLength, samplesPerCounter := Synchronising, 0, 0, 0;
    }

    method Reset()
      modifies this
      ensures Tracked() == RESET
    {
      state, counterValue, runLength, samplesPerCounter := Synchronising, 0, 0, 0;
    }

    /** The search for the first counter change. */
    method Acquire(buffer: array<byte>) returns (validateFrom: nat, outcome: Outcome)
      requires buffer.Length >= 2
      modifies this
      ensures (Tracked(), validateFrom, outcome) == Synchronise(old(Tracked()), Counters(buffer[..]))
    {
      validateFrom, outcome := 0, QUIET;
      if state == Synchronising {
        ghost var counters := Counters(buffer[..]);
        var firstCounter := CounterBits(buffer[1]);
        var searchLimit := Min(buffer.Length / BYTES_PER_SAMPLE, MAXIMUM_SAMPLES_PER_COUNTER + 1);
        outcome := outcome.(firstCounter := firstCounter);
        var index := 1;
        while index < searchLimit && CounterBits(buffer[index * BYTES_PER_SAMPLE + 1]) == firstCounter
          invariant 1 <= index <= searchLimit
          invariant FirstChange(counters, 1, searchLimit) == FirstChange(counters, index, searchLimit)
        {
          index := index + 1;
        }
        if index < searchLimit {
          counterValue := CounterBits(buffer[index * BYTES_PER_SAMPLE + 1]);
          runLength := 0;
          validateFrom := index;
          state := Running;
          outcome := outcome.(synchronisedHere := true, synchronisationIndex := index);
        } else {
          state := Disabled;
        }
      }
    }

    /** The counter check of one sample: the three ways it can go. */
    method Check(counter: nat, index: nat, runLimit: nat, known: Outcome) returns (outcome: Outcome, limit: nat)
      requires state == Running && runLimit == RunLimit(Tracked())
      modifies this
      ensures Tracked() == Advance(old(Tracked()), counter)
      ensures state == Running ==> outcome == known && limit == RunLimit(Tracked())
      ensures state != Running ==> outcome == Mismatch(known, old(Tracked()), counter, index)
    {
      outcome, limit := known, runLimit;
      if counter == counterValue {
        runLength := runLength + 1;
        if runLength > runLimit {
          state := Failed;
          outcome := outcome.(ok := false, mismatchIndex := index, expected := NextCounterValue(counterValue),
                              actual := counter, remaining := 0);
        }
      } else if counter == NextCounterValue(counterValue)
             && (if samplesPerCounter != 0 then runLength == samplesPerCounter else IsKnownBlock(runLength)) {
        if samplesPerCounter == 0 {
          samplesPerCounter := runLength;
          limit := runLength;
        }
        counterValue := counter;
        runLength := 1;
      } else {
        state := Failed;
        outcome := outcome.(ok := false, mismatchIndex := index, expected := counterValue,
                            actual := counter, remaining := runLimit - runLength);
      }
    }

    /** The single pass: check, strip and measure every sample until one is refused. */
    method Walk(buffer: array<byte>, validateFrom: nat, known: Outcome) returns (outcome: Outcome, index: nat)
      requires buffer.Length >= 2 && state != Failed && known.ok
      modifies this, buffer
      ensures Walked(old(Tracked()), old(buffer[..]), validateFrom, known, outcome, index, Tracked(), buffer[..])
    {
      ghost var w, bytes := Tracked(), buffer[..];
      var sampleCount := buffer.Length / BYTES_PER_SAMPLE;
      var checking := state == Running;
      var runLimit := RunLimit(Tracked());
      var tally := EMPTY_TALLY;
      outcome := known;
      index := 0;
      WalkBegins(w, bytes, validateFrom);
      while index < sampleCount
        invariant index <= sampleCount
        invariant outcome == known
        invariant Walking(w, bytes, validateFrom, index, Tracked(), buffer[..], tally)
        invariant checking == (w.state == Running)
        invariant runLimit == RunLimit(Tracked())
      {
        ghost var before := Tracked();
        var highByte := HighByte(buffer, index);
        WalkingBytes(w, bytes, validateFrom, index, before, buffer[..], tally);
        if checking && index >= validateFrom {
          outcome, runLimit := Check(CounterBits(highByte), index, runLimit, outcome);
          if state != Running {
            WalkStops(w, bytes, validateFrom, known, index, before, buffer[..], tally);
            outcome := outcome.(tally := tally);
            return;
          }
        }
        ghost var seen := buffer[..];
        var value := StripAt(buffer, index);
        WalkGoesOn(w, bytes, validateFrom, index, before, seen, tally);
        tally := AddSample(tally, value);
        index := index + 1;
      }
      WalkEnds(w, bytes, validateFrom, known, Tracked(), buffer[..], tally);
      outcome := outcome.(tally := tally);
    }

    method HighByte(buffer: array<byte>, index: nat) returns (high: byte)
      requires 2 * index + 1 < buffer.Length
      ensures high == buffer[..][2 * index + 1]
    {
      high := buffer[index * BYTES_PER_SAMPLE + 1];
    }

    /** Clear one marker in place and read the value that is left. */
    method StripAt(buffer: array<byte>, index: nat) returns (value: nat)
      requires 2 * index + 1 < buffer.Length
      modifies buffer
      ensures buffer[..] == old(buffer[..])[2 * index + 1 := ValueBits(old(buffer[..])[2 * index + 1])]
      ensures value == WordValue(old(buffer[..])[2 * index], ValueBits(old(buffer[..])[2 * index + 1]))
    {
      buffer[index * BYTES_PER_SAMPLE + 1] := ValueBits(buffer[index * BYTES_PER_SAMPLE + 1]);
      value := WordValue(buffer[index * BYTES_PER_SAMPLE], buffer[index * BYTES_PER_SAMPLE + 1]);
    }

    /** Validate, strip and measure one buffer. */
    method Process(buffer: array<byte>) returns (outcome: Outcome)
      modifies this, buffer
      ensures Result(Tracked(), outcome, buffer[..]) == Processed(old(Tracked()), old(buffer[..]))
    {
      outcome := QUIET;
      if buffer.Length / BYTES_PER_SAMPLE == 0 {
        return;
      }
      if state == Failed {
        outcome := outcome.(ok := false);
        return;
      }
      ghost var v, bytes := Tracked(), buffer[..];
      var validateFrom, known := Acquire(buffer);
      var index;
      outcome, index := Walk(buffer, validateFrom, known);
      if outcome.ok {
        ProcessedAll(v, bytes);
      } else {
        ProcessedUpTo(v, bytes, index);
      }
    }
  }
}
