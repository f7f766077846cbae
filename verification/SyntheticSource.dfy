/**
  SyntheticSource: the ramp the test pattern generator puts on the wire, and the
  reason the counter check never stops a faultless one.
 */
module Synthetic {
  import opened Division
  import opened SampleFormat
  import opened Validator
  import opened ValidatorTheorems
  import opened ValidatorDetection

  const RAMP_LENGTH := 1021

  /** Sample i of the stream, on the wire. */
  function WordAt(i: nat): (word: nat)
    ensures word < 65536
  {
    MakeWireWord(i % RAMP_LENGTH, i / SAMPLES_PER_COUNTER % SEQUENCE_COUNTER_VALUES)
  }

  /** The bytes of n samples of the stream from sample `from` on. */
  function Wire(from: nat, n: nat): (bytes: seq<byte>)
    ensures |bytes| == 2 * n
  {
    if n == 0 then [] else Wire(from, n - 1) + [WordAt(from + n - 1) % 256, WordAt(from + n - 1) / 256]
  }

  function Put(bytes: seq<byte>, index: nat, word: nat): (r: seq<byte>)
    requires 2 * index + 1 < |bytes| && word < 65536
    ensures |r| == |bytes|
  {
    bytes[2 * index := word % 256][2 * index + 1 := word / 256]
  }

  lemma WireBegins(i: nat, before: seq<byte>)
    ensures Wire(i, 0) + before[2 * 0..] == before
  {
  }

  lemma WireGrows(i: nat, n: nat, before: seq<byte>)
    requires 2 * n + 1 < |before|
    ensures Put(Wire(i, n) + before[2 * n..], n, WordAt(i + n)) == Wire(i, n + 1) + before[2 * (n + 1)..]
  {
    hide WordAt;
    PutAfter(Wire(i, n), before, n, WordAt(i + n));
  }

  lemma PutAfter(done: seq<byte>, before: seq<byte>, n: nat, word: nat)
    requires |done| == 2 * n && 2 * n + 1 < |before| && word < 65536
    ensures Put(done + before[2 * n..], n, word) == done + [word % 256, word / 256] + before[2 * (n + 1)..]
  {
  }

  class SyntheticSource {
    var rampValue: nat
    var sequenceCounter: nat
    var samplesUntilCounterIncrement: nat

    /** The fields when `i` samples have been generated. */
    ghost predicate At(i: nat)
      reads this
    {
      && rampValue == i % RAMP_LENGTH
      && sequenceCounter == i / SAMPLES_PER_COUNTER % SEQUENCE_COUNTER_VALUES
      && samplesUntilCounterIncrement == SAMPLES_PER_COUNTER - i % SAMPLES_PER_COUNTER
    }

    method Prepare()
      modifies this
      ensures At(0)
    {
      rampValue := 0;
      sequenceCounter := 0;
      samplesUntilCounterIncrement := SAMPLES_PER_COUNTER;
    }

    /** One sample: its word, and the fields moved on. */
    method NextWord(ghost i: nat) returns (word: nat)
      requires At(i)
      modifies this
      ensures At(i + 1) && word == WordAt(i)
    {
      NextPosition(i, SAMPLES_PER_COUNTER);
      NextPosition(i, RAMP_LENGTH);
      ghost var q := i / SAMPLES_PER_COUNTER;
      assert (q + 1) % SEQUENCE_COUNTER_VALUES == NextCounterValue(q % SEQUENCE_COUNTER_VALUES) by {
        NextPosition(q, SEQUENCE_COUNTER_VALUES);
      }
      var value := rampValue;
      rampValue := rampValue + 1;
      if rampValue >= RAMP_LENGTH { rampValue := 0; }
      word := MakeWireWord(value, sequenceCounter);
      samplesUntilCounterIncrement := samplesUntilCounterIncrement - 1;
      if samplesUntilCounterIncrement == 0 {
        sequenceCounter := sequenceCounter + 1;
        if sequenceCounter >= SEQUENCE_COUNTER_VALUES { sequenceCounter := 0; }
        samplesUntilCounterIncrement := SAMPLES_PER_COUNTER;
      }
    }

    method PutWord(destination: array<byte>, index: nat, word: nat)
      requires 2 * index + 1 < destination.Length && word < 65536
      modifies destination
      ensures destination[..] == Put(old(destination[..]), index, word)
    {
      destination[index * BYTES_PER_SAMPLE] := word % 256;
      destination[index * BYTES_PER_SAMPLE + 1] := word / 256;
    }

    /** Fill a slot with the next samples; an odd last byte is left alone. */
    method GenerateInto(destination: array<byte>, ghost i: nat)
      requires At(i)
      modifies this, destination
      ensures var n := destination.Length / BYTES_PER_SAMPLE;
              At(i + n) && destination[..] == Wire(i, n) + old(destination[..])[2 * n..]
    {
      hide Wire, WordAt, Put, At;
      var sampleCount := destination.Length / BYTES_PER_SAMPLE;
      ghost var before := destination[..];
      var index := 0;
      WireBegins(i, before);
      while index < sampleCount
        invariant index <= sampleCount
        invariant At(i + index)
        invariant destination[..] == Wire(i, index) + before[2 * index..]
      {
        var word := NextWord(i + index);
        PutWord(destination, index, word);
        WireGrows(i, index, before);
        index := index + 1;
      }
    }
  }

  // ----- The generator against the validator -----

  /** What the validator reads off the wire: the genuine counters, and the ramp. */
  lemma {:induction false} WireCarries(from: nat, n: nat, m: nat)
    requires m <= n
    ensures CountersTo(Wire(from, n), m) == Genuine(0, SAMPLES_PER_COUNTER, from, m)
    ensures Values(Wire(from, n), m) == Ramp(from, m)
    decreases n, m
  {
    hide Wire, Genuine, Cycle, WordValue, CounterBits, ValueBits;
    GenuineGrows(0, SAMPLES_PER_COUNTER, from, m);
    if m > 0 {
      WireCarries(from, n, m - 1);
      WireAt(from, n, m - 1);
      CycleIsModular(0, (from + m - 1) / SAMPLES_PER_COUNTER);
    }
  }

  function Ramp(from: nat, n: nat): (values: seq<nat>)
    ensures |values| == n
  {
    if n == 0 then [] else Ramp(from, n - 1) + [(from + n - 1) % RAMP_LENGTH]
  }

  lemma {:induction false} WireAt(from: nat, n: nat, k: nat)
    requires k < n
    ensures var low, high := Wire(from, n)[2 * k], Wire(from, n)[2 * k + 1];
            && CounterBits(high) == (from + k) / SAMPLES_PER_COUNTER % SEQUENCE_COUNTER_VALUES
            && WordValue(low, ValueBits(high)) == (from + k) % RAMP_LENGTH
  {
    if k < n - 1 {
      WireAt(from, n - 1, k);
    } else {
      var i := from + k;
      WireWordFields(i % RAMP_LENGTH, i / SAMPLES_PER_COUNTER % SEQUENCE_COUNTER_VALUES);
    }
  }

  /** A genuine stream seen from its q-th block on is a genuine stream. */
  lemma {:induction false} FromBlock(c: nat, block: nat, q: nat, a: nat, n: nat)
    requires block > 0
    ensures q * block + a >= 0
    ensures Genuine(c, block, q * block + a, n) == Genuine(Cycle(c, q), block, a, n)
    decreases n
  {
    hide Cycle, Genuine;
    assert q * block >= 0;
    GenuineGrows(c, block, q * block + a, n);
    GenuineGrows(Cycle(c, q), block, a, n);
    if n > 0 {
      FromBlock(c, block, q, a, n - 1);
      BlockAt(block, q, a + n - 1);
      CycleAdds(c, q, (a + n - 1) / block);
      assert q * block + a + n - 1 == q * block + (a + n - 1);
    }
  }

  lemma BlockAt(block: nat, q: nat, a: nat)
    requires block > 0
    ensures q * block + a >= 0 && (q * block + a) / block == q + a / block
  {
    AddBlocks(a, block, q);
    assert q * block >= 0;
  }

  lemma {:induction false} CycleAdds(c: nat, a: nat, b: nat)
    ensures Cycle(Cycle(c, a), b) == Cycle(c, a + b)
  {
    if b > 0 { CycleAdds(c, a, b - 1); }
  }

  lemma {:induction false} GenuineSplits(c: nat, block: nat, from: nat, m: nat, n: nat)
    requires block > 0
    ensures Genuine(c, block, from, m + n) == Genuine(c, block, from, m) + Genuine(c, block, from + m, n)
    decreases n
  {
    if n > 0 { GenuineSplits(c, block, from, m, n - 1); }
  }

  /** From any genuine position, not only after a learned block. */
  lemma GoesOn(c: nat, block: nat, m: nat, n: nat)
    requires IsKnownBlock(block)
    ensures Track(After(c, block, m), Genuine(c, block, m, n)) == After(c, block, m + n)
  {
    GenuineSplits(c, block, 0, m, n);
    TrackGenuine(c, block, Genuine(c, block, 0, m));
    TrackGenuine(c, block, Genuine(c, block, 0, m + n));
    TrackConcat(After(c, block, 0), Genuine(c, block, 0, m), Genuine(c, block, m, n));
  }

  /** The validator when the generator has produced i samples: it has either given
      up looking for a counter, or locked at some block boundary and followed since. */
  ghost predicate InStep(v: Tracker, i: nat)
  {
    || v.state == Disabled
    || exists q: nat :: LockedAt(v, i, q)
  }

  ghost predicate LockedAt(v: Tracker, i: nat, q: nat)
  {
    q * SAMPLES_PER_COUNTER <= i && v == After(Cycle(0, q), SAMPLES_PER_COUNTER, i - q * SAMPLES_PER_COUNTER)
  }

  /** A later buffer of the stream. */
  lemma StaysInStep(v: Tracker, i: nat, n: nat)
    requires InStep(v, i)
    ensures var r := Processed(v, Wire(i, n));
            r.outcome.ok && InStep(r.tracker, i + n) && r.tracker.state == v.state
  {
    hide After, Track, Genuine, Cycle, Passed, Processed, DirectResult, CountersTo, Values, Wire, LockedAt;
    var bytes := Wire(i, n);
    var counters := Counters(bytes);
    WireCarries(i, n, n);
    if v.state == Disabled {
      FailedStays(v, counters);
    } else {
      var q: nat :| LockedAt(v, i, q);
      FollowsFrom(v, i, n, q);
    }
    AcceptsAll(v, bytes);
  }

  lemma AcceptsAll(v: Tracker, bytes: seq<byte>)
    requires v.state == Running || v.state == Disabled
    requires Track(v, Counters(bytes)).state != Failed
    ensures Processed(v, bytes).outcome.ok && Processed(v, bytes).tracker == Track(v, Counters(bytes))
  {
    var counters := Counters(bytes);
    ProcessedDirect(v, bytes);
    PassedMeans(v, counters);
    DirectCompletes(v, counters, bytes);
  }

  lemma FollowsFrom(v: Tracker, i: nat, n: nat, q: nat)
    requires LockedAt(v, i, q)
    ensures LockedAt(Track(v, Genuine(0, SAMPLES_PER_COUNTER, i, n)), i + n, q)
    ensures v.state == Track(v, Genuine(0, SAMPLES_PER_COUNTER, i, n)).state == Running
  {
    hide After, Track, Genuine, Cycle;
    var a := i - q * SAMPLES_PER_COUNTER;
    FromBlock(0, SAMPLES_PER_COUNTER, q, a, n);
    GoesOn(Cycle(0, q), SAMPLES_PER_COUNTER, a, n);
  }

  /** The first buffer, into a validator that has just been reset. */
  lemma LocksInStep(i: nat, n: nat)
    requires n > 0
    ensures var r := Processed(RESET, Wire(i, n));
            r.outcome.ok && InStep(r.tracker, i + n) && (n > SAMPLES_PER_COUNTER ==> r.tracker.state == Running)
  {
    hide After, Track, Genuine, Cycle, Passed, Processed, FirstChange, Synchronise, CountersTo, Values, Wire, LockedAt;
    var bytes := Wire(i, n);
    var counters := Counters(bytes);
    WireCarries(i, n, n);
    SynchronisesAtBoundary(i, n);
    var (w, from, known) := Synchronise(RESET, counters);
    if w.state == Disabled {
      FailedStays(w, counters[from..]);
    } else {
      FollowsFrom(w, i + from, n - from, (i + from) / SAMPLES_PER_COUNTER);
      Suffix(i, from, n);
    }
    PassedMeans(w, counters[from..]);
    FirstBuffer(bytes);
  }

  /** The search gives up, which takes a short buffer, or stops where a block opens. */
  lemma SynchronisesAtBoundary(i: nat, n: nat)
    requires n > 0
    ensures var (w, from, known) := Synchronise(RESET, Genuine(0, SAMPLES_PER_COUNTER, i, n));
            || (w.state == Disabled && n <= SAMPLES_PER_COUNTER)
            || (w.state == Running && LockedAt(w, i + from, (i + from) / SAMPLES_PER_COUNTER))
  {
    hide After, Genuine, Cycle;
    var counters := Genuine(0, SAMPLES_PER_COUNTER, i, n);
    var limit := SearchLimit(counters);
    var k := FirstChange(counters, 1, limit);
    if k < limit {
      assert counters[k - 1] == counters[0];
      ChangeAtBoundary(i, n, k);
      LocksAt(i, k, (i + k) / SAMPLES_PER_COUNTER);
    } else if n > SAMPLES_PER_COUNTER {
      ChangeWithin(i, n);
      assert false;
    }
  }

  lemma Suffix(i: nat, from: nat, n: nat)
    requires from <= n
    ensures Genuine(0, SAMPLES_PER_COUNTER, i, n)[from..] == Genuine(0, SAMPLES_PER_COUNTER, i + from, n - from)
  {
    GenuineSplits(0, SAMPLES_PER_COUNTER, i, from, n - from);
  }

  lemma LocksAt(i: nat, from: nat, q: nat)
    requires i + from == q * SAMPLES_PER_COUNTER
    ensures LockedAt(Tracker(Running, Cycle(0, (i + from) / SAMPLES_PER_COUNTER), 0, 0), i + from, q)
  {
  }

  lemma FirstBuffer(bytes: seq<byte>)
    requires Samples(bytes) > 0
    requires var (w, from, known) := Synchronise(RESET, Counters(bytes));
             Passed(w, Counters(bytes)[from..]) == Samples(bytes) - from
    ensures var (w, from, known) := Synchronise(RESET, Counters(bytes));
            Processed(RESET, bytes).outcome.ok && Processed(RESET, bytes).tracker == Track(w, Counters(bytes)[from..])
  {
  }

  /** Where the counters of the stream change. */
  lemma ChangeAtBoundary(i: nat, n: nat, k: nat)
    requires 0 < k < n
    requires var s := Genuine(0, SAMPLES_PER_COUNTER, i, n); s[k - 1] != s[k]
    ensures (i + k) % SAMPLES_PER_COUNTER == 0
  {
    NextPosition(i + k - 1, SAMPLES_PER_COUNTER);
  }

  lemma ChangeWithin(i: nat, n: nat)
    requires n > SAMPLES_PER_COUNTER
    ensures var s := Genuine(0, SAMPLES_PER_COUNTER, i, n);
            s[SAMPLES_PER_COUNTER] != s[0]
  {
    AddBlocks(i, SAMPLES_PER_COUNTER, 1);
    NextDiffers(Cycle(0, i / SAMPLES_PER_COUNTER));
  }

  /** Buffer after buffer. */
  function ProcessAll(v: Tracker, buffers: seq<seq<byte>>): (bool, Tracker)
  {
    if buffers == [] then (true, v)
    else
      var (ok, u) := ProcessAll(v, buffers[..|buffers| - 1]);
      var r := Processed(u, buffers[|buffers| - 1]);
      (ok && r.outcome.ok, r.tracker)
  }

  /** The stream cut into buffers of the given numbers of samples. */
  function Cut(i: nat, sizes: seq<nat>): (seq<seq<byte>>, nat)
  {
    if sizes == [] then ([], i)
    else
      var (buffers, at) := Cut(i, sizes[..|sizes| - 1]);
      (buffers + [Wire(at, sizes[|sizes| - 1])], at + sizes[|sizes| - 1])
  }

  /** A faultless generator is never stopped, however its stream is cut, and the
      check is really running as soon as one buffer can hold a whole block. */
  lemma {:induction false} GeneratorNeverFails(i: nat, sizes: seq<nat>)
    ensures var (ok, v) := ProcessAll(RESET, Cut(i, sizes).0);
            && ok && (v == RESET || InStep(v, Cut(i, sizes).1))
            && (sizes != [] && sizes[0] > SAMPLES_PER_COUNTER ==> v.state == Running)
  {
    hide InStep, Wire, Processed;
    if sizes != [] {
      var last := |sizes| - 1;
      var (buffers, at) := Cut(i, sizes[..last]);
      var cut := Cut(i, sizes).0;
      assert cut[..|cut| - 1] == buffers;
      GeneratorNeverFails(i, sizes[..last]);
      var v := ProcessAll(RESET, buffers).1;
      OneMore(v, at, sizes[last]);
    }
  }

  lemma OneMore(v: Tracker, i: nat, n: nat)
    requires v == RESET || InStep(v, i)
    ensures var r := Processed(v, Wire(i, n));
            && r.outcome.ok && (r.tracker == RESET || InStep(r.tracker, i + n))
            && (v.state == Running || (v == RESET && n > SAMPLES_PER_COUNTER) ==> r.tracker.state == Running)
  {
    hide InStep;
    if v != RESET {
      StaysInStep(v, i, n);
    } else if n > 0 {
      LocksInStep(i, n);
    }
  }
}
