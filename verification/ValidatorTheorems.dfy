/**
  What the validator proves about a stream: that buffers may be cut anywhere,
  exactly which streams it accepts, and exactly which losses it can miss.
 */
module ValidatorTheorems {
  import opened SampleFormat
  import opened Validator

  // ----- Buffer boundaries do not matter -----

  lemma {:induction false} TrackConcat(v: Tracker, a: seq<nat>, b: seq<nat>)
    ensures Track(v, a + b) == Track(Track(v, a), b)
  {
    if b == [] {
      assert a + b == a;
    } else {
      var last := |b| - 1;
      assert (a + b)[..|a + b| - 1] == a + b[..last];
      TrackConcat(v, a, b[..last]);
    }
  }

  lemma {:induction false} PassedConcat(v: Tracker, a: seq<nat>, b: seq<nat>)
    ensures Passed(v, a + b) == if Passed(v, a) < |a| then Passed(v, a) else |a| + Passed(Track(v, a), b)
  {
    if b == [] {
      assert a + b == a;
    } else {
      var last := |b| - 1;
      assert (a + b)[..|a + b| - 1] == a + b[..last];
      PassedConcat(v, a, b[..last]);
      TrackConcat(v, a, b);
    }
  }

  lemma {:induction false} CountersConcat(a: seq<byte>, b: seq<byte>, n: nat)
    requires |a| % 2 == 0 && n <= Samples(b)
    ensures CountersTo(a + b, Samples(a) + n) == Counters(a) + CountersTo(b, n)
    decreases n
  {
    if n == 0 {
      CountersPrefix(a, b, Samples(a));
    } else {
      CountersConcat(a, b, n - 1);
    }
  }

  lemma {:induction false} CountersPrefix(a: seq<byte>, b: seq<byte>, n: nat)
    requires n <= Samples(a)
    ensures CountersTo(a + b, n) == CountersTo(a, n)
    ensures Values(a + b, n) == Values(a, n)
    ensures Stripped(a + b, n) == Stripped(a, n) + b
  {
    if n > 0 { CountersPrefix(a, b, n - 1); }
  }

  lemma CountersJoin(a: seq<byte>, b: seq<byte>)
    requires |a| % 2 == 0
    ensures Samples(a + b) == Samples(a) + Samples(b)
    ensures Counters(a + b) == Counters(a) + Counters(b)
  {
    CountersConcat(a, b, Samples(b));
  }

  lemma {:induction false} ValuesConcat(a: seq<byte>, b: seq<byte>, n: nat)
    requires |a| % 2 == 0 && n <= Samples(b)
    ensures Values(a + b, Samples(a) + n) == Values(a, Samples(a)) + Values(b, n)
    decreases n
  {
    if n == 0 {
      CountersPrefix(a, b, Samples(a));
    } else {
      ValuesConcat(a, b, n - 1);
    }
  }

  lemma {:induction false} StrippedConcat(a: seq<byte>, b: seq<byte>, n: nat)
    requires |a| % 2 == 0 && n <= Samples(b)
    ensures Stripped(a + b, Samples(a) + n) == Stripped(a, Samples(a)) + Stripped(b, n)
    decreases n
  {
    if n == 0 {
      CountersPrefix(a, b, Samples(a));
    } else {
      StrippedConcat(a, b, n - 1);
      var whole, left, right := Stripped(a + b, Samples(a) + n - 1), Stripped(a, Samples(a)), Stripped(b, n - 1);
      UpdateRight(left, right, 2 * n - 1, ValueBits(b[2 * n - 1]));
    }
  }

  lemma UpdateRight(left: seq<byte>, right: seq<byte>, i: nat, x: byte)
    requires i < |right|
    ensures (left + right)[|left| + i := x] == left + right[i := x]
  {
  }

  /** The result of a call whose first n samples are accepted, without the search. */
  function DirectResult(v: Tracker, counters: seq<nat>, bytes: seq<byte>, n: nat): Result
    requires n <= |counters| == Samples(bytes)
  {
    var tally := TallyOf(Values(bytes, n));
    var u := Track(v, counters[..n]);
    if n == |counters| then Result(u, QUIET.(tally := tally), Stripped(bytes, n))
    else Result(Advance(u, counters[n]), Mismatch(QUIET, u, counters[n], n).(tally := tally), Stripped(bytes, n))
  }

  lemma ProcessedDirect(v: Tracker, bytes: seq<byte>)
    requires v.state == Running || v.state == Disabled
    ensures Processed(v, bytes) == DirectResult(v, Counters(bytes), bytes, Passed(v, Counters(bytes)))
  {
    if Samples(bytes) == 0 {
      assert Counters(bytes) == [];
    } else {
      ProcessedSamples(v, bytes);
    }
  }

  lemma ProcessedSamples(v: Tracker, bytes: seq<byte>)
    requires (v.state == Running || v.state == Disabled) && Samples(bytes) > 0
    ensures Processed(v, bytes) == DirectResult(v, Counters(bytes), bytes, Passed(v, Counters(bytes)))
  {
    hide TallyOf, Values, Stripped, Track, Passed, Counters, Advance, Mismatch;
    var counters := Counters(bytes);
    assert counters[0..] == counters;
    assert counters[0..Passed(v, counters)] == counters[..Passed(v, counters)];
    assert counters[..|counters|] == counters;
  }

  lemma {:induction false} FirstRefused(v: Tracker, counters: seq<nat>)
    requires v.state != Failed && Passed(v, counters) < |counters|
    ensures var n := Passed(v, counters);
            && Track(v, counters[..n]).state != Failed
            && Advance(Track(v, counters[..n]), counters[n]).state == Failed
  {
    var last := |counters| - 1;
    var n := Passed(v, counters);
    if Passed(v, counters[..last]) < last {
      FirstRefused(v, counters[..last]);
      assert counters[..last][..n] == counters[..n];
    } else {
      PassedMeans(v, counters[..last]);
    }
  }

  /** Once past synchronisation, processing one buffer and then the next is the
      same as processing them joined: state, stripped bytes, tally and verdict. */
  lemma BoundariesDoNotMatter(v: Tracker, a: seq<byte>, b: seq<byte>)
    requires (v.state == Running || v.state == Disabled) && |a| % 2 == 0
    ensures var first := Processed(v, a);
            var second := Processed(first.tracker, b);
            var joined := Processed(v, a + b);
            && joined.tracker == second.tracker
            && joined.bytes == first.bytes + second.bytes
            && joined.outcome.tally == Merge(first.outcome.tally, second.outcome.tally)
            && joined.outcome.ok == (first.outcome.ok && second.outcome.ok)
            && (!first.outcome.ok ==> joined.outcome == first.outcome)
            && (first.outcome.ok && !second.outcome.ok ==>
                  joined.outcome == second.outcome.(tally := joined.outcome.tally,
                                                    mismatchIndex := Samples(a) + second.outcome.mismatchIndex))
  {
    ProcessedDirect(v, a);
    ProcessedDirect(v, a + b);
    CountersJoin(a, b);
    PassedConcat(v, Counters(a), Counters(b));
    if Passed(v, Counters(a)) < Samples(a) {
      JoinedStops(v, a, b);
    } else {
      JoinedGoesOn(v, a, b);
    }
  }

  lemma JoinedStops(v: Tracker, a: seq<byte>, b: seq<byte>)
    requires (v.state == Running || v.state == Disabled) && |a| % 2 == 0
    requires Passed(v, Counters(a)) < Samples(a)
    ensures Processed(Processed(v, a).tracker, b) == Result(Processed(v, a).tracker, QUIET.(ok := Samples(b) == 0), b)
    ensures Processed(v, a + b) == Processed(v, a).(bytes := Processed(v, a).bytes + b)
    ensures !Processed(v, a).outcome.ok
    ensures Merge(Processed(v, a).outcome.tally, EMPTY_TALLY) == Processed(v, a).outcome.tally
  {
    hide *;
    var ca, cb := Counters(a), Counters(b);
    var n := Passed(v, ca);
    FirstRefused(v, ca);
    ProcessedDirect(v, a);
    ProcessedDirect(v, a + b);
    CountersJoin(a, b);
    PassedConcat(v, ca, cb);
    CountersPrefix(a, b, n);
    DirectPrefix(v, ca, cb, a, b, n);
    TallySeeded(Values(a, n));
    DirectStops(v, ca, a, n);
    ProcessedFailed(Processed(v, a).tracker, b);
  }

  lemma ProcessedFailed(v: Tracker, bytes: seq<byte>)
    requires v.state == Failed
    ensures Processed(v, bytes) == Result(v, QUIET.(ok := Samples(bytes) == 0), bytes)
  {
  }

  lemma DirectStops(v: Tracker, counters: seq<nat>, bytes: seq<byte>, n: nat)
    requires n < |counters| == Samples(bytes) && Advance(Track(v, counters[..n]), counters[n]).state == Failed
    ensures var r := DirectResult(v, counters, bytes, n);
            r.tracker.state == Failed && !r.outcome.ok && r.outcome.tally == TallyOf(Values(bytes, n))
  {
  }

  lemma DirectPrefix(v: Tracker, ca: seq<nat>, cb: seq<nat>, a: seq<byte>, b: seq<byte>, n: nat)
    requires n < |ca| == Samples(a) && |ca + cb| == Samples(a + b)
    requires Values(a + b, n) == Values(a, n) && Stripped(a + b, n) == Stripped(a, n) + b
    ensures DirectResult(v, ca + cb, a + b, n)
         == DirectResult(v, ca, a, n).(bytes := DirectResult(v, ca, a, n).bytes + b)
  {
    assert (ca + cb)[..n] == ca[..n];
  }

  lemma JoinedGoesOn(v: Tracker, a: seq<byte>, b: seq<byte>)
    requires (v.state == Running || v.state == Disabled) && |a| % 2 == 0
    requires Passed(v, Counters(a)) == Samples(a)
    ensures Processed(v, a).outcome.ok
    ensures Processed(v, a + b) == Joined(Processed(v, a), Processed(Processed(v, a).tracker, b), Samples(a))
  {
    hide *;
    var ca, cb := Counters(a), Counters(b);
    var w := Track(v, ca);
    PassedMeans(v, ca);
    StateAfter(v, ca);
    assert ca[..Samples(a)] == ca;
    ProcessedDirect(v, a);
    ProcessedDirect(w, b);
    ProcessedDirect(v, a + b);
    CountersJoin(a, b);
    PassedConcat(v, ca, cb);
    DirectSuffix(v, a, b, Passed(w, cb));
    DirectCompletes(v, ca, a);
  }

  lemma DirectCompletes(v: Tracker, counters: seq<nat>, bytes: seq<byte>)
    requires |counters| == Samples(bytes)
    ensures DirectResult(v, counters, bytes, |counters|) ==
              Result(Track(v, counters), QUIET.(tally := TallyOf(Values(bytes, |counters|))), Stripped(bytes, |counters|))
    ensures DirectResult(v, counters, bytes, |counters|).outcome.ok
  {
    assert counters[..|counters|] == counters;
  }

  /** The result of two calls, put together. */
  function Joined(first: Result, second: Result, samples: nat): Result
  {
    var tally := Merge(first.outcome.tally, second.outcome.tally);
    Result(second.tracker,
           if second.outcome.ok then second.outcome.(tally := tally)
           else second.outcome.(tally := tally, mismatchIndex := samples + second.outcome.mismatchIndex),
           first.bytes + second.bytes)
  }

  lemma DirectSuffix(v: Tracker, a: seq<byte>, b: seq<byte>, n: nat)
    requires |a| % 2 == 0 && n <= Samples(b) && Counters(a + b) == Counters(a) + Counters(b)
    ensures var w := Track(v, Counters(a));
            DirectResult(v, Counters(a) + Counters(b), a + b, Samples(a) + n) ==
              Joined(Result(w, QUIET.(tally := TallyOf(Values(a, Samples(a)))), Stripped(a, Samples(a))),
                   DirectResult(w, Counters(b), b, n), Samples(a))
  {
    hide TallyOf, Values, Stripped, Track, Merge, Counters;
    var ca, cb := Counters(a), Counters(b);
    ValuesConcat(a, b, n);
    StrippedConcat(a, b, n);
    TallyConcat(Values(a, Samples(a)), Values(b, n));
    assert (ca + cb)[..Samples(a) + n] == ca + cb[..n];
    TrackConcat(v, ca, cb[..n]);
  }

  lemma {:induction false} StateAfter(v: Tracker, counters: seq<nat>)
    requires v.state == Running || v.state == Disabled
    ensures Track(v, counters).state == v.state || Track(v, counters).state == Failed
  {
    if counters != [] { StateAfter(v, counters[..|counters| - 1]); }
  }

  // ----- What one call measures, strips and decides -----

  /** How many samples a call has measured and stripped: all of them, or those before
      the one it refused. */
  function Taken(v: Tracker, bytes: seq<byte>): nat
  {
    var r := Processed(v, bytes);
    if v.state == Failed then 0 else if r.outcome.ok then Samples(bytes) else r.outcome.mismatchIndex
  }

  /** Each value is the ten low bits of its word, and the figures are of these values. */
  lemma ProcessedMeasures(v: Tracker, bytes: seq<byte>)
    ensures var n := Taken(v, bytes);
            && n <= Samples(bytes) && TenBit(Values(bytes, n))
            && Measures(Processed(v, bytes).outcome.tally, Values(bytes, n))
            && forall i :: 0 <= i < n ==> Values(bytes, n)[i] == (bytes[2 * i] as int + 256 * bytes[2 * i + 1] as int) % 1024
  {
    hide Measures, Taken, Values, TenBit, TallyOf, Processed;
    var n := Taken(v, bytes);
    TakenIs(v, bytes);
    ValuesAre(bytes, n);
    TallyMeasures(Values(bytes, n));
  }

  lemma TakenIs(v: Tracker, bytes: seq<byte>)
    ensures var n, r := Taken(v, bytes), Processed(v, bytes);
            n <= Samples(bytes) && r.outcome.tally == TallyOf(Values(bytes, n)) && r.bytes == Stripped(bytes, n)
  {
    hide Synchronise, Track, Advance, Passed, Counters;
    if Samples(bytes) > 0 && v.state != Failed { ReportsWhere(v, bytes); }
  }

  lemma ReportsWhere(v: Tracker, bytes: seq<byte>)
    requires Samples(bytes) > 0 && v.state != Failed
    ensures var n := Taken(v, bytes);
            n <= Samples(bytes) && Processed(v, bytes).outcome.tally == TallyOf(Values(bytes, n))
            && Processed(v, bytes).bytes == Stripped(bytes, n)
  {
    hide Synchronise, Track, Advance, Passed, TallyOf, Values, Stripped, Counters;
    SynchroniseIsOk(v, Counters(bytes));
  }

  lemma SynchroniseIsOk(v: Tracker, counters: seq<nat>)
    requires |counters| > 0
    ensures Synchronise(v, counters).2.ok
  {
  }

  lemma {:induction false} ValuesAre(bytes: seq<byte>, n: nat)
    requires n <= Samples(bytes)
    ensures TenBit(Values(bytes, n))
    ensures forall i :: 0 <= i < n ==> Values(bytes, n)[i] == (bytes[2 * i] as int + 256 * bytes[2 * i + 1] as int) % 1024
  {
    if n > 0 { ValuesAre(bytes, n - 1); }
  }

  /** The markers of those samples are cleared and no other byte is touched. */
  lemma ProcessedStrips(v: Tracker, bytes: seq<byte>)
    ensures var n, now := Taken(v, bytes), Processed(v, bytes).bytes;
            && |now| == |bytes|
            && forall i :: 0 <= i < |bytes| ==> now[i] == if i % 2 == 1 && i < 2 * n then bytes[i] % 4 else bytes[i]
  {
    hide Taken, Values, TallyOf, Processed, Stripped;
    TakenIs(v, bytes);
    StrippedIs(bytes, Taken(v, bytes));
  }

  lemma {:induction false} StrippedIs(bytes: seq<byte>, n: nat)
    requires n <= Samples(bytes)
    ensures forall i :: 0 <= i < |bytes| ==> Stripped(bytes, n)[i] == if i % 2 == 1 && i < 2 * n then bytes[i] % 4 else bytes[i]
  {
    if n > 0 { StrippedIs(bytes, n - 1); }
  }

  /** Counters that never change within the longest block and one sample are no
      markers: the check is given up, for good, and nothing is refused. */
  lemma UnmarkedIsAccepted(v: Tracker, bytes: seq<byte>)
    requires Samples(bytes) > 0 && (v.state == Synchronising || v.state == Disabled)
    ensures var r := Processed(v, bytes);
            (r.tracker.state == Disabled
             <==> v.state == Disabled
                  || forall i :: 0 <= i < Samples(bytes) && i <= LEGACY_SAMPLES_PER_COUNTER ==> Counters(bytes)[i] == Counters(bytes)[0])
            && (r.tracker.state == Disabled ==> r.outcome.ok && Taken(v, bytes) == Samples(bytes))
  {
    hide Counters, TallyOf, Values, Stripped, Mismatch;
    var counters := Counters(bytes);
    var (w, from, outcome) := Synchronise(v, counters);
    if w.state == Disabled {
      FailedStays(w, counters[from..]);
    } else {
      var n := from + Passed(w, counters[from..]);
      StaysEnabled(w, counters[from..]);
      StaysEnabled(w, counters[from..n]);
    }
  }

  lemma {:induction false} StaysEnabled(v: Tracker, counters: seq<nat>)
    requires v.state == Running
    ensures Track(v, counters).state != Disabled
  {
    if counters != [] { StaysEnabled(v, counters[..|counters| - 1]); }
  }

  /** The lock is acquired in a call exactly when the check has not been settled before
      and a counter other than the opening one appears within the longest block and one
      sample; the report then says where the first of them is. */
  lemma LocksExactly(v: Tracker, bytes: seq<byte>)
    requires Samples(bytes) > 0
    ensures var o, counters := Processed(v, bytes).outcome, Counters(bytes);
            && (o.synchronisedHere
                <==> v.state == Synchronising
                     && exists k :: 0 <= k < |counters| && k <= LEGACY_SAMPLES_PER_COUNTER && counters[k] != counters[0])
            && (o.synchronisedHere ==>
                  && o.firstCounter == counters[0] && 0 < o.synchronisationIndex < |counters|
                  && counters[o.synchronisationIndex] != counters[0]
                  && forall i :: 0 <= i < o.synchronisationIndex ==> counters[i] == counters[0])
  {
    hide Counters, TallyOf, Values, Stripped, Track, Passed, Advance;
  }
}
