/**
  Which streams the counter check accepts and which losses it can miss.

  A genuine stream carries, in its i-th sample, the counter that i / block steps
  of the cycle lead to.
 */
module ValidatorDetection {
  import opened Division
  import opened SampleFormat
  import opened Validator
  import opened ValidatorTheorems

  /** The counter k steps after c. */
  function Cycle(c: nat, k: nat): nat
  {
    if k == 0 then c else NextCounterValue(Cycle(c, k - 1))
  }

  predicate Conforms(counters: seq<nat>, c: nat, block: nat)
    requires block > 0
  {
    forall i :: 0 <= i < |counters| ==> counters[i] == Cycle(c, i / block)
  }

  /** The tracker after n samples of a genuine stream that opened with c. */
  function After(c: nat, block: nat, n: nat): (r: Tracker)
    requires block > 0
    ensures r.state == Running
  {
    if n == 0 then Tracker(Running, c, 0, 0)
    else Tracker(Running, Cycle(c, (n - 1) / block), (n - 1) % block + 1, if n <= block then 0 else block)
  }

  lemma CycleSteps(c: nat, k: nat)
    ensures Cycle(c, k + 1) == NextCounterValue(Cycle(c, k))
  {
  }

  lemma CycleStarts(c: nat)
    ensures Cycle(c, 0) == c && Cycle(c, 1) == NextCounterValue(c)
    ensures Cycle(c, 2) == NextCounterValue(Cycle(c, 1)) && Cycle(c, 3) == NextCounterValue(Cycle(c, 2))
  {
    CycleSteps(c, 1);
    CycleSteps(c, 2);
  }

  lemma NextDiffers(c: nat)
    ensures NextCounterValue(c) != c
  {
  }

  /** From a genuine position the genuine next counter is accepted. */
  lemma GenuineStep(c: nat, block: nat, n: nat)
    requires IsKnownBlock(block)
    ensures Advance(After(c, block, n), Cycle(c, n / block)) == After(c, block, n + 1)
  {
    if n > 0 {
      NextPosition(n - 1, block);
      NextDiffers(Cycle(c, (n - 1) / block));
    }
  }

  /** Once the block length has been learned, nothing else is. */
  lemma OnlyGenuine(c: nat, block: nat, n: nat, x: nat)
    requires IsKnownBlock(block) && n > block && x != Cycle(c, n / block)
    ensures Advance(After(c, block, n), x).state == Failed
  {
    hide Cycle;
    CycleSteps(c, (n - 1) / block);
    NextPosition(n - 1, block);
    NextDiffers(Cycle(c, (n - 1) / block));
  }

  lemma {:induction false} TrackGenuine(c: nat, block: nat, counters: seq<nat>)
    requires IsKnownBlock(block) && Conforms(counters, c, block)
    ensures Track(After(c, block, 0), counters) == After(c, block, |counters|)
  {
    if counters != [] {
      var last := |counters| - 1;
      TrackGenuine(c, block, counters[..last]);
      GenuineStep(c, block, last);
    }
  }

  /** A stream is accepted from the lock on exactly when its counters are runs of
      one common length, one of the two ever shipped, in cyclic order. */
  lemma {:induction false} AcceptsExactly(c: nat, counters: seq<nat>)
    ensures Track(Tracker(Running, c, 0, 0), counters).state == Running
       <==> Conforms(counters, c, SAMPLES_PER_COUNTER) || Conforms(counters, c, LEGACY_SAMPLES_PER_COUNTER)
  {
    var v := Tracker(Running, c, 0, 0);
    if Conforms(counters, c, SAMPLES_PER_COUNTER) {
      TrackGenuine(c, SAMPLES_PER_COUNTER, counters);
    } else if Conforms(counters, c, LEGACY_SAMPLES_PER_COUNTER) {
      TrackGenuine(c, LEGACY_SAMPLES_PER_COUNTER, counters);
    } else if Track(v, counters).state == Running {
      var last := |counters| - 1;
      AcceptsExactly(c, counters[..last]);
      if Conforms(counters[..last], c, SAMPLES_PER_COUNTER) {
        TrackGenuine(c, SAMPLES_PER_COUNTER, counters[..last]);
        RefusesOther(c, SAMPLES_PER_COUNTER, counters);
      } else {
        TrackGenuine(c, LEGACY_SAMPLES_PER_COUNTER, counters[..last]);
        RefusesOther(c, LEGACY_SAMPLES_PER_COUNTER, counters);
      }
      assert false;
    }
  }

  lemma RefusesOther(c: nat, block: nat, counters: seq<nat>)
    requires IsKnownBlock(block) && |counters| > 0 && Conforms(counters[..|counters| - 1], c, block)
    requires !Conforms(counters, c, SAMPLES_PER_COUNTER) && !Conforms(counters, c, LEGACY_SAMPLES_PER_COUNTER)
    ensures Advance(After(c, block, |counters| - 1), counters[|counters| - 1]).state == Failed
  {
    var n := |counters| - 1;
    var x := counters[n];
    assert x != Cycle(c, n / block);
    if n > block {
      OnlyGenuine(c, block, n, x);
    } else {
      // No change has been seen yet, so the prefix fits either block length.
      assert forall i :: 0 <= i < n ==> counters[i] == Cycle(c, 0);
    }
  }

  // ----- Losses -----

  /** The counters of n genuine samples from the given position on. */
  function Genuine(c: nat, block: nat, from: nat, n: nat): (s: seq<nat>)
    requires block > 0
    ensures |s| == n
    ensures forall j :: 0 <= j < n ==> s[j] == Cycle(c, (from + j) / block)
  {
    if n == 0 then [] else Genuine(c, block, from, n - 1) + [Cycle(c, (from + n - 1) / block)]
  }

  /** A locked validator that knows the block length accepts one continuation only. */
  lemma {:induction false} OneContinuation(c: nat, block: nat, p: nat, counters: seq<nat>)
    requires IsKnownBlock(block) && p > block
    ensures Track(After(c, block, p), counters).state == Running <==> counters == Genuine(c, block, p, |counters|)
    ensures counters == Genuine(c, block, p, |counters|) ==>
              Track(After(c, block, p), counters) == After(c, block, p + |counters|)
  {
    hide After, Advance, Cycle, Genuine, Track;
    var v := After(c, block, p);
    GenuineGrows(c, block, p, |counters|);
    if counters == [] {
      TrackGrows(v, [], 0);
    } else {
      var last := |counters| - 1;
      var before, x := counters[..last], counters[last];
      assert counters == before + [x];
      OneContinuation(c, block, p, before);
      TrackGrows(v, before, x);
      StepAfter(Track(v, before), x);
      GenuineStep(c, block, p + last);
      if x != Cycle(c, (p + last) / block) {
        OnlyGenuine(c, block, p + last, x);
      }
    }
  }

  lemma StepAfter(v: Tracker, x: nat)
    ensures v.state != Running ==> Advance(v, x) == v
  {
  }

  lemma GenuineGrows(c: nat, block: nat, from: nat, n: nat)
    requires block > 0
    ensures Genuine(c, block, from, 0) == []
    ensures n > 0 ==> Genuine(c, block, from, n) == Genuine(c, block, from, n - 1) + [Cycle(c, (from + n - 1) / block)]
  {
  }

  lemma TrackGrows(v: Tracker, counters: seq<nat>, x: nat)
    ensures Track(v, []) == v
    ensures Track(v, counters + [x]) == Advance(Track(v, counters), x)
    ensures v.state == Failed ==> Advance(v, x) == v
  {
    assert (counters + [x])[..|counters|] == counters;
  }

  lemma {:induction false} CycleIsModular(c: nat, k: nat)
    requires c < SEQUENCE_COUNTER_VALUES
    ensures Cycle(c, k) == (c + k) % SEQUENCE_COUNTER_VALUES
  {
    if k > 0 {
      CycleIsModular(c, k - 1);
      NextIsModular(c, k);
    }
  }

  lemma NextIsModular(c: nat, k: nat)
    requires k > 0
    ensures NextCounterValue((c + k - 1) % SEQUENCE_COUNTER_VALUES) == (c + k) % SEQUENCE_COUNTER_VALUES
  {
    var m := c + k - 1;
    assert m == 63 * (m / 63) + m % 63;
  }

  lemma CycleRepeats(c: nat, a: nat, b: nat)
    requires c < SEQUENCE_COUNTER_VALUES && a <= b
    ensures Cycle(c, a) == Cycle(c, b) <==> (b - a) % SEQUENCE_COUNTER_VALUES == 0
  {
    CycleIsModular(c, a);
    CycleIsModular(c, b);
  }

  /** A whole number of periods leaves every later counter as it was. */
  lemma WholePeriodsInvisible(c: nat, block: nat, i: nat, periods: nat)
    requires c < SEQUENCE_COUNTER_VALUES && block > 0
    ensures Cycle(c, (i + periods * (SEQUENCE_COUNTER_VALUES * block)) / block) == Cycle(c, i / block)
  {
    var m := periods * SEQUENCE_COUNTER_VALUES;
    assert periods * (SEQUENCE_COUNTER_VALUES * block) == m * block;
    AddBlocks(i, block, m);
    CycleRepeats(c, i / block, i / block + m);
  }

  /** The window of one block and one sample after the seam shows any other loss. */
  lemma WindowShows(c: nat, block: nat, p: nat, k: nat)
    requires c < SEQUENCE_COUNTER_VALUES && block > 0
    requires Genuine(c, block, p + k, block + 1) == Genuine(c, block, p, block + 1)
    ensures k % (SEQUENCE_COUNTER_VALUES * block) == 0
  {
    // The first block boundary strictly after p.
    var j := block - p % block;
    FirstBoundary(p, block);
    WindowAt(c, block, p, k, j - 1);
    WindowAt(c, block, p, k, j);
    BoundaryShows(c, block, p + j, k);
  }

  lemma WindowAt(c: nat, block: nat, p: nat, k: nat, j: nat)
    requires block > 0 && j <= block
    requires Genuine(c, block, p + k, block + 1) == Genuine(c, block, p, block + 1)
    ensures Cycle(c, (p + j + k) / block) == Cycle(c, (p + j) / block)
  {
    hide Cycle, Genuine;
    var there, here := Genuine(c, block, p + k, block + 1), Genuine(c, block, p, block + 1);
    assert there[j] == Cycle(c, (p + k + j) / block) && here[j] == Cycle(c, (p + j) / block);
    assert p + k + j == p + j + k;
  }

  lemma FirstBoundary(p: nat, block: nat)
    requires block > 0
    ensures var at := p + (block - p % block);
            at % block == 0 && at / block > 0 && (at - 1) / block == at / block - 1
  {
    var q, r := p / block, p % block;
    var at := p + (block - r);
    assert at == (q + 1) * block by { assert (q + 1) * block == q * block + block; }
    Quotient(at, block, q + 1, 0);
    assert at - 1 == q * block + (block - 1);
    Quotient(at - 1, block, q, block - 1);
  }

  /** Both sides of a block boundary look the same k samples further on. */
  lemma BoundaryShows(c: nat, block: nat, at: nat, k: nat)
    requires c < SEQUENCE_COUNTER_VALUES && block > 0 && at > 0
    requires at % block == 0 && at / block > 0 && (at - 1) / block == at / block - 1
    requires Cycle(c, (at + k - 1) / block) == Cycle(c, (at - 1) / block)
    requires Cycle(c, (at + k) / block) == Cycle(c, at / block)
    ensures k % (SEQUENCE_COUNTER_VALUES * block) == 0
  {
    var q, before, after := at / block, (at + k - 1) / block, (at + k) / block;
    NextPosition(at + k - 1, block);
    Monotone(at - 1, at + k - 1, block);
    Monotone(at, at + k, block);
    CycleRepeats(c, q - 1, before);
    CycleRepeats(c, q, after);
    assert (at + k) % block == 0;
    Difference(at, k, block, q, after);
    PeriodMultiple(k, block, after - q);
  }

  lemma Difference(at: nat, k: nat, block: nat, q: nat, after: nat)
    requires block > 0 && at == q * block && at + k == after * block && q <= after
    ensures k == (after - q) * block
  {
    assert after * block == (after - q) * block + q * block;
  }

  lemma PeriodMultiple(k: nat, block: nat, m: nat)
    requires block > 0 && k == m * block && m % SEQUENCE_COUNTER_VALUES == 0
    ensures k % (SEQUENCE_COUNTER_VALUES * block) == 0
  {
    var periods := m / SEQUENCE_COUNTER_VALUES;
    assert m == 63 * periods;
    assert k == periods * (63 * block) by { assert (63 * periods) * block == periods * (63 * block); }
    Quotient(k, 63 * block, periods, 0);
  }

  /** The tracker n samples past a seam at which k samples were lost. */
  function PastSeam(c: nat, block: nat, p: nat, k: nat, n: nat): Tracker
    requires block > 0
  {
    Track(After(c, block, p), Genuine(c, block, p + k, n))
  }

  /** Exactly which losses go unseen.  The validator has locked and learned the
      block length from the p samples before the seam; then k samples vanish. */
  lemma DetectableLosses(c: nat, block: nat, p: nat, k: nat)
    requires c < SEQUENCE_COUNTER_VALUES && IsKnownBlock(block) && p > block
    ensures k % (SEQUENCE_COUNTER_VALUES * block) == 0 ==>
              forall n: nat :: PastSeam(c, block, p, k, n).state == Running
    ensures k % (SEQUENCE_COUNTER_VALUES * block) != 0 ==>
              PastSeam(c, block, p, k, block + 1).state == Failed
  {
    var v := After(c, block, p);
    if k % (SEQUENCE_COUNTER_VALUES * block) == 0 {
      forall n: nat
        ensures PastSeam(c, block, p, k, n).state == Running
      {
        SameAfterPeriods(c, block, p, k, n);
        OneContinuation(c, block, p, Genuine(c, block, p, n));
      }
    } else {
      var seen := Genuine(c, block, p + k, block + 1);
      OneContinuation(c, block, p, seen);
      StateAfter(v, seen);
      if Track(v, seen).state == Running { WindowShows(c, block, p, k); }
    }
  }

  lemma {:induction false} SameAfterPeriods(c: nat, block: nat, p: nat, k: nat, n: nat)
    requires c < SEQUENCE_COUNTER_VALUES && block > 0 && k % (SEQUENCE_COUNTER_VALUES * block) == 0
    ensures Genuine(c, block, p + k, n) == Genuine(c, block, p, n)
    decreases n
  {
    hide Genuine, Cycle;
    GenuineGrows(c, block, p + k, n);
    GenuineGrows(c, block, p, n);
    if n > 0 {
      SameAfterPeriods(c, block, p, k, n - 1);
      PeriodsIn(k, SEQUENCE_COUNTER_VALUES * block);
      WholePeriodsInvisible(c, block, p + n - 1, k / (SEQUENCE_COUNTER_VALUES * block));
      assert p + k + n - 1 == p + n - 1 + k;
    }
  }

  lemma PeriodsIn(k: nat, period: nat)
    requires period > 0 && k % period == 0
    ensures k == (k / period) * period
  {
  }

  const SAMPLES_PER_PACKET := 512
  const PERIOD := SEQUENCE_COUNTER_VALUES * SAMPLES_PER_COUNTER
  const LEGACY_PERIOD := SEQUENCE_COUNTER_VALUES * LEGACY_SAMPLES_PER_COUNTER

  /** With the odd block length, losing whole packets unseen takes 512 periods. */
  lemma UnseenPacketLoss(c: nat, p: nat, packets: nat)
    requires c < SEQUENCE_COUNTER_VALUES && p > SAMPLES_PER_COUNTER && packets > 0
    requires PastSeam(c, SAMPLES_PER_COUNTER, p, packets * SAMPLES_PER_PACKET, SAMPLES_PER_COUNTER + 1).state != Failed
    ensures packets * SAMPLES_PER_PACKET >= 512 * PERIOD
  {
    var k := packets * SAMPLES_PER_PACKET;
    DetectableLosses(c, SAMPLES_PER_COUNTER, p, k);
    var q := k / PERIOD;
    assert k == q * PERIOD;
    // PERIOD is odd: 65 * PERIOD = 1 modulo 512, so q itself is a multiple of 512.
    assert 65 * PERIOD == 1 + 512 * 524152;
    assert q == 512 * (65 * packets - 524152 * q);
  }

  /** With the legacy block length a single period already is a whole number of packets. */
  lemma LegacyUnseenLoss(c: nat, p: nat, n: nat)
    requires c < SEQUENCE_COUNTER_VALUES && p > LEGACY_SAMPLES_PER_COUNTER
    ensures LEGACY_PERIOD == 8064 * SAMPLES_PER_PACKET
    ensures PastSeam(c, LEGACY_SAMPLES_PER_COUNTER, p, 8064 * SAMPLES_PER_PACKET, n).state == Running
  {
    DetectableLosses(c, LEGACY_SAMPLES_PER_COUNTER, p, LEGACY_PERIOD);
  }

  // ----- What a report says -----

  /** How many counter steps the loss has skipped, as far as the counters show. */
  function Skipped(block: nat, p: nat, k: nat): nat
    requires block > 0
  {
    Monotone(p, p + k, block);
    ((p + k) / block - p / block) % SEQUENCE_COUNTER_VALUES
  }

  /** How many samples after the seam are accepted before the check stops. */
  function StopsAfter(block: nat, p: nat, k: nat): nat
    requires IsKnownBlock(block)
  {
    if p <= block then FirstBlockStopsAfter(block, p, k) else LearnedStopsAfter(block, p, k)
  }

  /** What the report gives as the number of samples the run was short of. */
  function Reported(block: nat, p: nat, k: nat): nat
    requires IsKnownBlock(block)
  {
    if p <= block then FirstBlockReported(block, p, k) else LearnedReported(block, p, k)
  }

  /** Past the first block the block length is known. */
  function LearnedStopsAfter(block: nat, p: nat, k: nat): nat
    requires block > 0
  {
    if Skipped(block, p, k) != 0 then 0
    else block - (if (p + k) % block > p % block then (p + k) % block else p % block)
  }

  /** With a counter visibly skipped, what was left of the run; with none, the places
      in the block by which the stream is ahead, or nothing when it is behind. */
  function LearnedReported(block: nat, p: nat, k: nat): nat
    requires block > 0
  {
    if Skipped(block, p, k) != 0 then (if p % block == 0 then 0 else block - p % block)
    else if (p + k) % block > p % block then (p + k) % block - p % block
    else 0
  }

  /** Which counter the stream goes on with, in steps from the first. */
  function Ahead(block: nat, p: nat, k: nat): nat
    requires block > 0
  {
    (p + k) / block % SEQUENCE_COUNTER_VALUES
  }

  /** For how many samples it does. */
  function Left(block: nat, p: nat, k: nat): nat
    requires block > 0
  {
    block - (p + k) % block
  }

  /** Until the first block is over nothing but the longer length bounds the run, and
      a run of either length is taken as the block length, whichever it really is. */
  function FirstBlockStopsAfter(block: nat, p: nat, k: nat): nat
    requires IsKnownBlock(block) && p <= block
  {
    var left := Left(block, p, k);
    if Ahead(block, p, k) == 0 then
      if p + left > MAXIMUM_SAMPLES_PER_COUNTER then MAXIMUM_SAMPLES_PER_COUNTER - p
      else if IsKnownBlock(p + left) then left + SAMPLES_PER_COUNTER
      else left
    else if Ahead(block, p, k) == 1 && IsKnownBlock(p) then
      if p == block then left
      else if left == block then SAMPLES_PER_COUNTER
      else if left == SAMPLES_PER_COUNTER then 2 * SAMPLES_PER_COUNTER
      else left
    else 0
  }

  function FirstBlockReported(block: nat, p: nat, k: nat): nat
    requires IsKnownBlock(block) && p <= block
  {
    var left := Left(block, p, k);
    if Ahead(block, p, k) == 0 then
      if p + left > MAXIMUM_SAMPLES_PER_COUNTER then 0
      else if IsKnownBlock(p + left) then MAXIMUM_SAMPLES_PER_COUNTER - block
      else MAXIMUM_SAMPLES_PER_COUNTER - (p + left)
    else if Ahead(block, p, k) == 1 && IsKnownBlock(p) then
      if left >= p then 0 else p - left
    else MAXIMUM_SAMPLES_PER_COUNTER - p
  }

  /** When the figure in the report is the loss.  Past the first block: if less than a
      block was lost and the loss ends no later than the block it began in.  Within
      it the figure is measured against the longer length: it is too large by one for
      the shorter, and for the longer a loss of one sample is taken for the shorter. */
  predicate FigureIsLoss(block: nat, p: nat, k: nat)
    requires block > 0
  {
    if p >= block then k < block && k <= block - p % block
    else if block == LEGACY_SAMPLES_PER_COUNTER then 1 < k <= block - p
    else k == block - p + 1
  }

  /** Which counter the report names as the one expected, in steps from the first. */
  function Named(block: nat, p: nat, k: nat): nat
    requires IsKnownBlock(block)
  {
    if p <= block then FirstBlockNamed(block, p, k) else LearnedNamed(block, p, k)
  }

  /** The one due where the check stops; but a jump at the very end of a run is reported
      as if the run had still to go on, unless it is back to that run's own counter. */
  function LearnedNamed(block: nat, p: nat, k: nat): nat
    requires block > 0 && p > block
  {
    if Skipped(block, p, k) in {0, 62} || p % block != 0 then (p + LearnedStopsAfter(block, p, k)) / block
    else
      PlaceBefore(p, block);
      p / block - 1
  }

  function FirstBlockNamed(block: nat, p: nat, k: nat): nat
    requires IsKnownBlock(block) && p <= block
  {
    var left := Left(block, p, k);
    if Ahead(block, p, k) == 0 then
      if p + left > MAXIMUM_SAMPLES_PER_COUNTER then 1
      else if IsKnownBlock(p + left) then if block == LEGACY_SAMPLES_PER_COUNTER then 2 else 1
      else 0
    else if Ahead(block, p, k) == 1 && IsKnownBlock(p) then
      if p == block then 1 else if left == block then 2 else if left == SAMPLES_PER_COUNTER then 3 else 1
    else 0
  }

  /** The check stops: the next counter is refused, and the report gives where, which
      counter was found and which expected, and the shortfall. */
  ghost predicate Stops(u: Tracker, x: nat, named: nat, reported: nat)
  {
    && u.state == Running && Advance(u, x).state == Failed
    && forall index: nat :: Mismatch(QUIET, u, x, index) == Refusal(index, x, named, reported)
  }

  function Refusal(index: nat, found: nat, named: nat, reported: nat): Outcome
  {
    QUIET.(ok := false, mismatchIndex := index, actual := found, expected := named, remaining := reported)
  }

  ghost predicate StopsFrom(v: Tracker, c: nat, block: nat, at: nat, n: nat, named: nat, reported: nat)
    requires block > 0
  {
    Stops(Track(v, Genuine(c, block, at, n)), Cycle(c, (at + n) / block), named, reported)
  }

  ghost predicate StopsPast(c: nat, block: nat, p: nat, k: nat, n: nat, e: nat, reported: nat)
    requires block > 0
  {
    StopsFrom(After(c, block, p), c, block, p + k, n, Cycle(c, e), reported)
  }

  /** Every detectable loss, from anywhere after the lock and of whatever length:
      where the check stops, what it reports, and when that is the loss. */
  lemma ReportedShortfall(c: nat, block: nat, p: nat, k: nat)
    requires c < SEQUENCE_COUNTER_VALUES && IsKnownBlock(block)
    requires k % (SEQUENCE_COUNTER_VALUES * block) != 0
    ensures StopsPast(c, block, p, k, StopsAfter(block, p, k), Named(block, p, k), Reported(block, p, k))
    ensures Reported(block, p, k) == k <==> FigureIsLoss(block, p, k)
  {
    hide After, Cycle, Genuine, Track, PastSeam, StopsPast, Skipped;
    hide LearnedStopsAfter, LearnedReported, LearnedNamed, FirstBlockStopsAfter, FirstBlockReported, FirstBlockNamed, FigureIsLoss;
    InPlace(block, p, k);
    if p > block {
      StopsInLearned(c, block, p, k);
      LearnedIsLoss(block, p, k);
    } else {
      StopsInFirst(c, block, p, k);
      FirstIsLoss(block, p, k);
    }
  }

  /** So a loss goes unseen for ever exactly when it is a whole number of periods,
      the first block included. */
  lemma UnseenExactly(c: nat, block: nat, p: nat, k: nat)
    requires c < SEQUENCE_COUNTER_VALUES && IsKnownBlock(block)
    ensures (forall n: nat :: PastSeam(c, block, p, k, n).state == Running) <==> k % (SEQUENCE_COUNTER_VALUES * block) == 0
  {
    hide After, Advance, Cycle, Genuine, Track, PastSeam, Mismatch;
    if k % (SEQUENCE_COUNTER_VALUES * block) == 0 {
      forall n: nat ensures PastSeam(c, block, p, k, n).state == Running {
        SeamIs(c, block, p, k, n);
        SameAfterPeriods(c, block, p, k, n);
        TrackAlong(c, block, p, n);
      }
    } else {
      hide StopsAfter, Reported, FigureIsLoss;
      ReportedShortfall(c, block, p, k);
      StoppedPast(c, block, p, k, StopsAfter(block, p, k), Named(block, p, k), Reported(block, p, k));
    }
  }

  lemma StoppedPast(c: nat, block: nat, p: nat, k: nat, n: nat, e: nat, reported: nat)
    requires block > 0
    ensures StopsPast(c, block, p, k, n, e, reported) ==> PastSeam(c, block, p, k, n + 1).state == Failed
  {
    hide After, Advance, Cycle, Genuine, Track, PastSeam;
    SeamIs(c, block, p, k, n + 1);
    GenuineGrows(c, block, p + k, n + 1);
    assert p + k + (n + 1) - 1 == p + k + n;
    TrackGrows(After(c, block, p), Genuine(c, block, p + k, n), Cycle(c, (p + k + n) / block));
  }

  /** Past the first block the counter the report names is the one due at the sample it
      points to, except for a jump at a block's beginning: there it is the one before. */
  lemma NamesTheOneDue(c: nat, block: nat, p: nat, k: nat)
    requires c < SEQUENCE_COUNTER_VALUES && IsKnownBlock(block) && p > block
    requires k % (SEQUENCE_COUNTER_VALUES * block) != 0
    ensures Cycle(c, Named(block, p, k)) == Cycle(c, (p + StopsAfter(block, p, k)) / block)
       <==> Skipped(block, p, k) in {0, 62} || p % block != 0
  {
    hide Cycle, Skipped;
    if Skipped(block, p, k) !in {0, 62} && p % block == 0 {
      SkippedBack(c, block, p, k);
      NextDiffers(Cycle(c, p / block - 1));
    }
  }

  lemma SeamIs(c: nat, block: nat, p: nat, k: nat, n: nat)
    requires block > 0
    ensures PastSeam(c, block, p, k, n) == Track(After(c, block, p), Genuine(c, block, p + k, n))
  {
  }

  lemma {:induction false} TrackAlong(c: nat, block: nat, p: nat, n: nat)
    requires IsKnownBlock(block)
    ensures Track(After(c, block, p), Genuine(c, block, p, n)) == After(c, block, p + n)
  {
    hide After, Advance, Cycle, Genuine, Track;
    GenuineGrows(c, block, p, n);
    if n == 0 {
      TrackGrows(After(c, block, p), [], 0);
    } else {
      TrackAlong(c, block, p, n - 1);
      TrackGrows(After(c, block, p), Genuine(c, block, p, n - 1), Cycle(c, (p + n - 1) / block));
      GenuineStep(c, block, p + n - 1);
    }
  }

  /** A loss that no counter step shows, and that can be detected, changes the place
      in the block. */
  lemma InPlace(block: nat, p: nat, k: nat)
    requires block > 0 && k % (SEQUENCE_COUNTER_VALUES * block) != 0
    ensures Skipped(block, p, k) == 0 ==> (p + k) % block != p % block
  {
    Monotone(p, p + k, block);
    var q, q' := p / block, (p + k) / block;
    if Skipped(block, p, k) == 0 && (p + k) % block == p % block {
      Difference(q * block, k, block, q, q');
      PeriodMultiple(k, block, q' - q);
    }
  }

  // ----- In the first block -----

  /** The run goes on while the stream stays in its block and the limit allows. */
  lemma {:induction false} RunGoesOn(v: Tracker, c: nat, block: nat, at: nat, n: nat)
    requires block > 0 && v.state == Running && v.counter == Cycle(c, at / block)
    requires at % block + n <= block && v.run + n <= RunLimit(v)
    ensures Track(v, Genuine(c, block, at, n)) == v.(run := v.run + n)
    decreases n
  {
    hide Cycle, Genuine, Track;
    GenuineGrows(c, block, at, n);
    if n == 0 {
      TrackGrows(v, [], 0);
    } else {
      RunGoesOn(v, c, block, at, n - 1);
      SameBlock(at, n - 1, block);
      TrackGrows(v, Genuine(c, block, at, n - 1), Cycle(c, (at + n - 1) / block));
    }
  }

  /** The length a completed run gives: the one known, or its own. */
  function Length(v: Tracker): nat { if v.block == 0 then v.run else v.block }

  /** A completed run is followed by the next, measured against its length. */
  lemma NextRun(v: Tracker, c: nat, block: nat, at: nat, n: nat)
    requires block > 0 && v.state == Running && RunComplete(v) && Cycle(c, at / block) == NextCounterValue(v.counter)
    requires 0 < n <= Length(v) && at % block + n <= block
    ensures Track(v, Genuine(c, block, at, n)) == Tracker(Running, Cycle(c, at / block), n, Length(v))
  {
    hide Cycle, Genuine, Track;
    NextDiffers(v.counter);
    var x := Cycle(c, at / block);
    var u := Tracker(Running, x, 1, Length(v));
    TrackOne(v, c, block, at);
    if n > 1 {
      SameBlock(at, 1, block);
      RunGoesOn(u, c, block, at + 1, n - 1);
      TrackSplit(v, c, block, at, 1, n - 1);
    }
  }

  lemma TrackOne(v: Tracker, c: nat, block: nat, at: nat)
    requires block > 0
    ensures Track(v, Genuine(c, block, at, 1)) == Advance(v, Cycle(c, at / block))
  {
    hide Cycle, Genuine, Track, Advance;
    GenuineGrows(c, block, at, 0);
    GenuineGrows(c, block, at, 1);
    TrackGrows(v, [], Cycle(c, at / block));
  }

  lemma {:induction false} TrackSplit(v: Tracker, c: nat, block: nat, at: nat, n: nat, m: nat)
    requires block > 0
    ensures Track(v, Genuine(c, block, at, n + m)) == Track(Track(v, Genuine(c, block, at, n)), Genuine(c, block, at + n, m))
    decreases m
  {
    hide Cycle, Genuine, Track, Advance;
    var u := Track(v, Genuine(c, block, at, n));
    GenuineGrows(c, block, at + n, m);
    if m == 0 {
      TrackGrows(u, [], 0);
    } else {
      TrackSplit(v, c, block, at, n, m - 1);
      GenuineGrows(c, block, at, n + m);
      var x := Cycle(c, (at + n + m - 1) / block);
      TrackGrows(v, Genuine(c, block, at, n + m - 1), x);
      TrackGrows(u, Genuine(c, block, at + n, m - 1), x);
    }
  }

  function WrongLengthNames(before: nat, block: nat): nat
  {
    var now := NextCounterValue(before);
    if block == SAMPLES_PER_COUNTER then now else NextCounterValue(now)
  }

  /** A tracker that has taken a run of the other length for the block length stops
      one run later, at the first block it sees whole. */
  lemma StopsAfterWrongLength(v: Tracker, c: nat, block: nat, at: nat)
    requires IsKnownBlock(block) && v.state == Running && RunComplete(v) && Length(v) != block && IsKnownBlock(Length(v))
    requires at % block == 0 && Cycle(c, at / block) == NextCounterValue(v.counter)
    ensures StopsFrom(v, c, block, at, SAMPLES_PER_COUNTER, WrongLengthNames(v.counter, block), MAXIMUM_SAMPLES_PER_COUNTER - block)
  {
    hide Cycle, Genuine, Track;
    NextRun(v, c, block, at, SAMPLES_PER_COUNTER);
    var u := Track(v, Genuine(c, block, at, SAMPLES_PER_COUNTER));
    if block == SAMPLES_PER_COUNTER {
      NextBlock(at, SAMPLES_PER_COUNTER, block);
      CycleSteps(c, at / block);
      NextDiffers(u.counter);
    } else {
      SameBlock(at, SAMPLES_PER_COUNTER, block);
    }
  }

  lemma StopsLater(v: Tracker, u: Tracker, c: nat, block: nat, at: nat, n: nat, m: nat, named: nat, reported: nat)
    requires block > 0 && u == Track(v, Genuine(c, block, at, n)) && StopsFrom(u, c, block, at + n, m, named, reported)
    ensures StopsFrom(v, c, block, at, n + m, named, reported)
  {
    hide Cycle, Genuine, Track, Stops;
    TrackSplit(v, c, block, at, n, m);
    assert at + n + m == at + (n + m);
  }

  lemma WithinFirst(c: nat, block: nat, p: nat)
    requires block > 0 && p <= block
    ensures After(c, block, p) == Tracker(Running, c, p, 0)
  {
    if p > 0 { Quotient(p - 1, block, 0, p - 1); }
  }

  /** How many steps ahead the counter is. */
  lemma AheadShows(c: nat, block: nat, p: nat, k: nat)
    requires c < SEQUENCE_COUNTER_VALUES && block > 0
    ensures Cycle(c, (p + k) / block) == c <==> Ahead(block, p, k) == 0
    ensures Cycle(c, (p + k) / block) == NextCounterValue(c) <==> Ahead(block, p, k) == 1
  {
    var q := (p + k) / block;
    CycleRepeats(c, 0, q);
    if q == 0 { NextDiffers(c); } else { CycleRepeats(c, 1, q); }
    CycleSteps(c, 0);
  }

  lemma StopsInFirst(c: nat, block: nat, p: nat, k: nat)
    requires c < SEQUENCE_COUNTER_VALUES && IsKnownBlock(block) && p <= block
    requires k % (SEQUENCE_COUNTER_VALUES * block) != 0
    ensures StopsPast(c, block, p, k, FirstBlockStopsAfter(block, p, k), FirstBlockNamed(block, p, k), FirstBlockReported(block, p, k))
  {
    hide Cycle, StopsFrom, After, Left, Ahead, FirstBlockStopsAfter, FirstBlockReported, FirstBlockNamed;
    WithinFirst(c, block, p);
    if Ahead(block, p, k) == 0 {
      SameCounter(c, block, p, k);
    } else if Ahead(block, p, k) == 1 && IsKnownBlock(p) {
      NextCounter(c, block, p, k);
    } else {
      JumpRefused(c, block, p, k);
    }
  }

  /** The stream goes on with the first counter. */
  lemma SameCounter(c: nat, block: nat, p: nat, k: nat)
    requires c < SEQUENCE_COUNTER_VALUES && IsKnownBlock(block) && p <= block && Ahead(block, p, k) == 0
    requires k % (SEQUENCE_COUNTER_VALUES * block) != 0
    ensures var n := FirstBlockStopsAfter(block, p, k);
            StopsFrom(Tracker(Running, c, p, 0), c, block, p + k, n, Cycle(c, FirstBlockNamed(block, p, k)), FirstBlockReported(block, p, k))
  {
    hide Cycle, Genuine, Track;
    var v, left, at := Tracker(Running, c, p, 0), Left(block, p, k), p + k;
    CycleStarts(c);
    AheadShows(c, block, p, k);
    if p + left > MAXIMUM_SAMPLES_PER_COUNTER {
      RunOverruns(c, block, p, k);
    } else {
      RunGoesOn(v, c, block, at, left);
      var u := v.(run := p + left);
      NextBlock(at, left, block);
      CycleSteps(c, at / block);
      NextDiffers(c);
      if IsKnownBlock(p + left) {
        SeenWhole(block, p, k);
        StopsAfterWrongLength(u, c, block, at + left);
        StopsLater(v, u, c, block, at, left, SAMPLES_PER_COUNTER, WrongLengthNames(u.counter, block), MAXIMUM_SAMPLES_PER_COUNTER - block);
      }
    }
  }

  /** More of the first counter than even the longer length allows. */
  lemma RunOverruns(c: nat, block: nat, p: nat, k: nat)
    requires IsKnownBlock(block) && p <= block && p + Left(block, p, k) > MAXIMUM_SAMPLES_PER_COUNTER
    requires Cycle(c, (p + k) / block) == c
    ensures StopsFrom(Tracker(Running, c, p, 0), c, block, p + k, MAXIMUM_SAMPLES_PER_COUNTER - p, NextCounterValue(c), 0)
  {
    hide Cycle, Genuine, Track;
    var n := MAXIMUM_SAMPLES_PER_COUNTER - p;
    RunGoesOn(Tracker(Running, c, p, 0), c, block, p + k, n);
    SameBlock(p + k, n, block);
  }

  /** A first run of the right length leaves nothing to detect. */
  lemma SeenWhole(block: nat, p: nat, k: nat)
    requires IsKnownBlock(block) && p <= block && Ahead(block, p, k) == 0
    requires k % (SEQUENCE_COUNTER_VALUES * block) != 0
    ensures p + Left(block, p, k) != block
  {
    var q := (p + k) / block;
    if p + Left(block, p, k) == block {
      assert k == q * block;
      PeriodMultiple(k, block, q);
    }
  }

  /** It goes on with the next one, and the first run could have been a block. */
  lemma NextCounter(c: nat, block: nat, p: nat, k: nat)
    requires c < SEQUENCE_COUNTER_VALUES && IsKnownBlock(block) && p <= block && Ahead(block, p, k) == 1 && IsKnownBlock(p)
    requires k % (SEQUENCE_COUNTER_VALUES * block) != 0
    ensures var n := FirstBlockStopsAfter(block, p, k);
            StopsFrom(Tracker(Running, c, p, 0), c, block, p + k, n, Cycle(c, FirstBlockNamed(block, p, k)), FirstBlockReported(block, p, k))
  {
    hide Cycle, Genuine, Track;
    var v, left, at := Tracker(Running, c, p, 0), Left(block, p, k), p + k;
    CycleStarts(c);
    AheadShows(c, block, p, k);
    if left == block {
      CutWhole(block, p, k);
      StopsAfterWrongLength(v, c, block, at);
    } else {
      NextRun(v, c, block, at, left);
      var u := Tracker(Running, Cycle(c, at / block), left, p);
      NextBlock(at, left, block);
      CycleSteps(c, at / block);
      NextDiffers(u.counter);
      if p != block && left == SAMPLES_PER_COUNTER {
        StopsAfterWrongLength(u, c, block, at + left);
        StopsLater(v, u, c, block, at, left, SAMPLES_PER_COUNTER, WrongLengthNames(u.counter, block), MAXIMUM_SAMPLES_PER_COUNTER - block);
      }
    }
  }

  lemma CutWhole(block: nat, p: nat, k: nat)
    requires IsKnownBlock(block) && p <= block && Ahead(block, p, k) == 1 && Left(block, p, k) == block
    requires k % (SEQUENCE_COUNTER_VALUES * block) != 0
    ensures p != block
  {
    var q := (p + k) / block;
    Whole(p + k, block);
    if p == block {
      assert (q - 1) * block == q * block - block;
      PeriodMultiple(k, block, q - 1);
    }
  }

  /** It goes on with any other, or with the next one too soon. */
  lemma JumpRefused(c: nat, block: nat, p: nat, k: nat)
    requires c < SEQUENCE_COUNTER_VALUES && IsKnownBlock(block) && p <= block
    requires Ahead(block, p, k) != 0 && !(Ahead(block, p, k) == 1 && IsKnownBlock(p))
    ensures var n := FirstBlockStopsAfter(block, p, k);
            StopsFrom(Tracker(Running, c, p, 0), c, block, p + k, n, Cycle(c, FirstBlockNamed(block, p, k)), FirstBlockReported(block, p, k))
  {
    hide Cycle, Genuine, Track;
    CycleStarts(c);
    AheadShows(c, block, p, k);
    GenuineGrows(c, block, p + k, 0);
    TrackGrows(Tracker(Running, c, p, 0), [], 0);
  }

  lemma FirstIsLoss(block: nat, p: nat, k: nat)
    requires IsKnownBlock(block) && p <= block && k % (SEQUENCE_COUNTER_VALUES * block) != 0
    ensures FirstBlockReported(block, p, k) == k <==> FigureIsLoss(block, p, k)
  {
    var q, r := (p + k) / block, (p + k) % block;
    if block == SAMPLES_PER_COUNTER {
      assert p + k == q * 65535 + r;
    } else {
      assert p + k == q * 65536 + r;
    }
  }

  // ----- Past it -----

  lemma StopsInLearned(c: nat, block: nat, p: nat, k: nat)
    requires c < SEQUENCE_COUNTER_VALUES && IsKnownBlock(block) && p > block
    requires Skipped(block, p, k) == 0 ==> (p + k) % block != p % block
    ensures StopsPast(c, block, p, k, LearnedStopsAfter(block, p, k), LearnedNamed(block, p, k), LearnedReported(block, p, k))
  {
    hide After, Advance, Cycle, Genuine, Track, PastSeam, Skipped;
    var n := LearnedStopsAfter(block, p, k);
    QuietIsGenuine(c, block, p, k, n);
    TrackAlong(c, block, p, n);
    StopsThere(c, block, p, k);
  }

  lemma SkippedShows(c: nat, block: nat, p: nat, k: nat)
    requires c < SEQUENCE_COUNTER_VALUES && block > 0
    ensures Cycle(c, (p + k) / block) == Cycle(c, p / block) <==> Skipped(block, p, k) == 0
  {
    Monotone(p, p + k, block);
    CycleRepeats(c, p / block, (p + k) / block);
  }

  /** Until then the stream looks as if nothing were missing. */
  lemma {:induction false} QuietIsGenuine(c: nat, block: nat, p: nat, k: nat, n: nat)
    requires c < SEQUENCE_COUNTER_VALUES && block > 0 && n <= LearnedStopsAfter(block, p, k)
    ensures Genuine(c, block, p + k, n) == Genuine(c, block, p, n)
    decreases n
  {
    hide Genuine, Cycle, Skipped;
    GenuineGrows(c, block, p + k, n);
    GenuineGrows(c, block, p, n);
    if n > 0 {
      QuietIsGenuine(c, block, p, k, n - 1);
      SkippedShows(c, block, p, k);
      SameBlock(p, n - 1, block);
      SameBlock(p + k, n - 1, block);
    }
  }

  lemma StopsThere(c: nat, block: nat, p: nat, k: nat)
    requires c < SEQUENCE_COUNTER_VALUES && IsKnownBlock(block) && p > block
    requires Skipped(block, p, k) == 0 ==> (p + k) % block != p % block
    ensures var n := LearnedStopsAfter(block, p, k);
            var u, x := After(c, block, p + n), Cycle(c, (p + k + n) / block);
            Stops(u, x, Cycle(c, LearnedNamed(block, p, k)), LearnedReported(block, p, k))
  {
    hide After, Stops, Cycle;
    SkippedShows(c, block, p, k);
    if Skipped(block, p, k) != 0 {
      StopsAtSeam(c, block, p, k);
    } else if (p + k) % block > p % block {
      StopsEarly(c, block, p, k);
    } else {
      StopsLate(c, block, p, k);
    }
  }

  /** With the block length known, any counter but the one due is refused, and
      what is left of the run is reported. */
  lemma Refused(v: Tracker, x: nat)
    requires v.state == Running && IsKnownBlock(v.block) && v.run <= v.block
    requires x != if v.run == v.block then NextCounterValue(v.counter) else v.counter
    ensures Stops(v, x, if x == v.counter then NextCounterValue(v.counter) else v.counter, v.block - v.run)
  {
  }

  /** The tracker's run is the place in the block, a completed block included. */
  lemma RunIsThePlace(c: nat, block: nat, p: nat)
    requires block > 0 && p > block
    ensures var u := After(c, block, p);
            && u.block == block && 0 < u.run <= block
            && u.run == (if p % block == 0 then block else p % block)
            && Cycle(c, p / block) == (if u.run == block then NextCounterValue(u.counter) else u.counter)
            && (u.run == block ==> p / block > 0 && u.counter == Cycle(c, p / block - 1))
  {
    hide Cycle;
    PlaceBefore(p, block);
    CycleSteps(c, (p - 1) / block);
  }

  lemma PlaceBefore(p: nat, block: nat)
    requires block > 0 && p > 0
    ensures if p % block == 0 then (p - 1) % block == block - 1 && p / block == (p - 1) / block + 1
            else (p - 1) % block == p % block - 1 && p / block == (p - 1) / block
  {
    NextPosition(p - 1, block);
    assert (p - 1) + 1 == p;
  }

  /** A counter other than the one due: the jump is seen at once. */
  lemma StopsAtSeam(c: nat, block: nat, p: nat, k: nat)
    requires c < SEQUENCE_COUNTER_VALUES && IsKnownBlock(block) && p > block && Skipped(block, p, k) != 0
    ensures Stops(After(c, block, p), Cycle(c, (p + k) / block), Cycle(c, LearnedNamed(block, p, k)),
                  if p % block == 0 then 0 else block - p % block)
  {
    hide After, Cycle, Stops, Skipped;
    RunIsThePlace(c, block, p);
    SkippedShows(c, block, p, k);
    Refused(After(c, block, p), Cycle(c, (p + k) / block));
    if p % block == 0 { SkippedBack(c, block, p, k); }
  }

  /** At a block's beginning: the loss leads back to the counter of the block before. */
  lemma SkippedBack(c: nat, block: nat, p: nat, k: nat)
    requires c < SEQUENCE_COUNTER_VALUES && block > 0 && p > block
    ensures p / block > 0
    ensures Cycle(c, (p + k) / block) == Cycle(c, p / block - 1) <==> Skipped(block, p, k) == 62
    ensures Cycle(c, p / block) == NextCounterValue(Cycle(c, p / block - 1))
  {
    PlaceBefore(p, block);
    NextPosition(p, block);
    Monotone(p, p + k, block);
    CycleSteps(c, p / block - 1);
    CycleRepeats(c, p / block - 1, (p + k) / block);
  }

  /** The same counter but further on in its block: it changes too soon. */
  lemma StopsEarly(c: nat, block: nat, p: nat, k: nat)
    requires IsKnownBlock(block) && p > block && (p + k) % block > p % block
    requires Cycle(c, (p + k) / block) == Cycle(c, p / block)
    ensures var n := block - (p + k) % block;
            var u, x := After(c, block, p + n), Cycle(c, (p + k + n) / block);
            Stops(u, x, Cycle(c, (p + n) / block), (p + k) % block - p % block)
  {
    hide Cycle;
    var n := block - (p + k) % block;
    SameBlock(p, n - 1, block);
    NextBlock(p + k, n, block);
    CycleSteps(c, (p + k) / block);
    NextDiffers(Cycle(c, p / block));
  }

  /** The same counter but less far on: it does not change in time. */
  lemma StopsLate(c: nat, block: nat, p: nat, k: nat)
    requires IsKnownBlock(block) && p > block && (p + k) % block < p % block
    requires Cycle(c, (p + k) / block) == Cycle(c, p / block)
    ensures var n := block - p % block;
            var u, x := After(c, block, p + n), Cycle(c, (p + k + n) / block);
            Stops(u, x, Cycle(c, (p + n) / block), 0)
  {
    hide Cycle;
    var n := block - p % block;
    SameBlock(p, n - 1, block);
    NextBlock(p, n, block);
    CycleSteps(c, p / block);
    SameBlock(p + k, n, block);
  }

  /** When the figure is the loss. */
  lemma LearnedIsLoss(block: nat, p: nat, k: nat)
    requires IsKnownBlock(block) && p > block && k > 0
    ensures LearnedReported(block, p, k) == k <==> FigureIsLoss(block, p, k)
  {
    Monotone(p, p + k, block);
    var q, r, q', r' := p / block, p % block, (p + k) / block, (p + k) % block;
    assert p == q * block + r && p + k == q' * block + r';
    if k < block && k <= block - r {
      if r + k < block { SameBlock(p, k, block); } else { NextBlock(p, k, block); }
    }
  }

  lemma SameBlock(p: nat, d: nat, block: nat)
    requires block > 0 && p % block + d < block
    ensures (p + d) / block == p / block && (p + d) % block == p % block + d
  {
    Quotient(p + d, block, p / block, p % block + d);
  }

  lemma NextBlock(p: nat, d: nat, block: nat)
    requires block > 0 && block <= p % block + d < 2 * block
    ensures (p + d) / block == p / block + 1 && (p + d) % block == p % block + d - block
  {
    var q := p / block;
    assert (q + 1) * block == q * block + block;
    Quotient(p + d, block, q + 1, p % block + d - block);
  }

  // ----- Some reports -----

  /** A whole block lost at its beginning: reported as nothing missing. */
  lemma WholeBlockReportsNothing(p: nat)
    requires p % SAMPLES_PER_COUNTER == 0 && p > SAMPLES_PER_COUNTER
    ensures Reported(SAMPLES_PER_COUNTER, p, SAMPLES_PER_COUNTER) == 0
  {
    NextBlock(p, SAMPLES_PER_COUNTER, SAMPLES_PER_COUNTER);
  }

  /** Ten samples lost in the first block: reported as eleven. */
  lemma OneTooMany()
    ensures StopsPast(0, SAMPLES_PER_COUNTER, 100, 10, 65425, 0, 11)
  {
    hide StopsPast;
    StopsInFirst(0, SAMPLES_PER_COUNTER, 100, 10);
    assert FirstBlockStopsAfter(SAMPLES_PER_COUNTER, 100, 10) == 65425;
    assert FirstBlockReported(SAMPLES_PER_COUNTER, 100, 10) == 11;
  }

  /** A loss that ends after the first block, and is reported as it is. */
  lemma RightByOne()
    ensures StopsPast(0, SAMPLES_PER_COUNTER, 100, 65436, 0, 0, 65436)
  {
    hide StopsPast;
    StopsInFirst(0, SAMPLES_PER_COUNTER, 100, 65436);
    assert FirstBlockStopsAfter(SAMPLES_PER_COUNTER, 100, 65436) == 0;
    assert FirstBlockReported(SAMPLES_PER_COUNTER, 100, 65436) == 65436;
  }

  /** One sample lost in the first block of a legacy stream: the shorter block length
      is learned, and the next block, which is whole, is refused as too long. */
  lemma WrongLengthLearned()
    ensures PastSeam(0, LEGACY_SAMPLES_PER_COUNTER, 100, 1, 65436) == Tracker(Running, 1, 1, SAMPLES_PER_COUNTER)
    ensures StopsPast(0, LEGACY_SAMPLES_PER_COUNTER, 100, 1, 65435 + SAMPLES_PER_COUNTER, 2, 0)
  {
    hide Cycle, Genuine, Track, PastSeam, StopsPast, After;
    var block := LEGACY_SAMPLES_PER_COUNTER;
    StopsInFirst(0, block, 100, 1);
    CycleIsModular(0, 0);
    CycleIsModular(0, 1);
    var v := Tracker(Running, 0, 100, 0);
    WithinFirst(0, block, 100);
    SeamIs(0, block, 100, 1, 65436);
    RunGoesOn(v, 0, block, 101, 65435);
    NextRun(v.(run := 65535), 0, block, 65536, 1);
    TrackSplit(v, 0, block, 101, 65435, 1);
  }
}
