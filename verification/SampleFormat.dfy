/**
  The device's sample layout on the wire: one little-endian 16-bit word per
  sample, the value in bits 9..0 and a sequence counter in bits 15..10.
 */
module SampleFormat {

  type byte = b: int | 0 <= b < 256

  const BYTES_PER_SAMPLE := 2
  const MINIMUM_SAMPLE_VALUE := 0
  const MAXIMUM_SAMPLE_VALUE := 1023
  const SAMPLE_ZERO_OFFSET := 512
  const SAMPLE_SCALE := 64

  /** Counter values run 0..62: 63 of them, not 64. */
  const SEQUENCE_COUNTER_VALUES := 63
  const SAMPLES_PER_COUNTER := 65535
  const LEGACY_SAMPLES_PER_COUNTER := 65536
  const MAXIMUM_SAMPLES_PER_COUNTER := LEGACY_SAMPLES_PER_COUNTER

  predicate IsKnownBlock(samples: nat)
  {
    samples == SAMPLES_PER_COUNTER || samples == LEGACY_SAMPLES_PER_COUNTER
  }

  /** high >> 2 and high & 0x03 */
  function CounterBits(high: byte): (c: nat) ensures c < 64 { high / 4 }
  function ValueBits(high: byte): byte { high % 4 }

  function MakeWireWord(value: nat, counter: nat): (word: nat)
    requires value <= MAXIMUM_SAMPLE_VALUE && counter < 64
    ensures word < 65536
  {
    value + 1024 * counter
  }

  /** Splitting a word into bytes and reading the two fields back. */
  lemma WireWordFields(value: nat, counter: nat)
    requires value <= MAXIMUM_SAMPLE_VALUE && counter < 64
    ensures var word := MakeWireWord(value, counter); var low, high := word % 256, word / 256;
            && CounterBits(high) == counter
            && low + 256 * ValueBits(high) == value
  {
  }

  /** The 16-bit form a decoder reads, and back: `/` truncates toward zero there,
      which an exact multiple never shows. */
  function ToSigned16Bit(tenBit: int): int { (tenBit - SAMPLE_ZERO_OFFSET) * SAMPLE_SCALE }

  function ToTenBit(signed: int): int
  {
    (if signed >= 0 then signed / SAMPLE_SCALE else -((-signed) / SAMPLE_SCALE)) + SAMPLE_ZERO_OFFSET
  }

  lemma SignedRoundTrip(value: int)
    requires MINIMUM_SAMPLE_VALUE <= value <= MAXIMUM_SAMPLE_VALUE
    ensures -32768 <= ToSigned16Bit(value) <= 32767
    ensures ToTenBit(ToSigned16Bit(value)) == value
  {
  }

  // ----- What one pass over a buffer measures -----

  datatype BufferTally = BufferTally(
    sampleCount: nat, minimum: nat, maximum: nat,
    clippedLow: nat, clippedHigh: nat, sumOfSquares: nat)

  /** Seeded so that an empty tally merges harmlessly. */
  const EMPTY_TALLY := BufferTally(0, 65535, 0, 0, 0, 0)

  function Min(a: nat, b: nat): nat { if a < b then a else b }
  function Max(a: nat, b: nat): nat { if a > b then a else b }

  function Square(x: int): (r: nat)
  {
    assert x * x >= 0;
    x * x
  }

  function AddSample(t: BufferTally, value: nat): BufferTally
  {
    BufferTally(t.sampleCount + 1, Min(t.minimum, value), Max(t.maximum, value),
                t.clippedLow + (if value == MINIMUM_SAMPLE_VALUE then 1 else 0),
                t.clippedHigh + (if value == MAXIMUM_SAMPLE_VALUE then 1 else 0),
                t.sumOfSquares + Square(value - SAMPLE_ZERO_OFFSET))
  }

  function TallyOf(values: seq<nat>): BufferTally
  {
    if values == [] then EMPTY_TALLY
    else AddSample(TallyOf(values[..|values| - 1]), values[|values| - 1])
  }

  function Merge(a: BufferTally, b: BufferTally): BufferTally
  {
    BufferTally(a.sampleCount + b.sampleCount, Min(a.minimum, b.minimum), Max(a.maximum, b.maximum),
                a.clippedLow + b.clippedLow, a.clippedHigh + b.clippedHigh,
                a.sumOfSquares + b.sumOfSquares)
  }

  lemma {:induction false} TallyConcat(a: seq<nat>, b: seq<nat>)
    ensures TallyOf(a + b) == Merge(TallyOf(a), TallyOf(b))
  {
    if b == [] {
      assert a + b == a;
      TallySeeded(a);
    } else {
      var last := |b| - 1;
      assert (a + b)[..|a + b| - 1] == a + b[..last];
      TallyConcat(a, b[..last]);
    }
  }

  lemma {:induction false} TallySeeded(values: seq<nat>)
    ensures TallyOf(values).minimum <= 65535
    ensures Merge(TallyOf(values), EMPTY_TALLY) == TallyOf(values)
  {
    if values != [] { TallySeeded(values[..|values| - 1]); }
  }

  // ----- What the figures are -----

  predicate TenBit(values: seq<nat>)
  {
    forall i :: 0 <= i < |values| ==> values[i] <= MAXIMUM_SAMPLE_VALUE
  }

  /** The sum over the values v below n of how often v occurs times its square about
      the zero of the scale. */
  function Power(occurring: multiset<nat>, n: nat): int
  {
    if n == 0 then 0
    else Power(occurring, n - 1) + occurring[n - 1] * ((n - 1 - SAMPLE_ZERO_OFFSET) * (n - 1 - SAMPLE_ZERO_OFFSET))
  }

  /** A tally says of the values, in whatever order, how many there are, how many sit
      at either end of the scale, how far they reach and what power they carry. */
  ghost predicate Measures(t: BufferTally, values: seq<nat>)
  {
    && t.sampleCount == |values|
    && t.clippedLow == multiset(values)[0] && t.clippedHigh == multiset(values)[1023]
    && t.sumOfSquares == Power(multiset(values), 1024)
    && (values == [] ==> t.minimum == 65535 && t.maximum == 0)
    && (values != [] ==> t.minimum in values && t.maximum in values)
    && forall v :: v in values ==> t.minimum <= v <= t.maximum
  }

  lemma TallyMeasures(values: seq<nat>)
    requires TenBit(values)
    ensures Measures(TallyOf(values), values)
  {
    TallyCounts(values);
    TallyReaches(values);
  }

  lemma {:induction false} TallyCounts(values: seq<nat>)
    requires TenBit(values)
    ensures var t := TallyOf(values);
            && t.sampleCount == |values|
            && t.clippedLow == multiset(values)[0] && t.clippedHigh == multiset(values)[1023]
            && t.sumOfSquares == Power(multiset(values), 1024)
  {
    hide Power, Min, Max;
    if values == [] {
      NoPower(1024);
    } else {
      var before, last := values[..|values| - 1], values[|values| - 1];
      assert values == before + [last];
      assert multiset(values) == multiset(before) + multiset{last};
      TallyCounts(before);
      PowerGrows(multiset(before), last, 1024);
    }
  }

  lemma {:induction false} TallyReaches(values: seq<nat>)
    requires TenBit(values)
    ensures var t := TallyOf(values);
            && (values == [] ==> t.minimum == 65535 && t.maximum == 0)
            && (values != [] ==> t.minimum in values && t.maximum in values)
            && forall v :: v in values ==> t.minimum <= v <= t.maximum
  {
    hide Square;
    if values != [] {
      var before, last := values[..|values| - 1], values[|values| - 1];
      TallyReaches(before);
      assert values == before + [last];
      assert forall v :: v in values <==> v in before || v == last;
    }
  }

  lemma {:induction false} NoPower(n: nat)
    ensures Power(multiset([]), n) == 0
  {
    if n > 0 { NoPower(n - 1); }
  }

  lemma {:induction false} PowerGrows(occurring: multiset<nat>, x: nat, n: nat)
    ensures Power(occurring + multiset{x}, n)
         == Power(occurring, n) + if x < n then (x - SAMPLE_ZERO_OFFSET) * (x - SAMPLE_ZERO_OFFSET) else 0
  {
    if n > 0 {
      PowerGrows(occurring, x, n - 1);
      OneMore(occurring[n - 1], (n - 1 - SAMPLE_ZERO_OFFSET) * (n - 1 - SAMPLE_ZERO_OFFSET));
    }
  }

  lemma OneMore(k: nat, square: int)
    ensures (k + 1) * square == k * square + square
  {
  }
}
