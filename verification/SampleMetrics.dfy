/** SampleMetrics: running figures for the session and for the recording in it. */
module Metrics {
  import opened SampleFormat

  datatype Measured = Measured(total: BufferTally, recent: BufferTally, capture: BufferTally, capturing: bool)

  const NOTHING := Measured(EMPTY_TALLY, EMPTY_TALLY, EMPTY_TALLY, false)

  function Accumulated(m: Measured, tally: BufferTally): Measured
  {
    if tally.sampleCount == 0 then m
    else Measured(Merge(m.total, tally), tally, if m.capturing then Merge(m.capture, tally) else m.capture, m.capturing)
  }

  function SpanBegun(m: Measured): Measured { m.(capture := EMPTY_TALLY, capturing := true) }
  function SpanEnded(m: Measured): Measured { m.(capturing := false) }

  /** Measuring one buffer after another is measuring them end to end. */
  lemma SpanGrows(m: Measured, before: seq<nat>, values: seq<nat>)
    requires m.capturing && m.capture == TallyOf(before)
    ensures Accumulated(m, TallyOf(values)).capture == TallyOf(before + values)
  {
    TallyConcat(before, values);
    CountIs(values);
    if values == [] { assert before + values == before; }
  }

  lemma TotalGrows(m: Measured, before: seq<nat>, values: seq<nat>)
    requires m.total == TallyOf(before)
    ensures Accumulated(m, TallyOf(values)).total == TallyOf(before + values)
  {
    TallyConcat(before, values);
    CountIs(values);
    if values == [] { assert before + values == before; }
  }

  lemma {:induction false} CountIs(values: seq<nat>)
    ensures TallyOf(values).sampleCount == |values|
  {
    if values != [] { CountIs(values[..|values| - 1]); }
  }

  class SampleMetrics {
    var total: BufferTally
    var recent: BufferTally
    var capture: BufferTally
    var capturing: bool

    function View(): Measured
      reads this
    {
      Measured(total, recent, capture, capturing)
    }

    constructor ()
      ensures View() == NOTHING
    {
      total, recent, capture, capturing := EMPTY_TALLY, EMPTY_TALLY, EMPTY_TALLY, false;
    }

    method Accumulate(tally: BufferTally)
      modifies this
      ensures View() == Accumulated(old(View()), tally)
    {
      if tally.sampleCount == 0 { return; }
      total := Merge(total, tally);
      recent := tally;
      if capturing { capture := Merge(capture, tally); }
    }

    method BeginCaptureSpan()
      modifies this
      ensures View() == SpanBegun(old(View()))
    {
      capture := EMPTY_TALLY;
      capturing := true;
    }

    method EndCaptureSpan()
      modifies this
      ensures View() == SpanEnded(old(View()))
    {
      capturing := false;
    }

    /** The extremes to show, with nothing measured shown as zero. */
    method Extremes() returns (low: nat, high: nat, captureLow: nat, captureHigh: nat)
      ensures forall values :: TenBit(values) && TallyOf(values) == total ==> Bounds(values, low, high)
      ensures forall values :: TenBit(values) && TallyOf(values) == capture ==> Bounds(values, captureLow, captureHigh)
    {
      low := if total.sampleCount == 0 then 0 else total.minimum;
      high := total.maximum;
      captureLow := if capture.sampleCount == 0 then 0 else capture.minimum;
      captureHigh := capture.maximum;
      forall values | TenBit(values) && TallyOf(values) == total ensures Bounds(values, low, high) { BoundsAre(values); }
      forall values | TenBit(values) && TallyOf(values) == capture ensures Bounds(values, captureLow, captureHigh) { BoundsAre(values); }
    }
  }

  /** The least and greatest of the values; zero for none. */
  ghost predicate Bounds(values: seq<nat>, low: nat, high: nat)
  {
    if values == [] then low == 0 && high == 0
    else
      && high in values && (forall i :: 0 <= i < |values| ==> values[i] <= high)
      && (forall i :: 0 <= i < |values| ==> low <= values[i]) && low in values
  }

  lemma {:induction false} BoundsAre(values: seq<nat>)
    requires TenBit(values)
    ensures var t := TallyOf(values); Bounds(values, if t.sampleCount == 0 then 0 else t.minimum, t.maximum)
  {
    CountIs(values);
    if values != [] {
      var before, last := values[..|values| - 1], values[|values| - 1];
      BoundsAre(before);
      CountIs(before);
      assert values == before + [last];
      assert forall v :: v in values <==> v in before || v == last;
    }
  }
}
