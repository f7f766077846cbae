/**
  The slots of the disk buffer ring and the atomic operations the capture
  threads perform on them.

  The ring hands buffers out in a fixed cyclic order, so the k-th buffer ever
  handed over always lives in slot `SlotOf(k, n)`.  The lemmas here are the
  arithmetic of that assignment and of counting full slots; who performs which
  operation when is the business of module `Engine`.
 */
module DiskBufferRing {

  /** What a slot is doing.  The values are the ones threads wait on. */
  datatype SlotState = Empty | Full | Dumped | Aborted

  type Block = seq<int>

  /** The slot that carries the k-th buffer of a run, in a ring of n slots. */
  function SlotOf(k: nat, n: nat): (slot: nat)
    requires n > 0
    ensures slot < n
  {
    if k < n then k else SlotOf(k - n, n)
  }

  /** The slot index a worker moves on to. */
  function NextSlot(slot: nat, n: nat): (next: nat)
    requires slot < n
    ensures next < n
  {
    (slot + 1) % n
  }

  lemma {:induction false} SlotOfNext(k: nat, n: nat)
    requires n > 0
    ensures SlotOf(k + 1, n) == NextSlot(SlotOf(k, n), n)
  {
    if k < n {
      if k + 1 == n {
        assert SlotOf(n, n) == SlotOf(0, n);
      }
    } else {
      SlotOfNext(k - n, n);
    }
  }

  lemma SlotOfPeriodic(k: nat, n: nat)
    requires n > 0
    ensures SlotOf(k + n, n) == SlotOf(k, n)
  {
  }

  lemma {:induction false} SlotOfDistinct(a: nat, b: nat, n: nat)
    requires n > 0 && a < b < a + n
    ensures SlotOf(a, n) != SlotOf(b, n)
  {
    if a >= n {
      SlotOfDistinct(a - n, b - n, n);
    } else if b >= n {
      assert SlotOf(b, n) == b - n;
    }
  }

  /** A window of n consecutive buffers occupies n different slots. */
  lemma WindowDistinct(base: nat, n: nat)
    requires n > 0
    ensures forall a: nat, b: nat {:trigger SlotOf(a, n), SlotOf(b, n)} ::
              base <= a < base + n && base <= b < base + n && a != b ==> SlotOf(a, n) != SlotOf(b, n)
  {
    forall a: nat, b: nat | base <= a < base + n && base <= b < base + n && a != b
      ensures SlotOf(a, n) != SlotOf(b, n)
    {
      if a < b { SlotOfDistinct(a, b, n); } else { SlotOfDistinct(b, a, n); }
    }
  }

  /** How many slots hold data the consumer has not finished with. */
  function FullSlots(slots: seq<SlotState>): nat
  {
    if slots == [] then 0
    else FullSlots(slots[..|slots| - 1]) + (if slots[|slots| - 1] == Full then 1 else 0)
  }

  lemma {:induction false} FullSlotsUpdate(slots: seq<SlotState>, i: nat, x: SlotState)
    requires i < |slots|
    ensures FullSlots(slots[i := x])
         == FullSlots(slots) - (if slots[i] == Full then 1 else 0) + (if x == Full then 1 else 0)
  {
    var last := |slots| - 1;
    if i == last {
      assert slots[i := x][..last] == slots[..last];
    } else {
      assert slots[i := x][..last] == slots[..last][i := x];
      FullSlotsUpdate(slots[..last], i, x);
    }
  }

  lemma {:induction false} FullSlotsNone(slots: seq<SlotState>)
    requires Full !in slots
    ensures FullSlots(slots) == 0
  {
    if slots != [] {
      FullSlotsNone(slots[..|slots| - 1]);
    }
  }
}
