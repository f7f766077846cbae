/**
  PlanTransferLayout: how a ring is cut into USB transfers, worked out before any
  of them are created.
 */
module TransferLayout {
  import opened Division

  const TARGET_SMALL_TRANSFER_BYTES := 131072
  const SMALLEST_RING := 4

  datatype Options = Options(smallTransfers: bool, transferQueueBytes: nat, discardSlots: nat)

  datatype Problem = NoPacketSize | NotWholePackets | RingTooSmall

  datatype Layout =
    | Invalid(problem: Problem)
    | Layout(slotCount: nat, transferBytes: nat, transfersPerSlot: nat, slotSpan: nat, transferCount: nat,
             discardSlots: nat, discardTransfers: nat, firstSlotIndex: nat)

  function Min(a: nat, b: nat): nat { if a < b then a else b }
  function Max(a: nat, b: nat): nat { if a > b then a else b }

  /** What the streaming loop relies on. */
  ghost predicate Sound(l: Layout)
  {
    && l.Layout?
    && l.transfersPerSlot >= 1 && l.transferBytes >= 1
    && 1 <= l.slotSpan < l.slotCount && l.transferCount == l.transfersPerSlot * l.slotSpan
    && l.discardSlots <= l.slotCount && l.discardTransfers == l.discardSlots * l.transfersPerSlot
    && l.firstSlotIndex < l.slotCount
    && (l.firstSlotIndex + l.discardSlots) % l.slotCount == 0
  }

  /** The smallest divisor of n that is no less than k. */
  ghost predicate NextDivisor(n: nat, k: nat, d: nat)
  {
    k <= d <= n && d > 0 && n % d == 0 && forall e :: k <= e < d && e > 0 ==> n % e != 0
  }

  /** As many slots as the queue is worth, and never all but one. */
  function SmallSpan(queueBytes: nat, slotBytes: nat, slotCount: nat): nat
    requires slotBytes > 0 && slotCount >= SMALLEST_RING
  {
    Min(Max(1, queueBytes / slotBytes), slotCount - 2)
  }

  ghost predicate Planned(slotBytes: nat, slotCount: nat, packetBytes: nat, options: Options, l: Layout)
    requires l.Layout?
  {
    && packetBytes > 0 && slotBytes > 0 && slotCount >= SMALLEST_RING
    && l.slotCount == slotCount && l.discardSlots == Min(options.discardSlots, slotCount)
    // Transfers tile a slot, in whole packets.
    && l.transferBytes * l.transfersPerSlot == slotBytes && l.transferBytes % packetBytes == 0
    && if options.smallTransfers then
         // As few as keep a transfer within the target; two slots are never aimed at.
         && SmallestSplit(slotBytes, packetBytes, l.transfersPerSlot)
         && l.transferBytes <= Max(packetBytes, TARGET_SMALL_TRANSFER_BYTES)
         && l.slotSpan == SmallSpan(options.transferQueueBytes, slotBytes, slotCount)
       else
         // A transfer is a slot; one slot is never aimed at.
         l.transfersPerSlot == 1 && l.slotSpan == slotCount - 1
  }

  method PlanTransferLayout(slotBytes: nat, slotCount: nat, packetBytes: nat, options: Options) returns (l: Layout)
    ensures l.Invalid? <==> packetBytes == 0 || slotBytes == 0 || slotBytes % packetBytes != 0 || slotCount < SMALLEST_RING
    ensures l.Layout? ==> Sound(l) && Planned(slotBytes, slotCount, packetBytes, options, l)
  {
    hide NextDivisor, SmallestSplit;
    if packetBytes == 0 { return Invalid(NoPacketSize); }
    if slotBytes == 0 || slotBytes % packetBytes != 0 { return Invalid(NotWholePackets); }
    if slotCount < SMALLEST_RING { return Invalid(RingTooSmall); }

    var transferBytes, transfersPerSlot, slotSpan := slotBytes, 1, slotCount - 1;
    if options.smallTransfers {
      transfersPerSlot, transferBytes := SplitSlot(slotBytes, packetBytes);
      slotSpan := SmallSpan(options.transferQueueBytes, slotBytes, slotCount);
    }
    var discardSlots := Min(options.discardSlots, slotCount);
    FirstSlot(slotCount, discardSlots);
    l := Layout(slotCount, transferBytes, transfersPerSlot, slotSpan, transfersPerSlot * slotSpan,
                discardSlots, discardSlots * transfersPerSlot, (slotCount - discardSlots) % slotCount);
  }

  ghost predicate SmallestSplit(slotBytes: nat, packetBytes: nat, transfersPerSlot: nat)
    requires packetBytes > 0
  {
    var packets, target := slotBytes / packetBytes, TargetPackets(packetBytes);
    NextDivisor(packets, (packets + target - 1) / target, transfersPerSlot)
  }

  function TargetPackets(packetBytes: nat): (n: nat)
    requires packetBytes > 0
    ensures n > 0
  {
    Max(1, TARGET_SMALL_TRANSFER_BYTES / packetBytes)
  }

  /** Nudge the number of transfers upwards until it divides the slot's packets. */
  method SplitSlot(slotBytes: nat, packetBytes: nat) returns (transfersPerSlot: nat, transferBytes: nat)
    requires packetBytes > 0 && slotBytes > 0 && slotBytes % packetBytes == 0
    ensures SmallestSplit(slotBytes, packetBytes, transfersPerSlot) && transfersPerSlot > 0
    ensures transferBytes * transfersPerSlot == slotBytes && transferBytes % packetBytes == 0
    ensures 0 < transferBytes <= Max(packetBytes, TARGET_SMALL_TRANSFER_BYTES)
  {
    var packetsPerSlot := slotBytes / packetBytes;
    WholePackets(slotBytes, packetBytes);
    var targetPackets := TargetPackets(packetBytes);
    AtMostAll(packetsPerSlot, targetPackets);
    transfersPerSlot := Max(1, (packetsPerSlot + targetPackets - 1) / targetPackets);
    ghost var from := transfersPerSlot;
    while packetsPerSlot % transfersPerSlot != 0
      invariant 0 < from <= transfersPerSlot <= packetsPerSlot
      invariant forall e :: from <= e < transfersPerSlot ==> packetsPerSlot % e != 0
      decreases packetsPerSlot - transfersPerSlot
    {
      Self(packetsPerSlot);
      transfersPerSlot := transfersPerSlot + 1;
    }
    transferBytes := packetsPerSlot / transfersPerSlot * packetBytes;
    Tiles(slotBytes, packetBytes, packetsPerSlot, transfersPerSlot);
    WithinTarget(packetsPerSlot, packetBytes, targetPackets, transfersPerSlot);
  }

  lemma WholePackets(slotBytes: nat, packetBytes: nat)
    requires packetBytes > 0 && slotBytes > 0 && slotBytes % packetBytes == 0
    ensures slotBytes / packetBytes * packetBytes == slotBytes && slotBytes / packetBytes > 0
  {
  }

  lemma Self(n: nat)
    requires n > 0
    ensures n % n == 0
  {
    Multiple(n, 1, n);
  }

  lemma AtMostAll(packets: nat, target: nat)
    requires packets > 0 && target > 0
    ensures 1 <= (packets + target - 1) / target <= packets
  {
    Monotone(target, packets + target - 1, target);
    Multiple(target, 1, target);
    Upper(packets, target);
  }

  lemma Upper(packets: nat, target: nat)
    requires packets > 0 && target > 0
    ensures (packets + target - 1) / target <= packets
  {
    var q := (packets + target - 1) / target;
    assert q * target <= packets + target - 1;
    MulMonotone(1, target, packets);
    if q > packets { Apart(packets, q, target); }
  }

  lemma Tiles(slotBytes: nat, packetBytes: nat, packets: nat, tps: nat)
    requires packetBytes > 0 && tps > 0 && packets % tps == 0 && packets * packetBytes == slotBytes
    ensures packets / tps * packetBytes * tps == slotBytes && packets / tps * packetBytes % packetBytes == 0
  {
    var each := packets / tps;
    assert packets == each * tps;
    assert each * packetBytes * tps == (each * tps) * packetBytes;
    assert each * packetBytes >= 0;
    Multiple(each * packetBytes, each, packetBytes);
  }

  /** The rounded-up number of transfers leaves each no more than the target. */
  lemma WithinTarget(packets: nat, packetBytes: nat, target: nat, tps: nat)
    requires packetBytes > 0 && tps > 0 && packets % tps == 0 && target == TargetPackets(packetBytes) && packets > 0
    requires (packets + target - 1) / target <= tps
    ensures 0 < packets / tps * packetBytes <= Max(packetBytes, TARGET_SMALL_TRANSFER_BYTES)
  {
    var each := packets / tps;
    var q := (packets + target - 1) / target;
    assert packets <= q * target by {
      var n := packets + target - 1;
      assert n == q * target + n % target;
    }
    assert packets == each * tps;
    if each > target {
      Apart(target, each, tps);
      MulMonotone(q, tps, target);
    }
    Apart(0, each, packetBytes);
    MulMonotone(each, target, packetBytes);
    assert target == 1 || target * packetBytes <= TARGET_SMALL_TRANSFER_BYTES;
  }

  lemma MulMonotone(a: nat, b: nat, d: nat)
    requires a <= b
    ensures a * d <= b * d
  {
    if a < b { Apart(a, b, d); }
  }

  lemma FirstSlot(slotCount: nat, discard: nat)
    requires discard <= slotCount && slotCount > 0
    ensures var first := (slotCount - discard) % slotCount;
            first < slotCount && (first + discard) % slotCount == 0
  {
    if discard == 0 {
      Multiple(slotCount, 1, slotCount);
    } else {
      Quotient(slotCount - discard, slotCount, 0, slotCount - discard);
      Multiple(slotCount, 1, slotCount);
    }
  }
}
