/**
  Loading a boot image into a device's memory: WriteRam's transfers of at most
  2 KiB, and the loop over sections that drives it.

  The device is a memory and an entry point it was told to jump to.  Each transfer
  takes as much as the script says; anything short of all of it is a refusal.
 */
module RamLoader {
  import opened BootImage

  const MAXIMUM_DOWNLOAD_BYTES := 2048

  type Ram = map<int, byte>

  /** Memory after bytes are stored one by one from `base`, addresses wrapping at 32 bits. */
  function Overlay(ram: Ram, base: int, data: seq<byte>): Ram
  {
    if data == [] then ram
    else
      var last := |data| - 1;
      Overlay(ram, base, data[..last])[(base + last) % TWO32 := data[last]]
  }

  lemma {:induction false} OverlayConcat(ram: Ram, base: int, a: seq<byte>, b: seq<byte>)
    ensures Overlay(Overlay(ram, base, a), base + |a|, b) == Overlay(ram, base, a + b)
  {
    if b == [] {
      assert a + b == a;
    } else {
      var last := |b| - 1;
      assert (a + b)[..|a + b| - 1] == a + b[..last];
      OverlayConcat(ram, base, a, b[..last]);
    }
  }

  lemma {:induction false} OverlayWraps(ram: Ram, a: int, b: int, data: seq<byte>)
    requires a % TWO32 == b % TWO32
    ensures Overlay(ram, a, data) == Overlay(ram, b, data)
  {
    if data != [] {
      OverlayWraps(ram, a, b, data[..|data| - 1]);
      WrapsAlike(a, b, |data| - 1);
    }
  }

  lemma WrapsAlike(a: int, b: int, k: nat)
    requires a % TWO32 == b % TWO32
    ensures (a + k) % TWO32 == (b + k) % TWO32
  {
  }

  /** A byte of memory once the data lies over it, when the data does not lap itself. */
  lemma {:induction false} OverlayAt(ram: Ram, base: int, data: seq<byte>, address: int)
    requires |data| <= TWO32 && 0 <= address < TWO32
    ensures var i := (address - base) % TWO32;
            if i < |data| then address in Overlay(ram, base, data) && Overlay(ram, base, data)[address] == data[i]
            else (address in Overlay(ram, base, data) <==> address in ram)
                 && (address in ram ==> Overlay(ram, base, data)[address] == ram[address])
    decreases |data|
  {
    if data != [] {
      var last := |data| - 1;
      OverlayAt(ram, base, data[..last], address);
      SameAddress(base, last, address);
    }
  }

  lemma SameAddress(base: int, k: nat, address: int)
    requires k < TWO32 && 0 <= address < TWO32
    ensures (base + k) % TWO32 == address <==> (address - base) % TWO32 == k
  {
  }

  /** All the segments of an image, in order. */
  function Loaded(ram: Ram, segments: seq<Segment>): Ram
  {
    if segments == [] then ram
    else Overlay(Loaded(ram, segments[..|segments| - 1]), segments[|segments| - 1].address, segments[|segments| - 1].payload)
  }

  datatype Jump = NotStarted | Started(entry: word)

  // ----- What the channel takes -----

  /** How many transfers carry this many bytes, and how many bytes the k-th of them. */
  function Transfers(total: nat): nat { (total + MAXIMUM_DOWNLOAD_BYTES - 1) / MAXIMUM_DOWNLOAD_BYTES }

  function BlockSize(total: nat, k: nat): nat
    requires k < Transfers(total)
  {
    if total - k * MAXIMUM_DOWNLOAD_BYTES < MAXIMUM_DOWNLOAD_BYTES then total - k * MAXIMUM_DOWNLOAD_BYTES
    else MAXIMUM_DOWNLOAD_BYTES
  }

  /** An entry of the script is how much a transfer takes at most; past its end the
      channel takes everything. */
  predicate TakesWhole(script: seq<nat>, k: nat, count: nat)
  {
    k < |script| ==> script[k] >= count
  }

  predicate TakesBlocks(script: seq<nat>, total: nat, n: nat)
    requires n <= Transfers(total)
  {
    forall k :: 0 <= k < n ==> TakesWhole(script, k, BlockSize(total, k))
  }

  predicate TakesAll(script: seq<nat>, total: nat) { TakesBlocks(script, total, Transfers(total)) }

  function Later(script: seq<nat>, n: nat): seq<nat> { if n <= |script| then script[n..] else [] }

  lemma LaterAgain(script: seq<nat>, n: nat)
    ensures Later(Later(script, n), 1) == Later(script, n + 1)
    ensures forall k: nat :: TakesWhole(Later(script, n), 0, k) == TakesWhole(script, n, k)
    ensures Later(script, n) == [] <==> n >= |script|
    ensures n < |script| ==> Later(script, n)[0] == script[n]
  {
  }

  class Channel {
    var ram: Ram
    var jumped: Jump
    var script: seq<nat>

    constructor (script: seq<nat>)
      ensures ram == map[] && jumped == NotStarted && this.script == script
    {
      ram, jumped, this.script := map[], NotStarted, script;
    }

    /** A download: the address comes in two halves, low one first. */
    method Transfer(value: int, index: int, data: seq<byte>) returns (written: nat)
      requires 0 <= value < 0x10000 && 0 <= index < 0x10000 && 0 < |data| <= MAXIMUM_DOWNLOAD_BYTES
      modifies this
      ensures written == (if TakesWhole(old(script), 0, |data|) then |data| else old(script)[0]) <= |data|
      ensures script == Later(old(script), 1) && jumped == old(jumped)
      ensures ram == Overlay(old(ram), value + 0x10000 * index, data[..written])
    {
      written := |data|;
      if script != [] {
        if script[0] < |data| { written := script[0]; }
        script := script[1..];
      }
      ram := Overlay(ram, value + 0x10000 * index, data[..written]);
    }

    /** A download without data is the jump. */
    method Jump(value: int, index: int)
      requires 0 <= value < 0x10000 && 0 <= index < 0x10000
      modifies this
      ensures ram == old(ram) && jumped == Started(value + 0x10000 * index)
    {
      jumped := Started(value + 0x10000 * index);
    }
  }

  lemma Halves(target: word)
    ensures var t := target as int; t % 0x10000 + 0x10000 * (t / 0x10000 % 0x10000) == t && t / 0x10000 < 0x10000
  {
  }

  class UsbDeviceProgrammer {
    const channel: Channel
    var open: bool

    constructor (channel: Channel)
      ensures this.channel == channel && open
    {
      this.channel := channel;
      open := true;
    }

    /** All of the data at its address, exactly if every transfer is taken whole; else
        what came before the first that is not, and as much of that as was taken. */
    method WriteRam(address: word, data: seq<byte>) returns (ok: bool, ghost landed: nat)
      modifies channel
      ensures landed <= |data| && channel.ram == Overlay(old(channel.ram), address, data[..landed])
      ensures ok <==> open && TakesAll(old(channel.script), |data|)
      ensures ok ==> landed == |data| && channel.script == Later(old(channel.script), Transfers(|data|))
      ensures channel.jumped == old(channel.jumped)
      ensures !open ==> landed == 0 && channel.script == old(channel.script)
      ensures open && !ok ==>
                exists k: nat :: k < Transfers(|data|) && k < |old(channel.script)| && TakesBlocks(old(channel.script), |data|, k)
                                 && landed == k * MAXIMUM_DOWNLOAD_BYTES + old(channel.script)[k]
    {
      hide Overlay, Transfers, BlockSize, TakesBlocks, TakesWhole, Later;
      landed := 0;
      NothingLaid(channel.ram, address, data);
      if !open { return false, 0; }
      var sent := 0;
      ghost var k, script := 0, channel.script;
      NoBlocks(script, |data|);
      while sent < |data|
        invariant 0 <= sent <= |data| && k <= Transfers(|data|)
        invariant sent == if k < Transfers(|data|) then k * MAXIMUM_DOWNLOAD_BYTES else |data|
        invariant channel.ram == Overlay(old(channel.ram), address, data[..sent])
        invariant channel.jumped == old(channel.jumped)
        invariant channel.script == Later(script, k) && TakesBlocks(script, |data|, k)
      {
        var block := if MAXIMUM_DOWNLOAD_BYTES < |data| - sent then MAXIMUM_DOWNLOAD_BYTES else |data| - sent;
        var target: word := (address as int + sent) % TWO32;
        var buffer := data[sent..sent + block];
        Halves(target);
        NextBlock(|data|, k);
        LaterAgain(script, k);
        OneBlockMore(script, |data|, k);
        var written := channel.Transfer(target as int % 0x10000, target as int / 0x10000 % 0x10000, buffer);
        Continues(old(channel.ram), address, data, sent, written, target);
        assert buffer[..written] == data[sent..sent + written];
        if written != block { return false, sent + written; }
        sent := sent + block;
        k := k + 1;
      }
      NoBlocksLeft(|data|, k);
      assert data[..|data|] == data;
      return true, |data|;
    }

    method Start(entry: word) returns (ok: bool)
      modifies this, channel
      ensures channel.ram == old(channel.ram) && ok == old(open) && !open
      ensures channel.jumped == if ok then Started(entry) else old(channel.jumped)
    {
      if !open { return false; }
      Halves(entry);
      channel.Jump(entry as int % 0x10000, entry as int / 0x10000 % 0x10000);
      open := false;
      ok := true;
    }
  }

  lemma NothingLaid(ram: Ram, base: int, data: seq<byte>)
    ensures Overlay(ram, base, data[..0]) == ram
  {
  }

  lemma NoBlocks(script: seq<nat>, total: nat)
    ensures TakesBlocks(script, total, 0) && Later(script, 0) == script && (Transfers(total) == 0 <==> total == 0)
  {
  }

  lemma OneBlockMore(script: seq<nat>, total: nat, k: nat)
    requires k < Transfers(total) && TakesBlocks(script, total, k)
    ensures TakesBlocks(script, total, k + 1) <==> TakesWhole(script, k, BlockSize(total, k))
    ensures !TakesWhole(script, k, BlockSize(total, k)) ==> k < |script| && script[k] < BlockSize(total, k) && !TakesAll(script, total)
    ensures TakesWhole(script, k, BlockSize(total, k)) ==> k >= |script| || script[k] >= BlockSize(total, k)
  {
  }

  lemma NextBlock(total: nat, k: nat)
    requires k * MAXIMUM_DOWNLOAD_BYTES < total
    ensures k < Transfers(total)
    ensures BlockSize(total, k)
         == if total - k * MAXIMUM_DOWNLOAD_BYTES > MAXIMUM_DOWNLOAD_BYTES then MAXIMUM_DOWNLOAD_BYTES else total - k * MAXIMUM_DOWNLOAD_BYTES
    ensures k * MAXIMUM_DOWNLOAD_BYTES + BlockSize(total, k) ==
              if k + 1 < Transfers(total) then (k + 1) * MAXIMUM_DOWNLOAD_BYTES else total
  {
  }

  lemma NoBlocksLeft(total: nat, k: nat)
    requires k <= Transfers(total) && (k < Transfers(total) ==> k * MAXIMUM_DOWNLOAD_BYTES >= total)
    ensures k == Transfers(total)
  {
  }

  lemma Continues(ram: Ram, address: word, data: seq<byte>, sent: nat, more: nat, target: word)
    requires sent + more <= |data| && target as int == (address as int + sent) % TWO32
    ensures Overlay(Overlay(ram, address, data[..sent]), target, data[sent..sent + more]) == Overlay(ram, address, data[..sent + more])
  {
    OverlayWraps(Overlay(ram, address, data[..sent]), target, address + sent, data[sent..sent + more]);
    OverlayConcat(ram, address, data[..sent], data[sent..sent + more]);
    assert data[..sent] + data[sent..sent + more] == data[..sent + more];
  }

  // ----- Wake -----

  datatype Outcome = NoFirmware | BadImage(problem: Problem) | Cancelled | Refused | NotStarting | Running

  /** Where the script stands before the i-th section. */
  function ScriptAt(script: seq<nat>, sections: seq<Section>, i: nat): seq<nat>
    requires i <= |sections|
  {
    if i == 0 then script else Later(ScriptAt(script, sections, i - 1), Transfers(sections[i - 1].length))
  }

  predicate Cancels(cancels: seq<bool>, i: nat) { i < |cancels| && cancels[i] }

  /** The first n sections are loaded: nobody cancels, and every transfer is taken whole. */
  predicate Loads(script: seq<nat>, cancels: seq<bool>, sections: seq<Section>, n: nat)
    requires n <= |sections|
  {
    forall i :: 0 <= i < n ==> !Cancels(cancels, i) && TakesAll(ScriptAt(script, sections, i), sections[i].length)
  }

  lemma LoadsNone(script: seq<nat>, cancels: seq<bool>, sections: seq<Section>)
    ensures ScriptAt(script, sections, 0) == script && Loads(script, cancels, sections, 0)
  {
  }

  /** One section more, or the one at which loading stops. */
  lemma LoadsMore(script: seq<nat>, cancels: seq<bool>, sections: seq<Section>, i: nat)
    requires i < |sections| && Loads(script, cancels, sections, i)
    ensures Cancels(cancels, i) <==> i < |cancels| && cancels[i]
    ensures ScriptAt(script, sections, i + 1) == Later(ScriptAt(script, sections, i), Transfers(sections[i].length))
    ensures var whole := TakesAll(ScriptAt(script, sections, i), sections[i].length);
            && (Loads(script, cancels, sections, i + 1) <==> !Cancels(cancels, i) && whole)
            && (Cancels(cancels, i) || !whole ==> !Loads(script, cancels, sections, |sections|))
            && (!Cancels(cancels, i) && !whole ==> forall j :: 0 <= j < |sections| && Loads(script, cancels, sections, j) ==> !Cancels(cancels, j))
  {
    hide TakesAll, Later, Transfers, ScriptAt;
    assert ScriptAt(script, sections, i + 1) == Later(ScriptAt(script, sections, i), Transfers(sections[i].length)) by { NextScript(script, sections, i); }
  }

  lemma NextScript(script: seq<nat>, sections: seq<Section>, i: nat)
    requires i < |sections|
    ensures ScriptAt(script, sections, i + 1) == Later(ScriptAt(script, sections, i), Transfers(sections[i].length))
  {
  }

  lemma LoadsAll(script: seq<nat>, cancels: seq<bool>, sections: seq<Section>)
    requires Loads(script, cancels, sections, |sections|)
    ensures forall j :: 0 <= j < |sections| ==> !Cancels(cancels, j)
  {
  }

  /** Parse, load every section in order, and only then jump. `cancels` says at
      which sections the user has asked to stop. */
  method Wake(firmware: seq<byte>, programmer: UsbDeviceProgrammer, cancels: seq<bool>) returns (outcome: Outcome)
    requires programmer.open && programmer.channel.jumped == NotStarted
    modifies programmer, programmer.channel
    // Nothing is sent unless the file is an image.
    ensures firmware == [] || Parse(firmware).Err? ==> programmer.channel.ram == old(programmer.channel.ram)
    ensures firmware != [] && Parse(firmware).Err? ==> outcome == BadImage(Parse(firmware).problem)
    // The device is started only with all of the image in its memory.
    ensures programmer.channel.jumped != NotStarted <==> outcome == Running
    ensures firmware == [] <==> outcome == NoFirmware
    // And it is, exactly if nobody cancels and every transfer is taken whole.
    ensures var script, r := old(programmer.channel.script), Parse(firmware);
            firmware != [] && r.Ok? ==>
              && (outcome == Running <==> Loads(script, cancels, r.value.sections, |r.value.sections|))
              && (outcome == Cancelled <==>
                    exists i :: 0 <= i < |r.value.sections| && Loads(script, cancels, r.value.sections, i) && Cancels(cancels, i))
              && (outcome in {Running, Cancelled, Refused})
    ensures outcome == Running ==>
              && Parse(firmware).Ok? && InBounds(firmware, Parse(firmware).value.sections)
              && programmer.channel.jumped == Started(Parse(firmware).value.entry)
              && programmer.channel.ram == Loaded(old(programmer.channel.ram), SegmentsOf(firmware, Parse(firmware).value.sections))
  {
    hide Parse, SegmentsOf, Encode, RecordsOf, Loaded, Overlay, Encodable, TakesAll, TakesBlocks, Later, Transfers, Loads, Cancels, ScriptAt;
    if firmware == [] { return NoFirmware; }
    var parsed := ParseBootImage(firmware);
    if parsed.Err? { return BadImage(parsed.problem); }
    var image := parsed.value;
    ParseAccepts(firmware);
    ghost var segments := SegmentsOf(firmware, image.sections);
    ghost var script := programmer.channel.script;
    NoneLoaded(programmer.channel.ram, segments);
    LoadsNone(script, cancels, image.sections);
    for i := 0 to |image.sections|
      invariant programmer.open && programmer.channel.jumped == NotStarted
      invariant programmer.channel.ram == Loaded(old(programmer.channel.ram), segments[..i])
      invariant programmer.channel.script == ScriptAt(script, image.sections, i)
      invariant Loads(script, cancels, image.sections, i)
    {
      LoadsMore(script, cancels, image.sections, i);
      if i < |cancels| && cancels[i] { return Cancelled; }
      var section := image.sections[i];
      var ok;
      ghost var landed;
      ok, landed := programmer.WriteRam(section.address, firmware[section.offset..section.offset + section.length]);
      if !ok { return Refused; }
      OneMoreLoaded(old(programmer.channel.ram), segments, i);
    }
    LoadsAll(script, cancels, image.sections);
    assert segments[..|image.sections|] == segments;
    var started := programmer.Start(image.entry);
    outcome := if started then Running else NotStarting;
  }

  lemma NoneLoaded(ram: Ram, segments: seq<Segment>)
    ensures Loaded(ram, segments[..0]) == ram
  {
  }

  lemma OneMoreLoaded(ram: Ram, segments: seq<Segment>, i: nat)
    requires i < |segments|
    ensures Loaded(ram, segments[..i + 1]) == Overlay(Loaded(ram, segments[..i]), segments[i].address, segments[i].payload[..|segments[i].payload|])
  {
    assert segments[..i + 1][..i] == segments[..i];
    assert segments[i].payload[..|segments[i].payload|] == segments[i].payload;
  }

  /** An encoded image, once the device runs, is in memory segment by segment. */
  lemma LoadsWhatWasEncoded(ram: Ram, control: byte, segments: seq<Segment>, entry: word)
    requires Encodable(segments) && control % 2 == 0
    ensures var image := Encode(control, segments, entry); var r := Parse(image);
            && r.Ok? && r.value.entry == entry && InBounds(image, r.value.sections)
            && Loaded(ram, SegmentsOf(image, r.value.sections)) == Loaded(ram, segments)
  {
    ParseEncoded(control, segments, entry);
  }
}
