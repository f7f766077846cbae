/**
  The SVF player's bookkeeping: the state it believes the TAP is in, against the
  state the clocks it has sent really lead to.

  Statements are taken as read; the words and numbers they are written with are
  not part of this model.  The cable answers from a script, so every way it can
  behave is some script.
 */
module SvfPlayer {
  import opened TapController
  import opened TapDistance
  import opened JtagBits

  datatype Option<T> = None | Some(value: T)

  datatype Clock = Clock(tms: bool, tdi: bool)

  function Tms(log: seq<Clock>): (r: seq<bool>)
    ensures |r| == |log| && forall i :: 0 <= i < |r| ==> r[i] == log[i].tms
  {
    if log == [] then [] else Tms(log[..|log| - 1]) + [log[|log| - 1].tms]
  }

  lemma TmsConcat(a: seq<Clock>, b: seq<Clock>)
    ensures Tms(a + b) == Tms(a) + Tms(b)
  {
  }

  /** Clocks with the given bits on TMS and TDI. */
  function Clocks(tms: seq<bool>, tdi: seq<bool>): (r: seq<Clock>)
    requires |tms| == |tdi|
    ensures |r| == |tms| && forall i :: 0 <= i < |r| ==> r[i] == Clock(tms[i], tdi[i])
  {
    if tms == [] then [] else Clocks(tms[..|tms| - 1], tdi[..|tdi| - 1]) + [Clock(tms[|tms| - 1], tdi[|tdi| - 1])]
  }

  lemma TmsOfClocks(tms: seq<bool>, tdi: seq<bool>)
    requires |tms| == |tdi|
    ensures Tms(Clocks(tms, tdi)) == tms
  {
  }

  datatype Reply = Reply(answers: bool, tdo: seq<bv8>)

  predicate Answers(script: seq<Reply>) { script != [] && script[0].answers }

  function Later(script: seq<Reply>): seq<Reply> { if script == [] then [] else script[1..] }

  /** The next n calls are all answered. */
  predicate AllAnswer(script: seq<Reply>, n: nat)
  {
    n <= |script| && forall k :: 0 <= k < n ==> script[k].answers
  }

  function Rest(script: seq<Reply>, n: nat): seq<Reply> { if n <= |script| then script[n..] else [] }

  /** What the call after the next k is answered; an answer of another size is none. */
  function AnswerTo(script: seq<Reply>, k: nat, bytes: nat): (tdo: seq<bv8>)
    ensures |tdo| == bytes
  {
    if k < |script| && |script[k].tdo| == bytes then script[k].tdo else ZeroBytes(bytes)
  }

  lemma AnswersAdd(script: seq<Reply>, m: nat, n: nat)
    ensures AllAnswer(script, m + n) <==> AllAnswer(script, m) && AllAnswer(Rest(script, m), n)
    ensures Rest(Rest(script, m), n) == Rest(script, m + n)
    ensures forall bytes: nat :: AnswerTo(Rest(script, m), n, bytes) == AnswerTo(script, m + n, bytes)
  {
    if AllAnswer(script, m) && AllAnswer(Rest(script, m), n) {
      forall k | 0 <= k < m + n ensures script[k].answers {
        if k >= m { assert Rest(script, m)[k - m].answers; }
      }
    }
  }

  lemma OneCall(script: seq<Reply>)
    ensures AllAnswer(script, 0) && Rest(script, 0) == script
    ensures AllAnswer(script, 1) <==> Answers(script)
    ensures Rest(script, 1) == Later(script)
  {
  }

  class Cable {
    var log: seq<Clock>
    var script: seq<Reply>

    constructor (script: seq<Reply>)
      ensures log == [] && this.script == script
    {
      log, this.script := [], script;
    }

    method NextReply(bytes: nat) returns (ok: bool, tdo: seq<bv8>)
      modifies this`script
      ensures ok == Answers(old(script)) && script == Later(old(script))
      ensures tdo == AnswerTo(old(script), 0, bytes)
    {
      ok, tdo := false, ZeroBytes(bytes);
      if script != [] {
        ok := script[0].answers;
        if |script[0].tdo| == bytes { tdo := script[0].tdo; }
        script := script[1..];
      }
    }

    method Shift(tms: seq<bv8>, tdi: seq<bv8>, count: nat) returns (ok: bool, tdo: seq<bv8>)
      requires |tms| == |tdi| == BytesForBits(count)
      modifies this
      ensures ok == Answers(old(script)) && script == Later(old(script))
      ensures tdo == AnswerTo(old(script), 0, BytesForBits(count))
      ensures log == if ok then old(log) + Clocks(Unpacked(tms, count), Unpacked(tdi, count)) else old(log)
    {
      ok, tdo := NextReply(BytesForBits(count));
      if ok { log := log + Clocks(Unpacked(tms, count), Unpacked(tdi, count)); }
    }

    /** Clocks with both lines held low. */
    method RunClock(count: nat) returns (ok: bool)
      modifies this
      ensures ok == Answers(old(script)) && script == Later(old(script))
      ensures log == if ok then old(log) + Clocks(Zeros(count), Zeros(count)) else old(log)
    {
      var tdo;
      ok, tdo := NextReply(0);
      if ok { log := log + Clocks(Zeros(count), Zeros(count)); }
    }
  }

  // ----- Packing -----

  lemma UnpackedIs(bits: seq<bv8>, wanted: seq<bool>)
    requires |bits| == BytesForBits(|wanted|)
    requires forall i :: 0 <= i < |wanted| ==> (InBytes(i, |wanted|); BitAt(bits, i) == wanted[i])
    ensures Unpacked(bits, |wanted|) == wanted
  {
  }

  method Pack(wanted: seq<bool>) returns (bits: seq<bv8>)
    ensures |bits| == BytesForBits(|wanted|) && Unpacked(bits, |wanted|) == wanted
  {
    hide BitAt, SetBitAt;
    var count := |wanted|;
    bits := ZeroBytes(BytesForBits(count));
    forall i | 0 <= i < count ensures i / 8 < |bits| && !BitAt(bits, i) { InBytes(i, count); ZeroBits(|bits|, i); }
    for index := 0 to count
      invariant |bits| == BytesForBits(count)
      invariant forall i :: 0 <= i < count ==> (InBytes(i, count); BitAt(bits, i) == (i < index && wanted[i]))
    {
      InBytes(index, count);
      ghost var before := bits;
      bits := SetBitAt(bits, index, wanted[index]);
      forall i | 0 <= i < count ensures i / 8 < |bits| && BitAt(bits, i) == (i < index + 1 && wanted[i]) {
        InBytes(i, count);
        SetThenGet(before, index, wanted[index], i);
      }
    }
    UnpackedIs(bits, wanted);
  }

  // ----- Scans -----

  function ShiftState(instruction: bool): TapState { if instruction then IrShift else DrShift }
  function Exit1State(instruction: bool): TapState { if instruction then IrExit1 else DrExit1 }

  /** TMS of a scan: low until the last bit, which leaves as it shifts. */
  function ScanTms(count: nat): (r: seq<bool>)
    requires count > 0
    ensures |r| == count && forall i :: 0 <= i < count ==> r[i] == (i == count - 1)
  {
    Zeros(count - 1) + [true]
  }

  /** Every clock of the scan is spent in the SHIFT state, and it ends in EXIT1. */
  lemma {:induction false} ScanStaysInShift(instruction: bool, count: nat)
    requires count > 0
    ensures forall i :: 0 <= i < count ==> Walk(ShiftState(instruction), ScanTms(count)[..i]) == ShiftState(instruction)
    ensures Walk(ShiftState(instruction), ScanTms(count)) == Exit1State(instruction)
  {
    forall i | 0 <= i < count
      ensures Walk(ShiftState(instruction), ScanTms(count)[..i]) == ShiftState(instruction)
    {
      assert ScanTms(count)[..i] == Zeros(i);
      StaysOnZero(ShiftState(instruction), i);
    }
    StaysOnZero(ShiftState(instruction), count - 1);
    WalkMore(ShiftState(instruction), Zeros(count - 1), true);
  }

  lemma StaysOnZero(s: TapState, n: nat)
    requires LoopsOnZero(s)
    ensures Walk(s, Zeros(n)) == s
  {
    if n > 0 { IdleClocks(s, n); } else { WalkNone(s); }
  }

  /** A statement's values: absent ones are remembered, except TDO. */
  datatype Fields = Fields(tdi: Option<string>, tdo: Option<string>, mask: Option<string>, smask: Option<string>)

  datatype Statement =
    | Scan(instruction: bool, count: nat, fields: Fields)
    | RunTest(run: TapState, clocks: nat, end: Option<TapState>)
    | ChangeState(states: seq<Option<TapState>>)
    | EndState(instruction: bool, state: TapState)
    | NothingToSend
    | Refused

  /** What a previous scan of one kind left behind. */
  datatype Sticky = Sticky(count: nat, tdi: seq<bv8>, mask: seq<bv8>, smask: seq<bv8>)

  predicate Packed(s: Sticky)
  {
    |s.tdi| == |s.mask| == |s.smask| == BytesForBits(s.count)
  }

  predicate IsStableState(s: TapState)
  {
    s == Reset || s == Idle || s == DrPause || s == IrPause
  }

  /** All bits of the run set. */
  method AllBits(count: nat) returns (bits: seq<bv8>)
    ensures |bits| == BytesForBits(count)
    ensures forall i :: 0 <= i < count ==> (InBytes(i, count); BitAt(bits, i))
  {
    var ones := Ones(count);
    bits := Pack(ones);
    forall i | 0 <= i < count ensures i / 8 < |bits| && BitAt(bits, i) {
      InBytes(i, count);
      assert Unpacked(bits, count)[i];
    }
  }

  function Ones(n: nat): (r: seq<bool>)
    ensures |r| == n && forall i :: 0 <= i < n ==> r[i]
  {
    if n == 0 then [] else Ones(n - 1) + [true]
  }

  /** The value a scan is to use: as written, or as remembered. */
  method Take(hex: Option<string>, count: nat, remembered: seq<bv8>) returns (ok: bool, bits: seq<bv8>)
    requires |remembered| == BytesForBits(count)
    ensures |bits| == BytesForBits(count)
    ensures hex == None ==> ok && bits == remembered
    ensures hex.Some? ==> (ok <==> AllHex(hex.value) && Fits(hex.value, count))
    ensures hex.Some? && ok ==> forall i :: 0 <= i < count ==> (InBytes(i, count); BitAt(bits, i) == NumberBit(hex.value, i))
  {
    match hex
    case None => ok, bits := true, remembered;
    case Some(text) => ok, bits := HexToBits(text, count);
  }

  // ----- What is sent -----

  /** One call on the cable: a walk, the bits of a scan, or clocks with TMS low. */
  datatype Segment =
    | Move(from: TapState, to: TapState, clocks: seq<Clock>)
    | Bits(instruction: bool, tdi: seq<bool>)
    | Wait(run: TapState, count: nat)

  function ClocksOf(g: Segment): seq<Clock>
  {
    match g
    case Move(_, _, clocks) => clocks
    case Bits(_, tdi) => if tdi == [] then [] else Clocks(ScanTms(|tdi|), tdi)
    case Wait(_, count) => Clocks(Zeros(count), Zeros(count))
  }

  /** Where the player believes the TAP is before it and after it. */
  function Begins(g: Segment): TapState
  {
    match g case Move(from, _, _) => from case Bits(instruction, _) => ShiftState(instruction) case Wait(run, _) => run
  }

  function Ends(g: Segment): TapState
  {
    match g case Move(_, to, _) => to case Bits(instruction, _) => Exit1State(instruction) case Wait(run, _) => run
  }

  /** A walk is a shortest one, so it does not enter Test-Logic-Reset on its way
      anywhere else; a scan has bits. */
  ghost predicate Proper(g: Segment)
  {
    match g
    case Move(from, to, clocks) => Shortest(from, to, Tms(clocks))
    case Bits(_, tdi) => tdi != []
    case Wait(_, _) => true
  }

  function Flat(sent: seq<Segment>): seq<Clock>
  {
    if sent == [] then [] else Flat(sent[..|sent| - 1]) + ClocksOf(sent[|sent| - 1])
  }

  /** Proper segments, each beginning where the one before it ends. */
  ghost predicate Linked(from: TapState, sent: seq<Segment>, to: TapState)
  {
    if sent == [] then from == to
    else
      var g := sent[|sent| - 1];
      Proper(g) && Ends(g) == to && Linked(from, sent[..|sent| - 1], Begins(g))
  }

  /** The scans among them. */
  function ScansIn(sent: seq<Segment>): seq<Segment>
  {
    if sent == [] then []
    else ScansIn(sent[..|sent| - 1]) + (if sent[|sent| - 1].Bits? then [sent[|sent| - 1]] else [])
  }

  ghost predicate Sends(before: seq<Clock>, after: seq<Clock>, from: TapState, sent: seq<Segment>, to: TapState)
  {
    after == before + Flat(sent) && Linked(from, sent, to)
  }

  lemma NothingSent(log: seq<Clock>, s: TapState)
    ensures Sends(log, log, s, [], s) && ScansIn([]) == [] && log + [] == log
  {
  }

  lemma SendsMore(before: seq<Clock>, log: seq<Clock>, from: TapState, sent: seq<Segment>, g: Segment)
    requires Sends(before, log, from, sent, Begins(g)) && Proper(g)
    ensures Sends(before, log + ClocksOf(g), from, sent + [g], Ends(g))
    ensures ScansIn(sent + [g]) == ScansIn(sent) + (if g.Bits? then [g] else [])
  {
    assert (sent + [g])[..|sent|] == sent;
    Regroup(before, Flat(sent), ClocksOf(g));
  }

  lemma Regroup(a: seq<Clock>, b: seq<Clock>, c: seq<Clock>)
    ensures a + b + c == a + (b + c)
  {
  }

  lemma {:induction false} SendsBoth(a: seq<Clock>, b: seq<Clock>, c: seq<Clock>, from: TapState, s1: seq<Segment>, via: TapState,
                                     s2: seq<Segment>, to: TapState)
    requires Sends(a, b, from, s1, via) && Sends(b, c, via, s2, to)
    ensures Sends(a, c, from, s1 + s2, to) && ScansIn(s1 + s2) == ScansIn(s1) + ScansIn(s2)
    decreases |s2|
  {
    hide Sends, ScansIn, Proper, ClocksOf, Flat, Linked;
    LastSent(b, c, via, s2, to);
    if s2 == [] {
      assert s1 + s2 == s1;
    } else {
      var g, rest := s2[|s2| - 1], s2[..|s2| - 1];
      SendsBoth(a, b, b + Flat(rest), from, s1, via, rest, Begins(g));
      SendsMore(a, b + Flat(rest), from, s1 + rest, g);
      assert s1 + rest + [g] == s1 + s2;
      assert ScansIn(s1) + ScansIn(rest) + (if g.Bits? then [g] else []) == ScansIn(s1) + ScansIn(s2);
    }
  }

  /** The last segment, taken off again. */
  lemma LastSent(before: seq<Clock>, after: seq<Clock>, from: TapState, sent: seq<Segment>, to: TapState)
    requires Sends(before, after, from, sent, to)
    ensures sent == [] ==> before == after && from == to && ScansIn(sent) == []
    ensures sent != [] ==>
              var g, rest := sent[|sent| - 1], sent[..|sent| - 1];
              && Sends(before, before + Flat(rest), from, rest, Begins(g)) && Proper(g) && Ends(g) == to
              && after == before + Flat(rest) + ClocksOf(g)
              && ScansIn(sent) == ScansIn(rest) + (if g.Bits? then [g] else [])
  {
    hide Proper, ClocksOf;
    if sent == [] {
      assert before + [] == before;
    } else {
      Regroup(before, Flat(sent[..|sent| - 1]), ClocksOf(sent[|sent| - 1]));
    }
  }

  /** If the belief is right and stays right, every segment begins in truth where the
      player believes it does: so every bit of every scan is clocked in SHIFT. */
  lemma {:induction false} TrueThroughout(log: seq<Clock>, from: TapState, sent: seq<Segment>, to: TapState)
    requires LeadsTo(log, from) && Linked(from, sent, to)
    requires forall i :: 0 <= i < |sent| && sent[i].Wait? ==> sent[i].count == 0 || LoopsOnZero(sent[i].run)
    ensures LeadsTo(log + Flat(sent), to)
    ensures forall i :: 0 <= i < |sent| ==> LeadsTo(log + Flat(sent[..i]), Begins(sent[i]))
  {
    if sent == [] {
      assert log + [] == log;
    } else {
      var g, rest := sent[|sent| - 1], sent[..|sent| - 1];
      TrueThroughout(log, from, rest, Begins(g));
      forall i | 0 <= i < |sent| ensures LeadsTo(log + Flat(sent[..i]), Begins(sent[i])) {
        if i < |rest| { assert sent[..i] == rest[..i]; } else { assert sent[..i] == rest; }
      }
      LeadsOver(log + Flat(rest), g);
      Regroup(log, Flat(rest), ClocksOf(g));
    }
  }

  lemma LeadsOver(log: seq<Clock>, g: Segment)
    requires LeadsTo(log, Begins(g)) && Proper(g) && (g.Wait? ==> g.count == 0 || LoopsOnZero(g.run))
    ensures LeadsTo(log + ClocksOf(g), Ends(g))
  {
    hide LeadsTo, Walk, LoopsOnZero;
    LeadsOn(log, Begins(g), ClocksOf(g));
    match g
    case Move(from, to, clocks) => ShortestArrives(from, to, Tms(clocks));
    case Bits(instruction, tdi) =>
      ScanStaysInShift(instruction, |tdi|);
      TmsOfClocks(ScanTms(|tdi|), tdi);
    case Wait(run, count) =>
      TmsOfClocks(Zeros(count), Zeros(count));
      if count > 0 { IdleClocks(run, count); } else { WalkNone(run); }
  }

  // ----- What a file asks for -----

  datatype Knowledge = Knowledge(current: TapState, endDr: TapState, endIr: TapState, countDr: nat, countIr: nat)

  predicate Acceptable(k: Knowledge, statement: Statement)
  {
    match statement
    case Scan(instruction, count, fields) => CanBeRead(if instruction then k.countIr else k.countDr, count, fields)
    case RunTest(_, _, _) => true
    case ChangeState(states) => states != [] && AllKnown(states)
    case EndState(_, state) => IsStableState(state)
    case NothingToSend => true
    case Refused => false
  }

  /** The calls a statement makes on the cable. */
  function Calls(k: Knowledge, statement: Statement): nat
  {
    match statement
    case Scan(instruction, count, _) => if count == 0 then 0 else ScanCalls(k.current, instruction, EndFor(instruction, k.endDr, k.endIr))
    case RunTest(run, clocks, end) => WaitCalls(k.current, run, clocks, WaitEnd(run, end))
    case ChangeState(states) => WalkCalls(k.current, states)
    case _ => 0
  }

  function Done(k: Knowledge, statement: Statement): Knowledge
  {
    match statement
    case Scan(instruction, count, _) =>
      var at := if count == 0 then k.current else EndFor(instruction, k.endDr, k.endIr);
      if instruction then k.(current := at, countIr := count) else k.(current := at, countDr := count)
    case RunTest(run, _, end) => k.(current := WaitEnd(run, end))
    case ChangeState(states) => k.(current := WalkEnd(k.current, states))
    case EndState(instruction, state) => if instruction then k.(endIr := state) else k.(endDr := state)
    case _ => k
  }

  function AllDone(k: Knowledge, statements: seq<Statement>): Knowledge
  {
    if statements == [] then k else Done(AllDone(k, statements[..|statements| - 1]), statements[|statements| - 1])
  }

  function AllCalls(k: Knowledge, statements: seq<Statement>): nat
  {
    if statements == [] then 0
    else
      var before, last := statements[..|statements| - 1], statements[|statements| - 1];
      AllCalls(k, before) + Calls(AllDone(k, before), last)
  }

  predicate AllAcceptable(k: Knowledge, statements: seq<Statement>)
  {
    statements == []
    || var before, last := statements[..|statements| - 1], statements[|statements| - 1];
       AllAcceptable(k, before) && Acceptable(AllDone(k, before), last)
  }

  lemma NothingAsked(k: Knowledge, statements: seq<Statement>)
    ensures AllDone(k, statements[..0]) == k && AllCalls(k, statements[..0]) == 0 && AllAcceptable(k, statements[..0])
  {
  }

  /** One statement more: what it asks, and that a file is not accepted without it. */
  lemma OneStatementMore(script: seq<Reply>, k: Knowledge, statements: seq<Statement>, i: nat)
    requires i < |statements|
    ensures var before, upTo := statements[..i], statements[..i + 1];
            && AllDone(k, upTo) == Done(AllDone(k, before), statements[i])
            && AllCalls(k, upTo) == AllCalls(k, before) + Calls(AllDone(k, before), statements[i])
            && (AllAcceptable(k, upTo) <==> AllAcceptable(k, before) && Acceptable(AllDone(k, before), statements[i]))
            && (AllAcceptable(k, statements) ==> AllAcceptable(k, upTo))
            && (AllAnswer(script, 1 + AllCalls(k, statements)) ==> AllAnswer(script, 1 + AllCalls(k, upTo)))
  {
    hide AllAnswer, Acceptable, Calls, Done;
    assert statements[..i + 1][..i] == statements[..i];
    PrefixAccepted(k, statements, i + 1, |statements|);
    assert statements[..|statements|] == statements;
    FewerAnswer(script, 1 + AllCalls(k, statements[..i + 1]), 1 + AllCalls(k, statements));
  }

  lemma {:induction false} PrefixAccepted(k: Knowledge, statements: seq<Statement>, i: nat, j: nat)
    requires i <= j <= |statements|
    ensures AllCalls(k, statements[..i]) <= AllCalls(k, statements[..j])
    ensures AllAcceptable(k, statements[..j]) ==> AllAcceptable(k, statements[..i])
    decreases j
  {
    hide Acceptable, Calls, Done;
    if i < j {
      PrefixAccepted(k, statements, i, j - 1);
      assert statements[..j][..j - 1] == statements[..j - 1];
    }
  }

  // ----- The player -----

  class Player {
    const cable: Cable
    var current: TapState
    var endDr: TapState
    var endIr: TapState
    var stickyDr: Sticky
    var stickyIr: Sticky
    var deviceAttached: bool
    var mismatch: Option<nat>

    constructor (cable: Cable, deviceAttached: bool)
      ensures this.cable == cable && Valid()
    {
      this.cable, this.deviceAttached := cable, deviceAttached;
      current, endDr, endIr := Reset, Idle, Idle;
      stickyDr, stickyIr := Sticky(0, [], [], []), Sticky(0, [], [], []);
      mismatch := None;
    }

    predicate Valid()
      reads this
    {
      Packed(stickyDr) && Packed(stickyIr) && IsStableState(endDr) && IsStableState(endIr)
    }

    /** What decides which statements can be carried out, and what they ask of the cable. */
    function View(): Knowledge
      reads this
    {
      Knowledge(current, endDr, endIr, stickyDr.count, stickyIr.count)
    }

    /** The state the player believes in is the state the TAP is in. */
    ghost predicate Tracks()
      reads this, cable
    {
      LeadsTo(cable.log, current)
    }

    method MoveTo(target: TapState) returns (ok: bool, ghost lead: seq<Clock>)
      modifies this`current, cable
      ensures cable.log == old(cable.log) + lead
      ensures if ok then current == target && Shortest(old(current), target, Tms(lead)) else current == old(current) && lead == []
      ensures old(Tracks()) ==> Tracks()
      ensures ok <==> AllAnswer(old(cable.script), Steps(old(current), target))
      ensures ok ==> cable.script == Rest(old(cable.script), Steps(old(current), target))
    {
      hide Shortest, Walk, LeadsTo, AllAnswer, Rest;
      OneCall(cable.script);
      var path := PathBetween(current, target);
      StaysPut(current, target, path);
      if path == [] {
        NoClocks();
        assert cable.log + [] == cable.log;
        current := target;
        return true, [];
      }
      var tms := Pack(path);
      var tdi := ZeroBytes(BytesForBits(|path|));
      var tdo;
      ok, tdo := cable.Shift(tms, tdi, |path|);
      if !ok {
        assert cable.log + [] == cable.log;
        return false, [];
      }
      lead := Clocks(path, Unpacked(tdi, |path|));
      TmsOfClocks(path, Unpacked(tdi, |path|));
      LeadsOn(old(cable.log), current, lead);
      ShortestArrives(current, target, path);
      current := target;
    }

    /** The values of a scan, remembered or newly given; false when the file has
        one that cannot be used. */
    method ReadScan(instruction: bool, count: nat, fields: Fields) returns (ok: bool, expected: seq<bv8>)
      requires Valid()
      modifies this`stickyDr, this`stickyIr
      ensures Valid()
      ensures var was, now := if instruction then old(stickyIr) else old(stickyDr), if instruction then stickyIr else stickyDr;
              ok <==> CanBeRead(was.count, count, fields) && (ok ==> now.count == count && Remembers(was, now, fields))
      ensures if instruction then stickyDr == old(stickyDr) else stickyIr == old(stickyIr)
      ensures |expected| == BytesForBits(count)
      ensures ok ==> Wanted(fields.tdo, expected, count)
    {
      hide BitAt, NumberBit, Fits, AllHex;
      expected := ZeroBytes(BytesForBits(count));
      var sticky := if instruction then stickyIr else stickyDr;
      if count != sticky.count {
        if fields.tdi == None && count > 0 { return false, expected; }
        var all := AllBits(count);
        sticky := Sticky(count, ZeroBytes(BytesForBits(count)), all, all);
      }
      var tdi, mask, smask;
      ok, tdi := Take(fields.tdi, count, sticky.tdi);
      if !ok { return false, expected; }
      ok, mask := Take(fields.mask, count, sticky.mask);
      if !ok { return false, expected; }
      ok, smask := Take(fields.smask, count, sticky.smask);
      if !ok { return false, expected; }
      ok, expected := Take(fields.tdo, count, expected);
      if !ok { return false, expected; }
      if instruction { stickyIr := Sticky(count, tdi, mask, smask); } else { stickyDr := Sticky(count, tdi, mask, smask); }
    }

    /** Walk to the SHIFT state, shift, and be in EXIT1. */
    method SendScan(instruction: bool, count: nat, tdi: seq<bv8>)
      returns (ok: bool, tdo: seq<bv8>, ghost sent: seq<Segment>)
      requires count > 0 && |tdi| == BytesForBits(count)
      modifies this`current, cable
      ensures |tdo| == BytesForBits(count)
      ensures var n := Steps(old(current), ShiftState(instruction)) + 1;
              && (ok <==> AllAnswer(old(cable.script), n))
              && (ok ==> cable.script == Rest(old(cable.script), n)
                         && tdo == AnswerTo(old(cable.script), n - 1, BytesForBits(count)))
      ensures Sends(old(cable.log), cable.log, old(current), sent, current) && NoWaits(sent)
      ensures ok ==> current == Exit1State(instruction)
      ensures ok ==> |sent| == 2 && sent[1] == Bits(instruction, Unpacked(tdi, count)) && ScansIn(sent) == [sent[1]]
      ensures old(Tracks()) ==> Tracks()
    {
      hide Shortest, Walk, LeadsTo, BitAt, SetBitAt, ScanTms, Clocks, Tms, Unpacked, Sends, ScansIn, AllAnswer, Rest, AnswerTo;
      NothingSent(cable.log, current);
      AnswersAdd(cable.script, Steps(current, ShiftState(instruction)), 0);
      AnswersAdd(cable.script, Steps(current, ShiftState(instruction)), 1);
      sent := [];
      tdo := ZeroBytes(BytesForBits(count));
      ghost var begin, from := cable.log, current;
      ghost var lead;
      ok, lead := MoveTo(ShiftState(instruction));
      if !ok { return; }
      ghost var walk := Move(from, current, lead);
      SendsMore(begin, begin, from, [], walk);
      sent := [walk];
      assert [] + [walk] == sent;
      InBytes(count - 1, count);
      var tms := SetBitAt(ZeroBytes(BytesForBits(count)), count - 1, true);
      PackedScanTms(tms, count);
      ScanLeads(cable.log, instruction, count, Unpacked(tdi, count));
      ghost var log, bits := cable.log, Bits(instruction, Unpacked(tdi, count));
      OneCall(cable.script);
      ok, tdo := cable.Shift(tms, tdi, count);
      if !ok { return; }
      SendsMore(begin, log, from, sent, bits);
      sent := [walk, bits];
      assert [walk] + [bits] == sent && [] + [bits] == [bits];
      current := Exit1State(instruction);
    }

    /** The first bit, of those the mask asks about, that is not as expected. */
    method Compare(count: nat, mask: seq<bv8>, received: seq<bv8>, expected: seq<bv8>) returns (found: Option<nat>)
      requires |mask| == |received| == |expected| == BytesForBits(count)
      ensures FirstMismatch(count, mask, received, expected, found)
    {
      hide BitAt;
      for index := 0 to count
        invariant NoMismatch(index, count, mask, received, expected)
      {
        InBytes(index, count);
        if BitAt(mask, index) && BitAt(received, index) != BitAt(expected, index) {
          return Some(index);
        }
      }
      found := None;
    }

    /** A whole scan. `received` is what the cable answered, when it was asked. */
    method DoScan(instruction: bool, count: nat, fields: Fields)
      returns (ok: bool, ghost received: seq<bv8>, ghost expected: seq<bv8>, ghost sent: seq<Segment>)
      requires Valid() && mismatch == None
      modifies this, cable
      ensures Valid() && (old(Tracks()) ==> Tracks())
      ensures endDr == old(endDr) && endIr == old(endIr) && deviceAttached == old(deviceAttached)
      ensures Sends(old(cable.log), cable.log, old(current), sent, current) && NoWaits(sent)
      ensures count == 0 ==> sent == []
      ensures ok ==> Sticks(if instruction then old(stickyIr) else old(stickyDr), if instruction then stickyIr else stickyDr, count, fields)
      ensures ok && count > 0 ==> current == EndFor(instruction, endDr, endIr)
      ensures var now := if instruction then stickyIr else stickyDr;
              ok && count > 0 ==> |sent| == 3 && sent[1] == Bits(instruction, Unpacked(now.tdi, count))
      ensures ok ==> ScansIn(sent) == (if count > 0 then [sent[1]] else [])
      ensures ok && count > 0 ==> GivenBits(fields.tdi, sent[1].tdi)
      ensures |received| == |expected| == BytesForBits(count)
      // A scan succeeds exactly when it can be read and, if there is anything to shift,
      // every call is answered and no bit that the mask asks about differs.
      ensures var was, now := if instruction then old(stickyIr) else old(stickyDr), if instruction then stickyIr else stickyDr;
              var n := ScanCalls(old(current), instruction, EndFor(instruction, endDr, endIr));
              && (CanBeRead(was.count, count, fields) ==> Sticks(was, now, count, fields) && Wanted(fields.tdo, expected, count))
              && (ok <==> CanBeRead(was.count, count, fields)
                          && (count == 0
                              || (now.count == count && AllAnswer(old(cable.script), n)
                                  && (fields.tdo.Some? && deviceAttached ==> NoMismatch(count, count, now.mask, received, expected)))))
              && (ok ==> cable.script == Rest(old(cable.script), if count == 0 then 0 else n))
              && (CanBeRead(was.count, count, fields) && (count == 0 || AllAnswer(old(cable.script), n)) && mismatch == None ==> ok)
      ensures var was, n := if instruction then old(stickyIr) else old(stickyDr), Steps(old(current), ShiftState(instruction));
              var asked := CanBeRead(was.count, count, fields) && count > 0 && AllAnswer(old(cable.script), n + 1);
              asked ==> received == AnswerTo(old(cable.script), n, BytesForBits(count))
      ensures EndCounts(instruction, count, ok, old(stickyDr), old(stickyIr), stickyDr, stickyIr)
      ensures ok ==> mismatch == None
      ensures mismatch != None ==> fields.tdo.Some? && deviceAttached
      ensures ok && count == 0 ==> current == old(current)
      ensures var now := if instruction then stickyIr else stickyDr;
              mismatch != None ==> now.count == count && FirstMismatch(count, now.mask, received, expected, mismatch)
    {
      hide Shortest, Walk, LeadsTo, BitAt, NumberBit, Fits, AllHex, Given, NoMismatch, FirstMismatch, ScanTms, Clocks, Tms,
           CanBeRead, Remembers, Sends, Unpacked, AllAnswer, Rest, AnswerTo;
      NothingSent(cable.log, current);
      OneCall(cable.script);
      sent := [];
      var wanted;
      ok, wanted := ReadScan(instruction, count, fields);
      received, expected := ZeroBytes(BytesForBits(count)), wanted;
      if !ok || count == 0 { return; }
      ok, received, expected, sent := PlayScan(instruction, count, fields, wanted);
      BitsGiven(if instruction then old(stickyIr) else old(stickyDr), if instruction then stickyIr else stickyDr, count, fields);
    }

    /** The part of a scan that talks to the cable. */
    method PlayScan(instruction: bool, count: nat, fields: Fields, wanted: seq<bv8>)
      returns (ok: bool, ghost received: seq<bv8>, ghost expected: seq<bv8>, ghost sent: seq<Segment>)
      requires Valid() && mismatch == None && count > 0 && |wanted| == BytesForBits(count)
      requires (if instruction then stickyIr else stickyDr).count == count
      modifies this`current, this`mismatch, cable
      ensures old(Tracks()) ==> Tracks()
      ensures ok ==> current == EndFor(instruction, endDr, endIr) && mismatch == None
      ensures Sends(old(cable.log), cable.log, old(current), sent, current) && NoWaits(sent)
      ensures ok ==> |sent| == 3 && ScansIn(sent) == [sent[1]]
      ensures ok ==> sent[1] == Bits(instruction, Unpacked((if instruction then stickyIr else stickyDr).tdi, count))
      ensures |received| == |expected| == BytesForBits(count) && expected == wanted
      ensures var now, n := if instruction then stickyIr else stickyDr, ScanCalls(old(current), instruction, EndFor(instruction, endDr, endIr));
              && (ok <==> AllAnswer(old(cable.script), n)
                          && (fields.tdo.Some? && deviceAttached ==> NoMismatch(count, count, now.mask, received, wanted)))
              && (ok ==> cable.script == Rest(old(cable.script), n))
              && (mismatch == None && AllAnswer(old(cable.script), n) ==> ok)
      ensures var n := Steps(old(current), ShiftState(instruction));
              AllAnswer(old(cable.script), n + 1) ==> received == AnswerTo(old(cable.script), n, BytesForBits(count))
      ensures mismatch != None ==> fields.tdo.Some? && deviceAttached
      ensures var now := if instruction then stickyIr else stickyDr;
              mismatch != None ==> FirstMismatch(count, now.mask, received, wanted, mismatch)
    {
      hide Shortest, Walk, LeadsTo, BitAt, NumberBit, NoMismatch, ScanTms, Clocks, Tms, Sends, ScansIn, Unpacked, AllAnswer, Rest, AnswerTo,
           FirstMismatch;
      expected := wanted;
      AnswersAdd(cable.script, Steps(current, ShiftState(instruction)) + 1,
                 Steps(Exit1State(instruction), EndFor(instruction, endDr, endIr)));
      var sticky := if instruction then stickyIr else stickyDr;
      var tdo;
      ok, tdo, sent := SendScan(instruction, count, sticky.tdi);
      received := tdo;
      if !ok { return; }
      if fields.tdo.Some? && deviceAttached {
        mismatch := Compare(count, sticky.mask, tdo, wanted);
        FoundOrNot(count, sticky.mask, tdo, wanted, mismatch);
        if mismatch != None { return false, received, expected, sent; }
      }
      ghost var log, at, done := cable.log, current, sent;
      ghost var tail;
      ok, tail := MoveTo(if instruction then endIr else endDr);
      if ok {
        SendsMore(old(cable.log), log, old(current), done, Move(at, current, tail));
        sent := done + [Move(at, current, tail)];
      } else {
        NothingSent(log, at);
      }
    }

    /** Run the clock in a state, then go on to another.  RunClock holds TMS low; the
        belief is right afterwards exactly when no clock ran, the state loops on that,
        or the walk to the end state brings the TAP back all the same. */
    method DoRunTest(run: TapState, clocks: nat, end: Option<TapState>) returns (ok: bool, ghost sent: seq<Segment>)
      modifies this`current, cable
      ensures Sends(old(cable.log), cable.log, old(current), sent, current) && ScansIn(sent) == []
      ensures forall i :: 0 <= i < |sent| && sent[i].Wait? ==> sent[i] == Wait(run, clocks)
      ensures ok ==> current == WaitEnd(run, end) && |sent| == 3 && sent[1] == Wait(run, clocks)
      ensures ok && old(Tracks()) ==> (Tracks() <==> clocks == 0 || LoopsOnZero(run) || Rejoins(run, current))
      ensures !ok && old(Tracks()) && (clocks == 0 || LoopsOnZero(run)) ==> Tracks()
      ensures var n := WaitCalls(old(current), run, clocks, WaitEnd(run, end));
              (ok <==> AllAnswer(old(cable.script), n)) && (ok ==> cable.script == Rest(old(cable.script), n))
    {
      hide Shortest, Walk, LeadsTo, Tms, LoopsOnZero, Rejoins, Clocks, Zeros, Sends, ScansIn, AllAnswer, Rest;
      var clock := if clocks > 0 then 1 else 0;
      AnswersAdd(cable.script, Steps(current, run), clock);
      AnswersAdd(cable.script, Steps(current, run) + clock, Steps(run, WaitEnd(run, end)));
      NothingSent(cable.log, current);
      sent := [];
      ghost var begin, from := cable.log, current;
      ghost var lead, tail;
      ok, lead := MoveTo(run);
      if !ok { return; }
      ghost var walk, wait := Move(from, run, lead), Wait(run, clocks);
      SendsMore(begin, begin, from, [], walk);
      assert [] + [walk] == [walk];
      sent := [walk];
      ghost var middle := cable.log;
      OneCall(cable.script);
      if clocks > 0 {
        ok := cable.RunClock(clocks);
        if !ok { return; }
      } else {
        NoWait(cable.log);
      }
      SendsMore(begin, middle, from, sent, wait);
      assert [walk] + [wait] == [walk, wait];
      sent := [walk, wait];
      ghost var waited := cable.log;
      RunsOn(middle, run, clocks);
      ok, tail := MoveTo(WaitEnd(run, end));
      if ok {
        ghost var on := Move(run, current, tail);
        SendsMore(begin, waited, from, sent, on);
        assert [walk, wait] + [on] == [walk, wait, on];
        sent := [walk, wait, on];
        WaitEnds(middle, run, clocks, current, tail);
      } else {
        NothingSent(waited, run);
      }
    }

    /** Walk through the named states, one after another; an unknown name stops there. */
    method DoState(states: seq<Option<TapState>>) returns (ok: bool, ghost sent: seq<Segment>)
      modifies this`current, cable
      ensures old(Tracks()) ==> Tracks()
      ensures Sends(old(cable.log), cable.log, old(current), sent, current) && ScansIn(sent) == [] && NoWaits(sent)
      ensures |sent| <= |states| && forall i :: 0 <= i < |sent| ==> sent[i].Move? && states[i] == Some(sent[i].to)
      ensures ok <==> states != [] && |sent| == |states|
      ensures ok <==> states != [] && AllKnown(states) && AllAnswer(old(cable.script), WalkCalls(old(current), states))
      ensures ok ==> cable.script == Rest(old(cable.script), WalkCalls(old(current), states)) && current == WalkEnd(old(current), states)
    {
      hide Shortest, LeadsTo, Sends, ScansIn, AllAnswer, Rest, WalkCalls, WalkEnd;
      NothingSent(cable.log, current);
      sent := [];
      if states == [] { return false, sent; }
      ghost var script, began := cable.script, current;
      OneCall(script);
      NoWalk(began);
      for index := 0 to |states|
        invariant AllAnswer(script, WalkCalls(began, states[..index])) && cable.script == Rest(script, WalkCalls(began, states[..index]))
        invariant current == WalkEnd(began, states[..index])
        invariant old(Tracks()) ==> Tracks()
        invariant Sends(old(cable.log), cable.log, old(current), sent, current) && ScansIn(sent) == []
        invariant |sent| == index && forall i :: 0 <= i < index ==> sent[i].Move? && states[i] == Some(sent[i].to)
      {
        if states[index] == None { return false, sent; }
        ghost var log, from := cable.log, current;
        ghost var lead;
        OneWalkMore(script, began, states, index);
        ok, lead := MoveTo(states[index].value);
        if !ok {
          NothingSent(log, from);
          return;
        }
        SendsMore(old(cable.log), log, old(current), sent, Move(from, current, lead));
        sent := sent + [Move(from, current, lead)];
      }
      assert states[..|states|] == states;
      ok := true;
    }

    method DoEndState(instruction: bool, state: TapState) returns (ok: bool)
      requires Valid()
      modifies this`endDr, this`endIr
      ensures Valid() && (ok <==> IsStableState(state))
      ensures EndFor(instruction, endDr, endIr) == if ok then state else EndFor(instruction, old(endDr), old(endIr))
      ensures EndFor(!instruction, endDr, endIr) == EndFor(!instruction, old(endDr), old(endIr))
    {
      ok := IsStableState(state);
      if ok {
        if instruction { endIr := state; } else { endDr := state; }
      }
    }

    method Execute(statement: Statement) returns (ok: bool, ghost sent: seq<Segment>)
      requires Valid() && mismatch == None
      modifies this, cable
      ensures Valid() && deviceAttached == old(deviceAttached)
      ensures ok <==> Acceptable(old(View()), statement) && AllAnswer(old(cable.script), Calls(old(View()), statement)) && mismatch == None
      ensures ok ==> View() == Done(old(View()), statement) && cable.script == Rest(old(cable.script), Calls(old(View()), statement))
      ensures mismatch != None ==> deviceAttached && statement.Scan? && statement.fields.tdo.Some?
      ensures Sends(old(cable.log), cable.log, old(current), sent, current)
      ensures ok ==> Asked(statement, ScansIn(sent))
      ensures WaitsOf(statement, sent)
      ensures ok && old(Tracks()) ==> (Tracks() <==> Followed(statement))
      ensures old(Tracks()) && Steady(statement) ==> Tracks()
    {
      hide LeadsTo, Sticks, Wanted, NoMismatch, FirstMismatch, Sends, ScansIn, Rejoins, LoopsOnZero, Unpacked, AllAnswer, Rest, AnswerTo,
           CanBeRead, ScanCalls, WaitCalls, WalkCalls, WalkEnd, AllKnown;
      NothingSent(cable.log, current);
      OneCall(cable.script);
      sent := [];
      ghost var a, b;
      match statement
      case Scan(instruction, count, fields) => ok, a, b, sent := DoScan(instruction, count, fields);
      case RunTest(run, clocks, end) => ok, sent := DoRunTest(run, clocks, end);
      case ChangeState(states) => ok, sent := DoState(states);
      case EndState(instruction, state) => ok := DoEndState(instruction, state);
      case NothingToSend => ok := true;
      case Refused => ok := false;
    }

    /** Test-Logic-Reset, reached the way any state reaches it. */
    method ResetTap() returns (ok: bool)
      requires cable.log == []
      modifies this`current, cable
      ensures if ok then Tracks() && current == Reset && |cable.log| == 5 else cable.log == []
      ensures ok == Answers(old(cable.script)) && cable.script == Later(old(cable.script))
    {
      hide LeadsTo;
      var ones := [true, true, true, true, true];
      var tms := Pack(ones);
      var tdi := ZeroBytes(BytesForBits(5));
      var tdo;
      ok, tdo := cable.Shift(tms, tdi, 5);
      if !ok { return; }
      FiveLead(Unpacked(tdi, 5));
      assert [] + Clocks(ones, Unpacked(tdi, 5)) == Clocks(ones, Unpacked(tdi, 5));
      current := Reset;
    }

    /** Play a file from whatever state the TAP was left in: five clocks with TMS
        high, then statement after statement.  What was sent is proper segments linked
        end to end, with exactly the file's scans among them, in order; and wherever
        the run ends, the player knows where the TAP is. */
    method Play(statements: seq<Statement>) returns (ok: bool, ghost sent: seq<Segment>)
      requires Valid() && mismatch == None && cable.log == []
      modifies this, cable
      ensures Valid()
      ensures cable.log != [] ==> |cable.log| >= 5 && Sends(cable.log[..5], cable.log, Reset, sent, current)
      ensures cable.log != [] ==> LeadsTo(cable.log[..5], Reset)
      ensures ok ==> cable.log != [] && AllAsked(statements, ScansIn(sent))
      // A file is accepted exactly when the cable answers the reset and every call of
      // its statements, each of these can be carried out, and no answer differs; and
      // where nothing is compared, none does.
      ensures ok <==>
                && AllAnswer(old(cable.script), 1 + AllCalls(old(View()).(current := Reset), statements))
                && AllAcceptable(old(View()).(current := Reset), statements) && mismatch == None
      ensures mismatch != None ==> deviceAttached && exists i :: 0 <= i < |statements| && Compares(statements[i])
      ensures cable.log != [] && (forall i :: 0 <= i < |statements| ==> Steady(statements[i])) ==>
                Tracks() && AllSteady(sent)
      ensures ok && (forall i :: 0 <= i < |statements| ==> Followed(statements[i])) ==> Tracks()
    {
      hide LeadsTo, Followed, Steady, AllSteady, Sends, ScansIn, Asked, AllAsked, WaitsOf, LoopsOnZero, Answers, Later, AllAnswer, Rest,
           Acceptable, Calls, Done, AllDone, AllCalls, AllAcceptable;
      sent := [];
      ghost var script, k := cable.script, View().(current := Reset);
      OneCall(script);
      FewerAnswer(script, 1, 1 + AllCalls(k, statements));
      NothingAsked(k, statements);
      ok := ResetTap();
      if !ok { return; }
      ghost var begin := cable.log;
      NothingSent(begin, Reset);
      NoneAsked();
      NoneSteady();
      ghost var played := statements[..0];
      for i := 0 to |statements|
        invariant Valid() && mismatch == None && played == statements[..i] && deviceAttached == old(deviceAttached)
        invariant View() == AllDone(k, played) && AllAcceptable(k, played)
        invariant AllAnswer(script, 1 + AllCalls(k, played)) && cable.script == Rest(script, 1 + AllCalls(k, played))
        invariant Sends(begin, cable.log, Reset, sent, current) && AllAsked(played, ScansIn(sent))
        invariant (forall j :: 0 <= j < i ==> Steady(statements[j])) ==> AllSteady(sent)
        invariant (forall j :: 0 <= j < i ==> Steady(statements[j])) ==> Tracks()
        invariant (forall j :: 0 <= j < i ==> Followed(statements[j])) ==> Tracks()
      {
        ghost var log, at, more := cable.log, current, [];
        OneStatementMore(script, k, statements, i);
        AnswersAdd(script, 1 + AllCalls(k, played), Calls(View(), statements[i]));
        ok, more := Execute(statements[i]);
        SendsBoth(begin, log, cable.log, Reset, sent, at, more, current);
        StaysSteady(statements[i], sent, more);
        ghost var scans := ScansIn(sent);
        sent := sent + more;
        if !ok {
          OnlyAfter(begin, cable.log, Reset, sent, current);
          return;
        }
        MoreAsked(played, scans, statements[i], ScansIn(more));
        played := played + [statements[i]];
      }
      OnlyAfter(begin, cable.log, Reset, sent, current);
      assert statements[..|statements|] == statements;
      ok := true;
    }

  }

  function WaitEnd(run: TapState, end: Option<TapState>): TapState
  {
    if end.Some? then end.value else run
  }

  predicate Compares(statement: Statement) { statement.Scan? && statement.fields.tdo.Some? }

  /** Statements after which the belief is right if it was before. */
  predicate Followed(statement: Statement)
  {
    statement.RunTest? ==>
      statement.clocks == 0 || LoopsOnZero(statement.run) || Rejoins(statement.run, WaitEnd(statement.run, statement.end))
  }

  /** Statements during which it is right all along. */
  predicate Steady(statement: Statement)
  {
    statement.RunTest? ==> statement.clocks == 0 || LoopsOnZero(statement.run)
  }

  predicate NoWaits(sent: seq<Segment>)
  {
    forall i :: 0 <= i < |sent| ==> !sent[i].Wait?
  }

  predicate AllSteady(sent: seq<Segment>)
  {
    forall i :: 0 <= i < |sent| && sent[i].Wait? ==> sent[i].count == 0 || LoopsOnZero(sent[i].run)
  }

  /** The waits sent are the statement's. */
  predicate WaitsOf(statement: Statement, sent: seq<Segment>)
  {
    if statement.RunTest? then forall i :: 0 <= i < |sent| && sent[i].Wait? ==> sent[i] == Wait(statement.run, statement.clocks)
    else NoWaits(sent)
  }

  lemma StaysSteady(statement: Statement, sent: seq<Segment>, more: seq<Segment>)
    requires WaitsOf(statement, more)
    ensures AllSteady(sent) && Steady(statement) ==> AllSteady(sent + more)
  {
  }

  /** A statement's scans: one of its width in its register, or none for any other
      statement and for a scan of no bits. */
  predicate Asked(statement: Statement, scans: seq<Segment>)
  {
    if statement.Scan? && statement.count > 0 then
      && |scans| == 1 && scans[0].Bits? && scans[0].instruction == statement.instruction
      && |scans[0].tdi| == statement.count && GivenBits(statement.fields.tdi, scans[0].tdi)
    else scans == []
  }

  /** When the statement says what to shift, that is what is shifted. */
  predicate GivenBits(hex: Option<string>, tdi: seq<bool>)
  {
    hex.Some? ==> forall i :: 0 <= i < |tdi| ==> tdi[i] == NumberBit(hex.value, i)
  }

  lemma BitsGiven(was: Sticky, now: Sticky, count: nat, f: Fields)
    requires Packed(now) && now.count == count
    ensures Sticks(was, now, count, f) ==> GivenBits(f.tdi, Unpacked(now.tdi, count))
  {
    if Sticks(was, now, count, f) && f.tdi.Some? {
      forall i | 0 <= i < count ensures Unpacked(now.tdi, count)[i] == NumberBit(f.tdi.value, i) { InBytes(i, count); }
    }
  }

  /** The scans of a file, statement by statement. */
  ghost predicate AllAsked(statements: seq<Statement>, scans: seq<Segment>)
  {
    if statements == [] then scans == []
    else exists k :: 0 <= k <= |scans| && AllAsked(statements[..|statements| - 1], scans[..k])
                     && Asked(statements[|statements| - 1], scans[k..])
  }

  lemma NoneSteady()
    ensures AllSteady([])
  {
  }

  lemma NoneAsked()
    ensures AllAsked([], ScansIn([]))
  {
  }

  lemma MoreAsked(statements: seq<Statement>, scans: seq<Segment>, statement: Statement, more: seq<Segment>)
    requires AllAsked(statements, scans) && Asked(statement, more)
    ensures AllAsked(statements + [statement], scans + more)
  {
    var all := statements + [statement];
    assert all[..|all| - 1] == statements;
    assert (scans + more)[..|scans|] == scans && (scans + more)[|scans|..] == more;
  }

  /** The log still begins with what it began with. */
  lemma OnlyAfter(begin: seq<Clock>, log: seq<Clock>, from: TapState, sent: seq<Segment>, to: TapState)
    requires Sends(begin, log, from, sent, to)
    ensures |log| >= |begin| && log[..|begin|] == begin
  {
  }

  lemma NoWait(log: seq<Clock>)
    ensures log + Clocks(Zeros(0), Zeros(0)) == log
  {
  }

  /** Where the walk after a wait brings the TAP. */
  lemma WaitEnds(log: seq<Clock>, run: TapState, clocks: nat, end: TapState, tail: seq<Clock>)
    requires Shortest(run, end, Tms(tail))
    ensures LeadsTo(log, run) ==>
              (LeadsTo(log + Clocks(Zeros(clocks), Zeros(clocks)) + tail, end) <==>
                 clocks == 0 || LoopsOnZero(run) || Rejoins(run, end))
  {
    hide Shortest, Walk, LeadsTo, LoopsOnZero, Rejoins;
    if LeadsTo(log, run) {
      var wait := Clocks(Zeros(clocks), Zeros(clocks));
      var drifted := Walk(run, Zeros(clocks));
      TmsOfClocks(Zeros(clocks), Zeros(clocks));
      LeadsOn(log, run, wait);
      LeadsOn(log + wait, drifted, tail);
      LeadsToOne(log + wait + tail, Walk(drifted, Tms(tail)), end);
      ShortestArrives(run, end, Tms(tail));
      if clocks == 0 { WalkNone(run); }
      else if LoopsOnZero(run) { IdleClocks(run, clocks); }
      else { RejoinsExactly(run, end, Tms(tail), clocks); }
    }
  }

  lemma RunsOn(log: seq<Clock>, run: TapState, clocks: nat)
    requires clocks == 0 ==> log + Clocks(Zeros(0), Zeros(0)) == log
    ensures var after := log + Clocks(Zeros(clocks), Zeros(clocks));
            LeadsTo(log, run) ==> (LeadsTo(after, run) <==> clocks == 0 || LoopsOnZero(run))
  {
    if LeadsTo(log, run) && clocks > 0 {
      TmsOfClocks(Zeros(clocks), Zeros(clocks));
      LeadsOn(log, run, Clocks(Zeros(clocks), Zeros(clocks)));
      LeadsToOne(log + Clocks(Zeros(clocks), Zeros(clocks)), Walk(run, Zeros(clocks)), run);
      IdleClocks(run, clocks);
    }
  }

  /** The calls a walk takes on the cable. */
  function Steps(a: TapState, b: TapState): nat { if a == b then 0 else 1 }

  lemma StaysPut(a: TapState, b: TapState, path: seq<bool>)
    requires Shortest(a, b, path)
    ensures path == [] <==> a == b
  {
    assert Walk(a, []) == a && Avoids(a, [], a == Reset);
  }

  lemma FiveLead(tdi: seq<bool>)
    requires |tdi| == 5
    ensures LeadsTo(Clocks([true, true, true, true, true], tdi), Reset)
  {
    TmsOfClocks([true, true, true, true, true], tdi);
    forall start: TapState ensures Walk(start, [true, true, true, true, true]) == Reset { FiveOnes(start); }
  }

  /** RUNTEST RESET 1 TCK, played first, by any player with any cable that answers
      twice: the player believes in Test-Logic-Reset and the TAP is not there. */
  method LosesTrack(player: Player)
    requires player.cable.log == []
    requires var script := player.cable.script; Answers(script) && Answers(Later(script))
    modifies player`current, player.cable
    ensures player.current == Reset && !player.Tracks()
  {
    hide LeadsTo, AllAnswer, Rest, Sends, ScansIn, Answers, Later;
    var ok := player.ResetTap();
    OneCall(player.cable.script);
    ghost var sent;
    ok, sent := player.DoRunTest(Reset, 1, None);
  }

  /** The states a wait may name without any loss of track: five of the sixteen. */
  lemma LoopingStates(s: TapState)
    ensures LoopsOnZero(s) <==> s in {Idle, DrShift, DrPause, IrShift, IrPause}
  {
  }

  /** A readable scan, and what is remembered of it. */
  predicate Sticks(was: Sticky, now: Sticky, count: nat, f: Fields)
    requires Packed(now)
  {
    now.count == count && CanBeRead(was.count, count, f) && Remembers(was, now, f)
  }

  predicate Wanted(tdo: Option<string>, expected: seq<bv8>, count: nat)
    requires |expected| == BytesForBits(count)
  {
    tdo.Some? ==> forall i :: 0 <= i < count ==> (InBytes(i, count); BitAt(expected, i) == NumberBit(tdo.value, i))
  }

  function EndFor(instruction: bool, endDr: TapState, endIr: TapState): TapState
  {
    if instruction then endIr else endDr
  }

  predicate NoMismatch(upTo: nat, count: nat, mask: seq<bv8>, received: seq<bv8>, expected: seq<bv8>)
    requires upTo <= count && |mask| == |received| == |expected| == BytesForBits(count)
  {
    forall i :: 0 <= i < upTo ==> (InBytes(i, count); BitAt(mask, i) ==> BitAt(received, i) == BitAt(expected, i))
  }

  predicate FirstMismatch(count: nat, mask: seq<bv8>, received: seq<bv8>, expected: seq<bv8>, found: Option<nat>)
    requires |mask| == |received| == |expected| == BytesForBits(count)
  {
    match found
    case None => NoMismatch(count, count, mask, received, expected)
    case Some(i) =>
      && i < count && NoMismatch(i, count, mask, received, expected)
      && (InBytes(i, count); BitAt(mask, i) && BitAt(received, i) != BitAt(expected, i))
  }

  /** A scan changes the length its own register remembers. */
  predicate EndCounts(instruction: bool, count: nat, ok: bool, dr: Sticky, ir: Sticky, dr': Sticky, ir': Sticky)
  {
    if instruction then dr' == dr && (ok ==> ir'.count == count) else ir' == ir && (ok ==> dr'.count == count)
  }

  /** The calls a wait takes: to the run state, the clocks if any, and on. */
  function WaitCalls(current: TapState, run: TapState, clocks: nat, end: TapState): nat
  {
    Steps(current, run) + (if clocks > 0 then 1 else 0) + Steps(run, end)
  }

  /** The calls a walk through states takes, and where it ends. */
  function WalkCalls(current: TapState, states: seq<Option<TapState>>): nat
  {
    if states == [] then 0
    else
      var last := |states| - 1;
      WalkCalls(current, states[..last]) + (if states[last].Some? then Steps(WalkEnd(current, states[..last]), states[last].value) else 0)
  }

  function WalkEnd(current: TapState, states: seq<Option<TapState>>): TapState
  {
    if states != [] && states[|states| - 1].Some? then states[|states| - 1].value else current
  }

  predicate AllKnown(states: seq<Option<TapState>>) { forall i :: 0 <= i < |states| ==> states[i].Some? }

  lemma NoWalk(current: TapState)
    ensures WalkCalls(current, []) == 0 && WalkEnd(current, []) == current
  {
  }

  /** One state more, and what that asks of the cable. */
  lemma OneWalkMore(script: seq<Reply>, current: TapState, states: seq<Option<TapState>>, i: nat)
    requires i < |states| && states[i].Some? && AllAnswer(script, WalkCalls(current, states[..i]))
    ensures var before, step := WalkCalls(current, states[..i]), Steps(WalkEnd(current, states[..i]), states[i].value);
            && WalkCalls(current, states[..i + 1]) == before + step && WalkEnd(current, states[..i + 1]) == states[i].value
            && (AllAnswer(script, before + step) <==> AllAnswer(Rest(script, before), step))
            && Rest(Rest(script, before), step) == Rest(script, before + step)
            && (!AllAnswer(script, before + step) ==> !AllAnswer(script, WalkCalls(current, states)))
  {
    hide AllAnswer, Rest;
    assert states[..i + 1][..i] == states[..i];
    AnswersAdd(script, WalkCalls(current, states[..i]), Steps(WalkEnd(current, states[..i]), states[i].value));
    WalkCallsGrow(current, states, i + 1, |states|);
    assert states[..|states|] == states;
    FewerAnswer(script, WalkCalls(current, states[..i + 1]), WalkCalls(current, states));
  }

  lemma {:induction false} WalkCallsGrow(current: TapState, states: seq<Option<TapState>>, i: nat, j: nat)
    requires i <= j <= |states|
    ensures WalkCalls(current, states[..i]) <= WalkCalls(current, states[..j])
    decreases j
  {
    if i < j {
      WalkCallsGrow(current, states, i, j - 1);
      assert states[..j][..j - 1] == states[..j - 1];
    }
  }

  lemma FewerAnswer(script: seq<Reply>, m: nat, n: nat)
    requires m <= n
    ensures AllAnswer(script, n) ==> AllAnswer(script, m)
  {
  }

  lemma FoundOrNot(count: nat, mask: seq<bv8>, received: seq<bv8>, expected: seq<bv8>, found: Option<nat>)
    requires |mask| == |received| == |expected| == BytesForBits(count) && FirstMismatch(count, mask, received, expected, found)
    ensures found == None <==> NoMismatch(count, count, mask, received, expected)
  {
  }

  /** The calls a scan takes: to SHIFT, the bits, and on from EXIT1. */
  function ScanCalls(current: TapState, instruction: bool, end: TapState): nat
  {
    Steps(current, ShiftState(instruction)) + 1 + Steps(Exit1State(instruction), end)
  }

  lemma ScanLeads(log: seq<Clock>, instruction: bool, count: nat, tdi: seq<bool>)
    requires count == |tdi| > 0
    ensures LeadsTo(log, ShiftState(instruction)) ==>
              LeadsTo(log + Clocks(ScanTms(count), tdi), Exit1State(instruction))
  {
    ScanStaysInShift(instruction, count);
    TmsOfClocks(ScanTms(count), tdi);
    LeadsOn(log, ShiftState(instruction), Clocks(ScanTms(count), tdi));
  }

  lemma PackedScanTms(tms: seq<bv8>, count: nat)
    requires count > 0 && (count - 1) / 8 < BytesForBits(count)
    requires tms == SetBitAt(ZeroBytes(BytesForBits(count)), count - 1, true)
    ensures Unpacked(tms, count) == ScanTms(count)
  {
    hide BitAt, SetBitAt;
    forall i | 0 <= i < count ensures i / 8 < |tms| && BitAt(tms, i) == ScanTms(count)[i] {
      InBytes(i, count);
      SetThenGet(ZeroBytes(BytesForBits(count)), count - 1, true, i);
      ZeroBits(BytesForBits(count), i);
    }
    UnpackedIs(tms, ScanTms(count));
  }

  predicate Usable(hex: Option<string>, count: nat)
  {
    hex.Some? ==> AllHex(hex.value) && Fits(hex.value, count)
  }

  /** A scan is refused when its length changes without a TDI, or a value is not
      hexadecimal or does not fit. */
  predicate CanBeRead(was: nat, count: nat, f: Fields)
  {
    && (count != was && count > 0 ==> f.tdi.Some?)
    && Usable(f.tdi, count) && Usable(f.mask, count) && Usable(f.smask, count) && Usable(f.tdo, count)
  }

  /** Bit by bit, a value is the one given or else the fallback. */
  predicate Given(bits: seq<bv8>, count: nat, hex: Option<string>, kept: bool, remembered: seq<bv8>, filler: bool)
    requires |bits| == BytesForBits(count)
  {
    if hex.Some? then forall i :: 0 <= i < count ==> (InBytes(i, count); BitAt(bits, i) == NumberBit(hex.value, i))
    else if kept then bits == remembered
    else forall i :: 0 <= i < count ==> (InBytes(i, count); BitAt(bits, i) == filler)
  }

  /** What the player remembers after a scan: what was given, else what it
      remembered, else (the length having changed) no bits of TDI and all of the masks. */
  predicate Remembers(was: Sticky, now: Sticky, f: Fields)
    requires Packed(now)
  {
    var kept := was.count == now.count;
    && Given(now.tdi, now.count, f.tdi, kept, was.tdi, false)
    && Given(now.mask, now.count, f.mask, kept, was.mask, true)
    && Given(now.smask, now.count, f.smask, kept, was.smask, true)
  }

  /** Wherever the TAP began, these clocks bring it to s. */
  ghost predicate LeadsTo(log: seq<Clock>, s: TapState)
  {
    forall start: TapState :: Walk(start, Tms(log)) == s
  }

  lemma LeadsOn(log: seq<Clock>, s: TapState, more: seq<Clock>)
    ensures LeadsTo(log, s) ==> LeadsTo(log + more, Walk(s, Tms(more)))
  {
    if LeadsTo(log, s) {
      forall start: TapState ensures Walk(start, Tms(log + more)) == Walk(s, Tms(more)) {
        TmsConcat(log, more);
        WalkConcat(start, Tms(log), Tms(more));
      }
    }
  }

  /** There is only one state a log can lead to. */
  lemma LeadsToOne(log: seq<Clock>, s: TapState, t: TapState)
    requires LeadsTo(log, s)
    ensures LeadsTo(log, t) <==> s == t
  {
    if LeadsTo(log, t) { assert Walk(Idle, Tms(log)) == s; }
  }

  lemma NoClocks()
    ensures Tms([]) == [] && forall s :: Walk(s, []) == s
  {
  }

  lemma ShortestArrives(from: TapState, to: TapState, path: seq<bool>)
    requires Shortest(from, to, path)
    ensures Walk(from, path) == to
  {
  }
}
