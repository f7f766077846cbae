/**
  Changing the sink in the middle of a run: AttachSink and DetachSink on the
  caller's side, PerformPendingSinkChange and the loop around it on the processing
  thread's.

  One move is one atomic operation, or the work of one thread between two.  There
  is one caller at a time.  Everything in `Past`, and the number on a request, is
  history: no step depends on it.
 */
module SinkSwap {
  import opened SampleFormat
  import opened Metrics

  /** No sink at all, the one that discards, or one the caller gave. */
  datatype Sink = Absent | Null | Given(id: nat, stores: bool)

  /** What the caller is in the middle of. */
  datatype CallerPc = Idle | Exchanged(detaching: bool) | Stored

  datatype ConsumerPc =
    | Top | LoadRequests | TakeSink(seen: nat) | TakeDetach(seen: nat, incoming: Pending)
    | FinishOld(seen: nat, next: Sink, number: nat) | Install(seen: nat, next: Sink, number: nat) | StoreCount(seen: nat)
    | WaitBuffer | Processing(values: seq<nat>) | Left | Done

  /** pending_sink_, and the number of the request that put it there. */
  datatype Pending = Nothing | Waiting(sink: Sink, number: nat)

  datatype State = State(
    caller: CallerPc, pending: Pending, detach: bool, requests: nat, count: nat,
    cons: ConsumerPc, current: Sink, metrics: Measured, failed: bool,
    past: Past)

  /** One buffer written, and to which sink. */
  datatype Write = Write(sink: Sink, values: seq<nat>)

  /** became: the sinks in use, in order, beginning with what the run was started
      with. starts[i]: how many buffers had been written when the i-th became so.
      span: which of them the capture figures are about. stream: the buffers the
      thread has got through. asked: the sinks of the requests, Null for a detach.
      owing[i]: the number of the request that the i-th sink in use is owed to. */
  datatype Past = Past(became: seq<Sink>, starts: seq<nat>, written: seq<Write>, finished: seq<Sink>, span: nat,
                       stream: seq<seq<nat>>, issued: nat, detachBy: nat, served: nat, asked: seq<Sink>, owing: seq<nat>)

  datatype Move =
    // A request as one step, or its three operations.
    | Request(sink: Sink) | Exchange(sink: Sink) | StoreDetach | AddRequest
    | Consume(abort: bool, buffer: seq<nat>, fault: bool)

  /** AttachSink of a sink; DetachSink is the request for Null. To attach no sink at
      all leaves nothing behind. */
  function Exchanging(s: State, sink: Sink): State
  {
    s.(pending := if sink.Given? then Waiting(sink, s.past.issued + 1) else Nothing,
       past := s.past.(issued := s.past.issued + 1, asked := s.past.asked + [sink]))
  }

  function DetachStored(s: State, detaching: bool): State
  {
    s.(detach := detaching, past := if detaching then s.past.(detachBy := s.past.issued) else s.past)
  }

  function Counted(s: State): State { s.(requests := s.requests + 1) }

  predicate Enabled(s: State, m: Move)
  {
    match m
    case Request(_) => s.caller == Idle
    case Exchange(_) => s.caller == Idle
    case StoreDetach => s.caller.Exchanged?
    case AddRequest => s.caller.Stored?
    case Consume(_, _, _) => !s.cons.Done?
  }

  function Next(s: State, m: Move): State
    requires Enabled(s, m)
  {
    match m
    case Request(sink) => Counted(DetachStored(Exchanging(s, sink), sink == Null))
    case Exchange(sink) => Exchanging(s, sink).(caller := Exchanged(sink == Null))
    case StoreDetach => DetachStored(s, s.caller.detaching).(caller := Stored)
    case AddRequest => Counted(s).(caller := Idle)
    case Consume(abort, buffer, fault) => if Swapping(s.cons) then Swaps(s, fault) else Loops(s, abort, buffer, fault)
  }

  predicate Swapping(pc: ConsumerPc)
  {
    pc.LoadRequests? || pc.TakeSink? || pc.TakeDetach? || pc.FinishOld? || pc.Install? || pc.StoreCount?
  }

  /** PerformPendingSinkChange. */
  function Swaps(s: State, fault: bool): State
    requires Swapping(s.cons)
  {
    match s.cons
    case LoadRequests => s.(cons := TakeSink(s.requests))
    case TakeSink(seen) => s.(pending := Nothing, cons := TakeDetach(seen, s.pending))
    case TakeDetach(seen, incoming) =>
      s.(detach := false,
         cons := if incoming == Nothing && !s.detach then WaitBuffer
                 else if incoming == Nothing then FinishOld(seen, Null, s.past.detachBy)
                 else FinishOld(seen, incoming.sink, incoming.number))
    case FinishOld(seen, next, number) =>
      // A sink that cannot finish latches the failure; the swap goes on.
      s.(past := Finishing(s.past, s.current), failed := s.failed || fault, current := Absent, cons := Install(seen, next, number))
    case Install(seen, next, number) =>
      s.(current := next, past := Installing(s.past, next, number),
         metrics := if Stores(next) then SpanBegun(s.metrics) else SpanEnded(s.metrics),
         cons := StoreCount(seen))
    case StoreCount(seen) => s.(count := seen, cons := WaitBuffer)
  }

  predicate Stores(sink: Sink) { sink.Given? && sink.stores }

  function Finishing(p: Past, current: Sink): Past
  {
    if current != Absent then p.(finished := p.finished + [current]) else p
  }

  function Installing(p: Past, next: Sink, number: nat): Past
  {
    p.(became := p.became + [next], starts := p.starts + [|p.written|], span := if Stores(next) then |p.became| else p.span,
       served := if number > p.served then number else p.served, owing := p.owing + [number])
  }

  /** The rest of the loop, and the control thread's finishing of the last sink. */
  function Loops(s: State, abort: bool, buffer: seq<nat>, fault: bool): State
    requires !Swapping(s.cons) && !s.cons.Done?
  {
    match s.cons
    case Top => s.(cons := if abort then Left else LoadRequests)
    case WaitBuffer => s.(cons := if abort then Left else Processing(buffer))
    case Processing(values) =>
      // Measured first; then validation, the test ramp or the write may fail the run.
      var measured := s.(metrics := Accumulated(s.metrics, TallyOf(values)));
      if fault then measured.(failed := true, cons := Left)
      else measured.(past := Taking(s.past, s.current, values), cons := Top)
    case Left => s.(past := Finishing(s.past, s.current), failed := s.failed || fault, cons := Done)
  }

  /** The buffer goes to the sink in use. */
  function Taking(p: Past, current: Sink, values: seq<nat>): Past
  {
    p.(written := p.written + [Write(current, values)], stream := p.stream + [values])
  }

  function Initial(sink: Sink): State
  {
    State(Idle, Nothing, false, 0, 0, Top, sink, NOTHING, false, Past([sink], [0], [], [], 0, [], 0, 0, 0, [], [0]))
  }

  // ----- What every interleaving keeps -----

  /** The buffers of some writes. */
  function Buffers(writes: seq<Write>): (r: seq<seq<nat>>)
    ensures |r| == |writes| && forall i :: 0 <= i < |r| ==> r[i] == writes[i].values
  {
    if writes == [] then [] else Buffers(writes[..|writes| - 1]) + [writes[|writes| - 1].values]
  }

  /** Where the i-th stretch of the writes ends. */
  function End(starts: seq<nat>, written: seq<Write>, i: nat): nat
    requires i < |starts|
  {
    if i + 1 < |starts| then starts[i + 1] else |written|
  }

  predicate Rising(starts: seq<nat>, written: seq<Write>)
  {
    && |starts| > 0 && starts[0] == 0
    && forall i :: 0 <= i < |starts| ==> starts[i] <= End(starts, written, i) <= |written|
  }

  /** What was written while the i-th sink was in use. */
  function Share(starts: seq<nat>, written: seq<Write>, i: nat): seq<Write>
    requires i < |starts| && Rising(starts, written)
  {
    written[starts[i]..End(starts, written, i)]
  }

  predicate AllTo(writes: seq<Write>, sink: Sink)
  {
    forall k :: 0 <= k < |writes| ==> writes[k].sink == sink
  }

  /** The values of a run of buffers, end to end. */
  function Values(buffers: seq<seq<nat>>): seq<nat>
  {
    if buffers == [] then [] else Values(buffers[..|buffers| - 1]) + buffers[|buffers| - 1]
  }

  /** The sinks there really were. */
  function Real(sinks: seq<Sink>): seq<Sink>
  {
    if sinks == [] then []
    else Real(sinks[..|sinks| - 1]) + (if sinks[|sinks| - 1] == Absent then [] else [sinks[|sinks| - 1]])
  }

  /** The last sink has been finished: between giving it up and taking the next
      one, and when the run is over. */
  predicate LastIsFinished(pc: ConsumerPc) { pc.Install? || pc.Done? }

  predicate Ownership(cons: ConsumerPc, current: Sink, p: Past)
  {
    && |p.became| == |p.starts| > 0 && Rising(p.starts, p.written) && p.stream == Buffers(p.written)
    && (forall i :: 0 <= i < |p.became| ==> AllTo(Share(p.starts, p.written, i), p.became[i]))
    && (if cons.Install? then current == Absent else current == p.became[|p.became| - 1])
    && p.finished == Real(if LastIsFinished(cons) then p.became else p.became[..|p.became| - 1])
  }

  predicate Spans(m: Measured, failed: bool, p: Past)
  {
    && |p.became| == |p.starts| > 0 && Rising(p.starts, p.written) && p.span < |p.became|
    && (m.capturing <==> p.span > 0 && p.span == |p.became| - 1)
    && (p.span > 0 ==> Stores(p.became[p.span]))
    && (m.capturing <==> |p.became| > 1 && Stores(p.became[|p.became| - 1]))
    && (!failed && p.span > 0 ==> m.capture == TallyOf(Values(Buffers(Share(p.starts, p.written, p.span)))))
    && (!failed ==> m.total == TallyOf(Values(p.stream)))
  }

  function Seen(pc: ConsumerPc, count: nat): nat
  {
    match pc
    case TakeSink(seen) => seen
    case TakeDetach(seen, _) => seen
    case FinishOld(seen, _, _) => seen
    case Install(seen, _, _) => seen
    case StoreCount(seen) => seen
    case _ => count
  }

  predicate Counts(s: State)
  {
    && s.count <= Seen(s.cons, s.count) <= s.requests
    && s.requests + (if s.caller == Idle then 0 else 1) == s.past.issued
  }

  predicate Inv(s: State)
  {
    Ownership(s.cons, s.current, s.past) && Spans(s.metrics, s.failed, s.past) && Counts(s)
  }

  lemma InitialInv(sink: Sink)
    ensures Inv(Initial(sink))
  {
    assert [sink][..0] == [];
  }

  lemma CallerKeepsInv(s: State, m: Move)
    requires Inv(s) && Enabled(s, m) && !m.Consume?
    ensures Inv(Next(s, m))
  {
    hide TallyOf, Values, Buffers, Real, Merge;
  }

  /** A new sink begins with nothing, and takes nothing from the others. */
  lemma InstallKeepsShares(starts: seq<nat>, written: seq<Write>)
    requires Rising(starts, written)
    ensures var more := starts + [|written|];
            && Rising(more, written) && Share(more, written, |starts|) == []
            && forall i :: 0 <= i < |starts| ==> Share(more, written, i) == Share(starts, written, i)
  {
    var more := starts + [|written|];
    forall i | 0 <= i < |more| ensures more[i] <= End(more, written, i) <= |written| {
      if i < |starts| { assert more[i] == starts[i] && End(more, written, i) == End(starts, written, i); }
    }
  }

  lemma InstallKeepsOwnership(p: Past, next: Sink, number: nat)
    requires Ownership(Install(0, next, number), Absent, p)
    ensures forall seen :: Ownership(StoreCount(seen), next, Installing(p, next, number))
  {
    hide Share, Rising, Buffers, Real;
    InstallKeepsShares(p.starts, p.written);
    assert (p.became + [next])[..|p.became|] == p.became;
  }

  /** Only the last sink's share grows, by what was written to the sink in use. */
  lemma WriteGrowsLast(starts: seq<nat>, written: seq<Write>, w: Write)
    requires Rising(starts, written)
    ensures var more, last := written + [w], |starts| - 1;
            && Rising(starts, more) && Share(starts, more, last) == Share(starts, written, last) + [w]
            && forall i :: 0 <= i < last ==> Share(starts, more, i) == Share(starts, written, i)
  {
    var more := written + [w];
    forall i | 0 <= i < |starts| ensures starts[i] <= End(starts, more, i) <= |more| {
      assert starts[i] <= End(starts, written, i) <= |written|;
    }
    forall i | 0 <= i < |starts| - 1 ensures Share(starts, more, i) == Share(starts, written, i) {
      assert starts[i] <= End(starts, written, i) <= |written|;
    }
  }

  lemma TakingKeepsOwnership(pc: ConsumerPc, current: Sink, p: Past, values: seq<nat>)
    requires Ownership(pc, current, p) && !LastIsFinished(pc)
    ensures Ownership(Top, current, Taking(p, current, values))
  {
    hide Share, Rising, Buffers, Real;
    var w := Write(current, values);
    WriteGrowsLast(p.starts, p.written, w);
    BuffersGrow(p.written, w);
    forall i | 0 <= i < |p.became| ensures AllTo(Share(p.starts, p.written + [w], i), p.became[i]) {
      assert AllTo(Share(p.starts, p.written, i), p.became[i]);
    }
  }

  lemma BuffersGrow(writes: seq<Write>, w: Write)
    ensures Buffers(writes + [w]) == Buffers(writes) + [w.values] && Buffers([]) == []
  {
  }

  lemma ValuesGrow(buffers: seq<seq<nat>>, values: seq<nat>)
    ensures Values(buffers + [values]) == Values(buffers) + values
  {
    assert (buffers + [values])[..|buffers|] == buffers;
  }

  lemma TakingKeepsSpans(m: Measured, failed: bool, p: Past, current: Sink, values: seq<nat>)
    requires Spans(m, failed, p)
    ensures Spans(Accumulated(m, TallyOf(values)), failed, Taking(p, current, values))
  {
    hide TallyOf, Values, Merge, Share, Rising, Buffers, Accumulated;
    WriteGrowsLast(p.starts, p.written, Write(current, values));
    StillMeasuring(m, values);
    if !failed {
      ValuesGrow(p.stream, values);
      TotalGrows(m, Values(p.stream), values);
      if m.capturing {
        var share := Share(p.starts, p.written, p.span);
        BuffersGrow(share, Write(current, values));
        ValuesGrow(Buffers(share), values);
        SpanGrows(m, Values(Buffers(share)), values);
      }
    }
  }

  lemma SwapKeepsOwnership(s: State, fault: bool)
    requires Ownership(s.cons, s.current, s.past) && Swapping(s.cons)
    ensures var t := Swaps(s, fault); Ownership(t.cons, t.current, t.past)
  {
    hide Buffers, Share, Real, Installing;
    match s.cons
    case FinishOld(seen, next, number) => FinishedNow(s.past);
    case Install(seen, next, number) => InstallKeepsOwnership(s.past, next, number);
    case _ =>
  }

  lemma SwapKeepsSpans(s: State, fault: bool)
    requires Spans(s.metrics, s.failed, s.past) && Swapping(s.cons)
    ensures var t := Swaps(s, fault); Spans(t.metrics, t.failed, t.past)
  {
    hide TallyOf, Values, Buffers, Share, Installing;
    match s.cons
    case Install(seen, next, number) => NowInstalled(s.metrics, s.failed, s.past);
    case _ =>
  }

  lemma SwapKeepsInv(s: State, fault: bool)
    requires Inv(s) && Swapping(s.cons)
    ensures Inv(Swaps(s, fault))
  {
    hide Ownership, Spans;
    SwapKeepsOwnership(s, fault);
    SwapKeepsSpans(s, fault);
  }

  lemma EmptyShare()
    ensures TallyOf(Values(Buffers([]))) == EMPTY_TALLY
  {
  }

  lemma NowInstalled(m: Measured, failed: bool, p: Past)
    requires Spans(m, failed, p)
    ensures forall next, number :: Spans(if Stores(next) then SpanBegun(m) else SpanEnded(m), failed, Installing(p, next, number))
  {
    hide TallyOf, Values, Share, Buffers, Rising;
    EmptyShare();
    InstallKeepsShares(p.starts, p.written);
  }

  lemma TakingShape(m: Measured, p: Past, current: Sink, values: seq<nat>)
    ensures var q := Taking(p, current, values);
            && q.issued == p.issued && q.served == p.served && q.detachBy == p.detachBy
            && q.asked == p.asked && q.owing == p.owing && q.became == p.became
    ensures Accumulated(m, TallyOf(values)).capturing == m.capturing
  {
  }

  lemma StillMeasuring(m: Measured, values: seq<nat>)
    ensures Accumulated(m, TallyOf(values)).capturing == m.capturing
    ensures !m.capturing ==> Accumulated(m, TallyOf(values)).capture == m.capture
  {
  }

  lemma FinishedNow(p: Past)
    requires p.became != []
    ensures Real(p.became) == Real(p.became[..|p.became| - 1])
              + (if p.became[|p.became| - 1] == Absent then [] else [p.became[|p.became| - 1]])
  {
  }

  lemma LoopKeepsInv(s: State, abort: bool, buffer: seq<nat>, fault: bool)
    requires Inv(s) && !Swapping(s.cons) && !s.cons.Done?
    ensures Inv(Loops(s, abort, buffer, fault))
  {
    hide TallyOf, Values, Buffers, Share, Real, Merge, Taking;
    match s.cons
    case Processing(values) =>
      if !fault {
        TakingKeepsOwnership(s.cons, s.current, s.past, values);
        TakingKeepsSpans(s.metrics, s.failed, s.past, s.current, values);
        TakingShape(s.metrics, s.past, s.current, values);
      } else {
        StillMeasuring(s.metrics, values);
      }
    case Left => FinishedNow(s.past);
    case _ =>
  }

  lemma NextKeepsInv(s: State, m: Move)
    requires Inv(s) && Enabled(s, m)
    ensures Inv(Next(s, m))
  {
    match m
    case Consume(abort, buffer, fault) =>
      if Swapping(s.cons) { SwapKeepsInv(s, fault); } else { LoopKeepsInv(s, abort, buffer, fault); }
    case _ => CallerKeepsInv(s, m);
  }

  // ----- Runs -----

  predicate IsRun(states: seq<State>, moves: seq<Move>)
  {
    && |states| == |moves| + 1
    && forall i :: 0 <= i < |moves| ==> Enabled(states[i], moves[i]) && states[i + 1] == Next(states[i], moves[i])
  }

  ghost predicate Starts(s: State) { exists sink :: s == Initial(sink) }

  lemma {:induction false} RunKeepsInv(states: seq<State>, moves: seq<Move>, i: nat)
    requires IsRun(states, moves) && Starts(states[0]) && i < |states|
    ensures Inv(states[i])
  {
    if i == 0 {
      var sink :| states[0] == Initial(sink);
      InitialInv(sink);
    } else {
      RunKeepsInv(states, moves, i - 1);
      NextKeepsInv(states[i - 1], moves[i - 1]);
    }
  }

  /** The writes fall into consecutive stretches, one for each sink that was in use,
      in order; every write of a stretch went to its sink, and the writes are the
      stream the thread got through, whenever the requests came. */
  lemma SharesPartitionTheStream(states: seq<State>, moves: seq<Move>, i: nat)
    requires IsRun(states, moves) && Starts(states[0]) && i < |states|
    ensures var p := states[i].past;
            && |p.became| == |p.starts| > 0 && Rising(p.starts, p.written) && p.stream == Buffers(p.written)
            && End(p.starts, p.written, |p.became| - 1) == |p.written|
            && forall j :: 0 <= j < |p.became| ==> AllTo(Share(p.starts, p.written, j), p.became[j])
  {
    RunKeepsInv(states, moves, i);
  }

  /** When the run is over every sink that was ever in use has been finished, once. */
  lemma FinishedOnce(states: seq<State>, moves: seq<Move>, i: nat)
    requires IsRun(states, moves) && Starts(states[0]) && i < |states| && states[i].cons.Done?
    ensures states[i].past.finished == Real(states[i].past.became)
  {
    RunKeepsInv(states, moves, i);
  }

  /** While nothing has failed, the figures of a recording are those of exactly the
      buffers that went to its sink, during it and after it. */
  lemma RecordingIsMeasured(states: seq<State>, moves: seq<Move>, i: nat)
    requires IsRun(states, moves) && Starts(states[0]) && i < |states| && !states[i].failed
    ensures var m, p := states[i].metrics, states[i].past;
            && |p.became| == |p.starts| > 0 && Rising(p.starts, p.written) && p.span < |p.became|
            && (p.span > 0 ==>
                  var share := Share(p.starts, p.written, p.span);
                  Stores(p.became[p.span]) && AllTo(share, p.became[p.span]) && m.capture == TallyOf(Values(Buffers(share))))
            && m.total == TallyOf(Values(p.stream))
            && (m.capturing <==> |p.became| > 1 && Stores(p.became[|p.became| - 1]))
  {
    RunKeepsInv(states, moves, i);
  }

  // ----- Whose sink is in use -----

  /** A request that has been made, asked for this sink, and is newer than any applied. */
  predicate Owed(p: Past, sink: Sink, number: nat)
  {
    p.owing != [] && p.owing[|p.owing| - 1] < number <= |p.asked| && p.asked[number - 1] == sink
  }

  /** Every sink that came into use is the one its request asked for, each request
      newer than the last. */
  predicate Granted(p: Past)
  {
    && |p.owing| == |p.became| > 0 && p.owing[0] == 0
    && forall j :: 0 < j < |p.owing| ==> p.owing[j - 1] < p.owing[j] <= |p.asked| && p.became[j] == p.asked[p.owing[j] - 1]
  }

  /** What is outstanding, or being applied, is owed; a sink that waits is that of the
      newest request of all. */
  predicate Asking(s: State)
  {
    var p, n := s.past, |s.past.asked|;
    && p.issued == n && Granted(p)
    && (s.pending.Waiting? ==> Owed(p, s.pending.sink, s.pending.number) && s.pending.number == n)
    && (s.detach ==> Owed(p, Null, p.detachBy) && (s.pending.Waiting? ==> p.detachBy < n))
    && (s.caller == Exchanged(true) ==> Owed(p, Null, n) && s.pending == Nothing && (s.detach ==> p.detachBy < n))
    && (s.cons.TakeDetach? && s.cons.incoming.Waiting? ==>
          Owed(p, s.cons.incoming.sink, s.cons.incoming.number) && OlderThanRest(s, s.cons.incoming.number))
    && (s.cons.FinishOld? ==> Owed(p, s.cons.next, s.cons.number) && OlderThanAll(s, s.cons.number))
    && (s.cons.Install? ==> Owed(p, s.cons.next, s.cons.number) && OlderThanAll(s, s.cons.number))
  }

  /** What has been taken is older than a sink that waits, or a detach being made. */
  predicate OlderThanRest(s: State, number: nat)
  {
    s.pending.Waiting? || s.caller == Exchanged(true) ==> number < |s.past.asked|
  }

  predicate OlderThanAll(s: State, number: nat)
  {
    OlderThanRest(s, number) && (s.detach ==> number < s.past.detachBy)
  }

  /** One more request. */
  lemma AskedGrows(p: Past, sink: Sink)
    requires Granted(p) && p.issued == |p.asked|
    ensures var q := p.(issued := p.issued + 1, asked := p.asked + [sink]);
            && Granted(q) && Owed(q, sink, |q.asked|)
            && forall x, number: nat :: Owed(p, x, number) ==> Owed(q, x, number) && number < |q.asked|
  {
  }

  lemma CallerKeepsAsking(s: State, m: Move)
    requires Asking(s) && Enabled(s, m) && !m.Consume?
    ensures Asking(Next(s, m))
  {
    match m
    case Request(sink) =>
      ExchangeKeepsAsking(s, sink);
      StoreKeepsAsking(Exchanging(s, sink).(caller := Exchanged(sink == Null)));
      SameAsking(DetachStored(Exchanging(s, sink), sink == Null).(caller := Stored), Next(s, m));
    case Exchange(sink) => ExchangeKeepsAsking(s, sink);
    case StoreDetach => StoreKeepsAsking(s);
    case AddRequest => SameAsking(s, Next(s, m));
  }

  lemma ExchangeKeepsAsking(s: State, sink: Sink)
    requires Asking(s) && s.caller == Idle
    ensures Asking(Exchanging(s, sink).(caller := Exchanged(sink == Null)))
  {
    hide Owed, Granted;
    AskedGrows(s.past, sink);
    OwedAreOld(s.past);
  }

  lemma OwedAreOld(p: Past)
    ensures forall x, number: nat :: Owed(p, x, number) ==> number <= |p.asked|
  {
  }

  lemma StoreKeepsAsking(s: State)
    requires Asking(s) && s.caller.Exchanged?
    ensures Asking(DetachStored(s, s.caller.detaching).(caller := Stored))
  {
    hide Granted, Owed;
    SameOwed(s.past, s.past.(detachBy := s.past.issued));
  }

  /** The counter and the idle caller do not matter. */
  lemma SameAsking(s: State, t: State)
    requires Asking(s) && s.caller == Stored && t == s.(caller := Idle, requests := t.requests)
    ensures Asking(t)
  {
    hide Owed, Granted;
  }

  lemma SwapKeepsAsking(s: State, fault: bool)
    requires Asking(s) && Swapping(s.cons)
    ensures Asking(Swaps(s, fault))
  {
    hide SpanBegun, SpanEnded, Granted, Owed;
    if s.cons.Install? { NowGranted(s.past, s.cons.next, s.cons.number); }
    SameOwed(s.past, Finishing(s.past, s.current));
  }

  /** A finished sink makes no difference. */
  lemma SameOwed(p: Past, q: Past)
    requires q.asked == p.asked && q.owing == p.owing && q.became == p.became
    ensures Granted(p) ==> Granted(q)
    ensures forall x, number: nat :: Owed(p, x, number) ==> Owed(q, x, number)
  {
  }

  lemma NowGranted(p: Past, next: Sink, number: nat)
    requires Granted(p) && Owed(p, next, number)
    ensures var q := Installing(p, next, number);
            && Granted(q) && q.asked == p.asked && q.issued == p.issued && q.detachBy == p.detachBy
            && forall x, n: nat :: Owed(p, x, n) && number < n ==> Owed(q, x, n)
  {
  }

  lemma LoopKeepsAsking(s: State, abort: bool, buffer: seq<nat>, fault: bool)
    requires Asking(s) && !Swapping(s.cons) && !s.cons.Done?
    ensures Asking(Loops(s, abort, buffer, fault))
  {
    hide Accumulated;
  }

  lemma {:induction false} RunKeepsAsking(states: seq<State>, moves: seq<Move>, i: nat)
    requires IsRun(states, moves) && Starts(states[0]) && i < |states|
    ensures Asking(states[i])
  {
    hide Asking;
    if i == 0 {
      var sink :| states[0] == Initial(sink);
      InitialAsking(sink);
    } else {
      RunKeepsAsking(states, moves, i - 1);
      var s, m := states[i - 1], moves[i - 1];
      if !m.Consume? { CallerKeepsAsking(s, m); }
      else if Swapping(s.cons) { SwapKeepsAsking(s, m.fault); }
      else { LoopKeepsAsking(s, m.abort, m.buffer, m.fault); }
    }
  }

  lemma InitialAsking(sink: Sink)
    ensures Asking(Initial(sink))
  {
  }

  /** The sinks that came into use are the ones asked for, request by request, each
      request newer than the one before: Null where the request was a detach. */
  lemma InUseAsAsked(states: seq<State>, moves: seq<Move>, i: nat)
    requires IsRun(states, moves) && Starts(states[0]) && i < |states|
    ensures Granted(states[i].past) && |states[i].past.asked| == states[i].past.issued
  {
    RunKeepsAsking(states, moves, i);
  }

  /** A sink that a swap takes is that of the newest request there is; and so is a
      detach that it takes, where requests are one step. */
  lemma TakesTheNewest(states: seq<State>, moves: seq<Move>, i: nat)
    requires IsRun(states, moves) && Starts(states[0]) && i < |states|
    ensures var s, p := states[i], states[i].past;
            && (s.pending.Waiting? ==> s.pending.number == |p.asked| > 0 && s.pending.sink == p.asked[|p.asked| - 1])
            && (s.detach && (forall j :: 0 <= j < |moves| ==> Single(moves[j])) ==>
                  p.detachBy == |p.asked| > 0 && p.asked[|p.asked| - 1] == Null)
  {
    RunKeepsAsking(states, moves, i);
    if forall j :: 0 <= j < |moves| ==> Single(moves[j]) { NewestDetach(states, moves, i); }
  }

  lemma {:induction false} NewestDetach(states: seq<State>, moves: seq<Move>, i: nat)
    requires IsRun(states, moves) && Starts(states[0]) && i < |states| && forall j :: 0 <= j < |moves| ==> Single(moves[j])
    ensures states[i].caller == Idle && (states[i].detach ==> states[i].past.detachBy == states[i].past.issued)
  {
    if i > 0 {
      NewestDetach(states, moves, i - 1);
      DetachIsNewest(states[i - 1], moves[i - 1]);
    }
  }

  lemma DetachIsNewest(s: State, m: Move)
    requires Single(m) && Enabled(s, m) && s.caller == Idle && (s.detach ==> s.past.detachBy == s.past.issued)
    ensures var t := Next(s, m); t.caller == Idle && (t.detach ==> t.past.detachBy == t.past.issued)
  {
    hide Accumulated, SpanBegun, SpanEnded;
  }

  /** A swap that nobody interrupts, from the reading of the counter on: what was
      outstanding is in use and counted, and the sink before it has been finished. */
  lemma SwapTakesEffect(s: State)
    requires s.cons.LoadRequests? && s.caller == Idle && Outstanding(s)
    ensures var one := Swaps(s, false); var two := Swaps(one, false); var three := Swaps(two, false);
            var four := Swaps(three, false); var five := Swaps(four, false); var t := Swaps(five, false);
            && one.cons.TakeSink? && two.cons.TakeDetach? && three.cons.FinishOld? && four.cons.Install? && five.cons.StoreCount?
            && t.cons == WaitBuffer && !Outstanding(t) && t.count == s.requests == t.requests
            && t.current == (if s.pending.Waiting? then s.pending.sink else Null)
            && t.past.finished == s.past.finished + (if s.current == Absent then [] else [s.current])
            && t.failed == s.failed
  {
    hide SpanBegun, SpanEnded;
  }

  lemma CountIsMonotone(s: State, m: Move)
    requires Inv(s) && Enabled(s, m)
    ensures s.count <= Next(s, m).count <= Next(s, m).requests
  {
    hide Ownership, Spans, Accumulated, Installing;
    NextKeepsInv(s, m);
  }

  // ----- Whether the count reaches a request that was applied -----

  /** A request is one step. */
  predicate Single(m: Move)
  {
    m.Consume? || (m.Request? && m.sink != Absent)
  }

  /** A swap has read the counter and has still to take what this request leaves
      behind: an attach leaves a sink, a detach only the flag. */
  predicate InGap(pc: ConsumerPc, sink: Sink)
  {
    pc.TakeSink? || (pc.TakeDetach? && sink == Null)
  }

  predicate Outstanding(s: State) { s.pending != Nothing || s.detach }

  /** How the count stands to the requests, given what it is due to come to: all of
      them, or, the last having fallen in the gap of a swap, those that the swap saw. */
  predicate Settled(s: State, due: nat)
  {
    && s.caller == Idle && s.requests == s.past.issued && due <= s.requests
    && var gap := due < s.requests;
       match s.cons
       case TakeSink(seen) =>
         if gap then if Outstanding(s) then seen == due else s.count == due
         else seen == due && (!Outstanding(s) ==> s.count == due)
       case TakeDetach(seen, incoming) =>
         if gap then s.pending == Nothing && due == if incoming != Nothing || s.detach then seen else s.count
         else if s.pending != Nothing then !s.detach
         else seen == due && (incoming == Nothing && !s.detach ==> s.count == due)
       case FinishOld(seen, _, _) => (gap ==> !Outstanding(s)) && (!Outstanding(s) ==> seen == due)
       case Install(seen, _, _) => (gap ==> !Outstanding(s)) && (!Outstanding(s) ==> seen == due)
       case StoreCount(seen) => (gap ==> !Outstanding(s)) && (!Outstanding(s) ==> seen == due)
       case _ => (gap ==> !Outstanding(s)) && (!Outstanding(s) ==> s.count == due)
  }

  lemma RequestKeepsSettled(s: State, due: nat, sink: Sink)
    requires Counts(s) && Settled(s, due) && sink != Absent
    ensures Settled(Next(s, Request(sink)), DueNow(s, sink))
  {
  }

  /** What the count is due to come to, once this request has been made. */
  function DueNow(s: State, sink: Sink): nat
  {
    if InGap(s.cons, sink) then s.cons.seen else s.requests + 1
  }

  lemma SwapKeepsSettled(s: State, due: nat, fault: bool)
    requires Counts(s) && Settled(s, due) && Swapping(s.cons)
    ensures Settled(Swaps(s, fault), due)
  {
    hide SpanBegun, SpanEnded;
  }

  lemma LoopKeepsSettled(s: State, due: nat, abort: bool, buffer: seq<nat>, fault: bool)
    requires Settled(s, due) && !Swapping(s.cons) && !s.cons.Done?
    ensures Settled(Loops(s, abort, buffer, fault), due)
  {
    hide Accumulated;
  }

  predicate AllSingle(moves: seq<Move>)
  {
    forall i :: 0 <= i < |moves| ==> Single(moves[i])
  }

  /** Whether the last request of the first i moves fell in the gap. */
  predicate LastInGap(states: seq<State>, moves: seq<Move>, i: nat)
    requires i <= |moves| && i < |states|
  {
    i > 0 && if moves[i - 1].Request? then InGap(states[i - 1].cons, moves[i - 1].sink) else LastInGap(states, moves, i - 1)
  }

  /** What the last of the first i moves that was a request left the count due to come to. */
  function Due(states: seq<State>, moves: seq<Move>, i: nat): nat
    requires i <= |moves| && i < |states|
  {
    if i == 0 then 0
    else if moves[i - 1].Request? then DueNow(states[i - 1], moves[i - 1].sink)
    else Due(states, moves, i - 1)
  }

  lemma {:induction false} RunKeepsSettled(states: seq<State>, moves: seq<Move>, i: nat)
    requires IsRun(states, moves) && Starts(states[0]) && AllSingle(moves) && i < |states|
    ensures Settled(states[i], Due(states, moves, i))
    ensures Due(states, moves, i) < states[i].requests <==> LastInGap(states, moves, i)
  {
    hide Settled;
    if i == 0 {
      var sink :| states[0] == Initial(sink);
      InitialSettled(sink);
    } else {
      RunKeepsSettled(states, moves, i - 1);
      RunKeepsInv(states, moves, i - 1);
      var s, m, due := states[i - 1], moves[i - 1], Due(states, moves, i - 1);
      assert Single(m);
      if m.Request? { RequestKeepsSettled(s, due, m.sink); }
      else if Swapping(s.cons) { SwapKeepsSettled(s, due, m.fault); }
      else { LoopKeepsSettled(s, due, m.abort, m.buffer, m.fault); }
    }
  }

  lemma InitialSettled(sink: Sink)
    ensures Settled(Initial(sink), 0)
  {
  }

  /** Exactly when the count reaches the requests made.  In any run of single-step
      requests, whenever the thread is between swaps with nothing left to apply, the
      caller of the last request has been answered if and only if that request did
      not fall in the gap. */
  lemma CountedExactlyOutsideTheGap(states: seq<State>, moves: seq<Move>, i: nat)
    requires IsRun(states, moves) && Starts(states[0]) && AllSingle(moves) && i < |states|
    requires !Swapping(states[i].cons) && !Outstanding(states[i])
    ensures states[i].count == states[i].requests <==> !LastInGap(states, moves, i)
  {
    RunKeepsSettled(states, moves, i);
    RunKeepsInv(states, moves, i);
  }

  // ----- Each request -----

  /** A swap reads the request counter. */
  predicate Reads(s: State, m: Move) { m.Consume? && s.cons.LoadRequests? }

  /** Between one request and a later one a swap has read the counter. */
  ghost predicate ReadBetween(states: seq<State>, moves: seq<Move>, m: nat, i: nat)
    requires i <= |moves| && i < |states|
  {
    exists l, j :: m < l < j < i && Reads(states[l], moves[l]) && moves[j].Request?
  }

  /** Exactly which requests are answered.  Between swaps with nothing left to apply,
      the count has reached the request made by move m if and only if the last request
      of all did not fall in the gap, or the counter has been read between the two. */
  lemma AnsweredExactly(states: seq<State>, moves: seq<Move>, m: nat, i: nat)
    requires IsRun(states, moves) && Starts(states[0]) && AllSingle(moves)
    requires m < i < |states| && moves[m].Request?
    requires !Swapping(states[i].cons) && !Outstanding(states[i])
    ensures states[i].count >= states[m + 1].requests
       <==> !LastInGap(states, moves, i) || ReadBetween(states, moves, m, i)
  {
    hide AllSingle, LastInGap, ReadBetween, Due, Ownership, Spans;
    RunKeepsSettled(states, moves, i);
    RunKeepsInv(states, moves, i);
    RequestsGrow(states, moves, m + 1, i);
    if LastInGap(states, moves, i) {
      var j := LastRequest(states, moves, m, i);
      DueWasRead(states, moves, m, j, i);
    }
  }

  /** The last request there was. */
  lemma {:induction false} LastRequest(states: seq<State>, moves: seq<Move>, m: nat, i: nat) returns (j: nat)
    requires IsRun(states, moves) && m < i < |states| && moves[m].Request? && LastInGap(states, moves, i)
    ensures m <= j < i && moves[j].Request? && InGap(states[j].cons, moves[j].sink)
    ensures forall k :: j < k < i ==> !moves[k].Request?
    ensures Due(states, moves, i) == states[j].cons.seen
  {
    if moves[i - 1].Request? {
      j := i - 1;
    } else {
      j := LastRequest(states, moves, m, i - 1);
    }
  }

  /** What the swap in the gap saw covers exactly the requests made before it read. */
  lemma DueWasRead(states: seq<State>, moves: seq<Move>, m: nat, j: nat, i: nat)
    requires IsRun(states, moves) && Starts(states[0]) && AllSingle(moves)
    requires m <= j < i < |states| && moves[m].Request? && moves[j].Request? && InGap(states[j].cons, moves[j].sink)
    requires forall k :: j < k < i ==> !moves[k].Request?
    ensures states[j].cons.seen >= states[m + 1].requests <==> ReadBetween(states, moves, m, i)
  {
    hide AllSingle, Ownership, Spans;
    var l := ReadFor(states, moves, j);
    if states[l].requests >= states[m + 1].requests && l <= m {
      RequestsGrow(states, moves, l, m);
      OneMore(states, moves, m);
      assert false;
    }
    if ReadBetween(states, moves, m, i) {
      var l', j' :| m < l' < j' < i && Reads(states[l'], moves[l']) && moves[j'].Request?;
      assert j' <= j && l' <= l;
      RequestsGrow(states, moves, m + 1, l');
      RequestsGrow(states, moves, l', l);
    }
  }

  predicate HasSeen(pc: ConsumerPc) { pc.TakeSink? || pc.TakeDetach? }

  lemma OneMore(states: seq<State>, moves: seq<Move>, m: nat)
    requires IsRun(states, moves) && m < |moves| && moves[m].Request?
    ensures states[m + 1].requests == states[m].requests + 1
  {
  }

  lemma {:induction false} RequestsGrow(states: seq<State>, moves: seq<Move>, a: nat, b: nat)
    requires IsRun(states, moves) && a <= b < |states|
    ensures states[a].requests <= states[b].requests
    decreases b
  {
    if a < b {
      RequestsGrow(states, moves, a, b - 1);
      RequestsStep(states[b - 1], moves[b - 1]);
    }
  }

  lemma RequestsStep(s: State, m: Move)
    requires Enabled(s, m)
    ensures s.requests <= Next(s, m).requests
  {
    hide Accumulated, SpanBegun, SpanEnded;
  }

  /** The counter a swap goes by was read by the last of its moves that read it. */
  lemma {:induction false} ReadFor(states: seq<State>, moves: seq<Move>, j: nat) returns (l: nat)
    requires IsRun(states, moves) && Starts(states[0]) && j < |states| && HasSeen(states[j].cons)
    ensures l < j < |states| == |moves| + 1 && Reads(states[l], moves[l]) && states[l].requests == states[j].cons.seen
    ensures forall k :: l < k < j ==> !Reads(states[k], moves[k])
  {
    hide Accumulated, SpanBegun, SpanEnded;
    var sink :| states[0] == Initial(sink);
    var s, m := states[j - 1], moves[j - 1];
    assert Enabled(s, m) && states[j] == Next(s, m);
    if Reads(s, m) {
      l := j - 1;
    } else {
      l := ReadFor(states, moves, j - 1);
    }
  }

  // ----- Runs with no request in the gap -----

  /** No request still to be applied, or being applied, is newer than the counter
      that will be stored for it. */
  predicate Served(s: State)
  {
    && (s.pending.Waiting? ==> s.pending.number <= s.requests)
    && (s.detach ==> s.past.detachBy <= s.requests)
    && match s.cons
       case TakeSink(seen) => seen == s.requests && s.past.served <= s.count
       case TakeDetach(seen, incoming) =>
         && (incoming.Waiting? ==> incoming.number <= seen) && (s.detach ==> s.past.detachBy <= seen) && s.past.served <= s.count
       case FinishOld(seen, _, number) => number <= seen && s.past.served <= s.count
       case Install(seen, _, number) => number <= seen && s.past.served <= s.count
       case StoreCount(seen) => s.past.served <= seen
       case _ => s.past.served <= s.count
  }

  predicate Orderly(states: seq<State>, moves: seq<Move>)
    requires IsRun(states, moves)
  {
    forall i :: 0 <= i < |moves| && moves[i].Request? ==> !InGap(states[i].cons, moves[i].sink)
  }

  lemma RequestKeepsServed(s: State, sink: Sink)
    requires Counts(s) && Served(s) && s.caller == Idle && !InGap(s.cons, sink)
    ensures Served(Next(s, Request(sink)))
  {
  }

  lemma SwapKeepsServed(s: State, fault: bool)
    requires Counts(s) && Served(s) && Swapping(s.cons)
    ensures Served(Swaps(s, fault))
  {
    hide SpanBegun, SpanEnded;
  }

  lemma LoopKeepsServed(s: State, abort: bool, buffer: seq<nat>, fault: bool)
    requires Served(s) && !Swapping(s.cons) && !s.cons.Done?
    ensures Served(Loops(s, abort, buffer, fault))
  {
    hide Accumulated;
  }

  lemma {:induction false} RunKeepsServed(states: seq<State>, moves: seq<Move>, i: nat)
    requires IsRun(states, moves) && Starts(states[0]) && AllSingle(moves) && Orderly(states, moves) && i < |states|
    ensures Served(states[i])
  {
    if i > 0 {
      hide Served, Settled;
      RunKeepsServed(states, moves, i - 1);
      RunKeepsInv(states, moves, i - 1);
      var s, m := states[i - 1], moves[i - 1];
      assert Single(m);
      if m.Request? { RequestKeepsServed(s, m.sink); }
      else if Swapping(s.cons) { SwapKeepsServed(s, m.fault); }
      else { LoopKeepsServed(s, m.abort, m.buffer, m.fault); }
    }
  }

  /** If none falls in the gap, then between swaps the count has reached every
      request applied so far, also while newer ones are outstanding. */
  lemma CountReaches(states: seq<State>, moves: seq<Move>, i: nat)
    requires IsRun(states, moves) && Starts(states[0]) && AllSingle(moves) && Orderly(states, moves) && i < |states|
    requires !Swapping(states[i].cons)
    ensures states[i].past.served <= states[i].count
  {
    RunKeepsServed(states, moves, i);
  }

  // ----- What a request in the gap comes to -----

  const GOES_ON := Consume(false, [], false)

  /** An attach between the counter and the sink is applied and not counted. */
  lemma AppliedButNotCounted(sink: Sink) returns (states: seq<State>, moves: seq<Move>)
    requires sink.Given?
    ensures IsRun(states, moves) && Starts(states[0]) && AllSingle(moves)
    ensures var s := states[|moves|];
            && s.current == sink && s.past.served == 1 && s.requests == 1 && s.count == 0
            && !Outstanding(s) && s.caller == Idle && s.cons == WaitBuffer
  {
    hide Accumulated, SpanBegun;
    var c := GOES_ON;
    var s0 := Initial(Null);
    var s1 := Loops(s0, false, [], false);
    var s2 := Swaps(s1, false);
    var s3 := Next(s2, Request(sink));
    var s4 := Swaps(s3, false);
    var s5 := Swaps(s4, false);
    var s6 := Swaps(s5, false);
    var s7 := Swaps(s6, false);
    var s8 := Swaps(s7, false);
    states, moves := [s0, s1, s2, s3, s4, s5, s6, s7, s8], [c, c, Request(sink), c, c, c, c, c];
  }

  /** A detach between the sink and the flag, with no sink taken, is applied and not counted. */
  lemma DetachedButNotCounted(sink: Sink) returns (states: seq<State>, moves: seq<Move>)
    requires sink.Given?
    ensures IsRun(states, moves) && Starts(states[0]) && AllSingle(moves)
    ensures var s := states[|moves|];
            && s.current == Null && s.past.served == 1 && s.requests == 1 && s.count == 0
            && !Outstanding(s) && s.caller == Idle && s.cons == WaitBuffer
  {
    hide Accumulated, SpanBegun;
    var c := GOES_ON;
    var s0 := Initial(sink);
    var s1 := Loops(s0, false, [], false);
    var s2 := Swaps(s1, false);
    var s3 := Swaps(s2, false);
    var s4 := Next(s3, Request(Null));
    var s5 := Swaps(s4, false);
    var s6 := Swaps(s5, false);
    var s7 := Swaps(s6, false);
    var s8 := Swaps(s7, false);
    states, moves := [s0, s1, s2, s3, s4, s5, s6, s7, s8], [c, c, c, Request(Null), c, c, c, c];
  }

  /** Started and stopped at once, when a swap has found nothing: the attach is not in
      the gap, but the detach that supersedes it is, and neither is ever counted. */
  lemma BothUncounted(sink: Sink) returns (states: seq<State>, moves: seq<Move>)
    requires sink.Given?
    ensures IsRun(states, moves) && Starts(states[0]) && AllSingle(moves) && |moves| == 9
    ensures moves[3] == Request(sink) && !InGap(states[3].cons, sink) && states[4].requests == 1
    ensures var s := states[9];
            && s.requests == 2 && s.count == 0 && !Outstanding(s) && s.caller == Idle && s.cons == WaitBuffer
  {
    hide Accumulated, SpanBegun;
    var c := GOES_ON;
    states, moves := AttachThenDetach(sink);
    var s6 := Swaps(states[5], false);
    var s7 := Swaps(s6, false);
    var s8 := Swaps(s7, false);
    var s9 := Swaps(s8, false);
    RunGrows(states, moves, c);
    RunGrows(states + [s6], moves + [c], c);
    RunGrows(states + [s6] + [s7], moves + [c] + [c], c);
    RunGrows(states + [s6] + [s7] + [s8], moves + [c] + [c] + [c], c);
    states, moves := states + [s6] + [s7] + [s8] + [s9], moves + [c] + [c] + [c] + [c];
  }

  lemma AttachThenDetach(sink: Sink) returns (states: seq<State>, moves: seq<Move>)
    requires sink.Given?
    ensures IsRun(states, moves) && Starts(states[0]) && AllSingle(moves) && |moves| == 5
    ensures moves[3] == Request(sink) && !InGap(states[3].cons, sink) && states[4].requests == 1
    ensures var s := states[5];
            && s.requests == 2 && s.count == 0 && s.pending == Nothing && s.detach && s.caller == Idle
            && s.cons == TakeDetach(0, Nothing)
  {
    hide Accumulated, SpanBegun;
    var c := GOES_ON;
    var s0 := Initial(Null);
    var s1 := Loops(s0, false, [], false);
    var s2 := Swaps(s1, false);
    var s3 := Swaps(s2, false);
    var s4 := Next(s3, Request(sink));
    var s5 := Next(s4, Request(Null));
    states, moves := [s0, s1, s2, s3, s4, s5], [c, c, c, Request(sink), Request(Null)];
  }

  /** A recording started and stopped at once: the detach falls between the taking
      of its sink and the flag, which is cleared with the sink in hand.  The stop is
      neither applied nor counted, nothing is left to apply, and the recording goes on. */
  lemma LostDetach(sink: Sink) returns (states: seq<State>, moves: seq<Move>)
    requires sink.Given?
    ensures IsRun(states, moves) && Starts(states[0]) && AllSingle(moves)
    ensures var s := states[|moves|];
            && s.current == sink && s.past.became == [Null, sink] && s.past.served == 1
            && s.requests == 2 && s.count == 1
            && !Outstanding(s) && s.caller == Idle && s.cons == WaitBuffer
  {
    hide Accumulated, SpanBegun;
    var c := GOES_ON;
    states, moves := DetachAtTheFlag(sink);
    var s6 := Swaps(states[5], false);
    var s7 := Swaps(s6, false);
    var s8 := Swaps(s7, false);
    var s9 := Swaps(s8, false);
    RunGrows(states, moves, c);
    RunGrows(states + [s6], moves + [c], c);
    RunGrows(states + [s6] + [s7], moves + [c] + [c], c);
    RunGrows(states + [s6] + [s7] + [s8], moves + [c] + [c] + [c], c);
    states, moves := states + [s6] + [s7] + [s8] + [s9], moves + [c] + [c] + [c] + [c];
  }

  lemma DetachAtTheFlag(sink: Sink) returns (states: seq<State>, moves: seq<Move>)
    requires sink.Given?
    ensures IsRun(states, moves) && Starts(states[0]) && AllSingle(moves) && |moves| == 5
    ensures var s := states[5];
            && s.past.became == [Null] && s.past.served == 0 && s.requests == 2 && s.count == 0
            && s.pending == Nothing && s.detach && s.caller == Idle && s.cons == TakeDetach(1, Waiting(sink, 1))
  {
    hide Accumulated, SpanBegun;
    var c := GOES_ON;
    var s0 := Initial(Null);
    var s1 := Loops(s0, false, [], false);
    var s2 := Next(s1, Request(sink));
    var s3 := Swaps(s2, false);
    var s4 := Swaps(s3, false);
    var s5 := Next(s4, Request(Null));
    states, moves := [s0, s1, s2, s3, s4, s5], [c, Request(sink), c, c, Request(Null)];
  }

  lemma RunGrows(states: seq<State>, moves: seq<Move>, m: Move)
    requires IsRun(states, moves) && Enabled(states[|moves|], m)
    ensures IsRun(states + [Next(states[|moves|], m)], moves + [m])
  {
  }

  /** Taken apart into its operations, a request can be applied before it is in the
      counter at all. */
  lemma AppliedBeforeRequested(sink: Sink) returns (states: seq<State>, moves: seq<Move>)
    requires sink.Given?
    ensures IsRun(states, moves) && Starts(states[0])
    ensures var s := states[|moves|];
            && s.current == sink && s.requests == 1 && s.count == 0
            && !Outstanding(s) && s.caller == Idle && s.cons == WaitBuffer
  {
    states, moves := AppliedFirst(sink);
    var s9 := Next(states[|moves|], StoreDetach);
    RunGrows(states, moves, StoreDetach);
    states, moves := states + [s9], moves + [StoreDetach];
    var s10 := Next(s9, AddRequest);
    RunGrows(states, moves, AddRequest);
    states, moves := states + [s10], moves + [AddRequest];
  }

  /** The sink has been published and the swap has been through. */
  lemma AppliedFirst(sink: Sink) returns (states: seq<State>, moves: seq<Move>)
    requires sink.Given?
    ensures IsRun(states, moves) && Starts(states[0])
    ensures var s := states[|moves|];
            && s.current == sink && s.requests == 0 && s.count == 0
            && !Outstanding(s) && s.caller == Exchanged(false) && s.cons == WaitBuffer
  {
    hide Accumulated, SpanBegun;
    var c := GOES_ON;
    var s0 := Initial(Null);
    var s1 := Next(s0, Exchange(sink));
    var s2 := Loops(s1, false, [], false);
    var s3 := Swaps(s2, false);
    var s4 := Swaps(s3, false);
    var s5 := Swaps(s4, false);
    var s6 := Swaps(s5, false);
    var s7 := Swaps(s6, false);
    var s8 := Swaps(s7, false);
    states, moves := [s0, s1, s2, s3, s4, s5, s6, s7, s8], [Exchange(sink), c, c, c, c, c, c, c];
  }

  /** And stays uncounted until somebody asks for something else. */
  lemma StaysUncounted(s: State, m: Move)
    requires Enabled(s, m) && m.Consume? && !Outstanding(s)
    requires !s.cons.FinishOld? && !s.cons.Install? && !s.cons.StoreCount?
    requires s.cons.TakeDetach? ==> s.cons.incoming == Nothing
    ensures var t := Next(s, m);
            && t.count == s.count && !Outstanding(t)
            && !t.cons.FinishOld? && !t.cons.Install? && !t.cons.StoreCount?
            && (t.cons.TakeDetach? ==> t.cons.incoming == Nothing)
  {
    hide Ownership, Spans, Accumulated, Installing;
  }
}
