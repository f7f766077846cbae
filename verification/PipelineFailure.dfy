/**
  A failure ends the run: the control thread turns it into an abort, or finds the
  processing thread gone and stops the source.
 */
module EngineFailure {
  import opened DiskBufferRing
  import opened Engine
  import opened EngineSafety
  import opened EngineTheorems
  import opened EngineEnding

  /** The control thread leaves its loop only with the run told to end. */
  predicate LeftTold(s: State)
  {
    (s.ctrl.KAborting? && s.ctrl.after == ThenJoin) || s.ctrl.KJoinTransfer? || s.ctrl.KJoinProcessing? || s.ctrl.KDone? ==> Told(s.flags)
  }

  lemma LeftToldStays(s: State, m: Move)
    requires Inv(s) && Enabled(s, m) && LeftTold(s)
    ensures LeftTold(Next(s, m))
  {
    hide Carries, Wakes, Indices;
  }

  /** The control thread's steps to the abort that a failure calls for, or out of its loop. */
  function AlarmDistance(pc: ControlPc, n: nat): int
  {
    match pc
    case KSetAbort(_) => 1
    case KExitStop => 1
    case KExitFinished => 2
    case KLoadFailed => 2
    case KDump(i) => 3 + 2 * (n - i)
    case KDumpNotify(i) => 2 + 2 * (n - i)
    case KLoadFinished => 4 + 2 * n
    case KWatchFire => 2
    case KWatchStop => 5 + 2 * n
    case KWatchFinished => 6 + 2 * n
    case KTop => 7 + 2 * n
    case _ => 0
  }

  /** Where control has not been told. */
  lemma AlarmApproaches(s: State, m: Move)
    requires Inv(s) && LeftTold(s) && s.flags.failed && !Told(s.flags) && Enabled(s, m)
    ensures Able(s, TheControl) && 0 < AlarmDistance(s.ctrl, s.Count()) <= 7 + 2 * s.Count()
    ensures var t := Next(s, m);
            t.flags.failed && (!Told(t.flags) ==>
              t.Count() == s.Count()
              && AlarmDistance(t.ctrl, t.Count()) <= AlarmDistance(s.ctrl, s.Count()) - (if m.Control? then 1 else 0))
  {
    hide Carries, Wakes, SlotFlags, ExitReason;
    if m.Control? { AlarmStep(s, m.c); } else { OthersLeaveControl(s, m); }
  }

  lemma AlarmStep(s: State, c: Choice)
    requires WellFormed(s) && s.flags.failed && !Told(s.flags) && Enabled(s, Control(c))
    requires !s.ctrl.KAborting? && !s.ctrl.KJoinTransfer? && !s.ctrl.KJoinProcessing?
    ensures var t := ControlNext(s, c);
            t.flags.failed && t.Count() == s.Count()
            && (!Told(t.flags) ==> AlarmDistance(t.ctrl, s.Count()) < AlarmDistance(s.ctrl, s.Count()))
  {
  }

  lemma OthersLeaveControl(s: State, m: Move)
    requires WellFormed(s) && Enabled(s, m) && !m.Control?
    ensures Next(s, m).ctrl == s.ctrl && Next(s, m).Count() == s.Count() && (s.flags.failed ==> Next(s, m).flags.failed)
  {
  }

  /** A failure, wherever it comes from, ends the run: under a fair schedule it has been
      told to end within this many moves, and so is over in the time that takes. */
  lemma FailureEnds(states: seq<State>, moves: seq<Move>, patience: nat)
    requires IsRun(states, moves) && Inv(states[0]) && LeftTold(states[0]) && states[0].flags.failed
    requires patience > 0 && Fair(states, moves, patience) && |moves| >= patience * (7 + 2 * states[0].Count())
    ensures exists i :: 0 <= i < |states| && Told(states[i].flags)
  {
    hide Inv, LeftTold, Told, Fair, AlarmDistance, Able;
    if forall i :: 0 <= i < |states| ==> !Told(states[i].flags) {
      AlarmRuns(states, moves, |moves|);
      AlarmBounds(states[0], states[0]);
      AlarmCounts(states, moves, patience, 7 + 2 * states[0].Count());
      AlarmBounds(states[patience * (7 + 2 * states[0].Count())], states[0]);
      assert false;
    }
  }

  /** Untold, the control thread can always step, and its steps count. */
  predicate Alarmed(s: State, n: nat)
  {
    Inv(s) && LeftTold(s) && s.flags.failed && !Told(s.flags) && s.Count() == n
  }

  lemma AlarmBounds(s: State, first: State)
    requires Alarmed(s, first.Count())
    ensures Able(s, TheControl) && 0 < AlarmDistance(s.ctrl, s.Count()) <= 7 + 2 * first.Count()
  {
    AlarmApproaches(s, UserStop);
  }

  lemma {:induction false} AlarmRuns(states: seq<State>, moves: seq<Move>, i: nat)
    requires IsRun(states, moves) && Inv(states[0]) && LeftTold(states[0]) && states[0].flags.failed && i < |states|
    requires forall j :: 0 <= j < |states| ==> !Told(states[j].flags)
    ensures forall j :: 0 <= j <= i ==> Alarmed(states[j], states[0].Count())
    ensures forall j :: 0 <= j < i ==>
              AlarmDistance(states[j + 1].ctrl, states[0].Count())
              <= AlarmDistance(states[j].ctrl, states[0].Count()) - (if moves[j].Control? then 1 else 0)
  {
    hide Inv, LeftTold, Told, AlarmDistance, Able;
    if i > 0 {
      AlarmRuns(states, moves, i - 1);
      NextKeepsInv(states[i - 1], moves[i - 1]);
      LeftToldStays(states[i - 1], moves[i - 1]);
      AlarmApproaches(states[i - 1], moves[i - 1]);
    }
  }

  /** So each stretch of `patience` moves brings it a step nearer. */
  lemma {:induction false} AlarmCounts(states: seq<State>, moves: seq<Move>, patience: nat, k: nat)
    requires |states| == |moves| + 1 && patience > 0 && Fair(states, moves, patience) && patience * k <= |moves|
    requires forall j :: 0 <= j < |states| ==> Alarmed(states[j], states[0].Count())
    requires forall j :: 0 <= j < |moves| ==>
              AlarmDistance(states[j + 1].ctrl, states[0].Count())
              <= AlarmDistance(states[j].ctrl, states[0].Count()) - (if moves[j].Control? then 1 else 0)
    ensures AlarmDistance(states[patience * k].ctrl, states[0].Count()) <= AlarmDistance(states[0].ctrl, states[0].Count()) - k
    decreases k
  {
    hide Fair, Alarmed, AlarmDistance, Able;
    if k > 0 {
      var from := patience * (k - 1);
      assert patience * k == from + patience;
      AlarmCounts(states, moves, patience, k - 1);
      forall j | from <= j < from + patience ensures Able(states[j], TheControl) { AlarmBounds(states[j], states[0]); }
      Patience(states, moves, patience, TheControl, from);
      var j :| from <= j < from + patience && Does(moves[j], TheControl);
      Falls(states, moves, from, j);
      Falls(states, moves, j + 1, from + patience);
    }
  }

  lemma {:induction false} Falls(states: seq<State>, moves: seq<Move>, i: nat, j: nat)
    requires |states| == |moves| + 1 && i <= j < |states|
    requires forall j :: 0 <= j < |moves| ==>
              AlarmDistance(states[j + 1].ctrl, states[0].Count())
              <= AlarmDistance(states[j].ctrl, states[0].Count()) - (if moves[j].Control? then 1 else 0)
    ensures AlarmDistance(states[j].ctrl, states[0].Count()) <= AlarmDistance(states[i].ctrl, states[0].Count())
    decreases j
  {
    hide AlarmDistance;
    if i < j { Falls(states, moves, i, j - 1); }
  }
}
