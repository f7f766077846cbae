/**
  How far apart two TAP states are, and so what a shortest walk must be: there is
  only one.  From that, where it leads a TAP that is not where the walk began.

  States go by their place in the enumeration: Reset 0, Idle 1, the data column
  from its Select state 2 to its Update state 8, the instruction column 9 to 15.
 */
module TapDistance {
  import opened TapController

  function StateIndex(s: TapState): (c: nat)
    ensures c < 16
  {
    match s
    case Reset => 0 case Idle => 1
    case DrSelect => 2 case DrCapture => 3 case DrShift => 4 case DrExit1 => 5
    case DrPause => 6 case DrExit2 => 7 case DrUpdate => 8
    case IrSelect => 9 case IrCapture => 10 case IrShift => 11 case IrExit1 => 12
    case IrPause => 13 case IrExit2 => 14 case IrUpdate => 15
  }

  /** One clock, on indices. */
  function Onto(c: nat, tms: bool): nat
  {
    if c == 0 then (if tms then 0 else 1)
    else if c == 1 || c == 8 || c == 15 then (if tms then 2 else 1)
    else if c == 2 then (if tms then 9 else 3)
    else if c == 9 then (if tms then 0 else 10)
    else if c < 9 then
      (if c <= 4 then (if tms then 5 else 4) else if c == 5 then (if tms then 8 else 6)
       else if c == 6 then (if tms then 7 else 6) else (if tms then 8 else 4))
    else
      (if c <= 11 then (if tms then 12 else 11) else if c == 12 then (if tms then 15 else 13)
       else if c == 13 then (if tms then 14 else 13) else (if tms then 15 else 11))
  }

  lemma StepsOnto(s: TapState, tms: bool)
    ensures StateIndex(Step(s, tms)) == Onto(StateIndex(s), tms)
  {
  }

  lemma SameIndex(s: TapState, t: TapState)
    ensures StateIndex(s) == StateIndex(t) ==> s == t
  {
  }

  // ----- Distances -----

  /** To Select-DR-Scan, not through Test-Logic-Reset. */
  function ToSelect(c: nat): nat
  {
    if c == 2 then 0 else if c == 1 || c == 8 || c == 15 then 1
    else if c == 0 || c == 5 || c == 7 || c == 12 || c == 14 then 2
    else if c == 9 then 4 else 3
  }

  /** From a Select state down its column, Capture being place 1 and Update 6. */
  function Down(p: nat): nat { if p == 1 then 1 else if p <= 3 then 2 else if p == 5 then 4 else 3 }

  /** From one place of a column to another without leaving it, or 9 when that cannot be. */
  function Within(p: nat, q: nat): nat
  {
    if p == 6 || q == 1 then 9
    else if q == 6 then (if p == 3 || p == 5 then 1 else 2)
    else if p == 1 then (if q <= 3 then 1 else q - 2)
    else if p < q then q - p
    else if p == 3 then 3
    else if p == 4 then (if q == 2 then 2 else 3)
    else if q == 2 then 1 else if q == 3 then 2 else 3
  }

  /** The fewest clocks from s to t, not entering Test-Logic-Reset on the way. */
  function Distance(s: nat, t: nat): nat
  {
    if s == t then 0
    else if 3 <= s <= 8 && 3 <= t <= 8 && Within(s - 2, t - 2) < 9 then Within(s - 2, t - 2)
    else if 10 <= s && 10 <= t && Within(s - 9, t - 9) < 9 then Within(s - 9, t - 9)
    else if t == 1 then (if s == 0 then 1 else if s == 2 then 4 else ToSelect(s))
    else if t == 0 then (if s == 9 then 1 else ToSelect(s) + 2)
    else if t == 2 then ToSelect(s)
    else if t == 9 then ToSelect(s) + 1
    else if t < 9 then ToSelect(s) + Down(t - 2)
    else (if s == 9 then 0 else ToSelect(s) + 1) + Down(t - 9)
  }

  predicate MayEnter(c: nat, t: nat) { c != 0 || t == 0 }

  /** The next TMS value on the way. */
  predicate NextTms(s: nat, t: nat)
  {
    MayEnter(Onto(s, true), t) && Distance(Onto(s, true), t) < Distance(s, t)
  }

  /** One of the two steps is nearer by one, and the other is no nearer. */
  predicate GuidesTo(s: nat, t: nat, tms: bool)
  {
    && Distance(s, t) > 0
    && if tms == NextTms(s, t) then MayEnter(Onto(s, tms), t) && Distance(Onto(s, tms), t) + 1 == Distance(s, t)
       else MayEnter(Onto(s, tms), t) ==> Distance(Onto(s, tms), t) >= Distance(s, t)
  }

  lemma Guides(s: nat, t: nat, tms: bool)
    requires s < 16 && t < 16 && s != t
    ensures GuidesTo(s, t, tms)
  {
    if t < 3 { GuidesOut(s, t, tms); }
    else if t < 9 { GuidesDr(s, t, tms); }
    else { GuidesIr(s, t, tms); }
  }

  lemma GuidesOut(s: nat, t: nat, tms: bool)
    requires s < 16 && t < 3 && s != t
    ensures GuidesTo(s, t, tms)
  {
  }

  lemma GuidesDr(s: nat, t: nat, tms: bool)
    requires s < 16 && 3 <= t < 9 && s != t
    ensures GuidesTo(s, t, tms)
  {
  }

  lemma GuidesIr(s: nat, t: nat, tms: bool)
    requires s < 16 && 9 <= t < 16 && s != t
    ensures GuidesTo(s, t, tms)
  {
  }

  // ----- Walks -----

  lemma WalkFirst(s: TapState, path: seq<bool>)
    requires path != []
    ensures Walk(s, path) == Walk(Step(s, path[0]), path[1..])
  {
    var one := [path[0]];
    assert path == one + path[1..];
    WalkConcat(s, one, path[1..]);
    WalkNone(s);
    WalkMore(s, [], path[0]);
    assert [] + [path[0]] == one;
  }

  lemma AvoidsFirst(s: TapState, path: seq<bool>, t: TapState)
    requires path != [] && Avoids(s, path, t == Reset)
    ensures MayEnter(StateIndex(Step(s, path[0])), StateIndex(t)) && Avoids(Step(s, path[0]), path[1..], t == Reset)
  {
    SameIndex(Step(s, path[0]), Reset);
    if t != Reset {
      WalkFirst(s, path[..1]);
      WalkNone(Step(s, path[0]));
      assert path[..1][1..] == [];
      forall i | 0 < i <= |path[1..]| ensures Walk(Step(s, path[0]), path[1..][..i]) != Reset {
        WalkFirst(s, path[..i + 1]);
        assert path[..i + 1][1..] == path[1..][..i];
      }
    }
  }

  /** No walk is shorter than the distance. */
  lemma {:induction false} NoShorter(s: TapState, path: seq<bool>, t: TapState)
    requires Walk(s, path) == t && Avoids(s, path, t == Reset)
    ensures Distance(StateIndex(s), StateIndex(t)) <= |path|
    decreases |path|
  {
    hide Distance, Onto, Walk, Avoids, Step;
    if path == [] {
      WalkNone(s);
      AtTarget(StateIndex(t));
    } else {
      WalkFirst(s, path);
      AvoidsFirst(s, path, t);
      NoShorter(Step(s, path[0]), path[1..], t);
      StepsOnto(s, path[0]);
      if s != t {
        SameIndex(s, t);
        Guides(StateIndex(s), StateIndex(t), path[0]);
      } else {
        AtTarget(StateIndex(t));
      }
    }
  }

  lemma AtTarget(t: nat)
    ensures Distance(t, t) == 0
  {
  }

  /** There is a walk of just that length. */
  lemma {:induction false} SomeWalk(s: TapState, t: TapState) returns (path: seq<bool>)
    ensures Walk(s, path) == t && Avoids(s, path, t == Reset) && |path| == Distance(StateIndex(s), StateIndex(t))
    decreases Distance(StateIndex(s), StateIndex(t))
  {
    hide Distance, Onto, Walk, Avoids, Step, NextTms;
    path := [];
    AtTarget(StateIndex(t));
    NoClocksAvoid(s, t);
    if s != t {
      SameIndex(s, t);
      var tms := NextTms(StateIndex(s), StateIndex(t));
      Guides(StateIndex(s), StateIndex(t), tms);
      StepsOnto(s, tms);
      var rest := SomeWalk(Step(s, tms), t);
      path := [tms] + rest;
      assert path[1..] == rest;
      WalkFirst(s, path);
      AvoidsMoreInFront(s, tms, rest, t);
    }
  }

  lemma NoClocksAvoid(s: TapState, t: TapState)
    ensures Walk(s, []) == s && Avoids(s, [], t == Reset)
  {
  }

  lemma AvoidsMoreInFront(s: TapState, tms: bool, rest: seq<bool>, t: TapState)
    requires MayEnter(StateIndex(Step(s, tms)), StateIndex(t)) && Avoids(Step(s, tms), rest, t == Reset)
    ensures Avoids(s, [tms] + rest, t == Reset)
  {
    SameIndex(t, Reset);
    var path := [tms] + rest;
    if t != Reset {
      forall i | 0 < i <= |path| ensures Walk(s, path[..i]) != Reset {
        WalkFirst(s, path[..i]);
        assert path[..i][1..] == rest[..i - 1];
        if i == 1 { WalkNone(Step(s, tms)); }
      }
    }
  }

  /** Where the shortest walk from a to t leads from b. */
  function Follow(a: nat, b: nat, t: nat, n: nat): nat
    decreases n
  {
    if n == 0 || a == t then b else Follow(Onto(a, NextTms(a, t)), Onto(b, NextTms(a, t)), t, n - 1)
  }

  lemma FollowsOn(a: nat, b: nat, t: nat, n: nat)
    ensures a == t ==> Follow(a, b, t, n) == b
    ensures a != t && n > 0 ==> Follow(a, b, t, n) == Follow(Onto(a, NextTms(a, t)), Onto(b, NextTms(a, t)), t, n - 1)
  {
  }

  /** A shortest walk is the one the distances say, wherever it is walked from. */
  lemma {:induction false} ShortestFollows(a: TapState, t: TapState, path: seq<bool>, b: TapState, n: nat)
    requires Walk(a, path) == t && Avoids(a, path, t == Reset) && |path| <= Distance(StateIndex(a), StateIndex(t)) && |path| <= n
    ensures StateIndex(Walk(b, path)) == Follow(StateIndex(a), StateIndex(b), StateIndex(t), n)
    decreases |path|
  {
    hide Distance, Onto, Walk, Avoids, Step, Follow, NextTms;
    FollowsOn(StateIndex(a), StateIndex(b), StateIndex(t), n);
    if path == [] {
      WalkNone(a);
      WalkNone(b);
    } else {
      var tms := path[0];
      WalkFirst(a, path);
      WalkFirst(b, path);
      AvoidsFirst(a, path, t);
      NoShorter(Step(a, tms), path[1..], t);
      NotYet(a, t, path);
      StepsOnto(a, tms);
      StepsOnto(b, tms);
      Guides(StateIndex(a), StateIndex(t), tms);
      ShortestFollows(Step(a, tms), t, path[1..], Step(b, tms), n - 1);
    }
  }

  lemma NotYet(a: TapState, t: TapState, path: seq<bool>)
    requires path != [] && |path| <= Distance(StateIndex(a), StateIndex(t))
    ensures StateIndex(a) != StateIndex(t)
  {
    AtTarget(StateIndex(t));
  }

  // ----- A TAP that is not where the walk began -----

  /** From which run states the walk to an end state also brings back a TAP that
      clocks with TMS low have taken out of them. */
  predicate Rejoins(run: TapState, end: TapState)
  {
    match run
    case DrSelect => end in {Idle, DrShift, DrExit1, DrPause, DrExit2, DrUpdate}
    case IrSelect => end !in {Reset, IrSelect, IrCapture}
    case DrExit1 => end in {DrShift, DrPause, DrExit2}
    case IrExit1 => end in {IrShift, IrPause, IrExit2}
    case DrExit2 => end in {DrShift, DrExit1, DrPause}
    case IrExit2 => end in {IrShift, IrExit1, IrPause}
    case _ => end != run
  }

  /** The same, on indices. */
  predicate RejoinsAt(run: nat, end: nat)
  {
    if run == 2 then end == 1 || 4 <= end <= 8
    else if run == 9 then end != 0 && end != 9 && end != 10
    else if run == 5 then end == 4 || end == 6 || end == 7
    else if run == 12 then end == 11 || end == 13 || end == 14
    else if run == 7 then 4 <= end <= 6
    else if run == 14 then 11 <= end <= 13
    else end != run
  }

  lemma RejoinsIs(run: TapState, end: TapState)
    ensures Rejoins(run, end) <==> RejoinsAt(StateIndex(run), StateIndex(end))
  {
    SameIndex(run, end);
  }

  /** From the same state the walk arrives. */
  lemma {:induction false} Merged(a: nat, t: nat, n: nat)
    requires a < 16 && t < 16 && Distance(a, t) <= n
    ensures Follow(a, a, t, n) == t
    decreases n
  {
    hide Distance, Onto, Follow, NextTms;
    FollowsOn(a, a, t, n);
    if a != t {
      Guides(a, t, NextTms(a, t));
      OntoIndex(a, NextTms(a, t));
      Merged(Onto(a, NextTms(a, t)), t, n - 1);
    }
  }

  lemma OntoIndex(c: nat, tms: bool)
    requires c < 16
    ensures Onto(c, tms) < 16
  {
  }

  /** Pairs on the way to `end` that stay apart: the walk has gone round by
      Select-DR-Scan while the TAP has not. */
  predicate Apart(a: nat, b: nat, end: nat)
  {
    || (a == 2 && (b == 8 || b == 15) && end != 1)
    || (a == 3 && b == 1 && 3 <= end <= 8) || (a == 4 && b == 1 && end == 4) || (a == 5 && b == 2 && 5 <= end <= 8)
    || (a == 6 && b == 3 && 6 <= end <= 7) || (a == 7 && b == 5 && end == 7) || (a == 8 && b == 9 && end == 8)
    || (a == 9 && (b == 2 || b == 5) && (end == 0 || end >= 9)) || (a == 0 && (b == 9 || b == 8) && end == 0)
    || (a == 10 && (b == 3 || b == 6) && end >= 10) || (a == 11 && (b == 4 || b == 6) && end == 11)
    || (a == 12 && (b == 5 || b == 7) && end >= 12) || (a == 13 && (b == 6 || b == 4) && 13 <= end <= 14)
    || (a == 14 && (b == 7 || b == 5) && end == 14) || (a == 15 && b == 8 && end == 15)
  }

  lemma StaysApart(a: nat, b: nat, end: nat)
    requires Apart(a, b, end) && end < 16 && a != end
    ensures Apart(Onto(a, NextTms(a, end)), Onto(b, NextTms(a, end)), end)
  {
  }

  lemma {:induction false} NeverRejoins(a: nat, b: nat, end: nat, n: nat)
    requires Apart(a, b, end) && end < 16 && Distance(a, end) <= n
    ensures Follow(a, b, end, n) != end
    decreases n
  {
    hide Distance, Onto, Follow, NextTms;
    FollowsOn(a, b, end, n);
    if a != end {
      Guides(a, end, NextTms(a, end));
      StaysApart(a, b, end);
      NeverRejoins(Onto(a, NextTms(a, end)), Onto(b, NextTms(a, end)), end, n - 1);
    }
  }

  /** What follows the first clock of the walk, and the second. */
  lemma TwoClocks(run: nat, end: nat, drifted: nat, n: nat)
    requires run < 16 && end < 16 && run != end && Distance(run, end) <= n && n >= 2
    ensures var a, b := Onto(run, NextTms(run, end)), Onto(drifted, NextTms(run, end));
            && a < 16 && (a == b ==> Follow(run, drifted, end, n) == end)
            && (a == end && b != end ==> Follow(run, drifted, end, n) != end)
            && (Apart(a, b, end) ==> Follow(run, drifted, end, n) != end)
            && (a != end ==>
                  var a', b' := Onto(a, NextTms(a, end)), Onto(b, NextTms(a, end));
                  && (a' == b' ==> Follow(run, drifted, end, n) == end)
                  && (a' == end && b' != end ==> Follow(run, drifted, end, n) != end)
                  && (Apart(a', b', end) ==> Follow(run, drifted, end, n) != end))
  {
    hide Distance, Onto, Follow, NextTms, Apart;
    var x := NextTms(run, end);
    var a, b := Onto(run, x), Onto(drifted, x);
    Guides(run, end, x);
    OntoIndex(run, x);
    FollowsOn(run, drifted, end, n);
    FollowsOn(a, b, end, n - 1);
    if a == b { Merged(a, end, n - 1); }
    if Apart(a, b, end) { NeverRejoins(a, b, end, n - 1); }
    if a != end {
      var y := NextTms(a, end);
      var a', b' := Onto(a, y), Onto(b, y);
      Guides(a, end, y);
      OntoIndex(a, y);
      FollowsOn(a', b', end, n - 2);
      if a' == b' { Merged(a', end, n - 2); }
      if Apart(a', b', end) { NeverRejoins(a', b', end, n - 2); }
    }
  }

  /** The table is right, in the states that do not loop. */
  lemma Table(run: nat, end: nat, drifted: nat, n: nat)
    requires run < 16 && Onto(run, false) != run && end < 16 && Distance(run, end) <= n && n >= 2
    requires drifted == Onto(run, false) || drifted == Onto(Onto(run, false), false)
    ensures Follow(run, drifted, end, n) == end <==> RejoinsAt(run, end)
  {
    if run == 2 || run == 9 { SelectTable(run, end, drifted, n); }
    else if run == 5 || run == 12 { Exit1Table(run, end, drifted, n); }
    else if run == 7 || run == 14 { Exit2Table(run, end, drifted, n); }
    else { OtherTable(run, end, drifted, n); }
  }

  lemma SelectTable(run: nat, end: nat, drifted: nat, n: nat)
    requires (run == 2 || run == 9) && end < 16 && Distance(run, end) <= n && n >= 2
    requires drifted == Onto(run, false) || drifted == Onto(Onto(run, false), false)
    ensures Follow(run, drifted, end, n) == end <==> RejoinsAt(run, end)
  {
    hide Follow;
    FollowsOn(run, drifted, end, n);
    if run != end { TwoClocks(run, end, drifted, n); }
  }

  lemma Exit1Table(run: nat, end: nat, drifted: nat, n: nat)
    requires (run == 5 || run == 12) && end < 16 && Distance(run, end) <= n && n >= 2
    requires drifted == Onto(run, false) || drifted == Onto(Onto(run, false), false)
    ensures Follow(run, drifted, end, n) == end <==> RejoinsAt(run, end)
  {
    hide Follow;
    FollowsOn(run, drifted, end, n);
    if run != end { TwoClocks(run, end, drifted, n); }
  }

  lemma Exit2Table(run: nat, end: nat, drifted: nat, n: nat)
    requires (run == 7 || run == 14) && end < 16 && Distance(run, end) <= n && n >= 2
    requires drifted == Onto(run, false) || drifted == Onto(Onto(run, false), false)
    ensures Follow(run, drifted, end, n) == end <==> RejoinsAt(run, end)
  {
    hide Follow;
    FollowsOn(run, drifted, end, n);
    if run != end { TwoClocks(run, end, drifted, n); }
  }

  lemma OtherTable(run: nat, end: nat, drifted: nat, n: nat)
    requires run in {0, 3, 8, 10, 15} && end < 16 && Distance(run, end) <= n && n >= 2
    requires drifted == Onto(run, false) || drifted == Onto(Onto(run, false), false)
    ensures Follow(run, drifted, end, n) == end <==> RejoinsAt(run, end)
  {
    hide Follow;
    FollowsOn(run, drifted, end, n);
    if run != end { TwoClocks(run, end, drifted, n); }
  }

  /** Whether the walk sent for a run state and an end state brings the TAP to the
      end state from where clocks with TMS low have left it. */
  lemma RejoinsExactly(run: TapState, end: TapState, path: seq<bool>, clocks: nat)
    requires Shortest(run, end, path) && clocks > 0 && !LoopsOnZero(run)
    ensures Walk(Walk(run, Zeros(clocks)), path) == end <==> Rejoins(run, end)
  {
    hide Distance, Onto, Walk, Avoids, Follow, NextTms, RejoinsAt, Rejoins;
    var some := SomeWalk(run, end);
    var r, e := StateIndex(run), StateIndex(end);
    var drifted := Walk(run, Zeros(clocks));
    Settles(run, clocks);
    StepsOnto(run, false);
    StepsOnto(Step(run, false), false);
    SameIndex(Step(run, false), run);
    var n := |path| + 2;
    ShortestFollows(run, end, path, drifted, n);
    NoShorter(run, path, end);
    Table(r, e, StateIndex(drifted), n);
    SameIndex(Walk(drifted, path), end);
    RejoinsIs(run, end);
  }
}
