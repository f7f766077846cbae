/**
  The sixteen-state TAP controller (clause 6 of IEEE Std 1149.1-2001) and the
  search for the shortest walk between two of its states.
 */
module TapController {

  datatype TapState =
    | Reset | Idle
    | DrSelect | DrCapture | DrShift | DrExit1 | DrPause | DrExit2 | DrUpdate
    | IrSelect | IrCapture | IrShift | IrExit1 | IrPause | IrExit2 | IrUpdate

  /** One clock. */
  function Step(s: TapState, tms: bool): TapState
  {
    match s
    case Reset => if tms then Reset else Idle
    case Idle => if tms then DrSelect else Idle
    case DrSelect => if tms then IrSelect else DrCapture
    case DrCapture => if tms then DrExit1 else DrShift
    case DrShift => if tms then DrExit1 else DrShift
    case DrExit1 => if tms then DrUpdate else DrPause
    case DrPause => if tms then DrExit2 else DrPause
    case DrExit2 => if tms then DrUpdate else DrShift
    case DrUpdate => if tms then DrSelect else Idle
    case IrSelect => if tms then Reset else IrCapture
    case IrCapture => if tms then IrExit1 else IrShift
    case IrShift => if tms then IrExit1 else IrShift
    case IrExit1 => if tms then IrUpdate else IrPause
    case IrPause => if tms then IrExit2 else IrPause
    case IrExit2 => if tms then IrUpdate else IrShift
    case IrUpdate => if tms then DrSelect else Idle
  }

  /** The state a run of TMS values leads to. */
  function Walk(s: TapState, tms: seq<bool>): TapState
  {
    if tms == [] then s else Step(Walk(s, tms[..|tms| - 1]), tms[|tms| - 1])
  }

  /** No clock of the run enters Test-Logic-Reset, unless that is allowed. */
  predicate Avoids(s: TapState, tms: seq<bool>, resetToo: bool)
  {
    resetToo || forall i :: 0 < i <= |tms| ==> Walk(s, tms[..i]) != Reset
  }

  lemma {:induction false} WalkConcat(s: TapState, a: seq<bool>, b: seq<bool>)
    ensures Walk(s, a + b) == Walk(Walk(s, a), b)
  {
    if b == [] {
      assert a + b == a;
    } else {
      assert (a + b)[..|a + b| - 1] == a + b[..|b| - 1];
      WalkConcat(s, a, b[..|b| - 1]);
    }
  }

  lemma WalkMore(s: TapState, path: seq<bool>, tms: bool)
    ensures Walk(s, path + [tms]) == Step(Walk(s, path), tms)
  {
    assert (path + [tms])[..|path|] == path;
  }

  lemma AvoidsMore(s: TapState, path: seq<bool>, tms: bool, resetToo: bool)
    ensures Avoids(s, path + [tms], resetToo) <==> Avoids(s, path, resetToo) && (resetToo || Walk(s, path + [tms]) != Reset)
  {
    var longer := path + [tms];
    assert longer[..|longer|] == longer;
    assert forall i :: 0 < i <= |path| ==> longer[..i] == path[..i];
  }

  /** Five clocks with TMS high reach Test-Logic-Reset from anywhere. */
  lemma FiveOnes(s: TapState)
    ensures Walk(s, [true, true, true, true, true]) == Reset
  {
    hide Walk;
    var one := [true];
    var two := one + [true];
    var three := two + [true];
    var four := three + [true];
    WalkNone(s);
    WalkMore(s, [], true);
    WalkMore(s, one, true);
    WalkMore(s, two, true);
    WalkMore(s, three, true);
    WalkMore(s, four, true);
    assert [] + [true] == one && four + [true] == [true, true, true, true, true];
  }

  lemma WalkNone(s: TapState)
    ensures Walk(s, []) == s
  {
  }

  function Zeros(n: nat): (z: seq<bool>)
    ensures |z| == n && forall i :: 0 <= i < n ==> !z[i]
  {
    if n == 0 then [] else Zeros(n - 1) + [false]
  }

  /** The states in which the clock can run with TMS low. */
  predicate LoopsOnZero(s: TapState) { Step(s, false) == s }

  /** Any number of clocks with TMS low, one or more, stays exactly in those states. */
  lemma IdleClocks(s: TapState, n: nat)
    requires n > 0
    ensures Walk(s, Zeros(n)) == s <==> LoopsOnZero(s)
  {
    Settles(s, n);
  }

  /** Two clocks with TMS low always settle. */
  lemma {:induction false} Settles(s: TapState, n: nat)
    requires n > 0
    ensures Walk(s, Zeros(n)) == if n == 1 then Step(s, false) else Step(Step(s, false), false)
  {
    WalkMore(s, Zeros(n - 1), false);
    if n > 1 { Settles(s, n - 1); } else { assert Zeros(0) == []; }
  }

  // ----- The search -----

  predicate Allowed(s: TapState, to: TapState) { s != Reset || to == Reset }

  /** A shortest run of TMS values from one state to another that does not pass
      through Test-Logic-Reset. */
  ghost predicate Shortest(from: TapState, to: TapState, path: seq<bool>)
  {
    && Walk(from, path) == to && Avoids(from, path, to == Reset)
    && forall other :: Walk(from, other) == to && Avoids(from, other, to == Reset) ==> |path| <= |other|
  }

  datatype Arrival = Arrival(cameFrom: TapState, onOne: bool)

  /** What the search knows: how each state was reached, by a walk of what length. */
  ghost predicate Known(from: TapState, to: TapState, reached: set<TapState>, arrivals: map<TapState, Arrival>,
                        way: map<TapState, seq<bool>>)
  {
    && from in reached && way.Keys == reached && arrivals.Keys == reached - {from} && way[from] == []
    && (forall s :: s in reached ==> Walk(from, way[s]) == s && Avoids(from, way[s], to == Reset))
    && (forall s :: s in arrivals ==>
          arrivals[s].cameFrom in reached && way[s] == way[arrivals[s].cameFrom] + [arrivals[s].onOne])
  }

  predicate Expanded(s: TapState, to: TapState, reached: set<TapState>, way: map<TapState, seq<bool>>)
    requires way.Keys == reached && s in reached
  {
    forall tms :: Allowed(Step(s, tms), to) ==> Step(s, tms) in reached && |way[Step(s, tms)]| <= |way[s]| + 1
  }

  /** Everything expanded but the two frontiers, which lie d and d + 1 clocks away. */
  ghost predicate Levels(from: TapState, to: TapState, reached: set<TapState>, way: map<TapState, seq<bool>>,
                         frontier: seq<TapState>, next: seq<TapState>, d: nat)
    requires way.Keys == reached
  {
    && (forall s :: s in reached ==> |way[s]| <= d + 1)
    && (forall s :: s in frontier ==> s in reached && |way[s]| == d)
    && (forall s :: s in next ==> s in reached && |way[s]| == d + 1)
    && (forall s :: s in reached && s !in frontier && s !in next ==> Expanded(s, to, reached, way))
  }

  /** A walk the search has not matched is longer than the level it is at. */
  lemma {:induction false} MatchedOrLonger(from: TapState, to: TapState, reached: set<TapState>, arrivals: map<TapState, Arrival>,
                                           way: map<TapState, seq<bool>>, frontier: seq<TapState>, next: seq<TapState>,
                                           d: nat, other: seq<bool>)
    requires Known(from, to, reached, arrivals, way) && Levels(from, to, reached, way, frontier, next, d)
    requires Avoids(from, other, to == Reset)
    ensures |other| > d || (Walk(from, other) in reached && |way[Walk(from, other)]| <= |other|)
    decreases |other|
  {
    hide Known, Levels, Walk, Avoids;
    StartKnown(from, to, reached, arrivals, way);
    WalkNone(from);
    if other != [] {
      var before, tms := other[..|other| - 1], other[|other| - 1];
      assert other == before + [tms];
      AvoidsMore(from, before, tms, to == Reset);
      WalkMore(from, before, tms);
      MatchedOrLonger(from, to, reached, arrivals, way, frontier, next, d, before);
      if |other| <= d { OneFurther(from, to, reached, way, frontier, next, d, Walk(from, before), tms); }
    }
  }

  lemma StartKnown(from: TapState, to: TapState, reached: set<TapState>, arrivals: map<TapState, Arrival>,
                   way: map<TapState, seq<bool>>)
    requires Known(from, to, reached, arrivals, way)
    ensures from in reached && way.Keys == reached && way[from] == []
  {
  }

  lemma OneFurther(from: TapState, to: TapState, reached: set<TapState>, way: map<TapState, seq<bool>>,
                   frontier: seq<TapState>, next: seq<TapState>, d: nat, s: TapState, tms: bool)
    requires way.Keys == reached && Levels(from, to, reached, way, frontier, next, d)
    requires s in reached && |way[s]| < d && Allowed(Step(s, tms), to)
    ensures Step(s, tms) in reached && |way[Step(s, tms)]| <= |way[s]| + 1
  {
    assert Expanded(s, to, reached, way);
  }

  ghost predicate Closed(reached: set<TapState>, to: TapState)
  {
    forall s, tms :: s in reached && Allowed(Step(s, tms), to) ==> Step(s, tms) in reached
  }

  lemma Onward(s: TapState, tms: bool, t: TapState, reached: set<TapState>, to: TapState)
    requires Closed(reached, to) && s in reached && Step(s, tms) == t && Allowed(t, to)
    ensures t in reached
  {
  }

  /** One column of the graph, from its Select state round to Idle. */
  lemma DownDr(reached: set<TapState>, to: TapState)
    requires Closed(reached, to)
    ensures DrSelect in reached ==> DrCapture in reached
    ensures DrCapture in reached || DrShift in reached ==> DrExit1 in reached
    ensures DrCapture in reached || DrExit2 in reached ==> DrShift in reached
    ensures DrExit1 in reached ==> DrPause in reached
    ensures DrPause in reached ==> DrExit2 in reached
    ensures DrExit1 in reached || DrExit2 in reached ==> DrUpdate in reached
    ensures DrUpdate in reached ==> Idle in reached
  {
    hide Closed;
    if DrSelect in reached { Onward(DrSelect, false, DrCapture, reached, to); }
    if DrCapture in reached { Onward(DrCapture, true, DrExit1, reached, to); Onward(DrCapture, false, DrShift, reached, to); }
    if DrShift in reached { Onward(DrShift, true, DrExit1, reached, to); }
    if DrExit2 in reached { Onward(DrExit2, false, DrShift, reached, to); Onward(DrExit2, true, DrUpdate, reached, to); }
    if DrExit1 in reached { Onward(DrExit1, false, DrPause, reached, to); Onward(DrExit1, true, DrUpdate, reached, to); }
    if DrPause in reached { Onward(DrPause, true, DrExit2, reached, to); }
    if DrUpdate in reached { Onward(DrUpdate, false, Idle, reached, to); }
  }

  lemma DownIr(reached: set<TapState>, to: TapState)
    requires Closed(reached, to)
    ensures IrSelect in reached ==> IrCapture in reached
    ensures IrCapture in reached || IrShift in reached ==> IrExit1 in reached
    ensures IrCapture in reached || IrExit2 in reached ==> IrShift in reached
    ensures IrExit1 in reached ==> IrPause in reached
    ensures IrPause in reached ==> IrExit2 in reached
    ensures IrExit1 in reached || IrExit2 in reached ==> IrUpdate in reached
    ensures IrUpdate in reached ==> Idle in reached
  {
    hide Closed;
    if IrSelect in reached { Onward(IrSelect, false, IrCapture, reached, to); }
    if IrCapture in reached { Onward(IrCapture, true, IrExit1, reached, to); Onward(IrCapture, false, IrShift, reached, to); }
    if IrShift in reached { Onward(IrShift, true, IrExit1, reached, to); }
    if IrExit2 in reached { Onward(IrExit2, false, IrShift, reached, to); Onward(IrExit2, true, IrUpdate, reached, to); }
    if IrExit1 in reached { Onward(IrExit1, false, IrPause, reached, to); Onward(IrExit1, true, IrUpdate, reached, to); }
    if IrPause in reached { Onward(IrPause, true, IrExit2, reached, to); }
    if IrUpdate in reached { Onward(IrUpdate, false, Idle, reached, to); }
  }

  lemma Around(reached: set<TapState>, to: TapState)
    requires Closed(reached, to)
    ensures Reset in reached ==> Idle in reached
    ensures Idle in reached ==> DrSelect in reached && IrSelect in reached && (to == Reset ==> Reset in reached)
  {
    hide Closed;
    if Reset in reached { Onward(Reset, false, Idle, reached, to); }
    if Idle in reached {
      Onward(Idle, true, DrSelect, reached, to);
      Onward(DrSelect, true, IrSelect, reached, to);
      if to == Reset { Onward(IrSelect, true, Reset, reached, to); }
    }
  }

  /** A closed set with any state in it has the target in it. */
  lemma AllReached(from: TapState, to: TapState, reached: set<TapState>)
    requires from in reached && Closed(reached, to)
    ensures to in reached
  {
    hide Closed;
    DownDr(reached, to);
    DownIr(reached, to);
    Around(reached, to);
  }

  /** A new state seen from the head of the frontier. */
  lemma Visited(from: TapState, to: TapState, reached: set<TapState>, arrivals: map<TapState, Arrival>,
                way: map<TapState, seq<bool>>, frontier: seq<TapState>, next: seq<TapState>, d: nat, tms: bool)
    requires Known(from, to, reached, arrivals, way) && Levels(from, to, reached, way, frontier, next, d)
    requires frontier != [] && Step(frontier[0], tms) !in reached && Allowed(Step(frontier[0], tms), to)
    ensures var s, c := frontier[0], Step(frontier[0], tms);
            && s in reached
            && Known(from, to, reached + {c}, arrivals[c := Arrival(s, tms)], way[c := way[s] + [tms]])
            && Levels(from, to, reached + {c}, way[c := way[s] + [tms]], frontier, next + [c], d)
  {
    var s, c := frontier[0], Step(frontier[0], tms);
    WalkMore(from, way[s], tms);
    AvoidsMore(from, way[s], tms, to == Reset);
    VisitedKnown(from, to, reached, arrivals, way, s, tms);
    VisitedLevels(from, to, reached, way, frontier, next, d, tms);
  }

  lemma VisitedKnown(from: TapState, to: TapState, reached: set<TapState>, arrivals: map<TapState, Arrival>,
                     way: map<TapState, seq<bool>>, s: TapState, tms: bool)
    requires Known(from, to, reached, arrivals, way) && s in reached && Step(s, tms) !in reached
    requires Walk(from, way[s] + [tms]) == Step(s, tms) && Avoids(from, way[s] + [tms], to == Reset)
    ensures var c := Step(s, tms);
            Known(from, to, reached + {c}, arrivals[c := Arrival(s, tms)], way[c := way[s] + [tms]])
  {
    hide Walk, Avoids, Step;
  }

  lemma VisitedLevels(from: TapState, to: TapState, reached: set<TapState>, way: map<TapState, seq<bool>>,
                      frontier: seq<TapState>, next: seq<TapState>, d: nat, tms: bool)
    requires way.Keys == reached && Levels(from, to, reached, way, frontier, next, d)
    requires frontier != [] && Step(frontier[0], tms) !in reached
    ensures var s, c := frontier[0], Step(frontier[0], tms);
            s in reached && Levels(from, to, reached + {c}, way[c := way[s] + [tms]], frontier, next + [c], d)
  {
    hide Step, Expanded;
    var s, c := frontier[0], Step(frontier[0], tms);
    var reached', way' := reached + {c}, way[c := way[s] + [tms]];
    assert way'.Keys == reached';
    forall t | t in reached' && t !in frontier && t !in next + [c] ensures Expanded(t, to, reached', way') {
      assert c in next + [c];
      assert t in reached && t !in next;
      StaysExpanded(t, to, reached, way, c, way[s] + [tms]);
    }
  }

  lemma StaysExpanded(t: TapState, to: TapState, reached: set<TapState>, way: map<TapState, seq<bool>>, c: TapState, path: seq<bool>)
    requires way.Keys == reached && t in reached && Expanded(t, to, reached, way) && c !in reached
    ensures Expanded(t, to, reached + {c}, way[c := path])
  {
    hide Step;
  }

  /** Both steps from the head of the frontier have been tried. */
  lemma HeadExpanded(from: TapState, to: TapState, reached: set<TapState>, way: map<TapState, seq<bool>>,
                     frontier: seq<TapState>, next: seq<TapState>, d: nat)
    requires way.Keys == reached && Levels(from, to, reached, way, frontier, next, d) && frontier != []
    requires forall tms :: Allowed(Step(frontier[0], tms), to) ==> Step(frontier[0], tms) in reached
    ensures Levels(from, to, reached, way, frontier[1..], next, d)
  {
    hide Step;
    assert frontier[0] in frontier;
    assert Expanded(frontier[0], to, reached, way);
    assert forall t :: t in frontier <==> t == frontier[0] || t in frontier[1..];
  }

  lemma NextLevel(from: TapState, to: TapState, reached: set<TapState>, way: map<TapState, seq<bool>>,
                  next: seq<TapState>, d: nat)
    requires way.Keys == reached && Levels(from, to, reached, way, [], next, d)
    ensures Levels(from, to, reached, way, next, [], d + 1)
  {
    hide Step, Expanded;
  }

  /** A target found at the next level is as near as it can be. */
  lemma FoundIsShortest(from: TapState, to: TapState, reached: set<TapState>, arrivals: map<TapState, Arrival>,
                        way: map<TapState, seq<bool>>, frontier: seq<TapState>, next: seq<TapState>, d: nat, path: seq<bool>)
    requires Known(from, to, reached, arrivals, way) && Levels(from, to, reached, way, frontier, next, d)
    requires to !in reached && Walk(from, path) == to && Avoids(from, path, to == Reset) && |path| == d + 1
    ensures Shortest(from, to, path)
  {
    forall other | Walk(from, other) == to && Avoids(from, other, to == Reset) ensures |path| <= |other| {
      MatchedOrLonger(from, to, reached, arrivals, way, frontier, next, d, other);
    }
  }

  lemma ExhaustedIsClosed(from: TapState, to: TapState, reached: set<TapState>, way: map<TapState, seq<bool>>, d: nat)
    requires way.Keys == reached && Levels(from, to, reached, way, [], [], d)
    ensures Closed(reached, to)
  {
    hide Step;
    forall s, tms | s in reached && Allowed(Step(s, tms), to) ensures Step(s, tms) in reached {
      assert Expanded(s, to, reached, way);
    }
  }

  function Backwards(s: seq<bool>): (r: seq<bool>)
    ensures |r| == |s|
  {
    if s == [] then [] else [s[|s| - 1]] + Backwards(s[..|s| - 1])
  }

  /** From the target back along the arrivals. */
  method Retrace(from: TapState, to: TapState, arrivals: map<TapState, Arrival>,
                 ghost reached: set<TapState>, ghost way: map<TapState, seq<bool>>) returns (path: seq<bool>)
    requires Known(from, to, reached, arrivals, way) && to in reached
    ensures path == way[to]
  {
    hide Known, Backwards, Walk, Avoids;
    path := [];
    var walk := to;
    KeysAre(from, to, reached, arrivals, way);
    assert Backwards([]) == [];
    while walk != from
      invariant walk in reached && way.Keys == reached && way[from] == []
      invariant way[to] == way[walk] + Backwards(path)
      decreases |way[walk]|
    {
      OneBack(from, to, reached, arrivals, way, walk);
      var a := arrivals[walk];
      BackwardsMore(path, a.onOne);
      assert way[walk] + Backwards(path) == way[a.cameFrom] + ([a.onOne] + Backwards(path));
      path := path + [a.onOne];
      walk := a.cameFrom;
    }
    path := Backwards(path);
  }

  lemma KeysAre(from: TapState, to: TapState, reached: set<TapState>, arrivals: map<TapState, Arrival>,
                way: map<TapState, seq<bool>>)
    requires Known(from, to, reached, arrivals, way)
    ensures way.Keys == reached && from in reached && way[from] == []
  {
  }

  lemma OneBack(from: TapState, to: TapState, reached: set<TapState>, arrivals: map<TapState, Arrival>,
                way: map<TapState, seq<bool>>, s: TapState)
    requires Known(from, to, reached, arrivals, way) && s in reached && s != from
    ensures s in arrivals && s in way && arrivals[s].cameFrom in way && arrivals[s].cameFrom in reached
    ensures way[s] == way[arrivals[s].cameFrom] + [arrivals[s].onOne]
  {
  }

  lemma BackwardsMore(path: seq<bool>, tms: bool)
    ensures Backwards(path + [tms]) == [tms] + Backwards(path)
    ensures Backwards([]) == []
  {
    assert (path + [tms])[..|path|] == path;
  }

  /** One look along one edge. */
  method Visit(from: TapState, to: TapState, state: TapState, tms: bool,
               reached: set<TapState>, arrivals: map<TapState, Arrival>, next: seq<TapState>,
               ghost way: map<TapState, seq<bool>>, ghost frontier: seq<TapState>, ghost d: nat)
    returns (reached': set<TapState>, arrivals': map<TapState, Arrival>, next': seq<TapState>, ghost way': map<TapState, seq<bool>>)
    requires Known(from, to, reached, arrivals, way) && Levels(from, to, reached, way, frontier, next, d)
    requires frontier != [] && state == frontier[0] && to !in reached
    ensures Known(from, to, reached', arrivals', way') && Levels(from, to, reached', way', frontier, next', d)
    ensures Allowed(Step(state, tms), to) ==> Step(state, tms) in reached'
    ensures reached <= reached' && (to in reached' ==> Step(state, tms) == to && Shortest(from, to, way'[to]))
    ensures if reached' == reached then next' == next else next' != []
  {
    reached', arrivals', next', way' := reached, arrivals, next, way;
    var candidate := Step(state, tms);
    if candidate in reached || (candidate == Reset && to != Reset) {
      return;
    }
    Visited(from, to, reached, arrivals, way, frontier, next, d, tms);
    reached', arrivals', next' := reached + {candidate}, arrivals[candidate := Arrival(state, tms)], next + [candidate];
    way' := way[candidate := way[state] + [tms]];
    if candidate == to { FoundIsShortest(from, to, reached, arrivals, way, frontier, next, d, way'[to]); }
  }

  /** The shortest run of TMS values that walks from one state to another. */
  method PathBetween(from: TapState, to: TapState) returns (path: seq<bool>)
    ensures Shortest(from, to, path)
    ensures path == [] <==> from == to
  {
    hide Known, Levels, Shortest, Walk, Avoids, Step, Closed;
    if from == to {
      StayingIsShortest(from);
      return [];
    }
    var reached, arrivals := {from}, map[];
    ghost var way: map<TapState, seq<bool>> := map[from := []];
    var frontier := [from];
    ghost var d := 0;
    SearchBegins(from, to);
    forall s: TapState ensures s in Everything() { EveryState(s); }
    while frontier != []
      invariant Known(from, to, reached, arrivals, way) && way.Keys == reached && Levels(from, to, reached, way, frontier, [], d)
      invariant to !in reached && from in reached
      decreases Everything() - reached, |frontier|
    {
      var next;
      reached, arrivals, next, way := Expand(from, to, frontier, reached, arrivals, way, d);
      if to in reached {
        path := Retrace(from, to, arrivals, reached, way);
        ShortestNotEmpty(from, to, path);
        return;
      }
      frontier := next;
      d := d + 1;
    }
    ExhaustedIsClosed(from, to, reached, way, d);
    AllReached(from, to, reached);
    assert false;
  }

  /** One level of the search: every state of the frontier looked along both ways. */
  method Expand(from: TapState, to: TapState, frontier: seq<TapState>,
                reached: set<TapState>, arrivals: map<TapState, Arrival>, ghost way: map<TapState, seq<bool>>, ghost d: nat)
    returns (reached': set<TapState>, arrivals': map<TapState, Arrival>, next: seq<TapState>, ghost way': map<TapState, seq<bool>>)
    requires Known(from, to, reached, arrivals, way) && way.Keys == reached && Levels(from, to, reached, way, frontier, [], d)
    requires to !in reached && from in reached
    ensures Known(from, to, reached', arrivals', way') && way'.Keys == reached' && from in reached'
    ensures to in reached' ==> Shortest(from, to, way'[to])
    ensures to !in reached' ==> Levels(from, to, reached', way', next, [], d + 1)
    ensures if next == [] then reached' == reached else reached < reached'
  {
    hide Known, Levels, Shortest, Walk, Avoids, Step;
    reached', arrivals', next, way' := reached, arrivals, [], way;
    var i := 0;
    while i < |frontier|
      invariant 0 <= i <= |frontier|
      invariant Known(from, to, reached', arrivals', way') && way'.Keys == reached' && from in reached'
      invariant Levels(from, to, reached', way', frontier[i..], next, d) && to !in reached'
      invariant if next == [] then reached' == reached else reached < reached'
    {
      ghost var rest := frontier[i..];
      var state := frontier[i];
      reached', arrivals', next, way' := Visit(from, to, state, false, reached', arrivals', next, way', rest, d);
      KeysAre(from, to, reached', arrivals', way');
      if to in reached' { return; }
      reached', arrivals', next, way' := Visit(from, to, state, true, reached', arrivals', next, way', rest, d);
      KeysAre(from, to, reached', arrivals', way');
      if to in reached' { return; }
      HeadExpanded(from, to, reached', way', rest, next, d);
      assert rest[1..] == frontier[i + 1..];
      i := i + 1;
    }
    assert frontier[i..] == [];
    NextLevel(from, to, reached', way', next, d);
  }

  lemma EveryState(s: TapState)
    ensures s in Everything()
  {
    if !(s.Reset? || s.Idle? || s.DrSelect? || s.DrCapture? || s.DrShift? || s.DrExit1? || s.DrPause? || s.DrExit2?) {
      assert s.DrUpdate? || s.IrSelect? || s.IrCapture? || s.IrShift? || s.IrExit1? || s.IrPause? || s.IrExit2? || s.IrUpdate?;
    }
  }

  ghost function Everything(): set<TapState>
  {
    {Reset, Idle, DrSelect, DrCapture, DrShift, DrExit1, DrPause, DrExit2, DrUpdate,
     IrSelect, IrCapture, IrShift, IrExit1, IrPause, IrExit2, IrUpdate}
  }

  lemma SearchBegins(from: TapState, to: TapState)
    requires from != to
    ensures Known(from, to, {from}, map[], map[from := []]) && Levels(from, to, {from}, map[from := []], [from], [], 0)
  {
  }

  lemma StayingIsShortest(s: TapState)
    ensures Shortest(s, s, [])
  {
  }

  lemma ShortestNotEmpty(from: TapState, to: TapState, path: seq<bool>)
    requires from != to && Shortest(from, to, path)
    ensures path != []
  {
  }
}
