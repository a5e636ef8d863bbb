/** The graph-runner pool of app/app.py and its runners in src/uk_rent_agent/agent/execution.py: a state machine
    over the lock-protected sections, interleaved in any order. */
module RunnerPool {
  import opened Wrappers

  type Rid = nat
  type Gid = nat

  const CAPACITY: nat := 2

  /** `current`, `graph` and `pool` are the module globals; `runnerGraph`, `quarantined` and `bound` are fields of
      runners and graphs. `probes` are heartbeats queued on a quarantined loop, `callbacks` recoveries not yet
      reported, `rotations` time-outs between flagging the runner and taking the locks. `builtOn` and `submitted`
      record what happened. */
  datatype State = State(
    current: Option<Rid>, pool: seq<Rid>, graph: Option<Gid>,
    runnerGraph: map<Rid, Gid>, quarantined: set<Rid>, bound: map<Gid, Rid>,
    runners: nat, graphs: nat,
    probes: set<Rid>, callbacks: multiset<Rid>, rotations: multiset<Rid>,
    builtOn: map<Gid, Rid>, submitted: seq<(Option<Gid>, Rid)>)

  const INITIAL := State(Some(0), [0], None, map[], {}, map[], 1, 0, {}, multiset{}, multiset{}, map[], [])

  /** The sections. A submit may come from any caller with any graph it once obtained, or with one that carries no
      runner. */
  datatype Event =
    | EnsureRuntime
    | Submit(g: Option<Gid>)
    | Quarantine(r: Rid)
    | Rotate(r: Rid)
    | Heartbeat(r: Rid)
    | ProbeFails(r: Rid)
    | Recovered(r: Rid)

  function Lookup(m: map<nat, nat>, k: nat): Option<nat> {
    if k in m then Some(m[k]) else None
  }

  /** The first available runner other than `r`. */
  function Standby(pool: seq<Rid>, quarantined: set<Rid>, r: Rid): Option<Rid> {
    if pool == [] then None
    else if pool[0] != r && pool[0] !in quarantined then Some(pool[0])
    else Standby(pool[1..], quarantined, r)
  }

  function Publish(s: State, r: Option<Rid>): State {
    s.(current := r, graph := if r.Some? then Lookup(s.runnerGraph, r.value) else None)
  }

  /** The runner a submit goes to: the graph's own, or for a graph without one the current. */
  function Target(s: State, g: Option<Gid>): Option<Rid> {
    if g.None? then s.current else Lookup(s.bound, g.value)
  }

  function Ensured(s: State): State {
    if s.current.None? || s.current.value in s.quarantined then s
    else if s.graph.Some? && Lookup(s.bound, s.graph.value) == s.current then s
    else
      var r, g := s.current.value, s.graphs;
      s.(bound := s.bound[g := r], runnerGraph := s.runnerGraph[r := g], graph := Some(g), graphs := g + 1,
         builtOn := s.builtOn[g := r])
  }

  function Rotated(s: State, r: Rid): State {
    if r !in s.rotations then s
    else
      var t := s.(rotations := s.rotations - multiset{r});
      if s.current != Some(r) then t
      else
        var standby := Standby(s.pool, s.quarantined, r);
        if standby.Some? then Publish(t, standby)
        else if |s.pool| < CAPACITY then
          Publish(t.(pool := s.pool + [s.runners], runners := s.runners + 1), Some(s.runners))
        else Publish(t, None)
  }

  function Step(s: State, e: Event): State {
    match e
    case EnsureRuntime => Ensured(s)
    case Submit(g) =>
      var target := Target(s, g);
      if target.None? || target.value in s.quarantined then s
      else s.(submitted := s.submitted + [(g, target.value)])
    case Quarantine(r) =>
      if r !in s.pool || r in s.quarantined then s
      else s.(quarantined := s.quarantined + {r}, probes := s.probes + {r}, rotations := s.rotations + multiset{r})
    case Rotate(r) => Rotated(s, r)
    case Heartbeat(r) =>
      if r !in s.probes then s
      else s.(probes := s.probes - {r}, quarantined := s.quarantined - {r}, callbacks := s.callbacks + multiset{r})
    case ProbeFails(r) => s.(probes := s.probes - {r})
    case Recovered(r) =>
      if r !in s.callbacks then s
      else
        var t := s.(callbacks := s.callbacks - multiset{r});
        if s.current.None? then Publish(t, Some(r)) else t
  }

  function Run(events: seq<Event>): State {
    if events == [] then INITIAL else Step(Run(events[..|events| - 1]), events[|events| - 1])
  }

  /* --- the sections as code --- */

  class Runtime {
    var current: Option<Rid>
    var pool: seq<Rid>
    var graph: Option<Gid>
    var runnerGraph: map<Rid, Gid>
    var quarantined: set<Rid>
    var bound: map<Gid, Rid>
    var runners: nat
    var graphs: nat
    ghost var probes: set<Rid>
    ghost var callbacks: multiset<Rid>
    ghost var rotations: multiset<Rid>
    ghost var builtOn: map<Gid, Rid>
    ghost var submitted: seq<(Option<Gid>, Rid)>

    constructor ()
      ensures Snapshot() == INITIAL
    {
      current, pool, graph := Some(0), [0], None;
      runnerGraph, quarantined, bound, runners, graphs := map[], {}, map[], 1, 0;
      probes, callbacks, rotations, builtOn, submitted := {}, multiset{}, multiset{}, map[], [];
    }

    ghost function Snapshot(): State
      reads this
    {
      State(current, pool, graph, runnerGraph, quarantined, bound, runners, graphs, probes, callbacks, rotations,
            builtOn, submitted)
    }

    /** `_ensure_agent_runtime`; no result is the capacity error. */
    method EnsureAgentRuntime() returns (g: Option<Gid>)
      modifies this
      ensures Snapshot() == Step(old(Snapshot()), EnsureRuntime)
      ensures g == if old(current).Some? && old(current).value !in old(quarantined) then graph else None
      ensures g.Some? ==> g.value in bound && Some(bound[g.value]) == current
    {
      if current.None? || current.value in quarantined { return None; }
      var runner := current.value;
      if graph.Some? && Lookup(bound, graph.value) == Some(runner) { return graph; }
      var candidate := graphs;
      graphs := graphs + 1;
      bound := bound[candidate := runner];
      builtOn := builtOn[candidate := runner];
      runnerGraph := runnerGraph[runner := candidate];
      graph := Some(candidate);
      return graph;
    }

    /** The dispatch part of `_ainvoke_graph_with_timeout`; no result is an error before the loop. */
    method Dispatch(g: Option<Gid>) returns (runner: Option<Rid>)
      modifies this
      ensures Snapshot() == Step(old(Snapshot()), Submit(g))
      ensures runner.Some? <==> submitted != old(submitted)
      ensures runner.Some? ==> submitted == old(submitted) + [(g, runner.value)]
    {
      runner := if g.None? then current else Lookup(bound, g.value);
      if runner.None? || runner.value in quarantined { return None; }
      submitted := submitted + [(g, runner.value)];
    }

    /** `GraphLoopRunner.quarantine`, up to queueing its probe. */
    method FlagRunner(r: Rid) returns (flagged: bool)
      requires r in pool
      modifies this
      ensures Snapshot() == Step(old(Snapshot()), Quarantine(r))
      ensures flagged <==> r !in old(quarantined)
    {
      if r in quarantined { return false; }
      quarantined, probes, rotations := quarantined + {r}, probes + {r}, rotations + multiset{r};
      return true;
    }

    /** The locked part of `_quarantine_graph_runner`, after `FlagRunner` returned true. */
    method RotateFrom(r: Rid)
      requires r in rotations
      modifies `rotations, `current, `graph, `pool, `runners
      ensures Snapshot() == Rotated(old(Snapshot()), r)
    {
      hide Standby, Lookup, Publish;
      ghost var s := Snapshot();
      var standby := FindStandby(r);
      rotations := rotations - multiset{r};
      ghost var t := s.(rotations := s.rotations - multiset{r});
      assert Snapshot() == t;
      if current != Some(r) { return; }
      ghost var grown := standby.None? && |pool| < CAPACITY;
      if standby.None? && |pool| < CAPACITY {
        standby := Some(runners);
        pool, runners := pool + [runners], runners + 1;
      }
      assert Snapshot() == if grown then t.(pool := s.pool + [s.runners], runners := s.runners + 1) else t;
      PublishRunner(standby);
    }

    /** The two assignments that make a runner, or none, the published one. */
    method PublishRunner(r: Option<Rid>)
      modifies `current, `graph
      ensures Snapshot() == Publish(old(Snapshot()), r)
    {
      current := r;
      graph := if r.Some? then Lookup(runnerGraph, r.value) else None;
    }

    method FindStandby(r: Rid) returns (standby: Option<Rid>)
      ensures standby == Standby(pool, quarantined, r)
    {
      var i := 0;
      while i < |pool|
        invariant 0 <= i <= |pool|
        invariant Standby(pool, quarantined, r) == Standby(pool[i..], quarantined, r)
      {
        if pool[i] != r && pool[i] !in quarantined { return Some(pool[i]); }
        i := i + 1;
      }
      return None;
    }

    /** `_on_graph_runner_recovered`, for a recovery whose flag is cleared. */
    method OnGraphRunnerRecovered(r: Rid)
      requires r in callbacks
      modifies this
      ensures Snapshot() == Step(old(Snapshot()), Recovered(r))
    {
      callbacks := callbacks - multiset{r};
      if current.None? { PublishRunner(Some(r)); }
    }
  }

  /* --- what every interleaving keeps --- */

  ghost predicate PoolOk(s: State) {
    && 1 <= |s.pool| == s.runners <= CAPACITY
    && (forall i :: 0 <= i < |s.pool| ==> s.pool[i] == i)
    && (s.current.Some? ==> s.current.value in s.pool)
    && (forall r :: r in s.rotations || r in s.callbacks || r in s.probes || r in s.quarantined ==> r in s.pool)
  }

  /** A runner's graph is bound to it and is its only one, and the published graph is the current runner's. */
  ghost predicate GraphsOk(s: State) {
    && BoundToRunners(s.runnerGraph, s.bound, s.pool)
    && s.graph == (if s.current.Some? then Lookup(s.runnerGraph, s.current.value) else None)
    && (forall g: Gid :: g in s.bound <==> g < s.graphs)
    && s.graphs == |s.runnerGraph|
    && s.bound == s.builtOn
  }

  /** Every submitted graph went to the runner it was built on. */
  ghost predicate SubmittedOk(s: State) {
    forall i :: 0 <= i < |s.submitted| && s.submitted[i].0.Some? ==>
      Lookup(s.builtOn, s.submitted[i].0.value) == Some(s.submitted[i].1)
  }

  lemma {:induction false} StandbyExact(pool: seq<Rid>, quarantined: set<Rid>, r: Rid)
    ensures Standby(pool, quarantined, r).None? <==> forall x :: x in pool && x != r ==> x in quarantined
    ensures Standby(pool, quarantined, r).Some? ==>
              var x := Standby(pool, quarantined, r).value; x in pool && x != r && x !in quarantined
  {
    if pool != [] {
      StandbyExact(pool[1..], quarantined, r);
      assert pool == [pool[0]] + pool[1..];
    }
  }

  lemma PublishedPool(s: State, r: Option<Rid>)
    requires PoolOk(s) && (r.Some? ==> r.value in s.pool)
    ensures PoolOk(Publish(s, r))
  {
  }

  lemma GrownPool(s: State)
    requires PoolOk(s) && |s.pool| < CAPACITY
    ensures PoolOk(Publish(s.(pool := s.pool + [s.runners], runners := s.runners + 1), Some(s.runners)))
  {
    var grown := s.pool + [s.runners];
    assert grown[|s.pool|] == s.runners;
    assert forall x :: x in s.pool ==> x in grown;
  }

  lemma DroppedRotation(s: State, r: Rid)
    requires PoolOk(s)
    ensures PoolOk(s.(rotations := s.rotations - multiset{r}))
  {
  }

  lemma {:induction false} RotatedPool(s: State, r: Rid)
    requires PoolOk(s)
    ensures PoolOk(Rotated(s, r))
  {
    hide Standby, PoolOk, Publish;
    var t := s.(rotations := s.rotations - multiset{r});
    var standby := Standby(s.pool, s.quarantined, r);
    DroppedRotation(s, r);
    StandbyExact(s.pool, s.quarantined, r);
    if standby.None? && |s.pool| < CAPACITY { GrownPool(t); } else { PublishedPool(t, standby); }
  }

  lemma EnsuredPool(s: State)
    requires PoolOk(s)
    ensures PoolOk(Ensured(s))
  {
    hide Lookup;
  }

  lemma QuarantinedPool(s: State, r: Rid)
    requires PoolOk(s)
    ensures PoolOk(Step(s, Quarantine(r)))
  {
  }

  lemma ReleasedPool(s: State, r: Rid)
    requires PoolOk(s)
    ensures PoolOk(Step(s, Heartbeat(r))) && PoolOk(Step(s, ProbeFails(r)))
  {
  }

  lemma RecoveredPool(s: State, r: Rid)
    requires PoolOk(s)
    ensures PoolOk(Step(s, Recovered(r)))
  {
    hide Lookup;
  }

  lemma SubmittedPool(s: State, g: Option<Gid>)
    requires PoolOk(s)
    ensures PoolOk(Step(s, Submit(g)))
  {
    hide Lookup;
  }

  lemma {:induction false} StepPool(s: State, e: Event)
    requires PoolOk(s)
    ensures PoolOk(Step(s, e))
  {
    hide PoolOk, Rotated, Ensured;
    match e
    case EnsureRuntime => EnsuredPool(s);
    case Submit(g) => SubmittedPool(s, g);
    case Quarantine(r) => QuarantinedPool(s, r);
    case Rotate(r) => RotatedPool(s, r);
    case Heartbeat(r) => ReleasedPool(s, r);
    case ProbeFails(r) => ReleasedPool(s, r);
    case Recovered(r) => RecoveredPool(s, r);
  }

  ghost predicate BoundToRunners(runnerGraph: map<Rid, Gid>, bound: map<Gid, Rid>, pool: seq<Rid>) {
    forall r :: r in runnerGraph ==> r in pool && Lookup(bound, runnerGraph[r]) == Some(r)
  }

  lemma BindNew(runnerGraph: map<Rid, Gid>, bound: map<Gid, Rid>, pool: seq<Rid>, r: Rid, g: Gid)
    requires BoundToRunners(runnerGraph, bound, pool) && r in pool && g !in bound
    ensures BoundToRunners(runnerGraph[r := g], bound[g := r], pool)
  {
  }

  lemma {:induction false} NoGraphYet(s: State)
    requires PoolOk(s) && GraphsOk(s) && s.current.Some? && Ensured(s) != s
    ensures s.current.value in s.pool && s.current.value !in s.runnerGraph && s.graphs !in s.bound
  {
  }

  lemma {:induction false} EnsuredGraphs(s: State)
    requires PoolOk(s) && GraphsOk(s)
    ensures GraphsOk(Ensured(s))
  {
    hide PoolOk, BoundToRunners;
    if s.current.Some? && Ensured(s) != s {
      NoGraphYet(s);
      BindNew(s.runnerGraph, s.bound, s.pool, s.current.value, s.graphs);
      NewKey(s.runnerGraph, s.current.value, s.graphs);
    }
  }

  lemma NewKey(m: map<nat, nat>, k: nat, v: nat)
    requires k !in m
    ensures |m[k := v]| == |m| + 1
  {
    assert m[k := v].Keys == m.Keys + {k};
    assert |m[k := v]| == |m[k := v].Keys| && |m| == |m.Keys|;
  }

  lemma PublishedGraphs(s: State, r: Rid)
    requires GraphsOk(s)
    ensures GraphsOk(Publish(s, Some(r))) && GraphsOk(Publish(s, None))
  {
  }

  lemma DroppedGraphs(s: State, r: Rid)
    requires GraphsOk(s)
    ensures GraphsOk(s.(rotations := s.rotations - multiset{r}))
  {
    hide Lookup, BoundToRunners;
  }

  lemma GrownGraphs(s: State)
    requires GraphsOk(s)
    ensures GraphsOk(s.(pool := s.pool + [s.runners], runners := s.runners + 1))
  {
    assert forall x :: x in s.pool ==> x in s.pool + [s.runners];
  }

  lemma {:induction false} RotatedGraphs(s: State, r: Rid)
    requires GraphsOk(s)
    ensures GraphsOk(Rotated(s, r))
  {
    hide Standby, Publish, GraphsOk;
    var t := s.(rotations := s.rotations - multiset{r});
    DroppedGraphs(s, r);
    var standby := Standby(s.pool, s.quarantined, r);
    GrownGraphs(t);
    PublishedGraphs(t, if standby.Some? then standby.value else r);
    PublishedGraphs(t.(pool := s.pool + [s.runners], runners := s.runners + 1), s.runners);
  }

  lemma {:induction false} StepGraphs(s: State, e: Event)
    requires PoolOk(s) && GraphsOk(s)
    ensures GraphsOk(Step(s, e))
  {
    hide Standby, Rotated, Ensured;
    if e.EnsureRuntime? { EnsuredGraphs(s); }
    if e.Rotate? { RotatedGraphs(s, e.r); }
  }

  lemma {:induction false} StepSubmitted(s: State, e: Event)
    requires GraphsOk(s) && SubmittedOk(s)
    ensures SubmittedOk(Step(s, e))
  {
    hide Standby;
  }

  /** In every interleaving: at most two runners and two graphs ever exist, the published graph is bound to the
      published runner, and every submitted graph went to the runner it was built on, stale callers included. */
  lemma {:induction false} EveryInterleaving(events: seq<Event>)
    ensures var s := Run(events); PoolOk(s) && GraphsOk(s) && SubmittedOk(s)
    ensures |Run(events).pool| <= 2 && Run(events).graphs <= 2
    ensures forall g, r :: (Some(g), r) in Run(events).submitted ==>
              g in Run(events).builtOn && Run(events).builtOn[g] == r
  {
    hide Step;
    if events != [] {
      var s, e := Run(events[..|events| - 1]), events[|events| - 1];
      EveryInterleaving(events[..|events| - 1]);
      StepPool(s, e);
      StepGraphs(s, e);
      StepSubmitted(s, e);
    } else {
      InitialOk();
    }
    GraphsBounded(Run(events));
    BuiltWhereSubmitted(Run(events));
  }

  lemma BuiltWhereSubmitted(s: State)
    requires SubmittedOk(s)
    ensures forall g, r :: (Some(g), r) in s.submitted ==> g in s.builtOn && s.builtOn[g] == r
  {
    forall g, r | (Some(g), r) in s.submitted ensures g in s.builtOn && s.builtOn[g] == r {
      var i :| 0 <= i < |s.submitted| && s.submitted[i] == (Some(g), r);
      assert s.submitted[i].0.Some?;
    }
  }

  lemma InitialOk()
    ensures PoolOk(INITIAL) && GraphsOk(INITIAL) && SubmittedOk(INITIAL)
  {
  }

  lemma {:induction false} GraphsBounded(s: State)
    requires PoolOk(s) && GraphsOk(s)
    ensures s.graphs <= CAPACITY
  {
    var keys: set<nat> := s.runnerGraph.Keys;
    assert forall r :: r in keys ==> r in s.pool;
    assert keys <= {0, 1};
    Subset(keys, {0, 1});
    assert |s.runnerGraph| == |keys|;
  }

  lemma {:induction false} Subset(a: set<nat>, b: set<nat>)
    requires a <= b
    ensures |a| <= |b|
  {
    if a != {} {
      var x :| x in a;
      Subset(a - {x}, b - {x});
    }
  }

  /* --- quarantine --- */

  /** A quarantine starts at a runner of the pool, with a probe and a rotation, and is ended by that probe alone. */
  lemma QuarantineExact(s: State, e: Event, r: Rid)
    ensures r !in s.quarantined ==> (r in Step(s, e).quarantined <==> e == Quarantine(r) && r in s.pool)
    ensures r in s.quarantined ==> (r !in Step(s, e).quarantined <==> e == Heartbeat(r) && r in s.probes)
    ensures r !in s.quarantined && r in Step(s, e).quarantined ==>
              r in Step(s, e).probes && Step(s, e).rotations == s.rotations + multiset{r}
    ensures r in s.quarantined && r !in Step(s, e).quarantined ==>
              r !in Step(s, e).probes && Step(s, e).callbacks == s.callbacks + multiset{r}
  {
    hide Standby, Lookup;
  }

  function RunFrom(s: State, events: seq<Event>): State {
    if events == [] then s else Step(RunFrom(s, events[..|events| - 1]), events[|events| - 1])
  }

  lemma LostProbeStays(s: State, e: Event, r: Rid)
    requires r in s.quarantined && r !in s.probes
    ensures var t := Step(s, e);
            && r in t.quarantined && r !in t.probes
            && (t.submitted == s.submitted || exists g, q :: t.submitted == s.submitted + [(g, q)] && q != r)
  {
    hide Standby, Lookup, Target;
  }

  /** A quarantined runner whose probe has failed is never released and gets no more work. */
  lemma {:induction false} LostProbeIsForever(s: State, events: seq<Event>, r: Rid)
    requires r in s.quarantined
    ensures var t := RunFrom(Step(s, ProbeFails(r)), events);
            && r in t.quarantined && r !in t.probes
            && |s.submitted| <= |t.submitted| && forall i :: |s.submitted| <= i < |t.submitted| ==> t.submitted[i].1 != r
  {
    assert Step(s, ProbeFails(r)) == s.(probes := s.probes - {r});
    hide Step;
    if events != [] {
      LostProbeIsForever(s, events[..|events| - 1], r);
      LostProbeStays(RunFrom(Step(s, ProbeFails(r)), events[..|events| - 1]), events[|events| - 1], r);
    }
  }

  /* --- lost capacity --- */

  /** Nothing is published although a runner is healthy and no recovery is left to publish it. */
  ghost predicate Stranded(s: State) {
    s.current.None? && exists r :: r in s.pool && r !in s.quarantined && r !in s.callbacks
  }

  lemma RotationStrands(s: State, r: Rid)
    requires PoolOk(s) && !Stranded(s)
    ensures Stranded(Rotated(s, r)) <==>
              && r in s.rotations && s.current == Some(r) && r !in s.quarantined && r !in s.callbacks
              && |s.pool| == CAPACITY && forall x :: x in s.pool && x != r ==> x in s.quarantined
  {
    hide Standby;
    StandbyExact(s.pool, s.quarantined, r);
    var t := Rotated(s, r);
    assert forall x :: x in s.pool ==> x in t.pool;
  }

  lemma OthersKeep(s: State, e: Event)
    requires PoolOk(s) && !Stranded(s) && !e.Rotate?
    ensures !Stranded(Step(s, e))
  {
    hide Standby, Rotated;
    var t := Step(s, e);
    assert forall r :: r in s.pool ==> r in t.pool;
    if e.Heartbeat? {
      assert forall r :: r in t.pool && r !in t.quarantined && r !in t.callbacks ==> r !in s.quarantined && r !in s.callbacks;
    }
  }

  /** The pool gets stranded exactly when a rotation runs for a published runner that has already recovered and
      reported, while the other runner of a full pool is quarantined. */
  lemma {:induction false} StrandedExactly(s: State, e: Event)
    requires PoolOk(s) && !Stranded(s)
    ensures Stranded(Step(s, e)) <==>
              && e.Rotate? && e.r in s.rotations && s.current == Some(e.r)
              && e.r !in s.quarantined && e.r !in s.callbacks
              && |s.pool| == CAPACITY && forall x :: x in s.pool && x != e.r ==> x in s.quarantined
  {
    hide Standby, Rotated;
    if e.Rotate? { RotationStrands(s, e.r); } else { OthersKeep(s, e); }
  }

  /** Every quarantine follows the time-out of a graph submitted to that runner, as in the code. */
  ghost predicate FollowsTimeouts(events: seq<Event>) {
    forall k :: 0 <= k < |events| && events[k].Quarantine? ==>
      exists g :: (g, events[k].r) in Run(events[..k]).submitted
  }

  const STRANDING: seq<Event> := [
    EnsureRuntime, Submit(Some(0)), Quarantine(0), Rotate(0),
    EnsureRuntime, Submit(Some(1)), Quarantine(1), Heartbeat(1), Recovered(1), Rotate(1)]

  /** A graph has been submitted to the first runner. */
  const FIRST := INITIAL.(
    graph := Some(0), runnerGraph := map[0 := 0], bound := map[0 := 0], graphs := 1, builtOn := map[0 := 0],
    submitted := [(Some(0), 0)])

  /** It has timed out, and the second runner is published. */
  const ROTATED := FIRST.(
    current := Some(1), pool := [0, 1], graph := None, runners := 2, quarantined := {0}, probes := {0})

  /** A graph has been submitted to the second runner. */
  const SECOND := ROTATED.(
    graph := Some(1), runnerGraph := map[0 := 0, 1 := 1], bound := map[0 := 0, 1 := 1], graphs := 2,
    builtOn := map[0 := 0, 1 := 1], submitted := [(Some(0), 0), (Some(1), 1)])

  lemma FirstSubmitted()
    ensures Step(Step(INITIAL, EnsureRuntime), Submit(Some(0))) == FIRST
  {
  }

  lemma FirstRotated()
    ensures Step(Step(FIRST, Quarantine(0)), Rotate(0)) == ROTATED
  {
    var s := Step(FIRST, Quarantine(0));
    StandbyExact(s.pool, s.quarantined, 0);
    assert s.rotations - multiset{0} == multiset{};
  }

  lemma SecondSubmitted()
    ensures Step(Step(ROTATED, EnsureRuntime), Submit(Some(1))) == SECOND
  {
    hide Rotated;
    var s := Step(ROTATED, EnsureRuntime);
    assert s.graph == Some(1) && s.graphs == 2 && s.submitted == [(Some(0), 0)];
  }

  lemma LateRecovery()
    ensures Step(Step(Step(SECOND, Quarantine(1)), Heartbeat(1)), Recovered(1)) == SECOND.(rotations := multiset{1})
  {
    var t := Step(SECOND, Quarantine(1));
    assert t == SECOND.(quarantined := {0, 1}, probes := {0, 1}, rotations := multiset{1});
    var u := Step(t, Heartbeat(1));
    assert u == SECOND.(rotations := multiset{1}, callbacks := multiset{1});
    assert multiset{1} - multiset{1} == multiset{};
  }

  lemma LostRunner()
    ensures var t := Step(SECOND.(rotations := multiset{1}), Rotate(1)); Stranded(t) && Step(t, EnsureRuntime) == t
  {
    StandbyExact([0, 1], {0}, 1);
    hide Standby;
    var t := Step(SECOND.(rotations := multiset{1}), Rotate(1));
    assert 1 in t.pool && 1 !in t.quarantined && 1 !in t.callbacks;
  }

  lemma StrandingSteps()
    ensures Run(STRANDING[..2]) == Step(Step(INITIAL, EnsureRuntime), Submit(Some(0)))
    ensures Run(STRANDING[..4]) == Step(Step(Run(STRANDING[..2]), Quarantine(0)), Rotate(0))
    ensures Run(STRANDING[..6]) == Step(Step(Run(STRANDING[..4]), EnsureRuntime), Submit(Some(1)))
    ensures Run(STRANDING) ==
            Step(Step(Step(Step(Run(STRANDING[..6]), Quarantine(1)), Heartbeat(1)), Recovered(1)), Rotate(1))
  {
    RunNone();
    hide Run, Step;
    RunAt(0);
    RunAt(1);
    RunAt(2);
    RunAt(3);
    RunAt(4);
    RunAt(5);
    RunAt(6);
    RunAt(7);
    RunAt(8);
    RunAt(9);
    assert STRANDING[..10] == STRANDING;
  }

  /** It happens: a graph times out on each runner in turn, and the second runner answers its heartbeat before its own
      rotation has taken the locks. No caller gets a graph any more although that runner is healthy. */
  lemma StrandingRun()
    ensures FollowsTimeouts(STRANDING)
    ensures var s := Run(STRANDING); Stranded(s) && Step(s, EnsureRuntime) == s
  {
    hide Run, Stranded, Step;
    StrandingSteps();
    FirstSubmitted();
    FirstRotated();
    SecondSubmitted();
    LateRecovery();
    LostRunner();
    assert FIRST.submitted[0] == (Some(0), 0) && SECOND.submitted[1] == (Some(1), 1);
    forall k | 0 <= k < |STRANDING| && STRANDING[k].Quarantine?
      ensures exists g :: (g, STRANDING[k].r) in Run(STRANDING[..k]).submitted
    {
      assert k == 2 || k == 6;
    }
  }

  lemma RunAt(k: nat)
    requires k < |STRANDING|
    ensures Run(STRANDING[..k + 1]) == Step(Run(STRANDING[..k]), STRANDING[k])
  {
    hide Step;
    assert STRANDING[..k + 1][..k] == STRANDING[..k];
  }

  lemma RunNone()
    ensures Run(STRANDING[..0]) == INITIAL
  {
  }
}
