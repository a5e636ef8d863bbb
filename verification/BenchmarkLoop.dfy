/** The cost-capped benchmark loop of evaluation/run_benchmark.py with its results file and checkpoint: what a
    resumed run does after a kill, and what the cap guarantees. Costs are real numbers. */
module BenchmarkLoop {
  import opened Wrappers

  /** One pass over one case. */
  datatype Unit = Unit(caseId: string, repeat: nat, id: string)

  datatype RunOutcome = RunOutcome(cost: real, fatalAuth: bool)

  datatype Run = Run(id: string, outcome: RunOutcome)

  datatype Reason = CapBefore | AuthFailure | CapAfter

  datatype Settings = Settings(live: bool, cap: real)

  /** The loop variables; `completed_units` is the number of runs. */
  datatype State = State(runs: seq<Run>, done: set<string>, cost: real, stopped: Option<Reason>)

  const FRESH := State([], {}, 0.0, None)

  datatype Checkpoint = Checkpoint(done: set<string>, cost: real, stopped: Option<Reason>)

  /* --- the plan --- */

  function Decimal(n: nat): string {
    if n < 10 then ["0123456789"[n]] else Decimal(n / 10) + ["0123456789"[n % 10]]
  }

  function RunId(caseId: string, repeat: nat, config: string): string {
    caseId + "#r" + Decimal(repeat) + "#" + config
  }

  function Pass(cases: seq<string>, repeat: nat, config: string): seq<Unit> {
    seq(|cases|, i requires 0 <= i < |cases| => Unit(cases[i], repeat, RunId(cases[i], repeat, config)))
  }

  /** The units in the order of the two loops: repeats outside, cases inside. */
  function Plan(cases: seq<string>, repeats: nat, config: string): seq<Unit> {
    if repeats == 0 then [] else Plan(cases, repeats - 1, config) + Pass(cases, repeats, config)
  }

  /* --- one visit --- */

  /** The estimate refuses to start another run. */
  predicate Refused(st: State, s: Settings) {
    s.live && |st.runs| > 0 && st.cost + st.cost / |st.runs| as real > s.cap
  }

  function Execute(st: State, u: Unit, s: Settings, exec: Unit -> RunOutcome): State {
    var o := exec(u);
    var cost := st.cost + o.cost;
    State(st.runs + [Run(u.id, o)], st.done + {u.id}, cost,
          if s.live && o.fatalAuth then Some(AuthFailure) else if cost > s.cap then Some(CapAfter) else None)
  }

  function Visit(st: State, u: Unit, s: Settings, exec: Unit -> RunOutcome): State {
    if st.stopped.Some? || u.id in st.done then st
    else if Refused(st, s) then st.(stopped := Some(CapBefore))
    else Execute(st, u, s, exec)
  }

  function Visits(st: State, plan: seq<Unit>, s: Settings, exec: Unit -> RunOutcome): State {
    if plan == [] then st else Visit(Visits(st, plan[..|plan| - 1], s, exec), plan[|plan| - 1], s, exec)
  }

  /* --- the loop over its files --- */

  class OutputDir {
    var rawRuns: seq<Run>
    var checkpoint: Option<Checkpoint>
    /** The files after each pair of writes: where a kill at a case boundary leaves them. */
    ghost var boundaries: seq<(seq<Run>, Checkpoint)>

    constructor ()
      ensures rawRuns == [] && checkpoint == None && boundaries == []
    {
      rawRuns, checkpoint, boundaries := [], None, [];
    }

    /** The state a resumed run starts from; a checkpoint that is missing or cannot be read counts as none. */
    function Resumed(): State
      reads this
    {
      if checkpoint.Some? then State(rawRuns, checkpoint.value.done, checkpoint.value.cost, None)
      else State(rawRuns, {}, 0.0, None)
    }

    method RunAll(cases: seq<string>, repeats: nat, config: string, s: Settings, exec: Unit -> RunOutcome,
                  resume: bool)
      returns (final: State)
      modifies this
      ensures final == Visits(if resume then old(Resumed()) else FRESH, Plan(cases, repeats, config), s, exec)
      ensures rawRuns == final.runs
      ensures checkpoint == Some(Checkpoint(final.done, final.cost, final.stopped))
      ensures |old(boundaries)| <= |boundaries|
      ensures forall k :: |old(boundaries)| <= k < |boundaries| ==>
                IsBoundary(boundaries[k], if resume then old(Resumed()) else FRESH, Plan(cases, repeats, config), s, exec)
    {
      hide Visits, Plan, Pass, RunId, IsBoundary;
      ghost var start := if resume then Resumed() else FRESH;
      ghost var plan := Plan(cases, repeats, config);
      var runs := if resume then rawRuns else [];
      var done := if resume && checkpoint.Some? then checkpoint.value.done else {};
      var cost := if resume && checkpoint.Some? then checkpoint.value.cost else 0.0;
      var stopped: Option<Reason> := None;
      ghost var visited: seq<Unit> := [];
      NothingVisited(start, cases, config, s, exec);
      var repeat := 1;
      while repeat <= repeats && stopped.None?
        invariant 1 <= repeat <= repeats + 1
        invariant visited <= plan
        invariant State(runs, done, cost, stopped) == Visits(start, visited, s, exec)
        invariant stopped.None? ==> visited == Plan(cases, repeat - 1, config)
        invariant |old(boundaries)| <= |boundaries|
        invariant forall k :: |old(boundaries)| <= k < |boundaries| ==> IsBoundary(boundaries[k], start, plan, s, exec)
        decreases repeats + 1 - repeat
      {
        PassParts(cases, repeat, config);
        var i := 0;
        while i < |cases| && stopped.None?
          invariant 0 <= i <= |cases| == |Pass(cases, repeat, config)|
          invariant visited <= plan
          invariant State(runs, done, cost, stopped) == Visits(start, visited, s, exec)
          invariant stopped.None? ==> visited == Plan(cases, repeat - 1, config) + Pass(cases, repeat, config)[..i]
          invariant |old(boundaries)| <= |boundaries|
          invariant forall k :: |old(boundaries)| <= k < |boundaries| ==> IsBoundary(boundaries[k], start, plan, s, exec)
          decreases |cases| - i, stopped.None?
        {
          var u := Unit(cases[i], repeat, RunId(cases[i], repeat, config));
          PassStep(cases, repeat, config, i);
          NextInPlan(cases, repeat, repeats, config, visited, i);
          VisitNext(start, visited, u, s, exec);
          ghost var before := visited;
          visited := visited + [u];
          if u.id in done {
          } else if s.live && |runs| > 0 && cost + cost / |runs| as real > s.cap {
            stopped := Some(CapBefore);
          } else {
            var o := exec(u);
            runs := runs + [Run(u.id, o)];
            done := done + {u.id};
            cost := cost + o.cost;
            rawRuns := runs;
            checkpoint := Some(Checkpoint(done, cost, None));
            BoundaryHere(start, plan, before, u, s, exec);
            boundaries := boundaries + [(rawRuns, Checkpoint(done, cost, None))];
            if s.live && o.fatalAuth {
              stopped := Some(AuthFailure);
            } else if cost > s.cap {
              stopped := Some(CapAfter);
            }
          }
          i := i + 1;
        }
        repeat := repeat + 1;
      }
      final := State(runs, done, cost, stopped);
      assert plan[..|visited|] == visited;
      if stopped.Some? { StoppedSticks(start, plan, |visited|, s, exec); }
      rawRuns := runs;
      checkpoint := Some(Checkpoint(done, cost, stopped));
    }
  }

  lemma NothingVisited(start: State, cases: seq<string>, config: string, s: Settings, exec: Unit -> RunOutcome)
    ensures Visits(start, [], s, exec) == start && Plan(cases, 0, config) == []
  {
  }

  lemma PassParts(cases: seq<string>, repeat: nat, config: string)
    requires repeat >= 1
    ensures var pass := Pass(cases, repeat, config);
            && |pass| == |cases| && pass[..0] == [] && pass[..|cases|] == pass
            && Plan(cases, repeat - 1, config) + [] == Plan(cases, repeat - 1, config)
            && Plan(cases, repeat, config) == Plan(cases, repeat - 1, config) + pass
  {
  }

  lemma PassStep(cases: seq<string>, repeat: nat, config: string, i: nat)
    requires repeat >= 1 && i < |cases|
    ensures var pass, u := Pass(cases, repeat, config), Unit(cases[i], repeat, RunId(cases[i], repeat, config));
            && |pass| == |cases| && pass[i] == u
            && Plan(cases, repeat - 1, config) + pass[..i + 1] == Plan(cases, repeat - 1, config) + pass[..i] + [u]
  {
    var pass := Pass(cases, repeat, config);
    assert pass[..i + 1] == pass[..i] + [pass[i]];
  }

  lemma VisitNext(start: State, visited: seq<Unit>, u: Unit, s: Settings, exec: Unit -> RunOutcome)
    ensures Visits(start, visited + [u], s, exec) == Visit(Visits(start, visited, s, exec), u, s, exec)
  {
    assert (visited + [u])[..|visited|] == visited;
  }

  lemma BoundaryHere(start: State, plan: seq<Unit>, before: seq<Unit>, u: Unit, s: Settings, exec: Unit -> RunOutcome)
    requires before + [u] <= plan
    requires var st := Visits(start, before, s, exec); st.stopped.None? && u.id !in st.done && !Refused(st, s)
    ensures var next := Execute(Visits(start, before, s, exec), u, s, exec);
            IsBoundary((next.runs, Checkpoint(next.done, next.cost, None)), start, plan, s, exec)
  {
    var k := |before| + 1;
    assert plan[..k] == before + [u] && plan[..k - 1] == before;
    VisitNext(start, before, u, s, exec);
    assert ExecutedLast(start, plan, k, s, exec);
  }

  /** The files are those of the loop right after it executed the last unit of some prefix of the plan. */
  ghost predicate IsBoundary(files: (seq<Run>, Checkpoint), start: State, plan: seq<Unit>, s: Settings,
                             exec: Unit -> RunOutcome) {
    exists k :: 1 <= k <= |plan| && ExecutedLast(start, plan, k, s, exec)
      && files.0 == Visits(start, plan[..k], s, exec).runs
      && files.1.done == Visits(start, plan[..k], s, exec).done
      && files.1.cost == Visits(start, plan[..k], s, exec).cost
  }

  ghost predicate ExecutedLast(start: State, plan: seq<Unit>, k: nat, s: Settings, exec: Unit -> RunOutcome)
    requires 1 <= k <= |plan|
  {
    |Visits(start, plan[..k], s, exec).runs| == |Visits(start, plan[..k - 1], s, exec).runs| + 1
  }

  lemma {:induction false} PlanPrefix(cases: seq<string>, r: nat, repeats: nat, config: string)
    requires r <= repeats
    ensures Plan(cases, r, config) <= Plan(cases, repeats, config)
    decreases repeats - r
  {
    if r < repeats {
      PlanPrefix(cases, r + 1, repeats, config);
    }
  }

  lemma {:induction false} NextInPlan(cases: seq<string>, r: nat, repeats: nat, config: string, before: seq<Unit>, i: nat)
    requires 1 <= r <= repeats && i < |cases|
    requires before == Plan(cases, r - 1, config) + Pass(cases, r, config)[..i]
    ensures before + [Pass(cases, r, config)[i]] <= Plan(cases, repeats, config)
  {
    PlanPrefix(cases, r, repeats, config);
    var pass := Pass(cases, r, config);
    assert Plan(cases, r, config) == before + pass[i..];
  }

  lemma {:induction false} VisitsSplit(st: State, plan: seq<Unit>, k: nat, s: Settings, exec: Unit -> RunOutcome)
    requires k <= |plan|
    ensures Visits(st, plan, s, exec) == Visits(Visits(st, plan[..k], s, exec), plan[k..], s, exec)
  {
    if k == |plan| {
      assert plan[..k] == plan;
    } else {
      var init := plan[..|plan| - 1];
      VisitsSplit(st, init, k, s, exec);
      assert init[..k] == plan[..k];
      assert plan[k..][..|plan| - k - 1] == init[k..];
    }
  }

  lemma {:induction false} StoppedStays(st: State, plan: seq<Unit>, s: Settings, exec: Unit -> RunOutcome)
    requires st.stopped.Some?
    ensures Visits(st, plan, s, exec) == st
  {
    if plan != [] {
      StoppedStays(st, plan[..|plan| - 1], s, exec);
    }
  }

  lemma {:induction false} StoppedSticks(st: State, plan: seq<Unit>, k: nat, s: Settings, exec: Unit -> RunOutcome)
    requires k <= |plan| && Visits(st, plan[..k], s, exec).stopped.Some?
    ensures Visits(st, plan, s, exec) == Visits(st, plan[..k], s, exec)
  {
    VisitsSplit(st, plan, k, s, exec);
    StoppedStays(Visits(st, plan[..k], s, exec), plan[k..], s, exec);
  }

  /* --- what every run keeps --- */

  function TotalCost(runs: seq<Run>): real {
    if runs == [] then 0.0 else TotalCost(runs[..|runs| - 1]) + runs[|runs| - 1].outcome.cost
  }

  ghost predicate DistinctIds(runs: seq<Run>) {
    forall i, j :: 0 <= i < j < |runs| ==> runs[i].id != runs[j].id
  }

  ghost predicate NonNegative(exec: Unit -> RunOutcome) {
    forall u :: exec(u).cost >= 0.0
  }

  /** The files and the loop agree: the cost is that of the runs, and the done ids are the ids run, once each. */
  ghost predicate Consistent(st: State) {
    && st.cost == TotalCost(st.runs)
    && (forall i :: 0 <= i < |st.runs| ==> st.runs[i].outcome.cost >= 0.0)
    && DistinctIds(st.runs)
    && (forall id :: id in st.done <==> exists i :: 0 <= i < |st.runs| && st.runs[i].id == id)
  }

  /** In live mode every run but the first was started with room for one more run of average cost. */
  ghost predicate StartsWithinCap(runs: seq<Run>, s: Settings) {
    s.live ==> forall i :: 1 <= i < |runs| ==> TotalCost(runs[..i]) + TotalCost(runs[..i]) / i as real <= s.cap
  }

  ghost predicate Kept(st: State, s: Settings) {
    Consistent(st) && StartsWithinCap(st.runs, s)
  }

  lemma {:induction false} TotalNonNegative(runs: seq<Run>)
    requires forall i :: 0 <= i < |runs| ==> runs[i].outcome.cost >= 0.0
    ensures TotalCost(runs) >= 0.0
  {
    if runs != [] { TotalNonNegative(runs[..|runs| - 1]); }
  }

  lemma {:induction false} ExecuteConsistent(st: State, u: Unit, s: Settings, exec: Unit -> RunOutcome)
    requires Consistent(st) && NonNegative(exec) && u.id !in st.done
    ensures Consistent(Execute(st, u, s, exec))
  {
    var next := Execute(st, u, s, exec);
    assert next.runs[..|next.runs| - 1] == st.runs;
    assert forall i :: 0 <= i < |st.runs| ==> next.runs[i] == st.runs[i];
    forall id ensures id in next.done <==> exists i :: 0 <= i < |next.runs| && next.runs[i].id == id {
      if id == u.id { assert next.runs[|st.runs|].id == id; }
      if id in st.done { var i :| 0 <= i < |st.runs| && st.runs[i].id == id; assert next.runs[i].id == id; }
    }
  }

  lemma {:induction false} StartsNext(runs: seq<Run>, run: Run, s: Settings)
    requires StartsWithinCap(runs, s)
    requires s.live && runs != [] ==> TotalCost(runs) + TotalCost(runs) / |runs| as real <= s.cap
    ensures StartsWithinCap(runs + [run], s)
  {
    hide TotalCost;
    var next := runs + [run];
    assert forall i :: 1 <= i <= |runs| ==> next[..i] == runs[..i];
    assert runs[..|runs|] == runs;
  }

  lemma {:induction false} VisitKeeps(st: State, u: Unit, s: Settings, exec: Unit -> RunOutcome)
    requires Kept(st, s) && NonNegative(exec)
    ensures Kept(Visit(st, u, s, exec), s)
  {
    if st.stopped.None? && u.id !in st.done && !Refused(st, s) {
      ExecuteConsistent(st, u, s, exec);
      StartsNext(st.runs, Run(u.id, exec(u)), s);
      hide StartsWithinCap, TotalCost;
    }
  }

  lemma {:induction false} VisitsKeep(st: State, plan: seq<Unit>, s: Settings, exec: Unit -> RunOutcome)
    requires Kept(st, s) && NonNegative(exec)
    ensures Kept(Visits(st, plan, s, exec), s)
  {
    if plan != [] {
      VisitsKeep(st, plan[..|plan| - 1], s, exec);
      VisitKeeps(Visits(st, plan[..|plan| - 1], s, exec), plan[|plan| - 1], s, exec);
    }
  }

  /** A session visits its plan up to where it ends or is killed. */
  datatype Session = Session(plan: seq<Unit>, visited: nat)

  /** The state after any number of sessions, each resumed from the files of the one before. */
  function After(sessions: seq<Session>, s: Settings, exec: Unit -> RunOutcome): State {
    if sessions == [] then FRESH
    else
      var last := sessions[|sessions| - 1];
      var k := if last.visited <= |last.plan| then last.visited else |last.plan|;
      Visits(After(sessions[..|sessions| - 1], s, exec).(stopped := None), last.plan[..k], s, exec)
  }

  lemma {:induction false} CostBeforeLast(st: State, s: Settings)
    requires Kept(st, s) && s.live && s.cap >= 0.0 && st.runs != []
    ensures st.cost - st.runs[|st.runs| - 1].outcome.cost <= s.cap
  {
    hide DistinctIds;
    var i := |st.runs| - 1;
    if i > 0 {
      TotalNonNegative(st.runs[..i]);
      assert TotalCost(st.runs[..i]) + TotalCost(st.runs[..i]) / i as real <= s.cap;
    }
  }

  /** Over every such history no run id executes twice, the recorded cost is that of the runs, and in live mode
      the cost without the last run never exceeds a non-negative cap. */
  lemma {:induction false} EverySessionKeeps(sessions: seq<Session>, s: Settings, exec: Unit -> RunOutcome)
    requires NonNegative(exec)
    ensures var st := After(sessions, s, exec);
            && Kept(st, s)
            && (s.live && s.cap >= 0.0 && st.runs != [] ==>
                  st.cost - st.runs[|st.runs| - 1].outcome.cost <= s.cap)
  {
    SessionsKeep(sessions, s, exec);
    var st := After(sessions, s, exec);
    hide Kept, After;
    if s.live && s.cap >= 0.0 && st.runs != [] { CostBeforeLast(st, s); }
  }

  lemma {:induction false} SessionsKeep(sessions: seq<Session>, s: Settings, exec: Unit -> RunOutcome)
    requires NonNegative(exec)
    ensures Kept(After(sessions, s, exec), s)
  {
    if sessions != [] {
      hide NonNegative;
      SessionsKeep(sessions[..|sessions| - 1], s, exec);
      var last := sessions[|sessions| - 1];
      var k := if last.visited <= |last.plan| then last.visited else |last.plan|;
      var before := After(sessions[..|sessions| - 1], s, exec);
      assert Kept(before.(stopped := None), s);
      VisitsKeep(before.(stopped := None), last.plan[..k], s, exec);
    }
  }

  /* --- resuming --- */

  ghost predicate AllDone(plan: seq<Unit>, st: State) {
    forall i :: 0 <= i < |plan| ==> plan[i].id in st.done
  }

  /** From this state the loop would start another run. */
  ghost predicate WouldStart(st: State, plan: seq<Unit>, s: Settings) {
    !AllDone(plan, st) && !Refused(st, s)
  }

  lemma {:induction false} VisitedAreDone(st: State, plan: seq<Unit>, s: Settings, exec: Unit -> RunOutcome)
    requires Visits(st, plan, s, exec).stopped.None?
    ensures AllDone(plan, Visits(st, plan, s, exec))
  {
    if plan != [] {
      VisitedAreDone(st, plan[..|plan| - 1], s, exec);
    }
  }

  lemma {:induction false} DoneSkipped(st: State, plan: seq<Unit>, s: Settings, exec: Unit -> RunOutcome)
    requires AllDone(plan, st)
    ensures Visits(st, plan, s, exec) == st
  {
    if plan != [] {
      DoneSkipped(st, plan[..|plan| - 1], s, exec);
    }
  }

  /** From a state that is not stopped, visiting the plan adds runs exactly when it would start one. */
  lemma {:induction false} StartsExactly(st: State, plan: seq<Unit>, s: Settings, exec: Unit -> RunOutcome)
    requires st.stopped.None?
    ensures st.runs <= Visits(st, plan, s, exec).runs
    ensures Visits(st, plan, s, exec).runs != st.runs <==> WouldStart(st, plan, s)
    ensures !WouldStart(st, plan, s) && !AllDone(plan, st) ==> Visits(st, plan, s, exec) == st.(stopped := Some(CapBefore))
  {
    if plan != [] {
      var init := plan[..|plan| - 1];
      StartsExactly(st, init, s, exec);
      var mid := Visits(st, init, s, exec);
      if AllDone(init, st) {
        DoneSkipped(st, init, s, exec);
      }
    }
  }

  /** Resuming after a kill at any case boundary: the resumed loop ends with the run list of the uninterrupted
      loop if and only if the loop was not stopping there or could start nothing more; and where it was not
      stopping, the whole final state agrees, cost and cap decision included. */
  lemma {:induction false} ResumeExact(st: State, plan: seq<Unit>, k: nat, s: Settings, exec: Unit -> RunOutcome)
    requires k <= |plan|
    ensures var killed := Visits(st, plan[..k], s, exec);
            var resumed := Visits(killed.(stopped := None), plan, s, exec);
            var whole := Visits(st, plan, s, exec);
            && (resumed.runs == whole.runs <==>
                killed.stopped.None? || !WouldStart(killed.(stopped := None), plan, s))
            && (killed.stopped.None? ==> resumed == whole)
  {
    var killed := Visits(st, plan[..k], s, exec);
    VisitsSplit(st, plan, k, s, exec);
    if killed.stopped.None? {
      VisitedAreDone(st, plan[..k], s, exec);
      VisitsSplit(killed, plan, k, s, exec);
      DoneSkipped(killed, plan[..k], s, exec);
      assert killed.(stopped := None) == killed;
    } else {
      StoppedStays(killed, plan[k..], s, exec);
      StartsExactly(killed.(stopped := None), plan, s, exec);
    }
  }

  /** A live loop that stopped on its cap is never resumed past it. */
  lemma {:induction false} LiveCapHolds(st: State, plan: seq<Unit>, s: Settings)
    requires Kept(st, s) && s.live && s.cap >= 0.0 && st.runs != [] && st.cost > s.cap
    ensures !WouldStart(st.(stopped := None), plan, s)
  {
    TotalNonNegative(st.runs);
    assert st.cost / |st.runs| as real >= 0.0;
  }

  /** Case A is rejected by the provider at no cost; every other case succeeds. */
  function FirstCaseRejected(u: Unit): RunOutcome {
    RunOutcome(0.0, u.caseId == "A")
  }

  /** A loop that stopped on a rejected credential is resumed past it. */
  lemma ResumeAfterAuthFailure()
    ensures var plan, s := Plan(["A", "B"], 1, "base"), Settings(true, 1.0);
            var killed := Visits(FRESH, plan[..1], s, FirstCaseRejected);
            && |Visits(FRESH, plan, s, FirstCaseRejected).runs| == 1
            && |Visits(killed.(stopped := None), plan, s, FirstCaseRejected).runs| == 2
  {
    var plan, s := Plan(["A", "B"], 1, "base"), Settings(true, 1.0);
    assert Plan(["A", "B"], 0, "base") == [];
    var a, b := Unit("A", 1, RunId("A", 1, "base")), Unit("B", 1, RunId("B", 1, "base"));
    assert plan == [a, b] && plan[..1] == [] + [a] && plan == [a] + [b];
    assert a.id[0] == "A"[0] && b.id[0] == "B"[0];
    hide RunId;
    VisitNext(FRESH, [], a, s, FirstCaseRejected);
    VisitNext(FRESH, [a], b, s, FirstCaseRejected);
    var killed := Visits(FRESH, [a], s, FirstCaseRejected);
    assert killed == State([Run(a.id, RunOutcome(0.0, true))], {a.id}, 0.0, Some(AuthFailure));
    var again := killed.(stopped := None);
    VisitNext(again, [], a, s, FirstCaseRejected);
    VisitNext(again, [a], b, s, FirstCaseRejected);
  }

  function EachCostsTwo(u: Unit): RunOutcome { RunOutcome(2.0, false) }

  /** An offline loop that stopped because it was over the cap is resumed further past it. */
  lemma ResumePastOfflineCap()
    ensures var plan, s := Plan(["A", "B"], 1, "base"), Settings(false, 1.0);
            var killed := Visits(FRESH, plan[..1], s, EachCostsTwo);
            && Visits(FRESH, plan, s, EachCostsTwo).stopped == Some(CapAfter)
            && |Visits(FRESH, plan, s, EachCostsTwo).runs| == 1
            && |Visits(killed.(stopped := None), plan, s, EachCostsTwo).runs| == 2
  {
    var plan, s := Plan(["A", "B"], 1, "base"), Settings(false, 1.0);
    assert Plan(["A", "B"], 0, "base") == [];
    var a, b := Unit("A", 1, RunId("A", 1, "base")), Unit("B", 1, RunId("B", 1, "base"));
    assert plan == [a, b] && plan[..1] == [] + [a] && plan == [a] + [b];
    assert a.id[0] == "A"[0] && b.id[0] == "B"[0];
    hide RunId;
    VisitNext(FRESH, [], a, s, EachCostsTwo);
    VisitNext(FRESH, [a], b, s, EachCostsTwo);
    var killed := Visits(FRESH, [a], s, EachCostsTwo);
    assert killed == State([Run(a.id, RunOutcome(2.0, false))], {a.id}, 2.0, Some(CapAfter));
    var again := killed.(stopped := None);
    VisitNext(again, [], a, s, EachCostsTwo);
    VisitNext(again, [a], b, s, EachCostsTwo);
  }

  /** A kill between the two writes of a case: the results hold the run, the checkpoint does not. */
  function Torn(before: State, u: Unit, exec: Unit -> RunOutcome): State {
    before.(runs := before.runs + [Run(u.id, exec(u))], stopped := None)
  }

  /** After such a kill the resumed loop runs the same id twice exactly when it runs anything at all. */
  lemma {:induction false} TornWriteRepeats(st: State, plan: seq<Unit>, k: nat, s: Settings, exec: Unit -> RunOutcome)
    requires Consistent(st) && Kept(st, s) && NonNegative(exec)
    requires k < |plan|
    requires var before := Visits(st, plan[..k], s, exec);
             before.stopped.None? && plan[k].id !in before.done && !Refused(before, s)
    ensures var torn := Torn(Visits(st, plan[..k], s, exec), plan[k], exec);
            DistinctIds(Visits(torn, plan, s, exec).runs) <==> Refused(torn, s)
  {
    var before := Visits(st, plan[..k], s, exec);
    var torn := Torn(before, plan[k], exec);
    VisitsKeep(st, plan[..k], s, exec);
    VisitedAreDone(st, plan[..k], s, exec);
    DoneSkipped(torn, plan[..k], s, exec);
    StartsExactly(torn, plan, s, exec);
    if Refused(torn, s) {
      TornDistinct(before, plan[k], exec);
    } else {
      VisitsSplit(torn, plan, k + 1, s, exec);
      assert plan[..k + 1][..k] == plan[..k];
      var again := Visits(torn, plan[..k + 1], s, exec);
      assert again == Execute(torn, plan[k], s, exec);
      RunsOnlyGrow(again, plan[k + 1..], s, exec);
      var n := |before.runs|;
      assert again.runs[n].id == again.runs[n + 1].id;
    }
  }

  lemma {:induction false} RunsOnlyGrow(st: State, plan: seq<Unit>, s: Settings, exec: Unit -> RunOutcome)
    ensures st.runs <= Visits(st, plan, s, exec).runs
  {
    if plan != [] {
      RunsOnlyGrow(st, plan[..|plan| - 1], s, exec);
    }
  }

  lemma TornDistinct(before: State, u: Unit, exec: Unit -> RunOutcome)
    requires Consistent(before) && u.id !in before.done
    ensures DistinctIds(Torn(before, u, exec).runs)
  {
  }

  /* --- a kill inside the checkpoint write --- */

  /** The checkpoint cannot be read: a resumed loop knows the runs, but neither which are done nor what they cost. */
  function Lost(st: State): State { State(st.runs, {}, 0.0, None) }

  /** What the resumed loop has added to `n` runs. */
  function Since(st: State, n: nat): State
    requires n <= |st.runs|
  {
    st.(runs := st.runs[n..])
  }

  /** Its own runs have distinct ids, its done ids are theirs, and its cost is what they cost. */
  lemma {:induction false} SinceConsistent(st: State, plan: seq<Unit>, s: Settings, exec: Unit -> RunOutcome)
    requires NonNegative(exec)
    ensures st.runs <= Visits(Lost(st), plan, s, exec).runs
    ensures Consistent(Since(Visits(Lost(st), plan, s, exec), |st.runs|))
  {
    hide Consistent, NonNegative;
    if plan == [] {
      assert Since(Lost(st), |st.runs|) == FRESH;
      FreshConsistent();
    } else {
      var before, u := Visits(Lost(st), plan[..|plan| - 1], s, exec), plan[|plan| - 1];
      SinceConsistent(st, plan[..|plan| - 1], s, exec);
      if before.stopped.None? && u.id !in before.done && !Refused(before, s) {
        var since := Since(before, |st.runs|);
        ExecuteConsistent(since, u, s, exec);
        var next := Execute(since, u, s, exec);
        assert Since(Execute(before, u, s, exec), |st.runs|).(stopped := None) == next.(stopped := None);
        StoppedConsistent(Since(Execute(before, u, s, exec), |st.runs|));
        StoppedConsistent(next);
      } else {
        StoppedConsistent(Since(before, |st.runs|));
        StoppedConsistent(Since(Visit(before, u, s, exec), |st.runs|));
      }
    }
  }

  lemma StoppedConsistent(st: State)
    ensures Consistent(st) <==> Consistent(st.(stopped := None))
  {
  }

  lemma FreshConsistent()
    ensures Consistent(FRESH)
  {
  }

  lemma {:induction false} JoinedIds(a: State, b: State)
    requires Consistent(a) && Consistent(b)
    ensures DistinctIds(a.runs + b.runs) <==> a.done !! b.done
  {
    var all := a.runs + b.runs;
    if a.done !! b.done {
      forall i, j | 0 <= i < j < |all| ensures all[i].id != all[j].id {
        if i < |a.runs| <= j {
          assert a.runs[i].id in a.done && b.runs[j - |a.runs|].id in b.done;
        }
      }
    } else {
      var id :| id in a.done && id in b.done;
      var i :| 0 <= i < |a.runs| && a.runs[i].id == id;
      var j :| 0 <= j < |b.runs| && b.runs[j].id == id;
      assert all[i].id == all[|a.runs| + j].id;
    }
  }

  /** The resumed loop executes this unit. */
  ghost predicate Executes(st: State, plan: seq<Unit>, i: nat, s: Settings, exec: Unit -> RunOutcome)
    requires i < |plan|
  {
    var before := Visits(st, plan[..i], s, exec);
    before.stopped.None? && plan[i].id !in before.done && !Refused(before, s)
  }

  lemma {:induction false} DoneExecuted(st: State, plan: seq<Unit>, s: Settings, exec: Unit -> RunOutcome, id: string)
    ensures id in Visits(st, plan, s, exec).done <==>
            id in st.done || exists i :: 0 <= i < |plan| && Executes(st, plan, i, s, exec) && plan[i].id == id
  {
    if plan != [] {
      var n := |plan| - 1;
      var init := plan[..n];
      DoneExecuted(st, init, s, exec, id);
      forall i | 0 <= i < n ensures Executes(st, plan, i, s, exec) <==> Executes(st, init, i, s, exec) {
        assert init[..i] == plan[..i];
      }
      hide Refused;
      assert Executes(st, plan, n, s, exec) <==>
             (var before := Visits(st, init, s, exec);
              before.stopped.None? && plan[n].id !in before.done && !Refused(before, s));
    }
  }

  /** Resuming with a checkpoint that cannot be read repeats no run id if and only if it executes no unit that was
      done. */
  lemma {:induction false} LostCheckpointExact(st: State, plan: seq<Unit>, s: Settings, exec: Unit -> RunOutcome)
    requires Consistent(st) && NonNegative(exec)
    ensures DistinctIds(Visits(Lost(st), plan, s, exec).runs) <==>
            forall i :: 0 <= i < |plan| && plan[i].id in st.done ==> !Executes(Lost(st), plan, i, s, exec)
  {
    hide Consistent, Visits, Executes, DistinctIds;
    var final := Visits(Lost(st), plan, s, exec);
    SinceConsistent(st, plan, s, exec);
    assert final.runs == st.runs + Since(final, |st.runs|).runs;
    JoinedIds(st, Since(final, |st.runs|));
    forall id { DoneExecuted(Lost(st), plan, s, exec, id); }
  }

  /** In particular, when the plan starts with a unit that is done, as in every session that began fresh, an id is
      repeated unless the loop is live and its cap negative. */
  lemma {:induction false} LostCheckpointRepeats(st: State, plan: seq<Unit>, s: Settings, exec: Unit -> RunOutcome)
    requires Consistent(st) && NonNegative(exec) && plan != [] && plan[0].id in st.done
    ensures DistinctIds(Visits(Lost(st), plan, s, exec).runs) <==> s.live && s.cap < 0.0
  {
    assert st.runs != [];
    assert Refused(Lost(st), s) <==> s.live && s.cap < 0.0;
    LostCheckpointExact(st, plan, s, exec);
    assert plan[..0] == [] && Executes(Lost(st), plan, 0, s, exec) <==> !Refused(Lost(st), s);
    if Refused(Lost(st), s) {
      hide Refused, Consistent, DistinctIds;
      forall i | 0 <= i < |plan| ensures !Executes(Lost(st), plan, i, s, exec) {
        if i > 0 { StoppedSticks(Lost(st), plan[..i], 1, s, exec); RefusedAtOnce(Lost(st), plan[..i], s, exec); }
      }
    }
  }

  lemma RefusedAtOnce(st: State, plan: seq<Unit>, s: Settings, exec: Unit -> RunOutcome)
    requires plan != [] && st.stopped.None? && st.done == {} && Refused(st, s)
    ensures Visits(st, plan, s, exec).stopped.Some?
  {
    assert plan[..1] == [] + [plan[0]];
    VisitNext(st, [], plan[0], s, exec);
    StoppedSticks(st, plan, 1, s, exec);
  }

  lemma {:induction false} CostConcat(a: seq<Run>, b: seq<Run>)
    ensures TotalCost(a + b) == TotalCost(a) + TotalCost(b)
  {
    if b == [] {
      assert a + b == a;
    } else {
      assert (a + b)[..|a + b| - 1] == a + b[..|b| - 1];
      CostConcat(a, b[..|b| - 1]);
    }
  }

  /** What is spent is no longer what is recorded: the cost of the runs before comes on top, and only the recorded part
      is held to the cap, without its last run. */
  lemma {:induction false} LostCheckpointSpend(st: State, plan: seq<Unit>, s: Settings, exec: Unit -> RunOutcome)
    requires NonNegative(exec)
    ensures var final := Visits(Lost(st), plan, s, exec);
            && TotalCost(final.runs) == TotalCost(st.runs) + final.cost
            && (s.live && s.cap >= 0.0 && |final.runs| > |st.runs| ==>
                  final.cost - final.runs[|final.runs| - 1].outcome.cost <= s.cap)
  {
    var final := Visits(Lost(st), plan, s, exec);
    SinceConsistent(st, plan, s, exec);
    assert final.runs == st.runs + final.runs[|st.runs|..];
    CostConcat(st.runs, final.runs[|st.runs|..]);
    hide TotalCost, DistinctIds;
    if s.live && s.cap >= 0.0 && |final.runs| > |st.runs| { RecordedWithinCap(st, plan, s, exec); }
  }

  lemma {:induction false} RecordedWithinCap(st: State, plan: seq<Unit>, s: Settings, exec: Unit -> RunOutcome)
    requires NonNegative(exec) && s.live && s.cap >= 0.0
    requires |Visits(Lost(st), plan, s, exec).runs| > |st.runs|
    ensures var final := Visits(Lost(st), plan, s, exec);
            final.cost - final.runs[|final.runs| - 1].outcome.cost <= s.cap
  {
    assert plan != [];
    var init, u := plan[..|plan| - 1], plan[|plan| - 1];
    var before := Visits(Lost(st), init, s, exec);
    if before.stopped.None? && u.id !in before.done && !Refused(before, s) {
      RecordedSoFar(st, init, s, exec);
      hide Visits, NonNegative;
      if before.runs != [] { Quotient(before.cost, |before.runs|); }
    } else {
      RecordedWithinCap(st, init, s, exec);
    }
  }

  lemma RecordedSoFar(st: State, plan: seq<Unit>, s: Settings, exec: Unit -> RunOutcome)
    requires NonNegative(exec)
    ensures var before := Visits(Lost(st), plan, s, exec);
            before.cost >= 0.0 && (before.runs == [] ==> before.cost == 0.0)
  {
    hide NonNegative, Visits, DistinctIds;
    var before := Visits(Lost(st), plan, s, exec);
    SinceConsistent(st, plan, s, exec);
    TotalNonNegative(Since(before, |st.runs|).runs);
  }

  lemma Quotient(x: real, n: nat)
    requires x >= 0.0 && n > 0
    ensures x / n as real >= 0.0
  {
  }

  /** One run of cost 2, and its checkpoint lost. */
  lemma OneRunLost(u: Unit, s: Settings)
    requires s == Settings(true, 2.0)
    ensures var o := RunOutcome(2.0, false);
            && Visits(FRESH, [u], s, EachCostsTwo) == State([Run(u.id, o)], {u.id}, 2.0, None)
            && Visits(Lost(State([Run(u.id, o)], {u.id}, 2.0, None)), [u], s, EachCostsTwo) ==
               State([Run(u.id, o), Run(u.id, o)], {u.id}, 2.0, None)
  {
    var o := RunOutcome(2.0, false);
    var lost := Lost(State([Run(u.id, o)], {u.id}, 2.0, None));
    assert [] + [u] == [u];
    VisitNext(FRESH, [], u, s, EachCostsTwo);
    VisitNext(lost, [], u, s, EachCostsTwo);
    assert [Run(u.id, o)] + [Run(u.id, o)] == [Run(u.id, o), Run(u.id, o)];
  }

  /** Two cases of cost 2 under a cap of 2: one run exhausts it, and after the checkpoint is lost the case runs again. */
  lemma LostCheckpointOverspends()
    ensures var plan, s := Plan(["A", "B"], 1, "base"), Settings(true, 2.0);
            var killed := Visits(FRESH, plan[..1], s, EachCostsTwo);
            var resumed := Visits(Lost(killed), plan, s, EachCostsTwo);
            && TotalCost(Visits(FRESH, plan, s, EachCostsTwo).runs) == 2.0
            && TotalCost(resumed.runs) == 4.0 && resumed.cost == 2.0 && !DistinctIds(resumed.runs)
  {
    var plan, s := Plan(["A", "B"], 1, "base"), Settings(true, 2.0);
    assert Plan(["A", "B"], 0, "base") == [];
    var a, b := Unit("A", 1, RunId("A", 1, "base")), Unit("B", 1, RunId("B", 1, "base"));
    assert plan == [a, b] && plan[..1] == [a] && plan == [a] + [b];
    assert a.id[0] == "A"[0] && b.id[0] == "B"[0];
    hide RunId, Plan, Visits, TotalCost;
    OneRunLost(a, s);
    var run := Run(a.id, RunOutcome(2.0, false));
    VisitNext(FRESH, [a], b, s, EachCostsTwo);
    VisitNext(Lost(State([run], {a.id}, 2.0, None)), [a], b, s, EachCostsTwo);
    OneOrTwoRuns(run);
    assert [run, run][0].id == [run, run][1].id;
  }

  lemma OneOrTwoRuns(run: Run)
    ensures TotalCost([run]) == run.outcome.cost && TotalCost([run, run]) == 2.0 * run.outcome.cost
  {
    assert [run][..0] == [] && [run, run][..1] == [run];
  }

  /* --- the plan and its ids --- */

  lemma {:induction false} DecimalDigits(n: nat)
    ensures Decimal(n) != "" && forall i :: 0 <= i < |Decimal(n)| ==> Decimal(n)[i] in "0123456789"
  {
    if n >= 10 { DecimalDigits(n / 10); }
  }

  lemma DigitsDiffer(i: nat, j: nat)
    requires i < 10 && j < 10 && "0123456789"[i] == "0123456789"[j]
    ensures i == j
  {
  }

  lemma {:induction false} DecimalInjective(i: nat, j: nat)
    requires Decimal(i) == Decimal(j)
    ensures i == j
  {
    DecimalDigits(i / 10);
    DecimalDigits(j / 10);
    var d, e := Decimal(i), Decimal(j);
    assert d[|d| - 1] == "0123456789"[i % 10] && e[|e| - 1] == "0123456789"[j % 10];
    DigitsDiffer(i % 10, j % 10);
    if i >= 10 && j >= 10 {
      assert d[..|d| - 1] == Decimal(i / 10) && e[..|e| - 1] == Decimal(j / 10);
      DecimalInjective(i / 10, j / 10);
    } else {
      assert |Decimal(i / 10)| >= 1 && |Decimal(j / 10)| >= 1;
    }
  }

  lemma NotShorter(c: string, x: string, d: string, y: string)
    requires c + "#r" + x == d + "#r" + y && forall i :: 0 <= i < |y| ==> y[i] in "0123456789"
    ensures |x| >= |y|
  {
    assert (c + "#r" + x)[|c|] == '#';
    if |x| < |y| { NoHash(d, y, |c|); }
  }

  lemma NoHash(d: string, y: string, k: nat)
    requires |d| < k < |d + "#r" + y| && forall i :: 0 <= i < |y| ==> y[i] in "0123456789"
    ensures (d + "#r" + y)[k] != '#'
  {
    assert (d + "#r" + y)[k] == if k == |d| + 1 then 'r' else y[k - |d| - 2];
  }

  /** Different cases or repeats have different run ids, whatever the names of the cases. */
  lemma {:induction false} RunIdInjective(c: string, i: nat, d: string, j: nat, config: string)
    requires RunId(c, i, config) == RunId(d, j, config)
    ensures c == d && i == j
  {
    var x, y := Decimal(i), Decimal(j);
    DecimalDigits(i);
    DecimalDigits(j);
    var a, b := c + "#r" + x, d + "#r" + y;
    assert RunId(c, i, config)[..|a|] == a && RunId(d, j, config)[..|b|] == b;
    hide Decimal;
    NotShorter(c, x, d, y);
    NotShorter(d, y, c, x);
    assert a[|c| + 2..] == x && b[|d| + 2..] == y && a[..|c|] == c && b[..|d|] == d;
    DecimalInjective(i, j);
  }

  /** A run id names its case, its repeat and the configuration. */
  lemma RunIdNames()
    ensures RunId("case", 12, "base") == "case#r12#base"
  {
    assert Decimal(12) == "12" by { assert Decimal(1) == "1"; }
  }

  /** The plan visits all cases once for repeat 1, then all for repeat 2, and so on. */
  lemma {:induction false} PlanExact(cases: seq<string>, repeats: nat, config: string, repeat: nat, j: nat)
    ensures |Plan(cases, repeats, config)| == repeats * |cases|
    ensures 1 <= repeat <= repeats && j < |cases| ==>
              0 <= (repeat - 1) * |cases| + j < repeats * |cases|
              && Plan(cases, repeats, config)[(repeat - 1) * |cases| + j] ==
                 Unit(cases[j], repeat, RunId(cases[j], repeat, config))
  {
    hide RunId;
    if repeats > 0 {
      PlanExact(cases, repeats - 1, config, repeat, j);
      Product(repeats, |cases|);
      if 1 <= repeat <= repeats && j < |cases| { Place(repeat, repeats, |cases|, j); }
    }
  }

  lemma Product(r: nat, n: nat)
    requires r > 0
    ensures r * n == (r - 1) * n + n
  {
  }

  lemma Place(repeat: nat, repeats: nat, n: nat, j: nat)
    requires 1 <= repeat <= repeats && j < n
    ensures repeat < repeats ==> 0 <= (repeat - 1) * n + j < (repeats - 1) * n
    ensures repeat == repeats ==> (repeats - 1) * n <= (repeat - 1) * n + j < (repeats - 1) * n + n
    ensures 0 <= (repeat - 1) * n
  {
    if repeat < repeats { Product(repeat, n); Grows(repeat, repeats - 1, n); }
  }

  lemma Grows(a: nat, b: nat, n: nat)
    requires a <= b
    ensures a * n <= b * n
  {
  }

  /** With distinct cases no id of the plan repeats. */
  lemma {:induction false} PlanIdsDistinct(cases: seq<string>, repeats: nat, config: string)
    requires forall i, j :: 0 <= i < j < |cases| ==> cases[i] != cases[j]
    ensures forall i, j :: 0 <= i < j < |Plan(cases, repeats, config)| ==>
              Plan(cases, repeats, config)[i].id != Plan(cases, repeats, config)[j].id
    ensures forall u :: u in Plan(cases, repeats, config) ==>
              1 <= u.repeat <= repeats && u.id == RunId(u.caseId, u.repeat, config)
  {
    hide RunId;
    if repeats > 0 {
      PlanIdsDistinct(cases, repeats - 1, config);
      var before, pass := Plan(cases, repeats - 1, config), Pass(cases, repeats, config);
      var plan := Plan(cases, repeats, config);
      forall u | u in pass ensures u.repeat == repeats && u.id == RunId(u.caseId, u.repeat, config) {}
      forall i, j | 0 <= i < j < |plan| ensures plan[i].id != plan[j].id {
        if j >= |before| {
          var v := pass[j - |before|];
          assert plan[j] == v && v in pass;
          var u := if i < |before| then before[i] else pass[i - |before|];
          assert plan[i] == u && (i < |before| ==> u in before) && (i >= |before| ==> u in pass);
          if u.id == v.id { RunIdInjective(u.caseId, u.repeat, v.caseId, v.repeat, config); }
        }
      }
    }
  }

  lemma {:induction false} AllExecuted(plan: seq<Unit>, s: Settings, exec: Unit -> RunOutcome)
    requires forall i, j :: 0 <= i < j < |plan| ==> plan[i].id != plan[j].id
    requires Visits(FRESH, plan, s, exec).stopped.None?
    ensures var final := Visits(FRESH, plan, s, exec);
            && |final.runs| == |plan| && (forall i :: 0 <= i < |plan| ==> final.runs[i] == Run(plan[i].id, exec(plan[i])))
            && (forall id :: id in final.done <==> exists i :: 0 <= i < |plan| && plan[i].id == id)
  {
    if plan != [] {
      var n := |plan| - 1;
      AllExecuted(plan[..n], s, exec);
      assert forall i :: 0 <= i < n ==> plan[..n][i] == plan[i];
    }
  }

  /** A fresh loop over distinct cases that never stops leaves exactly one run for every case and every repeat, in the
      order of the plan. */
  lemma {:induction false} EveryUnitRuns(cases: seq<string>, repeats: nat, config: string, s: Settings,
                                         exec: Unit -> RunOutcome)
    requires forall i, j :: 0 <= i < j < |cases| ==> cases[i] != cases[j]
    requires Visits(FRESH, Plan(cases, repeats, config), s, exec).stopped.None?
    ensures var runs := Visits(FRESH, Plan(cases, repeats, config), s, exec).runs;
            && |runs| == |cases| * repeats
            && forall repeat: nat, j: nat :: 1 <= repeat <= repeats && j < |cases| ==>
                 0 <= (repeat - 1) * |cases| + j < |runs|
                 && runs[(repeat - 1) * |cases| + j] ==
                    Run(RunId(cases[j], repeat, config), exec(Unit(cases[j], repeat, RunId(cases[j], repeat, config))))
  {
    hide Plan, Visits, RunId;
    var plan := Plan(cases, repeats, config);
    PlanIdsDistinct(cases, repeats, config);
    AllExecuted(plan, s, exec);
    PlanExact(cases, repeats, config, 0, 0);
    forall repeat: nat, j: nat | 1 <= repeat <= repeats && j < |cases| {
      PlanExact(cases, repeats, config, repeat, j);
    }
  }

  /** One unit of the loop: when it is executed, what it leaves, and why the loop stops. The next run is refused when one
      more of average cost, so n + 1 of them, would cost more than the cap. */
  lemma {:induction false} VisitExact(st: State, u: Unit, s: Settings, exec: Unit -> RunOutcome)
    ensures var next, o, n := Visit(st, u, s, exec), exec(u), |st.runs| as real;
            var due := st.stopped == None && u.id !in st.done;
            var over := s.live && st.runs != [] && st.cost * (n + 1.0) > s.cap * n;
            && (!due ==> next == st)
            && (due && over ==> next == State(st.runs, st.done, st.cost, Some(CapBefore)))
            && (due && !over ==>
                  && next.runs == st.runs + [Run(u.id, o)] && next.done == st.done + {u.id}
                  && next.cost == st.cost + o.cost
                  && (next.stopped == Some(AuthFailure) <==> s.live && o.fatalAuth)
                  && (next.stopped == Some(CapAfter) <==> !(s.live && o.fatalAuth) && st.cost + o.cost > s.cap)
                  && next.stopped != Some(CapBefore))
  {
    if st.runs != [] { AverageOver(st.cost, |st.runs|, s.cap); }
  }

  lemma AverageOver(cost: real, n: nat, cap: real)
    requires n > 0
    ensures cost + cost / n as real > cap <==> cost * (n as real + 1.0) > cap * n as real
  {
    var q := cost / n as real;
    assert cost == q * n as real;
    var sum := cost + q;
    assert sum * n as real == cost * n as real + cost;
    assert cost * (n as real + 1.0) == cost * n as real + cost;
    TimesPositive(sum, cap, n as real);
  }

  lemma TimesPositive(x: real, y: real, n: real)
    requires n > 0.0
    ensures x > y <==> x * n > y * n
  {
    if x > y { assert (x - y) * n > 0.0; }
    if x < y { assert (y - x) * n > 0.0; }
  }
}
