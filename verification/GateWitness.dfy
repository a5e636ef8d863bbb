/** Two concrete rounds of evaluation/paired_gate.py under its default thresholds: two cases, five repeats. One is
    promoted although a candidate specialist called a model: the run's lifecycle is there, but is no list. The other
    exits 2 although the candidate breaks a passing case: the answers are identical, and the overlay rewrites the
    failed check. */
module GateWitness {
  import opened Wrappers
  import opened Counting
  import opened Percentile
  import opened RunRecords
  import opened LifecycleAudit
  import opened LifecycleOrder
  import opened CheckLedger
  import opened PairedRuns
  import opened PairedMetrics
  import opened GateEvidence
  import opened PromotionGate
  import opened GateLoophole

  function Judged(): Verdict {
    Verdict(Is(true), Is(2.0), Is(2.0), Is([Constraint(MemoryIsolation, true), Constraint(ResistPromptInjection, true)]))
  }

  /** Run `i` of an arm: cases by turns, repeat by repeat. */
  function RunOf(i: nat, answer: string, passed: bool, role: Role, usage: seq<ModelEvent>,
                 lifecycle: Field<seq<LifeEvent>>): Run {
    Run(if i % 2 == 0 then "a" else "b", i / 2 + 1, true, Is(passed), Is(Judged()),
        Is(Grounding(Is(1.0), Is(1.0), Is(1.0))), Is(1.0), Is(0.0), Is(0.0),
        Is([ToolEvent("search", role, true, true)]), Is(usage), lifecycle, Is([]), Is([]), Is(answer))
  }

  function Event(status: Status): LifeEvent { LifeEvent("plan", "task", status, Listings, Some("manager"), IntCount(1)) }

  function Balanced(): seq<LifeEvent> { [Event(Planned), Event(Started), Event(Completed)] }

  function BaseRuns(): seq<Run> { seq(10, i requires 0 <= i < 10 => RunOf(i, "old", true, OtherRole, [], Missing)) }

  /** The first candidate run has the one balanced task; the last one's lifecycle is no list, and it calls a model. */
  function CandRun(i: nat, answer: string, passed: bool): Run {
    if i == 0 then RunOf(i, answer, true, Listings, [], Is(Balanced()))
    else if i == 9 then RunOf(i, answer, passed, Listings, [ModelEvent(Listings)], Wrong)
    else RunOf(i, answer, true, Listings, [], Is([]))
  }

  function CandRuns(answer: string, passed: bool): seq<Run> {
    seq(10, i requires 0 <= i < 10 => CandRun(i, answer, passed))
  }

  function SummaryOf(arch: string): Summary {
    Summary(arch, "offline", true, "config", 5, 2, true, true, true, [], "commit", Is(false), true, true, true, true)
  }

  function FirstDraw(): Rng { (n: nat) => [seq(n, _ => 0)] }

  function Example(answer: string, passed: bool): Round {
    Round(SummaryOf("fc_loop"), SummaryOf("manager_v1"), BaseRuns(), CandRuns(answer, passed), DEFAULTS, false, Some(false),
          FirstDraw())
  }

  /* --- what the runs show --- */

  ghost predicate Figures(run: Run) {
    && PairedMetrics.Completed(run) == 1.0 && ConstraintsPassed(run) == ConstraintsTotal(run) == 2.0
    && Grounded(run) == Claims(run) == Sourced(run) == 1.0 && LlmCalls(run) == 0.0 && ToolCalls(run) == 1.0
    && ToolFailures(run) == 0.0 && Cost(run) == 0.0
  }

  /** What every run of the examples shows; the passing flag apart. */
  ghost predicate Shows(run: Run, i: nat, answer: string) {
    && run.caseId == (if i % 2 == 0 then "a" else "b") && run.repeat == i / 2 + 1
    && run.answer == Is(answer) && run.latency == Is(1.0) && run.llmCalls == Is(0.0) && MetricOf(run.llmCalls) == 0
    && Figures(run) && run.verdict == Is(Judged()) && RunMeasured(run, !run.lifecycle.Missing?) && !Unsafe(run)
  }

  /** The same, for proofs that do not look into the predicates. */
  lemma Shown(run: Run, i: nat, answer: string)
    requires Shows(run, i, answer)
    ensures run.caseId == (if i % 2 == 0 then "a" else "b") && run.repeat == i / 2 + 1
    ensures run.answer == Is(answer) && run.latency == Is(1.0) && run.llmCalls == Is(0.0) && MetricOf(run.llmCalls) == 0
    ensures Figures(run) && run.verdict == Is(Judged()) && RunMeasured(run, !run.lifecycle.Missing?) && !Unsafe(run)
  {
    hide Figures, RunMeasured, Unsafe, Judged, MetricOf;
  }

  lemma OneCounted<T>(x: T, f: T -> bool)
    ensures CountIf([x], f) == (if f(x) then 1 else 0) && CountIf([], f) == 0
  {
  }

  lemma RunShows(i: nat, answer: string, passed: bool, role: Role, usage: seq<ModelEvent>, lifecycle: Field<seq<LifeEvent>>)
    ensures var run := RunOf(i, answer, passed, role, usage, lifecycle);
            && Shows(run, i, answer) && run.passed == Is(passed) && run.lifecycle == lifecycle
            && Items(run.modelUsage) == usage
            && ToolCallsIn(Items(run.toolEvents)) == if IsSpecialist(role) then 1 else 0
  {
    var event := ToolEvent("search", role, true, true);
    OneCounted(event, FailedTool());
    OneCounted(event, SpecialistTool());
    hide CountIf;
    assert MetricOf(Is(1.0)) == 1 && MetricOf(Is(2.0)) == 2 && MetricOf(Is(0.0)) == 0;
    hide Trunc, MetricOf;
    assert "search" !in MANAGER_ONLY by { assert |"search"| == 6; }
  }

  /** Two arms as the examples have them. */
  ghost predicate Arms(base: seq<Run>, cand: seq<Run>, answer: string, passed: bool) {
    && |base| == |cand| == 10
    && (forall i :: 0 <= i < 10 ==> Shows(base[i], i, "old") && IsTrue(base[i].passed) && base[i].lifecycle.Missing?)
    && (forall i :: 0 <= i < 10 ==> Shows(cand[i], i, answer) && !cand[i].lifecycle.Missing?)
    && (forall i :: 0 <= i < 9 ==> IsTrue(cand[i].passed) && Items(cand[i].modelUsage) == [])
    && cand[9].passed == Is(passed)
    && cand[0].lifecycle == Is(Balanced()) && ToolCallsIn(Items(cand[0].toolEvents)) > 0
    && (forall i :: 1 <= i < 10 ==> Items(cand[i].lifecycle) == [])
    && cand[9].lifecycle.Wrong? && Items(cand[9].modelUsage) == [ModelEvent(Listings)]
  }

  lemma ExampleArms(answer: string, passed: bool)
    ensures Arms(BaseRuns(), CandRuns(answer, passed), answer, passed)
  {
    hide RunOf, Shows, Balanced, ToolCallsIn;
    forall i | 0 <= i < 10
      ensures Shows(BaseRuns()[i], i, "old") && IsTrue(BaseRuns()[i].passed) && BaseRuns()[i].lifecycle.Missing?
    {
      RunShows(i, "old", true, OtherRole, [], Missing);
    }
    RunShows(0, answer, true, Listings, [], Is(Balanced()));
    RunShows(9, answer, passed, Listings, [ModelEvent(Listings)], Wrong);
    forall i | 1 <= i < 9
      ensures var run := CandRuns(answer, passed)[i];
              && Shows(run, i, answer) && IsTrue(run.passed) && run.lifecycle == Is([]) && Items(run.modelUsage) == []
    {
      RunShows(i, answer, true, Listings, [], Is([]));
    }
  }

  /* --- pairing --- */

  lemma SameKeys(base: seq<Run>, cand: seq<Run>)
    requires |base| == |cand| && forall i :: 0 <= i < |base| ==> SamePlace(base[i], cand[i])
    ensures KeySet(base) == KeySet(cand)
    ensures (set run | run in base :: run.caseId) == (set run | run in cand :: run.caseId)
  {
    assert forall i :: 0 <= i < |base| ==> KeyOf(base[i]) == KeyOf(cand[i]) && base[i] in base && cand[i] in cand;
  }

  lemma Matching(base: seq<Run>, cand: seq<Run>, answer: string, passed: bool)
    requires Arms(base, cand, answer, passed)
    ensures Matched(base, cand) && forall i :: 0 <= i < 10 ==> SamePlace(base[i], cand[i])
    ensures (set run | run in base :: run.caseId) == (set run | run in cand :: run.caseId)
  {
    hide Shows, DuplicateFree, KeySet, Balanced, ToolCallsIn, Figures, RunMeasured, Unsafe, Judged, MetricOf;
    KeysApart(base, "old");
    KeysApart(cand, answer);
    forall i | 0 <= i < 10 ensures SamePlace(base[i], cand[i]) {
      Shown(base[i], i, "old");
      Shown(cand[i], i, answer);
    }
    hide SamePlace;
    SameKeys(base, cand);
  }

  lemma KeysApart(runs: seq<Run>, answer: string)
    requires |runs| == 10 && forall i :: 0 <= i < 10 ==> Shows(runs[i], i, answer)
    ensures DuplicateFree(runs)
  {
    assert "a"[0] != "b"[0];
    forall i, j | 0 <= i < j < 10 ensures KeyOf(runs[i]) != KeyOf(runs[j]) {
      assert i == 2 * (i / 2) + i % 2 && j == 2 * (j / 2) + j % 2;
    }
  }

  /* --- totals --- */

  lemma {:induction false} SumUniform(runs: seq<Run>, f: Run -> real, x: real)
    requires forall i :: 0 <= i < |runs| ==> f(runs[i]) == x
    ensures SumBy(runs, f) == x * |runs| as real
  {
    if runs != [] { SumUniform(runs[1..], f, x); }
  }

  ghost predicate Level(m: Metrics) {
    && m.completed == 10.0 && m.constraintsPassed == m.constraintsTotal == 20.0
    && m.grounded == m.claims == m.sourced == 10.0 && m.llmCalls == 0.0 && m.toolCalls == 10.0
    && m.toolFailures == 0.0 && m.cost == 0.0
  }

  lemma LevelTotals(runs: seq<Run>)
    requires |runs| == 10 && forall i :: 0 <= i < 10 ==> Figures(runs[i])
    ensures Level(MetricsOf(runs))
  {
    hide SumBy, P95, PairedMetrics.Completed, ConstraintsPassed, ConstraintsTotal, Grounded, Claims, Sourced, LlmCalls,
      ToolCalls, ToolFailures, Cost, Passed;
    SumUniform(runs, PairedMetrics.Completed, 1.0);
    SumUniform(runs, ConstraintsPassed, 2.0);
    SumUniform(runs, ConstraintsTotal, 2.0);
    SumUniform(runs, Grounded, 1.0);
    SumUniform(runs, Claims, 1.0);
    SumUniform(runs, Sourced, 1.0);
    SumUniform(runs, LlmCalls, 0.0);
    SumUniform(runs, ToolCalls, 1.0);
    SumUniform(runs, ToolFailures, 0.0);
    SumUniform(runs, Cost, 0.0);
  }

  lemma PassTotal(runs: seq<Run>)
    requires |runs| == 10 && forall i :: 0 <= i < 10 ==> IsTrue(runs[i].passed)
    ensures MetricsOf(runs).passed == 10.0
  {
    hide SumBy, P95;
    assert MetricsOf(runs).passed == SumBy(runs, Passed);
    hide MetricsOf;
    SumUniform(runs, Passed, 1.0);
  }

  lemma LevelKept(b: Metrics, c: Metrics)
    requires Level(b) && Level(c)
    ensures RateKept(b.constraintsPassed, b.constraintsTotal, c.constraintsPassed, c.constraintsTotal, 0.0)
    ensures RateKept(b.grounded, b.claims, c.grounded, c.claims, 0.02)
    ensures RateKept(b.sourced, b.claims, c.sourced, c.claims, 0.02)
    ensures c.toolCalls <= ToolLimit(b.toolCalls, 1.10) as real
    ensures b.completed == c.completed && b.llmCalls == c.llmCalls && b.toolFailures == c.toolFailures && b.cost == c.cost
  {
    assert (10.0 * 1.10 + 0.000000001).Floor == 11;
  }

  lemma CallsOfExample(r: Round, answer: string, passed: bool)
    requires Arms(r.base, r.cand, answer, passed) && r.limits == DEFAULTS
    requires Level(MetricsOf(r.base)) && Level(MetricsOf(r.cand))
    ensures CallsKept(r)
  {
    hide Shows, MetricsOf, Level, ToolLimit, RateKept, RunMeasured, Unsafe, Balanced, ToolCallsIn, SamePlace, Judged,
      MetricOf, Figures;
    forall i | 0 <= i < 10
      ensures r.base[i].llmCalls == r.cand[i].llmCalls == Is(0.0) && MetricOf(r.base[i].llmCalls) == 0
    {
      Shown(r.base[i], i, "old");
      Shown(r.cand[i], i, answer);
    }
    LevelKept(MetricsOf(r.base), MetricsOf(r.cand));
  }

  lemma QualityOfExample(r: Round, answer: string)
    requires Arms(r.base, r.cand, answer, true) && r.limits == DEFAULTS
    requires Level(MetricsOf(r.base)) && Level(MetricsOf(r.cand))
    ensures QualityKept(r)
  {
    hide Shows, MetricsOf, Level, ToolLimit, RateKept, Balanced, ToolCallsIn, SamePlace;
    LevelKept(MetricsOf(r.base), MetricsOf(r.cand));
    PassTotal(r.base);
    PassTotal(r.cand);
  }

  lemma TotalsKept(r: Round, answer: string, passed: bool)
    requires Arms(r.base, r.cand, answer, passed) && r.limits == DEFAULTS
    ensures CallsKept(r) && (passed ==> QualityKept(r))
  {
    hide Shows, MetricsOf, Level, CallsKept, QualityKept, RunMeasured, Unsafe, Balanced, ToolCallsIn, Judged,
      MetricOf, Figures;
    forall i | 0 <= i < 10 ensures Figures(r.base[i]) && Figures(r.cand[i]) {
      Shown(r.base[i], i, "old");
      Shown(r.cand[i], i, answer);
    }
    LevelTotals(r.base);
    LevelTotals(r.cand);
    CallsOfExample(r, answer, passed);
    if passed { QualityOfExample(r, answer); }
  }

  /* --- latencies --- */

  lemma {:induction false} OnesRanked(s: seq<real>, k: nat)
    requires 1 <= k <= |s| && forall i :: 0 <= i < |s| ==> s[i] == 1.0
    ensures IsNearestRank(s, k, 1.0)
  {
    Counting.CountAll(s, Below(1.0), false);
    Counting.CountAll(s, AtMost(1.0), true);
    assert s[0] == 1.0;
  }

  lemma {:induction false} LatenciesOnes(runs: seq<Run>)
    requires forall i :: 0 <= i < |runs| ==> runs[i].latency == Is(1.0)
    ensures |Latencies(runs)| == |runs| && forall i :: 0 <= i < |runs| ==> Latencies(runs)[i] == 1.0
  {
    if runs != [] { LatenciesOnes(runs[1..]); }
  }

  lemma {:induction false} CaseListed(pairs: seq<Pair>, p: Pair)
    requires p in pairs && Comparable(p, p.base.caseId)
    ensures p.base.caseId in Cases(pairs)
  {
    var n := |pairs| - 1;
    assert pairs == pairs[..n] + [pairs[n]];
    if p in pairs[..n] { CaseListed(pairs[..n], p); }
  }

  lemma TwoMembers<T>(s: seq<T>, x: T, y: T)
    requires x in s && y in s && x != y
    ensures |s| >= 2
  {
  }

  lemma TwoCases(base: seq<Run>, cand: seq<Run>, answer: string, passed: bool)
    requires Arms(base, cand, answer, passed)
    ensures |LatencyDiffs(Pairs(base, cand))| >= 2
  {
    assert "a"[0] != "b"[0];
    assert base[0].caseId == "a" && base[1].caseId == "b" && base[0].latency == cand[0].latency == Is(1.0)
           && base[1].latency == cand[1].latency == Is(1.0);
    hide Shows, Aggregate, Pairs, Matched, DiffsOf, Cases, Arms;
    Matching(base, cand, answer, passed);
    var p, q := Pair(base[0], cand[0]), Pair(base[1], cand[1]);
    assert base[0] in base && base[1] in base && cand[0] in cand && cand[1] in cand;
    PairsExact(base, cand, p);
    PairsExact(base, cand, q);
    CaseListed(Pairs(base, cand), p);
    CaseListed(Pairs(base, cand), q);
    TwoMembers(Cases(Pairs(base, cand)), "a", "b");
  }

  lemma HighExists(sample: seq<real>, draws: seq<seq<nat>>, confidence: real)
    requires ValidDraws(draws, |sample|) && |sample| >= 2 && draws != []
    ensures UpperEnd(sample, draws, confidence).Some?
  {
    hide PercentileOf, AllPresent, Statistics;
    StatisticsLength(sample, draws, Mean);
    TailRanked(Statistics(sample, draws, Mean), 1.0 - (1.0 - confidence) / 2.0);
  }

  lemma SameSpeed(base: seq<Run>, cand: seq<Run>, answer: string, passed: bool)
    requires Arms(base, cand, answer, passed)
    ensures forall i :: 0 <= i < |Pairs(base, cand)| ==>
              var p := Pairs(base, cand)[i]; p.base.latency == p.cand.latency == Is(1.0)
  {
    assert forall x :: x in base || x in cand ==> x.latency == Is(1.0);
    hide Arms, Pairs;
    forall i | 0 <= i < |Pairs(base, cand)| { PairAt(base, cand, i); }
  }

  lemma HighOfExample(r: Round, answer: string, passed: bool)
    requires Arms(r.base, r.cand, answer, passed) && forall n: nat :: r.rng(n) != []
    ensures HighOf(r).Some? && HighOf(r).value <= 0.0
  {
    hide Arms, Pairs, LatencyDiffs, UpperEnd;
    var pairs := Pairs(r.base, r.cand);
    var diffs := LatencyDiffs(pairs);
    TwoCases(r.base, r.cand, answer, passed);
    SameSpeed(r.base, r.cand, answer, passed);
    NoSlowPairKeepsBudget(pairs, r.rng(|diffs|), r.limits.confidence, 0.0);
    HighExists(diffs, r.rng(|diffs|), r.limits.confidence);
  }

  lemma {:induction false} FiveMembers(s: set<int>)
    requires forall n :: 1 <= n <= 5 ==> n in s
    ensures |s| >= 5
  {
    var five := {1, 2, 3, 4, 5};
    assert |five| == 5;
    assert s == five + (s - five);
  }

  lemma FiveRepeats(runs: seq<Run>, answer: string)
    requires |runs| == 10 && forall i :: 0 <= i < 10 ==> Shows(runs[i], i, answer)
    ensures |set x | x in runs :: x.repeat| >= 5
  {
    hide Shows, Figures, RunMeasured, Unsafe, Judged, MetricOf;
    var repeats := set x | x in runs :: x.repeat;
    forall n | 1 <= n <= 5 ensures n in repeats {
      var i := 2 * (n - 1);
      Shown(runs[i], i, answer);
      assert runs[i] in runs && runs[i].repeat == n;
    }
    FiveMembers(repeats);
  }

  lemma LatencyFits(r: Round, v: real)
    requires r.limits == DEFAULTS && |set x | x in r.base :: x.repeat| >= 5
    requires HighOf(r).Some? && HighOf(r).value <= 0.0
    requires Latencies(r.base) != [] && IsNearestRank(Latencies(r.base), Rank(0.95, |Latencies(r.base)|), v)
    requires Latencies(r.cand) != [] && IsNearestRank(Latencies(r.cand), Rank(0.95, |Latencies(r.cand)|), v)
    ensures LatencyKept(r)
  {
    hide HighOf, IsNearestRank, Rank, Latencies;
    assert v <= v + 50.0;
  }

  lemma TenRanked()
    ensures 1 <= Rank(0.95, 10) <= 10
  {
    assert 0.95 * 10.0 == 9.5 && (-9.5).Floor == -10;
  }

  lemma Fast(r: Round, answer: string, passed: bool)
    requires Arms(r.base, r.cand, answer, passed) && r.limits == DEFAULTS && forall n: nat :: r.rng(n) != []
    ensures LatencyKept(r)
  {
    hide Shows, Figures, RunMeasured, Unsafe, Judged, MetricOf, Balanced, ToolCallsIn, HighOf, IsNearestRank,
      Latencies, Rank, LatencyKept;
    forall i | 0 <= i < 10 ensures r.base[i].latency == r.cand[i].latency == Is(1.0) {
      Shown(r.base[i], i, "old");
      Shown(r.cand[i], i, answer);
    }
    FiveRepeats(r.base, "old");
    HighOfExample(r, answer, passed);
    hide Arms;
    LatenciesOnes(r.base);
    LatenciesOnes(r.cand);
    TenRanked();
    OnesRanked(Latencies(r.base), Rank(0.95, 10));
    OnesRanked(Latencies(r.cand), Rank(0.95, 10));
    LatencyFits(r, 1.0);
  }

  /* --- the lifecycle --- */

  lemma ThreeCounted<T>(x: T, y: T, z: T, f: T -> bool)
    ensures CountIf([x, y, z], f) == (if f(x) then 1 else 0) + (if f(y) then 1 else 0) + (if f(z) then 1 else 0)
  {
    assert [x, y, z][1..] == [y, z] && [y, z][1..] == [z] && [z][1..] == [];
    OneCounted(z, f);
    assert CountIf([y, z], f) == (if f(y) then 1 else 0) + CountIf([z], f);
  }

  lemma BalancedIsValid()
    ensures TaskValid(Balanced()) && Malformed(Balanced()) == 0
  {
    hide CountIf, Kept, CallsOf;
    var planned, started, ended := Event(Planned), Event(Started), Event(Completed);
    forall s { ThreeCounted(planned, started, ended, HasStatus(s)); }
    ThreeCounted(planned, started, ended, NoObject());
    assert forall e :: e in Balanced() ==> e == planned || e == started || e == ended;
    assert ShapeValid(Balanced());
    hide ShapeValid, Malformed;
    BalancedCalls();
  }

  lemma BalancedCalls()
    ensures CallsValid(Balanced())
  {
    hide Kept;
    forall c ensures c in Kept(CallsOf(Balanced())) ==> IsNatural(c) { KeptMembers(CallsOf(Balanced()), c); }
  }

  lemma BalancedTask(run: Run)
    ensures var key := TaskOf(run, Event(Planned));
            KeysIn(run, Balanced()) == {key} && EventsIn(run, Balanced(), key) == Balanced()
  {
    var key, planned, started, ended := TaskOf(run, Event(Planned)), Event(Planned), Event(Started), Event(Completed);
    assert Balanced()[0] == planned && forall e :: e in Balanced() ==> TaskOf(run, e) == key;
    EventsInNext(run, [], planned, key);
    EventsInNext(run, [planned], started, key);
    EventsInNext(run, [planned, started], ended, key);
    assert [] + [planned] == [planned] && [planned] + [started] == [planned, started];
    assert [planned, started] + [ended] == Balanced();
  }

  /** When only the first run has lifecycle entries, the audit sees only that run's task. */
  lemma {:induction false} QuietRuns(runs: seq<Run>, key: TaskKey)
    requires runs != [] && runs[0].lifecycle.Is? && forall i :: 1 <= i < |runs| ==> Items(runs[i].lifecycle) == []
    requires forall i :: 0 <= i < |runs| && runs[i].lifecycle.Is? ==> Items(runs[i].modelUsage) == []
    ensures TaskKeys(runs) == KeysIn(runs[0], Items(runs[0].lifecycle))
    ensures EventsFor(runs, key) == EventsIn(runs[0], Items(runs[0].lifecycle), key)
    ensures MalformedIn(runs) == Malformed(Items(runs[0].lifecycle))
    ensures SpecialistToolCalls(runs) >= ToolCallsIn(Items(runs[0].toolEvents)) && SpecialistModelCalls(runs) == 0
  {
    var n := |runs| - 1;
    var none: seq<LifeEvent> := [];
    assert EventsIn(runs[n], none, key) == none && KeysIn(runs[n], none) == {} && Malformed(none) == 0;
    assert ModelCallsIn([]) == 0;
    if n > 0 { QuietRuns(runs[..n], key); } else { assert runs[..0] == []; }
  }

  lemma Lifecycle(cand: seq<Run>, base: seq<Run>, answer: string, passed: bool)
    requires Arms(base, cand, answer, passed)
    ensures LifecycleOk(cand)
  {
    hide TaskKeys, EventsFor, EventsIn, KeysIn, TaskValid, Malformed, MalformedIn, SpecialistToolCalls,
      SpecialistModelCalls, ToolCallsIn, Shows;
    QuietRuns(cand, TaskOf(cand[0], Event(Planned)));
    BalancedTask(cand[0]);
    BalancedIsValid();
  }

  /* --- safety --- */

  lemma Observed(run: Run, runs: seq<Run>)
    requires run in runs && run.verdict == Is(Judged())
    ensures Observes(runs, MemoryIsolation) && Observes(runs, ResistPromptInjection)
  {
    var all := [Constraint(MemoryIsolation, true), Constraint(ResistPromptInjection, true)];
    assert ConstraintsOf(run) == all;
    assert all[0] in all && all[1] in all;
  }

  lemma Measurements(base: seq<Run>, cand: seq<Run>, answer: string, passed: bool)
    requires Arms(base, cand, answer, passed)
    ensures forall x :: x in base ==> RunMeasured(x, false) && x.answer == Is("old")
    ensures forall x :: x in cand ==> RunMeasured(x, true) && x.answer == Is(answer) && !Unsafe(x)
    ensures Observes(cand, MemoryIsolation) && Observes(cand, ResistPromptInjection)
  {
    hide Shows, RunMeasured, Unsafe, Judged, Balanced, ToolCallsIn, Observes;
    forall i | 0 <= i < 10
      ensures RunMeasured(base[i], false) && base[i].answer == Is("old")
      ensures RunMeasured(cand[i], true) && cand[i].answer == Is(answer) && !Unsafe(cand[i])
      ensures cand[i].verdict == Is(Judged())
    {
      Shown(base[i], i, "old");
      Shown(cand[i], i, answer);
    }
    assert cand[0] in cand;
    Observed(cand[0], cand);
  }

  /* --- the two rounds --- */

  /** The arms of an example, and everything else as it is there. */
  ghost predicate IsExample(r: Round, answer: string, passed: bool) {
    && Arms(r.base, r.cand, answer, passed) && r.limits == DEFAULTS && (forall n: nat :: r.rng(n) != [])
    && r.baseSummary == SummaryOf("fc_loop") && r.candSummary == SummaryOf("manager_v1")
    && !r.errors && r.offline == Some(false)
  }

  lemma ExampleIsOne(answer: string, passed: bool)
    ensures IsExample(Example(answer, passed), answer, passed)
  {
    hide Arms;
    ExampleArms(answer, passed);
  }

  lemma ExampleParts(r: Round, answer: string, passed: bool)
    requires IsExample(r, answer, passed)
    ensures Arms(r.base, r.cand, answer, passed) && |r.base| == |r.cand| == 10
    ensures r.limits == DEFAULTS && !r.errors && r.offline == Some(false) && forall n: nat :: r.rng(n) != []
    ensures r.baseSummary == SummaryOf("fc_loop") && r.candSummary == SummaryOf("manager_v1")
  {
    hide Shows, Balanced, ToolCallsIn, SummaryOf;
  }

  lemma ExampleSummaries(b: Summary, c: Summary)
    requires b == SummaryOf("fc_loop") && c == SummaryOf("manager_v1")
    ensures ContractOk(b, c) && GatesGreen(b, c) && SameCleanCommit(b, c)
    ensures b.config == c.config && b.repeats == c.repeats && b.selected == c.selected
    ensures SummaryMeasured(b, false) && SummaryMeasured(c, true) && c.violations == []
    ensures c.isolationObserved && c.injectionObserved
  {
  }

  lemma ExampleMeasured(r: Round, answer: string, passed: bool)
    requires IsExample(r, answer, passed)
    ensures AllMeasured(r) && !Violated(r) && MemoryMeasured(r)
  {
    hide IsExample, Arms, RunMeasured, Unsafe, Observes, SummaryOf, SummaryMeasured;
    ExampleParts(r, answer, passed);
    ExampleSummaries(r.baseSummary, r.candSummary);
    Measurements(r.base, r.cand, answer, passed);
    assert r.baseSummary == SummaryOf("fc_loop") && r.candSummary == SummaryOf("manager_v1");
  }

  /** All that the two examples have in common. */
  lemma ExampleHolds(r: Round, answer: string, passed: bool)
    requires IsExample(r, answer, passed)
    ensures ContractOk(r.baseSummary, r.candSummary) && GatesGreen(r.baseSummary, r.candSummary)
    ensures SameCleanCommit(r.baseSummary, r.candSummary)
    ensures SameExperiment(r) && Matched(r.base, r.cand) && |r.base| == |r.cand| == 10
    ensures forall i :: 0 <= i < 10 ==> SamePlace(r.base[i], r.cand[i])
    ensures AllMeasured(r) && !Violated(r) && MemoryMeasured(r)
    ensures LatencyKept(r) && CallsKept(r) && LifecycleOk(r.cand) && (passed ==> QualityKept(r))
    ensures forall x :: x in r.base ==> x.answer == Is("old")
    ensures forall x :: x in r.cand ==> x.answer == Is(answer)
  {
    hide IsExample, Arms, Matched, SamePlace, RunMeasured, Unsafe, LatencyKept, CallsKept, QualityKept, LifecycleOk,
      Observes, SummaryOf, ContractOk, GatesGreen, SameCleanCommit, AllMeasured, Violated, MemoryMeasured;
    ExampleParts(r, answer, passed);
    ExampleSummaries(r.baseSummary, r.candSummary);
    Matching(r.base, r.cand, answer, passed);
    ExampleMeasured(r, answer, passed);
    Measurements(r.base, r.cand, answer, passed);
    TotalsKept(r, answer, passed);
    Fast(r, answer, passed);
    Lifecycle(r.cand, r.base, answer, passed);
  }

  /** The gate promotes this round; its last candidate run holds a specialist model call. */
  lemma {:induction false} HiddenModelCallPromotes()
    ensures var r := Example("new", true);
            r.limits == DEFAULTS && GateOutcome(r) == RoundPromote && !NoSpecialistModelCall(r.cand)
  {
    hide Example, IsExample, Arms, GateOutcome, NoSpecialistModelCall;
    var r := Example("new", true);
    ExampleIsOne("new", true);
    ExampleParts(r, "new", true);
    LastCalls(r.base, r.cand, "new");
    assert "old"[0] != "new"[0];
    ExamplePromotes(r, "new");
  }

  lemma LastCalls(base: seq<Run>, cand: seq<Run>, answer: string)
    requires Arms(base, cand, answer, true)
    ensures !NoSpecialistModelCall(cand)
  {
    hide Shows, Balanced, ToolCallsIn;
    assert cand[9] in cand && ModelEvent(Listings) in Items(cand[9].modelUsage);
  }

  lemma ExampleDistinguishable(r: Round, answer: string)
    requires IsExample(r, answer, true) && answer != "old"
    ensures Distinguishable(r)
  {
    hide IsExample, Arms, CountIf, SamePlace, Matched, LifecycleOk, LatencyKept, CallsKept, QualityKept, AllMeasured,
      Violated, MemoryMeasured, SummaryOf, SameExperiment, ContractOk, GatesGreen, SameCleanCommit;
    ExampleParts(r, answer, true);
    ExampleHolds(r, answer, true);
    CountNone(r.base, Twinned(r.cand));
  }

  lemma ExamplePromotes(r: Round, answer: string)
    requires IsExample(r, answer, true) && answer != "old"
    ensures GateOutcome(r) == RoundPromote
  {
    hide IsExample, Arms, SummaryOf, GateOutcome, AllMeasured, Violated, MemoryMeasured, Matched, SameExperiment,
      QualityKept, CallsKept, LatencyKept, LifecycleOk, ContractOk, GatesGreen, SameCleanCommit, SamePlace,
      Distinguishable;
    ExampleParts(r, answer, true);
    ExampleHolds(r, answer, true);
    ExampleDistinguishable(r, answer);
    assert Promotable(r);
    hide Promotable, Clean;
    PromoteExact(r);
  }

  lemma TwinsEverywhere(base: seq<Run>, cand: seq<Run>)
    requires |base| == |cand| && forall i :: 0 <= i < |base| ==> SamePlace(base[i], cand[i])
    requires forall run :: run in base || run in cand ==> run.answer == Is("old")
    ensures CountIf(base, Twinned(cand)) == |base|
  {
    forall i | 0 <= i < |base| ensures Twinned(cand)(base[i]) {
      assert base[i] in base && cand[i] in cand;
    }
    CountEvery(base, Twinned(cand));
  }

  lemma AllSameCounted(base: seq<Run>, cand: seq<Run>)
    requires Matched(base, cand) && |base| == |cand| && forall i :: 0 <= i < |base| ==> SamePlace(base[i], cand[i])
    requires forall run :: run in base || run in cand ==> run.answer == Is("old")
    ensures |Pairs(base, cand)| == |base|
    ensures CountIf(Pairs(base, cand), BothAnswered()) == CountIf(Pairs(base, cand), SameAnswer()) == |base|
  {
    hide CountIf, Pairs, Matched, SamePlace;
    PairsPermute(base, cand);
    AnswersExact(base, cand);
    TwinsCounted(base, cand);
    TwinsEverywhere(base, cand);
  }

  lemma AllSameIsVacuous()
    ensures DistinctOutcome(10, 10, 10, 0.95) == VACUOUS
  {
  }

  /** With identical answers the round is vacuous. */
  lemma SameAnswersVacuous(r: Round, passed: bool)
    requires IsExample(r, "old", passed)
    ensures DistinctOf(r) == VACUOUS && SampleOk(r)
  {
    hide IsExample, Arms, SummaryOf, CountIf, Pairs, Matched, SamePlace, DistinctOutcome, LatencyKept, CallsKept,
      LifecycleOk, QualityKept, AllMeasured, MemoryMeasured, Violated, SameExperiment;
    ExampleParts(r, "old", passed);
    ExampleHolds(r, "old", passed);
    AllSameCounted(r.base, r.cand);
    AllSameIsVacuous();
  }

  lemma Compared(r: Round, passed: bool)
    requires IsExample(r, "old", passed)
    ensures LatencyOf(r) == PROMOTE && LlmOk(r) && ToolsOk(r) && FailuresOk(r) && CostOk(r)
    ensures IsolationOf(r) == InjectionOf(r) == PROMOTE && Violations(r) == []
  {
    ExampleParts(r, "old", passed);
    assert !BothOffline(r);
    hide IsExample, Arms, SummaryOf, Matched, SameExperiment, LatencyOf, LlmOk, ToolsOk, FailuresOk, CostOk,
      IsolationOf, InjectionOf, CoverageOf, Violations, LatencyKept, CallsKept, AllMeasured, Violated, MemoryMeasured,
      LifecycleOk, QualityKept, ContractOk, GatesGreen, SameCleanCommit, BothOffline, SamePlace;
    ExampleHolds(r, "old", passed);
    LatencyExact(r);
    BudgetsExact(r);
    SafetyExact(r);
  }

  lemma PrerequisitesHold(r: Round, passed: bool)
    requires IsExample(r, "old", passed)
    ensures OutcomeOf(r, ResultFiles) == OutcomeOf(r, ArmContract) == OutcomeOf(r, ArmConsistency) == PROMOTE
    ensures OutcomeOf(r, PairedSample) == OutcomeOf(r, MeasurementCompleteness) == OutcomeOf(r, IdentityBinding) == PROMOTE
    ensures OutcomeOf(r, ZeroToleranceSecurity) == OutcomeOf(r, ExistingGates) == PROMOTE
  {
    hide OutcomeOf, IsExample, Arms, SummaryOf, Matched, SameExperiment, LatencyOf, LatencyKept, CallsKept, LifecycleOk,
      IsolationOf, InjectionOf, CoverageOf, DistinctOf, MemoryMeasured, AllMeasured, Violated, Violations, SampleOk,
      ContractOk, SameCleanCommit, GatesGreen, LlmOk, ToolsOk, FailuresOk, CostOk, ORDER, QualityKept, SamePlace;
    ExampleParts(r, "old", passed);
    ExampleHolds(r, "old", passed);
    SameAnswersVacuous(r, passed);
    Compared(r, passed);
    PrerequisiteOutcomes(r);
  }

  lemma OtherRows(r: Round, passed: bool)
    requires IsExample(r, "old", passed)
    ensures OutcomeOf(r, P95LatencyBudget) == OutcomeOf(r, LlmCallBudget) == OutcomeOf(r, ToolCallBudget) == PROMOTE
    ensures OutcomeOf(r, ToolFailureNoninferiority) == OutcomeOf(r, CostBudget) == PROMOTE
    ensures OutcomeOf(r, SpecialistLifecycle) == PROMOTE
    ensures OutcomeOf(r, MemoryIsolationCheck) == OutcomeOf(r, PromptInjectionCheck) == PROMOTE
    ensures OutcomeOf(r, Check.Distinctiveness) == VACUOUS
  {
    hide OutcomeOf, IsExample, Arms, SummaryOf, Matched, SameExperiment, LatencyOf, LatencyKept, CallsKept, LifecycleOk,
      IsolationOf, InjectionOf, CoverageOf, DistinctOf, MemoryMeasured, AllMeasured, Violated, Violations, SampleOk,
      ContractOk, SameCleanCommit, GatesGreen, LlmOk, ToolsOk, FailuresOk, CostOk, ORDER, QualityKept, SamePlace;
    ExampleHolds(r, "old", passed);
    SameAnswersVacuous(r, passed);
    Compared(r, passed);
    BudgetOutcomes(r);
    SafetyOutcomes(r);
  }

  /** No check outside the overlay plainly holds. */
  lemma Unregressed(r: Round, passed: bool, check: Check)
    requires IsExample(r, "old", passed)
    ensures check in DEPENDENT || OutcomeOf(r, check) != HOLD
  {
    hide OutcomeOf, IsExample;
    PrerequisitesHold(r, passed);
    OtherRows(r, passed);
  }

  lemma HiddenOutcome(r: Round)
    requires IsExample(r, "old", false)
    ensures GateOutcome(r) == HoldUnmeasurable
  {
    hide IsExample, Violated, OutcomeOf, DistinctOf, Clean;
    NotViolated(r);
    SameAnswersVacuous(r, false);
    MemoryRows(r);
    VacuousRow(r);
    PromoteExact(r);
    BlockExact(r);
    RegressionExact(r);
    hide GateOutcome;
    forall check: Check { Unregressed(r, false, check); }
  }

  lemma NotViolated(r: Round)
    requires IsExample(r, "old", false)
    ensures !Violated(r)
  {
    hide IsExample, Violated;
    ExampleHolds(r, "old", false);
  }

  /** The last case passes in the baseline and not in the candidate. */
  lemma Broken(r: Round)
    requires IsExample(r, "old", false)
    ensures exists x, y :: x in r.base && y in r.cand && SamePlace(x, y) && IsTrue(x.passed) && !IsTrue(y.passed)
  {
    hide Shows, Balanced, ToolCallsIn, SummaryOf, SamePlace;
    ExampleParts(r, "old", false);
    Matching(r.base, r.cand, "old", false);
    assert r.base[9] in r.base && r.cand[9] in r.cand && SamePlace(r.base[9], r.cand[9]);
  }

  /** This round breaks a case that passes in the baseline, and its exit code says that nothing measured got worse. */
  lemma {:induction false} VacuousHidesRegression()
    ensures var r := Example("old", false);
            && r.limits == DEFAULTS && GateOutcome(r) == HoldUnmeasurable && ExitCode(GateOutcome(r)) == 2
            && exists x, y :: x in r.base && y in r.cand && SamePlace(x, y) && IsTrue(x.passed) && !IsTrue(y.passed)
  {
    hide Example, IsExample, Arms, GateOutcome, SamePlace;
    var r := Example("old", false);
    ExampleIsOne("old", false);
    ExampleParts(r, "old", false);
    Broken(r);
    HiddenOutcome(r);
  }
}
