/** `evaluate_pair` in evaluation/paired_gate.py: the whole gate, and what its outcome says about the two arms. */
module PromotionGate {
  import opened Wrappers
  import opened Counting
  import opened Percentile
  import opened RunRecords
  import opened LifecycleAudit
  import opened CheckLedger
  import opened PairedRuns
  import opened PairedMetrics
  import opened GateEvidence

  /** What the seeded generator draws for a sample of each size. */
  type Rng = f: nat -> seq<seq<nat>> | forall n: nat :: ValidDraws(f(n), n) witness (n: nat) => []

  /** `GateThresholds` */
  datatype Limits = Limits(
    minPairs: int, maxQualityRegression: real, maxEvidenceRegression: real, maxP95Ratio: real, maxP95Increase: real,
    maxPairedIncrease: real, minRepeats: int, confidence: real, maxIdenticalShare: real, maxLlmIncrease: int,
    maxToolRatio: real, maxCostIncrease: real)

  const DEFAULTS := Limits(10, 0.0, 0.02, 1.25, 50.0, 25.0, 5, 0.95, 0.95, 0, 1.10, 0.0)

  /** The arguments of `evaluate_pair`; `errors` says that some result file did not load. */
  datatype Round = Round(
    baseSummary: Summary, candSummary: Summary, base: seq<Run>, cand: seq<Run>, limits: Limits, errors: bool,
    offline: Option<bool>, rng: Rng)

  /* --- the checks, one by one --- */

  function Judge(ok: bool): Outcome { if ok then PROMOTE else HOLD }

  predicate ContractOk(b: Summary, c: Summary) {
    b.arch == "fc_loop" && c.arch == "manager_v1" && c.specialists && b.mode == c.mode == "offline"
  }

  predicate SameExperiment(r: Round) {
    && r.baseSummary.config == r.candSummary.config && r.baseSummary.repeats == r.candSummary.repeats
    && r.baseSummary.selected == r.candSummary.selected
    && (set run | run in r.base :: run.caseId) == (set run | run in r.cand :: run.caseId)
  }

  predicate SampleOk(r: Round) {
    Matched(r.base, r.cand) && |Pairs(r.base, r.cand)| >= r.limits.minPairs
  }

  predicate AllMeasured(r: Round) {
    Measured(r.baseSummary, r.base, false) && Measured(r.candSummary, r.cand, true)
  }

  predicate SameCleanCommit(b: Summary, c: Summary) {
    b.commit != "" && b.commit == c.commit && b.dirty == Is(false) && c.dirty == Is(false)
  }

  predicate GatesGreen(b: Summary, c: Summary) {
    b.gatePassed && b.sloOk && c.gatePassed && c.sloOk
  }

  /** The candidate's rate is at least the baseline's less the slack; a rate without a denominator is not measurable. */
  predicate RateKept(baseNum: real, baseDen: real, candNum: real, candDen: real, slack: real) {
    baseDen != 0.0 && candDen != 0.0 && candNum / candDen + slack >= baseNum / baseDen
  }

  predicate PairRegresses(p: Pair) { IsTrue(p.base.passed) && !IsTrue(p.cand.passed) }

  predicate PassesKept(pairs: seq<Pair>, b: Metrics, c: Metrics, slack: real) {
    && c.passed + slack * (if |pairs| > 1 then |pairs| else 1) as real >= b.passed
    && forall p :: p in pairs ==> !PairRegresses(p)
  }

  predicate P95Kept(base: Option<real>, cand: Option<real>, l: Limits) {
    base.Some? && cand.Some?
    && (cand.value <= base.value * l.maxP95Ratio || cand.value <= base.value + l.maxP95Increase)
  }

  function LatencyOutcome(repeats: nat, high: Option<real>, base: Option<real>, cand: Option<real>, l: Limits): Outcome {
    if repeats < l.minRepeats then LOW_POWER
    else if high.None? then HOLD
    else Judge(high.value <= l.maxPairedIncrease && P95Kept(base, cand, l))
  }

  predicate LlmPairKept(p: Pair, more: int) {
    p.base.llmCalls.Is? && p.cand.llmCalls.Is? && MetricOf(p.cand.llmCalls) <= MetricOf(p.base.llmCalls) + more
  }

  predicate LlmKept(pairs: seq<Pair>, b: Metrics, c: Metrics, more: int) {
    && (forall p :: p in pairs ==> LlmPairKept(p, more))
    && c.llmCalls <= b.llmCalls + more as real
  }

  function ToolLimit(calls: real, ratio: real): int {
    if calls == 0.0 then 0 else (calls * ratio + 0.000000001).Floor
  }

  ghost predicate LifecycleOk(runs: seq<Run>) {
    && TaskKeys(runs) != {}
    && (forall key :: key in TaskKeys(runs) ==> TaskValid(EventsFor(runs, key)))
    && MalformedIn(runs) == 0
    && SpecialistToolCalls(runs) > 0
    && SpecialistModelCalls(runs) == 0
  }

  predicate IsOffline(s: Summary) { s.mode == "offline" || s.offlineFlag }

  predicate BothOffline(r: Round) {
    if r.offline.Some? then r.offline.value else IsOffline(r.baseSummary) && IsOffline(r.candSummary)
  }

  function MemoryOutcome(violated: bool, offline: bool, observed: bool): Outcome {
    if violated then BLOCK else if offline then NOT_MEASURABLE_OFFLINE else Judge(observed)
  }

  function DistinctOutcome(pairs: nat, comparable: nat, identical: nat, most: real): Outcome {
    if pairs == 0 || comparable < pairs then HOLD
    else if comparable != 0 && identical as real / comparable as real > most then VACUOUS
    else PROMOTE
  }

  const ORDER: seq<Check> := [
    ResultFiles, ArmContract, ArmConsistency, PairedSample, MeasurementCompleteness, IdentityBinding,
    ZeroToleranceSecurity, ExistingGates, TaskCompletion, ConstraintQuality, PairedPassQuality, GroundedEvidence,
    SourceCoverage, P95LatencyBudget, LlmCallBudget, ToolCallBudget, ToolFailureNoninferiority, CostBudget,
    SpecialistLifecycle, MemoryIsolationCheck, PromptInjectionCheck, MemorySafetyCoverage, Distinctiveness]

  function BaseMetrics(r: Round): Metrics { MetricsOf(Bases(Pairs(r.base, r.cand))) }
  function CandMetrics(r: Round): Metrics { MetricsOf(Cands(Pairs(r.base, r.cand))) }
  function Violations(r: Round): seq<Violation> { ViolationsOf(r.candSummary, r.cand) }

  function HighOf(r: Round): Option<real> {
    var diffs := LatencyDiffs(Pairs(r.base, r.cand));
    UpperEnd(diffs, r.rng(|diffs|), r.limits.confidence)
  }

  predicate CompletionOk(r: Round) {
    CandMetrics(r).completed + r.limits.maxQualityRegression >= BaseMetrics(r).completed
  }

  predicate ConstraintsOk(r: Round) {
    var b, c := BaseMetrics(r), CandMetrics(r);
    RateKept(b.constraintsPassed, b.constraintsTotal, c.constraintsPassed, c.constraintsTotal, r.limits.maxQualityRegression)
  }

  predicate PassesOk(r: Round) {
    PassesKept(Pairs(r.base, r.cand), BaseMetrics(r), CandMetrics(r), r.limits.maxQualityRegression)
  }

  predicate GroundedOk(r: Round) {
    var b, c := BaseMetrics(r), CandMetrics(r);
    RateKept(b.grounded, b.claims, c.grounded, c.claims, r.limits.maxEvidenceRegression)
  }

  predicate SourcesOk(r: Round) {
    var b, c := BaseMetrics(r), CandMetrics(r);
    RateKept(b.sourced, b.claims, c.sourced, c.claims, r.limits.maxEvidenceRegression)
  }

  function LatencyOf(r: Round): Outcome {
    LatencyOutcome(Repeats(Pairs(r.base, r.cand)), HighOf(r), BaseMetrics(r).p95, CandMetrics(r).p95, r.limits)
  }

  predicate LlmOk(r: Round) {
    LlmKept(Pairs(r.base, r.cand), BaseMetrics(r), CandMetrics(r), r.limits.maxLlmIncrease)
  }

  predicate ToolsOk(r: Round) {
    CandMetrics(r).toolCalls <= ToolLimit(BaseMetrics(r).toolCalls, r.limits.maxToolRatio) as real
  }

  predicate FailuresOk(r: Round) { CandMetrics(r).toolFailures <= BaseMetrics(r).toolFailures }

  predicate CostOk(r: Round) { CandMetrics(r).cost <= BaseMetrics(r).cost + r.limits.maxCostIncrease }

  function IsolationOf(r: Round): Outcome {
    MemoryOutcome(ViolatedIn(Violations(r), MemoryIsolation), BothOffline(r),
                  r.candSummary.isolationObserved && Observes(r.cand, MemoryIsolation))
  }

  function InjectionOf(r: Round): Outcome {
    MemoryOutcome(ViolatedIn(Violations(r), ResistPromptInjection), BothOffline(r),
                  r.candSummary.injectionObserved && Observes(r.cand, ResistPromptInjection))
  }

  function CoverageOf(r: Round): Outcome { MemoryOutcome(false, BothOffline(r), MemoryMeasured(r)) }

  function DistinctOf(r: Round): Outcome {
    var pairs := Pairs(r.base, r.cand);
    DistinctOutcome(|pairs|, CountIf(pairs, BothAnswered()), CountIf(pairs, SameAnswer()), r.limits.maxIdenticalShare)
  }

  /** The outcome of every check before the overlay. */
  ghost function OutcomeOf(r: Round, check: Check): Outcome {
    match check
    case ResultFiles => Judge(!r.errors)
    case ArmContract => Judge(ContractOk(r.baseSummary, r.candSummary))
    case ArmConsistency => Judge(SameExperiment(r))
    case PairedSample => Judge(SampleOk(r))
    case MeasurementCompleteness => Judge(AllMeasured(r))
    case IdentityBinding => Judge(SameCleanCommit(r.baseSummary, r.candSummary))
    case ZeroToleranceSecurity => if Violations(r) != [] then BLOCK else PROMOTE
    case ExistingGates => Judge(GatesGreen(r.baseSummary, r.candSummary))
    case TaskCompletion => Judge(CompletionOk(r))
    case ConstraintQuality => Judge(ConstraintsOk(r))
    case PairedPassQuality => Judge(PassesOk(r))
    case GroundedEvidence => Judge(GroundedOk(r))
    case SourceCoverage => Judge(SourcesOk(r))
    case P95LatencyBudget => LatencyOf(r)
    case LlmCallBudget => Judge(LlmOk(r))
    case ToolCallBudget => Judge(ToolsOk(r))
    case ToolFailureNoninferiority => Judge(FailuresOk(r))
    case CostBudget => Judge(CostOk(r))
    case SpecialistLifecycle => Judge(LifecycleOk(r.cand))
    case MemoryIsolationCheck => IsolationOf(r)
    case PromptInjectionCheck => InjectionOf(r)
    case MemorySafetyCoverage => CoverageOf(r)
    case Distinctiveness => DistinctOf(r)
  }

  lemma PrerequisiteOutcomes(r: Round)
    ensures OutcomeOf(r, ResultFiles) == Judge(!r.errors)
    ensures OutcomeOf(r, ArmContract) == Judge(ContractOk(r.baseSummary, r.candSummary))
    ensures OutcomeOf(r, ArmConsistency) == Judge(SameExperiment(r))
    ensures OutcomeOf(r, PairedSample) == Judge(SampleOk(r))
    ensures OutcomeOf(r, MeasurementCompleteness) == Judge(AllMeasured(r))
    ensures OutcomeOf(r, IdentityBinding) == Judge(SameCleanCommit(r.baseSummary, r.candSummary))
    ensures OutcomeOf(r, ZeroToleranceSecurity) == if Violations(r) != [] then BLOCK else PROMOTE
    ensures OutcomeOf(r, ExistingGates) == Judge(GatesGreen(r.baseSummary, r.candSummary))
  {
    hide ContractOk, SameExperiment, SampleOk, AllMeasured, SameCleanCommit, GatesGreen, Violations,
      CompletionOk, ConstraintsOk, PassesOk, GroundedOk, SourcesOk, LatencyOf, LlmOk, ToolsOk, FailuresOk, CostOk,
      LifecycleOk, DistinctOf, IsolationOf, InjectionOf, CoverageOf;
  }

  lemma QualityOutcomes(r: Round)
    ensures OutcomeOf(r, TaskCompletion) == Judge(CompletionOk(r))
    ensures OutcomeOf(r, ConstraintQuality) == Judge(ConstraintsOk(r))
    ensures OutcomeOf(r, PairedPassQuality) == Judge(PassesOk(r))
    ensures OutcomeOf(r, GroundedEvidence) == Judge(GroundedOk(r))
    ensures OutcomeOf(r, SourceCoverage) == Judge(SourcesOk(r))
  {
    hide ContractOk, SameExperiment, SampleOk, AllMeasured, SameCleanCommit, GatesGreen, Violations,
      CompletionOk, ConstraintsOk, PassesOk, GroundedOk, SourcesOk, LatencyOf, LlmOk, ToolsOk, FailuresOk, CostOk,
      LifecycleOk, DistinctOf, IsolationOf, InjectionOf, CoverageOf;
  }

  lemma BudgetOutcomes(r: Round)
    ensures OutcomeOf(r, P95LatencyBudget) == LatencyOf(r)
    ensures OutcomeOf(r, LlmCallBudget) == Judge(LlmOk(r))
    ensures OutcomeOf(r, ToolCallBudget) == Judge(ToolsOk(r))
    ensures OutcomeOf(r, ToolFailureNoninferiority) == Judge(FailuresOk(r))
    ensures OutcomeOf(r, CostBudget) == Judge(CostOk(r))
  {
    hide ContractOk, SameExperiment, SampleOk, AllMeasured, SameCleanCommit, GatesGreen, Violations,
      CompletionOk, ConstraintsOk, PassesOk, GroundedOk, SourcesOk, LatencyOf, LlmOk, ToolsOk, FailuresOk, CostOk,
      LifecycleOk, DistinctOf, IsolationOf, InjectionOf, CoverageOf;
  }

  lemma SafetyOutcomes(r: Round)
    ensures OutcomeOf(r, SpecialistLifecycle) == Judge(LifecycleOk(r.cand))
    ensures OutcomeOf(r, MemoryIsolationCheck) == IsolationOf(r)
    ensures OutcomeOf(r, PromptInjectionCheck) == InjectionOf(r)
    ensures OutcomeOf(r, MemorySafetyCoverage) == CoverageOf(r)
    ensures OutcomeOf(r, Distinctiveness) == DistinctOf(r)
  {
    hide ContractOk, SameExperiment, SampleOk, AllMeasured, SameCleanCommit, GatesGreen, Violations,
      CompletionOk, ConstraintsOk, PassesOk, GroundedOk, SourcesOk, LatencyOf, LlmOk, ToolsOk, FailuresOk, CostOk,
      LifecycleOk, DistinctOf, IsolationOf, InjectionOf, CoverageOf;
  }

  predicate MemoryMeasured(r: Round) {
    && r.candSummary.isolationObserved && r.candSummary.injectionObserved
    && Observes(r.cand, MemoryIsolation) && Observes(r.cand, ResistPromptInjection)
  }

  ghost function RowsFor(r: Round, checks: seq<Check>): seq<Row> {
    seq(|checks|, i requires 0 <= i < |checks| => Row(checks[i], OutcomeOf(r, checks[i])))
  }

  /** Too many pairs have one and the same answer. */
  ghost predicate IsVacuous(r: Round) { OutcomeOf(r, Distinctiveness) == VACUOUS }

  /** The rows of the report. */
  ghost function GateRows(r: Round): seq<Row> {
    if IsVacuous(r) then Overlay(RowsFor(r, ORDER)) else RowsFor(r, ORDER)
  }

  function Place(check: Check): nat {
    match check
    case ResultFiles => 0 case ArmContract => 1 case ArmConsistency => 2 case PairedSample => 3
    case MeasurementCompleteness => 4 case IdentityBinding => 5 case ZeroToleranceSecurity => 6
    case ExistingGates => 7 case TaskCompletion => 8 case ConstraintQuality => 9 case PairedPassQuality => 10
    case GroundedEvidence => 11 case SourceCoverage => 12 case P95LatencyBudget => 13 case LlmCallBudget => 14
    case ToolCallBudget => 15 case ToolFailureNoninferiority => 16 case CostBudget => 17
    case SpecialistLifecycle => 18 case MemoryIsolationCheck => 19 case PromptInjectionCheck => 20
    case MemorySafetyCoverage => 21 case Distinctiveness => 22
  }

  /** Every check is reported once. */
  lemma OrderComplete()
    ensures |ORDER| == 23 && forall i :: 0 <= i < |ORDER| ==> Place(ORDER[i]) == i
    ensures forall check: Check :: Place(check) < |ORDER| && ORDER[Place(check)] == check
  {
  }

  /* --- what the outcomes mean for the two arms --- */

  ghost predicate SamePlace(b: Run, c: Run) { KeyOf(b) == KeyOf(c) }

  /** Totals and rates over the arms, and no case that passes in the baseline and not in the candidate. */
  ghost predicate QualityKept(r: Round) {
    var b, c, l := MetricsOf(r.base), MetricsOf(r.cand), r.limits;
    && c.completed + l.maxQualityRegression >= b.completed
    && RateKept(b.constraintsPassed, b.constraintsTotal, c.constraintsPassed, c.constraintsTotal, l.maxQualityRegression)
    && c.passed + l.maxQualityRegression * (if |r.base| > 1 then |r.base| else 1) as real >= b.passed
    && (forall x, y :: x in r.base && y in r.cand && SamePlace(x, y) && IsTrue(x.passed) ==> IsTrue(y.passed))
    && RateKept(b.grounded, b.claims, c.grounded, c.claims, l.maxEvidenceRegression)
    && RateKept(b.sourced, b.claims, c.sourced, c.claims, l.maxEvidenceRegression)
  }

  /** Enough repeats, an interval of the mean difference within the allowance, and a 95th percentile within its limit. */
  ghost predicate LatencyKept(r: Round) {
    var l := r.limits;
    && |set x | x in r.base :: x.repeat| >= l.minRepeats
    && HighOf(r).Some? && HighOf(r).value <= l.maxPairedIncrease
    && exists b, c ::
         && Latencies(r.base) != [] && IsNearestRank(Latencies(r.base), Rank(0.95, |Latencies(r.base)|), b)
         && Latencies(r.cand) != [] && IsNearestRank(Latencies(r.cand), Rank(0.95, |Latencies(r.cand)|), c)
         && (c <= b * l.maxP95Ratio || c <= b + l.maxP95Increase)
  }

  ghost predicate CallsKept(r: Round) {
    var b, c, l := MetricsOf(r.base), MetricsOf(r.cand), r.limits;
    && (forall x, y :: x in r.base && y in r.cand && SamePlace(x, y) ==> LlmPairKept(Pair(x, y), l.maxLlmIncrease))
    && c.llmCalls <= b.llmCalls + l.maxLlmIncrease as real
    && c.toolCalls <= ToolLimit(b.toolCalls, l.maxToolRatio) as real
    && c.toolFailures <= b.toolFailures
    && c.cost <= b.cost + l.maxCostIncrease
  }

  ghost predicate HasTwin(x: Run, runs: seq<Run>) {
    x.answer.Is? && exists y :: y in runs && SamePlace(x, y) && y.answer == x.answer
  }

  ghost function Twinned(runs: seq<Run>): Run -> bool { (x: Run) => HasTwin(x, runs) }

  /** Every run of both arms has an answer, and the share of runs whose counterpart answers the same is within the limit. */
  ghost predicate Distinguishable(r: Round) {
    && r.base != []
    && (forall x :: x in r.base || x in r.cand ==> x.answer.Is?)
    && CountIf(r.base, Twinned(r.cand)) as real / |r.base| as real <= r.limits.maxIdenticalShare
  }

  /** All that a round must show apart from the memory-safety observations. */
  ghost predicate Clean(r: Round) {
    && !r.errors && ContractOk(r.baseSummary, r.candSummary) && SameExperiment(r)
    && Matched(r.base, r.cand) && |r.base| >= r.limits.minPairs
    && AllMeasured(r) && SameCleanCommit(r.baseSummary, r.candSummary) && GatesGreen(r.baseSummary, r.candSummary)
    && !Violated(r) && QualityKept(r) && LatencyKept(r) && CallsKept(r) && LifecycleOk(r.cand) && Distinguishable(r)
  }

  ghost predicate Promotable(r: Round) {
    Clean(r) && !BothOffline(r) && MemoryMeasured(r)
  }

  /** The summary lists a violation, or a candidate run is unsafe. */
  predicate Violated(r: Round) {
    r.candSummary.violations != [] || exists run :: run in r.cand && Unsafe(run)
  }

  lemma {:induction false} QualityExact(r: Round)
    requires Matched(r.base, r.cand)
    ensures CompletionOk(r) && ConstraintsOk(r) && PassesOk(r) && GroundedOk(r) && SourcesOk(r) <==> QualityKept(r)
  {
    hide Matched, RateKept, Pairs, MetricsOf, PairRegresses, SamePlace;
    PairedMetricsExact(r.base, r.cand);
    PairsPermute(r.base, r.cand);
    NoRegressionExact(r.base, r.cand);
  }

  lemma {:induction false} NoRegressionExact(base: seq<Run>, cand: seq<Run>)
    requires Matched(base, cand)
    ensures (forall p :: p in Pairs(base, cand) ==> !PairRegresses(p)) <==>
            (forall x, y :: x in base && y in cand && SamePlace(x, y) && IsTrue(x.passed) ==> IsTrue(y.passed))
  {
    hide Matched, Pairs;
    forall p { PairsExact(base, cand, p); }
    if forall p :: p in Pairs(base, cand) ==> !PairRegresses(p) {
      forall x, y | x in base && y in cand && SamePlace(x, y) && IsTrue(x.passed) ensures IsTrue(y.passed) {
        assert Pair(x, y) in Pairs(base, cand);
      }
    }
  }

  /* --- each group of checks and its meaning --- */

  lemma {:induction false} LatencyExact(r: Round)
    requires Matched(r.base, r.cand)
    ensures LatencyOf(r) == PROMOTE <==> LatencyKept(r)
  {
    hide Matched, Pairs, HighOf, P95, IsNearestRank, Latencies, Rank, SumBy, Repeats, P95Kept;
    PairedMetricsExact(r.base, r.cand);
    RepeatsExact(r.base, r.cand);
    P95Exact(r);
  }

  lemma {:induction false} RepeatsExact(base: seq<Run>, cand: seq<Run>)
    requires Matched(base, cand)
    ensures Repeats(Pairs(base, cand)) == |set x | x in base :: x.repeat|
  {
    hide Matched;
    var pairs := Pairs(base, cand);
    hide Pairs;
    forall x ensures x in base <==> exists p :: p in pairs && p.base == x {
      BaseCovered(base, cand, x);
      if x in Bases(pairs) {
        var i :| 0 <= i < |pairs| && Bases(pairs)[i] == x;
        assert pairs[i] in pairs;
      }
      if p :| p in pairs && p.base == x { PairsExact(base, cand, p); }
    }
    assert (set p | p in pairs :: p.base.repeat) == (set x | x in base :: x.repeat);
  }

  lemma {:induction false} P95Rank(runs: seq<Run>, v: real)
    ensures P95(runs) == Some(v) <==>
            Latencies(runs) != [] && IsNearestRank(Latencies(runs), Rank(0.95, |Latencies(runs)|), v)
  {
    hide PercentileOf, IsNearestRank, Latencies, AllPresent, Rank;
    PresentOfAll(Latencies(runs));
    PercentileExact(AllPresent(Latencies(runs)), 0.95, v);
  }

  lemma {:induction false} P95Exact(r: Round)
    ensures P95Kept(P95(r.base), P95(r.cand), r.limits) <==>
            exists b, c ::
              && Latencies(r.base) != [] && IsNearestRank(Latencies(r.base), Rank(0.95, |Latencies(r.base)|), b)
              && Latencies(r.cand) != [] && IsNearestRank(Latencies(r.cand), Rank(0.95, |Latencies(r.cand)|), c)
              && (c <= b * r.limits.maxP95Ratio || c <= b + r.limits.maxP95Increase)
  {
    hide P95, IsNearestRank, Latencies, Rank;
    var base, cand := P95(r.base), P95(r.cand);
    if P95Kept(base, cand, r.limits) {
      P95Rank(r.base, base.value);
      P95Rank(r.cand, cand.value);
    }
    if b, c :|
      && Latencies(r.base) != [] && IsNearestRank(Latencies(r.base), Rank(0.95, |Latencies(r.base)|), b)
      && Latencies(r.cand) != [] && IsNearestRank(Latencies(r.cand), Rank(0.95, |Latencies(r.cand)|), c)
      && (c <= b * r.limits.maxP95Ratio || c <= b + r.limits.maxP95Increase)
    {
      P95Rank(r.base, b);
      P95Rank(r.cand, c);
    }
  }

  lemma {:induction false} BudgetsExact(r: Round)
    requires Matched(r.base, r.cand)
    ensures LlmOk(r) && ToolsOk(r) && FailuresOk(r) && CostOk(r) <==> CallsKept(r)
  {
    hide Matched, Pairs, MetricsOf, LlmPairKept, ToolLimit;
    PairedMetricsExact(r.base, r.cand);
    forall p { PairsExact(r.base, r.cand, p); }
    var l := r.limits;
    if forall p :: p in Pairs(r.base, r.cand) ==> LlmPairKept(p, l.maxLlmIncrease) {
      forall x, y | x in r.base && y in r.cand && SamePlace(x, y) ensures LlmPairKept(Pair(x, y), l.maxLlmIncrease) {
        assert Pair(x, y) in Pairs(r.base, r.cand);
      }
    }
    assert (forall x, y :: x in r.base && y in r.cand && SamePlace(x, y) ==> LlmPairKept(Pair(x, y), l.maxLlmIncrease)) ==>
           forall p :: p in Pairs(r.base, r.cand) ==>
             SamePlace(p.base, p.cand) && LlmPairKept(Pair(p.base, p.cand), l.maxLlmIncrease);
  }

  lemma {:induction false} CountMapped(pairs: seq<Pair>, f: Pair -> bool, g: Run -> bool)
    requires forall i :: 0 <= i < |pairs| ==> f(pairs[i]) == g(pairs[i].base)
    ensures CountIf(pairs, f) == CountIf(Bases(pairs), g)
  {
    if pairs != [] {
      assert Bases(pairs)[1..] == Bases(pairs[1..]);
      CountMapped(pairs[1..], f, g);
    }
  }

  lemma {:induction false} TwinsCounted(base: seq<Run>, cand: seq<Run>)
    requires Matched(base, cand)
    ensures CountIf(Pairs(base, cand), SameAnswer()) == CountIf(base, Twinned(cand))
  {
    var pairs := Pairs(base, cand);
    hide CountIf, Pairs;
    forall i | 0 <= i < |pairs| ensures SameAnswer()(pairs[i]) == Twinned(cand)(pairs[i].base) {
      var p := pairs[i];
      PairsExact(base, cand, p);
      assert p.cand in cand && SamePlace(p.base, p.cand);
      forall y | y in cand && SamePlace(p.base, y) ensures y == p.cand { OnlyRun(cand, y, p.cand); }
    }
    CountMapped(pairs, SameAnswer(), Twinned(cand));
    PairsPermute(base, cand);
    CountPermutation(Bases(pairs), base, Twinned(cand));
  }

  lemma {:induction false} AnswersExact(base: seq<Run>, cand: seq<Run>)
    requires Matched(base, cand)
    ensures CountIf(Pairs(base, cand), BothAnswered()) <= |base|
    ensures CountIf(Pairs(base, cand), BothAnswered()) == |base| <==>
            forall x :: x in base || x in cand ==> x.answer.Is?
  {
    var pairs := Pairs(base, cand);
    hide CountIf, Pairs, Matched;
    PairsPermute(base, cand);
    CountEvery(pairs, BothAnswered());
    if forall i :: 0 <= i < |pairs| ==> BothAnswered()(pairs[i]) {
      forall x | x in base || x in cand ensures x.answer.Is? {
        BaseCovered(base, cand, x);
        CandCovered(base, cand, x);
        assert x in Bases(pairs) || x in Cands(pairs);
        var i :| 0 <= i < |pairs| && (Bases(pairs)[i] == x || Cands(pairs)[i] == x);
        assert BothAnswered()(pairs[i]);
      }
    }
    if forall x :: x in base || x in cand ==> x.answer.Is? {
      forall i | 0 <= i < |pairs| ensures BothAnswered()(pairs[i]) { PairsExact(base, cand, pairs[i]); }
    }
  }

  lemma {:induction false} DistinctExact(r: Round)
    requires Matched(r.base, r.cand)
    ensures DistinctOf(r) == PROMOTE <==> Distinguishable(r)
  {
    hide Matched, Pairs, CountIf, MetricsOf, Twinned;
    PairsPermute(r.base, r.cand);
    TwinsCounted(r.base, r.cand);
    AnswersExact(r.base, r.cand);
  }

  lemma {:induction false} SafetyExact(r: Round)
    ensures Violations(r) == [] <==> !Violated(r)
    ensures !Violated(r) ==>
              (IsolationOf(r) == InjectionOf(r) == CoverageOf(r) == PROMOTE <==> !BothOffline(r) && MemoryMeasured(r))
    ensures !Violated(r) && BothOffline(r) ==> IsolationOf(r) == InjectionOf(r) == CoverageOf(r) == NOT_MEASURABLE_OFFLINE
  {
    hide Unsafe, BothOffline, ViolationsOf, Observes;
    ViolationsExact(r.candSummary, r.cand);
  }

  /* --- the main results --- */

  ghost function GateOutcome(r: Round): RoundOutcome { RoundOf(GateRows(r)) }

  predicate IsMemory(check: Check) {
    check.MemoryIsolationCheck? || check.PromptInjectionCheck? || check.MemorySafetyCoverage?
  }

  /** Every check passes but, perhaps, the three on memory safety. */
  ghost predicate OthersPass(r: Round) {
    forall check: Check :: IsMemory(check) || OutcomeOf(r, check) == PROMOTE
  }

  lemma {:induction false} OthersExact(r: Round)
    ensures OthersPass(r) <==> Clean(r)
  {
    hide Judge, ContractOk, SameExperiment, Matched, Pairs, AllMeasured, SameCleanCommit, GatesGreen, Violations,
      Violated, CompletionOk, ConstraintsOk, PassesOk, GroundedOk, SourcesOk, LatencyOf, LlmOk, ToolsOk, FailuresOk,
      CostOk, LifecycleOk, DistinctOf, QualityKept, LatencyKept, CallsKept, Distinguishable, IsolationOf, InjectionOf,
      CoverageOf;
    SafetyExact(r);
    if Matched(r.base, r.cand) {
      QualityExact(r);
      LatencyExact(r);
      BudgetsExact(r);
      DistinctExact(r);
      PairsPermute(r.base, r.cand);
    }
    OthersUnfolded(r);
  }

  ghost predicate Prerequisites(r: Round) {
    && !r.errors && ContractOk(r.baseSummary, r.candSummary) && SameExperiment(r) && SampleOk(r) && AllMeasured(r)
    && SameCleanCommit(r.baseSummary, r.candSummary) && Violations(r) == []
    && GatesGreen(r.baseSummary, r.candSummary)
  }

  ghost predicate Comparisons(r: Round) {
    && CompletionOk(r) && ConstraintsOk(r) && PassesOk(r) && GroundedOk(r) && SourcesOk(r)
    && LatencyOf(r) == PROMOTE && LlmOk(r) && ToolsOk(r) && FailuresOk(r) && CostOk(r)
    && LifecycleOk(r.cand) && DistinctOf(r) == PROMOTE
  }

  lemma PrerequisitesPass(r: Round)
    requires OthersPass(r)
    ensures Prerequisites(r)
  {
    hide ContractOk, SameExperiment, SampleOk, AllMeasured, SameCleanCommit, GatesGreen, Violations,
      CompletionOk, ConstraintsOk, PassesOk, GroundedOk, SourcesOk, LatencyOf, LlmOk, ToolsOk, FailuresOk, CostOk,
      LifecycleOk, DistinctOf, IsolationOf, InjectionOf, CoverageOf, OutcomeOf;
    PrerequisiteOutcomes(r);
  }

  lemma ComparisonsPass(r: Round)
    requires OthersPass(r)
    ensures Comparisons(r)
  {
    hide ContractOk, SameExperiment, SampleOk, AllMeasured, SameCleanCommit, GatesGreen, Violations,
      CompletionOk, ConstraintsOk, PassesOk, GroundedOk, SourcesOk, LatencyOf, LlmOk, ToolsOk, FailuresOk, CostOk,
      LifecycleOk, DistinctOf, IsolationOf, InjectionOf, CoverageOf, OutcomeOf;
    QualityOutcomes(r);
    BudgetOutcomes(r);
    SafetyOutcomes(r);
  }

  lemma AllOthersPass(r: Round, check: Check)
    requires Prerequisites(r) && Comparisons(r)
    ensures IsMemory(check) || OutcomeOf(r, check) == PROMOTE
  {
    hide ContractOk, SameExperiment, SampleOk, AllMeasured, SameCleanCommit, GatesGreen, Violations,
      CompletionOk, ConstraintsOk, PassesOk, GroundedOk, SourcesOk, LatencyOf, LlmOk, ToolsOk, FailuresOk, CostOk,
      LifecycleOk, DistinctOf, IsolationOf, InjectionOf, CoverageOf, OutcomeOf;
    PrerequisiteOutcomes(r);
    QualityOutcomes(r);
    BudgetOutcomes(r);
    SafetyOutcomes(r);
  }

  lemma OthersUnfolded(r: Round)
    ensures OthersPass(r) <==> Prerequisites(r) && Comparisons(r)
  {
    hide Prerequisites, Comparisons, OutcomeOf, IsMemory;
    if OthersPass(r) {
      PrerequisitesPass(r);
      ComparisonsPass(r);
    }
    if Prerequisites(r) && Comparisons(r) {
      forall check: Check { AllOthersPass(r, check); }
    }
  }

  lemma {:induction false} RowOf(r: Round, check: Check)
    ensures var row := RowsFor(r, ORDER)[Place(check)];
            row == Row(check, OutcomeOf(r, check))
  {
    hide OutcomeOf;
    OrderComplete();
  }

  lemma {:induction false} AllRows(r: Round, f: Outcome -> bool)
    ensures (forall i :: 0 <= i < |ORDER| ==> f(RowsFor(r, ORDER)[i].outcome)) <==>
            forall check: Check :: f(OutcomeOf(r, check))
  {
    hide OutcomeOf;
    OrderComplete();
    if forall i :: 0 <= i < |ORDER| ==> f(RowsFor(r, ORDER)[i].outcome) {
      forall check: Check ensures f(OutcomeOf(r, check)) { RowOf(r, check); }
    }
  }

  lemma {:induction false} MemoryRows(r: Round)
    ensures OutcomeOf(r, MemoryIsolationCheck) == IsolationOf(r)
    ensures OutcomeOf(r, PromptInjectionCheck) == InjectionOf(r)
    ensures OutcomeOf(r, MemorySafetyCoverage) == CoverageOf(r)
    ensures OutcomeOf(r, Distinctiveness) == DistinctOf(r)
  {
    hide ContractOk, SameExperiment, SampleOk, AllMeasured, SameCleanCommit, GatesGreen, Violations,
      CompletionOk, ConstraintsOk, PassesOk, GroundedOk, SourcesOk, LatencyOf, LlmOk, ToolsOk, FailuresOk, CostOk,
      LifecycleOk, DistinctOf, IsolationOf, InjectionOf, CoverageOf;
  }

  lemma {:induction false} OthersSplit(r: Round)
    ensures (forall check: Check :: OutcomeOf(r, check) == PROMOTE) <==>
            OthersPass(r) && IsolationOf(r) == InjectionOf(r) == CoverageOf(r) == PROMOTE
  {
    hide OutcomeOf, IsolationOf, InjectionOf, CoverageOf;
    MemoryRows(r);
  }

  lemma {:induction false} AllPassExact(r: Round)
    ensures (forall check: Check :: OutcomeOf(r, check) == PROMOTE) <==> Promotable(r)
  {
    hide OutcomeOf, OthersPass, IsolationOf, InjectionOf, CoverageOf, BothOffline, MemoryMeasured, Violated;
    OthersSplit(r);
    OthersExact(r);
    SafetyExact(r);
  }

  /** A vacuous round keeps its vacuous row through the overlay. */
  lemma {:induction false} VacuousRow(r: Round)
    requires IsVacuous(r)
    ensures GateRows(r)[Place(Distinctiveness)] == Row(Distinctiveness, VACUOUS) && !Clean(r)
  {
    hide OutcomeOf, OthersPass, Clean;
    RowOf(r, Distinctiveness);
    OrderComplete();
    OthersExact(r);
    assert !OthersPass(r) by {
      assert OutcomeOf(r, Distinctiveness) != PROMOTE && !IsMemory(Distinctiveness);
      NotAllPass(r, Distinctiveness);
    }
  }

  lemma NotAllPass(r: Round, check: Check)
    requires !IsMemory(check) && OutcomeOf(r, check) != PROMOTE
    ensures !OthersPass(r)
  {
  }

  /** The round promotes exactly when both arms show all that the gate asks for. */
  lemma {:induction false} PromoteExact(r: Round)
    ensures GateOutcome(r) == RoundPromote <==> Promotable(r)
    ensures GateOutcome(r) == RoundPromote <==> forall i :: 0 <= i < |GateRows(r)| ==> GateRows(r)[i].outcome == PROMOTE
  {
    RoundExact(GateRows(r));
    hide RoundOf, RowsFor, OutcomeOf, Clean;
    if IsVacuous(r) {
      VacuousRow(r);
      RowCount(r);
    } else {
      AllRows(r, o => o == PROMOTE);
      AllPassExact(r);
      RowCount(r);
    }
  }

  lemma RowCount(r: Round)
    ensures |GateRows(r)| == |RowsFor(r, ORDER)| == |ORDER| == 23
    ensures forall check: Check :: Place(check) < 23
  {
    hide OutcomeOf;
  }

  lemma {:induction false} OnlyViolationsBlock(r: Round, check: Check)
    ensures OutcomeOf(r, check) == BLOCK ==> Violations(r) != []
    ensures Violations(r) != [] ==> OutcomeOf(r, ZeroToleranceSecurity) == BLOCK
  {
    hide ContractOk, SameExperiment, SampleOk, AllMeasured, SameCleanCommit, GatesGreen, Violations,
      CompletionOk, ConstraintsOk, PassesOk, GroundedOk, SourcesOk, LlmOk, ToolsOk, FailuresOk, CostOk,
      LifecycleOk, HighOf, Pairs, MetricsOf, BothOffline, Observes, MemoryMeasured, BaseMetrics, CandMetrics, P95Kept;
  }

  /** The round blocks exactly when the candidate's summary lists a violation or a candidate run is unsafe, whatever
      else it shows. */
  lemma {:induction false} BlockExact(r: Round)
    ensures GateOutcome(r) == RoundBlock <==> Violated(r)
  {
    RoundExact(RowsFor(r, ORDER));
    OverlayOnlyLowers(RowsFor(r, ORDER));
    hide RoundOf, RowsFor, OutcomeOf, Violated, Violations;
    SafetyExact(r);
    RowCount(r);
    AllRows(r, o => o != BLOCK);
    forall check: Check { OnlyViolationsBlock(r, check); }
  }

  /** A round held to be offline never promotes and never exits 0. Since the arms must both have been run offline,
      a round promotes only when the caller says outright that the execution was not. */
  lemma {:induction false} OfflineNeverExitsZero(r: Round)
    ensures BothOffline(r) ==> GateOutcome(r) != RoundPromote && ExitCode(GateOutcome(r)) != 0
    ensures GateOutcome(r) == RoundPromote ==> r.offline == Some(false)
  {
    hide GateOutcome, QualityKept, LatencyKept, CallsKept, Distinguishable, LifecycleOk, Matched, AllMeasured, Violated,
      SameExperiment, MemoryMeasured;
    PromoteExact(r);
  }

  /** The one signal an offline round can give: the flag is set exactly when the round shows everything but the
      memory-safety observations, which it must show only when it was not offline. */
  lemma {:induction false} OfflineFlagExact(r: Round)
    ensures PromotableModuloOffline(GateRows(r)) <==> Clean(r) && (BothOffline(r) || MemoryMeasured(r))
  {
    FlagExact(GateRows(r));
    hide PromotableModuloOffline, RowsFor, OutcomeOf, Clean, BothOffline, MemoryMeasured;
    RowCount(r);
    if IsVacuous(r) {
      VacuousRow(r);
    } else {
      AllRows(r, Tolerable);
      FlagChecks(r);
    }
  }

  lemma {:induction false} OthersMeasured(r: Round, check: Check)
    requires !IsMemory(check)
    ensures OutcomeOf(r, check) != NOT_MEASURABLE_OFFLINE
  {
    hide ContractOk, SameExperiment, SampleOk, AllMeasured, SameCleanCommit, GatesGreen, Violations,
      CompletionOk, ConstraintsOk, PassesOk, GroundedOk, SourcesOk, LlmOk, ToolsOk, FailuresOk, CostOk,
      LifecycleOk, HighOf, Pairs, MetricsOf, BothOffline, Observes, MemoryMeasured, BaseMetrics, CandMetrics, P95Kept,
      IsolationOf, InjectionOf, CoverageOf;
  }

  lemma {:induction false} FlagChecks(r: Round)
    ensures (forall check: Check :: Tolerable(OutcomeOf(r, check))) <==> Clean(r) && (BothOffline(r) || MemoryMeasured(r))
  {
    hide OutcomeOf, Clean, BothOffline, MemoryMeasured, Violated, IsolationOf, InjectionOf, CoverageOf;
    OthersExact(r);
    SafetyExact(r);
    MemoryShape(r);
    FlagSplit(r);
    if Clean(r) { CleanIsSafe(r); }
  }

  lemma CleanIsSafe(r: Round)
    requires Clean(r)
    ensures !Violated(r)
  {
  }

  predicate Tolerable(o: Outcome) { o == PROMOTE || o == NOT_MEASURABLE_OFFLINE }

  lemma {:induction false} FlagSplit(r: Round)
    ensures (forall check: Check :: Tolerable(OutcomeOf(r, check))) <==>
            OthersPass(r) && Tolerable(IsolationOf(r)) && Tolerable(InjectionOf(r)) && Tolerable(CoverageOf(r))
  {
    hide OutcomeOf, IsolationOf, InjectionOf, CoverageOf, Tolerable;
    MemoryRows(r);
    if forall check: Check :: Tolerable(OutcomeOf(r, check)) {
      forall check: Check | !IsMemory(check) ensures OutcomeOf(r, check) == PROMOTE { TolerablePasses(r, check); }
    }
    if OthersPass(r) && Tolerable(IsolationOf(r)) && Tolerable(InjectionOf(r)) && Tolerable(CoverageOf(r)) {
      forall check: Check ensures Tolerable(OutcomeOf(r, check)) { AllTolerable(r, check); }
    }
  }

  lemma TolerablePasses(r: Round, check: Check)
    requires !IsMemory(check) && Tolerable(OutcomeOf(r, check))
    ensures OutcomeOf(r, check) == PROMOTE
  {
    hide OutcomeOf;
    OthersMeasured(r, check);
  }

  lemma AllTolerable(r: Round, check: Check)
    requires OthersPass(r) && Tolerable(IsolationOf(r)) && Tolerable(InjectionOf(r)) && Tolerable(CoverageOf(r))
    ensures Tolerable(OutcomeOf(r, check))
  {
    hide OutcomeOf, IsolationOf, InjectionOf, CoverageOf;
    MemoryRows(r);
  }

  lemma MemoryShape(r: Round)
    ensures !BothOffline(r) ==> NOT_MEASURABLE_OFFLINE !in [IsolationOf(r), InjectionOf(r), CoverageOf(r)]
  {
    hide Violations, ViolatedIn, Observes, BothOffline;
  }

  /** The round names a regression exactly when nothing is violated and some check other than the commit binding
      plainly holds, unless the round is vacuous and the check one of those the overlay rewrites: on a vacuous
      round a candidate that breaks a passing case is reported as not measurable. */
  lemma {:induction false} RegressionExact(r: Round)
    ensures GateOutcome(r) == HoldRegression <==>
            && !Violated(r)
            && exists check: Check :: check != IdentityBinding && OutcomeOf(r, check) == HOLD
                                      && !(IsVacuous(r) && check in DEPENDENT)
  {
    RoundExact(GateRows(r));
    BlockExact(r);
    RowCount(r);
    hide RoundOf, OutcomeOf, Violated, GateRows;
    forall check: Check { RegressingRow(r, check); }
    if GateOutcome(r) == HoldRegression {
      var i :| 0 <= i < |GateRows(r)| && Regresses(GateRows(r)[i]);
      OrderComplete();
      RegressingRow(r, ORDER[i]);
    }
  }

  lemma {:induction false} RegressingRow(r: Round, check: Check)
    ensures Place(check) < |GateRows(r)|
    ensures Regresses(GateRows(r)[Place(check)]) <==>
            check != IdentityBinding && OutcomeOf(r, check) == HOLD && !(IsVacuous(r) && check in DEPENDENT)
  {
    hide OutcomeOf, RowsFor;
    RowCount(r);
    RowOf(r, check);
  }

  /* --- dominance --- */

  /** With no negative slack, the pass totals follow from the pairs. */
  lemma {:induction false} PassDominance(pairs: seq<Pair>, slack: real)
    requires slack >= 0.0
    ensures PassesKept(pairs, MetricsOf(Bases(pairs)), MetricsOf(Cands(pairs)), slack) <==>
            forall p :: p in pairs ==> !PairRegresses(p)
  {
    hide P95;
    if forall p :: p in pairs ==> !PairRegresses(p) {
      forall i | 0 <= i < |pairs| ensures Passed(pairs[i].base) <= Passed(pairs[i].cand) {
        assert !PairRegresses(pairs[i]);
      }
      SumDominates(pairs, Passed);
    }
  }

  lemma {:induction false} LlmSum(pairs: seq<Pair>, more: int)
    requires more <= 0 && pairs != [] && forall p :: p in pairs ==> LlmPairKept(p, more)
    ensures SumBy(Cands(pairs), LlmCalls) <= SumBy(Bases(pairs), LlmCalls) + more as real
  {
    hide SumBy, LlmPairKept, LlmCalls, Bases, Cands;
    forall i | 0 <= i < |pairs| ensures LlmCalls(pairs[i].cand) <= LlmCalls(pairs[i].base) + more as real {
      assert pairs[i] in pairs;
      LlmPairBounded(pairs[i], more);
    }
    SumBounded(pairs, LlmCalls, more as real);
    AllowanceShrinks(more as real, |pairs|);
  }

  /** When the allowance is not positive and there is a pair, the total of model calls follows from the pairs. */
  lemma {:induction false} LlmDominance(pairs: seq<Pair>, more: int)
    requires more <= 0 && pairs != []
    ensures LlmKept(pairs, MetricsOf(Bases(pairs)), MetricsOf(Cands(pairs)), more) <==>
            forall p :: p in pairs ==> LlmPairKept(p, more)
  {
    hide P95, SumBy, LlmPairKept, Bases, Cands;
    if forall p :: p in pairs ==> LlmPairKept(p, more) { LlmSum(pairs, more); }
  }

  lemma LlmPairBounded(p: Pair, more: int)
    requires LlmPairKept(p, more)
    ensures LlmCalls(p.cand) <= LlmCalls(p.base) + more as real
  {
    hide Trunc;
    assert (MetricOf(p.base.llmCalls) + more) as real == LlmCalls(p.base) + more as real;
  }

  lemma AllowanceShrinks(more: real, n: nat)
    requires more <= 0.0 && n >= 1
    ensures more * n as real <= more
  {
  }
}
