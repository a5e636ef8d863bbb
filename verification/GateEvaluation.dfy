/** `evaluate_pair` in evaluation/paired_gate.py as code: it indexes and pairs the runs, measures them, fills the
    ledger check by check and lets a vacuous round rewrite it. */
module GateEvaluation {
  import opened Wrappers
  import opened Counting
  import opened RunRecords
  import opened LifecycleAudit
  import opened CheckLedger
  import opened PairedRuns
  import opened PairedMetrics
  import opened GateEvidence
  import opened PromotionGate

  lemma OrderOneRowEach(r: Round)
    ensures OneRowEach(RowsFor(r, ORDER))
  {
    hide OutcomeOf;
    OrderComplete();
  }

  ghost function FirstRows(r: Round, n: nat): seq<Row>
    requires n <= |ORDER|
  {
    RowsFor(r, ORDER[..n])
  }

  lemma FirstAndLast(r: Round)
    ensures |ORDER| == 23 && FirstRows(r, 0) == [] && FirstRows(r, 23) == RowsFor(r, ORDER)
  {
    hide OutcomeOf;
    assert ORDER[..23] == ORDER;
  }

  lemma PrefixNext<T>(s: seq<T>, k: nat)
    requires k < |s|
    ensures s[..k + 1] == s[..k] + [s[k]]
  {
  }

  lemma RowsNext(r: Round, checks: seq<Check>, check: Check)
    ensures RowsFor(r, checks + [check]) == RowsFor(r, checks) + [Row(check, OutcomeOf(r, check))]
  {
    hide OutcomeOf;
  }

  /** Adds the next row. */
  method Record(r: Round, checks: Checks, check: Check, outcome: Outcome)
    requires outcome == OutcomeOf(r, check) && Place(check) < |ORDER|
    requires checks.rows == FirstRows(r, Place(check))
    modifies checks
    ensures Place(check) + 1 <= |ORDER| && checks.rows == FirstRows(r, Place(check) + 1)
  {
    hide OutcomeOf, ORDER, RowsFor, Place;
    OrderComplete();
    PrefixNext(ORDER, Place(check));
    RowsNext(r, ORDER[..Place(check)], check);
    checks.Add(check, outcome);
  }

  lemma NoneRepeated(runs: seq<Run>, duplicates: seq<RunKey>)
    requires forall key :: key in duplicates <==> Repeated(runs, key)
    ensures duplicates == [] <==> DuplicateFree(runs)
  {
    if duplicates != [] { assert Repeated(runs, duplicates[0]); }
    forall i, j | 0 <= i < j < |runs| && KeyOf(runs[i]) == KeyOf(runs[j]) ensures duplicates != [] {
      assert Repeated(runs, KeyOf(runs[i]));
    }
  }

  /** The index, the pairs, and whether the sample is exact. */
  method PairRuns(r: Round) returns (pairs: seq<Pair>, exact: bool)
    ensures pairs == Pairs(r.base, r.cand) && exact == SampleOk(r)
  {
    hide KeySet, Last, Order, Pairs, Repeated;
    var baseIndex, baseOrder, baseDuplicates := IndexRuns(r.base);
    var candIndex, candOrder, candDuplicates := IndexRuns(r.cand);
    NoneRepeated(r.base, baseDuplicates);
    NoneRepeated(r.cand, candDuplicates);
    pairs := PairUp(r.base, r.cand, baseIndex, candIndex, baseOrder);
    exact := && baseDuplicates == [] && candDuplicates == [] && baseIndex.Keys == candIndex.Keys
             && |pairs| >= r.limits.minPairs;
  }

  /** The checks on the packages, the sample and the security counters. */
  method AddPrerequisites(r: Round, checks: Checks, exact: bool, violations: seq<Violation>)
    requires exact == SampleOk(r) && violations == Violations(r) && checks.rows == []
    modifies checks
    ensures |ORDER| == 23 && checks.rows == FirstRows(r, 8)
  {
    hide FirstRows, OutcomeOf, ORDER, SampleOk, AllMeasured, SameExperiment, Violations, ContractOk, SameCleanCommit,
      GatesGreen, Judge;
    PrerequisiteOutcomes(r);
    FirstAndLast(r);
    Record(r, checks, ResultFiles, Judge(!r.errors));
    Record(r, checks, ArmContract, Judge(ContractOk(r.baseSummary, r.candSummary)));
    Record(r, checks, ArmConsistency, Judge(SameExperiment(r)));
    Record(r, checks, PairedSample, Judge(exact));
    Record(r, checks, MeasurementCompleteness, Judge(AllMeasured(r)));
    Record(r, checks, IdentityBinding, Judge(SameCleanCommit(r.baseSummary, r.candSummary)));
    Record(r, checks, ZeroToleranceSecurity, if violations != [] then BLOCK else PROMOTE);
    Record(r, checks, ExistingGates, Judge(GatesGreen(r.baseSummary, r.candSummary)));
  }

  /** The quality and evidence checks on the pairs. */
  method AddQuality(r: Round, checks: Checks, pairs: seq<Pair>, b: Metrics, c: Metrics)
    requires pairs == Pairs(r.base, r.cand) && b == BaseMetrics(r) && c == CandMetrics(r)
    requires |ORDER| == 23 && checks.rows == FirstRows(r, 8)
    modifies checks
    ensures |ORDER| == 23 && checks.rows == FirstRows(r, 13)
  {
    hide FirstRows, OutcomeOf, ORDER, Pairs, BaseMetrics, CandMetrics, RateKept, PassesKept, Judge;
    QualityOutcomes(r);
    FirstAndLast(r);
    var l := r.limits;
    Record(r, checks, TaskCompletion, Judge(c.completed + l.maxQualityRegression >= b.completed));
    Record(r, checks, ConstraintQuality, Judge(RateKept(b.constraintsPassed, b.constraintsTotal, c.constraintsPassed,
                                                           c.constraintsTotal, l.maxQualityRegression)));
    Record(r, checks, PairedPassQuality, Judge(PassesKept(pairs, b, c, l.maxQualityRegression)));
    Record(r, checks, GroundedEvidence,
           Judge(RateKept(b.grounded, b.claims, c.grounded, c.claims, l.maxEvidenceRegression)));
    Record(r, checks, SourceCoverage,
           Judge(RateKept(b.sourced, b.claims, c.sourced, c.claims, l.maxEvidenceRegression)));
  }

  method MeanHigh(r: Round, pairs: seq<Pair>) returns (high: Option<real>)
    requires pairs == Pairs(r.base, r.cand)
    ensures high == HighOf(r)
  {
    hide UpperEnd, LatencyDiffs, Pairs;
    var diffs := PairedLatencyDiffs(pairs);
    high := BootstrapHigh(diffs, r.rng(|diffs|), r.limits.confidence);
  }

  /** The latency, call and cost budgets. */
  method AddBudgets(r: Round, checks: Checks, pairs: seq<Pair>, b: Metrics, c: Metrics)
    requires pairs == Pairs(r.base, r.cand) && b == BaseMetrics(r) && c == CandMetrics(r)
    requires |ORDER| == 23 && checks.rows == FirstRows(r, 13)
    modifies checks
    ensures |ORDER| == 23 && checks.rows == FirstRows(r, 18)
  {
    hide FirstRows, OutcomeOf, ORDER, Pairs, BaseMetrics, CandMetrics, LlmKept, LatencyOutcome, ToolLimit, HighOf,
      Repeats, Judge;
    BudgetOutcomes(r);
    FirstAndLast(r);
    var l := r.limits;
    var high := MeanHigh(r, pairs);
    Record(r, checks, P95LatencyBudget, LatencyOutcome(Repeats(pairs), high, b.p95, c.p95, l));
    Record(r, checks, LlmCallBudget, Judge(LlmKept(pairs, b, c, l.maxLlmIncrease)));
    Record(r, checks, ToolCallBudget, Judge(c.toolCalls <= ToolLimit(b.toolCalls, l.maxToolRatio) as real));
    Record(r, checks, ToolFailureNoninferiority, Judge(c.toolFailures <= b.toolFailures));
    Record(r, checks, CostBudget, Judge(c.cost <= b.cost + l.maxCostIncrease));
  }

  /** What the gate reads off the audit. */
  method LifecycleComplete(runs: seq<Run>) returns (ok: bool)
    ensures ok == LifecycleOk(runs)
  {
    hide TaskValid, CountOver, TaskKeys, EventsFor;
    var a := Audited(runs);
    assert TaskKeys(runs) != {} <==> |TaskKeys(runs)| > 0;
    ok := a.taskCount > 0 && a.invalid == {} && a.malformed == 0 && a.toolCalls > 0 && a.modelCalls == 0;
    if a.invalid != {} {
      var key :| key in a.invalid;
    }
  }

  /** The lifecycle and memory-safety checks. */
  method AddSafety(r: Round, checks: Checks, violations: seq<Violation>)
    requires violations == Violations(r)
    requires |ORDER| == 23 && checks.rows == FirstRows(r, 18)
    modifies checks
    ensures |ORDER| == 23 && checks.rows == FirstRows(r, 22)
  {
    hide FirstRows, OutcomeOf, ORDER, Violations, LifecycleOk, Observes, ViolatedIn, DistinctOf, MemoryOutcome,
      MemoryMeasured, BothOffline, Judge;
    SafetyOutcomes(r);
    FirstAndLast(r);
    var complete := LifecycleComplete(r.cand);
    Record(r, checks, SpecialistLifecycle, Judge(complete));
    Record(r, checks, MemoryIsolationCheck,
           MemoryOutcome(ViolatedIn(violations, MemoryIsolation), BothOffline(r),
                         r.candSummary.isolationObserved && Observes(r.cand, MemoryIsolation)));
    Record(r, checks, PromptInjectionCheck,
           MemoryOutcome(ViolatedIn(violations, ResistPromptInjection), BothOffline(r),
                         r.candSummary.injectionObserved && Observes(r.cand, ResistPromptInjection)));
    Record(r, checks, MemorySafetyCoverage, MemoryOutcome(false, BothOffline(r), MemoryMeasured(r)));
  }

  lemma LastPlace()
    ensures Place(Check.Distinctiveness) == 22
  {
  }

  /** The distinctiveness of the arms, and the overlay of a vacuous round. */
  method AddDistinctiveness(r: Round, checks: Checks, pairs: seq<Pair>)
    requires pairs == Pairs(r.base, r.cand)
    requires |ORDER| == 23 && checks.rows == FirstRows(r, 22)
    modifies checks
    ensures checks.rows == GateRows(r)
  {
    hide FirstRows, OutcomeOf, ORDER, Pairs, Overlay, RowsFor, OneRowEach, CountIf, IsolationOf, InjectionOf,
      CoverageOf, DistinctOutcome, FirstFifty, IdenticalCases, Place;
    LastPlace();
    SafetyOutcomes(r);
    FirstAndLast(r);
    var d := PairedMetrics.Distinctiveness(pairs);
    var outcome := DistinctOutcome(|pairs|, d.comparable, d.identical, r.limits.maxIdenticalShare);
    Record(r, checks, Check.Distinctiveness, outcome);
    if outcome == VACUOUS {
      OrderOneRowEach(r);
      checks.ApplyOverlay();
    }
  }

  /** `evaluate_pair`: the ledger it leaves and the outcome it reports. */
  method EvaluatePair(r: Round) returns (checks: Checks, outcome: RoundOutcome, violations: seq<Violation>)
    ensures fresh(checks) && checks.rows == GateRows(r)
    ensures outcome == RoundOf(checks.rows) && violations == Violations(r)
    ensures outcome == RoundPromote <==> Promotable(r)
    ensures outcome == RoundBlock <==> Violated(r)
    ensures BothOffline(r) ==> ExitCode(outcome) != 0
  {
    hide OutcomeOf, RowsFor, Violations, Pairs, BaseMetrics, CandMetrics, RoundOf, Promotable, Violated, BothOffline,
      Overlay, OneRowEach, ViolationsOf, SampleOk, MetricsOf;
    checks := new Checks();
    var pairs, exact := PairRuns(r);
    violations := SecurityViolations(r.candSummary, r.cand);
    assert violations == Violations(r) by { ViolationsAre(r); }
    AddPrerequisites(r, checks, exact, violations);
    var b, c := MetricsOf(Bases(pairs)), MetricsOf(Cands(pairs));
    assert b == BaseMetrics(r) && c == CandMetrics(r) by { MetricsAre(r); }
    AddQuality(r, checks, pairs, b, c);
    AddBudgets(r, checks, pairs, b, c);
    AddSafety(r, checks, violations);
    AddDistinctiveness(r, checks, pairs);
    outcome := RoundOf(checks.rows);
    PromoteExact(r);
    BlockExact(r);
    OfflineNeverExitsZero(r);
  }

  lemma ViolationsAre(r: Round)
    ensures Violations(r) == ViolationsOf(r.candSummary, r.cand)
  {
  }

  lemma MetricsAre(r: Round)
    ensures BaseMetrics(r) == MetricsOf(Bases(Pairs(r.base, r.cand)))
    ensures CandMetrics(r) == MetricsOf(Cands(Pairs(r.base, r.cand)))
  {
  }
}
