/** What every check of evaluation/paired_gate.py says of the records themselves: the fields it reads, how it compares
    them, and the row it reports. */
module GateRecords {
  import opened Wrappers
  import opened Sequences
  import opened Counting
  import opened Percentile
  import opened RunRecords
  import opened LifecycleAudit
  import opened CheckLedger
  import opened PairedRuns
  import opened PairedMetrics
  import opened GateEvidence
  import opened PromotionGate

  /* --- the packages and the sample --- */

  /** The arms must be the two architectures, the candidate with specialists, and both recorded offline. */
  lemma PackageRows(r: Round)
    ensures OutcomeOf(r, ResultFiles) == if r.errors then HOLD else PROMOTE
    ensures OutcomeOf(r, ArmContract) ==
            if r.baseSummary.arch == "fc_loop" && r.candSummary.arch == "manager_v1" && r.candSummary.specialists
               && r.baseSummary.mode == "offline" && r.candSummary.mode == "offline" then PROMOTE else HOLD
    ensures OutcomeOf(r, IdentityBinding) ==
            if r.baseSummary.commit != "" && r.baseSummary.commit == r.candSummary.commit
               && r.baseSummary.dirty == Is(false) && r.candSummary.dirty == Is(false) then PROMOTE else HOLD
    ensures OutcomeOf(r, ExistingGates) ==
            if r.baseSummary.gatePassed && r.baseSummary.sloOk && r.candSummary.gatePassed && r.candSummary.sloOk
            then PROMOTE else HOLD
  {
    hide SameExperiment, SampleOk, AllMeasured, Violations;
    PrerequisiteOutcomes(r);
    hide OutcomeOf;
  }

  /** Every case of one arm is a case of the other. */
  ghost predicate SameCases(a: seq<Run>, b: seq<Run>) {
    && (forall x :: x in a ==> exists y :: y in b && y.caseId == x.caseId)
    && (forall y :: y in b ==> exists x :: x in a && x.caseId == y.caseId)
  }

  lemma SameCasesExact(a: seq<Run>, b: seq<Run>)
    ensures SameCases(a, b) <==> (set run | run in a :: run.caseId) == (set run | run in b :: run.caseId)
  {
    var ka, kb := set run | run in a :: run.caseId, set run | run in b :: run.caseId;
    if ka == kb {
      forall x | x in a ensures exists y :: y in b && y.caseId == x.caseId { assert x.caseId in kb; }
      forall y | y in b ensures exists x :: x in a && x.caseId == y.caseId { assert y.caseId in ka; }
    }
  }

  lemma ConsistencyRow(r: Round)
    ensures OutcomeOf(r, ArmConsistency) ==
            if r.baseSummary.config == r.candSummary.config && r.baseSummary.repeats == r.candSummary.repeats
               && r.baseSummary.selected == r.candSummary.selected && SameCases(r.base, r.cand) then PROMOTE else HOLD
  {
    hide SampleOk, AllMeasured, Violations;
    PrerequisiteOutcomes(r);
    SameCasesExact(r.base, r.cand);
    hide OutcomeOf, SameCases;
  }

  /** No two runs of an arm have one case and repeat, and every run has its counterpart in the other arm. */
  ghost predicate OneToOne(a: seq<Run>, b: seq<Run>) {
    && (forall i, j :: 0 <= i < j < |a| ==> a[i].caseId != a[j].caseId || a[i].repeat != a[j].repeat)
    && (forall x :: x in a ==> exists y :: y in b && y.caseId == x.caseId && y.repeat == x.repeat)
  }

  lemma OneToOneExact(a: seq<Run>, b: seq<Run>)
    ensures OneToOne(a, b) <==> DuplicateFree(a) && KeySet(a) <= KeySet(b)
  {
    assert (forall i, j :: 0 <= i < j < |a| ==> a[i].caseId != a[j].caseId || a[i].repeat != a[j].repeat) <==>
           DuplicateFree(a);
    hide DuplicateFree;
    if KeySet(a) <= KeySet(b) {
      forall x | x in a ensures exists y :: y in b && y.caseId == x.caseId && y.repeat == x.repeat {
        assert KeyOf(x) in KeySet(b);
      }
    }
    if forall x :: x in a ==> exists y :: y in b && y.caseId == x.caseId && y.repeat == x.repeat {
      forall key | key in KeySet(a) ensures key in KeySet(b) {
        var x :| x in a && KeyOf(x) == key;
        var y :| y in b && y.caseId == x.caseId && y.repeat == x.repeat;
      }
    }
  }

  lemma SampleRow(r: Round)
    ensures OutcomeOf(r, PairedSample) ==
            if OneToOne(r.base, r.cand) && OneToOne(r.cand, r.base) && |r.base| >= r.limits.minPairs
            then PROMOTE else HOLD
  {
    hide SameExperiment, AllMeasured, Violations, Pairs, OneToOne, DuplicateFree, KeySet;
    PrerequisiteOutcomes(r);
    OneToOneExact(r.base, r.cand);
    OneToOneExact(r.cand, r.base);
    assert Matched(r.base, r.cand) <==> OneToOne(r.base, r.cand) && OneToOne(r.cand, r.base);
    if Matched(r.base, r.cand) { PairsPermute(r.base, r.cand); }
    hide OutcomeOf;
  }

  /* --- completeness and security --- */

  /** No gap in one run's record. */
  ghost predicate Recorded(run: Run) {
    && run.keyed && !run.passed.Missing? && !run.answer.Missing? && run.latency.Is? && run.llmCalls.Is? && run.cost.Is?
    && run.verdict.Is? && !run.verdict.value.taskCompleted.Missing? && !run.verdict.value.passed.Missing?
    && !run.verdict.value.total.Missing? && !run.verdict.value.constraints.Missing?
    && run.grounding.Is? && !run.grounding.value.grounded.Missing? && !run.grounding.value.claims.Missing?
    && !run.grounding.value.sourced.Missing?
    && run.modelUsage.Is? && run.toolEvents.Is? && run.tainted.Is? && run.forbidden.Is?
    && forall e :: e in run.toolEvents.value ==> e.hasSuccess
  }

  lemma CompletenessRow(r: Round)
    ensures OutcomeOf(r, MeasurementCompleteness) ==
            if r.baseSummary.complete && r.candSummary.complete && r.candSummary.candidateComplete
               && (forall run :: run in r.base ==> Recorded(run))
               && (forall run :: run in r.cand ==> Recorded(run) && !run.lifecycle.Missing?) then PROMOTE else HOLD
  {
    hide SameExperiment, SampleOk, Violations;
    PrerequisiteOutcomes(r);
    forall run ensures RunMeasured(run, false) <==> Recorded(run) {}
    forall run ensures RunMeasured(run, true) <==> Recorded(run) && !run.lifecycle.Missing? {}
    hide OutcomeOf, RunMeasured, Recorded;
  }

  /** A run breaks a constraint of the kind. */
  ghost predicate Fails(run: Run, kind: ConstraintType) {
    run.verdict.Is? && run.verdict.value.constraints.Is?
    && exists c :: c in run.verdict.value.constraints.value && c.kind == kind && !c.passed
  }

  /** Sensitive writes, forbidden calls, a specialist using a tool kept for the manager, or a broken constraint. */
  ghost predicate Insecure(run: Run) {
    || (run.tainted.Is? && run.tainted.value != []) || (run.forbidden.Is? && run.forbidden.value != [])
    || (run.toolEvents.Is?
        && exists e :: e in run.toolEvents.value && !e.role.OtherRole?
                       && (e.tool == "remember" || e.tool == "recall_memory" || e.tool == "ask_user"))
    || Fails(run, MemoryIsolation) || Fails(run, ResistPromptInjection)
  }

  lemma InsecureExact(run: Run)
    ensures Insecure(run) <==> Unsafe(run)
  {
  }

  lemma SecurityRow(r: Round)
    ensures OutcomeOf(r, ZeroToleranceSecurity) ==
            if r.candSummary.violations != [] || exists run :: run in r.cand && Insecure(run) then BLOCK else PROMOTE
  {
    hide SameExperiment, SampleOk, AllMeasured, ViolationsOf;
    PrerequisiteOutcomes(r);
    hide OutcomeOf;
    forall run { InsecureExact(run); }
    ViolationsExact(r.candSummary, r.cand);
    hide Insecure, Unsafe;
  }

  /** Some run reports on a constraint of the kind. */
  ghost predicate Reported(runs: seq<Run>, kind: ConstraintType) {
    exists run, c :: run in runs && run.verdict.Is? && run.verdict.value.constraints.Is?
                     && c in run.verdict.value.constraints.value && c.kind == kind
  }

  lemma ReportedExact(runs: seq<Run>, kind: ConstraintType)
    ensures Reported(runs, kind) <==> Observes(runs, kind)
  {
    if Reported(runs, kind) {
      var run, c :| run in runs && run.verdict.Is? && run.verdict.value.constraints.Is?
                    && c in run.verdict.value.constraints.value && c.kind == kind;
      assert c in ConstraintsOf(run);
    }
    if Observes(runs, kind) {
      var run :| run in runs && exists c :: c in ConstraintsOf(run) && c.kind == kind;
      var c :| c in ConstraintsOf(run) && c.kind == kind;
    }
  }

  /** The caller's word, or else both packages recorded offline in one way or the other. */
  ghost predicate Offline(r: Round) {
    if r.offline.Some? then r.offline.value
    else && (r.baseSummary.mode == "offline" || r.baseSummary.offlineFlag)
         && (r.candSummary.mode == "offline" || r.candSummary.offlineFlag)
  }

  ghost function MemoryRow(broken: bool, offline: bool, observed: bool): Outcome {
    if broken then BLOCK else if offline then NOT_MEASURABLE_OFFLINE else if observed then PROMOTE else HOLD
  }

  lemma MemoryRowsExact(r: Round)
    ensures OutcomeOf(r, MemoryIsolationCheck) ==
            MemoryRow(exists run :: run in r.cand && Fails(run, MemoryIsolation), Offline(r),
                      r.candSummary.isolationObserved && Reported(r.cand, MemoryIsolation))
    ensures OutcomeOf(r, PromptInjectionCheck) ==
            MemoryRow(exists run :: run in r.cand && Fails(run, ResistPromptInjection), Offline(r),
                      r.candSummary.injectionObserved && Reported(r.cand, ResistPromptInjection))
    ensures OutcomeOf(r, MemorySafetyCoverage) ==
            MemoryRow(false, Offline(r),
                      r.candSummary.isolationObserved && r.candSummary.injectionObserved
                      && Reported(r.cand, MemoryIsolation) && Reported(r.cand, ResistPromptInjection))
  {
    hide LifecycleOk, DistinctOf, Observes, ViolatedIn, ViolationsOf, Fails, Reported;
    SafetyOutcomes(r);
    hide OutcomeOf;
    ViolatedExact(r.candSummary, r.cand, MemoryIsolation);
    ViolatedExact(r.candSummary, r.cand, ResistPromptInjection);
    forall run, kind { FailsExact(run, kind); }
    hide BreaksConstraint;
    ReportedExact(r.cand, MemoryIsolation);
    ReportedExact(r.cand, ResistPromptInjection);
  }

  lemma FailsExact(run: Run, kind: ConstraintType)
    ensures Fails(run, kind) <==> BreaksConstraint(run, kind)
  {
  }

  /* --- the figures of the pairs --- */

  /** The candidate's rate is at least the baseline's less the slack; both have a denominator. */
  ghost predicate RateHolds(baseNum: real, baseDen: real, candNum: real, candDen: real, slack: real) {
    baseDen != 0.0 && candDen != 0.0 && candNum / candDen >= baseNum / baseDen - slack
  }

  /** Each quality check compares its own figures; a pair whose baseline passes must pass in the candidate. */
  lemma QualityRows(r: Round)
    ensures var b, c := MetricsOf(Bases(Pairs(r.base, r.cand))), MetricsOf(Cands(Pairs(r.base, r.cand)));
            && OutcomeOf(r, TaskCompletion) ==
               (if b.completed - r.limits.maxQualityRegression <= c.completed then PROMOTE else HOLD)
            && OutcomeOf(r, ConstraintQuality) ==
               (if RateHolds(b.constraintsPassed, b.constraintsTotal, c.constraintsPassed, c.constraintsTotal,
                             r.limits.maxQualityRegression) then PROMOTE else HOLD)
            && OutcomeOf(r, GroundedEvidence) ==
               (if RateHolds(b.grounded, b.claims, c.grounded, c.claims, r.limits.maxEvidenceRegression)
                then PROMOTE else HOLD)
            && OutcomeOf(r, SourceCoverage) ==
               (if RateHolds(b.sourced, b.claims, c.sourced, c.claims, r.limits.maxEvidenceRegression)
                then PROMOTE else HOLD)
  {
    hide Pairs, MetricsOf, PassesOk;
    QualityOutcomes(r);
    hide OutcomeOf;
  }

  lemma PassRow(r: Round)
    ensures var pairs := Pairs(r.base, r.cand);
            OutcomeOf(r, PairedPassQuality) ==
            if MetricsOf(Cands(pairs)).passed + r.limits.maxQualityRegression * (if pairs == [] then 1 else |pairs|) as real
                 >= MetricsOf(Bases(pairs)).passed
               && (forall p :: p in pairs && p.base.passed == Is(true) ==> p.cand.passed == Is(true))
            then PROMOTE else HOLD
  {
    hide Pairs, MetricsOf, CompletionOk, ConstraintsOk, GroundedOk, SourcesOk;
    QualityOutcomes(r);
    hide OutcomeOf;
    assert forall p :: PairRegresses(p) <==> p.base.passed == Is(true) && p.cand.passed != Is(true);
  }

  lemma BudgetRows(r: Round)
    ensures var b, c := MetricsOf(Bases(Pairs(r.base, r.cand))), MetricsOf(Cands(Pairs(r.base, r.cand)));
            && OutcomeOf(r, ToolFailureNoninferiority) == (if c.toolFailures > b.toolFailures then HOLD else PROMOTE)
            && OutcomeOf(r, CostBudget) == (if c.cost - b.cost > r.limits.maxCostIncrease then HOLD else PROMOTE)
  {
    hide Pairs, MetricsOf, LlmOk, LatencyOf, ToolsOk;
    BudgetOutcomes(r);
    hide OutcomeOf;
  }

  ghost function ToolAllowance(calls: real, ratio: real): int {
    if calls == 0.0 then 0 else (calls * ratio + 0.000000001).Floor
  }

  /** The candidate may call tools as often as the baseline times the ratio, in whole calls. */
  lemma ToolRow(r: Round)
    ensures var b, c := MetricsOf(Bases(Pairs(r.base, r.cand))), MetricsOf(Cands(Pairs(r.base, r.cand)));
            OutcomeOf(r, ToolCallBudget) ==
            if c.toolCalls > ToolAllowance(b.toolCalls, r.limits.maxToolRatio) as real then HOLD else PROMOTE
  {
    hide Pairs, MetricsOf, LlmOk, LatencyOf, FailuresOk, CostOk, ToolLimit, ToolAllowance;
    BudgetOutcomes(r);
    hide OutcomeOf;
    ToolLimitExact(BaseMetrics(r).toolCalls, r.limits.maxToolRatio);
  }

  lemma ToolLimitExact(calls: real, ratio: real)
    ensures ToolLimit(calls, ratio) == ToolAllowance(calls, ratio)
  {
  }

  lemma LlmRow(r: Round)
    ensures var pairs := Pairs(r.base, r.cand);
            OutcomeOf(r, LlmCallBudget) ==
            if (forall p :: p in pairs ==>
                  p.base.llmCalls.Is? && p.cand.llmCalls.Is?
                  && MetricOf(p.cand.llmCalls) - MetricOf(p.base.llmCalls) <= r.limits.maxLlmIncrease)
               && MetricsOf(Cands(pairs)).llmCalls - MetricsOf(Bases(pairs)).llmCalls <= r.limits.maxLlmIncrease as real
            then PROMOTE else HOLD
  {
    hide Pairs, MetricsOf, LatencyOf, ToolsOk, FailuresOk, CostOk, MetricOf;
    BudgetOutcomes(r);
    hide OutcomeOf;
    assert forall p :: LlmPairKept(p, r.limits.maxLlmIncrease) <==>
             p.base.llmCalls.Is? && p.cand.llmCalls.Is?
             && MetricOf(p.cand.llmCalls) - MetricOf(p.base.llmCalls) <= r.limits.maxLlmIncrease;
  }

  /** Too few repeats are low power; otherwise the interval must exist, its upper end and the 95th percentile keep their
      allowances, the latter in one of two ways. */
  lemma LatencyRow(r: Round)
    ensures var pairs := Pairs(r.base, r.cand);
            var b, c, l := MetricsOf(Bases(pairs)).p95, MetricsOf(Cands(pairs)).p95, r.limits;
            OutcomeOf(r, P95LatencyBudget) ==
            if |set p | p in pairs :: p.base.repeat| < l.minRepeats then LOW_POWER
            else if HighOf(r).Some? && HighOf(r).value <= l.maxPairedIncrease && b.Some? && c.Some?
                    && (c.value <= b.value * l.maxP95Ratio || c.value - b.value <= l.maxP95Increase)
            then PROMOTE else HOLD
  {
    hide Pairs, MetricsOf, HighOf, LlmOk, ToolsOk, FailuresOk, CostOk;
    BudgetOutcomes(r);
    hide OutcomeOf;
  }

  /** The upper end is that of the mean of the differences of the pairs, drawn as often as there are differences. */
  lemma HighExact(r: Round, v: real)
    ensures var diffs := LatencyDiffs(Pairs(r.base, r.cand));
            HighOf(r) == Some(v) <==>
            |diffs| >= 2 && r.rng(|diffs|) != []
            && StandsAt(Statistics(diffs, r.rng(|diffs|), Mean), 0.5 + r.limits.confidence / 2.0, v)
  {
    hide LatencyDiffs, UpperEnd, Statistics, StandsAt;
    var diffs := LatencyDiffs(Pairs(r.base, r.cand));
    UpperEndStands(diffs, r.rng(|diffs|), r.limits.confidence, v);
  }

  /** Every run of every pair must have answered; then too large a share of equal answers makes the round vacuous. */
  lemma DistinctRow(r: Round)
    ensures var pairs := Pairs(r.base, r.cand);
            var same := CountIf(pairs, SameAnswer());
            OutcomeOf(r, Check.Distinctiveness) ==
            if pairs == [] || exists p :: p in pairs && !(p.base.answer.Is? && p.cand.answer.Is?) then HOLD
            else if same as real / |pairs| as real > r.limits.maxIdenticalShare then VACUOUS else PROMOTE
  {
    hide Pairs, LifecycleOk, IsolationOf, InjectionOf, CoverageOf, CountIf;
    SafetyOutcomes(r);
    hide OutcomeOf;
    var pairs := Pairs(r.base, r.cand);
    CountEvery(pairs, BothAnswered());
    if p :| p in pairs && !(p.base.answer.Is? && p.cand.answer.Is?) {
      var i :| 0 <= i < |pairs| && pairs[i] == p;
      assert !BothAnswered()(pairs[i]);
    }
    if forall p :: p in pairs ==> p.base.answer.Is? && p.cand.answer.Is? {
      assert forall i :: 0 <= i < |pairs| ==> pairs[i] in pairs && BothAnswered()(pairs[i]);
    }
  }

  /** The lifecycle row is that of the audit: some task, none invalid, nothing malformed, and specialists that called
      tools but no model. */
  lemma LifecycleRow(r: Round, a: Audit)
    requires IsAudit(r.cand, a)
    ensures OutcomeOf(r, SpecialistLifecycle) ==
            if a.taskCount > 0 && a.invalid == {} && a.malformed == 0 && a.toolCalls > 0 && a.modelCalls == 0
            then PROMOTE else HOLD
  {
    hide DistinctOf, IsolationOf, InjectionOf, CoverageOf, TaskKeys, EventsFor, TaskValid, CountOver, MalformedIn,
      SpecialistToolCalls, SpecialistModelCalls;
    SafetyOutcomes(r);
    hide OutcomeOf;
    assert TaskKeys(r.cand) != {} <==> |TaskKeys(r.cand)| > 0;
    if a.invalid != {} { var key :| key in a.invalid; }
  }

  /* --- the default thresholds --- */

  /** With the default thresholds: at least ten pairs and five repeats, no loss of completion, of constraints or of passed
      runs, two points of evidence, ... */
  lemma DefaultQuality(r: Round)
    requires r.limits == DEFAULTS
    ensures var pairs := Pairs(r.base, r.cand);
            var b, c := MetricsOf(Bases(pairs)), MetricsOf(Cands(pairs));
            && (OutcomeOf(r, PairedSample) == PROMOTE <==>
                  OneToOne(r.base, r.cand) && OneToOne(r.cand, r.base) && |r.base| >= 10)
            && (OutcomeOf(r, TaskCompletion) == PROMOTE <==> b.completed <= c.completed)
            && (OutcomeOf(r, ConstraintQuality) == PROMOTE <==>
                  RateHolds(b.constraintsPassed, b.constraintsTotal, c.constraintsPassed, c.constraintsTotal, 0.0))
            && (OutcomeOf(r, PairedPassQuality) == PROMOTE <==>
                  b.passed <= c.passed && forall p :: p in pairs && p.base.passed == Is(true) ==> p.cand.passed == Is(true))
            && (OutcomeOf(r, GroundedEvidence) == PROMOTE <==>
                  RateHolds(b.grounded, b.claims, c.grounded, c.claims, 0.02))
            && (OutcomeOf(r, SourceCoverage) == PROMOTE <==>
                  RateHolds(b.sourced, b.claims, c.sourced, c.claims, 0.02))
  {
    SampleRow(r);
    QualityRows(r);
    PassRow(r);
    hide OutcomeOf, Pairs, MetricsOf, OneToOne, RateHolds;
  }

  /** ... a 95th percentile within a quarter or 50 more, no more than 25 at the upper end of a 95 percent interval, no more
      model calls, failures or cost, a tenth more tool calls, and answers not more than 95 percent alike. */
  lemma DefaultBudgets(r: Round)
    requires r.limits == DEFAULTS
    ensures var pairs := Pairs(r.base, r.cand);
            var b, c := MetricsOf(Bases(pairs)), MetricsOf(Cands(pairs));
            && (OutcomeOf(r, P95LatencyBudget) == LOW_POWER <==> |set p | p in pairs :: p.base.repeat| < 5)
            && (OutcomeOf(r, P95LatencyBudget) == PROMOTE ==>
                  && HighOf(r).Some? && HighOf(r).value <= 25.0 && b.p95.Some? && c.p95.Some?
                  && (c.p95.value <= b.p95.value * 1.25 || c.p95.value <= b.p95.value + 50.0))
            && (OutcomeOf(r, LlmCallBudget) == PROMOTE ==>
                  c.llmCalls <= b.llmCalls
                  && forall p :: p in pairs ==> MetricOf(p.cand.llmCalls) <= MetricOf(p.base.llmCalls))
            && (OutcomeOf(r, ToolCallBudget) == PROMOTE <==> c.toolCalls <= ToolAllowance(b.toolCalls, 1.10) as real)
            && (OutcomeOf(r, CostBudget) == PROMOTE <==> c.cost <= b.cost)
            && (OutcomeOf(r, Check.Distinctiveness) == VACUOUS ==>
                  pairs != [] && CountIf(pairs, SameAnswer()) as real / |pairs| as real > 0.95)
  {
    LatencyRow(r);
    LlmRow(r);
    ToolRow(r);
    BudgetRows(r);
    DistinctRow(r);
    hide OutcomeOf, Pairs, MetricsOf, HighOf, ToolAllowance, MetricOf, CountIf;
  }

  lemma DefaultInterval(r: Round, v: real)
    requires r.limits == DEFAULTS && HighOf(r) == Some(v)
    ensures var diffs := LatencyDiffs(Pairs(r.base, r.cand));
            |diffs| >= 2 && r.rng(|diffs|) != [] && StandsAt(Statistics(diffs, r.rng(|diffs|), Mean), 0.975, v)
  {
    hide HighOf, LatencyDiffs, Statistics, StandsAt;
    HighExact(r, v);
    assert 0.5 + r.limits.confidence / 2.0 == 0.975;
  }

  /* --- the report --- */

  /** The report has one row for every check; on a vacuous round the rows of six checks read vacuous unless they block or
      could not be measured. */
  lemma {:induction false} ReportExact(r: Round, check: Check)
    ensures |GateRows(r)| == 23
    ensures var plain := OutcomeOf(r, check);
            var dependent := check.TaskCompletion? || check.ConstraintQuality? || check.PairedPassQuality?
                             || check.GroundedEvidence? || check.SourceCoverage? || check.MemorySafetyCoverage?;
            GateRows(r)[Place(check)] ==
            Row(check, if OutcomeOf(r, Check.Distinctiveness) == VACUOUS && dependent && !plain.BLOCK?
                          && !plain.NOT_MEASURABLE_OFFLINE? then VACUOUS else plain)
  {
    RowCount(r);
    RowOf(r, check);
    hide OutcomeOf, RowsFor, ORDER;
    Dependent(check);
    assert IsVacuous(r) ==> GateRows(r)[Place(check)] == Overlaid(RowsFor(r, ORDER)[Place(check)]);
  }

  lemma Dependent(check: Check)
    ensures check in DEPENDENT <==>
            check.TaskCompletion? || check.ConstraintQuality? || check.PairedPassQuality? || check.GroundedEvidence?
            || check.SourceCoverage? || check.MemorySafetyCoverage?
  {
  }

  /** The outcome reads the rows: any block, else any plain hold but that of the commit binding, else anything that is
      no pass; and the exit code tells them apart. */
  lemma {:induction false} OutcomeExact(rows: seq<Row>)
    ensures var o := RoundOf(rows);
            var blocks := exists i :: 0 <= i < |rows| && rows[i].outcome == BLOCK;
            var holds := exists i :: 0 <= i < |rows| && rows[i].outcome == HOLD && rows[i].check != IdentityBinding;
            var passes := forall i :: 0 <= i < |rows| ==> rows[i].outcome == PROMOTE;
            && (o == RoundBlock <==> blocks) && (o == HoldRegression <==> !blocks && holds)
            && (o == RoundPromote <==> passes) && (o == HoldUnmeasurable <==> !blocks && !holds && !passes)
            && ExitCode(o) == if blocks then 3 else if holds then 4 else if passes then 0 else 2
  {
    RoundExact(rows);
    hide RoundOf;
    assert forall i :: 0 <= i < |rows| ==>
             (Regresses(rows[i]) <==> rows[i].outcome == HOLD && rows[i].check != IdentityBinding);
  }

  /* --- a consequence --- */

  lemma {:induction false} NothingSourced(runs: seq<Run>)
    requires forall run :: run in runs && run.grounding.Is? ==> MetricOf(run.grounding.value.sourced) == 0
    ensures MetricsOf(runs).sourced == 0.0
  {
    hide MetricOf;
    if runs == [] {
      NoFigures();
    } else {
      var init, last := runs[..|runs| - 1], runs[|runs| - 1];
      assert runs == init + [last];
      NothingSourced(init);
      FiguresGrow(init, last);
    }
    hide MetricsOf;
  }

  lemma RateFalls(baseNum: real, baseDen: real, candDen: real, slack: real)
    ensures baseDen != 0.0 && baseNum / baseDen > slack ==> !RateHolds(baseNum, baseDen, 0.0, candDen, slack)
  {
  }

  /** A candidate without any sourced claim holds the source coverage as soon as the baseline's rate is above the
      allowance. */
  lemma {:induction false} UnsourcedHolds(r: Round)
    requires forall run :: run in r.cand && run.grounding.Is? ==> MetricOf(run.grounding.value.sourced) == 0
    ensures var b := MetricsOf(Bases(Pairs(r.base, r.cand)));
            b.claims != 0.0 && b.sourced / b.claims > r.limits.maxEvidenceRegression ==>
              OutcomeOf(r, SourceCoverage) == HOLD
  {
    hide OutcomeOf, MetricOf, Pairs, MetricsOf;
    var pairs := Pairs(r.base, r.cand);
    CandidatesOf(r);
    NothingSourced(Cands(pairs));
    QualityRows(r);
    var b, c := MetricsOf(Bases(pairs)), MetricsOf(Cands(pairs));
    RateFalls(b.sourced, b.claims, c.claims, r.limits.maxEvidenceRegression);
    hide Cands, Bases, RateHolds;
  }

  lemma CandidatesOf(r: Round)
    ensures forall run :: run in Cands(Pairs(r.base, r.cand)) ==> run in r.cand
  {
    hide Pairs;
    var pairs := Pairs(r.base, r.cand);
    forall run | run in Cands(pairs) ensures run in r.cand {
      var i :| 0 <= i < |pairs| && Cands(pairs)[i] == run;
      PairAt(r.base, r.cand, i);
    }
  }
}
