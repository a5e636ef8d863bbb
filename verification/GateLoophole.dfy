/** What a promotion says about specialist model calls. The audit of evaluation/paired_gate.py skips a run whose
    `specialist_lifecycle` is there but is no list, and completeness asks only that it is there: the gate never looks
    at the model calls of such a run. */
module GateLoophole {
  import opened Wrappers
  import opened Sorting
  import opened Counting
  import opened Percentile
  import opened RunRecords
  import opened LifecycleAudit
  import opened CheckLedger
  import opened PairedRuns
  import opened PairedMetrics
  import opened GateEvidence
  import opened PromotionGate

  /** The same run but for the model calls, and those only where the lifecycle is no list. */
  ghost predicate Alike(a: Run, b: Run) {
    && b == a.(modelUsage := b.modelUsage)
    && (a.modelUsage.Is? <==> b.modelUsage.Is?)
    && (a.lifecycle.Is? ==> a == b)
  }

  ghost predicate AllAlike(a: seq<Run>, b: seq<Run>) {
    |a| == |b| && forall i :: 0 <= i < |a| ==> Alike(a[i], b[i])
  }

  lemma {:induction false} SumAlike(a: seq<Run>, b: seq<Run>, f: Run -> real)
    requires |a| == |b| && forall i :: 0 <= i < |a| ==> f(a[i]) == f(b[i])
    ensures SumBy(a, f) == SumBy(b, f)
  {
    if a != [] { SumAlike(a[1..], b[1..], f); }
  }

  lemma {:induction false} LatenciesAlike(a: seq<Run>, b: seq<Run>)
    requires AllAlike(a, b)
    ensures Latencies(a) == Latencies(b)
  {
    if a != [] { LatenciesAlike(a[1..], b[1..]); }
  }

  lemma {:induction false} MetricsAlike(a: seq<Run>, b: seq<Run>)
    requires AllAlike(a, b)
    ensures MetricsOf(a) == MetricsOf(b)
  {
    hide SumBy, PercentileOf, Latencies;
    LatenciesAlike(a, b);
    SumAlike(a, b, Passed);
    SumAlike(a, b, PairedMetrics.Completed);
    SumAlike(a, b, ConstraintsPassed);
    SumAlike(a, b, ConstraintsTotal);
    SumAlike(a, b, Grounded);
    SumAlike(a, b, Claims);
    SumAlike(a, b, Sourced);
    SumAlike(a, b, LlmCalls);
    SumAlike(a, b, ToolCalls);
    SumAlike(a, b, ToolFailures);
    SumAlike(a, b, Cost);
  }

  lemma {:induction false} KeysAlike(a: seq<Run>, b: seq<Run>)
    requires AllAlike(a, b)
    ensures KeySet(a) == KeySet(b) && (DuplicateFree(a) <==> DuplicateFree(b))
    ensures (set run | run in a :: run.caseId) == (set run | run in b :: run.caseId)
  {
    assert forall i :: 0 <= i < |a| ==> KeyOf(a[i]) == KeyOf(b[i]) && a[i] in a && b[i] in b;
  }

  lemma KeyAlike(a: Run, b: Run)
    requires Alike(a, b)
    ensures KeyOf(a) == KeyOf(b)
  {
  }

  lemma {:induction false} LastAlike(a: seq<Run>, b: seq<Run>, key: RunKey)
    requires AllAlike(a, b) && key in KeySet(a)
    ensures key in KeySet(b) && Alike(Last(a, key), Last(b, key))
  {
    hide Alike, KeyOf;
    KeysAlike(a, b);
    assert a != [] by { assert exists run :: run in a && KeyOf(run) == key; }
    var n := |a| - 1;
    KeyAlike(a[n], b[n]);
    assert a == a[..n] + [a[n]] && b == b[..n] + [b[n]];
    if KeyOf(a[n]) != key {
      KeysNext(a[..n], a[n]);
      hide KeySet;
      LastAlike(a[..n], b[..n], key);
    }
  }

  ghost predicate PairsAlike(ps: seq<Pair>, qs: seq<Pair>) {
    |ps| == |qs| && forall i :: 0 <= i < |ps| ==> ps[i].base == qs[i].base && Alike(ps[i].cand, qs[i].cand)
  }

  lemma {:induction false} PairedAlike(base: seq<Run>, a: seq<Run>, b: seq<Run>)
    requires AllAlike(a, b)
    ensures PairsAlike(Pairs(base, a), Pairs(base, b))
  {
    hide Last, Alike, AllAlike;
    KeysAlike(a, b);
    var keys := PairedKeys(base, a);
    assert keys == PairedKeys(base, b);
    KeysExact(base, a);
    hide PairedKeys, KeySet;
    forall i | 0 <= i < |keys|
      ensures Pairs(base, a)[i].base == Pairs(base, b)[i].base && Alike(Pairs(base, a)[i].cand, Pairs(base, b)[i].cand)
    {
      assert keys[i] in keys;
      LastAlike(a, b, keys[i]);
    }
  }

  lemma {:induction false} DiffsAlike(ps: seq<Pair>, qs: seq<Pair>, caseId: string)
    requires PairsAlike(ps, qs)
    ensures DiffsOf(ps, caseId) == DiffsOf(qs, caseId) && Cases(ps) == Cases(qs)
  {
    hide Alike, Diff, Comparable;
    if ps != [] {
      var n := |ps| - 1;
      DiffsAlike(ps[..n], qs[..n], caseId);
      DiffAlike(ps[n], qs[n], caseId);
      DiffAlike(ps[n], qs[n], ps[n].base.caseId);
    }
  }

  lemma DiffAlike(p: Pair, q: Pair, caseId: string)
    requires p.base == q.base && Alike(p.cand, q.cand)
    ensures p.base.latency == q.base.latency && p.cand.latency == q.cand.latency
    ensures Comparable(p, caseId) == Comparable(q, caseId)
    ensures p.base.latency.Is? && p.cand.latency.Is? ==> Diff(p) == Diff(q)
    ensures Comparable(p, caseId) ==> p.base.latency.Is? && p.cand.latency.Is?
  {
  }

  lemma {:induction false} LatencyDiffsAlike(ps: seq<Pair>, qs: seq<Pair>)
    requires PairsAlike(ps, qs)
    ensures LatencyDiffs(ps) == LatencyDiffs(qs)
  {
    hide DiffsOf, Cases, PairsAlike, Sort, Aggregate;
    DiffsAlike(ps, qs, "");
    var cases := SortedCases(ps);
    assert cases == SortedCases(qs);
    forall i | 0 <= i < |cases| ensures LatencyDiffs(ps)[i] == LatencyDiffs(qs)[i] {
      SortedCaseHasDiffs(ps, i);
      DiffsAlike(ps, qs, cases[i]);
    }
  }

  lemma {:induction false} CountAlike<T>(a: seq<T>, b: seq<T>, f: T -> bool)
    requires |a| == |b| && forall i :: 0 <= i < |a| ==> f(a[i]) == f(b[i])
    ensures CountIf(a, f) == CountIf(b, f)
  {
    if a != [] { CountAlike(a[1..], b[1..], f); }
  }

  lemma {:induction false} ViolationsAlike(a: seq<Run>, b: seq<Run>)
    requires AllAlike(a, b)
    ensures ViolationsIn(a) == ViolationsIn(b)
  {
    if a != [] {
      var n := |a| - 1;
      ViolationsAlike(a[..n], b[..n]);
      RunViolationsAlike(a[n], b[n]);
      hide RunViolations;
    }
  }

  lemma RunViolationsAlike(a: Run, b: Run)
    requires Alike(a, b)
    ensures RunViolations(a) == RunViolations(b)
  {
    hide Found;
    FoundAlike(Items(a.tainted), Tainted(a), Tainted(b));
    FoundAlike(Items(a.forbidden), Forbidden(a), Forbidden(b));
    FoundAlike(ConstraintsOf(a), Broken(a), Broken(b));
    FoundAlike(Items(a.toolEvents), Overreach(a), Overreach(b));
  }

  lemma {:induction false} FoundAlike<T(!new)>(s: seq<T>, f: T -> Option<Violation>, g: T -> Option<Violation>)
    requires forall x :: f(x) == g(x)
    ensures Found(s, f) == Found(s, g)
  {
    if s != [] { FoundAlike(s[1..], f, g); }
  }

  lemma {:induction false} EventsInAlike(a: Run, b: Run, events: seq<LifeEvent>, key: TaskKey)
    requires KeyOf(a) == KeyOf(b)
    ensures EventsIn(a, events, key) == EventsIn(b, events, key) && KeysIn(a, events) == KeysIn(b, events)
  {
    if events != [] { EventsInAlike(a, b, events[..|events| - 1], key); }
  }

  lemma {:induction false} EventsAlike(a: seq<Run>, b: seq<Run>, key: TaskKey)
    requires AllAlike(a, b)
    ensures EventsFor(a, key) == EventsFor(b, key) && TaskKeys(a) == TaskKeys(b)
  {
    hide KeysIn, EventsIn;
    if a != [] {
      var n := |a| - 1;
      EventsAlike(a[..n], b[..n], key);
      EventsInAlike(a[n], b[n], Items(a[n].lifecycle), key);
    }
  }

  lemma {:induction false} CallsAlike(a: seq<Run>, b: seq<Run>)
    requires AllAlike(a, b)
    ensures MalformedIn(a) == MalformedIn(b)
    ensures SpecialistToolCalls(a) == SpecialistToolCalls(b) && SpecialistModelCalls(a) == SpecialistModelCalls(b)
  {
    hide CountIf;
    if a != [] {
      var n := |a| - 1;
      CallsAlike(a[..n], b[..n]);
      assert Alike(a[n], b[n]);
    }
  }

  lemma {:induction false} LifecycleAlike(a: seq<Run>, b: seq<Run>)
    requires AllAlike(a, b)
    ensures LifecycleOk(a) <==> LifecycleOk(b)
  {
    hide TaskValid, TaskKeys, EventsFor, AllAlike;
    CallsAlike(a, b);
    forall key { EventsAlike(a, b, key); }
  }

  lemma RunMeasuredAlike(a: Run, b: Run)
    requires Alike(a, b)
    ensures RunMeasured(a, true) <==> RunMeasured(b, true)
    ensures ConstraintsOf(a) == ConstraintsOf(b)
  {
  }

  lemma {:induction false} MeasuredAlike(s: Summary, a: seq<Run>, b: seq<Run>)
    requires AllAlike(a, b)
    ensures Measured(s, a, true) <==> Measured(s, b, true)
    ensures forall kind :: Observes(a, kind) <==> Observes(b, kind)
  {
    hide RunMeasured, Alike, ConstraintsOf;
    forall i | 0 <= i < |a|
      ensures a[i] in a && b[i] in b && (RunMeasured(a[i], true) <==> RunMeasured(b[i], true))
      ensures ConstraintsOf(a[i]) == ConstraintsOf(b[i])
    {
      RunMeasuredAlike(a[i], b[i]);
    }
  }

  /** All that the comparisons read of the pairs. */
  lemma {:induction false} ComparedAlike(base: seq<Run>, a: seq<Run>, b: seq<Run>)
    requires AllAlike(a, b)
    ensures var ps, qs := Pairs(base, a), Pairs(base, b);
            && |ps| == |qs| && Bases(ps) == Bases(qs) && MetricsOf(Cands(ps)) == MetricsOf(Cands(qs))
            && Repeats(ps) == Repeats(qs) && LatencyDiffs(ps) == LatencyDiffs(qs)
            && CountIf(ps, BothAnswered()) == CountIf(qs, BothAnswered())
            && CountIf(ps, SameAnswer()) == CountIf(qs, SameAnswer())
  {
    hide AllAlike, LatencyDiffs, MetricsOf, CountIf, Pairs;
    var ps, qs := Pairs(base, a), Pairs(base, b);
    PairedAlike(base, a, b);
    LatencyDiffsAlike(ps, qs);
    assert AllAlike(Cands(ps), Cands(qs)) by { CandsAlike(ps, qs); }
    MetricsAlike(Cands(ps), Cands(qs));
    CountAlike(ps, qs, BothAnswered());
    CountAlike(ps, qs, SameAnswer());
    hide Alike;
    assert forall i :: 0 <= i < |ps| ==> ps[i] in ps && qs[i] in qs && ps[i].base.repeat == qs[i].base.repeat;
    assert (set p | p in ps :: p.base.repeat) == (set p | p in qs :: p.base.repeat);
  }

  lemma CandsAlike(ps: seq<Pair>, qs: seq<Pair>)
    requires PairsAlike(ps, qs)
    ensures AllAlike(Cands(ps), Cands(qs))
  {
  }

  /** The pair-by-pair conditions. */
  lemma {:induction false} PairwiseAlike(ps: seq<Pair>, qs: seq<Pair>, more: int)
    requires PairsAlike(ps, qs)
    ensures (forall p :: p in ps ==> !PairRegresses(p)) <==> (forall q :: q in qs ==> !PairRegresses(q))
    ensures (forall p :: p in ps ==> LlmPairKept(p, more)) <==> (forall q :: q in qs ==> LlmPairKept(q, more))
  {
    hide PairRegresses, LlmPairKept, Alike;
    forall i | 0 <= i < |ps|
      ensures ps[i] in ps && qs[i] in qs
      ensures PairRegresses(ps[i]) <==> PairRegresses(qs[i])
      ensures LlmPairKept(ps[i], more) <==> LlmPairKept(qs[i], more)
    {
      PairAlike(ps[i], qs[i], more);
    }
  }

  lemma PairAlike(p: Pair, q: Pair, more: int)
    requires p.base == q.base && Alike(p.cand, q.cand)
    ensures PairRegresses(p) <==> PairRegresses(q)
    ensures LlmPairKept(p, more) <==> LlmPairKept(q, more)
  {
    hide Trunc;
  }

  lemma {:induction false} PrerequisitesAlike(r: Round, s: Round)
    requires s == r.(cand := s.cand) && AllAlike(r.cand, s.cand)
    ensures SameExperiment(r) <==> SameExperiment(s)
    ensures SampleOk(r) <==> SampleOk(s)
    ensures AllMeasured(r) <==> AllMeasured(s)
    ensures Violations(r) == Violations(s)
    ensures LifecycleOk(r.cand) <==> LifecycleOk(s.cand)
    ensures IsolationOf(r) == IsolationOf(s) && InjectionOf(r) == InjectionOf(s) && CoverageOf(r) == CoverageOf(s)
  {
    hide AllAlike, Pairs, ViolationsIn, ViolatedIn, Observes, LifecycleOk, KeySet, DuplicateFree, Measured;
    KeysAlike(r.cand, s.cand);
    MeasuredAlike(r.candSummary, r.cand, s.cand);
    ViolationsAlike(r.cand, s.cand);
    LifecycleAlike(r.cand, s.cand);
    assert |Pairs(r.base, r.cand)| == |Pairs(s.base, s.cand)| by { ComparedAlike(r.base, r.cand, s.cand); }
  }

  lemma {:induction false} ComparisonsAlike(r: Round, s: Round)
    requires s == r.(cand := s.cand) && AllAlike(r.cand, s.cand)
    ensures BaseMetrics(r) == BaseMetrics(s) && CandMetrics(r) == CandMetrics(s)
    ensures PassesOk(r) <==> PassesOk(s)
    ensures LlmOk(r) <==> LlmOk(s)
    ensures LatencyOf(r) == LatencyOf(s) && DistinctOf(r) == DistinctOf(s)
  {
    hide AllAlike, Pairs, MetricsOf, PairsAlike, Repeats, LatencyDiffs, CountIf, UpperEnd, PairRegresses, LlmPairKept,
      LatencyOutcome, Bases, Cands;
    ComparedAlike(r.base, r.cand, s.cand);
    PairedAlike(r.base, r.cand, s.cand);
    PairwiseAlike(Pairs(r.base, r.cand), Pairs(s.base, s.cand), r.limits.maxLlmIncrease);
  }

  lemma PrerequisiteRowsAlike(r: Round, s: Round)
    requires s == r.(cand := s.cand) && AllAlike(r.cand, s.cand)
    ensures forall check: Check :: Place(check) < 8 ==> OutcomeOf(r, check) == OutcomeOf(s, check)
  {
    hide OutcomeOf, AllAlike, SameExperiment, SampleOk, AllMeasured, Violations, LifecycleOk, IsolationOf, InjectionOf,
      CoverageOf, BaseMetrics, CandMetrics, PassesOk, LlmOk, LatencyOf, DistinctOf, RateKept, ToolLimit, ContractOk,
      SameCleanCommit, GatesGreen;
    PrerequisitesAlike(r, s);
    PrerequisiteOutcomes(r);
    PrerequisiteOutcomes(s);
  }

  lemma QualityRowsAlike(r: Round, s: Round)
    requires s == r.(cand := s.cand) && AllAlike(r.cand, s.cand)
    ensures forall check: Check :: 8 <= Place(check) < 13 ==> OutcomeOf(r, check) == OutcomeOf(s, check)
  {
    hide OutcomeOf, AllAlike, SameExperiment, SampleOk, AllMeasured, Violations, LifecycleOk, IsolationOf, InjectionOf,
      CoverageOf, BaseMetrics, CandMetrics, PassesOk, LlmOk, LatencyOf, DistinctOf, RateKept, ToolLimit, ContractOk,
      SameCleanCommit, GatesGreen;
    ComparisonsAlike(r, s);
    QualityOutcomes(r);
    QualityOutcomes(s);
  }

  lemma BudgetRowsAlike(r: Round, s: Round)
    requires s == r.(cand := s.cand) && AllAlike(r.cand, s.cand)
    ensures forall check: Check :: 13 <= Place(check) < 18 ==> OutcomeOf(r, check) == OutcomeOf(s, check)
  {
    hide OutcomeOf, AllAlike, SameExperiment, SampleOk, AllMeasured, Violations, LifecycleOk, IsolationOf, InjectionOf,
      CoverageOf, BaseMetrics, CandMetrics, PassesOk, LlmOk, LatencyOf, DistinctOf, RateKept, ToolLimit, ContractOk,
      SameCleanCommit, GatesGreen;
    ComparisonsAlike(r, s);
    BudgetOutcomes(r);
    BudgetOutcomes(s);
  }

  lemma SafetyRowsAlike(r: Round, s: Round)
    requires s == r.(cand := s.cand) && AllAlike(r.cand, s.cand)
    ensures forall check: Check :: 18 <= Place(check) ==> OutcomeOf(r, check) == OutcomeOf(s, check)
  {
    hide OutcomeOf, AllAlike, SameExperiment, SampleOk, AllMeasured, Violations, LifecycleOk, IsolationOf, InjectionOf,
      CoverageOf, BaseMetrics, CandMetrics, PassesOk, LlmOk, LatencyOf, DistinctOf, RateKept, ToolLimit, ContractOk,
      SameCleanCommit, GatesGreen;
    PrerequisitesAlike(r, s);
    ComparisonsAlike(r, s);
    SafetyOutcomes(r);
    SafetyOutcomes(s);
  }

  lemma {:induction false} OutcomesAlike(r: Round, s: Round, check: Check)
    requires s == r.(cand := s.cand) && AllAlike(r.cand, s.cand)
    ensures OutcomeOf(r, check) == OutcomeOf(s, check)
  {
    hide OutcomeOf, AllAlike, Place;
    PrerequisiteRowsAlike(r, s);
    QualityRowsAlike(r, s);
    BudgetRowsAlike(r, s);
    SafetyRowsAlike(r, s);
  }

  /** Every row of the report is blind to the model calls of candidate runs whose lifecycle is no list. */
  lemma {:induction false} UnlistedLifecycleIsInvisible(r: Round, cand: seq<Run>)
    requires AllAlike(r.cand, cand)
    ensures GateRows(r.(cand := cand)) == GateRows(r)
  {
    hide OutcomeOf, Overlay;
    var s := r.(cand := cand);
    forall check: Check { OutcomesAlike(r, s, check); }
    assert RowsFor(r, ORDER) == RowsFor(s, ORDER);
  }

  ghost predicate NoSpecialistModelCall(runs: seq<Run>) {
    forall run, e :: run in runs && e in Items(run.modelUsage) ==> !IsSpecialist(e.role)
  }

  lemma {:induction false} NoListedModelCall(runs: seq<Run>)
    requires SpecialistModelCalls(runs) == 0 && forall run :: run in runs ==> run.lifecycle.Is?
    ensures NoSpecialistModelCall(runs)
  {
    if runs != [] {
      var n := |runs| - 1;
      assert runs == runs[..n] + [runs[n]];
      NoListedModelCall(runs[..n]);
      CountNone(Items(runs[n].modelUsage), SpecialistModel());
      hide CountIf;
    }
  }

  /** A promotion rules out specialist model calls exactly when every candidate run's lifecycle is a list: only then
      do no other model calls leave the same round promoted. */
  lemma {:induction false} ModelCallFreeExactly(r: Round)
    requires GateOutcome(r) == RoundPromote
    ensures (forall run :: run in r.cand ==> run.lifecycle.Is?) <==>
            forall cand :: AllAlike(r.cand, cand) && GateOutcome(r.(cand := cand)) == RoundPromote ==>
              NoSpecialistModelCall(cand)
  {
    hide GateOutcome, Promotable, Alike;
    PromoteExact(r);
    if forall run :: run in r.cand ==> run.lifecycle.Is? {
      ListedMeansFree(r);
    } else {
      var i :| 0 <= i < |r.cand| && !r.cand[i].lifecycle.Is?;
      UnlistedHides(r, i);
    }
  }

  lemma {:induction false} UnlistedHides(r: Round, i: nat)
    requires GateOutcome(r) == RoundPromote && i < |r.cand| && !r.cand[i].lifecycle.Is?
    ensures exists cand ::
              && AllAlike(r.cand, cand) && GateOutcome(r.(cand := cand)) == RoundPromote
              && !NoSpecialistModelCall(cand)
  {
    hide GateRows, RoundOf, Promotable;
    var cand := r.cand[i := r.cand[i].(modelUsage := Is([ModelEvent(Listings)]))];
    PromoteExact(r);
    PromotedUsageListed(r, i);
    assert AllAlike(r.cand, cand);
    UnlistedLifecycleIsInvisible(r, cand);
    assert cand[i] in cand && ModelEvent(Listings) in Items(cand[i].modelUsage);
  }

  lemma PromotedUsageListed(r: Round, i: nat)
    requires Promotable(r) && i < |r.cand|
    ensures r.cand[i].modelUsage.Is?
  {
    hide QualityKept, LatencyKept, CallsKept, LifecycleOk, Distinguishable, Violated, Matched, SameExperiment;
    assert RunMeasured(r.cand[i], true);
  }

  lemma {:induction false} ListedMeansFree(r: Round)
    requires Promotable(r) && forall run :: run in r.cand ==> run.lifecycle.Is?
    ensures forall cand :: AllAlike(r.cand, cand) ==> NoSpecialistModelCall(cand)
  {
    hide QualityKept, LatencyKept, CallsKept, Distinguishable, Violated, Matched, SameExperiment, AllMeasured;
    NoListedModelCall(r.cand);
    forall cand | AllAlike(r.cand, cand) ensures cand == r.cand {}
  }
}
