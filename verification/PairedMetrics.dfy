/** What evaluation/paired_gate.py measures on the pairs: the totals of `_aggregate`, the latency differences per
    case and the share of identical answers. Sums depend only on which runs are paired, never on their order. */
module PairedMetrics {
  import opened Wrappers
  import opened Sorting
  import opened Sequences
  import opened Counting
  import opened Percentile
  import opened RunRecords
  import opened PairedRuns
  import Trees

  /* --- totals --- */

  function Flag(b: bool): real { if b then 1.0 else 0.0 }
  function Passed(r: Run): real { Flag(IsTrue(r.passed)) }
  function Completed(r: Run): real { Flag(r.verdict.Is? && IsTrue(r.verdict.value.taskCompleted)) }
  function ConstraintsPassed(r: Run): real { if r.verdict.Is? then MetricOf(r.verdict.value.passed) as real else 0.0 }
  function ConstraintsTotal(r: Run): real { if r.verdict.Is? then MetricOf(r.verdict.value.total) as real else 0.0 }
  function Grounded(r: Run): real { if r.grounding.Is? then MetricOf(r.grounding.value.grounded) as real else 0.0 }
  function Claims(r: Run): real { if r.grounding.Is? then MetricOf(r.grounding.value.claims) as real else 0.0 }
  function Sourced(r: Run): real { if r.grounding.Is? then MetricOf(r.grounding.value.sourced) as real else 0.0 }
  function LlmCalls(r: Run): real { MetricOf(r.llmCalls) as real }
  function ToolCalls(r: Run): real { |Items(r.toolEvents)| as real }
  function FailedTool(): ToolEvent -> bool { (e: ToolEvent) => !(e.hasSuccess && e.success) }
  function ToolFailures(r: Run): real { CountIf(Items(r.toolEvents), FailedTool()) as real }
  function Cost(r: Run): real { if r.cost.Is? then r.cost.value else 0.0 }

  function SumBy(runs: seq<Run>, f: Run -> real): real {
    if runs == [] then 0.0 else f(runs[0]) + SumBy(runs[1..], f)
  }

  function Latencies(runs: seq<Run>): seq<real> {
    if runs == [] then []
    else (if runs[0].latency.Is? then [runs[0].latency.value] else []) + Latencies(runs[1..])
  }

  lemma {:induction false} SumRemove(runs: seq<Run>, i: nat, f: Run -> real)
    requires i < |runs|
    ensures SumBy(runs, f) == f(runs[i]) + SumBy(runs[..i] + runs[i + 1..], f)
  {
    if i == 0 {
      assert runs[..0] + runs[1..] == runs[1..];
    } else {
      SumRemove(runs[1..], i - 1, f);
      assert (runs[..i] + runs[i + 1..])[1..] == runs[1..][..i - 1] + runs[1..][i..];
    }
  }

  lemma {:induction false} LatenciesConcat(a: seq<Run>, b: seq<Run>)
    ensures Latencies(a + b) == Latencies(a) + Latencies(b)
  {
    if a == [] {
      assert a + b == b;
    } else {
      assert (a + b)[0] == a[0] && (a + b)[1..] == a[1..] + b;
      LatenciesConcat(a[1..], b);
      var head, x, y := if a[0].latency.Is? then [a[0].latency.value] else [], Latencies(a[1..]), Latencies(b);
      assert Latencies(a) == head + x && Latencies(a + b) == head + (x + y);
    }
  }

  lemma {:induction false} LatencyRemove(runs: seq<Run>, i: nat)
    requires i < |runs|
    ensures multiset(Latencies(runs)) ==
            multiset(Latencies([runs[i]])) + multiset(Latencies(runs[..i] + runs[i + 1..]))
  {
    var front, back := runs[..i], runs[i + 1..];
    assert runs == front + ([runs[i]] + back);
    LatenciesConcat(front, [runs[i]] + back);
    LatenciesConcat([runs[i]], back);
    LatenciesConcat(front, back);
  }

  /** A total depends only on which runs are summed. */
  lemma {:induction false} SumPermutes(runs: seq<Run>, others: seq<Run>, f: Run -> real)
    requires multiset(runs) == multiset(others)
    ensures SumBy(runs, f) == SumBy(others, f)
    decreases |runs|
  {
    assert |runs| == |multiset(runs)| && |others| == |multiset(others)|;
    if runs != [] {
      var i := TakeOut(runs, others);
      SumRemove(others, i, f);
      SumPermutes(runs[1..], others[..i] + others[i + 1..], f);
    }
  }

  lemma {:induction false} LatenciesPermute(runs: seq<Run>, others: seq<Run>)
    requires multiset(runs) == multiset(others)
    ensures multiset(Latencies(runs)) == multiset(Latencies(others))
    decreases |runs|
  {
    assert |runs| == |multiset(runs)| && |others| == |multiset(others)|;
    if runs != [] {
      var i := TakeOut(runs, others);
      LatencyRemove(others, i);
      LatencyRemove(runs, 0);
      assert runs[..0] + runs[1..] == runs[1..];
      LatenciesPermute(runs[1..], others[..i] + others[i + 1..]);
    }
  }

  function P95(runs: seq<Run>): Option<real> { PercentileOf(AllPresent(Latencies(runs)), 0.95) }

  lemma {:induction false} P95Permutes(runs: seq<Run>, others: seq<Run>)
    requires multiset(runs) == multiset(others)
    ensures P95(runs) == P95(others)
  {
    hide PercentileOf;
    LatenciesPermute(runs, others);
    PresentOfAll(Latencies(runs));
    PresentOfAll(Latencies(others));
    PercentilePermutation(AllPresent(Latencies(runs)), AllPresent(Latencies(others)), 0.95);
  }

  /** Dominance pair by pair carries over to the totals. */
  lemma {:induction false} SumDominates(pairs: seq<Pair>, f: Run -> real)
    requires forall i :: 0 <= i < |pairs| ==> f(pairs[i].base) <= f(pairs[i].cand)
    ensures SumBy(Bases(pairs), f) <= SumBy(Cands(pairs), f)
  {
    if pairs != [] {
      assert Bases(pairs)[1..] == Bases(pairs[1..]) && Cands(pairs)[1..] == Cands(pairs[1..]);
      SumDominates(pairs[1..], f);
    }
  }

  /** What each pair may add at most bounds what the candidate adds in all. */
  lemma {:induction false} SumBounded(pairs: seq<Pair>, f: Run -> real, more: real)
    requires forall i :: 0 <= i < |pairs| ==> f(pairs[i].cand) <= f(pairs[i].base) + more
    ensures SumBy(Cands(pairs), f) <= SumBy(Bases(pairs), f) + more * |pairs| as real
  {
    if pairs != [] {
      assert Bases(pairs)[1..] == Bases(pairs[1..]) && Cands(pairs)[1..] == Cands(pairs[1..]);
      SumBounded(pairs[1..], f, more);
      assert more * |pairs| as real == more + more * (|pairs| - 1) as real;
    }
  }

  /** `_aggregate` */
  datatype Metrics = Metrics(
    passed: real, completed: real, constraintsPassed: real, constraintsTotal: real, grounded: real, claims: real,
    sourced: real, p95: Option<real>, llmCalls: real, toolCalls: real, toolFailures: real, cost: real)

  function MetricsOf(runs: seq<Run>): Metrics {
    Metrics(SumBy(runs, Passed), SumBy(runs, Completed), SumBy(runs, ConstraintsPassed), SumBy(runs, ConstraintsTotal),
            SumBy(runs, Grounded), SumBy(runs, Claims), SumBy(runs, Sourced), P95(runs), SumBy(runs, LlmCalls),
            SumBy(runs, ToolCalls), SumBy(runs, ToolFailures), SumBy(runs, Cost))
  }

  /** No metric depends on the order of the runs. */
  lemma {:induction false} MetricsPermute(runs: seq<Run>, others: seq<Run>)
    requires multiset(runs) == multiset(others)
    ensures MetricsOf(runs) == MetricsOf(others)
  {
    hide SumBy, P95;
    P95Permutes(runs, others);
    forall f: Run -> real ensures SumBy(runs, f) == SumBy(others, f) { SumPermutes(runs, others, f); }
  }

  /** The metrics of the pairs are the metrics of the two arms. */
  lemma {:induction false} PairedMetricsExact(base: seq<Run>, cand: seq<Run>)
    requires Matched(base, cand)
    ensures MetricsOf(Bases(Pairs(base, cand))) == MetricsOf(base)
    ensures MetricsOf(Cands(Pairs(base, cand))) == MetricsOf(cand)
  {
    hide MetricsOf, Pairs;
    PairsPermute(base, cand);
    MetricsPermute(Bases(Pairs(base, cand)), base);
    MetricsPermute(Cands(Pairs(base, cand)), cand);
  }

  /* --- latency differences --- */

  function Comparable(p: Pair, caseId: string): bool {
    p.base.latency.Is? && p.cand.latency.Is? && p.base.caseId == caseId
  }

  function Diff(p: Pair): real
    requires p.base.latency.Is? && p.cand.latency.Is?
  {
    p.cand.latency.value - p.base.latency.value
  }

  /** The differences of one case, in the order of its pairs. */
  function DiffsOf(pairs: seq<Pair>, caseId: string): seq<real> {
    if pairs == [] then []
    else
      var p := pairs[|pairs| - 1];
      DiffsOf(pairs[..|pairs| - 1], caseId) + if Comparable(p, caseId) then [Diff(p)] else []
  }

  function Cases(pairs: seq<Pair>): seq<string> {
    if pairs == [] then []
    else
      var rest, p := Cases(pairs[..|pairs| - 1]), pairs[|pairs| - 1];
      if Comparable(p, p.base.caseId) && p.base.caseId !in rest then rest + [p.base.caseId] else rest
  }

  lemma {:induction false} CaseHasDiffs(pairs: seq<Pair>, caseId: string)
    ensures caseId in Cases(pairs) <==> DiffsOf(pairs, caseId) != []
  {
    if pairs != [] { CaseHasDiffs(pairs[..|pairs| - 1], caseId); }
  }

  function SortedCases(pairs: seq<Pair>): seq<string> { Sort(Trees.NameLe, Cases(pairs)) }

  lemma {:induction false} SortedCaseHasDiffs(pairs: seq<Pair>, i: nat)
    requires i < |SortedCases(pairs)|
    ensures DiffsOf(pairs, SortedCases(pairs)[i]) != []
  {
    SortMembers(Trees.NameLe, Cases(pairs));
    assert SortedCases(pairs)[i] in SortedCases(pairs);
    CaseHasDiffs(pairs, SortedCases(pairs)[i]);
  }

  /** The median difference of every case with a comparable pair, by case. */
  function LatencyDiffs(pairs: seq<Pair>): seq<real> {
    var cases := SortedCases(pairs);
    seq(|cases|, i requires 0 <= i < |cases| =>
      SortedCaseHasDiffs(pairs, i); Aggregate(DiffsOf(pairs, cases[i]), Median))
  }

  lemma CasesNext(pairs: seq<Pair>, i: nat, caseId: string)
    requires i < |pairs|
    ensures DiffsOf(pairs[..i + 1], caseId) ==
            if Comparable(pairs[i], caseId) then DiffsOf(pairs[..i], caseId) + [Diff(pairs[i])]
            else DiffsOf(pairs[..i], caseId)
    ensures var id := pairs[i].base.caseId;
            Cases(pairs[..i + 1]) ==
              Cases(pairs[..i]) + if Comparable(pairs[i], id) && id !in Cases(pairs[..i]) then [id] else []
  {
    assert pairs[..i + 1][..i] == pairs[..i];
    assert Cases(pairs[..i]) + [] == Cases(pairs[..i]);
    assert DiffsOf(pairs[..i], caseId) + [] == DiffsOf(pairs[..i], caseId);
  }

  lemma NoCases(pairs: seq<Pair>)
    ensures Cases(pairs[..0]) == []
  {
  }

  method GroupByCase(pairs: seq<Pair>) returns (byCase: map<string, seq<real>>, order: seq<string>)
    ensures order == Cases(pairs)
    ensures forall c :: c in byCase <==> c in order
    ensures forall c :: c in byCase ==> byCase[c] == DiffsOf(pairs, c)
  {
    hide Cases, DiffsOf;
    byCase, order := map[], [];
    NoCases(pairs);
    for i := 0 to |pairs|
      invariant order == Cases(pairs[..i])
      invariant forall c :: c in byCase <==> c in order
      invariant forall c :: c in byCase ==> byCase[c] == DiffsOf(pairs[..i], c)
    {
      var p := pairs[i];
      forall c { CasesNext(pairs, i, c); }
      CaseHasDiffs(pairs[..i], p.base.caseId);
      if p.base.latency.Is? && p.cand.latency.Is? {
        var caseId := p.base.caseId;
        if caseId !in byCase { order := order + [caseId]; }
        byCase := byCase[caseId := (if caseId in byCase then byCase[caseId] else []) + [Diff(p)]];
      }
    }
    assert pairs[..|pairs|] == pairs;
  }

  /** `paired_latency_diffs` */
  method PairedLatencyDiffs(pairs: seq<Pair>) returns (diffs: seq<real>)
    ensures diffs == LatencyDiffs(pairs)
  {
    hide Sort, Aggregate, Cases, DiffsOf;
    var byCase, order := GroupByCase(pairs);
    var cases := Sort(Trees.NameLe, order);
    SortMembers(Trees.NameLe, order);
    diffs := [];
    for i := 0 to |cases|
      invariant diffs == LatencyDiffs(pairs)[..i]
    {
      assert cases[i] in cases;
      SortedCaseHasDiffs(pairs, i);
      diffs := diffs + [Aggregate(byCase[cases[i]], Median)];
    }
  }

  lemma {:induction false} DiffsWithin(pairs: seq<Pair>, caseId: string, most: real)
    requires forall i :: 0 <= i < |pairs| && Comparable(pairs[i], pairs[i].base.caseId) ==> Diff(pairs[i]) <= most
    ensures forall x :: x in DiffsOf(pairs, caseId) ==> x <= most
  {
    if pairs != [] {
      var init := pairs[..|pairs| - 1];
      DiffsWithin(init, caseId, most);
    }
  }

  function SomeLowerBound(s: seq<real>): (lo: real)
    ensures forall x :: x in s ==> lo <= x
  {
    if s == [] then 0.0
    else
      assert s == [s[0]] + s[1..];
      var rest := SomeLowerBound(s[1..]);
      if s[0] < rest then s[0] else rest
  }

  /** No case is slower than the slowest of its pairs. */
  lemma {:induction false} LatencyDiffsAtMost(pairs: seq<Pair>, most: real)
    requires forall i :: 0 <= i < |pairs| && Comparable(pairs[i], pairs[i].base.caseId) ==> Diff(pairs[i]) <= most
    ensures forall x :: x in LatencyDiffs(pairs) ==> x <= most
  {
    hide Aggregate;
    forall i | 0 <= i < |SortedCases(pairs)| ensures LatencyDiffs(pairs)[i] <= most {
      var diffs := DiffsOf(pairs, SortedCases(pairs)[i]);
      SortedCaseHasDiffs(pairs, i);
      DiffsWithin(pairs, SortedCases(pairs)[i], most);
      AggregateWithin(diffs, Median, SomeLowerBound(diffs), most);
    }
  }

  /** The upper end of the bootstrap interval of the mean. */
  function UpperEnd(sample: seq<real>, draws: seq<seq<nat>>, confidence: real): Option<real>
    requires ValidDraws(draws, |sample|)
  {
    if |sample| < 2 || |draws| < 1 then None
    else PercentileOf(AllPresent(Statistics(sample, draws, Mean)), 1.0 - (1.0 - confidence) / 2.0)
  }

  method BootstrapHigh(sample: seq<real>, draws: seq<seq<nat>>, confidence: real) returns (high: Option<real>)
    requires ValidDraws(draws, |sample|)
    ensures high == UpperEnd(sample, draws, confidence)
  {
    hide PercentileOf, Statistics, IsBounded, Rank, IsNearestRank, AllPresent;
    var ci := BootstrapCi(sample, draws, confidence, Mean);
    if ci.None? { return None; }
    StatisticsLength(sample, draws, Mean);
    IntervalHigh(sample, draws, confidence, ci.value);
    return Some(ci.value.high);
  }

  lemma IntervalHigh(sample: seq<real>, draws: seq<seq<nat>>, confidence: real, r: Interval)
    requires ValidDraws(draws, |sample|) && |sample| >= 2 && |draws| >= 1
    requires IsInterval(r, sample, draws, (1.0 - confidence) / 2.0, Mean)
    ensures UpperEnd(sample, draws, confidence) == Some(r.high)
  {
    hide PercentileOf, Statistics, Rank, IsNearestRank, AllPresent, Aggregate;
    var stats, p := Statistics(sample, draws, Mean), 1.0 - (1.0 - confidence) / 2.0;
    StatisticsLength(sample, draws, Mean);
    TailRanked(stats, p);
    NearestRankUnique(stats, Rank(p, |stats|), r.high, Tail(stats, p));
  }

  /** When no pair is slower by more than the allowance, the upper end of the interval is within it, whatever the draws. */
  lemma {:induction false} NoSlowPairKeepsBudget(pairs: seq<Pair>, draws: seq<seq<nat>>, confidence: real, most: real)
    requires ValidDraws(draws, |LatencyDiffs(pairs)|)
    requires forall i :: 0 <= i < |pairs| && Comparable(pairs[i], pairs[i].base.caseId) ==> Diff(pairs[i]) <= most
    ensures var high := UpperEnd(LatencyDiffs(pairs), draws, confidence); high.Some? ==> high.value <= most
  {
    hide PercentileOf, Statistics, IsInterval, LatencyDiffs, AllPresent;
    var sample := LatencyDiffs(pairs);
    LatencyDiffsAtMost(pairs, most);
    if |sample| >= 2 && |draws| >= 1 {
      IntervalFacts(sample, draws, confidence, Mean);
      assert Within(sample, SomeLowerBound(sample), most);
    }
  }

  /* --- distinctiveness --- */

  function BothAnswered(): Pair -> bool { (p: Pair) => p.base.answer.Is? && p.cand.answer.Is? }
  function SameAnswer(): Pair -> bool { (p: Pair) => p.base.answer.Is? && p.base.answer == p.cand.answer }

  /** `_tool_signature` */
  function ToolNames(run: Run): Option<seq<string>> {
    if run.toolEvents.Is? then
      Some(seq(|run.toolEvents.value|, i requires 0 <= i < |run.toolEvents.value| => run.toolEvents.value[i].tool))
    else None
  }

  function BothTooled(): Pair -> bool { (p: Pair) => ToolNames(p.base).Some? && ToolNames(p.cand).Some? }
  function SameTools(): Pair -> bool { (p: Pair) => ToolNames(p.base).Some? && ToolNames(p.base) == ToolNames(p.cand) }

  /** The cases of the pairs with one and the same answer, each once. */
  function IdenticalCases(pairs: seq<Pair>): seq<string> {
    if pairs == [] then []
    else
      var rest, p := IdenticalCases(pairs[..|pairs| - 1]), pairs[|pairs| - 1];
      if SameAnswer()(p) && p.base.caseId !in rest then rest + [p.base.caseId] else rest
  }

  /** `distinctiveness`: comparable and identical pairs by answer and by tool sequence, and the first 50 of the cases
      with identical answers. */
  datatype Distinctness = Distinctness(comparable: nat, identical: nat, toolsComparable: nat, toolsIdentical: nat,
                                       identicalCases: seq<string>)

  function FirstFifty(s: seq<string>): seq<string> { if |s| <= 50 then s else s[..50] }

  method Distinctiveness(pairs: seq<Pair>) returns (r: Distinctness)
    ensures r.comparable == CountIf(pairs, BothAnswered()) && r.identical == CountIf(pairs, SameAnswer())
    ensures r.toolsComparable == CountIf(pairs, BothTooled()) && r.toolsIdentical == CountIf(pairs, SameTools())
    ensures r.identicalCases == FirstFifty(Sort(Trees.NameLe, IdenticalCases(pairs)))
  {
    hide ToolNames, CountIf, Sort;
    var comparable, identical := CountPairs(pairs, BothAnswered(), SameAnswer());
    var toolsComparable, toolsIdentical := CountPairs(pairs, BothTooled(), SameTools());
    var cases: seq<string> := [];
    for i := 0 to |pairs|
      invariant cases == IdenticalCases(pairs[..i])
    {
      assert pairs[..i + 1][..i] == pairs[..i];
      var p := pairs[i];
      if SameAnswer()(p) && p.base.caseId !in cases { cases := cases + [p.base.caseId]; }
    }
    assert pairs[..|pairs|] == pairs;
    r := Distinctness(comparable, identical, toolsComparable, toolsIdentical, FirstFifty(Sort(Trees.NameLe, cases)));
  }

  method CountPairs(pairs: seq<Pair>, both: Pair -> bool, same: Pair -> bool) returns (comparable: nat, identical: nat)
    requires forall p :: same(p) ==> both(p)
    ensures comparable == CountIf(pairs, both) && identical == CountIf(pairs, same)
  {
    comparable, identical := 0, 0;
    for i := 0 to |pairs|
      invariant comparable == CountIf(pairs[..i], both) && identical == CountIf(pairs[..i], same)
    {
      var p := pairs[i];
      assert pairs[..i + 1] == pairs[..i] + [p];
      CountAppend(pairs[..i], p, both);
      CountAppend(pairs[..i], p, same);
      if both(p) {
        comparable := comparable + 1;
        if same(p) { identical := identical + 1; }
      }
    }
    assert pairs[..|pairs|] == pairs;
  }

  /** The listed cases are those with a pair of identical answers, each listed once. */
  lemma {:induction false} IdenticalCasesExact(pairs: seq<Pair>)
    ensures NoRepeats(IdenticalCases(pairs))
    ensures forall c :: c in IdenticalCases(pairs) <==> exists p :: p in pairs && SameAnswer()(p) && p.base.caseId == c
  {
    if pairs != [] {
      var init, last := pairs[..|pairs| - 1], pairs[|pairs| - 1];
      IdenticalCasesExact(init);
      assert pairs == init + [last];
    }
  }

  lemma {:induction false} CountEvery<T>(s: seq<T>, f: T -> bool)
    ensures CountIf(s, f) <= |s|
    ensures CountIf(s, f) == |s| <==> forall i :: 0 <= i < |s| ==> f(s[i])
  {
    if s != [] {
      CountEvery(s[1..], f);
      assert forall i :: 1 <= i < |s| ==> s[i] == s[1..][i - 1];
      assert (forall i :: 0 <= i < |s| ==> f(s[i])) <==> f(s[0]) && forall i :: 0 <= i < |s[1..]| ==> f(s[1..][i]);
    }
  }

  /** `len({key[1] for key in paired_keys})` */
  function Repeats(pairs: seq<Pair>): nat {
    |set p | p in pairs :: p.base.repeat|
  }

  /* --- what one run, and one pair, adds --- */

  lemma SumAppend(runs: seq<Run>, run: Run, f: Run -> real)
    ensures SumBy(runs + [run], f) == SumBy(runs, f) + f(run) && SumBy([], f) == 0.0
  {
    SumRemove(runs + [run], |runs|, f);
    assert (runs + [run])[..|runs|] + (runs + [run])[|runs| + 1..] == runs;
  }

  /** The number of tool events whose success is not true. */
  ghost function Unsuccessful(events: seq<ToolEvent>): set<int> {
    set i | 0 <= i < |events| && !(events[i].hasSuccess && events[i].success)
  }

  /** One more run adds its own figures to the totals, each read from its own field; what is absent adds nothing. */
  lemma {:induction false} FiguresGrow(runs: seq<Run>, run: Run)
    ensures var now, next := MetricsOf(runs), MetricsOf(runs + [run]);
            && next.passed == now.passed + (if run.passed == Is(true) then 1.0 else 0.0)
            && next.completed == now.completed +
               (if run.verdict.Is? && run.verdict.value.taskCompleted == Is(true) then 1.0 else 0.0)
            && next.constraintsPassed == now.constraintsPassed +
               (if run.verdict.Is? then MetricOf(run.verdict.value.passed) as real else 0.0)
            && next.constraintsTotal == now.constraintsTotal +
               (if run.verdict.Is? then MetricOf(run.verdict.value.total) as real else 0.0)
            && next.grounded == now.grounded +
               (if run.grounding.Is? then MetricOf(run.grounding.value.grounded) as real else 0.0)
            && next.claims == now.claims +
               (if run.grounding.Is? then MetricOf(run.grounding.value.claims) as real else 0.0)
            && next.sourced == now.sourced +
               (if run.grounding.Is? then MetricOf(run.grounding.value.sourced) as real else 0.0)
            && next.llmCalls == now.llmCalls + MetricOf(run.llmCalls) as real
            && next.toolCalls == now.toolCalls + (if run.toolEvents.Is? then |run.toolEvents.value| else 0) as real
            && next.toolFailures == now.toolFailures +
               (if run.toolEvents.Is? then |Unsuccessful(run.toolEvents.value)| else 0) as real
            && next.cost == now.cost + (if run.cost.Is? then run.cost.value else 0.0)
  {
    SumAppend(runs, run, Passed);
    SumAppend(runs, run, Completed);
    SumAppend(runs, run, ConstraintsPassed);
    SumAppend(runs, run, ConstraintsTotal);
    SumAppend(runs, run, Grounded);
    SumAppend(runs, run, Claims);
    SumAppend(runs, run, Sourced);
    SumAppend(runs, run, LlmCalls);
    SumAppend(runs, run, ToolCalls);
    SumAppend(runs, run, ToolFailures);
    SumAppend(runs, run, Cost);
    hide SumBy, P95, MetricOf;
    FailuresCounted(run);
  }

  lemma FailuresCounted(run: Run)
    ensures ToolFailures(run) == (if run.toolEvents.Is? then |Unsuccessful(run.toolEvents.value)| else 0) as real
  {
    var events := Items(run.toolEvents);
    CountIsCard(events, FailedTool());
    assert Places(events, FailedTool()) == Unsuccessful(events);
    var none: seq<ToolEvent> := [];
    assert Unsuccessful(none) == {};
  }

  /** Without runs all totals are nothing. */
  lemma NoFigures()
    ensures MetricsOf([]) == Metrics(0.0, 0.0, 0.0, 0.0, 0.0, 0.0, 0.0, None, 0.0, 0.0, 0.0, 0.0)
  {
    hide PercentileOf;
    PresentOfAll([]);
    PercentileStands(AllPresent([]), 0.95, 0.0);
  }

  /** The 95th percentile is the run's latency at which 95 of 100 of the present latencies end. */
  lemma {:induction false} LatencyFigure(runs: seq<Run>, run: Run, v: real)
    ensures MetricsOf(runs).p95 == Some(v) <==> StandsAt(Latencies(runs), 0.95, v)
    ensures MetricsOf(runs).p95.None? <==> Latencies(runs) == []
    ensures Latencies([]) == []
    ensures Latencies(runs + [run]) == Latencies(runs) + if run.latency.Is? then [run.latency.value] else []
  {
    hide PercentileOf, SumBy, StandsAt;
    PresentOfAll(Latencies(runs));
    PercentileStands(AllPresent(Latencies(runs)), 0.95, v);
    LatenciesConcat(runs, [run]);
    assert Latencies([run]) == if run.latency.Is? then [run.latency.value] else [];
  }

  /** One more pair adds its difference to its case, candidate less baseline, if both latencies are there. */
  lemma DiffsGrow(pairs: seq<Pair>, p: Pair, caseId: string)
    ensures DiffsOf([], caseId) == [] && Cases([]) == []
    ensures DiffsOf(pairs + [p], caseId) == DiffsOf(pairs, caseId) +
              if p.base.latency.Is? && p.cand.latency.Is? && p.base.caseId == caseId
              then [p.cand.latency.value - p.base.latency.value] else []
  {
    assert (pairs + [p])[..|pairs|] == pairs;
  }

  /** The differences are the medians of the cases that have any, each case once, by name. */
  lemma {:induction false} LatencyDiffsExact(pairs: seq<Pair>) returns (cases: seq<string>)
    ensures |cases| == |LatencyDiffs(pairs)|
    ensures forall c :: c in cases <==> DiffsOf(pairs, c) != []
    ensures forall i, j :: 0 <= i < j < |cases| ==> Trees.NameLe(cases[i], cases[j]) && cases[i] != cases[j]
    ensures forall i :: 0 <= i < |cases| ==>
              DiffsOf(pairs, cases[i]) != [] && LatencyDiffs(pairs)[i] == Aggregate(DiffsOf(pairs, cases[i]), Median)
  {
    cases := SortedCases(pairs);
    hide Aggregate, DiffsOf;
    forall c { CaseHasDiffs(pairs, c); }
    CasesDistinct(pairs);
    hide Cases;
    SortMembers(Trees.NameLe, Cases(pairs));
    NamesOrdered();
    SortSorted(Trees.NameLe, Cases(pairs));
    SortedDistinct(Cases(pairs));
    forall i | 0 <= i < |cases| { SortedCaseHasDiffs(pairs, i); }
  }

  lemma NamesOrdered()
    ensures TotalPreorder(Trees.NameLe)
  {
    forall a, b { Trees.NameLeTotal(a, b); }
    forall a, b, c | Trees.NameLe(a, b) && Trees.NameLe(b, c) { Trees.NameLeTransitive(a, b, c); }
  }

  lemma {:induction false} CasesDistinct(pairs: seq<Pair>)
    ensures NoRepeats(Cases(pairs))
  {
    if pairs != [] { CasesDistinct(pairs[..|pairs| - 1]); }
  }

  lemma SortedDistinct(s: seq<string>)
    requires NoRepeats(s)
    ensures NoRepeats(Sort(Trees.NameLe, s))
  {
    var r := Sort(Trees.NameLe, s);
    assert multiset(r) == multiset(s);
    hide Sort, NoRepeats;
    forall x ensures multiset(r)[x] <= 1 { DistinctCounts(s, x); }
    CountsDistinct(r);
  }

  /** The upper end stands half of what the confidence leaves below the largest resampled mean. */
  lemma {:induction false} UpperEndStands(sample: seq<real>, draws: seq<seq<nat>>, confidence: real, v: real)
    requires ValidDraws(draws, |sample|)
    ensures UpperEnd(sample, draws, confidence) == Some(v) <==>
            |sample| >= 2 && draws != [] && StandsAt(Statistics(sample, draws, Mean), 0.5 + confidence / 2.0, v)
  {
    hide PercentileOf, Statistics, StandsAt;
    assert 1.0 - (1.0 - confidence) / 2.0 == 0.5 + confidence / 2.0;
    if |sample| >= 2 && draws != [] {
      PresentOfAll(Statistics(sample, draws, Mean));
      PercentileStands(AllPresent(Statistics(sample, draws, Mean)), 1.0 - (1.0 - confidence) / 2.0, v);
    }
  }

  /** Whether one more pair counts as comparable or identical, by answers and by the tools in order. */
  lemma AnswersGrow(pairs: seq<Pair>, p: Pair)
    ensures var both := p.base.answer.Is? && p.cand.answer.Is?;
            && CountIf(pairs + [p], BothAnswered()) == CountIf(pairs, BothAnswered()) + (if both then 1 else 0)
            && CountIf(pairs + [p], SameAnswer()) ==
               CountIf(pairs, SameAnswer()) + (if both && p.base.answer.value == p.cand.answer.value then 1 else 0)
    ensures var both := p.base.toolEvents.Is? && p.cand.toolEvents.Is?;
            && CountIf(pairs + [p], BothTooled()) == CountIf(pairs, BothTooled()) + (if both then 1 else 0)
            && CountIf(pairs + [p], SameTools()) == CountIf(pairs, SameTools()) + (if both && SameNames(p) then 1 else 0)
  {
    CountAppend(pairs, p, BothAnswered());
    CountAppend(pairs, p, SameAnswer());
    CountAppend(pairs, p, BothTooled());
    CountAppend(pairs, p, SameTools());
    hide CountIf;
    if p.base.toolEvents.Is? && p.cand.toolEvents.Is? { NamesCompared(p); }
  }

  ghost predicate SameNames(p: Pair)
    requires p.base.toolEvents.Is? && p.cand.toolEvents.Is?
  {
    var a, b := p.base.toolEvents.value, p.cand.toolEvents.value;
    |a| == |b| && forall i :: 0 <= i < |a| ==> a[i].tool == b[i].tool
  }

  lemma NamesCompared(p: Pair)
    requires p.base.toolEvents.Is? && p.cand.toolEvents.Is?
    ensures SameTools()(p) <==> SameNames(p)
  {
    var a, b := ToolNames(p.base).value, ToolNames(p.cand).value;
    assert forall i :: 0 <= i < |a| ==> a[i] == p.base.toolEvents.value[i].tool;
    assert forall i :: 0 <= i < |b| ==> b[i] == p.cand.toolEvents.value[i].tool;
    if SameNames(p) { assert a == b; }
  }
}
