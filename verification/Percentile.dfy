/** The nearest-rank percentile of evaluation/run_benchmark.py and the bootstrap interval that
    evaluation/paired_gate.py builds from it, over the reals. */
module Percentile {
  import opened Wrappers
  import opened Sorting
  import opened Counting

  predicate RealLe(x: real, y: real) { x <= y }

  function Ceil(x: real): int { -((-x).Floor) }

  function Present(values: seq<Option<real>>): seq<real> {
    if values == [] then []
    else
      var rest := Present(values[1..]);
      if values[0].Some? then [values[0].value] + rest else rest
  }

  /** The 0-based index `ceil(pct * n) - 1`, clamped. */
  function Index(pct: real, n: nat): (i: nat)
    requires n > 0
    ensures i < n
  {
    var idx := Ceil(pct * n as real) - 1;
    if idx < 0 then 0 else if idx > n - 1 then n - 1 else idx
  }

  /** `_percentile` */
  function PercentileOf(values: seq<Option<real>>, pct: real): Option<real> {
    var vals := Sort(RealLe, Present(values));
    if |vals| == 0 then None else Some(vals[Index(pct, |vals|)])
  }

  /* --- the independent definition --- */

  /** The 1-based rank `ceil(pct * n)`, held within 1 and n. */
  function Rank(pct: real, n: nat): nat
    requires n > 0
  {
    var k := Ceil(pct * n as real);
    if k < 1 then 1 else if k > n then n else k
  }

  function Below(v: real): real -> bool { x => x < v }
  function AtMost(v: real): real -> bool { x => x <= v }

  /** A sample member with fewer than `k` values below it and at least `k` values at most it. */
  ghost predicate IsNearestRank(s: seq<real>, k: nat, v: real) {
    v in s && CountIf(s, Below(v)) < k <= CountIf(s, AtMost(v))
  }

  lemma {:induction false} SortedRank(s: seq<real>, i: nat)
    requires SortedBy(RealLe, s) && i < |s|
    ensures IsNearestRank(s, i + 1, s[i])
  {
    CountSplit(s, i, Below(s[i]));
    CountMonotone(s[..i], Below(s[i]), x => true);
    assert forall j :: i <= j < |s| ==> RealLe(s[i], s[j]);
    assert forall j :: 0 <= j < |s[i..]| ==> s[i..][j] == s[i + j];
    CountAll(s[i..], Below(s[i]), false);
    CountSplit(s, i + 1, AtMost(s[i]));
    assert forall j :: 0 <= j <= i ==> RealLe(s[j], s[i]);
    CountAll(s[..i + 1], AtMost(s[i]), true);
  }

  lemma {:induction false} NearestRankUnique(s: seq<real>, k: nat, v: real, w: real)
    requires IsNearestRank(s, k, v) && IsNearestRank(s, k, w)
    ensures v == w
  {
    if v < w { CountMonotone(s, AtMost(v), Below(w)); }
    if w < v { CountMonotone(s, AtMost(w), Below(v)); }
  }

  lemma RealLeTotal()
    ensures TotalPreorder(RealLe)
  {
  }

  lemma {:induction false} RankPermutes(s: seq<real>, t: seq<real>, k: nat, v: real)
    requires multiset(s) == multiset(t) && IsNearestRank(s, k, v)
    ensures IsNearestRank(t, k, v)
  {
    CountPermutation(s, t, Below(v));
    CountPermutation(s, t, AtMost(v));
    hide CountIf;
    assert v in multiset(s);
    assert v in multiset(t);
  }

  lemma {:induction false} SortedMemberRanks(s: seq<real>, k: nat)
    requires 1 <= k <= |s|
    ensures IsNearestRank(s, k, Sort(RealLe, s)[k - 1])
  {
    hide IsNearestRank, SortedBy, TotalPreorder;
    var vals := Sort(RealLe, s);
    assert multiset(vals) == multiset(s) && |vals| == |s|;
    hide Sort;
    RealLeTotal();
    SortSorted(RealLe, s);
    SortedRank(vals, k - 1);
    RankPermutes(vals, s, k, vals[k - 1]);
  }

  lemma PercentileRanked(values: seq<Option<real>>, pct: real)
    requires Present(values) != []
    ensures PercentileOf(values, pct) ==
            Some(Sort(RealLe, Present(values))[Rank(pct, |Present(values)|) - 1])
  {
    IndexRank(pct, |Present(values)|);
    hide Sort, Index, Rank, Present;
    assert |Sort(RealLe, Present(values))| == |Present(values)|;
  }

  lemma IndexRank(pct: real, n: nat)
    requires n > 0
    ensures Index(pct, n) == Rank(pct, n) - 1
  {
    hide Ceil;
  }

  /** `_percentile` answers exactly the nearest-rank member of the values that are present. */
  lemma {:induction false} PercentileExact(values: seq<Option<real>>, pct: real, v: real)
    ensures PercentileOf(values, pct) == Some(v) <==>
            Present(values) != [] && IsNearestRank(Present(values), Rank(pct, |Present(values)|), v)
  {
    hide IsNearestRank;
    var s := Present(values);
    if s != [] {
      var k := Rank(pct, |s|);
      PercentileRanked(values, pct);
      hide PercentileOf, Rank, Sort;
      SortedMemberRanks(s, k);
      if IsNearestRank(s, k, v) { NearestRankUnique(s, k, v, Sort(RealLe, s)[k - 1]); }
    }
  }

  lemma {:induction false} PercentilePermutation(a: seq<Option<real>>, b: seq<Option<real>>, pct: real)
    requires multiset(Present(a)) == multiset(Present(b))
    ensures PercentileOf(a, pct) == PercentileOf(b, pct)
  {
    var s, t := Present(a), Present(b);
    assert |s| == |multiset(s)| && |t| == |multiset(t)|;
    if s != [] {
      var v := PercentileOf(a, pct).value;
      PercentileExact(a, pct, v);
      CountPermutation(s, t, Below(v));
      CountPermutation(s, t, AtMost(v));
      assert v in multiset(s);
      assert v in multiset(t);
      PercentileExact(b, pct, v);
    }
  }

  lemma CeilMonotone(x: real, y: real)
    requires x <= y
    ensures Ceil(x) <= Ceil(y)
  {
  }

  lemma {:induction false} RanksOrdered(s: seq<real>, j: nat, k: nat, v: real, w: real)
    requires j <= k && IsNearestRank(s, j, v) && IsNearestRank(s, k, w)
    ensures v <= w
  {
    if w < v { CountMonotone(s, AtMost(w), Below(v)); }
  }

  /** A higher fraction never gives a lower value. */
  lemma {:induction false} PercentileMonotone(values: seq<Option<real>>, p: real, q: real)
    requires p <= q && Present(values) != []
    ensures PercentileOf(values, p).Some? && PercentileOf(values, q).Some?
    ensures PercentileOf(values, p).value <= PercentileOf(values, q).value
  {
    hide IsNearestRank, Ceil;
    var n := |Present(values)|;
    var v, w := PercentileOf(values, p).value, PercentileOf(values, q).value;
    PercentileExact(values, p, v);
    PercentileExact(values, q, w);
    RankMonotone(p, q, n);
    RanksOrdered(Present(values), Rank(p, n), Rank(q, n), v, w);
  }

  lemma RankMonotone(p: real, q: real, n: nat)
    requires p <= q && n > 0
    ensures Rank(p, n) <= Rank(q, n)
  {
    assert p * n as real <= q * n as real;
    CeilMonotone(p * n as real, q * n as real);
  }

  /* --- bootstrap --- */

  datatype Statistic = Mean | Median

  function Total(s: seq<real>): real {
    if s == [] then 0.0 else s[0] + Total(s[1..])
  }

  function Aggregate(s: seq<real>, statistic: Statistic): real
    requires s != []
  {
    match statistic
    case Mean => Total(s) / |s| as real
    case Median =>
      var vals := Sort(RealLe, s);
      if |vals| % 2 == 1 then vals[|vals| / 2] else (vals[|vals| / 2 - 1] + vals[|vals| / 2]) / 2.0
  }

  ghost predicate Within(s: seq<real>, low: real, high: real) {
    forall x :: x in s ==> low <= x <= high
  }

  lemma TailWithin(s: seq<real>, low: real, high: real)
    requires s != [] && Within(s, low, high)
    ensures low <= s[0] <= high && Within(s[1..], low, high)
  {
    assert s[0] in s && forall x :: x in s[1..] ==> x in s;
  }

  lemma OneMore(x: real, n: nat)
    requires n > 0
    ensures x * n as real == x + x * (n - 1) as real
  {
  }

  lemma {:induction false} TotalWithin(s: seq<real>, low: real, high: real)
    requires Within(s, low, high)
    ensures low * |s| as real <= Total(s) <= high * |s| as real
  {
    hide Within;
    if s != [] {
      TailWithin(s, low, high);
      TotalWithin(s[1..], low, high);
      OneMore(low, |s|);
      OneMore(high, |s|);
    }
  }

  lemma {:induction false} AggregateWithin(s: seq<real>, statistic: Statistic, low: real, high: real)
    requires s != [] && Within(s, low, high)
    ensures low <= Aggregate(s, statistic) <= high
  {
    hide Within, Sort, Total;
    match statistic
    case Mean =>
      TotalWithin(s, low, high);
      Divide(Total(s), |s| as real, low, high);
    case Median => MedianWithin(s, low, high);
  }

  lemma MedianWithin(s: seq<real>, low: real, high: real)
    requires s != [] && Within(s, low, high)
    ensures low <= Aggregate(s, Median) <= high
  {
    hide Sort;
    SortMembers(RealLe, s);
    var vals := Sort(RealLe, s);
    assert vals[|vals| / 2] in vals;
    if |vals| % 2 == 0 { assert vals[|vals| / 2 - 1] in vals; }
  }

  lemma Divide(x: real, n: real, low: real, high: real)
    requires n > 0.0 && low * n <= x <= high * n
    ensures low <= x / n <= high
  {
    var q := x / n;
    assert x == q * n;
    assert q < low ==> q * n < low * n;
    assert q > high ==> q * n > high * n;
  }

  datatype Interval = Interval(point: real, low: real, high: real)

  /** One resample: the sample at `n` drawn positions. */
  function Resample(sample: seq<real>, draw: seq<nat>): seq<real>
    requires forall i :: 0 <= i < |draw| ==> draw[i] < |sample|
  {
    seq(|draw|, i requires 0 <= i < |draw| => sample[draw[i]])
  }

  /** What `rng.randrange(n)` can produce for every resample. */
  predicate ValidDraws(draws: seq<seq<nat>>, n: nat) {
    forall d :: d in draws ==> |d| == n && forall i :: 0 <= i < n ==> d[i] < n
  }

  function AllPresent(s: seq<real>): seq<Option<real>> {
    seq(|s|, i requires 0 <= i < |s| => Some(s[i]))
  }

  lemma {:induction false} PresentOfAll(s: seq<real>)
    ensures Present(AllPresent(s)) == s
  {
    if s != [] {
      assert AllPresent(s)[1..] == AllPresent(s[1..]);
      PresentOfAll(s[1..]);
    }
  }

  /** `bootstrap_ci` over the numeric values, with the generator's draws given: for any draws and any
      non-negative confidence the interval is ordered, and its ends and the point estimate lie within the
      sample. */
  method BootstrapCi(sample: seq<real>, draws: seq<seq<nat>>, confidence: real, statistic: Statistic)
    returns (r: Option<Interval>)
    requires ValidDraws(draws, |sample|)
    ensures r.None? <==> |sample| < 2 || |draws| < 1
    ensures r.Some? ==> IsInterval(r.value, sample, draws, (1.0 - confidence) / 2.0, statistic)
    ensures r.Some? ==> IsBounded(r.value, sample, confidence)
  {
    hide *;
    if |sample| < 2 || |draws| < 1 { return None; }
    var stats := ResampledStatistics(sample, draws, statistic);
    var interval := IntervalAt(sample, stats, (1.0 - confidence) / 2.0, statistic);
    IntervalFacts(sample, draws, confidence, statistic);
    return Some(interval);
  }

  function Tail(stats: seq<real>, p: real): real {
    var v := PercentileOf(AllPresent(stats), p);
    if v.Some? then v.value else 0.0
  }

  function IntervalAt(sample: seq<real>, stats: seq<real>, alpha: real, statistic: Statistic): Interval
    requires sample != []
  {
    Interval(Aggregate(sample, statistic), Tail(stats, alpha), Tail(stats, 1.0 - alpha))
  }

  method ResampledStatistics(sample: seq<real>, draws: seq<seq<nat>>, statistic: Statistic) returns (stats: seq<real>)
    requires ValidDraws(draws, |sample|) && sample != []
    ensures stats == Statistics(sample, draws, statistic)
  {
    hide Aggregate;
    stats := [];
    for i := 0 to |draws|
      invariant stats == Statistics(sample, draws, statistic)[..i]
    {
      assert draws[i] in draws;
      stats := stats + [Aggregate(Resample(sample, draws[i]), statistic)];
    }
  }

  /** Ordered when the confidence is not negative, and within the sample. */
  ghost predicate IsBounded(r: Interval, sample: seq<real>, confidence: real) {
    && (confidence >= 0.0 ==> r.low <= r.high)
    && forall lo, hi :: Within(sample, lo, hi) ==> lo <= r.low <= hi && lo <= r.high <= hi && lo <= r.point <= hi
  }

  lemma {:induction false} IntervalFacts(sample: seq<real>, draws: seq<seq<nat>>, confidence: real, statistic: Statistic)
    requires ValidDraws(draws, |sample|) && sample != [] && draws != []
    ensures var alpha := (1.0 - confidence) / 2.0;
            var r := IntervalAt(sample, Statistics(sample, draws, statistic), alpha, statistic);
            IsInterval(r, sample, draws, alpha, statistic) && IsBounded(r, sample, confidence)
  {
    hide PercentileOf, Aggregate, Rank, Statistics, Within, IsNearestRank, AllPresent;
    var stats, alpha := Statistics(sample, draws, statistic), (1.0 - confidence) / 2.0;
    StatisticsLength(sample, draws, statistic);
    TailRanked(stats, alpha);
    TailRanked(stats, 1.0 - alpha);
    if confidence >= 0.0 { TailsOrdered(stats, alpha, 1.0 - alpha); }
    var low, high := Tail(stats, alpha), Tail(stats, 1.0 - alpha);
    forall lo, hi | Within(sample, lo, hi)
      ensures lo <= low <= hi && lo <= high <= hi && lo <= Aggregate(sample, statistic) <= hi
    {
      StatisticWithin(sample, draws, statistic, lo, hi, low);
      StatisticWithin(sample, draws, statistic, lo, hi, high);
      AggregateWithin(sample, statistic, lo, hi);
    }
  }

  lemma TailRanked(stats: seq<real>, p: real)
    requires stats != []
    ensures PercentileOf(AllPresent(stats), p) == Some(Tail(stats, p))
    ensures IsNearestRank(stats, Rank(p, |stats|), Tail(stats, p)) && Tail(stats, p) in stats
  {
    hide PercentileOf, Rank, IsNearestRank, AllPresent;
    PresentOfAll(stats);
    PercentileMonotone(AllPresent(stats), p, p);
    PercentileExact(AllPresent(stats), p, Tail(stats, p));
    RankMember(stats, Rank(p, |stats|), Tail(stats, p));
  }

  lemma TailsOrdered(stats: seq<real>, p: real, q: real)
    requires stats != [] && p <= q
    ensures Tail(stats, p) <= Tail(stats, q)
  {
    hide PercentileOf, AllPresent;
    PresentOfAll(stats);
    PercentileMonotone(AllPresent(stats), p, q);
  }

  lemma RankMember(s: seq<real>, k: nat, v: real)
    requires IsNearestRank(s, k, v)
    ensures v in s
  {
  }

  lemma StatisticsLength(sample: seq<real>, draws: seq<seq<nat>>, statistic: Statistic)
    requires ValidDraws(draws, |sample|) && sample != []
    ensures |Statistics(sample, draws, statistic)| == |draws|
  {
  }

  function Statistics(sample: seq<real>, draws: seq<seq<nat>>, statistic: Statistic): seq<real>
    requires ValidDraws(draws, |sample|) && sample != []
  {
    seq(|draws|, i requires 0 <= i < |draws| =>
      assert draws[i] in draws; Aggregate(Resample(sample, draws[i]), statistic))
  }

  /** The point estimate of the sample, and the nearest-rank members of the resampled statistics at both tails. */
  ghost predicate IsInterval(r: Interval, sample: seq<real>, draws: seq<seq<nat>>, alpha: real, statistic: Statistic)
    requires ValidDraws(draws, |sample|) && sample != [] && draws != []
  {
    && r.point == Aggregate(sample, statistic)
    && IsNearestRank(Statistics(sample, draws, statistic), Rank(alpha, |draws|), r.low)
    && IsNearestRank(Statistics(sample, draws, statistic), Rank(1.0 - alpha, |draws|), r.high)
  }

  lemma {:induction false} StatisticWithin(sample: seq<real>, draws: seq<seq<nat>>, statistic: Statistic,
                                           low: real, high: real, x: real)
    requires ValidDraws(draws, |sample|) && sample != [] && x in Statistics(sample, draws, statistic)
    requires Within(sample, low, high)
    ensures low <= x <= high
  {
    var i :| 0 <= i < |draws| && Statistics(sample, draws, statistic)[i] == x;
    assert draws[i] in draws;
    ResampleWithin(sample, draws[i], statistic, low, high);
  }

  lemma {:induction false} ResampleWithin(sample: seq<real>, draw: seq<nat>, statistic: Statistic, low: real, high: real)
    requires draw != [] && forall i :: 0 <= i < |draw| ==> draw[i] < |sample|
    requires Within(sample, low, high)
    ensures low <= Aggregate(Resample(sample, draw), statistic) <= high
  {
    var r := Resample(sample, draw);
    forall x | x in r ensures low <= x <= high {
      var i :| 0 <= i < |r| && r[i] == x;
      assert sample[draw[i]] in sample;
    }
    AggregateWithin(r, statistic, low, high);
  }

  /* --- on the numbers alone --- */

  /** The places of the numbers below, and of those not above. */
  ghost function Lower(s: seq<real>, v: real): set<int> { set i | 0 <= i < |s| && s[i] < v }
  ghost function NotAbove(s: seq<real>, v: real): set<int> { set i | 0 <= i < |s| && s[i] <= v }

  ghost function Fewer(s: seq<real>, v: real): nat { |Lower(s, v)| }
  ghost function NoMore(s: seq<real>, v: real): nat { |NotAbove(s, v)| }

  lemma FewerExact(s: seq<real>, v: real)
    ensures CountIf(s, Below(v)) == Fewer(s, v) && CountIf(s, AtMost(v)) == NoMore(s, v)
  {
    CountIsCard(s, Below(v));
    CountIsCard(s, AtMost(v));
    assert Lower(s, v) == Places(s, Below(v)) && NotAbove(s, v) == Places(s, AtMost(v));
  }

  /** `v` stands where the fraction `pct` of the sample ends: fewer than that many lie below it, and at least that many
      do not lie above it; the ends of the sample serve for fractions outside it. */
  ghost predicate StandsAt(s: seq<real>, pct: real, v: real) {
    && v in s
    && (Fewer(s, v) == 0 || Fewer(s, v) as real < pct * |s| as real)
    && (NoMore(s, v) == |s| || pct * |s| as real <= NoMore(s, v) as real)
  }

  lemma {:induction false} SomeFewer(s: seq<real>, v: real)
    requires v in s
    ensures CountIf(s, Below(v)) < |s| && 1 <= CountIf(s, AtMost(v)) <= |s|
  {
    if s[0] == v {
      CountMonotone(s[1..], Below(v), x => true);
    } else {
      assert s == [s[0]] + s[1..];
      SomeFewer(s[1..], v);
    }
    CountMonotone(s, AtMost(v), x => true);
  }

  lemma {:induction false} RankStands(s: seq<real>, pct: real, v: real)
    requires s != []
    ensures IsNearestRank(s, Rank(pct, |s|), v) <==> StandsAt(s, pct, v)
  {
    if v in s {
      SomeFewer(s, v);
      FewerExact(s, v);
      hide CountIf;
    }
  }

  /** What is present: the numbers of the list in order, absent values left out. */
  lemma PresentGrows(values: seq<Option<real>>, x: real)
    ensures Present([]) == []
    ensures Present(values + [Some(x)]) == Present(values) + [x]
    ensures Present(values + [None]) == Present(values)
  {
    PresentConcat(values, [Some(x)]);
    PresentConcat(values, [None]);
    assert [Some(x)][1..] == [] && Present([Some(x)]) == [x] && Present([None]) == [];
  }

  lemma {:induction false} PresentConcat(a: seq<Option<real>>, b: seq<Option<real>>)
    ensures Present(a + b) == Present(a) + Present(b)
  {
    if a == [] {
      assert a + b == b;
    } else {
      assert (a + b)[0] == a[0] && (a + b)[1..] == a[1..] + b;
      PresentConcat(a[1..], b);
    }
  }

  /** `_percentile` answers exactly the present number that stands at the fraction. */
  lemma {:induction false} PercentileStands(values: seq<Option<real>>, pct: real, v: real)
    ensures PercentileOf(values, pct) == Some(v) <==> StandsAt(Present(values), pct, v)
    ensures PercentileOf(values, pct).None? <==> Present(values) == []
  {
    hide IsNearestRank, Present, Rank, Sort, Index;
    PercentileExact(values, pct, v);
    if Present(values) != [] { RankStands(Present(values), pct, v); }
  }

  /** The mean times the number of values is their sum. */
  lemma MeanExact(s: seq<real>)
    requires s != []
    ensures Aggregate(s, Mean) * |s| as real == Total(s)
  {
    hide Total, Sort;
    MeanIsQuotient(s);
    hide Aggregate;
    Quotient(Total(s), |s| as real);
  }

  lemma MeanIsQuotient(s: seq<real>)
    requires s != []
    ensures Aggregate(s, Mean) == Total(s) / |s| as real
  {
    hide Total, Sort;
  }

  lemma Quotient(x: real, n: real)
    requires n > 0.0
    ensures x / n * n == x
  {
  }

  /** The sum grows by every value, from zero. */
  lemma {:induction false} TotalAppend(s: seq<real>, x: real)
    ensures Total([]) == 0.0 && Total(s + [x]) == Total(s) + x
  {
    if s == [] {
      assert [] + [x] == [x] && [x][1..] == [];
    } else {
      assert (s + [x])[1..] == s[1..] + [x];
      TotalAppend(s[1..], x);
    }
  }

  /** The median is the middle value, or halfway between the two middle values: `lo` and `hi` have at most half of the
      values below them and the same number not above. */
  lemma {:induction false} MedianExact(s: seq<real>)
    requires s != []
    ensures exists lo, hi ::
              && lo in s && hi in s && Aggregate(s, Median) == (lo + hi) / 2.0
              && Fewer(s, lo) < (|s| + 1) / 2 <= NoMore(s, lo)
              && Fewer(s, hi) < |s| / 2 + 1 <= NoMore(s, hi)
  {
    var lo, hi := MiddleLow(s), MiddleHigh(s);
    MedianOfMiddle(s);
    MiddleRanks(s);
    hide MiddleLow, MiddleHigh, Aggregate, CountIf, Fewer, NoMore;
    FewerExact(s, lo);
    FewerExact(s, hi);
  }

  /** The last value of the first half, and the first value after as many. */
  function MiddleLow(s: seq<real>): real requires s != [] { Sort(RealLe, s)[(|s| + 1) / 2 - 1] }
  function MiddleHigh(s: seq<real>): real requires s != [] { Sort(RealLe, s)[|s| / 2] }

  lemma MedianOfMiddle(s: seq<real>)
    requires s != []
    ensures Aggregate(s, Median) == (MiddleLow(s) + MiddleHigh(s)) / 2.0
  {
    hide Sort, Total;
    if |s| % 2 == 1 { assert (|s| + 1) / 2 - 1 == |s| / 2; } else { assert (|s| + 1) / 2 == |s| / 2; }
  }

  lemma MiddleRanks(s: seq<real>)
    requires s != []
    ensures IsNearestRank(s, (|s| + 1) / 2, MiddleLow(s)) && IsNearestRank(s, |s| / 2 + 1, MiddleHigh(s))
  {
    hide Sort, IsNearestRank;
    SortedMemberRanks(s, (|s| + 1) / 2);
    SortedMemberRanks(s, |s| / 2 + 1);
  }

  /** One more drawn position brings one more value of the sample. */
  lemma ResampleGrows(sample: seq<real>, draw: seq<nat>, k: nat)
    requires k < |sample| && forall i :: 0 <= i < |draw| ==> draw[i] < |sample|
    ensures Resample(sample, []) == [] && Resample(sample, draw + [k]) == Resample(sample, draw) + [sample[k]]
  {
  }

  /** One more draw brings one more resampled statistic. */
  lemma StatisticsGrow(sample: seq<real>, draws: seq<seq<nat>>, draw: seq<nat>, statistic: Statistic)
    requires sample != [] && ValidDraws(draws, |sample|) && ValidDraws([draw], |sample|)
    requires ValidDraws(draws + [draw], |sample|)
    ensures draw in [draw] && Statistics(sample, [], statistic) == []
    ensures Statistics(sample, draws + [draw], statistic) ==
            Statistics(sample, draws, statistic) + [Aggregate(Resample(sample, draw), statistic)]
  {
    assert [draw][0] == draw;
    hide Aggregate;
  }

  /** The ends of the interval stand at half of what the confidence leaves, on both sides. */
  lemma {:induction false} IntervalStands(r: Interval, sample: seq<real>, draws: seq<seq<nat>>, confidence: real,
                                          statistic: Statistic)
    requires ValidDraws(draws, |sample|) && sample != [] && draws != []
    ensures IsInterval(r, sample, draws, (1.0 - confidence) / 2.0, statistic) <==>
              && r.point == Aggregate(sample, statistic)
              && StandsAt(Statistics(sample, draws, statistic), 0.5 - confidence / 2.0, r.low)
              && StandsAt(Statistics(sample, draws, statistic), 0.5 + confidence / 2.0, r.high)
  {
    hide IsNearestRank, Aggregate, Rank, StandsAt, Statistics;
    var stats := Statistics(sample, draws, statistic);
    StatisticsLength(sample, draws, statistic);
    RankStands(stats, (1.0 - confidence) / 2.0, r.low);
    RankStands(stats, 1.0 - (1.0 - confidence) / 2.0, r.high);
    assert (1.0 - confidence) / 2.0 == 0.5 - confidence / 2.0;
    assert 1.0 - (1.0 - confidence) / 2.0 == 0.5 + confidence / 2.0;
  }
}
