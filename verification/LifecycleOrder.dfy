/** How the verdicts of `_lifecycle_audit` in evaluation/paired_gate.py depend on the order of events within the runs.
    The call counts of a task are put in a set before they are tested for being integers, and a set keeps the first
    of equal values: `0` before `false` is a valid count, `false` before `0` is none. Everything else about the
    audit is free of order. */
module LifecycleOrder {
  import opened Wrappers
  import opened Counting
  import opened Sequences
  import opened Sums
  import opened RunRecords
  import opened LifecycleAudit

  /* --- what a set keeps --- */

  lemma KeptNext(s: seq<CallCount>, c: CallCount)
    ensures Kept(s + [c]) == if HasEqual(Kept(s), c) then Kept(s) else Kept(s) + [c]
  {
    assert (s + [c])[..|s|] == s;
  }

  lemma EqualConcat(s: seq<CallCount>, t: seq<CallCount>, c: CallCount)
    ensures HasEqual(s + t, c) <==> HasEqual(s, c) || HasEqual(t, c)
  {
    hide SameNumber;
    assert forall d :: d in s + t <==> d in s || d in t;
  }

  lemma EqualToLast(x: CallCount, c: CallCount)
    ensures HasEqual([x], c) <==> SameNumber(x, c)
  {
    hide SameNumber;
    assert x in [x];
  }

  lemma EqualTransfers(s: seq<CallCount>, c: CallCount, d: CallCount)
    requires SameNumber(c, d)
    ensures HasEqual(s, c) <==> HasEqual(s, d)
  {
    assert forall x :: SameNumber(x, c) <==> SameNumber(x, d);
  }

  /** A set has an equal of every value put in. */
  lemma {:induction false} KeptCovers(s: seq<CallCount>, c: CallCount)
    ensures HasEqual(Kept(s), c) <==> HasEqual(s, c)
  {
    hide HasEqual, SameNumber, Kept;
    if s == [] {
      assert Kept(s) == [] by { NothingKept(); }
    } else {
      var init, last := s[..|s| - 1], s[|s| - 1];
      assert s == init + [last];
      KeptCovers(init, c);
      KeptCovers(init, last);
      KeptNext(init, last);
      EqualConcat(init, [last], c);
      EqualConcat(Kept(init), [last], c);
      EqualToLast(last, c);
      if SameNumber(last, c) { EqualTransfers(init, last, c); }
    }
  }

  lemma NothingKept()
    ensures Kept([]) == []
  {
  }

  lemma {:induction false} KeptMembers(s: seq<CallCount>, c: CallCount)
    ensures c in Kept(s) ==> c in s
  {
    if s != [] {
      KeptMembers(s[..|s| - 1], c);
      assert s == s[..|s| - 1] + [s[|s| - 1]];
    }
  }

  /** A value is kept of two lists joined exactly when the first keeps it, or the second does and nothing equal to
      it comes in the first. */
  lemma {:induction false} KeptConcat(s: seq<CallCount>, t: seq<CallCount>, c: CallCount)
    ensures c in Kept(s + t) <==> c in Kept(s) || (c in Kept(t) && !HasEqual(s, c))
  {
    hide HasEqual, SameNumber, Kept;
    if t == [] {
      assert s + t == s;
      NothingKept();
    } else {
      var init, last := t[..|t| - 1], t[|t| - 1];
      assert t == init + [last];
      assert s + t == (s + init) + [last];
      KeptConcat(s, init, c);
      KeptNext(s + init, last);
      KeptNext(init, last);
      KeptCovers(s + init, last);
      KeptCovers(init, last);
      EqualConcat(s, init, last);
    }
  }

  /* --- reorderings --- */

  /** The same run with its events in another order. */
  ghost predicate Reordered(a: Run, b: Run) {
    && a.caseId == b.caseId && a.repeat == b.repeat
    && (a.lifecycle.Is? <==> b.lifecycle.Is?)
    && multiset(Items(a.lifecycle)) == multiset(Items(b.lifecycle))
    && multiset(Items(a.toolEvents)) == multiset(Items(b.toolEvents))
    && multiset(Items(a.modelUsage)) == multiset(Items(b.modelUsage))
  }

  ghost predicate AllReordered(a: seq<Run>, b: seq<Run>) {
    |a| == |b| && forall i :: 0 <= i < |a| ==> Reordered(a[i], b[i])
  }

  lemma {:induction false} EventsInCount(run: Run, events: seq<LifeEvent>, key: TaskKey, x: LifeEvent)
    ensures multiset(EventsIn(run, events, key))[x] ==
            if x.LifeEvent? && TaskOf(run, x) == key then multiset(events)[x] else 0
  {
    if events != [] {
      var init, last := events[..|events| - 1], events[|events| - 1];
      EventsInCount(run, init, key, x);
      assert events == init + [last];
      EventsInNext(run, init, last, key);
      hide TaskOf, EventsIn;
    }
  }

  lemma {:induction false} EventsInPermutes(a: Run, b: Run, key: TaskKey)
    requires Reordered(a, b)
    ensures multiset(EventsIn(a, Items(a.lifecycle), key)) == multiset(EventsIn(b, Items(b.lifecycle), key))
  {
    forall x ensures multiset(EventsIn(a, Items(a.lifecycle), key))[x] == multiset(EventsIn(b, Items(b.lifecycle), key))[x] {
      EventsInCount(a, Items(a.lifecycle), key, x);
      EventsInCount(b, Items(b.lifecycle), key, x);
    }
  }

  lemma {:induction false} EventsForPermutes(a: seq<Run>, b: seq<Run>, key: TaskKey)
    requires AllReordered(a, b)
    ensures multiset(EventsFor(a, key)) == multiset(EventsFor(b, key))
    ensures key in TaskKeys(a) <==> key in TaskKeys(b)
  {
    hide Reordered;
    if a != [] {
      EventsForPermutes(a[..|a| - 1], b[..|b| - 1], key);
      EventsInPermutes(a[|a| - 1], b[|b| - 1], key);
    }
    var ea, eb := EventsFor(a, key), EventsFor(b, key);
    assert |ea| == |multiset(ea)| && |eb| == |multiset(eb)|;
    NoEventsFor(a, key);
    NoEventsFor(b, key);
  }

  lemma {:induction false} ShapedAlike(a: seq<LifeEvent>, b: seq<LifeEvent>)
    requires multiset(a) == multiset(b)
    ensures forall s :: Count(a, s) == Count(b, s)
    ensures ShapeValid(a) <==> ShapeValid(b)
  {
    forall s ensures Count(a, s) == Count(b, s) { CountPermutation(a, b, HasStatus(s)); }
    hide CountIf;
    PermutedMembers(a, b);
  }

  lemma {:induction false} TotalsPermute(a: seq<Run>, b: seq<Run>)
    requires AllReordered(a, b)
    ensures MalformedIn(a) == MalformedIn(b)
    ensures SpecialistToolCalls(a) == SpecialistToolCalls(b)
    ensures SpecialistModelCalls(a) == SpecialistModelCalls(b)
  {
    if a != [] {
      hide CountIf;
      var x, y := a[|a| - 1], b[|b| - 1];
      TotalsPermute(a[..|a| - 1], b[..|b| - 1]);
      CountPermutation(Items(x.lifecycle), Items(y.lifecycle), NoObject());
      CountPermutation(Items(x.toolEvents), Items(y.toolEvents), SpecialistTool());
      CountPermutation(Items(x.modelUsage), Items(y.modelUsage), SpecialistModel());
    }
  }

  /* --- the events that lead --- */

  /** The events of one task in one run. */
  function Segment(run: Run, key: TaskKey): seq<LifeEvent> { EventsIn(run, Items(run.lifecycle), key) }

  /** Some event of the list has an equal call count. */
  predicate Seen(events: seq<LifeEvent>, c: CallCount) {
    exists e :: e in events && e.LifeEvent? && SameNumber(e.calls, c)
  }

  predicate HasNatural(events: seq<LifeEvent>, c: CallCount) {
    exists e :: e in events && e.LifeEvent? && IsNatural(e.calls) && SameNumber(e.calls, c)
  }

  /** The event's call count equals none of an earlier run, so one of its own run's equals is kept. */
  predicate Leads(runs: seq<Run>, key: TaskKey, i: nat, e: LifeEvent) {
    && i < |runs| && e in Segment(runs[i], key) && e.LifeEvent?
    && !Seen(EventsFor(runs[..i], key), e.calls)
  }

  /** Every leading call count equals a natural number of its run. */
  ghost predicate SomeOrderPasses(runs: seq<Run>, key: TaskKey) {
    forall i: nat, e :: Leads(runs, key, i, e) ==> HasNatural(Segment(runs[i], key), e.calls)
  }

  /** Every leading call count is itself a natural number. */
  ghost predicate EveryOrderPasses(runs: seq<Run>, key: TaskKey) {
    forall i: nat, e :: Leads(runs, key, i, e) ==> IsNatural(e.calls)
  }

  /** The task is well formed but for its call counts, every leading one equals a natural number of its run, and some
      leading one is of another type. */
  ghost predicate Mixed(runs: seq<Run>, key: TaskKey) {
    ShapeValid(EventsFor(runs, key)) && SomeOrderPasses(runs, key) && !EveryOrderPasses(runs, key)
  }

  lemma {:induction false} SegmentKeys(run: Run, events: seq<LifeEvent>, key: TaskKey)
    ensures forall e :: e in EventsIn(run, events, key) <==> e in events && e.LifeEvent? && TaskOf(run, e) == key
  {
    if events != [] {
      var init, last := events[..|events| - 1], events[|events| - 1];
      SegmentKeys(run, init, key);
      assert events == init + [last];
    }
  }

  lemma {:induction false} OnlyEvents(runs: seq<Run>, key: TaskKey)
    ensures forall e :: e in EventsFor(runs, key) ==> e.LifeEvent?
  {
    if runs != [] {
      OnlyEvents(runs[..|runs| - 1], key);
      SegmentKeys(runs[|runs| - 1], Items(runs[|runs| - 1].lifecycle), key);
    }
  }

  lemma CallsOfConcat(a: seq<LifeEvent>, b: seq<LifeEvent>)
    ensures CallsOf(a + b) == CallsOf(a) + CallsOf(b)
  {
  }

  lemma CallsOfMembers(events: seq<LifeEvent>, c: CallCount)
    requires forall e :: e in events ==> e.LifeEvent?
    ensures c in CallsOf(events) <==> exists e :: e in events && e.calls == c
  {
    var calls := CallsOf(events);
    if c in calls {
      var i :| 0 <= i < |calls| && calls[i] == c;
      assert events[i] in events;
    }
    if e :| e in events && e.calls == c {
      var i :| 0 <= i < |events| && events[i] == e;
      assert calls[i] == c;
    }
  }

  lemma SeenInCalls(events: seq<LifeEvent>, c: CallCount)
    requires forall e :: e in events ==> e.LifeEvent?
    ensures Seen(events, c) <==> HasEqual(CallsOf(events), c)
  {
    hide SameNumber, CallsOf;
    forall d { CallsOfMembers(events, d); }
  }

  /** What the set keeps of one run's events beyond the runs before it is natural. */
  predicate SegmentPasses(before: seq<LifeEvent>, events: seq<LifeEvent>) {
    forall c :: c in Kept(CallsOf(events)) ==> IsNatural(c) || Seen(before, c)
  }

  lemma {:induction false} CallsSplit(before: seq<LifeEvent>, events: seq<LifeEvent>)
    requires forall e :: e in before ==> e.LifeEvent?
    ensures CallsValid(before + events) <==> CallsValid(before) && SegmentPasses(before, events)
  {
    hide Kept, CallsOf, Seen, SameNumber;
    CallsOfConcat(before, events);
    forall c ensures c in Kept(CallsOf(before + events)) <==>
                     c in Kept(CallsOf(before)) || (c in Kept(CallsOf(events)) && !Seen(before, c)) {
      KeptConcat(CallsOf(before), CallsOf(events), c);
      SeenInCalls(before, c);
    }
  }

  /** Whether a run's events pass in their order lies between passing in every order and in some order. */
  lemma {:induction false} SegmentBetween(before: seq<LifeEvent>, events: seq<LifeEvent>)
    requires forall e :: e in events ==> e.LifeEvent?
    ensures AllNatural(before, events) ==> SegmentPasses(before, events)
    ensures SegmentPasses(before, events) ==> AllCovered(before, events)
  {
    hide Kept, CallsOf, Seen, SameNumber, IsNatural;
    forall c { KeptMembers(CallsOf(events), c); }
    forall c { CallsOfMembers(events, c); }
    if SegmentPasses(before, events) {
      forall e | e in events ensures HasNatural(events, e.calls) || Seen(before, e.calls) {
        KeptEqual(events, e);
        var d :| d in Kept(CallsOf(events)) && SameNumber(d, e.calls);
        if Seen(before, d) { SeenTransfers(before, d, e.calls); }
      }
    }
  }

  /** Every call count of the run is natural or seen before. */
  predicate AllNatural(before: seq<LifeEvent>, events: seq<LifeEvent>) {
    forall e :: e in events && e.LifeEvent? ==> IsNatural(e.calls) || Seen(before, e.calls)
  }

  /** Every call count of the run equals a natural number of the run or is seen before. */
  predicate AllCovered(before: seq<LifeEvent>, events: seq<LifeEvent>) {
    forall e :: e in events && e.LifeEvent? ==> HasNatural(events, e.calls) || Seen(before, e.calls)
  }

  lemma SeenTransfers(events: seq<LifeEvent>, c: CallCount, d: CallCount)
    requires SameNumber(c, d)
    ensures Seen(events, c) <==> Seen(events, d)
  {
    assert forall x :: SameNumber(x, c) <==> SameNumber(x, d);
  }

  lemma {:induction false} KeptEqual(events: seq<LifeEvent>, e: LifeEvent)
    requires e in events && e.LifeEvent? && forall x :: x in events ==> x.LifeEvent?
    ensures exists d :: d in Kept(CallsOf(events)) && SameNumber(d, e.calls)
  {
    hide Kept, CallsOf;
    CallsOfMembers(events, e.calls);
    KeptCovers(CallsOf(events), e.calls);
  }

  /* --- over all runs --- */

  /** The last run's leading events are those whose call count the earlier runs have not seen; the others lead
      already in the earlier runs. */
  lemma LeadsNext(runs: seq<Run>, key: TaskKey, i: nat, e: LifeEvent)
    requires runs != []
    ensures i < |runs| - 1 ==> (Leads(runs, key, i, e) <==> Leads(runs[..|runs| - 1], key, i, e))
    ensures i == |runs| - 1 ==>
              (Leads(runs, key, i, e) <==> e in Segment(runs[i], key) && e.LifeEvent?
                                           && !Seen(EventsFor(runs[..|runs| - 1], key), e.calls))
  {
    hide Seen, EventsFor, Segment;
    if i < |runs| - 1 { assert runs[..|runs| - 1][..i] == runs[..i]; }
  }

  lemma {:induction false} PassesSplit(runs: seq<Run>, key: TaskKey)
    requires runs != []
    ensures var init, last := runs[..|runs| - 1], Segment(runs[|runs| - 1], key);
            var before := EventsFor(init, key);
            && (EveryOrderPasses(runs, key) <==> EveryOrderPasses(init, key) && AllNatural(before, last))
            && (SomeOrderPasses(runs, key) <==> SomeOrderPasses(init, key) && AllCovered(before, last))
  {
    hide Seen, HasNatural, IsNatural, EventsFor, Segment, Leads;
    var n := |runs| - 1;
    var init := runs[..n];
    forall i: nat, e ensures i < n ==> (Leads(runs, key, i, e) <==> Leads(init, key, i, e)) && init[i] == runs[i] {
      LeadsNext(runs, key, i, e);
    }
    forall e ensures Leads(runs, key, n, e) <==>
                     e in Segment(runs[n], key) && e.LifeEvent? && !Seen(EventsFor(init, key), e.calls) {
      LeadsNext(runs, key, n, e);
    }
    LeadsBound(init, key);
    LeadsBound(runs, key);
  }

  lemma LeadsBound(runs: seq<Run>, key: TaskKey)
    ensures forall i: nat, e :: Leads(runs, key, i, e) ==> i < |runs|
  {
  }

  /** The call counts pass in the given order if they do in every order, and only if they do in some. */
  lemma {:induction false} CallsBetween(runs: seq<Run>, key: TaskKey)
    ensures EveryOrderPasses(runs, key) ==> CallsValid(EventsFor(runs, key))
    ensures CallsValid(EventsFor(runs, key)) ==> SomeOrderPasses(runs, key)
  {
    if runs != [] {
      var init, last := runs[..|runs| - 1], Segment(runs[|runs| - 1], key);
      CallsBetween(init, key);
      PassesSplit(runs, key);
      OnlyEvents(init, key);
      SegmentKeys(runs[|runs| - 1], Items(runs[|runs| - 1].lifecycle), key);
      hide CallsValid, SegmentPasses, EveryOrderPasses, SomeOrderPasses, Seen, HasNatural, IsNatural;
      CallsSplit(EventsFor(init, key), last);
      SegmentBetween(EventsFor(init, key), last);
    }
  }

  /** A reordering changes neither what leads nor whether it can pass. */
  lemma {:induction false} LeadsAlike(a: seq<Run>, b: seq<Run>, key: TaskKey, i: nat, e: LifeEvent)
    requires AllReordered(a, b)
    ensures Leads(a, key, i, e) <==> Leads(b, key, i, e)
    ensures i < |a| && e.LifeEvent? ==>
              (HasNatural(Segment(a[i], key), e.calls) <==> HasNatural(Segment(b[i], key), e.calls))
  {
    if i < |a| {
      assert Reordered(a[i], b[i]);
      EventsInPermutes(a[i], b[i], key);
      PermutedMembers(Segment(a[i], key), Segment(b[i], key));
      EventsForPermutes(a[..i], b[..i], key);
      PermutedMembers(EventsFor(a[..i], key), EventsFor(b[..i], key));
    }
  }

  lemma {:induction false} PassesAlike(a: seq<Run>, b: seq<Run>, key: TaskKey)
    requires AllReordered(a, b)
    ensures SomeOrderPasses(a, key) <==> SomeOrderPasses(b, key)
    ensures EveryOrderPasses(a, key) <==> EveryOrderPasses(b, key)
  {
    hide AllReordered, HasNatural, Segment;
    LeadsBound(a, key);
    LeadsBound(b, key);
    assert |a| == |b| by { SameLength(a, b); }
    forall i: nat, e
      ensures Leads(a, key, i, e) <==> Leads(b, key, i, e)
      ensures i < |a| && e.LifeEvent? ==>
                (HasNatural(Segment(a[i], key), e.calls) <==> HasNatural(Segment(b[i], key), e.calls))
    {
      LeadsAlike(a, b, key, i, e);
    }
  }

  lemma SameLength(a: seq<Run>, b: seq<Run>)
    requires AllReordered(a, b)
    ensures |a| == |b|
  {
  }

  lemma {:induction false} ShapeAlike(a: seq<Run>, b: seq<Run>, key: TaskKey)
    requires AllReordered(a, b)
    ensures ShapeValid(EventsFor(a, key)) <==> ShapeValid(EventsFor(b, key))
  {
    hide ShapeValid, EventsFor, AllReordered;
    EventsForPermutes(a, b, key);
    ShapedAlike(EventsFor(a, key), EventsFor(b, key));
  }

  /* --- the two extreme orders --- */

  function IsCounted(e: LifeEvent): bool { e.LifeEvent? && IsNatural(e.calls) }

  function Counted(events: seq<LifeEvent>, counted: bool): seq<LifeEvent> {
    if events == [] then []
    else
      var last := events[|events| - 1];
      Counted(events[..|events| - 1], counted) + if IsCounted(last) == counted then [last] else []
  }

  /** The events with a natural call count before or after the others. */
  function Sorted(events: seq<LifeEvent>, first: bool): seq<LifeEvent> {
    Counted(events, first) + Counted(events, !first)
  }

  function SortedRun(run: Run, first: bool): Run {
    if run.lifecycle.Is? then run.(lifecycle := Is(Sorted(run.lifecycle.value, first))) else run
  }

  function SortedRuns(runs: seq<Run>, first: bool): seq<Run> {
    seq(|runs|, i requires 0 <= i < |runs| => SortedRun(runs[i], first))
  }

  lemma CountedLast(events: seq<LifeEvent>, counted: bool)
    requires events != []
    ensures var last := events[|events| - 1];
            Counted(events, counted) ==
              Counted(events[..|events| - 1], counted) + if IsCounted(last) == counted then [last] else []
  {
  }

  lemma {:induction false} CountedParts(events: seq<LifeEvent>)
    ensures multiset(events) == multiset(Counted(events, true)) + multiset(Counted(events, false))
  {
    if events != [] {
      hide Counted, IsCounted;
      var init, last := events[..|events| - 1], events[|events| - 1];
      CountedParts(init);
      assert events == init + [last];
      CountedLast(events, true);
      CountedLast(events, false);
    }
  }

  lemma {:induction false} CountedMembers(events: seq<LifeEvent>, counted: bool)
    ensures forall e :: e in Counted(events, counted) <==> e in events && IsCounted(e) == counted
  {
    hide IsCounted;
    if events != [] {
      CountedMembers(events[..|events| - 1], counted);
      assert events == events[..|events| - 1] + [events[|events| - 1]];
    }
  }

  lemma {:induction false} SortedReorders(runs: seq<Run>, first: bool)
    ensures AllReordered(runs, SortedRuns(runs, first))
  {
    forall i | 0 <= i < |runs| ensures Reordered(runs[i], SortedRun(runs[i], first)) {
      CountedParts(Items(runs[i].lifecycle));
      assert multiset(Sorted(Items(runs[i].lifecycle), first)) == multiset(Items(runs[i].lifecycle));
    }
  }

  lemma {:induction false} EventsInConcat(run: Run, a: seq<LifeEvent>, b: seq<LifeEvent>, key: TaskKey)
    ensures EventsIn(run, a + b, key) == EventsIn(run, a, key) + EventsIn(run, b, key)
  {
    if b == [] {
      assert a + b == a;
    } else {
      assert (a + b)[..|a + b| - 1] == a + b[..|b| - 1];
      EventsInConcat(run, a, b[..|b| - 1], key);
    }
  }

  /** A sorted segment: all natural call counts on one side, all others on the other. */
  lemma {:induction false} SortedSegment(run: Run, key: TaskKey, first: bool) returns (x: seq<LifeEvent>, y: seq<LifeEvent>)
    ensures Segment(SortedRun(run, first), key) == x + y
    ensures forall e :: e in x ==> e.LifeEvent? && IsNatural(e.calls) == first
    ensures forall e :: e in y ==> e.LifeEvent? && IsNatural(e.calls) != first
  {
    var events := Items(run.lifecycle);
    var sorted := SortedRun(run, first);
    x, y := EventsIn(sorted, Counted(events, first), key), EventsIn(sorted, Counted(events, !first), key);
    EventsInConcat(sorted, Counted(events, first), Counted(events, !first), key);
    SegmentKeys(sorted, Counted(events, first), key);
    SegmentKeys(sorted, Counted(events, !first), key);
    CountedMembers(events, first);
    CountedMembers(events, !first);
    if !run.lifecycle.Is? { assert Segment(sorted, key) == [] && x == [] && y == []; }
  }

  lemma {:induction false} NaturalsFirstPass(before: seq<LifeEvent>, x: seq<LifeEvent>, y: seq<LifeEvent>)
    requires forall e :: e in x ==> e.LifeEvent? && IsNatural(e.calls)
    requires forall e :: e in y ==> e.LifeEvent? && !IsNatural(e.calls)
    requires AllCovered(before, x + y)
    ensures SegmentPasses(before, x + y)
  {
    hide Kept, CallsOf, SameNumber, IsNatural, Seen;
    CallsOfConcat(x, y);
    forall c | c in Kept(CallsOf(x + y)) ensures IsNatural(c) || Seen(before, c) {
      KeptConcat(CallsOf(x), CallsOf(y), c);
      KeptMembers(CallsOf(x), c);
      KeptMembers(CallsOf(y), c);
      CallsOfMembers(x, c);
      CallsOfMembers(y, c);
      SeenInCalls(x, c);
      if c !in CallsOf(x) {
        var e :| e in y && e.calls == c;
        assert e in x + y;
        assert HasNatural(x + y, c) ==> Seen(x, c) by { NaturalInFront(x, y, c); }
      }
    }
  }

  lemma NaturalInFront(x: seq<LifeEvent>, y: seq<LifeEvent>, c: CallCount)
    requires forall e :: e in x ==> e.LifeEvent?
    requires forall e :: e in y ==> e.LifeEvent? && !IsNatural(e.calls)
    ensures HasNatural(x + y, c) ==> Seen(x, c)
  {
    hide IsNatural, SameNumber;
    assert forall e :: e in x + y <==> e in x || e in y;
  }

  lemma {:induction false} OthersFirstFail(before: seq<LifeEvent>, x: seq<LifeEvent>, y: seq<LifeEvent>)
    requires forall e :: e in x ==> e.LifeEvent? && !IsNatural(e.calls)
    requires forall e :: e in y ==> e.LifeEvent? && IsNatural(e.calls)
    requires SegmentPasses(before, x + y)
    ensures AllNatural(before, x + y)
  {
    hide Kept, CallsOf, SameNumber, IsNatural, Seen;
    CallsOfConcat(x, y);
    assert forall e :: e in x + y <==> e in x || e in y;
    forall e | e in x ensures Seen(before, e.calls) {
      KeptEqual(x, e);
      var d :| d in Kept(CallsOf(x)) && SameNumber(d, e.calls);
      KeptConcat(CallsOf(x), CallsOf(y), d);
      KeptMembers(CallsOf(x), d);
      CallsOfMembers(x, d);
      SeenTransfers(before, d, e.calls);
    }
  }

  /** The sorted runs pass when the earlier ones do and the last segment does; so do the two conditions on orders. */
  lemma {:induction false} SortedSplit(runs: seq<Run>, key: TaskKey, first: bool)
    requires runs != []
    ensures var init, last := runs[..|runs| - 1], Segment(SortedRun(runs[|runs| - 1], first), key);
            var before := EventsFor(SortedRuns(init, first), key);
            && (CallsValid(EventsFor(SortedRuns(runs, first), key)) <==> CallsValid(before) && SegmentPasses(before, last))
            && (EveryOrderPasses(runs, key) <==> EveryOrderPasses(init, key) && AllNatural(before, last))
            && (SomeOrderPasses(runs, key) <==> SomeOrderPasses(init, key) && AllCovered(before, last))
  {
    hide CallsValid, SegmentPasses, EveryOrderPasses, SomeOrderPasses, AllCovered, AllNatural, AllReordered, SortedRun;
    var n, sorted := |runs| - 1, SortedRuns(runs, first);
    assert sorted[..n] == SortedRuns(runs[..n], first);
    SortedReorders(runs, first);
    SortedReorders(runs[..n], first);
    PassesAlike(runs, sorted, key);
    PassesAlike(runs[..n], sorted[..n], key);
    PassesSplit(sorted, key);
    OnlyEvents(sorted[..n], key);
    CallsSplit(EventsFor(sorted[..n], key), Segment(sorted[n], key));
  }

  /** If some order passes, the one with the natural numbers first does; if the one with them last passes, every
      order does. */
  lemma {:induction false} ExtremesDecide(runs: seq<Run>, key: TaskKey, first: bool)
    ensures first && SomeOrderPasses(runs, key) ==> CallsValid(EventsFor(SortedRuns(runs, true), key))
    ensures !first && CallsValid(EventsFor(SortedRuns(runs, false), key)) ==> EveryOrderPasses(runs, key)
  {
    hide CallsValid, SegmentPasses, EveryOrderPasses, SomeOrderPasses, AllCovered, AllNatural, SortedRuns, SortedRun,
      EventsFor, Segment, IsNatural;
    if runs != [] {
      var n := |runs| - 1;
      var before := EventsFor(SortedRuns(runs[..n], first), key);
      ExtremesDecide(runs[..n], key, first);
      SortedSplit(runs, key, first);
      var x, y := SortedSegment(runs[n], key, first);
      if first && SomeOrderPasses(runs, key) { NaturalsFirstPass(before, x, y); }
      if !first && CallsValid(EventsFor(SortedRuns(runs, false), key)) { OthersFirstFail(before, x, y); }
    } else {
      NothingLeads(key);
    }
  }

  lemma NothingLeads(key: TaskKey)
    ensures SomeOrderPasses([], key) && EveryOrderPasses([], key)
    ensures CallsValid(EventsFor(SortedRuns([], true), key))
  {
  }

  /* --- the main results --- */

  /** A task is judged alike in every order of its events within the runs if and only if it is not mixed. */
  lemma {:induction false} VerdictOrderExact(runs: seq<Run>, key: TaskKey)
    ensures (forall others :: AllReordered(runs, others) ==>
               (TaskValid(EventsFor(others, key)) <==> TaskValid(EventsFor(runs, key)))) <==> !Mixed(runs, key)
  {
    hide ShapeValid, CallsValid, EventsFor, AllReordered, SomeOrderPasses, EveryOrderPasses;
    if !Mixed(runs, key) {
      forall others | AllReordered(runs, others)
        ensures TaskValid(EventsFor(others, key)) <==> TaskValid(EventsFor(runs, key))
      {
        VerdictAlike(runs, others, key);
      }
    } else {
      MixedFlips(runs, key);
    }
  }

  lemma {:induction false} VerdictAlike(runs: seq<Run>, others: seq<Run>, key: TaskKey)
    requires AllReordered(runs, others) && !Mixed(runs, key)
    ensures TaskValid(EventsFor(others, key)) <==> TaskValid(EventsFor(runs, key))
  {
    hide ShapeValid, CallsValid, EventsFor, AllReordered, SomeOrderPasses, EveryOrderPasses;
    ShapeAlike(runs, others, key);
    PassesAlike(runs, others, key);
    CallsBetween(runs, key);
    CallsBetween(others, key);
  }

  lemma {:induction false} MixedFlips(runs: seq<Run>, key: TaskKey)
    requires Mixed(runs, key)
    ensures AllReordered(runs, SortedRuns(runs, true)) && TaskValid(EventsFor(SortedRuns(runs, true), key))
    ensures AllReordered(runs, SortedRuns(runs, false)) && !TaskValid(EventsFor(SortedRuns(runs, false), key))
  {
    hide ShapeValid, CallsValid, EventsFor, AllReordered, SomeOrderPasses, EveryOrderPasses, SortedRuns;
    SortedReorders(runs, true);
    SortedReorders(runs, false);
    ShapeAlike(runs, SortedRuns(runs, true), key);
    ExtremesDecide(runs, key, true);
    ExtremesDecide(runs, key, false);
  }

  /** The audit of some runs, as a value. */
  ghost function AuditOf(runs: seq<Run>): Audit {
    Audit(|TaskKeys(runs)|,
          Counts(CountOver(runs, Planned), CountOver(runs, Started), CountOver(runs, Completed), CountOver(runs, Failed),
                 CountOver(runs, Skipped)),
          (set key | key in TaskKeys(runs) && !TaskValid(EventsFor(runs, key))),
          MalformedIn(runs), SpecialistToolCalls(runs), SpecialistModelCalls(runs))
  }

  /** It is the one audit there is. */
  lemma AuditIsUnique(runs: seq<Run>, a: Audit)
    ensures IsAudit(runs, a) <==> a == AuditOf(runs)
  {
    hide TaskKeys, EventsFor, TaskValid, CountOver, MalformedIn, SpecialistToolCalls, SpecialistModelCalls;
  }

  /** Apart from the verdicts, nothing in the audit depends on the order. */
  lemma {:induction false} AuditAlike(runs: seq<Run>, others: seq<Run>)
    requires AllReordered(runs, others)
    ensures TaskKeys(runs) == TaskKeys(others)
    ensures AuditOf(others).(invalid := {}) == AuditOf(runs).(invalid := {})
  {
    hide Count, TaskKeys, EventsFor, AllReordered, TaskValid, Sum, MalformedIn, SpecialistToolCalls,
      SpecialistModelCalls;
    TotalsPermute(runs, others);
    forall key
      ensures key in TaskKeys(runs) <==> key in TaskKeys(others)
      ensures forall s :: Count(EventsFor(runs, key), s) == Count(EventsFor(others, key), s)
    {
      EventsForPermutes(runs, others, key);
      ShapedAlike(EventsFor(runs, key), EventsFor(others, key));
    }
    assert TaskKeys(runs) == TaskKeys(others);
    forall s ensures CountOver(runs, s) == CountOver(others, s) {
      SumSame(TaskKeys(runs), (key: TaskKey) => Count(EventsFor(runs, key), s),
              (key: TaskKey) => Count(EventsFor(others, key), s));
    }
  }

  /** Whatever the order of the events within the runs, the audit returns the same. */
  ghost predicate AuditStable(runs: seq<Run>) {
    forall others, a, b :: AllReordered(runs, others) && IsAudit(runs, a) && IsAudit(others, b) ==> a == b
  }

  lemma StableExact(runs: seq<Run>)
    ensures AuditStable(runs) <==> forall others :: AllReordered(runs, others) ==> AuditOf(others) == AuditOf(runs)
  {
    hide AllReordered, IsAudit, AuditOf;
    AuditIsUnique(runs, AuditOf(runs));
    forall others, b { AuditIsUnique(others, b); }
    forall a { AuditIsUnique(runs, a); }
    if AuditStable(runs) {
      forall others | AllReordered(runs, others) ensures AuditOf(others) == AuditOf(runs) {
        assert IsAudit(others, AuditOf(others)) && IsAudit(runs, AuditOf(runs));
      }
    }
  }

  ghost predicate NoneMixed(runs: seq<Run>) {
    forall key :: key in TaskKeys(runs) ==> !Mixed(runs, key)
  }

  /** The audit is the same for every order of the events within the runs if and only if no task is mixed. */
  lemma {:induction false} AuditOrderExact(runs: seq<Run>)
    ensures AuditStable(runs) <==> NoneMixed(runs)
  {
    StableExact(runs);
    hide AuditStable, Mixed, TaskKeys, EventsFor, AllReordered, TaskValid, CountOver, MalformedIn, SpecialistToolCalls,
      SpecialistModelCalls;
    if NoneMixed(runs) {
      forall others | AllReordered(runs, others) ensures AuditOf(others) == AuditOf(runs) {
        AuditAlike(runs, others);
        forall key | key in TaskKeys(runs) { VerdictAlike(runs, others, key); }
      }
    } else {
      var key :| key in TaskKeys(runs) && Mixed(runs, key);
      MixedFlips(runs, key);
      AuditAlike(runs, SortedRuns(runs, true));
      AuditAlike(runs, SortedRuns(runs, false));
      assert key in AuditOf(SortedRuns(runs, false)).invalid && key !in AuditOf(SortedRuns(runs, true)).invalid;
    }
  }

  /** Every value equal to a natural number is one. */
  predicate Typed(events: seq<LifeEvent>, c: CallCount) {
    forall e :: e in events && e.LifeEvent? && SameNumber(e.calls, c) ==> IsNatural(e.calls)
  }

  /** A guard that can be checked before: no call count of another type equals a natural number. */
  predicate OneType(runs: seq<Run>) {
    forall i, j, d :: 0 <= i < |runs| && 0 <= j < |runs| && d in Items(runs[i].lifecycle) && d.LifeEvent? ==>
      IsNatural(d.calls) ==> Typed(Items(runs[j].lifecycle), d.calls)
  }

  lemma {:induction false} OneTypeIsStable(runs: seq<Run>)
    requires OneType(runs)
    ensures AuditStable(runs)
  {
    hide Seen, ShapeValid, EventsFor, AuditStable, SameNumber, IsNatural;
    AuditOrderExact(runs);
    forall key ensures !Mixed(runs, key) {
      forall i: nat, e | Leads(runs, key, i, e) && HasNatural(Segment(runs[i], key), e.calls) ensures IsNatural(e.calls) {
        SegmentKeys(runs[i], Items(runs[i].lifecycle), key);
        var d :| d in Segment(runs[i], key) && d.LifeEvent? && IsNatural(d.calls) && SameNumber(d.calls, e.calls);
        SameIsSymmetric(d.calls, e.calls);
        assert Typed(Items(runs[i].lifecycle), d.calls);
      }
    }
  }

  lemma SameIsSymmetric(c: CallCount, d: CallCount)
    requires SameNumber(c, d)
    ensures SameNumber(d, c)
  {
  }

  /** One task, two orders, two verdicts: with `0` before `false` the set keeps the integer. */
  lemma {:induction false} FalseIsZero()
    ensures var of := (s: Status, c: CallCount) => LifeEvent("plan", "task", s, Listings, Some("manager"), c);
            var planned, started := of(Planned, IntCount(0)), of(Started, BoolCount(false));
            var ended := of(Completed, IntCount(0));
            TaskValid([planned, started, ended]) && !TaskValid([started, planned, ended])
  {
    var planned := LifeEvent("plan", "task", Planned, Listings, Some("manager"), IntCount(0));
    var started := LifeEvent("plan", "task", Started, Listings, Some("manager"), BoolCount(false));
    var ended := LifeEvent("plan", "task", Completed, Listings, Some("manager"), IntCount(0));
    EqualSetKeepsFirst(IntCount(0), BoolCount(false), IntCount(0));
    EqualSetKeepsFirst(BoolCount(false), IntCount(0), IntCount(0));
    assert CallsOf([planned, started, ended]) == [IntCount(0), BoolCount(false), IntCount(0)];
    assert CallsOf([started, planned, ended]) == [BoolCount(false), IntCount(0), IntCount(0)];
    assert BoolCount(false) in Kept(CallsOf([started, planned, ended]));
    hide Kept, CountIf;
    forall s { ThreeStatuses(planned, started, ended, s); }
    assert forall e :: e in [planned, started, ended] ==> e == planned || e == started || e == ended;
  }

  lemma EqualSetKeepsFirst(x: CallCount, y: CallCount, z: CallCount)
    requires SameNumber(x, y) && SameNumber(y, z)
    ensures Kept([x, y, z]) == [x]
  {
    NothingKept();
    KeptNext([], x);
    KeptNext([x], y);
    KeptNext([x, y], z);
    EqualToLast(x, y);
    EqualToLast(x, z);
    assert [] + [x] == [x] && [x] + [y] == [x, y] && [x, y] + [z] == [x, y, z];
  }

  lemma ThreeStatuses(a: LifeEvent, b: LifeEvent, c: LifeEvent, s: Status)
    requires a.LifeEvent? && b.LifeEvent? && c.LifeEvent?
    ensures Count([a, b, c], s) ==
            (if a.status == s then 1 else 0) + (if b.status == s then 1 else 0) + (if c.status == s then 1 else 0)
  {
    assert [a, b, c][1..] == [b, c] && [b, c][1..] == [c] && [c][1..] == [];
    assert CountIf([c], HasStatus(s)) == if c.status == s then 1 else 0;
    assert CountIf([b, c], HasStatus(s)) == (if b.status == s then 1 else 0) + CountIf([c], HasStatus(s));
  }
}
