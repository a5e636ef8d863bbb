/** What the audit of evaluation/paired_gate.py says of the records themselves: which events make a task, what one more
    event or run changes, and when a task is valid. */
module LifecycleRecords {
  import opened Counting
  import opened Sums
  import opened Wrappers
  import opened RunRecords
  import opened LifecycleAudit
  import opened LifecycleOrder

  /* --- one more event --- */

  function WithEvents(run: Run, events: seq<LifeEvent>): Run { run.(lifecycle := Is(events)) }

  /** The event belongs to the task of this case, repeat, plan and task id. */
  predicate Belongs(run: Run, e: LifeEvent, key: TaskKey) {
    e.LifeEvent? && run.caseId == key.caseId && run.repeat == key.repeat && e.plan == key.plan && e.task == key.task
  }

  lemma SameRunKeys(a: Run, b: Run, events: seq<LifeEvent>, key: TaskKey)
    requires a.caseId == b.caseId && a.repeat == b.repeat
    ensures EventsIn(a, events, key) == EventsIn(b, events, key)
    ensures KeysIn(a, events) == KeysIn(b, events)
  {
    if events != [] { SameRunKeys(a, b, events[..|events| - 1], key); }
    assert forall e :: e in events && e.LifeEvent? ==> TaskOf(a, e) == TaskOf(b, e);
  }

  /** One more event of a run joins exactly the task it belongs to, at its end. */
  lemma {:induction false} TaskGrows(runs: seq<Run>, run: Run, events: seq<LifeEvent>, e: LifeEvent, key: TaskKey)
    ensures EventsFor(runs + [WithEvents(run, events + [e])], key) ==
            EventsFor(runs + [WithEvents(run, events)], key) + if Belongs(run, e, key) then [e] else []
    ensures key in TaskKeys(runs + [WithEvents(run, events + [e])]) <==>
            key in TaskKeys(runs + [WithEvents(run, events)]) || Belongs(run, e, key)
  {
    var a, b := WithEvents(run, events), WithEvents(run, events + [e]);
    RunsNext(runs, a);
    RunsNext(runs, b);
    SameRunKeys(a, b, events, key);
    EventsInNext(b, events, e, key);
    KeysInNext(b, events, e);
    hide EventsFor, EventsIn, TaskKeys, KeysIn;
  }

  /** A run without events, or with a lifecycle that is no list, changes no task. */
  lemma EmptyRun(runs: seq<Run>, run: Run, key: TaskKey)
    requires !run.lifecycle.Is? || run.lifecycle.value == []
    ensures EventsFor(runs + [run], key) == EventsFor(runs, key) && TaskKeys(runs + [run]) == TaskKeys(runs)
    ensures EventsFor([], key) == [] && TaskKeys([]) == {} && MalformedIn(runs + [run]) == MalformedIn(runs)
    ensures MalformedIn([]) == 0
  {
    RunsNext(runs, run);
    assert (runs + [run])[..|runs|] == runs;
    var none: seq<LifeEvent> := [];
    assert EventsIn(run, none, key) == [] && KeysIn(run, none) == {} && Malformed(none) == 0;
  }

  lemma MalformedGrows(runs: seq<Run>, run: Run, events: seq<LifeEvent>, e: LifeEvent)
    ensures MalformedIn(runs + [WithEvents(run, events + [e])]) ==
            MalformedIn(runs + [WithEvents(run, events)]) + if e.NotAnObject? then 1 else 0
  {
    var a, b := WithEvents(run, events), WithEvents(run, events + [e]);
    assert (runs + [a])[..|runs|] == runs && (runs + [b])[..|runs|] == runs;
    CountAppend(events, e, NoObject());
    hide CountIf;
  }

  /** The places of the events by a specialist. */
  ghost function BySpecialist(events: seq<ToolEvent>): set<int> {
    set i | 0 <= i < |events| && !events[i].role.OtherRole?
  }

  ghost function ModelsOfSpecialist(events: seq<ModelEvent>): set<int> {
    set i | 0 <= i < |events| && !events[i].role.OtherRole?
  }

  /** Specialist calls are counted only in runs whose lifecycle is a list. */
  lemma SpecialistsGrow(runs: seq<Run>, run: Run)
    ensures SpecialistToolCalls([]) == SpecialistModelCalls([]) == 0
    ensures SpecialistToolCalls(runs + [run]) == SpecialistToolCalls(runs)
            + if run.lifecycle.Is? && run.toolEvents.Is? then |BySpecialist(run.toolEvents.value)| else 0
    ensures SpecialistModelCalls(runs + [run]) == SpecialistModelCalls(runs)
            + if run.lifecycle.Is? && run.modelUsage.Is? then |ModelsOfSpecialist(run.modelUsage.value)| else 0
  {
    assert (runs + [run])[..|runs|] == runs;
    var tools, models := Items(run.toolEvents), Items(run.modelUsage);
    CountIsCard(tools, SpecialistTool());
    CountIsCard(models, SpecialistModel());
    assert Places(tools, SpecialistTool()) == BySpecialist(tools);
    assert Places(models, SpecialistModel()) == ModelsOfSpecialist(models);
    var none: seq<ToolEvent>, nothing: seq<ModelEvent> := [], [];
    assert BySpecialist(none) == {} && ModelsOfSpecialist(nothing) == {};
    hide CountIf;
  }

  /* --- the counts --- */

  lemma {:induction false} SumWithOneMore(keys: set<TaskKey>, f: TaskKey -> int, g: TaskKey -> int, k: TaskKey, d: int)
    requires g(k) == (if k in keys then f(k) else 0) + d
    requires forall x :: x in keys && x != k ==> g(x) == f(x)
    ensures Sum(keys + {k}, g) == Sum(keys, f) + d
  {
    SumTake(keys + {k}, g, k);
    assert keys + {k} - {k} == keys - {k};
    SumSame(keys - {k}, f, g);
    if k in keys { SumTake(keys, f, k); } else { assert keys - {k} == keys; }
  }

  lemma CountGrows(events: seq<LifeEvent>, e: LifeEvent, s: Status)
    ensures Count(events + [e], s) == Count(events, s) + (if e.LifeEvent? && e.status == s then 1 else 0)
    ensures Count([], s) == 0
  {
    CountAppend(events, e, HasStatus(s));
  }

  lemma {:induction false} StatusGrows(runs: seq<Run>, run: Run, events: seq<LifeEvent>, e: LifeEvent, s: Status)
    ensures CountOver(runs + [WithEvents(run, events + [e])], s) ==
            CountOver(runs + [WithEvents(run, events)], s) + if e.LifeEvent? && e.status == s then 1 else 0
  {
    hide EventsFor, TaskKeys, Count, Sum;
    var a, b := runs + [WithEvents(run, events)], runs + [WithEvents(run, events + [e])];
    var f, g := (key: TaskKey) => Count(EventsFor(a, key), s), (key: TaskKey) => Count(EventsFor(b, key), s);
    forall key
      ensures key in TaskKeys(b) <==> key in TaskKeys(a) || Belongs(run, e, key)
      ensures g(key) == f(key) + if Belongs(run, e, key) && e.status == s then 1 else 0
    {
      TaskGrows(runs, run, events, e, key);
      CountGrows(EventsFor(a, key), e, s);
      assert EventsFor(a, key) + [] == EventsFor(a, key);
    }
    if e.LifeEvent? {
      var k := TaskOf(run, e);
      assert TaskKeys(b) == TaskKeys(a) + {k};
      NoEventsFor(a, k);
      CountGrows([], e, s);
      SumWithOneMore(TaskKeys(a), f, g, k, if e.status == s then 1 else 0);
    } else {
      assert TaskKeys(b) == TaskKeys(a);
      SumSame(TaskKeys(a), f, g);
    }
    SumSame(TaskKeys(a), f, (key: TaskKey) => Count(EventsFor(a, key), s));
    SumSame(TaskKeys(b), g, (key: TaskKey) => Count(EventsFor(b, key), s));
  }

  /** One more event adds one to the count of its status, and nothing else. */
  lemma {:induction false} CountsGrow(runs: seq<Run>, run: Run, events: seq<LifeEvent>, e: LifeEvent, a: Audit, b: Audit)
    requires IsAudit(runs + [WithEvents(run, events)], a) && IsAudit(runs + [WithEvents(run, events + [e])], b)
    ensures b.counts.planned == a.counts.planned + if e.LifeEvent? && e.status == Planned then 1 else 0
    ensures b.counts.started == a.counts.started + if e.LifeEvent? && e.status == Started then 1 else 0
    ensures b.counts.completed == a.counts.completed + if e.LifeEvent? && e.status == Completed then 1 else 0
    ensures b.counts.failed == a.counts.failed + if e.LifeEvent? && e.status == Failed then 1 else 0
    ensures b.counts.skipped == a.counts.skipped + if e.LifeEvent? && e.status == Skipped then 1 else 0
  {
    AuditParts(runs + [WithEvents(run, events)], a);
    AuditParts(runs + [WithEvents(run, events + [e])], b);
    hide CountOver, IsAudit;
    StatusGrows(runs, run, events, e, Planned);
    StatusGrows(runs, run, events, e, Started);
    StatusGrows(runs, run, events, e, Completed);
    StatusGrows(runs, run, events, e, Failed);
    StatusGrows(runs, run, events, e, Skipped);
  }

  /* --- when a task is valid --- */

  ghost function WithStatus(events: seq<LifeEvent>, s: Status): set<int> {
    set i | 0 <= i < |events| && events[i].LifeEvent? && events[i].status == s
  }

  lemma CountExact(events: seq<LifeEvent>, s: Status)
    ensures Count(events, s) == |WithStatus(events, s)|
  {
    CountIsCard(events, HasStatus(s));
    assert Places(events, HasStatus(s)) == WithStatus(events, s);
  }

  /** Python equality of call counts: `False == 0 == 0.0` and `True == 1 == 1.0`. */
  ghost predicate EqualCounts(c: CallCount, d: CallCount) {
    match (c, d)
    case (IntCount(n), IntCount(m)) => n == m
    case (IntCount(n), BoolCount(b)) => n == if b then 1 else 0
    case (BoolCount(b), IntCount(n)) => n == if b then 1 else 0
    case (IntCount(n), FloatCount(x)) => n as real == x
    case (FloatCount(x), IntCount(n)) => n as real == x
    case (BoolCount(b), BoolCount(a)) => a == b
    case (BoolCount(b), FloatCount(x)) => x == if b then 1.0 else 0.0
    case (FloatCount(x), BoolCount(b)) => x == if b then 1.0 else 0.0
    case (FloatCount(x), FloatCount(y)) => x == y
    case (NoNumber, NoNumber) => true
    case _ => false
  }

  lemma EqualExact(c: CallCount, d: CallCount)
    ensures SameNumber(c, d) <==> EqualCounts(c, d)
  {
  }

  /** Every call count is an integer that is no bool and not negative, unless an equal one comes before it. */
  ghost predicate FirstsNatural(calls: seq<CallCount>) {
    forall i :: 0 <= i < |calls| && (forall j :: 0 <= j < i ==> !EqualCounts(calls[j], calls[i])) ==>
      calls[i].IntCount? && calls[i].n >= 0
  }

  lemma HasEqualExact(calls: seq<CallCount>, c: CallCount)
    ensures HasEqual(calls, c) <==> exists j :: 0 <= j < |calls| && EqualCounts(calls[j], c)
  {
    hide EqualCounts, SameNumber;
    forall a, b { EqualExact(a, b); }
    if HasEqual(calls, c) {
      var d :| d in calls && SameNumber(d, c);
      var j :| 0 <= j < |calls| && calls[j] == d;
    }
  }

  /** `c` stands at `i`, with no equal before it. */
  ghost predicate FirstAt(calls: seq<CallCount>, i: int, c: CallCount) {
    0 <= i < |calls| && calls[i] == c && forall j :: 0 <= j < i ==> !EqualCounts(calls[j], c)
  }

  lemma FirstGrows(init: seq<CallCount>, last: CallCount, i: int, c: CallCount)
    ensures FirstAt(init + [last], i, c) <==>
            FirstAt(init, i, c) || (i == |init| && c == last && forall j :: 0 <= j < |init| ==> !EqualCounts(init[j], c))
  {
    hide EqualCounts;
    var calls := init + [last];
    assert calls[|init|] == last && forall j :: 0 <= j < |init| ==> calls[j] == init[j];
  }

  /** The set keeps a value exactly from its first place without an equal before it. */
  lemma {:induction false} KeptExact(calls: seq<CallCount>, c: CallCount)
    ensures c in Kept(calls) <==> exists i :: FirstAt(calls, i, c)
  {
    if calls != [] {
      var init, last := calls[..|calls| - 1], calls[|calls| - 1];
      assert calls == init + [last];
      KeptExact(init, c);
      KeptCovers(init, last);
      HasEqualExact(init, last);
      assert Kept(calls) == if HasEqual(init, last) then Kept(init) else Kept(init) + [last];
      hide Kept, FirstAt, HasEqual, EqualCounts;
      forall i { FirstGrows(init, last, i, c); }
      assert FirstAt(calls, |init|, c) <== c == last && !HasEqual(init, last);
    }
  }

  /** A task is valid exactly when it is planned once, started at most once, ended once, started unless skipped, by one
      specialist role under one named parent, and each call count without an equal one before it is a natural number
      and no bool. */
  lemma {:induction false} TaskExact(events: seq<LifeEvent>)
    requires forall e :: e in events ==> e.LifeEvent?
    ensures TaskValid(events) <==>
              && |WithStatus(events, Planned)| == 1 && |WithStatus(events, Started)| <= 1
              && |WithStatus(events, Completed)| + |WithStatus(events, Failed)| + |WithStatus(events, Skipped)| == 1
              && (|WithStatus(events, Skipped)| == 0 ==> |WithStatus(events, Started)| == 1)
              && (forall e :: e in events ==> e.role in {Listings, Mobility, AreaEvidence} && e.parent != None)
              && (forall e, d :: e in events && d in events ==> e.role == d.role && e.parent == d.parent)
              && FirstsNatural(seq(|events|, i requires 0 <= i < |events| => events[i].calls))
  {
    hide EqualCounts, CountIf, WithStatus;
    CountExact(events, Planned);
    CountExact(events, Started);
    CountExact(events, Completed);
    CountExact(events, Failed);
    CountExact(events, Skipped);
    hide Count;
    FirstsExact(events);
    hide CallsValid, FirstsNatural;
  }

  lemma FirstsExact(events: seq<LifeEvent>)
    requires forall e :: e in events ==> e.LifeEvent?
    ensures CallsValid(events) <==> FirstsNatural(seq(|events|, i requires 0 <= i < |events| => events[i].calls))
  {
    hide EqualCounts, Kept;
    var calls := seq(|events|, i requires 0 <= i < |events| => events[i].calls);
    assert forall i :: 0 <= i < |events| ==> events[i] in events;
    assert calls == CallsOf(events);
    forall c { KeptExact(calls, c); }
    if CallsValid(events) {
      forall i | 0 <= i < |calls| && (forall j :: 0 <= j < i ==> !EqualCounts(calls[j], calls[i]))
        ensures calls[i].IntCount? && calls[i].n >= 0
      {
        assert FirstAt(calls, i, calls[i]);
        KeptExact(calls, calls[i]);
        assert calls[i] in Kept(CallsOf(events));
      }
    }
  }
}
