/** `_lifecycle_audit` in evaluation/paired_gate.py: when every task is valid the counts balance. */
module LifecycleAudit {
  import opened Counting
  import opened Sums
  import opened RunRecords

  datatype TaskKey = TaskKey(caseId: string, repeat: int, plan: string, task: string)

  type Tasks = map<TaskKey, seq<LifeEvent>>

  datatype Counts = Counts(planned: int, started: int, completed: int, failed: int, skipped: int)

  /** `invalid` holds the tasks reported invalid; `malformed` counts the entries that are no mapping. */
  datatype Audit = Audit(taskCount: nat, counts: Counts, invalid: set<TaskKey>, malformed: nat,
                         toolCalls: nat, modelCalls: nat)

  function TaskOf(run: Run, e: LifeEvent): TaskKey
    requires e.LifeEvent?
  {
    TaskKey(run.caseId, run.repeat, e.plan, e.task)
  }

  /** The events of one task within one run's list. */
  function EventsIn(run: Run, events: seq<LifeEvent>, key: TaskKey): seq<LifeEvent> {
    if events == [] then []
    else
      var last := events[|events| - 1];
      EventsIn(run, events[..|events| - 1], key) + if last.LifeEvent? && TaskOf(run, last) == key then [last] else []
  }

  /** The events of one task over all runs whose lifecycle is a list, in order. */
  function EventsFor(runs: seq<Run>, key: TaskKey): seq<LifeEvent> {
    if runs == [] then []
    else
      var last := runs[|runs| - 1];
      EventsFor(runs[..|runs| - 1], key) + EventsIn(last, Items(last.lifecycle), key)
  }

  function KeysIn(run: Run, events: seq<LifeEvent>): set<TaskKey> {
    set e | e in events && e.LifeEvent? :: TaskOf(run, e)
  }

  function TaskKeys(runs: seq<Run>): set<TaskKey> {
    if runs == [] then {}
    else TaskKeys(runs[..|runs| - 1]) + KeysIn(runs[|runs| - 1], Items(runs[|runs| - 1].lifecycle))
  }

  function HasStatus(s: Status): LifeEvent -> bool { (e: LifeEvent) => e.LifeEvent? && e.status == s }
  function NoObject(): LifeEvent -> bool { (e: LifeEvent) => e.NotAnObject? }
  function SpecialistTool(): ToolEvent -> bool { (e: ToolEvent) => IsSpecialist(e.role) }
  function SpecialistModel(): ModelEvent -> bool { (e: ModelEvent) => IsSpecialist(e.role) }

  function Malformed(events: seq<LifeEvent>): nat { CountIf(events, NoObject()) }
  function ToolCallsIn(events: seq<ToolEvent>): nat { CountIf(events, SpecialistTool()) }
  function ModelCallsIn(events: seq<ModelEvent>): nat { CountIf(events, SpecialistModel()) }
  function Count(events: seq<LifeEvent>, s: Status): nat { CountIf(events, HasStatus(s)) }

  /** Totals over the runs the audit looks at: those whose lifecycle is a list. */
  function MalformedIn(runs: seq<Run>): nat {
    if runs == [] then 0 else MalformedIn(runs[..|runs| - 1]) + Malformed(Items(runs[|runs| - 1].lifecycle))
  }

  function SpecialistToolCalls(runs: seq<Run>): nat {
    if runs == [] then 0
    else
      var last := runs[|runs| - 1];
      SpecialistToolCalls(runs[..|runs| - 1]) + if last.lifecycle.Is? then ToolCallsIn(Items(last.toolEvents)) else 0
  }

  function SpecialistModelCalls(runs: seq<Run>): nat {
    if runs == [] then 0
    else
      var last := runs[|runs| - 1];
      SpecialistModelCalls(runs[..|runs| - 1]) + if last.lifecycle.Is? then ModelCallsIn(Items(last.modelUsage)) else 0
  }

  predicate HasEqual(calls: seq<CallCount>, c: CallCount) {
    exists d :: d in calls && SameNumber(d, c)
  }

  /** The elements a set keeps of these values: of equal ones the first. */
  function Kept(calls: seq<CallCount>): seq<CallCount> {
    if calls == [] then []
    else
      var kept, c := Kept(calls[..|calls| - 1]), calls[|calls| - 1];
      if HasEqual(kept, c) then kept else kept + [c]
  }

  function CallsOf(events: seq<LifeEvent>): seq<CallCount> {
    seq(|events|, i requires 0 <= i < |events| => if events[i].LifeEvent? then events[i].calls else NoNumber)
  }

  /** Planned once, started at most once, ended once, started unless skipped, with one specialist role and one
      named parent. */
  predicate ShapeValid(events: seq<LifeEvent>) {
    && Count(events, Planned) == 1
    && Count(events, Started) <= 1
    && Count(events, Completed) + Count(events, Failed) + Count(events, Skipped) == 1
    && (Count(events, Skipped) == 1 || Count(events, Started) == 1)
    && (forall e :: e in events ==> e.LifeEvent? && IsSpecialist(e.role) && e.parent.Some?)
    && (forall e, d :: e in events && d in events && e.LifeEvent? && d.LifeEvent? ==>
          e.role == d.role && e.parent == d.parent)
  }

  /** The test looks only at what the set of call counts has kept. */
  predicate CallsValid(events: seq<LifeEvent>) {
    forall c :: c in Kept(CallsOf(events)) ==> IsNatural(c)
  }

  predicate TaskValid(events: seq<LifeEvent>) {
    ShapeValid(events) && CallsValid(events)
  }

  ghost function CountOver(runs: seq<Run>, s: Status): int {
    Sum(TaskKeys(runs), (key: TaskKey) => Count(EventsFor(runs, key), s))
  }

  ghost predicate IsAudit(runs: seq<Run>, a: Audit) {
    && a.taskCount == |TaskKeys(runs)|
    && a.counts == Counts(CountOver(runs, Planned), CountOver(runs, Started), CountOver(runs, Completed),
                          CountOver(runs, Failed), CountOver(runs, Skipped))
    && (forall key :: key in a.invalid <==> key in TaskKeys(runs) && !TaskValid(EventsFor(runs, key)))
    && a.malformed == MalformedIn(runs)
    && a.toolCalls == SpecialistToolCalls(runs)
    && a.modelCalls == SpecialistModelCalls(runs)
  }

  /* --- the audit as code --- */

  lemma {:induction false} NoEventsOutside(run: Run, events: seq<LifeEvent>, key: TaskKey)
    ensures key !in KeysIn(run, events) <==> EventsIn(run, events, key) == []
  {
    if events != [] {
      var init, last := events[..|events| - 1], events[|events| - 1];
      NoEventsOutside(run, init, key);
      assert events == init + [last];
    }
  }

  lemma {:induction false} NoEventsFor(runs: seq<Run>, key: TaskKey)
    ensures key !in TaskKeys(runs) <==> EventsFor(runs, key) == []
  {
    if runs != [] {
      NoEventsFor(runs[..|runs| - 1], key);
      NoEventsOutside(runs[|runs| - 1], Items(runs[|runs| - 1].lifecycle), key);
    }
  }

  /** The tasks collected from some runs and a prefix of the next run's list. */
  ghost predicate Collected(tasks: Tasks, runs: seq<Run>, run: Run, events: seq<LifeEvent>) {
    && tasks.Keys == TaskKeys(runs) + KeysIn(run, events)
    && forall key :: key in tasks ==> tasks[key] == EventsFor(runs, key) + EventsIn(run, events, key)
  }

  lemma EventsInNext(run: Run, events: seq<LifeEvent>, e: LifeEvent, key: TaskKey)
    ensures EventsIn(run, events + [e], key) ==
            EventsIn(run, events, key) + if e.LifeEvent? && TaskOf(run, e) == key then [e] else []
  {
    assert (events + [e])[..|events|] == events;
  }

  lemma KeysInNext(run: Run, events: seq<LifeEvent>, e: LifeEvent)
    ensures KeysIn(run, events + [e]) == KeysIn(run, events) + if e.LifeEvent? then {TaskOf(run, e)} else {}
  {
    assert forall x :: x in events + [e] <==> x in events || x == e;
  }

  lemma {:induction false} CollectNext(tasks: Tasks, runs: seq<Run>, run: Run, events: seq<LifeEvent>, e: LifeEvent)
    requires Collected(tasks, runs, run, events)
    ensures e.NotAnObject? ==> Collected(tasks, runs, run, events + [e])
    ensures e.LifeEvent? ==>
              var key := TaskOf(run, e);
              Collected(tasks[key := (if key in tasks then tasks[key] else []) + [e]], runs, run, events + [e])
  {
    hide TaskKeys, EventsFor, EventsIn, KeysIn;
    KeysInNext(run, events, e);
    forall key ensures EventsIn(run, events + [e], key) ==
                       EventsIn(run, events, key) + if e.LifeEvent? && TaskOf(run, e) == key then [e] else [] {
      EventsInNext(run, events, e, key);
    }
    if e.LifeEvent? {
      NoEventsFor(runs, TaskOf(run, e));
      NoEventsOutside(run, events, TaskOf(run, e));
    }
  }

  method CollectRun(tasks: Tasks, ghost runs: seq<Run>, run: Run) returns (r: Tasks, malformed: nat)
    requires Collected(tasks, runs, run, [])
    ensures Collected(r, runs, run, Items(run.lifecycle))
    ensures malformed == Malformed(Items(run.lifecycle))
  {
    hide Collected;
    r, malformed := tasks, 0;
    var events := Items(run.lifecycle);
    assert events[..0] == [];
    for i := 0 to |events|
      invariant Collected(r, runs, run, events[..i])
      invariant malformed == Malformed(events[..i])
    {
      var e := events[i];
      assert events[..i + 1] == events[..i] + [e];
      CollectNext(r, runs, run, events[..i], e);
      CountAppend(events[..i], e, NoObject());
      if e.NotAnObject? {
        malformed := malformed + 1;
      } else {
        var key := TaskOf(run, e);
        r := r[key := (if key in r then r[key] else []) + [e]];
      }
    }
    assert events[..|events|] == events;
  }

  method CountSpecialists(run: Run) returns (tools: nat, models: nat)
    ensures tools == ToolCallsIn(Items(run.toolEvents)) && models == ModelCallsIn(Items(run.modelUsage))
  {
    tools, models := 0, 0;
    var events, usage := Items(run.toolEvents), Items(run.modelUsage);
    for i := 0 to |events|
      invariant tools == ToolCallsIn(events[..i])
    {
      assert events[..i + 1] == events[..i] + [events[i]];
      CountAppend(events[..i], events[i], SpecialistTool());
      if IsSpecialist(events[i].role) { tools := tools + 1; }
    }
    assert events[..|events|] == events;
    for i := 0 to |usage|
      invariant models == ModelCallsIn(usage[..i])
    {
      assert usage[..i + 1] == usage[..i] + [usage[i]];
      CountAppend(usage[..i], usage[i], SpecialistModel());
      if IsSpecialist(usage[i].role) { models := models + 1; }
    }
    assert usage[..|usage|] == usage;
  }

  function CountAll(events: seq<LifeEvent>): Counts {
    Counts(Count(events, Planned), Count(events, Started), Count(events, Completed), Count(events, Failed),
           Count(events, Skipped))
  }

  function AddCounts(a: Counts, b: Counts): Counts {
    Counts(a.planned + b.planned, a.started + b.started, a.completed + b.completed, a.failed + b.failed,
           a.skipped + b.skipped)
  }

  ghost function SumCounts(tasks: Tasks, keys: set<TaskKey>): Counts {
    Counts(SumStatus(tasks, keys, Planned), SumStatus(tasks, keys, Started), SumStatus(tasks, keys, Completed),
           SumStatus(tasks, keys, Failed), SumStatus(tasks, keys, Skipped))
  }

  function StatusIn(tasks: Tasks, s: Status): TaskKey -> int {
    key => if key in tasks then Count(tasks[key], s) else 0
  }

  ghost function SumStatus(tasks: Tasks, keys: set<TaskKey>, s: Status): int {
    Sum(keys, StatusIn(tasks, s))
  }

  lemma SumCountsTake(tasks: Tasks, keys: set<TaskKey>, key: TaskKey)
    requires key in keys && key in tasks
    ensures SumCounts(tasks, keys) == AddCounts(CountAll(tasks[key]), SumCounts(tasks, keys - {key}))
  {
    hide Count, Sum;
    SumTake(keys, StatusIn(tasks, Planned), key);
    SumTake(keys, StatusIn(tasks, Started), key);
    SumTake(keys, StatusIn(tasks, Completed), key);
    SumTake(keys, StatusIn(tasks, Failed), key);
    SumTake(keys, StatusIn(tasks, Skipped), key);
  }

  lemma NoneSummed(tasks: Tasks)
    ensures SumCounts(tasks, {}) == Counts(0, 0, 0, 0, 0)
  {
  }

  lemma CountsAdded(a: Counts, b: Counts, c: Counts)
    ensures AddCounts(AddCounts(a, b), c) == AddCounts(a, AddCounts(b, c))
  {
  }

  /** The second loop: count the statuses of every task and judge it. */
  method JudgeTasks(tasks: Tasks) returns (counts: Counts, invalid: set<TaskKey>)
    ensures counts == SumCounts(tasks, tasks.Keys)
    ensures forall key :: key in invalid <==> key in tasks && !TaskValid(tasks[key])
  {
    hide TaskValid, CountAll, SumCounts;
    counts, invalid := Counts(0, 0, 0, 0, 0), {};
    var rest := tasks.Keys;
    while rest != {}
      invariant rest <= tasks.Keys
      invariant AddCounts(counts, SumCounts(tasks, rest)) == SumCounts(tasks, tasks.Keys)
      invariant forall key :: key in invalid <==> key in tasks.Keys - rest && !TaskValid(tasks[key])
      decreases rest
    {
      var key :| key in rest;
      SumCountsTake(tasks, rest, key);
      CountsAdded(counts, CountAll(tasks[key]), SumCounts(tasks, rest - {key}));
      counts := AddCounts(counts, CountAll(tasks[key]));
      if !TaskValid(tasks[key]) { invalid := invalid + {key}; }
      rest := rest - {key};
    }
    assert tasks.Keys - rest == tasks.Keys;
    NoneSummed(tasks);
  }

  /** `_lifecycle_audit` */
  method Audited(runs: seq<Run>) returns (a: Audit)
    ensures IsAudit(runs, a)
  {
    hide IsAudit, TaskKeys, EventsFor, KeysIn;
    var tasks: Tasks := map[];
    var malformed, toolCalls, modelCalls := 0, 0, 0;
    assert CollectedAll(tasks, runs[..0]) by { NothingCollected(runs); }
    for i := 0 to |runs|
      invariant CollectedAll(tasks, runs[..i])
      invariant malformed == MalformedIn(runs[..i])
      invariant toolCalls == SpecialistToolCalls(runs[..i]) && modelCalls == SpecialistModelCalls(runs[..i])
    {
      var run := runs[i];
      assert runs[..i + 1][..i] == runs[..i];
      if run.lifecycle.Is? {
        CollectStarts(tasks, runs[..i], run);
        var m, tools, models;
        tasks, m := CollectRun(tasks, runs[..i], run);
        tools, models := CountSpecialists(run);
        malformed, toolCalls, modelCalls := malformed + m, toolCalls + tools, modelCalls + models;
        CollectEnds(tasks, runs[..i], run);
      } else {
        SkipRun(tasks, runs[..i], run);
      }
      assert runs[..i] + [run] == runs[..i + 1];
    }
    assert runs[..|runs|] == runs;
    var counts, invalid := JudgeTasks(tasks);
    a := Audit(|tasks|, counts, invalid, malformed, toolCalls, modelCalls);
    AuditDone(runs, tasks, a);
  }

  ghost predicate CollectedAll(tasks: Tasks, runs: seq<Run>) {
    tasks.Keys == TaskKeys(runs) && forall key :: key in tasks ==> tasks[key] == EventsFor(runs, key)
  }

  lemma NothingCollected(runs: seq<Run>)
    ensures CollectedAll(map[], runs[..0])
  {
  }

  lemma CollectStarts(tasks: Tasks, runs: seq<Run>, run: Run)
    requires CollectedAll(tasks, runs)
    ensures Collected(tasks, runs, run, [])
  {
    assert KeysIn(run, []) == {};
    assert forall key :: EventsFor(runs, key) + EventsIn(run, [], key) == EventsFor(runs, key);
  }

  lemma RunsNext(runs: seq<Run>, run: Run)
    ensures TaskKeys(runs + [run]) == TaskKeys(runs) + KeysIn(run, Items(run.lifecycle))
    ensures forall key :: EventsFor(runs + [run], key) == EventsFor(runs, key) + EventsIn(run, Items(run.lifecycle), key)
  {
    assert (runs + [run])[..|runs|] == runs;
  }

  lemma CollectEnds(tasks: Tasks, runs: seq<Run>, run: Run)
    requires Collected(tasks, runs, run, Items(run.lifecycle))
    ensures CollectedAll(tasks, runs + [run])
  {
    RunsNext(runs, run);
  }

  lemma SkipRun(tasks: Tasks, runs: seq<Run>, run: Run)
    requires CollectedAll(tasks, runs) && !run.lifecycle.Is?
    ensures CollectedAll(tasks, runs + [run])
    ensures Malformed(Items(run.lifecycle)) == 0
  {
    RunsNext(runs, run);
    assert KeysIn(run, []) == {};
    assert forall key :: EventsFor(runs, key) + EventsIn(run, [], key) == EventsFor(runs, key);
  }

  lemma {:induction false} StatusSum(runs: seq<Run>, tasks: Tasks, s: Status)
    requires CollectedAll(tasks, runs)
    ensures SumStatus(tasks, tasks.Keys, s) == CountOver(runs, s)
  {
    hide Count, TaskKeys, EventsFor;
    SumSame(tasks.Keys, StatusIn(tasks, s), (key: TaskKey) => Count(EventsFor(runs, key), s));
  }

  lemma {:induction false} AuditDone(runs: seq<Run>, tasks: Tasks, a: Audit)
    requires CollectedAll(tasks, runs)
    requires a.taskCount == |tasks| && a.counts == SumCounts(tasks, tasks.Keys)
    requires forall key :: key in a.invalid <==> key in tasks && !TaskValid(tasks[key])
    requires a.malformed == MalformedIn(runs) && a.toolCalls == SpecialistToolCalls(runs)
    requires a.modelCalls == SpecialistModelCalls(runs)
    ensures IsAudit(runs, a)
  {
    hide TaskValid, Count, TaskKeys, EventsFor;
    StatusSum(runs, tasks, Planned);
    StatusSum(runs, tasks, Started);
    StatusSum(runs, tasks, Completed);
    StatusSum(runs, tasks, Failed);
    StatusSum(runs, tasks, Skipped);
    assert |tasks| == |tasks.Keys|;
    assert forall key :: key in tasks <==> key in tasks.Keys;
  }

  /* --- conservation --- */

  /** When no task is reported invalid, every task was planned once and ended once: the counts balance. */
  lemma {:induction false} LifecycleConserved(runs: seq<Run>, a: Audit)
    requires IsAudit(runs, a) && a.invalid == {}
    ensures a.counts.planned == a.taskCount
    ensures a.counts.completed + a.counts.failed + a.counts.skipped == a.taskCount
    ensures a.counts.completed + a.counts.failed <= a.counts.started <= a.taskCount
  {
    hide Count;
    var keys := TaskKeys(runs);
    var of := (s: Status) => (key: TaskKey) => Count(EventsFor(runs, key), s);
    forall key | key in keys ensures TaskValid(EventsFor(runs, key)) { assert key !in a.invalid; }
    hide TaskKeys, EventsFor, IsAudit;
    Balanced(runs, keys);
    assert a.taskCount == |keys| && a.counts == Counts(CountOver(runs, Planned), CountOver(runs, Started),
      CountOver(runs, Completed), CountOver(runs, Failed), CountOver(runs, Skipped)) by { AuditParts(runs, a); }
  }

  lemma AuditParts(runs: seq<Run>, a: Audit)
    requires IsAudit(runs, a)
    ensures a.taskCount == |TaskKeys(runs)|
    ensures a.counts == Counts(CountOver(runs, Planned), CountOver(runs, Started), CountOver(runs, Completed),
                               CountOver(runs, Failed), CountOver(runs, Skipped))
  {
  }

  lemma {:induction false} Balanced(runs: seq<Run>, keys: set<TaskKey>)
    requires keys == TaskKeys(runs) && forall key :: key in keys ==> TaskValid(EventsFor(runs, key))
    ensures CountOver(runs, Planned) == |keys|
    ensures CountOver(runs, Completed) + CountOver(runs, Failed) + CountOver(runs, Skipped) == |keys|
    ensures CountOver(runs, Completed) + CountOver(runs, Failed) <= CountOver(runs, Started) <= |keys|
  {
    hide Count, TaskKeys, EventsFor;
    var planned := (key: TaskKey) => Count(EventsFor(runs, key), Planned);
    var started := (key: TaskKey) => Count(EventsFor(runs, key), Started);
    var completed := (key: TaskKey) => Count(EventsFor(runs, key), Completed);
    var failed := (key: TaskKey) => Count(EventsFor(runs, key), Failed);
    var skipped := (key: TaskKey) => Count(EventsFor(runs, key), Skipped);
    var ran := (key: TaskKey) => completed(key) + failed(key);
    var ended := (key: TaskKey) => ran(key) + skipped(key);
    var one := (key: TaskKey) => 1;
    SumOnes(keys, planned);
    SumOnes(keys, one);
    SumOnes(keys, ended);
    SumAdd(keys, completed, failed, ran);
    SumAdd(keys, ran, skipped, ended);
    SumAtMost(keys, ran, started);
    SumAtMost(keys, started, one);
    SumSame(keys, planned, (key: TaskKey) => Count(EventsFor(runs, key), Planned));
    SumSame(keys, started, (key: TaskKey) => Count(EventsFor(runs, key), Started));
    SumSame(keys, completed, (key: TaskKey) => Count(EventsFor(runs, key), Completed));
    SumSame(keys, failed, (key: TaskKey) => Count(EventsFor(runs, key), Failed));
    SumSame(keys, skipped, (key: TaskKey) => Count(EventsFor(runs, key), Skipped));
  }
}
