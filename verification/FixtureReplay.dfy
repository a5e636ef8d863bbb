/** Fixture replay in evaluation/run_benchmark.py: the queues `_next_result` drains refine "the k-th call of a
    tool gets record min(k, n-1)", and the report at teardown says what was left. */
module FixtureReplay {
  import opened Wrappers
  import opened Sums

  /** A recorded tool result; an absent tool name is the empty string. */
  datatype Item = Item(tool: string, body: string)

  type Queues = map<string, seq<Item>>

  /** Where a call's result comes from. */
  datatype Answer = Recorded(item: Item) | Denied | Canned | Live

  function ToolOf(item: Item): string {
    if item.tool == "" then "unknown" else item.tool
  }

  function Flatten(files: seq<seq<Item>>): seq<Item> {
    if files == [] then [] else Flatten(files[..|files| - 1]) + files[|files| - 1]
  }

  /** The items of one tool, in recorded order. */
  function ItemsOf(items: seq<Item>, tool: string): seq<Item> {
    if items == [] then []
    else
      var last := items[|items| - 1];
      ItemsOf(items[..|items| - 1], tool) + if ToolOf(last) == tool then [last] else []
  }

  function Tools(items: seq<Item>): set<string> {
    set item | item in items :: ToolOf(item)
  }

  function QueuesOf(items: seq<Item>): Queues {
    map tool | tool in Tools(items) :: ItemsOf(items, tool)
  }

  lemma ItemsNext(items: seq<Item>, item: Item, tool: string)
    ensures ItemsOf(items + [item], tool) ==
            if tool == ToolOf(item) then ItemsOf(items, tool) + [item] else ItemsOf(items, tool)
  {
    assert (items + [item])[..|items|] == items;
    assert ItemsOf(items, tool) + [] == ItemsOf(items, tool);
  }

  lemma ToolsNext(items: seq<Item>, item: Item)
    ensures Tools(items + [item]) == Tools(items) + {ToolOf(item)}
  {
    assert forall x :: x in items + [item] <==> x in items || x == item;
  }

  lemma {:induction false} QueuesStep(items: seq<Item>, item: Item)
    ensures QueuesOf(items + [item]) ==
            QueuesOf(items)[ToolOf(item) := ItemsOf(items, ToolOf(item)) + [item]]
    ensures ToolOf(item) !in Tools(items) ==> ItemsOf(items, ToolOf(item)) == []
  {
    hide Tools, ItemsOf, ToolOf;
    ToolsNext(items, item);
    forall tool { ItemsNext(items, item, tool); }
    if ToolOf(item) !in Tools(items) { Absent(items, ToolOf(item)); }
  }

  lemma {:induction false} Absent(items: seq<Item>, tool: string)
    ensures tool !in Tools(items) <==> ItemsOf(items, tool) == []
  {
    if items != [] {
      var last := items[|items| - 1];
      Absent(items[..|items| - 1], tool);
      assert forall x :: x in items <==> x in items[..|items| - 1] || x == last;
    }
  }

  /** `load_fixture_queue` over the results of each fixture file, in order. */
  method LoadFixtureQueue(files: seq<seq<Item>>) returns (queue: Queues)
    ensures queue == QueuesOf(Flatten(files))
    ensures forall tool :: tool in queue ==> queue[tool] != []
  {
    queue := map[];
    for i := 0 to |files|
      invariant queue == QueuesOf(Flatten(files[..i]))
    {
      var items := files[i];
      ghost var before := Flatten(files[..i]);
      assert before + items[..0] == before;
      for j := 0 to |items|
        invariant queue == QueuesOf(before + items[..j])
      {
        var tool := ToolOf(items[j]);
        assert before + items[..j + 1] == before + items[..j] + [items[j]];
        QueuesStep(before + items[..j], items[j]);
        queue := queue[tool := (if tool in queue then queue[tool] else []) + [items[j]]];
      }
      assert items[..|items|] == items;
      assert files[..i + 1][..i] == files[..i];
    }
    assert files[..|files|] == files;
    forall tool | tool in queue ensures queue[tool] != [] { Absent(Flatten(files), tool); }
  }

  /** The tool whose queue a record joins: its own, or "unknown" for a record without one. */
  ghost predicate QueuedAs(item: Item, tool: string) {
    tool != "" && (item.tool == tool || (item.tool == "" && tool == "unknown"))
  }

  lemma FilesGrow(files: seq<seq<Item>>, file: seq<Item>)
    ensures Flatten([]) == [] && Flatten(files + [file]) == Flatten(files) + file
  {
    assert (files + [file])[..|files|] == files;
  }

  lemma ItemsGrow(items: seq<Item>, item: Item, tool: string)
    ensures var before, now := QueuesOf(items), QueuesOf(items + [item]);
            && (tool in now <==> tool in before || QueuedAs(item, tool))
            && (tool in now ==>
                  now[tool] == (if tool in before then before[tool] else []) + if QueuedAs(item, tool) then [item] else [])
  {
    assert QueuedAs(item, tool) <==> tool == ToolOf(item);
    QueuesStep(items, item);
    Absent(items, tool);
    hide Tools, ItemsOf, ToolOf, QueuedAs;
  }

  /** One more record at the end of the last file joins the end of one queue; a new file starts where the last
      one ended, and without files there is no queue. */
  lemma QueuesGrow(files: seq<seq<Item>>, file: seq<Item>, item: Item, tool: string)
    ensures QueuesOf(Flatten([])) == map[] && QueuesOf(Flatten(files + [[]])) == QueuesOf(Flatten(files))
    ensures var before, now := QueuesOf(Flatten(files + [file])), QueuesOf(Flatten(files + [file + [item]]));
            && (tool in now <==> tool in before || QueuedAs(item, tool))
            && (tool in now ==>
                  now[tool] == (if tool in before then before[tool] else []) + if QueuedAs(item, tool) then [item] else [])
  {
    FilesGrow(files, []);
    FilesGrow(files, file);
    FilesGrow(files, file + [item]);
    assert Flatten(files) + [] == Flatten(files);
    assert Flatten(files) + file + [item] == Flatten(files) + (file + [item]);
    assert QueuesOf([]) == map[];
    hide QueuesOf, Flatten;
    ItemsGrow(Flatten(files) + file, item, tool);
  }

  /* --- the specification: calls counted, records indexed --- */

  function Count(calls: seq<string>, tool: string): nat {
    if calls == [] then 0
    else Count(calls[..|calls| - 1], tool) + if calls[|calls| - 1] == tool then 1 else 0
  }

  function Min(a: int, b: int): int { if a <= b then a else b }

  /** The answer to one more call of `tool`, from the recordings and the calls so far alone. */
  function AnswerFor(recorded: Queues, offline: bool, calls: seq<string>, tool: string): Answer
  {
    if tool in recorded && recorded[tool] != [] then
      Recorded(recorded[tool][Min(Count(calls, tool), |recorded[tool]| - 1)])
    else if recorded != map[] && tool !in recorded then Denied
    else if offline then Canned
    else Live
  }

  datatype Report = Report(served: Option<bool>, unservedTools: set<string>, recordsUnserved: int)

  function Get(m: map<string, nat>, tool: string): nat {
    if tool in m then m[tool] else 0
  }

  function Unconsumed(declared: map<string, nat>, served: map<string, nat>): string -> int {
    tool => if Get(declared, tool) > Get(served, tool) then Get(declared, tool) - Get(served, tool) else 0
  }

  /** `fixture_service_report` */
  method FixtureServiceReport(declared: map<string, nat>, served: map<string, nat>) returns (r: Report)
    ensures declared == map[] ==> r == Report(None, {}, 0)
    ensures declared != map[] ==>
              && r.unservedTools == (set tool | tool in declared && Get(served, tool) == 0)
              && r.served == Some(r.unservedTools == {})
              && r.recordsUnserved == Sum(declared.Keys, Unconsumed(declared, served))
  {
    if declared == map[] { return Report(None, {}, 0); }
    var unserved := set tool | tool in declared && Get(served, tool) == 0;
    var total := 0;
    var rest := declared.Keys;
    while rest != {}
      invariant rest <= declared.Keys
      invariant total + Sum(rest, Unconsumed(declared, served)) == Sum(declared.Keys, Unconsumed(declared, served))
      decreases rest
    {
      var tool :| tool in rest;
      SumTake(rest, Unconsumed(declared, served), tool);
      total := total + Unconsumed(declared, served)(tool);
      rest := rest - {tool};
    }
    return Report(Some(unserved == {}), unserved, total);
  }

  /* --- the implementation: queues drained in place --- */

  function LastOf(last: map<string, Item>, tool: string): Option<Item> {
    if tool in last then Some(last[tool]) else None
  }

  /** The bookkeeping of one tool with recordings `items` after `k` calls of it. */
  ghost predicate ToolState(items: seq<Item>, k: nat, declared: nat, queue: seq<Item>, served: nat, last: Option<Item>) {
    && items != [] && declared == |items|
    && queue == items[Min(k, |items|)..]
    && served == k
    && last == if k == 0 then None else Some(items[Min(k, |items|) - 1])
  }

  lemma StateNext(items: seq<Item>, k: nat, declared: nat, queue: seq<Item>, served: nat, last: Option<Item>)
    requires ToolState(items, k, declared, queue, served, last)
    ensures items != [] && declared == |items|
    ensures queue != [] ==>
              queue[0] == items[Min(k, |items| - 1)]
              && ToolState(items, k + 1, declared, queue[1..], served + 1, Some(queue[0]))
    ensures queue == [] ==>
              last == Some(items[Min(k, |items| - 1)]) && ToolState(items, k + 1, declared, queue, served + 1, last)
  {
  }

  function Remaining(queue: Queues): string -> int {
    tool => if tool in queue then |queue[tool]| else 0
  }

  lemma CountNext(calls: seq<string>, name: string, tool: string)
    ensures Count(calls + [name], tool) == Count(calls, tool) + if tool == name then 1 else 0
  {
    assert (calls + [name])[..|calls|] == calls;
  }

  class Replay {
    var fixtureQueue: Queues
    var lastByTool: map<string, Item>
    var servedRecords: map<string, nat>
    const declaredRecords: map<string, nat>
    const offline: bool
    ghost const recorded: Queues
    ghost var calls: seq<string>

    ghost predicate Valid()
      reads this
    {
      Bookkeeping(recorded, calls, declaredRecords, fixtureQueue, servedRecords, lastByTool)
    }

    constructor (queue: Queues, offline: bool)
      requires forall tool :: tool in queue ==> queue[tool] != []
      ensures Valid() && recorded == queue && this.offline == offline && calls == []
    {
      fixtureQueue, recorded := queue, queue;
      lastByTool, servedRecords := map[], map[];
      declaredRecords := map tool | tool in queue :: |queue[tool]|;
      this.offline := offline;
      calls := [];
    }

    /** `_next_result`: pop the tool's queue, or repeat its last record, or deny, or stand in, or go live. */
    method NextResult(name: string) returns (r: Answer)
      requires Valid()
      modifies this
      ensures Valid()
      ensures r == AnswerFor(recorded, offline, old(calls), name)
      ensures calls == old(calls) + [name]
    {
      hide Bookkeeping, AnswerFor;
      ServeKeeps(recorded, calls, declaredRecords, fixtureQueue, servedRecords, lastByTool, name, offline);
      calls := calls + [name];
      if name in fixtureQueue && fixtureQueue[name] != [] {
        var item := fixtureQueue[name][0];
        fixtureQueue := fixtureQueue[name := fixtureQueue[name][1..]];
        lastByTool := lastByTool[name := item];
        servedRecords := servedRecords[name := Get(servedRecords, name) + 1];
        return Recorded(item);
      }
      if name in lastByTool {
        servedRecords := servedRecords[name := Get(servedRecords, name) + 1];
        return Recorded(lastByTool[name]);
      }
      if declaredRecords != map[] && name !in declaredRecords { return Denied; }
      if offline { return Canned; }
      return Live;
    }

    /** The report filled in at teardown: the records left are exactly what the queues still hold, and the
        fixture counts as served exactly when every declared tool was called. */
    method Teardown() returns (r: Report)
      requires Valid()
      ensures r.recordsUnserved == Sum(recorded.Keys, Remaining(fixtureQueue))
      ensures recorded != map[] ==>
                && (r.served == Some(true) <==> forall tool :: tool in recorded ==> tool in calls)
                && (forall tool :: tool in r.unservedTools <==> tool in recorded && tool !in calls)
      ensures recorded == map[] ==> r == Report(None, {}, 0)
    {
      hide Bookkeeping;
      r := FixtureServiceReport(declaredRecords, servedRecords);
      ReportMeaning(recorded, calls, declaredRecords, fixtureQueue, servedRecords, lastByTool);
      assert forall tool :: tool in declaredRecords.Keys <==> tool in recorded.Keys;
      assert forall tool :: tool in r.unservedTools <==> tool in recorded && tool !in calls;
      assert r.unservedTools == {} <==> forall tool :: tool in recorded ==> tool !in r.unservedTools;
    }
  }

  /** Each queue is what its tool's calls have left, and the last item is the one last handed out. */
  ghost predicate Bookkeeping(recorded: Queues, calls: seq<string>, declared: map<string, nat>, queue: Queues,
                              served: map<string, nat>, last: map<string, Item>) {
    && queue.Keys == declared.Keys == recorded.Keys
    && (forall tool :: tool in recorded ==>
          ToolState(recorded[tool], Count(calls, tool), declared[tool], queue[tool], Get(served, tool), LastOf(last, tool)))
    && last.Keys <= recorded.Keys && served.Keys <= recorded.Keys
  }

  /** Serving one more call keeps the books and gives the specified answer, branch by branch. */
  lemma {:induction false} ServeKeeps(recorded: Queues, calls: seq<string>, declared: map<string, nat>, queue: Queues,
                                      served: map<string, nat>, last: map<string, Item>, name: string, offline: bool)
    requires Bookkeeping(recorded, calls, declared, queue, served, last)
    ensures name in queue && queue[name] != [] ==>
              var item := queue[name][0];
              && AnswerFor(recorded, offline, calls, name) == Recorded(item)
              && Bookkeeping(recorded, calls + [name], declared, queue[name := queue[name][1..]],
                             served[name := Get(served, name) + 1], last[name := item])
    ensures !(name in queue && queue[name] != []) && name in last ==>
              && AnswerFor(recorded, offline, calls, name) == Recorded(last[name])
              && Bookkeeping(recorded, calls + [name], declared, queue, served[name := Get(served, name) + 1], last)
    ensures !(name in queue && queue[name] != []) && name !in last ==>
              && AnswerFor(recorded, offline, calls, name) ==
                 (if declared != map[] && name !in declared then Denied else if offline then Canned else Live)
              && Bookkeeping(recorded, calls + [name], declared, queue, served, last)
  {
    hide ToolState, Count;
    forall tool ensures Count(calls + [name], tool) == Count(calls, tool) + if tool == name then 1 else 0 {
      CountNext(calls, name, tool);
    }
    if name in recorded {
      StateNext(recorded[name], Count(calls, name), declared[name], queue[name], Get(served, name), LastOf(last, name));
    } else {
      assert declared == map[] <==> recorded == map[] by {
        assert declared.Keys == {} <==> declared == map[];
        assert recorded.Keys == {} <==> recorded == map[];
      }
    }
  }

  lemma {:induction false} ReportMeaning(recorded: Queues, calls: seq<string>, declared: map<string, nat>, queue: Queues,
                                         served: map<string, nat>, last: map<string, Item>)
    requires Bookkeeping(recorded, calls, declared, queue, served, last)
    ensures declared == map[] <==> recorded == map[]
    ensures declared.Keys == recorded.Keys
    ensures forall tool :: tool in recorded ==> (Get(served, tool) == 0 <==> tool !in calls)
    ensures Sum(recorded.Keys, Unconsumed(declared, served)) == Sum(recorded.Keys, Remaining(queue))
  {
    hide Count;
    assert declared.Keys == {} <==> declared == map[];
    assert recorded.Keys == {} <==> recorded == map[];
    forall tool | tool in recorded ensures Get(served, tool) == 0 <==> tool !in calls {
      CountZero(calls, tool);
    }
    SumSame(recorded.Keys, Unconsumed(declared, served), Remaining(queue));
  }

  lemma {:induction false} CountZero(calls: seq<string>, tool: string)
    ensures Count(calls, tool) == 0 <==> tool !in calls
  {
    if calls != [] {
      var last := calls[|calls| - 1];
      CountZero(calls[..|calls| - 1], tool);
      assert calls == calls[..|calls| - 1] + [last];
    }
  }

  /* --- the closed world --- */

  lemma {:induction false} QueuesEmpty(files: seq<seq<Item>>)
    ensures QueuesOf(Flatten(files)) == map[] <==> forall i :: 0 <= i < |files| ==> files[i] == []
  {
    FlattenEmpty(files);
    var items := Flatten(files);
    if items != [] {
      assert items[0] in items;
      assert ToolOf(items[0]) in QueuesOf(items);
    }
  }

  lemma {:induction false} FlattenEmpty(files: seq<seq<Item>>)
    ensures Flatten(files) == [] <==> forall i :: 0 <= i < |files| ==> files[i] == []
  {
    if files != [] {
      FlattenEmpty(files[..|files| - 1]);
    }
  }

  /** A fixtured case keeps every call away from the live tools, whatever was called before, if and only if it
      runs offline or one of its fixture files holds a record. */
  lemma {:induction false} ClosedWorldExact(files: seq<seq<Item>>, offline: bool)
    ensures (forall calls, tool :: AnswerFor(QueuesOf(Flatten(files)), offline, calls, tool) != Live) <==>
            offline || exists i :: 0 <= i < |files| && files[i] != []
  {
    QueuesEmpty(files);
    var recorded := QueuesOf(Flatten(files));
    forall tool | tool in recorded ensures recorded[tool] != [] { Absent(Flatten(files), tool); }
    if recorded == map[] && !offline {
      assert AnswerFor(recorded, offline, [], "web_search") == Live;
    }
  }

  /** A live case whose one fixture file has an empty result list is not closed. */
  lemma EmptyFixtureGoesLive()
    ensures AnswerFor(QueuesOf(Flatten([[]])), false, [], "web_search") == Live
  {
    QueuesEmpty([[]]);
  }
}
