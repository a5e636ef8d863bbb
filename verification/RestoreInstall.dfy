/** `_restore_payload` and `_apply_archived_modes`: installing a verified payload beside a live target by rename,
    under any combination of failing file-system calls. Every state the parent directory passes through is kept
    in a ghost trace, so a property of the trace holds wherever the process may be killed. */
module RestoreInstall {
  import opened Wrappers
  import opened PathNames
  import opened Trees
  import opened Sequences
  import opened Sorting

  /** A directory entry: a real directory, or a file or symlink. */
  datatype Entry = Directory(tree: Tree) | Other

  type Entries = map<string, Entry>

  /** Which file-system calls fail. `copy` and `chmod` name the paths whose call fails; a failing clean-up stops
      after `cleanupAfter` removals. */
  datatype Faults = Faults(
    inspectFirst: bool, makeStage: bool, chmodStage: bool, copy: set<Path>, chmod: set<Path>, inspectSecond: bool,
    moveAside: bool, install: bool, rollback: bool, removeEmpty: bool, sync: bool,
    cleanup: bool, cleanupAfter: nat)

  datatype Outcome = Installed(previous: Option<string>) | Failed

  datatype Check = Refused | Usable(nonempty: bool)

  function StageName(target: string, random: string): string {
    "." + target + ".restore-" + random
  }

  function PreviousName(target: string, random: string): string {
    "." + target + ".pre-restore-" + random
  }

  lemma {:induction false} NamesDiffer(target: string, a: string, b: string)
    ensures StageName(target, a) != PreviousName(target, b)
    ensures StageName(target, a) != target && PreviousName(target, b) != target
    ensures StageName("data", "x") == ".data.restore-x" && PreviousName("data", "x") == ".data.pre-restore-x"
  {
    assert StageName(target, a)[|target| + 2] == 'r';
    assert PreviousName(target, b)[|target| + 2] == 'p';
  }

  /** `_validate_restore_target`, given whether listing the target fails. */
  function Validate(e: Entries, target: string, overwrite: bool, inspectFails: bool): Check {
    if target !in e then Usable(false)
    else match e[target]
      case Other => Refused
      case Directory(t) =>
        if inspectFails || (t != map[] && !overwrite) then Refused else Usable(t != map[])
  }

  /* --- archived modes --- */

  datatype ModeEntry = ModeEntry(path: Path, mode: nat, isDir: bool)

  /** The order of the sort key `(is_dir, -len(parts))`. */
  predicate ChmodBefore(a: ModeEntry, b: ModeEntry) {
    (!a.isDir && b.isDir) || (a.isDir == b.isDir && |a.path| >= |b.path|)
  }

  function ArchivedKey(p: Path): Path { ["payload"] + p }

  function WithMode(n: Node, mode: nat): Node {
    match n
    case Dir(_) => Dir(mode)
    case File(content, _) => File(content, mode)
  }

  function ArchivedNode(n: Node, p: Path, modes: map<Path, nat>): Node {
    if ArchivedKey(p) in modes then WithMode(n, modes[ArchivedKey(p)] % PERMISSION_BITS) else n
  }

  /** The stage once every path that exists in it and has an archived mode carries that mode's permission bits. */
  function Remoded(t: Tree, modes: map<Path, nat>): Tree {
    map p | p in t :: ArchivedNode(t[p], p, modes)
  }

  predicate IsEntry(t: Tree, modes: map<Path, nat>, e: ModeEntry) {
    && e.path in t && ArchivedKey(e.path) in modes
    && e.mode == modes[ArchivedKey(e.path)] % PERMISSION_BITS && e.isDir == t[e.path].Dir?
  }

  ghost predicate IsSchedule(t: Tree, modes: map<Path, nat>, s: seq<ModeEntry>) {
    && SortedBy(ChmodBefore, s)
    && (forall e :: e in s <==> IsEntry(t, modes, e))
    && DistinctPaths(s)
  }

  /** When a path gets its archived mode, no directory above it has been given one yet. */
  lemma {:induction false} DescendantsFirst(t: Tree, modes: map<Path, nat>, s: seq<ModeEntry>, i: nat, j: nat)
    requires WellFormed(t) && IsSchedule(t, modes, s) && i < j < |s|
    ensures !IsAncestor(s[i].path, s[j].path)
  {
    assert ChmodBefore(s[i], s[j]);
    assert s[i] in s && s[j] in s;
    if IsAncestor(s[i].path, s[j].path) {
      AncestorsPresent(t, s[i].path, s[j].path);
    }
  }

  lemma ChmodBeforeTotal()
    ensures TotalPreorder(ChmodBefore)
  {
  }

  /** The schedule of the archived keys read so far. */
  ghost predicate PartialSchedule(t: Tree, modes: map<Path, nat>, read: seq<Path>, s: seq<ModeEntry>) {
    && SortedBy(ChmodBefore, s)
    && (forall e :: e in s <==> IsEntry(t, modes, e) && ArchivedKey(e.path) in read)
    && DistinctPaths(s)
  }

  lemma {:induction false} AddEntry(t: Tree, modes: map<Path, nat>, read: seq<Path>, s: seq<ModeEntry>, e: ModeEntry)
    requires PartialSchedule(t, modes, read, s) && IsEntry(t, modes, e) && ArchivedKey(e.path) !in read
    ensures PartialSchedule(t, modes, read + [ArchivedKey(e.path)], Insert(ChmodBefore, e, s))
  {
    hide ChmodBefore;
    ChmodBeforeTotal();
    InsertSorted(ChmodBefore, e, s);
    InsertMembers(ChmodBefore, e, s);
    assert forall i :: 0 <= i < |s| ==> s[i] in s;
    InsertDistinct(e, s);
    forall x ensures IsEntry(t, modes, x) && ArchivedKey(x.path) == ArchivedKey(e.path) ==> x == e {
      assert ArchivedKey(x.path)[1..] == x.path && ArchivedKey(e.path)[1..] == e.path;
    }
  }

  lemma {:induction false} SkipKey(t: Tree, modes: map<Path, nat>, read: seq<Path>, s: seq<ModeEntry>, key: Path)
    requires PartialSchedule(t, modes, read, s)
    requires !(|key| > 1 && key[0] == "payload" && key[1..] in t) && [] !in t
    ensures PartialSchedule(t, modes, read + [key], s)
  {
    hide ChmodBefore;
    forall x ensures IsEntry(t, modes, x) ==> ArchivedKey(x.path) != key {
      assert ArchivedKey(x.path)[1..] == x.path && ArchivedKey(x.path)[0] == "payload";
    }
  }

  method BuildSchedule(t: Tree, modes: map<Path, nat>) returns (s: seq<ModeEntry>)
    requires [] !in t
    ensures IsSchedule(t, modes, s)
  {
    hide PathLe, ChmodBefore, PartialSchedule, IsListing, Listing, IsSchedule;
    var keys := SortedPaths(modes.Keys);
    ListingDistinct(modes.Keys);
    s := [];
    assert PartialSchedule(t, modes, [], []) by { NothingRead(t, modes); }
    for i := 0 to |keys|
      invariant PartialSchedule(t, modes, keys[..i], s)
    {
      var key := keys[i];
      assert key in keys && key !in keys[..i];
      assert keys[..i + 1] == keys[..i] + [key];
      if |key| > 1 && key[0] == "payload" && key[1..] in t {
        var e := ModeEntry(key[1..], modes[key] % PERMISSION_BITS, t[key[1..]].Dir?);
        assert ArchivedKey(e.path) == key;
        AddEntry(t, modes, keys[..i], s, e);
        s := Insert(ChmodBefore, e, s);
      } else {
        SkipKey(t, modes, keys[..i], s, key);
      }
    }
    assert keys[..|keys|] == keys;
    AllRead(t, modes, keys, s);
  }

  lemma NothingRead(t: Tree, modes: map<Path, nat>)
    ensures PartialSchedule(t, modes, [], [])
  {
  }

  lemma AllRead(t: Tree, modes: map<Path, nat>, read: seq<Path>, s: seq<ModeEntry>)
    requires PartialSchedule(t, modes, read, s) && forall k :: k in read <==> k in modes
    ensures IsSchedule(t, modes, s)
  {
    hide ChmodBefore;
  }

  predicate DistinctPaths(s: seq<ModeEntry>) {
    forall i, j :: 0 <= i < j < |s| ==> s[i].path != s[j].path
  }

  lemma {:induction false} InsertDistinct(e: ModeEntry, s: seq<ModeEntry>)
    requires DistinctPaths(s) && forall i :: 0 <= i < |s| ==> s[i].path != e.path
    ensures DistinctPaths(Insert(ChmodBefore, e, s))
  {
    var r := Insert(ChmodBefore, e, s);
    if s == [] || ChmodBefore(e, s[0]) {
      assert r == [e] + s;
    } else {
      var rest := Insert(ChmodBefore, e, s[1..]);
      assert r == [s[0]] + rest;
      InsertDistinct(e, s[1..]);
      InsertMembers(ChmodBefore, e, s[1..]);
      forall j | 0 <= j < |rest| ensures rest[j].path != s[0].path {
        assert rest[j] in rest;
      }
    }
  }

  /* --- the parent directory of the target --- */

  predicate Searchable(mode: nat) {
    mode / 64 % 2 == 1
  }

  /** chmod reaches a path only through directories its owner may search. */
  predicate Reachable(t: Tree, p: Path) {
    p in t && forall k :: 1 <= k < |p| ==> p[..k] in t && t[p[..k]].Dir? && Searchable(t[p[..k]].mode)
  }

  /** rename(2) of a directory: the new name is free or an empty directory. */
  predicate RenameAllowed(e: Entries, src: string, dst: string) {
    src in e && e[src].Directory? && src != dst && (dst in e ==> e[dst] == Directory(map[]))
  }

  function Renamed(e: Entries, src: string, dst: string): Entries
    requires src in e
  {
    (e - {src})[dst := e[src]]
  }

  /** What a killed restore may leave behind: nothing but the target, the stage and the displaced tree has
      changed; the target is untouched, absent or completely new; the displaced tree is whole at one of two
      names; and without `overwrite` a non-empty target is untouched. */
  ghost predicate Safe(before: Entries, e: Entries, target: string, stage: string, previous: string, installed: Tree,
                       overwrite: bool) {
    && (forall n :: n !in {target, stage, previous} ==> (n in e <==> n in before) && (n in e ==> e[n] == before[n]))
    && (target in e ==> (target in before && e[target] == before[target]) || e[target] == Directory(installed))
    && (target in before && before[target] != Directory(map[]) ==>
          || (target in e && e[target] == before[target])
          || (previous in e && e[previous] == before[target] && overwrite && before[target].Directory?))
  }

  /** The calls up to the first rename succeed. */
  predicate Prepared(before: Entries, payload: Tree, modes: map<Path, nat>, target: string, overwrite: bool, f: Faults) {
    && Validate(before, target, overwrite, f.inspectFirst).Usable?
    && !f.makeStage && !f.chmodStage
    && (forall p :: p in payload ==> p !in f.copy)
    && (forall p :: p in payload && ArchivedKey(p) in modes ==> p !in f.chmod)
    && Validate(before, target, overwrite, f.inspectSecond).Usable?
  }

  predicate MovedAside(before: Entries, target: string, previous: string, f: Faults) {
    target in before ==> !f.moveAside && RenameAllowed(before, target, previous)
  }

  /** The order in which `copytree` meets the payload: some order that lists a directory before its contents. */
  ghost predicate IsCopyOrder(order: seq<Path>, payload: Tree) {
    && NoRepeats(order)
    && (forall p :: p in order <==> p in payload)
    && (forall i, j :: 0 <= i < |order| && 0 <= j < |order| && IsAncestor(order[i], order[j]) ==> i < j)
  }

  /** Every state since the `n`th is safe. */
  ghost predicate SafeSince(trace: seq<Entries>, n: nat, before: Entries, target: string, stage: string,
                            previous: string, installed: Tree, overwrite: bool) {
    forall k :: n <= k < |trace| ==> Safe(before, trace[k], target, stage, previous, installed, overwrite)
  }

  /** Every state since the `n`th differs from `before` at `name` only. */
  ghost predicate OnlySince(trace: seq<Entries>, n: nat, before: Entries, name: string) {
    forall k :: n <= k < |trace| ==> trace[k] - {name} == before - {name}
  }

  ghost predicate Extends(trace: seq<Entries>, earlier: seq<Entries>) {
    |earlier| <= |trace| && trace[..|earlier|] == earlier
  }

  lemma OnlyAppend(trace: seq<Entries>, n: nat, before: Entries, name: string, e: Entries, tree: Tree)
    requires OnlySince(trace, n, before, name) && e - {name} == before - {name}
    ensures var next := e[name := Directory(tree)];
            next - {name} == before - {name} && OnlySince(trace + [next], n, before, name)
  {
    var next := e[name := Directory(tree)];
    assert next - {name} == e - {name};
  }

  lemma ExtendsAppend(trace: seq<Entries>, earlier: seq<Entries>, e: Entries)
    requires Extends(trace, earlier)
    ensures Extends(trace + [e], earlier)
  {
  }

  class ParentDirectory {
    var entries: Entries
    ghost var trace: seq<Entries>

    constructor (initial: Entries)
      ensures entries == initial && trace == [initial]
    {
      entries, trace := initial, [initial];
    }

    method MakeDirectory(name: string, fails: bool) returns (ok: bool)
      requires name !in entries
      modifies this
      ensures ok == !fails
      ensures entries == if ok then old(entries)[name := Directory(map[])] else old(entries)
      ensures trace == old(trace) + [entries]
    {
      ok := !fails;
      if ok { entries := entries[name := Directory(map[])]; }
      trace := trace + [entries];
    }

    method Rename(src: string, dst: string, fails: bool) returns (ok: bool)
      modifies this
      ensures ok <==> !fails && RenameAllowed(old(entries), src, dst)
      ensures entries == if ok then Renamed(old(entries), src, dst) else old(entries)
      ensures trace == old(trace) + [entries]
    {
      ok := !fails && RenameAllowed(entries, src, dst);
      if ok { entries := Renamed(entries, src, dst); }
      trace := trace + [entries];
    }

    method RemoveEmpty(name: string, fails: bool) returns (ok: bool)
      modifies this
      ensures ok <==> !fails && name in old(entries) && old(entries)[name] == Directory(map[])
      ensures entries == if ok then old(entries) - {name} else old(entries)
      ensures trace == old(trace) + [entries]
    {
      ok := !fails && name in entries && entries[name] == Directory(map[]);
      if ok { entries := entries - {name}; }
      trace := trace + [entries];
    }

    /** `os.chmod`: fails on a fault, and where a directory above may not be searched. */
    method Chmod(name: string, p: Path, mode: nat, fails: bool) returns (ok: bool)
      requires name in entries && entries[name].Directory?
      modifies this
      ensures ok <==> !fails && Reachable(old(entries)[name].tree, p)
      ensures entries == if ok then old(entries)[name := Directory(Rechmod(old(entries)[name].tree, p, mode))]
                         else old(entries)
      ensures trace == old(trace) + [entries]
    {
      ok := !fails && Reachable(entries[name].tree, p);
      if ok { entries := entries[name := Directory(Rechmod(entries[name].tree, p, mode))]; }
      trace := trace + [entries];
    }

    /** `shutil.rmtree`, which a fault stops after some removals. */
    method RemoveTree(name: string, fails: bool, after: nat)
      requires name in entries && entries[name].Directory?
      modifies this
      ensures fails ==> name in entries && entries[name].Directory?
      ensures !fails ==> name !in entries
      ensures entries - {name} == old(entries) - {name}
      ensures Extends(trace, old(trace))
      ensures OnlySince(trace, |old(trace)|, old(entries), name)
    {
      ghost var n := |trace|;
      var remaining := entries[name].tree.Keys;
      var removed := 0;
      while remaining != {} && !(fails && removed == after)
        invariant name in entries && entries[name].Directory?
        invariant entries - {name} == old(entries) - {name}
        invariant Extends(trace, old(trace))
        invariant OnlySince(trace, n, old(entries), name)
        decreases remaining
      {
        var p :| p in remaining;
        remaining := remaining - {p};
        OnlyAppend(trace, n, old(entries), name, entries, entries[name].tree - {p});
        entries := entries[name := Directory(entries[name].tree - {p})];
        trace := trace + [entries];
        removed := removed + 1;
      }
      if !fails {
        entries := entries - {name};
        trace := trace + [entries];
      }
    }

    /** `shutil.copytree` into the empty stage: a failed entry is skipped with everything below it, the rest is
        still copied, and the copy fails as a whole. */
    method CopyTree(payload: Tree, order: seq<Path>, stage: string, f: Faults) returns (ok: bool)
      requires WellFormed(payload) && IsCopyOrder(order, payload)
      requires stage in entries && entries[stage] == Directory(map[])
      modifies this
      ensures ok <==> forall p :: p in payload ==> p !in f.copy
      ensures stage in entries && (ok ==> entries[stage] == Directory(payload))
      ensures entries[stage].Directory? && entries - {stage} == old(entries) - {stage}
      ensures Extends(trace, old(trace))
      ensures OnlySince(trace, |old(trace)|, old(entries), stage)
    {
      hide WellFormed, IsAncestor, OnlySince, Extends, IsCopyOrder;
      ghost var n := |trace|;
      ok := true;
      assert OnlySince(trace, n, entries, stage) && Extends(trace, trace) by { TraceStart(trace, entries, stage); }
      for i := 0 to |order|
        invariant stage in entries && entries[stage].Directory? && entries - {stage} == old(entries) - {stage}
        invariant Extends(trace, old(trace))
        invariant OnlySince(trace, n, old(entries), stage)
        invariant ok ==> CopiedSoFar(entries[stage].tree, payload, order[..i])
        invariant ok <==> forall k :: 0 <= k < i ==> order[k] !in f.copy
      {
        var p := order[i];
        assert order[..i + 1] == order[..i] + [p];
        assert p in payload by { OrderListed(payload, order, i); }
        var hasParent := |p| <= 1 || p[..|p| - 1] in entries[stage].tree;
        if ok { ParentCopied(payload, order, i); }
        if !hasParent || p in f.copy {
          ok := false;
        } else {
          OnlyAppend(trace, n, old(entries), stage, entries, entries[stage].tree[p := payload[p]]);
          ExtendsAppend(trace, old(trace), entries[stage := Directory(entries[stage].tree[p := payload[p]])]);
          entries := entries[stage := Directory(entries[stage].tree[p := payload[p]])];
          trace := trace + [entries];
        }
      }
      assert order[..|order|] == order;
      CopyComplete(order, payload, f);
      if ok { CopiedAll(entries[stage].tree, payload, order); }
    }

    /** `_apply_archived_modes` on the stage: only a failing call can stop it. */
    method ApplyModes(stage: string, modes: map<Path, nat>, f: Faults) returns (ok: bool)
      requires stage in entries && entries[stage].Directory? && Enterable(entries[stage].tree)
      modifies this
      ensures ok <==> forall p :: p in old(entries)[stage].tree && ArchivedKey(p) in modes ==> p !in f.chmod
      ensures stage in entries && (ok ==> entries[stage] == Directory(Remoded(old(entries)[stage].tree, modes)))
      ensures entries[stage].Directory? && entries - {stage} == old(entries) - {stage}
      ensures Extends(trace, old(trace))
      ensures OnlySince(trace, |old(trace)|, old(entries), stage)
    {
      hide WellFormed, Searchable, OnlySince, Extends, IsSchedule, Reachable, Rechmod, Remoded, WithMode;
      ghost var n := |trace|;
      var t := entries[stage].tree;
      assert [] !in t by { NoEmptyPath(t); }
      var s := BuildSchedule(t, modes);
      FaultFree(t, modes, s, f);
      TraceStart(trace, entries, stage);
      assert s[..0] == [];
      for i := 0 to |s|
        invariant stage in entries && entries[stage] == Directory(Applied(t, s[..i]))
        invariant entries - {stage} == old(entries) - {stage}
        invariant Extends(trace, old(trace)) && OnlySince(trace, n, old(entries), stage)
        invariant forall k :: 0 <= k < i ==> s[k].path !in f.chmod
      {
        ScheduleReaches(t, modes, s, i);
        assert s[..i + 1][..i] == s[..i];
        ghost var before, e := entries, trace;
        OnlyAppend(trace, n, old(entries), stage, entries, Rechmod(entries[stage].tree, s[i].path, s[i].mode));
        OnlyAppend(trace, n, old(entries), stage, entries, entries[stage].tree);
        var done := Chmod(stage, s[i].path, s[i].mode, s[i].path in f.chmod);
        ExtendsAppend(e, old(trace), entries);
        if !done {
          assert entries == before[stage := Directory(before[stage].tree)];
          return false;
        }
      }
      assert s[..|s|] == s;
      AppliedAll(t, modes, s);
      return true;
    }

    /** The first rename, if there is something to displace. */
    method MoveAside(ghost before: Entries, ghost installed: Tree, target: string, stage: string, previous: string,
                     ghost overwrite: bool, f: Faults)
      returns (ok: bool, displaced: bool)
      requires target != stage && stage != previous && target != previous
      requires Staged(before, entries, stage, installed)
      requires Validate(before, target, overwrite, false).Usable?
      modifies this
      ensures ok <==> MovedAside(before, target, previous, f)
      ensures displaced <==> ok && target in before
      ensures entries - {stage} == if ok then Aside(before, target, previous) else before
      ensures stage in entries && entries[stage] == Directory(installed)
      ensures target in entries ==> !ok
      ensures Extends(trace, old(trace))
      ensures SafeSince(trace, |old(trace)|, before, target, stage, previous, installed, overwrite)
    {
      hide Safe;
      ok, displaced := true, false;
      if target in entries {
        ok := Rename(target, previous, f.moveAside);
        displaced := ok;
        RenameBesideStage(old(entries), stage, target, previous);
        AsideSafe(before, entries, target, stage, previous, installed, overwrite);
      }
    }

    /** The second rename, or putting the displaced tree back. */
    method InstallOrRollBack(ghost before: Entries, ghost installed: Tree, target: string, stage: string,
                             previous: string, ghost overwrite: bool, displaced: bool, f: Faults)
      returns (ok: bool)
      requires target != stage && stage != previous && target != previous
      requires Validate(before, target, overwrite, false).Usable?
      requires displaced <==> target in before
      requires entries - {stage} == Aside(before, target, previous) && target !in entries
      requires stage in entries && entries[stage] == Directory(installed)
      modifies this
      ensures ok <==> !f.install
      ensures entries - {stage} ==
              if ok then Aside(before, target, previous)[target := Directory(installed)]
              else if displaced && !f.rollback then before - {previous} else Aside(before, target, previous)
      ensures stage in entries <==> !ok
      ensures stage in entries ==> entries[stage].Directory?
      ensures Extends(trace, old(trace))
      ensures SafeSince(trace, |old(trace)|, before, target, stage, previous, installed, overwrite)
    {
      hide Safe;
      ok := Rename(stage, target, f.install);
      StageBecomesTarget(old(entries), stage, target);
      InstalledSafe(before, entries, target, stage, previous, installed, overwrite);
      if !ok && displaced && target !in entries {
        AsideHolds(before, target, previous);
        assert previous in entries - {stage};
        var back := Rename(previous, target, f.rollback);
        RenameBesideStage(old(entries), stage, previous, target);
        RollBackRestores(before, target, previous);
        AsideSafe(before, entries, target, stage, previous, installed, overwrite);
      }
    }

    /** The two renames, the removal of an empty displaced directory and the directory sync. */
    method Swap(ghost before: Entries, ghost installed: Tree, target: string, stage: string, previous: string,
                ghost overwrite: bool, wasNonempty: bool, f: Faults)
      returns (r: Outcome)
      requires target != stage && stage != previous && target != previous
      requires Staged(before, entries, stage, installed)
      requires Validate(before, target, overwrite, false) == Usable(wasNonempty)
      modifies this
      ensures r == SwapOutcome(before, target, previous, f)
      ensures entries - {stage} == SwapEffect(before, installed, target, previous, f)
      ensures stage in entries ==> entries[stage].Directory?
      ensures Extends(trace, old(trace))
      ensures SafeSince(trace, |old(trace)|, before, target, stage, previous, installed, overwrite)
      ensures Safe(before, entries, target, stage, previous, installed, overwrite)
    {
      hide Safe, Renamed, RenameAllowed;
      var moved, displaced := MoveAside(before, installed, target, stage, previous, overwrite, f);
      if !moved {
        AsideSafe(before, entries, target, stage, previous, installed, overwrite);
        return Failed;
      }
      var ok := InstallOrRollBack(before, installed, target, stage, previous, overwrite, displaced, f);
      if !ok {
        AsideSafe(before, entries, target, stage, previous, installed, overwrite);
        return Failed;
      }
      InstalledSafe(before, entries, target, stage, previous, installed, overwrite);
      if displaced && !wasNonempty {
        AsideHolds(before, target, previous);
        ghost var swapped := entries;
        assert swapped - {stage} == Aside(before, target, previous)[target := Directory(installed)];
        assert previous in swapped - {stage};
        assert swapped[previous] == before[target];
        var removed := RemoveEmpty(previous, f.removeEmpty);
        assert swapped - {previous} - {stage} == swapped - {stage} - {previous};
        InstalledSafe(before, entries, target, stage, previous, installed, overwrite);
        if removed { displaced := false; }
      }
      if f.sync { return Failed; }
      return Installed(if displaced then Some(previous) else None);
    }

    /** The guarded body: fill the stage, look at the target again, swap. */
    method FillAndSwap(ghost before: Entries, payload: Tree, order: seq<Path>, target: string, stage: string,
                       previous: string, overwrite: bool, modes: map<Path, nat>, f: Faults)
      returns (r: Outcome)
      requires target != stage && stage != previous && target != previous
      requires stage !in before && stage in entries && entries[stage] == Directory(map[]) && entries - {stage} == before
      requires Enterable(payload) && IsCopyOrder(order, payload)
      requires Validate(before, target, overwrite, f.inspectFirst).Usable? && !f.makeStage && !f.chmodStage
      modifies this
      ensures r == InstallOutcome(before, payload, modes, target, previous, overwrite, f)
      ensures entries - {stage} == InstallEffect(before, payload, modes, target, previous, overwrite, f)
      ensures stage in entries ==> entries[stage].Directory?
      ensures Extends(trace, old(trace))
      ensures SafeSince(trace, |old(trace)|, before, target, stage, previous, Remoded(payload, modes), overwrite)
      ensures Safe(before, entries, target, stage, previous, Remoded(payload, modes), overwrite)
    {
      hide Safe, WellFormed, Searchable, IsCopyOrder, Remoded, Extends, OnlySince, SafeSince, SwapEffect, SwapOutcome;
      ghost var installed, t0, e0 := Remoded(payload, modes), trace, entries;
      var copied := CopyTree(payload, order, stage, f);
      BeforeSafe(before, entries, target, stage, previous, installed, overwrite);
      BeforeSafe(before, e0, target, stage, previous, installed, overwrite);
      StageOnlySafe(trace, |t0|, before, e0, target, stage, previous, installed, overwrite);
      if !copied { return Failed; }
      ghost var t1, e1 := trace, entries;
      var applied := ApplyModes(stage, modes, f);
      BeforeSafe(before, entries, target, stage, previous, installed, overwrite);
      StageOnlySafe(trace, |t1|, before, e1, target, stage, previous, installed, overwrite);
      SafeCompose(t0, t1, trace, before, target, stage, previous, installed, overwrite);
      if !applied { return Failed; }
      var second := Validate(entries, target, overwrite, f.inspectSecond);
      if second.Refused? { return Failed; }
      ghost var t2 := trace;
      r := Swap(before, installed, target, stage, previous, overwrite, second.nonempty, f);
      SafeCompose(t0, t2, trace, before, target, stage, previous, installed, overwrite);
    }

    /** `_restore_payload`. Its result and the parent directory it leaves are decided by what was there and by
        which calls failed, and every state on the way is safe. */
    method RestorePayload(payload: Tree, order: seq<Path>, target: string, stage: string, previous: string,
                          overwrite: bool, modes: map<Path, nat>, f: Faults)
      returns (r: Outcome)
      requires target != stage && stage != previous && target != previous
      requires stage !in entries
      requires Enterable(payload) && IsCopyOrder(order, payload)
      modifies this
      ensures r == InstallOutcome(old(entries), payload, modes, target, previous, overwrite, f)
      ensures entries - {stage} == InstallEffect(old(entries), payload, modes, target, previous, overwrite, f)
      ensures stage in entries ==> f.chmodStage || f.cleanup
      ensures Extends(trace, old(trace))
      ensures SafeSince(trace, |old(trace)|, old(entries), target, stage, previous, Remoded(payload, modes), overwrite)
    {
      hide Safe, WellFormed, Searchable, IsCopyOrder, Remoded, Extends, OnlySince, SafeSince;
      ghost var before, installed := entries, Remoded(payload, modes);
      var first := Validate(entries, target, overwrite, f.inspectFirst);
      NothingYetSafe(trace, before, target, stage, previous, installed, overwrite);
      if first.Refused? { return Failed; }
      ghost var t0 := trace;
      var made := MakeDirectory(stage, f.makeStage);
      OneStep(t0, trace, entries, before, stage);
      BeforeSafe(before, before, target, stage, previous, installed, overwrite);
      StageOnlySafe(trace, |t0|, before, before, target, stage, previous, installed, overwrite);
      if !made || f.chmodStage { return Failed; }
      ghost var t1 := trace;
      r := FillAndSwap(before, payload, order, target, stage, previous, overwrite, modes, f);
      SafeCompose(t0, t1, trace, before, target, stage, previous, installed, overwrite);
      if stage in entries {
        ghost var t2, e2 := trace, entries;
        RemoveTree(stage, f.cleanup, f.cleanupAfter);
        StageOnlySafe(trace, |t2|, before, e2, target, stage, previous, installed, overwrite);
        SafeCompose(t0, t2, trace, before, target, stage, previous, installed, overwrite);
      }
    }
  }

  lemma NoEmptyPath(t: Tree)
    requires WellFormed(t)
    ensures [] !in t
  {
  }

  function Rechmod(t: Tree, p: Path, mode: nat): Tree {
    if p in t then t[p := WithMode(t[p], mode)] else t
  }

  ghost predicate CopiedSoFar(t: Tree, payload: Tree, done: seq<Path>) {
    && (forall p :: p in t <==> p in done)
    && (forall p :: p in t ==> p in payload && t[p] == payload[p])
  }

  lemma {:induction false} ParentCopied(payload: Tree, order: seq<Path>, i: nat)
    requires WellFormed(payload) && IsCopyOrder(order, payload) && i < |order|
    ensures |order[i]| > 1 ==> order[i][..|order[i]| - 1] in order[..i]
  {
    var p := order[i];
    assert p in order;
    if |p| > 1 {
      var a := Parent(p);
      assert a in payload;
      assert a in order;
      var j :| 0 <= j < |order| && order[j] == a;
      assert IsAncestor(order[j], order[i]);
      assert order[..i][j] == a;
    }
  }

  lemma CopyComplete(order: seq<Path>, payload: Tree, f: Faults)
    requires IsCopyOrder(order, payload)
    ensures (forall k :: 0 <= k < |order| ==> order[k] !in f.copy) <==> forall p :: p in payload ==> p !in f.copy
  {
    assert forall k :: 0 <= k < |order| ==> order[k] in order;
  }

  lemma CopiedAll(t: Tree, payload: Tree, order: seq<Path>)
    requires IsCopyOrder(order, payload) && CopiedSoFar(t, payload, order)
    ensures t == payload
  {
  }

  lemma OrderListed(payload: Tree, order: seq<Path>, i: nat)
    requires IsCopyOrder(order, payload) && i < |order|
    ensures order[i] in payload
  {
    assert order[i] in order;
  }

  lemma TraceStart(trace: seq<Entries>, e: Entries, name: string)
    ensures OnlySince(trace, |trace|, e, name) && Extends(trace, trace)
  {
  }

  /* --- applying the schedule --- */

  ghost predicate Enterable(t: Tree) {
    WellFormed(t) && forall p :: p in t && t[p].Dir? ==> Searchable(t[p].mode)
  }

  function Applied(t: Tree, s: seq<ModeEntry>): Tree {
    if s == [] then t else Rechmod(Applied(t, s[..|s| - 1]), s[|s| - 1].path, s[|s| - 1].mode)
  }

  lemma {:induction false} AppliedAt(t: Tree, s: seq<ModeEntry>, p: Path)
    requires DistinctPaths(s)
    ensures p in Applied(t, s) <==> p in t
    ensures p in t && (forall k :: 0 <= k < |s| ==> s[k].path != p) ==> Applied(t, s)[p] == t[p]
    ensures p in t ==> forall k :: 0 <= k < |s| && s[k].path == p ==> Applied(t, s)[p] == WithMode(t[p], s[k].mode)
  {
    if s != [] {
      AppliedAt(t, s[..|s| - 1], p);
    }
  }

  /** Reaching a scheduled path is never denied by a mode applied before it. */
  lemma {:induction false} ScheduleReaches(t: Tree, modes: map<Path, nat>, s: seq<ModeEntry>, i: nat)
    requires Enterable(t) && IsSchedule(t, modes, s) && i < |s|
    ensures Reachable(Applied(t, s[..i]), s[i].path)
    ensures var now := Applied(t, s[..i]);
            forall a :: IsAncestor(a, s[i].path) ==> a in now && now[a].Dir? && now[a].mode / 64 % 2 == 1
  {
    hide WellFormed;
    var p := s[i].path;
    assert s[i] in s;
    AppliedAt(t, s[..i], p);
    forall k | 1 <= k < |p|
      ensures p[..k] in t && t[p[..k]].Dir?
      ensures p[..k] in Applied(t, s[..i]) && Applied(t, s[..i])[p[..k]] == t[p[..k]]
    {
      AncestorsPresent(t, p[..k], p);
      AppliedAt(t, s[..i], p[..k]);
      forall j | 0 <= j < i ensures s[j].path != p[..k] {
        DescendantsFirst(t, modes, s, j, i);
      }
    }
    assert forall a :: IsAncestor(a, p) ==> a == p[..|a|];
  }

  lemma {:induction false} AppliedAll(t: Tree, modes: map<Path, nat>, s: seq<ModeEntry>)
    requires IsSchedule(t, modes, s)
    ensures Applied(t, s) == Remoded(t, modes)
  {
    hide ChmodBefore, WithMode;
    var r := Remoded(t, modes);
    forall p
      ensures p in Applied(t, s) <==> p in t
      ensures p in t ==> p in Applied(t, s) && Applied(t, s)[p] == r[p]
    {
      AppliedAt(t, s, p);
      if p in t && ArchivedKey(p) in modes {
        var e := ModeEntry(p, modes[ArchivedKey(p)] % PERMISSION_BITS, t[p].Dir?);
        assert e in s;
      } else if p in t {
        forall k | 0 <= k < |s| ensures s[k].path != p { assert s[k] in s; }
      }
    }
  }

  lemma {:induction false} FaultFree(t: Tree, modes: map<Path, nat>, s: seq<ModeEntry>, f: Faults)
    requires IsSchedule(t, modes, s)
    ensures (forall k :: 0 <= k < |s| ==> s[k].path !in f.chmod) <==>
            forall p :: p in t && ArchivedKey(p) in modes ==> p !in f.chmod
  {
    hide ChmodBefore;
    assert forall k :: 0 <= k < |s| ==> s[k] in s;
    forall p | p in t && ArchivedKey(p) in modes ensures exists k :: 0 <= k < |s| && s[k].path == p {
      var e := ModeEntry(p, modes[ArchivedKey(p)] % PERMISSION_BITS, t[p].Dir?);
      assert e in s;
    }
  }

  /* --- the swap, as a function of what was there and what failed --- */

  ghost predicate Staged(before: Entries, e: Entries, stage: string, installed: Tree) {
    stage !in before && e - {stage} == before && stage in e && e[stage] == Directory(installed)
  }

  /** The displaced target, when an install attempt displaces it, as the parent directory then looks. */
  function Aside(before: Entries, target: string, previous: string): Entries {
    if target in before then Renamed(before, target, previous) else before
  }

  predicate EmptyDisplacedGone(before: Entries, target: string, f: Faults) {
    target in before && before[target] == Directory(map[]) && !f.removeEmpty
  }

  function SwapEffect(before: Entries, installed: Tree, target: string, previous: string, f: Faults): Entries {
    if !MovedAside(before, target, previous, f) then before
    else if f.install then
      if target in before && !f.rollback then before - {previous} else Aside(before, target, previous)
    else
      var swapped := Aside(before, target, previous)[target := Directory(installed)];
      if EmptyDisplacedGone(before, target, f) then swapped - {previous} else swapped
  }

  function SwapOutcome(before: Entries, target: string, previous: string, f: Faults): Outcome {
    if !MovedAside(before, target, previous, f) || f.install || f.sync then Failed
    else Installed(if target in before && !EmptyDisplacedGone(before, target, f) then Some(previous) else None)
  }

  function InstallEffect(before: Entries, payload: Tree, modes: map<Path, nat>, target: string, previous: string,
                         overwrite: bool, f: Faults): Entries {
    if Prepared(before, payload, modes, target, overwrite, f)
    then SwapEffect(before, Remoded(payload, modes), target, previous, f) else before
  }

  function InstallOutcome(before: Entries, payload: Tree, modes: map<Path, nat>, target: string, previous: string,
                          overwrite: bool, f: Faults): Outcome {
    if Prepared(before, payload, modes, target, overwrite, f)
    then SwapOutcome(before, target, previous, f) else Failed
  }

  lemma {:induction false} AsideSafe(before: Entries, e: Entries, target: string, stage: string, previous: string,
                                     installed: Tree, overwrite: bool)
    requires target != stage && stage != previous && target != previous
    requires Validate(before, target, overwrite, false).Usable?
    requires e - {stage} == before || e - {stage} == before - {previous} || e - {stage} == Aside(before, target, previous)
    ensures Safe(before, e, target, stage, previous, installed, overwrite)
  {
    forall n | n != stage ensures (n in e <==> n in e - {stage}) && (n in e ==> e[n] == (e - {stage})[n]) {}
  }

  lemma {:induction false} InstalledSafe(before: Entries, e: Entries, target: string, stage: string, previous: string,
                                         installed: Tree, overwrite: bool)
    requires target != stage && stage != previous && target != previous
    requires Validate(before, target, overwrite, false).Usable?
    requires
      || e - {stage} == Aside(before, target, previous)
      || e - {stage} == Aside(before, target, previous)[target := Directory(installed)]
      || (target in before && before[target] == Directory(map[])
          && e - {stage} == Aside(before, target, previous)[target := Directory(installed)] - {previous})
    ensures Safe(before, e, target, stage, previous, installed, overwrite)
  {
    forall n | n != stage ensures (n in e <==> n in e - {stage}) && (n in e ==> e[n] == (e - {stage})[n]) {}
  }

  lemma RenameBesideStage(e: Entries, stage: string, src: string, dst: string)
    requires src != stage && dst != stage && src in e
    ensures Renamed(e, src, dst) - {stage} == Renamed(e - {stage}, src, dst)
    ensures RenameAllowed(e, src, dst) <==> RenameAllowed(e - {stage}, src, dst)
    ensures stage in e ==> stage in Renamed(e, src, dst) && Renamed(e, src, dst)[stage] == e[stage]
  {
  }

  lemma StageBecomesTarget(e: Entries, stage: string, target: string)
    requires stage in e && stage != target
    ensures Renamed(e, stage, target) - {stage} == (e - {stage})[target := e[stage]]
  {
  }

  lemma RollBackRestores(before: Entries, target: string, previous: string)
    requires target in before && target != previous
    ensures Renamed(Renamed(before, target, previous), previous, target) == before - {previous}
  {
  }

  lemma AsideHolds(before: Entries, target: string, previous: string)
    requires target in before && target != previous
    ensures previous in Aside(before, target, previous) && Aside(before, target, previous)[previous] == before[target]
  {
  }

  /* --- what an outcome says about the target --- */

  /** A reported success means the complete new tree, and the displaced tree is at the reported name or was empty. */
  lemma {:induction false} SuccessMeansInstalled(
    before: Entries, payload: Tree, modes: map<Path, nat>, target: string, previous: string, overwrite: bool, f: Faults)
    requires target != previous
    requires InstallOutcome(before, payload, modes, target, previous, overwrite, f).Installed?
    ensures var e := InstallEffect(before, payload, modes, target, previous, overwrite, f);
            var kept := InstallOutcome(before, payload, modes, target, previous, overwrite, f).previous;
            && target in e && e[target] == Directory(Remoded(payload, modes))
            && (kept.Some? ==> target in before && kept.value in e && e[kept.value] == before[target])
            && (kept.None? ==> target !in before || before[target] == Directory(map[]))
  {
    hide Prepared, Remoded;
    if target in before { AsideHolds(before, target, previous); }
  }

  /** A reported failure does not mean an untouched target. The target is the new tree when only the final sync
      failed, absent when the install and its rollback both failed, and untouched in every other case. */
  lemma {:induction false} FailureCases(
    before: Entries, payload: Tree, modes: map<Path, nat>, target: string, previous: string, overwrite: bool, f: Faults)
    requires target != previous
    requires InstallOutcome(before, payload, modes, target, previous, overwrite, f).Failed?
    ensures var e := InstallEffect(before, payload, modes, target, previous, overwrite, f);
            var swapping := Prepared(before, payload, modes, target, overwrite, f) && MovedAside(before, target, previous, f);
            if swapping && !f.install then f.sync && target in e && e[target] == Directory(Remoded(payload, modes))
            else if swapping && f.rollback && target in before then target !in e && previous in e && e[previous] == before[target]
            else (target in e <==> target in before) && (target in e ==> e[target] == before[target])
  {
    hide Prepared, Remoded;
    if target in before { AsideHolds(before, target, previous); }
  }

  const NO_FAULTS := Faults(false, false, false, {}, {}, false, false, false, false, false, false, false, 0)

  /** The first of those cases happens: an empty parent, no fault but the sync, and the reported failure has
      installed the payload. */
  lemma SyncFailureLeavesNewTree()
    ensures var f := NO_FAULTS.(sync := true);
            && InstallOutcome(map[], map[], map[], "data", "old", false, f) == Failed
            && InstallEffect(map[], map[], map[], "data", "old", false, f) == map["data" := Directory(map[])]
  {
    var t: Tree := map[];
    assert Remoded(t, map[]) == t;
  }

  /* --- the install on the entries themselves --- */

  /** The same file or directory with the mode on record, if there is one, within nine bits. */
  ghost predicate HasArchivedMode(n: Node, was: Node, mode: Option<nat>) {
    && (was.Dir? ==> n == Dir(if mode.Some? then mode.value % 512 else was.mode))
    && (was.File? ==> n == File(was.content, if mode.Some? then mode.value % 512 else was.mode))
  }

  ghost function RecordedMode(modes: map<Path, nat>, p: Path): Option<nat> {
    if ["payload"] + p in modes then Some(modes[["payload"] + p]) else None
  }

  lemma RemodedExact(payload: Tree, modes: map<Path, nat>)
    ensures Remoded(payload, modes).Keys == payload.Keys
    ensures forall p :: p in payload ==> HasArchivedMode(Remoded(payload, modes)[p], payload[p], RecordedMode(modes, p))
  {
  }

  /** No call fails, and the target, if there is one, is a directory that is empty or may be overwritten, with a place to
      move it to. */
  ghost predicate CanInstall(before: Entries, payload: Tree, modes: map<Path, nat>, target: string, previous: string,
                             overwrite: bool, f: Faults) {
    && !f.makeStage && !f.chmodStage && !f.install && !f.sync
    && (forall p :: p in payload ==> p !in f.copy && (["payload"] + p in modes ==> p !in f.chmod))
    && (target in before ==>
          && before[target].Directory? && (before[target].tree == map[] || overwrite)
          && !f.inspectFirst && !f.inspectSecond && !f.moveAside
          && (previous in before ==> before[previous] == Directory(map[])))
  }

  /** The install succeeds exactly then, and reports the displaced tree unless it was empty and has been removed. */
  lemma {:induction false} InstallExact(
    before: Entries, payload: Tree, modes: map<Path, nat>, target: string, previous: string, overwrite: bool, f: Faults)
    requires target != previous
    ensures var o := InstallOutcome(before, payload, modes, target, previous, overwrite, f);
            && (o.Installed? <==> CanInstall(before, payload, modes, target, previous, overwrite, f))
            && (o.Installed? ==>
                  o.previous == if target in before && (before[target] != Directory(map[]) || f.removeEmpty)
                                then Some(previous) else None)
  {
    assert forall p :: ArchivedKey(p) == ["payload"] + p;
    if target in before && before[target].Directory? { assert before[target] == Directory(before[target].tree); }
  }

  /** With no failing call and a free previous name: into an absent or empty target always; into a directory that is not
      empty exactly when told to overwrite, and then the old tree is at the previous name. */
  lemma {:induction false} FaultlessInstall(
    before: Entries, payload: Tree, modes: map<Path, nat>, target: string, previous: string, overwrite: bool)
    requires target != previous && previous !in before
    ensures var o := InstallOutcome(before, payload, modes, target, previous, overwrite, NO_FAULTS);
            var e := InstallEffect(before, payload, modes, target, previous, overwrite, NO_FAULTS);
            && (o.Installed? <==>
                  target !in before || before[target] == Directory(map[]) || (before[target].Directory? && overwrite))
            && (!o.Installed? ==> e == before)
            && (o.Installed? ==> e - {target, previous} == before - {target} && target in e && e[target].Directory?
                                 && e[target].tree.Keys == payload.Keys
                                 && forall p :: p in payload ==>
                                      HasArchivedMode(e[target].tree[p], payload[p], RecordedMode(modes, p)))
            && (o == Installed(Some(previous)) <==> o.Installed? && target in before && before[target] != Directory(map[]))
            && (o == Installed(Some(previous)) ==> previous in e && e[previous] == before[target])
            && (o == Installed(None) ==> previous !in e)
  {
    InstallExact(before, payload, modes, target, previous, overwrite, NO_FAULTS);
    RemodedExact(payload, modes);
    hide Remoded, HasArchivedMode, RecordedMode;
    FaultlessEffect(before, payload, modes, target, previous, overwrite);
    hide InstallEffect, InstallOutcome;
  }

  lemma FaultlessEffect(before: Entries, payload: Tree, modes: map<Path, nat>, target: string, previous: string,
                        overwrite: bool)
    requires target != previous && previous !in before
    ensures var o := InstallOutcome(before, payload, modes, target, previous, overwrite, NO_FAULTS);
            var e := InstallEffect(before, payload, modes, target, previous, overwrite, NO_FAULTS);
            && (!o.Installed? ==> e == before)
            && (o.Installed? ==> e - {target, previous} == before - {target} && target in e
                                 && e[target] == Directory(Remoded(payload, modes)))
            && (o == Installed(Some(previous)) ==> target in before && previous in e && e[previous] == before[target])
            && (o == Installed(None) ==> previous !in e)
  {
    hide Remoded;
  }

  /* --- composing traces --- */

  lemma OneStep(t0: seq<Entries>, t1: seq<Entries>, e: Entries, before: Entries, stage: string)
    requires t1 == t0 + [e] && e - {stage} == before - {stage}
    ensures OnlySince(t1, |t0|, before, stage) && Extends(t1, t0)
  {
  }

  lemma BeforeSafe(before: Entries, e: Entries, target: string, stage: string, previous: string, installed: Tree,
                   overwrite: bool)
    requires e - {stage} == before - {stage} && target != stage
    ensures Safe(before, e, target, stage, previous, installed, overwrite)
  {
    forall n | n != stage ensures (n in e <==> n in before) && (n in e ==> e[n] == before[n]) {
      assert n in e - {stage} <==> n in before - {stage};
      if n in e { assert (e - {stage})[n] == (before - {stage})[n]; }
    }
  }

  lemma {:induction false} StageOnlySafe(trace: seq<Entries>, n: nat, before: Entries, e: Entries, target: string,
                                         stage: string, previous: string, installed: Tree, overwrite: bool)
    requires Safe(before, e, target, stage, previous, installed, overwrite) && OnlySince(trace, n, e, stage)
    requires target != stage && stage != previous
    ensures SafeSince(trace, n, before, target, stage, previous, installed, overwrite)
  {
    forall k | n <= k < |trace| ensures Safe(before, trace[k], target, stage, previous, installed, overwrite) {
      var x := trace[k];
      forall m | m != stage ensures (m in x <==> m in e) && (m in x ==> x[m] == e[m]) {
        assert m in x - {stage} <==> m in e - {stage};
        if m in x { assert (x - {stage})[m] == (e - {stage})[m]; }
      }
    }
  }

  lemma {:induction false} SafeCompose(t0: seq<Entries>, t1: seq<Entries>, t2: seq<Entries>, before: Entries,
                                       target: string, stage: string, previous: string, installed: Tree, overwrite: bool)
    requires SafeSince(t1, |t0|, before, target, stage, previous, installed, overwrite) && Extends(t1, t0)
    requires SafeSince(t2, |t1|, before, target, stage, previous, installed, overwrite) && Extends(t2, t1)
    ensures SafeSince(t2, |t0|, before, target, stage, previous, installed, overwrite) && Extends(t2, t0)
  {
    hide Safe;
    forall k | |t0| <= k < |t2| ensures Safe(before, t2[k], target, stage, previous, installed, overwrite) {
      if k < |t1| { assert t2[k] == t2[..|t1|][k]; }
    }
    assert t2[..|t0|] == t2[..|t1|][..|t0|];
  }

  lemma NothingYetSafe(trace: seq<Entries>, before: Entries, target: string, stage: string, previous: string,
                       installed: Tree, overwrite: bool)
    ensures SafeSince(trace, |trace|, before, target, stage, previous, installed, overwrite) && Extends(trace, trace)
  {
  }
}
