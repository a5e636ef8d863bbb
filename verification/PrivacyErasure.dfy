/** `forget_me` in app/app.py: staged erasure of one signed-in user's data over five stores that may each fail, under
    a latch, possibly killed between stages; and the other routes that delete conversations. */
module PrivacyErasure {

  type Cid = string

  /** One user's data: long-term memory records, checkpoint threads, listed conversations, other relational rows,
      credential rows, hot-cache slices; and the erasure latch. */
  datatype State = State(
    memory: nat, threads: set<Cid>, listed: set<Cid>, otherRows: nat, credentials: nat, slices: nat, latch: bool)

  /** What happens to one checkpoint thread: deleted and verified; left by an error; deleted, then the check
      fails; left, and the check sees it. */
  datatype ThreadFault = Clean | RaisedBefore | RaisedAfter | Residual

  datatype CredentialFault = Removed | NotRemoved | RemovedThenRaised

  /** What the environment does to one attempt. `killedAfter` is the number of finished stages after which the
      process dies, if that is at most five. */
  datatype Faults = Faults(
    turnRunning: bool, listRaises: bool,
    memoryRaises: bool, memoryLeft: nat, memoryCheckRaises: bool,
    thread: Cid -> ThreadFault,
    relationalRaises: bool, inventoryRaises: bool,
    credential: CredentialFault,
    hotRaises: bool, hotLeft: nat,
    releaseRaises: bool, killedAfter: nat)

  datatype Response = Unauthorized | Busy | InternalError | Partial | Complete | Killed

  /* --- the stages --- */

  function AfterMemory(s: State, f: Faults): (State, bool) {
    if f.memoryRaises then (s, false)
    else
      var left := if f.memoryLeft <= s.memory then f.memoryLeft else s.memory;
      (s.(memory := left), !f.memoryCheckRaises && left == 0)
  }

  /** The threads left after trying to delete those of some conversations; nothing is tried without checkpoints. */
  function LeftThreads(threads: set<Cid>, cids: set<Cid>, fault: Cid -> ThreadFault, enabled: bool): set<Cid> {
    if !enabled then threads
    else set c | c in threads && !(c in cids && fault(c) in {Clean, RaisedAfter})
  }

  function AfterThreads(s: State, f: Faults, enabled: bool): (State, bool) {
    (s.(threads := LeftThreads(s.threads, s.listed, f.thread, enabled)),
     enabled ==> forall c :: c in s.listed ==> f.thread(c) == Clean)
  }

  /** One transaction: everything or nothing. */
  function AfterRelational(s: State, f: Faults): (State, bool) {
    if f.relationalRaises then (s, false) else (s.(listed := {}, otherRows := 0), true)
  }

  function AfterCredentials(s: State, f: Faults): (State, bool) {
    match f.credential
    case Removed => (s.(credentials := 0), true)
    case NotRemoved => (s, false)
    case RemovedThenRaised => (s.(credentials := 0), false)
  }

  function AfterHot(s: State, f: Faults): (State, bool) {
    var left := if f.hotLeft <= s.slices then f.hotLeft else s.slices;
    (s.(slices := left), left == 0)
  }

  /** What follows once memory and threads are verified gone: the rows, the account, the hot slices. */
  function EraseRest(s: State, f: Faults): (State, Response) {
    var (s3, relationalOk) := AfterRelational(s, f);
    if f.killedAfter == 3 then (s3, Killed)
    else if !relationalOk then (s3, Partial)
    else
      var (s4, credentialsOk) := AfterCredentials(s3, f);
      if f.killedAfter == 4 then (s4, Killed)
      else if !credentialsOk then (s4, Partial)
      else if f.hotRaises then (s4, InternalError)
      else
        var (s5, hotOk) := AfterHot(s4, f);
        if f.killedAfter == 5 then (s5, Killed) else (s5, if hotOk then Complete else Partial)
  }

  /** The body under the latch, and the response it builds. */
  function Erase(s: State, f: Faults, enabled: bool): (State, Response) {
    if f.killedAfter == 0 then (s, Killed)
    else if f.listRaises then (s, InternalError)
    else
      var (s1, memoryOk) := AfterMemory(s, f);
      if f.killedAfter == 1 then (s1, Killed)
      else
        var (s2, threadsOk) := AfterThreads(s1, f, enabled);
        if f.killedAfter == 2 then (s2, Killed)
        else if !memoryOk || !threadsOk then (s2, if f.inventoryRaises then InternalError else Partial)
        else EraseRest(s2, f)
  }

  /** A whole attempt: without the account the request is turned away; acquire the latch or be refused; erase; release
      unless the process died. */
  function Attempt(s: State, f: Faults, enabled: bool): (State, Response) {
    if s.credentials == 0 then (s, Unauthorized)
    else if s.latch || f.turnRunning then (s, Busy)
    else
      var (t, r) := Erase(s.(latch := true), f, enabled);
      if r == Killed then (t, Killed)
      else if f.releaseRaises then (t, InternalError)
      else (t.(latch := false), r)
  }

  /* --- whole runs --- */

  /** A turn of the signed-in user, an erasure attempt, or the deletion of one conversation, of one transcript, or of
      all conversations: rows first, then the hot cache, then, whatever becomes of it, the thread. Deletions do not
      look at the latch. */
  datatype Event =
    | Turn(cid: Cid, memory: nat, rows: nat, slices: nat)
    | Forget(faults: Faults)
    | DeleteOne(cid: Cid, rows: nat, slices: nat, busy: bool, thread: Cid -> ThreadFault)
    | ClearOne(cid: Cid, rows: nat, slices: nat, busy: bool, thread: Cid -> ThreadFault)
    | ClearAll(rows: nat, busy: bool, thread: Cid -> ThreadFault)

  function Less(n: nat, gone: nat): nat { if gone <= n then n - gone else 0 }

  function Step(s: State, e: Event, enabled: bool): State {
    match e
    case Turn(cid, memory, rows, slices) =>
      if s.latch || s.credentials == 0 then s
      else s.(memory := s.memory + memory, threads := if enabled then s.threads + {cid} else s.threads,
              listed := s.listed + {cid}, otherRows := s.otherRows + rows, slices := s.slices + slices)
    case Forget(f) => Attempt(s, f, enabled).0
    case DeleteOne(cid, rows, slices, busy, thread) =>
      if s.credentials == 0 || busy || cid !in s.listed then s
      else s.(listed := s.listed - {cid}, otherRows := Less(s.otherRows, rows), slices := Less(s.slices, slices),
              threads := LeftThreads(s.threads, {cid}, thread, enabled))
    case ClearOne(cid, rows, slices, busy, thread) =>
      if s.credentials == 0 || busy || cid !in s.listed then s
      else s.(otherRows := Less(s.otherRows, rows), slices := Less(s.slices, slices),
              threads := LeftThreads(s.threads, {cid}, thread, enabled))
    case ClearAll(rows, busy, thread) =>
      if s.credentials == 0 || busy then s
      else s.(listed := {}, otherRows := Less(s.otherRows, rows), slices := 0,
              threads := LeftThreads(s.threads, s.listed, thread, enabled))
  }

  function Run(s: State, events: seq<Event>, enabled: bool): State {
    if events == [] then s else Step(Run(s, events[..|events| - 1], enabled), events[|events| - 1], enabled)
  }

  /* --- the routes, over their stores --- */

  class Stores {
    var memory: nat
    var threads: set<Cid>
    var listed: set<Cid>
    var otherRows: nat
    var credentials: nat
    var slices: nat
    var latch: bool
    const checkpointsEnabled: bool

    constructor (s: State, enabled: bool)
      ensures Snapshot() == s && checkpointsEnabled == enabled
    {
      memory, threads, listed, otherRows := s.memory, s.threads, s.listed, s.otherRows;
      credentials, slices, latch := s.credentials, s.slices, s.latch;
      checkpointsEnabled := enabled;
    }

    function Snapshot(): State
      reads this
    {
      State(memory, threads, listed, otherRows, credentials, slices, latch)
    }

    /** `_delete_checkpoint_thread` for some conversations. */
    method DropThreads(cids: set<Cid>, fault: Cid -> ThreadFault) returns (ok: bool)
      modifies this`threads
      ensures threads == LeftThreads(old(threads), cids, fault, checkpointsEnabled)
      ensures ok <==> checkpointsEnabled ==> forall c :: c in cids ==> fault(c) == Clean
    {
      ok := true;
      var rest := cids;
      while rest != {} && checkpointsEnabled
        invariant rest <= cids
        invariant checkpointsEnabled ==>
          threads == set c | c in old(threads) && !(c in cids - rest && fault(c) in {Clean, RaisedAfter})
        invariant !checkpointsEnabled ==> threads == old(threads) && ok
        invariant ok <==> forall c :: c in cids - rest && checkpointsEnabled ==> fault(c) == Clean
        decreases rest
      {
        var c :| c in rest;
        rest := rest - {c};
        var left := fault(c);
        if left.Clean? || left.RaisedAfter? { threads := threads - {c}; }
        if !left.Clean? { ok := false; }
      }
      assert checkpointsEnabled ==> cids - rest == cids;
    }

    /** `delete_conversation` */
    method DeleteConversation(cid: Cid, rows: nat, gone: nat, busy: bool, fault: Cid -> ThreadFault)
      modifies this
      ensures Snapshot() == Step(old(Snapshot()), DeleteOne(cid, rows, gone, busy, fault), checkpointsEnabled)
    {
      hide LeftThreads;
      if credentials == 0 || busy || cid !in listed { return; }
      listed, otherRows := listed - {cid}, Less(otherRows, rows);
      slices := Less(slices, gone);
      var ok := DropThreads({cid}, fault);
    }

    /** `clear_history` without a conversation. */
    method ClearHistory(rows: nat, busy: bool, fault: Cid -> ThreadFault)
      modifies this
      ensures Snapshot() == Step(old(Snapshot()), ClearAll(rows, busy, fault), checkpointsEnabled)
    {
      hide LeftThreads;
      if credentials == 0 || busy { return; }
      var cids := listed;
      listed, otherRows := {}, Less(otherRows, rows);
      var ok := DropThreads(cids, fault);
      slices := 0;
    }

    /** `clear_history` of one conversation: its row stays listed. */
    method ClearConversation(cid: Cid, rows: nat, gone: nat, busy: bool, fault: Cid -> ThreadFault)
      modifies this
      ensures Snapshot() == Step(old(Snapshot()), ClearOne(cid, rows, gone, busy, fault), checkpointsEnabled)
    {
      hide LeftThreads;
      if credentials == 0 || busy || cid !in listed { return; }
      otherRows := Less(otherRows, rows);
      slices := Less(slices, gone);
      var ok := DropThreads({cid}, fault);
    }

    /** `forget_me` behind its login gate; a response of `Killed` is a process that never answered. */
    method ForgetMe(f: Faults) returns (r: Response)
      modifies this
      ensures (Snapshot(), r) == Attempt(old(Snapshot()), f, checkpointsEnabled)
    {
      hide AfterThreads;
      if credentials == 0 { return Unauthorized; }
      if latch || f.turnRunning { return Busy; }
      latch := true;
      r := EraseLayers(f);
      if r.Killed? { return; }
      if f.releaseRaises { return InternalError; }
      latch := false;
    }

    method EraseVerified(f: Faults) returns (r: Response)
      modifies this
      ensures (Snapshot(), r) == EraseRest(old(Snapshot()), f)
    {
      if !f.relationalRaises { listed, otherRows := {}, 0; }
      if f.killedAfter == 3 { return Killed; }
      if f.relationalRaises { return Partial; }
      if f.credential != NotRemoved { credentials := 0; }
      if f.killedAfter == 4 { return Killed; }
      if f.credential != Removed { return Partial; }
      if f.hotRaises { return InternalError; }
      if f.hotLeft <= slices { slices := f.hotLeft; }
      if f.killedAfter == 5 { return Killed; }
      return if slices == 0 then Complete else Partial;
    }

    method EraseLayers(f: Faults) returns (r: Response)
      modifies this
      ensures (Snapshot(), r) == Erase(old(Snapshot()), f, checkpointsEnabled)
    {
      hide LeftThreads, EraseRest;
      if f.killedAfter == 0 { return Killed; }
      if f.listRaises { return InternalError; }
      var memoryOk := false;
      if !f.memoryRaises {
        if f.memoryLeft <= memory { memory := f.memoryLeft; }
        memoryOk := !f.memoryCheckRaises && memory == 0;
      }
      if f.killedAfter == 1 { return Killed; }
      var threadsOk := DropThreads(listed, f.thread);
      if f.killedAfter == 2 { return Killed; }
      if !memoryOk || !threadsOk { return if f.inventoryRaises then InternalError else Partial; }
      r := EraseVerified(f);
    }
  }

  /* --- orphans --- */

  /** Every thread left has its conversation still listed. */
  predicate NoOrphans(s: State) {
    s.threads <= s.listed
  }

  predicate MemoryErased(s: State, f: Faults) {
    !f.memoryRaises && !f.memoryCheckRaises && (f.memoryLeft == 0 || s.memory == 0)
  }

  /** The attempt gets as far as deleting the relational rows. */
  predicate DeletesRows(s: State, f: Faults, enabled: bool) {
    && s.credentials > 0 && !s.latch && !f.turnRunning && f.killedAfter >= 3 && !f.listRaises && MemoryErased(s, f)
    && (enabled ==> forall c :: c in s.listed ==> f.thread(c) == Clean)
    && !f.relationalRaises
  }

  /** It gets as far as deleting the account. */
  predicate DeletesAccount(s: State, f: Faults, enabled: bool) {
    DeletesRows(s, f, enabled) && f.killedAfter >= 4 && f.credential != NotRemoved
  }

  /** The event takes a conversation off the list and leaves its thread. */
  predicate Orphans(s: State, e: Event, enabled: bool) {
    match e
    case Turn(_, _, _, _) => false
    case ClearOne(_, _, _, _, _) => false
    case DeleteOne(cid, _, _, busy, thread) =>
      s.credentials > 0 && !busy && cid in s.listed && cid in LeftThreads(s.threads, {cid}, thread, enabled)
    case ClearAll(_, busy, thread) =>
      s.credentials > 0 && !busy && s.listed * LeftThreads(s.threads, s.listed, thread, enabled) != {}
    case Forget(f) => !enabled && DeletesRows(s, f, enabled) && s.listed * s.threads != {}
  }

  lemma NoneLeft(a: set<Cid>, b: set<Cid>)
    ensures a - b == {} <==> a <= b
  {
    assert forall c :: c in a - b <==> c in a && c !in b;
  }

  /** What an attempt leaves that gets as far as deleting the rows. */
  lemma {:induction false} RowsDeleted(s: State, f: Faults, enabled: bool)
    requires s.credentials > 0 && !s.latch && !f.turnRunning
    ensures var t := Attempt(s, f, enabled).0;
            && (DeletesRows(s, f, enabled) ==>
                  t.memory == 0 && t.listed == {} && t.otherRows == 0
                  && t.threads == if enabled then s.threads - s.listed else s.threads)
            && (!DeletesRows(s, f, enabled) ==> t.listed == s.listed && t.threads <= s.threads)
            && t.credentials == if DeletesAccount(s, f, enabled) then 0 else s.credentials
  {
    if DeletesRows(s, f, enabled) && enabled {
      assert LeftThreads(s.threads, s.listed, f.thread, enabled) == s.threads - s.listed;
    }
    hide LeftThreads;
    assert LeftThreads(s.threads, s.listed, f.thread, enabled) <= s.threads by {
      FewerThreads(s.threads, s.listed, f.thread, enabled);
    }
  }

  lemma FewerThreads(threads: set<Cid>, cids: set<Cid>, fault: Cid -> ThreadFault, enabled: bool)
    ensures LeftThreads(threads, cids, fault, enabled) <= threads
  {
  }

  /** An event makes orphans exactly when it deletes a listed conversation whose thread survives. */
  lemma {:induction false} StepOrphansExact(s: State, e: Event, enabled: bool)
    requires NoOrphans(s)
    ensures NoOrphans(Step(s, e, enabled)) <==> !Orphans(s, e, enabled)
  {
    if e.Forget? && s.credentials > 0 && !s.latch && !e.faults.turnRunning {
      RowsDeleted(s, e.faults, enabled);
      hide DeletesRows, Attempt, LeftThreads;
      assert s.threads != {} ==> s.listed * s.threads == s.threads;
    }
  }

  /** No event of the run makes orphans. */
  ghost predicate NeverOrphans(s: State, events: seq<Event>, enabled: bool) {
    forall k :: 0 <= k < |events| ==> !Orphans(Run(s, events[..k], enabled), events[k], enabled)
  }

  /** A property of every state of a run that every event keeps unless it is a bad one holds exactly on the runs
      without bad events; here: no orphans. */
  lemma {:induction false} NoOrphansExact(s: State, events: seq<Event>, enabled: bool)
    requires NoOrphans(s)
    ensures (forall k: nat :: k <= |events| ==> NoOrphans(Run(s, events[..k], enabled))) <==>
            NeverOrphans(s, events, enabled)
  {
    hide Step, Orphans, NoOrphans;
    if NeverOrphans(s, events, enabled) {
      forall k: nat | k <= |events| ensures NoOrphans(Run(s, events[..k], enabled)) {
        OrphanFreePrefix(s, events, k, enabled);
      }
    }
    if forall k: nat :: k <= |events| ==> NoOrphans(Run(s, events[..k], enabled)) {
      forall k | 0 <= k < |events| ensures !Orphans(Run(s, events[..k], enabled), events[k], enabled) {
        assert NoOrphans(Run(s, events[..k], enabled)) && NoOrphans(Run(s, events[..k + 1], enabled));
        RunNext(s, events, k, enabled);
        StepOrphansExact(Run(s, events[..k], enabled), events[k], enabled);
      }
    }
  }

  lemma RunNext(s: State, events: seq<Event>, k: nat, enabled: bool)
    requires k < |events|
    ensures Run(s, events[..k + 1], enabled) == Step(Run(s, events[..k], enabled), events[k], enabled)
  {
    assert events[..k + 1][..k] == events[..k];
  }

  lemma {:induction false} OrphanFreePrefix(s: State, events: seq<Event>, k: nat, enabled: bool)
    requires NoOrphans(s) && NeverOrphans(s, events, enabled) && k <= |events|
    ensures NoOrphans(Run(s, events[..k], enabled))
  {
    hide Step, Orphans, NoOrphans;
    if k > 0 {
      OrphanFreePrefix(s, events, k - 1, enabled);
      RunNext(s, events, k - 1, enabled);
      StepOrphansExact(Run(s, events[..k - 1], enabled), events[k - 1], enabled);
    } else {
      assert Run(s, events[..0], enabled) == s;
    }
  }

  /* --- the account and what it is needed for --- */

  predicate Residue(s: State) {
    s.memory > 0 || s.threads != {} || s.listed != {} || s.otherRows > 0
  }

  /** The account exists while there is anything to come back for. */
  predicate Recoverable(s: State) {
    Residue(s) ==> s.credentials > 0
  }

  /** The event takes the account away over a thread that an erasure no longer finds. */
  predicate Abandons(s: State, e: Event, enabled: bool) {
    e.Forget? && DeletesAccount(s, e.faults, enabled) && if enabled then !NoOrphans(s) else s.threads != {}
  }

  lemma {:induction false} StepRecoverableExact(s: State, e: Event, enabled: bool)
    requires Recoverable(s)
    ensures Recoverable(Step(s, e, enabled)) <==> !Abandons(s, e, enabled)
  {
    if e.Forget? && s.credentials > 0 && !s.latch && !e.faults.turnRunning {
      RowsDeleted(s, e.faults, enabled);
      hide DeletesRows, Attempt, LeftThreads;
      NoneLeft(s.threads, s.listed);
    }
  }

  ghost predicate NeverAbandons(s: State, events: seq<Event>, enabled: bool) {
    forall k :: 0 <= k < |events| ==> !Abandons(Run(s, events[..k], enabled), events[k], enabled)
  }

  /** Erasure ordering: through any number of turns, deletions and attempts with any failures and kills, a checkpoint
      thread still there has its conversation listed if and only if no event deletes a conversation and leaves its
      thread; and, with checkpoints enabled, the account then exists while any memory, checkpoint or relational data
      of it remains. */
  lemma {:induction false} RunKeepsOrder(s: State, events: seq<Event>, enabled: bool)
    requires NoOrphans(s) && Recoverable(s)
    ensures (forall k: nat :: k <= |events| ==> NoOrphans(Run(s, events[..k], enabled))) <==>
            NeverOrphans(s, events, enabled)
    ensures enabled && NeverOrphans(s, events, enabled) ==> Recoverable(Run(s, events, enabled))
  {
    NoOrphansExact(s, events, enabled);
    if enabled && NeverOrphans(s, events, enabled) {
      hide Orphans;
      forall k | 0 <= k < |events| ensures !Abandons(Run(s, events[..k], enabled), events[k], enabled) {
        OrphanFreePrefix(s, events, k, enabled);
      }
      assert events[..|events|] == events;
      RecoverablePrefix(s, events, |events|, enabled);
    }
  }

  lemma {:induction false} RecoverablePrefix(s: State, events: seq<Event>, k: nat, enabled: bool)
    requires Recoverable(s) && NeverAbandons(s, events, enabled) && k <= |events|
    ensures Recoverable(Run(s, events[..k], enabled))
  {
    hide Step, Abandons, Recoverable;
    if k > 0 {
      RecoverablePrefix(s, events, k - 1, enabled);
      RunNext(s, events, k - 1, enabled);
      StepRecoverableExact(Run(s, events[..k - 1], enabled), events[k - 1], enabled);
    } else {
      assert Run(s, events[..0], enabled) == s;
    }
  }

  /** In every state of a run the account outlives the data if and only if no attempt takes it away over a thread that
      erasure no longer finds. */
  lemma {:induction false} AccountOutlivesData(s: State, events: seq<Event>, enabled: bool)
    requires Recoverable(s)
    ensures (forall k: nat :: k <= |events| ==> Recoverable(Run(s, events[..k], enabled))) <==>
            NeverAbandons(s, events, enabled)
  {
    hide Step, Abandons, Recoverable;
    if NeverAbandons(s, events, enabled) {
      forall k: nat | k <= |events| ensures Recoverable(Run(s, events[..k], enabled)) {
        RecoverablePrefix(s, events, k, enabled);
      }
    }
    if forall k: nat :: k <= |events| ==> Recoverable(Run(s, events[..k], enabled)) {
      forall k | 0 <= k < |events| ensures !Abandons(Run(s, events[..k], enabled), events[k], enabled) {
        assert Recoverable(Run(s, events[..k], enabled)) && Recoverable(Run(s, events[..k + 1], enabled));
        RunNext(s, events, k, enabled);
        StepRecoverableExact(Run(s, events[..k], enabled), events[k], enabled);
      }
    }
  }

  /* --- what an answer means --- */

  /** An attempt that answers `forgotten: true` leaves four stores empty, and the checkpoints empty if and only if,
      with checkpoints enabled, every thread had its conversation listed, or, without, there was none. */
  lemma {:induction false} ForgottenMeansEmpty(s: State, f: Faults, enabled: bool)
    requires Attempt(s, f, enabled).1 == Complete
    ensures var t := Attempt(s, f, enabled).0;
            && t.memory == 0 && t.listed == {} && t.otherRows == 0 && t.credentials == 0 && t.slices == 0
            && (t.threads == {} <==> if enabled then s.threads <= s.listed else s.threads == {})
  {
    RowsDeleted(s, f, enabled);
    assert DeletesAccount(s, f, enabled);
    hide Attempt, DeletesRows;
    NoneLeft(s.threads, s.listed);
  }

  const NO_FAULTS := Faults(false, false, false, 0, false, c => Clean, false, false, Removed, false, 0, false, 6)

  /** With checkpointing switched off, an old thread survives an attempt that answers `forgotten: true`. */
  lemma DisabledCheckpointsLeaveThreads()
    ensures var s := State(1, {"c"}, {"c"}, 3, 1, 1, false);
            Attempt(s, NO_FAULTS, false) == (State(0, {"c"}, {}, 0, 0, 0, false), Complete)
  {
  }

  function DeletionFails(): Cid -> ThreadFault { c => RaisedBefore }

  /** With checkpointing on, so does the thread of a conversation deleted before, if deleting it had failed. */
  lemma DeletedConversationLeavesThread()
    ensures var s := State(1, {"c"}, {"c"}, 3, 1, 1, false);
            var t := Run(s, [DeleteOne("c", 3, 1, false, DeletionFails())], true);
            Attempt(t, NO_FAULTS, true) == (State(0, {"c"}, {}, 0, 0, 0, false), Complete)
  {
    var s := State(1, {"c"}, {"c"}, 3, 1, 1, false);
    var delete := DeleteOne("c", 3, 1, false, DeletionFails());
    RunNext(s, [delete], 0, true);
    assert [delete][..1] == [delete] && Run(s, [delete][..0], true) == s;
    var t := Step(s, delete, true);
    assert t == State(1, {"c"}, {}, 0, 1, 0, false);
    CleanRetryExact(t, true);
    assert t.threads - t.listed == {"c"};
  }

  /** An attempt holds the latch afterwards exactly when it took it and died or could not release it, or when it
      never had it. */
  lemma LatchReleased(s: State, f: Faults, enabled: bool)
    ensures var (t, r) := Attempt(s, f, enabled);
            var acquired := s.credentials > 0 && !s.latch && !f.turnRunning;
            && (acquired <==> r !in {Busy, Unauthorized})
            && (!acquired ==> t == s)
            && (acquired ==> (t.latch <==> r == Killed || f.releaseRaises))
  {
  }

  /** A latch left by a killed attempt is never released: no turn is accepted, every attempt is refused, and what
      only an attempt erases stays. */
  lemma {:induction false} LeftLatchIsForever(s: State, events: seq<Event>, enabled: bool)
    requires s.latch
    ensures var t := Run(s, events, enabled);
            && t.latch && t.memory == s.memory && t.credentials == s.credentials
            && t.listed <= s.listed && t.threads <= s.threads
    ensures forall f :: Attempt(Run(s, events, enabled), f, enabled).1 in {Busy, Unauthorized}
  {
    if events != [] {
      LeftLatchIsForever(s, events[..|events| - 1], enabled);
    }
  }

  /* --- the retry --- */

  /** Without the account nothing changes any more, and every attempt is turned away. */
  lemma {:induction false} GoneAccountIsForever(s: State, events: seq<Event>, enabled: bool)
    requires s.credentials == 0
    ensures Run(s, events, enabled) == s
    ensures forall f :: Attempt(s, f, enabled) == (s, Unauthorized)
  {
    if events != [] {
      GoneAccountIsForever(s, events[..|events| - 1], enabled);
    }
  }

  /** An attempt ends without the account and with hot-cache slices exactly when it dies or fails between the two. */
  lemma {:induction false} StrandedExactly(s: State, f: Faults, enabled: bool)
    requires s.credentials > 0
    ensures var t := Attempt(s, f, enabled).0;
            t.credentials == 0 && t.slices > 0 <==>
              && DeletesAccount(s, f, enabled) && s.slices > 0
              && (f.killedAfter == 4 || f.credential == RemovedThenRaised || f.hotRaises || f.hotLeft > 0)
  {
    if !s.latch && !f.turnRunning { RowsDeleted(s, f, enabled); }
    hide LeftThreads;
  }

  /** It happens: the hot cache fails after the account is gone, the answer asks for a retry, and no retry is ever let
      in again. */
  lemma {:induction false} StrandedSlices(events: seq<Event>)
    ensures var s := State(1, {"c"}, {"c"}, 3, 1, 1, false);
            var t := State(0, {}, {}, 0, 0, 1, false);
            && Attempt(s, NO_FAULTS.(hotRaises := true), true) == (t, InternalError)
            && Attempt(s, NO_FAULTS.(hotLeft := 1), true) == (t, Partial)
            && Run(t, events, true) == t && Attempt(t, NO_FAULTS, true) == (t, Unauthorized)
  {
    var s := State(1, {"c"}, {"c"}, 3, 1, 1, false);
    var t := State(0, {}, {}, 0, 0, 1, false);
    GoneAccountIsForever(t, events, true);
    RowsDeleted(s, NO_FAULTS.(hotRaises := true), true);
    RowsDeleted(s, NO_FAULTS.(hotLeft := 1), true);
    assert s.threads - s.listed == {};
  }

  /** A retry without failures completes if and only if the latch is free and the account still exists. */
  lemma {:induction false} CleanRetryExact(s: State, enabled: bool)
    ensures Attempt(s, NO_FAULTS, enabled).1 == Complete <==> !s.latch && s.credentials > 0
    ensures !s.latch && s.credentials > 0 ==>
              Attempt(s, NO_FAULTS, enabled).0 ==
              State(0, if enabled then s.threads - s.listed else s.threads, {}, 0, 0, 0, false)
  {
    if !s.latch && s.credentials > 0 { RowsDeleted(s, NO_FAULTS, enabled); }
  }

  /** A retry after any run that makes no orphans leaves nothing if and only if the latch is free and the account
      still exists; where the account is gone, nothing but hot-cache slices can be left. */
  lemma {:induction false} CleanRetryCompletes(s: State, events: seq<Event>)
    requires NoOrphans(s) && Recoverable(s) && NeverOrphans(s, events, true)
    ensures var t := Run(s, events, true);
            && (Attempt(t, NO_FAULTS, true) == (State(0, {}, {}, 0, 0, 0, false), Complete) <==> !t.latch && t.credentials > 0)
            && (t.credentials == 0 ==> !Residue(t))
  {
    hide NeverOrphans, Attempt;
    RunKeepsOrder(s, events, true);
    OrphanFreePrefix(s, events, |events|, true);
    assert events[..|events|] == events;
    CleanRetryExact(Run(s, events, true), true);
    NoneLeft(Run(s, events, true).threads, Run(s, events, true).listed);
  }

  /* --- what every event does to every store --- */

  function Least(a: nat, b: nat): nat { if b < a then b else a }

  /** The route runs at all, reaches the stages, has memory and threads verified gone, has the rows deleted. */
  ghost predicate Runs(s: State, f: Faults) { s.credentials > 0 && !s.latch && !f.turnRunning }

  ghost predicate Reaches(s: State, f: Faults, stage: nat) { Runs(s, f) && !f.listRaises && f.killedAfter >= stage }

  ghost predicate Verified(s: State, f: Faults, enabled: bool) {
    && !f.memoryRaises && !f.memoryCheckRaises && Least(f.memoryLeft, s.memory) == 0
    && (enabled ==> forall c :: c in s.listed ==> f.thread(c) == Clean)
  }

  /** An attempt store by store: what each stage deletes, given that the stages before it let it. */
  lemma {:induction false} AttemptStores(s: State, f: Faults, enabled: bool)
    ensures var t := Attempt(s, f, enabled).0;
            var rows := Reaches(s, f, 3) && Verified(s, f, enabled) && !f.relationalRaises;
            && t.memory == (if Reaches(s, f, 1) && !f.memoryRaises then Least(f.memoryLeft, s.memory) else s.memory)
            && (forall c :: c in t.threads <==>
                  c in s.threads && !(Reaches(s, f, 2) && enabled && c in s.listed && f.thread(c) in {Clean, RaisedAfter}))
            && t.listed == (if rows then {} else s.listed)
            && t.otherRows == (if rows then 0 else s.otherRows)
            && t.credentials == (if rows && Reaches(s, f, 4) && f.credential != NotRemoved then 0 else s.credentials)
            && t.slices == (if rows && Reaches(s, f, 5) && f.credential == Removed && !f.hotRaises
                            then Least(f.hotLeft, s.slices) else s.slices)
  {
    if Runs(s, f) { EraseStores(s.(latch := true), f, enabled); }
    hide Erase, LeftThreads;
  }

  lemma EraseStores(s: State, f: Faults, enabled: bool)
    requires s.latch
    ensures var t := Erase(s, f, enabled).0;
            var rows := !f.listRaises && f.killedAfter >= 3 && Verified(s, f, enabled) && !f.relationalRaises;
            && t.memory == (if !f.listRaises && f.killedAfter >= 1 && !f.memoryRaises then Least(f.memoryLeft, s.memory)
                            else s.memory)
            && (forall c :: c in t.threads <==>
                  c in s.threads && !(!f.listRaises && f.killedAfter >= 2 && enabled && c in s.listed
                                      && f.thread(c) in {Clean, RaisedAfter}))
            && t.listed == (if rows then {} else s.listed)
            && t.otherRows == (if rows then 0 else s.otherRows)
            && t.credentials == (if rows && f.killedAfter >= 4 && f.credential != NotRemoved then 0 else s.credentials)
            && t.slices == (if rows && f.killedAfter >= 5 && f.credential == Removed && !f.hotRaises
                            then Least(f.hotLeft, s.slices) else s.slices)
  {
    if !f.listRaises && f.killedAfter >= 2 {
      RestStores(AfterThreads(AfterMemory(s, f).0, f, enabled).0, f);
      hide EraseRest;
    }
  }

  lemma RestStores(s: State, f: Faults)
    requires f.killedAfter >= 2
    ensures var t := EraseRest(s, f).0;
            && t.memory == s.memory && t.threads == s.threads && t.latch == s.latch
            && t.listed == (if f.relationalRaises then s.listed else {})
            && t.otherRows == (if f.relationalRaises then s.otherRows else 0)
            && (f.killedAfter >= 3 ==>
                  t.credentials == if !f.relationalRaises && f.killedAfter >= 4 && f.credential != NotRemoved then 0
                                   else s.credentials)
            && (f.killedAfter >= 3 ==>
                  t.slices == if !f.relationalRaises && f.killedAfter >= 5 && f.credential == Removed && !f.hotRaises
                              then Least(f.hotLeft, s.slices) else s.slices)
  {
  }

  /** What an attempt answers. */
  lemma {:induction false} AttemptAnswers(s: State, f: Faults, enabled: bool)
    ensures var r := Attempt(s, f, enabled).1;
            var rows := Reaches(s, f, 3) && Verified(s, f, enabled) && !f.relationalRaises;
            var account := rows && Reaches(s, f, 4) && f.credential == Removed;
            && (r == Unauthorized <==> s.credentials == 0)
            && (r == Busy <==> s.credentials > 0 && (s.latch || f.turnRunning))
            && (r == Killed <==>
                  && Runs(s, f)
                  && (|| f.killedAfter == 0
                      || (Reaches(s, f, 1) && f.killedAfter <= 2)
                      || (Reaches(s, f, 3) && f.killedAfter == 3 && Verified(s, f, enabled))
                      || (rows && f.killedAfter == 4) || (account && f.killedAfter == 5 && !f.hotRaises)))
            && (r == Complete <==>
                  account && f.killedAfter >= 6 && !f.hotRaises && Least(f.hotLeft, s.slices) == 0 && !f.releaseRaises)
            && (r == Partial ==>
                  Reaches(s, f, 3) && !f.releaseRaises && (Verified(s, f, enabled) || !f.inventoryRaises))
            && (r == InternalError && !f.releaseRaises <==>
                  && Runs(s, f) && f.killedAfter > 0 && !f.releaseRaises
                  && (f.listRaises || (Reaches(s, f, 3) && !Verified(s, f, enabled) && f.inventoryRaises)
                      || (account && f.killedAfter >= 5 && f.hotRaises)))
  {
    hide LeftThreads;
  }

  /** Turns and deletions by other routes, store by store; every event needs the account, a turn also the free latch. */
  lemma {:induction false} OtherEventsExact(s: State, cid: Cid, n: nat, rows: nat, slices: nat, busy: bool,
                                            thread: Cid -> ThreadFault, enabled: bool)
    ensures var t := Step(s, Turn(cid, n, rows, slices), enabled);
            if s.credentials == 0 || s.latch then t == s
            else t == State(s.memory + n, if enabled then s.threads + {cid} else s.threads, s.listed + {cid},
                            s.otherRows + rows, s.credentials, s.slices + slices, false)
    ensures var t := Step(s, DeleteOne(cid, rows, slices, busy, thread), enabled);
            if s.credentials == 0 || busy || cid !in s.listed then t == s
            else && t.listed == s.listed - {cid} && OneLess(s, t, cid, rows, slices, thread, enabled)
    ensures var t := Step(s, ClearOne(cid, rows, slices, busy, thread), enabled);
            if s.credentials == 0 || busy || cid !in s.listed then t == s
            else && t.listed == s.listed && OneLess(s, t, cid, rows, slices, thread, enabled)
    ensures var t := Step(s, ClearAll(rows, busy, thread), enabled);
            if s.credentials == 0 || busy then t == s
            else && t.listed == {} && t.slices == 0 && t.otherRows == (if s.otherRows > rows then s.otherRows - rows else 0)
                 && t.memory == s.memory && t.credentials == s.credentials && t.latch == s.latch
                 && forall c :: c in t.threads <==>
                      c in s.threads && !(enabled && c in s.listed && thread(c) in {Clean, RaisedAfter})
  {
  }

  /** One conversation's rows and slices are gone, and its thread if checkpoints are on and deleting it got that far. */
  ghost predicate OneLess(s: State, t: State, cid: Cid, rows: nat, slices: nat, thread: Cid -> ThreadFault, enabled: bool) {
    && t.otherRows == (if s.otherRows > rows then s.otherRows - rows else 0)
    && t.slices == (if s.slices > slices then s.slices - slices else 0)
    && t.memory == s.memory && t.credentials == s.credentials && t.latch == s.latch
    && t.threads == if enabled && thread(cid) in {Clean, RaisedAfter} then s.threads - {cid} else s.threads
  }
}
