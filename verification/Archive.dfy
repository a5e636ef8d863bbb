/** The archive side of deploy/runtime_backup.py: writing a staged tree as a member list and extracting an
    arbitrary member list into a fresh directory under limits. */
module Archive {
  import opened Wrappers
  import opened PathNames
  import opened Trees

  datatype Kind = DirectoryMember | RegularMember | OtherMember

  /** One tar member: its header, and the bytes the stream still holds for it. */
  datatype Member = Member(name: string, kind: Kind, size: int, data: Bytes, mode: nat)

  datatype Limits = Limits(maxBytes: nat, maxMembers: nat)

  datatype ExtractError =
    | TooManyMembers | UnsafeName | DuplicateMember | UnsupportedType
    | InvalidSize | TooLarge | FileSystemError | Truncated

  /** What `_safe_extract` has built so far: the tree below the destination and its local variables. */
  datatype Extraction = Extraction(tree: Tree, modes: map<Path, nat>, seen: set<Path>, total: int)

  const EMPTY := Extraction(map[], map[], {}, 0)
  const MODE_BITS: nat := 4096 // one past 0o7777

  /* --- writing --- */

  function MemberOf(p: Path, n: Node): Member {
    match n
    case Dir(mode) => Member(Join(p), DirectoryMember, 0, [], mode)
    case File(content, mode) => Member(Join(p), RegularMember, |content|, content, mode)
  }

  ghost predicate Lists(paths: seq<Path>, t: Tree) {
    forall i :: 0 <= i < |paths| ==> paths[i] in t
  }

  ghost function MembersOf(t: Tree, paths: seq<Path>): seq<Member>
    requires Lists(paths, t)
  {
    seq(|paths|, i requires 0 <= i < |paths| => MemberOf(paths[i], t[paths[i]]))
  }

  /** The members `_write_tar` adds for a staged tree. */
  ghost function TarOf(t: Tree): seq<Member> {
    ListingLists(t);
    MembersOf(t, Listing(t.Keys))
  }

  lemma ListingLists(t: Tree)
    ensures Lists(Listing(t.Keys), t)
  {
    var paths := Listing(t.Keys);
    forall i | 0 <= i < |paths| ensures paths[i] in t { assert paths[i] in paths; }
  }

  method WriteTar(staging: Tree) returns (archive: seq<Member>)
    ensures archive == TarOf(staging)
  {
    hide IsListing, Listing;
    var paths := SortedPaths(staging.Keys);
    ListingLists(staging);
    archive := [];
    for i := 0 to |paths|
      invariant archive == MembersOf(staging, paths)[..i]
    {
      archive := archive + [MemberOf(paths[i], staging[paths[i]])];
    }
  }

  /* --- extracting --- */

  function Ancestors(p: Path): set<Path> {
    set i | 1 <= i < |p| :: p[..i]
  }

  lemma AncestorsExact(a: Path, p: Path)
    ensures a in Ancestors(p) <==> IsAncestor(a, p)
  {
    if IsAncestor(a, p) { assert a == p[..|a|]; }
  }

  /** `path.parent.mkdir(parents=True, exist_ok=True)`: fails where an ancestor is a file. */
  function MakeParents(t: Tree, p: Path, implicitMode: nat): Option<Tree> {
    if exists a :: a in Ancestors(p) && a in t && t[a].File? then None
    else Some(map q | q in t.Keys + Ancestors(p) :: if q in t then t[q] else Dir(implicitMode))
  }

  function NodeFor(m: Member): Node
    requires m.kind.RegularMember? ==> 0 <= m.size <= |m.data|
  {
    if m.kind.RegularMember? then File(m.data[..m.size], OWNER_FILE) else Dir(OWNER_DIR)
  }

  function ExtractMember(st: Extraction, index: nat, m: Member, limits: Limits, implicitMode: nat)
    : Result<Extraction, ExtractError>
  {
    if index > limits.maxMembers then Failure(TooManyMembers)
    else match SafeMemberName(m.name)
      case None => Failure(UnsafeName)
      case Some(p) =>
        if p in st.seen then Failure(DuplicateMember)
        else if m.kind.OtherMember? then Failure(UnsupportedType)
        else if m.size < 0 then Failure(InvalidSize)
        else if st.total + m.size > limits.maxBytes then Failure(TooLarge)
        else match MakeParents(st.tree, p, implicitMode)
          case None => Failure(FileSystemError)
          case Some(tree) =>
            if p in tree then Failure(FileSystemError)
            else if m.kind.RegularMember? && |m.data| < m.size then Failure(Truncated)
            else Success(Extraction(tree[p := NodeFor(m)], st.modes[p := m.mode % MODE_BITS], st.seen + {p},
                                    st.total + m.size))
  }

  /** The state after the first `k` members. */
  function ExtractPrefix(members: seq<Member>, k: nat, limits: Limits, implicitMode: nat)
    : Result<Extraction, ExtractError>
    requires k <= |members|
  {
    if k == 0 then Success(EMPTY)
    else match ExtractPrefix(members, k - 1, limits, implicitMode)
      case Failure(e) => Failure(e)
      case Success(st) => ExtractMember(st, k, members[k - 1], limits, implicitMode)
  }

  function Extract(members: seq<Member>, limits: Limits, implicitMode: nat): Result<Extraction, ExtractError> {
    ExtractPrefix(members, |members|, limits, implicitMode)
  }

  lemma {:induction false} FailureSticks(members: seq<Member>, k: nat, n: nat, limits: Limits, implicitMode: nat)
    requires k <= n <= |members|
    requires ExtractPrefix(members, k, limits, implicitMode).Failure?
    ensures ExtractPrefix(members, n, limits, implicitMode) == ExtractPrefix(members, k, limits, implicitMode)
  {
    if k < n {
      FailureSticks(members, k, n - 1, limits, implicitMode);
    }
  }

  /** `_safe_extract`: the member loop over its local variables and the destination. */
  method SafeExtract(members: seq<Member>, limits: Limits, implicitMode: nat)
    returns (r: Result<Extraction, ExtractError>)
    ensures r == Extract(members, limits, implicitMode)
  {
    hide SafeMemberName, MakeParents;
    var tree: Tree := map[];
    var modes: map<Path, nat> := map[];
    var seen: set<Path> := {};
    var total := 0;
    for i := 0 to |members|
      invariant ExtractPrefix(members, i, limits, implicitMode) == Success(Extraction(tree, modes, seen, total))
    {
      var m := members[i];
      ghost var step := ExtractPrefix(members, i + 1, limits, implicitMode);
      assert step == ExtractMember(Extraction(tree, modes, seen, total), i + 1, m, limits, implicitMode);
      if step.Failure? {
        FailureSticks(members, i + 1, |members|, limits, implicitMode);
      }
      if i + 1 > limits.maxMembers { return Failure(TooManyMembers); }
      var name := SafeMemberName(m.name);
      if name.None? { return Failure(UnsafeName); }
      var p := name.value;
      if p in seen { return Failure(DuplicateMember); }
      if m.kind.OtherMember? { return Failure(UnsupportedType); }
      if m.size < 0 { return Failure(InvalidSize); }
      if total + m.size > limits.maxBytes { return Failure(TooLarge); }
      var parents := MakeParents(tree, p, implicitMode);
      if parents.None? || p in parents.value { return Failure(FileSystemError); }
      if m.kind.RegularMember? && |m.data| < m.size { return Failure(Truncated); }
      tree := parents.value[p := NodeFor(m)];
      modes := modes[p := m.mode % MODE_BITS];
      seen, total := seen + {p}, total + m.size;
    }
    r := Success(Extraction(tree, modes, seen, total));
  }

  /* --- what an accepted archive is, and what it leaves behind --- */

  function PathOf(m: Member): Path {
    var p := SafeMemberName(m.name);
    if p.Some? then p.value else []
  }

  function TotalSize(members: seq<Member>): int {
    if members == [] then 0 else TotalSize(members[..|members| - 1]) + members[|members| - 1].size
  }

  predicate MemberAcceptable(m: Member) {
    && SafeMemberName(m.name).Some?
    && !m.kind.OtherMember?
    && m.size >= 0
    && (m.kind.RegularMember? ==> m.size <= |m.data|)
  }

  /** The later member does not collide with what the earlier one created. */
  predicate Compatible(earlier: Member, later: Member) {
    && PathOf(earlier) != PathOf(later)
    && !IsAncestor(PathOf(later), PathOf(earlier))
    && (earlier.kind.RegularMember? ==> !IsAncestor(PathOf(earlier), PathOf(later)))
  }

  predicate Acceptable(members: seq<Member>, limits: Limits) {
    && |members| <= limits.maxMembers
    && (forall i :: 0 <= i < |members| ==> MemberAcceptable(members[i]))
    && (forall i, j :: 0 <= i < j < |members| ==> Compatible(members[i], members[j]))
    && TotalSize(members) <= limits.maxBytes
  }

  /** The tree holds every member where its name says, exactly as sent, and nothing else but the directories
      those names imply. */
  ghost predicate HoldsExactly(tree: Tree, members: seq<Member>) {
    && WellFormed(tree)
    && (forall i :: 0 <= i < |members| ==>
          MemberAcceptable(members[i]) && PathOf(members[i]) in tree
          && tree[PathOf(members[i])] == NodeFor(members[i]))
    && (forall p :: p in tree ==> AllSafe(p) && Accounted(p, tree[p], members))
  }

  ghost predicate Accounted(p: Path, n: Node, members: seq<Member>) {
    || (exists i :: 0 <= i < |members| && PathOf(members[i]) == p)
    || (n.Dir? && exists i :: 0 <= i < |members| && IsAncestor(p, PathOf(members[i])))
  }

  ghost predicate Recorded(st: Extraction, members: seq<Member>) {
    && (forall p :: p in st.seen <==> exists i :: 0 <= i < |members| && PathOf(members[i]) == p)
    && st.modes.Keys == st.seen
    && (forall i :: 0 <= i < |members| ==>
          PathOf(members[i]) in st.modes && st.modes[PathOf(members[i])] == members[i].mode % MODE_BITS)
    && st.total == TotalSize(members)
  }

  lemma {:induction false} TotalSizeMonotone(members: seq<Member>, k: nat)
    requires k <= |members| && forall i :: 0 <= i < |members| ==> members[i].size >= 0
    ensures 0 <= TotalSize(members[..k]) <= TotalSize(members)
    decreases |members|
  {
    if members != [] {
      if k == |members| {
        assert members[..k] == members;
        TotalSizeMonotone(members[..|members| - 1], |members| - 1);
        assert members[..|members| - 1][..|members| - 1] == members[..|members| - 1];
      } else {
        assert members[..|members| - 1][..k] == members[..k];
        TotalSizeMonotone(members[..|members| - 1], k);
      }
    } else {
      assert members[..k] == [];
    }
  }

  lemma {:induction false} MakeParentsWellFormed(t: Tree, p: Path, implicitMode: nat)
    requires WellFormed(t) && p != [] && AllNames(p) && MakeParents(t, p, implicitMode).Some?
    ensures var r := MakeParents(t, p, implicitMode).value;
            && r.Keys == t.Keys + Ancestors(p)
            && (forall q :: q in r ==> if q in t then r[q] == t[q] else r[q].Dir?)
            && WellFormed(r) && (|p| > 1 ==> Parent(p) in r && r[Parent(p)].Dir?)
  {
    var r := MakeParents(t, p, implicitMode).value;
    forall q | q in r
      ensures q != [] && AllNames(q) && (|q| > 1 ==> Parent(q) in r && r[Parent(q)].Dir?)
    {
      if q in Ancestors(p) {
        AncestorsExact(q, p);
        if |q| > 1 {
          assert p[..|q| - 1] == p[..|q|][..|q| - 1];
          AncestorsExact(Parent(q), p);
        }
      }
    }
    if |p| > 1 { AncestorsExact(Parent(p), p); }
  }

  ghost predicate StepAllowed(members: seq<Member>, m: Member, limits: Limits) {
    && |members| + 1 <= limits.maxMembers
    && MemberAcceptable(m)
    && (forall i :: 0 <= i < |members| ==> Compatible(members[i], m))
    && TotalSize(members) + m.size <= limits.maxBytes
  }

  /** One accepted member extends what the extraction holds, and is accepted exactly when it is acceptable,
      within the limits and compatible with the members before it. */
  lemma {:induction false} StepExact(st: Extraction, members: seq<Member>, m: Member, limits: Limits, implicitMode: nat)
    requires HoldsExactly(st.tree, members) && Recorded(st, members)
    ensures var r := ExtractMember(st, |members| + 1, m, limits, implicitMode);
            && (r.Success? <==> StepAllowed(members, m, limits))
            && (r.Success? ==> HoldsExactly(r.value.tree, members + [m]) && Recorded(r.value, members + [m]))
  {
    hide SafeMemberName, HoldsExactly, MakeParents, IsAncestor, Recorded;
    var p := PathOf(m);
    RecordedTotal(st, members);
    RecordedSeen(st, members, p);
    if MemberAcceptable(m) {
      ParentsExact(st.tree, members, p, implicitMode);
      if MakeParents(st.tree, p, implicitMode).Some? {
        PlacesExact(st.tree, members, m, implicitMode);
        if p !in st.seen && p !in MakeParents(st.tree, p, implicitMode).value {
          StepHolds(st.tree, members, m, implicitMode);
          StepRecorded(st, members, m, MakeParents(st.tree, p, implicitMode).value[p := NodeFor(m)]);
        }
      }
    }
  }

  lemma RecordedTotal(st: Extraction, members: seq<Member>)
    requires Recorded(st, members)
    ensures st.total == TotalSize(members)
  {
  }

  lemma RecordedSeen(st: Extraction, members: seq<Member>, p: Path)
    requires Recorded(st, members)
    ensures p in st.seen <==> exists i :: 0 <= i < |members| && PathOf(members[i]) == p
  {
  }

  lemma {:induction false} StepRecorded(st: Extraction, members: seq<Member>, m: Member, t: Tree)
    requires Recorded(st, members) && PathOf(m) !in st.seen
    ensures Recorded(Extraction(t, st.modes[PathOf(m) := m.mode % MODE_BITS], st.seen + {PathOf(m)},
                                st.total + m.size), members + [m])
  {
    hide PathOf;
    var p, all := PathOf(m), members + [m];
    var seen, modes := st.seen + {p}, st.modes[p := m.mode % MODE_BITS];
    assert all[..|all| - 1] == members && all[|members|] == m;
    forall q ensures q in seen <==> exists i :: 0 <= i < |all| && PathOf(all[i]) == q {
      if q in st.seen {
        var i :| 0 <= i < |members| && PathOf(members[i]) == q;
        assert all[i] == members[i];
      }
    }
    forall i | 0 <= i < |all| ensures PathOf(all[i]) in modes && modes[PathOf(all[i])] == all[i].mode % MODE_BITS {
      assert i < |members| ==> all[i] == members[i] && PathOf(members[i]) in st.modes;
    }
  }

  lemma {:induction false} ParentsExact(t: Tree, members: seq<Member>, p: Path, implicitMode: nat)
    requires HoldsExactly(t, members)
    ensures MakeParents(t, p, implicitMode).Some? <==>
            forall i :: 0 <= i < |members| && members[i].kind.RegularMember? ==> !IsAncestor(PathOf(members[i]), p)
  {
    if i :| 0 <= i < |members| && members[i].kind.RegularMember? && IsAncestor(PathOf(members[i]), p) {
      AncestorsExact(PathOf(members[i]), p);
    }
    if a :| a in Ancestors(p) && a in t && t[a].File? {
      AncestorsExact(a, p);
      assert Accounted(a, t[a], members);
      var i :| 0 <= i < |members| && PathOf(members[i]) == a;
      assert t[PathOf(members[i])] == NodeFor(members[i]);
    }
  }

  lemma {:induction false} PlacesExact(t: Tree, members: seq<Member>, m: Member, implicitMode: nat)
    requires HoldsExactly(t, members) && MemberAcceptable(m)
    requires MakeParents(t, PathOf(m), implicitMode).Some?
    ensures PathOf(m) !in MakeParents(t, PathOf(m), implicitMode).value <==>
            forall i :: 0 <= i < |members| ==>
              PathOf(members[i]) != PathOf(m) && !IsAncestor(PathOf(m), PathOf(members[i]))
  {
    var p := PathOf(m);
    AncestorsExact(p, p);
    if p in t {
      assert Accounted(p, t[p], members);
    }
    if i :| 0 <= i < |members| && IsAncestor(p, PathOf(members[i])) {
      SafeMemberNameExact(m.name, p);
      AncestorsPresent(t, p, PathOf(members[i]));
    }
  }

  lemma {:induction false} StepAccounted(t: Tree, members: seq<Member>, m: Member, implicitMode: nat, q: Path)
    requires HoldsExactly(t, members) && MemberAcceptable(m) && SafeMemberName(m.name) == Some(PathOf(m))
    requires MakeParents(t, PathOf(m), implicitMode).Some?
    requires q in MakeParents(t, PathOf(m), implicitMode).value && q != PathOf(m)
    ensures AllSafe(q) && Accounted(q, MakeParents(t, PathOf(m), implicitMode).value[q], members + [m])
  {
    hide SafeMemberName, MakeParents, IsAncestor, WellFormed, MemberAcceptable;
    var all := members + [m];
    SafeMemberNameExact(m.name, PathOf(m));
    MakeParentsWellFormed(t, PathOf(m), implicitMode);
    assert all[|members|] == m;
    assert forall i :: 0 <= i < |members| ==> all[i] == members[i];
    if q in t {
      assert Accounted(q, t[q], members);
    } else {
      AncestorsExact(q, PathOf(m));
    }
  }

  lemma {:induction false} StepKeeps(t: Tree, members: seq<Member>, m: Member, implicitMode: nat)
    requires HoldsExactly(t, members) && MemberAcceptable(m) && SafeMemberName(m.name) == Some(PathOf(m))
    requires MakeParents(t, PathOf(m), implicitMode).Some?
    requires PathOf(m) !in MakeParents(t, PathOf(m), implicitMode).value
    ensures var r := MakeParents(t, PathOf(m), implicitMode).value[PathOf(m) := NodeFor(m)];
            && WellFormed(r)
            && forall i :: 0 <= i < |members| ==> PathOf(members[i]) in r && r[PathOf(members[i])] == NodeFor(members[i])
  {
    hide SafeMemberName, MakeParents, IsAncestor, Accounted;
    SafeMemberNameExact(m.name, PathOf(m));
    MakeParentsWellFormed(t, PathOf(m), implicitMode);
  }

  lemma {:induction false} StepHolds(t: Tree, members: seq<Member>, m: Member, implicitMode: nat)
    requires HoldsExactly(t, members) && MemberAcceptable(m) && SafeMemberName(m.name) == Some(PathOf(m))
    requires MakeParents(t, PathOf(m), implicitMode).Some?
    requires PathOf(m) !in MakeParents(t, PathOf(m), implicitMode).value
    ensures HoldsExactly(MakeParents(t, PathOf(m), implicitMode).value[PathOf(m) := NodeFor(m)], members + [m])
  {
    var p, all := PathOf(m), members + [m];
    hide SafeMemberName, MakeParents, WellFormed, PathOf, NodeFor, Accounted;
    var r := MakeParents(t, p, implicitMode).value[p := NodeFor(m)];
    StepKeeps(t, members, m, implicitMode);
    SafeMemberNameExact(m.name, p);
    assert all[|members|] == m;
    assert forall i :: 0 <= i < |members| ==> all[i] == members[i];
    assert Accounted(p, r[p], all) by { PlacedAccounted(all, |members|, r[p]); }
    forall q | q in r ensures AllSafe(q) && Accounted(q, r[q], all) {
      if q != p { StepAccounted(t, members, m, implicitMode, q); }
    }
  }

  lemma PlacedAccounted(members: seq<Member>, i: nat, n: Node)
    requires i < |members|
    ensures Accounted(PathOf(members[i]), n, members)
  {
    hide PathOf;
  }

  lemma {:induction false} AcceptableStep(before: seq<Member>, m: Member, limits: Limits)
    ensures Acceptable(before + [m], limits) <==> Acceptable(before, limits) && StepAllowed(before, m, limits)
  {
    hide Compatible, SafeMemberName;
    var all := before + [m];
    assert all[..|before|] == before && all[|before|] == m;
    assert forall i :: 0 <= i < |before| ==> all[i] == before[i];
    if Acceptable(all, limits) {
      TotalSizeMonotone(all, |before|);
    }
  }

  /** Extraction succeeds on exactly the acceptable archives, and after any prefix of an accepted one the
      destination holds that prefix and nothing else: every path is safe, none is written twice, and the
      counted bytes are within the limit. */
  lemma {:induction false} ExtractExact(members: seq<Member>, k: nat, limits: Limits, implicitMode: nat)
    requires k <= |members|
    ensures var r := ExtractPrefix(members, k, limits, implicitMode);
            && (r.Success? <==> Acceptable(members[..k], limits))
            && (r.Success? ==> HoldsExactly(r.value.tree, members[..k]) && Recorded(r.value, members[..k]))
  {
    if k == 0 {
      assert members[..k] == [];
    } else {
      hide HoldsExactly, Recorded, Acceptable, StepAllowed, ExtractMember;
      ExtractExact(members, k - 1, limits, implicitMode);
      assert members[..k] == members[..k - 1] + [members[k - 1]];
      AcceptableStep(members[..k - 1], members[k - 1], limits);
      var r := ExtractPrefix(members, k - 1, limits, implicitMode);
      if r.Success? {
        StepExact(r.value, members[..k - 1], members[k - 1], limits, implicitMode);
      }
    }
  }

  /** Every member of an accepted archive lies where its name says: a directory as 0o700, or a file as 0o600 with as
      many bytes of the stream as its header declares; its twelve mode bits are on record. */
  lemma {:induction false} MemberExtracted(members: seq<Member>, limits: Limits, implicitMode: nat, i: nat)
    requires i < |members| && Extract(members, limits, implicitMode).Success?
    ensures var st, m := Extract(members, limits, implicitMode).value, members[i];
            && SafeMemberName(m.name).Some? && !m.kind.OtherMember?
            && var p := SafeMemberName(m.name).value;
            && p in st.tree && p in st.modes && st.modes[p] == m.mode % 4096
            && (m.kind.DirectoryMember? ==> st.tree[p] == Dir(448))
            && (m.kind.RegularMember? ==> 0 <= m.size <= |m.data| && st.tree[p] == File(m.data[..m.size], 384))
  {
    hide SafeMemberName, ExtractPrefix, Accounted, WellFormed, AllSafe;
    ExtractExact(members, |members|, limits, implicitMode);
    assert members[..|members|] == members;
  }

  /** Extraction gives a directory the owner-only mode, or, when only implied, the mode the umask leaves. */
  lemma {:induction false} DirectoryModes(members: seq<Member>, k: nat, limits: Limits, implicitMode: nat)
    requires k <= |members|
    ensures var r := ExtractPrefix(members, k, limits, implicitMode);
            r.Success? ==> forall p :: p in r.value.tree && r.value.tree[p].Dir? ==>
              r.value.tree[p].mode == 448 || r.value.tree[p].mode == implicitMode
  {
    hide SafeMemberName;
    if k > 0 {
      DirectoryModes(members, k - 1, limits, implicitMode);
    }
  }
}
