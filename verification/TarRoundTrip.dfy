/** Extracting what `_write_tar` wrote gives the staged tree back, exactly when the names and the limits
    allow it. */
module TarRoundTrip {
  import opened PathNames
  import opened Trees
  import opened Archive

  /** Extraction creates directories 0o700 and files 0o600; archived modes are applied later. */
  function Private(n: Node): Node {
    match n
    case Dir(_) => Dir(OWNER_DIR)
    case File(content, _) => File(content, OWNER_FILE)
  }

  function ExtractedForm(t: Tree): Tree {
    map p | p in t :: Private(t[p])
  }

  function ModesOf(t: Tree): map<Path, nat> {
    map p | p in t :: t[p].mode % MODE_BITS
  }

  ghost predicate NoBackslash(t: Tree) {
    forall p :: p in t ==> AllSafe(p)
  }

  ghost function SizeAlong(t: Tree, paths: seq<Path>): nat
    requires Lists(paths, t)
  {
    if paths == [] then 0 else SizeAlong(t, paths[..|paths| - 1]) + NodeSize(t[paths[|paths| - 1]])
  }

  /** The bytes of all files of the tree. */
  ghost function TreeSize(t: Tree): nat {
    ListingLists(t);
    SizeAlong(t, Listing(t.Keys))
  }

  ghost predicate FitsLimits(t: Tree, limits: Limits) {
    |t| <= limits.maxMembers && TreeSize(t) <= limits.maxBytes
  }

  lemma {:induction false} TotalIsTreeSize(t: Tree, paths: seq<Path>)
    requires Lists(paths, t)
    ensures TotalSize(MembersOf(t, paths)) == SizeAlong(t, paths)
  {
    if paths != [] {
      var init := paths[..|paths| - 1];
      TotalIsTreeSize(t, init);
      assert MembersOf(t, paths)[..|paths| - 1] == MembersOf(t, init);
    }
  }

  lemma {:induction false} MemberOfTree(t: Tree, p: Path)
    requires WellFormed(t) && p in t
    ensures var m := MemberOf(p, t[p]);
            && (MemberAcceptable(m) <==> AllSafe(p))
            && (AllSafe(p) ==> PathOf(m) == p && NodeFor(m) == Private(t[p]))
  {
    hide SafeMemberName, AllSafe;
    SafeMemberNameOfJoin(p);
    if t[p].File? {
      assert t[p].content[..|t[p].content|] == t[p].content;
    }
  }

  /** Sorted order puts a directory before everything below it, so no member finds its path taken. */
  lemma {:induction false} ListingCompatible(t: Tree, i: nat, j: nat)
    requires WellFormed(t) && NoBackslash(t) && i < j < |Listing(t.Keys)|
    ensures Listing(t.Keys)[i] in t && Listing(t.Keys)[j] in t
    ensures var paths := Listing(t.Keys);
            Compatible(MemberOf(paths[i], t[paths[i]]), MemberOf(paths[j], t[paths[j]]))
  {
    var paths := Listing(t.Keys);
    assert paths[i] in paths && paths[j] in paths;
    MemberOfTree(t, paths[i]);
    MemberOfTree(t, paths[j]);
    if IsAncestor(paths[j], paths[i]) {
      AncestorSortsFirst(paths[j], paths[i]);
    }
    if IsAncestor(paths[i], paths[j]) {
      AncestorsPresent(t, paths[i], paths[j]);
    }
  }

  lemma {:induction false} TarMembersAcceptable(t: Tree)
    requires WellFormed(t)
    ensures (forall i :: 0 <= i < |TarOf(t)| ==> MemberAcceptable(TarOf(t)[i])) <==> NoBackslash(t)
  {
    hide MemberAcceptable, AllSafe, MemberOf, IsListing, WellFormed;
    var paths, a := Listing(t.Keys), TarOf(t);
    ListingLists(t);
    forall i | 0 <= i < |a| ensures MemberAcceptable(a[i]) <==> AllSafe(paths[i]) {
      MemberOfTree(t, paths[i]);
    }
    ListingCovers(t);
  }

  lemma {:induction false} TarCompatible(t: Tree)
    requires WellFormed(t) && NoBackslash(t)
    ensures forall i, j :: 0 <= i < j < |TarOf(t)| ==> Compatible(TarOf(t)[i], TarOf(t)[j])
  {
    hide Compatible, MemberOf, IsListing, WellFormed, NoBackslash;
    forall i, j | 0 <= i < j < |TarOf(t)| ensures Compatible(TarOf(t)[i], TarOf(t)[j]) {
      ListingCompatible(t, i, j);
    }
  }

  lemma {:induction false} TarAcceptable(t: Tree, limits: Limits)
    requires WellFormed(t)
    ensures Acceptable(TarOf(t), limits) <==> NoBackslash(t) && FitsLimits(t, limits)
  {
    hide MemberAcceptable, Compatible, MemberOf, IsListing, WellFormed, NoBackslash, TotalSize;
    ListingLists(t);
    TotalIsTreeSize(t, Listing(t.Keys));
    TarMembersAcceptable(t);
    if NoBackslash(t) { TarCompatible(t); }
  }

  lemma ListingCovers(t: Tree)
    ensures forall p :: p in t <==> exists i :: 0 <= i < |Listing(t.Keys)| && Listing(t.Keys)[i] == p
  {
    forall p ensures p in t <==> p in Listing(t.Keys) {}
  }

  lemma {:induction false} TarAt(t: Tree, i: nat)
    requires WellFormed(t) && NoBackslash(t) && i < |Listing(t.Keys)|
    ensures |TarOf(t)| == |Listing(t.Keys)| && Listing(t.Keys)[i] in t
    ensures var p, m := Listing(t.Keys)[i], TarOf(t)[i];
            && PathOf(m) == p && m.mode == t[p].mode
            && (m.kind.RegularMember? ==> 0 <= m.size <= |m.data|) && NodeFor(m) == Private(t[p])
  {
    hide SafeMemberName, PathOf, AllSafe, NodeFor;
    ListingLists(t);
    MemberOfTree(t, Listing(t.Keys)[i]);
    assert AllSafe(Listing(t.Keys)[i]);
    hide WellFormed, NoBackslash, IsListing;
    assert TarOf(t)[i] == MemberOf(Listing(t.Keys)[i], t[Listing(t.Keys)[i]]);
  }

  lemma {:induction false} IndexOf(t: Tree, p: Path) returns (i: nat)
    requires p in t
    ensures i < |Listing(t.Keys)| && Listing(t.Keys)[i] == p
  {
    assert p in Listing(t.Keys);
    i :| 0 <= i < |Listing(t.Keys)| && Listing(t.Keys)[i] == p;
  }

  lemma {:induction false} HeldPath(t: Tree, r: Tree, p: Path)
    requires WellFormed(t) && NoBackslash(t) && HoldsExactly(r, TarOf(t))
    ensures p in r <==> p in t
    ensures p in t ==> r[p] == Private(t[p])
  {
    hide SafeMemberName, PathOf, AllSafe, NodeFor, TarOf, WellFormed, NoBackslash, Listing, IsAncestor;
    var a := TarOf(t);
    ListingLists(t);
    assert |a| == |Listing(t.Keys)| by { TarLength(t); }
    if p in t {
      var i := IndexOf(t, p);
      TarAt(t, i);
      assert MemberAcceptable(a[i]);
      assert r[PathOf(a[i])] == NodeFor(a[i]);
    } else if p in r {
      assert Accounted(p, r[p], a);
      var i :| 0 <= i < |a| && (PathOf(a[i]) == p || IsAncestor(p, PathOf(a[i])));
      TarAt(t, i);
      if IsAncestor(p, PathOf(a[i])) {
        AncestorsPresent(t, p, PathOf(a[i]));
      }
    }
  }

  lemma TarLength(t: Tree)
    ensures |TarOf(t)| == |Listing(t.Keys)|
  {
  }

  lemma {:induction false} TarHeld(t: Tree, r: Tree)
    requires WellFormed(t) && NoBackslash(t) && HoldsExactly(r, TarOf(t))
    ensures r == ExtractedForm(t)
  {
    hide HoldsExactly, WellFormed, NoBackslash;
    forall p ensures (p in r <==> p in t) && (p in t ==> r[p] == Private(t[p])) {
      HeldPath(t, r, p);
    }
  }

  lemma {:induction false} RecordedPath(t: Tree, st: Extraction, p: Path)
    requires WellFormed(t) && NoBackslash(t) && Recorded(st, TarOf(t))
    ensures p in st.modes <==> p in t
    ensures p in t ==> st.modes[p] == t[p].mode % MODE_BITS
  {
    hide PathOf, TarOf, WellFormed, NoBackslash, Listing, TotalSize;
    var a := TarOf(t);
    TarLength(t);
    if p in t {
      var i := IndexOf(t, p);
      TarAt(t, i);
      assert PathOf(a[i]) in st.modes;
    } else if p in st.seen {
      var i :| 0 <= i < |a| && PathOf(a[i]) == p;
      TarAt(t, i);
    }
  }

  lemma {:induction false} TarRecorded(t: Tree, st: Extraction)
    requires WellFormed(t) && NoBackslash(t) && Recorded(st, TarOf(t))
    ensures st.modes == ModesOf(t)
  {
    hide Recorded, WellFormed, NoBackslash;
    forall p ensures (p in st.modes <==> p in t) && (p in t ==> st.modes[p] == t[p].mode % MODE_BITS) {
      RecordedPath(t, st, p);
    }
  }

  /** The tar round trip: for every tree, extraction of its archive succeeds if and only if no name holds a
      backslash and the tree fits the limits; it then gives back the same paths, kinds and bytes, and every
      archived mode. */
  lemma {:induction false} ExtractUndoesWrite(t: Tree, limits: Limits, implicitMode: nat)
    requires WellFormed(t)
    ensures var r := Extract(TarOf(t), limits, implicitMode);
            && (r.Success? <==> NoBackslash(t) && FitsLimits(t, limits))
            && (r.Success? ==> r.value.tree == ExtractedForm(t) && r.value.modes == ModesOf(t))
  {
    hide Acceptable, HoldsExactly, Recorded, NoBackslash, FitsLimits, WellFormed, ExtractPrefix, TarOf;
    var a := TarOf(t);
    assert a[..|a|] == a;
    ExtractExact(a, |a|, limits, implicitMode);
    TarAcceptable(t, limits);
    var r := Extract(a, limits, implicitMode);
    if r.Success? {
      TarHeld(t, r.value.tree);
      TarRecorded(t, r.value);
    }
  }

  /** On the tree itself: the extraction holds its paths and no others, directories as 0o700 and files, with their
      bytes, as 0o600, and records the twelve mode bits of each. */
  lemma {:induction false} ExtractedExact(t: Tree, limits: Limits, implicitMode: nat)
    requires WellFormed(t) && Extract(TarOf(t), limits, implicitMode).Success?
    ensures var st := Extract(TarOf(t), limits, implicitMode).value;
            forall p ::
              && (p in st.tree <==> p in t) && (p in st.modes <==> p in t)
              && (p in t && t[p].Dir? ==> st.tree[p] == Dir(448))
              && (p in t && t[p].File? ==> st.tree[p] == File(t[p].content, 384))
              && (p in t ==> st.modes[p] == t[p].mode % 4096)
  {
    hide WellFormed, ExtractPrefix, TarOf, NoBackslash, FitsLimits;
    ExtractUndoesWrite(t, limits, implicitMode);
  }

  /** A legal file name that can be backed up and never restored. */
  lemma BackslashNeverExtracts(limits: Limits, implicitMode: nat)
    ensures var t: Tree := map[["a\\b"] := File([], OWNER_FILE)];
            WellFormed(t) && Extract(TarOf(t), limits, implicitMode).Failure?
  {
    var t: Tree := map[["a\\b"] := File([], OWNER_FILE)];
    var p: Path := ["a\\b"];
    assert p[0][1] == '\\';
    assert !IsSafeName(p[0]);
    assert IsName(p[0]);
    assert p in t && !NoBackslash(t);
    ExtractUndoesWrite(t, limits, implicitMode);
  }
}
