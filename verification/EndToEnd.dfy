/** `create_backup` and `restore_backup` put together: what is installed is what was backed up. */
module EndToEnd {
  import opened Wrappers
  import opened PathNames
  import opened Trees
  import opened Archive
  import opened Manifests
  import opened TarRoundTrip
  import opened Staging
  import opened BackupRoundTrip
  import opened RestoreInstall

  /** The `payload` directory of an extracted tree, as a tree of its own. */
  function Under(t: Tree): Tree {
    map q | q in (set p | p in t && IsAncestor(PAYLOAD, p) :: p[1..]) && PAYLOAD + q in t :: t[PAYLOAD + q]
  }

  lemma UnderExact(t: Tree, q: Path)
    ensures q in Under(t) <==> q != [] && PAYLOAD + q in t
    ensures q in Under(t) ==> Under(t)[q] == t[PAYLOAD + q]
  {
    var p := PAYLOAD + q;
    assert p[1..] == q && p[..1] == PAYLOAD;
    if q in Under(t) {
      var r :| r in t && IsAncestor(PAYLOAD, r) && r[1..] == q;
    }
  }

  /** What the sources restore to: the staged payload with permission bits only. */
  function RestoredTree(s: Sources, dirMode: nat): Tree {
    map q | q in Under(PayloadTree(s, dirMode)) ::
      WithMode(Under(PayloadTree(s, dirMode))[q], Under(PayloadTree(s, dirMode))[q].mode % PERMISSION_BITS)
  }

  /* --- creating --- */

  method SortLabels(labels: set<string>) returns (r: seq<string>)
    ensures r == SortedLabels(labels)
  {
    hide IsListing, Listing;
    var paths := SortedPaths(set l | l in labels :: [l]);
    r := Heads(paths);
  }

  method JoinAll(paths: seq<Path>) returns (r: seq<string>)
    ensures r == seq(|paths|, i requires 0 <= i < |paths| => Join(paths[i]))
  {
    r := [];
    for i := 0 to |paths|
      invariant |r| == i && forall k :: 0 <= k < i ==> r[k] == Join(paths[k])
    {
      r := r + [Join(paths[i])];
    }
  }

  /** `create_backup`: refuses bad labels, failing databases and an empty request; otherwise stages, writes the
      manifest over the staged payload, and archives the lot. */
  method CreateBackup(s: Sources, dirMode: nat, codec: Codec) returns (archive: Option<seq<Member>>)
    requires forall l :: l in s.directories ==> WellFormed(s.directories[l].tree)
    ensures archive.Some? <==> ValidSources(s, codec) && (s.sqlite != map[] || s.directories != map[])
    ensures archive.Some? ==> archive.value == TarOf(StagingTree(s, dirMode, codec))
  {
    hide WellFormed, IsLabel, PayloadTree, RowsOf, TarOf, IsListing, SortedLabels;
    if s.sqlite == map[] && s.directories == map[] { return None; }
    if exists l :: l in s.sqlite && !(IsLabel(l) && codec.sqliteOk(s.sqlite[l])) { return None; }
    if exists l :: l in s.directories && !IsLabel(l) { return None; }
    var payload := PayloadTree(s, dirMode);
    var rows := ArchiveRows(payload, codec);
    var dbs := SortLabels(s.sqlite.Keys);
    var sqliteFiles := JoinAll(seq(|dbs|, i requires 0 <= i < |dbs| => SqlitePath(dbs[i])));
    assert sqliteFiles == SqliteNames(s);
    var roots := SortLabels(s.directories.Keys);
    var directoryRoots := JoinAll(seq(|roots|, i requires 0 <= i < |roots| => DirectoryPath(roots[i])));
    assert directoryRoots == RootNames(s);
    var manifest := Manifest(FORMAT_NAME, SCHEMA_VERSION, rows, sqliteFiles, directoryRoots);
    var a := WriteTar(payload[MANIFEST := File(codec.encode(manifest), OWNER_FILE)]);
    return Some(a);
  }

  /* --- restoring --- */

  /** `restore_backup` after decryption: nothing beside the target is touched before the whole archive has been
      extracted and verified. */
  method RestoreBackup(parent: ParentDirectory, archive: seq<Member>, limits: Limits, implicitMode: nat, codec: Codec,
                       order: seq<Path>, target: string, random: string, uuid: string, overwrite: bool, f: Faults)
    returns (r: Outcome, manifest: Option<Manifest>)
    requires StageName(target, random) !in parent.entries && Searchable(implicitMode)
    requires Extract(archive, limits, implicitMode).Success? ==>
               IsCopyOrder(order, Under(Extract(archive, limits, implicitMode).value.tree))
    modifies parent
    ensures manifest.Some? <==>
              && limits.maxBytes > 0 && limits.maxMembers > 0
              && Validate(old(parent.entries), target, overwrite, false).Usable?
              && exists st, m :: Accepts(archive, limits, implicitMode, codec, st, m)
    ensures manifest.None? ==> r == Failed && parent.entries == old(parent.entries) && parent.trace == old(parent.trace)
    ensures manifest.Some? ==>
              var st := Extract(archive, limits, implicitMode).value;
              var previous := PreviousName(target, uuid);
              && Accepts(archive, limits, implicitMode, codec, st, manifest.value)
              && r == InstallOutcome(old(parent.entries), Under(st.tree), st.modes, target, previous, overwrite, f)
              && parent.entries - {StageName(target, random)} ==
                   InstallEffect(old(parent.entries), Under(st.tree), st.modes, target, previous, overwrite, f)
              && (StageName(target, random) in parent.entries ==> f.chmodStage || f.cleanup)
              && SafeSince(parent.trace, |old(parent.trace)|, old(parent.entries), target, StageName(target, random),
                           previous, Remoded(Under(st.tree), st.modes), overwrite)
  {
    hide InstallOutcome, InstallEffect, SafeSince, Extends, ExtractPrefix, Under, IsCopyOrder, Verified;
    r, manifest := Failed, None;
    if limits.maxBytes == 0 || limits.maxMembers == 0 { return; }
    var check := Validate(parent.entries, target, overwrite, false);
    if check.Refused? { return; }
    var extracted := SafeExtract(archive, limits, implicitMode);
    if extracted.Failure? { return; }
    var st := extracted.value;
    manifest := LoadAndVerifyManifest(st.tree, codec);
    if manifest.None? { return; }
    assert Accepts(archive, limits, implicitMode, codec, st, manifest.value);
    ExtractedEnterable(archive, limits, implicitMode, st);
    NamesDiffer(target, random, uuid);
    r := parent.RestorePayload(Under(st.tree), order, target, StageName(target, random), PreviousName(target, uuid),
                               overwrite, st.modes, f);
  }

  /** Every extracted directory can be searched by its owner, given that a default directory can. */
  lemma {:induction false} ExtractedEnterable(archive: seq<Member>, limits: Limits, implicitMode: nat, st: Extraction)
    requires Extract(archive, limits, implicitMode) == Success(st) && Searchable(implicitMode)
    ensures Enterable(Under(st.tree))
  {
    hide ExtractPrefix, Acceptable, Recorded, AllNames, AllSafe, Accounted, Under;
    assert archive[..|archive|] == archive;
    ExtractExact(archive, |archive|, limits, implicitMode);
    DirectoryModes(archive, |archive|, limits, implicitMode);
    UnderWellFormed(st.tree);
    forall q | q in Under(st.tree) && Under(st.tree)[q].Dir? ensures Searchable(Under(st.tree)[q].mode) {
      UnderExact(st.tree, q);
    }
  }

  lemma {:induction false} UnderWellFormed(t: Tree)
    requires WellFormed(t)
    ensures WellFormed(Under(t))
  {
    hide IsName, Under;
    forall q | q in Under(t)
      ensures q != [] && AllNames(q) && (|q| > 1 ==> Parent(q) in Under(t) && Under(t)[Parent(q)].Dir?)
    {
      UnderExact(t, q);
      var p := PAYLOAD + q;
      assert forall i :: 0 <= i < |q| ==> q[i] == p[i + 1];
      if |q| > 1 {
        assert Parent(p) == PAYLOAD + Parent(q);
        UnderExact(t, Parent(q));
      }
    }
  }

  /* --- the restored tree on the sources themselves --- */

  /** What the copy of a directory source keeps: everything but its excluded files. */
  ghost predicate IsCopied(d: SourceDir, q: Path) {
    q in d.tree && (d.tree[q].Dir? || q !in d.excluded)
  }

  /** A path of the restored tree and its node: the two fixed directories, every database as a private file, every
      directory source, and every path its copy keeps with kind and bytes, all modes within nine bits. */
  ghost predicate Brings(s: Sources, dirMode: nat, q: Path, n: Node) {
    || (q in [["sqlite"], ["directories"]] && n == Dir(dirMode % 512))
    || (exists l :: l in s.sqlite && q == ["sqlite", l + ".sqlite3"] && n == File(s.sqlite[l], 384))
    || (exists l :: l in s.directories && q == ["directories", l] && n == Dir(s.directories[l].mode % 512))
    || (|q| > 2 && q[0] == "directories" && q[1] in s.directories && IsCopied(s.directories[q[1]], q[2..])
        && n == match s.directories[q[1]].tree[q[2..]]
                case Dir(mode) => Dir(mode % 512)
                case File(content, mode) => File(content, mode % 512))
  }

  /** The restored tree holds exactly what the sources bring. */
  ghost predicate Restores(s: Sources, dirMode: nat, t: Tree) {
    forall q, n :: q in t && t[q] == n <==> Brings(s, dirMode, q, n)
  }

  lemma SuffixAdded(name: string)
    ensures WithoutSuffix(name + SUFFIX) == name
  {
    assert (name + SUFFIX)[|name|..] == SUFFIX && (name + SUFFIX)[..|name|] == name;
  }

  /** What is staged at the payload's path `q` is the node `n` but for its mode. */
  ghost predicate StagesAs(s: Sources, dirMode: nat, q: Path, n: Node) {
    var at := StagedAt(s, dirMode, PAYLOAD + q);
    q != [] && at.Some? && n == WithMode(at.value, at.value.mode % 512)
  }

  lemma DatabaseBrings(s: Sources, dirMode: nat, name: string, n: Node)
    ensures StagesAs(s, dirMode, ["sqlite", name], n) <==>
            exists l :: l in s.sqlite && name == l + ".sqlite3" && n == File(s.sqlite[l], 384)
  {
    var p := PAYLOAD + ["sqlite", name];
    assert p == ["payload", "sqlite", name] && p[..2] == SQLITE;
    forall l { SuffixAdded(l); }
    assert |SQLITE| == 2 && |DIRECTORIES| == 2 && SQLITE[1] != DIRECTORIES[1];
    hide WithoutSuffix;
  }

  lemma PairBrings(s: Sources, dirMode: nat, q: Path, n: Node)
    requires |q| == 2
    ensures StagesAs(s, dirMode, q, n) <==> Brings(s, dirMode, q, n)
  {
    assert q == [q[0], q[1]];
    if q[0] == "sqlite" {
      DatabaseBrings(s, dirMode, q[1], n);
      hide StagedAt;
      assert forall l :: q == ["sqlite", l + ".sqlite3"] <==> q[1] == l + ".sqlite3";
    } else {
      var p := PAYLOAD + q;
      assert p[..2] == ["payload", q[0]] && p[2] == q[1] && |p| == 3;
      hide WithoutSuffix;
      assert q[0] == "directories" && q[1] in s.directories ==> q == ["directories", q[1]];
    }
  }

  lemma DeepBrings(s: Sources, dirMode: nat, q: Path, n: Node)
    requires |q| > 2
    ensures StagesAs(s, dirMode, q, n) <==> Brings(s, dirMode, q, n)
  {
    var p := PAYLOAD + q;
    assert p[..2] == ["payload", q[0]] && p[2] == q[1] && p[3..] == q[2..] && |p| > 3;
    CopiedExact(s, q[1], q[2..]);
    hide Copied, WithoutSuffix, IsCopied;
  }

  lemma StagedBrings(s: Sources, dirMode: nat, q: Path, n: Node)
    ensures StagesAs(s, dirMode, q, n) <==> Brings(s, dirMode, q, n)
  {
    if |q| == 2 {
      PairBrings(s, dirMode, q, n);
    } else if |q| > 2 {
      DeepBrings(s, dirMode, q, n);
    } else if |q| == 1 {
      assert q == [q[0]] && PAYLOAD + q == ["payload", q[0]];
      hide Copied, WithoutSuffix, IsCopied;
    }
  }

  lemma CopiedExact(s: Sources, l: string, q: Path)
    ensures l in s.directories ==> (q in Copied(s.directories[l]) <==> IsCopied(s.directories[l], q))
    ensures l in s.directories && q in Copied(s.directories[l]) ==>
              Copied(s.directories[l])[q] == s.directories[l].tree[q]
  {
  }

  lemma {:induction false} RestoresExact(s: Sources, dirMode: nat)
    ensures Restores(s, dirMode, RestoredTree(s, dirMode))
  {
    hide StagedAt, WellFormed, Under, PayloadTree, Brings;
    forall q, n ensures (q in RestoredTree(s, dirMode) && RestoredTree(s, dirMode)[q] == n) <==> Brings(s, dirMode, q, n) {
      UnderExact(PayloadTree(s, dirMode), q);
      PayloadTreeExact(s, dirMode, PAYLOAD + q);
      StagedBrings(s, dirMode, q, n);
    }
  }

  /* --- the whole round trip --- */

  lemma {:induction false} RestoredTreeExact(s: Sources, dirMode: nat, codec: Codec)
    ensures var staging := StagingTree(s, dirMode, codec);
            Remoded(Under(ExtractedForm(staging)), ModesOf(staging)) == RestoredTree(s, dirMode)
  {
    hide Under, PayloadTree, WrittenManifest;
    var staging, payload := StagingTree(s, dirMode, codec), PayloadTree(s, dirMode);
    var a, b := Remoded(Under(ExtractedForm(staging)), ModesOf(staging)), RestoredTree(s, dirMode);
    forall q
      ensures q in a <==> q in b
      ensures q in a ==> a[q] == b[q]
    {
      UnderExact(ExtractedForm(staging), q);
      UnderExact(payload, q);
      assert q != [] ==> PAYLOAD + q != MANIFEST;
      if q in a { MaskTwice(staging[PAYLOAD + q].mode); }
    }
  }

  lemma MaskTwice(mode: nat)
    ensures mode % MODE_BITS % PERMISSION_BITS == mode % PERMISSION_BITS
  {
  }

  /** Backup, then restore into a free or empty target with no failing call: the restore succeeds if and only if
      no copied name holds a backslash and the limits hold, and then the target is the backed-up payload with
      its bytes and permission bits. Otherwise the parent directory is untouched. */
  method BackupThenRestore(s: Sources, dirMode: nat, codec: Codec, parent: ParentDirectory, limits: Limits,
                           implicitMode: nat, order: seq<Path>, target: string, random: string, uuid: string)
    returns (r: Outcome)
    requires Faithful(codec) && ValidSources(s, codec) && (s.sqlite != map[] || s.directories != map[])
    requires limits.maxBytes > 0 && limits.maxMembers > 0 && Searchable(implicitMode)
    requires StageName(target, random) !in parent.entries && PreviousName(target, uuid) !in parent.entries
    requires target in parent.entries ==> parent.entries[target] == Directory(map[])
    requires IsCopyOrder(order, Under(ExtractedForm(StagingTree(s, dirMode, codec))))
    modifies parent
    ensures r.Installed? <==> Restorable(s, dirMode, codec, limits)
    ensures parent.entries == if r.Installed? then old(parent.entries)[target := Directory(RestoredTree(s, dirMode))]
                              else old(parent.entries)
    ensures r.Installed? ==> parent.entries[target].Directory? && Restores(s, dirMode, parent.entries[target].tree)
  {
    hide ExtractPrefix, Under, IsCopyOrder, Verified, Restorable, SafeSince, StagingTree, RestoredTree, ExtractedForm,
      ModesOf, WrittenManifest, WellFormed, IsLabel, Faithful, TarOf;
    hide Accepts, InstallOutcome, InstallEffect, Restores;
    var archive := CreateBackup(s, dirMode, codec);
    ghost var staging, before, stage := StagingTree(s, dirMode, codec), parent.entries, StageName(target, random);
    ArchiveDecision(s, dirMode, codec, limits, implicitMode);
    var manifest;
    r, manifest := RestoreBackup(parent, archive.value, limits, implicitMode, codec, order, target, random, uuid,
                                 false, NO_FAULTS);
    RestoredTreeExact(s, dirMode, codec);
    RestoresExact(s, dirMode);
    NamesDiffer(target, random, uuid);
    FreshInstall(before, Under(ExtractedForm(staging)), ModesOf(staging), target, PreviousName(target, uuid));
    WithoutAbsent(parent.entries, stage);
  }

  lemma WithoutAbsent(e: Entries, name: string)
    ensures name !in e ==> e - {name} == e
  {
  }

  lemma {:induction false} ArchiveDecision(s: Sources, dirMode: nat, codec: Codec, limits: Limits, implicitMode: nat)
    requires Faithful(codec) && ValidSources(s, codec)
    ensures var staging := StagingTree(s, dirMode, codec);
            var r := Extract(TarOf(staging), limits, implicitMode);
            && (r.Success? ==> r.value.tree == ExtractedForm(staging) && r.value.modes == ModesOf(staging))
            && (Restorable(s, dirMode, codec, limits) ==> r.Success?)
            && ((exists st, m :: Accepts(TarOf(staging), limits, implicitMode, codec, st, m)) <==>
                Restorable(s, dirMode, codec, limits))
  {
    hide ExtractPrefix, Verified, StagingTree, ExtractedForm, ModesOf, WrittenManifest, WellFormed, ValidSources,
      Faithful, TarOf, FitsLimits, CleanSources, ManifestFits, NoBackslash;
    var staging := StagingTree(s, dirMode, codec);
    StagingWellFormed(s, dirMode, codec);
    ExtractUndoesWrite(staging, limits, implicitMode);
    var r, written := Extract(TarOf(staging), limits, implicitMode), WrittenManifest(s, dirMode, codec);
    if r.Success? {
      RestoreUndoesBackup(s, dirMode, codec, limits, implicitMode, r.value, written);
    }
    if st, m :| Accepts(TarOf(staging), limits, implicitMode, codec, st, m) {
      RestoreUndoesBackup(s, dirMode, codec, limits, implicitMode, st, m);
    }
  }

  lemma {:induction false} FreshInstall(before: Entries, payload: Tree, modes: map<Path, nat>, target: string, previous: string)
    requires target != previous && previous !in before
    requires target in before ==> before[target] == Directory(map[])
    ensures InstallOutcome(before, payload, modes, target, previous, false, NO_FAULTS) == Installed(None)
    ensures InstallEffect(before, payload, modes, target, previous, false, NO_FAULTS) ==
            before[target := Directory(Remoded(payload, modes))]
  {
    hide Remoded;
  }
}
