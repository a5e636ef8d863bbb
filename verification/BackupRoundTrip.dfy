/** Backup followed by extraction and verification: accepted on exactly the clean sources within the limits,
    and then the tree that was staged. */
module BackupRoundTrip {
  import opened Wrappers
  import opened PathNames
  import opened Trees
  import opened Sequences
  import opened Texts
  import opened Archive
  import opened Manifests
  import opened TarRoundTrip
  import opened Staging

  /** Same payload files with the same bytes; modes may differ. */
  ghost predicate SameFiles(t: Tree, u: Tree) {
    && PayloadFiles(t) == PayloadFiles(u)
    && forall p :: p in PayloadFiles(t) ==> t[p].content == u[p].content
  }

  lemma {:induction false} RowAt(t: Tree, u: Tree, codec: Codec, i: nat)
    requires WellFormed(t) && NoBackslash(t) && SameFiles(t, u)
    requires forall b :: IsDigest(codec.sha(b))
    requires i < |Listing(PayloadFiles(t))|
    ensures |RowsOf(t, codec)| == |Listing(PayloadFiles(t))|
    ensures var row := RowsOf(t, codec)[i];
            && row.path == Join(Listing(PayloadFiles(t))[i]) && PathIn(row.path) == Listing(PayloadFiles(t))[i]
            && RowValid(row) && RowMatches(u, row, codec)
  {
    hide SafeMemberName, IsDigest, AllSafe, IsManifestPath, WellFormed, PathIn;
    FilesListed(t);
    var p := Listing(PayloadFiles(t))[i];
    assert p in PayloadFiles(t) by { assert p in Listing(PayloadFiles(t)); }
    var row := RowsOf(t, codec)[i];
    assert row == RowOf(p, t[p], codec);
    assert AllSafe(PAYLOAD) by { FixedPaths(); }
    assert Join(PAYLOAD) + "/" == "payload/";
    ManifestPathExact(row.path, PAYLOAD, p);
  }

  lemma {:induction false} RowsVerify(t: Tree, u: Tree, codec: Codec)
    requires WellFormed(t) && NoBackslash(t) && SameFiles(t, u)
    requires forall b :: IsDigest(codec.sha(b))
    ensures FilesVerified(u, RowsOf(t, codec), codec)
  {
    hide RowValid, RowMatches, RowsOf, WellFormed, NoBackslash, PathIn, IsDigest, IsListing, Listing, PayloadFiles;
    var paths, rows := Listing(PayloadFiles(t)), RowsOf(t, codec);
    ListingDistinct(PayloadFiles(t));
    RowsLength(t, codec);
    forall i | 0 <= i < |rows|
      ensures RowValid(rows[i]) && RowMatches(u, rows[i], codec) && PathIn(rows[i].path) == paths[i]
      ensures rows[i].path == Join(paths[i])
    {
      RowAt(t, u, codec, i);
    }
    forall i, j | 0 <= i < j < |rows| ensures rows[i].path != rows[j].path {
      assert paths[i] != paths[j];
    }
    NamesListed(u, paths, rows);
  }

  lemma {:induction false} NamesListed(u: Tree, paths: seq<Path>, rows: seq<Row>)
    requires |rows| == |paths| && forall i :: 0 <= i < |rows| ==> rows[i].path == Join(paths[i])
    requires forall p :: p in paths <==> p in PayloadFiles(u)
    ensures RowNames(rows) == FileNames(u)
  {
    hide PayloadFiles;
    forall v ensures v in RowNames(rows) <==> v in FileNames(u) {
      if v in RowNames(rows) {
        var i :| 0 <= i < |rows| && rows[i].path == v;
        assert paths[i] in paths;
      }
      if v in FileNames(u) {
        var p :| p in PayloadFiles(u) && Join(p) == v;
        var i :| 0 <= i < |paths| && paths[i] == p;
        assert rows[i] in rows;
      }
    }
  }

  lemma RowsLength(t: Tree, codec: Codec)
    ensures |RowsOf(t, codec)| == |Listing(PayloadFiles(t))|
  {
    FilesListed(t);
  }

  lemma {:induction false} StagedSame(s: Sources, dirMode: nat, codec: Codec)
    ensures SameFiles(PayloadTree(s, dirMode), ExtractedForm(StagingTree(s, dirMode, codec)))
  {
    hide PayloadTree, WrittenManifest;
    var t, u := PayloadTree(s, dirMode), ExtractedForm(StagingTree(s, dirMode, codec));
    forall p ensures IsPayloadFile(t, p) <==> IsPayloadFile(u, p) {
    }
  }

  lemma {:induction false} SqliteStaged(s: Sources, dirMode: nat, codec: Codec, l: string)
    requires ValidSources(s, codec) && l in s.sqlite
    ensures var p := SqlitePath(l);
            && p in PayloadFiles(PayloadTree(s, dirMode))
            && codec.sqliteOk(PayloadTree(s, dirMode)[p].content)
            && AllSafe(p) && IsAncestor(SQLITE, p)
  {
    hide IsSafeName, IsLabel, PayloadTree;
    var p := SqlitePath(l);
    assert WithoutSuffix(p[2]) == l by { assert (l + SUFFIX)[|l|..] == SUFFIX; }
    assert p[..2] == SQLITE && p[..1] == PAYLOAD;
    PayloadTreeExact(s, dirMode, p);
    LabelIsSafe(l);
    SafeTriple(SQLITE, l + SUFFIX);
  }

  lemma SqlitePrefix()
    ensures SQLITE != [] && AllSafe(SQLITE) && Join(SQLITE) + "/" == "payload/sqlite/"
  {
    FixedPaths();
    JoinPair("payload", "sqlite");
  }

  lemma {:induction false} SqliteListed(s: Sources, dirMode: nat, codec: Codec, u: Tree, l: string)
    requires ValidSources(s, codec) && SameFiles(PayloadTree(s, dirMode), u) && l in s.sqlite
    ensures SqliteEntryOk(u, Join(SqlitePath(l)), FileNames(u), codec)
    ensures PathIn(Join(SqlitePath(l))) == SqlitePath(l)
  {
    hide SafeMemberName, AllSafe, IsManifestPath, PayloadTree, PathIn, ValidSources, IsAncestor, Join, SQLITE;
    var p := SqlitePath(l);
    SqliteStaged(s, dirMode, codec, l);
    assert p in PayloadFiles(u) && codec.sqliteOk(u[p].content) && u[p].File?;
    SqlitePrefix();
    ManifestPathExact(Join(p), SQLITE, p);
    assert Join(p) in FileNames(u);
  }

  lemma JoinPair(a: string, b: string)
    ensures Join([a, b]) == a + "/" + b
  {
    assert [a, b][1..] == [b];
  }

  lemma {:induction false} RootStaged(s: Sources, dirMode: nat, codec: Codec, l: string)
    requires ValidSources(s, codec) && l in s.directories
    ensures var p := DirectoryPath(l);
            && p in PayloadTree(s, dirMode) && PayloadTree(s, dirMode)[p].Dir? && p != MANIFEST
            && AllSafe(p) && IsAncestor(DIRECTORIES, p)
  {
    hide IsSafeName, IsLabel, PayloadTree;
    var p := DirectoryPath(l);
    assert p[..2] == DIRECTORIES && p[2] == l;
    PayloadTreeExact(s, dirMode, p);
    LabelIsSafe(l);
    SafeTriple(DIRECTORIES, l);
  }

  lemma {:induction false} RootListed(s: Sources, dirMode: nat, codec: Codec, l: string)
    requires ValidSources(s, codec) && l in s.directories
    ensures RootEntryOk(ExtractedForm(StagingTree(s, dirMode, codec)), Join(DirectoryPath(l)))
    ensures PathIn(Join(DirectoryPath(l))) == DirectoryPath(l)
  {
    hide SafeMemberName, AllSafe, IsManifestPath, PayloadTree, WrittenManifest, PathIn, ValidSources, IsAncestor;
    var p := DirectoryPath(l);
    RootStaged(s, dirMode, codec, l);
    assert AllSafe(DIRECTORIES) by { FixedPaths(); }
    assert Join(DIRECTORIES) + "/" == "payload/directories/" by { JoinPair("payload", "directories"); }
    ManifestPathExact(Join(p), DIRECTORIES, p);
  }

  lemma {:induction false} SqliteNamesVerify(s: Sources, dirMode: nat, codec: Codec, u: Tree)
    requires ValidSources(s, codec) && SameFiles(PayloadTree(s, dirMode), u)
    ensures forall i :: 0 <= i < |SqliteNames(s)| ==> SqliteEntryOk(u, SqliteNames(s)[i], FileNames(u), codec)
    ensures NoRepeats(SqliteNames(s))
  {
    hide SqliteEntryOk, FileNames, PathIn, ValidSources, SortedLabels, SameFiles, PayloadTree, SqlitePath;
    var labels := SortedLabels(s.sqlite.Keys);
    SortedLabelsExact(s.sqlite.Keys);
    forall i | 0 <= i < |labels|
      ensures SqliteEntryOk(u, SqliteNames(s)[i], FileNames(u), codec)
      ensures PathIn(SqliteNames(s)[i]) == SqlitePath(labels[i])
    {
      assert labels[i] in labels;
      SqliteListed(s, dirMode, codec, u, labels[i]);
    }
    forall i, j | 0 <= i < j < |labels| ensures SqliteNames(s)[i] != SqliteNames(s)[j] {
      assert labels[i] != labels[j];
      SqlitePathInjective(labels[i], labels[j]);
    }
  }

  lemma SqlitePathInjective(a: string, b: string)
    ensures SqlitePath(a) == SqlitePath(b) ==> a == b
  {
    assert SqlitePath(a)[2] == a + SUFFIX && SqlitePath(b)[2] == b + SUFFIX;
    AppendCancels(a, b);
  }

  lemma {:induction false} RootNamesVerify(s: Sources, dirMode: nat, codec: Codec)
    requires ValidSources(s, codec)
    ensures forall i :: 0 <= i < |RootNames(s)| ==>
              RootEntryOk(ExtractedForm(StagingTree(s, dirMode, codec)), RootNames(s)[i])
    ensures NoRepeats(RootNames(s))
  {
    hide RootEntryOk, ExtractedForm, StagingTree, PathIn, ValidSources, SortedLabels;
    var labels := SortedLabels(s.directories.Keys);
    SortedLabelsExact(s.directories.Keys);
    forall i | 0 <= i < |labels|
      ensures RootEntryOk(ExtractedForm(StagingTree(s, dirMode, codec)), RootNames(s)[i])
      ensures PathIn(RootNames(s)[i]) == DirectoryPath(labels[i])
    {
      assert labels[i] in labels;
      RootListed(s, dirMode, codec, labels[i]);
    }
    forall i, j | 0 <= i < j < |labels| ensures RootNames(s)[i] != RootNames(s)[j] {
      assert labels[i] != labels[j];
      assert DirectoryPath(labels[i])[2] == labels[i] && DirectoryPath(labels[j])[2] == labels[j];
    }
  }

  lemma {:induction false} ListsVerify(s: Sources, dirMode: nat, codec: Codec)
    requires ValidSources(s, codec)
    requires FilesVerified(ExtractedForm(StagingTree(s, dirMode, codec)), RowsOf(PayloadTree(s, dirMode), codec), codec)
    ensures ListsVerified(ExtractedForm(StagingTree(s, dirMode, codec)), WrittenManifest(s, dirMode, codec), codec)
  {
    hide SqliteEntryOk, RootEntryOk, ExtractedForm, StagingTree, RowsOf, RowNames, FileNames, SqliteNames, RootNames,
      ValidSources, SameFiles, PayloadTree, NoRepeats, RowValid, RowMatches;
    StagedSame(s, dirMode, codec);
    SqliteNamesVerify(s, dirMode, codec, ExtractedForm(StagingTree(s, dirMode, codec)));
    RootNamesVerify(s, dirMode, codec);
  }

  lemma AppendCancels(a: string, b: string)
    ensures a + SUFFIX == b + SUFFIX ==> a == b
  {
    assert a == (a + SUFFIX)[..|a + SUFFIX| - |SUFFIX|];
    assert b == (b + SUFFIX)[..|b + SUFFIX| - |SUFFIX|];
  }

  ghost predicate ManifestFits(s: Sources, dirMode: nat, codec: Codec) {
    |codec.encode(WrittenManifest(s, dirMode, codec))| <= MAX_MANIFEST_BYTES
  }

  lemma {:induction false} TopLevelStaged(s: Sources, dirMode: nat, codec: Codec)
    ensures TopLevelOk(ExtractedForm(StagingTree(s, dirMode, codec))) <==> ManifestFits(s, dirMode, codec)
  {
    hide PayloadTree, WrittenManifest;
    var t, u := PayloadTree(s, dirMode), ExtractedForm(StagingTree(s, dirMode, codec));
    PayloadTreeExact(s, dirMode, PAYLOAD);
    forall p | p in u && |p| == 1 ensures p in [MANIFEST, PAYLOAD] {
      if p != MANIFEST {
        assert p in t;
        PayloadTreeExact(s, dirMode, p);
      }
    }
  }

  lemma {:induction false} StagedVerifies(s: Sources, dirMode: nat, codec: Codec)
    requires Faithful(codec) && ValidSources(s, codec) && CleanSources(s)
    ensures var u := ExtractedForm(StagingTree(s, dirMode, codec));
            && (ManifestFits(s, dirMode, codec) ==> Verified(u, WrittenManifest(s, dirMode, codec), codec))
            && (!ManifestFits(s, dirMode, codec) ==> forall m :: !Verified(u, m, codec))
  {
    hide PayloadTree, WellFormed, NoBackslash, CleanSources, ValidSources, TopLevelOk, SameFiles, FilesVerified,
      ListsVerified, ManifestFits, IsDigest;
    PayloadTreeWellFormed(s, dirMode, codec);
    StagedSame(s, dirMode, codec);
    RowsVerify(PayloadTree(s, dirMode), ExtractedForm(StagingTree(s, dirMode, codec)), codec);
    ListsVerify(s, dirMode, codec);
    TopLevelStaged(s, dirMode, codec);
  }

  /** The limits and names a caller can check before the backup. */
  ghost predicate Restorable(s: Sources, dirMode: nat, codec: Codec, limits: Limits) {
    && CleanSources(s)
    && FitsLimits(StagingTree(s, dirMode, codec), limits)
    && ManifestFits(s, dirMode, codec)
  }

  /** What restore sees of an archive: the verified extraction, if the archive passes. */
  ghost predicate Accepts(archive: seq<Member>, limits: Limits, implicitMode: nat, codec: Codec, st: Extraction, m: Manifest) {
    Extract(archive, limits, implicitMode) == Success(st) && Verified(st.tree, m, codec)
  }

  /** The end-to-end round trip: the archive of any valid sources is accepted by extraction and verification if
      and only if no copied name holds a backslash and the tree and its manifest fit the limits; the accepted
      tree is then the staged one, its manifest the one that was written, and every mode is on record. */
  lemma {:induction false} RestoreUndoesBackup(
    s: Sources, dirMode: nat, codec: Codec, limits: Limits, implicitMode: nat, st: Extraction, m: Manifest)
    requires Faithful(codec) && ValidSources(s, codec)
    ensures var staging := StagingTree(s, dirMode, codec);
            Accepts(TarOf(staging), limits, implicitMode, codec, st, m) <==>
              && Restorable(s, dirMode, codec, limits)
              && m == WrittenManifest(s, dirMode, codec)
              && st.tree == ExtractedForm(staging) && st.modes == ModesOf(staging)
              && Extract(TarOf(staging), limits, implicitMode) == Success(st)
  {
    hide WellFormed, NoBackslash, CleanSources, ValidSources, FitsLimits, ManifestFits, PayloadTree, ExtractPrefix,
      TarOf, WrittenManifest, ExtractedForm, ModesOf, Faithful, StagingTree, Verified;
    var staging := StagingTree(s, dirMode, codec);
    StagingWellFormed(s, dirMode, codec);
    ExtractUndoesWrite(staging, limits, implicitMode);
    if CleanSources(s) {
      StagedVerifies(s, dirMode, codec);
      if Verified(ExtractedForm(staging), m, codec) {
        if ManifestFits(s, dirMode, codec) {
          OneManifest(ExtractedForm(staging), m, WrittenManifest(s, dirMode, codec), codec);
        }
      }
    }
  }

  lemma OneManifest(t: Tree, m: Manifest, n: Manifest, codec: Codec)
    requires Verified(t, m, codec) && Verified(t, n, codec)
    ensures m == n
  {
  }

  /** One directory with one file, whose name is legal and holds a backslash. */
  const BACKSLASH := Sources(map[], map["data" := SourceDir(OWNER_DIR, map[["a\\b"] := File([], OWNER_FILE)], {})])

  /** Sources that are backed up without complaint and never restored, whatever the limits. */
  lemma {:induction false} BackslashNeverRestores(
    dirMode: nat, codec: Codec, limits: Limits, implicitMode: nat, st: Extraction, m: Manifest)
    requires Faithful(codec)
    ensures ValidSources(BACKSLASH, codec) && BACKSLASH.directories != map[]
    ensures !Accepts(TarOf(StagingTree(BACKSLASH, dirMode, codec)), limits, implicitMode, codec, st, m)
  {
    var dir, p: Path := BACKSLASH.directories["data"], ["a\\b"];
    assert p[0][1] == '\\' && !IsSafeName(p[0]) && IsName(p[0]);
    assert p in Copied(dir) && !NoBackslash(Copied(dir));
    assert ValidSources(BACKSLASH, codec) && !CleanSources(BACKSLASH);
    hide ValidSources, CleanSources, StagingTree, Faithful, Accepts, FitsLimits, ManifestFits;
    RestoreUndoesBackup(BACKSLASH, dirMode, codec, limits, implicitMode, st, m);
  }
}
