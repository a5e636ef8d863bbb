/** What `_load_and_verify_manifest` accepts, on the fields of the manifest and the files of the tree. */
module ManifestRecords {
  import opened Wrappers
  import opened PathNames
  import opened Trees
  import opened Sequences
  import opened Texts
  import opened Manifests

  /** Sixty-four digits or small letters from a to f. */
  ghost predicate IsHex(d: string) {
    |d| == 64 && forall c :: c in d ==> 48 <= c as int <= 57 || 97 <= c as int <= 102
  }

  /** `v` is the name of the path `p`, whose components are safe and which lies below `q`. */
  ghost predicate Names(v: string, q: Path, p: Path) {
    |q| < |p| && q <= p && AllSafe(p) && v == Join(p)
  }

  /** The row names a payload file and has its size and digest. */
  ghost predicate Describes(t: Tree, row: Row, codec: Codec) {
    exists p :: p in t && t[p].File? && Names(row.path, ["payload"], p)
                && row.size == |t[p].content| && row.digest == codec.sha(t[p].content) && IsHex(row.digest)
  }

  /** Every row describes a file, no two the same one, and every payload file has a row. */
  ghost predicate DescribesAll(t: Tree, rows: seq<Row>, codec: Codec) {
    && (forall i :: 0 <= i < |rows| ==> Describes(t, rows[i], codec))
    && (forall i, j :: 0 <= i < j < |rows| ==> rows[i].path != rows[j].path)
    && forall p :: p in t && |p| > 1 && p[0] == "payload" && t[p].File? ==>
         exists i :: 0 <= i < |rows| && rows[i].path == Join(p)
  }

  /** The name of a database that passes SQLite's check. */
  ghost predicate NamesDatabase(t: Tree, v: string, codec: Codec) {
    exists p :: p in t && t[p].File? && Names(v, ["payload", "sqlite"], p) && codec.sqliteOk(t[p].content)
  }

  /** The name of a directory. */
  ghost predicate NamesRoot(t: Tree, v: string) {
    exists p :: p in t && t[p].Dir? && Names(v, ["payload", "directories"], p)
  }

  /** The manifest names sound databases and existing directories, each once. */
  ghost predicate NamesAll(t: Tree, m: Manifest, codec: Codec) {
    && (forall i :: 0 <= i < |m.sqliteFiles| ==> NamesDatabase(t, m.sqliteFiles[i], codec))
    && (forall i, j :: 0 <= i < j < |m.sqliteFiles| ==> m.sqliteFiles[i] != m.sqliteFiles[j])
    && (forall i :: 0 <= i < |m.directoryRoots| ==> NamesRoot(t, m.directoryRoots[i]))
    && forall i, j :: 0 <= i < j < |m.directoryRoots| ==> m.directoryRoots[i] != m.directoryRoots[j]
  }

  /** The tree holds the manifest, within 16 MiB, and the payload, and nothing beside them. */
  ghost predicate HasRoots(t: Tree) {
    && ["manifest.json"] in t && t[["manifest.json"]].File? && |t[["manifest.json"]].content| <= 16777216
    && ["payload"] in t && t[["payload"]].Dir?
    && forall name: string :: [name] in t ==> name == "manifest.json" || name == "payload"
  }

  lemma NamesExact(v: string, q: Path, p: Path)
    requires q != [] && AllSafe(q)
    ensures Names(v, q, p) <==> IsManifestPath(v, Join(q) + "/") && PathIn(v) == p
  {
    hide IsSafeName, IsManifestPath;
    ManifestPathExact(v, q, p);
    assert q <= p && |q| < |p| <==> IsAncestor(q, p);
  }

  lemma FixedNames()
    ensures IsSafeName("payload") && IsSafeName("sqlite") && IsSafeName("directories")
  {
  }

  lemma FixedRoots()
    ensures Join(["payload"]) + "/" == "payload/" && AllSafe(["payload"])
    ensures Join(["payload", "sqlite"]) + "/" == "payload/sqlite/" && AllSafe(["payload", "sqlite"])
    ensures Join(["payload", "directories"]) + "/" == "payload/directories/" && AllSafe(["payload", "directories"])
  {
    FixedNames();
    hide IsSafeName;
    JoinedPair("payload", "sqlite");
    JoinedPair("payload", "directories");
  }

  lemma JoinedPair(a: string, b: string)
    ensures Join([a, b]) == a + "/" + b
  {
    assert [a, b][1..] == [b];
  }

  lemma HexExact(d: string)
    ensures IsHex(d) <==> IsDigest(d)
  {
    assert forall i :: 0 <= i < |d| ==> d[i] in d;
  }

  lemma RowExact(t: Tree, row: Row, codec: Codec)
    ensures Describes(t, row, codec) <==> RowValid(row) && RowMatches(t, row, codec)
  {
    hide IsManifestPath, IsHex, IsDigest, AllSafe, Names, PathIn;
    FixedRoots();
    HexExact(row.digest);
    forall p ensures Names(row.path, ["payload"], p) <==> IsManifestPath(row.path, "payload/") && PathIn(row.path) == p {
      NamesExact(row.path, ["payload"], p);
    }
  }

  /** The payload files and the names in the rows, on their own fields. */
  lemma FilesOf(t: Tree, rows: seq<Row>)
    ensures forall p :: p in PayloadFiles(t) <==> p in t && |p| > 1 && p[0] == "payload" && t[p].File?
    ensures forall v :: v in RowNames(rows) <==> exists i :: 0 <= i < |rows| && rows[i].path == v
  {
    forall p ensures p in PayloadFiles(t) <==> p in t && |p| > 1 && p[0] == "payload" && t[p].File? {
      assert |p| > 0 ==> p[..1] == [p[0]];
    }
    forall v ensures v in RowNames(rows) <==> exists i :: 0 <= i < |rows| && rows[i].path == v {
      if v in RowNames(rows) {
        var row :| row in rows && row.path == v;
        var i :| 0 <= i < |rows| && rows[i] == row;
      }
    }
  }

  lemma DescribedIsFile(t: Tree, row: Row, codec: Codec)
    requires Describes(t, row, codec)
    ensures row.path in FileNames(t)
  {
    hide AllSafe, Join;
    var p :| p in t && t[p].File? && Names(row.path, ["payload"], p);
    assert p[..1] == PAYLOAD;
  }

  lemma {:induction false} NamesAgree(t: Tree, rows: seq<Row>, codec: Codec)
    requires forall i :: 0 <= i < |rows| ==> Describes(t, rows[i], codec)
    ensures RowNames(rows) == FileNames(t) <==>
            forall p :: p in t && |p| > 1 && p[0] == "payload" && t[p].File? ==>
              exists i :: 0 <= i < |rows| && rows[i].path == Join(p)
  {
    FilesOf(t, rows);
    forall v | v in RowNames(rows) ensures v in FileNames(t) {
      var i :| 0 <= i < |rows| && rows[i].path == v;
      DescribedIsFile(t, rows[i], codec);
    }
    hide Describes, RowNames, PayloadFiles, Join;
    if RowNames(rows) == FileNames(t) {
      forall p | p in t && |p| > 1 && p[0] == "payload" && t[p].File?
        ensures exists i :: 0 <= i < |rows| && rows[i].path == Join(p)
      {
        assert p in PayloadFiles(t) && Join(p) in FileNames(t);
      }
    }
  }

  lemma {:induction false} FilesExact(t: Tree, rows: seq<Row>, codec: Codec)
    ensures DescribesAll(t, rows, codec) <==> FilesVerified(t, rows, codec)
  {
    hide Describes, RowValid, RowMatches, RowNames, FileNames, Join;
    forall i | 0 <= i < |rows| ensures Describes(t, rows[i], codec) <==> RowValid(rows[i]) && RowMatches(t, rows[i], codec) {
      RowExact(t, rows[i], codec);
    }
    if forall i :: 0 <= i < |rows| ==> Describes(t, rows[i], codec) { NamesAgree(t, rows, codec); }
  }

  lemma DatabaseExact(t: Tree, rows: seq<Row>, v: string, codec: Codec)
    requires RowNames(rows) == FileNames(t)
    ensures SqliteEntryOk(t, v, RowNames(rows), codec) <==> NamesDatabase(t, v, codec)
  {
    FixedRoots();
    FilesOf(t, rows);
    hide IsManifestPath, AllSafe, PathIn, Join, RowNames, PayloadFiles;
    NamesExact(v, ["payload", "sqlite"], PathIn(v));
    if p :| p in t && t[p].File? && Names(v, ["payload", "sqlite"], p) && codec.sqliteOk(t[p].content) {
      NamesExact(v, ["payload", "sqlite"], p);
      assert p in PayloadFiles(t) && Join(p) in FileNames(t);
    }
  }

  lemma RootExact(t: Tree, v: string)
    ensures RootEntryOk(t, v) <==> NamesRoot(t, v)
  {
    FixedRoots();
    hide IsManifestPath, AllSafe, PathIn, Join, Names;
    NamesExact(v, ["payload", "directories"], PathIn(v));
    if p :| p in t && t[p].Dir? && Names(v, ["payload", "directories"], p) {
      NamesExact(v, ["payload", "directories"], p);
    }
  }

  lemma {:induction false} ListsExact(t: Tree, m: Manifest, codec: Codec)
    requires RowNames(m.files) == FileNames(t)
    ensures ListsVerified(t, m, codec) <==> NamesAll(t, m, codec)
  {
    hide RowNames, FileNames, SqliteEntryOk, RootEntryOk, NamesDatabase, NamesRoot;
    forall i | 0 <= i < |m.sqliteFiles|
      ensures SqliteEntryOk(t, m.sqliteFiles[i], RowNames(m.files), codec) <==> NamesDatabase(t, m.sqliteFiles[i], codec)
    {
      DatabaseExact(t, m.files, m.sqliteFiles[i], codec);
    }
    forall i | 0 <= i < |m.directoryRoots|
      ensures RootEntryOk(t, m.directoryRoots[i]) <==> NamesRoot(t, m.directoryRoots[i])
    {
      RootExact(t, m.directoryRoots[i]);
    }
  }

  lemma HasRootsExact(t: Tree)
    ensures HasRoots(t) <==> TopLevelOk(t)
  {
    forall p: Path | |p| == 1 ensures p == [p[0]] {}
  }

  /** A tree is the one its manifest describes if and only if the manifest, of this format and version, names every
      payload file once with its size and digest, databases that are sound, and directories that exist. */
  lemma {:induction false} VerifiedExact(t: Tree, m: Manifest, codec: Codec)
    ensures Verified(t, m, codec) <==>
              && HasRoots(t)
              && codec.decode(t[["manifest.json"]].content) == Some(m)
              && m.format == "rentcompass-runtime-backup" && m.version == 1
              && DescribesAll(t, m.files, codec)
              && NamesAll(t, m, codec)
  {
    HasRootsExact(t);
    FilesExact(t, m.files, codec);
    hide NamesAll, DescribesAll, ListsVerified, HasRoots, TopLevelOk, RowNames, FileNames, RowValid, RowMatches;
    if FilesVerified(t, m.files, codec) { ListsExact(t, m, codec); }
  }
}
