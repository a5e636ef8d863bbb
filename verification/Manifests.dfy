/** The manifest of deploy/runtime_backup.py: what `_archive_rows` records and what
    `_load_and_verify_manifest` checks. JSON, SHA-256 and SQLite's quick_check are parameters. */
module Manifests {
  import opened Wrappers
  import opened PathNames
  import opened Trees
  import opened Sequences
  import opened Texts

  datatype Row = Row(path: string, size: int, digest: string)

  datatype Manifest = Manifest(
    format: string, version: int, files: seq<Row>, sqliteFiles: seq<string>, directoryRoots: seq<string>)

  /** `decode` answers nothing for bytes that are not JSON of the manifest's shape. */
  datatype Codec = Codec(
    sha: Bytes -> string, encode: Manifest -> Bytes, decode: Bytes -> Option<Manifest>, sqliteOk: Bytes -> bool)

  const FORMAT_NAME := "rentcompass-runtime-backup"
  const SCHEMA_VERSION := 1
  const MAX_MANIFEST_BYTES: nat := 16 * 1024 * 1024

  const MANIFEST: Path := ["manifest.json"]
  const PAYLOAD: Path := ["payload"]

  /** The facts about JSON and SHA-256 the round trip uses. */
  ghost predicate Faithful(codec: Codec) {
    && (forall b :: IsDigest(codec.sha(b)))
    && (forall m :: codec.decode(codec.encode(m)) == Some(m))
  }

  /* --- recording --- */

  predicate IsPayloadFile(t: Tree, p: Path) {
    p in t && IsAncestor(PAYLOAD, p) && t[p].File?
  }

  function PayloadFiles(t: Tree): set<Path> {
    set p | p in t && IsPayloadFile(t, p)
  }

  function RowOf(p: Path, n: Node, codec: Codec): Row
    requires n.File?
  {
    Row(Join(p), |n.content|, codec.sha(n.content))
  }

  ghost predicate ListsFiles(paths: seq<Path>, t: Tree) {
    forall i :: 0 <= i < |paths| ==> paths[i] in t && t[paths[i]].File?
  }

  ghost function RowsFor(t: Tree, paths: seq<Path>, codec: Codec): seq<Row>
    requires ListsFiles(paths, t)
  {
    seq(|paths|, i requires 0 <= i < |paths| => RowOf(paths[i], t[paths[i]], codec))
  }

  lemma FilesListed(t: Tree)
    ensures ListsFiles(Listing(PayloadFiles(t)), t)
  {
    var paths := Listing(PayloadFiles(t));
    forall i | 0 <= i < |paths| ensures paths[i] in PayloadFiles(t) { assert paths[i] in paths; }
  }

  /** One row per payload file, in sorted order. */
  ghost function RowsOf(t: Tree, codec: Codec): seq<Row> {
    FilesListed(t);
    RowsFor(t, Listing(PayloadFiles(t)), codec)
  }

  function InPayload(t: Tree): Path -> bool { (p: Path) => IsPayloadFile(t, p) }

  lemma {:induction false} FilterListing(t: Tree, paths: seq<Path>, keys: set<Path>)
    requires IsListing(paths, keys)
    ensures IsListing(Filter(paths, InPayload(t)), set p | p in keys && IsPayloadFile(t, p))
    decreases |paths|
  {
    hide IsPayloadFile, PathLe;
    FilterMembers(paths, InPayload(t));
    if paths != [] {
      ListingTail(paths, keys);
      FilterListing(t, paths[1..], keys - {paths[0]});
      var rest := Filter(paths[1..], InPayload(t));
      FilterMembers(paths[1..], InPayload(t));
      forall j | 0 <= j < |rest| ensures PathLe(paths[0], rest[j]) && paths[0] != rest[j] {
        assert rest[j] in rest;
        var k :| 0 <= k < |paths[1..]| && paths[1..][k] == rest[j];
        assert paths[k + 1] == rest[j];
      }
    }
  }

  /** `_archive_rows`: walk the sorted tree, skip directories, record each file. */
  method ArchiveRows(t: Tree, codec: Codec) returns (rows: seq<Row>)
    ensures rows == RowsOf(t, codec)
  {
    hide IsListing, Listing, IsPayloadFile;
    var paths := SortedPaths(t.Keys);
    rows := [];
    ghost var kept: seq<Path> := [];
    for i := 0 to |paths|
      invariant kept == Filter(paths[..i], InPayload(t))
      invariant ListsFiles(kept, t) && rows == RowsFor(t, kept, codec)
    {
      var p := paths[i];
      assert paths[..i + 1] == paths[..i] + [p];
      FilterAppend(paths[..i], p, InPayload(t));
      var recorded := IsPayloadFile(t, p);
      if recorded {
        PayloadFileIsFile(t, p);
        rows := rows + [RowOf(p, t[p], codec)];
        kept := kept + [p];
      }
    }
    assert paths[..|paths|] == paths;
    FilterListing(t, paths, t.Keys);
    assert PayloadFiles(t) == set p | p in t.Keys && IsPayloadFile(t, p);
    ListingUnique(kept, Listing(PayloadFiles(t)), PayloadFiles(t));
  }

  lemma PayloadFileIsFile(t: Tree, p: Path)
    requires IsPayloadFile(t, p)
    ensures p in t && t[p].File?
  {
  }

  /* --- verifying --- */

  /** `_manifest_relative_path` */
  predicate IsManifestPath(v: string, prefix: string) {
    SafeMemberName(v).Some? && Join(SafeMemberName(v).value) == v && prefix <= v
  }

  function PathIn(v: string): Path {
    var p := SafeMemberName(v);
    if p.Some? then p.value else []
  }

  lemma {:induction false} SplitAtSlash(w: string, r: string)
    requires '/' !in w
    ensures Split(w + "/" + r) == [w] + Split(r)
  {
    assert w + "/" + r == w + ("/" + r);
    SplitFromWord(w, "/" + r, "");
    assert "" + w == w && ("/" + r)[1..] == r;
  }

  /** A joined name starts with a joined directory name and a slash exactly when that directory is a proper
      ancestor. */
  lemma {:induction false} JoinPrefix(q: Path, p: Path)
    requires q != [] && p != [] && NoSlash(q) && NoSlash(p)
    ensures Join(q) + "/" <= Join(p) <==> IsAncestor(q, p)
  {
    if IsAncestor(q, p) {
      JoinAppend(q, p[|q|..]);
      assert p == q + p[|q|..];
    }
    if Join(q) + "/" <= Join(p) {
      var r := Join(p)[|Join(q)| + 1..];
      assert Join(p) == Join(q) + "/" + r;
      SplitJoined(q, r);
      SplitJoin(p);
      SplitFromParts(r, "");
      assert p == q + Split(r);
    }
  }

  lemma {:induction false} JoinAppend(q: Path, r: Path)
    requires q != [] && r != []
    ensures Join(q + r) == Join(q) + "/" + Join(r)
  {
    if |q| == 1 {
      assert (q + r)[1..] == r;
    } else {
      assert (q + r)[1..] == q[1..] + r;
      JoinAppend(q[1..], r);
    }
  }

  lemma {:induction false} SplitJoined(q: Path, r: string)
    requires q != [] && NoSlash(q)
    ensures Split(Join(q) + "/" + r) == q + Split(r)
  {
    if |q| == 1 {
      SplitAtSlash(q[0], r);
    } else {
      assert Join(q) + "/" + r == q[0] + "/" + (Join(q[1..]) + "/" + r);
      SplitAtSlash(q[0], Join(q[1..]) + "/" + r);
      SplitJoined(q[1..], r);
      assert [q[0]] + q[1..] == q;
    }
  }

  /** The accepted manifest paths below a directory are the joined names of its safe descendants. */
  lemma {:induction false} ManifestPathExact(v: string, q: Path, p: Path)
    requires q != [] && AllSafe(q)
    ensures IsManifestPath(v, Join(q) + "/") && PathIn(v) == p <==>
            IsAncestor(q, p) && AllSafe(p) && v == Join(p)
  {
    if IsAncestor(q, p) && AllSafe(p) && v == Join(p) {
      SafeMemberNameOfJoin(p);
      JoinPrefix(q, p);
    }
    if IsManifestPath(v, Join(q) + "/") && PathIn(v) == p {
      SafeMemberNameExact(v, p);
      JoinPrefix(q, p);
    }
  }

  predicate RowValid(row: Row) {
    IsManifestPath(row.path, "payload/") && row.size >= 0 && IsDigest(row.digest)
  }

  predicate RowMatches(t: Tree, row: Row, codec: Codec) {
    var p := PathIn(row.path);
    p in t && t[p].File? && |t[p].content| == row.size && codec.sha(t[p].content) == row.digest
  }

  function FileNames(t: Tree): set<string> {
    set p | p in PayloadFiles(t) :: Join(p)
  }

  function RowNames(rows: seq<Row>): set<string> {
    set row | row in rows :: row.path
  }

  ghost predicate FilesVerified(t: Tree, rows: seq<Row>, codec: Codec) {
    && (forall i :: 0 <= i < |rows| ==> RowValid(rows[i]))
    && (forall i, j :: 0 <= i < j < |rows| ==> rows[i].path != rows[j].path)
    && RowNames(rows) == FileNames(t)
    && (forall i :: 0 <= i < |rows| ==> RowMatches(t, rows[i], codec))
  }

  predicate SqliteEntryOk(t: Tree, v: string, names: set<string>, codec: Codec) {
    && IsManifestPath(v, "payload/sqlite/") && v in names
    && PathIn(v) in t && t[PathIn(v)].File? && codec.sqliteOk(t[PathIn(v)].content)
  }

  predicate RootEntryOk(t: Tree, v: string) {
    IsManifestPath(v, "payload/directories/") && PathIn(v) in t && t[PathIn(v)].Dir?
  }

  ghost predicate ListsVerified(t: Tree, m: Manifest, codec: Codec) {
    && (forall i :: 0 <= i < |m.sqliteFiles| ==> SqliteEntryOk(t, m.sqliteFiles[i], RowNames(m.files), codec))
    && NoRepeats(m.sqliteFiles)
    && (forall i :: 0 <= i < |m.directoryRoots| ==> RootEntryOk(t, m.directoryRoots[i]))
    && NoRepeats(m.directoryRoots)
  }

  predicate TopLevelOk(t: Tree) {
    && (forall p :: p in t && |p| == 1 ==> p in [MANIFEST, PAYLOAD])
    && MANIFEST in t && t[MANIFEST].File? && |t[MANIFEST].content| <= MAX_MANIFEST_BYTES
    && PAYLOAD in t && t[PAYLOAD].Dir?
  }

  /** The extracted tree is the one its manifest `m` describes. */
  ghost predicate Verified(t: Tree, m: Manifest, codec: Codec) {
    && TopLevelOk(t)
    && codec.decode(t[MANIFEST].content) == Some(m)
    && m.format == FORMAT_NAME && m.version == SCHEMA_VERSION
    && FilesVerified(t, m.files, codec)
    && ListsVerified(t, m, codec)
  }

  method VerifyFiles(t: Tree, rows: seq<Row>, codec: Codec) returns (ok: bool, expected: set<string>)
    ensures ok <==> FilesVerified(t, rows, codec)
    ensures ok ==> expected == RowNames(rows)
  {
    hide IsManifestPath, IsDigest, IsPayloadFile;
    expected := {};
    for i := 0 to |rows|
      invariant forall k :: 0 <= k < i ==> RowValid(rows[k])
      invariant forall j, k :: 0 <= j < k < i ==> rows[j].path != rows[k].path
      invariant forall v :: v in expected <==> exists k :: 0 <= k < i && rows[k].path == v
    {
      if !RowValid(rows[i]) || rows[i].path in expected { return false, expected; }
      expected := expected + {rows[i].path};
    }
    assert expected == RowNames(rows) by {
      assert forall v :: v in RowNames(rows) ==> exists k :: 0 <= k < |rows| && rows[k].path == v;
    }
    if expected != FileNames(t) { return false, expected; }
    for i := 0 to |rows|
      invariant forall k :: 0 <= k < i ==> RowMatches(t, rows[k], codec)
    {
      if !RowMatches(t, rows[i], codec) { return false, expected; }
    }
    return true, expected;
  }

  method VerifySqlite(t: Tree, values: seq<string>, expected: set<string>, codec: Codec) returns (ok: bool)
    ensures ok <==> (forall i :: 0 <= i < |values| ==> SqliteEntryOk(t, values[i], expected, codec)) && NoRepeats(values)
  {
    hide SqliteEntryOk;
    var seen: set<string> := {};
    for i := 0 to |values|
      invariant forall k :: 0 <= k < i ==> SqliteEntryOk(t, values[k], expected, codec)
      invariant forall j, k :: 0 <= j < k < i ==> values[j] != values[k]
      invariant forall v :: v in seen <==> exists k :: 0 <= k < i && values[k] == v
    {
      if values[i] in seen || !SqliteEntryOk(t, values[i], expected, codec) { return false; }
      seen := seen + {values[i]};
    }
    return true;
  }

  method VerifyRoots(t: Tree, values: seq<string>) returns (ok: bool)
    ensures ok <==> (forall i :: 0 <= i < |values| ==> RootEntryOk(t, values[i])) && NoRepeats(values)
  {
    hide RootEntryOk;
    var seen: set<string> := {};
    for i := 0 to |values|
      invariant forall k :: 0 <= k < i ==> RootEntryOk(t, values[k])
      invariant forall j, k :: 0 <= j < k < i ==> values[j] != values[k]
      invariant forall v :: v in seen <==> exists k :: 0 <= k < i && values[k] == v
    {
      if values[i] in seen || !RootEntryOk(t, values[i]) { return false; }
      seen := seen + {values[i]};
    }
    return true;
  }

  /** `_load_and_verify_manifest`: accepts a tree with exactly the manifest that describes it. */
  method LoadAndVerifyManifest(t: Tree, codec: Codec) returns (r: Option<Manifest>)
    ensures r.Some? ==> Verified(t, r.value, codec)
    ensures forall m :: Verified(t, m, codec) ==> r == Some(m)
  {
    hide FilesVerified, SqliteEntryOk, RootEntryOk, NoRepeats, RowNames;
    if !TopLevelOk(t) { return None; }
    var decoded := codec.decode(t[MANIFEST].content);
    if decoded.None? { return None; }
    var m := decoded.value;
    if m.format != FORMAT_NAME || m.version != SCHEMA_VERSION { return None; }
    var filesOk, expected := VerifyFiles(t, m.files, codec);
    if !filesOk { return None; }
    var sqliteOk := VerifySqlite(t, m.sqliteFiles, expected, codec);
    if !sqliteOk { return None; }
    var rootsOk := VerifyRoots(t, m.directoryRoots);
    if !rootsOk { return None; }
    r := Some(m);
  }

  /** With a collision-free digest, a manifest admits one set of payload files: two trees verified against
      the same manifest hold the same payload paths with the same bytes. */
  lemma {:induction false} ManifestDeterminesPayload(t: Tree, u: Tree, m: Manifest, codec: Codec)
    requires forall a, b :: codec.sha(a) == codec.sha(b) ==> a == b
    requires Verified(t, m, codec) && Verified(u, m, codec) && WellFormed(t) && WellFormed(u)
    ensures PayloadFiles(t) == PayloadFiles(u)
    ensures forall p :: p in PayloadFiles(t) ==> t[p].content == u[p].content
  {
    forall p | p in PayloadFiles(t) ensures p in PayloadFiles(u) && t[p].content == u[p].content {
      SamePayloadFile(t, u, m, codec, p);
    }
    forall p | p in PayloadFiles(u) ensures p in PayloadFiles(t) {
      SamePayloadFile(u, t, m, codec, p);
    }
  }

  lemma {:induction false} RowOfFile(t: Tree, rows: seq<Row>, codec: Codec, p: Path) returns (row: Row)
    requires FilesVerified(t, rows, codec) && WellFormed(t) && p in PayloadFiles(t)
    ensures row in rows && row.path == Join(p) && RowValid(row) && PathIn(row.path) == p
  {
    hide IsDigest, SafeMemberName, RowMatches, PathIn, Join, IsManifestPath;
    assert Join(p) in FileNames(t);
    assert Join(p) in RowNames(rows);
    row :| row in rows && row.path == Join(p);
    var i :| 0 <= i < |rows| && rows[i] == row;
    assert RowValid(rows[i]);
    PayloadPrefix();
    ManifestPathExact(row.path, PAYLOAD, PathIn(row.path));
    JoinInjective(PathIn(row.path), p);
  }

  lemma PayloadPrefix()
    ensures Join(PAYLOAD) + "/" == "payload/" && AllSafe(PAYLOAD)
  {
  }

  lemma {:induction false} SamePayloadFile(t: Tree, u: Tree, m: Manifest, codec: Codec, p: Path)
    requires forall a, b :: codec.sha(a) == codec.sha(b) ==> a == b
    requires Verified(t, m, codec) && Verified(u, m, codec) && WellFormed(t) && WellFormed(u)
    requires p in PayloadFiles(t)
    ensures p in PayloadFiles(u) && t[p].content == u[p].content
  {
    hide ListsVerified, TopLevelOk, RowValid, PathIn, Join, WellFormed;
    var row := RowOfFile(t, m.files, codec, p);
    var i :| 0 <= i < |m.files| && m.files[i] == row;
    assert RowMatches(t, m.files[i], codec) && RowMatches(u, m.files[i], codec);
  }

}
