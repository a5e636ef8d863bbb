/** The staging tree of `create_backup`, and its restore up to verification: what is accepted, and that it is
    the tree that was staged. */
module Staging {
  import opened Wrappers
  import opened PathNames
  import opened Trees
  import opened Sequences
  import opened Manifests
  import opened TarRoundTrip

  /** A directory source as the copy sees it; `excluded` are the live database files. */
  datatype SourceDir = SourceDir(mode: nat, tree: Tree, excluded: set<Path>)

  /** SQLite sources hold what the online backup produced. */
  datatype Sources = Sources(sqlite: map<string, Bytes>, directories: map<string, SourceDir>)

  predicate IsLabelChar(c: char) {
    'A' <= c <= 'Z' || 'a' <= c <= 'z' || '0' <= c <= '9'
  }

  /** `[A-Za-z0-9][A-Za-z0-9._-]{0,63}` */
  predicate IsLabel(l: string) {
    && 1 <= |l| <= 64 && IsLabelChar(l[0])
    && forall i :: 1 <= i < |l| ==> IsLabelChar(l[i]) || l[i] in "._-"
  }

  /** The copy keeps every directory and every file that is not excluded. */
  function Copied(d: SourceDir): Tree {
    map p | p in d.tree && !(d.tree[p].File? && p in d.excluded) :: d.tree[p]
  }

  ghost predicate ValidSources(s: Sources, codec: Codec) {
    && (forall l :: l in s.sqlite ==> IsLabel(l) && codec.sqliteOk(s.sqlite[l]))
    && (forall l :: l in s.directories ==> IsLabel(l) && WellFormed(s.directories[l].tree))
  }

  /** No copied name holds a backslash. */
  ghost predicate CleanSources(s: Sources) {
    forall l :: l in s.directories ==> NoBackslash(Copied(s.directories[l]))
  }

  const SQLITE: Path := ["payload", "sqlite"]
  const DIRECTORIES: Path := ["payload", "directories"]

  const SUFFIX := ".sqlite3"

  function SqlitePath(l: string): Path { SQLITE + [l + SUFFIX] }
  function DirectoryPath(l: string): Path { DIRECTORIES + [l] }

  function WithoutSuffix(name: string): string {
    if |name| >= |SUFFIX| && name[|name| - |SUFFIX|..] == SUFFIX then name[..|name| - |SUFFIX|] else ""
  }

  /** What `create_backup` stages at `p` below its staging directory, the manifest apart. */
  function StagedAt(s: Sources, dirMode: nat, p: Path): Option<Node> {
    if p in [PAYLOAD, SQLITE, DIRECTORIES] then Some(Dir(dirMode))
    else if |p| == 3 && p[..2] == SQLITE && p[2] == WithoutSuffix(p[2]) + SUFFIX && WithoutSuffix(p[2]) in s.sqlite then
      Some(File(s.sqlite[WithoutSuffix(p[2])], OWNER_FILE))
    else if |p| == 3 && p[..2] == DIRECTORIES && p[2] in s.directories then
      Some(Dir(s.directories[p[2]].mode))
    else if |p| > 3 && p[..2] == DIRECTORIES && p[2] in s.directories && p[3..] in Copied(s.directories[p[2]]) then
      Some(Copied(s.directories[p[2]])[p[3..]])
    else None
  }

  function StagedPaths(s: Sources): set<Path> {
    {PAYLOAD, SQLITE, DIRECTORIES}
    + (set l | l in s.sqlite :: SqlitePath(l))
    + (set l | l in s.directories :: DirectoryPath(l))
    + (set l, q | l in s.directories && q in Copied(s.directories[l]) :: DirectoryPath(l) + q)
  }

  function PayloadTree(s: Sources, dirMode: nat): Tree {
    map p | p in StagedPaths(s) && StagedAt(s, dirMode, p).Some? :: StagedAt(s, dirMode, p).value
  }

  lemma PayloadTreeExact(s: Sources, dirMode: nat, p: Path)
    ensures p in PayloadTree(s, dirMode) <==> StagedAt(s, dirMode, p).Some?
    ensures p in PayloadTree(s, dirMode) ==> PayloadTree(s, dirMode)[p] == StagedAt(s, dirMode, p).value
  {
    if StagedAt(s, dirMode, p).Some? && p !in [PAYLOAD, SQLITE, DIRECTORIES] {
      assert p == p[..2] + [p[2]] + p[3..];
      if |p| == 3 {
        assert p == p[..2] + [p[2]];
      } else {
        assert p == DirectoryPath(p[2]) + p[3..];
      }
    }
  }

  lemma {:induction false} LabelIsSafe(l: string)
    requires IsLabel(l)
    ensures IsSafeName(l) && IsSafeName(l + SUFFIX)
  {
    assert forall i :: 0 <= i < |l| ==> l[i] != '/' && l[i] != '\\' && l[i] != '\0';
    assert l[0] != '.';
    assert (l + SUFFIX)[0] == l[0];
  }

  lemma {:induction false} SafeTriple(a: Path, name: string)
    requires a in [SQLITE, DIRECTORIES] && IsSafeName(name)
    ensures AllSafe(a + [name])
  {
    assert IsSafeName("payload") && IsSafeName("sqlite") && IsSafeName("directories");
  }

  lemma {:induction false} CopiedUnsafe(s: Sources, dirMode: nat, codec: Codec, l: string, q: Path)
    requires ValidSources(s, codec) && NoBackslash(PayloadTree(s, dirMode))
    requires l in s.directories && q in Copied(s.directories[l])
    ensures AllSafe(q)
  {
    hide IsSafeName, IsName, IsLabel, PayloadTree;
    var p := DirectoryPath(l) + q;
    assert q in s.directories[l].tree && q != [];
    assert p[3..] == q && p[2] == l && p[..2] == DIRECTORIES;
    PayloadTreeExact(s, dirMode, p);
    assert forall i :: 0 <= i < |q| ==> q[i] == p[3 + i];
  }

  /** The staged payload is a tree a file system can hold, and names in it are unsafe only below a source. */
  lemma {:induction false} PayloadTreeWellFormed(s: Sources, dirMode: nat, codec: Codec)
    requires ValidSources(s, codec)
    ensures WellFormed(PayloadTree(s, dirMode))
    ensures NoBackslash(PayloadTree(s, dirMode)) <==> CleanSources(s)
  {
    var t := PayloadTree(s, dirMode);
    hide PayloadTree, ValidSources, AllSafe, AllNames, Copied;
    forall p | p in t
      ensures p != [] && AllNames(p) && (|p| > 1 ==> Parent(p) in t && t[Parent(p)].Dir?)
      ensures CleanSources(s) ==> AllSafe(p)
    {
      StagedWellFormed(s, dirMode, codec, p);
    }
    if NoBackslash(t) {
      forall l, q | l in s.directories && q in Copied(s.directories[l]) ensures AllSafe(q) {
        CopiedUnsafe(s, dirMode, codec, l, q);
      }
    }
  }

  lemma {:induction false} StagedWellFormed(s: Sources, dirMode: nat, codec: Codec, p: Path)
    requires ValidSources(s, codec) && p in PayloadTree(s, dirMode)
    ensures p != [] && AllNames(p)
    ensures |p| > 1 ==> Parent(p) in PayloadTree(s, dirMode) && PayloadTree(s, dirMode)[Parent(p)].Dir?
    ensures CleanSources(s) ==> AllSafe(p)
  {
    hide IsSafeName, IsName, IsLabel, PayloadTree;
    PayloadTreeExact(s, dirMode, p);
    if |p| <= 2 {
      FixedPaths();
      PayloadTreeExact(s, dirMode, PAYLOAD);
    } else if |p| == 3 {
      assert p == p[..2] + [p[2]] && Parent(p) == p[..2];
      PayloadTreeExact(s, dirMode, Parent(p));
      LabelIsSafe(if p[..2] == SQLITE then WithoutSuffix(p[2]) else p[2]);
      SafeTriple(p[..2], p[2]);
      SafeIsNamed(p);
    } else {
      hide StagedAt;
      StagedBelow(s, dirMode, codec, p);
    }
  }

  lemma FixedPaths()
    ensures AllSafe(PAYLOAD) && AllSafe(SQLITE) && AllSafe(DIRECTORIES)
    ensures AllNames(PAYLOAD) && AllNames(SQLITE) && AllNames(DIRECTORIES)
    ensures Parent(SQLITE) == PAYLOAD && Parent(DIRECTORIES) == PAYLOAD
  {
    assert IsSafeName("payload") && IsSafeName("sqlite") && IsSafeName("directories");
  }

  lemma SafeIsNamed(p: Path)
    requires AllSafe(p)
    ensures AllNames(p)
  {
  }

  lemma {:induction false} StagedBelow(s: Sources, dirMode: nat, codec: Codec, p: Path)
    requires ValidSources(s, codec) && p in PayloadTree(s, dirMode) && |p| > 3
    ensures AllNames(p) && Parent(p) in PayloadTree(s, dirMode) && PayloadTree(s, dirMode)[Parent(p)].Dir?
    ensures CleanSources(s) ==> AllSafe(p)
  {
    hide IsSafeName, IsName, IsLabel, PayloadTree;
    PayloadTreeExact(s, dirMode, p);
    PayloadTreeExact(s, dirMode, Parent(p));
    var q := p[3..];
    assert q in s.directories[p[2]].tree;
    PartsBelow(p);
    LabelIsSafe(p[2]);
    SafeTriple(DIRECTORIES, p[2]);
    SafeIsNamed(p[..3]);
    JoinedSafe(p);
  }

  lemma PartsBelow(p: Path)
    requires |p| > 3
    ensures p[..3] == p[..2] + [p[2]] && Parent(p)[..2] == p[..2] && Parent(p)[2] == p[2]
    ensures |p| > 4 ==> Parent(p)[3..] == Parent(p[3..])
  {
  }

  lemma JoinedSafe(p: Path)
    requires |p| >= 3
    ensures AllNames(p[..3]) && AllNames(p[3..]) ==> AllNames(p)
    ensures AllSafe(p[..3]) && AllSafe(p[3..]) ==> AllSafe(p)
  {
    hide IsName, IsSafeName;
    forall i | 0 <= i < |p| ensures p[i] == if i < 3 then p[..3][i] else p[3..][i - 3] {}
  }

  /* --- the manifest that is staged beside the payload --- */

  /** `sorted(labels)` */
  ghost function SortedLabels(labels: set<string>): seq<string> {
    Heads(Listing(set l | l in labels :: [l]))
  }

  function Heads(paths: seq<Path>): seq<string> {
    seq(|paths|, i requires 0 <= i < |paths| => if paths[i] == [] then "" else paths[i][0])
  }

  lemma {:induction false} HeadsOfSingles(paths: seq<Path>)
    requires NoRepeats(paths) && forall p :: p in paths ==> |p| == 1
    ensures NoRepeats(Heads(paths)) && forall l :: l in Heads(paths) <==> [l] in paths
  {
    forall i | 0 <= i < |paths| ensures paths[i] == [Heads(paths)[i]] {
      assert paths[i] in paths;
    }
    forall l | [l] in paths ensures l in Heads(paths) {
      var i :| 0 <= i < |paths| && paths[i] == [l];
      assert Heads(paths)[i] == l;
    }
  }

  lemma {:induction false} SortedLabelsExact(labels: set<string>)
    ensures NoRepeats(SortedLabels(labels)) && forall l :: l in SortedLabels(labels) <==> l in labels
  {
    var keys := set l | l in labels :: [l];
    var paths := Listing(keys);
    ListingDistinct(keys);
    hide IsListing, Listing, NoRepeats;
    HeadsOfSingles(paths);
    assert forall l :: [l] in keys <==> l in labels;
  }

  ghost function SqliteNames(s: Sources): seq<string> {
    var labels := SortedLabels(s.sqlite.Keys);
    seq(|labels|, i requires 0 <= i < |labels| => Join(SqlitePath(labels[i])))
  }

  ghost function RootNames(s: Sources): seq<string> {
    var labels := SortedLabels(s.directories.Keys);
    seq(|labels|, i requires 0 <= i < |labels| => Join(DirectoryPath(labels[i])))
  }

  ghost function WrittenManifest(s: Sources, dirMode: nat, codec: Codec): Manifest {
    Manifest(FORMAT_NAME, SCHEMA_VERSION, RowsOf(PayloadTree(s, dirMode), codec), SqliteNames(s), RootNames(s))
  }

  /** The whole staging tree: the payload and its manifest. */
  ghost function StagingTree(s: Sources, dirMode: nat, codec: Codec): Tree {
    PayloadTree(s, dirMode)[MANIFEST := File(codec.encode(WrittenManifest(s, dirMode, codec)), OWNER_FILE)]
  }

  lemma {:induction false} StagingWellFormed(s: Sources, dirMode: nat, codec: Codec)
    requires ValidSources(s, codec)
    ensures WellFormed(StagingTree(s, dirMode, codec))
    ensures NoBackslash(StagingTree(s, dirMode, codec)) <==> CleanSources(s)
    ensures MANIFEST !in PayloadTree(s, dirMode)
  {
    hide PayloadTree, ValidSources, CleanSources, AllNames, AllSafe, WrittenManifest;
    PayloadTreeWellFormed(s, dirMode, codec);
    ManifestNotStaged(s, dirMode);
    ManifestSafe();
    AddingTopFile(PayloadTree(s, dirMode), MANIFEST, StagingTree(s, dirMode, codec)[MANIFEST]);
  }

  lemma AddingTopFile(t: Tree, p: Path, n: Node)
    requires WellFormed(t) && p !in t && |p| == 1 && AllNames(p) && AllSafe(p)
    ensures WellFormed(t[p := n]) && (NoBackslash(t[p := n]) <==> NoBackslash(t))
  {
    hide AllNames, AllSafe;
    assert forall q :: q in t ==> q in t[p := n];
  }

  lemma ManifestSafe()
    ensures AllSafe(MANIFEST) && AllNames(MANIFEST)
  {
    assert IsSafeName("manifest.json");
  }

  lemma ManifestNotStaged(s: Sources, dirMode: nat)
    ensures MANIFEST !in PayloadTree(s, dirMode)
  {
    PayloadTreeExact(s, dirMode, MANIFEST);
  }

  /** Digits, capital and small letters by their codes. */
  ghost predicate IsAlphanumeric(c: char) {
    48 <= c as int <= 57 || 65 <= c as int <= 90 || 97 <= c as int <= 122
  }

  /** A label starts with a letter or digit, goes on with those and `.`, `_` and `-`, and has at most 64 characters. */
  lemma LabelGrows(l: string, c: char)
    ensures !IsLabel("")
    ensures IsLabel([c]) <==> IsAlphanumeric(c)
    ensures l != "" ==>
              (IsLabel(l + [c]) <==>
               IsLabel(l) && |l| < 64 && (IsAlphanumeric(c) || c == '.' || c == '_' || c == '-'))
  {
    if l != "" {
      var m := l + [c];
      assert m[0] == l[0] && m[|l|] == c && forall i :: 0 <= i < |l| ==> m[i] == l[i];
      hide IsLabelChar;
    }
    assert IsLabelChar(c) <==> IsAlphanumeric(c);
  }
}
