/** Directory trees as maps from relative paths to nodes, and the order in which `sorted(root.rglob("*"))`
    visits them. */
module Trees {
  import opened PathNames
  import opened Sorting
  import opened Sequences

  newtype byte = b: int | 0 <= b < 256
  type Bytes = seq<byte>

  datatype Node = Dir(mode: nat) | File(content: Bytes, mode: nat)
  type Tree = map<Path, Node>

  const OWNER_DIR: nat := 448   // 0o700
  const OWNER_FILE: nat := 384  // 0o600
  const PERMISSION_BITS: nat := 512 // one past 0o777

  function Parent(p: Path): Path
    requires p != []
  {
    p[..|p| - 1]
  }

  /** Proper ancestor, the tree root excluded. */
  predicate IsAncestor(a: Path, p: Path) {
    a != [] && |a| < |p| && p[..|a|] == a
  }

  /** A tree a file system can hold: every entry is named and sits in a directory of the tree. */
  ghost predicate WellFormed(t: Tree) {
    forall p :: p in t ==> p != [] && AllNames(p) && (|p| > 1 ==> Parent(p) in t && t[Parent(p)].Dir?)
  }

  lemma {:induction false} AncestorsPresent(t: Tree, a: Path, p: Path)
    requires WellFormed(t) && p in t && IsAncestor(a, p)
    ensures a in t && t[a].Dir?
    decreases |p|
  {
    if |a| == |p| - 1 {
      assert a == Parent(p);
    } else {
      assert Parent(p)[..|a|] == a;
      AncestorsPresent(t, a, Parent(p));
    }
  }

  function NodeSize(n: Node): nat {
    if n.File? then |n.content| else 0
  }

  /* --- the order of pathlib: part by part, each part by code points --- */

  predicate NameLe(a: string, b: string) {
    a == "" || (b != "" && (a[0] < b[0] || (a[0] == b[0] && NameLe(a[1..], b[1..]))))
  }

  predicate PathLe(p: Path, q: Path) {
    p == [] || (q != [] && if p[0] == q[0] then PathLe(p[1..], q[1..]) else NameLe(p[0], q[0]))
  }

  lemma {:induction false} NameLeTotal(a: string, b: string)
    ensures NameLe(a, b) || NameLe(b, a)
    ensures NameLe(a, b) && NameLe(b, a) ==> a == b
  {
    if a != "" && b != "" && a[0] == b[0] {
      NameLeTotal(a[1..], b[1..]);
      assert a == [a[0]] + a[1..] && b == [b[0]] + b[1..];
    }
  }

  lemma {:induction false} NameLeTransitive(a: string, b: string, c: string)
    requires NameLe(a, b) && NameLe(b, c)
    ensures NameLe(a, c)
  {
    if a != "" && a[0] == b[0] && b[0] == c[0] {
      NameLeTransitive(a[1..], b[1..], c[1..]);
    }
  }

  lemma {:induction false} PathLeTotal(p: Path, q: Path)
    ensures PathLe(p, q) || PathLe(q, p)
    ensures PathLe(p, q) && PathLe(q, p) ==> p == q
  {
    if p != [] && q != [] {
      if p[0] == q[0] {
        PathLeTotal(p[1..], q[1..]);
        assert p == [p[0]] + p[1..] && q == [q[0]] + q[1..];
      } else {
        NameLeTotal(p[0], q[0]);
      }
    }
  }

  lemma {:induction false} PathLeTransitive(p: Path, q: Path, r: Path)
    requires PathLe(p, q) && PathLe(q, r)
    ensures PathLe(p, r)
  {
    if p != [] {
      if p[0] == q[0] && q[0] == r[0] {
        PathLeTransitive(p[1..], q[1..], r[1..]);
      } else if p[0] != q[0] && q[0] != r[0] {
        NameLeTransitive(p[0], q[0], r[0]);
        if p[0] == r[0] { NameLeTotal(p[0], q[0]); }
      }
    }
  }

  lemma {:induction false} PathLeIsTotalPreorder()
    ensures TotalPreorder(PathLe)
  {
    forall p, q ensures PathLe(p, q) || PathLe(q, p) { PathLeTotal(p, q); }
    forall p, q, r | PathLe(p, q) && PathLe(q, r) ensures PathLe(p, r) { PathLeTransitive(p, q, r); }
  }

  /** A directory sorts before everything below it. */
  lemma {:induction false} AncestorSortsFirst(a: Path, p: Path)
    requires |a| < |p| && p[..|a|] == a
    ensures PathLe(a, p) && !PathLe(p, a)
  {
    if a != [] {
      assert a[0] == p[..|a|][0];
      assert p[1..][..|a[1..]|] == p[..|a|][1..];
      AncestorSortsFirst(a[1..], p[1..]);
    }
  }

  /* --- sorted listings --- */

  /** `s` is `sorted(root.rglob("*"))` for a tree with these paths. */
  ghost predicate IsListing(s: seq<Path>, keys: set<Path>) {
    SortedBy(PathLe, s) && NoRepeats(s) && forall p :: p in s <==> p in keys
  }

  ghost function AnyOrder(keys: set<Path>): (s: seq<Path>)
    ensures NoRepeats(s) && forall p :: p in s <==> p in keys
    ensures |s| == |keys|
  {
    if keys == {} then []
    else
      var p :| p in keys;
      var rest := AnyOrder(keys - {p});
      assert forall q :: q in keys <==> q == p || q in rest;
      [p] + rest
  }

  lemma {:induction false} SortKeepsNoRepeats(le: (Path, Path) -> bool, s: seq<Path>)
    requires NoRepeats(s)
    ensures NoRepeats(Sort(le, s))
  {
    forall p ensures multiset(Sort(le, s))[p] <= 1 { DistinctCounts(s, p); }
    hide Sort;
    CountsDistinct(Sort(le, s));
  }

  ghost function Listing(keys: set<Path>): (s: seq<Path>)
    ensures IsListing(s, keys)
    ensures |s| == |keys|
  {
    var any := AnyOrder(keys);
    PathLeIsTotalPreorder();
    SortSorted(PathLe, any);
    SortMembers(PathLe, any);
    SortKeepsNoRepeats(PathLe, any);
    Sort(PathLe, any)
  }

  lemma ListingDistinct(keys: set<Path>)
    ensures NoRepeats(Listing(keys)) && forall p :: p in Listing(keys) <==> p in keys
  {
  }

  lemma ListingEmpty(s: seq<Path>, keys: set<Path>)
    requires IsListing(s, keys)
    ensures s == [] <==> keys == {}
  {
    if s != [] { assert s[0] in keys; }
    if keys != {} {
      var p :| p in keys;
      assert p in s;
    }
  }

  /** There is one sorted listing of a set of paths. */
  lemma {:induction false} ListingUnique(s: seq<Path>, r: seq<Path>, keys: set<Path>)
    requires IsListing(s, keys) && IsListing(r, keys)
    ensures s == r
    decreases |s|
  {
    ListingEmpty(s, keys);
    ListingEmpty(r, keys);
    if s != [] {
      assert s[0] in keys;
      assert s[0] in r;
      assert r[0] in keys;
      assert r[0] in s;
      var i :| 0 <= i < |r| && r[i] == s[0];
      var j :| 0 <= j < |s| && s[j] == r[0];
      PathLeTotal(s[0], s[0]);
      assert PathLe(r[0], s[0]) by { if i > 0 { assert PathLe(r[0], r[i]); } }
      assert PathLe(s[0], r[0]) by { if j > 0 { assert PathLe(s[0], s[j]); } }
      PathLeTotal(s[0], r[0]);
      ListingTail(s, keys);
      ListingTail(r, keys);
      ListingUnique(s[1..], r[1..], keys - {s[0]});
      assert s == [s[0]] + s[1..] && r == [r[0]] + r[1..];
    }
  }

  lemma {:induction false} ListingTail(s: seq<Path>, keys: set<Path>)
    requires IsListing(s, keys) && s != []
    ensures IsListing(s[1..], keys - {s[0]})
  {
    forall p ensures p in s[1..] <==> p in keys - {s[0]} {
      assert s == [s[0]] + s[1..];
      if p in s[1..] {
        var i :| 0 <= i < |s[1..]| && s[1..][i] == p;
        assert s[0] != s[i + 1];
      }
    }
  }

  /** In a sorted listing the parent of an entry comes before it. */
  lemma {:induction false} ParentListedFirst(s: seq<Path>, keys: set<Path>, i: nat, a: Path) returns (j: nat)
    requires IsListing(s, keys) && i < |s| && IsAncestor(a, s[i]) && a in keys
    ensures j < i && s[j] == a
  {
    assert a in s;
    j :| 0 <= j < |s| && s[j] == a;
    AncestorSortsFirst(a, s[i]);
  }

  /** `sorted(root.rglob("*"))`. */
  method SortedPaths(keys: set<Path>) returns (s: seq<Path>)
    ensures s == Listing(keys)
  {
    var rest := keys;
    s := [];
    while rest != {}
      invariant rest <= keys
      invariant IsListing(s, keys - rest)
      decreases rest
    {
      var p :| p in rest;
      ghost var was := s;
      PathLeIsTotalPreorder();
      InsertSorted(PathLe, p, s);
      InsertMembers(PathLe, p, s);
      CountOfInsert(p, s);
      s := Insert(PathLe, p, s);
      rest := rest - {p};
      assert keys - rest == (keys - (rest + {p})) + {p};
    }
    assert keys - rest == keys;
    ListingUnique(s, Listing(keys), keys);
  }

  lemma {:induction false} CountOfInsert(p: Path, s: seq<Path>)
    requires NoRepeats(s) && p !in s
    ensures NoRepeats(Insert(PathLe, p, s))
  {
    if s != [] && !PathLe(p, s[0]) {
      CountOfInsert(p, s[1..]);
      InsertMembers(PathLe, p, s[1..]);
      var rest := Insert(PathLe, p, s[1..]);
      forall j | 0 <= j < |rest| ensures s[0] != rest[j] {
        assert rest[j] in rest;
      }
    }
  }

  /** Names are ordered as Python compares strings: a prefix first, and otherwise by the first place they differ. */
  lemma {:induction false} NameOrder(a: string, b: string)
    ensures NameLe(a, b) <==>
            a <= b || exists k :: 0 <= k < |a| && k < |b| && a[..k] == b[..k] && a[k] < b[k]
  {
    if a != "" && b != "" {
      if a[0] == b[0] {
        NameOrder(a[1..], b[1..]);
        assert a == [a[0]] + a[1..] && b == [b[0]] + b[1..];
        if k :| 0 <= k < |a| && k < |b| && a[..k] == b[..k] && a[k] < b[k] {
          assert k > 0 && a[1..][..k - 1] == a[..k][1..] && b[1..][..k - 1] == b[..k][1..];
          assert a[1..][k - 1] < b[1..][k - 1];
        }
        if k :| 0 <= k < |a[1..]| && k < |b[1..]| && a[1..][..k] == b[1..][..k] && a[1..][k] < b[1..][k] {
          assert a[..k + 1] == [a[0]] + a[1..][..k] && b[..k + 1] == [b[0]] + b[1..][..k];
          assert a[k + 1] < b[k + 1];
        }
      } else {
        if a[0] < b[0] { assert a[..0] == b[..0]; }
        if k :| 0 <= k < |a| && k < |b| && a[..k] == b[..k] && a[k] < b[k] {
          SameStart(a, b, k);
        }
      }
    }
  }

  lemma SameStart(a: string, b: string, k: nat)
    requires k < |a| && k < |b| && a[..k] == b[..k]
    ensures k == 0 || a[0] == b[0]
  {
    if k > 0 { assert a[..k][0] == b[..k][0]; }
  }

  /** Paths are ordered part by part. */
  lemma PathOrder(p: Path, q: Path, a: string, b: string)
    ensures PathLe([], q) && !PathLe([a] + p, [])
    ensures PathLe([a] + p, [b] + q) <==> if a == b then PathLe(p, q) else NameLe(a, b)
  {
    assert ([a] + p)[0] == a && ([b] + q)[0] == b && ([a] + p)[1..] == p && ([b] + q)[1..] == q;
  }
}
