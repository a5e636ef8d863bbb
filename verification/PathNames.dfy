/** Slash-separated archive names and the paths they stand for.
    A path is the sequence of its components; an archive or a manifest carries it as one string. */
module PathNames {
  import opened Wrappers
  import opened Texts

  type Path = seq<string>

  /** What a POSIX file system accepts as one directory entry. */
  predicate IsName(s: string) {
    s != "" && s != "." && s != ".." && '/' !in s && '\0' !in s
  }

  /** A name the archive reader accepts as one component. */
  predicate IsSafeName(s: string) {
    IsName(s) && '\\' !in s
  }

  predicate AllNames(p: Path) {
    forall i :: 0 <= i < |p| ==> IsName(p[i])
  }

  predicate AllSafe(p: Path) {
    forall i :: 0 <= i < |p| ==> IsSafeName(p[i])
  }

  predicate NoSlash(p: Path) {
    forall i :: 0 <= i < |p| ==> '/' !in p[i]
  }

  /** `"/".join(p)` */
  function Join(p: Path): string {
    if |p| == 0 then "" else if |p| == 1 then p[0] else p[0] + "/" + Join(p[1..])
  }

  /** `s.split("/")`, scanning with the component read so far. */
  function SplitFrom(s: string, current: string): Path {
    if s == "" then [current]
    else if s[0] == '/' then [current] + SplitFrom(s[1..], "")
    else SplitFrom(s[1..], current + [s[0]])
  }

  function Split(s: string): Path {
    SplitFrom(s, "")
  }

  function Slashes(n: nat): string {
    seq(n, _ => '/')
  }

  /** `_safe_member_name`: the components of an acceptable archive name, or nothing. */
  function SafeMemberName(name: string): Option<Path> {
    var normalized := StripSlashes(name);
    if normalized == "" || name[0] == '/' || '\\' in name || '\0' in name then None
    else
      var parts := Split(normalized);
      if exists i :: 0 <= i < |parts| && parts[i] in ["", ".", ".."] then None else Some(parts)
  }

  lemma {:induction false} SplitFromWord(w: string, s: string, current: string)
    requires '/' !in w
    ensures SplitFrom(w + s, current) == SplitFrom(s, current + w)
  {
    if w == "" {
      assert w + s == s && current + w == current;
    } else {
      assert (w + s)[1..] == w[1..] + s;
      assert (w + s)[0] == w[0];
      SplitFromWord(w[1..], s, current + [w[0]]);
      assert current + [w[0]] + w[1..] == current + w;
    }
  }

  /** Splitting undoes joining: no two paths share an archive name. */
  lemma {:induction false} SplitJoin(p: Path)
    requires p != [] && NoSlash(p)
    ensures Split(Join(p)) == p
  {
    if |p| == 1 {
      assert p[0] + "" == p[0];
      SplitFromWord(p[0], "", "");
      assert "" + p[0] == p[0];
    } else {
      var rest := "/" + Join(p[1..]);
      assert Join(p) == p[0] + rest;
      SplitFromWord(p[0], rest, "");
      assert "" + p[0] == p[0];
      assert rest[1..] == Join(p[1..]);
      SplitJoin(p[1..]);
    }
  }

  lemma {:induction false} JoinInjective(p: Path, q: Path)
    requires p != [] && q != [] && NoSlash(p) && NoSlash(q)
    requires Join(p) == Join(q)
    ensures p == q
  {
    SplitJoin(p);
    SplitJoin(q);
  }

  lemma {:induction false} SplitFromParts(s: string, current: string)
    requires '/' !in current
    ensures SplitFrom(s, current) != [] && NoSlash(SplitFrom(s, current))
    ensures Join(SplitFrom(s, current)) == current + s
    decreases |s|
  {
    if s == "" {
    } else if s[0] == '/' {
      SplitFromParts(s[1..], "");
      var rest := SplitFrom(s[1..], "");
      assert ([current] + rest)[1..] == rest;
      assert Join(rest) == s[1..];
      assert s == "/" + s[1..];
    } else {
      SplitFromParts(s[1..], current + [s[0]]);
      assert current + [s[0]] + s[1..] == current + s;
    }
  }

  lemma SlashesNext(m: nat)
    ensures Slashes(m) + "/" == Slashes(m + 1) && Slashes(0) == ""
  {
  }

  lemma {:induction false} StripSlashesShape(s: string) returns (n: nat)
    ensures s == StripSlashes(s) + Slashes(n)
    ensures StripSlashes(s) != "" ==> StripSlashes(s)[|StripSlashes(s)| - 1] != '/'
  {
    hide Slashes;
    if s != "" && s[|s| - 1] == '/' {
      var m := StripSlashesShape(s[..|s| - 1]);
      n := m + 1;
      SlashesNext(m);
      assert s == s[..|s| - 1] + "/";
      assert s == StripSlashes(s) + (Slashes(m) + "/");
    } else {
      n := 0;
      SlashesNext(0);
    }
  }

  lemma {:induction false} StripSlashesOf(s: string, n: nat)
    requires s != "" && s[|s| - 1] != '/'
    ensures StripSlashes(s + Slashes(n)) == s
  {
    if n == 0 {
      assert s + Slashes(0) == s;
    } else {
      var t := s + Slashes(n);
      assert t[..|t| - 1] == s + Slashes(n - 1);
      StripSlashesOf(s, n - 1);
    }
  }

  lemma {:induction false} JoinChars(p: Path, c: char)
    requires c != '/'
    ensures c in Join(p) <==> exists i :: 0 <= i < |p| && c in p[i]
  {
    if |p| > 1 {
      JoinChars(p[1..], c);
      assert forall i :: 1 <= i < |p| ==> p[i] == p[1..][i - 1];
      if exists i :: 0 <= i < |p| && c in p[i] {
        var i :| 0 <= i < |p| && c in p[i];
        if i > 0 { assert c in p[1..][i - 1]; }
      }
    }
  }

  lemma {:induction false} JoinEnds(p: Path)
    requires p != [] && NoSlash(p) && forall i :: 0 <= i < |p| ==> p[i] != ""
    ensures Join(p) != "" && Join(p)[0] != '/' && Join(p)[|Join(p)| - 1] != '/'
  {
    if |p| == 1 {
      assert p[0][0] in p[0] && p[0][|p[0]| - 1] in p[0];
    } else {
      JoinEnds(p[1..]);
      assert p[0][0] in p[0];
    }
  }

  /** `_safe_member_name` accepts exactly the names that are safe components joined by slashes, with any
      number of trailing slashes, and answers with those components. */
  lemma {:induction false} SafeMemberNameExact(name: string, parts: Path)
    ensures SafeMemberName(name) == Some(parts) <==>
            parts != [] && AllSafe(parts) && exists n: nat :: name == Join(parts) + Slashes(n)
  {
    if SafeMemberName(name) == Some(parts) {
      var n := StripSlashesShape(name);
      var normalized := StripSlashes(name);
      SplitFromParts(normalized, "");
      assert "" + normalized == normalized;
      assert name == Join(parts) + Slashes(n);
      JoinChars(parts, '\\');
      JoinChars(parts, '\0');
      forall i | 0 <= i < |parts| ensures IsSafeName(parts[i]) {
        assert parts[i] !in ["", ".", ".."];
      }
    }
    if parts != [] && AllSafe(parts) && exists n: nat :: name == Join(parts) + Slashes(n) {
      var n: nat :| name == Join(parts) + Slashes(n);
      JoinEnds(parts);
      StripSlashesOf(Join(parts), n);
      SplitJoin(parts);
      JoinChars(parts, '\\');
      JoinChars(parts, '\0');
      assert '\\' !in name && '\0' !in name;
      assert name[0] == Join(parts)[0];
    }
  }

  /** A path written as its joined name is read back unchanged, unless a component holds a backslash. */
  lemma {:induction false} SafeMemberNameOfJoin(p: Path)
    requires p != [] && AllNames(p)
    ensures SafeMemberName(Join(p)) == if AllSafe(p) then Some(p) else None
  {
    assert Join(p) + Slashes(0) == Join(p);
    if AllSafe(p) {
      SafeMemberNameExact(Join(p), p);
    } else if SafeMemberName(Join(p)).Some? {
      var q := SafeMemberName(Join(p)).value;
      SafeMemberNameExact(Join(p), q);
      JoinEnds(p);
      JoinEnds(q);
      var n: nat :| Join(p) == Join(q) + Slashes(n);
      StripSlashesOf(Join(q), n);
      StripSlashesOf(Join(p), 0);
      JoinInjective(p, q);
    }
  }
}
