/** Evaluator identity in evaluation/results_package.py: a digest over a textual listing of file hashes, and the
    comparison of a stored identity with the evaluator's. SHA-256 is a parameter. */
module GraderIdentity {
  import opened Wrappers
  import opened Texts

  /** File to hash; a missing file has none. */
  type FileHashes = map<string, Option<string>>

  const GRADER_SET_PRIMARY := "evaluation/metrics/graders.py"

  /** How an f-string prints the hash of a file or its absence. */
  function HashText(h: Option<string>): string {
    if h.Some? then h.value else "None"
  }

  function Get(m: FileHashes, rel: string): Option<string> {
    if rel in m then m[rel] else None
  }

  /** One `"<rel> <hash>\n"` line per file. */
  function Payload(names: seq<string>, files: FileHashes): string {
    if names == [] then "" else names[0] + " " + HashText(Get(files, names[0])) + "\n" + Payload(names[1..], files)
  }

  /** One more file adds a line: its name, a blank, and its digest or the word None. */
  lemma {:induction false} PayloadGrows(names: seq<string>, rel: string, files: FileHashes)
    ensures Payload([], files) == ""
    ensures Payload([rel], files) ==
            rel + " " + (if rel in files && files[rel].Some? then files[rel].value else "None") + "\n"
    ensures Payload(names + [rel], files) == Payload(names, files) + Payload([rel], files)
  {
    assert [rel][1..] == [];
    hide HashText, Get;
    if names == [] {
      assert [] + [rel] == [rel];
    } else {
      assert (names + [rel])[1..] == names[1..] + [rel] && (names + [rel])[0] == names[0];
      PayloadGrows(names[1..], rel, files);
      var line := names[0] + " " + HashText(Get(files, names[0])) + "\n";
      assert line + (Payload(names[1..], files) + Payload([rel], files)) ==
             line + Payload(names[1..], files) + Payload([rel], files);
    }
  }

  /** A listing of the fixed file set whose hashes are absent or hexadecimal digests. */
  ghost predicate IsFileSet(names: seq<string>, files: FileHashes) {
    && files.Keys == (set rel | rel in names)
    && forall rel :: rel in files && files[rel].Some? ==> IsDigest(files[rel].value)
  }

  datatype Identity = Identity(files: FileHashes, setSha: string)

  /** `grader_set_identity` over the hashes of one tree. */
  function GraderSetIdentity(names: seq<string>, files: FileHashes, sha: string -> string): Identity {
    Identity(files, sha(Payload(names, files)))
  }

  lemma HashTextInjective(g: Option<string>, h: Option<string>)
    requires (g.Some? ==> IsDigest(g.value)) && (h.Some? ==> IsDigest(h.value))
    ensures HashText(g) == HashText(h) <==> g == h
    ensures '\n' !in HashText(g)
  {
  }

  lemma {:induction false} LineSplit(v: string, w: string, r: string, s: string)
    requires '\n' !in v && '\n' !in w && v + "\n" + r == w + "\n" + s
    ensures v == w && r == s
  {
    var a, b := v + "\n" + r, w + "\n" + s;
    assert a[|v|] == '\n' && b[|w|] == '\n';
    assert forall i :: 0 <= i < |v| ==> a[i] == v[i];
    assert forall i :: 0 <= i < |w| ==> b[i] == w[i];
    assert v == a[..|v|] && w == b[..|w|];
    assert r == a[|v| + 1..] && s == b[|w| + 1..];
  }

  lemma {:induction false} LineInjective(rel: string, g: Option<string>, h: Option<string>, r: string, s: string)
    requires (g.Some? ==> IsDigest(g.value)) && (h.Some? ==> IsDigest(h.value))
    requires rel + " " + HashText(g) + "\n" + r == rel + " " + HashText(h) + "\n" + s
    ensures g == h && r == s
  {
    HashTextInjective(g, h);
    HashTextInjective(h, g);
    hide HashText, IsDigest;
    var head := rel + " ";
    var a, b := HashText(g) + "\n" + r, HashText(h) + "\n" + s;
    assert rel + " " + HashText(g) + "\n" + r == head + a && rel + " " + HashText(h) + "\n" + s == head + b;
    assert a == (head + a)[|head|..] && b == (head + b)[|head|..];
    LineSplit(HashText(g), HashText(h), r, s);
  }

  /** The listing determines every file's hash or absence. */
  lemma {:induction false} PayloadInjective(names: seq<string>, f: FileHashes, g: FileHashes)
    requires forall rel :: rel in names ==> (Get(f, rel).Some? ==> IsDigest(Get(f, rel).value))
                                            && (Get(g, rel).Some? ==> IsDigest(Get(g, rel).value))
    requires Payload(names, f) == Payload(names, g)
    ensures forall rel :: rel in names ==> Get(f, rel) == Get(g, rel)
  {
    hide HashText, IsDigest, Get;
    if names != [] {
      var rel := names[0];
      assert rel in names;
      LineInjective(rel, Get(f, rel), Get(g, rel), Payload(names[1..], f), Payload(names[1..], g));
      PayloadInjective(names[1..], f, g);
      assert names == [rel] + names[1..];
    }
  }

  lemma {:induction false} PayloadExact(names: seq<string>, f: FileHashes, g: FileHashes)
    requires IsFileSet(names, f) && IsFileSet(names, g)
    ensures Payload(names, f) == Payload(names, g) <==> f == g
  {
    if Payload(names, f) == Payload(names, g) {
      PayloadInjective(names, f, g);
      forall rel ensures (rel in f <==> rel in g) && (rel in f ==> f[rel] == g[rel]) {
        assert rel in f <==> rel in names;
        assert rel in g <==> rel in names;
      }
    }
  }

  /* --- comparing --- */

  datatype Verdict = Match | Mismatch | Unknown

  /** The identity fields of a stored manifest; an absent or empty digest is the empty string. */
  datatype Recorded = Recorded(setSha: string, bareSha: string, files: FileHashes)

  datatype Comparison = Comparison(verdict: Verdict, differing: set<string>)

  function Differing(f: FileHashes, g: FileHashes): set<string> {
    set rel | rel in f.Keys + g.Keys && Get(f, rel) != Get(g, rel)
  }

  /** Two listings differ on a file that has a digest in one of them and not the same one in the other. */
  lemma DifferingExact(f: FileHashes, g: FileHashes, rel: string)
    ensures rel in Differing(f, g) <==>
              || (rel in f && f[rel].Some? && !(rel in g && g[rel] == f[rel]))
              || (rel in g && g[rel].Some? && !(rel in f && f[rel] == g[rel]))
  {
  }

  /** `compare_grader_identity`, branch by branch; no evaluator identity is the empty one. A match needs both
      set digests, present and equal; without a recorded set digest no verdict is ever a match. */
  method CompareGraderIdentity(recorded: Recorded, evaluator: Identity) returns (r: Comparison)
    ensures r.verdict == Match <==> evaluator.setSha != "" && recorded.setSha == evaluator.setSha
    ensures r.verdict == Unknown <==>
              || evaluator.setSha == ""
              || (recorded.setSha == "" && recorded.bareSha == "")
              || (recorded.setSha == "" && "evaluation/metrics/graders.py" in evaluator.files
                  && evaluator.files["evaluation/metrics/graders.py"] == Some(recorded.bareSha))
    ensures r.differing ==
            if r.verdict == Mismatch && recorded.setSha != "" && recorded.files != map[] && evaluator.files != map[] then
              Differing(recorded.files, evaluator.files) else {}
  {
    var differing: set<string> := {};
    if evaluator.setSha == "" { return Comparison(Unknown, differing); }
    if recorded.setSha != "" {
      if recorded.setSha == evaluator.setSha { return Comparison(Match, differing); }
      if recorded.files != map[] && evaluator.files != map[] {
        differing := Differing(recorded.files, evaluator.files);
      }
      return Comparison(Mismatch, differing);
    }
    if recorded.bareSha != "" {
      var bare := Get(evaluator.files, GRADER_SET_PRIMARY);
      if bare.Some? && bare.value != "" && recorded.bareSha == bare.value { return Comparison(Unknown, differing); }
      return Comparison(Mismatch, differing);
    }
    return Comparison(Unknown, differing);
  }

  /** With a collision-free digest, two recorded trees match exactly when every file agrees, and otherwise the
      differing list is exactly the files that changed, and is not empty. */
  method CompareTrees(names: seq<string>, f: FileHashes, g: FileHashes, sha: string -> string, bareSha: string)
    returns (r: Comparison)
    requires names != [] && IsFileSet(names, f) && IsFileSet(names, g)
    requires forall x, y :: sha(x) == sha(y) ==> x == y
    requires forall x :: sha(x) != ""
    ensures r.verdict == if f == g then Match else Mismatch
    ensures r.differing == (set rel | rel in names && Get(f, rel) != Get(g, rel))
    ensures r.differing == {} <==> f == g
  {
    var stored, evaluator := GraderSetIdentity(names, f, sha), GraderSetIdentity(names, g, sha);
    PayloadExact(names, f, g);
    r := CompareGraderIdentity(Recorded(stored.setSha, bareSha, stored.files), evaluator);
    assert names[0] in f.Keys && names[0] in g.Keys;
    assert f != map[] && g != map[];
    forall rel ensures rel in names <==> rel in f.Keys + g.Keys {}
    if f != g {
      assert exists rel :: rel in f && f[rel] != g[rel];
      var rel :| rel in f && f[rel] != g[rel];
      assert rel in Differing(f, g);
    }
  }
}
