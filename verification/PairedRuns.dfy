/** The pairing of evaluation/paired_gate.py: `_index_runs` keeps the last run of every key, and the pairs are the
    keys both arms have, in order. When no key repeats and both arms have the same keys, the pairs hold every run
    of both arms exactly once. */
module PairedRuns {
  import opened Sorting
  import opened Sequences
  import opened RunRecords
  import Trees

  /** The order of `(case_id, repeat)` tuples. */
  predicate KeyLe(a: RunKey, b: RunKey) {
    if a.0 == b.0 then a.1 <= b.1 else Trees.NameLe(a.0, b.0)
  }

  predicate DuplicateFree(runs: seq<Run>) {
    forall i, j :: 0 <= i < j < |runs| ==> KeyOf(runs[i]) != KeyOf(runs[j])
  }

  function KeySet(runs: seq<Run>): set<RunKey> {
    set run | run in runs :: KeyOf(run)
  }

  /** The keys by their first occurrence, as a dict keeps them. */
  function Order(runs: seq<Run>): seq<RunKey> {
    if runs == [] then []
    else
      var rest, key := Order(runs[..|runs| - 1]), KeyOf(runs[|runs| - 1]);
      if key in rest then rest else rest + [key]
  }

  function Last(runs: seq<Run>, key: RunKey): Run
    requires key in KeySet(runs)
  {
    var last := runs[|runs| - 1];
    assert runs == runs[..|runs| - 1] + [last];
    if KeyOf(last) == key then last else Last(runs[..|runs| - 1], key)
  }

  lemma {:induction false} LastIn(runs: seq<Run>, key: RunKey)
    requires key in KeySet(runs)
    ensures Last(runs, key) in runs && KeyOf(Last(runs, key)) == key
  {
    var last := runs[|runs| - 1];
    assert runs == runs[..|runs| - 1] + [last];
    if KeyOf(last) != key { LastIn(runs[..|runs| - 1], key); }
  }

  lemma {:induction false} OrderExact(runs: seq<Run>)
    ensures NoRepeats(Order(runs))
    ensures forall key :: key in Order(runs) <==> key in KeySet(runs)
  {
    if runs != [] {
      OrderExact(runs[..|runs| - 1]);
      KeysNext(runs[..|runs| - 1], runs[|runs| - 1]);
      assert runs == runs[..|runs| - 1] + [runs[|runs| - 1]];
    }
  }

  lemma KeysNext(runs: seq<Run>, run: Run)
    ensures KeySet(runs + [run]) == KeySet(runs) + {KeyOf(run)}
  {
    assert forall x :: x in runs + [run] <==> x in runs || x == run;
  }

  predicate Repeated(runs: seq<Run>, key: RunKey) {
    exists i, j :: 0 <= i < j < |runs| && KeyOf(runs[i]) == KeyOf(runs[j]) == key
  }

  lemma {:induction false} RepeatedNext(runs: seq<Run>, run: Run, key: RunKey)
    ensures Repeated(runs + [run], key) <==> Repeated(runs, key) || (key == KeyOf(run) && key in KeySet(runs))
  {
    var more := runs + [run];
    if Repeated(more, key) {
      var i, j :| 0 <= i < j < |more| && KeyOf(more[i]) == KeyOf(more[j]) == key;
      assert runs[i] in runs;
      assert j < |runs| ==> more[j] == runs[j];
    }
    if Repeated(runs, key) {
      var i, j :| 0 <= i < j < |runs| && KeyOf(runs[i]) == KeyOf(runs[j]) == key;
      assert more[i] == runs[i] && more[j] == runs[j];
    }
    if key == KeyOf(run) && key in KeySet(runs) {
      var i :| 0 <= i < |runs| && KeyOf(runs[i]) == key;
      assert more[i] == runs[i] && more[|runs|] == run;
    }
  }

  lemma IndexNext(runs: seq<Run>, run: Run, key: RunKey)
    ensures key in KeySet(runs + [run]) <==> key in KeySet(runs) || key == KeyOf(run)
    ensures key in KeySet(runs + [run]) ==> Last(runs + [run], key) == if key == KeyOf(run) then run else Last(runs, key)
    ensures Order(runs + [run]) == Order(runs) + if KeyOf(run) in KeySet(runs) then [] else [KeyOf(run)]
  {
    KeysNext(runs, run);
    OrderExact(runs);
    assert (runs + [run])[..|runs|] == runs;
  }

  /** `_index_runs` */
  method IndexRuns(runs: seq<Run>) returns (index: map<RunKey, Run>, order: seq<RunKey>, duplicates: seq<RunKey>)
    ensures index.Keys == KeySet(runs)
    ensures forall key :: key in index ==> index[key] == Last(runs, key)
    ensures order == Order(runs)
    ensures forall key :: key in duplicates <==> Repeated(runs, key)
  {
    hide KeySet, Last, Order, Repeated;
    index, order, duplicates := map[], [], [];
    NothingIndexed(runs);
    for i := 0 to |runs|
      invariant forall key :: key in index <==> key in KeySet(runs[..i])
      invariant forall key :: key in index ==> index[key] == Last(runs[..i], key)
      invariant order == Order(runs[..i])
      invariant forall key :: key in duplicates <==> Repeated(runs[..i], key)
    {
      var key := KeyOf(runs[i]);
      assert runs[..i + 1] == runs[..i] + [runs[i]];
      forall k { IndexNext(runs[..i], runs[i], k); }
      forall k { RepeatedNext(runs[..i], runs[i], k); }
      IndexNext(runs[..i], runs[i], key);
      if key in index { duplicates := duplicates + [key]; } else { order := order + [key]; }
      index := index[key := runs[i]];
    }
    assert runs[..|runs|] == runs;
  }

  lemma NothingIndexed(runs: seq<Run>)
    ensures KeySet(runs[..0]) == {} && Order(runs[..0]) == [] && forall key :: !Repeated(runs[..0], key)
  {
  }

  function Common(keys: seq<RunKey>, others: set<RunKey>): seq<RunKey> {
    if keys == [] then []
    else (if keys[0] in others then [keys[0]] else []) + Common(keys[1..], others)
  }

  lemma {:induction false} CommonExact(keys: seq<RunKey>, others: set<RunKey>)
    requires NoRepeats(keys)
    ensures NoRepeats(Common(keys, others))
    ensures forall key :: key in Common(keys, others) <==> key in keys && key in others
  {
    if keys != [] {
      CommonExact(keys[1..], others);
      assert keys == [keys[0]] + keys[1..];
      var rest := Common(keys[1..], others);
      assert forall i :: 0 <= i < |rest| ==> rest[i] in rest;
    }
  }

  /** `sorted(set(base_index) & set(cand_index))` */
  function PairedKeys(base: seq<Run>, cand: seq<Run>): seq<RunKey> {
    Sort(KeyLe, Common(Order(base), KeySet(cand)))
  }

  lemma {:induction false} KeysExact(base: seq<Run>, cand: seq<Run>)
    ensures NoRepeats(PairedKeys(base, cand))
    ensures forall key :: key in PairedKeys(base, cand) <==> key in KeySet(base) && key in KeySet(cand)
  {
    var common := Common(Order(base), KeySet(cand));
    OrderExact(base);
    CommonExact(Order(base), KeySet(cand));
    forall key ensures multiset(PairedKeys(base, cand))[key] <= 1 { DistinctCounts(common, key); }
    CountsDistinct(PairedKeys(base, cand));
    assert forall key :: key in PairedKeys(base, cand) <==> key in multiset(PairedKeys(base, cand));
    assert forall key :: key in common <==> key in multiset(common);
  }

  datatype Pair = Pair(base: Run, cand: Run)

  function Pairs(base: seq<Run>, cand: seq<Run>): seq<Pair> {
    var keys := PairedKeys(base, cand);
    KeysExact(base, cand);
    seq(|keys|, i requires 0 <= i < |keys| => assert keys[i] in keys; Pair(Last(base, keys[i]), Last(cand, keys[i])))
  }

  function Bases(pairs: seq<Pair>): seq<Run> { seq(|pairs|, i requires 0 <= i < |pairs| => pairs[i].base) }

  function Cands(pairs: seq<Pair>): seq<Run> { seq(|pairs|, i requires 0 <= i < |pairs| => pairs[i].cand) }

  /** The index loop's lookups, in the order of the keys. */
  method PairUp(base: seq<Run>, cand: seq<Run>, baseIndex: map<RunKey, Run>, candIndex: map<RunKey, Run>, order: seq<RunKey>)
    returns (pairs: seq<Pair>)
    requires baseIndex.Keys == KeySet(base) && forall key :: key in baseIndex ==> baseIndex[key] == Last(base, key)
    requires candIndex.Keys == KeySet(cand) && forall key :: key in candIndex ==> candIndex[key] == Last(cand, key)
    requires order == Order(base)
    ensures pairs == Pairs(base, cand)
  {
    hide Sort, Order, Common, Last, KeySet;
    KeysExact(base, cand);
    var keys := Sort(KeyLe, Common(order, candIndex.Keys));
    pairs := [];
    for i := 0 to |keys|
      invariant pairs == Pairs(base, cand)[..i]
    {
      assert keys[i] in keys;
      pairs := pairs + [Pair(baseIndex[keys[i]], candIndex[keys[i]])];
    }
  }

  /** No key repeats within an arm and both arms have the same keys. */
  predicate Matched(base: seq<Run>, cand: seq<Run>) {
    DuplicateFree(base) && DuplicateFree(cand) && KeySet(base) == KeySet(cand)
  }

  lemma {:induction false} PairAt(base: seq<Run>, cand: seq<Run>, i: nat)
    requires i < |Pairs(base, cand)|
    ensures var p := Pairs(base, cand)[i];
            && p.base in base && p.cand in cand
            && KeyOf(p.base) == KeyOf(p.cand) == PairedKeys(base, cand)[i]
  {
    var key := PairedKeys(base, cand)[i];
    KeysExact(base, cand);
    assert key in PairedKeys(base, cand);
    LastIn(base, key);
    LastIn(cand, key);
  }

  lemma OnlyRun(runs: seq<Run>, a: Run, b: Run)
    requires DuplicateFree(runs) && a in runs && b in runs && KeyOf(a) == KeyOf(b)
    ensures a == b
  {
  }

  /** Every pair joins two runs of one key, and every two runs of one key are paired. */
  lemma {:induction false} PairsExact(base: seq<Run>, cand: seq<Run>, p: Pair)
    requires Matched(base, cand)
    ensures p in Pairs(base, cand) <==> p.base in base && p.cand in cand && KeyOf(p.base) == KeyOf(p.cand)
  {
    var pairs, keys := Pairs(base, cand), PairedKeys(base, cand);
    if p in pairs {
      var i :| 0 <= i < |pairs| && pairs[i] == p;
      PairAt(base, cand, i);
    }
    if p.base in base && p.cand in cand && KeyOf(p.base) == KeyOf(p.cand) {
      KeysExact(base, cand);
      assert KeyOf(p.base) in keys;
      var i :| 0 <= i < |keys| && keys[i] == KeyOf(p.base);
      PairAt(base, cand, i);
      OnlyRun(base, p.base, pairs[i].base);
      OnlyRun(cand, p.cand, pairs[i].cand);
    }
  }

  /** The pairs hold every run of both arms exactly once. */
  lemma {:induction false} PairsPermute(base: seq<Run>, cand: seq<Run>)
    requires Matched(base, cand)
    ensures multiset(Bases(Pairs(base, cand))) == multiset(base)
    ensures multiset(Cands(Pairs(base, cand))) == multiset(cand)
    ensures |Pairs(base, cand)| == |base| == |cand|
  {
    var pairs := Pairs(base, cand);
    hide Pairs, PairedKeys;
    forall i, j | 0 <= i < j < |pairs|
      ensures KeyOf(pairs[i].base) != KeyOf(pairs[j].base) && KeyOf(pairs[i].cand) != KeyOf(pairs[j].cand)
    {
      KeysExact(base, cand);
      PairAt(base, cand, i);
      PairAt(base, cand, j);
      assert |PairedKeys(base, cand)| == |pairs| by { SameLength(base, cand); }
    }
    forall b ensures b in Bases(pairs) <==> b in base { BaseCovered(base, cand, b); }
    forall c ensures c in Cands(pairs) <==> c in cand { CandCovered(base, cand, c); }
    SameMembers(Bases(pairs), base);
    SameMembers(Cands(pairs), cand);
    assert |multiset(base)| == |base| && |multiset(cand)| == |cand|;
    assert |multiset(Bases(pairs))| == |pairs| && |multiset(Cands(pairs))| == |pairs|;
  }

  lemma SameLength(base: seq<Run>, cand: seq<Run>)
    ensures |PairedKeys(base, cand)| == |Pairs(base, cand)|
  {
  }

  lemma {:induction false} BaseCovered(base: seq<Run>, cand: seq<Run>, b: Run)
    requires Matched(base, cand)
    ensures b in Bases(Pairs(base, cand)) <==> b in base
  {
    var pairs := Pairs(base, cand);
    hide Pairs;
    if b in Bases(pairs) {
      var i :| 0 <= i < |pairs| && Bases(pairs)[i] == b;
      PairAt(base, cand, i);
    }
    if b in base {
      assert KeyOf(b) in KeySet(cand);
      var c :| c in cand && KeyOf(c) == KeyOf(b);
      PairsExact(base, cand, Pair(b, c));
      var i :| 0 <= i < |pairs| && pairs[i] == Pair(b, c);
      assert Bases(pairs)[i] == b;
    }
  }

  lemma {:induction false} CandCovered(base: seq<Run>, cand: seq<Run>, c: Run)
    requires Matched(base, cand)
    ensures c in Cands(Pairs(base, cand)) <==> c in cand
  {
    var pairs := Pairs(base, cand);
    hide Pairs;
    if c in Cands(pairs) {
      var i :| 0 <= i < |pairs| && Cands(pairs)[i] == c;
      PairAt(base, cand, i);
    }
    if c in cand {
      assert KeyOf(c) in KeySet(base);
      var b :| b in base && KeyOf(b) == KeyOf(c);
      PairsExact(base, cand, Pair(b, c));
      var i :| 0 <= i < |pairs| && pairs[i] == Pair(b, c);
      assert Cands(pairs)[i] == c;
    }
  }

  /* --- pairs of any two arms --- */

  /** The last run of its case and repeat. */
  ghost predicate IsLast(runs: seq<Run>, x: Run) {
    exists i :: 0 <= i < |runs| && runs[i] == x
                && forall j :: i < j < |runs| ==> runs[j].caseId != x.caseId || runs[j].repeat != x.repeat
  }

  lemma {:induction false} LastExact(runs: seq<Run>, key: RunKey, x: Run)
    requires key in KeySet(runs)
    ensures Last(runs, key) == x <==> IsLast(runs, x) && (x.caseId, x.repeat) == key
  {
    var n := |runs| - 1;
    assert runs == runs[..n] + [runs[n]];
    if KeyOf(runs[n]) != key {
      KeysNext(runs[..n], runs[n]);
      LastExact(runs[..n], key, x);
      if IsLast(runs[..n], x) && (x.caseId, x.repeat) == key {
        var i :| 0 <= i < n && runs[..n][i] == x
                 && forall j :: i < j < n ==> runs[..n][j].caseId != x.caseId || runs[..n][j].repeat != x.repeat;
        assert runs[i] == x;
      }
      if IsLast(runs, x) && (x.caseId, x.repeat) == key {
        var i :| 0 <= i < |runs| && runs[i] == x
                 && forall j :: i < j < |runs| ==> runs[j].caseId != x.caseId || runs[j].repeat != x.repeat;
        assert i < n && runs[..n][i] == x;
      }
    } else {
      assert runs[n] in runs;
    }
  }

  /** Whatever the arms, two runs are paired exactly when each is the last of its arm with their case and repeat. */
  lemma {:induction false} AnyPairsExact(base: seq<Run>, cand: seq<Run>, p: Pair)
    ensures p in Pairs(base, cand) <==>
            IsLast(base, p.base) && IsLast(cand, p.cand)
            && p.base.caseId == p.cand.caseId && p.base.repeat == p.cand.repeat
  {
    var keys := PairedKeys(base, cand);
    KeysExact(base, cand);
    hide PairedKeys, IsLast;
    if p in Pairs(base, cand) {
      var i :| 0 <= i < |keys| && Pairs(base, cand)[i] == p;
      assert keys[i] in keys;
      LastExact(base, keys[i], p.base);
      LastExact(cand, keys[i], p.cand);
    }
    if IsLast(base, p.base) && IsLast(cand, p.cand)
       && p.base.caseId == p.cand.caseId && p.base.repeat == p.cand.repeat {
      var key := (p.base.caseId, p.base.repeat);
      LastHasKey(base, p.base);
      LastHasKey(cand, p.cand);
      LastExact(base, key, p.base);
      LastExact(cand, key, p.cand);
      var i :| 0 <= i < |keys| && keys[i] == key;
      assert Pairs(base, cand)[i] == p;
    }
  }

  lemma LastHasKey(runs: seq<Run>, x: Run)
    requires IsLast(runs, x)
    ensures (x.caseId, x.repeat) in KeySet(runs)
  {
    assert x in runs;
  }

  lemma {:induction false} KeyLeTotal()
    ensures TotalPreorder(KeyLe)
  {
    forall a, b ensures KeyLe(a, b) || KeyLe(b, a) { Trees.NameLeTotal(a.0, b.0); }
    forall a, b, c | KeyLe(a, b) && KeyLe(b, c) ensures KeyLe(a, c) {
      if a.0 != b.0 && b.0 != c.0 {
        Trees.NameLeTransitive(a.0, b.0, c.0);
        if a.0 == c.0 { Trees.NameLeTotal(a.0, b.0); }
      }
    }
  }

  /** The pairs come by case name and, within a case, by repeat, each key once. */
  lemma {:induction false} PairsInOrder(base: seq<Run>, cand: seq<Run>, i: nat, j: nat)
    requires i < j < |Pairs(base, cand)|
    ensures var p, q := Pairs(base, cand)[i].base, Pairs(base, cand)[j].base;
            if p.caseId == q.caseId then p.repeat < q.repeat else Trees.NameLe(p.caseId, q.caseId)
  {
    KeyLeTotal();
    SortSorted(KeyLe, Common(Order(base), KeySet(cand)));
    KeysExact(base, cand);
    PairAt(base, cand, i);
    PairAt(base, cand, j);
    var keys := PairedKeys(base, cand);
    assert KeyLe(keys[i], keys[j]) && keys[i] != keys[j];
  }
}
