/** Lists without repetition, and lists as permutations of each other. */
module Sequences {

  predicate NoRepeats<T(==)>(s: seq<T>) {
    forall i, j :: 0 <= i < j < |s| ==> s[i] != s[j]
  }

  lemma {:induction false} DistinctCounts<T>(s: seq<T>, x: T)
    requires NoRepeats(s)
    ensures multiset(s)[x] == if x in s then 1 else 0
  {
    if s != [] {
      DistinctCounts(s[1..], x);
      assert s == [s[0]] + s[1..];
      assert s[0] !in s[1..];
    }
  }

  lemma {:induction false} SameMembers<T>(s: seq<T>, t: seq<T>)
    requires NoRepeats(s) && NoRepeats(t) && forall x :: x in s <==> x in t
    ensures multiset(s) == multiset(t)
  {
    forall x ensures multiset(s)[x] == multiset(t)[x] {
      DistinctCounts(s, x);
      DistinctCounts(t, x);
    }
  }

  lemma {:induction false} CountsDistinct<T>(s: seq<T>)
    requires forall x :: multiset(s)[x] <= 1
    ensures NoRepeats(s)
  {
    forall i, j | 0 <= i < j < |s| ensures s[i] != s[j] {
      var front, back := s[..j], s[j + 1..];
      assert s == front + [s[j]] + back;
      assert multiset(s) == multiset(front + [s[j]] + back) == multiset(front) + multiset{s[j]} + multiset(back);
      assert front[i] == s[i] && s[i] in multiset(front);
      assert multiset(s)[s[j]] == multiset(front)[s[j]] + 1 + multiset(back)[s[j]];
    }
  }

  /** The first element of a list, found in a permutation of it. */
  lemma TakeOut<T>(s: seq<T>, t: seq<T>) returns (i: nat)
    requires s != [] && multiset(s) == multiset(t)
    ensures i < |t| && t[i] == s[0] && multiset(s[1..]) == multiset(t[..i] + t[i + 1..])
  {
    assert s[0] in multiset(t);
    i :| 0 <= i < |t| && t[i] == s[0];
    assert s == [s[0]] + s[1..];
    assert t == t[..i] + [t[i]] + t[i + 1..];
    var front, back := t[..i], t[i + 1..];
    assert multiset(s) == multiset{s[0]} + multiset(s[1..]);
    assert multiset(t) == multiset(front + [t[i]] + back) == multiset(front) + multiset{t[i]} + multiset(back);
    assert multiset(front + back) == multiset(front) + multiset(back);
    assert multiset(s[1..]) == multiset(s) - multiset{s[0]};
    assert multiset(front + back) == multiset(t) - multiset{t[i]};
  }

  lemma PermutedMembers<T>(a: seq<T>, b: seq<T>)
    requires multiset(a) == multiset(b)
    ensures |a| == |b| && forall x :: x in a <==> x in b
  {
    assert |a| == |multiset(a)| && |b| == |multiset(b)|;
    forall x ensures x in a <==> x in b {
      assert x in a <==> x in multiset(a);
      assert x in b <==> x in multiset(b);
    }
  }

  /* --- the elements that satisfy a predicate, in order --- */

  function Filter<T>(s: seq<T>, f: T -> bool): seq<T> {
    if s == [] then [] else if f(s[0]) then [s[0]] + Filter(s[1..], f) else Filter(s[1..], f)
  }

  lemma {:induction false} FilterMembers<T>(s: seq<T>, f: T -> bool)
    ensures forall x :: x in Filter(s, f) <==> x in s && f(x)
  {
    if s != [] {
      FilterMembers(s[1..], f);
      assert s == [s[0]] + s[1..];
    }
  }

  lemma {:induction false} FilterConcat<T>(s: seq<T>, t: seq<T>, f: T -> bool)
    ensures Filter(s + t, f) == Filter(s, f) + Filter(t, f)
  {
    if s == [] {
      assert s + t == t;
    } else {
      assert (s + t)[0] == s[0] && (s + t)[1..] == s[1..] + t;
      FilterConcat(s[1..], t, f);
    }
  }

  lemma FilterOne<T>(x: T, f: T -> bool)
    ensures Filter([x], f) == if f(x) then [x] else []
  {
    assert [x][1..] == [];
  }

  lemma FilterAppend<T>(s: seq<T>, x: T, f: T -> bool)
    ensures Filter(s + [x], f) == Filter(s, f) + if f(x) then [x] else []
  {
    FilterConcat(s, [x], f);
    FilterOne(x, f);
  }

  lemma {:induction false} FilterPermutes<T>(a: seq<T>, b: seq<T>, f: T -> bool)
    requires multiset(a) == multiset(b)
    ensures multiset(Filter(a, f)) == multiset(Filter(b, f))
    decreases |a|
  {
    PermutedMembers(a, b);
    if a != [] {
      var i := TakeOut(a, b);
      var front, back := b[..i], b[i + 1..];
      FilterPermutes(a[1..], front + back, f);
      assert a == [] + ([a[0]] + a[1..]) && b == front + ([b[i]] + back);
      hide Filter;
      FilterAround([], a[0], a[1..], f);
      FilterAround(front, b[i], back, f);
      FilterConcat(front, back, f);
      assert [] + a[1..] == a[1..];
    }
  }

  lemma FilterAround<T>(front: seq<T>, x: T, back: seq<T>, f: T -> bool)
    ensures multiset(Filter(front + ([x] + back), f)) == multiset(Filter([x], f)) + multiset(Filter(front + back, f))
  {
    hide Filter;
    FilterConcat(front, [x] + back, f);
    FilterConcat([x], back, f);
    FilterConcat(front, back, f);
  }
}
