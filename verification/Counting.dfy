/** Counting the elements of a list that satisfy a predicate. */
module Counting {
  import opened Sequences

  function CountIf<T>(s: seq<T>, f: T -> bool): nat {
    if s == [] then 0 else (if f(s[0]) then 1 else 0) + CountIf(s[1..], f)
  }

  lemma {:induction false} CountRemove<T>(s: seq<T>, i: nat, f: T -> bool)
    requires i < |s|
    ensures CountIf(s, f) == (if f(s[i]) then 1 else 0) + CountIf(s[..i] + s[i + 1..], f)
  {
    if i == 0 {
      assert s[..0] + s[1..] == s[1..];
    } else {
      CountRemove(s[1..], i - 1, f);
      assert (s[..i] + s[i + 1..])[1..] == s[1..][..i - 1] + s[1..][i..];
    }
  }

  lemma {:induction false} CountPermutation<T>(s: seq<T>, t: seq<T>, f: T -> bool)
    requires multiset(s) == multiset(t)
    ensures CountIf(s, f) == CountIf(t, f)
    decreases |s|
  {
    assert |s| == |multiset(s)| && |t| == |multiset(t)|;
    if s != [] {
      var i := TakeOut(s, t);
      CountRemove(t, i, f);
      CountPermutation(s[1..], t[..i] + t[i + 1..], f);
    }
  }

  lemma {:induction false} CountMonotone<T(!new)>(s: seq<T>, f: T -> bool, g: T -> bool)
    requires forall x :: f(x) ==> g(x)
    ensures CountIf(s, f) <= CountIf(s, g) <= |s|
  {
    if s != [] { CountMonotone(s[1..], f, g); }
  }

  lemma {:induction false} CountSplit<T>(s: seq<T>, i: nat, f: T -> bool)
    requires i <= |s|
    ensures CountIf(s, f) == CountIf(s[..i], f) + CountIf(s[i..], f)
  {
    if i == 0 {
      assert s[..0] == [] && s[0..] == s;
    } else {
      CountSplit(s[1..], i - 1, f);
      assert s[..i][1..] == s[1..][..i - 1] && s[1..][i - 1..] == s[i..];
    }
  }

  lemma {:induction false} CountAll<T>(s: seq<T>, f: T -> bool, b: bool)
    requires forall i :: 0 <= i < |s| ==> f(s[i]) == b
    ensures CountIf(s, f) == if b then |s| else 0
  {
    if s != [] { CountAll(s[1..], f, b); }
  }

  lemma CountAppend<T>(s: seq<T>, x: T, f: T -> bool)
    ensures CountIf(s + [x], f) == CountIf(s, f) + if f(x) then 1 else 0
  {
    CountSplit(s + [x], |s|, f);
    assert (s + [x])[..|s|] == s && (s + [x])[|s|..] == [x];
    assert CountIf([x], f) == if f(x) then 1 else 0;
  }

  lemma {:induction false} CountNone<T>(s: seq<T>, f: T -> bool)
    ensures CountIf(s, f) == 0 <==> forall x :: x in s ==> !f(x)
  {
    if s != [] {
      CountNone(s[1..], f);
      assert s == [s[0]] + s[1..];
    }
  }

  ghost function Places<T>(s: seq<T>, f: T -> bool): set<int> { set i | 0 <= i < |s| && f(s[i]) }

  /** The count is the number of positions. */
  lemma {:induction false} CountIsCard<T>(s: seq<T>, f: T -> bool)
    ensures CountIf(s, f) == |Places(s, f)|
  {
    if s != [] {
      var n := |s| - 1;
      var init := s[..n];
      CountIsCard(init, f);
      CountAppend(init, s[n], f);
      assert s == init + [s[n]];
      assert Places(s, f) == Places(init, f) + if f(s[n]) then {n} else {};
    }
  }
}
