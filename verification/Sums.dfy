/** Sums over finite sets, independent of the order in which a loop meets the elements. */
module Sums {

  ghost function Sum<T(!new)>(keys: set<T>, f: T -> int): int {
    if keys == {} then 0 else var x :| x in keys; f(x) + Sum(keys - {x}, f)
  }

  lemma {:induction false} SumTake<T(!new)>(keys: set<T>, f: T -> int, x: T)
    requires x in keys
    ensures Sum(keys, f) == f(x) + Sum(keys - {x}, f)
    decreases keys
  {
    var y :| y in keys && Sum(keys, f) == f(y) + Sum(keys - {y}, f);
    if x != y {
      SumTake(keys - {y}, f, x);
      SumTake(keys - {x}, f, y);
      assert keys - {y} - {x} == keys - {x} - {y};
    }
  }

  lemma {:induction false} SumSame<T(!new)>(keys: set<T>, f: T -> int, g: T -> int)
    requires forall x :: x in keys ==> f(x) == g(x)
    ensures Sum(keys, f) == Sum(keys, g)
    decreases keys
  {
    if keys != {} {
      var x :| x in keys;
      SumTake(keys, f, x);
      SumTake(keys, g, x);
      SumSame(keys - {x}, f, g);
    }
  }

  lemma {:induction false} SumAtMost<T(!new)>(keys: set<T>, f: T -> int, g: T -> int)
    requires forall x :: x in keys ==> f(x) <= g(x)
    ensures Sum(keys, f) <= Sum(keys, g)
    decreases keys
  {
    if keys != {} {
      var x :| x in keys;
      SumTake(keys, f, x);
      SumTake(keys, g, x);
      SumAtMost(keys - {x}, f, g);
    }
  }

  lemma {:induction false} SumAdd<T(!new)>(keys: set<T>, f: T -> int, g: T -> int, h: T -> int)
    requires forall x :: x in keys ==> h(x) == f(x) + g(x)
    ensures Sum(keys, h) == Sum(keys, f) + Sum(keys, g)
    decreases keys
  {
    if keys != {} {
      var x :| x in keys;
      SumTake(keys, f, x);
      SumTake(keys, g, x);
      SumTake(keys, h, x);
      SumAdd(keys - {x}, f, g, h);
    }
  }

  lemma {:induction false} SumOnes<T(!new)>(keys: set<T>, f: T -> int)
    requires forall x :: x in keys ==> f(x) == 1
    ensures Sum(keys, f) == |keys|
    decreases keys
  {
    if keys != {} {
      var x :| x in keys;
      SumTake(keys, f, x);
      SumOnes(keys - {x}, f);
      assert |keys| == |keys - {x}| + 1;
    }
  }
}
