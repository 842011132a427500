/** What does not depend on the order of a list: sums, images, and the sorted list itself. Two lists that
    hold the same elements equally often have the same sum under any function, the same image as a
    multiset, and one descending order. Order-independence of fusion is proved from these facts.
 */
module Permutation {

  function Without<T(==)>(x: T, xs: seq<T>): seq<T> {
    if xs == [] then [] else if xs[0] == x then xs[1..] else [xs[0]] + Without(x, xs[1..])
  }

  lemma {:induction false} WithoutCounts<T>(x: T, xs: seq<T>)
    requires x in xs
    ensures multiset(xs) == multiset(Without(x, xs)) + multiset{x}
    ensures |Without(x, xs)| == |xs| - 1
  {
    assert xs == [xs[0]] + xs[1..];
    if xs[0] != x {
      WithoutCounts(x, xs[1..]);
    }
  }

  lemma TailsPermute<T>(xs: seq<T>, ys: seq<T>)
    requires multiset(xs) == multiset(ys) && xs != []
    ensures xs[0] in ys && multiset(xs[1..]) == multiset(Without(xs[0], ys))
  {
    assert xs == [xs[0]] + xs[1..];
    assert xs[0] in multiset(ys);
    WithoutCounts(xs[0], ys);
    assert multiset(xs[1..]) == multiset(xs) - multiset{xs[0]};
  }

  // ----- Sums ------------------------------------------------------------------------------------------

  function Sum<T>(f: T -> real, xs: seq<T>): real {
    if xs == [] then 0.0 else f(xs[0]) + Sum(f, xs[1..])
  }

  lemma {:induction false} SumWithout<T>(f: T -> real, x: T, xs: seq<T>)
    requires x in xs
    ensures Sum(f, xs) == f(x) + Sum(f, Without(x, xs))
  {
    if xs[0] != x {
      var rest := Without(x, xs[1..]);
      SumWithout(f, x, xs[1..]);
      assert ([xs[0]] + rest)[1..] == rest;
    }
  }

  lemma {:induction false} SumPermutes<T>(f: T -> real, xs: seq<T>, ys: seq<T>)
    requires multiset(xs) == multiset(ys)
    ensures Sum(f, xs) == Sum(f, ys)
  {
    if xs == [] {
      Emptied(xs, ys);
    } else {
      TailsPermute(xs, ys);
      SumPermutes(f, xs[1..], Without(xs[0], ys));
      SumWithout(f, xs[0], ys);
    }
  }

  lemma Emptied<T>(xs: seq<T>, ys: seq<T>)
    requires xs == [] && multiset(xs) == multiset(ys)
    ensures ys == []
  {
    assert |ys| == |multiset(ys)| == |multiset(xs)|;
  }

  // ----- Images ----------------------------------------------------------------------------------------

  function Map<T, U>(f: T -> U, xs: seq<T>): (ys: seq<U>)
    ensures |ys| == |xs|
  {
    if xs == [] then [] else [f(xs[0])] + Map(f, xs[1..])
  }

  lemma {:induction false} MapAt<T, U>(f: T -> U, xs: seq<T>, i: nat)
    requires i < |xs|
    ensures Map(f, xs)[i] == f(xs[i])
  {
    if i > 0 {
      MapAt(f, xs[1..], i - 1);
    }
  }

  lemma {:induction false} MapWithout<T, U>(f: T -> U, x: T, xs: seq<T>)
    requires x in xs
    ensures multiset(Map(f, xs)) == multiset(Map(f, Without(x, xs))) + multiset{f(x)}
  {
    MapCons(f, xs[0], xs[1..]);
    assert xs == [xs[0]] + xs[1..];
    if xs[0] != x {
      MapWithout(f, x, xs[1..]);
      MapCons(f, xs[0], Without(x, xs[1..]));
    }
  }

  lemma MapCons<T, U>(f: T -> U, x: T, xs: seq<T>)
    ensures Map(f, [x] + xs) == [f(x)] + Map(f, xs)
    ensures multiset(Map(f, [x] + xs)) == multiset{f(x)} + multiset(Map(f, xs))
  {
    assert ([x] + xs)[1..] == xs;
  }

  lemma {:induction false} MapPermutes<T, U>(f: T -> U, xs: seq<T>, ys: seq<T>)
    requires multiset(xs) == multiset(ys)
    ensures multiset(Map(f, xs)) == multiset(Map(f, ys))
  {
    if xs == [] {
      Emptied(xs, ys);
    } else {
      TailsPermute(xs, ys);
      MapPermutes(f, xs[1..], Without(xs[0], ys));
      MapWithout(f, xs[0], ys);
      MapCons(f, xs[0], xs[1..]);
      assert xs == [xs[0]] + xs[1..];
    }
  }

  // ----- Sorted lists --------------------------------------------------------------------------------

  ghost predicate Descending(xs: seq<real>) {
    forall i, j :: 0 <= i < j < |xs| ==> xs[i] >= xs[j]
  }

  lemma HeadsAgree(xs: seq<real>, ys: seq<real>)
    requires Descending(xs) && Descending(ys) && multiset(xs) == multiset(ys) && xs != []
    ensures ys != [] && xs[0] == ys[0]
  {
    assert |xs| == |multiset(xs)| == |multiset(ys)| == |ys|;
    assert xs[0] in multiset(ys) && ys[0] in multiset(xs);
    var i :| 0 <= i < |ys| && ys[i] == xs[0];
    var j :| 0 <= j < |xs| && xs[j] == ys[0];
  }

  /** There is one descending order of given numbers. */
  lemma {:induction false} DescendingIsUnique(xs: seq<real>, ys: seq<real>)
    requires Descending(xs) && Descending(ys) && multiset(xs) == multiset(ys)
    ensures xs == ys
  {
    if xs == [] {
      Emptied(xs, ys);
    } else {
      HeadsAgree(xs, ys);
      assert xs == [xs[0]] + xs[1..] && ys == [ys[0]] + ys[1..];
      assert multiset(xs[1..]) == multiset(xs) - multiset{xs[0]};
      assert multiset(ys[1..]) == multiset(ys) - multiset{ys[0]};
      DescendingIsUnique(xs[1..], ys[1..]);
    }
  }
}
