/** Sorting as Python's sorted and list.sort do it: ascending by key, equal keys in input order. The sort
    is a permutation, it sorts, and it is stable, for every total order on the keys. Rankings of
    documents, of fused entries and of search results, and the order of headings all come from it.
 */
module Sorting {

  // ----- sorted() of a set of integers -----------------------------------------------------------

  lemma Inhabited<T>(s: set<T>) returns (x: T)
    requires s != {}
    ensures x in s
  {
    x :| x in s;
  }

  method SortedNumbers(s: set<int>) returns (r: seq<int>)
    ensures forall n :: n in r <==> n in s
    ensures forall i, j :: 0 <= i < j < |r| ==> r[i] < r[j]
  {
    r := [];
    var rest := s;
    while rest != {}
      invariant rest <= s
      invariant forall n :: n in r <==> n in s - rest
      invariant forall i, j :: 0 <= i < j < |r| ==> r[i] < r[j]
      invariant forall i, n :: 0 <= i < |r| && n in rest ==> r[i] < n
    {
      var least := Least(rest);
      r := r + [least];
      rest := rest - {least};
    }
  }

  method Least(s: set<int>) returns (m: int)
    requires s != {}
    ensures m in s && forall n :: n in s ==> m <= n
  {
    ghost var some := Inhabited(s);
    m :| m in s;
    var rest := s - {m};
    while rest != {}
      invariant rest <= s && m in s && m !in rest
      invariant forall n :: n in s ==> m <= n || n in rest
    {
      ghost var other := Inhabited(rest);
      var n :| n in rest;
      rest := rest - {n};
      if n < m {
        m := n;
      }
    }
  }

  // ----- Stable sorting ------------------------------------------------------------------------------

  /** `leq` compares the sort keys of two elements; it is total and transitive. */
  ghost predicate TotalOrder<T(!new)>(leq: (T, T) -> bool) {
    && (forall a, b :: leq(a, b) || leq(b, a))
    && (forall a, b, c :: leq(a, b) && leq(b, c) ==> leq(a, c))
  }

  ghost predicate Sorted<T>(leq: (T, T) -> bool, xs: seq<T>) {
    forall i, j :: 0 <= i < j < |xs| ==> leq(xs[i], xs[j])
  }

  /** The elements with the same key as y, in order. */
  ghost function SameKey<T>(leq: (T, T) -> bool, y: T, xs: seq<T>): seq<T> {
    if xs == [] then []
    else (if leq(xs[0], y) && leq(y, xs[0]) then [xs[0]] else []) + SameKey(leq, y, xs[1..])
  }

  /** Inserts x before the first element that is not smaller. */
  function Insert<T>(leq: (T, T) -> bool, x: T, xs: seq<T>): seq<T> {
    if xs == [] || leq(x, xs[0]) then [x] + xs else [xs[0]] + Insert(leq, x, xs[1..])
  }

  function Sort<T>(leq: (T, T) -> bool, xs: seq<T>): seq<T> {
    if xs == [] then [] else Insert(leq, xs[0], Sort(leq, xs[1..]))
  }

  /** The first topK elements, none for a topK of zero or below: xs[:max(topK, 0)]. */
  function Top<T>(xs: seq<T>, topK: int): (r: seq<T>)
    ensures r <= xs && |r| == if topK < 0 then 0 else if topK < |xs| then topK else |xs|
  {
    if topK <= 0 then [] else if topK < |xs| then xs[..topK] else xs
  }

  lemma {:induction false} InsertPermutes<T>(leq: (T, T) -> bool, x: T, xs: seq<T>)
    ensures multiset(Insert(leq, x, xs)) == multiset([x]) + multiset(xs)
  {
    if xs != [] && !leq(x, xs[0]) {
      InsertPermutes(leq, x, xs[1..]);
      assert xs == [xs[0]] + xs[1..];
    }
  }

  lemma {:induction false} InsertSorts<T(!new)>(leq: (T, T) -> bool, x: T, xs: seq<T>)
    requires TotalOrder(leq) && Sorted(leq, xs)
    ensures Sorted(leq, Insert(leq, x, xs))
  {
    if xs == [] {
    } else if leq(x, xs[0]) {
      assert forall j :: 0 < j < |xs| ==> leq(xs[0], xs[j]);
    } else {
      InsertSorts(leq, x, xs[1..]);
      var rest := Insert(leq, x, xs[1..]);
      forall j | 0 <= j < |rest| ensures leq(xs[0], rest[j]) {
        InsertMember(leq, x, xs[1..], j);
        if rest[j] != x {
          var i :| 0 <= i < |xs[1..]| && xs[1..][i] == rest[j];
          assert xs[i + 1] == rest[j];
        }
      }
    }
  }

  lemma {:induction false} InsertMember<T>(leq: (T, T) -> bool, x: T, xs: seq<T>, j: nat)
    requires j < |Insert(leq, x, xs)|
    ensures Insert(leq, x, xs)[j] == x || Insert(leq, x, xs)[j] in xs
  {
    if xs != [] && !leq(x, xs[0]) && j > 0 {
      InsertMember(leq, x, xs[1..], j - 1);
    }
  }

  ghost predicate Through<T(!new)>(leq: (T, T) -> bool, y: T) {
    forall a, b :: leq(a, y) && leq(y, b) ==> leq(a, b)
  }

  lemma {:induction false} InsertStable<T(!new)>(leq: (T, T) -> bool, x: T, xs: seq<T>, y: T)
    requires Through(leq, y)
    ensures SameKey(leq, y, Insert(leq, x, xs)) ==
            (if leq(x, y) && leq(y, x) then [x] else []) + SameKey(leq, y, xs)
  {
    if xs == [] || leq(x, xs[0]) {
      SameKeyCons(leq, y, x, xs);
    } else {
      var rest := Insert(leq, x, xs[1..]);
      InsertStable(leq, x, xs[1..], y);
      SameKeyCons(leq, y, xs[0], rest);
      assert Insert(leq, x, xs) == [xs[0]] + rest;
    }
  }

  lemma SameKeyCons<T>(leq: (T, T) -> bool, y: T, x: T, xs: seq<T>)
    ensures SameKey(leq, y, [x] + xs) == (if leq(x, y) && leq(y, x) then [x] else []) + SameKey(leq, y, xs)
  {
    assert ([x] + xs)[1..] == xs;
  }

  lemma {:induction false} SortPermutes<T>(leq: (T, T) -> bool, xs: seq<T>)
    ensures multiset(Sort(leq, xs)) == multiset(xs)
    ensures |Sort(leq, xs)| == |xs|
  {
    if xs != [] {
      SortPermutes(leq, xs[1..]);
      InsertPermutes(leq, xs[0], Sort(leq, xs[1..]));
      assert xs == [xs[0]] + xs[1..];
      assert |multiset(Sort(leq, xs))| == |multiset(xs)|;
    }
  }

  lemma {:induction false} SortSorts<T(!new)>(leq: (T, T) -> bool, xs: seq<T>)
    requires TotalOrder(leq)
    ensures Sorted(leq, Sort(leq, xs))
  {
    if xs != [] {
      SortSorts(leq, xs[1..]);
      InsertSorts(leq, xs[0], Sort(leq, xs[1..]));
    }
  }

  /** A sorted list is left as it is. */
  lemma {:induction false} SortOfSorted<T>(leq: (T, T) -> bool, xs: seq<T>)
    requires Sorted(leq, xs)
    ensures Sort(leq, xs) == xs
  {
    if |xs| > 1 {
      SortOfSorted(leq, xs[1..]);
      assert leq(xs[0], xs[1]);
    }
  }

  /** Elements with equal keys keep their input order. */
  lemma SortIsStable<T(!new)>(leq: (T, T) -> bool, xs: seq<T>, y: T)
    requires TotalOrder(leq)
    ensures SameKey(leq, y, Sort(leq, xs)) == SameKey(leq, y, xs)
  {
    assert Through(leq, y);
    SortStable(leq, xs, y);
  }

  lemma {:induction false} SortStable<T(!new)>(leq: (T, T) -> bool, xs: seq<T>, y: T)
    requires Through(leq, y)
    ensures SameKey(leq, y, Sort(leq, xs)) == SameKey(leq, y, xs)
  {
    if xs != [] {
      SortStable(leq, xs[1..], y);
      InsertStable(leq, xs[0], Sort(leq, xs[1..]), y);
    }
  }
}
