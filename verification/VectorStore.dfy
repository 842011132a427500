/** The in-memory vector store of rag-db-handler: a list of points that acts as a map keyed by namespace and
    chunk id, searched by cosine similarity in exact arithmetic.
 */
module VectorStore {
  import opened Options
  import opened Reals
  import Sorting

  type Vector = seq<real>

  // ----- Cosine similarity -----------------------------------------------------------------------------

  function Dot(a: Vector, b: Vector): real
    requires |a| == |b|
  {
    if a == [] then 0.0
    else
      var n := |a| - 1;
      Dot(a[..n], b[..n]) + Product(a[n], b[n])
  }

  function Product(x: real, y: real): real { x * y }

  /** `root` is the square root. */
  ghost predicate IsRoot(root: real -> real) {
    forall x: real :: x >= 0.0 ==> root(x) >= 0.0 && Product(root(x), root(x)) == x
  }

  function Norm(root: real -> real, a: Vector, b: Vector): real
    requires |a| == |b|
  {
    Product(root(Dot(a, a)), root(Dot(b, b)))
  }

  function Cosine(root: real -> real, a: Vector, b: Vector): real
    requires |a| == |b|
  {
    var norm := Norm(root, a, b);
    if norm == 0.0 then 0.0 else Dot(a, b) / norm
  }

  lemma {:induction false} SquaresNotNegative(a: Vector)
    ensures Dot(a, a) >= 0.0
  {
    if a != [] {
      SquaresNotNegative(a[..|a| - 1]);
    }
  }

  /** aa s^2 + 2 ab s t + bb t^2, which for the dot products of two vectors is a sum of squares. */
  function Form(aa: real, ab: real, bb: real, s: real, t: real): real {
    aa * s * s + 2.0 * ab * s * t + bb * t * t
  }

  /** The form is nowhere negative. */
  ghost predicate Definite(aa: real, ab: real, bb: real) {
    forall s, t :: Form(aa, ab, bb, s, t) >= 0.0
  }

  lemma FormAdds(aa: real, ab: real, bb: real, xx: real, xy: real, yy: real, s: real, t: real)
    ensures Form(aa + xx, ab + xy, bb + yy, s, t) == Form(aa, ab, bb, s, t) + Form(xx, xy, yy, s, t)
  {
  }

  lemma FormOfOne(x: real, y: real, s: real, t: real)
    ensures Form(Product(x, x), Product(x, y), Product(y, y), s, t) >= 0.0
  {
    var z := s * x + t * y;
    assert (s * x + t * y) * (s * x + t * y) == (x * x) * s * s + 2.0 * (x * y) * s * t + (y * y) * t * t;
    assert z * z >= 0.0;
  }

  lemma FormAt(aa: real, ab: real, bb: real)
    ensures Form(aa, ab, bb, bb, -ab) == bb * (aa * bb - ab * ab)
  {
  }

  lemma {:induction false} FormNotNegative(a: Vector, b: Vector, s: real, t: real)
    requires |a| == |b|
    ensures Form(Dot(a, a), Dot(a, b), Dot(b, b), s, t) >= 0.0
  {
    if a != [] {
      var n := |a| - 1;
      var x, y := a[n], b[n];
      FormNotNegative(a[..n], b[..n], s, t);
      FormOfOne(x, y, s, t);
      FormAdds(Dot(a[..n], a[..n]), Dot(a[..n], b[..n]), Dot(b[..n], b[..n]), Product(x, x), Product(x, y), Product(y, y), s, t);
    }
  }

  lemma PositiveProduct(x: real, y: real)
    requires x > 0.0 && y > 0.0
    ensures Product(x, y) > 0.0
  {
  }

  lemma SquareSign(z: real)
    ensures Product(z, z) >= 0.0
    ensures z != 0.0 ==> Product(z, z) > 0.0
  {
    if z > 0.0 {
      PositiveProduct(z, z);
    } else if z < 0.0 {
      PositiveProduct(-z, -z);
      Negate(z);
    } else {
      assert Product(0.0, 0.0) == 0.0;
    }
  }

  lemma Negate(z: real)
    ensures Product(-z, -z) == Product(z, z)
  {
  }

  lemma {:induction false} ZeroVector(a: Vector, b: Vector)
    requires |a| == |b| && Dot(b, b) == 0.0
    ensures Dot(a, b) == 0.0
  {
    if a != [] {
      var n := |a| - 1;
      SquaresNotNegative(b[..n]);
      SquareSign(b[n]);
      ZeroVector(a[..n], b[..n]);
      assert Product(a[n], 0.0) == 0.0;
    }
  }

  lemma CauchySchwarz(a: Vector, b: Vector)
    requires |a| == |b|
    ensures Product(Dot(a, b), Dot(a, b)) <= Product(Dot(a, a), Dot(b, b))
  {
    var aa, ab, bb := Dot(a, a), Dot(a, b), Dot(b, b);
    SquaresNotNegative(b);
    if bb == 0.0 {
      ZeroVector(a, b);
    } else {
      DotsDefinite(a, b);
      Discriminant(aa, ab, bb);
    }
  }

  lemma DotsDefinite(a: Vector, b: Vector)
    requires |a| == |b|
    ensures Definite(Dot(a, a), Dot(a, b), Dot(b, b))
  {
    forall s, t ensures Form(Dot(a, a), Dot(a, b), Dot(b, b), s, t) >= 0.0 {
      FormNotNegative(a, b, s, t);
    }
  }

  lemma Discriminant(aa: real, ab: real, bb: real)
    requires bb > 0.0 && Definite(aa, ab, bb)
    ensures Product(ab, ab) <= Product(aa, bb)
  {
    var d := aa * bb - ab * ab;
    assert Form(aa, ab, bb, bb, -ab) >= 0.0;
    FormAt(aa, ab, bb);
    assert bb * d >= 0.0;
    Scale(d, 0.0, bb);
  }

  /** A number whose square is at most that of a positive bound lies within the bound. */
  lemma Within(x: real, bound: real)
    requires bound > 0.0 && Product(x, x) <= Product(bound, bound)
    ensures -bound <= x <= bound
  {
    if x > bound {
      Larger(x, bound);
    } else if -x > bound {
      Negate(x);
      Larger(-x, bound);
    }
  }

  lemma Larger(x: real, bound: real)
    requires x > bound > 0.0
    ensures Product(x, x) > Product(bound, bound)
  {
    Scale(bound, x, bound);
    Scale(bound, x, x);
  }

  /** The dot product of the zero vector is zero, and changing one coordinate changes it by that one's product:
      it is the sum of the products of the coordinates. */
  lemma {:induction false} DotChanges(a: Vector, b: Vector, i: nat, x: real)
    requires |a| == |b| && i < |a|
    ensures Dot(a[i := x], b) == Dot(a, b) - a[i] * b[i] + x * b[i]
  {
    var n := |a| - 1;
    if i < n {
      assert a[i := x][..n] == a[..n][i := x];
      DotChanges(a[..n], b[..n], i, x);
    } else {
      assert a[i := x][..n] == a[..n];
    }
  }

  lemma {:induction false} DotOfZero(a: Vector, b: Vector)
    requires |a| == |b| && forall i :: 0 <= i < |a| ==> a[i] == 0.0
    ensures Dot(a, b) == 0.0
  {
    if a != [] {
      DotOfZero(a[..|a| - 1], b[..|a| - 1]);
    }
  }

  /** The cosine times the product of the norms is the dot product, and it is zero where a norm is. */
  lemma CosineMeans(root: real -> real, a: Vector, b: Vector)
    requires IsRoot(root) && |a| == |b|
    ensures Product(Cosine(root, a, b), Product(root(Dot(a, a)), root(Dot(b, b)))) == Dot(a, b)
    ensures Product(root(Dot(a, a)), root(Dot(b, b))) == 0.0 ==> Cosine(root, a, b) == 0.0
  {
    var norm := Norm(root, a, b);
    if norm != 0.0 {
      Quotient(Dot(a, b), norm);
    } else {
      SquaresNotNegative(a);
      SquaresNotNegative(b);
      NormSquared(root, Dot(a, a), Dot(b, b));
      CauchySchwarz(a, b);
      SquareIsZero(Dot(a, b));
    }
  }

  lemma SquareIsZero(z: real)
    requires Product(z, z) <= 0.0
    ensures z == 0.0
  {
    SquareSign(z);
  }

  /** Every cosine lies in [-1, 1]. */
  lemma CosineRange(root: real -> real, a: Vector, b: Vector)
    requires IsRoot(root) && |a| == |b|
    ensures -1.0 <= Cosine(root, a, b) <= 1.0
  {
    var norm, dot := Norm(root, a, b), Dot(a, b);
    if norm != 0.0 {
      SquaresNotNegative(a);
      SquaresNotNegative(b);
      NormSquared(root, Dot(a, a), Dot(b, b));
      CauchySchwarz(a, b);
      Within(dot, norm);
      Ratio(dot, norm, 1.0);
      Ratio(dot, norm, -1.0);
    }
  }

  lemma NormSquared(root: real -> real, p: real, q: real)
    requires IsRoot(root) && p >= 0.0 && q >= 0.0
    ensures Product(root(p), root(q)) >= 0.0
    ensures Product(Product(root(p), root(q)), Product(root(p), root(q))) == Product(p, q)
  {
    var x, y := root(p), root(q);
    assert Product(x, x) == p && Product(y, y) == q;
    assert (x * y) * (x * y) == (x * x) * (y * y);
  }

  /** A vector that is not zero has cosine one with itself. */
  lemma CosineOfSelf(root: real -> real, a: Vector)
    requires IsRoot(root) && Dot(a, a) > 0.0
    ensures Cosine(root, a, a) == 1.0
  {
    assert Norm(root, a, a) == Dot(a, a);
    Ratio(Dot(a, a), Dot(a, a), 1.0);
  }

  function Clamp(x: real): real {
    var y := if x < 1.0 then x else 1.0;
    if y > 0.0 then y else 0.0
  }

  function NormalizeScore(score: real): real { Clamp((score + 1.0) / 2.0) }

  /** On a cosine the clamp does nothing. */
  lemma ClampNeverActs(root: real -> real, a: Vector, b: Vector)
    requires IsRoot(root) && |a| == |b|
    ensures NormalizeScore(Cosine(root, a, b)) == (Cosine(root, a, b) + 1.0) / 2.0
  {
    CosineRange(root, a, b);
  }

  method ComputeCosine(root: real -> real, a: Vector, b: Vector) returns (r: Option<real>)
    ensures r == if |a| == |b| then Some(Cosine(root, a, b)) else None
  {
    if |a| != |b| {
      return None;
    }
    var dot, na, nb := 0.0, 0.0, 0.0;
    for i := 0 to |a|
      invariant dot == Dot(a[..i], b[..i]) && na == Dot(a[..i], a[..i]) && nb == Dot(b[..i], b[..i])
    {
      assert a[..i + 1][..i] == a[..i] && b[..i + 1][..i] == b[..i];
      dot := dot + Product(a[i], b[i]);
      na := na + Product(a[i], a[i]);
      nb := nb + Product(b[i], b[i]);
    }
    assert a[..|a|] == a && b[..|b|] == b;
    var norm := Product(root(na), root(nb));
    r := Some(if norm == 0.0 then 0.0 else dot / norm);
  }

  // ----- The points --------------------------------------------------------------------------------------

  datatype Key = Key(space: int, chunk: int)

  /** A stored point; filters see only its payload. */
  datatype Point<P> = Point(key: Key, vector: Vector, payload: P)

  const EMPTY_NAME := 0
  const DEFAULT := 1

  /** namespace or "default" */
  function Space(name: Option<int>): int {
    if name.None? || name.value == EMPTY_NAME then DEFAULT else name.value
  }

  /** The point stored under a key. */
  function Lookup<P>(points: seq<Point<P>>, key: Key): Option<Point<P>> {
    if points == [] then None else if points[0].key == key then Some(points[0]) else Lookup(points[1..], key)
  }

  /** No key twice. */
  ghost predicate Unique<P>(points: seq<Point<P>>) {
    points == [] || (Lookup(points[1..], points[0].key) == None && Unique(points[1..]))
  }

  /** The list stands for the map. */
  ghost predicate Represents<P>(points: seq<Point<P>>, contents: map<Key, Point<P>>) {
    && Unique(points)
    && forall key :: Lookup(points, key) == if key in contents then Some(contents[key]) else None
  }

  /** The point replaced where it is, or appended. */
  function Put<P>(points: seq<Point<P>>, p: Point<P>): seq<Point<P>> {
    if points == [] then [p]
    else if points[0].key == p.key then [p] + points[1..]
    else [points[0]] + Put(points[1..], p)
  }

  lemma LookupCons<P>(first: Point<P>, rest: seq<Point<P>>, key: Key)
    ensures Lookup([first] + rest, key) == if first.key == key then Some(first) else Lookup(rest, key)
    ensures Unique([first] + rest) <==> Lookup(rest, first.key) == None && Unique(rest)
  {
    assert ([first] + rest)[1..] == rest;
  }

  lemma {:induction false} PutLookup<P>(points: seq<Point<P>>, p: Point<P>, key: Key)
    ensures Lookup(Put(points, p), key) == if key == p.key then Some(p) else Lookup(points, key)
    ensures Unique(points) ==> Unique(Put(points, p))
  {
    if points == [] {
      LookupCons(p, [], key);
      assert [p] + [] == [p];
    } else if points[0].key == p.key {
      LookupCons(p, points[1..], key);
    } else {
      PutLookup(points[1..], p, key);
      PutLookup(points[1..], p, points[0].key);
      LookupCons(points[0], Put(points[1..], p), key);
    }
  }

  lemma PutRepresents<P>(points: seq<Point<P>>, contents: map<Key, Point<P>>, p: Point<P>)
    requires Represents(points, contents)
    ensures Represents(Put(points, p), contents[p.key := p])
  {
    PutLookup(points, p, p.key);
    forall key ensures Lookup(Put(points, p), key) == if key == p.key then Some(p) else Lookup(points, key) {
      PutLookup(points, p, key);
    }
  }

  function Remove<P>(points: seq<Point<P>>, space: int, wanted: set<int>): seq<Point<P>> {
    if points == [] then []
    else if points[0].key.space == space && points[0].key.chunk in wanted then Remove(points[1..], space, wanted)
    else [points[0]] + Remove(points[1..], space, wanted)
  }

  lemma {:induction false} RemoveLookup<P>(points: seq<Point<P>>, space: int, wanted: set<int>, key: Key)
    ensures Unique(points) ==> Unique(Remove(points, space, wanted))
    ensures Unique(points) ==> Lookup(Remove(points, space, wanted), key) ==
                                 if key.space == space && key.chunk in wanted then None else Lookup(points, key)
  {
    if points != [] {
      var first, rest := points[0], points[1..];
      RemoveLookup(rest, space, wanted, key);
      RemoveLookup(rest, space, wanted, first.key);
      LookupCons(first, Remove(rest, space, wanted), key);
    }
  }

  function CountIn<P>(points: seq<Point<P>>, space: int): nat {
    if points == [] then 0 else (if points[0].key.space == space then 1 else 0) + CountIn(points[1..], space)
  }

  ghost function KeysIn<P>(contents: map<Key, Point<P>>, space: int): set<Key> {
    set key | key in contents && key.space == space
  }

  lemma {:induction false} CountIsKeys<P>(points: seq<Point<P>>, contents: map<Key, Point<P>>, space: int)
    requires Represents(points, contents)
    ensures CountIn(points, space) == |KeysIn(contents, space)|
  {
    if points == [] {
      forall key ensures key !in contents {
        assert Lookup(points, key) == None;
      }
      assert KeysIn(contents, space) == {};
    } else {
      var first, rest := points[0], points[1..];
      var fewer := contents - {first.key};
      forall key ensures Lookup(rest, key) == if key in fewer then Some(fewer[key]) else None {
        assert Lookup(points, key) == if key in contents then Some(contents[key]) else None;
      }
      CountIsKeys(rest, fewer, space);
      assert Lookup(points, first.key) == Some(first);
      assert first.key in contents;
      assert KeysIn(contents, space) == KeysIn(fewer, space) + if first.key.space == space then {first.key} else {};
    }
  }

  // ----- Searching ---------------------------------------------------------------------------------------

  datatype Scored<P> = Scored(score: real, point: Point<P>)

  function ByScore<P>(): (Scored<P>, Scored<P>) -> bool {
    (a: Scored<P>, b: Scored<P>) => a.score >= b.score
  }

  /** The points of a namespace that pass the filter, scored, in stored order. */
  function Candidates<P>(root: real -> real, points: seq<Point<P>>, q: Vector, space: int, pass: P -> bool): seq<Scored<P>> {
    if points == [] then []
    else
      var n := |points| - 1;
      var p, before := points[n], Candidates(root, points[..n], q, space, pass);
      if p.key.space == space && pass(p.payload) && |p.vector| == |q| then before + [Scored(Cosine(root, q, p.vector), p)]
      else before
  }

  /** Every candidate has the length of the query. */
  predicate Comparable<P>(points: seq<Point<P>>, q: Vector, space: int, pass: P -> bool) {
    points == [] ||
    var n := |points| - 1;
    (points[n].key.space == space && pass(points[n].payload) ==> |points[n].vector| == |q|) &&
    Comparable(points[..n], q, space, pass)
  }

  function Ranking<P>(root: real -> real, points: seq<Point<P>>, q: Vector, space: int, pass: P -> bool): seq<Scored<P>> {
    Sorting.Sort(ByScore(), Candidates(root, points, q, space, pass))
  }

  datatype Hit<P> = Hit(point: Point<P>, score: real, normalized: real, rank: nat)

  function HitsOf<P>(ranking: seq<Scored<P>>): seq<Hit<P>> {
    if ranking == [] then []
    else
      var n := |ranking| - 1;
      HitsOf(ranking[..n]) + [Hit(ranking[n].point, ranking[n].score, NormalizeScore(ranking[n].score), n)]
  }

  /** Hit k stands for the k-th of the ranking. */
  lemma {:induction false} HitsAt<P>(ranking: seq<Scored<P>>, k: nat)
    ensures |HitsOf(ranking)| == |ranking|
    ensures k < |ranking| ==> HitsOf(ranking)[k] == Hit(ranking[k].point, ranking[k].score, NormalizeScore(ranking[k].score), k)
  {
    if ranking != [] {
      HitsAt(ranking[..|ranking| - 1], k);
    }
  }

  lemma ByScoreIsTotal<P(!new)>()
    ensures Sorting.TotalOrder(ByScore<P>())
  {
    var leq := ByScore<P>();
    forall a, b, c | leq(a, b) && leq(b, c) ensures leq(a, c) {
    }
    forall a, b ensures leq(a, b) || leq(b, a) {
    }
  }

  lemma {:induction false} CandidateIffMatching<P>(root: real -> real, points: seq<Point<P>>, q: Vector,
      space: int, pass: P -> bool, p: Point<P>)
    requires Comparable(points, q, space, pass)
    ensures p in points && p.key.space == space && pass(p.payload) <==>
            |p.vector| == |q| && Scored(Cosine(root, q, p.vector), p) in Candidates(root, points, q, space, pass)
  {
    if points != [] {
      var n := |points| - 1;
      CandidateIffMatching(root, points[..n], q, space, pass, p);
      assert points == points[..n] + [points[n]];
    }
  }

  /** What a search returns, in descending score, with nothing better left out: a stored point that is
      left out although it matches scores no more than any that is returned, and topK are returned. */
  lemma NothingBetterLeftOut<P(!new)>(root: real -> real, points: seq<Point<P>>, q: Vector, space: int,
      pass: P -> bool, topK: int,
                                p: Point<P>, i: nat)
    requires Comparable(points, q, space, pass)
    requires p in points && p.key.space == space && pass(p.payload)
    ensures |p.vector| == |q|
    ensures var kept := Sorting.Top(Ranking(root, points, q, space, pass), topK);
            Scored(Cosine(root, q, p.vector), p) in kept ||
            (|kept| == (if topK < 0 then 0 else topK) && (i < |kept| ==> kept[i].score >= Cosine(root, q, p.vector)))
  {
    var all := Candidates(root, points, q, space, pass);
    CandidateIffMatching(root, points, q, space, pass, p);
    var s := Scored(Cosine(root, q, p.vector), p);
    var sorted := Sorting.Sort(ByScore(), all);
    Sorting.SortPermutes(ByScore(), all);
    assert s in multiset(all);
    var j :| 0 <= j < |sorted| && sorted[j] == s;
    if j < topK {
      assert Sorting.Top(sorted, topK)[j] == s;
    } else if i < |Sorting.Top(sorted, topK)| {
      ByScoreIsTotal<P>();
      Sorting.SortSorts(ByScore(), all);
      assert ByScore()(sorted[i], sorted[j]);
    }
  }

  /** Returned points are stored, match, carry their cosine, and come in descending score. */
  lemma ReturnedMatch<P(!new)>(root: real -> real, points: seq<Point<P>>, q: Vector, space: int, pass: P -> bool,
      topK: int, i: nat, j: nat)
    requires Comparable(points, q, space, pass)
    requires i <= j < |Sorting.Top(Ranking(root, points, q, space, pass), topK)|
    ensures var kept := Sorting.Top(Ranking(root, points, q, space, pass), topK); var p := kept[i].point;
            && p in points && p.key.space == space && pass(p.payload) && |p.vector| == |q|
            && kept[i].score == Cosine(root, q, p.vector) && kept[i].score >= kept[j].score
  {
    var all := Candidates(root, points, q, space, pass);
    var sorted := Sorting.Sort(ByScore(), all);
    Sorting.SortPermutes(ByScore(), all);
    ByScoreIsTotal<P>();
    Sorting.SortSorts(ByScore(), all);
    assert sorted[i] in multiset(sorted);
    assert sorted[i] in all;
    CandidateScore(root, points, q, space, pass, sorted[i]);
    assert i < j ==> ByScore()(sorted[i], sorted[j]);
  }

  lemma {:induction false} CandidateScore<P>(root: real -> real, points: seq<Point<P>>, q: Vector, space: int,
      pass: P -> bool, s: Scored<P>)
    requires s in Candidates(root, points, q, space, pass)
    ensures var p := s.point;
            p in points && p.key.space == space && pass(p.payload) && |p.vector| == |q| && s.score == Cosine(root, q, p.vector)
  {
    var n := |points| - 1;
    if s in Candidates(root, points[..n], q, space, pass) {
      CandidateScore(root, points[..n], q, space, pass, s);
    }
  }

  // ----- The store -----------------------------------------------------------------------------------------

  class InMemoryVectorStore<P> {
    var points: seq<Point<P>>
    ghost var contents: map<Key, Point<P>>

    ghost predicate Valid()
      reads this
    {
      Represents(points, contents)
    }

    constructor ()
      ensures Valid() && contents == map[]
    {
      points, contents := [], map[];
    }

    method Upsert(chunk: int, vector: Vector, payload: P, name: Option<int>)
      requires Valid()
      modifies this
      ensures Valid()
      ensures var p := Point(Key(Space(name), chunk), vector, payload);
              contents == old(contents)[p.key := p] && points == Put(old(points), p)
    {
      var p := Point(Key(Space(name), chunk), vector, payload);
      ghost var next := contents[p.key := p];
      PutRepresents(points, contents, p);
      for i := 0 to |points|
        invariant points == old(points) && contents == old(contents)
        invariant Lookup(points[..i], p.key) == None
      {
        if points[i].key == p.key {
          PutAt(points, p, i);
          points, contents := points[i := p], next;
          return;
        }
        LookupSnoc(points[..i], points[i], p.key);
        assert points[..i + 1] == points[..i] + [points[i]];
      }
      assert points[..|points|] == points;
      PutNew(points, p);
      points, contents := points + [p], next;
    }

    method Delete(chunks: seq<int>, name: Option<int>)
      requires Valid()
      modifies this
      ensures Valid()
      ensures forall key :: key in contents <==> key in old(contents) && !(key.space == Space(name) && key.chunk in chunks)
      ensures forall key :: key in contents ==> contents[key] == old(contents)[key]
    {
      var space, wanted := Space(name), set c | c in chunks;
      contents := map key | key in contents && !(key.space == space && key.chunk in wanted) :: contents[key];
      forall key ensures Lookup(Remove(points, space, wanted), key) == if key in contents then Some(contents[key]) else None {
        RemoveLookup(points, space, wanted, key);
        assert Lookup(points, key) == if key in old(contents) then Some(old(contents)[key]) else None;
      }
      RemoveLookup(points, space, wanted, Key(space, 0));
      points := Remove(points, space, wanted);
    }

    method Count(name: Option<int>) returns (n: nat)
      requires Valid()
      ensures n == |KeysIn(contents, Space(name))|
    {
      n := CountIn(points, Space(name));
      CountIsKeys(points, contents, Space(name));
    }

    /** None when a candidate's length differs from the query's. */
    method Search(root: real -> real, q: Vector, topK: int, pass: P -> bool,
        name: Option<int>) returns (hits: Option<seq<Hit<P>>>)
      requires Valid()
      ensures hits == if Comparable(points, q, Space(name), pass) then
                        Some(HitsOf(Sorting.Top(Ranking(root, points, q, Space(name), pass), topK)))
                      else None
    {
      var space := Space(name);
      var scored: seq<Scored<P>> := [];
      for i := 0 to |points|
        invariant scored == Candidates(root, points[..i], q, space, pass)
        invariant Comparable(points[..i], q, space, pass)
      {
        assert points[..i + 1][..i] == points[..i];
        var p := points[i];
        if p.key.space != space {
          continue;
        }
        if !pass(p.payload) {
          continue;
        }
        var score := ComputeCosine(root, q, p.vector);
        if score.None? {
          NeverComparable(points, q, space, pass, i + 1);
          return None;
        }
        scored := scored + [Scored(score.value, p)];
      }
      assert points[..|points|] == points;
      var kept := Sorting.Top(Sorting.Sort(ByScore(), scored), topK);
      var result: seq<Hit<P>> := [];
      for rank: nat := 0 to |kept|
        invariant result == HitsOf(kept[..rank])
      {
        assert kept[..rank + 1][..rank] == kept[..rank];
        result := result + [Hit(kept[rank].point, kept[rank].score, NormalizeScore(kept[rank].score), rank)];
      }
      assert kept[..|kept|] == kept;
      hits := Some(result);
    }
  }

  lemma {:induction false} NeverComparable<P>(points: seq<Point<P>>, q: Vector, space: int, pass: P -> bool, n: nat)
    requires n <= |points| && !Comparable(points[..n], q, space, pass)
    ensures !Comparable(points, q, space, pass)
  {
    if n == |points| {
      assert points[..n] == points;
    } else {
      assert points[..|points| - 1][..n] == points[..n];
      NeverComparable(points[..|points| - 1], q, space, pass, n);
    }
  }

  lemma {:induction false} LookupSnoc<P>(points: seq<Point<P>>, p: Point<P>, key: Key)
    requires Lookup(points, key) == None && p.key != key
    ensures Lookup(points + [p], key) == None
  {
    if points == [] {
      assert [] + [p] == [p] && [p][1..] == [];
    } else {
      LookupSnoc(points[1..], p, key);
      assert (points + [p])[1..] == points[1..] + [p];
    }
  }

  lemma {:induction false} PutAt<P>(points: seq<Point<P>>, p: Point<P>, i: nat)
    requires i < |points| && Lookup(points[..i], p.key) == None && points[i].key == p.key
    ensures Put(points, p) == points[i := p]
  {
    if i > 0 {
      assert points[..i][1..] == points[1..][..i - 1];
      PutAt(points[1..], p, i - 1);
    }
  }

  lemma {:induction false} PutNew<P>(points: seq<Point<P>>, p: Point<P>)
    requires Lookup(points, p.key) == None
    ensures Put(points, p) == points + [p]
  {
    if points != [] {
      PutNew(points[1..], p);
    }
  }
}
