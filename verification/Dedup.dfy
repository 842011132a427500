/** Deduplication of retrieval hits in rag-context. */
module Dedup {
  import Text
  import WordSplit

  /* Exact groups by normalized text, then near-duplicate clusters found with a union-find that
     compresses paths and keeps no rank. */

  // ----- Ascending index lists ----------------------------------------------------------------

  /** The numbers below n that satisfy f, ascending. */
  ghost function Indices(n: nat, f: nat -> bool): seq<nat> {
    if n == 0 then [] else Indices(n - 1, f) + if f(n - 1) then [n - 1] else []
  }

  lemma {:induction false} IndicesFacts(n: nat, f: nat -> bool)
    ensures forall x: nat :: x in Indices(n, f) <==> x < n && f(x)
    ensures forall i, j :: 0 <= i < j < |Indices(n, f)| ==> Indices(n, f)[i] < Indices(n, f)[j]
  {
    if n > 0 {
      IndicesFacts(n - 1, f);
      var short := Indices(n - 1, f);
      assert forall i :: 0 <= i < |short| ==> short[i] in short;
    }
  }

  lemma {:induction false} IndicesAgree(n: nat, f: nat -> bool, g: nat -> bool)
    requires forall x :: 0 <= x < n ==> f(x) == g(x)
    ensures Indices(n, f) == Indices(n, g)
  {
    if n > 0 {
      IndicesAgree(n - 1, f, g);
    }
  }

  // ----- Similarity and connected components -----------------------------------------------------

  /** Jaccard similarity at or above the threshold; two empty token sets are never similar. */
  predicate Similar(a: set<string>, b: set<string>, threshold: real) {
    a + b != {} && |a * b| as real / |a + b| as real >= threshold
  }

  lemma SimilarSymmetric(a: set<string>, b: set<string>, threshold: real)
    ensures Similar(a, b, threshold) == Similar(b, a, threshold)
  {
    assert a + b == b + a && a * b == b * a;
  }

  /** A chain of indices whose neighbours are similar. */
  ghost predicate IsPath(ts: seq<set<string>>, threshold: real, p: seq<nat>) {
    && p != []
    && (forall k :: 0 <= k < |p| ==> p[k] < |ts|)
    && (forall k :: 0 <= k < |p| - 1 ==> Similar(ts[p[k]], ts[p[k + 1]], threshold))
  }

  ghost predicate Connected(ts: seq<set<string>>, threshold: real, i: nat, j: nat) {
    exists p :: IsPath(ts, threshold, p) && p[0] == i && p[|p| - 1] == j
  }

  lemma ConnectedSelf(ts: seq<set<string>>, threshold: real, i: nat)
    requires i < |ts|
    ensures Connected(ts, threshold, i, i)
  {
    assert IsPath(ts, threshold, [i]);
  }

  lemma ConnectedEdge(ts: seq<set<string>>, threshold: real, i: nat, j: nat)
    requires i < |ts| && j < |ts| && Similar(ts[i], ts[j], threshold)
    ensures Connected(ts, threshold, i, j)
  {
    assert IsPath(ts, threshold, [i, j]);
  }

  lemma ConnectedTrans(ts: seq<set<string>>, threshold: real, i: nat, j: nat, k: nat)
    requires Connected(ts, threshold, i, j) && Connected(ts, threshold, j, k)
    ensures Connected(ts, threshold, i, k)
  {
    var p :| IsPath(ts, threshold, p) && p[0] == i && p[|p| - 1] == j;
    var q :| IsPath(ts, threshold, q) && q[0] == j && q[|q| - 1] == k;
    var r := p + q[1..];
    assert IsPath(ts, threshold, r);
    assert r[|r| - 1] == k;
  }

  lemma ConnectedSymmetric(ts: seq<set<string>>, threshold: real, i: nat, j: nat)
    requires Connected(ts, threshold, i, j)
    ensures Connected(ts, threshold, j, i)
  {
    var p :| IsPath(ts, threshold, p) && p[0] == i && p[|p| - 1] == j;
    var r := seq(|p|, (k: nat) requires k < |p| => p[|p| - 1 - k]);
    forall k | 0 <= k < |r| - 1 ensures Similar(ts[r[k]], ts[r[k + 1]], threshold) {
      SimilarSymmetric(ts[p[|p| - 2 - k]], ts[p[|p| - 1 - k]], threshold);
    }
    assert IsPath(ts, threshold, r);
  }

  /** A labelling that similar indices share is constant along paths. */
  lemma {:induction false} PathKeepsLabel(ts: seq<set<string>>, threshold: real, tag: seq<nat>, p: seq<nat>)
    requires |tag| == |ts| && IsPath(ts, threshold, p)
    requires forall i, j :: 0 <= i < j < |ts| && Similar(ts[i], ts[j], threshold) ==> tag[i] == tag[j]
    ensures tag[p[0]] == tag[p[|p| - 1]]
  {
    if |p| > 1 {
      var q := p[1..];
      assert IsPath(ts, threshold, q) by {
        assert forall k :: 0 <= k < |q| ==> q[k] == p[k + 1];
      }
      PathKeepsLabel(ts, threshold, tag, q);
      SimilarSymmetric(ts[p[0]], ts[p[1]], threshold);
    }
  }

  /** No earlier index is connected to i. */
  ghost predicate IsFirst(ts: seq<set<string>>, threshold: real, i: nat) {
    forall j :: 0 <= j < i ==> !Connected(ts, threshold, j, i)
  }

  ghost function Component(ts: seq<set<string>>, threshold: real, i: nat): seq<nat> {
    Indices(|ts|, (j: nat) => Connected(ts, threshold, i, j))
  }

  /** The smallest index of each component, ascending. */
  ghost function Firsts(ts: seq<set<string>>, threshold: real, m: nat): seq<nat> {
    Indices(m, (i: nat) => IsFirst(ts, threshold, i))
  }

  /** The connected components, each ascending, ordered by smallest index. */
  ghost function Components(ts: seq<set<string>>, threshold: real): seq<seq<nat>> {
    var fs := Firsts(ts, threshold, |ts|);
    seq(|fs|, (p: nat) requires p < |fs| => Component(ts, threshold, fs[p]))
  }

  // ----- Union-find -----------------------------------------------------------------------------------

  /** What a node knows: `rep[x]` is the root x reaches, and `rank` grows strictly along its link and
      towards its root, below `height`. The rank is what makes the links acyclic; the code keeps none. */
  ghost predicate Node(parent: seq<nat>, rep: seq<nat>, rank: seq<nat>, height: nat, x: nat) {
    && x < |parent| == |rep| == |rank|
    && parent[x] < |parent| && rep[x] < |parent| && rank[x] <= height
    && parent[rep[x]] == rep[x] && rep[parent[x]] == rep[x]
    && (parent[x] == x ==> rep[x] == x)
    && (parent[x] != x ==> rank[x] < rank[parent[x]])
    && (rep[x] != x ==> rank[x] < rank[rep[x]])
  }

  ghost predicate Forest(parent: seq<nat>, rep: seq<nat>, rank: seq<nat>, height: nat) {
    |parent| == |rep| == |rank| && forall x :: 0 <= x < |parent| ==> Node(parent, rep, rank, height, x)
  }

  /** The node reached from x by following k parent links. */
  ghost function Walk(parent: seq<nat>, x: nat, k: nat): nat
    decreases k
  {
    if k == 0 || x >= |parent| then x else Walk(parent, parent[x], k - 1)
  }

  /** Following parent links from x ends in `rep[x]`, which is its own parent. */
  lemma {:induction false} RepIsReached(parent: seq<nat>, rep: seq<nat>, rank: seq<nat>, height: nat,
      x: nat) returns (k: nat)
    requires Forest(parent, rep, rank, height) && x < |parent|
    ensures rep[x] < |parent| && Walk(parent, x, k) == rep[x] && parent[rep[x]] == rep[x]
    decreases height - rank[x]
  {
    assert Node(parent, rep, rank, height, x);
    if parent[x] == x {
      k := 0;
    } else {
      assert Node(parent, rep, rank, height, parent[x]);
      k := RepIsReached(parent, rep, rank, height, parent[x]);
      k := k + 1;
    }
  }

  lemma Compress(parent: seq<nat>, rep: seq<nat>, rank: seq<nat>, height: nat, y: nat)
    requires Forest(parent, rep, rank, height) && y < |parent|
    ensures rep[y] < |parent| && Forest(parent[y := rep[y]], rep, rank, height)
  {
    assert Node(parent, rep, rank, height, y);
    assert Node(parent, rep, rank, height, rep[y]);
    var short := parent[y := rep[y]];
    forall x | 0 <= x < |parent| ensures Node(short, rep, rank, height, x) {
      assert Node(parent, rep, rank, height, x);
    }
  }

  function Relabel(rep: seq<nat>, a: nat, b: nat): seq<nat> {
    seq(|rep|, (x: nat) requires x < |rep| => if rep[x] == a then b else rep[x])
  }

  lemma Link(parent: seq<nat>, rep: seq<nat>, rank: seq<nat>, height: nat, ra: nat, rb: nat)
    requires Forest(parent, rep, rank, height) && ra < |parent| && rb < |parent| && ra != rb
    requires parent[ra] == ra && parent[rb] == rb
    ensures var up := if rank[rb] > rank[ra] then rank[rb] else rank[ra] + 1;
            Forest(parent[ra := rb], Relabel(rep, ra, rb), rank[rb := up], if height > rank[ra] then height else rank[ra] + 1)
  {
    assert Node(parent, rep, rank, height, ra) && Node(parent, rep, rank, height, rb);
    var up := if rank[rb] > rank[ra] then rank[rb] else rank[ra] + 1;
    var top := if height > rank[ra] then height else rank[ra] + 1;
    var parent', rep', rank' := parent[ra := rb], Relabel(rep, ra, rb), rank[rb := up];
    forall x | 0 <= x < |parent| ensures Node(parent', rep', rank', top, x) {
      assert Node(parent, rep, rank, height, x);
      assert Node(parent, rep, rank, height, rep[x]);
    }
  }

  class UnionFind {
    var parent: seq<nat>
    ghost var rep: seq<nat>
    ghost var rank: seq<nat>
    ghost var height: nat

    ghost predicate Valid()
      reads this
    {
      Forest(parent, rep, rank, height)
    }

    constructor (n: nat)
      ensures Valid() && |parent| == n && rep == seq(n, (i: nat) => i)
    {
      parent := seq(n, (i: nat) => i);
      rep := seq(n, (i: nat) => i);
      rank := seq(n, _ => 0);
      height := 0;
      new;
      assert forall x :: 0 <= x < n ==> Node(parent, rep, rank, height, x);
    }

    /** Returns the root of x; every node keeps the root it reaches. */
    method Find(x: nat) returns (root: nat)
      requires Valid() && x < |parent|
      modifies this`parent
      ensures Valid() && |parent| == old(|parent|)
      ensures root < |parent| && root == rep[x] && parent[x] == root == parent[root]
      ensures forall y :: 0 <= y < |parent| && old(parent)[y] == y ==> parent[y] == y
    {
      root := x;
      while parent[root] != root
        invariant root < |parent| && rep[root] == rep[x]
        decreases height - rank[root]
      {
        assert Node(parent, rep, rank, height, root);
        assert Node(parent, rep, rank, height, parent[root]);
        root := parent[root];
      }
      assert Node(parent, rep, rank, height, root);
      var y: nat := x;
      while parent[y] != root
        invariant |parent| == old(|parent|) && y < |parent|
        invariant Valid()
        invariant root < |parent| && rep[y] == root == rep[x] && parent[root] == root
        invariant y != x ==> parent[x] == root
        invariant forall z :: 0 <= z < |parent| && old(parent)[z] == z ==> parent[z] == z
        decreases height - rank[y]
      {
        assert Node(parent, rep, rank, height, y);
        assert Node(parent, rep, rank, height, parent[y]);
        Compress(parent, rep, rank, height, y);
        var next := parent[y];
        parent := parent[y := root];
        y := next;
      }
    }

    /** Links the root of a below the root of b. */
    method Union(a: nat, b: nat)
      requires Valid() && a < |parent| && b < |parent|
      modifies this
      ensures Valid() && |parent| == old(|parent|)
      ensures rep == Relabel(old(rep), old(rep)[a], old(rep)[b])
    {
      var ra := Find(a);
      var rb := Find(b);
      if ra != rb {
        Link(parent, rep, rank, height, ra, rb);
        parent := parent[ra := rb];
        height := if height > rank[ra] then height else rank[ra] + 1;
        rank := rank[rb := if rank[rb] > rank[ra] then rank[rb] else rank[ra] + 1];
        rep := Relabel(rep, ra, rb);
      }
    }
  }

  /** No earlier index has the tag of i. */
  ghost predicate FirstOf(tag: seq<nat>, i: nat)
    requires i < |tag|
  {
    forall j :: 0 <= j < i ==> tag[j] != tag[i]
  }

  ghost function Labelled(tag: seq<nat>, r: nat, n: nat): seq<nat>
    requires n <= |tag|
  {
    Indices(n, (j: nat) => j < |tag| && tag[j] == r)
  }

  /** The labels of the first m indices in order of first appearance. */
  ghost function Labels(tag: seq<nat>, m: nat): seq<nat>
    requires m <= |tag|
  {
    if m == 0 then [] else Labels(tag, m - 1) + if FirstOf(tag, m - 1) then [tag[m - 1]] else []
  }

  lemma {:induction false} LabelsFacts(tag: seq<nat>, m: nat)
    requires m <= |tag|
    ensures forall r :: r in Labels(tag, m) <==> exists i :: 0 <= i < m && tag[i] == r
  {
    if m > 0 {
      LabelsFacts(tag, m - 1);
      if !FirstOf(tag, m - 1) {
        var j :| 0 <= j < m - 1 && tag[j] == tag[m - 1];
      }
    }
  }

  /** If labels are equal exactly for connected indices, the indices whose label is new are the
      first ones of the components. */
  lemma {:induction false} NewLabelsAreFirsts(ts: seq<set<string>>, threshold: real, tag: seq<nat>, m: nat)
    requires |tag| == |ts| && m <= |ts|
    requires forall i, j :: 0 <= i < |ts| && 0 <= j < |ts| ==> (tag[i] == tag[j] <==> Connected(ts, threshold, i, j))
    ensures var fs := Firsts(ts, threshold, m);
            |Labels(tag, m)| == |fs| && forall k :: 0 <= k < |fs| ==> fs[k] < m && Labels(tag, m)[k] == tag[fs[k]]
  {
    if m > 0 {
      NewLabelsAreFirsts(ts, threshold, tag, m - 1);
      assert FirstOf(tag, m - 1) <==> IsFirst(ts, threshold, m - 1);
    }
  }

  lemma LabelsAreComponents(ts: seq<set<string>>, threshold: real, tag: seq<nat>, out: seq<seq<nat>>)
    requires |tag| == |ts|
    requires forall i, j :: 0 <= i < |ts| && 0 <= j < |ts| ==> (tag[i] == tag[j] <==> Connected(ts, threshold, i, j))
    requires |out| == |Labels(tag, |ts|)|
    requires forall k :: 0 <= k < |out| ==> out[k] == Labelled(tag, Labels(tag, |ts|)[k], |ts|)
    ensures out == Components(ts, threshold)
  {
    NewLabelsAreFirsts(ts, threshold, tag, |ts|);
    var fs := Firsts(ts, threshold, |ts|);
    forall k | 0 <= k < |out| ensures out[k] == Component(ts, threshold, fs[k]) {
      IndicesAgree(|ts|, (j: nat) => j < |tag| && tag[j] == tag[fs[k]], (j: nat) => Connected(ts, threshold, fs[k], j));
    }
  }

  /** The clusters are exactly the connected components of the similarity graph, each ascending,
      ordered by smallest index. */
  method Cluster(ts: seq<set<string>>, threshold: real) returns (clusters: seq<seq<nat>>)
    ensures clusters == Components(ts, threshold)
  {
    var n := |ts|;
    if n <= 1 {
      if n == 1 {
        OneComponent(ts, threshold);
        return [[0]];
      }
      return [];
    }
    var uf := new UnionFind(n);
    forall x | 0 <= x < n ensures Connected(ts, threshold, x, x) {
      ConnectedSelf(ts, threshold, x);
    }
    for i := 0 to n
      invariant uf.Valid() && |uf.parent| == n
      invariant Sound(ts, threshold, uf.rep)
      invariant forall a, b :: 0 <= a < i && a < b < n && Similar(ts[a], ts[b], threshold) ==> uf.rep[a] == uf.rep[b]
    {
      for j := i + 1 to n
        invariant uf.Valid() && |uf.parent| == n
        invariant Sound(ts, threshold, uf.rep)
        invariant forall a, b :: 0 <= a < i && a < b < n && Similar(ts[a], ts[b], threshold) ==> uf.rep[a] == uf.rep[b]
        invariant forall b :: i < b < j && Similar(ts[i], ts[b], threshold) ==> uf.rep[i] == uf.rep[b]
      {
        if ts[i] + ts[j] != {} && |ts[i] * ts[j]| as real / |ts[i] + ts[j]| as real >= threshold {
          ghost var before := uf.rep;
          uf.Union(i, j);
          UnionIsSound(ts, threshold, before, uf.rep, i, j);
        }
      }
    }
    clusters := Collect(uf, ts, threshold);
  }

  lemma OneComponent(ts: seq<set<string>>, threshold: real)
    requires |ts| == 1
    ensures Components(ts, threshold) == [[0]]
  {
    ConnectedSelf(ts, threshold, 0);
    assert Component(ts, threshold, 0) == [0];
    assert Firsts(ts, threshold, 1) == [0];
  }

  /** Nodes with the same root are connected. */
  ghost predicate Sound(ts: seq<set<string>>, threshold: real, rep: seq<nat>) {
    |rep| == |ts| && forall x, y :: 0 <= x < |ts| && 0 <= y < |ts| && rep[x] == rep[y] ==> Connected(ts, threshold, x, y)
  }

  lemma UnionIsSound(ts: seq<set<string>>, threshold: real, rep: seq<nat>, rep': seq<nat>, i: nat, j: nat)
    requires Sound(ts, threshold, rep) && |rep'| == |rep| && i < |ts| && j < |ts| && Similar(ts[i], ts[j], threshold)
    requires forall x :: 0 <= x < |rep| ==> rep'[x] == if rep[x] == rep[i] then rep[j] else rep[x]
    ensures Sound(ts, threshold, rep')
  {
    ConnectedEdge(ts, threshold, i, j);
    ConnectedSymmetric(ts, threshold, i, j);
    forall x, y | 0 <= x < |ts| && 0 <= y < |ts| && rep'[x] == rep'[y] ensures Connected(ts, threshold, x, y) {
      if rep[x] == rep[y] {
      } else if rep[x] == rep[i] {
        ConnectedTrans(ts, threshold, x, i, j);
        ConnectedTrans(ts, threshold, x, j, y);
      } else {
        ConnectedTrans(ts, threshold, x, j, i);
        ConnectedTrans(ts, threshold, x, i, y);
      }
    }
  }

  /** What the last loop has gathered from the first i indices. */
  ghost predicate Gathered(rep: seq<nat>, i: nat, clusters: map<nat, seq<nat>>, order: seq<nat>) {
    && i <= |rep|
    && order == Labels(rep, i)
    && (forall r :: r in clusters <==> r in order)
    && (forall r :: r in clusters ==> clusters[r] == Labelled(rep, r, i))
  }

  lemma {:induction false} NoneLabelled(tag: seq<nat>, r: nat, n: nat)
    requires n <= |tag| && forall i :: 0 <= i < n ==> tag[i] != r
    ensures Labelled(tag, r, n) == []
  {
    if n > 0 {
      NoneLabelled(tag, r, n - 1);
    }
  }

  lemma GatherOne(rep: seq<nat>, i: nat, clusters: map<nat, seq<nat>>, order: seq<nat>)
    requires i < |rep| && Gathered(rep, i, clusters, order)
    ensures var root := rep[i];
            var known := if root in clusters then clusters else clusters[root := []];
            Gathered(rep, i + 1, known[root := known[root] + [i]], if root in clusters then order else order + [root])
  {
    LabelsFacts(rep, i);
    if rep[i] !in clusters {
      NoneLabelled(rep, rep[i], i);
    }
  }

  method Gather(uf: UnionFind) returns (clusters: map<nat, seq<nat>>, order: seq<nat>)
    requires uf.Valid()
    modifies uf`parent
    ensures uf.Valid() && |uf.parent| == old(|uf.parent|) && Gathered(uf.rep, |uf.rep|, clusters, order)
  {
    var n := |uf.parent|;
    clusters, order := map[], [];
    for i := 0 to n
      invariant uf.Valid() && |uf.parent| == n == |uf.rep|
      invariant Gathered(uf.rep, i, clusters, order)
    {
      GatherOne(uf.rep, i, clusters, order);
      var root := uf.Find(i);
      if root !in clusters {
        clusters := clusters[root := []];
        order := order + [root];
      }
      clusters := clusters[root := clusters[root] + [i]];
    }
  }

  /** The last loop: one list per root, in order of first appearance. */
  method Collect(uf: UnionFind, ghost ts: seq<set<string>>, ghost threshold: real) returns (out: seq<seq<nat>>)
    requires uf.Valid() && Sound(ts, threshold, uf.rep)
    requires forall a, b :: 0 <= a < b < |ts| && Similar(ts[a], ts[b], threshold) ==> uf.rep[a] == uf.rep[b]
    modifies uf`parent
    ensures out == Components(ts, threshold)
  {
    var clusters, order := Gather(uf);
    out := seq(|order|, (k: nat) requires k < |order| && order[k] in clusters => clusters[order[k]]);
    RepIsComponent(ts, threshold, uf.rep);
    LabelsAreComponents(ts, threshold, uf.rep, out);
  }

  lemma RepIsComponent(ts: seq<set<string>>, threshold: real, rep: seq<nat>)
    requires Sound(ts, threshold, rep)
    requires forall a, b :: 0 <= a < b < |ts| && Similar(ts[a], ts[b], threshold) ==> rep[a] == rep[b]
    ensures forall i, j :: 0 <= i < |ts| && 0 <= j < |ts| ==> (rep[i] == rep[j] <==> Connected(ts, threshold, i, j))
  {
    forall i, j | 0 <= i < |ts| && 0 <= j < |ts| && Connected(ts, threshold, i, j) ensures rep[i] == rep[j] {
      var p :| IsPath(ts, threshold, p) && p[0] == i && p[|p| - 1] == j;
      PathKeepsLabel(ts, threshold, rep, p);
    }
  }

  // ----- What the components are ------------------------------------------------------------------

  lemma SmallestConnected(ts: seq<set<string>>, threshold: real, x: nat) returns (i: nat)
    requires x < |ts|
    ensures i <= x && Connected(ts, threshold, i, x) && IsFirst(ts, threshold, i)
  {
    ConnectedSelf(ts, threshold, x);
    i := x;
    while !IsFirst(ts, threshold, i)
      invariant i <= x && Connected(ts, threshold, i, x)
      decreases i
    {
      var j :| 0 <= j < i && Connected(ts, threshold, j, i);
      ConnectedTrans(ts, threshold, j, i, x);
      i := j;
    }
  }

  /** A component lists the indices connected to its first one, ascending from it. */
  lemma ComponentFacts(ts: seq<set<string>>, threshold: real, p: nat)
    requires p < |Components(ts, threshold)|
    ensures var fs, c := Firsts(ts, threshold, |ts|), Components(ts, threshold)[p];
            && p < |fs| && fs[p] < |ts| && IsFirst(ts, threshold, fs[p])
            && c != [] && c[0] == fs[p]
            && (forall x: nat :: x in c <==> x < |ts| && Connected(ts, threshold, fs[p], x))
            && (forall k, l :: 0 <= k < l < |c| ==> c[k] < c[l])
  {
    var fs, c := Firsts(ts, threshold, |ts|), Components(ts, threshold)[p];
    IndicesFacts(|ts|, (i: nat) => IsFirst(ts, threshold, i));
    assert fs[p] in fs;
    IndicesFacts(|ts|, (j: nat) => Connected(ts, threshold, fs[p], j));
    ConnectedSelf(ts, threshold, fs[p]);
    assert fs[p] in c;
    assert c[0] in c;
    ConnectedSymmetric(ts, threshold, fs[p], c[0]);
  }

  /** Every index is in a component. */
  lemma ComponentsCover(ts: seq<set<string>>, threshold: real, x: nat) returns (p: nat)
    requires x < |ts|
    ensures p < |Components(ts, threshold)| && x in Components(ts, threshold)[p]
  {
    var fs := Firsts(ts, threshold, |ts|);
    var least := SmallestConnected(ts, threshold, x);
    IndicesFacts(|ts|, (i: nat) => IsFirst(ts, threshold, i));
    assert least in fs;
    p :| 0 <= p < |fs| && fs[p] == least;
    ComponentFacts(ts, threshold, p);
  }

  /** Two indices are in the same component exactly when they are connected. */
  lemma ComponentsSeparate(ts: seq<set<string>>, threshold: real, p: nat, q: nat, x: nat, y: nat)
    requires p < |Components(ts, threshold)| && q < |Components(ts, threshold)|
    requires x in Components(ts, threshold)[p] && y in Components(ts, threshold)[q]
    ensures Connected(ts, threshold, x, y) <==> p == q
  {
    var fs := Firsts(ts, threshold, |ts|);
    ComponentFacts(ts, threshold, p);
    ComponentFacts(ts, threshold, q);
    IndicesFacts(|ts|, (i: nat) => IsFirst(ts, threshold, i));
    ConnectedSymmetric(ts, threshold, fs[p], x);
    if p == q {
      ConnectedTrans(ts, threshold, x, fs[p], y);
    } else if Connected(ts, threshold, x, y) {
      ConnectedSymmetric(ts, threshold, fs[q], y);
      ConnectedTrans(ts, threshold, fs[p], x, y);
      ConnectedTrans(ts, threshold, fs[p], y, fs[q]);
      ConnectedSymmetric(ts, threshold, fs[p], fs[q]);
    }
  }

  /** Without any similar pair every component is a single index. */
  lemma NoEdges(ts: seq<set<string>>, threshold: real)
    requires forall i, j :: 0 <= i < j < |ts| ==> !Similar(ts[i], ts[j], threshold)
    ensures Components(ts, threshold) == seq(|ts|, (i: nat) => [i])
  {
    var tag := seq(|ts|, (i: nat) => i);
    forall i, j | 0 <= i < |ts| && 0 <= j < |ts| ensures tag[i] == tag[j] <==> Connected(ts, threshold, i, j) {
      if i == j {
        ConnectedSelf(ts, threshold, i);
      } else if Connected(ts, threshold, i, j) {
        var p :| IsPath(ts, threshold, p) && p[0] == i && p[|p| - 1] == j;
        PathKeepsLabel(ts, threshold, tag, p);
      }
    }
    IdentityLabels(|ts|, tag);
    forall k: nat | k < |ts| ensures Labelled(tag, k, |ts|) == [k] {
      OneLabelled(tag, k, |ts|);
    }
    LabelsAreComponents(ts, threshold, tag, seq(|ts|, (i: nat) => [i]));
  }

  lemma {:induction false} IdentityLabels(m: nat, tag: seq<nat>)
    requires m <= |tag| && forall i :: 0 <= i < |tag| ==> tag[i] == i
    ensures Labels(tag, m) == tag[..m]
  {
    if m > 0 {
      IdentityLabels(m - 1, tag);
    }
  }

  lemma {:induction false} OneIndex(n: nat, f: nat -> bool, k: nat)
    requires forall x: nat :: x < n ==> (f(x) <==> x == k)
    ensures Indices(n, f) == if k < n then [k] else []
  {
    if n > 0 {
      OneIndex(n - 1, f, k);
    }
  }

  lemma OneLabelled(tag: seq<nat>, k: nat, m: nat)
    requires m <= |tag| && forall i :: 0 <= i < |tag| ==> tag[i] == i
    ensures Labelled(tag, k, m) == if k < m then [k] else []
  {
    OneIndex(m, (j: nat) => j < |tag| && tag[j] == k, k);
  }

  // ----- Hits, groups and representatives ----------------------------------------------------------

  /** `words` is the lower-cased text split at whitespace (empty without a text). */
  datatype Hit = Hit(chunkId: string, words: seq<string>, score: real, strategyScores: map<string, real>)

  /** The normalized text, or the chunk id where that is empty. */
  function Key(hit: Hit): string {
    var text := Text.JoinWith(hit.words, " ");
    if text != "" then text else hit.chunkId
  }

  /** Per strategy, the larger of the two scores. */
  function MaxMerge(dst: map<string, real>, src: map<string, real>): map<string, real> {
    map s | s in dst.Keys + src.Keys :: if s in dst && (s !in src || src[s] <= dst[s]) then dst[s] else src[s]
  }

  function Pool(group: seq<Hit>): map<string, real> {
    if group == [] then map[] else MaxMerge(Pool(group[..|group| - 1]), group[|group| - 1].strategyScores)
  }

  /** The first hit of highest score. */
  function Best(group: seq<Hit>): Hit
    requires group != []
  {
    var last := group[|group| - 1];
    if |group| == 1 then last
    else
      var best := Best(group[..|group| - 1]);
      if last.score > best.score then last else best
  }

  /** The best hit with the pooled strategy scores of its group. */
  function Representative(group: seq<Hit>): Hit
    requires group != []
  {
    Best(group).(strategyScores := Pool(group))
  }

  ghost predicate Attained(group: set<Hit>, s: string, score: real) {
    exists hit :: hit in group && s in hit.strategyScores && hit.strategyScores[s] == score
  }

  function Members(group: seq<Hit>): set<Hit> { set hit | hit in group }

  /** `rep` is one of the hits but for the strategy scores. */
  ghost predicate OneOf(rep: Hit, group: set<Hit>) {
    exists hit :: hit in group && rep == hit.(strategyScores := rep.strategyScores)
  }

  /** `rep` scores at least as high as the hit, in total and per strategy. */
  ghost predicate Dominates(rep: Hit, hit: Hit) {
    hit.score <= rep.score &&
    forall s :: s in hit.strategyScores ==> s in rep.strategyScores && hit.strategyScores[s] <= rep.strategyScores[s]
  }

  /** `rep` stands for `group`: it is one of its hits, it dominates all of them, and each of its
      strategy scores is attained in the group; so both kinds of score are maxima over the group. */
  ghost predicate StandsFor(rep: Hit, group: set<Hit>) {
    && OneOf(rep, group)
    && (forall hit :: hit in group ==> Dominates(rep, hit))
    && (forall s :: s in rep.strategyScores ==> Attained(group, s, rep.strategyScores[s]))
  }

  lemma {:induction false} BestFacts(group: seq<Hit>)
    requires group != []
    ensures Best(group) in group
    ensures forall hit :: hit in group ==> hit.score <= Best(group).score
  {
    if |group| > 1 {
      var short := group[..|group| - 1];
      BestFacts(short);
      assert group == short + [group[|group| - 1]];
    }
  }

  lemma {:induction false} PoolFacts(group: seq<Hit>, s: string)
    ensures s in Pool(group) ==> Attained(Members(group), s, Pool(group)[s])
    ensures forall hit :: hit in group && s in hit.strategyScores ==> s in Pool(group) && hit.strategyScores[s] <= Pool(group)[s]
  {
    if group != [] {
      var last, short := group[|group| - 1], group[..|group| - 1];
      PoolFacts(short, s);
      assert group == short + [last];
      assert last in group;
      if s in Pool(short) {
        var hit :| hit in short && s in hit.strategyScores && hit.strategyScores[s] == Pool(short)[s];
        assert hit in group;
      }
    }
  }

  lemma RepresentativeStands(group: seq<Hit>)
    requires group != []
    ensures StandsFor(Representative(group), Members(group))
  {
    BestFacts(group);
    var rep := Representative(group);
    assert rep == Best(group).(strategyScores := rep.strategyScores) && Best(group) in Members(group);
    forall s | s in rep.strategyScores ensures Attained(Members(group), s, rep.strategyScores[s]) {
      PoolFacts(group, s);
    }
    forall hit | hit in Members(group) ensures Dominates(rep, hit) {
      forall s | s in hit.strategyScores ensures s in rep.strategyScores && hit.strategyScores[s] <= rep.strategyScores[s] {
        PoolFacts(group, s);
      }
    }
  }

  lemma Alone(hit: Hit)
    ensures Representative([hit]) == hit
  {
    assert [hit][..0] == [];
    assert Pool([hit]) == MaxMerge(map[], hit.strategyScores) == hit.strategyScores;
  }

  function Group(hits: seq<Hit>, key: string): seq<Hit> {
    if hits == [] then []
    else
      var last := hits[|hits| - 1];
      Group(hits[..|hits| - 1], key) + if Key(last) == key then [last] else []
  }

  /** The keys in order of first appearance. */
  function Keys(hits: seq<Hit>): seq<string> {
    if hits == [] then []
    else
      var before := Keys(hits[..|hits| - 1]);
      var key := Key(hits[|hits| - 1]);
      if key in before then before else before + [key]
  }

  lemma {:induction false} KeysDistinct(hits: seq<Hit>)
    ensures forall i, j :: 0 <= i < j < |Keys(hits)| ==> Keys(hits)[i] != Keys(hits)[j]
  {
    if hits != [] {
      KeysDistinct(hits[..|hits| - 1]);
    }
  }

  /** A group holds exactly the hits of its key, and is non-empty for the keys that appear. */
  lemma {:induction false} GroupFacts(hits: seq<Hit>, key: string)
    ensures key in Keys(hits) <==> Group(hits, key) != []
    ensures forall hit :: hit in Group(hits, key) <==> hit in hits && Key(hit) == key
  {
    if hits != [] {
      GroupFacts(hits[..|hits| - 1], key);
      assert hits == hits[..|hits| - 1] + [hits[|hits| - 1]];
    }
  }

  lemma GroupsDefined(hits: seq<Hit>)
    ensures forall k :: 0 <= k < |Keys(hits)| ==> Group(hits, Keys(hits)[k]) != []
  {
    forall k | 0 <= k < |Keys(hits)| ensures Group(hits, Keys(hits)[k]) != [] {
      GroupFacts(hits, Keys(hits)[k]);
    }
  }

  /** One representative per key. */
  function Reps(hits: seq<Hit>): (reps: seq<Hit>)
    ensures |reps| == |Keys(hits)|
  {
    GroupsDefined(hits);
    var keys := Keys(hits);
    seq(|keys|, (k: nat) requires k < |keys| && Group(hits, keys[k]) != [] => Representative(Group(hits, keys[k])))
  }

  // ----- The two passes ----------------------------------------------------------------------------

  function Words(hit: Hit): set<string> { set w | w in hit.words }

  function TokenSets(reps: seq<Hit>): seq<set<string>> {
    seq(|reps|, (i: nat) requires i < |reps| => Words(reps[i]))
  }

  predicate Usable(n: nat, idx: seq<nat>) { idx != [] && forall k :: 0 <= k < |idx| ==> idx[k] < n }

  function Pick(reps: seq<Hit>, idx: seq<nat>): (r: seq<Hit>)
    requires Usable(|reps|, idx)
    ensures |r| == |idx| && forall k :: 0 <= k < |idx| ==> r[k] == reps[idx[k]]
  {
    seq(|idx|, (k: nat) requires k < |idx| && idx[k] < |reps| => reps[idx[k]])
  }

  lemma ComponentsUsable(ts: seq<set<string>>, threshold: real)
    ensures forall p :: 0 <= p < |Components(ts, threshold)| ==> Usable(|ts|, Components(ts, threshold)[p])
  {
    forall p | 0 <= p < |Components(ts, threshold)| ensures Usable(|ts|, Components(ts, threshold)[p]) {
      ComponentFacts(ts, threshold, p);
      var c := Components(ts, threshold)[p];
      assert forall k :: 0 <= k < |c| ==> c[k] in c;
    }
  }

  /** The second pass: one representative per component of the similarity graph. */
  ghost function Clustered(reps: seq<Hit>, threshold: real): (out: seq<Hit>)
    ensures |out| == |Components(TokenSets(reps), threshold)|
  {
    ComponentsUsable(TokenSets(reps), threshold);
    var cs := Components(TokenSets(reps), threshold);
    seq(|cs|, (p: nat) requires p < |cs| && Usable(|reps|, cs[p]) => Representative(Pick(reps, cs[p])))
  }

  ghost function Dedupe(hits: seq<Hit>, mergeOverlapping: bool, threshold: real): seq<Hit> {
    if mergeOverlapping then Clustered(Reps(hits), threshold) else Reps(hits)
  }

  ghost predicate DistinctKeys(hits: seq<Hit>) {
    forall i, j :: 0 <= i < j < |hits| ==> Key(hits[i]) != Key(hits[j])
  }

  lemma {:induction false} NoGroup(hits: seq<Hit>, key: string)
    requires forall i :: 0 <= i < |hits| ==> Key(hits[i]) != key
    ensures Group(hits, key) == []
  {
    if hits != [] {
      NoGroup(hits[..|hits| - 1], key);
    }
  }

  lemma {:induction false} DistinctGroup(hits: seq<Hit>, k: nat)
    requires DistinctKeys(hits) && k < |hits|
    ensures Group(hits, Key(hits[k])) == [hits[k]]
  {
    var short := hits[..|hits| - 1];
    if k < |short| {
      DistinctGroup(short, k);
    } else {
      NoGroup(short, Key(hits[k]));
    }
  }

  lemma {:induction false} DistinctKeysInOrder(hits: seq<Hit>)
    requires DistinctKeys(hits)
    ensures |Keys(hits)| == |hits| && forall k :: 0 <= k < |hits| ==> Keys(hits)[k] == Key(hits[k])
  {
    if hits != [] {
      DistinctKeysInOrder(hits[..|hits| - 1]);
    }
  }

  lemma RepsOfDistinct(hits: seq<Hit>)
    requires DistinctKeys(hits)
    ensures Reps(hits) == hits
  {
    DistinctKeysInOrder(hits);
    forall k | 0 <= k < |hits| ensures Reps(hits)[k] == hits[k] {
      DistinctGroup(hits, k);
      Alone(hits[k]);
    }
  }

  lemma RepsAreDistinct(hits: seq<Hit>)
    ensures forall k :: 0 <= k < |Reps(hits)| ==> Key(Reps(hits)[k]) == Keys(hits)[k]
    ensures DistinctKeys(Reps(hits))
  {
    KeysDistinct(hits);
    GroupsDefined(hits);
    forall k | 0 <= k < |Reps(hits)| ensures Key(Reps(hits)[k]) == Keys(hits)[k] {
      GroupFacts(hits, Keys(hits)[k]);
      BestFacts(Group(hits, Keys(hits)[k]));
    }
  }

  /** A clustered hit is one of its component, but for the strategy scores. */
  lemma ClusterMember(reps: seq<Hit>, threshold: real, p: nat) returns (i: nat)
    requires p < |Clustered(reps, threshold)|
    ensures i < |reps| && i in Components(TokenSets(reps), threshold)[p]
    ensures var out := Clustered(reps, threshold)[p]; out == reps[i].(strategyScores := out.strategyScores)
  {
    ComponentsUsable(TokenSets(reps), threshold);
    var c := Components(TokenSets(reps), threshold)[p];
    var group := Pick(reps, c);
    BestFacts(group);
    var k :| 0 <= k < |group| && group[k] == Best(group);
    i := c[k];
  }

  /** Two hits that neither pass would merge. */
  ghost predicate Apart(a: Hit, b: Hit, threshold: real) {
    Key(a) != Key(b) && !Similar(Words(a), Words(b), threshold)
  }

  lemma ClusteredApart(reps: seq<Hit>, threshold: real, p: nat, q: nat)
    requires DistinctKeys(reps) && p < q < |Clustered(reps, threshold)|
    ensures Apart(Clustered(reps, threshold)[p], Clustered(reps, threshold)[q], threshold)
  {
    var ts, out := TokenSets(reps), Clustered(reps, threshold);
    var i := ClusterMember(reps, threshold, p);
    var j := ClusterMember(reps, threshold, q);
    assert ts[i] == Words(out[p]) && ts[j] == Words(out[q]);
    ComponentsSeparate(ts, threshold, p, q, i, j);
    if i == j {
      ConnectedSelf(ts, threshold, i);
    } else if Similar(ts[i], ts[j], threshold) {
      ConnectedEdge(ts, threshold, i, j);
    }
  }

  /** Where all hits are apart, neither pass does anything. */
  lemma ApartIsFixed(hits: seq<Hit>, threshold: real)
    requires forall p, q :: 0 <= p < q < |hits| ==> Apart(hits[p], hits[q], threshold)
    ensures Clustered(Reps(hits), threshold) == hits
  {
    RepsOfDistinct(hits);
    NoEdges(TokenSets(hits), threshold);
    forall p | 0 <= p < |hits| ensures Clustered(hits, threshold)[p] == hits[p] {
      assert Pick(hits, [p]) == [hits[p]];
      Alone(hits[p]);
    }
  }

  /** Deduplicating a deduplicated list changes nothing, in either mode, whatever the threshold. */
  lemma Idempotent(hits: seq<Hit>, mergeOverlapping: bool, threshold: real)
    ensures var once := Dedupe(hits, mergeOverlapping, threshold);
            Dedupe(once, mergeOverlapping, threshold) == once
  {
    RepsAreDistinct(hits);
    if !mergeOverlapping {
      RepsOfDistinct(Reps(hits));
    } else {
      var once := Clustered(Reps(hits), threshold);
      forall p, q | 0 <= p < q < |once| ensures Apart(once[p], once[q], threshold) {
        ClusteredApart(Reps(hits), threshold, p, q);
      }
      ApartIsFixed(once, threshold);
    }
  }

  // ----- What every kept hit stands for ------------------------------------------------------------

  /** The keys merged into output p: one key, or the keys of one component. */
  ghost predicate MergedInto(hits: seq<Hit>, mergeOverlapping: bool, threshold: real, p: nat, k: nat) {
    if mergeOverlapping then
      var cs := Components(TokenSets(Reps(hits)), threshold); p < |cs| && k in cs[p]
    else k == p
  }

  /** Output p stands for this input hit. */
  ghost predicate InClass(hits: seq<Hit>, mergeOverlapping: bool, threshold: real, p: nat, hit: Hit) {
    exists k :: 0 <= k < |Keys(hits)| && Keys(hits)[k] == Key(hit) && MergedInto(hits, mergeOverlapping, threshold, p, k)
  }

  ghost function Class(hits: seq<Hit>, mergeOverlapping: bool, threshold: real, p: nat): set<Hit> {
    set hit | hit in hits && InClass(hits, mergeOverlapping, threshold, p, hit)
  }

  lemma MemberIndex(reps: seq<Hit>, r: Hit) returns (l: nat)
    requires r in Members(reps)
    ensures l < |reps| && reps[l] == r
  {
    l :| l < |reps| && reps[l] == r;
  }

  lemma AttainedBy(group: set<Hit>, s: string, score: real) returns (hit: Hit)
    requires Attained(group, s, score)
    ensures hit in group && s in hit.strategyScores && hit.strategyScores[s] == score
  {
    hit :| hit in group && s in hit.strategyScores && hit.strategyScores[s] == score;
  }

  /** Where a representative's score for a strategy comes from: one of the parts. */
  lemma AttainedPart(rep: Hit, reps: seq<Hit>, parts: seq<set<Hit>>, s: string) returns (l: nat)
    requires StandsFor(rep, Members(reps)) && |parts| == |reps| && s in rep.strategyScores
    requires forall l :: 0 <= l < |reps| ==> StandsFor(reps[l], parts[l])
    ensures l < |parts| && Attained(parts[l], s, rep.strategyScores[s])
  {
    var r := AttainedBy(Members(reps), s, rep.strategyScores[s]);
    l := MemberIndex(reps, r);
  }

  lemma AttainedInUnion(rep: Hit, reps: seq<Hit>, parts: seq<set<Hit>>, whole: set<Hit>, s: string)
    requires StandsFor(rep, Members(reps)) && |parts| == |reps| && s in rep.strategyScores
    requires forall l :: 0 <= l < |reps| ==> StandsFor(reps[l], parts[l]) && parts[l] <= whole
    ensures Attained(whole, s, rep.strategyScores[s])
  {
    var l := AttainedPart(rep, reps, parts, s);
    var hit := AttainedBy(parts[l], s, rep.strategyScores[s]);
    assert hit in whole;
  }

  /** A hit of the group that the representative equals but for the strategy scores. */
  lemma OneOfBy(rep: Hit, group: set<Hit>) returns (hit: Hit)
    requires OneOf(rep, group)
    ensures hit in group && rep == hit.(strategyScores := rep.strategyScores)
  {
    hit :| hit in group && rep == hit.(strategyScores := rep.strategyScores);
  }

  lemma OneOfUnion(rep: Hit, reps: seq<Hit>, parts: seq<set<Hit>>, whole: set<Hit>)
    requires OneOf(rep, Members(reps)) && |parts| == |reps|
    requires forall l :: 0 <= l < |reps| ==> OneOf(reps[l], parts[l]) && parts[l] <= whole
    ensures OneOf(rep, whole)
  {
    var r := OneOfBy(rep, Members(reps));
    var l := MemberIndex(reps, r);
    var hit := OneOfBy(r, parts[l]);
    assert hit in whole && rep == hit.(strategyScores := rep.strategyScores);
  }

  lemma DominatesAll(rep: Hit, reps: seq<Hit>, parts: seq<set<Hit>>, hit: Hit, l: nat)
    requires StandsFor(rep, Members(reps)) && l < |parts| == |reps| && StandsFor(reps[l], parts[l]) && hit in parts[l]
    ensures Dominates(rep, hit)
  {
    assert reps[l] in Members(reps);
    assert Dominates(reps[l], hit) && Dominates(rep, reps[l]);
  }

  /** Standing for representatives is standing for everything they stand for. */
  lemma StandsForUnion(rep: Hit, reps: seq<Hit>, parts: seq<set<Hit>>, whole: set<Hit>)
    requires StandsFor(rep, Members(reps)) && |parts| == |reps|
    requires forall l :: 0 <= l < |reps| ==> StandsFor(reps[l], parts[l]) && parts[l] <= whole
    requires forall hit :: hit in whole ==> exists l :: 0 <= l < |parts| && hit in parts[l]
    ensures StandsFor(rep, whole)
  {
    OneOfUnion(rep, reps, parts, whole);
    forall s | s in rep.strategyScores ensures Attained(whole, s, rep.strategyScores[s]) {
      AttainedInUnion(rep, reps, parts, whole, s);
    }
    forall hit | hit in whole ensures Dominates(rep, hit) {
      var l :| 0 <= l < |parts| && hit in parts[l];
      DominatesAll(rep, reps, parts, hit, l);
    }
  }

  ghost function KeyClass(hits: seq<Hit>, key: string): set<Hit> { set hit | hit in hits && Key(hit) == key }

  lemma RepStandsForGroup(hits: seq<Hit>, k: nat)
    requires k < |Keys(hits)|
    ensures StandsFor(Reps(hits)[k], KeyClass(hits, Keys(hits)[k]))
  {
    var key := Keys(hits)[k];
    GroupFacts(hits, key);
    RepresentativeStands(Group(hits, key));
    assert Members(Group(hits, key)) == KeyClass(hits, key);
  }

  /** Each kept hit is one of its class but for the strategy scores, has the highest score of the
      class and, per strategy, the maximum of that strategy over the class. */
  lemma KeptHitStandsForClass(hits: seq<Hit>, mergeOverlapping: bool, threshold: real, p: nat)
    requires p < |Dedupe(hits, mergeOverlapping, threshold)|
    ensures StandsFor(Dedupe(hits, mergeOverlapping, threshold)[p], Class(hits, mergeOverlapping, threshold, p))
  {
    KeysDistinct(hits);
    if mergeOverlapping {
      ClusterStandsForClass(hits, threshold, p);
    } else {
      RepStandsForGroup(hits, p);
      assert Class(hits, false, threshold, p) == KeyClass(hits, Keys(hits)[p]) by {
        assert MergedInto(hits, false, threshold, p, p);
      }
    }
  }

  lemma ClusterStandsForClass(hits: seq<Hit>, threshold: real, p: nat)
    requires p < |Clustered(Reps(hits), threshold)|
    ensures StandsFor(Clustered(Reps(hits), threshold)[p], Class(hits, true, threshold, p))
  {
    var reps, whole := Reps(hits), Class(hits, true, threshold, p);
    ComponentsUsable(TokenSets(reps), threshold);
    var c := Components(TokenSets(reps), threshold)[p];
    var picked := Pick(reps, c);
    RepresentativeStands(picked);
    var parts := seq(|c|, (l: nat) requires l < |c| && c[l] < |reps| => KeyClass(hits, Keys(hits)[c[l]]));
    forall l | 0 <= l < |c| ensures StandsFor(picked[l], parts[l]) && parts[l] <= whole {
      assert c[l] in c;
      assert MergedInto(hits, true, threshold, p, c[l]);
      RepStandsForGroup(hits, c[l]);
    }
    forall hit | hit in whole ensures exists l :: 0 <= l < |parts| && hit in parts[l] {
      var k :| 0 <= k < |Keys(hits)| && Keys(hits)[k] == Key(hit) && MergedInto(hits, true, threshold, p, k);
      var l :| 0 <= l < |c| && c[l] == k;
      assert hit in parts[l];
    }
    StandsForUnion(Clustered(reps, threshold)[p], picked, parts, whole);
  }

  lemma MergedOnce(hits: seq<Hit>, mergeOverlapping: bool, threshold: real, k: nat) returns (p: nat)
    requires k < |Keys(hits)|
    ensures p < |Dedupe(hits, mergeOverlapping, threshold)|
    ensures forall q: nat :: MergedInto(hits, mergeOverlapping, threshold, q, k) <==> q == p
  {
    if mergeOverlapping {
      var ts := TokenSets(Reps(hits));
      p := ComponentsCover(ts, threshold, k);
      ConnectedSelf(ts, threshold, k);
      forall q: nat | MergedInto(hits, true, threshold, q, k) ensures q == p {
        ComponentsSeparate(ts, threshold, p, q, k, k);
      }
    } else {
      p := k;
    }
  }

  lemma KeyIndex(hits: seq<Hit>, hit: Hit) returns (k: nat)
    requires hit in hits
    ensures k < |Keys(hits)| && Keys(hits)[k] == Key(hit)
    ensures forall l :: 0 <= l < |Keys(hits)| && Keys(hits)[l] == Key(hit) ==> l == k
  {
    GroupFacts(hits, Key(hit));
    assert hit in Group(hits, Key(hit));
    k :| 0 <= k < |Keys(hits)| && Keys(hits)[k] == Key(hit);
    KeysDistinct(hits);
  }

  /** Every input hit is merged into exactly one kept hit. */
  lemma ClassesPartition(hits: seq<Hit>, mergeOverlapping: bool, threshold: real, hit: Hit) returns (p: nat)
    requires hit in hits
    ensures p < |Dedupe(hits, mergeOverlapping, threshold)|
    ensures forall q: nat :: InClass(hits, mergeOverlapping, threshold, q, hit) <==> q == p
  {
    var k := KeyIndex(hits, hit);
    p := MergedOnce(hits, mergeOverlapping, threshold, k);
  }

  // ----- Which hits are merged, by their texts ------------------------------------------------------

  /** One kept hit stands for both. */
  ghost predicate Together(hits: seq<Hit>, mergeOverlapping: bool, threshold: real, a: Hit, b: Hit) {
    exists p: nat :: InClass(hits, mergeOverlapping, threshold, p, a) && InClass(hits, mergeOverlapping, threshold, p, b)
  }

  /** A text of at least one word, none of them empty. */
  ghost predicate HasText(hit: Hit) { hit.words != [] && forall i :: 0 <= i < |hit.words| ==> hit.words[i] != "" }

  /** The words are those of a text: not empty and without whitespace. */
  ghost predicate WellSplit(space: set<char>, hits: seq<Hit>) {
    ' ' in space && forall hit :: hit in hits ==> WordSplit.AllWords(space, hit.words)
  }

  lemma SameKeyTogether(hits: seq<Hit>, mergeOverlapping: bool, threshold: real, a: Hit, b: Hit)
    requires a in hits && b in hits && Key(a) == Key(b)
    ensures Together(hits, mergeOverlapping, threshold, a, b)
  {
    var p := ClassesPartition(hits, mergeOverlapping, threshold, a);
    var k := KeyIndex(hits, a);
    assert InClass(hits, mergeOverlapping, threshold, p, a) && InClass(hits, mergeOverlapping, threshold, p, b);
  }

  /** In either mode, two hits with the same words are merged into one kept hit. */
  lemma SameWordsMerge(hits: seq<Hit>, mergeOverlapping: bool, threshold: real, a: Hit, b: Hit)
    requires a in hits && b in hits && a.words == b.words && HasText(a)
    ensures Together(hits, mergeOverlapping, threshold, a, b)
  {
    TextNotEmpty(a.words);
    SameKeyTogether(hits, mergeOverlapping, threshold, a, b);
  }

  lemma TextNotEmpty(words: seq<string>)
    requires words != [] && words[0] != ""
    ensures Text.JoinWith(words, " ") != ""
  {
  }

  /** And no two kept hits have the same words. */
  lemma KeptWordsDiffer(hits: seq<Hit>, mergeOverlapping: bool, threshold: real, p: nat, q: nat)
    requires var out := Dedupe(hits, mergeOverlapping, threshold);
             p < |out| && q < |out| && HasText(out[p]) && out[p].words == out[q].words
    ensures p == q
  {
    RepsAreDistinct(hits);
    TextNotEmpty(Dedupe(hits, mergeOverlapping, threshold)[p].words);
    if mergeOverlapping {
      if p < q {
        ClusteredApart(Reps(hits), threshold, p, q);
      } else if q < p {
        ClusteredApart(Reps(hits), threshold, q, p);
      }
    }
  }

  /** Two hits are exact duplicates: the same words, or neither has any and they are the same chunk. A
      chunk id that reads like a text counts as that text. */
  ghost predicate SameText(a: Hit, b: Hit) {
    if a.words != [] && b.words != [] then a.words == b.words
    else if a.words == [] && b.words == [] then a.chunkId == b.chunkId
    else if a.words == [] then a.chunkId == Text.JoinWith(b.words, " ")
    else b.chunkId == Text.JoinWith(a.words, " ")
  }

  lemma KeyMeans(space: set<char>, a: Hit, b: Hit)
    requires ' ' in space && WordSplit.AllWords(space, a.words) && WordSplit.AllWords(space, b.words)
    ensures Key(a) == Key(b) <==> SameText(a, b)
  {
    if a.words != [] {
      TextNotEmpty(a.words);
    }
    if b.words != [] {
      TextNotEmpty(b.words);
    }
    WordSplit.WordsOfJoin(space, a.words);
    WordSplit.WordsOfJoin(space, b.words);
  }

  /** Without merging of near-duplicates, exactly the exact duplicates are merged. */
  lemma ExactlyDuplicatesMerge(space: set<char>, hits: seq<Hit>, threshold: real, a: Hit, b: Hit)
    requires WellSplit(space, hits) && a in hits && b in hits
    ensures Together(hits, false, threshold, a, b) <==> SameText(a, b)
  {
    KeyMeans(space, a, b);
    if Key(a) == Key(b) {
      SameKeyTogether(hits, false, threshold, a, b);
    }
    TogetherHasKey(hits, threshold, a, b);
  }

  lemma TogetherHasKey(hits: seq<Hit>, threshold: real, a: Hit, b: Hit)
    ensures Together(hits, false, threshold, a, b) ==> Key(a) == Key(b)
  {
    if Together(hits, false, threshold, a, b) {
      var p: nat :| InClass(hits, false, threshold, p, a) && InClass(hits, false, threshold, p, b);
    }
  }

  /** The hit that represents the exact duplicates of this one has words. A better scored hit without
      words, whose chunk id reads like their text, would take them away. */
  ghost predicate KeepsWords(hits: seq<Hit>, hit: Hit)
    requires hit in hits
  {
    GroupFacts(hits, Key(hit));
    Best(Group(hits, Key(hit))).words != []
  }

  lemma RepWords(space: set<char>, hits: seq<Hit>, hit: Hit, k: nat)
    requires WellSplit(space, hits) && hit in hits && hit.words != []
    requires k < |Keys(hits)| && Keys(hits)[k] == Key(hit)
    ensures Reps(hits)[k].words == if KeepsWords(hits, hit) then hit.words else []
  {
    GroupFacts(hits, Key(hit));
    GroupsDefined(hits);
    BestFacts(Group(hits, Key(hit)));
    KeyMeans(space, Best(Group(hits, Key(hit))), hit);
  }

  /** With a positive threshold the empty set is similar to nothing. */
  lemma EmptyIsIsolated(ts: seq<set<string>>, threshold: real, i: nat, j: nat)
    requires threshold > 0.0 && i < |ts| && ts[i] == {} && Connected(ts, threshold, i, j)
    ensures i == j
  {
    var p :| IsPath(ts, threshold, p) && p[0] == i && p[|p| - 1] == j;
    NothingSharedWithEmpty(if |p| > 1 then ts[p[1]] else {}, threshold);
  }

  lemma NothingSharedWithEmpty(b: set<string>, threshold: real)
    requires threshold > 0.0
    ensures !Similar({}, b, threshold)
  {
    assert {} * b == {};
  }

  /** Two indices of keys are merged exactly when they are connected. */
  lemma TogetherMeansConnected(hits: seq<Hit>, threshold: real, a: Hit, b: Hit, i: nat, j: nat)
    requires a in hits && b in hits && i < |Keys(hits)| && j < |Keys(hits)|
    requires Keys(hits)[i] == Key(a) && Keys(hits)[j] == Key(b)
    ensures Together(hits, true, threshold, a, b) <==> Connected(TokenSets(Reps(hits)), threshold, i, j)
  {
    var ts := TokenSets(Reps(hits));
    KeysDistinct(hits);
    var p := ComponentsCover(ts, threshold, i);
    var q := ComponentsCover(ts, threshold, j);
    ComponentsSeparate(ts, threshold, p, q, i, j);
    var pa := ClassesPartition(hits, true, threshold, a);
    var pb := ClassesPartition(hits, true, threshold, b);
    assert MergedInto(hits, true, threshold, p, i) && MergedInto(hits, true, threshold, q, j);
    assert InClass(hits, true, threshold, p, a) && InClass(hits, true, threshold, q, b);
    if p == q {
      assert InClass(hits, true, threshold, p, b);
    }
  }

  /** With merging of near-duplicates, two hits whose sets of words overlap enough, the words they share
      being at least the threshold's part of all their words, are merged exactly when their texts are
      the same or both are represented by hits with words. */
  lemma NearDuplicatesMerge(space: set<char>, hits: seq<Hit>, threshold: real, a: Hit, b: Hit)
    requires WellSplit(space, hits) && a in hits && b in hits && a.words != [] && b.words != []
    requires var x, y := (set w | w in a.words), (set w | w in b.words);
             x + y != {} && |x * y| as real / |x + y| as real >= threshold > 0.0
    ensures Together(hits, true, threshold, a, b) <==>
            a.words == b.words || (KeepsWords(hits, a) && KeepsWords(hits, b))
  {
    var i := KeyIndex(hits, a);
    var j := KeyIndex(hits, b);
    RepWords(space, hits, a, i);
    RepWords(space, hits, b, j);
    KeyMeans(space, a, b);
    TogetherMeansConnected(hits, threshold, a, b, i, j);
    NearTexts(TokenSets(Reps(hits)), threshold, i, j, Words(a), Words(b), KeepsWords(hits, a), KeepsWords(hits, b));
  }

  lemma NearTexts(ts: seq<set<string>>, threshold: real, i: nat, j: nat, x: set<string>, y: set<string>, p: bool, q: bool)
    requires i < |ts| && j < |ts| && Similar(x, y, threshold) && threshold > 0.0
    requires ts[i] == (if p then x else {}) && ts[j] == if q then y else {}
    ensures Connected(ts, threshold, i, j) <==> i == j || (p && q)
  {
    if i == j {
      ConnectedSelf(ts, threshold, i);
    } else if p && q {
      ConnectedEdge(ts, threshold, i, j);
    } else if Connected(ts, threshold, i, j) {
      if !p {
        EmptyIsIsolated(ts, threshold, i, j);
      } else {
        ConnectedSymmetric(ts, threshold, i, j);
        EmptyIsIsolated(ts, threshold, j, i);
      }
    }
  }

  /** And kept hits do not overlap that much. */
  lemma KeptOverlapLittle(hits: seq<Hit>, threshold: real, p: nat, q: nat)
    requires p < q < |Dedupe(hits, true, threshold)|
    ensures var out := Dedupe(hits, true, threshold);
            var x, y := (set w | w in out[p].words), (set w | w in out[q].words);
            x + y == {} || |x * y| as real / |x + y| as real < threshold
  {
    RepsAreDistinct(hits);
    ClusteredApart(Reps(hits), threshold, p, q);
  }

  /** The first hit with a key comes before every hit with a later key. */
  lemma {:induction false} FirstAppearance(hits: seq<Hit>, k: nat) returns (i: nat)
    requires k < |Keys(hits)|
    ensures i < |hits| && Key(hits[i]) == Keys(hits)[k]
    ensures forall j, l :: 0 <= j <= i && k < l < |Keys(hits)| ==> Key(hits[j]) != Keys(hits)[l]
  {
    var front := hits[..|hits| - 1];
    if k < |Keys(front)| {
      i := FirstAppearance(front, k);
      forall j | 0 <= j <= i ensures Key(hits[j]) in Keys(front) {
        assert front[j] == hits[j] && front[j] in front;
        GroupFacts(front, Key(front[j]));
        assert front[j] in Group(front, Key(front[j]));
      }
    } else {
      i := |hits| - 1;
    }
  }

  /** Kept hits come in the order in which their classes first appear in the input. */
  lemma KeptInOrder(hits: seq<Hit>, mergeOverlapping: bool, threshold: real, p: nat, q: nat) returns (i: nat)
    requires p < q < |Dedupe(hits, mergeOverlapping, threshold)|
    ensures i < |hits| && InClass(hits, mergeOverlapping, threshold, p, hits[i])
    ensures forall j :: 0 <= j <= i ==> !InClass(hits, mergeOverlapping, threshold, q, hits[j])
  {
    KeysDistinct(hits);
    if mergeOverlapping {
      i := ClustersInOrder(hits, threshold, p, q);
    } else {
      i := FirstAppearance(hits, p);
      assert MergedInto(hits, false, threshold, p, p);
    }
  }

  lemma ClustersInOrder(hits: seq<Hit>, threshold: real, p: nat, q: nat) returns (i: nat)
    requires p < q < |Clustered(Reps(hits), threshold)|
    ensures i < |hits| && InClass(hits, true, threshold, p, hits[i])
    ensures forall j :: 0 <= j <= i ==> !InClass(hits, true, threshold, q, hits[j])
  {
    var ts := TokenSets(Reps(hits));
    var cs, fs := Components(ts, threshold), Firsts(ts, threshold, |ts|);
    ComponentFacts(ts, threshold, p);
    ComponentFacts(ts, threshold, q);
    IndicesFacts(|ts|, (x: nat) => IsFirst(ts, threshold, x));
    i := FirstAppearance(hits, fs[p]);
    assert cs[p][0] in cs[p] && MergedInto(hits, true, threshold, p, fs[p]);
    forall j | 0 <= j <= i ensures !InClass(hits, true, threshold, q, hits[j]) {
      if InClass(hits, true, threshold, q, hits[j]) {
        var l :| 0 <= l < |Keys(hits)| && Keys(hits)[l] == Key(hits[j]) && MergedInto(hits, true, threshold, q, l);
        LaterComponent(ts, threshold, q, l);
      }
    }
  }

  lemma LaterComponent(ts: seq<set<string>>, threshold: real, q: nat, l: nat)
    requires q < |Components(ts, threshold)| && l in Components(ts, threshold)[q]
    ensures Firsts(ts, threshold, |ts|)[q] <= l
  {
    ComponentFacts(ts, threshold, q);
    var c := Components(ts, threshold)[q];
    var k :| 0 <= k < |c| && c[k] == l;
  }

  /** Among hits of the same highest score the first one is kept. */
  lemma {:induction false} BestIsFirst(group: seq<Hit>) returns (i: nat)
    requires group != []
    ensures i < |group| && group[i] == Best(group)
    ensures forall j :: 0 <= j < |group| ==> group[j].score <= group[i].score
    ensures forall j :: 0 <= j < i ==> group[j].score < group[i].score
  {
    var n := |group| - 1;
    if n == 0 {
      i := 0;
    } else {
      i := BestIsFirst(group[..n]);
      if group[n].score > group[i].score {
        i := n;
      }
    }
  }

  // ----- The methods ---------------------------------------------------------------------------------

  lemma MergeOne(dst: map<string, real>, done: map<string, real>, key: string, value: real)
    requires key !in done
    ensures var r := MaxMerge(dst, done);
            MaxMerge(dst, done[key := value]) == if key !in r || value > r[key] then r[key := value] else r
  {
  }

  method Accumulate(dst: map<string, real>, src: map<string, real>) returns (r: map<string, real>)
    ensures r == MaxMerge(dst, src)
  {
    r := dst;
    var todo := src.Keys;
    ghost var done: map<string, real> := map[];
    while todo != {}
      invariant todo <= src.Keys && done.Keys == src.Keys - todo
      invariant forall s :: s in done ==> done[s] == src[s]
      invariant r == MaxMerge(dst, done)
    {
      var key :| key in todo;
      MergeOne(dst, done, key, src[key]);
      done := done[key := src[key]];
      if key !in r || src[key] > r[key] {
        r := r[key := src[key]];
      }
      todo := todo - {key};
    }
    assert done == src;
  }

  method PoolScores(group: seq<Hit>) returns (scores: map<string, real>)
    ensures scores == Pool(group)
  {
    scores := map[];
    for i := 0 to |group|
      invariant scores == Pool(group[..i])
    {
      assert group[..i + 1][..i] == group[..i];
      scores := Accumulate(scores, group[i].strategyScores);
    }
    assert group[..|group|] == group;
  }

  /** max(group, key=score) keeps the first of equal hits. */
  method BestOf(group: seq<Hit>) returns (best: Hit)
    requires group != []
    ensures best == Best(group)
  {
    best := group[0];
    assert group[..1] == [group[0]];
    for i := 1 to |group|
      invariant best == Best(group[..i])
    {
      assert group[..i + 1][..i] == group[..i];
      if group[i].score > best.score {
        best := group[i];
      }
    }
    assert group[..|group|] == group;
  }

  /** The best hit, copied with the pooled scores when there are any. */
  method Represent(group: seq<Hit>) returns (rep: Hit)
    requires group != []
    ensures rep == Representative(group)
  {
    var best := BestOf(group);
    var scores := PoolScores(group);
    BestFacts(group);
    if scores != map[] {
      rep := best.(strategyScores := scores);
    } else {
      rep := best;
      forall s | s in best.strategyScores ensures false {
        PoolFacts(group, s);
      }
      assert best.strategyScores == map[];
    }
  }

  /** What the grouping loop has gathered from the first i hits. */
  ghost predicate Grouped(hits: seq<Hit>, groups: map<string, seq<Hit>>, order: seq<string>) {
    && order == Keys(hits) && groups.Keys == (set key | key in order)
    && forall key :: key in groups ==> groups[key] == Group(hits, key)
  }

  lemma GroupOne(hits: seq<Hit>, groups: map<string, seq<Hit>>, order: seq<string>, hit: Hit)
    requires Grouped(hits, groups, order)
    ensures var key := Key(hit);
            var known := if key in groups then groups else groups[key := []];
            Grouped(hits + [hit], known[key := known[key] + [hit]], if key in groups then order else order + [key])
  {
    assert (hits + [hit])[..|hits|] == hits;
    GroupFacts(hits, Key(hit));
  }

  method GroupHits(hits: seq<Hit>) returns (groups: map<string, seq<Hit>>, order: seq<string>)
    ensures Grouped(hits, groups, order)
  {
    groups, order := map[], [];
    for i := 0 to |hits|
      invariant Grouped(hits[..i], groups, order)
    {
      GroupOne(hits[..i], groups, order, hits[i]);
      assert hits[..i + 1] == hits[..i] + [hits[i]];
      var key := Key(hits[i]);
      if key !in groups {
        groups := groups[key := []];
        order := order + [key];
      }
      groups := groups[key := groups[key] + [hits[i]]];
    }
    assert hits[..|hits|] == hits;
  }

  /** The first pass: exact duplicates by key. */
  method ExactPass(hits: seq<Hit>) returns (reps: seq<Hit>)
    ensures reps == Reps(hits)
  {
    var groups, order := GroupHits(hits);
    GroupsDefined(hits);
    reps := [];
    for k := 0 to |order|
      invariant |reps| == k && reps == Reps(hits)[..k]
    {
      assert order[k] in order;
      var rep := Represent(groups[order[k]]);
      reps := reps + [rep];
    }
  }

  method NearPass(reps: seq<Hit>, threshold: real) returns (out: seq<Hit>)
    ensures out == Clustered(reps, threshold)
  {
    var clusters := Cluster(TokenSets(reps), threshold);
    ComponentsUsable(TokenSets(reps), threshold);
    out := [];
    for p := 0 to |clusters|
      invariant |out| == p && out == Clustered(reps, threshold)[..p]
    {
      var best := Represent(Pick(reps, clusters[p]));
      out := out + [best];
    }
  }

  /** dedupe_hits: grouping by key, then, on request, clustering of the representatives. */
  method DedupeHits(hits: seq<Hit>, mergeOverlapping: bool, threshold: real) returns (out: seq<Hit>)
    ensures out == Dedupe(hits, mergeOverlapping, threshold)
  {
    var reps := ExactPass(hits);
    if !mergeOverlapping {
      return reps;
    }
    out := NearPass(reps, threshold);
  }
}
