/** Document-aware orderings of rag-context. */
module Ordering {
  import opened Options
  import opened Reals
  import Sorting

  /* Grouped by document, and round-robin across documents. Both rank documents by their best score. */

  datatype Item = Item(chunkId: int, documentId: int, text: string, tokens: nat, score: Option<real>,
                       pages: seq<int>, sections: seq<int>)

  /** The items of one document, in order. */
  function Of(doc: int, items: seq<Item>): seq<Item> {
    if items == [] then []
    else (if items[0].documentId == doc then [items[0]] else []) + Of(doc, items[1..])
  }

  lemma OfCons(doc: int, x: Item, items: seq<Item>)
    ensures Of(doc, [x] + items) == (if x.documentId == doc then [x] else []) + Of(doc, items)
  {
    assert ([x] + items)[1..] == items;
  }

  lemma ConcatTail(xs: seq<Item>, ys: seq<Item>)
    requires xs != []
    ensures xs + ys == [xs[0]] + (xs[1..] + ys)
  {
  }

  lemma {:induction false} OfConcat(doc: int, xs: seq<Item>, ys: seq<Item>)
    ensures Of(doc, xs + ys) == Of(doc, xs) + Of(doc, ys)
  {
    if xs == [] {
      assert xs + ys == ys;
    } else {
      OfConcat(doc, xs[1..], ys);
      OfCons(doc, xs[0], xs[1..] + ys);
      ConcatTail(xs, ys);
      if xs[0].documentId == doc {
        Associative([xs[0]], Of(doc, xs[1..]), Of(doc, ys));
      }
    }
  }

  lemma Associative(xs: seq<Item>, ys: seq<Item>, zs: seq<Item>)
    ensures xs + (ys + zs) == (xs + ys) + zs
  {
  }

  lemma {:induction false} OfOwn(doc: int, items: seq<Item>, other: int)
    ensures Of(other, Of(doc, items)) == if other == doc then Of(doc, items) else []
  {
    if items != [] {
      OfConcat(other, if items[0].documentId == doc then [items[0]] else [], Of(doc, items[1..]));
      OfOwn(doc, items[1..], other);
    }
  }

  lemma {:induction false} OfCounts(items: seq<Item>, x: Item)
    ensures multiset(items)[x] == multiset(Of(x.documentId, items))[x]
  {
    if items != [] {
      OfCounts(items[1..], x);
      assert items == [items[0]] + items[1..];
    }
  }

  /** Two lists with the same items per document hold the same items. */
  lemma SamePerDocument(xs: seq<Item>, ys: seq<Item>)
    requires forall doc :: Of(doc, xs) == Of(doc, ys)
    ensures multiset(xs) == multiset(ys)
  {
    forall x: Item ensures multiset(xs)[x] == multiset(ys)[x] {
      OfCounts(xs, x);
      OfCounts(ys, x);
      assert Of(x.documentId, xs) == Of(x.documentId, ys);
    }
  }

  // ----- Ranking the documents ---------------------------------------------------------------------

  function Scored(items: seq<Item>): seq<real> {
    if items == [] then []
    else (if items[0].score.Some? then [items[0].score.value] else []) + Scored(items[1..])
  }

  /** The best score of a document, zero when none of its items has a score. */
  function Best(items: seq<Item>): real {
    var scored := Scored(items);
    if scored == [] then 0.0 else MaxOf(scored)
  }

  /** Higher best score first, then smaller document id. */
  predicate DocLeq(items: seq<Item>, a: int, b: int) {
    var x, y := Best(Of(a, items)), Best(Of(b, items));
    x > y || (x == y && a <= b)
  }

  function DocOrder(items: seq<Item>): (int, int) -> bool {
    (a: int, b: int) => DocLeq(items, a, b)
  }

  lemma DocOrderIsTotal(items: seq<Item>)
    ensures Sorting.TotalOrder(DocOrder(items))
  {
    var leq := DocOrder(items);
    forall a, b, c | leq(a, b) && leq(b, c) ensures leq(a, c) {
    }
    forall a, b ensures leq(a, b) || leq(b, a) {
    }
  }

  ghost predicate Distinct(docs: seq<int>) {
    forall i, j :: 0 <= i < j < |docs| ==> docs[i] != docs[j]
  }

  /** `docs` lists the documents of the items, each once. */
  ghost predicate Lists(docs: seq<int>, items: seq<Item>) {
    Distinct(docs) && forall doc :: doc in docs <==> Of(doc, items) != []
  }

  /** The dictionary of the grouping loop: every document's items so far, and its keys in order. */
  ghost predicate Grouped(items: seq<Item>, docs: seq<int>, byDoc: map<int, seq<Item>>) {
    && Distinct(docs)
    && (forall doc :: doc in docs <==> doc in byDoc)
    && (forall doc :: doc in byDoc ==> byDoc[doc] == Of(doc, items) != [])
    && (forall doc :: doc !in byDoc ==> Of(doc, items) == [])
  }

  function AddItem(byDoc: map<int, seq<Item>>, item: Item): map<int, seq<Item>> {
    byDoc[item.documentId := (if item.documentId in byDoc then byDoc[item.documentId] else []) + [item]]
  }

  lemma GroupedStep(items: seq<Item>, docs: seq<int>, byDoc: map<int, seq<Item>>, item: Item)
    requires Grouped(items, docs, byDoc)
    ensures Grouped(items + [item], if item.documentId in byDoc then docs else docs + [item.documentId], AddItem(byDoc, item))
  {
    var next := if item.documentId in byDoc then docs else docs + [item.documentId];
    assert Distinct(next);
    forall doc ensures Of(doc, items + [item]) == Of(doc, items) + if item.documentId == doc then [item] else [] {
      OfConcat(doc, items, [item]);
    }
  }

  function Groups(items: seq<Item>): map<int, seq<Item>> {
    if items == [] then map[] else AddItem(Groups(items[..|items| - 1]), items[|items| - 1])
  }

  /** The documents in order of first appearance. */
  function Keys(items: seq<Item>): seq<int> {
    if items == [] then []
    else
      var before, doc := items[..|items| - 1], items[|items| - 1].documentId;
      if doc in Groups(before) then Keys(before) else Keys(before) + [doc]
  }

  lemma GroupsSnoc(items: seq<Item>, item: Item)
    ensures Groups(items + [item]) == AddItem(Groups(items), item)
    ensures Keys(items + [item]) == if item.documentId in Groups(items) then Keys(items) else Keys(items) + [item.documentId]
  {
    assert (items + [item])[..|items|] == items;
  }

  lemma {:induction false} GroupsGrouped(items: seq<Item>)
    ensures Grouped(items, Keys(items), Groups(items))
  {
    if items != [] {
      var before, item := items[..|items| - 1], items[|items| - 1];
      assert items == before + [item];
      GroupsSnoc(before, item);
      GroupsGrouped(before);
      GroupedStep(before, Keys(before), Groups(before), item);
    }
  }

  /** Groups the items by document, keys in order of first appearance. */
  method GroupByDocument(items: seq<Item>) returns (docs: seq<int>, byDoc: map<int, seq<Item>>)
    ensures docs == Keys(items)
    ensures forall doc :: doc in docs ==> doc in byDoc && byDoc[doc] == Of(doc, items)
  {
    docs, byDoc := [], map[];
    for k := 0 to |items|
      invariant docs == Keys(items[..k]) && byDoc == Groups(items[..k])
    {
      var item := items[k];
      assert items[..k + 1][..k] == items[..k];
      if item.documentId in byDoc {
        byDoc := byDoc[item.documentId := byDoc[item.documentId] + [item]];
      } else {
        docs, byDoc := docs + [item.documentId], byDoc[item.documentId := [] + [item]];
      }
    }
    assert items[..|items|] == items;
    GroupsGrouped(items);
  }

  lemma Rearranged(docs: seq<int>, sorted: seq<int>, items: seq<Item>)
    requires Lists(docs, items) && multiset(sorted) == multiset(docs)
    ensures Lists(sorted, items)
  {
    forall doc ensures doc in sorted <==> doc in docs {
      assert doc in multiset(sorted) <==> doc in multiset(docs);
    }
    forall i, j | 0 <= i < j < |sorted| ensures sorted[i] != sorted[j] {
      if sorted[i] == sorted[j] {
        Twice(sorted, i, j);
        OncePerKey(docs, sorted[i]);
      }
    }
  }

  lemma Twice(docs: seq<int>, i: nat, j: nat)
    requires i < j < |docs| && docs[i] == docs[j]
    ensures multiset(docs)[docs[i]] >= 2
  {
    assert docs == docs[..i] + [docs[i]] + docs[i + 1..j] + [docs[j]] + docs[j + 1..];
  }

  lemma {:induction false} OncePerKey(docs: seq<int>, doc: int)
    requires Distinct(docs)
    ensures multiset(docs)[doc] <= 1
  {
    if docs != [] {
      OncePerKey(docs[1..], doc);
      assert docs == [docs[0]] + docs[1..];
      if docs[0] == doc {
        assert doc !in docs[1..];
      }
    }
  }

  /** The documents ranked: each once, best score first. */
  ghost predicate Ranked(docs: seq<int>, items: seq<Item>) {
    Lists(docs, items) && Sorting.Sorted(DocOrder(items), docs)
  }

  function Rank(items: seq<Item>): seq<int> { Sorting.Sort(DocOrder(items), Keys(items)) }

  lemma RankIsRanked(items: seq<Item>)
    ensures Ranked(Rank(items), items)
  {
    var keys := Keys(items);
    GroupsGrouped(items);
    Sorting.SortPermutes(DocOrder(items), keys);
    DocOrderIsTotal(items);
    Sorting.SortSorts(DocOrder(items), keys);
    Rearranged(keys, Rank(items), items);
  }

  /** The scores of the items that have one. */
  lemma {:induction false} ScoredMeans(items: seq<Item>, score: real)
    ensures score in Scored(items) <==> exists k :: 0 <= k < |items| && items[k].score == Some(score)
  {
    if items != [] {
      ScoredMeans(items[1..], score);
      assert forall k :: 0 <= k < |items[1..]| ==> items[1..][k] == items[k + 1];
      if k :| 0 <= k < |items| && items[k].score == Some(score) {
        assert k > 0 ==> items[1..][k - 1] == items[k];
      }
    }
  }

  /** Of two documents with scores the one ranked first has the higher best score, or the same and the
      smaller id. */
  lemma RankByBest(items: seq<Item>, i: nat, j: nat)
    requires i < j < |Rank(items)|
    requires Scored(Of(Rank(items)[i], items)) != [] && Scored(Of(Rank(items)[j], items)) != []
    ensures var a, b := Rank(items)[i], Rank(items)[j];
            var best, other := MaxOf(Scored(Of(a, items))), MaxOf(Scored(Of(b, items)));
            best > other || (best == other && a < b)
  {
    RankIsRanked(items);
    assert DocOrder(items)(Rank(items)[i], Rank(items)[j]);
  }

  /** A document without any score is ranked as if its best score were zero: it stands behind a
      scored document exactly when that one's best is positive, or is zero and its id smaller. */
  lemma UnscoredRank(items: seq<Item>, scored: int, unscored: int) returns (i: nat, j: nat)
    requires Scored(Of(scored, items)) != [] && Of(unscored, items) != [] && Scored(Of(unscored, items)) == []
    ensures var best, docs := MaxOf(Scored(Of(scored, items))), Rank(items);
            && i < |docs| && docs[i] == scored && j < |docs| && docs[j] == unscored
            && (i < j <==> best > 0.0 || (best == 0.0 && scored < unscored))
  {
    RankIsRanked(items);
    var docs := Rank(items);
    assert scored in docs && unscored in docs;
    i :| 0 <= i < |docs| && docs[i] == scored;
    j :| 0 <= j < |docs| && docs[j] == unscored;
    if i < j {
      assert DocOrder(items)(docs[i], docs[j]);
    } else {
      assert DocOrder(items)(docs[j], docs[i]);
    }
  }

  lemma UnscoredFirst(items: seq<Item>, scored: int, unscored: int)
    requires Scored(Of(scored, items)) != [] && MaxOf(Scored(Of(scored, items))) < 0.0
    requires Of(unscored, items) != [] && Scored(Of(unscored, items)) == []
    requires forall doc :: Of(doc, items) != [] ==> doc == scored || doc == unscored
    ensures Rank(items) == [unscored, scored]
  {
    RankIsRanked(items);
    var i, j := UnscoredRank(items, scored, unscored);
    var docs := Rank(items);
    assert forall k :: 0 <= k < |docs| ==> docs[k] in docs;
    OnlyTwo(docs, i, j, scored, unscored);
  }

  /** So where the only score is negative, the document without a score is put in front of it. */
  lemma UnscoredNotAlwaysLast(scored: Item, unscored: Item)
    requires scored.score.Some? && scored.score.value < 0.0 && unscored.score.None?
    requires scored.documentId != unscored.documentId
    ensures var items := [scored, unscored];
            Rank(items) == [unscored.documentId, scored.documentId]
            && Flatten(Queues(Rank(items), items)) == [unscored, scored]
  {
    var items := [scored, unscored];
    TwoDocuments(scored, unscored);
    UnscoredFirst(items, scored.documentId, unscored.documentId);
    QueuesOfTwo(unscored.documentId, scored.documentId, items);
  }

  lemma TwoDocuments(a: Item, b: Item)
    requires a.documentId != b.documentId
    ensures forall doc :: Of(doc, [a, b]) ==
                          if doc == a.documentId then [a] else if doc == b.documentId then [b] else []
    ensures Scored([a]) == if a.score.Some? then [a.score.value] else []
    ensures Scored([b]) == if b.score.Some? then [b.score.value] else []
  {
    assert [a, b] == [a] + [b] && [b] == [b] + [];
    forall doc ensures Of(doc, [a, b]) == if doc == a.documentId then [a] else if doc == b.documentId then [b] else [] {
      OfCons(doc, a, [b]);
      OfCons(doc, b, []);
    }
  }

  lemma QueuesOfTwo(x: int, y: int, items: seq<Item>)
    ensures Flatten(Queues([x, y], items)) == Of(x, items) + Of(y, items)
  {
    assert [x, y][1..] == [y] && [y][1..] == [];
    assert Queues([y], items) == [Of(y, items)] + Queues([], items);
    assert Queues([x, y], items) == [Of(x, items)] + [Of(y, items)];
    FlattenAppend([Of(x, items)], Of(y, items));
    FlattenAppend([], Of(x, items));
    assert [] + [Of(x, items)] == [Of(x, items)];
  }

  lemma OneOfTwo(docs: seq<int>, i: nat, j: nat, k: nat)
    requires i < |docs| && j < |docs| && Distinct(docs)
    requires forall n :: 0 <= n < |docs| ==> docs[n] == docs[i] || docs[n] == docs[j]
    ensures k < |docs| ==> k == i || k == j
  {
    assert k < |docs| ==> docs[k] == docs[i] || docs[k] == docs[j];
  }

  lemma OnlyTwo(docs: seq<int>, i: nat, j: nat, x: int, y: int)
    requires i < |docs| && j < |docs| && docs[i] == x && docs[j] == y && j < i && Distinct(docs)
    requires forall k :: 0 <= k < |docs| ==> docs[k] == x || docs[k] == y
    ensures docs == [y, x]
  {
    OneOfTwo(docs, i, j, 0);
    OneOfTwo(docs, i, j, 1);
    OneOfTwo(docs, i, j, 2);
  }

  method RankDocuments(items: seq<Item>) returns (docs: seq<int>, byDoc: map<int, seq<Item>>)
    ensures docs == Rank(items)
    ensures forall doc :: doc in docs ==> doc in byDoc && byDoc[doc] == Of(doc, items)
  {
    var keys;
    keys, byDoc := GroupByDocument(items);
    docs := Sorting.Sort(DocOrder(items), keys);
    Sorting.SortPermutes(DocOrder(items), keys);
    assert forall doc :: doc in docs ==> doc in keys by {
      assert forall doc :: doc in docs ==> doc in multiset(docs);
    }
  }

  // ----- Grouped by document -----------------------------------------------------------------------

  function Queues(docs: seq<int>, items: seq<Item>): seq<seq<Item>> {
    if docs == [] then [] else [Of(docs[0], items)] + Queues(docs[1..], items)
  }

  function Flatten(queues: seq<seq<Item>>): seq<Item> {
    if queues == [] then [] else queues[0] + Flatten(queues[1..])
  }

  lemma {:induction false} QueuesAt(docs: seq<int>, items: seq<Item>)
    ensures |Queues(docs, items)| == |docs|
    ensures forall i :: 0 <= i < |docs| ==> Queues(docs, items)[i] == Of(docs[i], items)
  {
    if docs != [] {
      QueuesAt(docs[1..], items);
    }
  }

  lemma {:induction false} FlattenAppend(queues: seq<seq<Item>>, q: seq<Item>)
    ensures Flatten(queues + [q]) == Flatten(queues) + q
  {
    if queues == [] {
      assert [q][1..] == [];
      assert Flatten([q]) == q + Flatten([]);
    } else {
      assert (queues + [q])[1..] == queues[1..] + [q];
      FlattenAppend(queues[1..], q);
    }
  }

  /** Grouping keeps every document's items in input order. */
  lemma {:induction false} GroupedKeepsOrder(docs: seq<int>, items: seq<Item>, doc: int)
    requires Distinct(docs)
    ensures Of(doc, Flatten(Queues(docs, items))) == if doc in docs then Of(doc, items) else []
  {
    if docs != [] {
      GroupedKeepsOrder(docs[1..], items, doc);
      OfConcat(doc, Of(docs[0], items), Flatten(Queues(docs[1..], items)));
      OfOwn(docs[0], items, doc);
    }
  }

  method Extend(docs: seq<int>, byDoc: map<int, seq<Item>>, items: seq<Item>) returns (result: seq<Item>)
    requires forall doc :: doc in docs ==> doc in byDoc && byDoc[doc] == Of(doc, items)
    ensures result == Flatten(Queues(docs, items))
  {
    result := [];
    QueuesAt(docs, items);
    ghost var queues := Queues(docs, items);
    for k := 0 to |docs|
      invariant result == Flatten(queues[..k])
    {
      assert queues[..k + 1] == queues[..k] + [byDoc[docs[k]]];
      FlattenAppend(queues[..k], byDoc[docs[k]]);
      result := result + byDoc[docs[k]];
    }
    assert queues[..|docs|] == queues;
  }

  /** The result is a permutation that keeps each document's items together and in input order,
      documents by descending best score. */
  method DocumentGrouped(items: seq<Item>) returns (result: seq<Item>)
    ensures result == Flatten(Queues(Rank(items), items)) && Ranked(Rank(items), items)
    ensures multiset(result) == multiset(items)
    ensures forall doc :: Of(doc, result) == Of(doc, items)
  {
    var docs, byDoc := RankDocuments(items);
    RankIsRanked(items);
    result := Extend(docs, byDoc, items);
    forall doc ensures Of(doc, result) == Of(doc, items) {
      GroupedKeepsOrder(docs, items, doc);
    }
    SamePerDocument(result, items);
  }

  // ----- Round-robin ---------------------------------------------------------------------------------

  /** One round: the first item of every queue that has one, and what is left. */
  function Heads(queues: seq<seq<Item>>): seq<Item> {
    if queues == [] then [] else (if queues[0] == [] then [] else [queues[0][0]]) + Heads(queues[1..])
  }

  function Tails(queues: seq<seq<Item>>): seq<seq<Item>> {
    if queues == [] then [] else [if queues[0] == [] then [] else queues[0][1..]] + Tails(queues[1..])
  }

  function Length(queues: seq<seq<Item>>): nat {
    if queues == [] then 0 else |queues[0]| + Length(queues[1..])
  }

  lemma {:induction false} RoundShrinks(queues: seq<seq<Item>>)
    ensures Length(Tails(queues)) + |Heads(queues)| == Length(queues)
  {
    if queues != [] {
      RoundShrinks(queues[1..]);
    }
  }

  function RoundRobin(queues: seq<seq<Item>>): seq<Item>
    decreases Length(queues)
  {
    if Heads(queues) == [] then []
    else
      RoundShrinks(queues);
      Heads(queues) + RoundRobin(Tails(queues))
  }

  lemma RoundRobinStep(queues: seq<seq<Item>>)
    ensures Heads(queues) == [] ==> RoundRobin(queues) == []
    ensures Heads(queues) != [] ==>
              RoundRobin(queues) == Heads(queues) + RoundRobin(Tails(queues)) && Length(Tails(queues)) < Length(queues)
  {
    RoundShrinks(queues);
  }

  ghost predicate From(doc: int, queue: seq<Item>) {
    forall k :: 0 <= k < |queue| ==> queue[k].documentId == doc
  }

  /** Queue i holds items of document i only, as at the start and after every round. */
  ghost predicate Split(docs: seq<int>, queues: seq<seq<Item>>) {
    Distinct(docs) && |queues| == |docs| && forall i :: 0 <= i < |docs| ==> From(docs[i], queues[i])
  }

  lemma {:induction false} OfIsFrom(doc: int, items: seq<Item>)
    ensures From(doc, Of(doc, items))
  {
    if items != [] {
      OfIsFrom(doc, items[1..]);
    }
  }

  lemma QueuesSplit(docs: seq<int>, items: seq<Item>)
    requires Distinct(docs)
    ensures Split(docs, Queues(docs, items))
  {
    QueuesAt(docs, items);
    forall i | 0 <= i < |docs| ensures From(docs[i], Queues(docs, items)[i]) {
      OfIsFrom(docs[i], items);
    }
  }

  lemma {:induction false} TailsAt(queues: seq<seq<Item>>, i: nat)
    requires i < |queues|
    ensures |Tails(queues)| == |queues|
    ensures Tails(queues)[i] == if queues[i] == [] then [] else queues[i][1..]
  {
    if i > 0 {
      TailsAt(queues[1..], i - 1);
    } else if |queues| > 1 {
      TailsAt(queues[1..], 0);
    }
  }

  lemma {:induction false} HeadsOf(docs: seq<int>, queues: seq<seq<Item>>, i: nat)
    requires Split(docs, queues) && i < |docs|
    ensures Of(docs[i], Heads(queues)) == if queues[i] == [] then [] else [queues[i][0]]
    decreases |docs|
  {
    HeadsCons(docs[0], queues, docs[i]);
    if i > 0 {
      HeadsOf(docs[1..], queues[1..], i - 1);
    } else {
      HeadsElsewhere(docs[1..], queues[1..], docs[0]);
    }
  }

  lemma {:induction false} HeadsElsewhere(docs: seq<int>, queues: seq<seq<Item>>, doc: int)
    requires Split(docs, queues) && doc !in docs
    ensures Of(doc, Heads(queues)) == []
    decreases |docs|
  {
    if docs != [] {
      HeadsElsewhere(docs[1..], queues[1..], doc);
      HeadsCons(docs[0], queues, doc);
    }
  }

  lemma HeadsCons(own: int, queues: seq<seq<Item>>, doc: int)
    requires queues != [] && From(own, queues[0])
    ensures Of(doc, Heads(queues)) ==
            (if doc == own && queues[0] != [] then [queues[0][0]] else []) + Of(doc, Heads(queues[1..]))
  {
    if queues[0] == [] {
      assert Heads(queues) == Heads(queues[1..]);
    } else {
      OfCons(doc, queues[0][0], Heads(queues[1..]));
    }
  }

  lemma TailsSplit(docs: seq<int>, queues: seq<seq<Item>>)
    requires Split(docs, queues) && docs != []
    ensures Split(docs, Tails(queues))
  {
    TailsAt(queues, 0);
    forall i | 0 <= i < |docs| ensures From(docs[i], Tails(queues)[i]) {
      TailsAt(queues, i);
    }
  }

  /** Round-robin takes each queue in order, and nothing else. */
  lemma {:induction false} RoundRobinOf(docs: seq<int>, queues: seq<seq<Item>>, i: nat)
    requires Split(docs, queues) && i < |docs|
    ensures Of(docs[i], RoundRobin(queues)) == queues[i]
    decreases Length(queues)
  {
    RoundRobinStep(queues);
    HeadsOf(docs, queues, i);
    if Heads(queues) != [] {
      TailsSplit(docs, queues);
      TailsAt(queues, i);
      RoundRobinOf(docs, Tails(queues), i);
      OfConcat(docs[i], Heads(queues), RoundRobin(Tails(queues)));
      HeadAndTail(queues[i]);
    }
  }

  lemma HeadAndTail(queue: seq<Item>)
    ensures (if queue == [] then [] else [queue[0]]) + (if queue == [] then [] else queue[1..]) == queue
  {
  }

  lemma {:induction false} RoundRobinElsewhere(docs: seq<int>, queues: seq<seq<Item>>, doc: int)
    requires Split(docs, queues) && doc !in docs
    ensures Of(doc, RoundRobin(queues)) == []
    decreases Length(queues)
  {
    RoundRobinStep(queues);
    HeadsElsewhere(docs, queues, doc);
    if Heads(queues) != [] {
      TailsSplit(docs, queues);
      RoundRobinElsewhere(docs, Tails(queues), doc);
      OfConcat(doc, Heads(queues), RoundRobin(Tails(queues)));
    }
  }

  lemma {:induction false} OfPrefix(doc: int, items: seq<Item>, n: nat)
    requires n <= |items|
    ensures |Of(doc, items[..n])| <= |Of(doc, items)|
  {
    assert items == items[..n] + items[n..];
    OfConcat(doc, items[..n], items[n..]);
  }

  lemma FairRound(d: int, e: int, heads: seq<Item>, later: seq<Item>, queue: seq<Item>)
    requires queue != [] && |Of(d, heads)| <= 1 && Of(e, heads) == [queue[0]]
    requires |Of(d, later)| <= |Of(e, later)| + 1 || Of(e, later) == queue[1..]
    ensures |Of(d, heads + later)| <= |Of(e, heads + later)| + 1 || Of(e, heads + later) == queue
  {
    OfConcat(d, heads, later);
    OfConcat(e, heads, later);
  }

  /** Fairness: at every point a document is at most one item ahead of another, unless that other
      one has been used up. */
  lemma {:induction false} Fair(docs: seq<int>, queues: seq<seq<Item>>, i: nat, j: nat, n: nat)
    requires Split(docs, queues) && i < |docs| && j < |docs| && n <= |RoundRobin(queues)|
    ensures var taken := RoundRobin(queues)[..n];
            |Of(docs[i], taken)| <= |Of(docs[j], taken)| + 1 || Of(docs[j], taken) == queues[j]
    decreases Length(queues)
  {
    var heads := Heads(queues);
    var taken := RoundRobin(queues)[..n];
    RoundRobinStep(queues);
    HeadsOf(docs, queues, i);
    if heads == [] {
    } else if queues[j] == [] {
      RoundRobinOf(docs, queues, j);
      OfPrefix(docs[j], RoundRobin(queues), n);
    } else if n <= |heads| {
      assert taken == heads[..n];
      OfPrefix(docs[i], heads, n);
    } else {
      HeadsOf(docs, queues, j);
      TailsSplit(docs, queues);
      TailsAt(queues, i);
      TailsAt(queues, j);
      var later := RoundRobin(Tails(queues))[..n - |heads|];
      Fair(docs, Tails(queues), i, j, n - |heads|);
      assert taken == heads + later;
      FairRound(docs[i], docs[j], heads, later, queues[j]);
    }
  }

  /** The first round shows the best document first: one item per document, in ranked order. */
  lemma {:induction false} FirstRound(queues: seq<seq<Item>>)
    requires forall i :: 0 <= i < |queues| ==> queues[i] != []
    ensures |Heads(queues)| == |queues|
    ensures forall i :: 0 <= i < |queues| ==> Heads(queues)[i] == queues[i][0]
  {
    if queues != [] {
      FirstRound(queues[1..]);
    }
  }

  lemma SnocTail<T>(xs: seq<T>, x: T)
    requires xs != []
    ensures (xs + [x])[0] == xs[0] && (xs + [x])[1..] == xs[1..] + [x]
  {
  }

  lemma {:induction false} HeadsAppend(queues: seq<seq<Item>>, q: seq<Item>)
    ensures Heads(queues + [q]) == Heads(queues) + if q == [] then [] else [q[0]]
  {
    if queues == [] {
      assert queues + [q] == [q] && [q][1..] == [];
    } else {
      SnocTail(queues, q);
      HeadsAppend(queues[1..], q);
      Associative(if queues[0] == [] then [] else [queues[0][0]], Heads(queues[1..]), if q == [] then [] else [q[0]]);
    }
  }

  lemma {:induction false} TailsAppend(queues: seq<seq<Item>>, q: seq<Item>)
    ensures Tails(queues + [q]) == Tails(queues) + [if q == [] then [] else q[1..]]
  {
    if queues == [] {
      assert queues + [q] == [q] && [q][1..] == [];
    } else {
      SnocTail(queues, q);
      TailsAppend(queues[1..], q);
    }
  }

  /** The inner loop: pops the first item of every queue that has one. */
  method Round(queues: seq<seq<Item>>) returns (taken: seq<Item>, rest: seq<seq<Item>>)
    ensures taken == Heads(queues) && rest == Tails(queues)
  {
    taken, rest := [], queues;
    for k := 0 to |queues|
      invariant |rest| == |queues| && rest[k..] == queues[k..]
      invariant taken == Heads(queues[..k]) && rest[..k] == Tails(queues[..k])
    {
      assert queues[..k + 1] == queues[..k] + [queues[k]];
      assert queues[k + 1..] == queues[k..][1..] == rest[k..][1..];
      HeadsAppend(queues[..k], queues[k]);
      TailsAppend(queues[..k], queues[k]);
      assert rest[k] == rest[k..][0] == queues[k];
      if rest[k] != [] {
        taken := taken + [rest[k][0]];
        rest := rest[k := rest[k][1..]];
      }
      assert rest[..k + 1] == rest[..k] + [rest[k]];
    }
    assert queues[..|queues|] == queues && rest[..|queues|] == rest;
  }

  /** Rounds until one takes nothing. */
  method TakeTurns(all: seq<seq<Item>>) returns (result: seq<Item>)
    ensures result == RoundRobin(all)
  {
    result := [];
    var queues := all;
    while true
      invariant result + RoundRobin(queues) == RoundRobin(all)
      decreases Length(queues)
    {
      TurnStep(result, queues);
      var taken, rest := Round(queues);
      result, queues := result + taken, rest;
      if taken == [] {
        break;
      }
    }
  }

  lemma TurnStep(result: seq<Item>, queues: seq<seq<Item>>)
    ensures result + RoundRobin(queues) == (result + Heads(queues)) + RoundRobin(Tails(queues))
    ensures Heads(queues) == [] ==> RoundRobin(Tails(queues)) == []
    ensures Heads(queues) != [] ==> Length(Tails(queues)) < Length(queues)
  {
    RoundRobinStep(queues);
    if Heads(queues) == [] {
      NothingLeft(queues);
    } else {
      var heads, later := Heads(queues), RoundRobin(Tails(queues));
      Associative(result, heads, later);
    }
  }

  lemma {:induction false} NothingLeft(queues: seq<seq<Item>>)
    requires Heads(queues) == []
    ensures Tails(queues) == queues
  {
    if queues != [] {
      NothingLeft(queues[1..]);
      assert queues == [queues[0]] + queues[1..];
    }
  }

  method CollectQueues(docs: seq<int>, byDoc: map<int, seq<Item>>, items: seq<Item>) returns (queues: seq<seq<Item>>)
    requires forall doc :: doc in docs ==> doc in byDoc && byDoc[doc] == Of(doc, items)
    ensures queues == Queues(docs, items)
  {
    queues := [];
    QueuesAt(docs, items);
    for k := 0 to |docs|
      invariant queues == Queues(docs, items)[..k]
    {
      queues := queues + [byDoc[docs[k]]];
    }
  }

  /** The result is a permutation that keeps each document's items in input order and shares the
      places fairly among the documents. */
  method Diversity(items: seq<Item>) returns (result: seq<Item>)
    ensures result == RoundRobin(Queues(Rank(items), items)) && Ranked(Rank(items), items)
    ensures multiset(result) == multiset(items)
    ensures forall doc :: Of(doc, result) == Of(doc, items)
    ensures var docs := Rank(items);
            && |docs| <= |result|
            && (forall i :: 0 <= i < |docs| ==> result[i].documentId == docs[i])
            && (forall i, j, n :: 0 <= i < |docs| && 0 <= j < |docs| && 0 <= n <= |result| ==>
                  FairAt(docs[i], docs[j], items, result, n))
  {
    var docs, byDoc := RankDocuments(items);
    RankIsRanked(items);
    var queues := CollectQueues(docs, byDoc, items);
    result := TakeTurns(queues);
    RoundRobinFacts(docs, items, result);
  }

  ghost predicate FairAt(d: int, e: int, items: seq<Item>, result: seq<Item>, n: nat)
    requires n <= |result|
  {
    |Of(d, result[..n])| <= |Of(e, result[..n])| + 1 || Of(e, result[..n]) == Of(e, items)
  }

  lemma RoundRobinPerDocument(docs: seq<int>, items: seq<Item>, doc: int)
    requires Lists(docs, items)
    ensures Of(doc, RoundRobin(Queues(docs, items))) == Of(doc, items)
  {
    QueuesAt(docs, items);
    QueuesSplit(docs, items);
    if doc in docs {
      var i: nat :| i < |docs| && docs[i] == doc;
      RoundRobinOf(docs, Queues(docs, items), i);
    } else {
      RoundRobinElsewhere(docs, Queues(docs, items), doc);
    }
  }

  lemma RoundRobinStart(docs: seq<int>, items: seq<Item>)
    requires Lists(docs, items)
    ensures var result := RoundRobin(Queues(docs, items));
            |docs| <= |result| && forall i :: 0 <= i < |docs| ==> result[i].documentId == docs[i]
  {
    var queues := Queues(docs, items);
    QueuesAt(docs, items);
    QueuesSplit(docs, items);
    FirstRound(queues);
    forall i | 0 <= i < |docs| ensures |RoundRobin(queues)| >= |docs| && RoundRobin(queues)[i].documentId == docs[i] {
      assert RoundRobin(queues)[i] == Heads(queues)[i] == queues[i][0];
      assert From(docs[i], queues[i]);
    }
  }

  lemma RoundRobinFacts(docs: seq<int>, items: seq<Item>, result: seq<Item>)
    requires Lists(docs, items) && result == RoundRobin(Queues(docs, items))
    ensures forall doc :: Of(doc, result) == Of(doc, items)
    ensures multiset(result) == multiset(items)
    ensures |docs| <= |result| && forall i :: 0 <= i < |docs| ==> result[i].documentId == docs[i]
    ensures forall i, j, n :: 0 <= i < |docs| && 0 <= j < |docs| && 0 <= n <= |result| ==>
              FairAt(docs[i], docs[j], items, result, n)
  {
    forall doc ensures Of(doc, result) == Of(doc, items) {
      RoundRobinPerDocument(docs, items, doc);
    }
    SamePerDocument(result, items);
    RoundRobinStart(docs, items);
    forall i, j, n | 0 <= i < |docs| && 0 <= j < |docs| && 0 <= n <= |result| ensures FairAt(docs[i], docs[j], items, result, n) {
      QueuesAt(docs, items);
      QueuesSplit(docs, items);
      Fair(docs, Queues(docs, items), i, j, n);
    }
  }
}
