/** The five ordering strategies of rag-context behind one name: three sorts by key, grouping by document and
    round-robin. Document ids and section names are numbers ordered as the strings are. Every strategy
    permutes the items, so what the token budget does next may depend on the order but not on losing any.
 */
module Strategies {
  import opened Options
  import opened Ordering
  import Sorting

  // ----- The sort keys -----------------------------------------------------------------------------

  /** Higher scores first, items without a score last. */
  predicate RelevanceLeq(a: Item, b: Item) {
    if a.score.None? then b.score.None? else b.score.None? || a.score.value >= b.score.value
  }

  function FirstPage(item: Item): int { if item.pages == [] then 0 else item.pages[0] }

  predicate PageLeq(a: Item, b: Item) {
    a.documentId < b.documentId || (a.documentId == b.documentId && FirstPage(a) <= FirstPage(b))
  }

  /** Paths compared name by name, a path before its continuations. */
  predicate PathLeq(p: seq<int>, q: seq<int>) {
    p == [] || (q != [] && (p[0] < q[0] || (p[0] == q[0] && PathLeq(p[1..], q[1..]))))
  }

  predicate SectionLeq(a: Item, b: Item) {
    a.documentId < b.documentId || (a.documentId == b.documentId && PathLeq(a.sections, b.sections))
  }

  lemma {:induction false} PathsCompare(p: seq<int>, q: seq<int>)
    ensures PathLeq(p, q) || PathLeq(q, p)
  {
    if p != [] && q != [] {
      PathsCompare(p[1..], q[1..]);
    }
  }

  lemma {:induction false} PathsChain(p: seq<int>, q: seq<int>, r: seq<int>)
    requires PathLeq(p, q) && PathLeq(q, r)
    ensures PathLeq(p, r)
  {
    if p != [] && q != [] && r != [] && p[0] == q[0] == r[0] {
      PathsChain(p[1..], q[1..], r[1..]);
    }
  }

  /** The comparison of a strategy that is a single sort. */
  function KeyOrder(strategy: string): (leq: Option<(Item, Item) -> bool>)
    ensures leq.Some? ==> Sorting.TotalOrder(leq.value)
  {
    if strategy == "relevance_first" then Some((a: Item, b: Item) => RelevanceLeq(a, b))
    else if strategy == "chronological" then Some((a: Item, b: Item) => PageLeq(a, b))
    else if strategy == "section_aware" then
      SectionsAreOrdered();
      Some((a: Item, b: Item) => SectionLeq(a, b))
    else None
  }

  lemma SectionsAreOrdered()
    ensures forall a, b :: SectionLeq(a, b) || SectionLeq(b, a)
    ensures forall a, b, c :: SectionLeq(a, b) && SectionLeq(b, c) ==> SectionLeq(a, c)
  {
    forall a, b ensures SectionLeq(a, b) || SectionLeq(b, a) {
      PathsCompare(a.sections, b.sections);
    }
    forall a, b, c | SectionLeq(a, b) && SectionLeq(b, c) ensures SectionLeq(a, c) {
      if a.documentId == b.documentId == c.documentId {
        PathsChain(a.sections, b.sections, c.sections);
      }
    }
  }

  // ----- The dispatch ------------------------------------------------------------------------------

  /** The items in the order of the named strategy, None for a name that is not known. */
  function OrderBy(items: seq<Item>, strategy: string): Option<seq<Item>> {
    if KeyOrder(strategy).Some? then Some(Sorting.Sort(KeyOrder(strategy).value, items))
    else if strategy == "document_grouped" then Some(Flatten(Queues(Rank(items), items)))
    else if strategy == "diversity" then Some(RoundRobin(Queues(Rank(items), items)))
    else None
  }

  /** A sort by key orders the items by that key, keeps the input order of equal keys and loses none. */
  lemma KeyStrategy(items: seq<Item>, strategy: string, y: Item)
    requires KeyOrder(strategy).Some?
    ensures var leq, out := KeyOrder(strategy).value, OrderBy(items, strategy).value;
            && Sorting.Sorted(leq, out) && multiset(out) == multiset(items)
            && Sorting.SameKey(leq, y, out) == Sorting.SameKey(leq, y, items)
  {
    var leq := KeyOrder(strategy).value;
    Sorting.SortSorts(leq, items);
    Sorting.SortPermutes(leq, items);
    Sorting.SortIsStable(leq, items, y);
  }

  /** By relevance no item without a score comes before one that has a score. */
  lemma UnscoredLast(items: seq<Item>, i: nat, j: nat)
    requires i < j < |OrderBy(items, "relevance_first").value|
    ensures var out := OrderBy(items, "relevance_first").value;
            out[j].score.Some? ==> out[i].score.Some? && out[i].score.value >= out[j].score.value
  {
    var leq, out := KeyOrder("relevance_first").value, OrderBy(items, "relevance_first").value;
    Sorting.SortSorts(leq, items);
    assert leq(out[i], out[j]);
  }

  /** Chronological: document ids ascend, and within a document the first pages, zero for none. */
  lemma Chronological(items: seq<Item>, i: nat, j: nat)
    requires i < j < |OrderBy(items, "chronological").value|
    ensures var out := OrderBy(items, "chronological").value;
            && out[i].documentId <= out[j].documentId
            && (out[i].documentId == out[j].documentId ==>
                  (if out[i].pages == [] then 0 else out[i].pages[0]) <= if out[j].pages == [] then 0 else out[j].pages[0])
  {
    var leq, out := KeyOrder("chronological").value, OrderBy(items, "chronological").value;
    Sorting.SortSorts(leq, items);
    assert leq(out[i], out[j]);
  }

  /** p equals q up to place n, where p ends or has the smaller name; or the two are equal. */
  ghost predicate FirstDifference(p: seq<int>, q: seq<int>, n: nat) {
    && n <= |p| && n <= |q| && p[..n] == q[..n]
    && (n < |p| ==> n < |q| && p[n] < q[n])
  }

  lemma {:induction false} PathsDiffer(p: seq<int>, q: seq<int>) returns (n: nat)
    requires PathLeq(p, q)
    ensures FirstDifference(p, q, n)
  {
    if p == [] || p[0] < q[0] {
      n := 0;
    } else {
      var m := PathsDiffer(p[1..], q[1..]);
      n := m + 1;
      assert p[..n] == [p[0]] + p[1..][..m] && q[..n] == [q[0]] + q[1..][..m];
    }
  }

  /** Section-aware: document ids ascend, and within a document the section paths, name by name. */
  lemma SectionAware(items: seq<Item>, i: nat, j: nat)
    requires i < j < |OrderBy(items, "section_aware").value|
    ensures var out := OrderBy(items, "section_aware").value;
            && out[i].documentId <= out[j].documentId
            && (out[i].documentId == out[j].documentId ==>
                  exists n: nat :: FirstDifference(out[i].sections, out[j].sections, n))
  {
    var leq, out := KeyOrder("section_aware").value, OrderBy(items, "section_aware").value;
    Sorting.SortSorts(leq, items);
    assert leq(out[i], out[j]);
    if out[i].documentId == out[j].documentId {
      var n := PathsDiffer(out[i].sections, out[j].sections);
    }
  }

  /** No strategy loses or repeats an item, whatever the order. */
  lemma OrderByPermutes(items: seq<Item>, strategy: string)
    requires OrderBy(items, strategy).Some?
    ensures multiset(OrderBy(items, strategy).value) == multiset(items)
  {
    if KeyOrder(strategy).Some? {
      Sorting.SortPermutes(KeyOrder(strategy).value, items);
    } else {
      RankIsRanked(items);
      var docs, out := Rank(items), OrderBy(items, strategy).value;
      forall doc ensures Of(doc, out) == Of(doc, items) {
        if strategy == "document_grouped" {
          GroupedKeepsOrder(docs, items, doc);
        } else {
          RoundRobinPerDocument(docs, items, doc);
        }
      }
      SamePerDocument(out, items);
    }
  }

  /** The five names, and no other, are known. */
  lemma KnownStrategies(items: seq<Item>, strategy: string)
    ensures OrderBy(items, strategy).Some? <==>
            strategy in ["relevance_first", "chronological", "section_aware", "document_grouped", "diversity"]
  {
  }

  lemma {:induction false} QueueOwn(doc: int, items: seq<Item>, i: nat)
    requires i < |Of(doc, items)|
    ensures Of(doc, items)[i].documentId == doc
  {
    if items[0].documentId == doc {
      if i > 0 {
        QueueOwn(doc, items[1..], i - 1);
      }
    } else {
      QueueOwn(doc, items[1..], i);
    }
  }

  lemma {:induction false} FlattenedDocs(docs: seq<int>, items: seq<Item>, i: nat)
    requires i < |Flatten(Queues(docs, items))|
    ensures Flatten(Queues(docs, items))[i].documentId in docs
    ensures docs != [] && (i < |Of(docs[0], items)| ==> Flatten(Queues(docs, items))[i].documentId == docs[0])
  {
    var n := |Of(docs[0], items)|;
    if i < n {
      QueueOwn(docs[0], items, i);
    } else {
      FlattenedDocs(docs[1..], items, i - n);
    }
  }

  lemma {:induction false} FlattenedTogether(docs: seq<int>, items: seq<Item>, i: nat, j: nat, k: nat)
    requires Distinct(docs) && i < j < k < |Flatten(Queues(docs, items))|
    requires Flatten(Queues(docs, items))[i].documentId == Flatten(Queues(docs, items))[k].documentId
    ensures Flatten(Queues(docs, items))[j].documentId == Flatten(Queues(docs, items))[i].documentId
  {
    var n := |Of(docs[0], items)|;
    FlattenedDocs(docs, items, i);
    if i >= n {
      FlattenedTogether(docs[1..], items, i - n, j - n, k - n);
    } else {
      FlattenedDocs(docs, items, j);
      if k >= n {
        FlattenedDocs(docs[1..], items, k - n);
        OnlyOnce(docs);
      }
    }
  }

  lemma OnlyOnce(docs: seq<int>)
    requires Distinct(docs) && docs != []
    ensures docs[0] !in docs[1..]
  {
  }

  /** Grouped by document, no other document comes between two items of one. */
  lemma GroupedStaysTogether(items: seq<Item>, i: nat, j: nat, k: nat)
    requires i < j < k < |OrderBy(items, "document_grouped").value|
    ensures var out := OrderBy(items, "document_grouped").value;
            out[i].documentId == out[k].documentId ==> out[j].documentId == out[i].documentId
  {
    RankIsRanked(items);
    var out := OrderBy(items, "document_grouped").value;
    if out[i].documentId == out[k].documentId {
      FlattenedTogether(Rank(items), items, i, j, k);
    }
  }

  /** For diversity every document has its turn, in rank order, before any has a second one. */
  lemma DiversityOpens(items: seq<Item>, i: nat)
    requires i < |Rank(items)|
    ensures var out := OrderBy(items, "diversity").value; i < |out| && out[i].documentId == Rank(items)[i]
  {
    RankIsRanked(items);
    RoundRobinStart(Rank(items), items);
  }

  method OrderByStrategy(items: seq<Item>, strategy: string) returns (ordered: Option<seq<Item>>)
    ensures ordered == OrderBy(items, strategy)
    ensures ordered.Some? ==> multiset(ordered.value) == multiset(items)
  {
    var leq := KeyOrder(strategy);
    if leq.Some? {
      ordered := Some(Sorting.Sort(leq.value, items));
    } else if strategy == "document_grouped" {
      var result := DocumentGrouped(items);
      ordered := Some(result);
    } else if strategy == "diversity" {
      var result := Diversity(items);
      ordered := Some(result);
    } else {
      return None;
    }
    OrderByPermutes(items, strategy);
  }
}
