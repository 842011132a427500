/** Context assembly of rag-context. */
module ContextBuilder {
  import opened Options
  import opened Text
  import opened WordSplit
  import opened Ordering
  import opened Reals
  import Strategies

  /* Greedy selection under a token budget, a cap per document and merging of overlapping neighbours,
     with the whitespace token counter. */

  function Total(items: seq<Item>): nat {
    if items == [] then 0 else Total(items[..|items| - 1]) + items[|items| - 1].tokens
  }

  lemma {:induction false} TotalConcat(xs: seq<Item>, ys: seq<Item>)
    ensures Total(xs + ys) == Total(xs) + Total(ys)
  {
    if ys == [] {
      assert xs + ys == xs;
    } else {
      var front := ys[..|ys| - 1];
      TotalConcat(xs, front);
      assert (xs + ys)[..|xs + ys| - 1] == xs + front;
    }
  }

  lemma TotalSnoc(xs: seq<Item>, y: Item)
    ensures Total(xs + [y]) == Total(xs) + y.tokens
  {
    assert (xs + [y])[..|xs|] == xs;
  }

  // ----- Greedy selection ----------------------------------------------------------------------------

  /** The items taken in order while they fit beside the ones taken before. */
  function Select(items: seq<Item>, budget: int): seq<Item> {
    if items == [] then []
    else
      var before, item := Select(items[..|items| - 1], budget), items[|items| - 1];
      if item.tokens + Total(before) <= budget then before + [item] else before
  }

  /** The items with the numbers picked among the first n, in order. */
  ghost function At(items: seq<Item>, picked: set<nat>, n: nat): seq<Item>
    requires n <= |items|
  {
    if n == 0 then []
    else if n - 1 in picked then At(items, picked, n - 1) + [items[n - 1]]
    else At(items, picked, n - 1)
  }

  /** The tokens of the items picked among the first n. */
  ghost function TokensBefore(items: seq<Item>, picked: set<nat>, n: nat): nat
    requires n <= |items|
  {
    if n == 0 then 0 else TokensBefore(items, picked, n - 1) + if n - 1 in picked then items[n - 1].tokens else 0
  }

  /** Item i fits the budget beside the items picked before it. */
  ghost predicate FitsBeside(items: seq<Item>, budget: int, picked: set<nat>, i: nat)
    requires i < |items|
  {
    items[i].tokens + TokensBefore(items, picked, i) <= budget
  }

  /** Of the first n items exactly those are picked that fit beside the ones picked before them. */
  ghost predicate Greedy(items: seq<Item>, budget: int, picked: set<nat>, n: nat)
    requires n <= |items|
  {
    && (forall i :: i in picked ==> i < n)
    && forall i {:trigger FitsBeside(items, budget, picked, i)} ::
         0 <= i < n ==> (i in picked <==> FitsBeside(items, budget, picked, i))
  }

  lemma {:induction false} PickedLater(items: seq<Item>, p: set<nat>, q: set<nat>, n: nat)
    requires n <= |items| && forall i: nat :: i < n ==> (i in p <==> i in q)
    ensures At(items, p, n) == At(items, q, n) && TokensBefore(items, p, n) == TokensBefore(items, q, n)
  {
    if n > 0 {
      PickedLater(items, p, q, n - 1);
    }
  }

  ghost function PickNext(items: seq<Item>, budget: int, picked: set<nat>, n: nat): set<nat>
    requires n < |items|
  {
    if FitsBeside(items, budget, picked, n) then picked + {n} else picked
  }

  /** One more item: it is picked exactly when it fits. */
  lemma GreedyNext(items: seq<Item>, budget: int, picked: set<nat>, n: nat)
    requires n < |items| && Greedy(items, budget, picked, n)
    ensures var next := PickNext(items, budget, picked, n);
            && Greedy(items, budget, next, n + 1) && (n in next <==> FitsBeside(items, budget, picked, n))
            && At(items, next, n) == At(items, picked, n) && TokensBefore(items, next, n) == TokensBefore(items, picked, n)
  {
    var next := PickNext(items, budget, picked, n);
    PickedLater(items, next, picked, n);
    forall i | 0 <= i < n + 1 ensures i in next <==> FitsBeside(items, budget, next, i) {
      PickedLater(items, next, picked, i);
      assert FitsBeside(items, budget, next, i) <==> FitsBeside(items, budget, picked, i);
    }
  }

  /** The selection from the first n items is a greedy pick, its items in order and its tokens counted. */
  ghost predicate Selected(items: seq<Item>, budget: int, picked: set<nat>, n: nat, selected: seq<Item>)
    requires n <= |items|
  {
    && Greedy(items, budget, picked, n) && selected == Select(items[..n], budget)
    && selected == At(items, picked, n) && Total(selected) == TokensBefore(items, picked, n)
  }

  function Taken(selected: seq<Item>, item: Item, budget: int): seq<Item> {
    if item.tokens + Total(selected) <= budget then selected + [item] else selected
  }

  lemma SelectedNext(items: seq<Item>, budget: int, picked: set<nat>, n: nat, selected: seq<Item>)
    requires n < |items| && Selected(items, budget, picked, n, selected)
    ensures Selected(items, budget, PickNext(items, budget, picked, n), n + 1, Taken(selected, items[n], budget))
  {
    GreedyNext(items, budget, picked, n);
    SelectNext(items, budget, n);
    TotalSnoc(selected, items[n]);
  }

  lemma {:induction false} SelectIsGreedy(items: seq<Item>, budget: int, n: nat) returns (picked: set<nat>)
    requires n <= |items|
    ensures Selected(items, budget, picked, n, Select(items[..n], budget))
  {
    if n == 0 {
      picked := {};
    } else {
      var before := SelectIsGreedy(items, budget, n - 1);
      SelectedNext(items, budget, before, n - 1, Select(items[..n - 1], budget));
      picked := PickNext(items, budget, before, n - 1);
    }
  }

  lemma {:induction false} AllPicked(items: seq<Item>, picked: set<nat>, n: nat)
    requires n <= |items|
    ensures |At(items, picked, n)| <= n
    ensures |At(items, picked, n)| < n <==> exists i :: 0 <= i < n && i !in picked
  {
    if n > 0 {
      AllPicked(items, picked, n - 1);
      if n - 1 !in picked {
        assert exists i :: 0 <= i < n && i !in picked;
      }
    }
  }

  lemma SelectNext(items: seq<Item>, budget: int, n: nat)
    requires n < |items|
    ensures var before := Select(items[..n], budget);
            Select(items[..n + 1], budget) == if items[n].tokens + Total(before) <= budget then before + [items[n]] else before
  {
    assert items[..n + 1][..n] == items[..n];
  }

  /** There is only one greedy pick. */
  lemma {:induction false} GreedyIsUnique(items: seq<Item>, budget: int, p: set<nat>, q: set<nat>, n: nat)
    requires n <= |items| && Greedy(items, budget, p, |items|) && Greedy(items, budget, q, |items|)
    ensures forall i: nat :: i < n ==> (i in p <==> i in q)
  {
    if n > 0 {
      GreedyIsUnique(items, budget, p, q, n - 1);
      PickedLater(items, p, q, n - 1);
      assert FitsBeside(items, budget, p, n - 1) <==> FitsBeside(items, budget, q, n - 1);
    }
  }

  lemma {:induction false} SelectFits(items: seq<Item>, budget: int)
    requires budget >= 0
    ensures Total(Select(items, budget)) <= budget
  {
    if items != [] {
      var before := Select(items[..|items| - 1], budget);
      SelectFits(items[..|items| - 1], budget);
      TotalSnoc(before, items[|items| - 1]);
    }
  }

  lemma {:induction false} TokensGrow(items: seq<Item>, picked: set<nat>, i: nat, n: nat)
    requires i <= n <= |items|
    ensures TokensBefore(items, picked, i) <= TokensBefore(items, picked, n)
  {
    if i < n {
      TokensGrow(items, picked, i, n - 1);
    }
  }

  /** No item passed over would fit the budget left at the end. */
  lemma RejectedNeverFits(items: seq<Item>, budget: int, picked: set<nat>, i: nat)
    requires Greedy(items, budget, picked, |items|) && i < |items| && i !in picked
    ensures items[i].tokens > budget - Total(Select(items, budget))
  {
    var same := SelectIsGreedy(items, budget, |items|);
    assert items[..|items|] == items;
    GreedyIsUnique(items, budget, picked, same, |items|);
    PickedLater(items, picked, same, |items|);
    TokensGrow(items, picked, i, |items|);
    assert !FitsBeside(items, budget, picked, i);
  }

  /** Nothing is added, and with nothing dropped everything is kept in order. */
  lemma {:induction false} SelectDrops(items: seq<Item>, budget: int)
    ensures |Select(items, budget)| <= |items|
    ensures |Select(items, budget)| == |items| ==> Select(items, budget) == items
  {
    if items != [] {
      SelectDrops(items[..|items| - 1], budget);
      assert items == items[..|items| - 1] + [items[|items| - 1]];
    }
  }

  /** The loop body: the item is taken if it fits. */
  method TakeNext(items: seq<Item>, budget: int, k: nat, selected: seq<Item>, running: int, ghost picked: set<nat>)
    returns (next: seq<Item>, total: int, skipped: bool)
    requires k < |items| && Selected(items, budget, picked, k, selected) && running == Total(selected)
    ensures Selected(items, budget, PickNext(items, budget, picked, k), k + 1, next) && total == Total(next)
    ensures |next| == |selected| + if skipped then 0 else 1
  {
    SelectedNext(items, budget, picked, k, selected);
    TotalSnoc(selected, items[k]);
    if items[k].tokens + running <= budget {
      next, total, skipped := selected + [items[k]], running + items[k].tokens, false;
    } else {
      next, total, skipped := selected, running, true;
    }
  }

  /** Skips the items that do not fit beside those taken before. */
  method GreedySelect(items: seq<Item>, budget: int)
    returns (selected: seq<Item>, dropped: bool, ghost picked: set<nat>)
    ensures selected == Select(items, budget)
    ensures Greedy(items, budget, picked, |items|) && selected == At(items, picked, |items|)
    ensures dropped <==> |selected| < |items|
    ensures dropped <==> exists i :: 0 <= i < |items| && i !in picked
  {
    selected, dropped, picked := [], false, {};
    var running := 0;
    for k := 0 to |items|
      invariant Selected(items, budget, picked, k, selected) && running == Total(selected)
      invariant |selected| <= k && (dropped <==> |selected| < k)
    {
      var skipped;
      selected, running, skipped := TakeNext(items, budget, k, selected, running, picked);
      picked := PickNext(items, budget, picked, k);
      dropped := dropped || skipped;
    }
    assert items[..|items|] == items;
    AllPicked(items, picked, |items|);
  }

  // ----- Cap per document ------------------------------------------------------------------------------

  /** The items that come with fewer than `cap` of their document before them. */
  function Capped(items: seq<Item>, cap: int): seq<Item> {
    if items == [] then []
    else
      var front, item := items[..|items| - 1], items[|items| - 1];
      if |Of(item.documentId, front)| < cap then Capped(front, cap) + [item] else Capped(front, cap)
  }

  function Min(a: int, b: int): int { if a < b then a else b }

  lemma OfSnoc(doc: int, items: seq<Item>)
    requires items != []
    ensures var front, item := items[..|items| - 1], items[|items| - 1];
            Of(doc, items) == Of(doc, front) + if item.documentId == doc then [item] else []
  {
    var front, item := items[..|items| - 1], items[|items| - 1];
    assert items == front + [item];
    OfConcat(doc, front, [item]);
    OfCons(doc, item, []);
  }

  /** Of each document exactly the first `cap` items are kept, in order. */
  lemma {:induction false} CappedKeepsFirst(items: seq<Item>, cap: nat, doc: int)
    ensures Of(doc, Capped(items, cap)) == Of(doc, items)[..Min(cap, |Of(doc, items)|)]
  {
    if items != [] {
      var front, item := items[..|items| - 1], items[|items| - 1];
      CappedKeepsFirst(front, cap, doc);
      OfSnoc(doc, items);
      OfConcat(doc, Capped(front, cap), [item]);
      OfCons(doc, item, []);
    }
  }

  lemma {:induction false} CappedShrinks(items: seq<Item>, cap: int)
    ensures Total(Capped(items, cap)) <= Total(items)
  {
    if items != [] {
      var front, item := items[..|items| - 1], items[|items| - 1];
      CappedShrinks(front, cap);
      TotalSnoc(Capped(front, cap), item);
    }
  }

  lemma {:induction false} CappedDrops(items: seq<Item>, cap: int)
    ensures |Capped(items, cap)| <= |items|
    ensures |Capped(items, cap)| == |items| ==> Capped(items, cap) == items
  {
    if items != [] {
      var front := items[..|items| - 1];
      CappedDrops(front, cap);
      assert items == front + [items[|items| - 1]];
    }
  }

  function Seen(counts: map<int, int>, doc: int): int { if doc in counts then counts[doc] else 0 }

  /** How many items of each document the loop has kept. */
  function Counts(items: seq<Item>, cap: int): map<int, int> {
    if items == [] then map[]
    else
      var counts, doc := Counts(items[..|items| - 1], cap), items[|items| - 1].documentId;
      if Seen(counts, doc) >= cap then counts else counts[doc := Seen(counts, doc) + 1]
  }

  lemma {:induction false} CountsAreKept(items: seq<Item>, cap: int, doc: int)
    requires cap > 0
    ensures Seen(Counts(items, cap), doc) == Min(cap, |Of(doc, items)|)
  {
    if items != [] {
      CountsAreKept(items[..|items| - 1], cap, doc);
      OfSnoc(doc, items);
    }
  }

  /** One more item: counting in the dictionary decides as counting in the list does. */
  lemma CapNext(items: seq<Item>, cap: int, k: nat)
    requires cap > 0 && k < |items|
    ensures var counts, item := Counts(items[..k], cap), items[k];
            if Seen(counts, item.documentId) >= cap then
              Capped(items[..k + 1], cap) == Capped(items[..k], cap) && Counts(items[..k + 1], cap) == counts
            else
              && Capped(items[..k + 1], cap) == Capped(items[..k], cap) + [item]
              && Counts(items[..k + 1], cap) == counts[item.documentId := Seen(counts, item.documentId) + 1]
  {
    assert items[..k + 1][..k] == items[..k];
    CountsAreKept(items[..k], cap, items[k].documentId);
  }

  /** How many items of the document are picked among the first n. */
  ghost function SameBefore(items: seq<Item>, picked: set<nat>, doc: int, n: nat): nat
    requires n <= |items|
  {
    if n == 0 then 0
    else SameBefore(items, picked, doc, n - 1) + if n - 1 in picked && items[n - 1].documentId == doc then 1 else 0
  }

  /** Of the picked items those with fewer than `cap` picked ones of their document before them. */
  ghost function WithinCap(items: seq<Item>, picked: set<nat>, cap: int): set<nat> {
    set i | i in picked && i < |items| && SameBefore(items, picked, items[i].documentId, i) < cap
  }

  lemma {:induction false} OfPicked(items: seq<Item>, picked: set<nat>, doc: int, n: nat)
    requires n <= |items|
    ensures |Of(doc, At(items, picked, n))| == SameBefore(items, picked, doc, n)
  {
    if n > 0 {
      OfPicked(items, picked, doc, n - 1);
      if n - 1 in picked {
        OfConcat(doc, At(items, picked, n - 1), [items[n - 1]]);
        OfCons(doc, items[n - 1], []);
        assert [items[n - 1]] + [] == [items[n - 1]];
      }
    }
  }

  lemma CappedSnoc(items: seq<Item>, item: Item, cap: int)
    ensures Capped(items + [item], cap) ==
            if |Of(item.documentId, items)| < cap then Capped(items, cap) + [item] else Capped(items, cap)
  {
    assert (items + [item])[..|items|] == items;
  }

  /** The cap keeps exactly those, in order. */
  lemma {:induction false} CappedIsWithin(items: seq<Item>, picked: set<nat>, cap: int, n: nat)
    requires n <= |items|
    ensures Capped(At(items, picked, n), cap) == At(items, WithinCap(items, picked, cap), n)
  {
    if n > 0 {
      CappedIsWithin(items, picked, cap, n - 1);
      if n - 1 in picked {
        CappedSnoc(At(items, picked, n - 1), items[n - 1], cap);
        OfPicked(items, picked, items[n - 1].documentId, n - 1);
      }
    }
  }

  method CapPerDocument(items: seq<Item>, cap: int) returns (capped: seq<Item>, dropped: bool)
    requires cap > 0
    ensures capped == Capped(items, cap)
    ensures dropped <==> |capped| < |items|
  {
    var counts: map<int, int> := map[];
    capped, dropped := [], false;
    for k := 0 to |items|
      invariant capped == Capped(items[..k], cap) && counts == Counts(items[..k], cap)
      invariant |capped| <= k && (dropped <==> |capped| < k)
    {
      var item := items[k];
      CapNext(items, cap, k);
      var seen := Seen(counts, item.documentId);
      if seen >= cap {
        dropped := true;
        continue;
      }
      counts := counts[item.documentId := seen + 1];
      capped := capped + [item];
    }
    assert items[..|items|] == items;
  }

  // ----- Overlap ----------------------------------------------------------------------------------------

  /** The last k words of a are the first k words of b. */
  predicate Laps<T(==)>(a: seq<T>, b: seq<T>, k: nat) {
    k <= |a| && k <= |b| && a[|a| - k..] == b[..k]
  }

  function Longest<T(==)>(a: seq<T>, b: seq<T>, k: nat): nat {
    if k == 0 || Laps(a, b, k) then k else Longest(a, b, k - 1)
  }

  /** The longest overlap of a's end with b's beginning. */
  function Overlap<T(==)>(a: seq<T>, b: seq<T>): nat { Longest(a, b, Min(|a|, |b|)) }

  lemma {:induction false} LongestLaps<T>(a: seq<T>, b: seq<T>, limit: nat)
    ensures Longest(a, b, limit) <= limit && Laps(a, b, Longest(a, b, limit))
  {
    if limit == 0 {
      assert a[|a|..] == b[..0];
    } else if !Laps(a, b, limit) {
      LongestLaps(a, b, limit - 1);
    }
  }

  lemma {:induction false} OverlapIsLongest<T>(a: seq<T>, b: seq<T>, limit: nat, j: nat)
    requires Longest(a, b, limit) < j <= limit
    ensures !Laps(a, b, j)
  {
    if j < limit {
      OverlapIsLongest(a, b, limit - 1, j);
    }
  }

  /** The two texts share more than half of the shorter one. */
  predicate Overlapping(space: set<char>, a: string, b: string) {
    var x, y := Words(space, a), Words(space, b);
    x != [] && y != [] && 2 * Overlap(x, y) > Min(|x|, |y|)
  }

  method FindOverlap<T(==)>(a: seq<T>, b: seq<T>, limit: nat) returns (k: nat)
    ensures k == Longest(a, b, limit)
  {
    k := limit;
    while k > 0 && !Laps(a, b, k)
      invariant Longest(a, b, k) == Longest(a, b, limit)
    {
      k := k - 1;
    }
  }

  /** The words shared, over those of the shorter text. */
  method OverlapRatio(space: set<char>, a: string, b: string) returns (ratio: real)
    ensures ratio > 0.5 <==> Overlapping(space, a, b)
    ensures var x, y := Words(space, a), Words(space, b);
            ratio == if x == [] || y == [] then 0.0 else Overlap(x, y) as real / Min(|x|, |y|) as real
  {
    var x, y := Words(space, a), Words(space, b);
    if x == [] || y == [] {
      return 0.0;
    }
    var limit := Min(|x|, |y|);
    var k := FindOverlap(x, y, limit);
    LongestLaps(x, y, limit);
    Ratio(k as real, limit as real, 0.5);
    return k as real / limit as real;
  }

  // ----- Merging overlapping neighbours --------------------------------------------------------------

  function InsertNumber(n: int, xs: seq<int>): seq<int> {
    if xs == [] || n < xs[0] then [n] + xs
    else if n == xs[0] then xs
    else [xs[0]] + InsertNumber(n, xs[1..])
  }

  /** sorted(set(xs)) */
  function SortedSet(xs: seq<int>): seq<int> {
    if xs == [] then [] else InsertNumber(xs[0], SortedSet(xs[1..]))
  }

  ghost predicate Ascends(xs: seq<int>) { forall i, j :: 0 <= i < j < |xs| ==> xs[i] < xs[j] }

  lemma {:induction false} InsertNumberMember(n: int, xs: seq<int>, m: int)
    ensures m in InsertNumber(n, xs) <==> m == n || m in xs
  {
    if xs != [] {
      assert xs == [xs[0]] + xs[1..];
      if n > xs[0] {
        InsertNumberMember(n, xs[1..], m);
      }
    }
  }

  lemma {:induction false} InsertNumberAscends(n: int, xs: seq<int>)
    requires Ascends(xs)
    ensures Ascends(InsertNumber(n, xs))
  {
    if xs != [] && n > xs[0] {
      var rest := InsertNumber(n, xs[1..]);
      InsertNumberAscends(n, xs[1..]);
      forall j | 0 <= j < |rest| ensures xs[0] < rest[j] {
        InsertNumberMember(n, xs[1..], rest[j]);
        if rest[j] != n {
          var i :| 0 <= i < |xs[1..]| && xs[1..][i] == rest[j];
        }
      }
    }
  }

  /** The merged page numbers are those of both items, each once, ascending. */
  lemma {:induction false} SortedSetFacts(xs: seq<int>, m: int)
    ensures Ascends(SortedSet(xs))
    ensures m in SortedSet(xs) <==> m in xs
  {
    if xs != [] {
      SortedSetFacts(xs[1..], m);
      InsertNumberAscends(xs[0], SortedSet(xs[1..]));
      InsertNumberMember(xs[0], SortedSet(xs[1..]), m);
      assert xs == [xs[0]] + xs[1..];
    }
  }

  /** list(dict.fromkeys(xs)) */
  function Unique(xs: seq<int>): seq<int> {
    if xs == [] then []
    else
      var front, x := Unique(xs[..|xs| - 1]), xs[|xs| - 1];
      if x in front then front else front + [x]
  }

  /** The merged section names are those of both items, each once, in order of first appearance. */
  lemma {:induction false} UniqueFacts(xs: seq<int>)
    ensures forall i, j :: 0 <= i < j < |Unique(xs)| ==> Unique(xs)[i] != Unique(xs)[j]
    ensures forall x :: x in Unique(xs) <==> x in xs
    ensures xs != [] ==> Unique(xs[..|xs| - 1]) <= Unique(xs)
  {
    if xs != [] {
      UniqueFacts(xs[..|xs| - 1]);
      assert xs == xs[..|xs| - 1] + [xs[|xs| - 1]];
    }
  }

  /** The text of b appended to that of a without the words they share. */
  function Union(space: set<char>, a: string, b: string): string {
    var x, y := Words(space, a), Words(space, b);
    JoinWith(x + y[Min(Overlap(x, y), |y|)..], " ")
  }

  function Merge(space: set<char>, a: Item, b: Item): Item {
    var union := Union(space, a.text, b.text);
    a.(text := union, tokens := |Words(space, union)|, pages := SortedSet(a.pages + b.pages),
       sections := Unique(a.sections + b.sections))
  }

  /** The merged item is the first one with the joined text, its word count, the pages of both in
      ascending order and the section names of both in order of first appearance. */
  lemma MergeMeans(space: set<char>, a: Item, b: Item)
    ensures var m := Merge(space, a, b);
            && m == a.(text := Union(space, a.text, b.text), tokens := |Words(space, Union(space, a.text, b.text))|,
                       pages := m.pages, sections := m.sections)
            && Ascends(m.pages) && (forall n :: n in m.pages <==> n in a.pages || n in b.pages)
            && (forall n :: n in m.sections <==> n in a.sections || n in b.sections)
            && (forall i, j :: 0 <= i < j < |m.sections| ==> m.sections[i] != m.sections[j])
            && Unique(a.sections) <= m.sections
  {
    SortedSetFacts(a.pages + b.pages, 0);
    forall n ensures n in SortedSet(a.pages + b.pages) <==> n in a.pages || n in b.pages {
      SortedSetFacts(a.pages + b.pages, n);
    }
    UniqueFacts(a.sections + b.sections);
    UniqueGrows(a.sections, b.sections);
  }

  lemma {:induction false} UniqueGrows(xs: seq<int>, ys: seq<int>)
    ensures Unique(xs) <= Unique(xs + ys)
  {
    if ys == [] {
      assert xs + ys == xs;
    } else {
      UniqueGrows(xs, ys[..|ys| - 1]);
      assert (xs + ys)[..|xs + ys| - 1] == xs + ys[..|ys| - 1];
      UniqueFacts(xs + ys);
    }
  }

  /** The next item goes into the last one when they overlap, else behind it. */
  function Add(space: set<char>, merged: seq<Item>, item: Item): seq<Item> {
    var last := |merged| - 1;
    if merged != [] && Overlapping(space, merged[last].text, item.text) then
      merged[..last] + [Merge(space, merged[last], item)]
    else merged + [item]
  }

  function MergeAll(space: set<char>, items: seq<Item>): seq<Item> {
    if items == [] then [] else Add(space, MergeAll(space, items[..|items| - 1]), items[|items| - 1])
  }

  lemma MergeSnoc(space: set<char>, items: seq<Item>, item: Item)
    ensures MergeAll(space, items + [item]) == Add(space, MergeAll(space, items), item)
  {
    assert (items + [item])[..|items|] == items;
  }

  /** The count is the number of words of the text. */
  predicate Exact(space: set<char>, item: Item) { item.tokens == |Words(space, item.text)| }

  ghost predicate Counted(space: set<char>, items: seq<Item>) {
    forall i :: 0 <= i < |items| ==> Exact(space, items[i])
  }

  ghost predicate LiesAt<T>(x: seq<T>, y: seq<T>, i: nat) {
    i + |x| <= |y| && y[i..i + |x|] == x
  }

  /** x lies contiguously in y. */
  ghost predicate Within<T>(x: seq<T>, y: seq<T>) { exists i: nat :: LiesAt(x, y, i) }

  lemma WithinTransitive<T>(x: seq<T>, y: seq<T>, z: seq<T>)
    requires Within(x, y) && Within(y, z)
    ensures Within(x, z)
  {
    var i: nat :| LiesAt(x, y, i);
    var j: nat :| LiesAt(y, z, j);
    SliceOfSlice(z, j, j + |y|, i, i + |x|);
    assert LiesAt(x, z, j + i);
  }

  lemma WithinSelf<T>(x: seq<T>)
    ensures Within(x, x)
  {
    assert LiesAt(x, x, 0);
  }

  /** Joining without the shared words keeps both word lists contiguous. */
  lemma LappedUnion<T>(x: seq<T>, y: seq<T>, k: nat)
    requires Laps(x, y, k)
    ensures Within(x, x + y[k..]) && Within(y, x + y[k..])
  {
    var z := x + y[k..];
    assert LiesAt(x, z, 0);
    assert z[|x| - k..] == x[|x| - k..] + y[k..] == y;
    assert LiesAt(y, z, |x| - k);
  }

  /** The words of a union are those of a and those of b, the shared ones once. */
  lemma UnionWords(space: set<char>, a: string, b: string)
    requires ' ' in space
    ensures var x, y := Words(space, a), Words(space, b);
            && Overlap(x, y) <= |y| && Laps(x, y, Overlap(x, y))
            && Words(space, Union(space, a, b)) == x + y[Overlap(x, y)..]
  {
    var x, y := Words(space, a), Words(space, b);
    LongestLaps(x, y, Min(|x|, |y|));
    WordsAreWords(space, a);
    WordsAreWords(space, b);
    AllWordsUnion(space, x, y, Overlap(x, y));
    WordsOfJoin(space, x + y[Overlap(x, y)..]);
  }

  lemma AllWordsUnion(space: set<char>, x: seq<string>, y: seq<string>, k: nat)
    requires AllWords(space, x) && AllWords(space, y) && k <= |y|
    ensures AllWords(space, x + y[k..])
  {
  }

  lemma MergeKeepsWords(space: set<char>, a: Item, b: Item)
    requires ' ' in space
    ensures var m := Merge(space, a, b);
            && Exact(space, m) && m.tokens <= |Words(space, a.text)| + |Words(space, b.text)|
            && Within(Words(space, a.text), Words(space, m.text))
            && Within(Words(space, b.text), Words(space, m.text))
  {
    var x, y := Words(space, a.text), Words(space, b.text);
    UnionWords(space, a.text, b.text);
    LappedUnion(x, y, Overlap(x, y));
  }

  lemma CountedSnoc(space: set<char>, items: seq<Item>, item: Item)
    requires Counted(space, items) && Exact(space, item)
    ensures Counted(space, items + [item])
  {
  }

  lemma MergeLastShrinks(space: set<char>, front: seq<Item>, last: Item, item: Item)
    requires ' ' in space && Counted(space, front) && Exact(space, last) && Exact(space, item)
    ensures Total(front + [Merge(space, last, item)]) <= Total(front + [last]) + item.tokens
    ensures Counted(space, front + [Merge(space, last, item)])
  {
    var m := Merge(space, last, item);
    MergeKeepsWords(space, last, item);
    TotalSnoc(front, last);
    TotalSnoc(front, m);
    CountedSnoc(space, front, m);
  }

  lemma AddShrinks(space: set<char>, merged: seq<Item>, item: Item)
    requires ' ' in space && Counted(space, merged) && Exact(space, item)
    ensures Total(Add(space, merged, item)) <= Total(merged) + item.tokens
    ensures Counted(space, Add(space, merged, item))
  {
    if merged == [] || !Overlapping(space, merged[|merged| - 1].text, item.text) {
      TotalSnoc(merged, item);
      CountedSnoc(space, merged, item);
    } else {
      var front, last := merged[..|merged| - 1], merged[|merged| - 1];
      assert merged == front + [last] && Exact(space, last);
      MergeLastShrinks(space, front, last, item);
    }
  }

  /** Merging never adds tokens, and counts stay word counts. */
  lemma {:induction false} MergeShrinks(space: set<char>, items: seq<Item>)
    requires ' ' in space && Counted(space, items)
    ensures Total(MergeAll(space, items)) <= Total(items)
    ensures Counted(space, MergeAll(space, items))
  {
    if items != [] {
      var front, item := items[..|items| - 1], items[|items| - 1];
      assert Exact(space, item);
      MergeShrinks(space, front);
      AddShrinks(space, MergeAll(space, front), item);
    }
  }

  ghost predicate KeptIn(space: set<char>, text: string, out: seq<Item>) {
    exists m :: 0 <= m < |out| && Within(Words(space, text), Words(space, out[m].text))
  }

  lemma AddKeeps(space: set<char>, text: string, merged: seq<Item>, item: Item)
    requires ' ' in space && (KeptIn(space, text, merged) || text == item.text)
    ensures KeptIn(space, text, Add(space, merged, item))
  {
    var out, last := Add(space, merged, item), |merged| - 1;
    WithinSelf(Words(space, item.text));
    if merged != [] {
      MergeKeepsWords(space, merged[last], item);
    }
    if text == item.text {
      assert Within(Words(space, text), Words(space, out[|out| - 1].text));
    } else {
      var m :| 0 <= m < |merged| && Within(Words(space, text), Words(space, merged[m].text));
      if m == last && |out| == |merged| {
        WithinTransitive(Words(space, text), Words(space, merged[last].text), Words(space, out[last].text));
      } else {
        assert out[m] == merged[m];
      }
    }
  }

  /** A text kept so far stays kept when the next item is added, and so does that item's. */
  lemma StaysKept(space: set<char>, items: seq<Item>, item: Item, text: string)
    requires ' ' in space && (KeptIn(space, text, MergeAll(space, items)) || text == item.text)
    ensures KeptIn(space, text, MergeAll(space, items + [item]))
  {
    MergeSnoc(space, items, item);
    AddKeeps(space, text, MergeAll(space, items), item);
  }

  lemma {:induction false} MergeKeepsUpTo(space: set<char>, items: seq<Item>, text: string, i: nat, n: nat)
    requires ' ' in space && i < n <= |items| && text == items[i].text
    ensures KeptIn(space, text, MergeAll(space, items[..n]))
    decreases n
  {
    assert items[..n] == items[..n - 1] + [items[n - 1]];
    if i < n - 1 {
      MergeKeepsUpTo(space, items, text, i, n - 1);
    }
    StaysKept(space, items[..n - 1], items[n - 1], text);
  }

  /** Every item keeps its words contiguously inside one merged item. */
  lemma MergeKeeps(space: set<char>, items: seq<Item>, i: nat)
    requires ' ' in space && i < |items|
    ensures KeptIn(space, items[i].text, MergeAll(space, items))
  {
    MergeKeepsUpTo(space, items, items[i].text, i, |items|);
    assert items[..|items|] == items;
  }

  /** A text overlaps with any text its words begin. */
  lemma BeginsOverlaps(space: set<char>, a: string, b: string)
    requires Words(space, a) != [] && Words(space, a) <= Words(space, b)
    ensures Overlapping(space, a, b) && Overlap(Words(space, a), Words(space, b)) == |Words(space, a)|
  {
    var x, y := Words(space, a), Words(space, b);
    assert Laps(x, y, |x|);
  }

  lemma NoOverlap(space: set<char>, a: string, b: string, x: string, y: string, z: string)
    requires Words(space, a) == [x, y, z] && Words(space, b) == [x, y] && x != y && x != z
    ensures !Overlapping(space, a, b)
  {
    var p, q := [x, y, z], [x, y];
    assert p[3 - 2..][0] != q[..2][0];
    assert p[3 - 1..][0] != q[..1][0];
    assert Longest(p, q, 1) == 0;
  }

  lemma SecondPass(space: set<char>, a: Item, m: Item)
    requires Words(space, a.text) == Words(space, m.text) != []
    ensures |MergeAll(space, [a, m])| == 1
  {
    assert [a, m] == [a] + [m];
    assert MergeAll(space, [a]) == Add(space, MergeAll(space, []), a) == [a];
    BeginsOverlaps(space, a.text, m.text);
    MergeSnoc(space, [a], m);
  }

  lemma FirstPass(space: set<char>, a: Item, b: Item, c: Item)
    requires !Overlapping(space, a.text, b.text) && Overlapping(space, b.text, c.text)
    ensures MergeAll(space, [a, b, c]) == [a, Merge(space, b, c)]
  {
    assert [a, b] == [a] + [b] && [a, b, c] == [a, b] + [c];
    assert MergeAll(space, [a]) == Add(space, MergeAll(space, []), a) == [a];
    MergeSnoc(space, [a], b);
    MergeSnoc(space, [a, b], c);
  }

  /** One pass is not enough: an item that grows later may come to repeat the one before it, and
      merging the result again changes it. */
  lemma NotIdempotent(space: set<char>, a: Item, b: Item, c: Item, x: string, y: string, z: string)
    requires ' ' in space && x != y && x != z
    requires Words(space, a.text) == Words(space, c.text) == [x, y, z] && Words(space, b.text) == [x, y]
    ensures var once := MergeAll(space, [a, b, c]);
            |once| == 2 && Words(space, once[0].text) == Words(space, once[1].text) && |MergeAll(space, once)| == 1
  {
    NoOverlap(space, a.text, b.text, x, y, z);
    BeginsOverlaps(space, b.text, c.text);
    FirstPass(space, a, b, c);
    UnionWords(space, b.text, c.text);
    assert [x, y] + [x, y, z][2..] == [x, y, z];
    SecondPass(space, a, Merge(space, b, c));
  }

  // ----- When one pass is enough -----------------------------------------------------------------

  ghost predicate Apart(space: set<char>, items: seq<Item>) {
    forall i :: 0 < i < |items| ==> !Overlapping(space, items[i - 1].text, items[i].text)
  }

  lemma ApartSnoc(space: set<char>, items: seq<Item>, item: Item)
    ensures Apart(space, items + [item]) <==>
            Apart(space, items) && (items != [] ==> !Overlapping(space, items[|items| - 1].text, item.text))
  {
    var all := items + [item];
    assert forall i :: 0 <= i < |items| ==> all[i] == items[i];
    if Apart(space, all) {
      assert items != [] ==> !Overlapping(space, all[|items| - 1].text, all[|items|].text);
    }
  }

  /** Merging makes a list no longer, and leaves its length when no two neighbours overlap. */
  lemma {:induction false} MergeShortens(space: set<char>, items: seq<Item>)
    ensures |MergeAll(space, items)| <= |items|
    ensures |MergeAll(space, items)| == |items| ==> Apart(space, MergeAll(space, items))
  {
    if items != [] {
      var merged, item := MergeAll(space, items[..|items| - 1]), items[|items| - 1];
      MergeShortens(space, items[..|items| - 1]);
      ApartSnoc(space, merged, item);
    }
  }

  lemma {:induction false} ApartMerged(space: set<char>, items: seq<Item>, n: nat)
    requires Apart(space, items) && n <= |items|
    ensures MergeAll(space, items[..n]) == items[..n]
  {
    if n > 0 {
      ApartMerged(space, items, n - 1);
      NextMerge(space, items, n - 1);
      ApartAdded(space, items, n, items[..n - 1]);
    }
  }

  lemma ApartAdded(space: set<char>, items: seq<Item>, n: nat, front: seq<Item>)
    requires Apart(space, items) && 0 < n <= |items| && front == items[..n - 1]
    ensures Add(space, front, items[n - 1]) == items[..n]
  {
    assert items[..n] == front + [items[n - 1]];
    assert n > 1 ==> front[|front| - 1] == items[n - 2];
  }

  /** Merging leaves a list as it is exactly when no two neighbours overlap. */
  lemma UnchangedExactly(space: set<char>, items: seq<Item>)
    ensures MergeAll(space, items) == items <==> Apart(space, items)
  {
    MergeShortens(space, items);
    if Apart(space, items) {
      ApartMerged(space, items, |items|);
      assert items[..|items|] == items;
    }
  }

  /** Merging the result once more changes nothing. */
  ghost predicate Settled(space: set<char>, items: seq<Item>) {
    MergeAll(space, MergeAll(space, items)) == MergeAll(space, items)
  }

  /** The words of b all lie, contiguously, in a. */
  ghost predicate Swallowed(space: set<char>, b: string, a: string) {
    Words(space, b) != [] && Within(Words(space, b), Words(space, a))
  }

  /** A text neither overlapping with a nor lying in it stays so when it grows at its end: a longer
      overlap would contain it, a shorter one was there before. */
  lemma GrowsApart(space: set<char>, a: string, b: string, c: string, rest: seq<string>)
    requires !Overlapping(space, a, b) && !Swallowed(space, b, a) && Words(space, b) != []
    requires Words(space, c) == Words(space, b) + rest
    ensures !Overlapping(space, a, c) && !Swallowed(space, c, a)
  {
    var x, y, z := Words(space, a), Words(space, b), Words(space, c);
    assert LiesAt(y, z, 0);
    if Within(z, x) {
      WithinTransitive(y, z, x);
    }
    NoLongerOverlap(x, y, rest);
  }

  lemma NoLongerOverlap(x: seq<string>, y: seq<string>, rest: seq<string>)
    requires !Within(y, x) && y != []
    ensures Overlap(x, y + rest) <= Overlap(x, y) && Overlap(x, y + rest) < |y|
  {
    var z := y + rest;
    LongestLaps(x, z, Min(|x|, |z|));
    var k := Overlap(x, z);
    if k >= |y| {
      LappedPrefix(x, y, rest, k);
    } else {
      assert z[..k] == y[..k];
      if k > Overlap(x, y) {
        OverlapIsLongest(x, y, Min(|x|, |y|), k);
      }
    }
  }

  lemma LappedPrefix<T>(x: seq<T>, y: seq<T>, rest: seq<T>, k: nat)
    requires Laps(x, y + rest, k) && k >= |y|
    ensures Within(y, x)
  {
    var i := |x| - k;
    assert (y + rest)[..k][..|y|] == y;
    SliceOfSlice(x, i, |x|, 0, |y|);
    assert LiesAt(y, x, i);
  }

  /** The last item could still grow into the one before it. */
  ghost predicate LastSwallowed(space: set<char>, merged: seq<Item>) {
    |merged| >= 2 && Swallowed(space, merged[|merged| - 1].text, merged[|merged| - 2].text)
  }

  lemma MergeStaysApart(space: set<char>, front: seq<Item>, last: Item, item: Item)
    requires ' ' in space && Apart(space, front + [last]) && !LastSwallowed(space, front + [last])
    requires Overlapping(space, last.text, item.text)
    ensures var out := front + [Merge(space, last, item)]; Apart(space, out) && !LastSwallowed(space, out)
  {
    var m := Merge(space, last, item);
    var x, y := Words(space, last.text), Words(space, item.text);
    ApartSnoc(space, front, last);
    ApartSnoc(space, front, m);
    UnionWords(space, last.text, item.text);
    if front != [] {
      GrowsApart(space, front[|front| - 1].text, last.text, m.text, y[Overlap(x, y)..]);
    }
  }

  lemma AddStaysApart(space: set<char>, merged: seq<Item>, item: Item)
    requires ' ' in space && Apart(space, merged) && !LastSwallowed(space, merged)
    ensures Apart(space, Add(space, merged, item))
    ensures !Hidden(space, merged, item) ==> !LastSwallowed(space, Add(space, merged, item))
  {
    ApartSnoc(space, merged, item);
    if merged != [] && Overlapping(space, merged[|merged| - 1].text, item.text) {
      assert merged == merged[..|merged| - 1] + [merged[|merged| - 1]];
      MergeStaysApart(space, merged[..|merged| - 1], merged[|merged| - 1], item);
    }
  }

  /** The item goes behind the last merged one although its words lie in it. */
  ghost predicate Hidden(space: set<char>, merged: seq<Item>, item: Item) {
    && merged != [] && !Overlapping(space, merged[|merged| - 1].text, item.text)
    && Swallowed(space, item.text, merged[|merged| - 1].text)
  }

  ghost predicate NoneHidden(space: set<char>, items: seq<Item>) {
    items != [] ==>
      && NoneHidden(space, items[..|items| - 1])
      && !Hidden(space, MergeAll(space, items[..|items| - 1]), items[|items| - 1])
  }

  lemma {:induction false} NoneHiddenApart(space: set<char>, items: seq<Item>)
    requires ' ' in space && NoneHidden(space, items)
    ensures Apart(space, MergeAll(space, items)) && !LastSwallowed(space, MergeAll(space, items))
  {
    if items != [] {
      NoneHiddenApart(space, items[..|items| - 1]);
      AddStaysApart(space, MergeAll(space, items[..|items| - 1]), items[|items| - 1]);
    }
  }

  /** One pass is enough when no item is put behind one that already holds all its words. */
  lemma OnePassIsEnough(space: set<char>, items: seq<Item>)
    requires ' ' in space && NoneHidden(space, items)
    ensures Settled(space, items)
  {
    NoneHiddenApart(space, items);
    UnchangedExactly(space, MergeAll(space, items));
  }

  lemma AddToLast(space: set<char>, front: seq<Item>, last: Item, item: Item)
    requires Overlapping(space, last.text, item.text)
    ensures Add(space, front + [last], item) == front + [Merge(space, last, item)]
  {
    assert (front + [last])[..|front|] == front;
  }

  /** For a text swallowed by its neighbour there is an item that makes it grow into that neighbour. */
  lemma GrowsInto(space: set<char>, front: seq<Item>, a: Item, b: Item) returns (c: Item)
    requires ' ' in space && Swallowed(space, b.text, a.text)
    ensures !Apart(space, Add(space, front + [a] + [b], c))
  {
    var x, y := Words(space, a.text), Words(space, b.text);
    var i: nat :| LiesAt(y, x, i);
    c := b.(text := JoinWith(x[i..], " "));
    WordsAreWords(space, a.text);
    WordsOfJoin(space, x[i..]);
    assert x[i..][..|y|] == y;
    BeginsOverlaps(space, b.text, c.text);
    UnionWords(space, b.text, c.text);
    assert y + x[i..][|y|..] == x[i..];
    assert Laps(x, x[i..], |x| - i);
    var m := Merge(space, b, c);
    AddToLast(space, front + [a], b, c);
    ApartSnoc(space, front + [a], m);
  }

  lemma SettledExactly(space: set<char>, items: seq<Item>, item: Item)
    ensures Settled(space, items) <==> Apart(space, MergeAll(space, items))
    ensures Settled(space, items + [item]) <==> Apart(space, Add(space, MergeAll(space, items), item))
  {
    UnchangedExactly(space, MergeAll(space, items));
    MergeSnoc(space, items, item);
    UnchangedExactly(space, MergeAll(space, items + [item]));
  }

  /** An item without words is put behind the others. */
  lemma WordlessKept(space: set<char>, merged: seq<Item>, item: Item)
    requires item.text == ""
    ensures Apart(space, Add(space, merged, item)) ==> Apart(space, merged)
  {
    ApartSnoc(space, merged, item);
  }

  /** Whatever item comes next, one pass is enough for the longer list, exactly when it is for the
      list so far and the last merged item does not lie in the one before it. */
  lemma OnePassExactly(space: set<char>, items: seq<Item>)
    requires ' ' in space
    ensures (forall c :: Settled(space, items + [c])) <==>
            Settled(space, items) && !LastSwallowed(space, MergeAll(space, items))
  {
    var merged := MergeAll(space, items);
    if Settled(space, items) && !LastSwallowed(space, merged) {
      forall c ensures Settled(space, items + [c]) {
        SettledExactly(space, items, c);
        AddStaysApart(space, merged, c);
      }
    } else {
      var c := Unsettles(space, items);
    }
  }

  lemma LastTwo<T>(s: seq<T>)
    requires |s| >= 2
    ensures s[..|s| - 2] + [s[|s| - 2]] + [s[|s| - 1]] == s
  {
  }

  lemma Unsettles(space: set<char>, items: seq<Item>) returns (c: Item)
    requires ' ' in space && (!Settled(space, items) || LastSwallowed(space, MergeAll(space, items)))
    ensures !Settled(space, items + [c])
  {
    var merged := MergeAll(space, items);
    if LastSwallowed(space, merged) {
      LastTwo(merged);
      c := GrowsInto(space, merged[..|merged| - 2], merged[|merged| - 2], merged[|merged| - 1]);
    } else {
      c := Item(0, 0, "", 0, None, [], []);
      WordlessKept(space, merged, c);
    }
    SettledExactly(space, items, c);
  }

  // ----- The items as objects --------------------------------------------------------------------------

  class ContextItem {
    const chunkId: int
    const documentId: int
    const score: Option<real>
    var text: string
    var tokenCount: nat
    var pageNumbers: seq<int>
    var sectionPath: seq<int>
    var citationId: Option<nat>

    constructor (item: Item)
      ensures Value() == item
    {
      chunkId, documentId, score := item.chunkId, item.documentId, item.score;
      text, tokenCount, pageNumbers, sectionPath := item.text, item.tokens, item.pages, item.sections;
      citationId := None;
    }

    function Value(): Item
      reads this
    {
      Item(chunkId, documentId, text, tokenCount, score, pageNumbers, sectionPath)
    }

    /** Merges an overlapping neighbour into this item. */
    method Absorb(space: set<char>, item: ContextItem)
      requires item != this
      modifies this`text, this`tokenCount, this`pageNumbers, this`sectionPath
      ensures Value() == Merge(space, old(Value()), item.Value())
    {
      var x, y := Words(space, text), Words(space, item.text);
      var limit := Min(|x|, |y|);
      var k := FindOverlap(x, y, limit);
      LongestLaps(x, y, limit);
      var union := JoinWith(x + y[k..], " ");
      text := union;
      tokenCount := |Words(space, union)|;
      pageNumbers := SortedSet(pageNumbers + item.pageNumbers);
      sectionPath := Unique(sectionPath + item.sectionPath);
    }
  }

  /** No object comes twice: `place` gives the index of each. */
  ghost predicate Placed(items: seq<ContextItem>, place: map<ContextItem, nat>) {
    forall i :: 0 <= i < |items| ==> items[i] in place && place[items[i]] == i
  }

  ghost predicate Holds(items: seq<ContextItem>, values: seq<Item>)
    reads items
  {
    |items| == |values| && forall i :: 0 <= i < |items| ==> items[i].Value() == values[i]
  }

  lemma AddAtEnd(space: set<char>, values: seq<Item>, item: Item)
    requires values != []
    ensures var last := |values| - 1;
            Add(space, values, item) == if Overlapping(space, values[last].text, item.text)
                                        then values[last := Merge(space, values[last], item)] else values + [item]
  {
    LastReplaced(values, Merge(space, values[|values| - 1], item));
  }

  lemma LastReplaced<T>(s: seq<T>, x: T)
    requires s != []
    ensures s[..|s| - 1] + [x] == s[|s| - 1 := x]
  {
  }

  /** Into the last item. */
  method AbsorbLast(space: set<char>, merged: seq<ContextItem>, item: ContextItem, ghost values: seq<Item>,
                    ghost place: map<ContextItem, nat>)
    requires merged != [] && Placed(merged, place) && item != merged[|merged| - 1]
    requires Holds(merged, values)
    modifies merged[|merged| - 1]
    ensures Holds(merged, values[|values| - 1 := Merge(space, values[|values| - 1], old(item.Value()))])
  {
    var current := merged[|merged| - 1];
    ghost var after := Merge(space, current.Value(), item.Value());
    current.Absorb(space, item);
    forall i | 0 <= i < |merged| ensures merged[i].Value() == values[|values| - 1 := after][i] {
      assert i < |merged| - 1 ==> merged[i] != current;
    }
  }

  /** The loop body: into the last item when they overlap, else behind it. */
  method AddItem(space: set<char>, merged: seq<ContextItem>, item: ContextItem, ghost values: seq<Item>,
                 ghost place: map<ContextItem, nat>)
    returns (next: seq<ContextItem>)
    requires merged != [] && Placed(merged, place) && item != merged[|merged| - 1]
    requires Holds(merged, values)
    modifies merged[|merged| - 1]
    ensures Holds(next, Add(space, values, old(item.Value())))
    ensures next == merged || next == merged + [item]
  {
    var current := merged[|merged| - 1];
    AddAtEnd(space, values, item.Value());
    var ratio := OverlapRatio(space, current.text, item.text);
    if ratio > 0.5 {
      AbsorbLast(space, merged, item, values, place);
      next := merged;
    } else {
      next := merged + [item];
    }
  }

  method MergeOverlapping(space: set<char>, items: seq<ContextItem>, ghost values: seq<Item>,
      ghost place: map<ContextItem, nat>)
    returns (merged: seq<ContextItem>, ghost mergedPlace: map<ContextItem, nat>)
    requires Placed(items, place) && Holds(items, values)
    modifies place.Keys
    ensures Holds(merged, MergeAll(space, values))
    ensures Placed(merged, mergedPlace) && mergedPlace.Keys <= place.Keys
  {
    if items == [] {
      return [], map[];
    }
    merged, mergedPlace := [items[0]], map[items[0] := 0];
    ghost var done := [values[0]];
    assert values[..1] == [values[0]];
    for k := 1 to |items|
      invariant done == MergeAll(space, values[..k]) && Holds(merged, done)
      invariant merged != [] && Placed(merged, mergedPlace)
      invariant forall m :: m in mergedPlace ==> m in place && place[m] < k
      invariant forall i :: k <= i < |items| ==> items[i].Value() == values[i]
    {
      NextMerge(space, values, k);
      var next := AddItem(space, merged, items[k], done, mergedPlace);
      done := Add(space, done, values[k]);
      mergedPlace := if next == merged then mergedPlace else mergedPlace[items[k] := |merged|];
      merged := next;
    }
    assert values[..|items|] == values;
  }

  lemma NextMerge(space: set<char>, values: seq<Item>, k: nat)
    requires k < |values|
    ensures MergeAll(space, values[..k + 1]) == Add(space, MergeAll(space, values[..k]), values[k])
  {
    assert values[..k + 1] == values[..k] + [values[k]];
    MergeSnoc(space, values[..k], values[k]);
  }

  // ----- Building the context ----------------------------------------------------------------------------

  function Max(a: int, b: int): int { if a < b then b else a }

  /** The survivors of selection and cap. */
  function Survivors(ordered: seq<Item>, budget: int, cap: int): seq<Item> {
    var selected := Select(ordered, budget);
    if cap > 0 then Capped(selected, cap) else selected
  }

  lemma {:induction false} SelectCounted(space: set<char>, items: seq<Item>, budget: int)
    requires Counted(space, items)
    ensures Counted(space, Select(items, budget))
  {
    if items != [] {
      SelectCounted(space, items[..|items| - 1], budget);
      assert Exact(space, items[|items| - 1]);
    }
  }

  lemma {:induction false} CappedCounted(space: set<char>, items: seq<Item>, cap: int)
    requires Counted(space, items)
    ensures Counted(space, Capped(items, cap))
  {
    if items != [] {
      CappedCounted(space, items[..|items| - 1], cap);
      assert Exact(space, items[|items| - 1]);
    }
  }

  /** After merging the words stay within the budget, whatever the ordering. */
  lemma ContextFits(space: set<char>, ordered: seq<Item>, budget: int, cap: int)
    requires ' ' in space && Counted(space, ordered) && budget >= 0
    ensures Total(MergeAll(space, Survivors(ordered, budget, cap))) <= budget
    ensures Counted(space, MergeAll(space, Survivors(ordered, budget, cap)))
  {
    var selected := Select(ordered, budget);
    SelectFits(ordered, budget);
    SelectCounted(space, ordered, budget);
    CappedShrinks(selected, cap);
    CappedCounted(space, selected, cap);
    MergeShrinks(space, Survivors(ordered, budget, cap));
  }

  /** The items dropped, if any, were rejected by the budget or lie beyond their document's cap. */
  lemma SurvivorsDrop(ordered: seq<Item>, budget: int, cap: int)
    ensures |Survivors(ordered, budget, cap)| <= |ordered|
    ensures |Survivors(ordered, budget, cap)| == |ordered| ==> Survivors(ordered, budget, cap) == ordered
  {
    SelectDrops(ordered, budget);
    CappedDrops(Select(ordered, budget), cap);
  }

  method MakeItems(values: seq<Item>) returns (items: seq<ContextItem>, ghost place: map<ContextItem, nat>)
    ensures Holds(items, values) && Placed(items, place) && fresh(place.Keys)
  {
    items, place := [], map[];
    for k := 0 to |values|
      invariant Holds(items, values[..k]) && Placed(items, place) && fresh(place.Keys)
    {
      var item := new ContextItem(values[k]);
      items, place := items + [item], place[item := k];
    }
  }

  method AssignCitations(items: seq<ContextItem>, numeric: bool, ghost values: seq<Item>, ghost place: map<ContextItem, nat>)
    requires Placed(items, place) && Holds(items, values)
    modifies place.Keys
    ensures Holds(items, values)
    ensures forall i :: 0 <= i < |items| ==> items[i].citationId == if numeric then Some(i + 1) else None
  {
    for k := 0 to |items|
      invariant Holds(items, values)
      invariant forall i :: 0 <= i < k ==> items[i].citationId == if numeric then Some(i + 1) else None
    {
      items[k].citationId := if numeric then Some(k + 1) else None;
    }
  }

  /** What the context holds, for any order of the candidates. */
  function Context(space: set<char>, ordered: seq<Item>, tokenBudget: int, reserve: int, cap: int): seq<Item> {
    MergeAll(space, Survivors(ordered, Max(0, tokenBudget - reserve), cap))
  }

  /** The candidates that survive: those picked, as far as their document's cap allows. */
  ghost function Surviving(ordered: seq<Item>, picked: set<nat>, cap: int): set<nat> {
    if cap > 0 then WithinCap(ordered, picked, cap) else picked
  }

  /** A candidate that does not survive exceeds the budget left, or has `cap` of its document before it. */
  ghost predicate Accounted(ordered: seq<Item>, budget: int, cap: int, picked: set<nat>) {
    && Greedy(ordered, budget, picked, |ordered|)
    && Survivors(ordered, budget, cap) == At(ordered, Surviving(ordered, picked, cap), |ordered|)
    && forall i :: 0 <= i < |ordered| && i !in Surviving(ordered, picked, cap) ==>
         || ordered[i].tokens > budget - Total(Select(ordered, budget))
         || (cap > 0 && SameBefore(ordered, picked, ordered[i].documentId, i) >= cap)
  }

  lemma SurvivorsAccounted(ordered: seq<Item>, budget: int, cap: int, picked: set<nat>)
    requires Greedy(ordered, budget, picked, |ordered|) && Select(ordered, budget) == At(ordered, picked, |ordered|)
    ensures Accounted(ordered, budget, cap, picked)
  {
    CappedIsWithin(ordered, picked, cap, |ordered|);
    forall i | 0 <= i < |ordered| && i !in Surviving(ordered, picked, cap)
      ensures || ordered[i].tokens > budget - Total(Select(ordered, budget))
              || (cap > 0 && SameBefore(ordered, picked, ordered[i].documentId, i) >= cap)
    {
      if i !in picked {
        RejectedNeverFits(ordered, budget, picked, i);
      }
    }
  }

  /** An order keeps exact counts. */
  lemma OrderCounted(space: set<char>, items: seq<Item>, ordered: seq<Item>)
    requires Counted(space, items) && multiset(ordered) == multiset(items)
    ensures Counted(space, ordered)
  {
    forall i | 0 <= i < |ordered| ensures Exact(space, ordered[i]) {
      assert ordered[i] in multiset(items);
    }
  }

  /** The pipeline from ordering on, refused for an unknown strategy: the context is within the budget
      left for it, holds every survivor's words, and is marked truncated exactly when a candidate was
      dropped. */
  method Build(space: set<char>, candidates: seq<Item>, strategy: string, tokenBudget: int, reserve: int, cap: int,
      numeric: bool)
    returns (context: Option<seq<ContextItem>>, truncated: bool, ghost picked: set<nat>)
    requires ' ' in space && Counted(space, candidates)
    ensures context.Some? <==> Strategies.OrderBy(candidates, strategy).Some?
    ensures context.Some? ==>
              var ordered, items := Strategies.OrderBy(candidates, strategy).value, context.value;
              var kept := Survivors(ordered, Max(0, tokenBudget - reserve), cap);
              var merged := Context(space, ordered, tokenBudget, reserve, cap);
              && Holds(items, merged) && Accounted(ordered, Max(0, tokenBudget - reserve), cap, picked)
              && (forall i :: 0 <= i < |kept| ==> KeptIn(space, kept[i].text, merged))
              && (truncated <==> kept != ordered)
              && Total(merged) <= Max(0, tokenBudget - reserve) && Counted(space, merged)
              && forall i :: 0 <= i < |items| ==> items[i].citationId == if numeric then Some(i + 1) else None
  {
    var order := Strategies.OrderByStrategy(candidates, strategy);
    if order.None? {
      return None, false, {};
    }
    OrderCounted(space, candidates, order.value);
    var items;
    items, truncated, picked := Assemble(space, order.value, Max(0, tokenBudget - reserve), cap, numeric);
    context := Some(items);
    ContextFits(space, order.value, Max(0, tokenBudget - reserve), cap);
    SurvivorsKept(space, order.value, Max(0, tokenBudget - reserve), cap);
  }

  lemma SurvivorsKept(space: set<char>, ordered: seq<Item>, budget: int, cap: int)
    requires ' ' in space
    ensures var kept := Survivors(ordered, budget, cap);
            forall i :: 0 <= i < |kept| ==> KeptIn(space, kept[i].text, MergeAll(space, kept))
  {
    var kept := Survivors(ordered, budget, cap);
    forall i | 0 <= i < |kept| ensures KeptIn(space, kept[i].text, MergeAll(space, kept)) {
      MergeKeeps(space, kept, i);
    }
  }

  /** Selection, cap, merging in place and citations. */
  method Assemble(space: set<char>, ordered: seq<Item>, budget: int, cap: int, numeric: bool)
    returns (items: seq<ContextItem>, truncated: bool, ghost picked: set<nat>)
    ensures Holds(items, MergeAll(space, Survivors(ordered, budget, cap)))
    ensures Accounted(ordered, budget, cap, picked)
    ensures truncated <==> Survivors(ordered, budget, cap) != ordered
    ensures forall i :: 0 <= i < |items| ==> items[i].citationId == if numeric then Some(i + 1) else None
  {
    var selected, budgetDropped;
    selected, budgetDropped, picked := GreedySelect(ordered, budget);
    SurvivorsAccounted(ordered, budget, cap, picked);
    var capDropped := false;
    SelectDrops(ordered, budget);
    CappedDrops(selected, cap);
    if cap > 0 {
      selected, capDropped := CapPerDocument(selected, cap);
    }
    truncated := budgetDropped || capDropped;
    SurvivorsDrop(ordered, budget, cap);
    ghost var place, mergedPlace;
    var objects;
    objects, place := MakeItems(selected);
    items, mergedPlace := MergeOverlapping(space, objects, selected, place);
    AssignCitations(items, numeric, MergeAll(space, selected), mergedPlace);
  }
}
