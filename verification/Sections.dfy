/** The sections of rag-embedder's structural chunker: a stack of open headings gives every stretch of
    text between headings its path.
 */
module Sections {
  import Sorting

  /** A match of the Markdown or of the HTML heading pattern. */
  datatype Heading = Heading(level: int, title: string, start: nat, end: nat)

  datatype Section = Section(path: seq<string>, start: nat, end: nat)

  function ByStart(): (Heading, Heading) -> bool {
    (a: Heading, b: Heading) => a.start <= b.start
  }

  /** Matches are not empty and lie in a text of n characters. */
  ghost predicate Matches(hs: seq<Heading>, n: nat) {
    forall i :: 0 <= i < |hs| ==> hs[i].start < hs[i].end <= n
  }

  ghost predicate InOrder(hs: seq<Heading>) {
    forall i, j :: 0 <= i < j < |hs| ==> hs[i].start <= hs[j].start
  }

  // ----- The path after a heading --------------------------------------------------------------------

  function LevelOf(hs: seq<Heading>, i: nat): int { if i < |hs| then hs[i].level else 0 }

  function TitleOf(hs: seq<Heading>, i: nat): string { if i < |hs| then hs[i].title else "" }

  /** Every heading after i up to j is strictly deeper, so j is inside the section of i. */
  ghost predicate Encloses(hs: seq<Heading>, i: nat, j: nat) {
    i <= j && forall k: nat :: i < k <= j ==> LevelOf(hs, k) > LevelOf(hs, i)
  }

  /** The stack without the headings that are not shallower than `level`. */
  function Pop(hs: seq<Heading>, stack: seq<nat>, level: int): seq<nat> {
    if stack == [] || LevelOf(hs, stack[|stack| - 1]) < level then stack else Pop(hs, stack[..|stack| - 1], level)
  }

  /** The stack after the first j headings, as indices. */
  function Stack(hs: seq<Heading>, j: nat): seq<nat> {
    if j == 0 then [] else Pop(hs, Stack(hs, j - 1), LevelOf(hs, j - 1)) + [j - 1]
  }

  /** Indices and levels grow along the stack. */
  ghost predicate Rises(hs: seq<Heading>, stack: seq<nat>) {
    forall a, b :: 0 <= a < b < |stack| ==> stack[a] < stack[b] && LevelOf(hs, stack[a]) < LevelOf(hs, stack[b])
  }

  lemma {:induction false} PopRises(hs: seq<Heading>, stack: seq<nat>, level: int, j: nat)
    requires Rises(hs, stack) && forall a :: 0 <= a < |stack| ==> stack[a] < j
    ensures var left := Pop(hs, stack, level);
            Rises(hs, left) && forall a :: 0 <= a < |left| ==> left[a] < j && LevelOf(hs, left[a]) < level
  {
    if stack == [] {
    } else if LevelOf(hs, stack[|stack| - 1]) >= level {
      PopRises(hs, stack[..|stack| - 1], level, j);
    } else {
      forall a | 0 <= a < |stack| - 1 ensures LevelOf(hs, stack[a]) < level {
        assert LevelOf(hs, stack[a]) < LevelOf(hs, stack[|stack| - 1]);
      }
    }
  }

  /** Popping removes exactly the headings that are not shallower. */
  lemma {:induction false} PopKeepsShallower(hs: seq<Heading>, stack: seq<nat>, level: int, i: nat)
    requires Rises(hs, stack)
    ensures i in Pop(hs, stack, level) <==> i in stack && LevelOf(hs, i) < level
  {
    if stack == [] {
    } else if LevelOf(hs, stack[|stack| - 1]) >= level {
      PopKeepsShallower(hs, stack[..|stack| - 1], level, i);
      assert stack == stack[..|stack| - 1] + [stack[|stack| - 1]];
    } else if i in stack {
      var a :| 0 <= a < |stack| && stack[a] == i;
      assert a < |stack| - 1 ==> LevelOf(hs, stack[a]) < LevelOf(hs, stack[|stack| - 1]);
    }
  }

  lemma {:induction false} StackRises(hs: seq<Heading>, j: nat)
    ensures Rises(hs, Stack(hs, j))
    ensures forall a :: 0 <= a < |Stack(hs, j)| ==> Stack(hs, j)[a] < j
  {
    if j > 0 {
      StackRises(hs, j - 1);
      PopRises(hs, Stack(hs, j - 1), LevelOf(hs, j - 1), j - 1);
    }
  }

  lemma EnclosesStep(hs: seq<Heading>, i: nat, j: nat)
    requires 0 < j
    ensures Encloses(hs, i, j) <==> i == j || (Encloses(hs, i, j - 1) && LevelOf(hs, j) > LevelOf(hs, i))
  {
  }

  /** Heading i is on the path after heading j - 1 exactly when every heading between them, j - 1
      included, is strictly deeper than i. */
  lemma {:induction false} StackIsPath(hs: seq<Heading>, j: nat, i: nat)
    ensures i in Stack(hs, j) <==> i < j && Encloses(hs, i, j - 1)
  {
    if j > 1 {
      var before := Stack(hs, j - 1);
      StackIsPath(hs, j - 1, i);
      StackRises(hs, j - 1);
      PopKeepsShallower(hs, before, LevelOf(hs, j - 1), i);
      EnclosesStep(hs, i, j - 1);
    }
  }

  function Titles(hs: seq<Heading>, stack: seq<nat>): seq<string> {
    if stack == [] then [] else Titles(hs, stack[..|stack| - 1]) + [TitleOf(hs, stack[|stack| - 1])]
  }

  /** The titles on the path, outermost first. */
  function Path(hs: seq<Heading>, j: nat): seq<string> { Titles(hs, Stack(hs, j)) }

  // ----- The sections ------------------------------------------------------------------------------------

  /** Where the text after the first j headings begins. */
  function After(hs: seq<Heading>, j: nat): nat
    requires j <= |hs|
  {
    if j == 0 then 0 else hs[j - 1].end
  }

  /** The stretch before heading j, or before the end of the text. */
  function Gap(hs: seq<Heading>, j: nat, n: nat): seq<Section>
    requires j <= |hs|
  {
    var end := if j < |hs| then hs[j].start else n;
    if end > After(hs, j) then [Section(Path(hs, j), After(hs, j), end)] else []
  }

  function SectionsBefore(hs: seq<Heading>, j: nat, n: nat): seq<Section>
    requires j <= |hs| + 1
  {
    if j == 0 then [] else SectionsBefore(hs, j - 1, n) + Gap(hs, j - 1, n)
  }

  /** The sections of a text of n characters with these headings. */
  function SectionsOf(hs: seq<Heading>, n: nat): seq<Section> {
    if hs == [] then [Section([], 0, n)] else SectionsBefore(hs, |hs| + 1, n)
  }

  /** Not empty, one after the other, none beyond hi. */
  ghost predicate Ordered(sections: seq<Section>, hi: nat) {
    && (forall a :: 0 <= a < |sections| ==> sections[a].start < sections[a].end <= hi)
    && (forall a, b :: 0 <= a < b < |sections| ==> sections[a].end <= sections[b].start)
  }

  /** Where the sections before heading j end at the latest. */
  function Bound(hs: seq<Heading>, j: nat, n: nat): nat
    requires j <= |hs| + 1
  {
    if j == 0 then 0 else if j <= |hs| then hs[j - 1].start else n
  }

  lemma BoundsAscend(hs: seq<Heading>, j: nat, n: nat)
    requires Matches(hs, n) && InOrder(hs) && 0 < j <= |hs| + 1
    ensures Bound(hs, j - 1, n) <= After(hs, j - 1)
    ensures Bound(hs, j - 1, n) <= Bound(hs, j, n)
  {
  }

  /** The sections before heading j end no later than it starts, even where matches overlap. */
  lemma {:induction false} SectionsAscend(hs: seq<Heading>, j: nat, n: nat)
    requires Matches(hs, n) && InOrder(hs) && j <= |hs| + 1
    ensures Ordered(SectionsBefore(hs, j, n), Bound(hs, j, n))
  {
    if j > 0 {
      SectionsAscend(hs, j - 1, n);
      BoundsAscend(hs, j, n);
      GapOrdered(SectionsBefore(hs, j - 1, n), Gap(hs, j - 1, n), Bound(hs, j - 1, n), After(hs, j - 1), Bound(hs, j, n));
    }
  }

  lemma GapOrdered(before: seq<Section>, gap: seq<Section>, lo: nat, start: nat, hi: nat)
    requires Ordered(before, lo) && lo <= start && lo <= hi
    requires gap == [] || (|gap| == 1 && gap[0].start == start < gap[0].end == hi)
    ensures Ordered(before + gap, hi)
  {
  }

  ghost predicate Within(sections: seq<Section>, c: nat) {
    exists k :: 0 <= k < |sections| && sections[k].start <= c < sections[k].end
  }

  ghost predicate InHeading(hs: seq<Heading>, c: nat) {
    exists k :: 0 <= k < |hs| && hs[k].start <= c < hs[k].end
  }

  lemma WithinEither(xs: seq<Section>, ys: seq<Section>, c: nat)
    requires Within(xs, c) || Within(ys, c)
    ensures Within(xs + ys, c)
  {
    if Within(xs, c) {
      var k :| 0 <= k < |xs| && xs[k].start <= c < xs[k].end;
      assert (xs + ys)[k] == xs[k];
    } else {
      var k :| 0 <= k < |ys| && ys[k].start <= c < ys[k].end;
      assert (xs + ys)[|xs| + k] == ys[k];
    }
  }

  lemma {:induction false} GapIncluded(hs: seq<Heading>, i: nat, j: nat, n: nat, c: nat)
    requires i < j <= |hs| + 1 && Within(Gap(hs, i, n), c)
    ensures Within(SectionsBefore(hs, j, n), c)
  {
    if i < j - 1 {
      GapIncluded(hs, i, j - 1, n, c);
    }
    WithinEither(SectionsBefore(hs, j - 1, n), Gap(hs, j - 1, n), c);
  }

  /** How many headings start at or before c. */
  function Started(hs: seq<Heading>, c: nat): (j: nat)
    ensures j <= |hs|
  {
    if hs == [] || hs[|hs| - 1].start <= c then |hs| else Started(hs[..|hs| - 1], c)
  }

  lemma {:induction false} StartedSplits(hs: seq<Heading>, c: nat)
    ensures var j := Started(hs, c);
            (j > 0 ==> hs[j - 1].start <= c) && (j < |hs| ==> hs[j].start > c)
  {
    if hs != [] && hs[|hs| - 1].start > c {
      StartedSplits(hs[..|hs| - 1], c);
    }
  }

  /** A character outside all heading matches is in the gap after the last heading that starts before it. */
  lemma InGap(hs: seq<Heading>, n: nat, c: nat) returns (j: nat)
    requires c < n && !InHeading(hs, c)
    ensures j <= |hs| && Within(Gap(hs, j, n), c)
  {
    j := Started(hs, c);
    StartedSplits(hs, c);
    if j > 0 {
      assert !(hs[j - 1].start <= c < hs[j - 1].end);
    }
    assert Gap(hs, j, n)[0].start <= c < Gap(hs, j, n)[0].end;
  }

  /** Every character lies in a section or in a heading match. */
  lemma SectionsCover(hs: seq<Heading>, n: nat, c: nat)
    requires c < n
    ensures Within(SectionsOf(hs, n), c) || InHeading(hs, c)
  {
    if hs == [] {
      assert SectionsOf(hs, n)[0].start <= c < SectionsOf(hs, n)[0].end;
    } else if !InHeading(hs, c) {
      var j := InGap(hs, n, c);
      GapIncluded(hs, j, |hs| + 1, n, c);
    }
  }

  /** Sections of a non-empty text are not empty, follow one another without overlap and stay in it. */
  lemma SectionsDisjoint(hs: seq<Heading>, n: nat)
    requires Matches(hs, n) && InOrder(hs) && n > 0
    ensures Ordered(SectionsOf(hs, n), n)
  {
    SectionsAscend(hs, |hs| + 1, n);
  }

  lemma {:induction false} TitlesAt(hs: seq<Heading>, stack: seq<nat>)
    requires forall k :: 0 <= k < |stack| ==> stack[k] < |hs|
    ensures |Titles(hs, stack)| == |stack|
    ensures forall k :: 0 <= k < |stack| ==> Titles(hs, stack)[k] == hs[stack[k]].title
  {
    if stack != [] {
      TitlesAt(hs, stack[..|stack| - 1]);
    }
  }

  /** Heading m is still open where heading i - 1 has been read: all headings after it, up to that one,
      are strictly deeper. */
  ghost predicate Open(hs: seq<Heading>, m: nat, i: nat)
    requires i <= |hs|
  {
    m < i && forall k :: m < k < i ==> hs[k].level > hs[m].level
  }

  /** A section from heading i - 1, or the beginning, to heading i, or the end; its path lists the titles
      of the open headings in document order. */
  ghost predicate IsSection(hs: seq<Heading>, n: nat, s: Section, i: nat, stack: seq<nat>) {
    && i <= |hs|
    && s.start == (if i == 0 then 0 else hs[i - 1].end) && s.end == (if i == |hs| then n else hs[i].start)
    && (forall m: nat :: m in stack <==> Open(hs, m, i))
    && (forall a, b :: 0 <= a < b < |stack| ==> stack[a] < stack[b])
    && |s.path| == |stack| && forall k :: 0 <= k < |stack| ==> stack[k] < |hs| && s.path[k] == hs[stack[k]].title
  }

  lemma StackIsOpen(hs: seq<Heading>, i: nat, m: nat)
    requires i <= |hs|
    ensures m in Stack(hs, i) <==> Open(hs, m, i)
  {
    StackIsPath(hs, i, m);
    if m < i {
      assert Encloses(hs, m, i - 1) <==> forall k: nat :: m < k <= i - 1 ==> LevelOf(hs, k) > LevelOf(hs, m);
      assert forall k: nat :: k < |hs| ==> LevelOf(hs, k) == hs[k].level;
    }
  }

  lemma GapIsSection(hs: seq<Heading>, n: nat, s: Section, i: nat)
    requires i <= |hs| && Gap(hs, i, n) == [s]
    ensures IsSection(hs, n, s, i, Stack(hs, i))
  {
    assert s == Section(Path(hs, i), After(hs, i), if i < |hs| then hs[i].start else n);
    StackRises(hs, i);
    TitlesAt(hs, Stack(hs, i));
    forall m: nat ensures m in Stack(hs, i) <==> Open(hs, m, i) {
      StackIsOpen(hs, i, m);
    }
  }

  /** Every section is of this kind. */
  lemma SectionMeans(hs: seq<Heading>, n: nat, a: nat) returns (i: nat, stack: seq<nat>)
    requires a < |SectionsOf(hs, n)|
    ensures IsSection(hs, n, SectionsOf(hs, n)[a], i, stack)
  {
    if hs == [] {
      i, stack := 0, [];
    } else {
      i := SectionsArePaths(hs, |hs| + 1, n, a);
      stack := Stack(hs, i);
      GapIsSection(hs, n, SectionsOf(hs, n)[a], i);
    }
  }

  /** What a section is: the stretch after a heading, or before the first one, up to the next, with
      the titles of the headings that enclose it. */
  lemma {:induction false} SectionsArePaths(hs: seq<Heading>, j: nat, n: nat, a: nat) returns (i: nat)
    requires j <= |hs| + 1 && a < |SectionsBefore(hs, j, n)|
    ensures i < j && Gap(hs, i, n) == [SectionsBefore(hs, j, n)[a]]
  {
    AtEnd(SectionsBefore(hs, j - 1, n), Gap(hs, j - 1, n), a);
    if a < |SectionsBefore(hs, j - 1, n)| {
      i := SectionsArePaths(hs, j - 1, n, a);
    } else {
      i := j - 1;
    }
  }

  lemma AtEnd(before: seq<Section>, gap: seq<Section>, a: nat)
    requires a < |before + gap| && |gap| <= 1
    ensures if a < |before| then (before + gap)[a] == before[a] else gap == [(before + gap)[a]]
  {
  }

  // ----- The loop ------------------------------------------------------------------------------------------

  datatype Entry = Entry(level: int, title: string)

  function Entries(hs: seq<Heading>, stack: seq<nat>): (es: seq<Entry>)
    ensures |es| == |stack|
  {
    if stack == [] then []
    else
      var top := stack[|stack| - 1];
      Entries(hs, stack[..|stack| - 1]) + [Entry(LevelOf(hs, top), TitleOf(hs, top))]
  }

  function TitlesOf(stack: seq<Entry>): seq<string> {
    if stack == [] then [] else TitlesOf(stack[..|stack| - 1]) + [stack[|stack| - 1].title]
  }

  lemma {:induction false} EntriesTitles(hs: seq<Heading>, stack: seq<nat>)
    ensures TitlesOf(Entries(hs, stack)) == Titles(hs, stack)
  {
    if stack != [] {
      EntriesTitles(hs, stack[..|stack| - 1]);
      assert Entries(hs, stack)[..|stack| - 1] == Entries(hs, stack[..|stack| - 1]);
    }
  }

  method PopAndPush(hs: seq<Heading>, ghost below: seq<nat>, stack: seq<Entry>, j: nat) returns (next: seq<Entry>)
    requires j < |hs| && below == Stack(hs, j) && stack == Entries(hs, below)
    ensures next == Entries(hs, Stack(hs, j + 1))
  {
    next := stack;
    ghost var left := below;
    while next != [] && next[|next| - 1].level >= hs[j].level
      invariant next == Entries(hs, left)
      invariant Pop(hs, left, hs[j].level) == Pop(hs, below, hs[j].level)
      decreases |left|
    {
      assert next[..|next| - 1] == Entries(hs, left[..|left| - 1]);
      next, left := next[..|next| - 1], left[..|left| - 1];
    }
    ghost var top := left + [j];
    assert top[..|left|] == left;
    next := next + [Entry(hs[j].level, hs[j].title)];
  }

  /** All heading matches in order of their start, Markdown before HTML at the same place. */
  function Headings(markdown: seq<Heading>, html: seq<Heading>): seq<Heading> {
    Sorting.Sort(ByStart(), markdown + html)
  }

  lemma HeadingsInOrder(markdown: seq<Heading>, html: seq<Heading>, n: nat)
    requires Matches(markdown, n) && Matches(html, n)
    ensures var hs := Headings(markdown, html);
            multiset(hs) == multiset(markdown) + multiset(html) && Matches(hs, n) && InOrder(hs)
  {
    var all := markdown + html;
    var hs := Headings(markdown, html);
    Sorting.SortPermutes(ByStart(), all);
    Sorting.SortSorts(ByStart(), all);
    forall i | 0 <= i < |hs| ensures hs[i].start < hs[i].end <= n {
      assert hs[i] in multiset(hs);
      assert hs[i] in all;
    }
  }

  /** The sections of a text of n characters, from its Markdown and its HTML heading matches. */
  method FindSections(n: nat, markdown: seq<Heading>, html: seq<Heading>) returns (sections: seq<Section>)
    ensures sections == SectionsOf(Headings(markdown, html), n)
  {
    var raw := Sorting.Sort(ByStart(), markdown + html);
    if raw == [] {
      return [Section([], 0, n)];
    }
    sections := [];
    var stack: seq<Entry> := [];
    var stackTop: seq<string> := [];
    var pos := 0;
    for j := 0 to |raw|
      invariant sections == SectionsBefore(raw, j, n) && pos == After(raw, j)
      invariant stack == Entries(raw, Stack(raw, j)) && stackTop == Path(raw, j)
    {
      var h := raw[j];
      if h.start > pos {
        sections := sections + [Section(stackTop, pos, h.start)];
      }
      stack := PopAndPush(raw, Stack(raw, j), stack, j);
      EntriesTitles(raw, Stack(raw, j + 1));
      stackTop := TitlesOf(stack);
      pos := h.end;
    }
    if pos < n {
      sections := sections + [Section(stackTop, pos, n)];
    }
  }
}
