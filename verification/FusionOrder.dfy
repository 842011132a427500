/** Fusion does not depend on completion order. */
module FusionOrder {
  import opened Options
  import opened Permutation
  import opened Fusion
  import Executor
  import Sorting

  /* Neither the fused score of any chunk nor the best scores change with the order in which the
     retrievals complete. */

  // ----- Chunk scores ----------------------------------------------------------------------------------

  function ScoreInList(m: Method, chunk: int): Source -> real {
    (s: Source) => ScoreIn(ListTerms(m, s), chunk)
  }

  lemma {:induction false} ScoreConcat(xs: seq<Term>, ys: seq<Term>, chunk: int)
    ensures ScoreIn(xs + ys, chunk) == ScoreIn(xs, chunk) + ScoreIn(ys, chunk)
    ensures Mentions(xs + ys, chunk) <==> Mentions(xs, chunk) || Mentions(ys, chunk)
  {
    if ys == [] {
      assert xs + ys == xs;
    } else {
      ScoreConcat(xs, ys[..|ys| - 1], chunk);
      assert (xs + ys)[..|xs + ys| - 1] == xs + ys[..|ys| - 1];
    }
  }

  lemma {:induction false} SumSnoc<T>(f: T -> real, xs: seq<T>, x: T)
    ensures Sum(f, xs + [x]) == Sum(f, xs) + f(x)
  {
    if xs == [] {
      assert xs + [x] == [x] && [x][1..] == [];
    } else {
      SumSnoc(f, xs[1..], x);
      assert (xs + [x])[1..] == xs[1..] + [x];
    }
  }

  /** A chunk's score is the sum of its scores in the lists. */
  lemma {:induction false} ScoreIsSum(m: Method, sources: seq<Source>, chunk: int)
    ensures ScoreIn(AllTerms(m, sources), chunk) == Sum(ScoreInList(m, chunk), sources)
  {
    if sources != [] {
      var front, last := sources[..|sources| - 1], sources[|sources| - 1];
      ScoreIsSum(m, front, chunk);
      ScoreConcat(AllTerms(m, front), ListTerms(m, last), chunk);
      SumSnoc(ScoreInList(m, chunk), front, last);
      assert sources == front + [last];
    }
  }

  /** Every chunk has the same fused score in any order of the lists. */
  lemma SameScore(m: Method, p: seq<Source>, q: seq<Source>, chunk: int)
    requires multiset(p) == multiset(q)
    ensures ScoreIn(AllTerms(m, p), chunk) == ScoreIn(AllTerms(m, q), chunk)
  {
    ScoreIsSum(m, p, chunk);
    ScoreIsSum(m, q, chunk);
    SumPermutes(ScoreInList(m, chunk), p, q);
  }

  lemma {:induction false} MentionedIn(m: Method, sources: seq<Source>, chunk: int)
    ensures Mentions(AllTerms(m, sources), chunk) <==>
            exists i :: 0 <= i < |sources| && Mentions(ListTerms(m, sources[i]), chunk)
  {
    if sources != [] {
      var front, last := sources[..|sources| - 1], sources[|sources| - 1];
      MentionedIn(m, front, chunk);
      ScoreConcat(AllTerms(m, front), ListTerms(m, last), chunk);
      assert sources[|sources| - 1] == last;
      assert forall i :: 0 <= i < |front| ==> front[i] == sources[i];
    }
  }

  lemma MentionedOther(m: Method, p: seq<Source>, q: seq<Source>, chunk: int)
    requires multiset(p) == multiset(q) && Mentions(AllTerms(m, p), chunk)
    ensures Mentions(AllTerms(m, q), chunk)
  {
    MentionedIn(m, p, chunk);
    MentionedIn(m, q, chunk);
    var i :| 0 <= i < |p| && Mentions(ListTerms(m, p[i]), chunk);
    assert p[i] in multiset(q);
    var j :| 0 <= j < |q| && q[j] == p[i];
    assert Mentions(ListTerms(m, q[j]), chunk);
  }

  // ----- The best scores -----------------------------------------------------------------------------

  function ScoreFn(): Entry -> real { (e: Entry) => e.score }

  /** The number of times a chunk is among the first n keys of a table. */
  lemma {:induction false} KeyCount(t: Table, terms: seq<Term>, n: nat, chunk: int)
    requires Tabulated(t, terms) && n <= |t.keys|
    ensures multiset(t.keys[..n])[chunk] == if chunk in t.rows && t.rows[chunk].order < n then 1 else 0
  {
    if n > 0 {
      KeyCount(t, terms, n - 1, chunk);
      assert t.keys[..n] == t.keys[..n - 1] + [t.keys[n - 1]];
    }
  }

  lemma SameKeys(m: Method, p: seq<Source>, q: seq<Source>)
    requires multiset(p) == multiset(q)
    ensures multiset(TableOf(AllTerms(m, p)).keys) == multiset(TableOf(AllTerms(m, q)).keys)
  {
    var x, y := AllTerms(m, p), AllTerms(m, q);
    var s, t := TableOf(x), TableOf(y);
    TableTabulates(x);
    TableTabulates(y);
    forall chunk: int ensures multiset(s.keys)[chunk] == multiset(t.keys)[chunk] {
      KeyCount(s, x, |s.keys|, chunk);
      KeyCount(t, y, |t.keys|, chunk);
      assert s.keys[..|s.keys|] == s.keys && t.keys[..|t.keys|] == t.keys;
      if Mentions(x, chunk) {
        MentionedOther(m, p, q, chunk);
      }
      if Mentions(y, chunk) {
        MentionedOther(m, q, p, chunk);
      }
    }
  }

  function ScoreOver(terms: seq<Term>): int -> real { (chunk: int) => ScoreIn(terms, chunk) }

  lemma {:induction false} MapSnoc<T, U>(f: T -> U, xs: seq<T>, x: T)
    ensures Map(f, xs + [x]) == Map(f, xs) + [f(x)]
  {
    if xs == [] {
      assert xs + [x] == [x] && [x][1..] == [];
    } else {
      MapSnoc(f, xs[1..], x);
      assert (xs + [x])[1..] == xs[1..] + [x];
    }
  }

  /** The scores of the merged entries are the scores of the chunks. */
  lemma {:induction false} EntryScores(terms: seq<Term>, n: nat)
    requires n <= |TableOf(terms).keys|
    ensures Map(ScoreFn(), EntriesOf(TableOf(terms), n)) == Map(ScoreOver(terms), TableOf(terms).keys[..n])
  {
    var t := TableOf(terms);
    if n > 0 {
      TableTabulates(terms);
      EntryScores(terms, n - 1);
      MapSnoc(ScoreFn(), EntriesOf(t, n - 1), EntryOf(t, t.keys[n - 1]));
      MapSnoc(ScoreOver(terms), t.keys[..n - 1], t.keys[n - 1]);
      assert t.keys[..n] == t.keys[..n - 1] + [t.keys[n - 1]];
    }
  }

  lemma {:induction false} MapSame(f: int -> real, g: int -> real, xs: seq<int>)
    requires forall x :: f(x) == g(x)
    ensures Map(f, xs) == Map(g, xs)
  {
    if xs != [] {
      MapSame(f, g, xs[1..]);
    }
  }

  lemma MergedScores(m: Method, p: seq<Source>, q: seq<Source>)
    requires multiset(p) == multiset(q)
    ensures multiset(Map(ScoreFn(), Entries(AllTerms(m, p), true))) == multiset(Map(ScoreFn(), Entries(AllTerms(m, q), true)))
  {
    var x, y := AllTerms(m, p), AllTerms(m, q);
    var s, t := TableOf(x).keys, TableOf(y).keys;
    EntryScores(x, |s|);
    EntryScores(y, |t|);
    assert s[..|s|] == s && t[..|t|] == t;
    SameKeys(m, p, q);
    MapPermutes(ScoreOver(x), s, t);
    forall chunk ensures ScoreOver(x)(chunk) == ScoreOver(y)(chunk) {
      SameScore(m, p, q, chunk);
    }
    MapSame(ScoreOver(x), ScoreOver(y), t);
  }

  function ValueFn(): Term -> real { (t: Term) => t.value }

  lemma {:induction false} SingleScores(terms: seq<Term>)
    ensures Map(ScoreFn(), SingleEntries(terms)) == Map(ValueFn(), terms)
  {
    if terms != [] {
      var n := |terms| - 1;
      SingleScores(terms[..n]);
      var last := Entry(terms[n].value, n, terms[n].hit, [(terms[n].strategy, terms[n].value)]);
      MapSnoc(ScoreFn(), SingleEntries(terms[..n]), last);
      MapSnoc(ValueFn(), terms[..n], terms[n]);
      assert terms == terms[..n] + [terms[n]];
    }
  }

  lemma {:induction false} AllTermsCons(m: Method, source: Source, sources: seq<Source>)
    ensures AllTerms(m, [source] + sources) == ListTerms(m, source) + AllTerms(m, sources)
  {
    var all := [source] + sources;
    if sources == [] {
      assert all[..0] == [];
    } else {
      var front, last := sources[..|sources| - 1], sources[|sources| - 1];
      AllTermsCons(m, source, front);
      assert all[..|all| - 1] == [source] + front;
      assert (ListTerms(m, source) + AllTerms(m, front)) + ListTerms(m, last) ==
             ListTerms(m, source) + (AllTerms(m, front) + ListTerms(m, last));
    }
  }

  lemma {:induction false} AllTermsWithout(m: Method, source: Source, sources: seq<Source>)
    requires source in sources
    ensures multiset(AllTerms(m, sources)) == multiset(ListTerms(m, source)) + multiset(AllTerms(m, Without(source, sources)))
  {
    var first, rest := sources[0], sources[1..];
    AllTermsCons(m, first, rest);
    assert sources == [first] + rest;
    if first != source {
      AllTermsWithout(m, source, rest);
      AllTermsCons(m, first, Without(source, rest));
    }
  }

  /** The terms themselves are the same, counted with multiplicity. */
  lemma {:induction false} SameTerms(m: Method, p: seq<Source>, q: seq<Source>)
    requires multiset(p) == multiset(q)
    ensures multiset(AllTerms(m, p)) == multiset(AllTerms(m, q))
  {
    if p == [] {
      Emptied(p, q);
    } else {
      TailsPermute(p, q);
      assert p == [p[0]] + p[1..];
      AllTermsCons(m, p[0], p[1..]);
      SameTerms(m, p[1..], Without(p[0], q));
      AllTermsWithout(m, p[0], q);
    }
  }

  lemma SingleScoresPermute(m: Method, p: seq<Source>, q: seq<Source>)
    requires multiset(p) == multiset(q)
    ensures multiset(Map(ScoreFn(), Entries(AllTerms(m, p), false))) == multiset(Map(ScoreFn(), Entries(AllTerms(m, q), false)))
  {
    SingleScores(AllTerms(m, p));
    SingleScores(AllTerms(m, q));
    SameTerms(m, p, q);
    MapPermutes(ValueFn(), AllTerms(m, p), AllTerms(m, q));
  }

  lemma ByScoreIsTotal()
    ensures Sorting.TotalOrder(ByScore())
  {
    var leq := ByScore();
    forall a, b, c | leq(a, b) && leq(b, c) ensures leq(a, c) {
    }
    forall a, b ensures leq(a, b) || leq(b, a) {
    }
  }

  /** The sorted entries have their scores in descending order. */
  lemma SortedScores(entries: seq<Entry>)
    ensures var scores := Map(ScoreFn(), Sorting.Sort(ByScore(), entries));
            Descending(scores) && multiset(scores) == multiset(Map(ScoreFn(), entries))
  {
    var sorted := Sorting.Sort(ByScore(), entries);
    var scores := Map(ScoreFn(), sorted);
    ByScoreIsTotal();
    Sorting.SortSorts(ByScore(), entries);
    Sorting.SortPermutes(ByScore(), entries);
    MapPermutes(ScoreFn(), sorted, entries);
    forall i, j | 0 <= i < j < |scores| ensures scores[i] >= scores[j] {
      MapAt(ScoreFn(), sorted, i);
      MapAt(ScoreFn(), sorted, j);
      assert ByScore()(sorted[i], sorted[j]);
    }
  }

  lemma {:induction false} MapTop<T, U>(f: T -> U, xs: seq<T>, n: nat)
    requires n <= |xs|
    ensures Map(f, xs[..n]) == Map(f, xs)[..n]
  {
    if n > 0 {
      MapTop(f, xs[1..], n - 1);
      assert xs[..n][0] == xs[0] && xs[..n][1..] == xs[1..][..n - 1];
    } else {
      assert xs[..0] == [];
    }
  }

  /** The scores kept are the same, in the same order: only which of two equally scored chunks comes
      first may depend on the order of the lists. */
  lemma SameTopScores(m: Method, p: seq<Source>, q: seq<Source>, topK: int, dedup: bool)
    requires multiset(p) == multiset(q)
    ensures Map(ScoreFn(), Kept(Entries(AllTerms(m, p), dedup), topK)) ==
            Map(ScoreFn(), Kept(Entries(AllTerms(m, q), dedup), topK))
  {
    var x, y := Entries(AllTerms(m, p), dedup), Entries(AllTerms(m, q), dedup);
    if dedup {
      MergedScores(m, p, q);
    } else {
      SingleScoresPermute(m, p, q);
    }
    SortedScores(x);
    SortedScores(y);
    var a, b := Sorting.Sort(ByScore(), x), Sorting.Sort(ByScore(), y);
    DescendingIsUnique(Map(ScoreFn(), a), Map(ScoreFn(), b));
    assert |Map(ScoreFn(), a)| == |a| && |Map(ScoreFn(), b)| == |b|;
    if 0 < topK < |a| {
      MapTop(ScoreFn(), a, topK);
      MapTop(ScoreFn(), b, topK);
    }
  }

  // ----- What is kept, and ties ------------------------------------------------------------------------

  lemma {:induction false} EntryAt(t: Table, n: nat, i: nat)
    requires i < n <= |t.keys|
    ensures |EntriesOf(t, n)| == n && EntriesOf(t, n)[i] == EntryOf(t, t.keys[i])
    decreases n
  {
    if i < n - 1 {
      EntryAt(t, n - 1, i);
    } else if n > 1 {
      EntryAt(t, n - 1, 0);
    }
  }

  /** With merging, every chunk left out scores no more than every one kept, and the kept ones fill topK. */
  lemma KeptAreBest(terms: seq<Term>, topK: int, chunk: int, i: nat)
    requires Mentions(terms, chunk)
    ensures var e, kept := EntryOf(TableOf(terms), chunk), Kept(Entries(terms, true), topK);
            && e.hit.chunk == chunk && e.score == ScoreIn(terms, chunk)
            && (e in kept || (|kept| == (if topK < 0 then 0 else topK) && (i < |kept| ==> kept[i].score >= e.score)))
  {
    var t := TableOf(terms);
    var e, entries := EntryOf(t, chunk), Entries(terms, true);
    TableTabulates(terms);
    EntryAt(t, |t.keys|, t.rows[chunk].order);
    assert e in entries;
    Sorting.SortPermutes(ByScore(), entries);
    var sorted := Sorting.Sort(ByScore(), entries);
    assert e in multiset(entries);
    var j :| 0 <= j < |sorted| && sorted[j] == e;
    if j < topK {
      assert Sorting.Top(sorted, topK)[j] == e;
    } else if i < |Sorting.Top(sorted, topK)| {
      ByScoreIsTotal();
      Sorting.SortSorts(ByScore(), entries);
      assert ByScore()(sorted[i], sorted[j]);
    }
  }

  // ----- The executor ------------------------------------------------------------------------------------

  function OutcomeAt(outcomes: seq<Result>): nat -> Source {
    (i: nat) => Source(1.0, if i < |outcomes| then outcomes[i] else Result(0, []))
  }

  /** The executor's results in order of completion, each with weight one. */
  function Completed(outcomes: seq<Result>, s: Executor.State): seq<Source> { Map(OutcomeAt(outcomes), s.results) }

  /** Whatever order the retrievals complete in, every chunk has the same fused score and the best
      scores are the same. */
  lemma CompletionOrderIrrelevant(c: Executor.Setup, outcomes: seq<Result>, r: seq<Executor.State>, s: seq<Executor.State>,
                                  m: Method, topK: int, dedup: bool, chunk: int)
    requires Executor.Run(c, r) && Executor.Run(c, s)
    requires Executor.Done(r[|r| - 1]) && Executor.Done(s[|s| - 1])
    ensures var p, q := Completed(outcomes, r[|r| - 1]), Completed(outcomes, s[|s| - 1]);
            && ScoreIn(AllTerms(m, p), chunk) == ScoreIn(AllTerms(m, q), chunk)
            && Map(ScoreFn(), Kept(Entries(AllTerms(m, p), dedup), topK)) ==
               Map(ScoreFn(), Kept(Entries(AllTerms(m, q), dedup), topK))
  {
    var p, q := Completed(outcomes, r[|r| - 1]), Completed(outcomes, s[|s| - 1]);
    Executor.SameResults(c, r, s);
    MapPermutes(OutcomeAt(outcomes), r[|r| - 1].results, s[|s| - 1].results);
    SameScore(m, p, q, chunk);
    SameTopScores(m, p, q, topK, dedup);
  }
}
