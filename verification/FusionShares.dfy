/** What a list contributes to a fusion, and what fusing a single list does. */
module FusionShares {
  import opened Fusion
  import opened Reals
  import Sorting

  /* A share of reciprocal rank fusion times k + rank is the weight of the list; a share of score fusion is
     the weight times the score, normalised between the extremes of the list. So a list fused by itself
     keeps its order. */

  // ----- The value of a share --------------------------------------------------------------------

  lemma {:induction false} TermCount(m: Method, source: Source, n: nat)
    requires n <= |source.result.hits|
    ensures |FirstTerms(m, source, n)| == n
  {
    if n > 0 {
      TermCount(m, source, n - 1);
    }
  }

  lemma {:induction false} RankTermAt(k: real, source: Source, n: nat, r: nat)
    requires r < n <= |source.result.hits| && |FirstTerms(ReciprocalRank(k), source, n)| == n
    ensures var term, d := FirstTerms(ReciprocalRank(k), source, n)[r], k + r as real;
            term == Term(source.result.strategy, source.result.hits[r], if d == 0.0 then 0.0 else source.weight / d)
    decreases n
  {
    TermCount(ReciprocalRank(k), source, n - 1);
    if r < n - 1 {
      RankTermAt(k, source, n - 1, r);
    }
  }

  /** The term of the hit at rank r: the share times k + r is the weight of the list. */
  lemma ReciprocalShare(k: real, source: Source, r: nat)
    requires r < |source.result.hits|
    ensures var terms := ListTerms(ReciprocalRank(k), source);
            && |terms| == |source.result.hits|
            && terms[r].hit == source.result.hits[r] && terms[r].strategy == source.result.strategy
            && (k + r as real != 0.0 ==> terms[r].value * (k + r as real) == source.weight)
  {
    TermCount(ReciprocalRank(k), source, |source.result.hits|);
    RankTermAt(k, source, |source.result.hits|, r);
    if k + r as real != 0.0 {
      Quotient(source.weight, k + r as real);
    }
  }

  /** For a positive k and weight a share falls strictly with the rank. */
  lemma ShareFalls(k: real, source: Source, i: nat, j: nat)
    requires k > 0.0 && source.weight > 0.0 && i < j < |source.result.hits|
    ensures var terms := ListTerms(ReciprocalRank(k), source);
            |terms| == |source.result.hits| && terms[i].value > terms[j].value > 0.0
  {
    var n := |source.result.hits|;
    TermCount(ReciprocalRank(k), source, n);
    RankTermAt(k, source, n, i);
    RankTermAt(k, source, n, j);
    Lower(source.weight, k + i as real, k + j as real);
    Ratio(source.weight, k + j as real, 0.0);
  }

  lemma {:induction false} ScoreAt(hits: seq<Hit>, r: nat)
    requires r < |hits|
    ensures ScoresOf(hits)[r] == hits[r].score
  {
    if r < |hits| - 1 {
      ScoreAt(hits[..|hits| - 1], r);
    }
  }

  lemma {:induction false} ScoreTermAt(normalize: bool, weight: real, result: Result, n: nat, r: nat)
    requires r < n <= |result.hits|
    ensures var terms, scores := ScoreTerms(normalize, weight, result, n), ScoresOf(result.hits);
            && |terms| == n && terms[r].hit == result.hits[r] && terms[r].strategy == result.strategy
            && terms[r].value == weight * if normalize then Normalized(scores, result.hits[r].score) else result.hits[r].score
    decreases n
  {
    if r < n - 1 {
      ScoreTermAt(normalize, weight, result, n - 1, r);
    } else if n > 1 {
      ScoreTermAt(normalize, weight, result, n - 1, n - 2);
    }
  }

  /** The term of a hit in score fusion: the weight times the score, or times the normalised score. */
  lemma ScoreShare(normalize: bool, source: Source, r: nat)
    requires r < |source.result.hits|
    ensures var terms, score := ListTerms(WeightedScore(normalize), source), source.result.hits[r].score;
            && |terms| == |source.result.hits|
            && terms[r].hit == source.result.hits[r] && terms[r].strategy == source.result.strategy
            && terms[r].value == source.weight * if normalize then Normalized(ScoresOf(source.result.hits), score) else score
  {
    ScoreTermAt(normalize, source.weight, source.result, |source.result.hits|, r);
  }

  /** A normalised score is the score's place between the least and the greatest; when all are equal it
      is one for a positive score and zero otherwise. */
  lemma NormalizedMeans(scores: seq<real>, s: real, lo: real, hi: real)
    requires s in scores && lo in scores && hi in scores && forall x :: x in scores ==> lo <= x <= hi
    ensures lo < hi ==> Normalized(scores, s) * (hi - lo) == s - lo
    ensures lo == hi ==> Normalized(scores, s) == if s > 0.0 then 1.0 else 0.0
  {
    assert lo == MinOf(scores) && hi == MaxOf(scores);
    if lo < hi {
      Quotient(s - lo, hi - lo);
    }
  }

  /** For a positive weight a higher score has the greater share. */
  lemma ShareRises(normalize: bool, source: Source, i: nat, j: nat)
    requires source.weight > 0.0 && i < |source.result.hits| && j < |source.result.hits|
    requires source.result.hits[i].score > source.result.hits[j].score
    ensures var terms := ListTerms(WeightedScore(normalize), source);
            |terms| == |source.result.hits| && terms[i].value > terms[j].value
  {
    var hits := source.result.hits;
    var scores := ScoresOf(hits);
    ScoreShare(normalize, source, i);
    ScoreShare(normalize, source, j);
    ScoreAt(hits, i);
    ScoreAt(hits, j);
    if normalize {
      NormalizedRange(scores, hits[j].score, hits[i].score);
      Weighted(source.weight, Normalized(scores, hits[j].score), Normalized(scores, hits[i].score));
    } else {
      Weighted(source.weight, hits[j].score, hits[i].score);
    }
  }

  lemma Weighted(weight: real, x: real, y: real)
    requires weight > 0.0 && x < y
    ensures weight * x < weight * y
  {
    Scale(x, y, weight);
  }

  // ----- One list by itself ------------------------------------------------------------------------

  ghost predicate NoRepeats(terms: seq<Term>) {
    forall i, j :: 0 <= i < j < |terms| ==> terms[i].hit.chunk != terms[j].hit.chunk
  }

  ghost predicate Falls(terms: seq<Term>) {
    forall i, j :: 0 <= i < j < |terms| ==> terms[i].value > terms[j].value
  }

  function Single(term: Term, i: nat): Entry { Entry(term.value, i, term.hit, [(term.strategy, term.value)]) }

  lemma {:induction false} SinglesAt(terms: seq<Term>)
    ensures |SingleEntries(terms)| == |terms|
    ensures forall i :: 0 <= i < |terms| ==> SingleEntries(terms)[i] == Single(terms[i], i)
  {
    if terms != [] {
      SinglesAt(terms[..|terms| - 1]);
    }
  }

  /** Without repeats the table has one row a term. */
  ghost predicate RowEach(t: Table, terms: seq<Term>) {
    && |t.keys| == |terms|
    && (forall i :: 0 <= i < |terms| ==> t.keys[i] == terms[i].hit.chunk)
    && (forall i :: 0 <= i < |terms| ==>
          t.keys[i] in t.rows && EntryOf(t, t.keys[i]) == Single(terms[i], i))
    && (forall chunk :: chunk in t.rows ==> exists i :: 0 <= i < |terms| && terms[i].hit.chunk == chunk)
  }

  lemma FirstShare(strategy: int, value: real)
    ensures AddShare([], strategy, value) == [(strategy, value)] && SumShares([(strategy, value)]) == value
  {
    assert [(strategy, value)][1..] == [];
  }

  lemma RowAdded(t: Table, terms: seq<Term>, term: Term)
    requires RowEach(t, terms) && forall i :: 0 <= i < |terms| ==> terms[i].hit.chunk != term.hit.chunk
    ensures RowEach(AddTerm(t, term), terms + [term])
  {
    FirstShare(term.strategy, term.value);
    var all, next := terms + [term], AddTerm(t, term);
    assert next.keys == t.keys + [term.hit.chunk];
    forall i | 0 <= i < |all| ensures EntryOf(next, next.keys[i]) == Single(all[i], i) {
      if i < |terms| {
        assert next.rows[t.keys[i]] == t.rows[t.keys[i]];
      }
    }
    forall chunk | chunk in next.rows ensures exists i :: 0 <= i < |all| && all[i].hit.chunk == chunk {
      if chunk == term.hit.chunk {
        assert all[|terms|].hit.chunk == chunk;
      } else {
        var i :| 0 <= i < |terms| && terms[i].hit.chunk == chunk;
        assert all[i] == terms[i];
      }
    }
  }

  lemma {:induction false} RowsWithoutRepeats(terms: seq<Term>)
    requires NoRepeats(terms)
    ensures RowEach(TableOf(terms), terms)
  {
    if terms != [] {
      var front, last := terms[..|terms| - 1], terms[|terms| - 1];
      RowsWithoutRepeats(front);
      RowAdded(TableOf(front), front, last);
      assert terms == front + [last];
    }
  }

  lemma {:induction false} EntriesAt(t: Table, n: nat)
    requires n <= |t.keys|
    ensures |EntriesOf(t, n)| == n && forall i :: 0 <= i < n ==> EntriesOf(t, n)[i] == EntryOf(t, t.keys[i])
  {
    if n > 0 {
      EntriesAt(t, n - 1);
    }
  }

  /** Merging chunks does nothing to a list that repeats none. */
  lemma EntriesWithoutRepeats(terms: seq<Term>, dedup: bool)
    requires NoRepeats(terms)
    ensures Entries(terms, dedup) == SingleEntries(terms)
  {
    SinglesAt(terms);
    if dedup {
      RowsWithoutRepeats(terms);
      EntriesAt(TableOf(terms), |terms|);
    }
  }

  lemma OnlyList(m: Method, source: Source)
    ensures AllTerms(m, [source]) == ListTerms(m, source)
  {
    assert [source][..0] == [];
  }

  /** A single list whose shares fall keeps its order, whether chunks are merged or not. */
  lemma OneListKeepsOrder(m: Method, source: Source, topK: int, dedup: bool)
    requires NoRepeats(ListTerms(m, source)) && Falls(ListTerms(m, source))
    ensures var terms, kept := ListTerms(m, source), Kept(Entries(AllTerms(m, [source]), dedup), topK);
            && |kept| == |Sorting.Top(terms, topK)|
            && forall i :: 0 <= i < |kept| ==> kept[i].hit == terms[i].hit && kept[i].score == terms[i].value
  {
    OnlyList(m, source);
    EntriesWithoutRepeats(ListTerms(m, source), dedup);
    KeptOfFalling(ListTerms(m, source), topK);
  }

  lemma KeptOfFalling(terms: seq<Term>, topK: int)
    requires Falls(terms)
    ensures var kept := Kept(SingleEntries(terms), topK);
            && |kept| == |Sorting.Top(terms, topK)|
            && forall i :: 0 <= i < |kept| ==> kept[i].hit == terms[i].hit && kept[i].score == terms[i].value
  {
    SinglesAt(terms);
    FallsIsSorted(terms);
    Sorting.SortOfSorted(ByScore(), SingleEntries(terms));
    TopAt(SingleEntries(terms), topK);
  }

  lemma TopAt<T>(xs: seq<T>, topK: int)
    ensures var r := Sorting.Top(xs, topK); |r| <= |xs| && forall i :: 0 <= i < |r| ==> r[i] == xs[i]
  {
  }

  lemma FallsIsSorted(terms: seq<Term>)
    requires Falls(terms)
    ensures Sorting.Sorted(ByScore(), SingleEntries(terms))
  {
    SinglesAt(terms);
    var entries, leq := SingleEntries(terms), ByScore();
    forall i, j | 0 <= i < j < |entries| ensures leq(entries[i], entries[j]) {
      assert entries[i].score == terms[i].value && entries[j].score == terms[j].value;
    }
  }

  /** No chunk comes twice in the list. */
  ghost predicate DistinctChunks(source: Source) {
    forall i, j :: 0 <= i < j < |source.result.hits| ==> source.result.hits[i].chunk != source.result.hits[j].chunk
  }

  /** Reciprocal rank fusion of one list gives the list back, cut at topK. */
  lemma ReciprocalKeepsOrder(k: real, source: Source, topK: int, dedup: bool)
    requires k > 0.0 && source.weight > 0.0 && DistinctChunks(source)
    ensures var kept := Kept(Entries(AllTerms(ReciprocalRank(k), [source]), dedup), topK);
            && |kept| == |Sorting.Top(source.result.hits, topK)|
            && forall i :: 0 <= i < |kept| ==> kept[i].hit == source.result.hits[i]
  {
    var terms, n := ListTerms(ReciprocalRank(k), source), |source.result.hits|;
    TermCount(ReciprocalRank(k), source, n);
    forall i | 0 <= i < n ensures terms[i].hit == source.result.hits[i] {
      ReciprocalShare(k, source, i);
    }
    forall i, j | 0 <= i < j < n ensures terms[i].value > terms[j].value {
      ShareFalls(k, source, i, j);
    }
    OneListKeepsOrder(ReciprocalRank(k), source, topK, dedup);
  }

  /** So does score fusion of one list that descends in score. */
  lemma ScoresKeepOrder(normalize: bool, source: Source, topK: int, dedup: bool)
    requires source.weight > 0.0 && DistinctChunks(source)
    requires forall i, j :: 0 <= i < j < |source.result.hits| ==>
               source.result.hits[i].score > source.result.hits[j].score
    ensures var kept := Kept(Entries(AllTerms(WeightedScore(normalize), [source]), dedup), topK);
            && |kept| == |Sorting.Top(source.result.hits, topK)|
            && forall i :: 0 <= i < |kept| ==> kept[i].hit == source.result.hits[i]
  {
    var terms, n := ListTerms(WeightedScore(normalize), source), |source.result.hits|;
    TermCount(WeightedScore(normalize), source, n);
    forall i | 0 <= i < n ensures terms[i].hit == source.result.hits[i] {
      ScoreShare(normalize, source, i);
    }
    forall i, j | 0 <= i < j < n ensures terms[i].value > terms[j].value {
      ShareRises(normalize, source, i, j);
    }
    OneListKeepsOrder(WeightedScore(normalize), source, topK, dedup);
  }

  // ----- What a table holds for a chunk --------------------------------------------------------------

  /** The share of one strategy. */
  function ShareOf(shares: Shares, strategy: int): real {
    if shares == [] then 0.0
    else (if shares[0].0 == strategy then shares[0].1 else 0.0) + ShareOf(shares[1..], strategy)
  }

  lemma ShareCons(first: (int, real), rest: Shares, strategy: int)
    ensures ShareOf([first] + rest, strategy) == (if first.0 == strategy then first.1 else 0.0) + ShareOf(rest, strategy)
  {
    assert ([first] + rest)[1..] == rest;
  }

  /** A contribution goes to the share of its own strategy. */
  lemma {:induction false} AddShareOf(shares: Shares, strategy: int, value: real, other: int)
    ensures ShareOf(AddShare(shares, strategy, value), other) ==
            ShareOf(shares, other) + if other == strategy then value else 0.0
  {
    if shares == [] {
      ShareCons((strategy, 0.0 + value), [], other);
      assert AddShare(shares, strategy, value) == [(strategy, 0.0 + value)] + [];
    } else if shares[0].0 == strategy {
      ShareCons((strategy, shares[0].1 + value), shares[1..], other);
    } else {
      AddShareOf(shares[1..], strategy, value, other);
      ShareCons(shares[0], AddShare(shares[1..], strategy, value), other);
    }
  }

  /** The sum of a chunk's terms in the lists of one strategy. */
  function SumOf(terms: seq<Term>, chunk: int, strategy: int): real {
    if terms == [] then 0.0
    else
      var last := terms[|terms| - 1];
      SumOf(terms[..|terms| - 1], chunk, strategy) +
      if last.hit.chunk == chunk && last.strategy == strategy then last.value else 0.0
  }

  lemma {:induction false} SumOfNone(terms: seq<Term>, chunk: int, strategy: int)
    requires !Mentions(terms, chunk)
    ensures SumOf(terms, chunk, strategy) == 0.0
  {
    if terms != [] {
      SumOfNone(terms[..|terms| - 1], chunk, strategy);
    }
  }

  /** A chunk's share of a strategy is the sum of its terms in the lists of that strategy. */
  lemma {:induction false} SharesPerStrategy(terms: seq<Term>, chunk: int, strategy: int)
    requires chunk in TableOf(terms).rows
    ensures ShareOf(TableOf(terms).rows[chunk].shares, strategy) == SumOf(terms, chunk, strategy)
  {
    var front, last := terms[..|terms| - 1], terms[|terms| - 1];
    TableTabulates(front);
    if chunk in TableOf(front).rows {
      SharesPerStrategy(front, chunk, strategy);
      AddShareOf(TableOf(front).rows[chunk].shares, last.strategy, last.value, strategy);
    } else {
      SumOfNone(front, chunk, strategy);
      AddShareOf([], last.strategy, last.value, strategy);
    }
  }

  /** The hit kept for a chunk is the first one that mentions it. */
  lemma {:induction false} FirstHitIsKept(terms: seq<Term>, chunk: int) returns (i: nat)
    requires chunk in TableOf(terms).rows
    ensures i < |terms| && terms[i].hit == TableOf(terms).rows[chunk].first && terms[i].hit.chunk == chunk
    ensures forall j :: 0 <= j < i ==> terms[j].hit.chunk != chunk
  {
    var front := terms[..|terms| - 1];
    TableTabulates(front);
    if chunk in TableOf(front).rows {
      i := FirstHitIsKept(front, chunk);
    } else {
      i := |front|;
      NobodyMentions(front, chunk);
    }
  }

  lemma {:induction false} NobodyMentions(terms: seq<Term>, chunk: int)
    requires !Mentions(terms, chunk)
    ensures forall j :: 0 <= j < |terms| ==> terms[j].hit.chunk != chunk
  {
    if terms != [] {
      NobodyMentions(terms[..|terms| - 1], chunk);
    }
  }

  // ----- Errors, counts and ties ---------------------------------------------------------------------

  /** Reciprocal rank fusion divides by zero exactly when k plus some rank of the list is zero. */
  lemma {:induction false} DivisibleMeans(k: real, n: nat)
    ensures Divisible(k, n) <==> forall r: nat :: r < n ==> !DividesByZero(k, r)
  {
    if n > 0 {
      DivisibleMeans(k, n - 1);
      assert Divisible(k, n) <==> !DividesByZero(k, n - 1) && Divisible(k, n - 1);
    }
  }

  predicate DividesByZero(k: real, rank: nat) { k + rank as real == 0.0 }

  /** There is a candidate for every hit of every list. */
  lemma {:induction false} CandidatesAreTerms(m: Method, sources: seq<Source>)
    ensures Candidates(sources) == |AllTerms(m, sources)|
  {
    if sources != [] {
      CandidatesAreTerms(m, sources[..|sources| - 1]);
      TermCount(m, sources[|sources| - 1], |sources[|sources| - 1].result.hits|);
    }
  }

  /** Kept entries descend in score, and equal scores keep the order of first appearance. */
  lemma KeptInOrder(entries: seq<Entry>, topK: int, i: nat, j: nat)
    requires i < j < |Kept(entries, topK)|
    ensures var a, b := Kept(entries, topK)[i], Kept(entries, topK)[j];
            a.score > b.score || (a.score == b.score && a.order <= b.order)
  {
    var leq := ByScore();
    forall a, b, c | leq(a, b) && leq(b, c) ensures leq(a, c) {
    }
    Sorting.SortSorts(leq, entries);
    assert leq(Sorting.Sort(leq, entries)[i], Sorting.Sort(leq, entries)[j]);
  }
}
