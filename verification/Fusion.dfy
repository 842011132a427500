/** Score fusion of rag-retrieval, in exact reals. */
module Fusion {
  import opened Options
  import opened Permutation
  import opened Reals
  import Sorting

  /* Reciprocal ranks or normalised scores are summed per chunk over the result lists, and the best
     chunks are kept. */

  datatype Hit = Hit(chunk: int, score: real)

  /** One retriever's ranked hits and its strategy label. */
  datatype Result = Result(strategy: int, hits: seq<Hit>)

  /** One hit's share of the score of its chunk. */
  datatype Term = Term(strategy: int, hit: Hit, value: real)

  // ----- The terms of a result list ------------------------------------------------------------------

  /** weight / (k + rank) for the first n hits, k + rank not zero. */
  function RankTerms(k: real, weight: real, result: Result, n: nat): seq<Term>
    requires n <= |result.hits|
  {
    if n == 0 then []
    else
      var d := k + (n - 1) as real;
      RankTerms(k, weight, result, n - 1) + [Term(result.strategy, result.hits[n - 1], if d == 0.0 then 0.0 else weight / d)]
  }

  /** RRF divides by k + rank, which is zero at one rank when k is a negative whole number or zero. */
  predicate Divisible(k: real, n: nat) { n == 0 || (k + (n - 1) as real != 0.0 && Divisible(k, n - 1)) }

  lemma {:induction false} PositiveDivides(k: real, n: nat)
    requires k > 0.0
    ensures Divisible(k, n)
  {
    if n > 0 {
      PositiveDivides(k, n - 1);
    }
  }

  function ScoresOf(hits: seq<Hit>): (scores: seq<real>)
    ensures |scores| == |hits|
  {
    if hits == [] then [] else ScoresOf(hits[..|hits| - 1]) + [hits[|hits| - 1].score]
  }

  /** One score min-max normalised among those of its list. */
  function Normalized(scores: seq<real>, s: real): real
    requires scores != []
  {
    var lo, hi := MinOf(scores), MaxOf(scores);
    if hi > lo then (s - lo) / (hi - lo) else if s > 0.0 then 1.0 else 0.0
  }

  /** Normalised scores lie in [0, 1] and keep the order of the scores. */
  lemma NormalizedRange(scores: seq<real>, s: real, t: real)
    requires s in scores && t in scores
    ensures 0.0 <= Normalized(scores, s) <= 1.0
    ensures s < t ==> Normalized(scores, s) < Normalized(scores, t)
  {
    var lo, hi := MinOf(scores), MaxOf(scores);
    if hi > lo {
      Ratio(s - lo, hi - lo, 0.0);
      Ratio(s - lo, hi - lo, 1.0);
      Ratio(t - lo, hi - lo, (s - lo) / (hi - lo));
    }
  }

  /** The weighted score of a hit, normalised among its list or as it is. */
  function Level(normalize: bool, weight: real, scores: seq<real>, s: real): real {
    weight * if normalize && scores != [] then Normalized(scores, s) else s
  }

  function ScoreTerms(normalize: bool, weight: real, result: Result, n: nat): seq<Term>
    requires n <= |result.hits|
  {
    if n == 0 then []
    else
      var hit := result.hits[n - 1];
      ScoreTerms(normalize, weight, result, n - 1) +
      [Term(result.strategy, hit, Level(normalize, weight, ScoresOf(result.hits), hit.score))]
  }

  // ----- Summing per chunk ---------------------------------------------------------------------------

  /** The score of a chunk in one list of terms: the sum of its terms. */
  function ScoreIn(terms: seq<Term>, chunk: int): real {
    if terms == [] then 0.0
    else
      var last := terms[|terms| - 1];
      ScoreIn(terms[..|terms| - 1], chunk) + if last.hit.chunk == chunk then last.value else 0.0
  }

  /** Per-strategy contributions in insertion order, as a Python dictionary keeps them. */
  type Shares = seq<(int, real)>

  function AddShare(shares: Shares, strategy: int, value: real): Shares {
    if shares == [] then [(strategy, 0.0 + value)]
    else if shares[0].0 == strategy then [(strategy, shares[0].1 + value)] + shares[1..]
    else [shares[0]] + AddShare(shares[1..], strategy, value)
  }

  /** sum(c.values()) */
  function SumShares(shares: Shares): real {
    if shares == [] then 0.0 else shares[0].1 + SumShares(shares[1..])
  }

  lemma {:induction false} AddShareSum(shares: Shares, strategy: int, value: real)
    ensures SumShares(AddShare(shares, strategy, value)) == SumShares(shares) + value
  {
    if shares == [] {
      assert [(strategy, 0.0 + value)][1..] == [];
    } else if shares[0].0 == strategy {
      assert ([(strategy, shares[0].1 + value)] + shares[1..])[1..] == shares[1..];
    } else {
      AddShareSum(shares[1..], strategy, value);
      assert ([shares[0]] + AddShare(shares[1..], strategy, value))[1..] == AddShare(shares[1..], strategy, value);
    }
  }

  /** What the three dictionaries over the chunks hold for one chunk. */
  datatype Row = Row(order: nat, first: Hit, shares: Shares)

  datatype Table = Table(keys: seq<int>, rows: map<int, Row>)

  function AddTerm(t: Table, term: Term): Table {
    var chunk := term.hit.chunk;
    if chunk in t.rows then
      var row := t.rows[chunk];
      t.(rows := t.rows[chunk := row.(shares := AddShare(row.shares, term.strategy, term.value))])
    else
      Table(t.keys + [chunk], t.rows[chunk := Row(|t.keys|, term.hit, AddShare([], term.strategy, term.value))])
  }

  function TableOf(terms: seq<Term>): Table {
    if terms == [] then Table([], map[]) else AddTerm(TableOf(terms[..|terms| - 1]), terms[|terms| - 1])
  }

  predicate Mentions(terms: seq<Term>, chunk: int) {
    terms != [] && (terms[|terms| - 1].hit.chunk == chunk || Mentions(terms[..|terms| - 1], chunk))
  }

  /** Every chunk has one row, numbered in order of first appearance, whose shares sum to its score. */
  ghost predicate Tabulated(t: Table, terms: seq<Term>) {
    && (forall i :: 0 <= i < |t.keys| ==> t.keys[i] in t.rows && t.rows[t.keys[i]].order == i)
    && (forall chunk :: chunk in t.rows ==> t.rows[chunk].order < |t.keys| && t.keys[t.rows[chunk].order] == chunk)
    && (forall chunk :: chunk in t.rows <==> Mentions(terms, chunk))
    && (forall chunk :: chunk in t.rows ==> t.rows[chunk].first.chunk == chunk)
    && (forall chunk :: chunk in t.rows ==> SumShares(t.rows[chunk].shares) == ScoreIn(terms, chunk))
  }

  lemma {:induction false} NotMentioned(terms: seq<Term>, chunk: int)
    requires !Mentions(terms, chunk)
    ensures ScoreIn(terms, chunk) == 0.0
  {
    if terms != [] {
      NotMentioned(terms[..|terms| - 1], chunk);
    }
  }

  lemma AddTermTabulates(t: Table, terms: seq<Term>, term: Term)
    requires Tabulated(t, terms)
    ensures Tabulated(AddTerm(t, term), terms + [term])
  {
    var chunk, all := term.hit.chunk, terms + [term];
    assert all[..|terms|] == terms;
    if chunk in t.rows {
      AddShareSum(t.rows[chunk].shares, term.strategy, term.value);
    } else {
      AddShareSum([], term.strategy, term.value);
      NotMentioned(terms, chunk);
    }
  }

  lemma {:induction false} TableTabulates(terms: seq<Term>)
    ensures Tabulated(TableOf(terms), terms)
  {
    if terms != [] {
      var front, last := terms[..|terms| - 1], terms[|terms| - 1];
      assert terms == front + [last];
      TableTabulates(front);
      AddTermTabulates(TableOf(front), front, last);
    }
  }

  // ----- Ranking ---------------------------------------------------------------------------------------

  datatype Entry = Entry(score: real, order: nat, hit: Hit, shares: Shares)

  datatype FusedHit = FusedHit(chunk: int, score: real, normalized: real, rank: nat, shares: Shares)

  function EntryOf(t: Table, chunk: int): Entry {
    if chunk in t.rows then Entry(SumShares(t.rows[chunk].shares), t.rows[chunk].order, t.rows[chunk].first, t.rows[chunk].shares)
    else Entry(0.0, 0, Hit(chunk, 0.0), [])
  }

  function EntriesOf(t: Table, n: nat): seq<Entry>
    requires n <= |t.keys|
  {
    if n == 0 then [] else EntriesOf(t, n - 1) + [EntryOf(t, t.keys[n - 1])]
  }

  /** Without merging, every hit is an entry of its own. */
  function SingleEntries(terms: seq<Term>): seq<Entry> {
    if terms == [] then []
    else
      var n := |terms| - 1;
      SingleEntries(terms[..n]) + [Entry(terms[n].value, n, terms[n].hit, [(terms[n].strategy, terms[n].value)])]
  }

  function ByScore(): (Entry, Entry) -> bool {
    (a: Entry, b: Entry) => a.score > b.score || (a.score == b.score && a.order <= b.order)
  }

  /** The entries kept, best first. */
  function Kept(entries: seq<Entry>, topK: int): seq<Entry> { Sorting.Top(Sorting.Sort(ByScore(), entries), topK) }

  function Best(entries: seq<Entry>): (best: real)
    ensures best >= 0.0
  {
    if entries == [] then 0.0
    else
      var before, score := Best(entries[..|entries| - 1]), entries[|entries| - 1].score;
      if score > before then score else before
  }

  lemma {:induction false} BestIsUpper(entries: seq<Entry>, i: nat)
    requires i < |entries|
    ensures entries[i].score <= Best(entries)
  {
    if i < |entries| - 1 {
      BestIsUpper(entries[..|entries| - 1], i);
    }
  }

  /** A fused hit stands for a kept entry: same chunk, score and shares, and the score over the best one. */
  ghost predicate StandsFor(hit: FusedHit, rank: nat, e: Entry, best: real) {
    && hit.chunk == e.hit.chunk && hit.score == e.score && hit.shares == e.shares && hit.rank == rank
    && if best > 0.0 then hit.normalized * best == e.score && hit.normalized <= 1.0 else hit.normalized == 0.0
  }

  ghost predicate Stand(hits: seq<FusedHit>, kept: seq<Entry>, best: real) {
    |hits| == |kept| && forall i :: 0 <= i < |hits| ==> StandsFor(hits[i], i, kept[i], best)
  }

  method FindBest(entries: seq<Entry>) returns (best: real)
    ensures best == Best(entries)
  {
    best := 0.0;
    for i := 0 to |entries|
      invariant best == Best(entries[..i])
    {
      assert entries[..i + 1][..i] == entries[..i];
      if entries[i].score > best {
        best := entries[i].score;
      }
    }
    assert entries[..|entries|] == entries;
  }

  method MakeHit(e: Entry, rank: nat, best: real) returns (hit: FusedHit)
    requires e.score <= best
    ensures StandsFor(hit, rank, e, best)
  {
    var normalized := 0.0;
    if best > 0.0 {
      Ratio(e.score, best, 1.0);
      normalized := e.score / best;
    }
    hit := FusedHit(e.hit.chunk, e.score, normalized, rank, e.shares);
  }

  method BuildHits(entries: seq<Entry>, topK: int) returns (hits: seq<FusedHit>)
    ensures Stand(hits, Kept(entries, topK), Best(entries))
  {
    var best := FindBest(entries);
    var kept := Sorting.Top(Sorting.Sort(ByScore(), entries), topK);
    hits := [];
    for rank := 0 to |kept|
      invariant |hits| == rank && forall i :: 0 <= i < rank ==> StandsFor(hits[i], i, kept[i], best)
    {
      KeptIsEntry(entries, topK, rank);
      var hit := MakeHit(kept[rank], rank, best);
      hits := hits + [hit];
    }
  }

  lemma KeptIsEntry(entries: seq<Entry>, topK: int, i: nat)
    requires i < |Kept(entries, topK)|
    ensures Kept(entries, topK)[i] in entries && Kept(entries, topK)[i].score <= Best(entries)
  {
    var sorted := Sorting.Sort(ByScore(), entries);
    Sorting.SortPermutes(ByScore(), entries);
    assert sorted[i] in multiset(sorted);
    var j :| 0 <= j < |entries| && entries[j] == sorted[i];
    BestIsUpper(entries, j);
  }

  // ----- Fusing ----------------------------------------------------------------------------------------

  datatype Method = ReciprocalRank(k: real) | WeightedScore(normalize: bool)

  /** A result list with its weight. */
  datatype Source = Source(weight: real, result: Result)

  /** The terms of the first n hits of a list. */
  function FirstTerms(m: Method, source: Source, n: nat): seq<Term>
    requires n <= |source.result.hits|
  {
    match m
    case ReciprocalRank(k) => RankTerms(k, source.weight, source.result, n)
    case WeightedScore(normalize) => ScoreTerms(normalize, source.weight, source.result, n)
  }

  function ListTerms(m: Method, source: Source): seq<Term> { FirstTerms(m, source, |source.result.hits|) }

  function AllTerms(m: Method, sources: seq<Source>): seq<Term> {
    if sources == [] then [] else AllTerms(m, sources[..|sources| - 1]) + ListTerms(m, sources[|sources| - 1])
  }

  /** Whether fusing these lists divides by zero. */
  predicate Defined(m: Method, sources: seq<Source>) {
    sources == [] ||
    var n := |sources[|sources| - 1].result.hits|;
    (m.ReciprocalRank? ==> Divisible(m.k, n)) && Defined(m, sources[..|sources| - 1])
  }

  /** The results with their weights, 1.0 each when none are given. */
  function Weigh(results: seq<Result>, weights: Option<seq<real>>): (sources: seq<Source>)
    requires weights.Some? ==> |weights.value| == |results|
    ensures |sources| == |results| && forall i :: 0 <= i < |sources| ==> sources[i].result == results[i]
    ensures forall i :: 0 <= i < |sources| ==> sources[i].weight == if weights.Some? then weights.value[i] else 1.0
  {
    seq(|results|, (i: nat) requires i < |results| =>
      Source(if weights.Some? && i < |weights.value| then weights.value[i] else 1.0, results[i]))
  }

  function Entries(terms: seq<Term>, dedup: bool): seq<Entry> {
    if dedup then EntriesOf(TableOf(terms), |TableOf(terms).keys|) else SingleEntries(terms)
  }

  datatype Outcome = Fused(hits: seq<FusedHit>, candidates: nat) | WeightMismatch | DivisionByZero

  function Candidates(sources: seq<Source>): nat {
    if sources == [] then 0 else Candidates(sources[..|sources| - 1]) + |sources[|sources| - 1].result.hits|
  }

  /** The fused result of the sources: the entries of their terms, best first, cut at topK. */
  ghost predicate IsFusion(outcome: Outcome, m: Method, sources: seq<Source>, topK: int, dedup: bool) {
    if Defined(m, sources) then
      var entries := Entries(AllTerms(m, sources), dedup);
      outcome.Fused? && outcome.candidates == Candidates(sources) && Stand(outcome.hits, Kept(entries, topK), Best(entries))
    else outcome.DivisionByZero?
  }

  /** The accumulators of the loops. */
  datatype Sums = Sums(table: Table, singles: seq<Entry>)

  ghost predicate Holds(sums: Sums, terms: seq<Term>, dedup: bool) {
    if dedup then sums.table == TableOf(terms) else sums.singles == SingleEntries(terms)
  }

  method AddHit(sums: Sums, term: Term, dedup: bool, ghost terms: seq<Term>) returns (next: Sums)
    requires Holds(sums, terms, dedup)
    ensures Holds(next, terms + [term], dedup)
  {
    assert (terms + [term])[..|terms|] == terms;
    if dedup {
      next := sums.(table := AddTerm(sums.table, term));
    } else {
      SingleLength(terms);
      next := sums.(singles := sums.singles + [Entry(term.value, |sums.singles|, term.hit, [(term.strategy, term.value)])]);
    }
  }

  lemma {:induction false} SingleLength(terms: seq<Term>)
    ensures |SingleEntries(terms)| == |terms|
  {
    if terms != [] {
      SingleLength(terms[..|terms| - 1]);
    }
  }

  /** The share of one hit, unless it would divide by zero. */
  method Contribution(m: Method, source: Source, scores: seq<real>, rank: nat) returns (term: Option<Term>)
    requires rank < |source.result.hits| && scores == ScoresOf(source.result.hits)
    ensures term.None? <==> m.ReciprocalRank? && m.k + rank as real == 0.0
    ensures term.Some? ==> FirstTerms(m, source, rank + 1) == FirstTerms(m, source, rank) + [term.value]
  {
    var hit, strategy := source.result.hits[rank], source.result.strategy;
    match m
    case ReciprocalRank(k) =>
      if k + rank as real == 0.0 {
        return None;
      }
      term := Some(Term(strategy, hit, source.weight / (k + rank as real)));
    case WeightedScore(normalize) =>
      term := Some(Term(strategy, hit, Level(normalize, source.weight, scores, hit.score)));
  }

  /** The inner loop over the hits of one list. */
  method AddList(m: Method, source: Source, sums: Sums, dedup: bool, ghost terms: seq<Term>) returns (next: Sums, ok: bool)
    requires Holds(sums, terms, dedup)
    ensures ok <==> (m.ReciprocalRank? ==> Divisible(m.k, |source.result.hits|))
    ensures ok ==> Holds(next, terms + ListTerms(m, source), dedup)
  {
    var scores := ScoresOf(source.result.hits);
    next := sums;
    ghost var now := terms;
    assert terms + [] == terms;
    for rank := 0 to |source.result.hits|
      invariant now == terms + FirstTerms(m, source, rank) && Holds(next, now, dedup)
      invariant m.ReciprocalRank? ==> Divisible(m.k, rank)
    {
      var term := Contribution(m, source, scores, rank);
      if term.None? {
        NeverDivisible(m.k, rank + 1, |source.result.hits|);
        return next, false;
      }
      next := AddHit(next, term.value, dedup, now);
      now := now + [term.value];
    }
    ok := true;
  }

  lemma {:induction false} NeverDivisible(k: real, n: nat, all: nat)
    requires !Divisible(k, n) && n <= all
    ensures !Divisible(k, all)
  {
    if n < all {
      NeverDivisible(k, n, all - 1);
    }
  }

  method FuseSources(m: Method, sources: seq<Source>, topK: int, dedup: bool) returns (outcome: Outcome)
    ensures IsFusion(outcome, m, sources, topK, dedup)
  {
    var sums, candidates := Sums(Table([], map[]), []), 0;
    for i := 0 to |sources|
      invariant Holds(sums, AllTerms(m, sources[..i]), dedup)
      invariant Defined(m, sources[..i]) && candidates == Candidates(sources[..i])
    {
      assert sources[..i + 1][..i] == sources[..i];
      var ok;
      sums, ok := AddList(m, sources[i], sums, dedup, AllTerms(m, sources[..i]));
      if !ok {
        NeverDefined(m, sources, i + 1);
        return DivisionByZero;
      }
      candidates := candidates + |sources[i].result.hits|;
    }
    assert sources[..|sources|] == sources;
    var entries := sums.singles;
    if dedup {
      entries := EntriesOf(sums.table, |sums.table.keys|);
    }
    var hits := BuildHits(entries, topK);
    outcome := Fused(hits, candidates);
  }

  lemma {:induction false} NeverDefined(m: Method, sources: seq<Source>, n: nat)
    requires n <= |sources| && !Defined(m, sources[..n])
    ensures !Defined(m, sources)
  {
    if n == |sources| {
      assert sources[..n] == sources;
    } else {
      var front := sources[..|sources| - 1];
      assert front[..n] == sources[..n];
      NeverDefined(m, front, n);
    }
  }

  /** Both fusion strategies: a weight list of the wrong length is refused. */
  method Fuse(m: Method, results: seq<Result>, topK: int, weights: Option<seq<real>>, dedup: bool) returns (outcome: Outcome)
    ensures if weights.Some? && |weights.value| != |results| then outcome == WeightMismatch
            else IsFusion(outcome, m, Weigh(results, weights), topK, dedup)
  {
    if weights.Some? && |weights.value| != |results| {
      return WeightMismatch;
    }
    outcome := FuseSources(m, Weigh(results, weights), topK, dedup);
  }
}
