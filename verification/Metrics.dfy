/** The ranking metrics of rag-eval. */
module Metrics {
  import opened Options
  import opened Reals

  /* Document ids enter only through equality, so they are numbers; the logarithm is any positive,
     strictly increasing function of the rank. */

  const DEFAULT_K := 10

  function Relevant(groundTruth: seq<int>): set<int> { set x | x in groundTruth }

  /** predicted[:k], where a negative k counts from the end. */
  function TopK(predicted: seq<int>, k: int): seq<int> {
    if k >= 0 then (if k < |predicted| then predicted[..k] else predicted)
    else if |predicted| + k > 0 then predicted[..|predicted| + k]
    else []
  }

  function Cutoff(k: Option<int>): int { if k.Some? then k.value else DEFAULT_K }

  /** How many of the predictions are relevant. */
  function Hits(relevant: set<int>, ps: seq<int>): nat {
    if ps == [] then 0
    else Hits(relevant, ps[..|ps| - 1]) + if ps[|ps| - 1] in relevant then 1 else 0
  }

  function Recall(groundTruth: seq<int>, predicted: seq<int>, k: Option<int>): real {
    var relevant, top := Relevant(groundTruth), TopK(predicted, Cutoff(k));
    if groundTruth == [] || top == [] then 0.0
    else
      Inhabits(groundTruth);
      Hits(relevant, top) as real / |relevant| as real
  }

  function Precision(groundTruth: seq<int>, predicted: seq<int>, k: Option<int>): real {
    var relevant, top := Relevant(groundTruth), TopK(predicted, Cutoff(k));
    if groundTruth == [] || top == [] then 0.0 else Hits(relevant, top) as real / |top| as real
  }

  lemma Inhabits(groundTruth: seq<int>)
    requires groundTruth != []
    ensures |Relevant(groundTruth)| > 0
  {
    assert groundTruth[0] in Relevant(groundTruth);
  }

  // ----- No credit is given twice --------------------------------------------------------------------

  /** No relevant document is predicted twice. */
  ghost predicate CreditedOnce(relevant: set<int>, ps: seq<int>) {
    forall i, j :: 0 <= i < j < |ps| && ps[i] in relevant ==> ps[i] != ps[j]
  }

  ghost function HitSet(relevant: set<int>, ps: seq<int>): set<int> { set x | x in relevant && x in ps }

  lemma {:induction false} HitsAreDistinct(relevant: set<int>, ps: seq<int>)
    requires CreditedOnce(relevant, ps)
    ensures Hits(relevant, ps) == |HitSet(relevant, ps)| <= |relevant|
  {
    var all := HitSet(relevant, ps);
    if ps != [] {
      var front, last := ps[..|ps| - 1], ps[|ps| - 1];
      HitsAreDistinct(relevant, front);
      assert ps == front + [last];
      if last in relevant {
        assert last !in front;
        assert all == HitSet(relevant, front) + {last};
      } else {
        assert all == HitSet(relevant, front);
      }
    }
    Smaller(all, relevant);
  }

  lemma Smaller(a: set<int>, b: set<int>)
    requires a <= b
    ensures |a| <= |b|
  {
    assert b == a + (b - a);
  }

  lemma {:induction false} HitsFit(relevant: set<int>, ps: seq<int>)
    ensures Hits(relevant, ps) <= |ps|
  {
    if ps != [] {
      HitsFit(relevant, ps[..|ps| - 1]);
    }
  }

  /** Precision lies in [0, 1] whatever is predicted. */
  lemma PrecisionRange(groundTruth: seq<int>, predicted: seq<int>, k: Option<int>)
    ensures 0.0 <= Precision(groundTruth, predicted, k) <= 1.0
  {
    var relevant, top := Relevant(groundTruth), TopK(predicted, Cutoff(k));
    HitsFit(relevant, top);
    if top != [] {
      Ratio(Hits(relevant, top) as real, |top| as real, 0.0);
      Ratio(Hits(relevant, top) as real, |top| as real, 1.0);
    }
  }

  /** Recall lies in [0, 1] if no relevant document comes twice in the cut list. */
  lemma RecallRange(groundTruth: seq<int>, predicted: seq<int>, k: Option<int>)
    requires CreditedOnce(Relevant(groundTruth), TopK(predicted, Cutoff(k)))
    ensures 0.0 <= Recall(groundTruth, predicted, k) <= 1.0
  {
    var relevant, top := Relevant(groundTruth), TopK(predicted, Cutoff(k));
    HitsAreDistinct(relevant, top);
    if groundTruth != [] {
      Inhabits(groundTruth);
      Ratio(Hits(relevant, top) as real, |relevant| as real, 0.0);
      Ratio(Hits(relevant, top) as real, |relevant| as real, 1.0);
    }
  }

  /** The places of the list that hold a relevant document. */
  ghost function RelevantPlaces(relevant: set<int>, ps: seq<int>): set<nat> {
    set i: nat | i < |ps| && ps[i] in relevant
  }

  lemma {:induction false} HitsArePlaces(relevant: set<int>, ps: seq<int>)
    ensures Hits(relevant, ps) == |RelevantPlaces(relevant, ps)|
    ensures Hits(relevant, ps) == |ps| <==> Leads(relevant, ps, |ps|)
  {
    if ps != [] {
      var n := |ps| - 1;
      HitsArePlaces(relevant, ps[..n]);
      HitsFit(relevant, ps[..n]);
      assert RelevantPlaces(relevant, ps) ==
             RelevantPlaces(relevant, ps[..n]) + if ps[n] in relevant then {n} else {};
    }
  }

  /** Precision is the share of the cut list's places that are relevant, and one exactly when all are. */
  lemma PrecisionMeans(groundTruth: seq<int>, predicted: seq<int>, k: Option<int>)
    requires groundTruth != [] && TopK(predicted, Cutoff(k)) != []
    ensures var top := TopK(predicted, Cutoff(k));
            Precision(groundTruth, predicted, k) == |RelevantPlaces(Relevant(groundTruth), top)| as real / |top| as real
    ensures Precision(groundTruth, predicted, k) == 1.0 <==> AllRelevant(groundTruth, TopK(predicted, Cutoff(k)))
  {
    var top, relevant := TopK(predicted, Cutoff(k)), Relevant(groundTruth);
    HitsArePlaces(relevant, top);
    Share(Hits(relevant, top) as real, |top| as real);
    LeadsAll(groundTruth, top);
  }

  lemma LeadsAll(groundTruth: seq<int>, ps: seq<int>)
    ensures Leads(Relevant(groundTruth), ps, |ps|) <==> AllRelevant(groundTruth, ps)
  {
  }

  ghost predicate AllRelevant(groundTruth: seq<int>, ps: seq<int>) {
    forall i :: 0 <= i < |ps| ==> ps[i] in groundTruth
  }

  ghost predicate AllFound(groundTruth: seq<int>, ps: seq<int>) { forall x :: x in groundTruth ==> x in ps }

  /** Recall is that number over the number of relevant documents. */
  lemma RecallMeans(groundTruth: seq<int>, predicted: seq<int>, k: Option<int>)
    requires groundTruth != [] && TopK(predicted, Cutoff(k)) != []
    ensures |Relevant(groundTruth)| > 0
    ensures var top, relevant := TopK(predicted, Cutoff(k)), Relevant(groundTruth);
            Recall(groundTruth, predicted, k) == |RelevantPlaces(relevant, top)| as real / |relevant| as real
  {
    Inhabits(groundTruth);
    HitsArePlaces(Relevant(groundTruth), TopK(predicted, Cutoff(k)));
  }

  /** For a cut list that repeats no relevant document recall is one exactly when every relevant
      document is in it. */
  lemma RecallIsOne(groundTruth: seq<int>, predicted: seq<int>, k: Option<int>)
    requires groundTruth != [] && TopK(predicted, Cutoff(k)) != []
    requires CreditedOnce(Relevant(groundTruth), TopK(predicted, Cutoff(k)))
    ensures Recall(groundTruth, predicted, k) == 1.0 <==> AllFound(groundTruth, TopK(predicted, Cutoff(k)))
  {
    var top, relevant := TopK(predicted, Cutoff(k)), Relevant(groundTruth);
    Inhabits(groundTruth);
    HitsAreDistinct(relevant, top);
    FullHitSet(groundTruth, top);
    Share(Hits(relevant, top) as real, |relevant| as real);
  }

  lemma FullHitSet(groundTruth: seq<int>, ps: seq<int>)
    ensures |HitSet(Relevant(groundTruth), ps)| == |Relevant(groundTruth)| <==> AllFound(groundTruth, ps)
  {
    var relevant, found := Relevant(groundTruth), HitSet(Relevant(groundTruth), ps);
    assert relevant == found + (relevant - found);
    if AllFound(groundTruth, ps) {
      forall x | x in relevant ensures x in found {
        assert x in groundTruth;
      }
      assert found == relevant;
    } else {
      var x :| x in groundTruth && x !in ps;
      assert x in relevant;
      assert x in relevant - found;
    }
  }

  // ----- Documents predicted twice ---------------------------------------------------------------

  ghost predicate Distinct(ps: seq<int>) { forall i, j :: 0 <= i < j < |ps| ==> ps[i] != ps[j] }

  lemma {:induction false} DistinctSize(ps: seq<int>)
    requires Distinct(ps)
    ensures |Relevant(ps)| == |ps|
  {
    if ps != [] {
      var front, last := ps[..|ps| - 1], ps[|ps| - 1];
      DistinctSize(front);
      assert ps == front + [last];
      assert Relevant(ps) == Relevant(front) + {last};
    }
  }

  /** The first prediction that repeats an earlier one. */
  lemma {:induction false} FirstRepeat(ps: seq<int>) returns (j: nat)
    requires !Distinct(ps)
    ensures j < |ps| && Distinct(ps[..j]) && ps[j] in ps[..j]
  {
    var front := ps[..|ps| - 1];
    if Distinct(front) {
      j := |ps| - 1;
    } else {
      j := FirstRepeat(front);
      assert front[..j] == ps[..j];
    }
  }

  /** If the cut list repeats a document there is a ground truth for which its first n + 1
      predictions are all relevant, though only n documents are. */
  lemma Overcounted(ps: seq<int>) returns (groundTruth: seq<int>, n: nat)
    requires !Distinct(ps)
    ensures groundTruth != [] && n > 0 && |Relevant(groundTruth)| == n && Leads(Relevant(groundTruth), ps, n + 1)
  {
    n := FirstRepeat(ps);
    groundTruth := ps[..n];
    DistinctSize(groundTruth);
    forall i | 0 <= i < n + 1 ensures ps[i] in groundTruth {
      assert i < n ==> ps[i] == groundTruth[i];
    }
  }

  /** Recall stays in [0, 1] for every ground truth exactly when the cut list repeats no document. */
  lemma RecallExactly(predicted: seq<int>, k: Option<int>)
    ensures (forall g :: 0.0 <= Recall(g, predicted, k) <= 1.0) <==> Distinct(TopK(predicted, Cutoff(k)))
  {
    var top := TopK(predicted, Cutoff(k));
    if Distinct(top) {
      forall g ensures 0.0 <= Recall(g, predicted, k) <= 1.0 {
        RecallRange(g, predicted, k);
      }
    } else {
      var g, n := Overcounted(top);
      AllHits(Relevant(g), top, n + 1);
      Ratio(Hits(Relevant(g), top) as real, n as real, 1.0);
      assert Recall(g, predicted, k) > 1.0;
    }
  }

  // ----- Discounted gain -------------------------------------------------------------------------------

  ghost predicate IsLog(log: nat -> real) {
    (forall i: nat :: log(i) > 0.0) && (forall i: nat, j: nat :: i < j ==> log(i) < log(j))
  }

  /** The gain of a relevant document at a place. */
  function Gain(log: nat -> real, i: nat): real { if log(i) == 0.0 then 0.0 else 1.0 / log(i) }

  /** The gain is the reciprocal of the logarithm of the place and falls strictly. */
  lemma GainFalls(log: nat -> real, i: nat, j: nat)
    requires IsLog(log)
    ensures Gain(log, i) > 0.0 && Gain(log, i) * log(i) == 1.0
    ensures i < j ==> Gain(log, i) > Gain(log, j)
  {
    Ratio(1.0, log(i), 0.0);
    if i < j {
      Ratio(1.0, log(j), Gain(log, i));
      Scale(log(i), log(j), Gain(log, i));
      Ratio(1.0, log(i), 0.0);
    }
  }

  function Dcg(log: nat -> real, relevant: set<int>, ps: seq<int>): real {
    if ps == [] then 0.0
    else Dcg(log, relevant, ps[..|ps| - 1]) + if ps[|ps| - 1] in relevant then Gain(log, |ps| - 1) else 0.0
  }

  function Ideal(log: nat -> real, n: int): real {
    if n <= 0 then 0.0 else Ideal(log, n - 1) + Gain(log, n - 1)
  }

  function Min(a: int, b: int): int { if a < b then a else b }

  function Ndcg(log: nat -> real, groundTruth: seq<int>, predicted: seq<int>, k: Option<int>): real {
    var relevant, cut := Relevant(groundTruth), Cutoff(k);
    var ideal := Ideal(log, Min(|relevant|, cut));
    if groundTruth == [] || predicted == [] || ideal == 0.0 then 0.0
    else Dcg(log, relevant, TopK(predicted, cut)) / ideal
  }

  lemma {:induction false} IdealGrows(log: nat -> real, m: int, n: int)
    requires IsLog(log) && m <= n
    ensures 0.0 <= Ideal(log, m) <= Ideal(log, n)
    ensures m < n && n > 0 ==> Ideal(log, m) < Ideal(log, n)
    decreases if n > 0 then n else 0
  {
    if n > 0 {
      GainFalls(log, n - 1, n);
      if m < n {
        IdealGrows(log, m, n - 1);
      } else {
        IdealGrows(log, n - 1, n - 1);
      }
    }
  }

  /** The first n predictions are all relevant. */
  ghost predicate Leads(relevant: set<int>, ps: seq<int>, n: int) {
    n <= |ps| && forall i :: 0 <= i < n ==> ps[i] in relevant
  }

  lemma GainNotLess(log: nat -> real, i: nat, j: nat)
    requires IsLog(log) && i <= j
    ensures Gain(log, i) >= Gain(log, j) > 0.0
  {
    GainFalls(log, i, j);
    GainFalls(log, j, j);
  }

  /** The exchange argument: as many hits at the front would gain at least as much. */
  lemma {:induction false} DcgAtMostIdeal(log: nat -> real, relevant: set<int>, ps: seq<int>)
    requires IsLog(log)
    ensures 0.0 <= Dcg(log, relevant, ps) <= Ideal(log, Hits(relevant, ps))
  {
    if ps != [] {
      var front := ps[..|ps| - 1];
      HitsFit(relevant, front);
      DcgAtMostIdeal(log, relevant, front);
      GainNotLess(log, Hits(relevant, front), |front|);
    }
  }

  /** And exactly as much just when the hits are at the front. */
  lemma {:induction false} IdealMeansLeading(log: nat -> real, relevant: set<int>, ps: seq<int>)
    requires IsLog(log)
    ensures Dcg(log, relevant, ps) == Ideal(log, Hits(relevant, ps)) <==> Leads(relevant, ps, Hits(relevant, ps))
  {
    HitsFit(relevant, ps);
    if ps != [] {
      var front, n := ps[..|ps| - 1], |ps| - 1;
      var h := Hits(relevant, front);
      HitsFit(relevant, front);
      IdealMeansLeading(log, relevant, front);
      if ps[n] in relevant {
        DcgAtMostIdeal(log, relevant, front);
        GainFalls(log, h, n);
        LeadsLonger(relevant, ps, h);
      } else {
        assert Leads(relevant, ps, h) <==> Leads(relevant, front, h);
      }
    }
  }

  lemma LeadsLonger(relevant: set<int>, ps: seq<int>, h: nat)
    requires ps != [] && ps[|ps| - 1] in relevant && h <= |ps| - 1
    requires h == Hits(relevant, ps[..|ps| - 1])
    ensures Leads(relevant, ps, h + 1) <==> h == |ps| - 1 && Leads(relevant, ps[..|ps| - 1], h)
  {
    var front, n := ps[..|ps| - 1], |ps| - 1;
    if Leads(relevant, ps, h + 1) && h < n {
      AllHits(relevant, front, h + 1);
    }
  }

  /** A list whose first n predictions are relevant has at least n hits. */
  lemma {:induction false} AllHits(relevant: set<int>, ps: seq<int>, n: nat)
    requires Leads(relevant, ps, n)
    ensures Hits(relevant, ps) >= n
  {
    if ps != [] {
      if n < |ps| {
        AllHits(relevant, ps[..|ps| - 1], n);
      } else {
        AllHits(relevant, ps[..|ps| - 1], n - 1);
      }
    }
  }

  lemma NdcgIsRatio(log: nat -> real, groundTruth: seq<int>, predicted: seq<int>, k: Option<int>)
    requires IsLog(log) && groundTruth != [] && predicted != [] && Cutoff(k) >= 1
    ensures var relevant := Relevant(groundTruth);
            var ideal := Ideal(log, Min(|relevant|, Cutoff(k)));
            ideal > 0.0 && Ndcg(log, groundTruth, predicted, k) == Dcg(log, relevant, TopK(predicted, Cutoff(k))) / ideal
  {
    Inhabits(groundTruth);
    IdealGrows(log, 0, Min(|Relevant(groundTruth)|, Cutoff(k)));
  }

  /** Comparing nDCG with a bound is comparing the gain with the ideal. */
  lemma NdcgCompared(log: nat -> real, groundTruth: seq<int>, predicted: seq<int>, k: Option<int>)
    requires IsLog(log) && groundTruth != [] && predicted != [] && Cutoff(k) >= 1
    ensures var relevant := Relevant(groundTruth);
            var gain, ideal := Dcg(log, relevant, TopK(predicted, Cutoff(k))), Ideal(log, Min(|relevant|, Cutoff(k)));
            var score := Ndcg(log, groundTruth, predicted, k);
            && (score < 0.0 <==> gain < 0.0)
            && (score > 1.0 <==> gain > ideal)
            && (score < 1.0 <==> gain < ideal)
  {
    var relevant := Relevant(groundTruth);
    var gain, ideal := Dcg(log, relevant, TopK(predicted, Cutoff(k))), Ideal(log, Min(|relevant|, Cutoff(k)));
    NdcgIsRatio(log, groundTruth, predicted, k);
    Ratio(gain, ideal, 0.0);
    Ratio(gain, ideal, 1.0);
  }

  /** The gain of the cut list reaches the ideal exactly when it leads with relevant predictions. */
  lemma DcgOfTop(log: nat -> real, relevant: set<int>, top: seq<int>, c: nat)
    requires IsLog(log) && Hits(relevant, top) <= c
    ensures 0.0 <= Dcg(log, relevant, top) <= Ideal(log, c)
    ensures Dcg(log, relevant, top) == Ideal(log, c) <==> Leads(relevant, top, c)
  {
    var h := Hits(relevant, top);
    DcgAtMostIdeal(log, relevant, top);
    IdealMeansLeading(log, relevant, top);
    IdealGrows(log, h, c);
    if Leads(relevant, top, c) {
      AllHits(relevant, top, c);
    }
  }

  /** nDCG lies in [0, 1], for every cut-off, if no relevant document comes twice in the cut list. */
  lemma NdcgRange(log: nat -> real, groundTruth: seq<int>, predicted: seq<int>, k: Option<int>)
    requires IsLog(log) && CreditedOnce(Relevant(groundTruth), TopK(predicted, Cutoff(k)))
    ensures 0.0 <= Ndcg(log, groundTruth, predicted, k) <= 1.0
  {
    var relevant, top := Relevant(groundTruth), TopK(predicted, Cutoff(k));
    if groundTruth != [] && predicted != [] && Cutoff(k) >= 1 {
      var c := Min(|relevant|, Cutoff(k));
      FewHits(relevant, predicted, Cutoff(k));
      DcgOfTop(log, relevant, top, c);
      NdcgCompared(log, groundTruth, predicted, k);
    }
  }

  lemma FewHits(relevant: set<int>, predicted: seq<int>, cut: nat)
    requires CreditedOnce(relevant, TopK(predicted, cut))
    ensures Hits(relevant, TopK(predicted, cut)) <= Min(|relevant|, cut)
  {
    HitsAreDistinct(relevant, TopK(predicted, cut));
    HitsFit(relevant, TopK(predicted, cut));
  }

  /** And then it is 1 exactly when the first min(|relevant|, k) predictions are all relevant. */
  lemma NdcgIsOne(log: nat -> real, groundTruth: seq<int>, predicted: seq<int>, k: Option<int>)
    requires IsLog(log) && CreditedOnce(Relevant(groundTruth), TopK(predicted, Cutoff(k)))
    requires groundTruth != [] && Cutoff(k) >= 1
    ensures Ndcg(log, groundTruth, predicted, k) == 1.0 <==>
            Leads(Relevant(groundTruth), predicted, Min(|Relevant(groundTruth)|, Cutoff(k)))
  {
    var relevant, top := Relevant(groundTruth), TopK(predicted, Cutoff(k));
    var c := Min(|relevant|, Cutoff(k));
    Inhabits(groundTruth);
    if predicted != [] {
      FewHits(relevant, predicted, Cutoff(k));
      DcgOfTop(log, relevant, top, c);
      NdcgCompared(log, groundTruth, predicted, k);
      LeadsInTop(relevant, predicted, Cutoff(k), c);
    }
  }

  lemma LeadsInTop(relevant: set<int>, predicted: seq<int>, cut: nat, n: nat)
    requires n <= cut
    ensures Leads(relevant, predicted, n) <==> Leads(relevant, TopK(predicted, cut), n)
  {
  }

  lemma {:induction false} DcgOfLeading(log: nat -> real, relevant: set<int>, ps: seq<int>, n: nat)
    requires IsLog(log) && Leads(relevant, ps, n)
    ensures Dcg(log, relevant, ps) >= Ideal(log, n)
  {
    if ps == [] {
    } else if n < |ps| {
      DcgOfLeading(log, relevant, ps[..|ps| - 1], n);
      GainFalls(log, |ps| - 1, |ps|);
    } else {
      DcgOfLeading(log, relevant, ps[..|ps| - 1], n - 1);
    }
  }

  /** nDCG stays in [0, 1] for every ground truth exactly when the cut-off is not positive or the cut
      list repeats no document. */
  lemma NdcgExactly(log: nat -> real, predicted: seq<int>, k: Option<int>)
    requires IsLog(log)
    ensures (forall g :: 0.0 <= Ndcg(log, g, predicted, k) <= 1.0) <==>
            Cutoff(k) <= 0 || Distinct(TopK(predicted, Cutoff(k)))
  {
    var top := TopK(predicted, Cutoff(k));
    if Cutoff(k) <= 0 || Distinct(top) {
      forall g ensures 0.0 <= Ndcg(log, g, predicted, k) <= 1.0 {
        if Cutoff(k) > 0 {
          NdcgRange(log, g, predicted, k);
        }
      }
    } else {
      var g, n := Overcounted(top);
      assert Min(n, Cutoff(k)) == n;
      NdcgCompared(log, g, predicted, k);
      DcgOfLeading(log, Relevant(g), top, n + 1);
      IdealGrows(log, n, n + 1);
      assert Ndcg(log, g, predicted, k) > 1.0;
    }
  }

  // ----- Average precision and reciprocal rank -----------------------------------------------------

  /** The precisions at the hits, summed. */
  function PrecisionSum(relevant: set<int>, ps: seq<int>): real {
    if ps == [] then 0.0
    else
      PrecisionSum(relevant, ps[..|ps| - 1]) +
      if ps[|ps| - 1] in relevant then Hits(relevant, ps) as real / |ps| as real else 0.0
  }

  function AveragePrecision(groundTruth: seq<int>, predicted: seq<int>): real {
    if groundTruth == [] || predicted == [] then 0.0
    else
      Inhabits(groundTruth);
      PrecisionSum(Relevant(groundTruth), predicted) / |Relevant(groundTruth)| as real
  }

  lemma {:induction false} PrecisionSumRange(relevant: set<int>, ps: seq<int>)
    ensures 0.0 <= PrecisionSum(relevant, ps) <= Hits(relevant, ps) as real
  {
    if ps != [] {
      PrecisionSumRange(relevant, ps[..|ps| - 1]);
      HitsFit(relevant, ps);
      Ratio(Hits(relevant, ps) as real, |ps| as real, 0.0);
      Ratio(Hits(relevant, ps) as real, |ps| as real, 1.0);
    }
  }

  lemma AveragePrecisionRange(groundTruth: seq<int>, predicted: seq<int>)
    requires CreditedOnce(Relevant(groundTruth), predicted)
    ensures 0.0 <= AveragePrecision(groundTruth, predicted) <= 1.0
  {
    var relevant := Relevant(groundTruth);
    if groundTruth != [] {
      Inhabits(groundTruth);
      PrecisionSumRange(relevant, predicted);
      HitsAreDistinct(relevant, predicted);
      Ratio(PrecisionSum(relevant, predicted), |relevant| as real, 0.0);
      Ratio(PrecisionSum(relevant, predicted), |relevant| as real, 1.0);
    }
  }

  lemma {:induction false} PrecisionsOfLeading(relevant: set<int>, ps: seq<int>, n: nat)
    requires Leads(relevant, ps, n)
    ensures PrecisionSum(relevant, ps) >= n as real
  {
    if ps != [] {
      var front := ps[..|ps| - 1];
      if n < |ps| {
        PrecisionsOfLeading(relevant, front, n);
        Ratio(Hits(relevant, ps) as real, |ps| as real, 0.0);
      } else {
        PrecisionsOfLeading(relevant, front, n - 1);
        AllHits(relevant, ps, n);
        Ratio(Hits(relevant, ps) as real, |ps| as real, 1.0);
      }
    }
  }

  /** Average precision stays in [0, 1] for every ground truth exactly when no document is predicted
      twice. */
  lemma AveragePrecisionExactly(predicted: seq<int>)
    ensures (forall g :: 0.0 <= AveragePrecision(g, predicted) <= 1.0) <==> Distinct(predicted)
  {
    if Distinct(predicted) {
      forall g ensures 0.0 <= AveragePrecision(g, predicted) <= 1.0 {
        AveragePrecisionRange(g, predicted);
      }
    } else {
      var g, n := Overcounted(predicted);
      PrecisionsOfLeading(Relevant(g), predicted, n + 1);
      Ratio(PrecisionSum(Relevant(g), predicted), n as real, 1.0);
      assert AveragePrecision(g, predicted) > 1.0;
    }
  }

  /** Average precision adds up, at every relevant place, the share of relevant places so far. */
  lemma PrecisionAdds(relevant: set<int>, ps: seq<int>, x: int)
    ensures PrecisionSum(relevant, ps + [x]) == PrecisionSum(relevant, ps) +
            if x in relevant then |RelevantPlaces(relevant, ps + [x])| as real / (|ps| + 1) as real else 0.0
  {
    assert (ps + [x])[..|ps|] == ps;
    HitsArePlaces(relevant, ps + [x]);
  }

  /** The precisions add up to the number of hits exactly when the hits lead. */
  lemma {:induction false} FullPrecisionLeads(relevant: set<int>, ps: seq<int>)
    ensures PrecisionSum(relevant, ps) == Hits(relevant, ps) as real <==> Leads(relevant, ps, Hits(relevant, ps))
  {
    HitsFit(relevant, ps);
    if ps != [] {
      var front, n := ps[..|ps| - 1], |ps| - 1;
      var h := Hits(relevant, front);
      HitsFit(relevant, front);
      FullPrecisionLeads(relevant, front);
      PrecisionSumRange(relevant, front);
      if ps[n] in relevant {
        Ratio((h + 1) as real, |ps| as real, 1.0);
        LeadsLonger(relevant, ps, h);
      } else {
        assert Leads(relevant, ps, h) <==> Leads(relevant, front, h);
      }
    }
  }

  /** Average precision is one exactly when the first predictions, as many as there are relevant
      documents, are all relevant. */
  lemma AveragePrecisionIsOne(groundTruth: seq<int>, predicted: seq<int>)
    requires groundTruth != [] && CreditedOnce(Relevant(groundTruth), predicted)
    ensures AveragePrecision(groundTruth, predicted) == 1.0 <==>
            Leads(Relevant(groundTruth), predicted, |Relevant(groundTruth)|)
  {
    var relevant := Relevant(groundTruth);
    Inhabits(groundTruth);
    PrecisionSumRange(relevant, predicted);
    HitsAreDistinct(relevant, predicted);
    FullPrecisionLeads(relevant, predicted);
    Ratio(PrecisionSum(relevant, predicted), |relevant| as real, 1.0);
    if Leads(relevant, predicted, |relevant|) {
      AllHits(relevant, predicted, |relevant|);
    }
  }

  /** The place of the first relevant prediction, |ps| if there is none. */
  function FirstHit(relevant: set<int>, ps: seq<int>): nat {
    if ps == [] || ps[0] in relevant then 0 else 1 + FirstHit(relevant, ps[1..])
  }

  function ReciprocalRank(groundTruth: seq<int>, predicted: seq<int>): real {
    var i := FirstHit(Relevant(groundTruth), predicted);
    if i < |predicted| then 1.0 / (i + 1) as real else 0.0
  }

  // ----- Swapping a relevant prediction upwards -----------------------------------------------------

  /** Predictions i and i + 1 exchanged. */
  function Swapped(ps: seq<int>, i: nat): seq<int>
    requires i + 1 < |ps|
  {
    ps[i := ps[i + 1]][i + 1 := ps[i]]
  }

  /** An irrelevant prediction stands just above a relevant one. */
  predicate Misplaced(relevant: set<int>, ps: seq<int>, i: nat) {
    i + 1 < |ps| && ps[i] !in relevant && ps[i + 1] in relevant
  }

  lemma SwappedFront(ps: seq<int>, i: nat)
    requires i + 1 < |ps|
    ensures i + 2 < |ps| ==> Swapped(ps, i)[..|ps| - 1] == Swapped(ps[..|ps| - 1], i)
    ensures i + 2 == |ps| ==> Swapped(ps, i)[..i + 1] == ps[..i] + [ps[i + 1]]
    ensures Swapped(ps, i)[..i] == ps[..i]
  {
  }

  lemma {:induction false} SwapHits(relevant: set<int>, ps: seq<int>, i: nat)
    requires Misplaced(relevant, ps, i)
    ensures Hits(relevant, Swapped(ps, i)) == Hits(relevant, ps)
  {
    SwappedFront(ps, i);
    if i + 2 < |ps| {
      SwapHits(relevant, ps[..|ps| - 1], i);
    } else {
      TwoMore(relevant, ps, i);
    }
  }

  /** The last two places unfolded, before and after the swap. */
  lemma TwoMore(relevant: set<int>, ps: seq<int>, i: nat)
    requires Misplaced(relevant, ps, i) && i + 2 == |ps|
    ensures var h, qs := Hits(relevant, ps[..i]), Swapped(ps, i);
            && Hits(relevant, ps[..i + 1]) == h && Hits(relevant, ps) == h + 1
            && Hits(relevant, qs[..i + 1]) == h + 1 && Hits(relevant, qs) == h + 1
            && qs[..i + 1][..i] == ps[..i] && ps[..i + 1][..i] == ps[..i]
  {
    SwappedFront(ps, i);
    var qs := Swapped(ps, i);
    assert ps[..i + 1][..i] == ps[..i] && qs[..i + 1][..i] == ps[..i];
  }

  lemma {:induction false} SwapDcg(log: nat -> real, relevant: set<int>, ps: seq<int>, i: nat)
    requires IsLog(log) && Misplaced(relevant, ps, i)
    ensures Dcg(log, relevant, Swapped(ps, i)) > Dcg(log, relevant, ps)
  {
    SwappedFront(ps, i);
    if i + 2 < |ps| {
      SwapDcg(log, relevant, ps[..|ps| - 1], i);
    } else {
      TwoMore(relevant, ps, i);
      GainFalls(log, i, i + 1);
    }
  }

  lemma {:induction false} SwapPrecisionSum(relevant: set<int>, ps: seq<int>, i: nat)
    requires Misplaced(relevant, ps, i)
    ensures PrecisionSum(relevant, Swapped(ps, i)) > PrecisionSum(relevant, ps)
  {
    SwappedFront(ps, i);
    if i + 2 < |ps| {
      SwapPrecisionSum(relevant, ps[..|ps| - 1], i);
      SwapHits(relevant, ps, i);
    } else {
      TwoMore(relevant, ps, i);
      var h := Hits(relevant, ps);
      Lower(h as real, (i + 1) as real, (i + 2) as real);
      assert PrecisionSum(relevant, Swapped(ps, i)) == PrecisionSum(relevant, ps[..i]) + h as real / (i + 1) as real;
    }
  }

  lemma {:induction false} SwapFirstHit(relevant: set<int>, ps: seq<int>, i: nat)
    requires Misplaced(relevant, ps, i)
    ensures FirstHit(relevant, Swapped(ps, i)) <= FirstHit(relevant, ps) <= i + 1
  {
    if i > 0 && ps[0] !in relevant {
      assert Swapped(ps, i)[1..] == Swapped(ps[1..], i - 1);
      SwapFirstHit(relevant, ps[1..], i - 1);
    }
  }

  /** Swapping a relevant prediction with an irrelevant one just above it raises average precision
      and never lowers the reciprocal rank. */
  lemma SwapRaisesPrecision(groundTruth: seq<int>, ps: seq<int>, i: nat)
    requires Misplaced(Relevant(groundTruth), ps, i)
    ensures AveragePrecision(groundTruth, Swapped(ps, i)) > AveragePrecision(groundTruth, ps)
    ensures ReciprocalRank(groundTruth, Swapped(ps, i)) >= ReciprocalRank(groundTruth, ps)
  {
    var relevant, qs := Relevant(groundTruth), Swapped(ps, i);
    Inhabits(groundTruth);
    SwapPrecisionSum(relevant, ps, i);
    SameDivisor(PrecisionSum(relevant, ps), PrecisionSum(relevant, qs), |relevant| as real);
    SwapFirstHit(relevant, ps, i);
    var a, b := FirstHit(relevant, qs), FirstHit(relevant, ps);
    if a < b {
      Lower(1.0, (a + 1) as real, (b + 1) as real);
    }
  }

  /** And never lowers nDCG, whatever the cut-off; it raises it when the upper place is within it. */
  lemma SwapRaisesNdcg(log: nat -> real, groundTruth: seq<int>, ps: seq<int>, i: nat, k: Option<int>)
    requires IsLog(log) && Misplaced(Relevant(groundTruth), ps, i) && Cutoff(k) >= 1
    ensures Ndcg(log, groundTruth, Swapped(ps, i), k) >= Ndcg(log, groundTruth, ps, k)
    ensures i < Cutoff(k) ==> Ndcg(log, groundTruth, Swapped(ps, i), k) > Ndcg(log, groundTruth, ps, k)
  {
    var relevant, cut := Relevant(groundTruth), Cutoff(k);
    var x, y := Dcg(log, relevant, TopK(ps, cut)), Dcg(log, relevant, TopK(Swapped(ps, i), cut));
    NdcgIsRatio(log, groundTruth, ps, k);
    NdcgIsRatio(log, groundTruth, Swapped(ps, i), k);
    SwapTop(log, relevant, ps, i, cut);
    SameDivisor(x, y, Ideal(log, Min(|relevant|, cut)));
  }

  lemma SwapTop(log: nat -> real, relevant: set<int>, ps: seq<int>, i: nat, cut: nat)
    requires IsLog(log) && Misplaced(relevant, ps, i)
    ensures var x, y := Dcg(log, relevant, TopK(ps, cut)), Dcg(log, relevant, TopK(Swapped(ps, i), cut));
            if i < cut then y > x else y == x
  {
    var qs := Swapped(ps, i);
    if cut >= |ps| {
      SwapDcg(log, relevant, ps, i);
    } else if cut >= i + 2 {
      assert qs[..cut] == Swapped(ps[..cut], i);
      SwapDcg(log, relevant, ps[..cut], i);
    } else if cut == i + 1 {
      assert qs[..cut][..i] == ps[..cut][..i] == ps[..i];
      GainFalls(log, i, i + 1);
    } else {
      assert qs[..cut] == ps[..cut];
    }
  }

  // ----- The loops -------------------------------------------------------------------------------------

  /** The reciprocal of the first relevant place, counted from one; zero when there is none. */
  method Mrr(groundTruth: seq<int>, predicted: seq<int>) returns (r: real)
    ensures r == ReciprocalRank(groundTruth, predicted)
    ensures r == 0.0 ==> forall j :: 0 <= j < |predicted| ==> predicted[j] !in groundTruth
    ensures r != 0.0 ==>
              exists i :: 0 <= i < |predicted| && predicted[i] in groundTruth && r * (i + 1) as real == 1.0
                          && forall j :: 0 <= j < i ==> predicted[j] !in groundTruth
  {
    if groundTruth == [] || predicted == [] {
      NoHit(Relevant(groundTruth), predicted, |predicted|);
      return 0.0;
    }
    var relevant := Relevant(groundTruth);
    for i := 0 to |predicted|
      invariant forall j :: 0 <= j < i ==> predicted[j] !in relevant
    {
      NoHit(relevant, predicted, i);
      if predicted[i] in relevant {
        Ratio(1.0, (i + 1) as real, 0.0);
        return 1.0 / (i + 1) as real;
      }
    }
    NoHit(relevant, predicted, |predicted|);
    r := 0.0;
  }

  lemma {:induction false} NoHit(relevant: set<int>, ps: seq<int>, n: nat)
    requires n <= |ps| && forall j :: 0 <= j < n ==> ps[j] !in relevant
    ensures FirstHit(relevant, ps) >= n
    ensures n < |ps| && ps[n] in relevant ==> FirstHit(relevant, ps) == n
  {
    if n > 0 {
      NoHit(relevant, ps[1..], n - 1);
    }
  }

  method ComputeAveragePrecision(groundTruth: seq<int>, predicted: seq<int>) returns (r: real)
    ensures r == AveragePrecision(groundTruth, predicted)
  {
    if groundTruth == [] || predicted == [] {
      return 0.0;
    }
    var relevant := Relevant(groundTruth);
    var hits, sum := 0, 0.0;
    for i := 0 to |predicted|
      invariant hits == Hits(relevant, predicted[..i]) && sum == PrecisionSum(relevant, predicted[..i])
    {
      assert predicted[..i + 1][..i] == predicted[..i];
      if predicted[i] in relevant {
        hits := hits + 1;
        sum := sum + hits as real / (i + 1) as real;
      }
    }
    assert predicted[..|predicted|] == predicted;
    Inhabits(groundTruth);
    r := sum / |relevant| as real;
  }

  method ComputeNdcg(log: nat -> real, groundTruth: seq<int>, predicted: seq<int>, k: Option<int>) returns (r: real)
    requires forall i: nat :: log(i) > 0.0
    ensures r == Ndcg(log, groundTruth, predicted, k)
  {
    var cut := Cutoff(k);
    if groundTruth == [] || predicted == [] {
      return 0.0;
    }
    var relevant, top := Relevant(groundTruth), TopK(predicted, cut);
    var dcg := 0.0;
    for i: nat := 0 to |top|
      invariant dcg == Dcg(log, relevant, top[..i])
    {
      assert top[..i + 1][..i] == top[..i];
      if top[i] in relevant {
        dcg := dcg + 1.0 / log(i);
      }
    }
    assert top[..|top|] == top;
    var idealCount := Min(|relevant|, cut);
    var idcg, i: nat := 0.0, 0;
    while i < idealCount
      invariant idcg == Ideal(log, i) && (i <= idealCount || i == 0)
    {
      idcg := idcg + 1.0 / log(i);
      i := i + 1;
    }
    if idcg == 0.0 {
      return 0.0;
    }
    r := dcg / idcg;
  }
}
