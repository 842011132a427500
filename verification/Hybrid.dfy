/** HybridRetriever of rag-retrieval: retrievers run concurrently into buckets, which are then read by
    index, trimmed, weighted by strategy and fused.
 */
module Hybrid {
  import opened Options
  import opened Fusion
  import opened Reals
  import Sorting

  const DENSE := 0
  const SPARSE := 1

  datatype Config = Config(denseWeight: real, sparseWeight: real, limits: map<int, int>, dedup: bool)

  function WeightFor(cfg: Config, r: Result): real {
    if r.strategy == DENSE then cfg.denseWeight else if r.strategy == SPARSE then cfg.sparseWeight else 1.0
  }

  /** A negative limit keeps nothing. */
  function Trim(cfg: Config, r: Result): Result {
    if r.strategy in cfg.limits then r.(hits := Sorting.Top(r.hits, cfg.limits[r.strategy])) else r
  }

  /** The results of the retrievers that succeeded, in the order of the retrievers. */
  function Sources(cfg: Config, outcomes: seq<Option<Result>>): seq<Source> {
    if outcomes == [] then []
    else
      var n := |outcomes| - 1;
      Sources(cfg, outcomes[..n]) +
      match outcomes[n]
      case None => []
      case Some(r) => [Source(WeightFor(cfg, r), Trim(cfg, r))]
  }

  /** How many hits of a result reach the fusion. */
  function KeptHits(cfg: Config, r: Result): (n: nat)
    ensures n <= |r.hits|
  {
    if r.strategy !in cfg.limits || cfg.limits[r.strategy] > |r.hits| then |r.hits|
    else if cfg.limits[r.strategy] < 0 then 0
    else cfg.limits[r.strategy]
  }

  /** The result of a retriever that succeeded is fused behind those of the earlier ones: its first
      hits, as many as the limit of its strategy allows, with the weight of its strategy. */
  lemma {:induction false} SourceOf(cfg: Config, outcomes: seq<Option<Result>>, i: nat)
    requires i < |outcomes| && outcomes[i].Some?
    ensures var r, j := outcomes[i].value, Successes(outcomes[..i]);
            && j < |Sources(cfg, outcomes)| == Successes(outcomes)
            && Sources(cfg, outcomes)[j].result.strategy == r.strategy
            && Sources(cfg, outcomes)[j].result.hits == r.hits[..KeptHits(cfg, r)]
            && (r.strategy == DENSE ==> Sources(cfg, outcomes)[j].weight == cfg.denseWeight)
            && (r.strategy == SPARSE ==> Sources(cfg, outcomes)[j].weight == cfg.sparseWeight)
            && (r.strategy != DENSE && r.strategy != SPARSE ==> Sources(cfg, outcomes)[j].weight == 1.0)
  {
    var n := |outcomes| - 1;
    SourceCount(cfg, outcomes);
    SourceCount(cfg, outcomes[..n]);
    if i < n {
      SourceOf(cfg, outcomes[..n], i);
      assert outcomes[..n][..i] == outcomes[..i];
    }
  }

  function Successes(outcomes: seq<Option<Result>>): nat {
    if outcomes == [] then 0
    else Successes(outcomes[..|outcomes| - 1]) + if outcomes[|outcomes| - 1].Some? then 1 else 0
  }

  lemma {:induction false} SourceCount(cfg: Config, outcomes: seq<Option<Result>>)
    ensures |Sources(cfg, outcomes)| == Successes(outcomes)
  {
    if outcomes != [] {
      SourceCount(cfg, outcomes[..|outcomes| - 1]);
    }
  }

  /** Each coroutine puts its outcome into the bucket of its index. */
  method RunAll(outcomes: seq<Option<Result>>, arrivals: seq<nat>) returns (bucket: map<nat, Option<Result>>)
    requires forall i: nat :: i in arrivals <==> i < |outcomes|
    ensures forall i: nat :: i in bucket <==> i < |outcomes|
    ensures forall i: nat :: i in bucket ==> bucket[i] == outcomes[i]
  {
    bucket := map[];
    for k := 0 to |arrivals|
      invariant forall i: nat :: i in bucket <==> i in arrivals[..k]
      invariant forall i: nat :: i in bucket ==> i < |outcomes| && bucket[i] == outcomes[i]
    {
      assert arrivals[k] in arrivals;
      bucket := bucket[arrivals[k] := outcomes[arrivals[k]]];
    }
    assert arrivals[..|arrivals|] == arrivals;
  }

  /** `arrivals` is the order in which the retrievals complete; it has no influence on the result. */
  method Retrieve(cfg: Config, m: Method, outcomes: seq<Option<Result>>, arrivals: seq<nat>, topK: int)
    returns (fused: Option<Outcome>)
    requires forall i: nat :: i in arrivals <==> i < |outcomes|
    ensures var sources := Sources(cfg, outcomes);
            if sources == [] then fused == None
            else fused.Some? && IsFusion(fused.value, m, sources, topK, cfg.dedup)
  {
    var bucket := RunAll(outcomes, arrivals);
    var sources: seq<Source> := [];
    for i: nat := 0 to |outcomes|
      invariant sources == Sources(cfg, outcomes[..i])
    {
      assert outcomes[..i + 1][..i] == outcomes[..i];
      match bucket[i]
      case None =>
      case Some(r) =>
        sources := sources + [Source(WeightFor(cfg, r), Trim(cfg, r))];
    }
    assert outcomes[..|outcomes|] == outcomes;
    if sources == [] {
      return None;
    }
    var outcome := FuseSources(m, sources, topK, cfg.dedup);
    fused := Some(outcome);
  }

  lemma SameHit(a: FusedHit, b: FusedHit, rank: nat, e: Entry, best: real)
    requires StandsFor(a, rank, e, best) && StandsFor(b, rank, e, best)
    ensures a == b
  {
    if best > 0.0 {
      Scale(a.normalized, b.normalized, best);
      Scale(b.normalized, a.normalized, best);
    }
  }

  /** Fusing the same sources gives the same hits, so two runs of a hybrid retrieval agree. */
  lemma FusionIsDetermined(a: Outcome, b: Outcome, m: Method, sources: seq<Source>, topK: int, dedup: bool)
    requires IsFusion(a, m, sources, topK, dedup) && IsFusion(b, m, sources, topK, dedup)
    ensures a == b
  {
    if Defined(m, sources) {
      var entries := Entries(AllTerms(m, sources), dedup);
      var kept, best := Kept(entries, topK), Best(entries);
      forall i | 0 <= i < |kept| ensures a.hits[i] == b.hits[i] {
        SameHit(a.hits[i], b.hits[i], i, kept[i], best);
      }
    }
  }
}
