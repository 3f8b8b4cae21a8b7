/** Hybrid search: the diversity rerank over fused scores. */
module Hybrid {
  import opened Prelude
  import opened TermOrder
  import opened InvertedIndexes
  import opened Diversity
  import opened Searchers

  /** Like the searcher's rerank, but a picked result is removed from the pool without disturbing its order. */
  method MmrRerank(results: seq<SearchResult>, ix: Index, topK: nat, weight: real) returns (selected: seq<SearchResult>)
    requires forall d :: 0 <= d < |ix.docTerms| ==> StrictlySorted(ix.docTerms[d])
    ensures Reranked(selected, results, ix, topK, weight)
  {
    ghost var relevance, sim := Scores(results), ResultSim(results, ix);
    ghost var picks: seq<nat> := [];
    selected := [];
    if results == [] || topK == 0 {
      assert Greedy(picks, relevance, sim, weight) && selected == Select(results, picks);
      return;
    }
    var n := if topK < |results| then topK else |results|;
    var remaining := Indices(|results|);
    IndicesMembers(|results|);
    while |selected| < n && remaining != []
      invariant Greedy(picks, relevance, sim, weight)
      invariant |picks| == |selected| <= n && selected == Select(results, picks)
      invariant Pool(remaining, picks, |results|)
      decreases |remaining|
    {
      var best := MostMarginal(weight, results, ix, selected, remaining, picks);
      GreedyExtend(picks, remaining[best], relevance, sim, weight);
      PoolRemove(remaining, picks, |results|, best);
      selected := selected + [results[remaining[best]]];
      picks := picks + [remaining[best]];
      remaining := remaining[..best] + remaining[best + 1..];
    }
  }
}
