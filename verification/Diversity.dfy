/** What maximal-marginal-relevance selection promises, shared by the three rerankers. */
module Diversity {
  import opened Prelude

  /** Largest similarity of candidate `c` to a pick so far, and at least 0. */
  ghost function MaxSim(c: nat, picks: seq<nat>, sim: (nat, nat) -> real): real {
    if picks == [] then 0.0
    else Max(MaxSim(c, picks[..|picks| - 1], sim), sim(c, picks[|picks| - 1]))
  }

  /** It is the largest of them, if that is above 0. */
  lemma {:induction false} MaxSimMeans(c: nat, picks: seq<nat>, sim: (nat, nat) -> real)
    ensures MaxSim(c, picks, sim) >= 0.0
    ensures forall p :: p in picks ==> sim(c, p) <= MaxSim(c, picks, sim)
    ensures MaxSim(c, picks, sim) == 0.0 || exists p :: p in picks && MaxSim(c, picks, sim) == sim(c, p)
  {
    if picks != [] {
      var (init, last) := (picks[..|picks| - 1], picks[|picks| - 1]);
      MaxSimMeans(c, init, sim);
      assert forall p :: p in picks <==> p in init || p == last;
    }
  }

  /** Relevance against similarity; `weight` is the configured lambda. */
  function Blend(weight: real, relevance: real, similarity: real): real {
    weight * relevance - (1.0 - weight) * similarity
  }

  ghost function Tradeoff(weight: real, relevance: real, similarity: real): real {
    weight * relevance - (1.0 - weight) * similarity
  }

  lemma BlendMeans(weight: real, relevance: real, similarity: real)
    ensures Blend(weight, relevance, similarity) == Tradeoff(weight, relevance, similarity)
  {
  }

  ghost function Marginal(c: nat, picks: seq<nat>, relevance: seq<real>, sim: (nat, nat) -> real, weight: real): real
    requires c < |relevance|
  {
    Tradeoff(weight, relevance[c], MaxSim(c, picks, sim))
  }

  ghost predicate BestPick(c: nat, picks: seq<nat>, relevance: seq<real>, sim: (nat, nat) -> real, weight: real)
    requires c < |relevance|
  {
    forall u: nat :: u < |relevance| && u !in picks ==>
      Marginal(u, picks, relevance, sim, weight) <= Marginal(c, picks, relevance, sim, weight)
  }

  /** The picked items, in pick order. */
  ghost function Select<T>(items: seq<T>, picks: seq<nat>): seq<T>
    requires forall p :: p in picks ==> p < |items|
  {
    seq(|picks|, i requires 0 <= i < |picks| => assert picks[i] in picks; items[picks[i]])
  }

  /** Distinct picks, each of which maximises the marginal score over everything not yet picked. */
  ghost predicate Greedy(picks: seq<nat>, relevance: seq<real>, sim: (nat, nat) -> real, weight: real) {
    && NoDuplicates(picks)
    && (forall j :: 0 <= j < |picks| ==> picks[j] < |relevance|)
    && (forall j :: 0 <= j < |picks| ==> BestPick(picks[j], picks[..j], relevance, sim, weight))
  }

  lemma GreedyExtend(picks: seq<nat>, c: nat, relevance: seq<real>, sim: (nat, nat) -> real, weight: real)
    requires Greedy(picks, relevance, sim, weight)
    requires c < |relevance| && c !in picks && BestPick(c, picks, relevance, sim, weight)
    ensures Greedy(picks + [c], relevance, sim, weight)
  {
    assert forall j :: 0 <= j < |picks| + 1 ==> (picks + [c])[j] < |relevance|;
    forall j | 0 <= j < |picks| + 1 ensures BestPick((picks + [c])[j], (picks + [c])[..j], relevance, sim, weight) {
      if j < |picks| {
        assert (picks + [c])[..j] == picks[..j];
      } else {
        assert (picks + [c])[..j] == picks;
      }
    }
  }

  /** The unpicked pool: duplicate-free, and together with the picks exactly the indices below `n`. */
  ghost predicate Pool(remaining: seq<nat>, picks: seq<nat>, n: nat) {
    && NoDuplicates(remaining)
    && |remaining| + |picks| == n
    && (forall u: nat :: u in remaining <==> u < n && u !in picks)
  }

  lemma PoolRemove(remaining: seq<nat>, picks: seq<nat>, n: nat, pos: nat)
    requires Pool(remaining, picks, n) && pos < |remaining|
    ensures Pool(remaining[..pos] + remaining[pos + 1..], picks + [remaining[pos]], n)
  {
    var c, rest := remaining[pos], remaining[..pos] + remaining[pos + 1..];
    forall u: nat ensures u in rest <==> u in remaining && u != c {
      assert remaining == remaining[..pos] + [c] + remaining[pos + 1..];
    }
  }

  /** Taking an element out by moving the last one into its place. */
  lemma PoolSwapRemove(remaining: seq<nat>, picks: seq<nat>, n: nat, pos: nat)
    requires Pool(remaining, picks, n) && pos < |remaining|
    ensures Pool(remaining[pos := remaining[|remaining| - 1]][..|remaining| - 1], picks + [remaining[pos]], n)
  {
    var last := |remaining| - 1;
    var c, rest := remaining[pos], remaining[pos := remaining[last]][..last];
    forall i | 0 <= i < |rest| ensures rest[i] == if i == pos then remaining[last] else remaining[i] {
    }
    forall u: nat ensures u in rest <==> u in remaining && u != c {
      if u in remaining && u != c {
        var k :| 0 <= k < |remaining| && remaining[k] == u;
        assert rest[if k == last then pos else k] == u;
      }
    }
  }

  /** A full selection is a permutation of the candidates. */
  lemma FullSelection(picks: seq<nat>, relevance: seq<real>, sim: (nat, nat) -> real, weight: real)
    requires Greedy(picks, relevance, sim, weight) && |picks| == |relevance|
    ensures forall u: nat :: u < |relevance| <==> u in picks
  {
    var all := Indices(|relevance|);
    IndicesMembers(|relevance|);
    DistinctLength(all);
    DistinctLength(picks);
    assert Elements(picks) <= Elements(all);
    SubsetSize(Elements(picks), Elements(all));
    forall u: nat ensures u < |relevance| <==> u in picks {
      assert u in Elements(all) <==> u in Elements(picks);
    }
  }

  /** With any weight on relevance, the first pick has maximal relevance. */
  lemma FirstPickMostRelevant(picks: seq<nat>, relevance: seq<real>, sim: (nat, nat) -> real, weight: real)
    requires Greedy(picks, relevance, sim, weight) && picks != [] && weight > 0.0
    ensures forall u :: 0 <= u < |relevance| ==> relevance[u] <= relevance[picks[0]]
  {
    assert picks[..0] == [] && picks[0] in picks;
    assert BestPick(picks[0], picks[..0], relevance, sim, weight);
    forall u: nat | u < |relevance| ensures relevance[u] <= relevance[picks[0]] {
      assert Marginal(u, [], relevance, sim, weight) <= Marginal(picks[0], [], relevance, sim, weight);
      ScaledOrder(weight, relevance[u], relevance[picks[0]]);
    }
  }

  /**
    Similarity counts against a candidate and relevance for it: what a pick was preferred to is not less similar
    to the earlier picks if it is as relevant, and not more relevant if it is as similar.
   */
  lemma PickPrefers(picks: seq<nat>, relevance: seq<real>, sim: (nat, nat) -> real, weight: real, j: nat, u: nat)
    requires Greedy(picks, relevance, sim, weight) && j < |picks| && u < |relevance| && u !in picks[..j]
    ensures weight < 1.0 && relevance[u] == relevance[picks[j]] ==>
              MaxSim(picks[j], picks[..j], sim) <= MaxSim(u, picks[..j], sim)
    ensures weight > 0.0 && MaxSim(u, picks[..j], sim) == MaxSim(picks[j], picks[..j], sim) ==>
              relevance[u] <= relevance[picks[j]]
  {
    assert BestPick(picks[j], picks[..j], relevance, sim, weight);
    assert Marginal(u, picks[..j], relevance, sim, weight) <= Marginal(picks[j], picks[..j], relevance, sim, weight);
    var similarity, similarity' := MaxSim(u, picks[..j], sim), MaxSim(picks[j], picks[..j], sim);
    if weight < 1.0 && similarity < similarity' {
      SimilarityCosts(weight, relevance[u], similarity, similarity');
    }
    if weight > 0.0 && relevance[picks[j]] < relevance[u] {
      RelevancePays(weight, relevance[picks[j]], relevance[u], similarity);
    }
  }

  lemma SimilarityCosts(weight: real, relevance: real, less: real, more: real)
    requires weight < 1.0 && less < more
    ensures Tradeoff(weight, relevance, more) < Tradeoff(weight, relevance, less)
  {
    var gain, cost, higher := weight * relevance, (1.0 - weight) * less, (1.0 - weight) * more;
    ScaledLess(1.0 - weight, less, more, cost, higher);
    TradeoffIs(weight, relevance, less, gain, cost);
    TradeoffIs(weight, relevance, more, gain, higher);
  }

  lemma TradeoffIs(weight: real, relevance: real, similarity: real, gain: real, cost: real)
    requires gain == weight * relevance && cost == (1.0 - weight) * similarity
    ensures Tradeoff(weight, relevance, similarity) == gain - cost
  {
  }

  lemma ScaledLess(c: real, x: real, y: real, cx: real, cy: real)
    requires c > 0.0 && x < y && cx == c * x && cy == c * y
    ensures cx < cy
  {
    assert c * (y - x) > 0.0;
  }

  lemma RelevancePays(weight: real, less: real, more: real, similarity: real)
    requires weight > 0.0 && less < more
    ensures Tradeoff(weight, less, similarity) < Tradeoff(weight, more, similarity)
  {
    var gain, higher, cost := weight * less, weight * more, (1.0 - weight) * similarity;
    ScaledLess(weight, less, more, gain, higher);
    TradeoffIs(weight, less, similarity, gain, cost);
    TradeoffIs(weight, more, similarity, higher, cost);
  }

  lemma ScaledOrder(c: real, x: real, y: real)
    requires c > 0.0 && c * x <= c * y
    ensures x <= y
  {
  }
}
