/** Diversity reranking of memory search results, in place. */
module Mmr {
  import opened Prelude
  import opened Diversity

  datatype SearchResult = SearchResult(chunkId: string, path: string, score: real, snippet: string)

  datatype MmrConfig = MmrConfig(enabled: bool, weight: real)

  /** The smallest range relevance is divided by: 2^-52. */
  const EPSILON: real := 1.0 / 4503599627370496.0

  /** Overlap of two word sets; two empty ones count as equal. */
  function JaccardSimilarity(a: set<string>, b: set<string>): (r: real)
    ensures 0.0 <= r <= 1.0
  {
    if a == {} && b == {} then 1.0
    else if a == {} || b == {} then 0.0
    else
      var intersection := |a * b|;
      var union := |a| + |b| - intersection;
      SubsetSize(a * b, a);
      SubsetSize(a * b, b);
      assert |b| > 0;
      Ratio(intersection, union);
      intersection as real / union as real
  }

  lemma Ratio(n: nat, d: nat)
    requires n <= d && d > 0
    ensures 0.0 <= n as real / d as real <= 1.0
  {
  }

  /** The similarity is the size of the intersection over the size of the union. */
  lemma JaccardIsOverlap(a: set<string>, b: set<string>)
    requires a != {} || b != {}
    ensures |a + b| > 0 && JaccardSimilarity(a, b) == |a * b| as real / |a + b| as real
  {
    assert a + b != {};
    assert |a + b| == |a| + |b| - |a * b|;
    if a == {} || b == {} {
      assert a * b == {};
    }
  }

  function Largest(xs: seq<real>): (m: real)
    requires xs != []
    ensures m in xs && forall x :: x in xs ==> x <= m
  {
    assert xs == [xs[0]] + xs[1..];
    if |xs| == 1 then xs[0] else Max(xs[0], Largest(xs[1..]))
  }

  function Smallest(xs: seq<real>): (m: real)
    requires xs != []
    ensures m in xs && forall x :: x in xs ==> m <= x
  {
    assert xs == [xs[0]] + xs[1..];
    if |xs| == 1 then xs[0] else Min(xs[0], Smallest(xs[1..]))
  }

  function Range(relevance: seq<real>): (r: real)
    requires relevance != []
    ensures r > 0.0
  {
    Max(Largest(relevance) - Smallest(relevance), EPSILON)
  }

  function Normalize(score: real, minScore: real, range: real): real
    requires range > 0.0
  {
    (score - minScore) / range
  }

  ghost function Normalized(relevance: seq<real>, i: nat): real
    requires i < |relevance|
  {
    Normalize(relevance[i], Smallest(relevance), Range(relevance))
  }

  ghost function NormalizedAll(relevance: seq<real>): seq<real> {
    seq(|relevance|, i requires 0 <= i < |relevance| => Normalized(relevance, i))
  }

  lemma QuotientOrder(x: real, y: real, d: real)
    requires d > 0.0
    ensures x <= y <==> x / d <= y / d
  {
    assert x / d - y / d == (x - y) / d;
  }

  /** Normalisation keeps the order and lands between 0 and 1. */
  lemma NormalizedOrder(relevance: seq<real>, i: nat, j: nat)
    requires i < |relevance| && j < |relevance|
    ensures relevance[i] <= relevance[j] <==> Normalized(relevance, i) <= Normalized(relevance, j)
    ensures 0.0 <= Normalized(relevance, i) <= 1.0
  {
    var low, range := Smallest(relevance), Range(relevance);
    assert relevance[i] in relevance && relevance[j] in relevance;
    QuotientOrder(relevance[i] - low, relevance[j] - low, range);
    QuotientOrder(0.0, relevance[i] - low, range);
    QuotientOrder(relevance[i] - low, range, range);
  }

  /** Normalisation maps the smallest relevance to 0 and divides by the distance to the largest, or by 2^-52. */
  lemma NormalizedMeans(relevance: seq<real>, i: nat, low: real, high: real)
    requires i < |relevance| && low in relevance && high in relevance
    requires forall x :: x in relevance ==> low <= x <= high
    ensures var tiny := 1.0 / 4503599627370496.0;
            Normalized(relevance, i) * (if high - low > tiny then high - low else tiny) == relevance[i] - low
  {
    assert Smallest(relevance) == low && Largest(relevance) == high;
    var range := Range(relevance);
    assert Normalized(relevance, i) == (relevance[i] - low) / range;
  }

  ghost function SnippetSim(words: seq<set<string>>): (nat, nat) -> real {
    (i: nat, j: nat) => if i < |words| && j < |words| then JaccardSimilarity(words[i], words[j]) else 0.0
  }

  /** Among equally good candidates the pick has the largest relevance. */
  ghost predicate TieBroken(c: nat, picks: seq<nat>, relevance: seq<real>, words: seq<set<string>>, weight: real)
    requires c < |relevance|
  {
    forall u: nat :: u < |relevance| && u !in picks
      && Marginal(u, picks, NormalizedAll(relevance), SnippetSim(words), weight)
         == Marginal(c, picks, NormalizedAll(relevance), SnippetSim(words), weight)
      ==> relevance[u] <= relevance[c]
  }

  /** A full greedy order of the results, ties broken by relevance. */
  ghost predicate GreedyOrder(picks: seq<nat>, relevance: seq<real>, words: seq<set<string>>, weight: real) {
    && Greedy(picks, NormalizedAll(relevance), SnippetSim(words), weight)
    && (forall j {:trigger picks[j]} :: 0 <= j < |picks| ==> TieBroken(picks[j], picks[..j], relevance, words, weight))
  }

  lemma GreedyOrderExtend(picks: seq<nat>, c: nat, relevance: seq<real>, words: seq<set<string>>, weight: real)
    requires GreedyOrder(picks, relevance, words, weight)
    requires c < |relevance| && c !in picks
    requires BestPick(c, picks, NormalizedAll(relevance), SnippetSim(words), weight)
    requires TieBroken(c, picks, relevance, words, weight)
    ensures GreedyOrder(picks + [c], relevance, words, weight)
  {
    GreedyExtend(picks, c, NormalizedAll(relevance), SnippetSim(words), weight);
    forall j | 0 <= j < |picks| + 1 ensures TieBroken((picks + [c])[j], (picks + [c])[..j], relevance, words, weight) {
      if j < |picks| {
        assert (picks + [c])[..j] == picks[..j];
      } else {
        assert (picks + [c])[..j] == picks;
      }
    }
  }

  /** With a weight of at least 0 on relevance the first result is a most relevant one, weight 0 included. */
  lemma FirstMostRelevant(picks: seq<nat>, relevance: seq<real>, words: seq<set<string>>, weight: real)
    requires GreedyOrder(picks, relevance, words, weight) && picks != [] && weight >= 0.0
    ensures picks[0] < |relevance| && forall u :: 0 <= u < |relevance| ==> relevance[u] <= relevance[picks[0]]
  {
    assert picks[..0] == [];
    assert TieBroken(picks[0], [], relevance, words, weight);
    forall u: nat | u < |relevance| ensures relevance[u] <= relevance[picks[0]] {
      if weight > 0.0 {
        FirstPickMostRelevant(picks, NormalizedAll(relevance), SnippetSim(words), weight);
        assert NormalizedAll(relevance)[u] <= NormalizedAll(relevance)[picks[0]];
        NormalizedOrder(relevance, u, picks[0]);
      } else {
        var norm, sim := NormalizedAll(relevance), SnippetSim(words);
        assert Marginal(u, [], norm, sim, weight) == Marginal(picks[0], [], norm, sim, weight);
      }
    }
  }

  ghost predicate Bounded(picks: seq<nat>, n: nat) {
    forall p :: p in picks ==> p < n
  }

  lemma SelectWithout<T>(items: seq<T>, picks: seq<nat>, k: nat)
    requires items != [] && k < |picks| && picks[k] == |items| - 1
    requires forall p :: p in picks ==> p < |items|
    requires Bounded(picks[..k], |items| - 1) && Bounded(picks[k + 1..], |items| - 1)
    ensures Select(items, picks)
         == Select(items[..|items| - 1], picks[..k]) + [items[|items| - 1]]
           + Select(items[..|items| - 1], picks[k + 1..])
  {
    var head, tail := picks[..k], picks[k + 1..];
    assert forall i :: 0 <= i < |head| ==> head[i] in head;
    assert forall i :: 0 <= i < |tail| ==> tail[i] in tail;
    forall i | 0 <= i < |picks|
      ensures picks[i] in picks
      ensures i < k ==> picks[i] == head[i] && items[picks[i]] == items[..|items| - 1][head[i]]
      ensures i > k ==> picks[i] == tail[i - k - 1] && items[picks[i]] == items[..|items| - 1][tail[i - k - 1]]
    {
    }
  }

  lemma SelectAppend<T>(items: seq<T>, a: seq<nat>, b: seq<nat>)
    requires Bounded(a, |items|) && Bounded(b, |items|)
    ensures Select(items, a + b) == Select(items, a) + Select(items, b)
  {
  }

  /** The reranked list is a permutation of the old one. */
  lemma {:induction false} SelectedMultiset<T>(items: seq<T>, picks: seq<nat>, n: nat)
    requires NoDuplicates(picks) && |picks| == |items| == n
    requires Bounded(picks, |items|)
    ensures multiset(Select(items, picks)) == multiset(items)
    decreases n
  {
    if n > 0 {
      var last := n - 1;
      LastPicked(picks, n);
      var k :| 0 <= k < n && picks[k] == last;
      var items', picks' := items[..last], picks[..k] + picks[k + 1..];
      RemainingPicks(picks, k);
      SelectedMultiset(items', picks', last);
      SelectWithout(items, picks, k);
      SelectAppend(items', picks[..k], picks[k + 1..]);
      assert items == items' + [items[last]];
      InsertedMultiset(Select(items', picks[..k]), Select(items', picks[k + 1..]), items', items[last]);
    }
  }

  lemma InsertedMultiset<T>(a: seq<T>, b: seq<T>, items: seq<T>, x: T)
    requires multiset(a + b) == multiset(items)
    ensures multiset(a + [x] + b) == multiset(items + [x])
  {
  }

  lemma RemainingPicks(picks: seq<nat>, k: nat)
    requires k < |picks| && NoDuplicates(picks) && picks[k] == |picks| - 1
    requires forall p :: p in picks ==> p < |picks|
    ensures NoDuplicates(picks[..k] + picks[k + 1..])
    ensures Bounded(picks[..k], |picks| - 1) && Bounded(picks[k + 1..], |picks| - 1)
  {
    forall p | p in picks[..k] ensures p < |picks| - 1 {
      var i :| 0 <= i < k && picks[i] == p;
      assert p in picks;
    }
    var tail := picks[k + 1..];
    forall p | p in tail ensures p < |picks| - 1 {
      var i :| 0 <= i < |tail| && tail[i] == p;
      assert picks[k + 1 + i] == p;
      assert p in picks;
    }
  }

  lemma LastPicked(picks: seq<nat>, n: nat)
    requires n > 0 && NoDuplicates(picks) && |picks| == n && forall p :: p in picks ==> p < n
    ensures n - 1 in picks
  {
    IndicesMembers(n);
    DistinctLength(picks);
    DistinctLength(Indices(n));
    assert Elements(picks) <= Elements(Indices(n));
    SubsetSize(Elements(picks), Elements(Indices(n)));
    assert n - 1 in Elements(Indices(n));
  }

  /** Reorders the results greedily; does nothing when disabled, for lambda 1, or for fewer than two results. */
  method MmrRerank(results: array<SearchResult>, relevance: seq<real>, config: MmrConfig, words: string -> set<string>)
      returns (ghost picks: seq<nat>)
    requires config.enabled && results.Length > 1 && config.weight != 1.0 ==> |relevance| == results.Length
    modifies results
    ensures !config.enabled || results.Length <= 1 || config.weight == 1.0 ==> results[..] == old(results[..])
    ensures config.enabled && results.Length > 1 && config.weight != 1.0 ==>
              Reordered(old(results[..]), results[..], picks, relevance, TokenCache(words, old(results[..])),
                config.weight)
  {
    picks := [];
    if !config.enabled || results.Length <= 1 || config.weight == 1.0 {
      return;
    }
    var all := results[..];
    var tokenCache := seq(|all|, i requires 0 <= i < |all| => words(all[i].snippet));
    assert tokenCache == TokenCache(words, all);
    picks := Reorder(results, relevance, tokenCache, config.weight);
  }

  method Reorder(results: array<SearchResult>, relevance: seq<real>, tokenCache: seq<set<string>>, weight: real)
      returns (ghost picks: seq<nat>)
    requires |relevance| == results.Length == |tokenCache| && relevance != []
    modifies results
    ensures Reordered(old(results[..]), results[..], picks, relevance, tokenCache, weight)
  {
    var all := results[..];
    ghost var before := all;
    var selected := SelectAll(relevance, tokenCache, weight);
    ReorderedBy(before, selected, relevance, tokenCache, weight);
    var reordered :=
      seq(|selected|, i requires 0 <= i < |selected| => assert selected[i] in selected; all[selected[i]]);
    assert reordered == Select(all, selected);
    WriteBack(results, reordered);
    picks := selected;
  }

  method WriteBack(results: array<SearchResult>, reordered: seq<SearchResult>)
    requires |reordered| == results.Length
    modifies results
    ensures results[..] == reordered
  {
    for i := 0 to results.Length
      invariant forall k :: 0 <= k < i ==> results[k] == reordered[k]
    {
      results[i] := reordered[i];
    }
  }

  /** The results in a greedy order, which is a permutation and starts with a most relevant one. */
  ghost predicate Reordered(before: seq<SearchResult>, after: seq<SearchResult>, picks: seq<nat>, relevance: seq<real>,
                            tokenCache: seq<set<string>>, weight: real)
  {
    && |before| == |relevance| == |tokenCache| == |picks| && relevance != []
    && (forall p :: p in picks ==> p < |before|)
    && GreedyOrder(picks, relevance, tokenCache, weight)
    && after == Select(before, picks)
    && multiset(after) == multiset(before)
    && (weight >= 0.0 ==> forall u :: 0 <= u < |relevance| ==> relevance[u] <= relevance[picks[0]])
  }

  lemma ReorderedBy(before: seq<SearchResult>, picks: seq<nat>, relevance: seq<real>, tokenCache: seq<set<string>>,
                    weight: real)
    requires |before| == |relevance| == |tokenCache| == |picks| && relevance != []
    requires (forall p :: p in picks ==> p < |before|) && GreedyOrder(picks, relevance, tokenCache, weight)
    ensures Reordered(before, Select(before, picks), picks, relevance, tokenCache, weight)
  {
    SelectedMultiset(before, picks, |before|);
    if weight >= 0.0 {
      FirstMostRelevant(picks, relevance, tokenCache, weight);
    }
  }

  ghost function TokenCache(words: string -> set<string>, results: seq<SearchResult>): seq<set<string>> {
    seq(|results|, i requires 0 <= i < |results| => words(results[i].snippet))
  }

  method SelectAll(relevance: seq<real>, tokenCache: seq<set<string>>, weight: real) returns (selected: seq<nat>)
    requires relevance != [] && |tokenCache| == |relevance|
    ensures GreedyOrder(selected, relevance, tokenCache, weight)
    ensures |selected| == |relevance| && forall p :: p in selected ==> p < |relevance|
  {
    selected := [];
    var remaining := Indices(|relevance|);
    IndicesMembers(|relevance|);
    while remaining != []
      invariant GreedyOrder(selected, relevance, tokenCache, weight)
      invariant Pool(remaining, selected, |relevance|)
      decreases |remaining|
    {
      var best := BestPosition(relevance, tokenCache, weight, selected, remaining);
      GreedyOrderExtend(selected, remaining[best], relevance, tokenCache, weight);
      PoolRemove(remaining, selected, |relevance|, best);
      selected := selected + [remaining[best]];
      remaining := remaining[..best] + remaining[best + 1..];
    }
    assert forall k :: 0 <= k < |selected| ==> selected[k] < |relevance|;
  }

  /** Position `best` holds the largest score so far, the most relevant one among equals. */
  ghost predicate BestSoFar(scores: seq<real>, relevances: seq<real>, n: nat, best: nat, score: real)
    requires |scores| == |relevances| && n <= |scores|
  {
    && best < n && score == scores[best]
    && (forall i :: 0 <= i < n ==> scores[i] <= score)
    && (forall i :: 0 <= i < n && scores[i] == score ==> relevances[i] <= relevances[best])
  }

  method MaxSimilarity(candidate: nat, selected: seq<nat>, tokenCache: seq<set<string>>) returns (maxSim: real)
    requires candidate < |tokenCache| && forall k :: 0 <= k < |selected| ==> selected[k] < |tokenCache|
    ensures maxSim == MaxSim(candidate, selected, SnippetSim(tokenCache))
  {
    maxSim := 0.0;
    for k := 0 to |selected|
      invariant maxSim == MaxSim(candidate, selected[..k], SnippetSim(tokenCache))
    {
      assert selected[..k + 1][..k] == selected[..k];
      maxSim := Max(maxSim, JaccardSimilarity(tokenCache[candidate], tokenCache[selected[k]]));
    }
    assert selected[..|selected|] == selected;
  }

  method MmrScore(candidate: nat, relevance: seq<real>, tokenCache: seq<set<string>>, weight: real, selected: seq<nat>,
                  minScore: real, range: real) returns (score: real)
    requires candidate < |relevance| == |tokenCache| && forall k :: 0 <= k < |selected| ==> selected[k] < |tokenCache|
    requires minScore == Smallest(relevance) && range == Range(relevance)
    ensures score == Marginal(candidate, selected, NormalizedAll(relevance), SnippetSim(tokenCache), weight)
  {
    var normalized := Normalize(relevance[candidate], minScore, range);
    var maxSim := MaxSimilarity(candidate, selected, tokenCache);
    BlendMeans(weight, normalized, maxSim);
    score := Blend(weight, normalized, maxSim);
  }

  ghost function PoolScores(remaining: seq<nat>, selected: seq<nat>, relevance: seq<real>, words: seq<set<string>>,
                            weight: real): seq<real>
    requires forall i :: 0 <= i < |remaining| ==> remaining[i] < |relevance|
  {
    seq(|remaining|, i requires 0 <= i < |remaining| =>
      Marginal(remaining[i], selected, NormalizedAll(relevance), SnippetSim(words), weight))
  }

  ghost function PoolRelevances(remaining: seq<nat>, relevance: seq<real>): seq<real>
    requires forall i :: 0 <= i < |remaining| ==> remaining[i] < |relevance|
  {
    seq(|remaining|, i requires 0 <= i < |remaining| => relevance[remaining[i]])
  }

  lemma BestOfPool(remaining: seq<nat>, selected: seq<nat>, relevance: seq<real>, words: seq<set<string>>, weight: real,
                   best: nat, score: real)
    requires Pool(remaining, selected, |relevance|)
    requires forall i :: 0 <= i < |remaining| ==> remaining[i] < |relevance|
    requires BestSoFar(PoolScores(remaining, selected, relevance, words, weight), PoolRelevances(remaining, relevance),
                       |remaining|, best, score)
    ensures BestPick(remaining[best], selected, NormalizedAll(relevance), SnippetSim(words), weight)
    ensures TieBroken(remaining[best], selected, relevance, words, weight)
  {
    var norm, sim := NormalizedAll(relevance), SnippetSim(words);
    var scores, relevances :=
      PoolScores(remaining, selected, relevance, words, weight), PoolRelevances(remaining, relevance);
    forall u: nat | u < |relevance| && u !in selected
      ensures Marginal(u, selected, norm, sim, weight) <= Marginal(remaining[best], selected, norm, sim, weight)
      ensures Marginal(u, selected, norm, sim, weight) == Marginal(remaining[best], selected, norm, sim, weight) ==>
                relevance[u] <= relevance[remaining[best]]
    {
      assert u in remaining;
      var i :| 0 <= i < |remaining| && remaining[i] == u;
      assert scores[i] == Marginal(u, selected, norm, sim, weight) && relevances[i] == relevance[u];
    }
  }

  /** Position in the pool of the candidate with the largest marginal score, the most relevant one among equals. */
  method BestPosition(relevance: seq<real>, tokenCache: seq<set<string>>, weight: real, selected: seq<nat>,
                      remaining: seq<nat>)
      returns (best: nat)
    requires relevance != [] && |tokenCache| == |relevance|
    requires Pool(remaining, selected, |relevance|) && remaining != []
    requires forall k :: 0 <= k < |selected| ==> selected[k] < |relevance|
    ensures best < |remaining| && remaining[best] < |relevance| && remaining[best] !in selected
    ensures BestPick(remaining[best], selected, NormalizedAll(relevance), SnippetSim(tokenCache), weight)
    ensures TieBroken(remaining[best], selected, relevance, tokenCache, weight)
  {
    assert forall i :: 0 <= i < |remaining| ==> remaining[i] in remaining;
    ghost var scores := PoolScores(remaining, selected, relevance, tokenCache, weight);
    ghost var relevances := PoolRelevances(remaining, relevance);
    var minScore, range := Smallest(relevance), Range(relevance);
    best := 0;
    var bestMmr := 0.0;
    for pos := 0 to |remaining|
      invariant pos == 0 ==> best == 0
      invariant pos > 0 ==> BestSoFar(scores, relevances, pos, best, bestMmr)
    {
      var candidate := remaining[pos];
      var mmrScore := MmrScore(candidate, relevance, tokenCache, weight, selected, minScore, range);
      assert scores[pos] == mmrScore && relevances[pos] == relevance[candidate];
      if pos == 0 || mmrScore > bestMmr
        || (mmrScore == bestMmr && relevance[candidate] > relevance[remaining[best]])
      {
        bestMmr := mmrScore;
        best := pos;
      }
    }
    BestOfPool(remaining, selected, relevance, tokenCache, weight, best, bestMmr);
  }
}
