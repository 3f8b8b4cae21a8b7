/** Three-tier recall: history, working memory and recency share one token budget and one set of used turns. */
module Recalls {
  import opened Prelude
  import opened Ranking
  import opened InvertedIndexes
  import opened Scorers
  import opened Diversity
  import opened Searchers
  import opened Texts

  const MIN_QUERY: nat := 10
  const OVERHEAD: nat := 15
  const DEDUP_LIMIT: nat := 50
  const DEDUP_KEPT: nat := 30

  datatype RecallConfig = RecallConfig(
    maxTokensPerTurn: nat, maxInjectionsPerTurn: nat, maxCandidatesPerTier: nat, recentTurnsExcluded: nat,
    historyThreshold: real, workingMemoryThreshold: real, recencyThreshold: real,
    recencyWeight: real, decayLambda: real)

  datatype TurnMeta = TurnMeta(role: string, content: string, isCompacted: bool, turnNumber: nat)

  datatype RecallTier = History | Working | Recency

  datatype RecallResult = RecallResult(
    turnId: nat, role: string, content: string, score: real, decayedScore: real, tier: RecallTier, isCompacted: bool)

  function TurnId(r: RecallResult): nat { r.turnId }
  function Decayed(r: RecallResult): real { r.decayedScore }
  function DocId(r: SearchResult): nat { r.docId }

  ghost function TurnIds(results: seq<RecallResult>): set<nat> {
    set r | r in results :: r.turnId
  }

  /** Keeps the values that `f` gives, in order. */
  function FilterMap<T, U>(f: T -> Option<U>, items: seq<T>): seq<U> {
    if items == [] then []
    else
      var rest := FilterMap(f, items[1..]);
      match f(items[0]) { case None => rest case Some(u) => [u] + rest }
  }

  /** Everything one recall reads: the turns, the configuration, `exp`, the token estimate and the query time. */
  datatype Context = Context(
    config: RecallConfig, turns: seq<TurnMeta>, exp: real -> real, estimateTokens: string -> nat)
  {
    function CurrentTurn(): nat {
      if turns == [] then 0 else turns[|turns| - 1].turnNumber
    }

    function DecayScore(score: real, turnNumber: nat): real {
      Decay(score, if CurrentTurn() < turnNumber then 0 else CurrentTurn() - turnNumber)
    }

    function Decay(score: real, age: nat): real {
      score * exp(-config.decayLambda * age as real)
    }

    function Result(docId: nat, score: real, tier: RecallTier): RecallResult
      requires docId < |turns|
    {
      var meta := turns[docId];
      RecallResult(docId, meta.role, meta.content, score, DecayScore(score, meta.turnNumber), tier, meta.isCompacted)
    }

    function RecentStart(): nat {
      if |turns| < config.recentTurnsExcluded then 0 else |turns| - config.recentTurnsExcluded
    }

    function Boosted(r: SearchResult): real
      requires r.docId < |turns|
    {
      r.score * (1.0 + config.recencyWeight * (turns[r.docId].turnNumber as real / Max(|turns| as real, 1.0)))
    }

    /** The candidate as a result of the given tier, when it qualifies for it. */
    function Qualify(tier: RecallTier, used: set<nat>, r: SearchResult): Option<RecallResult> {
      if r.docId >= |turns| || r.docId in used then None
      else
        var meta := turns[r.docId];
        match tier
        case History =>
          var result := Result(r.docId, r.score, History);
          if meta.isCompacted && result.decayedScore >= config.historyThreshold then Some(result) else None
        case Working =>
          var result := Result(r.docId, r.score, Working);
          if !meta.isCompacted && meta.turnNumber < RecentStart()
            && result.decayedScore >= config.workingMemoryThreshold then Some(result) else None
        case Recency =>
          var result := Result(r.docId, Boosted(r), Recency);
          if result.decayedScore >= config.recencyThreshold then Some(result) else None
    }

    function CostOf(r: RecallResult): nat {
      estimateTokens(r.content) + OVERHEAD
    }

    function Cost(): RecallResult -> nat {
      (r: RecallResult) => CostOf(r)
    }

    /** The best candidates of a tier, by decayed score. */
    function Best(tier: RecallTier, used: set<nat>, candidates: seq<SearchResult>): seq<RecallResult> {
      Take(SortDesc(FilterMap((r: SearchResult) => Qualify(tier, used, r), candidates), Decayed),
        config.maxCandidatesPerTier)
    }
  }

  // ---------------------------------------------------------------------
  // What a tier asks of a hit
  // ---------------------------------------------------------------------

  /** How many turn numbers ago, seen from the last turn. */
  ghost function Age(c: Context, turnNumber: nat): nat {
    var now := if c.turns == [] then 0 else c.turns[|c.turns| - 1].turnNumber;
    if now < turnNumber then 0 else now - turnNumber
  }

  /** The score of a hit in a tier: its own, or boosted by how late its turn is. */
  ghost function HitScore(c: Context, tier: RecallTier, hit: SearchResult): real
    requires hit.docId < |c.turns|
  {
    if tier == Recency then
      hit.score
      * (1.0 + c.config.recencyWeight * (c.turns[hit.docId].turnNumber as real / |c.turns| as real))
    else hit.score
  }

  ghost function Fade(c: Context, score: real, age: nat): real {
    score * c.exp(-c.config.decayLambda * age as real)
  }

  /** The score of the hit after exponential decay with the age of its turn. */
  ghost function Faded(c: Context, tier: RecallTier, hit: SearchResult): real
    requires hit.docId < |c.turns|
  {
    Fade(c, HitScore(c, tier, hit), Age(c, c.turns[hit.docId].turnNumber))
  }

  /** The hit meets the conditions of the tier. */
  ghost predicate Eligible(c: Context, tier: RecallTier, hit: SearchResult) {
    && hit.docId < |c.turns|
    && var turn := c.turns[hit.docId];
       match tier
       case History => turn.isCompacted && Faded(c, tier, hit) >= c.config.historyThreshold
       case Working =>
         && !turn.isCompacted
         && turn.turnNumber + c.config.recentTurnsExcluded < |c.turns|
         && Faded(c, tier, hit) >= c.config.workingMemoryThreshold
       case Recency => Faded(c, tier, hit) >= c.config.recencyThreshold
  }

  /** What a recall answers for the hit: the turn's own data and both scores. */
  ghost function ResultOf(c: Context, tier: RecallTier, hit: SearchResult): RecallResult
    requires hit.docId < |c.turns|
  {
    var turn := c.turns[hit.docId];
    RecallResult(hit.docId, turn.role, turn.content, HitScore(c, tier, hit), Faded(c, tier, hit), tier,
                 turn.isCompacted)
  }

  lemma BoostMeans(c: Context, hit: SearchResult)
    requires hit.docId < |c.turns|
    ensures c.Boosted(hit) == HitScore(c, Recency, hit)
  {
    var n, number := |c.turns| as real, c.turns[hit.docId].turnNumber as real;
    assert Max(n, 1.0) == n;
    assert number / Max(n, 1.0) == number / n;
  }

  lemma ResultMeans(c: Context, tier: RecallTier, hit: SearchResult, score: real)
    requires hit.docId < |c.turns| && score == HitScore(c, tier, hit)
    ensures c.Result(hit.docId, score, tier) == ResultOf(c, tier, hit)
  {
    FadeMeans(c, score, Age(c, c.turns[hit.docId].turnNumber));
  }

  lemma FadeMeans(c: Context, score: real, age: nat)
    ensures c.Decay(score, age) == Fade(c, score, age)
  {
  }

  /** A hit qualifies exactly when its turn is unused and it meets the tier's conditions. */
  lemma QualifyMeans(c: Context, tier: RecallTier, used: set<nat>, hit: SearchResult)
    ensures c.Qualify(tier, used, hit) ==
            if hit.docId !in used && Eligible(c, tier, hit) then Some(ResultOf(c, tier, hit)) else None
  {
    if hit.docId < |c.turns| {
      match tier
      case History => ResultMeans(c, History, hit, hit.score);
      case Working => ResultMeans(c, Working, hit, hit.score);
      case Recency =>
        BoostMeans(c, hit);
        ResultMeans(c, Recency, hit, c.Boosted(hit));
    }
  }

  /** The result is that of a hit which meets the conditions of the result's tier. */
  ghost predicate FromHit(c: Context, hits: set<SearchResult>, u: RecallResult) {
    exists hit :: hit in hits && Answers(c, hit, u)
  }

  ghost predicate Answers(c: Context, hit: SearchResult, u: RecallResult) {
    Eligible(c, u.tier, hit) && u == ResultOf(c, u.tier, hit)
  }

  // ---------------------------------------------------------------------
  // The candidates of a tier
  // ---------------------------------------------------------------------

  ghost function Found(c: Context, tier: RecallTier, used: set<nat>, candidates: seq<SearchResult>): seq<RecallResult>
  {
    FilterMap((r: SearchResult) => c.Qualify(tier, used, r), candidates)
  }

  ghost predicate Offers(c: Context, tier: RecallTier, used: set<nat>, hit: SearchResult, u: RecallResult) {
    hit.docId !in used && Eligible(c, tier, hit) && u == ResultOf(c, tier, hit)
  }

  /** The filter finds the results of exactly the unused hits that meet the conditions. */
  lemma {:induction false} FoundExactly(c: Context, tier: RecallTier, used: set<nat>, candidates: seq<SearchResult>,
                                        u: RecallResult)
    ensures u in Found(c, tier, used, candidates) <==>
            exists hit {:trigger Offers(c, tier, used, hit, u)} :: hit in candidates && Offers(c, tier, used, hit, u)
  {
    if candidates != [] {
      var rest := candidates[1..];
      FoundExactly(c, tier, used, rest, u);
      QualifyMeans(c, tier, used, candidates[0]);
      assert forall hit :: hit in candidates <==> hit == candidates[0] || hit in rest;
      assert u in Found(c, tier, used, candidates) <==>
             Offers(c, tier, used, candidates[0], u) || u in Found(c, tier, used, rest);
    }
  }

  lemma {:induction false} FoundDistinct(c: Context, tier: RecallTier, used: set<nat>, candidates: seq<SearchResult>)
    requires DistinctBy(DocId, candidates)
    ensures DistinctBy(TurnId, Found(c, tier, used, candidates))
  {
    if candidates != [] {
      var rest := candidates[1..];
      assert forall i :: 0 <= i < |rest| ==> rest[i] == candidates[i + 1];
      FoundDistinct(c, tier, used, rest);
      QualifyMeans(c, tier, used, candidates[0]);
      var found := Found(c, tier, used, rest);
      forall i | 0 <= i < |found| ensures found[i].turnId != candidates[0].docId {
        FoundExactly(c, tier, used, rest, found[i]);
        var hit :| hit in rest && Offers(c, tier, used, hit, found[i]);
        var k :| 0 <= k < |rest| && rest[k] == hit;
        assert DocId(candidates[0]) != DocId(candidates[k + 1]);
      }
    }
  }

  lemma BestOf(c: Context, tier: RecallTier, used: set<nat>, candidates: seq<SearchResult>)
    requires DistinctBy(DocId, candidates)
    ensures var (found, best) := (Found(c, tier, used, candidates), c.Best(tier, used, candidates));
            && DistinctBy(TurnId, best) && SortedDesc(best, Decayed) && |best| <= c.config.maxCandidatesPerTier
            && (forall u :: u in best ==> u in found)
            && (forall u :: u in found && u !in best ==>
                  |best| == c.config.maxCandidatesPerTier
                  && forall v :: v in best ==> v.decayedScore >= u.decayedScore && v.turnId != u.turnId)
  {
    var found := Found(c, tier, used, candidates);
    var sorted := SortDesc(found, Decayed);
    FoundDistinct(c, tier, used, candidates);
    SortDescCorrect(found, Decayed);
    SortDescMembers(found, Decayed);
    PermutedDistinctBy(TurnId, found, sorted);
    TopOf(sorted, c.config.maxCandidatesPerTier);
  }

  /** The first `k` of a descending list: whatever is not among them is no better than any of them. */
  lemma TopOf(sorted: seq<RecallResult>, k: nat)
    requires SortedDesc(sorted, Decayed) && DistinctBy(TurnId, sorted)
    ensures var top := Take(sorted, k);
            && |top| <= k && DistinctBy(TurnId, top) && SortedDesc(top, Decayed)
            && (forall u :: u in top ==> u in sorted)
            && (forall u :: u in sorted && u !in top ==>
                  |top| == k && forall v :: v in top ==> v.decayedScore >= u.decayedScore && v.turnId != u.turnId)
  {
    var top := Take(sorted, k);
    forall u, v | u in sorted && u !in top && v in top ensures v.decayedScore >= u.decayedScore && v.turnId != u.turnId
    {
      var i :| 0 <= i < |sorted| && sorted[i] == u;
      var j :| 0 <= j < |top| && top[j] == v;
      assert top == sorted[..|top|];
      assert i >= |top|;
      assert Decayed(sorted[j]) >= Decayed(sorted[i]) && TurnId(sorted[j]) != TurnId(sorted[i]);
    }
  }

  lemma {:induction false} FittingDistinct<T>(id: T -> nat, cost: T -> nat, items: seq<T>, budget: nat)
    requires DistinctBy(id, items)
    ensures DistinctBy(id, Fitting(cost, items, budget))
  {
    if items != [] {
      var left := if cost(items[0]) <= budget then budget - cost(items[0]) else budget;
      FittingDistinct(id, cost, items[1..], left);
      FittingWithinBudget(cost, items[1..], left);
      var rest := Fitting(cost, items[1..], left);
      forall i | 0 <= i < |rest| ensures id(rest[i]) != id(items[0]) {
        assert rest[i] in rest;
        var k :| 0 <= k < |items[1..]| && items[1..][k] == rest[i];
        assert items[k + 1] == rest[i];
      }
    }
  }

  /** What one tier adds: distinct results of unused hits that meet its conditions, within the budget. */
  lemma TierSound(c: Context, tier: RecallTier, used: set<nat>, candidates: seq<SearchResult>, budget: nat)
    requires DistinctBy(DocId, candidates)
    ensures var added := Fitting(c.Cost(), c.Best(tier, used, candidates), budget);
            && DistinctBy(TurnId, added) && TotalCost(c.Cost(), added) <= budget
            && (forall u :: u in added ==> FromHit(c, Elements(candidates), u) && u.tier == tier && u.turnId !in used)
  {
    var best := c.Best(tier, used, candidates);
    var added := Fitting(c.Cost(), best, budget);
    BestOf(c, tier, used, candidates);
    FittingWithinBudget(c.Cost(), best, budget);
    FittingDistinct(TurnId, c.Cost(), best, budget);
    forall u | u in added ensures FromHit(c, Elements(candidates), u) && u.tier == tier && u.turnId !in used {
      FoundExactly(c, tier, used, candidates, u);
      var hit :| hit in candidates && Offers(c, tier, used, hit, u);
      assert hit in Elements(candidates) && Answers(c, hit, u);
    }
  }

  // ---------------------------------------------------------------------
  // Why an eligible hit is not picked
  // ---------------------------------------------------------------------

  ghost function Rank(tier: RecallTier): nat {
    match tier case History => 0 case Working => 1 case Recency => 2
  }

  /** Tokens of the results, each with its overhead. */
  ghost function Tokens(c: Context, results: seq<RecallResult>): nat {
    if results == [] then 0
    else Tokens(c, results[..|results| - 1]) + c.estimateTokens(results[|results| - 1].content) + 15
  }

  lemma {:induction false} TokensAreCost(c: Context, results: seq<RecallResult>)
    ensures Tokens(c, results) == TotalCost(c.Cost(), results)
  {
    if results != [] {
      var (init, last) := (results[..|results| - 1], results[|results| - 1]);
      TokensAreCost(c, init);
      TotalCostAppend(c.Cost(), init, [last]);
      assert results == init + [last];
    }
  }

  /** As many turns as a tier may take have hits that meet its conditions and are no worse. */
  ghost predicate Outranked(c: Context, hits: set<SearchResult>, tier: RecallTier, hit: SearchResult,
                            better: set<nat>)
    requires hit.docId < |c.turns|
  {
    && |better| == c.config.maxCandidatesPerTier
    && hit.docId !in better
    && forall d :: d in better ==> exists other :: other in hits && other.docId == d && NoWorse(c, tier, other, hit)
  }

  ghost predicate NoWorse(c: Context, tier: RecallTier, other: SearchResult, hit: SearchResult)
    requires hit.docId < |c.turns|
  {
    Eligible(c, tier, other) && Faded(c, tier, other) >= Faded(c, tier, hit)
  }

  /** The first `n` picks came before the hit's turn, the others after it, and the budget left did not cover it. */
  ghost predicate TooDear(c: Context, picked: seq<RecallResult>, tier: RecallTier, hit: SearchResult, n: nat)
    requires hit.docId < |c.turns|
  {
    && n <= |picked|
    && Tokens(c, picked[..n]) + c.estimateTokens(c.turns[hit.docId].content) + 15 > c.config.maxTokensPerTurn
    && (forall k :: 0 <= k < n ==>
          Rank(picked[k].tier) < Rank(tier)
          || (picked[k].tier == tier && picked[k].decayedScore >= Faded(c, tier, hit)))
    && (forall k :: n <= k < |picked| ==>
          Rank(picked[k].tier) > Rank(tier)
          || (picked[k].tier == tier && picked[k].decayedScore <= Faded(c, tier, hit)))
  }

  ghost predicate PassedOver(c: Context, hits: set<SearchResult>, picked: seq<RecallResult>, tier: RecallTier,
                             hit: SearchResult)
    requires hit.docId < |c.turns|
  {
    || (exists better :: Outranked(c, hits, tier, hit, better))
    || (exists n :: TooDear(c, picked, tier, hit, n))
  }

  /** A hit that meets the conditions of a tier done so far was picked, or outranked, or too dear. */
  ghost predicate Explained(c: Context, hits: set<SearchResult>, picked: seq<RecallResult>, tiers: nat,
                            tier: RecallTier, hit: SearchResult)
  {
    Rank(tier) < tiers && hit in hits && Eligible(c, tier, hit) ==>
      hit.docId in TurnIds(picked) || PassedOver(c, hits, picked, tier, hit)
  }

  /** An item the budget did not cover: what was spent on better ones before it, and that the rest is no better. */
  lemma {:induction false} FittingSkips(cost: RecallResult -> nat, items: seq<RecallResult>, budget: nat, i: nat)
      returns (n: nat)
    requires SortedDesc(items, Decayed) && i < |items| && items[i] !in Fitting(cost, items, budget)
    ensures var taken := Fitting(cost, items, budget);
            && n <= |taken|
            && TotalCost(cost, taken[..n]) + cost(items[i]) > budget
            && (forall k :: 0 <= k < n ==> taken[k].decayedScore >= items[i].decayedScore)
            && (forall k :: n <= k < |taken| ==> taken[k].decayedScore <= items[i].decayedScore)
  {
    var taken, rest := Fitting(cost, items, budget), items[1..];
    assert forall k :: 0 <= k < |rest| ==> rest[k] == items[k + 1];
    if i == 0 {
      n := 0;
      FittingWithinBudget(cost, rest, budget);
      forall k | 0 <= k < |taken| ensures taken[k].decayedScore <= items[0].decayedScore {
        assert taken[k] in taken;
        var m :| 0 <= m < |rest| && rest[m] == taken[k];
        assert Decayed(items[0]) >= Decayed(items[m + 1]);
      }
    } else if cost(items[0]) <= budget {
      var m := FittingSkips(cost, rest, budget - cost(items[0]), i - 1);
      var later := Fitting(cost, rest, budget - cost(items[0]));
      n := m + 1;
      assert taken[..n] == [items[0]] + later[..m];
      assert ([items[0]] + later[..m])[1..] == later[..m];
      assert Decayed(items[0]) >= Decayed(items[i]);
    } else {
      n := FittingSkips(cost, rest, budget, i - 1);
    }
  }

  lemma NotAmongBest(c: Context, tier: RecallTier, used: set<nat>, candidates: seq<SearchResult>, hit: SearchResult)
    requires DistinctBy(DocId, candidates) && hit in candidates
    requires hit.docId !in used && Eligible(c, tier, hit)
    requires ResultOf(c, tier, hit) !in c.Best(tier, used, candidates)
    ensures Outranked(c, Elements(candidates), tier, hit, TurnIds(c.Best(tier, used, candidates)))
  {
    var best, u := c.Best(tier, used, candidates), ResultOf(c, tier, hit);
    BestOf(c, tier, used, candidates);
    FoundExactly(c, tier, used, candidates, u);
    assert Offers(c, tier, used, hit, u);
    TurnIdsSize(best);
    forall d | d in TurnIds(best)
      ensures exists other :: other in Elements(candidates) && other.docId == d && NoWorse(c, tier, other, hit)
    {
      var v :| v in best && v.turnId == d;
      FoundExactly(c, tier, used, candidates, v);
      var other :| other in candidates && Offers(c, tier, used, other, v);
      assert other in Elements(candidates) && NoWorse(c, tier, other, hit);
    }
  }

  lemma {:induction false} TurnIdsSize(results: seq<RecallResult>)
    requires DistinctBy(TurnId, results)
    ensures |TurnIds(results)| == |results|
  {
    if results != [] {
      var (init, last) := (results[..|results| - 1], results[|results| - 1]);
      TurnIdsSize(init);
      assert results == init + [last];
      assert TurnIds(results) == TurnIds(init) + {last.turnId};
      assert forall u :: u in init ==> TurnId(u) != TurnId(last);
    }
  }

  lemma {:induction false} TotalInsert(cost: RecallResult -> nat, s: seq<RecallResult>, x: RecallResult)
    ensures TotalCost(cost, InsertDesc(s, Decayed, x)) == TotalCost(cost, s) + cost(x)
  {
    if s != [] {
      if Decayed(s[0]) >= Decayed(x) {
        TotalInsert(cost, s[1..], x);
        assert ([s[0]] + InsertDesc(s[1..], Decayed, x))[1..] == InsertDesc(s[1..], Decayed, x);
      } else {
        assert ([x] + s)[1..] == s;
      }
    }
  }

  lemma {:induction false} TotalSorted(cost: RecallResult -> nat, s: seq<RecallResult>)
    ensures TotalCost(cost, SortDesc(s, Decayed)) == TotalCost(cost, s)
  {
    if s != [] {
      var init, x := s[..|s| - 1], s[|s| - 1];
      TotalSorted(cost, init);
      TotalInsert(cost, SortDesc(init, Decayed), x);
      TotalCostAppend(cost, init, [x]);
      assert s == init + [x];
    }
  }

  lemma TotalTake<T>(cost: T -> nat, s: seq<T>, k: nat)
    ensures TotalCost(cost, Take(s, k)) <= TotalCost(cost, s)
  {
    if k < |s| {
      assert s == s[..k] + s[k..];
      TotalCostAppend(cost, s[..k], s[k..]);
    }
  }

  // ---------------------------------------------------------------------
  // The promise of one recall
  // ---------------------------------------------------------------------

  /** What the tiers of rank below `tiers` have collected: distinct results of hits within the budget. */
  ghost predicate Collected(c: Context, hits: set<SearchResult>, tiers: nat, picked: seq<RecallResult>,
                            used: set<nat>, budget: nat)
  {
    && DistinctBy(TurnId, picked) && used == TurnIds(picked)
    && TotalCost(c.Cost(), picked) + budget == c.config.maxTokensPerTurn
    && (forall u :: u in picked ==> FromHit(c, hits, u) && Rank(u.tier) < tiers)
  }

  ghost predicate AllExplained(c: Context, hits: set<SearchResult>, tiers: nat, picked: seq<RecallResult>) {
    forall tier, hit {:trigger Explained(c, hits, picked, tiers, tier, hit)} ::
      Explained(c, hits, picked, tiers, tier, hit)
  }

  /** Where the passes stand once the tiers of rank below `tiers` are done. */
  ghost predicate Passed(c: Context, hits: set<SearchResult>, tiers: nat, picked: seq<RecallResult>, used: set<nat>,
                         budget: nat)
  {
    Collected(c, hits, tiers, picked, used, budget) && AllExplained(c, hits, tiers, picked)
  }

  lemma NonePassed(c: Context, hits: set<SearchResult>)
    ensures Passed(c, hits, 0, [], {}, c.config.maxTokensPerTurn)
  {
    forall tier, hit ensures Explained(c, hits, [], 0, tier, hit) {
    }
  }

  /** Everything the tiers picked: results of hits within the budget, and no other eligible hit had a claim. */
  ghost predicate Picked(c: Context, hits: set<SearchResult>, picked: seq<RecallResult>) {
    && (forall i, j :: 0 <= i < j < |picked| ==> picked[i].turnId != picked[j].turnId)
    && Tokens(c, picked) <= c.config.maxTokensPerTurn
    && (forall u :: u in picked ==> FromHit(c, hits, u))
    && AllExplained(c, hits, 3, picked)
  }

  /** The answer of a recall: the best of the picks, as many as allowed, best first. */
  ghost predicate Recalled(c: Context, picked: seq<RecallResult>, results: seq<RecallResult>) {
    && (forall u :: u in results ==> u in picked)
    && (forall i, j :: 0 <= i < j < |results| ==>
          results[i].turnId != results[j].turnId && results[i].decayedScore >= results[j].decayedScore)
    && |results| <= c.config.maxInjectionsPerTurn
    && Tokens(c, results) <= c.config.maxTokensPerTurn
    && (forall u :: u in picked && u !in results ==>
          |results| == c.config.maxInjectionsPerTurn
          && forall v :: v in results ==> v.decayedScore >= u.decayedScore)
  }

  lemma CollectTier(c: Context, candidates: seq<SearchResult>, picked: seq<RecallResult>, used: set<nat>,
                    budget: nat, tier: RecallTier)
    requires DistinctBy(DocId, candidates)
    requires Collected(c, Elements(candidates), Rank(tier), picked, used, budget)
    ensures var added := Fitting(c.Cost(), c.Best(tier, used, candidates), budget);
            && TotalCost(c.Cost(), added) <= budget
            && Collected(c, Elements(candidates), Rank(tier) + 1, picked + added, used + TurnIds(added),
                         budget - TotalCost(c.Cost(), added))
  {
    var added := Fitting(c.Cost(), c.Best(tier, used, candidates), budget);
    TierSound(c, tier, used, candidates, budget);
    TotalCostAppend(c.Cost(), picked, added);
    JoinDistinct(picked, added);
  }

  lemma JoinDistinct(a: seq<RecallResult>, b: seq<RecallResult>)
    requires DistinctBy(TurnId, a) && DistinctBy(TurnId, b)
    requires forall u :: u in b ==> u.turnId !in TurnIds(a)
    ensures DistinctBy(TurnId, a + b) && TurnIds(a + b) == TurnIds(a) + TurnIds(b)
  {
    forall i, j | 0 <= i < |a| && 0 <= j < |b| ensures a[i].turnId != b[j].turnId {
      assert a[i] in a && b[j] in b;
    }
  }

  lemma InOrder(c: Context, picked: seq<RecallResult>, added: seq<RecallResult>, tier: RecallTier, hit: SearchResult,
                m: nat)
    requires hit.docId < |c.turns| && m <= |added|
    requires forall u :: u in picked ==> Rank(u.tier) < Rank(tier)
    requires forall u :: u in added ==> u.tier == tier
    requires forall k :: 0 <= k < m ==> added[k].decayedScore >= Faded(c, tier, hit)
    requires forall k :: m <= k < |added| ==> added[k].decayedScore <= Faded(c, tier, hit)
    ensures var (all, n) := (picked + added, |picked| + m);
            && (forall k :: 0 <= k < n ==>
                  Rank(all[k].tier) < Rank(tier)
                  || (all[k].tier == tier && all[k].decayedScore >= Faded(c, tier, hit)))
            && (forall k :: n <= k < |all| ==>
                  Rank(all[k].tier) > Rank(tier)
                  || (all[k].tier == tier && all[k].decayedScore <= Faded(c, tier, hit)))
  {
    assert forall k :: 0 <= k < |picked| ==> picked[k] in picked;
    assert forall k :: 0 <= k < |added| ==> added[k] in added;
  }

  /** What a pass could not pay for, in terms of all picks so far. */
  lemma DearCost(c: Context, picked: seq<RecallResult>, budget: nat, added: seq<RecallResult>, m: nat, price: nat)
    requires m <= |added| && TotalCost(c.Cost(), added[..m]) + price > budget
    requires TotalCost(c.Cost(), picked) + budget == c.config.maxTokensPerTurn
    ensures Tokens(c, (picked + added)[..|picked| + m]) + price > c.config.maxTokensPerTurn
  {
    var paid := picked + added[..m];
    assert (picked + added)[..|picked| + m] == paid;
    TotalCostAppend(c.Cost(), picked, added[..m]);
    TokensAreCost(c, paid);
  }

  lemma ExplainPass(c: Context, candidates: seq<SearchResult>, picked: seq<RecallResult>, used: set<nat>,
                    budget: nat, tier: RecallTier, hit: SearchResult)
    requires DistinctBy(DocId, candidates) && hit in candidates && Eligible(c, tier, hit)
    requires Collected(c, Elements(candidates), Rank(tier), picked, used, budget)
    ensures var all := picked + Fitting(c.Cost(), c.Best(tier, used, candidates), budget);
            hit.docId in TurnIds(all) || PassedOver(c, Elements(candidates), all, tier, hit)
  {
    var best, u := c.Best(tier, used, candidates), ResultOf(c, tier, hit);
    var added := Fitting(c.Cost(), best, budget);
    if hit.docId in used {
      var v :| v in picked && v.turnId == hit.docId;
      assert v in picked + added;
    } else if u in added {
      assert u in picked + added && u.turnId == hit.docId;
    } else if u !in best {
      NotAmongBest(c, tier, used, candidates, hit);
    } else {
      BestOf(c, tier, used, candidates);
      BestTier(c, tier, used, candidates);
      var i :| 0 <= i < |best| && best[i] == u;
      var m := FittingSkips(c.Cost(), best, budget, i);
      FittingWithinBudget(c.Cost(), best, budget);
      DearCost(c, picked, budget, added, m, c.Cost()(u));
      InOrder(c, picked, added, tier, hit, m);
      assert TooDear(c, picked + added, tier, hit, |picked| + m);
    }
  }

  lemma BestTier(c: Context, tier: RecallTier, used: set<nat>, candidates: seq<SearchResult>)
    requires DistinctBy(DocId, candidates)
    ensures forall u :: u in c.Best(tier, used, candidates) ==> u.tier == tier
  {
    BestOf(c, tier, used, candidates);
    forall u | u in c.Best(tier, used, candidates) ensures u.tier == tier {
      FoundExactly(c, tier, used, candidates, u);
    }
  }

  /** Later tiers pick after everything before them, so what explained a hit still does. */
  lemma StillPassedOver(c: Context, hits: set<SearchResult>, picked: seq<RecallResult>, added: seq<RecallResult>,
                        tier: RecallTier, hit: SearchResult)
    requires hit.docId < |c.turns| && PassedOver(c, hits, picked, tier, hit)
    requires forall u :: u in added ==> Rank(u.tier) > Rank(tier)
    ensures PassedOver(c, hits, picked + added, tier, hit)
  {
    if n: nat :| TooDear(c, picked, tier, hit, n) {
      var all := picked + added;
      assert all[..n] == picked[..n];
      forall k | n <= k < |all| ensures Rank(all[k].tier) > Rank(tier)
        || (all[k].tier == tier && all[k].decayedScore <= Faded(c, tier, hit))
      {
        if k >= |picked| {
          assert all[k] in added;
        }
      }
      assert TooDear(c, all, tier, hit, n);
    }
  }

  lemma ExplainTier(c: Context, candidates: seq<SearchResult>, picked: seq<RecallResult>, used: set<nat>,
                    budget: nat, tier: RecallTier)
    requires DistinctBy(DocId, candidates)
    requires Collected(c, Elements(candidates), Rank(tier), picked, used, budget)
    requires AllExplained(c, Elements(candidates), Rank(tier), picked)
    ensures AllExplained(c, Elements(candidates), Rank(tier) + 1,
                         picked + Fitting(c.Cost(), c.Best(tier, used, candidates), budget))
  {
    var hits, added := Elements(candidates), Fitting(c.Cost(), c.Best(tier, used, candidates), budget);
    var (all, tiers) := (picked + added, Rank(tier) + 1);
    TierSound(c, tier, used, candidates, budget);
    forall earlier, hit ensures Explained(c, hits, all, tiers, earlier, hit) {
      if hit in hits && Eligible(c, earlier, hit) && Rank(earlier) < Rank(tier) {
        assert Explained(c, hits, picked, Rank(tier), earlier, hit);
        JoinedIds(picked, added);
        if hit.docId !in TurnIds(picked) {
          StillPassedOver(c, hits, picked, added, earlier, hit);
        }
      } else if hit in hits && Eligible(c, earlier, hit) && Rank(earlier) == Rank(tier) {
        ExplainPass(c, candidates, picked, used, budget, tier, hit);
      }
    }
  }

  lemma JoinedIds(a: seq<RecallResult>, b: seq<RecallResult>)
    ensures TurnIds(a + b) == TurnIds(a) + TurnIds(b)
  {
  }

  /** Sorting the picks and cutting them off. */
  lemma FinishRecall(c: Context, picked: seq<RecallResult>)
    requires DistinctBy(TurnId, picked) && Tokens(c, picked) <= c.config.maxTokensPerTurn
    ensures Recalled(c, picked, Take(SortDesc(picked, Decayed), c.config.maxInjectionsPerTurn))
  {
    var sorted := SortDesc(picked, Decayed);
    SortDescCorrect(picked, Decayed);
    SortDescMembers(picked, Decayed);
    PermutedDistinctBy(TurnId, picked, sorted);
    TopOf(sorted, c.config.maxInjectionsPerTurn);
    var top := Take(sorted, c.config.maxInjectionsPerTurn);
    TokensAreCost(c, picked);
    TokensAreCost(c, top);
    TotalSorted(c.Cost(), picked);
    TotalTake(c.Cost(), sorted, c.config.maxInjectionsPerTurn);
    forall i, j | 0 <= i < j < |top|
      ensures top[i].turnId != top[j].turnId && top[i].decayedScore >= top[j].decayedScore
    {
      assert TurnId(top[i]) != TurnId(top[j]) && Decayed(top[i]) >= Decayed(top[j]);
    }
  }

  lemma PicksOk(c: Context, hits: set<SearchResult>, picked: seq<RecallResult>, used: set<nat>, budget: nat)
    requires Passed(c, hits, 3, picked, used, budget)
    ensures Picked(c, hits, picked) && DistinctBy(TurnId, picked)
  {
    TokensAreCost(c, picked);
    forall i, j | 0 <= i < j < |picked| ensures picked[i].turnId != picked[j].turnId {
      assert TurnId(picked[i]) != TurnId(picked[j]);
    }
  }

  /** Hits on turns not handed out recently. */
  ghost function FreshHits(raw: seq<SearchResult>, recent: set<nat>): set<SearchResult> {
    set hit | hit in raw && hit.docId !in recent
  }

  lemma NothingFound(c: Context, hits: set<SearchResult>)
    requires hits == {}
    ensures Picked(c, hits, [])
  {
    forall tier, hit ensures Explained(c, hits, [], 3, tier, hit) {
    }
  }

  lemma AnswersFresh(c: Context, raw: seq<SearchResult>, recent: set<nat>, picked: seq<RecallResult>,
                     results: seq<RecallResult>)
    requires Picked(c, FreshHits(raw, recent), picked) && Recalled(c, picked, results)
    ensures TurnIds(results) !! recent
  {
    forall u | u in results ensures u.turnId !in recent {
      assert FromHit(c, FreshHits(raw, recent), u);
    }
  }

  class RecallEngine {
    const config: RecallConfig
    const exp: real -> real
    const estimateTokens: string -> nat
    /** The number of bytes of a character, in which the query is measured. */
    const width: char -> nat
    var turns: seq<TurnMeta>
    var recentlyRetrieved: set<nat>
    /** The turns of each recall since the dedup set was last cut or reset. */
    ghost var handedOut: seq<set<nat>>

    function Now(): Context
      reads this
    {
      Context(config, turns, exp, estimateTokens)
    }

    /** Recalls with no eviction or reset between them never repeat a turn. */
    ghost predicate Valid()
      reads this
    {
      && |recentlyRetrieved| <= DEDUP_LIMIT
      && (forall i :: 0 <= i < |handedOut| ==> handedOut[i] <= recentlyRetrieved)
      && (forall i, j :: 0 <= i < j < |handedOut| ==> handedOut[i] !! handedOut[j])
    }

    constructor (recallConfig: RecallConfig, expFunction: real -> real, estimate: string -> nat, bytes: char -> nat)
      ensures Valid() && turns == [] && recentlyRetrieved == {}
    {
      config, exp, estimateTokens, width := recallConfig, expFunction, estimate, bytes;
      turns, recentlyRetrieved, handedOut := [], {}, [];
    }

    /**
      `raw` is what the text search, or the hybrid search, returned for the query: at most one hit per turn.
      Every fresh hit that meets the conditions of a tier is among the picks, or is outranked, or was too dear when
      its turn came; a pick is answered unless as many others that are no worse are.
     */
    method Recall(query: string, raw: seq<SearchResult>)
        returns (injections: seq<RecallResult>, ghost picked: seq<RecallResult>)
      requires Valid() && DistinctBy(DocId, raw)
      modifies this`recentlyRetrieved, this`handedOut
      ensures Valid()
      ensures Size(width, query) >= 10 ==> Picked(Now(), FreshHits(raw, old(recentlyRetrieved)), picked)
      ensures Recalled(Now(), picked, injections)
      ensures TurnIds(injections) !! old(recentlyRetrieved)
      ensures Size(width, query) < 10 || raw == [] ==>
                injections == [] && recentlyRetrieved == old(recentlyRetrieved)
      ensures |old(recentlyRetrieved) + TurnIds(injections)| <= DEDUP_LIMIT ==>
                recentlyRetrieved == old(recentlyRetrieved) + TurnIds(injections)
      ensures |old(recentlyRetrieved) + TurnIds(injections)| > DEDUP_LIMIT ==>
                |recentlyRetrieved| == DEDUP_KEPT && recentlyRetrieved <= old(recentlyRetrieved) + TurnIds(injections)
    {
      picked := [];
      if Size(width, query) < MIN_QUERY || raw == [] {
        NothingFound(Now(), FreshHits([], recentlyRetrieved));
        return [], [];
      }
      var candidates := Fresh(raw);
      injections, picked := Tiers(candidates);
      AnswersFresh(Now(), raw, recentlyRetrieved, picked, injections);
      Track(injections);
    }

    /** The three passes, then the final order and the cap. */
    method Tiers(candidates: seq<SearchResult>)
        returns (injections: seq<RecallResult>, ghost picked: seq<RecallResult>)
      requires DistinctBy(DocId, candidates)
      ensures Picked(Now(), Elements(candidates), picked) && Recalled(Now(), picked, injections)
    {
      injections := Passes(candidates);
      picked := injections;
      FinishRecall(Now(), picked);
      injections := Take(SortDesc(injections, Decayed), config.maxInjectionsPerTurn);
    }

    /** The three passes over one budget. */
    method Passes(candidates: seq<SearchResult>) returns (picked: seq<RecallResult>)
      requires DistinctBy(DocId, candidates)
      ensures Picked(Now(), Elements(candidates), picked) && DistinctBy(TurnId, picked)
    {
      var used, budget := {}, config.maxTokensPerTurn;
      picked := [];
      NonePassed(Now(), Elements(candidates));
      picked, used, budget := Tier(History, candidates, picked, used, budget);
      picked, used, budget := Tier(Working, candidates, picked, used, budget);
      picked, used, budget := Tier(Recency, candidates, picked, used, budget);
      PicksOk(Now(), Elements(candidates), picked, used, budget);
    }

    /** The candidates not handed out recently. */
    method Fresh(raw: seq<SearchResult>) returns (candidates: seq<SearchResult>)
      requires DistinctBy(DocId, raw)
      ensures DistinctBy(DocId, candidates) && Elements(candidates) == FreshHits(raw, recentlyRetrieved)
    {
      candidates := [];
      for i := 0 to |raw|
        invariant DistinctBy(DocId, candidates)
        invariant forall r :: r in candidates <==> r in raw[..i] && r.docId !in recentlyRetrieved
      {
        if raw[i].docId !in recentlyRetrieved {
          forall r | r in candidates ensures DocId(r) != DocId(raw[i]) {
            var k :| 0 <= k < i && raw[k] == r;
          }
          candidates := candidates + [raw[i]];
        }
      }
      assert raw[..|raw|] == raw;
    }

    /** One tier: its best candidates in order, as far as the budget goes. */
    method Tier(tier: RecallTier, candidates: seq<SearchResult>, picked: seq<RecallResult>, used: set<nat>,
                budget: nat)
        returns (picked': seq<RecallResult>, used': set<nat>, budget': nat)
      requires DistinctBy(DocId, candidates)
      requires Passed(Now(), Elements(candidates), Rank(tier), picked, used, budget)
      ensures Passed(Now(), Elements(candidates), Rank(tier) + 1, picked', used', budget')
      ensures picked' == picked + Fitting(Now().Cost(), Now().Best(tier, used, candidates), budget)
    {
      var c := Now();
      CollectTier(c, candidates, picked, used, budget, tier);
      ExplainTier(c, candidates, picked, used, budget, tier);
      var added, left := Afford(c.Cost(), c.Best(tier, used, candidates), budget);
      picked', used', budget' := picked + added, used + Ids(added), left;
    }

    /** Remembers what was handed out; beyond the limit only some of it. */
    method Track(injections: seq<RecallResult>)
      requires Valid() && TurnIds(injections) !! recentlyRetrieved
      modifies this`recentlyRetrieved, this`handedOut
      ensures Valid()
      ensures var all := old(recentlyRetrieved) + TurnIds(injections);
              if |all| <= DEDUP_LIMIT
              then recentlyRetrieved == all && handedOut == old(handedOut) + [TurnIds(injections)]
              else |recentlyRetrieved| == DEDUP_KEPT && recentlyRetrieved <= all
    {
      for i := 0 to |injections|
        invariant recentlyRetrieved == old(recentlyRetrieved) + TurnIds(injections[..i])
        invariant handedOut == old(handedOut)
      {
        assert injections[..i + 1] == injections[..i] + [injections[i]];
        recentlyRetrieved := recentlyRetrieved + {injections[i].turnId};
      }
      assert injections[..|injections|] == injections;
      handedOut := handedOut + [TurnIds(injections)];
      if |recentlyRetrieved| > DEDUP_LIMIT {
        recentlyRetrieved := SomeOf(recentlyRetrieved, DEDUP_KEPT);
        handedOut := [];
      }
    }

    /** Forgets what was handed out. */
    method ResetDedup()
      requires Valid()
      modifies this`recentlyRetrieved, this`handedOut
      ensures Valid() && recentlyRetrieved == {} && handedOut == []
    {
      recentlyRetrieved, handedOut := {}, [];
    }

    method AddTurn(role: string, content: string, isCompacted: bool, turnNumber: nat)
      requires Valid()
      modifies this`turns
      ensures Valid() && turns == old(turns) + [TurnMeta(role, content, isCompacted, turnNumber)]
    {
      turns := turns + [TurnMeta(role, content, isCompacted, turnNumber)];
    }
  }

  function Ids(results: seq<RecallResult>): (ids: set<nat>)
    ensures ids == TurnIds(results)
  {
    if results == [] then {} else Ids(results[..|results| - 1]) + {results[|results| - 1].turnId}
  }

  /** Goes through the items in order and pays for those the remaining budget covers. */
  method Afford(cost: RecallResult -> nat, items: seq<RecallResult>, budget: nat)
      returns (taken: seq<RecallResult>, left: nat)
    ensures taken == Fitting(cost, items, budget) && left + TotalCost(cost, taken) == budget
  {
    taken, left := [], budget;
    for i := 0 to |items|
      invariant taken + Fitting(cost, items[i..], left) == Fitting(cost, items, budget)
      invariant left + TotalCost(cost, taken) == budget
    {
      assert items[i..][1..] == items[i + 1..];
      if cost(items[i]) <= left {
        FittingStep(taken, items[i], Fitting(cost, items[i + 1..], left - cost(items[i])));
        TotalCostAppend(cost, taken, [items[i]]);
        left := left - cost(items[i]);
        taken := taken + [items[i]];
      }
    }
  }

  /** Any `n` elements of the set: the iteration order of a hash set is not fixed. */
  method SomeOf(all: set<nat>, n: nat) returns (chosen: set<nat>)
    requires n <= |all|
    ensures chosen <= all && |chosen| == n
  {
    chosen := {};
    var rest := all;
    while |chosen| < n
      invariant chosen <= all && rest == all - chosen && |chosen| <= n
      invariant |rest| == |all| - |chosen|
    {
      var x :| x in rest;
      chosen := chosen + {x};
      rest := rest - {x};
    }
  }

  /** The text search meets what recall asks of its raw results. */
  lemma RankingDistinct(s: Scorer, query: seq<string>, ix: Index, k: nat)
    requires s.Valid()
    ensures DistinctBy(DocId, Take(FullRanking(s, query, ix), k))
  {
    FullRankingCharacterised(s, query, ix);
    var ranking := FullRanking(s, query, ix);
    forall i, j | 0 <= i < j < |ranking| ensures DocId(ranking[i]) != DocId(ranking[j]) {
      assert Ahead(ranking[i], ranking[j], ByScore, ById);
      assert ranking[i] in ranking && ranking[j] in ranking;
    }
  }

  lemma SearchDistinct(s: Scorer, query: seq<string>, ix: Index, k: nat, results: seq<SearchResult>)
    requires s.Valid() && RankedOrReranked(s, query, ix, k, results)
    ensures DistinctBy(DocId, results)
  {
    var ranking := FullRanking(s, query, ix);
    RankingDistinct(s, query, ix, |ranking|);
    if k > 0 && |ranking| > k {
      var pool := Take(ranking, 2 * k);
      RankingDistinct(s, query, ix, 2 * k);
      var picks: seq<nat> :| Greedy(picks, Scores(pool), ResultSim(pool, ix), RERANK_LAMBDA)
        && |picks| == (if k < |pool| then k else |pool|) && results == Select(pool, picks);
      assert forall i :: 0 <= i < |picks| ==> picks[i] in picks;
      forall i, j | 0 <= i < j < |results| ensures DocId(results[i]) != DocId(results[j]) {
        assert picks[i] != picks[j];
        assert results[i] == pool[picks[i]] && results[j] == pool[picks[j]];
      }
    }
  }
}
