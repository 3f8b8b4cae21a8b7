/** Ranked search: full scan with diversity reranking, and scanning with upper-bound pruning. */
module Searchers {
  import opened Prelude
  import opened TermOrder
  import opened InvertedIndexes
  import opened Scorers
  import opened Ranking
  import opened Diversity

  datatype SearchResult = SearchResult(docId: nat, score: real)

  /** A query term with its score bound and query frequency. */
  datatype TermBound = TermBound(term: string, ub: real, qf: nat)

  const ByScore: SearchResult -> real := (r: SearchResult) => r.score
  const ByBound: TermBound -> real := (e: TermBound) => e.ub
  const ById: SearchResult -> int := (r: SearchResult) => r.docId

  const WAND_THRESHOLD: nat := 1000
  const RERANK_LAMBDA: real := 0.7

  // ---------------------------------------------------------------------
  // The reference: score every document, keep the positive ones, sort
  // ---------------------------------------------------------------------

  /** The documents of the list with a positive score, in list order. */
  ghost function Positive(w: nat -> real, ids: seq<nat>): seq<SearchResult> {
    if ids == [] then []
    else Positive(w, ids[..|ids| - 1]) + PositiveEntry(w, ids[|ids| - 1])
  }

  ghost function PositiveEntry(w: nat -> real, d: nat): seq<SearchResult> {
    if w(d) > 0.0 then [SearchResult(d, w(d))] else []
  }

  ghost function DocumentScores(s: Scorer, query: seq<string>, ix: Index): nat -> real
    requires s.Valid()
  {
    (d: nat) => if s.Valid() then s.Bm25(query, d, ix) else 0.0
  }

  /** The complete ranking of an index for a query. */
  ghost function FullRanking(s: Scorer, query: seq<string>, ix: Index): seq<SearchResult>
    requires s.Valid()
  {
    SortDesc(Positive(DocumentScores(s, query, ix), Indices(ix.numDocs)), ByScore)
  }

  lemma PositiveSnoc(w: nat -> real, ids: seq<nat>, d: nat)
    ensures Positive(w, ids + [d]) == Positive(w, ids) + PositiveEntry(w, d)
  {
    assert (ids + [d])[..|ids|] == ids;
  }

  lemma {:induction false} PositiveMembers(w: nat -> real, ids: seq<nat>)
    requires Ascending(ids)
    ensures forall r :: r in Positive(w, ids) <==> r.docId in ids && r.score == w(r.docId) && r.score > 0.0
    ensures forall i, j :: 0 <= i < j < |Positive(w, ids)| ==> Positive(w, ids)[i].docId < Positive(w, ids)[j].docId
  {
    if ids != [] {
      var init, d := ids[..|ids| - 1], ids[|ids| - 1];
      assert ids == init + [d];
      AscendingSnoc(init, d);
      PositiveMembers(w, init);
      var p := Positive(w, init);
      forall i | 0 <= i < |p| ensures p[i].docId < d {
        assert p[i] in p;
      }
    }
  }

  /** The full ranking holds exactly the positively scored documents, best first, ties by id. */
  lemma FullRankingCharacterised(s: Scorer, query: seq<string>, ix: Index)
    requires s.Valid()
    ensures Canonical(FullRanking(s, query, ix), ByScore, ById)
    ensures forall r :: r in FullRanking(s, query, ix) <==>
              r.docId < ix.numDocs && r.score == s.Bm25(query, r.docId, ix) && r.score > 0.0
  {
    var w := DocumentScores(s, query, ix);
    var p := Positive(w, Indices(ix.numDocs));
    PositiveMembers(w, Indices(ix.numDocs));
    SortDescStable(p, ByScore, ById);
    SortDescMembers(p, ByScore);
    IndicesMembers(ix.numDocs);
    forall r ensures r in FullRanking(s, query, ix) <==>
                       r.docId < ix.numDocs && r.score == s.Bm25(query, r.docId, ix) && r.score > 0.0 {
      assert r in FullRanking(s, query, ix) <==> r in p;
    }
  }

  /** The only list of exactly the positively scored documents, best first with ties by id, is the full ranking. */
  lemma FullRankingUnique(s: Scorer, query: seq<string>, ix: Index, ranking: seq<SearchResult>)
    requires s.Valid() && Canonical(ranking, ByScore, ById)
    requires forall r :: r in ranking <==>
               r.docId < ix.numDocs && r.score == s.Bm25(query, r.docId, ix) && r.score > 0.0
    ensures ranking == FullRanking(s, query, ix)
  {
    FullRankingCharacterised(s, query, ix);
    CanonicalUnique(ranking, FullRanking(s, query, ix), ByScore, ById);
  }

  /** Leaving out documents without a positive score does not change the positive ones. */
  lemma {:induction false} PositiveCandidates(w: nat -> real, ids: seq<nat>, n: nat)
    requires Ascending(ids) && Covers(w, ids, n)
    ensures Positive(w, ids) == Positive(w, Indices(n))
  {
    if ids != [] {
      CoversSome(w, ids, n);
    }
    if n > 0 {
      if n - 1 in ids {
        CoversInit(w, ids, n);
        PositiveCandidates(w, ids[..|ids| - 1], n - 1);
        CandidateIn(w, ids[..|ids| - 1], n);
      } else {
        CoversSkip(w, ids, n);
        PositiveCandidates(w, ids, n - 1);
        PositiveIndices(w, n - 1);
      }
    }
  }

  lemma CandidateIn(w: nat -> real, init: seq<nat>, n: nat)
    requires n > 0 && Positive(w, init) == Positive(w, Indices(n - 1))
    ensures Positive(w, init + [n - 1]) == Positive(w, Indices(n))
  {
    PositiveSnoc(w, init, n - 1);
    PositiveIndices(w, n - 1);
  }

  lemma CoversSome(w: nat -> real, ids: seq<nat>, n: nat)
    requires Covers(w, ids, n) && ids != []
    ensures n > 0
  {
    assert ids[0] < n;
  }

  lemma CoversSkip(w: nat -> real, ids: seq<nat>, n: nat)
    requires Covers(w, ids, n) && n > 0 && n - 1 !in ids
    ensures Covers(w, ids, n - 1) && PositiveEntry(w, n - 1) == []
  {
  }

  lemma PositiveIndices(w: nat -> real, n: nat)
    ensures Positive(w, Indices(n + 1)) == Positive(w, Indices(n)) + PositiveEntry(w, n)
  {
    IndicesSnoc(n);
    PositiveSnoc(w, Indices(n), n);
  }

  lemma CoversInit(w: nat -> real, ids: seq<nat>, n: nat)
    requires Ascending(ids) && Covers(w, ids, n) && n > 0 && n - 1 in ids
    ensures ids == ids[..|ids| - 1] + [n - 1]
    ensures Ascending(ids[..|ids| - 1]) && Covers(w, ids[..|ids| - 1], n - 1)
  {
    var init, last := ids[..|ids| - 1], ids[|ids| - 1];
    assert ids == init + [last];
    AscendingSnoc(init, last);
    assert last in ids;
    assert n - 1 in init || n - 1 == last;
  }

  /** `ids` are documents, and every document with a positive score is among them. */
  ghost predicate Covers(w: nat -> real, ids: seq<nat>, n: nat) {
    && (forall i :: 0 <= i < |ids| ==> ids[i] < n)
    && (forall d: nat :: d < n && w(d) > 0.0 ==> d in ids)
  }

  // ---------------------------------------------------------------------
  // Term bounds
  // ---------------------------------------------------------------------

  /** One entry per query term that can contribute anything. */
  ghost predicate BoundsFor(s: Scorer, query: seq<string>, ix: Index, es: seq<TermBound>)
    requires s.Valid()
  {
    && (forall i, j :: 0 <= i < j < |es| ==> es[i].term != es[j].term)
    && (forall i :: 0 <= i < |es| ==> es[i].qf == Count(query, es[i].term))
    && (forall i :: 0 <= i < |es| ==> es[i].ub == s.UpperBound(es[i].term, es[i].qf, ix))
    && (forall t :: t in query && s.UpperBound(t, Count(query, t), ix) > 0.0 ==>
          exists i :: 0 <= i < |es| && es[i].term == t)
  }

  ghost function BoundSum(es: seq<TermBound>): real {
    if es == [] then 0.0 else BoundSum(es[..|es| - 1]) + es[|es| - 1].ub
  }

  ghost function TermSet(es: seq<TermBound>): set<string> {
    set e | e in es :: e.term
  }

  lemma BoundSumSnoc(es: seq<TermBound>, j: nat)
    requires j < |es|
    ensures BoundSum(es[..j + 1]) == BoundSum(es[..j]) + es[j].ub
  {
    assert es[..j + 1][..j] == es[..j];
  }

  lemma TermSetSnoc(es: seq<TermBound>, j: nat)
    requires j < |es|
    requires forall i, k :: 0 <= i < k < |es| ==> es[i].term != es[k].term
    ensures TermSet(es[..j + 1]) == TermSet(es[..j]) + {es[j].term}
    ensures es[j].term !in TermSet(es[..j])
  {
    assert es[..j + 1] == es[..j] + [es[j]];
    forall e | e in es[..j] ensures e.term != es[j].term {
      var i :| 0 <= i < j && es[i] == e;
    }
  }

  /** The score after the first `j` bounded terms. */
  ghost function Partial(s: Scorer, query: seq<string>, d: nat, ix: Index, es: seq<TermBound>, j: nat): real
    requires s.Valid() && j <= |es|
  {
    s.Scored(query, TermSet(es[..j]), d, ix)
  }

  lemma PartialStep(s: Scorer, query: seq<string>, d: nat, ix: Index, es: seq<TermBound>, j: nat)
    requires s.Valid() && j < |es| && BoundsFor(s, query, ix, es)
    ensures Partial(s, query, d, ix, es, j + 1) ==
            Partial(s, query, d, ix, es, j) + s.ScoreTerm(es[j].term, d, es[j].qf, ix)
    ensures 0.0 <= s.ScoreTerm(es[j].term, d, es[j].qf, ix) <= es[j].ub
  {
    TermSetSnoc(es, j);
    s.ScoredAdd(query, TermSet(es[..j]), es[j].term, d, ix);
    s.ScoreTermBound(es[j].term, d, es[j].qf, ix);
  }

  /** After all bounded terms the score is the full BM25 score. */
  lemma PartialComplete(s: Scorer, query: seq<string>, d: nat, ix: Index, es: seq<TermBound>)
    requires s.Valid() && BoundsFor(s, query, ix, es)
    ensures Partial(s, query, d, ix, es, |es|) == s.Bm25(query, d, ix)
  {
    var w := s.Weight(d, ix);
    assert es[..|es|] == es;
    assert forall i :: 0 <= i < |es| ==> es[i] in es && es[i].term in TermSet(es);
    forall t | t in query && t !in TermSet(es) ensures w(t) == 0.0 {
      CountPositive(query, t);
      s.ScoreTermBound(t, d, 1, ix);
      assert s.UpperBound(t, 1, ix) == s.MaxTermScore(t, ix);
      assert !(s.UpperBound(t, Count(query, t), ix) > 0.0);
      PositiveFactor(s.MaxTermScore(t, ix), Count(query, t) as real);
    }
    OnlyEnough(query, TermSet(es), w);
  }

  lemma PositiveFactor(x: real, y: real)
    requires y > 0.0 && x * y <= 0.0
    ensures x <= 0.0
  {
  }

  /** What is still unscored cannot exceed the sum of the remaining bounds. */
  lemma {:induction false} PartialRemainder(s: Scorer, query: seq<string>, d: nat, ix: Index, es: seq<TermBound>,
                                            j: nat)
    requires s.Valid() && j <= |es| && BoundsFor(s, query, ix, es)
    ensures Partial(s, query, d, ix, es, j) <= s.Bm25(query, d, ix)
    ensures s.Bm25(query, d, ix) <= Partial(s, query, d, ix, es, j) + (BoundSum(es) - BoundSum(es[..j]))
    decreases |es| - j
  {
    if j == |es| {
      PartialComplete(s, query, d, ix, es);
      assert es[..j] == es;
    } else {
      PartialRemainder(s, query, d, ix, es, j + 1);
      PartialStep(s, query, d, ix, es, j);
      BoundSumSnoc(es, j);
    }
  }

  lemma {:induction false} PartialEmpty(s: Scorer, query: seq<string>, d: nat, ix: Index, es: seq<TermBound>)
    requires s.Valid()
    ensures Partial(s, query, d, ix, es, 0) == 0.0
  {
    assert TermSet(es[..0]) == {};
    OnlyNone(query);
  }

  /** A document without a posting for any bounded term scores 0. */
  lemma {:induction false} PartialUnposted(s: Scorer, query: seq<string>, d: nat, ix: Index, es: seq<TermBound>, j: nat)
    requires s.Valid() && j <= |es| && BoundsFor(s, query, ix, es)
    requires forall e :: e in es ==> FreqIn(ix.Postings(e.term), d) == 0
    ensures Partial(s, query, d, ix, es, j) == 0.0
  {
    if j == 0 {
      PartialEmpty(s, query, d, ix, es);
    } else {
      PartialUnposted(s, query, d, ix, es, j - 1);
      PartialStep(s, query, d, ix, es, j - 1);
      assert es[j - 1] in es;
    }
  }

  // ---------------------------------------------------------------------
  // Pruned scanning
  // ---------------------------------------------------------------------

  /** The scan's invariant: its best `k` are the reference's best `k`, and no recorded score is below the threshold. */
  ghost predicate SameTop(results: seq<SearchResult>, reference: seq<SearchResult>, k: nat, threshold: Option<real>) {
    && Take(SortDesc(results, ByScore), k) == Take(SortDesc(reference, ByScore), k)
    && (threshold.None? <==> results == [])
    && (threshold.Some? ==> forall r :: r in results ==> r.score >= threshold.value)
  }

  /** Recording a fully scored document. */
  lemma RecordExact(results: seq<SearchResult>, reference: seq<SearchResult>, k: nat, threshold: Option<real>,
                    r: SearchResult)
    requires SameTop(results, reference, k, threshold)
    ensures SameTop(results + [r], reference + [r], k, Some(Lower(threshold, r.score)))
  {
    SortDescSnoc(results, ByScore, r);
    SortDescSnoc(reference, ByScore, r);
    InsertTakeCongruence(SortDesc(results, ByScore), SortDesc(reference, ByScore), ByScore, r, k);
  }

  /** A pruned document, recorded with a partial score or not at all, leaves the best `k` alone. */
  lemma RecordPruned(results: seq<SearchResult>, reference: seq<SearchResult>, k: nat, threshold: Option<real>,
                     partial: Option<SearchResult>, exact: Option<SearchResult>)
    requires SameTop(results, reference, k, threshold) && |results| >= k
    requires partial.Some? && threshold.Some? ==> partial.value.score <= threshold.value
    requires exact.Some? && threshold.Some? ==> exact.value.score <= threshold.value
    ensures SameTop(results + ToSeq(partial), reference + ToSeq(exact), k,
                    if partial.Some? then Some(Lower(threshold, partial.value.score)) else threshold)
  {
    TopStays(results, k, threshold, partial);
    TopStaysReference(results, reference, k, threshold, exact);
  }

  function ToSeq<T>(o: Option<T>): seq<T> {
    if o.Some? then [o.value] else []
  }

  function Lower(threshold: Option<real>, score: real): real {
    if threshold.Some? then Min(threshold.value, score) else score
  }

  lemma TopStays(results: seq<SearchResult>, k: nat, threshold: Option<real>, extra: Option<SearchResult>)
    requires |results| >= k
    requires threshold.None? <==> results == []
    requires threshold.Some? ==> forall r :: r in results ==> r.score >= threshold.value
    requires extra.Some? && threshold.Some? ==> extra.value.score <= threshold.value
    ensures Take(SortDesc(results + ToSeq(extra), ByScore), k) == Take(SortDesc(results, ByScore), k)
  {
    if extra.Some? {
      var sorted := SortDesc(results, ByScore);
      SortDescSnoc(results, ByScore, extra.value);
      SortDescCorrect(results, ByScore);
      SortDescMembers(results, ByScore);
      forall i | 0 <= i < k ensures ByScore(sorted[i]) >= ByScore(extra.value) {
        assert sorted[i] in sorted;
      }
      InsertBelowTop(sorted, ByScore, extra.value, k);
    } else {
      assert results + ToSeq(extra) == results;
    }
  }

  lemma TopStaysReference(results: seq<SearchResult>, reference: seq<SearchResult>, k: nat, threshold: Option<real>,
                          extra: Option<SearchResult>)
    requires SameTop(results, reference, k, threshold) && |results| >= k
    requires extra.Some? && threshold.Some? ==> extra.value.score <= threshold.value
    ensures Take(SortDesc(reference + ToSeq(extra), ByScore), k) == Take(SortDesc(reference, ByScore), k)
  {
    if extra.Some? {
      var sorted, mine := SortDesc(reference, ByScore), SortDesc(results, ByScore);
      SortDescSnoc(reference, ByScore, extra.value);
      SortDescCorrect(results, ByScore);
      SortDescMembers(results, ByScore);
      assert |Take(mine, k)| == k;
      assert |sorted| >= k;
      forall i | 0 <= i < k ensures ByScore(sorted[i]) >= ByScore(extra.value) {
        assert sorted[i] == Take(sorted, k)[i] == Take(mine, k)[i] == mine[i];
        assert mine[i] in mine;
      }
      InsertBelowTop(sorted, ByScore, extra.value, k);
    } else {
      assert reference + ToSeq(extra) == reference;
    }
  }

  lemma {:induction false} SmallestExists(s: set<nat>)
    requires s != {}
    ensures exists m :: IsSmallest(m, s)
  {
    var y :| y in s;
    if s == {y} {
      assert IsSmallest(y, s);
    } else {
      SmallestExists(s - {y});
      var m :| IsSmallest(m, s - {y});
      assert forall x :: x in s ==> x in s - {y} || x == y;
      assert IsSmallest(if m <= y then m else y, s);
    }
  }

  predicate IsSmallest(m: nat, s: set<nat>) {
    m in s && forall x :: x in s ==> m <= x
  }

  /** The elements of a set of document ids in ascending order. */
  method SortIds(found: set<nat>) returns (ids: seq<nat>)
    ensures Ascending(ids)
    ensures forall d :: d in ids <==> d in found
  {
    ids := [];
    var rest := found;
    while rest != {}
      invariant rest <= found && Ascending(ids)
      invariant forall d :: d in found <==> d in ids || d in rest
      invariant forall x, d :: x in ids && d in rest ==> x < d
    {
      SmallestExists(rest);
      var m :| m in rest && IsSmallest(m, rest);
      assert forall i :: 0 <= i < |ids| ==> ids[i] in ids;
      ids := ids + [m];
      rest := rest - {m};
    }
  }

  datatype Searcher = Searcher(tokenize: string -> seq<string>, scorer: Scorer)
  {
    /** Large indexes are scanned with pruning, small ones completely and with reranking. */
    method Search(query: string, ix: Index, topK: nat, ghost docs: seq<seq<string>>)
        returns (results: seq<SearchResult>)
      requires scorer.Valid() && Represents(ix, docs)
      ensures ix.numDocs > WAND_THRESHOLD ==> results == Take(FullRanking(scorer, tokenize(query), ix), topK)
      ensures ix.numDocs <= WAND_THRESHOLD ==> RankedOrReranked(scorer, tokenize(query), ix, topK, results)
    {
      if ix.numDocs > WAND_THRESHOLD {
        results := SearchWand(query, ix, topK, docs);
      } else {
        results := SearchFull(query, ix, topK, docs);
      }
    }

    method SearchFull(query: string, ix: Index, topK: nat, ghost docs: seq<seq<string>>)
        returns (results: seq<SearchResult>)
      requires scorer.Valid() && Represents(ix, docs)
      ensures RankedOrReranked(scorer, tokenize(query), ix, topK, results)
    {
      var queryTokens := tokenize(query);
      if queryTokens == [] || ix.numDocs == 0 {
        NothingRanked(scorer, queryTokens, ix);
        return [];
      }
      AverageNonNegative(ix, docs);
      results := ScoreAll(queryTokens, ix);
      results := SortDesc(results, ByScore);
      if topK == 0 {
        return [];
      }
      ghost var ranking := results;
      results := Take(results, 2 * topK);
      assert |ranking| <= topK <==> |results| <= topK;
      if |results| > topK {
        results := Rerank(RERANK_LAMBDA, results, ix, topK);
      }
    }

    method ScoreAll(query: seq<string>, ix: Index) returns (results: seq<SearchResult>)
      requires scorer.Valid() && ix.avgdl >= 0.0
      ensures results == Positive(DocumentScores(scorer, query, ix), Indices(ix.numDocs))
    {
      ghost var w := DocumentScores(scorer, query, ix);
      results := [];
      for d := 0 to ix.numDocs
        invariant results == Positive(w, Indices(d))
      {
        var score := scorer.Score(query, d, ix);
        assert score == w(d);
        PositiveIndices(w, d);
        if score > 0.0 {
          results := results + [SearchResult(d, score)];
        } else {
          assert results + [] == results;
        }
      }
    }

    /** The bounds of the query terms, largest first; equal bounds come in any order. */
    method TermBounds(query: seq<string>, ix: Index) returns (es: seq<TermBound>)
      requires scorer.Valid()
      ensures BoundsFor(scorer, query, ix, es) && SortedDesc(es, ByBound)
    {
      var qf := CountTerms(query);
      var rest := qf.Keys;
      es := [];
      while rest != {}
        invariant rest <= qf.Keys
        invariant forall e :: e in es ==> e.term in qf && e.term !in rest && e.qf == qf[e.term]
        invariant forall i, j :: 0 <= i < j < |es| ==> es[i].term != es[j].term
        invariant forall e :: e in es ==> e.ub == scorer.UpperBound(e.term, e.qf, ix)
        invariant forall t :: t in qf && t !in rest && scorer.UpperBound(t, qf[t], ix) > 0.0 ==>
                    TermBound(t, scorer.UpperBound(t, qf[t], ix), qf[t]) in es
      {
        var t :| t in rest;
        var ub := scorer.UpperBound(t, qf[t], ix);
        assert forall i :: 0 <= i < |es| ==> es[i] in es;
        if ub > 0.0 {
          es := es + [TermBound(t, ub, qf[t])];
        }
        rest := rest - {t};
      }
      ghost var unsorted := es;
      es := SortDesc(es, ByBound);
      SortedBounds(scorer, query, ix, qf, unsorted, es);
    }

    /** Ascending ids of the documents with a posting for a bounded term. */
    method Candidates(es: seq<TermBound>, ix: Index) returns (ids: seq<nat>)
      ensures Ascending(ids)
      ensures forall d :: d in ids <==> HasPosting(es, ix, d)
    {
      var found: set<nat> := {};
      for i := 0 to |es|
        invariant forall d :: d in found <==> HasPosting(es[..i], ix, d)
      {
        var pl := ix.Postings(es[i].term);
        ghost var before := found;
        for j := 0 to |pl|
          invariant forall d :: d in found <==> d in before || exists m :: 0 <= m < j && pl[m].docId == d
        {
          found := found + {pl[j].docId};
        }
        assert forall d :: d in found <==> d in before || Posted(es[i], ix, d);
        HasPostingSnoc(es, ix, i);
      }
      assert es[..|es|] == es;
      ids := SortIds(found);
    }

    /** Scanning with pruning returns exactly the best `topK` of the full ranking. */
    method SearchWand(query: string, ix: Index, topK: nat, ghost docs: seq<seq<string>>)
        returns (results: seq<SearchResult>)
      requires scorer.Valid() && Represents(ix, docs)
      ensures results == Take(FullRanking(scorer, tokenize(query), ix), topK)
    {
      var queryTokens := tokenize(query);
      if queryTokens == [] || ix.numDocs == 0 {
        NothingRanked(scorer, queryTokens, ix);
        return [];
      }
      var es := TermBounds(queryTokens, ix);
      if es == [] {
        NothingBounded(scorer, queryTokens, ix);
        return [];
      }
      var totalPotential := 0.0;
      for i := 0 to |es|
        invariant totalPotential == BoundSum(es[..i])
      {
        BoundSumSnoc(es, i);
        totalPotential := totalPotential + es[i].ub;
      }
      assert es[..|es|] == es;
      var ids := Candidates(es, ix);
      results := [];
      var threshold: Option<real> := None;
      for c := 0 to |ids|
        invariant SameTop(results, Positive(DocumentScores(scorer, queryTokens, ix), ids[..c]), topK, threshold)
      {
        var d := ids[c];
        var score, pruned := ScoreCandidate(queryTokens, d, ix, es, totalPotential, |results| >= topK, threshold);
        RecordStep(scorer, queryTokens, ix, ids, c, results, threshold, topK, score, pruned);
        if score > 0.0 {
          threshold := Some(Lower(threshold, score));
          results := results + [SearchResult(d, score)];
        }
      }
      assert ids[..|ids|] == ids;
      CandidatesSuffice(scorer, queryTokens, ix, docs, es, ids);
      results := Take(SortDesc(results, ByScore), topK);
    }

    /** The inner loop: adds terms in descending bound order, giving up once the threshold is out of reach. */
    method ScoreCandidate(query: seq<string>, d: nat, ix: Index, es: seq<TermBound>, totalPotential: real,
                          full: bool, threshold: Option<real>) returns (score: real, pruned: bool)
      requires scorer.Valid() && BoundsFor(scorer, query, ix, es) && totalPotential == BoundSum(es)
      ensures 0.0 <= score <= scorer.Bm25(query, d, ix)
      ensures !pruned ==> score == scorer.Bm25(query, d, ix)
      ensures pruned ==> full && (threshold.Some? ==> scorer.Bm25(query, d, ix) < threshold.value)
    {
      score, pruned := 0.0, false;
      var scoredPotential := 0.0;
      PartialEmpty(scorer, query, d, ix, es);
      assert BoundSum(es[..0]) == 0.0;
      for j := 0 to |es|
        invariant score == Partial(scorer, query, d, ix, es, j) && score >= 0.0
        invariant scoredPotential == BoundSum(es[..j])
        invariant !pruned
      {
        PartialStep(scorer, query, d, ix, es, j);
        BoundSumSnoc(es, j);
        score := score + scorer.ScoreTerm(es[j].term, d, es[j].qf, ix);
        scoredPotential := scoredPotential + es[j].ub;
        PartialRemainder(scorer, query, d, ix, es, j + 1);
        if full && (threshold.None? || score + (totalPotential - scoredPotential) < threshold.value) {
          pruned := true;
          return;
        }
      }
      PartialComplete(scorer, query, d, ix, es);
    }
  }

  ghost predicate Posted(e: TermBound, ix: Index, d: nat) {
    exists m :: 0 <= m < |ix.Postings(e.term)| && ix.Postings(e.term)[m].docId == d
  }

  ghost predicate HasPosting(es: seq<TermBound>, ix: Index, d: nat) {
    exists e :: e in es && Posted(e, ix, d)
  }

  lemma HasPostingSnoc(es: seq<TermBound>, ix: Index, i: nat)
    requires i < |es|
    ensures forall d :: HasPosting(es[..i + 1], ix, d) <==> HasPosting(es[..i], ix, d) || Posted(es[i], ix, d)
  {
    assert es[..i + 1] == es[..i] + [es[i]];
  }

  lemma SortedBounds(s: Scorer, query: seq<string>, ix: Index, qf: map<string, nat>, es: seq<TermBound>,
                     sorted: seq<TermBound>)
    requires s.Valid()
    requires qf.Keys == Elements(query) && forall t :: t in qf ==> qf[t] == Count(query, t)
    requires forall e :: e in es ==> e.term in qf && e.qf == qf[e.term]
    requires forall i, j :: 0 <= i < j < |es| ==> es[i].term != es[j].term
    requires forall e :: e in es ==> e.ub == s.UpperBound(e.term, e.qf, ix)
    requires forall t :: t in qf && s.UpperBound(t, qf[t], ix) > 0.0 ==>
               TermBound(t, s.UpperBound(t, qf[t], ix), qf[t]) in es
    requires sorted == SortDesc(es, ByBound)
    ensures BoundsFor(s, query, ix, sorted) && SortedDesc(sorted, ByBound)
  {
    SortDescCorrect(es, ByBound);
    SortDescMembers(es, ByBound);
    assert forall i :: 0 <= i < |sorted| ==> sorted[i] in sorted;
    PermutedDistinct(es, sorted);
    forall i, j | 0 <= i < j < |sorted| ensures sorted[i].term != sorted[j].term {
      assert sorted[i] in es && sorted[j] in es;
      var m :| 0 <= m < |es| && es[m] == sorted[i];
      var n :| 0 <= n < |es| && es[n] == sorted[j];
      assert m != n;
    }
  }

  lemma NothingRanked(s: Scorer, query: seq<string>, ix: Index)
    requires s.Valid() && (query == [] || ix.numDocs == 0)
    ensures FullRanking(s, query, ix) == []
  {
    assert ix.numDocs == 0 ==> Indices(ix.numDocs) == [];
    if query == [] {
      PositiveCandidates(DocumentScores(s, query, ix), [], ix.numDocs);
    }
  }

  lemma NothingBounded(s: Scorer, query: seq<string>, ix: Index)
    requires s.Valid() && BoundsFor(s, query, ix, [])
    ensures FullRanking(s, query, ix) == []
  {
    forall d: nat ensures s.Bm25(query, d, ix) == 0.0 {
      PartialComplete(s, query, d, ix, []);
      PartialEmpty(s, query, d, ix, []);
    }
    PositiveCandidates(DocumentScores(s, query, ix), [], ix.numDocs);
  }

  lemma AverageNonNegative(ix: Index, docs: seq<seq<string>>)
    requires Represents(ix, docs)
    ensures ix.avgdl >= 0.0
  {
    if |docs| > 0 {
      NonNegativeQuotient(ix.totalTokens as real, |docs| as real);
    }
  }

  lemma PostedIsDocument(ix: Index, docs: seq<seq<string>>, e: TermBound, d: nat)
    requires Represents(ix, docs) && Posted(e, ix, d)
    ensures d < ix.numDocs
  {
    var m :| 0 <= m < |ix.Postings(e.term)| && ix.Postings(e.term)[m].docId == d;
    FreqInMember(ix.Postings(e.term), m);
    assert RecordedFreq(ix.terms, e.term, d) == DocumentFreq(docs, e.term, d);
  }

  lemma UnpostedScoresZero(s: Scorer, query: seq<string>, ix: Index, es: seq<TermBound>, d: nat)
    requires s.Valid() && BoundsFor(s, query, ix, es) && !HasPosting(es, ix, d)
    ensures s.Bm25(query, d, ix) == 0.0
  {
    forall e | e in es ensures FreqIn(ix.Postings(e.term), d) == 0 {
      assert !Posted(e, ix, d);
      if FreqIn(ix.Postings(e.term), d) > 0 {
        FreqInWitness(ix.Postings(e.term), d);
      }
    }
    PartialUnposted(s, query, d, ix, es, |es|);
    PartialComplete(s, query, d, ix, es);
  }

  /** Every document with a positive score is a candidate, and candidates are documents. */
  lemma CandidatesSuffice(s: Scorer, query: seq<string>, ix: Index, docs: seq<seq<string>>, es: seq<TermBound>,
                          ids: seq<nat>)
    requires s.Valid() && Represents(ix, docs) && BoundsFor(s, query, ix, es)
    requires Ascending(ids) && (forall d :: d in ids <==> HasPosting(es, ix, d))
    ensures Positive(DocumentScores(s, query, ix), ids) ==
            Positive(DocumentScores(s, query, ix), Indices(ix.numDocs))
  {
    var w := DocumentScores(s, query, ix);
    forall i | 0 <= i < |ids| ensures ids[i] < ix.numDocs {
      assert ids[i] in ids;
      var e :| e in es && Posted(e, ix, ids[i]);
      PostedIsDocument(ix, docs, e, ids[i]);
    }
    forall d: nat | d < ix.numDocs && w(d) > 0.0 ensures d in ids {
      if !HasPosting(es, ix, d) {
        UnpostedScoresZero(s, query, ix, es, d);
      }
    }
    PositiveCandidates(w, ids, ix.numDocs);
  }

  lemma RecordStep(s: Scorer, query: seq<string>, ix: Index, ids: seq<nat>, c: nat, results: seq<SearchResult>,
                   threshold: Option<real>, k: nat, score: real, pruned: bool)
    requires s.Valid() && c < |ids|
    requires SameTop(results, Positive(DocumentScores(s, query, ix), ids[..c]), k, threshold)
    requires 0.0 <= score <= s.Bm25(query, ids[c], ix)
    requires !pruned ==> score == s.Bm25(query, ids[c], ix)
    requires pruned ==> |results| >= k && (threshold.Some? ==> s.Bm25(query, ids[c], ix) < threshold.value)
    ensures SameTop(if score > 0.0 then results + [SearchResult(ids[c], score)] else results,
                    Positive(DocumentScores(s, query, ix), ids[..c + 1]), k,
                    if score > 0.0 then Some(Lower(threshold, score)) else threshold)
  {
    var d := ids[c];
    var reference := Positive(DocumentScores(s, query, ix), ids[..c]);
    var bm25 := s.Bm25(query, d, ix);
    assert ids[..c + 1] == ids[..c] + [d];
    PositiveSnoc(DocumentScores(s, query, ix), ids[..c], d);
    if pruned {
      var partial := if score > 0.0 then Some(SearchResult(d, score)) else None;
      var exact := if bm25 > 0.0 then Some(SearchResult(d, bm25)) else None;
      RecordPruned(results, reference, k, threshold, partial, exact);
      assert score <= 0.0 ==> results + ToSeq(partial) == results;
      assert bm25 <= 0.0 ==> reference + ToSeq(exact) == reference + [];
    } else if score > 0.0 {
      RecordExact(results, reference, k, threshold, SearchResult(d, score));
    } else {
      assert reference + [] == reference;
    }
  }

  // ---------------------------------------------------------------------
  // Reranking
  // ---------------------------------------------------------------------

  ghost function Scores(results: seq<SearchResult>): seq<real> {
    seq(|results|, i requires 0 <= i < |results| => results[i].score)
  }

  ghost function ResultSim(results: seq<SearchResult>, ix: Index): (nat, nat) -> real {
    (i: nat, j: nat) =>
      if i < |results| && j < |results| then TermJaccard(ix.docTerms, results[i].docId, results[j].docId) else 0.0
  }

  /** `chosen` is a greedy selection of `min(k, |results|)` distinct results. */
  ghost predicate Reranked(chosen: seq<SearchResult>, results: seq<SearchResult>, ix: Index, k: nat, weight: real) {
    exists picks: seq<nat> ::
      && Greedy(picks, Scores(results), ResultSim(results, ix), weight)
      && |picks| == (if k < |results| then k else |results|)
      && chosen == Select(results, picks)
  }

  /** The complete-scan result: the ranking itself when it is short, else a greedy choice from its first `2k`. */
  ghost predicate RankedOrReranked(s: Scorer, query: seq<string>, ix: Index, k: nat, results: seq<SearchResult>)
    requires s.Valid()
  {
    var ranking := FullRanking(s, query, ix);
    if k == 0 then results == []
    else if |ranking| <= k then results == ranking
    else Reranked(results, Take(ranking, 2 * k), ix, k, RERANK_LAMBDA)
  }

  method Rerank(weight: real, results: seq<SearchResult>, ix: Index, topK: nat) returns (selected: seq<SearchResult>)
    requires forall d :: 0 <= d < |ix.docTerms| ==> StrictlySorted(ix.docTerms[d])
    ensures Reranked(selected, results, ix, topK, weight)
  {
    ghost var relevance, sim := Scores(results), ResultSim(results, ix);
    ghost var picks: seq<nat> := [];
    selected := [];
    if results == [] {
      assert Greedy(picks, relevance, sim, weight) && selected == Select(results, picks);
      return;
    }
    var n := if topK < |results| then topK else |results|;
    var remaining := Indices(|results|);
    IndicesMembers(|results|);
    while |selected| < n && remaining != []
      invariant Greedy(picks, relevance, sim, weight)
      invariant |picks| == |selected| <= n && selected == Select(results, picks)
      invariant Pool(remaining, picks, |results|)
      decreases |remaining|
    {
      var best := MostMarginal(weight, results, ix, selected, remaining, picks);
      GreedyExtend(picks, remaining[best], relevance, sim, weight);
      PoolSwapRemove(remaining, picks, |results|, best);
      selected := selected + [results[remaining[best]]];
      picks := picks + [remaining[best]];
      remaining := remaining[best := remaining[|remaining| - 1]][..|remaining| - 1];
    }
  }

  /** Position in the pool of a candidate with the largest marginal score. */
  method MostMarginal(weight: real, results: seq<SearchResult>, ix: Index, selected: seq<SearchResult>,
                      remaining: seq<nat>, ghost picks: seq<nat>) returns (best: nat)
    requires forall d :: 0 <= d < |ix.docTerms| ==> StrictlySorted(ix.docTerms[d])
    requires Greedy(picks, Scores(results), ResultSim(results, ix), weight)
    requires Pool(remaining, picks, |results|) && remaining != [] && selected == Select(results, picks)
    ensures best < |remaining| && remaining[best] < |results| && remaining[best] !in picks
    ensures BestPick(remaining[best], picks, Scores(results), ResultSim(results, ix), weight)
  {
    ghost var relevance, sim := Scores(results), ResultSim(results, ix);
    assert forall i :: 0 <= i < |remaining| ==> remaining[i] in remaining;
    best := 0;
    var bestScore := 0.0;
    for pos := 0 to |remaining|
      invariant pos > 0 ==> best < pos && bestScore == Marginal(remaining[best], picks, relevance, sim, weight)
      invariant forall i :: 0 <= i < pos ==> Marginal(remaining[i], picks, relevance, sim, weight) <= bestScore
    {
      var maxSim := 0.0;
      for k := 0 to |selected|
        invariant maxSim == MaxSim(remaining[pos], picks[..k], sim)
      {
        assert picks[..k + 1][..k] == picks[..k];
        assert picks[k] in picks;
        var similarity := ix.JaccardSimilarity(results[remaining[pos]].docId, selected[k].docId);
        maxSim := Max(maxSim, similarity);
      }
      assert picks[..|selected|] == picks;
      BlendMeans(weight, results[remaining[pos]].score, maxSim);
      var marginal := Blend(weight, results[remaining[pos]].score, maxSim);
      if pos == 0 || marginal > bestScore {
        bestScore := marginal;
        best := pos;
      }
    }
    forall u: nat | u < |relevance| && u !in picks
      ensures Marginal(u, picks, relevance, sim, weight) <= Marginal(remaining[best], picks, relevance, sim, weight)
    {
      assert u in remaining;
    }
  }
}
