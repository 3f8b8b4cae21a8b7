/** BM25 scoring over an index value, with the per-term bound that pruning relies on. */
module Scorers {
  import opened Prelude
  import opened InvertedIndexes

  /** `ln` stands for the natural logarithm; nothing below depends on which function it is. */
  datatype Scorer = Scorer(k1: real, b: real, ln: real -> real)
  {
    /** The parameter range in which BM25 is meant to be used; the defaults are 1.2 and 0.75. */
    predicate Valid() {
      k1 >= 0.0 && 0.0 <= b <= 1.0
    }

    function Idf(df: nat, n: nat): real {
      if df == 0 || n == 0 then 0.0
      else Max(ln(1.0 + (n as real - df as real + 0.5) / (df as real + 0.5)), 0.0)
    }

    /** Upper bound on what one occurrence of the term in the query can contribute. */
    function MaxTermScore(term: string, ix: Index): real {
      if ix.DocFreq(term) == 0 then 0.0 else Idf(ix.DocFreq(term), ix.numDocs) * (k1 + 1.0)
    }

    /** Upper bound for a term occurring `queryTf` times in the query. */
    function UpperBound(term: string, queryTf: nat, ix: Index): real {
      MaxTermScore(term, ix) * queryTf as real
    }

    /** Length normalisation of the saturation denominator. */
    function Denominator(tf: nat, docLen: nat, avgdl: real): real
      requires avgdl > 0.0
    {
      tf as real + k1 * (1.0 - b + b * docLen as real / avgdl)
    }

    /** Saturated term frequency with length normalisation. */
    function TfComponent(tf: nat, docLen: nat, avgdl: real): real
      requires Valid() && tf > 0 && avgdl > 0.0
    {
      DenominatorPositive(tf, docLen, avgdl);
      Ratio(tf as real, k1 + 1.0, Denominator(tf, docLen, avgdl))
    }

    lemma DenominatorPositive(tf: nat, docLen: nat, avgdl: real)
      requires Valid() && avgdl > 0.0
      ensures Denominator(tf, docLen, avgdl) >= tf as real
    {
      var share := b * docLen as real;
      NonNegativeProduct(b, docLen as real);
      NonNegativeQuotient(share, avgdl);
      var norm := 1.0 - b + share / avgdl;
      NonNegativeProduct(k1, norm);
      assert Denominator(tf, docLen, avgdl) == tf as real + k1 * norm;
    }

    /** Contribution of a term occurring `queryTf` times in the query. */
    function ScoreTerm(term: string, docId: nat, queryTf: nat, ix: Index): real
      requires Valid()
    {
      if ix.DocFreq(term) == 0 || docId >= |ix.docLengths| then 0.0
      else if ix.avgdl <= 0.0 then 0.0
      else
        var tf := FreqIn(ix.Postings(term), docId);
        if tf == 0 then 0.0
        else Contribution(term, tf, docId, queryTf, ix)
    }

    function Contribution(term: string, tf: nat, docId: nat, queryTf: nat, ix: Index): real
      requires Valid() && tf > 0 && docId < |ix.docLengths| && ix.avgdl > 0.0
    {
      Idf(ix.DocFreq(term), ix.numDocs) * TfComponent(tf, ix.docLengths[docId], ix.avgdl) * queryTf as real
    }

    /** BM25 as a sum over the occurrences of the query tokens. */
    ghost function Bm25(query: seq<string>, docId: nat, ix: Index): real
      requires Valid()
    {
      Total(query, Weight(docId, ix))
    }

    ghost function Weight(docId: nat, ix: Index): string -> real
      requires Valid()
    {
      (t: string) => if Valid() then ScoreTerm(t, docId, 1, ix) else 0.0
    }

    lemma TfComponentBound(tf: nat, docLen: nat, avgdl: real)
      requires Valid() && tf > 0 && avgdl > 0.0
      ensures 0.0 <= TfComponent(tf, docLen, avgdl) <= k1 + 1.0
    {
      DenominatorPositive(tf, docLen, avgdl);
      QuotientBound(tf as real, k1 + 1.0, Denominator(tf, docLen, avgdl));
    }

    /** A term occurring `queryTf` times counts `queryTf` times. */
    lemma ScoreTermLinear(term: string, docId: nat, queryTf: nat, ix: Index)
      requires Valid()
      ensures ScoreTerm(term, docId, queryTf, ix) == Times(queryTf, ScoreTerm(term, docId, 1, ix))
    {
      TimesIsProduct(queryTf, ScoreTerm(term, docId, 1, ix));
      if ix.DocFreq(term) != 0 && docId < |ix.docLengths| && ix.avgdl > 0.0 {
        var tf := FreqIn(ix.Postings(term), docId);
        if tf > 0 {
          var x := Idf(ix.DocFreq(term), ix.numDocs) * TfComponent(tf, ix.docLengths[docId], ix.avgdl);
          assert ScoreTerm(term, docId, 1, ix) == x * 1.0 == x;
          assert ScoreTerm(term, docId, queryTf, ix) == x * queryTf as real;
        }
      }
    }

    /** The term bound is an upper bound on the contribution. */
    lemma ScoreTermBound(term: string, docId: nat, queryTf: nat, ix: Index)
      requires Valid()
      ensures 0.0 <= ScoreTerm(term, docId, queryTf, ix) <= UpperBound(term, queryTf, ix)
    {
      var idf := Idf(ix.DocFreq(term), ix.numDocs);
      var qf := queryTf as real;
      NonNegativeProduct(idf, k1 + 1.0);
      NonNegativeProduct(idf * (k1 + 1.0), qf);
      if ix.DocFreq(term) != 0 && docId < |ix.docLengths| && ix.avgdl > 0.0 {
        var tf := FreqIn(ix.Postings(term), docId);
        if tf > 0 {
          var c := TfComponent(tf, ix.docLengths[docId], ix.avgdl);
          TfComponentBound(tf, ix.docLengths[docId], ix.avgdl);
          NonNegativeProduct(idf, c);
          NonNegativeProduct(idf * c, qf);
          NonNegativeProduct(idf, k1 + 1.0 - c);
          assert idf * c <= idf * (k1 + 1.0);
          NonNegativeProduct(idf * (k1 + 1.0) - idf * c, qf);
        }
      }
    }

    lemma WeightVanishes(t: string, docId: nat, ix: Index)
      requires Valid()
      requires ix.numDocs == 0 || docId >= |ix.docLengths| || ix.avgdl == 0.0
      ensures ScoreTerm(t, docId, 1, ix) == 0.0
    {
      assert ix.numDocs == 0 ==> Idf(ix.DocFreq(t), ix.numDocs) == 0.0;
    }

    /** Scores one document; the query terms are visited in whatever order the map yields them. */
    method Score(query: seq<string>, docId: nat, ix: Index) returns (score: real)
      requires Valid() && ix.avgdl >= 0.0
      ensures score == Bm25(query, docId, ix)
    {
      if ix.numDocs == 0 || docId >= |ix.docLengths| || ix.avgdl == 0.0 {
        forall t ensures Weight(docId, ix)(t) == 0.0 {
          WeightVanishes(t, docId, ix);
        }
        TotalZero(query, Weight(docId, ix));
        return 0.0;
      }
      score := 0.0;
      var qf := CountTerms(query);
      var rest := qf.Keys;
      ghost var done: set<string> := {};
      OnlyNone(query);
      while rest != {}
        invariant rest !! done && rest + done == qf.Keys
        invariant score == Scored(query, done, docId, ix)
      {
        var t :| t in rest;
        ScoredAdd(query, done, t, docId, ix);
        rest, done := rest - {t}, done + {t};
        if ix.DocFreq(t) == 0 {
          continue;
        }
        var tf := FreqIn(ix.Postings(t), docId);
        if tf == 0 {
          continue;
        }
        score := score + Contribution(t, tf, docId, qf[t], ix);
      }
      OnlyAll(query, done);
    }

    /** BM25 restricted to the query terms of `p`. */
    ghost function Scored(query: seq<string>, p: set<string>, docId: nat, ix: Index): real
      requires Valid()
    {
      Total(Only(query, p), Weight(docId, ix))
    }

    /** One more query term adds exactly its contribution at its query frequency. */
    lemma ScoredAdd(query: seq<string>, p: set<string>, t: string, docId: nat, ix: Index)
      requires Valid() && t !in p
      ensures Scored(query, p + {t}, docId, ix) ==
              Scored(query, p, docId, ix) + ScoreTerm(t, docId, Count(query, t), ix)
    {
      var w := Weight(docId, ix);
      OnlyAdd(query, p, t, w);
      ScoreTermLinear(t, docId, Count(query, t), ix);
    }
  }

  lemma NonNegativeProduct(x: real, y: real)
    requires x >= 0.0 && y >= 0.0
    ensures x * y >= 0.0
  {
  }

  function Ratio(tf: real, c: real, d: real): real
    requires d > 0.0
  {
    tf * c / d
  }

  lemma NonNegativeQuotient(x: real, y: real)
    requires x >= 0.0 && y > 0.0
    ensures x / y >= 0.0
  {
    var r := x / y;
    assert r * y == x;
    assert r < 0.0 ==> r * y < 0.0;
  }

  lemma QuotientBound(tf: real, c: real, d: real)
    requires tf > 0.0 && c >= 0.0 && d >= tf
    ensures 0.0 <= Ratio(tf, c, d) <= c
  {
    NonNegativeProduct(tf, c);
    NonNegativeQuotient(tf * c, d);
    NonNegativeProduct(d - tf, c);
    NonNegativeQuotient(d * c - tf * c, d);
    assert d * c / d == c;
    assert (d * c - tf * c) / d == d * c / d - tf * c / d;
  }

  // ---------------------------------------------------------------------
  // Sums over query tokens
  // ---------------------------------------------------------------------

  ghost function Total(q: seq<string>, w: string -> real): real {
    if q == [] then 0.0 else w(q[0]) + Total(q[1..], w)
  }

  /** The occurrences in `q` of the terms of `p`. */
  ghost function Only(q: seq<string>, p: set<string>): seq<string> {
    if q == [] then [] else (if q[0] in p then [q[0]] else []) + Only(q[1..], p)
  }

  lemma {:induction false} TotalZero(q: seq<string>, w: string -> real)
    requires forall t :: t in q ==> w(t) == 0.0
    ensures Total(q, w) == 0.0
  {
    if q != [] {
      TotalZero(q[1..], w);
    }
  }

  /** `n` occurrences of weight `x`. */
  ghost function Times(n: nat, x: real): real {
    if n == 0 then 0.0 else x + Times(n - 1, x)
  }

  lemma {:induction false} TimesIsProduct(n: nat, x: real)
    ensures Times(n, x) == n as real * x
  {
    if n > 0 {
      TimesIsProduct(n - 1, x);
      assert n as real == (n - 1) as real + 1.0;
      assert n as real * x == (n - 1) as real * x + x;
    }
  }

  lemma OnlyHead(q: seq<string>, p: set<string>, w: string -> real)
    requires q != []
    ensures Total(Only(q, p), w) == (if q[0] in p then w(q[0]) else 0.0) + Total(Only(q[1..], p), w)
  {
    var rest := Only(q[1..], p);
    assert ([q[0]] + rest)[1..] == rest && [] + rest == rest;
  }

  lemma {:induction false} OnlyNone(q: seq<string>)
    ensures Only(q, {}) == []
  {
    if q != [] {
      OnlyNone(q[1..]);
    }
  }

  /** Visiting one more distinct term adds its weight once per occurrence. */
  lemma {:induction false} OnlyAdd(q: seq<string>, p: set<string>, t: string, w: string -> real)
    requires t !in p
    ensures Total(Only(q, p + {t}), w) == Total(Only(q, p), w) + Times(Count(q, t), w(t))
  {
    if q != [] {
      OnlyAdd(q[1..], p, t, w);
      OnlyHead(q, p, w);
      OnlyHead(q, p + {t}, w);
    }
  }

  /** Terms of weight 0 may be left out. */
  lemma {:induction false} OnlyEnough(q: seq<string>, p: set<string>, w: string -> real)
    requires forall t :: t in q && t !in p ==> w(t) == 0.0
    ensures Total(Only(q, p), w) == Total(q, w)
  {
    if q != [] {
      OnlyEnough(q[1..], p, w);
      OnlyHead(q, p, w);
    }
  }

  lemma OnlyAll(q: seq<string>, p: set<string>)
    requires p == Elements(q)
    ensures Only(q, p) == q
  {
    OnlyIncludes(q, p);
  }

  lemma {:induction false} OnlyIncludes(q: seq<string>, p: set<string>)
    requires Elements(q) <= p
    ensures Only(q, p) == q
  {
    if q != [] {
      assert q[0] in Elements(q);
      assert Elements(q[1..]) <= Elements(q);
      OnlyIncludes(q[1..], p);
    }
  }
}
