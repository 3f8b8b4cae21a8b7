/** What BM25 computes, in terms of the documents themselves. */
module ScoringLaws {
  import opened Prelude
  import opened InvertedIndexes
  import opened Scorers

  ghost function Containing(docs: seq<seq<string>>, t: string): set<nat> {
    set d: nat | d < |docs| && t in docs[d]
  }

  ghost function AverageLength(docs: seq<seq<string>>): real
    requires docs != []
  {
    TotalLength(docs) as real / |docs| as real
  }

  /** The inverse document frequency the weights are built from, cut off at 0. */
  ghost function Rarity(ln: real -> real, docs: seq<seq<string>>, t: string): real {
    var n, df := |docs| as real, |Containing(docs, t)| as real;
    var weight := ln(1.0 + (n - df + 0.5) / (df + 0.5));
    if weight > 0.0 then weight else 0.0
  }

  // ---------------------------------------------------------------------
  // What the index says of the documents
  // ---------------------------------------------------------------------

  ghost function DocIds(pl: seq<Posting>): set<nat> {
    set i | 0 <= i < |pl| :: pl[i].docId
  }

  lemma {:induction false} DocIdsSize(pl: seq<Posting>)
    requires SortedPostings(pl)
    ensures |DocIds(pl)| == |pl|
  {
    if pl != [] {
      var init, last := pl[..|pl| - 1], pl[|pl| - 1];
      DocIdsSize(init);
      assert DocIds(pl) == DocIds(init) + {last.docId} by {
        assert forall i :: 0 <= i < |init| ==> pl[i] == init[i];
      }
      assert last.docId !in DocIds(init);
    }
  }

  /** The document frequency is the number of documents that contain the term. */
  lemma DocFreqCounts(ix: Index, docs: seq<seq<string>>, t: string)
    requires Represents(ix, docs)
    ensures ix.DocFreq(t) == |Containing(docs, t)|
  {
    var pl := ix.Postings(t);
    forall d: nat ensures d in DocIds(pl) <==> d in Containing(docs, t) {
      assert RecordedFreq(ix.terms, t, d) == DocumentFreq(docs, t, d);
      if d < |docs| {
        CountPositive(docs[d], t);
      }
      if i :| 0 <= i < |pl| && pl[i].docId == d {
        FreqInMember(pl, i);
      } else {
        FreqInAbsent(pl, d);
      }
    }
    assert DocIds(pl) == Containing(docs, t);
    DocIdsSize(pl);
  }

  lemma IndexReads(ix: Index, docs: seq<seq<string>>, t: string, d: nat)
    requires Represents(ix, docs) && d < |docs|
    ensures FreqIn(ix.Postings(t), d) == Count(docs[d], t)
    ensures t in docs[d] <==> Count(docs[d], t) > 0
    ensures t in docs[d] ==> ix.DocFreq(t) > 0 && ix.avgdl == AverageLength(docs) > 0.0
  {
    assert RecordedFreq(ix.terms, t, d) == DocumentFreq(docs, t, d);
    CountPositive(docs[d], t);
    if t in docs[d] {
      DocFreqCounts(ix, docs, t);
      assert d in Containing(docs, t);
      TotalLengthAtLeast(docs, d);
      QuotientPositive(TotalLength(docs) as real, |docs| as real);
    }
  }

  lemma QuotientPositive(x: real, y: real)
    requires x > 0.0 && y > 0.0
    ensures x / y > 0.0
  {
    assert x / y * y == x;
  }

  lemma IdfIsRarity(s: Scorer, ix: Index, docs: seq<seq<string>>, t: string)
    requires Represents(ix, docs) && ix.DocFreq(t) > 0
    ensures s.Idf(ix.DocFreq(t), ix.numDocs) == Rarity(s.ln, docs, t)
  {
    DocFreqCounts(ix, docs, t);
    var d :| d in Containing(docs, t);
  }

  // ---------------------------------------------------------------------
  // The formula
  // ---------------------------------------------------------------------

  /** Frequency and length of a document, weighed by `b`, times the average length: what a score is divided by. */
  ghost function Bracket(k1: real, b: real, tf: real, len: real, average: real): real {
    tf * average + k1 * ((1.0 - b) * average + b * len)
  }

  lemma DenominatorBracket(s: Scorer, tf: nat, len: nat, average: real)
    requires average > 0.0
    ensures s.Denominator(tf, len, average) * average == Bracket(s.k1, s.b, tf as real, len as real, average)
  {
    var share := s.b * len as real / average;
    assert share * average == s.b * len as real;
    assert s.Denominator(tf, len, average) == tf as real + s.k1 * (1.0 - s.b + share);
    var rest := 1.0 - s.b + share;
    assert rest * average == (1.0 - s.b) * average + s.b * len as real;
    assert (tf as real + s.k1 * rest) * average == tf as real * average + s.k1 * (rest * average);
  }

  lemma RatioTimes(tf: real, c: real, d: real)
    requires d > 0.0
    ensures Ratio(tf, c, d) * d == tf * c
  {
  }

  lemma Regrouped(idf: real, r: real, q: real, d: real, average: real, product: real)
    requires r * d == product
    ensures idf * r * q * (d * average) == q * product * average * idf
  {
    assert idf * r * q * (d * average) == idf * q * average * (r * d);
  }

  lemma BracketPositive(s: Scorer, tf: nat, len: nat, average: real)
    requires s.Valid() && tf > 0 && average > 0.0
    ensures Bracket(s.k1, s.b, tf as real, len as real, average) > 0.0
  {
    s.DenominatorPositive(tf, len, average);
    DenominatorBracket(s, tf, len, average);
    var d := s.Denominator(tf, len, average);
    assert d > 0.0 && d * average > 0.0;
  }

  /**
    The literal formula of BM25, free of division: with `tf` occurrences in a document of `len` tokens the score
    is q * tf * (k1 + 1) * idf over tf + k1 * (1 - b + b * len / average), all multiplied by the average length.
   */
  ghost predicate LiteralBm25(score: real, k1: real, b: real, tf: real, len: real, average: real, q: real,
                              idf: real)
  {
    var bracket := tf * average + k1 * ((1.0 - b) * average + b * len);
    bracket > 0.0 && score * bracket == q * (tf * (k1 + 1.0)) * average * idf
  }

  lemma LiteralFormula(s: Scorer, x: real, idf: real, tf: nat, len: nat, average: real, q: real)
    requires s.Valid() && tf > 0 && average > 0.0
    requires x == idf * s.TfComponent(tf, len, average) * q
    ensures LiteralBm25(x, s.k1, s.b, tf as real, len as real, average, q, idf)
  {
    s.DenominatorPositive(tf, len, average);
    DenominatorBracket(s, tf, len, average);
    BracketPositive(s, tf, len, average);
    RatioTimes(tf as real, s.k1 + 1.0, s.Denominator(tf, len, average));
    Regrouped(idf, s.TfComponent(tf, len, average), q, s.Denominator(tf, len, average), average,
              tf as real * (s.k1 + 1.0));
  }

  /** The score of a term, for a document that contains it, as three factors. */
  lemma ScoreFactors(s: Scorer, ix: Index, docs: seq<seq<string>>, t: string, d: nat, q: nat)
    requires s.Valid() && Represents(ix, docs) && d < |docs| && t in docs[d]
    ensures AverageLength(docs) > 0.0 && Count(docs[d], t) > 0
    ensures s.ScoreTerm(t, d, q, ix) ==
              Rarity(s.ln, docs, t) * s.TfComponent(Count(docs[d], t), |docs[d]|, AverageLength(docs)) * q as real
  {
    IndexReads(ix, docs, t, d);
    IdfIsRarity(s, ix, docs, t);
  }

  /** The score of a term is the one number that satisfies the literal formula. */
  lemma ScoreTermLiteral(s: Scorer, ix: Index, docs: seq<seq<string>>, t: string, d: nat, queryTf: nat)
    requires s.Valid() && Represents(ix, docs) && d < |docs| && t in docs[d]
    ensures LiteralBm25(s.ScoreTerm(t, d, queryTf, ix), s.k1, s.b, Count(docs[d], t) as real, |docs[d]| as real,
                        AverageLength(docs), queryTf as real, Rarity(s.ln, docs, t))
  {
    ScoreFactors(s, ix, docs, t, d, queryTf);
    LiteralFormula(s, s.ScoreTerm(t, d, queryTf, ix), Rarity(s.ln, docs, t), Count(docs[d], t), |docs[d]|,
                   AverageLength(docs), queryTf as real);
  }

  /** A term that is not in the document adds nothing. */
  lemma ScoreTermAbsent(s: Scorer, ix: Index, docs: seq<seq<string>>, t: string, d: nat, queryTf: nat)
    requires s.Valid() && Represents(ix, docs) && (d >= |docs| || t !in docs[d])
    ensures s.ScoreTerm(t, d, queryTf, ix) == 0.0
  {
    if d < |docs| {
      IndexReads(ix, docs, t, d);
    }
  }

  /** The score of a query is the sum over its tokens, in any order. */
  lemma Bm25Sum(s: Scorer, query: seq<string>, t: string, d: nat, ix: Index)
    requires s.Valid()
    ensures s.Bm25([], d, ix) == 0.0
    ensures s.Bm25(query + [t], d, ix) == s.Bm25(query, d, ix) + s.ScoreTerm(t, d, 1, ix)
  {
    TotalSnoc(query, t, s.Weight(d, ix));
  }

  lemma {:induction false} TotalSnoc(q: seq<string>, t: string, w: string -> real)
    ensures Total(q + [t], w) == Total(q, w) + w(t)
  {
    if q == [] {
      assert q + [t] == [t] && [t][1..] == [];
    } else {
      assert (q + [t])[1..] == q[1..] + [t];
      TotalSnoc(q[1..], t, w);
    }
  }

  // ---------------------------------------------------------------------
  // How the score responds
  // ---------------------------------------------------------------------

  lemma CrossLess(x: real, x': real, u: real, u': real, f: real, f': real)
    requires u > 0.0 && u' > 0.0 && x * u == f && x' * u' == f' && f * u' < f' * u
    ensures x < x'
  {
    assert u * u' > 0.0;
    assert x * (u * u') == (x * u) * u';
    assert x' * (u * u') == (x' * u') * u;
    LessByProduct(x, x', u * u');
  }

  lemma CrossSame(x: real, x': real, u: real, u': real, f: real, f': real)
    requires u > 0.0 && u' > 0.0 && x * u == f && x' * u' == f' && f * u' == f' * u
    ensures x == x'
  {
    assert u * u' > 0.0;
    assert x * (u * u') == (x * u) * u';
    assert x' * (u * u') == (x' * u') * u;
    assert (x - x') * (u * u') == 0.0;
  }

  lemma LessByProduct(x: real, y: real, a: real)
    requires a > 0.0 && x * a < y * a
    ensures x < y
  {
  }

  /** What the right side of the formula has besides the frequency. */
  ghost function Rest(k1: real, average: real, q: real, idf: real): real {
    q * (k1 + 1.0) * average * idf
  }

  lemma Numerator(k1: real, tf: real, average: real, q: real, idf: real)
    ensures q * (tf * (k1 + 1.0)) * average * idf == tf * Rest(k1, average, q, idf)
  {
  }

  lemma RestPositive(x: real, u: real, tf: real, rest: real)
    requires x > 0.0 && u > 0.0 && tf > 0.0 && x * u == tf * rest
    ensures rest > 0.0
  {
  }

  lemma CommonPart(tf: real, tf': real, u: real, u': real, rest: real)
    requires rest > 0.0 && tf * u' < tf' * u
    ensures tf * rest * u' < tf' * rest * u
  {
    assert tf * rest * u' == tf * u' * rest;
    assert tf' * rest * u == tf' * u * rest;
    assert (tf' * u - tf * u') * rest > 0.0;
  }

  /** Two documents compare as their frequencies, each against the other's bracket. */
  lemma FormulaLess(x: real, x': real, k1: real, b: real, tf: real, tf': real, len: real, len': real,
                    average: real, q: real, idf: real)
    requires LiteralBm25(x, k1, b, tf, len, average, q, idf)
    requires LiteralBm25(x', k1, b, tf', len', average, q, idf)
    requires tf' > 0.0 && x' > 0.0
    requires tf * Bracket(k1, b, tf', len', average) < tf' * Bracket(k1, b, tf, len, average)
    ensures x < x'
  {
    var u, u' := Bracket(k1, b, tf, len, average), Bracket(k1, b, tf', len', average);
    FormulaLessStep(x, x', u, u', tf, tf', k1, average, q, idf);
  }

  lemma FormulaLessStep(x: real, x': real, u: real, u': real, tf: real, tf': real, k1: real, average: real, q: real,
                        idf: real)
    requires u > 0.0 && u' > 0.0 && tf' > 0.0 && x' > 0.0 && tf * u' < tf' * u
    requires x * u == q * (tf * (k1 + 1.0)) * average * idf
    requires x' * u' == q * (tf' * (k1 + 1.0)) * average * idf
    ensures x < x'
  {
    Numerator(k1, tf, average, q, idf);
    Numerator(k1, tf', average, q, idf);
    LessStep(x, x', u, u', tf, tf', Rest(k1, average, q, idf));
  }

  lemma LessStep(x: real, x': real, u: real, u': real, tf: real, tf': real, rest: real)
    requires u > 0.0 && u' > 0.0 && x * u == tf * rest && x' * u' == tf' * rest
    requires tf' > 0.0 && x' > 0.0 && tf * u' < tf' * u
    ensures x < x'
  {
    RestPositive(x', u', tf', rest);
    CommonPart(tf, tf', u, u', rest);
    CrossLess(x, x', u, u', tf * rest, tf' * rest);
  }

  lemma FormulaSame(x: real, x': real, k1: real, b: real, tf: real, tf': real, len: real, len': real,
                    average: real, q: real, idf: real)
    requires LiteralBm25(x, k1, b, tf, len, average, q, idf)
    requires LiteralBm25(x', k1, b, tf', len', average, q, idf)
    requires tf * Bracket(k1, b, tf', len', average) == tf' * Bracket(k1, b, tf, len, average)
    ensures x == x'
  {
    var u, u' := Bracket(k1, b, tf, len, average), Bracket(k1, b, tf', len', average);
    FormulaSameStep(x, x', u, u', tf, tf', k1, average, q, idf);
  }

  lemma FormulaSameStep(x: real, x': real, u: real, u': real, tf: real, tf': real, k1: real, average: real, q: real,
                        idf: real)
    requires u > 0.0 && u' > 0.0 && tf * u' == tf' * u
    requires x * u == q * (tf * (k1 + 1.0)) * average * idf
    requires x' * u' == q * (tf' * (k1 + 1.0)) * average * idf
    ensures x == x'
  {
    Numerator(k1, tf, average, q, idf);
    Numerator(k1, tf', average, q, idf);
    SameStep(x, x', u, u', tf, tf', Rest(k1, average, q, idf));
  }

  lemma SameStep(x: real, x': real, u: real, u': real, tf: real, tf': real, rest: real)
    requires u > 0.0 && u' > 0.0 && x * u == tf * rest && x' * u' == tf' * rest
    requires tf * u' == tf' * u
    ensures x == x'
  {
    assert tf * rest * u' == tf * u' * rest;
    assert tf' * rest * u == tf' * u * rest;
    CrossSame(x, x', u, u', tf * rest, tf' * rest);
  }

  /** With b = 0 the length of the document does not matter. */
  lemma LengthIgnored(s: Scorer, ix: Index, docs: seq<seq<string>>, t: string, d: nat, e: nat, q: nat)
    requires s.Valid() && s.b == 0.0 && Represents(ix, docs) && d < |docs| && e < |docs|
    requires Count(docs[d], t) == Count(docs[e], t)
    ensures s.ScoreTerm(t, d, q, ix) == s.ScoreTerm(t, e, q, ix)
  {
    IndexReads(ix, docs, t, d);
    IndexReads(ix, docs, t, e);
    if t in docs[d] {
      ScoreTermLiteral(s, ix, docs, t, d, q);
      ScoreTermLiteral(s, ix, docs, t, e, q);
      FormulaFlat(s.ScoreTerm(t, d, q, ix), s.ScoreTerm(t, e, q, ix), s.k1, s.b, Count(docs[d], t) as real,
                  |docs[d]| as real, |docs[e]| as real, AverageLength(docs), q as real, Rarity(s.ln, docs, t));
    } else {
      ScoreTermAbsent(s, ix, docs, t, d, q);
      ScoreTermAbsent(s, ix, docs, t, e, q);
    }
  }

  lemma FormulaFlat(x: real, x': real, k1: real, b: real, tf: real, len: real, len': real, average: real, q: real,
                    idf: real)
    requires LiteralBm25(x, k1, b, tf, len, average, q, idf)
    requires LiteralBm25(x', k1, b, tf, len', average, q, idf)
    requires b == 0.0
    ensures x == x'
  {
    assert Bracket(k1, 0.0, tf, len, average) == Bracket(k1, 0.0, tf, len', average);
    FormulaSame(x, x', k1, b, tf, tf, len, len', average, q, idf);
  }

  /** With b = 1 only the density of the term in the document matters. */
  lemma OnlyDensity(s: Scorer, ix: Index, docs: seq<seq<string>>, t: string, d: nat, e: nat, q: nat)
    requires s.Valid() && s.b == 1.0 && Represents(ix, docs) && d < |docs| && e < |docs|
    requires t in docs[d] && t in docs[e]
    requires Count(docs[d], t) * |docs[e]| == Count(docs[e], t) * |docs[d]|
    ensures s.ScoreTerm(t, d, q, ix) == s.ScoreTerm(t, e, q, ix)
  {
    ScoreTermLiteral(s, ix, docs, t, d, q);
    ScoreTermLiteral(s, ix, docs, t, e, q);
    FormulaDensity(s.ScoreTerm(t, d, q, ix), s.ScoreTerm(t, e, q, ix), s.k1, s.b, Count(docs[d], t),
                   Count(docs[e], t), |docs[d]|, |docs[e]|, AverageLength(docs), q as real, Rarity(s.ln, docs, t));
  }

  lemma SameProducts(a: nat, b: nat, c: nat, d: nat)
    requires a * b == c * d
    ensures a as real * b as real == c as real * d as real
  {
    assert (a * b) as real == a as real * b as real;
    assert (c * d) as real == c as real * d as real;
  }

  lemma FormulaDensity(x: real, x': real, k1: real, b: real, tf: nat, tf': nat, len: nat, len': nat, average: real,
                       q: real, idf: real)
    requires LiteralBm25(x, k1, b, tf as real, len as real, average, q, idf)
    requires LiteralBm25(x', k1, b, tf' as real, len' as real, average, q, idf)
    requires b == 1.0 && tf * len' == tf' * len
    ensures x == x'
  {
    SameProducts(tf, len', tf', len);
    DensityCross(k1, tf as real, tf' as real, len as real, len' as real, average);
    FormulaSame(x, x', k1, b, tf as real, tf' as real, len as real, len' as real, average, q, idf);
  }

  lemma DensityCross(k1: real, tf: real, tf': real, len: real, len': real, average: real)
    requires tf * len' == tf' * len
    ensures tf * Bracket(k1, 1.0, tf', len', average) == tf' * Bracket(k1, 1.0, tf, len, average)
  {
    assert tf * (k1 * len') == k1 * (tf * len');
    assert tf' * (k1 * len) == k1 * (tf' * len);
    assert tf * (tf' * average) == tf' * (tf * average);
  }

  /** Strictly more for more occurrences in a document of the same length. */
  lemma MoreOccurrences(s: Scorer, ix: Index, docs: seq<seq<string>>, t: string, d: nat, e: nat, q: nat)
    requires s.Valid() && s.k1 > 0.0 && Represents(ix, docs) && d < |docs| && e < |docs|
    requires Count(docs[d], t) < Count(docs[e], t) && |docs[d]| == |docs[e]|
    requires s.ScoreTerm(t, e, q, ix) > 0.0
    ensures s.ScoreTerm(t, d, q, ix) < s.ScoreTerm(t, e, q, ix)
  {
    IndexReads(ix, docs, t, d);
    IndexReads(ix, docs, t, e);
    if t !in docs[d] {
      ScoreTermAbsent(s, ix, docs, t, d, q);
    } else {
      ScoreTermLiteral(s, ix, docs, t, d, q);
      ScoreTermLiteral(s, ix, docs, t, e, q);
      FormulaMore(s.ScoreTerm(t, d, q, ix), s.ScoreTerm(t, e, q, ix), s.k1, s.b, Count(docs[d], t) as real,
                  Count(docs[e], t) as real, |docs[d]| as real, AverageLength(docs), q as real,
                  Rarity(s.ln, docs, t));
    }
  }

  lemma FormulaMore(x: real, x': real, k1: real, b: real, tf: real, tf': real, len: real, average: real, q: real,
                    idf: real)
    requires LiteralBm25(x, k1, b, tf, len, average, q, idf)
    requires LiteralBm25(x', k1, b, tf', len, average, q, idf)
    requires k1 > 0.0 && 0.0 <= b <= 1.0 && 0.0 < tf < tf' && len > 0.0 && average > 0.0 && x' > 0.0
    ensures x < x'
  {
    FrequencyBrackets(k1, b, tf, tf', len, average);
    FormulaLess(x, x', k1, b, tf, tf', len, len, average, q, idf);
  }

  lemma FrequencyBrackets(k1: real, b: real, tf: real, tf': real, len: real, average: real)
    requires k1 > 0.0 && 0.0 <= b <= 1.0 && tf < tf' && len > 0.0 && average > 0.0
    ensures tf * Bracket(k1, b, tf', len, average) < tf' * Bracket(k1, b, tf, len, average)
  {
    var saturation := (1.0 - b) * average + b * len;
    assert saturation > 0.0 by {
      if b == 0.0 {
        assert saturation == average;
      } else {
        assert b * len > 0.0;
        NonNegativeProduct(1.0 - b, average);
      }
    }
    FrequencyCross(tf, tf', average, k1 * saturation);
  }

  lemma FrequencyCross(tf: real, tf': real, average: real, saturation: real)
    requires tf < tf' && saturation > 0.0
    ensures tf * (tf' * average + saturation) < tf' * (tf * average + saturation)
  {
    assert (tf' - tf) * saturation > 0.0;
    assert tf * (tf' * average) == tf' * (tf * average);
  }

  /** Strictly less for a longer document with as many occurrences. */
  lemma LongerIsLess(s: Scorer, ix: Index, docs: seq<seq<string>>, t: string, d: nat, e: nat, q: nat)
    requires s.Valid() && s.k1 > 0.0 && s.b > 0.0 && Represents(ix, docs) && d < |docs| && e < |docs|
    requires Count(docs[d], t) == Count(docs[e], t) && |docs[d]| < |docs[e]|
    requires s.ScoreTerm(t, d, q, ix) > 0.0
    ensures s.ScoreTerm(t, e, q, ix) < s.ScoreTerm(t, d, q, ix)
  {
    IndexReads(ix, docs, t, d);
    IndexReads(ix, docs, t, e);
    if t !in docs[d] {
      ScoreTermAbsent(s, ix, docs, t, e, q);
    } else {
      ScoreTermLiteral(s, ix, docs, t, d, q);
      ScoreTermLiteral(s, ix, docs, t, e, q);
      FormulaLonger(s.ScoreTerm(t, d, q, ix), s.ScoreTerm(t, e, q, ix), s.k1, s.b, Count(docs[d], t) as real,
                    |docs[d]| as real, |docs[e]| as real, AverageLength(docs), q as real, Rarity(s.ln, docs, t));
    }
  }

  lemma FormulaLonger(x: real, x': real, k1: real, b: real, tf: real, len: real, len': real, average: real, q: real,
                      idf: real)
    requires LiteralBm25(x, k1, b, tf, len, average, q, idf)
    requires LiteralBm25(x', k1, b, tf, len', average, q, idf)
    requires k1 > 0.0 && b > 0.0 && tf > 0.0 && len < len' && x > 0.0
    ensures x' < x
  {
    LengthBrackets(k1, b, tf, len, len', average);
    FormulaLess(x', x, k1, b, tf, tf, len', len, average, q, idf);
  }

  lemma LengthBrackets(k1: real, b: real, tf: real, len: real, len': real, average: real)
    requires k1 > 0.0 && b > 0.0 && tf > 0.0 && len < len'
    ensures tf * Bracket(k1, b, tf, len, average) < tf * Bracket(k1, b, tf, len', average)
  {
    assert b * (len' - len) > 0.0;
    assert k1 * (b * (len' - len)) > 0.0;
    var u, u' := Bracket(k1, b, tf, len, average), Bracket(k1, b, tf, len', average);
    assert u' - u == k1 * (b * (len' - len));
    assert tf * (u' - u) > 0.0;
  }

  /** Of two terms that occur equally often in a document the rarer one weighs more, when `ln` is increasing. */
  lemma RarerWeighsMore(s: Scorer, ix: Index, docs: seq<seq<string>>, rare: string, common: string, d: nat, q: nat)
    requires s.Valid() && Represents(ix, docs) && d < |docs| && rare in docs[d]
    requires Count(docs[d], rare) == Count(docs[d], common)
    requires |Containing(docs, rare)| < |Containing(docs, common)|
    requires forall x, y :: 0.0 < x < y ==> s.ln(x) < s.ln(y)
    requires s.ScoreTerm(common, d, q, ix) > 0.0
    ensures s.ScoreTerm(common, d, q, ix) < s.ScoreTerm(rare, d, q, ix)
  {
    IndexReads(ix, docs, rare, d);
    IndexReads(ix, docs, common, d);
    ScoreTermLiteral(s, ix, docs, rare, d, q);
    ScoreTermLiteral(s, ix, docs, common, d, q);
    var tf, len, average := Count(docs[d], rare) as real, |docs[d]| as real, AverageLength(docs);
    RarityPositive(s.ScoreTerm(common, d, q, ix), s.k1, s.b, tf, len, average, q as real,
                   Rarity(s.ln, docs, common));
    RarityGrows(s.ln, docs, rare, common);
    FormulaRarer(s.ScoreTerm(common, d, q, ix), s.ScoreTerm(rare, d, q, ix), s.k1, s.b, tf, len, average, q as real,
                 Rarity(s.ln, docs, common), Rarity(s.ln, docs, rare));
  }

  lemma RarityPositive(x: real, k1: real, b: real, tf: real, len: real, average: real, q: real, idf: real)
    requires LiteralBm25(x, k1, b, tf, len, average, q, idf) && idf >= 0.0 && x > 0.0
    ensures idf > 0.0
  {
    assert x * Bracket(k1, b, tf, len, average) > 0.0;
  }

  lemma FormulaRarer(x: real, y: real, k1: real, b: real, tf: real, len: real, average: real, q: real, weak: real,
                     strong: real)
    requires LiteralBm25(x, k1, b, tf, len, average, q, weak) && LiteralBm25(y, k1, b, tf, len, average, q, strong)
    requires x > 0.0 && 0.0 < weak < strong
    ensures x < y
  {
    var u := Bracket(k1, b, tf, len, average);
    RarerCross(x, y, u, q * (tf * (k1 + 1.0)) * average, weak, strong);
  }

  lemma RarerCross(x: real, y: real, u: real, rest: real, weak: real, strong: real)
    requires x * u == rest * weak && y * u == rest * strong && u > 0.0 && x > 0.0 && 0.0 < weak < strong
    ensures x < y
  {
    RestPositive(x, u, weak, rest);
    assert rest * (strong - weak) > 0.0;
    LessByProduct(x, y, u);
  }

  lemma ContainingSize(docs: seq<seq<string>>, t: string)
    ensures |Containing(docs, t)| <= |docs|
  {
    IndicesMembers(|docs|);
    DistinctLength(Indices(|docs|));
    SubsetSize(Containing(docs, t), Elements(Indices(|docs|)));
  }

  lemma RarityGrows(ln: real -> real, docs: seq<seq<string>>, rare: string, common: string)
    requires |Containing(docs, rare)| < |Containing(docs, common)|
    requires forall x, y :: 0.0 < x < y ==> ln(x) < ln(y)
    requires Rarity(ln, docs, common) > 0.0
    ensures Rarity(ln, docs, common) < Rarity(ln, docs, rare)
  {
    ContainingSize(docs, common);
    var n, few, many := |docs| as real, |Containing(docs, rare)| as real, |Containing(docs, common)| as real;
    OddsGrow(n, few, many);
    assert ln(1.0 + (n - many + 0.5) / (many + 0.5)) < ln(1.0 + (n - few + 0.5) / (few + 0.5));
  }

  lemma OddsGrow(n: real, few: real, many: real)
    requires 0.0 <= few < many <= n
    ensures 0.0 < (n - many + 0.5) / (many + 0.5) < (n - few + 0.5) / (few + 0.5)
  {
    var a, c := many + 0.5, few + 0.5;
    var x, y := (n - many + 0.5) / a, (n - few + 0.5) / c;
    QuotientPositive(n - many + 0.5, a);
    QuotientPositive(n - few + 0.5, c);
    assert x * a == n - many + 0.5 && y * c == n - few + 0.5;
    assert y * (a - c) > 0.0;
    assert y * a == y * c + y * (a - c);
    LessByProduct(x, y, a);
  }
}
