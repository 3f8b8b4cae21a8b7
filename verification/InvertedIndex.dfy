/** The inverted index: term to postings list, kept in step with the latest tokens of every document. */
module InvertedIndexes {
  import opened Prelude
  import opened TermOrder

  datatype Posting = Posting(docId: nat, termFreq: nat)

  // ---------------------------------------------------------------------
  // Postings lists
  // ---------------------------------------------------------------------

  ghost predicate SortedPostings(pl: seq<Posting>) {
    forall i, j :: 0 <= i < j < |pl| ==> pl[i].docId < pl[j].docId
  }

  /** Term frequency recorded for a document, 0 when it has no posting. */
  function FreqIn(pl: seq<Posting>, docId: nat): nat {
    if pl == [] then 0
    else if pl[0].docId == docId then pl[0].termFreq
    else FreqIn(pl[1..], docId)
  }

  /** Replaces the posting of `docId`, or inserts one where the order asks for it. */
  function Upsert(pl: seq<Posting>, docId: nat, tf: nat): seq<Posting> {
    if pl == [] then [Posting(docId, tf)]
    else if pl[0].docId == docId then [Posting(docId, tf)] + pl[1..]
    else if pl[0].docId < docId then [pl[0]] + Upsert(pl[1..], docId, tf)
    else [Posting(docId, tf)] + pl
  }

  function RemovePosting(pl: seq<Posting>, docId: nat): seq<Posting> {
    if pl == [] then []
    else if pl[0].docId == docId then pl[1..]
    else [pl[0]] + RemovePosting(pl[1..], docId)
  }

  ghost predicate AllPositive(pl: seq<Posting>) {
    forall i :: 0 <= i < |pl| ==> pl[i].termFreq > 0
  }

  lemma {:induction false} FreqInMember(pl: seq<Posting>, i: nat)
    requires SortedPostings(pl) && i < |pl|
    ensures FreqIn(pl, pl[i].docId) == pl[i].termFreq
  {
    if i > 0 {
      FreqInMember(pl[1..], i - 1);
    }
  }

  lemma {:induction false} FreqInAbsent(pl: seq<Posting>, docId: nat)
    requires forall i :: 0 <= i < |pl| ==> pl[i].docId != docId
    ensures FreqIn(pl, docId) == 0
  {
    if pl != [] {
      FreqInAbsent(pl[1..], docId);
    }
  }

  lemma {:induction false} FreqInWitness(pl: seq<Posting>, docId: nat)
    requires FreqIn(pl, docId) > 0
    ensures exists i :: 0 <= i < |pl| && pl[i].docId == docId
  {
    if pl[0].docId != docId {
      FreqInWitness(pl[1..], docId);
      var i :| 0 <= i < |pl[1..]| && pl[1..][i].docId == docId;
      assert pl[i + 1].docId == docId;
    }
  }

  lemma {:induction false} UpsertMembers(pl: seq<Posting>, docId: nat, tf: nat)
    ensures forall p :: p in Upsert(pl, docId, tf) ==> p in pl || p == Posting(docId, tf)
    ensures Upsert(pl, docId, tf) != []
  {
    if pl != [] && pl[0].docId < docId {
      UpsertMembers(pl[1..], docId, tf);
    }
  }

  /** `upsert` keeps the list strictly sorted and changes the frequency of one document only. */
  lemma {:induction false} UpsertCorrect(pl: seq<Posting>, docId: nat, tf: nat)
    requires SortedPostings(pl)
    ensures SortedPostings(Upsert(pl, docId, tf))
    ensures forall d: nat :: FreqIn(Upsert(pl, docId, tf), d) == if d == docId then tf else FreqIn(pl, d)
  {
    if pl != [] {
      if pl[0].docId < docId {
        UpsertCorrect(pl[1..], docId, tf);
        UpsertMembers(pl[1..], docId, tf);
        var rest := Upsert(pl[1..], docId, tf);
        forall i | 0 <= i < |rest| ensures pl[0].docId < rest[i].docId {
          assert rest[i] in rest;
        }
      } else {
        forall d: nat ensures FreqIn(Upsert(pl, docId, tf), d) == if d == docId then tf else FreqIn(pl, d) {
          assert ([Posting(docId, tf)] + pl)[1..] == pl;
          assert ([Posting(docId, tf)] + pl[1..])[1..] == pl[1..];
        }
      }
    }
  }

  lemma {:induction false} RemovePostingMembers(pl: seq<Posting>, docId: nat)
    ensures forall p :: p in RemovePosting(pl, docId) ==> p in pl
  {
    if pl != [] && pl[0].docId != docId {
      RemovePostingMembers(pl[1..], docId);
    }
  }

  lemma {:induction false} RemovePostingCorrect(pl: seq<Posting>, docId: nat)
    requires SortedPostings(pl)
    ensures SortedPostings(RemovePosting(pl, docId))
    ensures forall d: nat :: FreqIn(RemovePosting(pl, docId), d) == if d == docId then 0 else FreqIn(pl, d)
  {
    if pl != [] {
      if pl[0].docId == docId {
        FreqInAbsent(pl[1..], docId);
      } else {
        RemovePostingCorrect(pl[1..], docId);
        RemovePostingMembers(pl[1..], docId);
        var rest := RemovePosting(pl[1..], docId);
        forall i | 0 <= i < |rest| ensures pl[0].docId < rest[i].docId {
          assert rest[i] in rest;
        }
      }
    }
  }

  /** A sorted list of positive frequencies is determined by the frequencies it records. */
  lemma {:induction false} PostingsUnique(a: seq<Posting>, b: seq<Posting>)
    requires SortedPostings(a) && SortedPostings(b) && AllPositive(a) && AllPositive(b)
    requires forall d: nat :: FreqIn(a, d) == FreqIn(b, d)
    ensures a == b
  {
    assert a != [] ==> FreqIn(a, a[0].docId) > 0;
    assert b != [] ==> FreqIn(b, b[0].docId) > 0;
    if a != [] && b != [] {
      if a[0].docId < b[0].docId {
        FreqInAbsent(b, a[0].docId);
      } else if b[0].docId < a[0].docId {
        FreqInAbsent(a, b[0].docId);
      }
      forall d: nat ensures FreqIn(a[1..], d) == FreqIn(b[1..], d) {
        assert FreqIn(a, d) == FreqIn(b, d);
        if d == a[0].docId {
          FreqInAbsent(a[1..], d);
          FreqInAbsent(b[1..], d);
        }
      }
      PostingsUnique(a[1..], b[1..]);
      assert FreqIn(a, a[0].docId) == FreqIn(b, a[0].docId);
      assert a == [a[0]] + a[1..] && b == [b[0]] + b[1..];
    }
  }

  // ---------------------------------------------------------------------
  // The index as a value, as its readers see it
  // ---------------------------------------------------------------------

  datatype Index = Index(
    terms: map<string, seq<Posting>>,
    docLengths: seq<nat>,
    docTerms: seq<seq<string>>,
    numDocs: nat,
    totalTokens: nat,
    avgdl: real)
  {
    function Postings(term: string): seq<Posting> {
      if term in terms then terms[term] else []
    }

    function DocFreq(term: string): nat {
      |Postings(term)|
    }

    /** Jaccard similarity by two cursors over the sorted term lists. */
    method JaccardSimilarity(docA: nat, docB: nat) returns (r: real)
      requires forall d :: 0 <= d < |docTerms| ==> StrictlySorted(docTerms[d])
      ensures r == TermJaccard(docTerms, docA, docB)
    {
      if docA == docB {
        return 1.0;
      }
      if docA >= |docTerms| || docB >= |docTerms| {
        return 0.0;
      }
      var termsA, termsB := docTerms[docA], docTerms[docB];
      var intersection := CountCommon(termsA, termsB);
      UnionSize(termsA, termsB);
      var union := |termsA| + |termsB| - intersection;
      if union == 0 {
        return 0.0;
      }
      return intersection as real / union as real;
    }
  }

  /** Number of terms two sorted lists share. */
  method CountCommon(termsA: seq<string>, termsB: seq<string>) returns (intersection: nat)
    requires StrictlySorted(termsA) && StrictlySorted(termsB)
    ensures intersection == |Elements(termsA) * Elements(termsB)|
  {
    var a, b := 0, 0;
    intersection := 0;
    while a < |termsA| && b < |termsB|
      invariant 0 <= a <= |termsA| && 0 <= b <= |termsB|
      invariant intersection == Common(termsA, a, termsB, b)
      invariant Behind(termsA, a, termsB, b) && Behind(termsB, b, termsA, a)
      decreases |termsA| + |termsB| - a - b
    {
      LessTotal(termsA[a], termsB[b]);
      if termsA[a] == termsB[b] {
        AdvanceBoth(termsA, termsB, a, b);
        intersection := intersection + 1;
        a, b := a + 1, b + 1;
      } else if Less(termsA[a], termsB[b]) {
        AdvanceLeft(termsA, termsB, a, b);
        a := a + 1;
      } else {
        AdvanceLeft(termsB, termsA, b, a);
        CommonSymmetric(termsA, a, termsB, b);
        CommonSymmetric(termsA, a, termsB, b + 1);
        b := b + 1;
      }
    }
    CursorsDone(termsA, termsB, a, b);
  }

  /** Everything the cursor has passed in `p` is below everything still ahead in `q`. */
  ghost predicate Behind(p: seq<string>, a: nat, q: seq<string>, b: nat)
    requires a <= |p|
  {
    forall i, j :: 0 <= i < a && b <= j < |q| ==> Less(p[i], q[j])
  }

  lemma UnionSize(p: seq<string>, q: seq<string>)
    requires StrictlySorted(p) && StrictlySorted(q)
    ensures |Elements(p) + Elements(q)| == |p| + |q| - |Elements(p) * Elements(q)|
  {
    SortedIsDistinct(p);
    SortedIsDistinct(q);
    DistinctLength(p);
    DistinctLength(q);
    ghost var s, t := Elements(p), Elements(q);
    assert |s + t| == |s| + |t| - |s * t|;
  }

  /** Number of terms common to the parts passed so far. */
  ghost function Common(p: seq<string>, a: nat, q: seq<string>, b: nat): nat
    requires a <= |p| && b <= |q|
  {
    |Elements(p[..a]) * Elements(q[..b])|
  }

  lemma CommonSymmetric(p: seq<string>, a: nat, q: seq<string>, b: nat)
    requires a <= |p| && b <= |q|
    ensures Common(p, a, q, b) == Common(q, b, p, a)
  {
    assert Elements(p[..a]) * Elements(q[..b]) == Elements(q[..b]) * Elements(p[..a]);
  }

  lemma AdvanceLeft(p: seq<string>, q: seq<string>, a: nat, b: nat)
    requires StrictlySorted(p) && StrictlySorted(q) && a < |p| && b < |q| && Less(p[a], q[b])
    requires Behind(p, a, q, b) && Behind(q, b, p, a)
    ensures Behind(p, a + 1, q, b) && Behind(q, b, p, a + 1)
    ensures Common(p, a + 1, q, b) == Common(p, a, q, b)
  {
    forall j | b <= j < |q| ensures Less(p[a], q[j]) {
      if j > b {
        LessTransitive(p[a], q[b], q[j]);
      }
    }
    assert p[..a + 1] == p[..a] + [p[a]];
    LessIrreflexive(p[a]);
    assert p[a] !in q[..b];
    assert Elements(p[..a + 1]) == Elements(p[..a]) + {p[a]};
    assert Elements(p[..a + 1]) * Elements(q[..b]) == Elements(p[..a]) * Elements(q[..b]);
  }

  lemma AdvanceBoth(p: seq<string>, q: seq<string>, a: nat, b: nat)
    requires StrictlySorted(p) && StrictlySorted(q) && a < |p| && b < |q| && p[a] == q[b]
    requires Behind(p, a, q, b) && Behind(q, b, p, a)
    ensures Behind(p, a + 1, q, b + 1) && Behind(q, b + 1, p, a + 1)
    ensures Common(p, a + 1, q, b + 1) == Common(p, a, q, b) + 1
  {
    LessIrreflexive(p[a]);
    assert p[a] !in p[..a] && q[b] !in q[..b];
    assert p[..a + 1] == p[..a] + [p[a]] && q[..b + 1] == q[..b] + [q[b]];
    assert Elements(p[..a + 1]) * Elements(q[..b + 1]) == Elements(p[..a]) * Elements(q[..b]) + {p[a]};
  }

  lemma CursorsDone(p: seq<string>, q: seq<string>, a: nat, b: nat)
    requires a <= |p| && b <= |q| && (a == |p| || b == |q|)
    requires Behind(p, a, q, b) && Behind(q, b, p, a)
    ensures Common(p, a, q, b) == |Elements(p) * Elements(q)|
  {
    forall x | x in p && x in q ensures x in p[..a] && x in q[..b] {
      var i :| 0 <= i < |p| && p[i] == x;
      var j :| 0 <= j < |q| && q[j] == x;
      LessIrreflexive(x);
      assert i < a && j < b;
      assert p[..a][i] == x && q[..b][j] == x;
    }
    assert Elements(p[..a]) * Elements(q[..b]) == Elements(p) * Elements(q);
  }

  /** Intersection over union of two term lists seen as sets; 0 when both are empty or unknown. */
  ghost function TermJaccard(docTerms: seq<seq<string>>, a: nat, b: nat): real {
    if a == b then 1.0
    else if a >= |docTerms| || b >= |docTerms| then 0.0
    else SetJaccard(Elements(docTerms[a]), Elements(docTerms[b]))
  }

  ghost function SetJaccard(a: set<string>, b: set<string>): real {
    if |a + b| == 0 then 0.0 else |a * b| as real / |a + b| as real
  }

  // ---------------------------------------------------------------------
  // What the index must be, given the latest tokens of every document
  // ---------------------------------------------------------------------

  ghost function TotalLength(docs: seq<seq<string>>): nat {
    if docs == [] then 0 else |docs[0]| + TotalLength(docs[1..])
  }

  ghost predicate TermsRepresent(terms: map<string, seq<Posting>>, docs: seq<seq<string>>) {
    && WellFormedLists(terms) && NoEmptyLists(terms)
    && (forall t: string, d: nat :: RecordedFreq(terms, t, d) == DocumentFreq(docs, t, d))
  }

  ghost function RecordedFreq(terms: map<string, seq<Posting>>, t: string, d: nat): nat {
    if t in terms then FreqIn(terms[t], d) else 0
  }

  ghost function DocumentFreq(docs: seq<seq<string>>, t: string, d: nat): nat {
    if d < |docs| then Count(docs[d], t) else 0
  }

  ghost predicate Represents(ix: Index, docs: seq<seq<string>>) {
    MetaRepresents(ix, docs) && TermsRepresent(ix.terms, docs)
  }

  ghost predicate WellFormedLists(terms: map<string, seq<Posting>>) {
    forall t :: t in terms ==> SortedPostings(terms[t]) && AllPositive(terms[t])
  }

  ghost predicate NoEmptyLists(terms: map<string, seq<Posting>>) {
    forall t :: t in terms ==> terms[t] != []
  }

  /** Nothing is recorded for `docId`, and the frequencies of the other documents are right. */
  ghost predicate ClearedOf(terms: map<string, seq<Posting>>, docs: seq<seq<string>>, docId: nat) {
    forall t: string, d: nat :: RecordedFreq(terms, t, d) == if d == docId then 0 else DocumentFreq(docs, t, d)
  }

  /** The per-document part: lengths, sorted term lists and totals. */
  ghost predicate MetaRepresents(ix: Index, docs: seq<seq<string>>) {
    && ix.numDocs == |docs| == |ix.docLengths| == |ix.docTerms|
    && (forall d :: 0 <= d < |docs| ==> ix.docLengths[d] == |docs[d]|)
    && (forall d :: 0 <= d < |docs| ==> StrictlySorted(ix.docTerms[d]))
    && (forall d, t :: 0 <= d < |docs| ==> (t in ix.docTerms[d] <==> t in docs[d]))
    && ix.totalTokens == TotalLength(docs)
    && ix.avgdl == (if |docs| == 0 then 0.0 else ix.totalTokens as real / |docs| as real)
  }

  /** The documents after one `add_document`: skipped ids become empty documents. */
  ghost function WithDocument(docs: seq<seq<string>>, docId: nat, tokens: seq<string>): seq<seq<string>> {
    if docId < |docs| then docs[docId := tokens]
    else docs + seq<seq<string>>(docId - |docs|, _ => []) + [tokens]
  }

  /** The documents determine the whole index. */
  lemma IndexDetermined(a: Index, b: Index, docs: seq<seq<string>>)
    requires Represents(a, docs) && Represents(b, docs)
    ensures a == b
  {
    assert a.docLengths == b.docLengths;
    forall d | 0 <= d < |docs| ensures a.docTerms[d] == b.docTerms[d] {
      SortedUnique(a.docTerms[d], b.docTerms[d]);
    }
    assert a.docTerms == b.docTerms;
    forall t ensures t in a.terms ==> t in b.terms && a.terms[t] == b.terms[t] {
      TermDetermined(a, b, docs, t);
    }
    forall t ensures t in b.terms ==> t in a.terms {
      TermDetermined(b, a, docs, t);
    }
    assert a.terms == b.terms;
  }

  lemma TermDetermined(a: Index, b: Index, docs: seq<seq<string>>, t: string)
    requires Represents(a, docs) && Represents(b, docs)
    ensures t in a.terms ==> t in b.terms && a.terms[t] == b.terms[t]
  {
    if t in a.terms {
      var d := a.terms[t][0].docId;
      assert RecordedFreq(a.terms, t, d) == DocumentFreq(docs, t, d) == RecordedFreq(b.terms, t, d);
      forall d: nat ensures FreqIn(a.terms[t], d) == FreqIn(b.terms[t], d) {
        assert RecordedFreq(a.terms, t, d) == DocumentFreq(docs, t, d) == RecordedFreq(b.terms, t, d);
      }
      PostingsUnique(a.terms[t], b.terms[t]);
    }
  }

  /** On a represented index the two-cursor result is the Jaccard similarity of the documents' token sets. */
  lemma JaccardOfDocuments(ix: Index, docs: seq<seq<string>>, a: nat, b: nat)
    requires Represents(ix, docs) && a < |docs| && b < |docs| && a != b
    ensures TermJaccard(ix.docTerms, a, b) == SetJaccard(Elements(docs[a]), Elements(docs[b]))
    ensures 0.0 <= TermJaccard(ix.docTerms, a, b) <= 1.0
  {
    assert Elements(ix.docTerms[a]) == Elements(docs[a]);
    assert Elements(ix.docTerms[b]) == Elements(docs[b]);
    SetJaccardBounds(Elements(docs[a]), Elements(docs[b]));
  }

  lemma SetJaccardBounds(a: set<string>, b: set<string>)
    ensures 0.0 <= SetJaccard(a, b) <= 1.0
  {
    SubsetSize(a * b, a + b);
    if |a + b| > 0 {
      RatioBounds(|a * b|, |a + b|);
    }
  }

  lemma RatioBounds(n: nat, d: nat)
    requires n <= d && d > 0
    ensures 0.0 <= n as real / d as real <= 1.0
  {
  }

  lemma {:induction false} TotalLengthAppend(a: seq<seq<string>>, b: seq<seq<string>>)
    ensures TotalLength(a + b) == TotalLength(a) + TotalLength(b)
  {
    if a == [] {
      assert a + b == b;
    } else {
      assert (a + b)[1..] == a[1..] + b;
      TotalLengthAppend(a[1..], b);
    }
  }

  lemma {:induction false} TotalLengthEmpty(n: nat)
    ensures TotalLength(seq<seq<string>>(n, _ => [])) == 0
  {
    if n > 0 {
      assert seq<seq<string>>(n, _ => [])[1..] == seq<seq<string>>(n - 1, _ => []);
      TotalLengthEmpty(n - 1);
    }
  }

  lemma TotalLengthWith(docs: seq<seq<string>>, docId: nat, tokens: seq<string>)
    ensures TotalLength(WithDocument(docs, docId, tokens)) ==
            TotalLength(docs) - (if docId < |docs| then |docs[docId]| else 0) + |tokens|
  {
    if docId < |docs| {
      var a, b := docs[..docId], docs[docId + 1..];
      assert docs == a + ([docs[docId]] + b);
      assert docs[docId := tokens] == a + ([tokens] + b);
      TotalLengthAppend(a, [docs[docId]] + b);
      TotalLengthAppend(a, [tokens] + b);
    } else {
      var gap := seq<seq<string>>(docId - |docs|, _ => []);
      TotalLengthEmpty(docId - |docs|);
      TotalLengthAppend(docs + gap, [tokens]);
      TotalLengthAppend(docs, gap);
      assert TotalLength([tokens]) == |tokens| + TotalLength([]);
    }
  }

  function SaturatingSub(x: nat, y: nat): nat {
    if x < y then 0 else x - y
  }

  /** Term frequencies of a token list, as a map. */
  method CountTerms(tokens: seq<string>) returns (tf: map<string, nat>)
    ensures tf.Keys == Elements(tokens)
    ensures forall t :: t in tf ==> tf[t] == Count(tokens, t) && tf[t] > 0
  {
    tf := map[];
    for i := 0 to |tokens|
      invariant tf.Keys == Elements(tokens[..i])
      invariant forall t :: t in tf ==> tf[t] == Count(tokens[..i], t)
    {
      ghost var before := tf;
      var t := tokens[i];
      assert tokens[..i + 1] == tokens[..i] + [t];
      forall x ensures Count(tokens[..i + 1], x) == Count(tokens[..i], x) + if x == t then 1 else 0 {
        CountAppend(tokens[..i], t, x);
      }
      CountPositive(tokens[..i], t);
      tf := tf[t := (if t in tf then tf[t] else 0) + 1];
      assert Elements(tokens[..i + 1]) == Elements(tokens[..i]) + {t};
    }
    assert tokens[..|tokens|] == tokens;
    forall t | t in tf ensures tf[t] > 0 {
      CountPositive(tokens, t);
    }
  }

  // ---------------------------------------------------------------------
  // The mutable index
  // ---------------------------------------------------------------------

  class InvertedIndex {
    var terms: map<string, seq<Posting>>
    var docLengths: seq<nat>
    var docTerms: seq<seq<string>>
    var numDocs: nat
    var totalTokens: nat
    var avgdl: real
    /** The latest tokens of every document. */
    ghost var docs: seq<seq<string>>

    function View(): Index
      reads this
    {
      Index(terms, docLengths, docTerms, numDocs, totalTokens, avgdl)
    }

    ghost predicate Valid()
      reads this
    {
      Represents(View(), docs)
    }

    constructor ()
      ensures Valid() && docs == []
    {
      terms, docLengths, docTerms := map[], [], [];
      numDocs, totalTokens, avgdl := 0, 0, 0.0;
      docs := [];
    }

    /** Drops the postings the document had under its previous terms. */
    method RemoveOldPostings(docId: nat)
      requires docId < |docTerms| && WellFormedLists(terms)
      modifies this`terms
      ensures WellFormedLists(terms) && NoEmptyLists(terms)
      ensures Removed(old(terms), docId, docTerms[docId], terms)
    {
      var oldTerms := docTerms[docId];
      for i := 0 to |oldTerms|
        invariant WellFormedLists(terms) && Removed(old(terms), docId, oldTerms[..i], terms)
      {
        var t := oldTerms[i];
        assert oldTerms[..i + 1] == oldTerms[..i] + [t];
        RemoveOne(old(terms), docId, oldTerms[..i], terms, t);
        if t in terms {
          terms := terms[t := RemovePosting(terms[t], docId)];
        }
      }
      assert oldTerms[..|oldTerms|] == oldTerms;
      ghost var before := terms;
      terms := map t | t in terms && terms[t] != [] :: terms[t];
      assert forall t: string, d: nat :: RecordedFreq(terms, t, d) == RecordedFreq(before, t, d);
    }

    /** Makes room for a new document id; the ids skipped become empty documents. */
    method Grow(docId: nat)
      requires numDocs == |docLengths| == |docTerms|
      modifies this`docLengths, this`docTerms, this`numDocs
      ensures numDocs == |docLengths| == |docTerms| == if docId < old(numDocs) then old(numDocs) else docId + 1
      ensures forall d :: 0 <= d < numDocs ==>
                docLengths[d] == (if d < old(numDocs) then old(docLengths)[d] else 0)
                && docTerms[d] == (if d < old(numDocs) then old(docTerms)[d] else [])
    {
      if docId >= |docLengths| {
        docLengths := docLengths + seq(docId + 1 - |docLengths|, _ => 0);
        docTerms := docTerms + seq(docId + 1 - |docTerms|, _ => []);
        numDocs := docId + 1;
      }
    }

    /** Enters the length, the totals and the term list of the new tokens. */
    method UpdateTotals(docId: nat, tokens: seq<string>)
      requires docId < numDocs == |docLengths| == |docTerms|
      modifies this`docLengths, this`docTerms, this`totalTokens, this`avgdl
      ensures docLengths == old(docLengths)[docId := |tokens|]
      ensures docTerms == old(docTerms)[docId := SortDedup(tokens)]
      ensures totalTokens == SaturatingSub(old(totalTokens), old(docLengths)[docId]) + |tokens|
      ensures avgdl == totalTokens as real / numDocs as real
    {
      var oldLen := docLengths[docId];
      totalTokens := SaturatingSub(totalTokens, oldLen);
      totalTokens := totalTokens + |tokens|;
      docLengths := docLengths[docId := |tokens|];
      docTerms := docTerms[docId := SortDedup(tokens)];
      avgdl := if numDocs > 0 then totalTokens as real / numDocs as real else 0.0;
    }

    /** Adds or replaces a document. */
    method AddDocument(docId: nat, tokens: seq<string>)
      requires Valid()
      modifies this
      ensures Valid() && docs == WithDocument(old(docs), docId, tokens)
    {
      var tfMap := CountTerms(tokens);
      ghost var before := View();
      Grow(docId);
      ghost var oldTerms := docTerms[docId];
      RemoveOldPostings(docId);
      UpdateTotals(docId, tokens);
      RemovalClears(before, docs, docId, oldTerms, terms);
      InsertPostings(docId, tokens, tfMap);
      MetaUpdated(before, docs, docId, tokens, View());
      docs := WithDocument(docs, docId, tokens);
    }

    /** Adds the postings of the new terms, in whatever order the map yields them. */
    method InsertPostings(docId: nat, tokens: seq<string>, tfMap: map<string, nat>)
      requires tfMap.Keys == Elements(tokens)
      requires forall t :: t in tfMap ==> tfMap[t] == Count(tokens, t) && tfMap[t] > 0
      requires WellFormedLists(terms) && NoEmptyLists(terms) && ClearedOf(terms, docs, docId)
      modifies this`terms
      ensures TermsRepresent(terms, WithDocument(docs, docId, tokens))
    {
      var rest := tfMap.Keys;
      while rest != {}
        invariant rest <= tfMap.Keys
        invariant WellFormedLists(terms) && NoEmptyLists(terms)
        invariant Inserted(terms, docs, docId, tfMap, rest)
      {
        var t :| t in rest;
        InsertOne(terms, docs, docId, tfMap, rest, t);
        terms := terms[t := Upsert(if t in terms then terms[t] else [], docId, tfMap[t])];
        rest := rest - {t};
      }
      ghost var after := WithDocument(docs, docId, tokens);
      forall t: string, d: nat ensures RecordedFreq(terms, t, d) == DocumentFreq(after, t, d) {
        CountPositive(tokens, t);
      }
    }

    method Clear()
      modifies this
      ensures Valid() && docs == []
    {
      terms, docLengths, docTerms := map[], [], [];
      numDocs, totalTokens, avgdl := 0, 0, 0.0;
      docs := [];
    }
  }

  /** The new postings of `docId` are in, except those of the terms in `rest`. */
  ghost predicate Inserted(terms: map<string, seq<Posting>>, docs: seq<seq<string>>, docId: nat,
                           tfMap: map<string, nat>, rest: set<string>) {
    forall t: string, d: nat :: RecordedFreq(terms, t, d) ==
      if d != docId then DocumentFreq(docs, t, d) else if t in tfMap && t !in rest then tfMap[t] else 0
  }

  /** The postings of `docId` under the terms of `gone` are out, nothing else changed. */
  ghost predicate Removed(before: map<string, seq<Posting>>, docId: nat, gone: seq<string>,
                          terms: map<string, seq<Posting>>)
  {
    forall t: string, d: nat :: RecordedFreq(terms, t, d) ==
      if d == docId && t in gone then 0 else RecordedFreq(before, t, d)
  }

  lemma RemoveOne(before: map<string, seq<Posting>>, docId: nat, gone: seq<string>, terms: map<string, seq<Posting>>,
                  t: string)
    requires WellFormedLists(terms) && Removed(before, docId, gone, terms)
    ensures var terms' := if t in terms then terms[t := RemovePosting(terms[t], docId)] else terms;
            WellFormedLists(terms') && Removed(before, docId, gone + [t], terms')
  {
    var terms' := if t in terms then terms[t := RemovePosting(terms[t], docId)] else terms;
    if t in terms {
      RemovePostingCorrect(terms[t], docId);
      RemovePostingMembers(terms[t], docId);
      var shorter := RemovePosting(terms[t], docId);
      assert forall k :: 0 <= k < |shorter| ==> shorter[k] in shorter;
    }
    forall x: string, d: nat ensures RecordedFreq(terms', x, d) ==
        if d == docId && x in gone + [t] then 0 else RecordedFreq(before, x, d)
    {
      assert RecordedFreq(terms, x, d) == if d == docId && x in gone then 0 else RecordedFreq(before, x, d);
    }
  }

  lemma InsertOne(terms: map<string, seq<Posting>>, docs: seq<seq<string>>, docId: nat,
                  tfMap: map<string, nat>, rest: set<string>, t: string)
    requires WellFormedLists(terms) && NoEmptyLists(terms) && Inserted(terms, docs, docId, tfMap, rest)
    requires t in rest && t in tfMap && tfMap[t] > 0
    ensures var terms' := terms[t := Upsert(if t in terms then terms[t] else [], docId, tfMap[t])];
            WellFormedLists(terms') && NoEmptyLists(terms') && Inserted(terms', docs, docId, tfMap, rest - {t})
  {
    var pl := if t in terms then terms[t] else [];
    UpsertCorrect(pl, docId, tfMap[t]);
    UpsertMembers(pl, docId, tfMap[t]);
    var longer := Upsert(pl, docId, tfMap[t]);
    assert forall k :: 0 <= k < |longer| ==> longer[k] in longer;
    var terms' := terms[t := longer];
    forall x: string, d: nat ensures RecordedFreq(terms', x, d) ==
        if d != docId then DocumentFreq(docs, x, d) else if x in tfMap && x !in rest - {t} then tfMap[x] else 0
    {
      assert RecordedFreq(terms, x, d) ==
        if d != docId then DocumentFreq(docs, x, d) else if x in tfMap && x !in rest then tfMap[x] else 0;
      assert RecordedFreq(terms, t, d) == FreqIn(pl, d);
    }
  }

  lemma MetaUpdated(before: Index, docs: seq<seq<string>>, docId: nat, tokens: seq<string>, after: Index)
    requires MetaRepresents(before, docs)
    requires after.numDocs == |after.docLengths| == |after.docTerms| ==
             if docId < before.numDocs then before.numDocs else docId + 1
    requires forall d :: 0 <= d < after.numDocs && d != docId ==>
               after.docLengths[d] == (if d < before.numDocs then before.docLengths[d] else 0)
               && after.docTerms[d] == (if d < before.numDocs then before.docTerms[d] else [])
    requires after.docLengths[docId] == |tokens| && after.docTerms[docId] == SortDedup(tokens)
    requires var oldLen := if docId < before.numDocs then before.docLengths[docId] else 0;
             after.totalTokens == SaturatingSub(before.totalTokens, oldLen) + |tokens|
    requires after.avgdl == after.totalTokens as real / after.numDocs as real
    ensures MetaRepresents(after, WithDocument(docs, docId, tokens))
  {
    var docs' := WithDocument(docs, docId, tokens);
    TotalLengthWith(docs, docId, tokens);
    if docId < |docs| {
      TotalLengthAtLeast(docs, docId);
    }
    assert |docs'| == after.numDocs;
    forall d | 0 <= d < |docs'|
      ensures after.docLengths[d] == |docs'[d]| && StrictlySorted(after.docTerms[d])
      ensures forall t :: t in after.docTerms[d] <==> t in docs'[d]
    {
      if d == docId {
        SortDedupCorrect(tokens);
        assert docs'[d] == tokens;
      } else if d < |docs| {
        assert docs'[d] == docs[d];
      } else {
        assert docs'[d] == [];
      }
    }
  }

  /** Once its old postings are gone, the document has no recorded frequency at all. */
  lemma RemovalClears(before: Index, docs: seq<seq<string>>, docId: nat, oldTerms: seq<string>,
                      terms: map<string, seq<Posting>>)
    requires Represents(before, docs)
    requires oldTerms == if docId < |docs| then before.docTerms[docId] else []
    requires Removed(before.terms, docId, oldTerms, terms)
    ensures ClearedOf(terms, docs, docId)
  {
    forall t: string, d: nat ensures RecordedFreq(terms, t, d) == if d == docId then 0 else DocumentFreq(docs, t, d) {
      assert RecordedFreq(before.terms, t, d) == DocumentFreq(docs, t, d);
      if d == docId && d < |docs| && t !in oldTerms {
        CountPositive(docs[d], t);
      }
    }
  }

  lemma TotalLengthAtLeast(docs: seq<seq<string>>, d: nat)
    requires d < |docs|
    ensures TotalLength(docs) >= |docs[d]|
  {
    if d > 0 {
      TotalLengthAtLeast(docs[1..], d - 1);
    }
  }
}
