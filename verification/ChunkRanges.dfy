/** Whether the line range of a chunk is that of the text it adds. */
module ChunkRanges {
  import opened Prelude
  import opened Texts
  import opened Chunkers

  /** The lines from line `lo` of the file to line `hi`, which lie in the section. */
  ghost function Between(s: Section, lo: nat, hi: nat): seq<string>
    requires s.startLine <= lo <= hi <= s.startLine + |s.lines|
  {
    s.lines[lo - s.startLine..hi - s.startLine]
  }

  /** Save white space, what the chunk adds after its overlap is the lines of its range. */
  ghost predicate SaysItsLines(s: Section, chunk: Chunk, added: string) {
    && s.startLine <= chunk.startLine <= chunk.endLine <= s.startLine + |s.lines|
    && Squeeze(added) == Squeeze(Flatten(Between(s, chunk.startLine, chunk.endLine)))
  }

  ghost predicate ExactAt(s: Section, chunks: seq<Chunk>, news: seq<string>, k: nat)
    requires k < |chunks| && k < |news|
  {
    SaysItsLines(s, chunks[k], news[k])
  }

  ghost predicate Exact(s: Section, chunks: seq<Chunk>, news: seq<string>) {
    && |chunks| == |news|
    && forall k: nat {:trigger ExactAt(s, chunks, news, k)} :: k < |chunks| ==> ExactAt(s, chunks, news, k)
  }

  lemma ExactSnoc(s: Section, chunks: seq<Chunk>, news: seq<string>, chunk: Chunk, added: string)
    requires Exact(s, chunks, news) && SaysItsLines(s, chunk, added)
    ensures Exact(s, chunks + [chunk], news + [added])
  {
    forall k: nat | k < |chunks| + 1 ensures ExactAt(s, chunks + [chunk], news + [added], k) {
      assert k < |chunks| ==> ExactAt(s, chunks, news, k);
    }
  }

  /** A line over the maximum is flushed although nothing has been collected: only empty lines came before it. */
  ghost predicate AloneIn(c: Config, line: string, i: nat, d: Draft) {
    d.text == "" && i > d.lineOffset && Size(c.width, line) > c.maxChunkChars && Squeeze(line) != ""
  }

  ghost predicate Alone(c: Config, s: Section, i: nat)
    requires i < |s.lines|
  {
    AloneIn(c, s.lines[i], i, LoopAt(c, s, i).draft)
  }

  ghost predicate NoneAlone(c: Config, s: Section, n: nat)
    requires n <= |s.lines|
  {
    forall i: nat {:trigger Alone(c, s, i)} :: i < n ==> !Alone(c, s, i)
  }

  /** Every chunk so far is exact, and what is pending is the lines since the start of the next one. */
  ghost predicate InStep(s: Section, i: nat, d: Draft, w: Wording) {
    && s.startLine <= d.start <= s.startLine + i <= s.startLine + |s.lines|
    && Squeeze(w.pending) == Squeeze(Flatten(Between(s, d.start, s.startLine + i)))
    && Exact(s, d.chunks, w.news)
  }

  lemma BetweenNext(s: Section, lo: nat, i: nat)
    requires s.startLine <= lo <= s.startLine + i && i < |s.lines|
    ensures Squeeze(Flatten(Between(s, lo, s.startLine + i + 1))) ==
            Squeeze(Flatten(Between(s, lo, s.startLine + i))) + Squeeze(s.lines[i])
  {
    var before := Between(s, lo, s.startLine + i);
    assert Between(s, lo, s.startLine + i + 1) == before + [s.lines[i]];
    SqueezeSnoc(before, s.lines[i]);
  }

  lemma NothingBetween(s: Section, at: nat)
    requires s.startLine <= at <= s.startLine + |s.lines|
    ensures Squeeze(Flatten(Between(s, at, at))) == ""
  {
    assert Between(s, at, at) == [];
  }

  lemma OneBetween(s: Section, i: nat)
    requires i < |s.lines|
    ensures Squeeze(Flatten(Between(s, s.startLine + i, s.startLine + i + 1))) == Squeeze(s.lines[i])
  {
    NothingBetween(s, s.startLine + i);
    BetweenNext(s, s.startLine + i, i);
  }

  lemma PendingEmpty(c: Config, lines: seq<string>, i: nat, w: Wording)
    requires i <= |lines| && Conserved(c, lines, i, "", w)
    ensures Squeeze(w.pending) == ""
  {
    assert |Squeeze(w.tail) + Squeeze(w.pending)| == 0;
  }

  lemma InStepNext(c: Config, s: Section, i: nat, d: Draft, w: Wording)
    requires i < |s.lines| && InStep(s, i, d, w) && Conserved(c, s.lines, i, d.text, w)
    requires !AloneIn(c, s.lines[i], i, d)
    ensures InStep(s, i + 1, NextDraft(c, s, i, d), NextWording(c, s, i, d, w))
  {
    var line := s.lines[i];
    if EndsParagraph(c, line, d.text) {
      Flushes(s, i, d, w, d.text, w.pending);
      NothingBetween(s, s.startLine + i + 1);
    } else if Overflows(c, line, d.text) && i > d.lineOffset {
      OneBetween(s, i);
      if d.text == "" {
        PendingEmpty(c, s.lines, i, w);
        Flushes(s, i, d, w, line, line);
      } else {
        Flushes(s, i, d, w, d.text, w.pending);
      }
    } else {
      BetweenNext(s, d.start, i);
      SqueezeAppend(w.pending, line);
    }
  }

  lemma Flushes(s: Section, i: nat, d: Draft, w: Wording, body: string, added: string)
    requires InStep(s, i, d, w) && Squeeze(added) == Squeeze(w.pending)
    ensures Exact(s, Flush(s, i, d, body), w.news + [added])
  {
    var chunk := Chunk(AddHeaderContext(s.headerContext, Trim(body)), d.start, s.startLine + i);
    ExactSnoc(s, d.chunks, w.news, chunk, added);
  }

  lemma {:induction false} InStepAlways(c: Config, s: Section, n: nat)
    requires n <= |s.lines| && NoneAlone(c, s, n)
    ensures InStep(s, n, LoopAt(c, s, n).draft, LoopAt(c, s, n).wording)
  {
    if n == 0 {
      NothingBetween(s, s.startLine);
    } else {
      var l := LoopAt(c, s, n - 1);
      assert NoneAlone(c, s, n - 1) && !Alone(c, s, n - 1);
      InStepAlways(c, s, n - 1);
      ConservedAlways(c, s, n - 1);
      InStepNext(c, s, n - 1, l.draft, l.wording);
    }
  }

  lemma ExactIfNone(c: Config, s: Section)
    requires NoneAlone(c, s, |s.lines|)
    ensures Exact(s, ParagraphChunks(c, s), ParagraphAccount(c, s).news)
  {
    var l := LoopAt(c, s, |s.lines|);
    InStepAlways(c, s, |s.lines|);
    if Trim(l.draft.text) != "" {
      Flushes(s, |s.lines|, l.draft, l.wording, l.draft.text, l.wording.pending);
    }
  }

  // ---------------------------------------------------------------------
  // A line flushed alone spoils a range
  // ---------------------------------------------------------------------

  /** Chunks, and what they add, are only ever appended. */
  ghost predicate Grown(l: Loop, l': Loop) {
    l.draft.chunks <= l'.draft.chunks && l.wording.news <= l'.wording.news
  }

  lemma GrownFurther(l: Loop, m: Loop, n: Loop)
    requires Grown(l, m) && Grown(m, n)
    ensures Grown(l, n)
  {
  }

  lemma OneStepGrows(c: Config, s: Section, i: nat, l: Loop)
    requires i < |s.lines|
    ensures Grown(l, NextLoop(c, s)(i, l))
  {
  }

  lemma {:induction false} ChunksGrow(c: Config, s: Section, m: nat, n: nat)
    requires m <= n <= |s.lines|
    ensures Grown(LoopAt(c, s, m), LoopAt(c, s, n))
    decreases n
  {
    if m < n {
      var l := LoopAt(c, s, n - 1);
      ChunksGrow(c, s, m, n - 1);
      OneStepGrows(c, s, n - 1, l);
      GrownFurther(LoopAt(c, s, m), l, NextLoop(c, s)(n - 1, l));
    }
  }

  lemma SpoiledStays(s: Section, chunks: seq<Chunk>, news: seq<string>, all: seq<Chunk>, allNews: seq<string>, k: nat)
    requires k < |chunks| && k < |news| && chunks <= all && news <= allNews && !SaysItsLines(s, chunks[k], news[k])
    ensures !Exact(s, all, allNews)
  {
    assert all[k] == chunks[k] && allNews[k] == news[k];
    assert |all| == |allNews| ==> !ExactAt(s, all, allNews, k);
  }

  lemma SpoiledAt(c: Config, s: Section, i: nat)
    requires i < |s.lines| && Alone(c, s, i) && NoneAlone(c, s, i)
    ensures var (l, k) := (LoopAt(c, s, i + 1), |LoopAt(c, s, i).draft.chunks|);
            && k < |l.draft.chunks| && k < |l.wording.news|
            && !SaysItsLines(s, l.draft.chunks[k], l.wording.news[k])
  {
    var l := LoopAt(c, s, i);
    InStepAlways(c, s, i);
    ConservedAlways(c, s, i);
    SpoiledStep(c, s, i, l.draft, l.wording);
  }

  lemma SpoiledStep(c: Config, s: Section, i: nat, d: Draft, w: Wording)
    requires i < |s.lines| && InStep(s, i, d, w) && Conserved(c, s.lines, i, "", w) && AloneIn(c, s.lines[i], i, d)
    ensures var (d', w', k) := (NextDraft(c, s, i, d), NextWording(c, s, i, d, w), |d.chunks|);
            k < |d'.chunks| && k < |w'.news| && !SaysItsLines(s, d'.chunks[k], w'.news[k])
  {
    PendingEmpty(c, s.lines, i, w);
    var chunk := Chunk(AddHeaderContext(s.headerContext, Trim(s.lines[i])), d.start, s.startLine + i);
    assert NextDraft(c, s, i, d).chunks == d.chunks + [chunk];
    assert NextWording(c, s, i, d, w).news == w.news + [s.lines[i]];
  }

  lemma SpoiledIfAlone(c: Config, s: Section, i: nat)
    requires i < |s.lines| && Alone(c, s, i) && NoneAlone(c, s, i)
    ensures !Exact(s, ParagraphChunks(c, s), ParagraphAccount(c, s).news)
  {
    var l, last := LoopAt(c, s, i + 1), LoopAt(c, s, |s.lines|);
    SpoiledAt(c, s, i);
    ChunksGrow(c, s, i + 1, |s.lines|);
    assert last.draft.chunks <= Finished(s, last.draft);
    assert last.wording.news <= FinishedAccount(s, last.draft, last.wording).news;
    SpoiledStays(s, l.draft.chunks, l.wording.news, ParagraphChunks(c, s), ParagraphAccount(c, s).news,
                 |LoopAt(c, s, i).draft.chunks|);
  }

  lemma {:induction false} FirstAlone(c: Config, s: Section, n: nat) returns (i: nat)
    requires n <= |s.lines| && !NoneAlone(c, s, n)
    ensures i < n && Alone(c, s, i) && NoneAlone(c, s, i)
  {
    if NoneAlone(c, s, n - 1) {
      i := n - 1;
    } else {
      i := FirstAlone(c, s, n - 1);
    }
  }

  /**
    The chunks of a section say the lines of their ranges if and only if the section fits in one chunk or no line
    that is too long for a chunk is flushed behind nothing but empty lines: such a line is in no chunk's range but
    the next one's.
   */
  lemma RangesExactly(c: Config, s: Section)
    ensures Exact(s, SectionChunks(c, s), SectionAccount(c, s).news) <==>
            Size(c.width, Join(s.lines, "\n")) <= c.maxChunkChars || NoneAlone(c, s, |s.lines|)
  {
    var text := Join(s.lines, "\n");
    if Size(c.width, text) <= c.maxChunkChars {
      SqueezeJoin(s.lines);
      assert Between(s, s.startLine, s.startLine + |s.lines|) == s.lines;
      ExactSnoc(s, [], [], SectionChunks(c, s)[0], text);
    } else if NoneAlone(c, s, |s.lines|) {
      ExactIfNone(c, s);
    } else {
      var i := FirstAlone(c, s, |s.lines|);
      SpoiledIfAlone(c, s, i);
    }
  }

  /** An empty line and then one of two characters, where a chunk holds one: the chunk of line 1 claims line 0. */
  lemma LongLineBehindEmpty(c: Config, s: Section)
    requires c.width == (_ => 1) && c.maxChunkChars == 1 && s.lines == ["", "xx"]
    ensures !Exact(s, SectionChunks(c, s), SectionAccount(c, s).news)
  {
    SizesOfLines(c.width);
    assert !White('x');
    assert Squeeze("xx") != "";
    assert LoopAt(c, s, 0) == LoopStart(s);
    assert LoopAt(c, s, 1).draft == NextDraft(c, s, 0, LoopStart(s).draft);
    assert Alone(c, s, 1);
    RangesExactly(c, s);
  }

  lemma SizesOfLines(width: char -> nat)
    requires width == (_ => 1)
    ensures Size(width, "") == 0 && Size(width, "xx") == 2 && Size(width, Join(["", "xx"], "\n")) == 3
  {
    assert "xx"[1..] == "x" && "x"[1..] == "";
    assert ["", "xx"][1..] == ["xx"];
    assert Join(["", "xx"], "\n") == "\nxx" && "\nxx"[1..] == "xx";
  }

  /** Where every line fits in a chunk the ranges are exact. */
  lemma RangesOfShortLines(c: Config, s: Section)
    requires forall line :: line in s.lines ==> Size(c.width, line) <= c.maxChunkChars
    ensures Exact(s, SectionChunks(c, s), SectionAccount(c, s).news)
  {
    assert forall i :: 0 <= i < |s.lines| ==> s.lines[i] in s.lines;
    RangesExactly(c, s);
  }
}
