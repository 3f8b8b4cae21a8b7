/** Splitting a markdown file into chunks: sections by header, then paragraphs, then lines. */
module Chunkers {
  import opened Prelude
  import opened Texts

  datatype Chunk = Chunk(text: string, startLine: nat, endLine: nat)

  /** `width` is the number of bytes of a character; the overlap counts characters, the maximum bytes. */
  datatype Config = Config(maxChunkChars: nat, chunkOverlapChars: nat, width: char -> nat)

  datatype Section = Section(lines: seq<string>, startLine: nat, headerContext: string)

  datatype Heading = Heading(level: nat, text: string)

  // ---------------------------------------------------------------------
  // Headers
  // ---------------------------------------------------------------------

  function Hashes(s: string): (n: nat)
    ensures n <= |s| && (forall k :: 0 <= k < n ==> s[k] == '#') && (n < |s| ==> s[n] != '#')
  {
    if s == "" || s[0] != '#' then 0 else 1 + Hashes(s[1..])
  }

  /** The number of leading '#' signs, when they are followed by a space or by nothing. */
  function HeaderLevel(line: string): Option<nat> {
    var trimmed := TrimStart(line);
    if trimmed == "" || trimmed[0] != '#' then None
    else
      var n := Hashes(trimmed);
      if n == |trimmed| || trimmed[n] == ' ' then Some(n) else None
  }

  /** The text starts with exactly `n` hash signs, at least one, and then a space or nothing. */
  ghost predicate HeaderOf(text: string, n: nat) {
    && 1 <= n <= |text|
    && (forall k :: 0 <= k < n ==> text[k] == '#')
    && (n == |text| || text[n] == ' ')
  }

  /** The detected level is the only one that fits the line, and there is one whenever some level fits. */
  lemma HeaderLevelMeans(line: string, n: nat)
    ensures HeaderLevel(line) == Some(n) <==> HeaderOf(TrimStart(line), n)
  {
    var trimmed := TrimStart(line);
    var m := Hashes(trimmed);
    if HeaderOf(trimmed, n) {
      assert n <= m;
      assert trimmed[0] == '#';
    }
  }

  /** The header levels of the lines. */
  ghost function Levels(lines: seq<string>): seq<Option<nat>> {
    seq(|lines|, i requires 0 <= i < |lines| => HeaderLevel(lines[i]))
  }

  /** Line `j` is a header and every header after it, up to line `n`, is deeper. */
  ghost predicate Opens(levels: seq<Option<nat>>, j: nat, n: nat)
    requires j < n <= |levels|
  {
    && levels[j].Some?
    && forall m :: j < m < n && levels[m].Some? ==> levels[m].value > levels[j].value
  }

  /** The headers among the first `j` lines that still enclose the text after line `n - 1`, outermost first. */
  ghost function OpenHeadings(lines: seq<string>, levels: seq<Option<nat>>, n: nat, j: nat): seq<Heading>
    requires j <= n <= |lines| == |levels|
  {
    if j == 0 then []
    else
      OpenHeadings(lines, levels, n, j - 1)
      + if Opens(levels, j - 1, n) then [Heading(levels[j - 1].value, lines[j - 1])] else []
  }

  ghost function Enclosing(lines: seq<string>, n: nat): seq<Heading>
    requires n <= |lines|
  {
    OpenHeadings(lines, Levels(lines), n, n)
  }

  ghost function Below(stack: seq<Heading>, level: nat): seq<Heading> {
    if stack == [] then []
    else
      Below(stack[..|stack| - 1], level)
      + if stack[|stack| - 1].level < level then [stack[|stack| - 1]] else []
  }

  ghost predicate Deepening(stack: seq<Heading>) {
    forall a, b :: 0 <= a < b < |stack| ==> stack[a].level < stack[b].level
  }

  lemma {:induction false} BelowAll(stack: seq<Heading>, level: nat)
    requires forall a :: 0 <= a < |stack| ==> stack[a].level < level
    ensures Below(stack, level) == stack
  {
    if stack != [] {
      BelowAll(stack[..|stack| - 1], level);
      assert stack == stack[..|stack| - 1] + [stack[|stack| - 1]];
    }
  }

  lemma BelowSnoc(stack: seq<Heading>, h: Heading, level: nat)
    ensures Below(stack + [h], level) == Below(stack, level) + if h.level < level then [h] else []
  {
    assert (stack + [h])[..|stack|] == stack;
  }

  /** Every open heading among the first `j` lines comes from one of those lines. */
  lemma {:induction false} OpenHeadingsFrom(lines: seq<string>, levels: seq<Option<nat>>, n: nat, j: nat, h: Heading)
    requires j <= n <= |lines| == |levels| && h in OpenHeadings(lines, levels, n, j)
    ensures exists m: nat :: m < j && Opens(levels, m, n) && levels[m].value == h.level
  {
    if h in OpenHeadings(lines, levels, n, j - 1) {
      OpenHeadingsFrom(lines, levels, n, j - 1, h);
    }
  }

  lemma {:induction false} OpenDeepening(lines: seq<string>, levels: seq<Option<nat>>, n: nat, j: nat)
    requires j <= n <= |lines| == |levels|
    ensures Deepening(OpenHeadings(lines, levels, n, j))
  {
    if j > 0 {
      OpenDeepening(lines, levels, n, j - 1);
      var init := OpenHeadings(lines, levels, n, j - 1);
      if Opens(levels, j - 1, n) {
        forall a | 0 <= a < |init| ensures init[a].level < levels[j - 1].value {
          OpenHeadingsFrom(lines, levels, n, j - 1, init[a]);
        }
      }
    }
  }

  /** A line that is no header leaves the enclosing headers alone. */
  lemma {:induction false} PlainLine(lines: seq<string>, levels: seq<Option<nat>>, n: nat, j: nat)
    requires j <= n < |lines| == |levels| && levels[n].None?
    ensures OpenHeadings(lines, levels, n + 1, j) == OpenHeadings(lines, levels, n, j)
  {
    if j > 0 {
      PlainLine(lines, levels, n, j - 1);
      assert Opens(levels, j - 1, n + 1) <==> Opens(levels, j - 1, n);
    }
  }

  /** A header closes exactly the headers of the same or a deeper level. */
  lemma {:induction false} HeaderLine(lines: seq<string>, levels: seq<Option<nat>>, n: nat, j: nat)
    requires j <= n < |lines| == |levels| && levels[n].Some?
    ensures OpenHeadings(lines, levels, n + 1, j) == Below(OpenHeadings(lines, levels, n, j), levels[n].value)
  {
    if j > 0 {
      HeaderLine(lines, levels, n, j - 1);
      var level := levels[n].value;
      if Opens(levels, j - 1, n) {
        var h := Heading(levels[j - 1].value, lines[j - 1]);
        BelowSnoc(OpenHeadings(lines, levels, n, j - 1), h, level);
        assert Opens(levels, j - 1, n + 1) <==> h.level < level;
      } else {
        assert !Opens(levels, j - 1, n + 1);
        assert OpenHeadings(lines, levels, n, j) == OpenHeadings(lines, levels, n, j - 1);
      }
    }
  }

  /** Pops headers of the same or a deeper level and pushes the new one. */
  method PushHeader(stack: seq<Heading>, level: nat, line: string) returns (result: seq<Heading>)
    requires Deepening(stack)
    ensures result == Below(stack, level) + [Heading(level, line)]
  {
    result := stack;
    while result != [] && result[|result| - 1].level >= level
      invariant result <= stack && Below(result, level) == Below(stack, level)
    {
      result := result[..|result| - 1];
    }
    BelowAll(result, level);
    result := result + [Heading(level, line)];
  }

  function HeadingTexts(stack: seq<Heading>): seq<string> {
    seq(|stack|, i requires 0 <= i < |stack| => Trim(stack[i].text))
  }

  /** Everything but the section's own header. */
  function FormatHeaderContext(stack: seq<Heading>): string {
    if |stack| <= 1 then "" else Join(HeadingTexts(stack[..|stack| - 1]), " > ")
  }

  function AddHeaderContext(context: string, text: string): string {
    if context == "" then text else "[Context: " + context + "]\n\n" + text
  }

  // ---------------------------------------------------------------------
  // Sections
  // ---------------------------------------------------------------------

  ghost predicate Plain(lines: seq<string>, k: nat)
    requires k < |lines|
  {
    HeaderLevel(lines[k]).None?
  }

  /** The section is a run of lines with a header at most at its start, labelled with the headers around it. */
  ghost predicate SectionAt(lines: seq<string>, s: Section) {
    match s
    case Section(part, start, context) =>
      && part != []
      && start + |part| <= |lines|
      && part == lines[start..start + |part|]
      && (start == 0 || HeaderLevel(lines[start]).Some?)
      && (forall k {:trigger Plain(lines, k)} :: start < k < start + |part| ==> Plain(lines, k))
      && context == FormatHeaderContext(Enclosing(lines, start + 1))
  }

  /** The sections follow each other without gaps from the first line to line `n`. */
  ghost predicate Tile(sections: seq<Section>, n: nat) {
    && (forall i {:trigger Follows(sections, i)} :: 0 <= i < |sections| ==> Follows(sections, i))
    && n == EndBefore(sections, |sections|)
  }

  ghost predicate Follows(sections: seq<Section>, i: nat)
    requires i < |sections|
  {
    sections[i].startLine == EndBefore(sections, i)
  }

  ghost function EndBefore(sections: seq<Section>, i: nat): nat
    requires i <= |sections|
  {
    if i == 0 then 0 else sections[i - 1].startLine + |sections[i - 1].lines|
  }

  ghost predicate Cut(lines: seq<string>, sections: seq<Section>, n: nat) {
    && Tile(sections, n)
    && forall i {:trigger SectionAt(lines, sections[i])} :: 0 <= i < |sections| ==> SectionAt(lines, sections[i])
  }

  lemma CutNext(lines: seq<string>, sections: seq<Section>, n: nat, s: Section)
    requires Cut(lines, sections, n) && SectionAt(lines, s) && s.startLine == n
    ensures Cut(lines, sections + [s], n + |s.lines|)
  {
    var all := sections + [s];
    forall i | 0 <= i < |all| ensures Follows(all, i) && SectionAt(lines, all[i]) {
      if i < |sections| {
        assert Follows(sections, i) && SectionAt(lines, sections[i]);
        assert EndBefore(all, i) == EndBefore(sections, i);
      }
    }
  }

  /** The section being collected before line `i`: everything since its start, and empty only at the very beginning. */
  ghost predicate Collecting(lines: seq<string>, i: nat, current: seq<string>, start: nat)
    requires i <= |lines|
  {
    && start + |current| == i
    && (current == [] ==> i == 0)
    && (current != [] ==> SectionAt(lines, Section(current, start, FormatHeaderContext(Enclosing(lines, i)))))
  }

  lemma SectionStarts(lines: seq<string>, i: nat)
    requires i < |lines| && HeaderLevel(lines[i]).Some?
    ensures Enclosing(lines, i + 1)
         == Below(Enclosing(lines, i), HeaderLevel(lines[i]).value) + [Heading(HeaderLevel(lines[i]).value, lines[i])]
    ensures Collecting(lines, i + 1, [lines[i]], i)
  {
    HeaderLine(lines, Levels(lines), i, i);
    assert Opens(Levels(lines), i, i + 1);
  }

  lemma PlainKeepsEnclosing(lines: seq<string>, i: nat)
    requires i < |lines| && HeaderLevel(lines[i]).None?
    ensures Enclosing(lines, i + 1) == Enclosing(lines, i)
  {
    PlainLine(lines, Levels(lines), i, i);
    assert !Opens(Levels(lines), i, i + 1);
  }

  lemma SectionExtends(lines: seq<string>, s: Section, i: nat)
    requires SectionAt(lines, s) && s.startLine + |s.lines| == i < |lines| && Plain(lines, i)
    ensures SectionAt(lines, s.(lines := s.lines + [lines[i]]))
  {
    assert lines[s.startLine..i + 1] == lines[s.startLine..i] + [lines[i]];
  }

  lemma SectionGrows(lines: seq<string>, i: nat, current: seq<string>, start: nat)
    requires i < |lines| && HeaderLevel(lines[i]).None? && Collecting(lines, i, current, start)
    ensures Enclosing(lines, i + 1) == Enclosing(lines, i)
    ensures Collecting(lines, i + 1, current + [lines[i]], start)
  {
    PlainKeepsEnclosing(lines, i);
    assert Plain(lines, i);
    if current == [] {
      assert lines[0..1] == [lines[0]];
    } else {
      SectionExtends(lines, Section(current, start, FormatHeaderContext(Enclosing(lines, i))), i);
    }
  }

  /** The section collected so far, unless there is none yet. */
  function Flushed(current: seq<string>, start: nat, stack: seq<Heading>): seq<Section> {
    if current == [] then [] else [Section(current, start, FormatHeaderContext(stack))]
  }

  /** What the loop over the lines keeps before line `i`. */
  ghost predicate Splitting(lines: seq<string>, i: nat, sections: seq<Section>, current: seq<string>, start: nat,
                            stack: seq<Heading>)
    requires i <= |lines|
  {
    Cut(lines, sections, start) && Collecting(lines, i, current, start) && stack == Enclosing(lines, i)
  }

  lemma NextIsHeader(lines: seq<string>, i: nat, sections: seq<Section>, current: seq<string>, start: nat,
                     stack: seq<Heading>)
    requires i < |lines| && HeaderLevel(lines[i]).Some? && Splitting(lines, i, sections, current, start, stack)
    ensures Deepening(stack)
    ensures var level := HeaderLevel(lines[i]).value;
            Splitting(lines, i + 1, sections + Flushed(current, start, stack), [lines[i]], i,
                      Below(stack, level) + [Heading(level, lines[i])])
  {
    OpenDeepening(lines, Levels(lines), i, i);
    SectionStarts(lines, i);
    if current != [] {
      CutNext(lines, sections, start, Section(current, start, FormatHeaderContext(stack)));
    } else {
      assert sections + [] == sections;
    }
  }

  lemma NextIsPlain(lines: seq<string>, i: nat, sections: seq<Section>, current: seq<string>, start: nat,
                    stack: seq<Heading>)
    requires i < |lines| && HeaderLevel(lines[i]).None? && Splitting(lines, i, sections, current, start, stack)
    ensures Splitting(lines, i + 1, sections, current + [lines[i]], start, stack)
  {
    SectionGrows(lines, i, current, start);
  }

  lemma LastSection(lines: seq<string>, sections: seq<Section>, current: seq<string>, start: nat, stack: seq<Heading>)
    requires Splitting(lines, |lines|, sections, current, start, stack)
    ensures Cut(lines, sections + Flushed(current, start, stack), |lines|)
  {
    if current != [] {
      CutNext(lines, sections, start, Section(current, start, FormatHeaderContext(stack)));
    } else {
      assert sections + [] == sections;
    }
  }

  /** What the loop over the lines has collected. */
  datatype Splitter = Splitter(sections: seq<Section>, current: seq<string>, start: nat, stack: seq<Heading>)

  /** A header ends the section being collected; every other line extends it. */
  ghost function NextSplit(lines: seq<string>, i: nat, p: Splitter): Splitter
    requires i < |lines|
  {
    match HeaderLevel(lines[i])
    case Some(level) =>
      Splitter(p.sections + Flushed(p.current, p.start, p.stack), [lines[i]], i,
               Below(p.stack, level) + [Heading(level, lines[i])])
    case None => p.(current := p.current + [lines[i]])
  }

  ghost function SplitAt(lines: seq<string>, n: nat): Splitter
    requires n <= |lines|
  {
    if n == 0 then Splitter([], [], 0, []) else NextSplit(lines, n - 1, SplitAt(lines, n - 1))
  }

  /** The sections are a function of the lines. */
  ghost function SectionsOf(lines: seq<string>): seq<Section> {
    var p := SplitAt(lines, |lines|);
    p.sections + Flushed(p.current, p.start, p.stack)
  }

  lemma SplitStep(lines: seq<string>, i: nat, p: Splitter)
    requires i < |lines| && Splitting(lines, i, p.sections, p.current, p.start, p.stack)
    ensures var q := NextSplit(lines, i, p); Splitting(lines, i + 1, q.sections, q.current, q.start, q.stack)
  {
    if HeaderLevel(lines[i]).Some? {
      NextIsHeader(lines, i, p.sections, p.current, p.start, p.stack);
    } else {
      NextIsPlain(lines, i, p.sections, p.current, p.start, p.stack);
    }
  }

  lemma {:induction false} SplitAtOk(lines: seq<string>, n: nat)
    requires n <= |lines|
    ensures var p := SplitAt(lines, n); Splitting(lines, n, p.sections, p.current, p.start, p.stack)
  {
    if n > 0 {
      SplitAtOk(lines, n - 1);
      SplitStep(lines, n - 1, SplitAt(lines, n - 1));
    }
  }

  /** They tile the lines, each labelled with the headers around it. */
  lemma SectionsCut(lines: seq<string>)
    ensures Cut(lines, SectionsOf(lines), |lines|)
  {
    SplitAtOk(lines, |lines|);
    var p := SplitAt(lines, |lines|);
    LastSection(lines, p.sections, p.current, p.start, p.stack);
  }

  method SplitByHeaders(lines: seq<string>) returns (sections: seq<Section>)
    ensures Cut(lines, sections, |lines|) && sections == SectionsOf(lines)
  {
    sections := [];
    var currentLines: seq<string> := [];
    var currentStart: nat := 0;
    var headerStack: seq<Heading> := [];
    for i := 0 to |lines|
      invariant Splitter(sections, currentLines, currentStart, headerStack) == SplitAt(lines, i)
    {
      var line := lines[i];
      var level := HeaderLevel(line);
      if level.Some? {
        sections := sections + Flushed(currentLines, currentStart, headerStack);
        currentStart := i;
        SplitAtOk(lines, i);
        OpenDeepening(lines, Levels(lines), i, i);
        headerStack := PushHeader(headerStack, level.value, line);
        currentLines := [line];
      } else {
        currentLines := currentLines + [line];
      }
    }
    SectionsCut(lines);
    sections := sections + Flushed(currentLines, currentStart, headerStack);
  }

  // ---------------------------------------------------------------------
  // Paragraphs and lines
  // ---------------------------------------------------------------------

  function TakeRight(s: string, n: nat): string {
    if |s| <= n then s else s[|s| - n..]
  }

  /** The overlap is the end of the text, as long as asked for or all of it. */
  lemma TakeRightMeans(s: string, n: nat)
    ensures |TakeRight(s, n)| == (if |s| < n then |s| else n)
    ensures s == s[..|s| - |TakeRight(s, n)|] + TakeRight(s, n)
  {
  }

  /** Position of the last newline, or the end of the text. */
  function LastNewline(s: string): (n: nat)
    ensures n <= |s|
    ensures n < |s| ==> s[n] == '\n' && '\n' !in s[n + 1..]
    ensures n == |s| ==> '\n' !in s
  {
    if '\n' !in s then |s|
    else if s[|s| - 1] == '\n' then |s| - 1
    else
      assert s == s[..|s| - 1] + [s[|s| - 1]];
      var n := LastNewline(s[..|s| - 1]);
      assert s[n + 1..] == s[..|s| - 1][n + 1..] + [s[|s| - 1]];
      n
  }

  function TrimStartNewlines(s: string): string {
    if s != "" && s[0] == '\n' then TrimStartNewlines(s[1..]) else s
  }

  function Extend(text: string, line: string): string {
    if text == "" then line else text + "\n" + line
  }

  lemma LastNewlineAt(s: string, at: nat)
    requires at < |s| && s[at] == '\n' && '\n' !in s[at + 1..]
    ensures LastNewline(s) == at
  {
    var n := LastNewline(s);
    assert s[at] in s;
    forall k | at < k < |s| ensures s[k] != '\n' {
      assert s[k] == s[at + 1..][k - at - 1];
    }
    forall k | n < k < |s| ensures s[k] != '\n' {
      assert s[k] == s[n + 1..][k - n - 1];
    }
  }

  /** Splitting at the last newline takes the line just added off again. */
  lemma SplitUndoesExtend(text: string, line: string)
    requires OneLine(line)
    ensures var cur := Extend(text, line);
            var at := LastNewline(cur);
            if text == "" then cur[..at] == line && TrimStartNewlines(cur[at..]) == ""
            else cur[..at] == text && TrimStartNewlines(cur[at..]) == line
  {
    var cur := Extend(text, line);
    if text != "" {
      assert cur[|text| + 1..] == line;
      LastNewlineAt(cur, |text|);
      assert cur[|text|..] == ['\n'] + line;
      assert (['\n'] + line)[1..] == line;
    }
  }

  /** At most `max` bytes, or the tail of the previous chunk together with at most one source line. */
  ghost predicate Small(c: Config, lines: seq<string>, previous: string, text: string) {
    || Size(c.width, text) <= c.maxChunkChars
    || (exists tail, line :: TailAndLine(c, lines, previous, text, tail, line))
  }

  ghost predicate TailAndLine(c: Config, lines: seq<string>, previous: string, text: string, tail: string,
                              line: string)
  {
    && (tail == "" || tail == TakeRight(previous, c.chunkOverlapChars))
    && (line == "" || line in lines)
    && (text == Extend(tail, line) || text == tail)
  }

  /** A chunk body has at most `max` bytes, or is what trimming leaves of such a tail and line. */
  ghost predicate SmallBody(c: Config, lines: seq<string>, previous: string, body: string) {
    || Size(c.width, body) <= c.maxChunkChars
    || (exists text, tail, line :: TailAndLine(c, lines, previous, text, tail, line) && body == Trim(text))
  }

  ghost function Last(bodies: seq<string>): string {
    if bodies == [] then "" else bodies[|bodies| - 1]
  }

  ghost predicate SmallBodies(c: Config, lines: seq<string>, bodies: seq<string>) {
    forall k {:trigger SmallBodyAt(c, lines, bodies, k)} :: 0 <= k < |bodies| ==> SmallBodyAt(c, lines, bodies, k)
  }

  ghost predicate SmallBodyAt(c: Config, lines: seq<string>, bodies: seq<string>, k: nat)
    requires k < |bodies|
  {
    SmallBody(c, lines, Last(bodies[..k]), bodies[k])
  }

  /** Chunk ranges follow each other between lines `lo` and `hi` without overlapping. */
  ghost predicate Ranges(chunks: seq<Chunk>, lo: nat, hi: nat) {
    && lo <= hi
    && (forall i :: 0 <= i < |chunks| ==> lo <= chunks[i].startLine <= chunks[i].endLine <= hi)
    && (forall i, j :: 0 <= i < j < |chunks| ==> chunks[i].endLine <= chunks[j].startLine)
  }

  ghost predicate Worded(chunks: seq<Chunk>, context: string, bodies: seq<string>) {
    |chunks| == |bodies| && forall i :: 0 <= i < |chunks| ==> chunks[i].text == AddHeaderContext(context, bodies[i])
  }

  lemma SmallBodiesSnoc(c: Config, lines: seq<string>, bodies: seq<string>, text: string)
    requires SmallBodies(c, lines, bodies) && Small(c, lines, Last(bodies), text)
    ensures SmallBodies(c, lines, bodies + [Trim(text)])
  {
    var all := bodies + [Trim(text)];
    SizeTrim(c.width, text);
    assert SmallBody(c, lines, Last(bodies), Trim(text));
    forall k | 0 <= k < |all| ensures SmallBodyAt(c, lines, all, k) {
      if k < |bodies| {
        assert all[..k] == bodies[..k];
        assert SmallBodyAt(c, lines, bodies, k);
      } else {
        assert all[..k] == bodies;
      }
    }
  }

  lemma SqueezeFlush(bodies: seq<string>, text: string)
    ensures Squeeze(Flatten(bodies + [Trim(text)])) == Squeeze(Flatten(bodies)) + Squeeze(text)
  {
    FlattenSnoc(bodies, Trim(text));
    SqueezeAppend(Flatten(bodies), Trim(text));
    SqueezeTrim(text);
  }

  lemma SqueezeExtend(text: string, line: string)
    ensures Squeeze(Extend(text, line)) == Squeeze(text) + Squeeze(line)
  {
    SqueezeAppend(text + "\n", line);
    SqueezeAppend(text, "\n");
  }

  lemma SqueezeNextLine(lines: seq<string>, i: nat)
    requires i < |lines|
    ensures Squeeze(Flatten(lines[..i + 1])) == Squeeze(Flatten(lines[..i])) + Squeeze(lines[i])
  {
    assert lines[..i + 1] == lines[..i] + [lines[i]];
    FlattenSnoc(lines[..i], lines[i]);
    SqueezeAppend(Flatten(lines[..i]), lines[i]);
  }

  /** What the loop over a section's lines has made and is collecting. */
  datatype Draft = Draft(chunks: seq<Chunk>, text: string, start: nat, lineOffset: nat)

  /** The chunks made so far, in range and in the words of their bodies. */
  ghost predicate Laid(s: Section, i: nat, d: Draft, bodies: seq<string>) {
    match d
    case Draft(chunks, _, start, _) =>
      && Worded(chunks, s.headerContext, bodies)
      && Ranges(chunks, s.startLine, start) && start <= s.startLine + i
  }

  lemma LaidNext(s: Section, i: nat, d: Draft, bodies: seq<string>, body: string, next: Draft)
    requires Laid(s, i, d, bodies) && s.startLine + i <= next.start <= s.startLine + i + 1
    requires next.chunks == d.chunks + [Chunk(AddHeaderContext(s.headerContext, body), d.start, s.startLine + i)]
    ensures Laid(s, i + 1, next, bodies + [body])
  {
  }

  /** Everything flushed so far is small, and so is the text being collected. */
  ghost predicate Sized(c: Config, lines: seq<string>, i: nat, d: Draft, bodies: seq<string>) {
    match d
    case Draft(_, text, _, lineOffset) =>
      && SmallBodies(c, lines, bodies)
      && Small(c, lines, Last(bodies), text)
      && lineOffset <= i
      && (lineOffset == i ==> text == "" || text == TakeRight(Last(bodies), c.chunkOverlapChars))
  }

  lemma SizedNext(c: Config, lines: seq<string>, bodies: seq<string>, text: string, i: nat, next: Draft)
    requires SmallBodies(c, lines, bodies) && Small(c, lines, Last(bodies), text) && next.lineOffset <= i
    requires || next.text == TakeRight(Trim(text), c.chunkOverlapChars)
             || (next.lineOffset < i && (next.text == "" || next.text in lines))
    ensures Sized(c, lines, i, next, bodies + [Trim(text)])
  {
    SmallBodiesSnoc(c, lines, bodies, text);
    assert Last(bodies + [Trim(text)]) == Trim(text);
    if next.text == TakeRight(Trim(text), c.chunkOverlapChars) {
      assert TailAndLine(c, lines, Trim(text), next.text, next.text, "");
    } else {
      assert TailAndLine(c, lines, Trim(text), next.text, "", next.text);
    }
  }

  /** Adding a line that still fits, or that follows nothing but the overlap. */
  lemma SizedKept(c: Config, lines: seq<string>, i: nat, d: Draft, bodies: seq<string>)
    requires i < |lines| && Sized(c, lines, i, d, bodies)
    requires Size(c.width, Extend(d.text, lines[i])) <= c.maxChunkChars || i == d.lineOffset
    ensures Sized(c, lines, i + 1, d.(text := Extend(d.text, lines[i])), bodies)
  {
    if i == d.lineOffset {
      assert TailAndLine(c, lines, Last(bodies), Extend(d.text, lines[i]), d.text, lines[i]);
    }
  }

  /** A single line may always be flushed on its own. */
  lemma LineSmall(c: Config, lines: seq<string>, previous: string, i: nat)
    requires i < |lines|
    ensures Small(c, lines, previous, lines[i])
  {
    assert TailAndLine(c, lines, previous, lines[i], "", lines[i]);
  }

  // ---------------------------------------------------------------------
  // What each chunk adds
  // ---------------------------------------------------------------------

  /** Apart from white space the body is what it adds, after the overlap with the body before it or after nothing. */
  ghost predicate Adds(c: Config, previous: string, body: string, added: string) {
    || Squeeze(body) == Squeeze(added)
    || Squeeze(body) == Squeeze(TakeRight(previous, c.chunkOverlapChars)) + Squeeze(added)
  }

  ghost predicate AddsAt(c: Config, bodies: seq<string>, news: seq<string>, k: nat)
    requires k < |bodies| && k < |news|
  {
    Adds(c, Last(bodies[..k]), bodies[k], news[k])
  }

  ghost predicate AllAdd(c: Config, bodies: seq<string>, news: seq<string>) {
    && |news| == |bodies|
    && forall k {:trigger AddsAt(c, bodies, news, k)} :: 0 <= k < |bodies| ==> AddsAt(c, bodies, news, k)
  }

  lemma AllAddSnoc(c: Config, bodies: seq<string>, news: seq<string>, body: string, added: string)
    requires AllAdd(c, bodies, news) && Adds(c, Last(bodies), body, added)
    ensures AllAdd(c, bodies + [body], news + [added])
  {
    forall k | 0 <= k < |bodies| + 1 ensures AddsAt(c, bodies + [body], news + [added], k) {
      assert (bodies + [body])[..k] == bodies[..k];
      if k < |bodies| {
        assert AddsAt(c, bodies, news, k);
      } else {
        assert bodies[..k] == bodies;
      }
    }
  }

  /** The first chunk of a section carries no overlap, so the lists of consecutive sections can be joined. */
  lemma AllAddAppend(c: Config, bodies: seq<string>, news: seq<string>, more: seq<string>, moreNews: seq<string>)
    requires AllAdd(c, bodies, news) && AllAdd(c, more, moreNews)
    ensures AllAdd(c, bodies + more, news + moreNews)
  {
    var all := bodies + more;
    forall k | 0 <= k < |all| ensures AddsAt(c, all, news + moreNews, k) {
      if k < |bodies| {
        assert all[..k] == bodies[..k];
        assert AddsAt(c, bodies, news, k);
      } else {
        var m := k - |bodies|;
        assert AddsAt(c, more, moreNews, m);
        assert m > 0 ==> Last(all[..k]) == Last(more[..m]);
      }
    }
  }

  /** Without overlap the bodies themselves are what they add. */
  lemma {:induction false} AddsWithoutOverlap(c: Config, bodies: seq<string>, news: seq<string>)
    requires c.chunkOverlapChars == 0 && AllAdd(c, bodies, news)
    ensures Squeeze(Flatten(bodies)) == Squeeze(Flatten(news))
    decreases |bodies|
  {
    if bodies != [] {
      var n := |bodies| - 1;
      forall k | 0 <= k < n ensures AddsAt(c, bodies[..n], news[..n], k) {
        assert AddsAt(c, bodies, news, k);
        assert bodies[..n][..k] == bodies[..k];
      }
      AddsWithoutOverlap(c, bodies[..n], news[..n]);
      assert AddsAt(c, bodies, news, n) && TakeRight(Last(bodies[..n]), 0) == "";
      SqueezeNextLine(bodies, n);
      SqueezeNextLine(news, n);
      assert bodies[..n + 1] == bodies && news[..n + 1] == news;
    }
  }

  // ---------------------------------------------------------------------
  // The loop over a section's lines
  // ---------------------------------------------------------------------

  /** The words behind a draft: finished bodies, what each adds, and the collected text as overlap and new lines. */
  datatype Wording = Wording(bodies: seq<string>, news: seq<string>, tail: string, pending: string)

  /** A blank line that would make the text too long ends a paragraph. */
  ghost predicate EndsParagraph(c: Config, line: string, text: string) {
    Trim(line) == "" && text != "" && Size(c.width, text) + Size(c.width, line) > c.maxChunkChars
  }

  ghost predicate Overflows(c: Config, line: string, text: string) {
    Size(c.width, Extend(text, line)) > c.maxChunkChars
  }

  ghost function Flush(s: Section, i: nat, d: Draft, body: string): seq<Chunk> {
    d.chunks + [Chunk(AddHeaderContext(s.headerContext, Trim(body)), d.start, s.startLine + i)]
  }

  /** The draft after line `i`: a line that overflows goes to the next chunk, unless there is nothing before it. */
  ghost function NextDraft(c: Config, s: Section, i: nat, d: Draft): Draft
    requires i < |s.lines|
  {
    var line := s.lines[i];
    if EndsParagraph(c, line, d.text) then
      Draft(Flush(s, i, d, d.text), TakeRight(Trim(d.text), c.chunkOverlapChars), s.startLine + i + 1, i + 1)
    else if Overflows(c, line, d.text) && i > d.lineOffset then
      if d.text == "" then Draft(Flush(s, i, d, line), "", s.startLine + i, i)
      else Draft(Flush(s, i, d, d.text), line, s.startLine + i, i)
    else d.(text := Extend(d.text, line))
  }

  ghost function NextWording(c: Config, s: Section, i: nat, d: Draft, w: Wording): Wording
    requires i < |s.lines|
  {
    var line := s.lines[i];
    if EndsParagraph(c, line, d.text) then
      Wording(w.bodies + [Trim(d.text)], w.news + [w.pending], TakeRight(Trim(d.text), c.chunkOverlapChars), "")
    else if Overflows(c, line, d.text) && i > d.lineOffset then
      if d.text == "" then Wording(w.bodies + [Trim(line)], w.news + [line], "", "")
      else Wording(w.bodies + [Trim(d.text)], w.news + [w.pending], "", line)
    else w.(pending := w.pending + line)
  }

  datatype Loop = Loop(draft: Draft, wording: Wording)

  ghost function NextLoop(c: Config, s: Section): (nat, Loop) -> Loop {
    (i: nat, l: Loop) =>
      if i < |s.lines| then Loop(NextDraft(c, s, i, l.draft), NextWording(c, s, i, l.draft, l.wording)) else l
  }

  ghost function LoopStart(s: Section): Loop {
    Loop(Draft([], "", s.startLine, 0), Wording([], [], "", ""))
  }

  ghost function LoopAt(c: Config, s: Section, n: nat): Loop {
    Iterate(NextLoop(c, s), LoopStart(s), n)
  }

  lemma LoopStep(c: Config, s: Section, i: nat)
    requires i < |s.lines|
    ensures LoopAt(c, s, i + 1).draft == NextDraft(c, s, i, LoopAt(c, s, i).draft)
  {
  }

  /** Up to line `i` everything read is in what the chunks add and in the new part of the text, save white space. */
  ghost predicate Conserved(c: Config, lines: seq<string>, i: nat, text: string, w: Wording)
    requires i <= |lines|
  {
    match w
    case Wording(bodies, news, tail, pending) =>
      && AllAdd(c, bodies, news)
      && Squeeze(text) == Squeeze(tail) + Squeeze(pending)
      && (tail == "" || tail == TakeRight(Last(bodies), c.chunkOverlapChars))
      && Squeeze(Flatten(news)) + Squeeze(pending) == Squeeze(Flatten(lines[..i]))
  }

  lemma Regroup(a: string, b: string, c: string)
    ensures (a + b) + c == a + (b + c)
  {
  }

  lemma ConservedKept(c: Config, lines: seq<string>, i: nat, text: string, w: Wording)
    requires i < |lines| && Conserved(c, lines, i, text, w)
    ensures Conserved(c, lines, i + 1, Extend(text, lines[i]), w.(pending := w.pending + lines[i]))
  {
    SqueezeExtend(text, lines[i]);
    SqueezeNextLine(lines, i);
    SqueezeAppend(w.pending, lines[i]);
    Regroup(Squeeze(w.tail), Squeeze(w.pending), Squeeze(lines[i]));
    Regroup(Squeeze(Flatten(w.news)), Squeeze(w.pending), Squeeze(lines[i]));
  }

  lemma SqueezeSnoc(news: seq<string>, added: string)
    ensures Squeeze(Flatten(news + [added])) == Squeeze(Flatten(news)) + Squeeze(added)
  {
    FlattenSnoc(news, added);
    SqueezeAppend(Flatten(news), added);
  }

  lemma ConservedFlushed(c: Config, lines: seq<string>, i: nat, text: string, w: Wording)
    requires i <= |lines| && Conserved(c, lines, i, text, w)
    ensures AllAdd(c, w.bodies + [Trim(text)], w.news + [w.pending])
    ensures Squeeze(Flatten(w.news + [w.pending])) == Squeeze(Flatten(lines[..i]))
  {
    SqueezeTrim(text);
    AllAddSnoc(c, w.bodies, w.news, Trim(text), w.pending);
    SqueezeSnoc(w.news, w.pending);
  }

  lemma ConservedParagraph(c: Config, lines: seq<string>, i: nat, text: string, w: Wording)
    requires i < |lines| && Conserved(c, lines, i, text, w) && Trim(lines[i]) == ""
    ensures var tail := TakeRight(Trim(text), c.chunkOverlapChars);
            Conserved(c, lines, i + 1, tail, Wording(w.bodies + [Trim(text)], w.news + [w.pending], tail, ""))
  {
    ConservedFlushed(c, lines, i, text, w);
    SqueezeTrim(lines[i]);
    SqueezeNextLine(lines, i);
  }

  lemma ConservedSplit(c: Config, lines: seq<string>, i: nat, text: string, w: Wording)
    requires i < |lines| && Conserved(c, lines, i, text, w)
    ensures Conserved(c, lines, i + 1, lines[i], Wording(w.bodies + [Trim(text)], w.news + [w.pending], "", lines[i]))
  {
    ConservedFlushed(c, lines, i, text, w);
    SqueezeNextLine(lines, i);
  }

  lemma ConservedAlone(c: Config, lines: seq<string>, i: nat, w: Wording)
    requires i < |lines| && Conserved(c, lines, i, "", w)
    ensures Conserved(c, lines, i + 1, "", Wording(w.bodies + [Trim(lines[i])], w.news + [lines[i]], "", ""))
  {
    SqueezeTrim(lines[i]);
    AllAddSnoc(c, w.bodies, w.news, Trim(lines[i]), lines[i]);
    SqueezeSnoc(w.news, lines[i]);
    SqueezeNextLine(lines, i);
  }

  // Each of the three things the loop keeps, line by line.

  lemma LaidStep(c: Config, s: Section, i: nat, d: Draft, w: Wording)
    requires i < |s.lines| && Laid(s, i, d, w.bodies)
    ensures Laid(s, i + 1, NextDraft(c, s, i, d), NextWording(c, s, i, d, w).bodies)
  {
    var d', w' := NextDraft(c, s, i, d), NextWording(c, s, i, d, w);
    if EndsParagraph(c, s.lines[i], d.text) || (Overflows(c, s.lines[i], d.text) && i > d.lineOffset) {
      LaidNext(s, i, d, w.bodies, Last(w'.bodies), d');
    }
  }

  lemma SizedStep(c: Config, s: Section, i: nat, d: Draft, w: Wording)
    requires i < |s.lines| && Sized(c, s.lines, i, d, w.bodies)
    ensures Sized(c, s.lines, i + 1, NextDraft(c, s, i, d), NextWording(c, s, i, d, w).bodies)
  {
    var d' := NextDraft(c, s, i, d);
    if EndsParagraph(c, s.lines[i], d.text) {
      SizedNext(c, s.lines, w.bodies, d.text, i + 1, d');
    } else if Overflows(c, s.lines[i], d.text) && i > d.lineOffset {
      if d.text == "" {
        LineSmall(c, s.lines, Last(w.bodies), i);
        SizedNext(c, s.lines, w.bodies, s.lines[i], i + 1, d');
      } else {
        SizedNext(c, s.lines, w.bodies, d.text, i + 1, d');
      }
    } else {
      SizedKept(c, s.lines, i, d, w.bodies);
    }
  }

  lemma ConservedStep(c: Config, s: Section, i: nat, d: Draft, w: Wording)
    requires i < |s.lines| && Conserved(c, s.lines, i, d.text, w)
    ensures Conserved(c, s.lines, i + 1, NextDraft(c, s, i, d).text, NextWording(c, s, i, d, w))
  {
    if EndsParagraph(c, s.lines[i], d.text) {
      ConservedParagraph(c, s.lines, i, d.text, w);
    } else if Overflows(c, s.lines[i], d.text) && i > d.lineOffset {
      if d.text == "" {
        ConservedAlone(c, s.lines, i, w);
      } else {
        ConservedSplit(c, s.lines, i, d.text, w);
      }
    } else {
      ConservedKept(c, s.lines, i, d.text, w);
    }
  }

  /** The chunks are in range and worded as their bodies. */
  lemma LaidAlways(c: Config, s: Section, n: nat)
    requires n <= |s.lines|
    ensures Laid(s, n, LoopAt(c, s, n).draft, LoopAt(c, s, n).wording.bodies)
  {
    var keeps := (i: nat, l: Loop) => Laid(s, i, l.draft, l.wording.bodies);
    forall i: nat, l: Loop | i < n && keeps(i, l) ensures keeps(i + 1, NextLoop(c, s)(i, l)) {
      LaidStep(c, s, i, l.draft, l.wording);
    }
    IterateKeeps(NextLoop(c, s), LoopStart(s), n, keeps);
  }

  /** Bodies and collected text are small: at most the maximum, or the previous overlap and at most one line. */
  lemma SizedAlways(c: Config, s: Section, n: nat)
    requires n <= |s.lines|
    ensures Sized(c, s.lines, n, LoopAt(c, s, n).draft, LoopAt(c, s, n).wording.bodies)
  {
    var keeps := (i: nat, l: Loop) => Sized(c, s.lines, i, l.draft, l.wording.bodies);
    assert Size(c.width, "") == 0;
    forall i: nat, l: Loop | i < n && keeps(i, l) ensures keeps(i + 1, NextLoop(c, s)(i, l)) {
      SizedStep(c, s, i, l.draft, l.wording);
    }
    IterateKeeps(NextLoop(c, s), LoopStart(s), n, keeps);
  }

  /** For every overlap: what the bodies add and what is being collected is everything read so far. */
  lemma ConservedAlways(c: Config, s: Section, n: nat)
    requires n <= |s.lines|
    ensures Conserved(c, s.lines, n, LoopAt(c, s, n).draft.text, LoopAt(c, s, n).wording)
  {
    var keeps := (i: nat, l: Loop) => i <= n && Conserved(c, s.lines, i, l.draft.text, l.wording);
    assert s.lines[..0] == [];
    forall i: nat, l: Loop | i < n && keeps(i, l) ensures keeps(i + 1, NextLoop(c, s)(i, l)) {
      ConservedStep(c, s, i, l.draft, l.wording);
    }
    IterateKeeps(NextLoop(c, s), LoopStart(s), n, keeps);
  }

  /** Splits at the last newline, which takes the line just added off again. */
  method SplitLastLine(current: string, ghost text: string, ghost line: string)
      returns (keep: string, remainder: string)
    requires OneLine(line) && current == Extend(text, line)
    ensures if text == "" then keep == line && remainder == "" else keep == text && remainder == line
  {
    SplitUndoesExtend(text, line);
    var splitAt := LastNewline(current);
    keep, remainder := current[..splitAt], TrimStartNewlines(current[splitAt..]);
  }

  /** One line of the loop below; the code splits at the last newline of the text with the line added. */
  method AddLine(s: Section, c: Config, i: nat, chunks: seq<Chunk>, text: string, start: nat, lineOffset: nat)
      returns (chunks': seq<Chunk>, text': string, start': nat, lineOffset': nat)
    requires i < |s.lines| && OneLine(s.lines[i])
    ensures Draft(chunks', text', start', lineOffset') == NextDraft(c, s, i, Draft(chunks, text, start, lineOffset))
  {
    chunks', text', start', lineOffset' := chunks, text, start, lineOffset;
    var line := s.lines[i];
    var isBlank := Trim(line) == "";
    if isBlank && text != "" && Size(c.width, text) + Size(c.width, line) > c.maxChunkChars {
      var flushed := Trim(text);
      chunks' := chunks + [Chunk(AddHeaderContext(s.headerContext, flushed), start, s.startLine + i)];
      text' := TakeRight(flushed, c.chunkOverlapChars);
      start' := s.startLine + i + 1;
      lineOffset' := i + 1;
      return;
    }
    text' := Extend(text, line);
    if Size(c.width, text') > c.maxChunkChars && i > lineOffset {
      var keep, remainder := SplitLastLine(text', text, line);
      chunks' := chunks + [Chunk(AddHeaderContext(s.headerContext, Trim(keep)), start, s.startLine + i)];
      text' := remainder;
      start' := s.startLine + i;
      lineOffset' := i;
    }
  }

  // ---------------------------------------------------------------------
  // One section
  // ---------------------------------------------------------------------

  /** Bodies of chunks, what each adds, and the section each lies in. */
  datatype Account = Account(bodies: seq<string>, news: seq<string>, homes: seq<Section>)

  /** What splitting one section promises. */
  ghost predicate SectionSplit(c: Config, s: Section, chunks: seq<Chunk>, a: Account) {
    match a
    case Account(bodies, news, homes) =>
      && Worded(chunks, s.headerContext, bodies)
      && Ranges(chunks, s.startLine, s.startLine + |s.lines|)
      && SmallBodies(c, s.lines, bodies)
      && AllAdd(c, bodies, news)
      && Squeeze(Flatten(news)) == Squeeze(Flatten(s.lines))
      && homes == Repeat(s, |chunks|)
  }

  ghost function Repeat(s: Section, n: nat): seq<Section> {
    seq(n, _ => s)
  }

  /** Everything the loop made, and what is left at its end unless that is blank. */
  ghost function Finished(s: Section, d: Draft): seq<Chunk> {
    if Trim(d.text) == "" then d.chunks else Flush(s, |s.lines|, d, d.text)
  }

  ghost function FinishedAccount(s: Section, d: Draft, w: Wording): Account {
    var homes := Repeat(s, |Finished(s, d)|);
    if Trim(d.text) == "" then Account(w.bodies, w.news, homes)
    else Account(w.bodies + [Trim(d.text)], w.news + [w.pending], homes)
  }

  /** The chunks of a section that is too large. */
  ghost function ParagraphChunks(c: Config, s: Section): seq<Chunk> {
    Finished(s, LoopAt(c, s, |s.lines|).draft)
  }

  ghost function ParagraphAccount(c: Config, s: Section): Account {
    FinishedAccount(s, LoopAt(c, s, |s.lines|).draft, LoopAt(c, s, |s.lines|).wording)
  }

  lemma SplitComplete(c: Config, s: Section, chunks: seq<Chunk>, bodies: seq<string>, news: seq<string>)
    requires Worded(chunks, s.headerContext, bodies) && Ranges(chunks, s.startLine, s.startLine + |s.lines|)
    requires SmallBodies(c, s.lines, bodies) && AllAdd(c, bodies, news)
    requires Squeeze(Flatten(news)) == Squeeze(Flatten(s.lines))
    ensures SectionSplit(c, s, chunks, Account(bodies, news, Repeat(s, |chunks|)))
  {
  }

  lemma LastFlush(c: Config, s: Section, d: Draft, w: Wording)
    requires Laid(s, |s.lines|, d, w.bodies) && SmallBodies(c, s.lines, w.bodies + [Trim(d.text)])
    requires AllAdd(c, w.bodies + [Trim(d.text)], w.news + [w.pending])
    requires Squeeze(Flatten(w.news + [w.pending])) == Squeeze(Flatten(s.lines))
    requires Trim(d.text) != ""
    ensures SectionSplit(c, s, Finished(s, d), FinishedAccount(s, d, w))
  {
    var next := Draft(Finished(s, d), "", s.startLine + |s.lines|, 0);
    LaidNext(s, |s.lines|, d, w.bodies, Trim(d.text), next);
    SplitComplete(c, s, next.chunks, w.bodies + [Trim(d.text)], w.news + [w.pending]);
  }

  lemma NothingLeft(c: Config, s: Section, d: Draft, w: Wording)
    requires Laid(s, |s.lines|, d, w.bodies) && SmallBodies(c, s.lines, w.bodies)
    requires AllAdd(c, w.bodies, w.news) && Squeeze(Flatten(w.news)) == Squeeze(Flatten(s.lines))
    requires Trim(d.text) == ""
    ensures SectionSplit(c, s, Finished(s, d), FinishedAccount(s, d, w))
  {
    RangesWiden(d.chunks, s.startLine, d.start, s.startLine + |s.lines|);
  }

  lemma AllConserved(c: Config, lines: seq<string>, text: string, w: Wording)
    requires Conserved(c, lines, |lines|, text, w)
    ensures Squeeze(Flatten(w.news + [w.pending])) == Squeeze(Flatten(lines))
    ensures Trim(text) == "" ==> Squeeze(Flatten(w.news)) == Squeeze(Flatten(lines))
  {
    assert lines[..|lines|] == lines;
    SqueezeTrim(text);
    SqueezeSnoc(w.news, w.pending);
  }

  /** Splitting a large section keeps its promises, for every overlap. */
  lemma ParagraphsSplit(c: Config, s: Section)
    ensures SectionSplit(c, s, ParagraphChunks(c, s), ParagraphAccount(c, s))
  {
    var n := |s.lines|;
    var d, w := LoopAt(c, s, n).draft, LoopAt(c, s, n).wording;
    LaidAlways(c, s, n);
    SizedAlways(c, s, n);
    ConservedAlways(c, s, n);
    AllConserved(c, s.lines, d.text, w);
    if Trim(d.text) == "" {
      NothingLeft(c, s, d, w);
    } else {
      ConservedFlushed(c, s.lines, n, d.text, w);
      SmallBodiesSnoc(c, s.lines, w.bodies, d.text);
      LastFlush(c, s, d, w);
    }
  }

  lemma RangesWiden(chunks: seq<Chunk>, lo: nat, hi: nat, hi': nat)
    requires Ranges(chunks, lo, hi) && hi <= hi'
    ensures Ranges(chunks, lo, hi')
  {
  }

  method SplitSectionByParagraphs(s: Section, c: Config) returns (chunks: seq<Chunk>)
    requires forall line :: line in s.lines ==> OneLine(line)
    ensures chunks == ParagraphChunks(c, s)
  {
    chunks := [];
    var currentText: string, currentStart: nat, lineOffset: nat := "", s.startLine, 0;
    for i := 0 to |s.lines|
      invariant Draft(chunks, currentText, currentStart, lineOffset) == LoopAt(c, s, i).draft
    {
      LoopStep(c, s, i);
      chunks, currentText, currentStart, lineOffset :=
        AddLine(s, c, i, chunks, currentText, currentStart, lineOffset);
    }
    chunks := FlushRest(s, chunks, currentText, currentStart, lineOffset);
  }

  method FlushRest(s: Section, chunks: seq<Chunk>, text: string, start: nat, ghost lineOffset: nat)
      returns (result: seq<Chunk>)
    ensures result == Finished(s, Draft(chunks, text, start, lineOffset))
  {
    result := chunks;
    if Trim(text) != "" {
      result := chunks + [Chunk(AddHeaderContext(s.headerContext, Trim(text)), start, s.startLine + |s.lines|)];
    }
  }

  ghost function SectionChunks(c: Config, s: Section): seq<Chunk> {
    var text := Join(s.lines, "\n");
    if Size(c.width, text) <= c.maxChunkChars then
      [Chunk(AddHeaderContext(s.headerContext, text), s.startLine, s.startLine + |s.lines|)]
    else ParagraphChunks(c, s)
  }

  ghost function SectionAccount(c: Config, s: Section): Account {
    var text := Join(s.lines, "\n");
    if Size(c.width, text) <= c.maxChunkChars then Account([text], [text], [s]) else ParagraphAccount(c, s)
  }

  /** A section that fits becomes one chunk, white space and all. */
  lemma WholeSection(c: Config, s: Section)
    requires Size(c.width, Join(s.lines, "\n")) <= c.maxChunkChars
    ensures SectionSplit(c, s, SectionChunks(c, s), SectionAccount(c, s))
  {
    var text := Join(s.lines, "\n");
    assert SmallBodyAt(c, s.lines, [text], 0) && AddsAt(c, [text], [text], 0);
    SqueezeJoin(s.lines);
    FlattenOne(text);
  }

  lemma SectionSplits(c: Config, s: Section)
    ensures SectionSplit(c, s, SectionChunks(c, s), SectionAccount(c, s))
  {
    if Size(c.width, Join(s.lines, "\n")) <= c.maxChunkChars {
      WholeSection(c, s);
    } else {
      ParagraphsSplit(c, s);
    }
  }

  // ---------------------------------------------------------------------
  // What a chunk text says of its headers
  // ---------------------------------------------------------------------

  /** The lines before line `j` whose headers still enclose the text after line `n - 1`, in order. */
  ghost function OpenLines(levels: seq<Option<nat>>, n: nat, j: nat): seq<nat>
    requires j <= n <= |levels|
  {
    if j == 0 then []
    else OpenLines(levels, n, j - 1) + if Opens(levels, j - 1, n) then [j - 1] else []
  }

  /** They are exactly the open header lines, each listed once and in order. */
  lemma {:induction false} OpenLinesExactly(levels: seq<Option<nat>>, n: nat, j: nat)
    requires j <= n <= |levels|
    ensures forall m: nat :: m in OpenLines(levels, n, j) <==> m < j && Opens(levels, m, n)
    ensures forall a, b :: 0 <= a < b < |OpenLines(levels, n, j)| ==>
              OpenLines(levels, n, j)[a] < OpenLines(levels, n, j)[b]
  {
    if j > 0 {
      OpenLinesExactly(levels, n, j - 1);
      var init := OpenLines(levels, n, j - 1);
      assert forall a :: 0 <= a < |init| ==> init[a] in init;
    }
  }

  ghost predicate LineNumbers(js: seq<nat>, n: nat) {
    forall a :: 0 <= a < |js| ==> js[a] < n
  }

  /** The trimmed lines, outermost first, with " > " between two of them. */
  ghost function Titles(lines: seq<string>, js: seq<nat>): string
    requires js != [] && LineNumbers(js, |lines|)
  {
    var (init, last) := (js[..|js| - 1], js[|js| - 1]);
    if init == [] then Trim(lines[last]) else Titles(lines, init) + " > " + Trim(lines[last])
  }

  /**
    What stands before the body of a chunk whose section starts at line `start`: nothing when at most one header
    encloses the section, otherwise all of them except the innermost, which is the section's own first line.
   */
  ghost function Label(lines: seq<string>, start: nat): string
    requires start < |lines|
  {
    var js := OpenLines(Levels(lines), start + 1, start + 1);
    OpenHeadingsAre(lines, Levels(lines), start + 1, start + 1);
    if |js| <= 1 then "" else "[Context: " + Titles(lines, js[..|js| - 1]) + "]\n\n"
  }

  lemma {:induction false} OpenHeadingsAre(lines: seq<string>, levels: seq<Option<nat>>, n: nat, j: nat)
    requires j <= n <= |lines| == |levels|
    ensures |OpenHeadings(lines, levels, n, j)| == |OpenLines(levels, n, j)|
    ensures forall a :: 0 <= a < |OpenLines(levels, n, j)| ==>
              OpenLines(levels, n, j)[a] < j
              && OpenHeadings(lines, levels, n, j)[a].text == lines[OpenLines(levels, n, j)[a]]
  {
    if j > 0 {
      OpenHeadingsAre(lines, levels, n, j - 1);
    }
  }

  lemma {:induction false} TitlesJoin(lines: seq<string>, js: seq<nat>, pieces: seq<string>)
    requires js != [] && LineNumbers(js, |lines|)
    requires |pieces| == |js| && forall a :: 0 <= a < |js| ==> pieces[a] == Trim(lines[js[a]])
    ensures Titles(lines, js) == JoinedBy(pieces, " > ")
    decreases |js|
  {
    if |js| > 1 {
      TitlesJoin(lines, js[..|js| - 1], pieces[..|js| - 1]);
    }
  }

  /** A header line is not blank, so a label with a header in it is not empty. */
  lemma HeaderNotBlank(line: string)
    requires HeaderLevel(line).Some?
    ensures Trim(line) != ""
  {
    var i := TrimMeans(line);
    var n := TrimStartMeans(line);
    SomethingLeft(line, Trim(line), i, n);
  }

  lemma SomethingLeft(s: string, t: string, i: nat, n: nat)
    requires TrimmedAt(s, t, i) && n < |s| && !White(s[n])
    ensures t != ""
  {
  }

  lemma TitlesNotBlank(lines: seq<string>, js: seq<nat>)
    requires js != [] && LineNumbers(js, |lines|) && HeaderLevel(lines[js[|js| - 1]]).Some?
    ensures Titles(lines, js) != ""
  {
    HeaderNotBlank(lines[js[|js| - 1]]);
  }

  /** Text under a section's header context is its label and the text. */
  lemma ContextIsLabel(lines: seq<string>, start: nat, text: string)
    requires start < |lines|
    ensures AddHeaderContext(FormatHeaderContext(Enclosing(lines, start + 1)), text) == Label(lines, start) + text
  {
    var levels, n := Levels(lines), start + 1;
    var stack, js := Enclosing(lines, n), OpenLines(levels, n, n);
    OpenHeadingsAre(lines, levels, n, n);
    OpenLinesExactly(levels, n, n);
    if |js| > 1 {
      var outer := js[..|js| - 1];
      assert outer[|outer| - 1] in js;
      TitlesJoin(lines, outer, HeadingTexts(stack[..|stack| - 1]));
      JoinMeans(HeadingTexts(stack[..|stack| - 1]), " > ");
      TitlesNotBlank(lines, outer);
    }
  }

  // ---------------------------------------------------------------------
  // The whole file
  // ---------------------------------------------------------------------

  /** The chunk lies inside its section; its text is its body, after the label of the headers that enclose it. */
  ghost predicate LiesIn(lines: seq<string>, home: Section, chunk: Chunk, body: string) {
    && SectionAt(lines, home)
    && home.startLine <= chunk.startLine
    && chunk.endLine <= home.startLine + |home.lines|
    && chunk.text == Label(lines, home.startLine) + body
  }

  ghost predicate Placed(lines: seq<string>, chunks: seq<Chunk>, a: Account, k: nat)
    requires k < |chunks| && k < |a.bodies| && k < |a.homes|
  {
    LiesIn(lines, a.homes[k], chunks[k], a.bodies[k])
  }

  /** What chunking the first `n` lines promises. */
  ghost predicate Chunked(c: Config, lines: seq<string>, n: nat, chunks: seq<Chunk>, a: Account)
    requires n <= |lines|
  {
    match a
    case Account(bodies, news, homes) =>
      && |chunks| == |bodies| == |homes|
      && Ranges(chunks, 0, n)
      && (forall k {:trigger Placed(lines, chunks, a, k)} :: 0 <= k < |chunks| ==> Placed(lines, chunks, a, k))
      && SmallBodies(c, lines, bodies)
      && AllAdd(c, bodies, news)
      && Squeeze(Flatten(news)) == Squeeze(Flatten(lines[..n]))
  }

  lemma SmallBodyWiden(c: Config, lines: seq<string>, more: seq<string>, previous: string, previous': string,
                       body: string)
    requires SmallBody(c, lines, previous, body) && (previous == previous' || previous == "")
    requires forall line :: line in lines ==> line in more
    ensures SmallBody(c, more, previous', body)
  {
    if Size(c.width, body) > c.maxChunkChars {
      var text, tail, line :| TailAndLine(c, lines, previous, text, tail, line) && body == Trim(text);
      assert TailAndLine(c, more, previous', text, tail, line);
    }
  }

  /** The first chunk of a section carries no overlap, so the bodies of consecutive sections can be listed together. */
  lemma SmallBodiesAppend(c: Config, lines: seq<string>, bodies: seq<string>, sectionLines: seq<string>,
                          more: seq<string>)
    requires SmallBodies(c, lines, bodies) && SmallBodies(c, sectionLines, more)
    requires forall line :: line in sectionLines ==> line in lines
    ensures SmallBodies(c, lines, bodies + more)
  {
    var all := bodies + more;
    forall k | 0 <= k < |all| ensures SmallBodyAt(c, lines, all, k) {
      if k < |bodies| {
        assert all[..k] == bodies[..k];
        assert SmallBodyAt(c, lines, bodies, k);
      } else {
        var m := k - |bodies|;
        assert SmallBodyAt(c, sectionLines, more, m);
        assert m > 0 ==> Last(all[..k]) == Last(more[..m]);
        SmallBodyWiden(c, sectionLines, lines, Last(more[..m]), Last(all[..k]), all[k]);
      }
    }
  }

  lemma SqueezeNextSection(lines: seq<string>, s: Section, news: seq<string>, more: seq<string>)
    requires SectionAt(lines, s)
    requires Squeeze(Flatten(news)) == Squeeze(Flatten(lines[..s.startLine]))
    requires Squeeze(Flatten(more)) == Squeeze(Flatten(s.lines))
    ensures Squeeze(Flatten(news + more)) == Squeeze(Flatten(lines[..s.startLine + |s.lines|]))
  {
    FlattenAppend(news, more);
    SqueezeAppend(Flatten(news), Flatten(more));
    assert lines[..s.startLine + |s.lines|] == lines[..s.startLine] + s.lines;
    FlattenAppend(lines[..s.startLine], s.lines);
    SqueezeAppend(Flatten(lines[..s.startLine]), Flatten(s.lines));
  }

  lemma RangesAppend(chunks: seq<Chunk>, more: seq<Chunk>, n: nat, hi: nat)
    requires Ranges(chunks, 0, n) && Ranges(more, n, hi)
    ensures Ranges(chunks + more, 0, hi)
  {
  }

  ghost function Joined(a: Account, b: Account): Account {
    Account(a.bodies + b.bodies, a.news + b.news, a.homes + b.homes)
  }

  lemma PlacedNew(lines: seq<string>, s: Section, chunk: Chunk, body: string)
    requires SectionAt(lines, s) && chunk.text == AddHeaderContext(s.headerContext, body)
    requires s.startLine <= chunk.startLine && chunk.endLine <= s.startLine + |s.lines|
    ensures LiesIn(lines, s, chunk, body)
  {
    ContextIsLabel(lines, s.startLine, body);
  }

  lemma PlacedAppend(lines: seq<string>, chunks: seq<Chunk>, a: Account, s: Section, more: seq<Chunk>, b: Account,
                     k: nat)
    requires |chunks| == |a.bodies| == |a.homes| && k < |chunks + more|
    requires forall k {:trigger Placed(lines, chunks, a, k)} :: 0 <= k < |chunks| ==> Placed(lines, chunks, a, k)
    requires SectionAt(lines, s) && Worded(more, s.headerContext, b.bodies) && b.homes == Repeat(s, |more|)
    requires Ranges(more, s.startLine, s.startLine + |s.lines|)
    ensures Placed(lines, chunks + more, Joined(a, b), k)
  {
    if k < |chunks| {
      assert Placed(lines, chunks, a, k);
    } else {
      var m := k - |chunks|;
      assert (chunks + more)[k] == more[m];
      PlacedNew(lines, s, more[m], b.bodies[m]);
    }
  }

  lemma ChunkedNext(c: Config, lines: seq<string>, chunks: seq<Chunk>, a: Account, s: Section, more: seq<Chunk>,
                    b: Account)
    requires SectionAt(lines, s) && Chunked(c, lines, s.startLine, chunks, a)
    requires SectionSplit(c, s, more, b)
    ensures Chunked(c, lines, s.startLine + |s.lines|, chunks + more, Joined(a, b))
  {
    RangesAppend(chunks, more, s.startLine, s.startLine + |s.lines|);
    SmallBodiesAppend(c, lines, a.bodies, s.lines, b.bodies);
    AllAddAppend(c, a.bodies, a.news, b.bodies, b.news);
    forall k: nat | k < |chunks + more| ensures Placed(lines, chunks + more, Joined(a, b), k) {
      PlacedAppend(lines, chunks, a, s, more, b, k);
    }
    SqueezeNextSection(lines, s, a.news, b.news);
  }

  lemma EndWithin(lines: seq<string>, sections: seq<Section>, n: nat)
    requires Cut(lines, sections, |lines|) && n <= |sections|
    ensures EndBefore(sections, n) <= |lines|
  {
    if n > 0 {
      assert SectionAt(lines, sections[n - 1]);
    }
  }

  /** Chunks and what they say. */
  datatype Part = Part(chunks: seq<Chunk>, account: Account)

  ghost function NextPart(parts: seq<Part>): (nat, Part) -> Part {
    (i: nat, p: Part) =>
      if i < |parts| then Part(p.chunks + parts[i].chunks, Joined(p.account, parts[i].account)) else p
  }

  /** The first `n` parts in one. */
  ghost function Together(parts: seq<Part>, n: nat): Part {
    Iterate(NextPart(parts), Part([], Account([], [], [])), n)
  }

  lemma TogetherStep(parts: seq<Part>, i: nat)
    requires i < |parts|
    ensures Together(parts, i + 1).chunks == Together(parts, i).chunks + parts[i].chunks
  {
  }

  ghost predicate AllSplit(c: Config, sections: seq<Section>, parts: seq<Part>) {
    && |parts| == |sections|
    && forall i {:trigger parts[i]} :: 0 <= i < |sections| ==>
         SectionSplit(c, sections[i], parts[i].chunks, parts[i].account)
  }

  ghost predicate ChunkedBefore(c: Config, lines: seq<string>, sections: seq<Section>, i: nat, p: Part) {
    && i <= |sections| && EndBefore(sections, i) <= |lines|
    && Chunked(c, lines, EndBefore(sections, i), p.chunks, p.account)
  }

  lemma ChunkedSection(c: Config, lines: seq<string>, sections: seq<Section>, i: nat, p: Part, more: Part)
    requires Cut(lines, sections, |lines|) && i < |sections| && ChunkedBefore(c, lines, sections, i, p)
    requires SectionSplit(c, sections[i], more.chunks, more.account)
    ensures ChunkedBefore(c, lines, sections, i + 1, Part(p.chunks + more.chunks, Joined(p.account, more.account)))
  {
    EndWithin(lines, sections, i + 1);
    assert SectionAt(lines, sections[i]) && Follows(sections, i);
    ChunkedNext(c, lines, p.chunks, p.account, sections[i], more.chunks, more.account);
  }

  lemma ChunkedAlways(c: Config, lines: seq<string>, sections: seq<Section>, parts: seq<Part>)
    requires Cut(lines, sections, |lines|) && AllSplit(c, sections, parts)
    ensures ChunkedBefore(c, lines, sections, |sections|, Together(parts, |sections|))
  {
    var keeps := (i: nat, p: Part) => ChunkedBefore(c, lines, sections, i, p);
    assert lines[..0] == [];
    forall i: nat, p: Part | i < |sections| && keeps(i, p) ensures keeps(i + 1, NextPart(parts)(i, p)) {
      assert SectionSplit(c, sections[i], parts[i].chunks, parts[i].account);
      ChunkedSection(c, lines, sections, i, p, parts[i]);
    }
    IterateKeeps(NextPart(parts), Part([], Account([], [], [])), |sections|, keeps);
  }

  ghost function Parts(c: Config, sections: seq<Section>): seq<Part> {
    seq(|sections|, i requires 0 <= i < |sections| =>
      Part(SectionChunks(c, sections[i]), SectionAccount(c, sections[i])))
  }

  lemma PartsSplit(c: Config, sections: seq<Section>)
    ensures AllSplit(c, sections, Parts(c, sections))
  {
    var parts := Parts(c, sections);
    forall i | 0 <= i < |sections|
      ensures SectionSplit(c, sections[i], parts[i].chunks, parts[i].account)
    {
      SectionSplits(c, sections[i]);
    }
  }

  ghost function SectionsPart(c: Config, sections: seq<Section>): Part {
    Together(Parts(c, sections), |sections|)
  }

  /** The chunk list is a function of the content and the configuration; the empty text has none. */
  ghost function ChunksOf(content: string, c: Config): seq<Chunk> {
    var lines := Lines(content);
    if content == "" then []
    else if Size(c.width, content) <= c.maxChunkChars then [Chunk(content, 0, |lines|)]
    else SectionsPart(c, SectionsOf(lines)).chunks
  }

  ghost function AccountOf(content: string, c: Config): Account {
    var lines := Lines(content);
    if content == "" then Account([], [], [])
    else if Size(c.width, content) <= c.maxChunkChars then Account([content], [content], [])
    else SectionsPart(c, SectionsOf(lines)).account
  }

  /**
    Content that fits is one chunk. Otherwise every chunk lies in one section under its enclosing headers,
    the ranges are in order and disjoint, and the bodies are small. In every case what the bodies add after their
    overlap is the content, save white space.
   */
  ghost predicate ChunkList(content: string, c: Config, chunks: seq<Chunk>, a: Account) {
    && |a.bodies| == |chunks|
    && (content != "" && Size(c.width, content) <= c.maxChunkChars ==>
          chunks == [Chunk(content, 0, |Lines(content)|)] && a.bodies == [content])
    && (content != "" && Size(c.width, content) > c.maxChunkChars ==>
          Chunked(c, Lines(content), |Lines(content)|, chunks, a))
    && AllAdd(c, a.bodies, a.news)
    && Squeeze(Flatten(a.news)) == Squeeze(content)
  }

  lemma LargeContent(lines: seq<string>, c: Config, sections: seq<Section>)
    requires Cut(lines, sections, |lines|)
    ensures Chunked(c, lines, |lines|, SectionsPart(c, sections).chunks, SectionsPart(c, sections).account)
  {
    PartsSplit(c, sections);
    ChunkedAlways(c, lines, sections, Parts(c, sections));
  }

  lemma ChunksOfContent(content: string, c: Config)
    ensures ChunkList(content, c, ChunksOf(content, c), AccountOf(content, c))
  {
    var lines := Lines(content);
    if content != "" {
      if Size(c.width, content) <= c.maxChunkChars {
        FlattenOne(content);
        assert AddsAt(c, [content], [content], 0);
      } else {
        LinesConserve(content);
        SectionsCut(lines);
        LargeContent(lines, c, SectionsOf(lines));
        assert lines[..|lines|] == lines;
      }
    }
  }

  /** Without overlap the bodies together are the content, save white space. */
  lemma ConservedWithoutOverlap(content: string, c: Config)
    requires c.chunkOverlapChars == 0
    ensures Squeeze(Flatten(AccountOf(content, c).bodies)) == Squeeze(content)
  {
    ChunksOfContent(content, c);
    AddsWithoutOverlap(c, AccountOf(content, c).bodies, AccountOf(content, c).news);
  }

  method ChunkSection(s: Section, c: Config) returns (chunks: seq<Chunk>)
    requires forall line :: line in s.lines ==> OneLine(line)
    ensures chunks == SectionChunks(c, s)
  {
    var sectionText := Join(s.lines, "\n");
    if Size(c.width, sectionText) <= c.maxChunkChars {
      chunks := [Chunk(AddHeaderContext(s.headerContext, sectionText), s.startLine, s.startLine + |s.lines|)];
    } else {
      chunks := SplitSectionByParagraphs(s, c);
    }
  }

  /** The chunk list of a markdown text. */
  method ChunkMarkdown(content: string, c: Config) returns (chunks: seq<Chunk>)
    ensures chunks == ChunksOf(content, c) && ChunkList(content, c, chunks, AccountOf(content, c))
    ensures content == "" ==> chunks == []
  {
    ChunksOfContent(content, c);
    var lines := Lines(content);
    LinesAreLines(content);
    if content == "" || lines == [] {
      return [];
    }
    if Size(c.width, content) <= c.maxChunkChars {
      return [Chunk(content, 0, |lines|)];
    }
    var sections := SplitByHeaders(lines);
    chunks := ChunkSections(lines, sections, c);
  }

  lemma SectionLines(lines: seq<string>, sections: seq<Section>, i: nat)
    requires Cut(lines, sections, |lines|) && i < |sections| && forall line :: line in lines ==> OneLine(line)
    ensures forall line :: line in sections[i].lines ==> OneLine(line)
  {
    assert SectionAt(lines, sections[i]);
  }

  method ChunkSections(lines: seq<string>, sections: seq<Section>, c: Config) returns (chunks: seq<Chunk>)
    requires Cut(lines, sections, |lines|) && forall line :: line in lines ==> OneLine(line)
    ensures chunks == SectionsPart(c, sections).chunks
  {
    chunks := [];
    ghost var parts := Parts(c, sections);
    for i := 0 to |sections|
      invariant chunks == Together(parts, i).chunks
    {
      SectionLines(lines, sections, i);
      TogetherStep(parts, i);
      var more := ChunkSection(sections[i], c);
      chunks := chunks + more;
    }
  }
}
