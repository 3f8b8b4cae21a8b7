/** Strings as the chunker uses them: white space, trimming, lines, and byte lengths. */
module Texts {
  import opened Prelude

  /** The Unicode White_Space property, which trimming goes by. */
  predicate White(c: char) {
    var n := c as int;
    || 0x9 <= n <= 0xD || n == 0x20 || n == 0x85 || n == 0xA0 || n == 0x1680 || 0x2000 <= n <= 0x200A
    || n == 0x2028 || n == 0x2029 || n == 0x202F || n == 0x205F || n == 0x3000
  }

  /** The text with all white space deleted. */
  ghost function Squeeze(s: string): string {
    if s == "" then "" else (if White(s[0]) then "" else [s[0]]) + Squeeze(s[1..])
  }

  lemma {:induction false} SqueezeAppend(a: string, b: string)
    ensures Squeeze(a + b) == Squeeze(a) + Squeeze(b)
  {
    if a == "" {
      assert a + b == b;
    } else {
      assert (a + b)[1..] == a[1..] + b;
      SqueezeAppend(a[1..], b);
    }
  }

  function TrimStart(s: string): string {
    if s != "" && White(s[0]) then TrimStart(s[1..]) else s
  }

  function TrimEnd(s: string): string {
    if s != "" && White(s[|s| - 1]) then TrimEnd(s[..|s| - 1]) else s
  }

  function Trim(s: string): string {
    TrimEnd(TrimStart(s))
  }

  lemma {:induction false} SqueezeTrimStart(s: string)
    ensures Squeeze(TrimStart(s)) == Squeeze(s)
  {
    if s != "" && White(s[0]) {
      SqueezeTrimStart(s[1..]);
    }
  }

  lemma {:induction false} SqueezeTrimEnd(s: string)
    ensures Squeeze(TrimEnd(s)) == Squeeze(s)
  {
    if s != "" && White(s[|s| - 1]) {
      var t := s[..|s| - 1];
      SqueezeTrimEnd(t);
      SqueezeAppend(t, [s[|s| - 1]]);
      assert s == t + [s[|s| - 1]];
    }
  }

  /** Trimming loses nothing but white space. */
  lemma SqueezeTrim(s: string)
    ensures Squeeze(Trim(s)) == Squeeze(s)
  {
    SqueezeTrimStart(s);
    SqueezeTrimEnd(TrimStart(s));
  }

  ghost predicate WhiteFrom(s: string, i: nat, j: nat)
    requires i <= j <= |s|
  {
    forall k :: i <= k < j ==> White(s[k])
  }

  lemma {:induction false} TrimStartMeans(s: string) returns (n: nat)
    ensures n <= |s| && WhiteFrom(s, 0, n) && TrimStart(s) == s[n..] && (n < |s| ==> !White(s[n]))
  {
    n := 0;
    if s != "" && White(s[0]) {
      var m := TrimStartMeans(s[1..]);
      n := m + 1;
      assert forall k :: 0 < k < n ==> s[k] == s[1..][k - 1];
    }
  }

  lemma {:induction false} TrimEndMeans(s: string) returns (n: nat)
    ensures n <= |s| && WhiteFrom(s, n, |s|) && TrimEnd(s) == s[..n] && (n > 0 ==> !White(s[n - 1]))
  {
    n := |s|;
    if s != "" && White(s[|s| - 1]) {
      n := TrimEndMeans(s[..|s| - 1]);
    }
  }

  /** The text lies at `i` in `s`, between white space only, and neither starts nor ends with any. */
  ghost predicate TrimmedAt(s: string, t: string, i: nat) {
    && i + |t| <= |s|
    && t == s[i..i + |t|]
    && WhiteFrom(s, 0, i)
    && WhiteFrom(s, i + |t|, |s|)
    && (t != "" ==> !White(t[0]) && !White(t[|t| - 1]))
  }

  lemma TrimmedParts(s: string, n: nat, a: string, m: nat)
    requires n <= |s| && WhiteFrom(s, 0, n) && a == s[n..] && (n < |s| ==> !White(s[n]))
    requires m <= |a| && WhiteFrom(a, m, |a|) && (m > 0 ==> !White(a[m - 1]))
    ensures TrimmedAt(s, a[..m], n)
  {
    forall k | n + m <= k < |s| ensures White(s[k]) {
      assert s[k] == a[k - n];
    }
  }

  /** Trimming takes away the white space at both ends and nothing else. */
  lemma TrimMeans(s: string) returns (i: nat)
    ensures TrimmedAt(s, Trim(s), i)
  {
    i := TrimStartMeans(s);
    var m := TrimEndMeans(TrimStart(s));
    TrimmedParts(s, i, TrimStart(s), m);
  }

  /** There is only one text like that, so it is what trimming leaves. */
  lemma TrimUnique(s: string, t: string, i: nat, t': string, i': nat)
    requires TrimmedAt(s, t, i) && TrimmedAt(s, t', i')
    ensures t == t'
  {
    if t != "" {
      WhiteOutside(s, t, i, t', i');
    }
    if t' != "" {
      WhiteOutside(s, t', i', t, i);
    }
  }

  /** The ends of a trimmed text are not white, so they lie within every other. */
  lemma WhiteOutside(s: string, t: string, i: nat, t': string, i': nat)
    requires TrimmedAt(s, t, i) && TrimmedAt(s, t', i') && t != ""
    ensures i' <= i && i + |t| <= i' + |t'|
  {
    assert !White(s[i]) && !White(s[i + |t| - 1]);
  }

  // ---------------------------------------------------------------------
  // Lengths
  // ---------------------------------------------------------------------

  /** Length in bytes when every character `c` takes `width(c)` bytes. */
  function Size(width: char -> nat, s: string): nat {
    if s == "" then 0 else width(s[0]) + Size(width, s[1..])
  }

  lemma {:induction false} SizeAppend(width: char -> nat, a: string, b: string)
    ensures Size(width, a + b) == Size(width, a) + Size(width, b)
  {
    if a == "" {
      assert a + b == b;
    } else {
      assert (a + b)[1..] == a[1..] + b;
      SizeAppend(width, a[1..], b);
    }
  }

  /** Every character adds its own width. */
  lemma SizeMeans(width: char -> nat, s: string, c: char)
    ensures Size(width, "") == 0
    ensures Size(width, s + [c]) == Size(width, s) + width(c)
  {
    SizeAppend(width, s, [c]);
    assert [c][1..] == "";
  }

  lemma {:induction false} SizeTrimStart(width: char -> nat, s: string)
    ensures Size(width, TrimStart(s)) <= Size(width, s)
  {
    if s != "" && White(s[0]) {
      SizeTrimStart(width, s[1..]);
    }
  }

  lemma {:induction false} SizeTrimEnd(width: char -> nat, s: string)
    ensures Size(width, TrimEnd(s)) <= Size(width, s)
  {
    if s != "" && White(s[|s| - 1]) {
      var t := s[..|s| - 1];
      SizeTrimEnd(width, t);
      SizeAppend(width, t, [s[|s| - 1]]);
      assert s == t + [s[|s| - 1]];
    }
  }

  lemma SizeTrim(width: char -> nat, s: string)
    ensures Size(width, Trim(s)) <= Size(width, s)
  {
    SizeTrimStart(width, s);
    SizeTrimEnd(width, TrimStart(s));
  }

  /** The longest start of the text that takes at most `cap` bytes. */
  function FitBytes(width: char -> nat, s: string, cap: nat): string {
    if s == "" || width(s[0]) > cap then "" else [s[0]] + FitBytes(width, s[1..], cap - width(s[0]))
  }

  lemma {:induction false} FitBytesLongest(width: char -> nat, s: string, cap: nat)
    ensures var t := FitBytes(width, s, cap);
            t <= s && Size(width, t) <= cap && (t != s ==> Size(width, t) + width(s[|t|]) > cap)
  {
    if s != "" && width(s[0]) <= cap {
      var rest := FitBytes(width, s[1..], cap - width(s[0]));
      FitBytesLongest(width, s[1..], cap - width(s[0]));
      assert ([s[0]] + rest)[1..] == rest;
      assert s == [s[0]] + s[1..];
    }
  }

  // ---------------------------------------------------------------------
  // Lines
  // ---------------------------------------------------------------------

  /** Position of the first newline at or after `from`, or the end of the text. */
  function NextNewline(s: string, from: nat): (n: nat)
    requires from <= |s|
    ensures from <= n <= |s|
    ensures forall k :: from <= k < n ==> s[k] != '\n'
    ensures n < |s| ==> s[n] == '\n'
    decreases |s| - from
  {
    if from == |s| || s[from] == '\n' then from else NextNewline(s, from + 1)
  }

  function DropReturn(line: string): string {
    if line != "" && line[|line| - 1] == '\r' then line[..|line| - 1] else line
  }

  /** Lines without their "\n" or "\r\n"; a newline at the very end starts no further line. */
  function Lines(s: string): seq<string> {
    if s == "" then []
    else
      var n := NextNewline(s, 0);
      if n == |s| then [s] else [DropReturn(s[..n])] + Lines(s[n + 1..])
  }

  lemma FlattenOne(s: string)
    ensures Flatten([s]) == s
  {
    assert [s][1..] == [];
  }

  ghost predicate OneLine(s: string) {
    '\n' !in s
  }

  /** No line contains a newline, and only the empty text has no lines. */
  lemma {:induction false} LinesAreLines(s: string)
    ensures forall line :: line in Lines(s) ==> OneLine(line)
    ensures Lines(s) == [] <==> s == ""
  {
    if s != "" {
      var n := NextNewline(s, 0);
      if n < |s| {
        LinesAreLines(s[n + 1..]);
      }
    }
  }

  /** Splitting into lines loses only white space. */
  lemma {:induction false} LinesConserve(s: string)
    ensures Squeeze(Flatten(Lines(s))) == Squeeze(s)
  {
    if s != "" {
      var n := NextNewline(s, 0);
      if n == |s| {
        FlattenOne(s);
      } else {
        var head, rest := s[..n], s[n + 1..];
        LinesConserve(rest);
        assert s == head + (['\n'] + rest);
        SqueezeFirstLine(head, rest, Flatten(Lines(rest)));
        assert Lines(s)[1..] == Lines(rest);
      }
    }
  }

  /** What ends each line: a newline with or without a carriage return, or the end of the text. */
  ghost function LineEnds(s: string): seq<string> {
    if s == "" then []
    else
      var n := NextNewline(s, 0);
      if n == |s| then [""]
      else [if n > 0 && s[n - 1] == '\r' then "\r\n" else "\n"] + LineEnds(s[n + 1..])
  }

  ghost function WithEnds(lines: seq<string>, ends: seq<string>): string
    requires |lines| == |ends|
  {
    if lines == [] then "" else lines[0] + ends[0] + WithEnds(lines[1..], ends[1..])
  }

  ghost predicate EndsLineAt(lines: seq<string>, ends: seq<string>, k: nat)
    requires |lines| == |ends| && k < |lines|
  {
    && '\n' !in lines[k]
    && (|| ends[k] == "\r\n"
        || (ends[k] == "\n" && (lines[k] == "" || lines[k][|lines[k]| - 1] != '\r'))
        || (ends[k] == "" && k == |lines| - 1 && lines[k] != ""))
  }

  lemma FirstLineEnd(s: string, n: nat, end: string)
    requires n < |s| && s[n] == '\n' && '\n' !in s[..n]
    requires end == if n > 0 && s[n - 1] == '\r' then "\r\n" else "\n"
    ensures DropReturn(s[..n]) + end == s[..n + 1]
    ensures EndsLineAt([DropReturn(s[..n])], [end], 0)
  {
  }

  /** The text is the lines, each with its end; no line holds a newline, and only the last may have no end. */
  ghost predicate InLines(s: string, lines: seq<string>, ends: seq<string>) {
    && |lines| == |ends|
    && WithEnds(lines, ends) == s
    && forall k {:trigger EndsLineAt(lines, ends, k)} :: 0 <= k < |lines| ==> EndsLineAt(lines, ends, k)
  }

  lemma OneMoreLine(s: string, n: nat, lines: seq<string>, ends: seq<string>, end: string)
    requires n < |s| && s[n] == '\n' && '\n' !in s[..n] && InLines(s[n + 1..], lines, ends)
    requires end == if n > 0 && s[n - 1] == '\r' then "\r\n" else "\n"
    ensures InLines(s, [DropReturn(s[..n])] + lines, [end] + ends)
  {
    var all, allEnds := [DropReturn(s[..n])] + lines, [end] + ends;
    FirstLineEnd(s, n, end);
    assert all[1..] == lines && allEnds[1..] == ends;
    assert s == s[..n + 1] + s[n + 1..];
    forall k | 0 <= k < |all| ensures EndsLineAt(all, allEnds, k) {
      if k > 0 {
        assert EndsLineAt(lines, ends, k - 1);
      }
    }
  }

  lemma OneLastLine(s: string)
    requires s != "" && '\n' !in s
    ensures InLines(s, [s], [""])
  {
    assert [s][1..] == [] && [""][1..] == [];
    assert s + "" + "" == s;
  }

  /** Splitting undoes the line ends and nothing else. */
  lemma {:induction false} LinesMean(s: string)
    ensures InLines(s, Lines(s), LineEnds(s))
  {
    if s != "" {
      var n := NextNewline(s, 0);
      if n < |s| {
        LinesMean(s[n + 1..]);
        OneMoreLine(s, n, Lines(s[n + 1..]), LineEnds(s[n + 1..]),
                    if n > 0 && s[n - 1] == '\r' then "\r\n" else "\n");
      } else {
        OneLastLine(s);
      }
    }
  }

  lemma SqueezeFirstLine(head: string, rest: string, joined: string)
    requires Squeeze(joined) == Squeeze(rest)
    ensures Squeeze(DropReturn(head) + joined) == Squeeze(head + (['\n'] + rest))
  {
    SqueezeReturn(head);
    SqueezeAppend(DropReturn(head), joined);
    SqueezeAppend(head, ['\n'] + rest);
    assert (['\n'] + rest)[1..] == rest;
  }

  lemma SqueezeReturn(line: string)
    ensures Squeeze(DropReturn(line)) == Squeeze(line)
  {
    if line != "" && line[|line| - 1] == '\r' {
      var t := line[..|line| - 1];
      SqueezeAppend(t, ['\r']);
      assert line == t + ['\r'];
    }
  }

  /** The pieces separated by `sep`. */
  function Join(pieces: seq<string>, sep: string): string {
    if pieces == [] then ""
    else if |pieces| == 1 then pieces[0]
    else pieces[0] + sep + Join(pieces[1..], sep)
  }

  /** The pieces one after the other with the separator between two of them, read from the end. */
  ghost function JoinedBy(pieces: seq<string>, sep: string): string {
    if pieces == [] then ""
    else
      var (init, last) := (pieces[..|pieces| - 1], pieces[|pieces| - 1]);
      if init == [] then last else JoinedBy(init, sep) + sep + last
  }

  lemma {:induction false} JoinSnoc(pieces: seq<string>, last: string, sep: string)
    requires pieces != []
    ensures Join(pieces + [last], sep) == Join(pieces, sep) + sep + last
  {
    var all := pieces + [last];
    if |pieces| == 1 {
      assert all[1..] == [last];
    } else {
      assert all[1..] == pieces[1..] + [last];
      JoinSnoc(pieces[1..], last, sep);
    }
  }

  lemma {:induction false} JoinMeans(pieces: seq<string>, sep: string)
    ensures Join(pieces, sep) == JoinedBy(pieces, sep)
  {
    if |pieces| > 1 {
      var (init, last) := (pieces[..|pieces| - 1], pieces[|pieces| - 1]);
      JoinMeans(init, sep);
      JoinSnoc(init, last, sep);
      assert pieces == init + [last];
    }
  }

  lemma {:induction false} SqueezeJoin(pieces: seq<string>)
    ensures Squeeze(Join(pieces, "\n")) == Squeeze(Flatten(pieces))
  {
    if |pieces| == 1 {
      assert pieces == [pieces[0]];
      FlattenOne(pieces[0]);
    } else if |pieces| > 1 {
      SqueezeJoin(pieces[1..]);
      SqueezeAppend(pieces[0] + "\n", Join(pieces[1..], "\n"));
      SqueezeAppend(pieces[0], "\n");
      SqueezeAppend(pieces[0], Flatten(pieces[1..]));
    }
  }

  // ---------------------------------------------------------------------
  // Parts of a text
  // ---------------------------------------------------------------------

  predicate StartsAt(s: string, part: string, i: nat)
    requires i <= |s|
  {
    part <= s[i..]
  }

  predicate Contains(s: string, part: string) {
    exists i :: 0 <= i <= |s| && StartsAt(s, part, i)
  }

  /** A text contains a part exactly when it is something, the part, and something else. */
  lemma ContainsMeans(s: string, part: string)
    ensures Contains(s, part) <==> exists i: nat :: i + |part| <= |s| && s == s[..i] + part + s[i + |part|..]
  {
    if Contains(s, part) {
      var i :| 0 <= i <= |s| && StartsAt(s, part, i);
      assert s[i..] == part + s[i..][|part|..];
      assert i + |part| <= |s| && s == s[..i] + part + s[i + |part|..];
    }
    if i: nat :| i + |part| <= |s| && s == s[..i] + part + s[i + |part|..] {
      ContainsMiddle(s[..i], part, s[i + |part|..]);
    }
  }

  lemma ContainsMiddle(before: string, part: string, after: string)
    ensures Contains(before + part + after, part)
  {
    assert (before + part + after)[|before|..] == part + after;
    assert StartsAt(before + part + after, part, |before|);
  }

  /** A part is never longer than the text. */
  lemma ContainsFits(s: string, part: string)
    requires Contains(s, part)
    ensures |part| <= |s|
  {
    var i :| 0 <= i <= |s| && StartsAt(s, part, i);
    assert |part| <= |s[i..]|;
  }

  lemma ContainsExtend(s: string, part: string, more: string)
    requires Contains(s, part)
    ensures Contains(s + more, part)
  {
    var i :| 0 <= i <= |s| && StartsAt(s, part, i);
    assert (s + more)[i..] == s[i..] + more;
    assert StartsAt(s + more, part, i);
  }
}
