/** The prompt builder: messages that only grow at the tail, pruned tool results, and deduplicated payloads. */
module Prompts {
  import opened Prelude
  import opened ChunkIds
  import opened Fingerprints
  import opened Texts

  const MIN_DEDUP_CHARS: nat := 256

  datatype Role = System | User | Assistant | SystemReminder

  datatype Message = Message(role: Role, content: string, ephemeral: bool)

  datatype RecallInjection = RecallInjection(
    tier: string, role: string, content: string, score: real, isCompacted: bool)

  datatype PromptConfig = PromptConfig(
    maxSystemPromptTokens: nat, maxInjectionsPerTurn: nat, maxInjectionTokensPerTurn: nat,
    contextBudgetPrune: bool, maxEphemeralKept: nat, maxToolOutputTokens: nat,
    contextWindow: Option<nat>, maxEffectiveContextTokens: Option<nat>, softNudgeRatio: real,
    contentHashDedup: bool, ephemeralPreviewChars: nat, stablePrefixMessages: nat)
  {
    /** What a turn makes of the earlier messages: pruned when pruning is on, otherwise untouched. */
    ghost predicate Retired(core: seq<Message>, kept: seq<Message>) {
      if contextBudgetPrune then Pruned(core, kept, maxEphemeralKept, ephemeralPreviewChars) else kept == core
    }

    ghost function NewlyPruned(core: seq<Message>): seq<string> {
      if contextBudgetPrune then Contents(core, Consumed(core, maxEphemeralKept)) else []
    }

    /** The message is no reminder, and pruning does not consume it. */
    ghost predicate KeptAt(messages: seq<Message>, j: nat)
      requires j < |messages|
    {
      && !messages[j].role.SystemReminder?
      && !(contextBudgetPrune && messages[j].ephemeral && EphemeralCount(Core(messages[j + 1..])) >= maxEphemeralKept)
    }

    ghost predicate AllKept(messages: seq<Message>, n: nat)
      requires n <= |messages|
    {
      forall j: nat {:trigger KeptAt(messages, j)} :: j < n ==> KeptAt(messages, j)
    }

    /**
      Each of the first `n` messages is kept. Where `n` reaches past all that is no reminder, the rest of them
      must reappear as the turn's own new messages `tail`.
     */
    ghost predicate Survives(before: seq<Message>, tail: seq<Message>, n: nat)
      requires n <= |before| && n <= |Core(before)| + |tail|
    {
      var stay := |Core(before)|;
      if n <= stay then AllKept(before, n)
      else stay <= |before| && AllKept(before, stay) && before[stay..n] == tail[..n - stay]
    }

    /** The first `n` messages are the same before and after a turn if and only if they survive it. */
    ghost predicate PrefixExact(before: seq<Message>, after: seq<Message>, tail: seq<Message>, n: nat)
      requires n <= |before| && n <= |after| <= |Core(before)| + |tail|
    {
      after[..n] == before[..n] <==> Survives(before, tail, n)
    }

    ghost predicate PrefixesExact(before: seq<Message>, after: seq<Message>, tail: seq<Message>) {
      && |after| == |Core(before)| + |tail|
      && forall n: nat {:trigger PrefixExact(before, after, tail, n)} ::
           n <= |before| && n <= |after| ==> PrefixExact(before, after, tail, n)
    }
  }

  /** Text operations that are not modelled further: UTF-8 encoding, token estimates, truncation, formatting. */
  datatype TextOps = TextOps(
    encode: string -> seq<Byte>, estimate: string -> nat, estimateSimple: string -> nat,
    truncate: (string, nat) -> string, truncateToolOutput: (string, nat) -> string,
    formatAsReminder: RecallInjection -> string)
  {
    function ReminderTokens(inj: RecallInjection): nat {
      estimate(formatAsReminder(inj))
    }

    function Tokens(): RecallInjection -> nat {
      (inj: RecallInjection) => ReminderTokens(inj)
    }
  }

  // ---------------------------------------------------------------------
  // Content dedup
  // ---------------------------------------------------------------------

  function HexDigits(n: nat, digits: nat): string {
    if digits == 0 then "" else HexDigits(n / 16, digits - 1) + ["0123456789abcdef"[n % 16]]
  }

  function DuplicateStub(hash: nat, omitted: nat): string {
    "[duplicate content hash=" + HexDigits(hash, 16) + "; already sent earlier this session; ~" + Decimal(omitted)
    + " tokens omitted]"
  }

  /** The number a string of lower-case hexadecimal digits stands for. */
  ghost function HexValue(digits: string): nat {
    if digits == "" then 0
    else
      var last := digits[|digits| - 1];
      16 * HexValue(digits[..|digits| - 1])
      + if '0' <= last <= '9' then last as int - '0' as int
        else if 'a' <= last <= 'f' then last as int - 'a' as int + 10
        else 0
  }

  ghost function SixteenTo(n: nat): nat {
    if n == 0 then 1 else 16 * SixteenTo(n - 1)
  }

  lemma HexDigitMeans(d: nat)
    requires d < 16
    ensures var c := "0123456789abcdef"[d];
            if d < 10 then c as int == '0' as int + d else c as int == 'a' as int + d - 10
  {
  }

  /** So many digits, which stand for the number if it fits. */
  lemma {:induction false} HexDigitsMean(n: nat, digits: nat)
    requires n < SixteenTo(digits)
    ensures |HexDigits(n, digits)| == digits && HexValue(HexDigits(n, digits)) == n
  {
    if digits > 0 {
      HexDigitsMean(n / 16, digits - 1);
      HexDigitMeans(n % 16);
      assert HexDigits(n, digits)[..digits - 1] == HexDigits(n / 16, digits - 1);
    }
  }

  /** A stub names the fingerprint it stands for and the tokens it saves. */
  lemma StubIdentifies(hash: nat, omitted: nat, hash': nat, omitted': nat)
    requires hash < SixteenTo(16) && hash' < SixteenTo(16)
    requires DuplicateStub(hash, omitted) == DuplicateStub(hash', omitted')
    ensures hash == hash' && omitted == omitted'
  {
    HexDigitsMean(hash, 16);
    HexDigitsMean(hash', 16);
    StubParts("[duplicate content hash=", HexDigits(hash, 16), "; already sent earlier this session; ~",
              Decimal(omitted), " tokens omitted]", HexDigits(hash', 16), Decimal(omitted'));
    DecimalInjective(omitted, omitted');
  }

  lemma StubParts(a: string, h: string, b: string, n: string, c: string, h': string, n': string)
    requires |h| == |h'| && a + h + b + n + c == a + h' + b + n' + c
    ensures h == h' && n == n'
  {
    assert a + h + b + n + c == a + (h + (b + (n + c))) && a + h' + b + n' + c == a + (h' + (b + (n' + c)));
    SplitEqual(a, h + (b + (n + c)), a, h' + (b + (n' + c)));
    SplitEqual(h, b + (n + c), h', b + (n' + c));
    SplitEqual(b, n + c, b, n' + c);
    assert |n + c| == |n' + c|;
    SplitEqual(n, c, n', c);
  }

  function Estimates(f: string -> nat, texts: seq<string>): nat {
    if texts == [] then 0 else Estimates(f, texts[..|texts| - 1]) + f(texts[|texts| - 1])
  }

  lemma EstimatesSnoc(f: string -> nat, texts: seq<string>, t: string)
    ensures Estimates(f, texts + [t]) == Estimates(f, texts) + f(t)
  {
    assert (texts + [t])[..|texts|] == texts;
  }

  lemma {:induction false} EstimatesAppend(f: string -> nat, a: seq<string>, b: seq<string>)
    ensures Estimates(f, a + b) == Estimates(f, a) + Estimates(f, b)
  {
    if b == [] {
      assert a + b == a;
    } else {
      var init := b[..|b| - 1];
      EstimatesAppend(f, a, init);
      assert (a + b)[..|a + b| - 1] == a + init;
    }
  }

  class ContentHashDeduper {
    const ops: TextOps
    var hashes: set<nat>
    var dedupCount: nat
    var tokensSaved: nat
    /** Payloads that went through unchanged, and payloads that were stubbed, in order. */
    ghost var passed: seq<string>
    ghost var omitted: seq<string>

    function Hash(content: string): nat {
      ContentFingerprintOf(ops.encode(content))
    }

    /** Some non-empty payload with this fingerprint went through. */
    ghost predicate Seen(h: nat)
      reads this
    {
      exists c :: c in passed && ops.encode(c) != [] && Hash(c) == h
    }

    ghost predicate Valid()
      reads this
    {
      && (forall h :: h in hashes <==> Seen(h))
      && dedupCount == |omitted|
      && tokensSaved == Estimates(ops.estimateSimple, omitted)
    }

    constructor (textOps: TextOps)
      ensures Valid() && ops == textOps && passed == [] && omitted == []
    {
      ops := textOps;
      hashes, dedupCount, tokensSaved := {}, 0, 0;
      passed, omitted := [], [];
    }

    /** A payload is stubbed exactly when it is long and an earlier one that passed has the same fingerprint. */
    method Admit(content: string) returns (out: string)
      requires Valid()
      modifies this
      ensures Valid()
      ensures |ops.encode(content)| >= MIN_DEDUP_CHARS && old(Seen(Hash(content))) ==>
                && out == DuplicateStub(Hash(content), ops.estimateSimple(content))
                && omitted == old(omitted) + [content] && passed == old(passed)
                && tokensSaved == old(tokensSaved) + ops.estimateSimple(content)
      ensures |ops.encode(content)| < MIN_DEDUP_CHARS || !old(Seen(Hash(content))) ==>
                && out == content && passed == old(passed) + [content] && omitted == old(omitted)
                && tokensSaved == old(tokensSaved)
    {
      var bytes := ops.encode(content);
      if |bytes| < MIN_DEDUP_CHARS {
        if bytes != [] {
          hashes := hashes + {Hash(content)};
        }
        passed := passed + [content];
        return content;
      }
      var hash := Hash(content);
      if hash in hashes {
        var tokens := ops.estimateSimple(content);
        dedupCount := dedupCount + 1;
        tokensSaved := tokensSaved + tokens;
        EstimatesSnoc(ops.estimateSimple, omitted, content);
        omitted := omitted + [content];
        return DuplicateStub(hash, tokens);
      }
      hashes := hashes + {hash};
      passed := passed + [content];
      return content;
    }
  }

  // ---------------------------------------------------------------------
  // Placeholders
  // ---------------------------------------------------------------------

  function ToLower(s: string): string {
    seq(|s|, i requires 0 <= i < |s| => if 'A' <= s[i] <= 'Z' then s[i] - 'A' + 'a' else s[i])
  }

  const SENSITIVE: seq<string> := [
    "://", "ghp_", "gho_", "ghu_", "ghs_", "sk-", "sk_", "xai-", "ak_", "eyj", "asak", "akia",
    "access_token", "api_key", "password"]

  predicate LooksSensitive(preview: string) {
    exists i :: 0 <= i < |SENSITIVE| && Contains(ToLower(preview), SENSITIVE[i])
  }

  /** An empty content stays empty; otherwise its length and, when allowed, its first characters remain. */
  function PlaceholderText(content: string, maxPreview: nat): string {
    if content == "" then ""
    else
      var start := Take(content, maxPreview);
      var preview := if maxPreview == 0 || LooksSensitive(start) then "" else "; preview: " + start + "\U{2026}";
      "[tool result omitted (context budget): ~" + Decimal(|content|) + " chars" + preview + "]"
  }

  /** Somewhere in the text, case aside, one of the markers of URLs, tokens and credentials begins. */
  ghost predicate Sensitive(text: string) {
    HasMarker(text, SENSITIVE)
  }

  ghost predicate HasMarker(text: string, markers: seq<string>) {
    exists marker, i: nat {:trigger MarkerAt(text, marker, i)} :: marker in markers && MarkerAt(text, marker, i)
  }

  ghost predicate MarkerAt(text: string, marker: string, i: nat) {
    i + |marker| <= |text| && SameLower(text[i..i + |marker|], marker)
  }

  /** The texts differ at most in that upper-case letters of the first are lower-case in the second. */
  ghost predicate SameLower(text: string, lower: string) {
    && |text| == |lower|
    && forall k :: 0 <= k < |text| ==>
         lower[k] as int == text[k] as int + if 'A' <= text[k] <= 'Z' then 32 else 0
  }

  lemma LowerPart(text: string, i: nat, marker: string)
    requires i + |marker| <= |text|
    ensures SameLower(text[i..i + |marker|], marker) <==> StartsAt(ToLower(text), marker, i)
  {
    var lower := ToLower(text);
    assert |lower[i..]| >= |marker|;
    if StartsAt(lower, marker, i) {
      assert forall k :: 0 <= k < |marker| ==> marker[k] == lower[i..][k] == lower[i + k];
    }
    if SameLower(text[i..i + |marker|], marker) {
      assert forall k :: 0 <= k < |marker| ==> marker[k] == lower[i + k] == lower[i..][k];
    }
  }

  lemma MarkersFound(text: string, markers: seq<string>)
    ensures (exists m :: 0 <= m < |markers| && Contains(ToLower(text), markers[m])) <==> HasMarker(text, markers)
  {
    if m :| 0 <= m < |markers| && Contains(ToLower(text), markers[m]) {
      var i :| 0 <= i <= |ToLower(text)| && StartsAt(ToLower(text), markers[m], i);
      LowerPart(text, i, markers[m]);
      assert markers[m] in markers && MarkerAt(text, markers[m], i);
    }
    if HasMarker(text, markers) {
      var marker, i: nat :| marker in markers && MarkerAt(text, marker, i);
      LowerPart(text, i, marker);
      var m :| 0 <= m < |markers| && markers[m] == marker;
      assert StartsAt(ToLower(text), markers[m], i);
    }
  }

  lemma LooksSensitiveMeans(text: string)
    ensures LooksSensitive(text) <==> Sensitive(text)
  {
    MarkersFound(text, SENSITIVE);
  }

  /**
    What is left of a tool result: nothing of an empty one, otherwise its length, and its first `maxPreview`
    characters or all of them, unless no preview is wanted or these characters are sensitive.
   */
  ghost function OmittedText(content: string, maxPreview: nat): string {
    var shown := if |content| <= maxPreview then content else content[..maxPreview];
    if content == "" then ""
    else if maxPreview == 0 || Sensitive(shown) then
      "[tool result omitted (context budget): ~" + Decimal(|content|) + " chars]"
    else
      "[tool result omitted (context budget): ~" + Decimal(|content|) + " chars; preview: " + shown + "\U{2026}]"
  }

  /** The message with what is left of its content; it is never pruned again. */
  ghost function Omitted(m: Message, maxPreview: nat): Message {
    Message(m.role, OmittedText(m.content, maxPreview), false)
  }

  lemma PlaceholderMeans(content: string, maxPreview: nat)
    ensures PlaceholderText(content, maxPreview) == OmittedText(content, maxPreview)
  {
    var shown := Take(content, maxPreview);
    var head := "[tool result omitted (context budget): ~" + Decimal(|content|);
    LooksSensitiveMeans(shown);
    assert head + " chars" + "" + "]" == head + " chars]";
    assert head + " chars" + ("; preview: " + shown + "\U{2026}") + "]"
        == head + " chars; preview: " + shown + "\U{2026}]";
  }

  /**
    Contents of equal length that agree in their first `maxPreview` characters, or whose first characters are both
    sensitive, have the same placeholder: it shows nothing else of them.
   */
  lemma PlaceholderShowsNoMore(a: string, b: string, maxPreview: nat)
    requires |a| == |b|
    requires var n := if |a| < maxPreview then |a| else maxPreview;
             a[..n] == b[..n] || (Sensitive(a[..n]) && Sensitive(b[..n]))
    ensures PlaceholderText(a, maxPreview) == PlaceholderText(b, maxPreview)
  {
    PlaceholderMeans(a, maxPreview);
    PlaceholderMeans(b, maxPreview);
    var n := if |a| < maxPreview then |a| else maxPreview;
    assert a[..|a|] == a && b[..|b|] == b;
    assert a == "" <==> b == "";
  }

  // ---------------------------------------------------------------------
  // How the conversation evolves
  // ---------------------------------------------------------------------

  /** The messages that stay from turn to turn. */
  function Core(messages: seq<Message>): seq<Message> {
    if messages == [] then []
    else
      Core(messages[..|messages| - 1])
      + (if messages[|messages| - 1].role.SystemReminder? then [] else [messages[|messages| - 1]])
  }

  lemma CoreSnoc(messages: seq<Message>, m: Message)
    ensures Core(messages + [m]) == Core(messages) + if m.role.SystemReminder? then [] else [m]
  {
    assert (messages + [m])[..|messages|] == messages;
  }

  lemma {:induction false} CoreOfPlain(messages: seq<Message>)
    requires forall i :: 0 <= i < |messages| ==> !messages[i].role.SystemReminder?
    ensures Core(messages) == messages
  {
    if messages != [] {
      CoreOfPlain(messages[..|messages| - 1]);
    }
  }

  lemma {:induction false} CoreIsPlain(messages: seq<Message>)
    ensures forall i :: 0 <= i < |Core(messages)| ==> !Core(messages)[i].role.SystemReminder?
  {
    if messages != [] {
      CoreIsPlain(messages[..|messages| - 1]);
    }
  }

  /** A message is unchanged, or an ephemeral one has become its placeholder. */
  ghost predicate Kept(before: Message, after: Message, maxPreview: nat) {
    after == before || (before.ephemeral && after == Omitted(before, maxPreview))
  }

  /** Nothing is removed or reordered; new messages come only at the tail. */
  ghost predicate Evolves(before: seq<Message>, after: seq<Message>, maxPreview: nat) {
    |before| <= |after| && forall i :: 0 <= i < |before| ==> Kept(before[i], after[i], maxPreview)
  }

  /** Over several operations too, each message is replaced at most once: a placeholder never changes again. */
  lemma EvolvesTransitive(a: seq<Message>, b: seq<Message>, c: seq<Message>, maxPreview: nat)
    requires Evolves(a, b, maxPreview) && Evolves(b, c, maxPreview)
    ensures Evolves(a, c, maxPreview)
    ensures forall i :: 0 <= i < |a| && b[i] != a[i] ==> c[i] == b[i]
  {
    forall i | 0 <= i < |a| ensures Kept(a[i], c[i], maxPreview) && (b[i] != a[i] ==> c[i] == b[i]) {
      assert Kept(a[i], b[i], maxPreview) && Kept(b[i], c[i], maxPreview);
    }
  }

  // ---------------------------------------------------------------------
  // Pruning
  // ---------------------------------------------------------------------

  ghost function EphemeralCount(messages: seq<Message>): nat {
    if messages == [] then 0
    else EphemeralCount(messages[1..]) + if messages[0].ephemeral then 1 else 0
  }

  /** How many ephemeral messages are newer than message `j`. */
  ghost function Newer(messages: seq<Message>, j: nat): nat
    requires j < |messages|
  {
    EphemeralCount(messages[j + 1..])
  }

  /** Exactly the ephemeral messages with at least `max` newer ones become placeholders. */
  ghost predicate Pruned(before: seq<Message>, after: seq<Message>, max: nat, maxPreview: nat) {
    && |after| == |before|
    && forall j {:trigger after[j]} :: 0 <= j < |before| ==>
         after[j] == if before[j].ephemeral && Newer(before, j) >= max then Omitted(before[j], maxPreview)
           else before[j]
  }

  /** Positions of ephemeral messages, in ascending order. */
  ghost predicate EphemeralPositions(messages: seq<Message>, r: seq<nat>) {
    && Ascending(r)
    && forall k :: 0 <= k < |r| ==> r[k] < |messages| && messages[r[k]].ephemeral
  }

  function EphemeralIndices(messages: seq<Message>): (r: seq<nat>)
    ensures EphemeralPositions(messages, r)
  {
    if messages == [] then []
    else
      EphemeralIndices(messages[..|messages| - 1])
      + if messages[|messages| - 1].ephemeral then [|messages| - 1] else []
  }

  lemma {:induction false} EphemeralCountSnoc(messages: seq<Message>, m: Message)
    ensures EphemeralCount(messages + [m]) == EphemeralCount(messages) + if m.ephemeral then 1 else 0
  {
    if messages == [] {
      assert [m][1..] == [];
    } else {
      assert (messages + [m])[1..] == messages[1..] + [m];
      EphemeralCountSnoc(messages[1..], m);
    }
  }

  /** Position `k` in the list of ephemeral messages leaves all later positions newer. */
  lemma {:induction false} NewerByIndex(messages: seq<Message>, k: nat)
    requires k < |EphemeralIndices(messages)|
    ensures Newer(messages, EphemeralIndices(messages)[k]) == |EphemeralIndices(messages)| - 1 - k
  {
    var init, last := messages[..|messages| - 1], messages[|messages| - 1];
    var at := EphemeralIndices(messages)[k];
    if k < |EphemeralIndices(init)| {
      NewerByIndex(init, k);
      assert messages[at + 1..] == init[at + 1..] + [last];
      EphemeralCountSnoc(init[at + 1..], last);
    } else {
      assert messages[at + 1..] == [];
    }
  }

  lemma {:induction false} EphemeralListed(messages: seq<Message>, j: nat)
    requires j < |messages| && messages[j].ephemeral
    ensures j in EphemeralIndices(messages)
  {
    if j < |messages| - 1 {
      EphemeralListed(messages[..|messages| - 1], j);
    }
  }

  function Excess(messages: seq<Message>, max: nat): nat {
    if |EphemeralIndices(messages)| <= max then 0 else |EphemeralIndices(messages)| - max
  }

  /** The positions that pruning replaces: all ephemeral ones but the newest `max`. */
  function Consumed(messages: seq<Message>, max: nat): seq<nat> {
    EphemeralIndices(messages)[..Excess(messages, max)]
  }

  function Contents(messages: seq<Message>, indices: seq<nat>): (r: seq<string>)
    requires forall k :: 0 <= k < |indices| ==> indices[k] < |messages|
    ensures |r| == |indices| && forall k :: 0 <= k < |r| ==> r[k] == messages[indices[k]].content
  {
    seq(|indices|, k requires 0 <= k < |indices| => messages[indices[k]].content)
  }

  /** A message is consumed exactly when it is ephemeral and has at least `max` newer ephemeral ones. */
  lemma ConsumedExactly(messages: seq<Message>, max: nat, j: nat)
    requires j < |messages|
    ensures j in Consumed(messages, max) <==> messages[j].ephemeral && Newer(messages, j) >= max
  {
    var all := EphemeralIndices(messages);
    if messages[j].ephemeral {
      EphemeralListed(messages, j);
      var k :| 0 <= k < |all| && all[k] == j;
      NewerByIndex(messages, k);
      if k < Excess(messages, max) {
        assert Consumed(messages, max)[k] == j;
      }
      if j in Consumed(messages, max) {
        var m :| 0 <= m < |Consumed(messages, max)| && Consumed(messages, max)[m] == j;
        assert m == k;
      }
    }
  }

  lemma PrunedByIndices(before: seq<Message>, after: seq<Message>, max: nat, maxPreview: nat)
    requires |after| == |before|
    requires forall j :: 0 <= j < |before| ==>
               after[j] == if j in Consumed(before, max) then Omitted(before[j], maxPreview) else before[j]
    ensures Pruned(before, after, max, maxPreview)
  {
    forall j | 0 <= j < |before|
      ensures after[j] == if before[j].ephemeral && Newer(before, j) >= max then Omitted(before[j], maxPreview)
                          else before[j]
    {
      ConsumedExactly(before, max, j);
    }
  }

  /** After pruning the ephemeral messages left are the newest ones, at most `max` of them. */
  lemma NewestStay(before: seq<Message>, after: seq<Message>, max: nat, maxPreview: nat)
    requires Pruned(before, after, max, maxPreview)
    ensures EphemeralIndices(after) == EphemeralIndices(before)[Excess(before, max)..]
    ensures |EphemeralIndices(after)| <= max
  {
    var left := EphemeralIndices(before)[Excess(before, max)..];
    forall j: nat | j < |after| ensures after[j].ephemeral <==> j in left {
      ConsumedExactly(before, max, j);
      if before[j].ephemeral {
        EphemeralListed(before, j);
      }
      assert EphemeralIndices(before) == Consumed(before, max) + left;
      Disjoint(EphemeralIndices(before), Excess(before, max), j);
    }
    ListingUnique(after, left);
  }

  lemma Disjoint(all: seq<nat>, k: nat, j: nat)
    requires k <= |all| && forall a, b :: 0 <= a < b < |all| ==> all[a] < all[b]
    ensures !(j in all[..k] && j in all[k..])
  {
  }

  /** An ascending list of exactly the ephemeral positions is the list of ephemeral positions. */
  lemma ListingUnique(messages: seq<Message>, r: seq<nat>)
    requires Ascending(r)
    requires forall k :: 0 <= k < |r| ==> r[k] < |messages|
    requires forall j: nat :: j < |messages| ==> (messages[j].ephemeral <==> j in r)
    ensures r == EphemeralIndices(messages)
  {
    forall j: nat ensures j in r <==> j in EphemeralIndices(messages) {
      if j < |messages| && messages[j].ephemeral {
        EphemeralListed(messages, j);
      }
    }
    AscendingUnique(r, EphemeralIndices(messages));
  }

  // ---------------------------------------------------------------------
  // The messages in front
  // ---------------------------------------------------------------------

  lemma {:induction false} CoreSplit(a: seq<Message>, b: seq<Message>)
    ensures Core(a + b) == Core(a) + Core(b)
    decreases |b|
  {
    if b == [] {
      assert a + b == a;
    } else {
      var init, m := b[..|b| - 1], b[|b| - 1];
      CoreSplit(a, init);
      CoreSnoc(a + init, m);
      CoreSnoc(init, m);
      assert b == init + [m];
      assert a + b == (a + init) + [m];
      Regroup(Core(a), Core(init), if m.role.SystemReminder? then [] else [m]);
    }
  }

  lemma Regroup<T>(a: seq<T>, b: seq<T>, c: seq<T>)
    ensures a + (b + c) == (a + b) + c
  {
  }

  /** In front of the first reminder, stripping changes neither a message nor what comes after it. */
  lemma CoreInFront(messages: seq<Message>, j: nat)
    requires j < |messages| && forall i :: 0 <= i <= j ==> !messages[i].role.SystemReminder?
    ensures j < |Core(messages)| && Core(messages)[j] == messages[j]
    ensures Core(messages)[j + 1..] == Core(messages[j + 1..])
  {
    var front, rest := messages[..j + 1], messages[j + 1..];
    assert messages == front + rest;
    CoreSplit(front, rest);
    CoreOfPlain(front);
  }

  /** In front of the first reminder, a message survives the turn in its place exactly when it is kept. */
  lemma FrontStays(c: PromptConfig, before: seq<Message>, kept: seq<Message>, j: nat)
    requires c.Retired(Core(before), kept)
    requires j < |before| && forall i :: 0 <= i <= j ==> !before[i].role.SystemReminder?
    ensures j < |kept| && (kept[j] == before[j] <==> c.KeptAt(before, j))
  {
    CoreInFront(before, j);
  }

  lemma RetiredPlain(c: PromptConfig, before: seq<Message>, kept: seq<Message>)
    requires c.Retired(Core(before), kept)
    ensures |kept| == |Core(before)| <= |before|
    ensures forall i :: 0 <= i < |kept| ==> !kept[i].role.SystemReminder?
  {
    CoreIsPlain(before);
    CoreShorter(before);
    forall i | 0 <= i < |kept| ensures !kept[i].role.SystemReminder? {
      assert kept[i].role == Core(before)[i].role;
    }
  }

  lemma SamePrefixKept(c: PromptConfig, before: seq<Message>, kept: seq<Message>, m: nat)
    requires c.Retired(Core(before), kept) && m <= |before| && m <= |kept| && kept[..m] == before[..m]
    ensures c.AllKept(before, m)
  {
    RetiredPlain(c, before, kept);
    forall j: nat | j < m ensures !before[j].role.SystemReminder? && kept[j] == before[j] {
      assert kept[..m][j] == before[..m][j];
    }
    forall j: nat | j < m ensures c.KeptAt(before, j) {
      FrontStays(c, before, kept, j);
    }
  }

  lemma AllKeptPlain(c: PromptConfig, before: seq<Message>, m: nat)
    requires m <= |before| && c.AllKept(before, m)
    ensures forall i :: 0 <= i < m ==> !before[i].role.SystemReminder?
  {
    forall j: nat | j < m ensures !before[j].role.SystemReminder? {
      assert c.KeptAt(before, j);
    }
  }

  lemma KeptSame(c: PromptConfig, before: seq<Message>, kept: seq<Message>, m: nat, j: nat)
    requires c.Retired(Core(before), kept) && j < m <= |before| && c.AllKept(before, m)
    ensures j < |kept| && kept[j] == before[j]
  {
    AllKeptPlain(c, before, m);
    FrontStays(c, before, kept, j);
  }

  lemma {:induction false} KeptPrefixSame(c: PromptConfig, before: seq<Message>, kept: seq<Message>, m: nat)
    requires c.Retired(Core(before), kept) && m <= |before| && m <= |kept| && c.AllKept(before, m)
    ensures kept[..m] == before[..m]
  {
    if m > 0 {
      assert c.AllKept(before, m - 1);
      KeptPrefixSame(c, before, kept, m - 1);
      KeptSame(c, before, kept, m, m - 1);
      assert kept[..m] == kept[..m - 1] + [kept[m - 1]];
      assert before[..m] == before[..m - 1] + [before[m - 1]];
    }
  }

  lemma PrefixOfTurn(c: PromptConfig, before: seq<Message>, kept: seq<Message>, tail: seq<Message>, n: nat)
    requires c.Retired(Core(before), kept) && |kept| == |Core(before)| <= |before|
    requires n <= |before| && n <= |kept + tail|
    ensures c.PrefixExact(before, kept + tail, tail, n)
  {
    var stay := |kept|;
    if n <= stay {
      assert (kept + tail)[..n] == kept[..n];
      if kept[..n] == before[..n] {
        SamePrefixKept(c, before, kept, n);
      } else if c.AllKept(before, n) {
        KeptPrefixSame(c, before, kept, n);
      }
    } else {
      assert (kept + tail)[..n] == kept[..stay] + tail[..n - stay];
      assert before[..n] == before[..stay] + before[stay..n];
      SplitEqual(kept[..stay], tail[..n - stay], before[..stay], before[stay..n]);
      if kept[..stay] == before[..stay] {
        SamePrefixKept(c, before, kept, stay);
      } else if c.AllKept(before, stay) {
        KeptPrefixSame(c, before, kept, stay);
      }
    }
  }

  lemma SplitEqual<T>(a: seq<T>, b: seq<T>, x: seq<T>, y: seq<T>)
    requires |a| == |x|
    ensures a + b == x + y <==> a == x && b == y
  {
    if a + b == x + y {
      assert a == (a + b)[..|a|] && b == (a + b)[|a|..];
      assert x == (x + y)[..|a|] && y == (x + y)[|a|..];
    }
  }

  /** For every length, a prefix of the conversation survives the turn exactly when all of it is kept. */
  lemma PrefixesOfTurn(c: PromptConfig, before: seq<Message>, kept: seq<Message>, tail: seq<Message>)
    requires c.Retired(Core(before), kept)
    ensures c.PrefixesExact(before, kept + tail, tail)
  {
    RetiredPlain(c, before, kept);
    forall n: nat | n <= |before| && n <= |kept + tail| ensures c.PrefixExact(before, kept + tail, tail, n) {
      PrefixOfTurn(c, before, kept, tail, n);
    }
  }

  /** The messages in front of the conversation that stay put unless they are rewritten. */
  function StablePrefix(messages: seq<Message>, count: nat): seq<Message> {
    var start := if messages != [] && messages[0].role == System then 1 else 0;
    var end := if start + count < |messages| then start + count else |messages|;
    messages[start..end]
  }

  // ---------------------------------------------------------------------
  // Injections
  // ---------------------------------------------------------------------

  const SOFT_EFFICIENCY_NUDGE: string :=
    "[context efficiency] Estimated context is past the soft working range. Prefer "
    + "concise tool outputs, avoid re-reading large files already seen this session, "
    + "and keep replies tight. Auto-compact may fire later if usage keeps rising \U{2014} "
    + "this is an efficiency signal, not an overflow alarm."

  predicate ShouldSoftEfficiencyNudge(softRatio: real, currentTokens: nat, effectiveWindow: nat) {
    && softRatio > 0.0 && effectiveWindow > 0
    && softRatio < currentTokens as real / effectiveWindow as real <= 0.8
  }

  function EffectiveWindow(window: nat, cap: Option<nat>): nat {
    if cap.Some? && 0 < cap.value < window then cap.value else window
  }

  /**
    The tokens are past the soft ratio of the context window, or of the smaller cap on it, and at most at four fifths.
   */
  ghost predicate NudgeDue(c: PromptConfig, tokens: nat) {
    && c.contextWindow.Some? && c.contextWindow.value > 0
    && c.softNudgeRatio > 0.0
    && var cap := c.maxEffectiveContextTokens;
       var window := if cap.Some? && 0 < cap.value < c.contextWindow.value then cap.value else c.contextWindow.value;
       c.softNudgeRatio * window as real < tokens as real && 5 * tokens <= 4 * window
  }

  lemma RatioBand(softRatio: real, tokens: nat, window: nat)
    requires window > 0
    ensures softRatio < tokens as real / window as real <= 0.8 <==>
              softRatio * window as real < tokens as real && 5 * tokens <= 4 * window
  {
    var x, w, r := tokens as real, window as real, tokens as real / window as real;
    assert r * w == x;
    if softRatio < r {
      assert (r - softRatio) * w > 0.0;
    } else {
      assert (softRatio - r) * w >= 0.0;
    }
    if r <= 0.8 {
      assert (0.8 - r) * w >= 0.0;
    } else {
      assert (r - 0.8) * w > 0.0;
    }
    assert 5 * tokens <= 4 * window <==> x <= 0.8 * w;
  }

  function Reminder(content: string): Message {
    Message(SystemReminder, content, false)
  }

  /** Tokens of all messages by the estimate of their contents. */
  ghost function TokensOf(estimate: string -> nat, messages: seq<Message>): nat {
    if messages == [] then 0
    else TokensOf(estimate, messages[..|messages| - 1]) + estimate(messages[|messages| - 1].content)
  }

  lemma {:induction false} TokensAreEstimates(estimate: string -> nat, messages: seq<Message>)
    ensures Estimates(estimate, Contents(messages, Indices(|messages|))) == TokensOf(estimate, messages)
  {
    if messages != [] {
      var init, last := messages[..|messages| - 1], messages[|messages| - 1];
      TokensAreEstimates(estimate, init);
      var texts, all := Contents(init, Indices(|init|)), Contents(messages, Indices(|messages|));
      assert all == texts + [last.content];
      EstimatesSnoc(estimate, texts, last.content);
    }
  }

  /** What a turn appends: a reminder for each injection, the nudge if it is due, and the user's message. */
  ghost function TurnTail(ops: TextOps, capped: seq<RecallInjection>, nudged: bool, userInput: string): seq<Message> {
    seq(|capped|, i requires 0 <= i < |capped| => Message(SystemReminder, ops.formatAsReminder(capped[i]), false))
    + (if nudged then [Message(SystemReminder, SOFT_EFFICIENCY_NUDGE, false)] else [])
    + [Message(User, userInput, false)]
  }

  // ---------------------------------------------------------------------
  // The prompt
  // ---------------------------------------------------------------------

  class AgentPrompt {
    const config: PromptConfig
    const ops: TextOps
    const deduper: ContentHashDeduper
    var messages: seq<Message>
    var turn: nat
    var tokensSaved: nat
    var pruneCount: nat
    /** The statistics' own counter of saved tokens. */
    var statsTokensSaved: nat
    /** The contents replaced by placeholders, in order. */
    ghost var prunedContents: seq<string>

    ghost predicate Valid()
      reads this, deduper
    {
      && deduper.Valid() && deduper.ops == ops
      && tokensSaved == statsTokensSaved
      && tokensSaved == Estimates(ops.estimate, prunedContents) + Estimates(ops.estimateSimple, deduper.omitted)
    }

    constructor (promptConfig: PromptConfig, textOps: TextOps)
      ensures Valid() && fresh(deduper) && config == promptConfig && ops == textOps && messages == []
    {
      config, ops := promptConfig, textOps;
      messages, turn, tokensSaved, pruneCount, statsTokensSaved := [], 0, 0, 0, 0;
      prunedContents := [];
      deduper := new ContentHashDeduper(textOps);
    }

    /** Puts the (truncated) prompt first and removes any earlier system message. */
    method SetSystemPrompt(prompt: string)
      requires Valid()
      modifies this`messages
      ensures Valid()
      ensures messages != [] && messages[0].role == System && !messages[0].ephemeral
      ensures forall i :: 0 < i < |messages| ==> messages[i].role != System
      ensures OthersKept(old(messages), messages[1..])
      ensures messages[0].content == if ops.estimate(prompt) > config.maxSystemPromptTokens
                                     then ops.truncate(prompt, config.maxSystemPromptTokens) else prompt
    {
      var truncated := if ops.estimate(prompt) > config.maxSystemPromptTokens
                       then ops.truncate(prompt, config.maxSystemPromptTokens) else prompt;
      WithoutSystemIs(messages);
      WithoutSystemKeeps(messages);
      messages := [Message(System, truncated, false)] + WithoutSystem(messages);
    }

    /** Keeps at most the configured number of injections, skipping those the token budget no longer covers. */
    method CapInjections(injections: seq<RecallInjection>) returns (capped: seq<RecallInjection>)
      ensures capped ==
                Fitting(ops.Tokens(), Take(injections, config.maxInjectionsPerTurn), config.maxInjectionTokensPerTurn)
      ensures |capped| <= config.maxInjectionsPerTurn
      ensures TotalCost(ops.Tokens(), capped) <= config.maxInjectionTokensPerTurn
    {
      capped := [];
      var budget := config.maxInjectionTokensPerTurn;
      var considered := Take(injections, config.maxInjectionsPerTurn);
      for i := 0 to |considered|
        invariant capped + Fitting(ops.Tokens(), considered[i..], budget)
               == Fitting(ops.Tokens(), considered, config.maxInjectionTokensPerTurn)
      {
        var tokens := ops.estimate(ops.formatAsReminder(considered[i]));
        assert ops.Tokens()(considered[i]) == tokens;
        assert considered[i..][1..] == considered[i + 1..];
        if tokens <= budget {
          FittingStep(capped, considered[i], Fitting(ops.Tokens(), considered[i + 1..], budget - tokens));
          budget := budget - tokens;
          capped := capped + [considered[i]];
        }
      }
      FittingWithinBudget(ops.Tokens(), considered, config.maxInjectionTokensPerTurn);
    }

    /** Whether this turn carries the soft efficiency reminder. */
    function SoftNudge(current: nat): bool {
      && config.contextWindow.Some? && config.contextWindow.value > 0
      && ShouldSoftEfficiencyNudge(config.softNudgeRatio, current,
                                   EffectiveWindow(config.contextWindow.value, config.maxEffectiveContextTokens))
    }

    lemma SoftNudgeMeans(current: nat)
      ensures SoftNudge(current) <==> NudgeDue(config, current)
    {
      if config.contextWindow.Some? && config.contextWindow.value > 0 {
        RatioBand(config.softNudgeRatio, current,
                  EffectiveWindow(config.contextWindow.value, config.maxEffectiveContextTokens));
      }
    }

    function TotalTokens(list: seq<Message>): nat {
      Estimates(ops.estimate, Contents(list, Indices(|list|)))
    }

    /**
      Strips old reminders, prunes consumed tool results, adds fresh reminders and the user's message.
      `kept` is what remains of the earlier messages.
     */
    method BeginTurn(userInput: string, injections: seq<RecallInjection>)
        returns (ghost kept: seq<Message>, ghost capped: seq<RecallInjection>, ghost nudged: bool)
      requires Valid()
      modifies this
      ensures Valid() && turn == old(turn) + 1
      ensures config.Retired(Core(old(messages)), kept)
      ensures prunedContents == old(prunedContents) + config.NewlyPruned(Core(old(messages)))
      ensures messages == kept + TurnTail(ops, capped, nudged, userInput)
      ensures capped ==
                Fitting(ops.Tokens(), Take(injections, config.maxInjectionsPerTurn), config.maxInjectionTokensPerTurn)
      ensures |capped| <= config.maxInjectionsPerTurn
                && TotalCost(ops.Tokens(), capped) <= config.maxInjectionTokensPerTurn
      ensures nudged <==> NudgeDue(config, TokensOf(ops.estimate, Core(old(messages))))
      ensures Core(messages) == kept + [Message(User, userInput, false)]
      ensures Evolves(Core(old(messages)), Core(messages), config.ephemeralPreviewChars)
      ensures config.PrefixesExact(old(messages), messages, TurnTail(ops, capped, nudged, userInput))
    {
      turn := turn + 1;
      var pending := StripAndPrune();
      kept := messages;
      var chosen := CapInjections(injections);
      capped, nudged := chosen, pending;
      AppendTurn(old(messages), chosen, pending, userInput);
    }

    /** The turn's new messages: reminders, the nudge, and the user's message. */
    method AppendTurn(ghost before: seq<Message>, chosen: seq<RecallInjection>, pending: bool, userInput: string)
      requires Valid() && config.Retired(Core(before), messages)
      modifies this`messages
      ensures Valid()
      ensures messages == old(messages) + TurnTail(ops, chosen, pending, userInput)
      ensures Core(messages) == old(messages) + [Message(User, userInput, false)]
      ensures Evolves(Core(before), Core(messages), config.ephemeralPreviewChars)
      ensures config.PrefixesExact(before, messages, TurnTail(ops, chosen, pending, userInput))
    {
      EndOfTurn(config, before, messages, Reminders(chosen), Nudge(pending), Message(User, userInput, false));
      var tail := Reminders(chosen) + Nudge(pending) + [Message(User, userInput, false)];
      assert tail == TurnTail(ops, chosen, pending, userInput);
      messages := messages + tail;
    }

    /** Drops stale reminders, looks at the usage that is left, and then prunes. */
    method StripAndPrune() returns (pending: bool)
      requires Valid()
      modifies this`messages, this`tokensSaved, this`statsTokensSaved, this`pruneCount, this`prunedContents
      ensures Valid()
      ensures config.Retired(Core(old(messages)), messages)
      ensures prunedContents == old(prunedContents) + config.NewlyPruned(Core(old(messages)))
      ensures pending <==> NudgeDue(config, TokensOf(ops.estimate, Core(old(messages))))
    {
      messages := Core(messages);
      TokensAreEstimates(ops.estimate, messages);
      SoftNudgeMeans(TotalTokens(messages));
      pending := SoftNudge(TotalTokens(messages));
      if config.contextBudgetPrune {
        PruneConsumedEphemera();
      } else {
        assert prunedContents == old(prunedContents) + [];
      }
    }

    function Nudge(pending: bool): seq<Message> {
      if pending then [Reminder(SOFT_EFFICIENCY_NUDGE)] else []
    }

    function Reminders(capped: seq<RecallInjection>): seq<Message> {
      seq(|capped|, i requires 0 <= i < |capped| => Reminder(ops.formatAsReminder(capped[i])))
    }

    /** Replaces all but the newest ephemeral messages, counting the tokens of what was replaced. */
    method PruneConsumedEphemera()
      requires Valid()
      modifies this`messages, this`tokensSaved, this`statsTokensSaved, this`pruneCount, this`prunedContents
      ensures Valid()
      ensures Pruned(old(messages), messages, config.maxEphemeralKept, config.ephemeralPreviewChars)
      ensures prunedContents == old(prunedContents)
                + Contents(old(messages), Consumed(old(messages), config.maxEphemeralKept))
    {
      var maxKept := config.maxEphemeralKept;
      var indices := EphemeralIndices(messages);
      ghost var before, pruned := messages, prunedContents;
      if maxKept == 0 {
        assert indices == Consumed(before, 0);
        var saved := PlaceholderAll(indices);
        if saved > 0 {
          tokensSaved := tokensSaved + saved;
          statsTokensSaved := statsTokensSaved + saved;
          pruneCount := pruneCount + 1;
        }
        PrunedByIndices(before, messages, 0, config.ephemeralPreviewChars);
        EstimatesAppend(ops.estimate, pruned, Contents(before, indices));
        return;
      }
      if |indices| <= maxKept {
        assert Contents(before, Consumed(before, maxKept)) == [];
        PrunedByIndices(before, messages, maxKept, config.ephemeralPreviewChars);
        return;
      }
      var consumed := indices[..|indices| - maxKept];
      assert consumed == Consumed(before, maxKept);
      var saved := PlaceholderAll(consumed);
      tokensSaved := tokensSaved + saved;
      statsTokensSaved := statsTokensSaved + saved;
      pruneCount := pruneCount + 1;
      PrunedByIndices(before, messages, maxKept, config.ephemeralPreviewChars);
      EstimatesAppend(ops.estimate, pruned, Contents(before, consumed));
    }

    method PlaceholderAll(indices: seq<nat>) returns (saved: nat)
      requires forall k :: 0 <= k < |indices| ==> indices[k] < |messages|
      requires forall j, k :: 0 <= j < k < |indices| ==> indices[j] < indices[k]
      modifies this`messages, this`prunedContents
      ensures |messages| == |old(messages)|
      ensures forall j :: 0 <= j < |messages| ==>
                messages[j] == if j in indices then Omitted(old(messages)[j], config.ephemeralPreviewChars)
                               else old(messages)[j]
      ensures saved == Estimates(ops.estimate, Contents(old(messages), indices))
      ensures prunedContents == old(prunedContents) + Contents(old(messages), indices)
    {
      saved := Estimates(ops.estimate, Contents(messages, indices));
      prunedContents := prunedContents + Contents(messages, indices);
      for k := 0 to |indices|
        invariant |messages| == |old(messages)|
        invariant prunedContents == old(prunedContents) + Contents(old(messages), indices)
        invariant forall j :: 0 <= j < |messages| ==>
                    messages[j] == if j in indices[..k] then Omitted(old(messages)[j], config.ephemeralPreviewChars)
                                   else old(messages)[j]
      {
        assert indices[k] !in indices[..k];
        assert indices[..k + 1] == indices[..k] + [indices[k]];
        PlaceholderMessage(indices[k]);
      }
      assert indices[..|indices|] == indices;
    }

    method PlaceholderMessage(i: nat)
      requires i < |messages|
      modifies this`messages
      ensures messages == old(messages)[i := Omitted(old(messages)[i], config.ephemeralPreviewChars)]
    {
      PlaceholderMeans(messages[i].content, config.ephemeralPreviewChars);
      var text := PlaceholderText(messages[i].content, config.ephemeralPreviewChars);
      messages := messages[i := messages[i].(content := text, ephemeral := false)];
    }

    /** Appends a tool result, or a stub when the same payload was sent before. Nothing else changes. */
    method RecordToolResult(content: string)
      requires Valid()
      modifies this, deduper
      ensures Valid()
      ensures |messages| == |old(messages)| + 1 && messages[..|old(messages)|] == old(messages)
      ensures messages[|old(messages)|].ephemeral && messages[|old(messages)|].role == Assistant
      ensures Evolves(Core(old(messages)), Core(messages), config.ephemeralPreviewChars)
      ensures prunedContents == old(prunedContents)
      ensures var sent := ops.truncateToolOutput(content, config.maxToolOutputTokens);
              messages[|old(messages)|].content ==
                if old(Duplicate(sent)) then DuplicateStub(deduper.Hash(sent), ops.estimateSimple(sent)) else sent
    {
      var truncated := ops.truncateToolOutput(content, config.maxToolOutputTokens);
      var final := ApplyContentDedup(truncated);
      AppendEvolves(messages, Message(Assistant, final, true), config.ephemeralPreviewChars);
      messages := messages + [Message(Assistant, final, true)];
    }

    /** Dedup is on, the payload is long, and an earlier one that went through has its fingerprint. */
    ghost predicate Duplicate(content: string)
      reads deduper
    {
      config.contentHashDedup && |ops.encode(content)| >= MIN_DEDUP_CHARS && deduper.Seen(deduper.Hash(content))
    }

    method ApplyContentDedup(content: string) returns (out: string)
      requires Valid()
      modifies this`tokensSaved, this`statsTokensSaved, deduper
      ensures Valid()
      ensures out == if old(Duplicate(content)) then DuplicateStub(deduper.Hash(content), ops.estimateSimple(content))
                else content
      ensures tokensSaved == old(tokensSaved) + if old(Duplicate(content)) then ops.estimateSimple(content) else 0
    {
      if !config.contentHashDedup {
        return content;
      }
      ghost var duplicate := Duplicate(content);
      var beforeSaved := deduper.tokensSaved;
      out := deduper.Admit(content);
      assert deduper.tokensSaved == beforeSaved + if duplicate then ops.estimateSimple(content) else 0;
      var gained := if deduper.tokensSaved < beforeSaved then 0 else deduper.tokensSaved - beforeSaved;
      if gained > 0 {
        tokensSaved := tokensSaved + gained;
        statsTokensSaved := statsTokensSaved + gained;
      }
    }

    method RecordResponse(response: string)
      requires Valid()
      modifies this`messages
      ensures Valid()
      ensures messages == old(messages) + [Message(Assistant, response, false)]
      ensures Evolves(Core(old(messages)), Core(messages), config.ephemeralPreviewChars)
    {
      AppendEvolves(messages, Message(Assistant, response, false), config.ephemeralPreviewChars);
      messages := messages + [Message(Assistant, response, false)];
    }
  }

  lemma AppendEvolves(messages: seq<Message>, m: Message, maxPreview: nat)
    requires !m.role.SystemReminder?
    ensures Evolves(Core(messages), Core(messages + [m]), maxPreview)
  {
    CoreSnoc(messages, m);
  }

  lemma {:induction false} CoreShorter(messages: seq<Message>)
    ensures |Core(messages)| <= |messages|
  {
    if messages != [] {
      CoreShorter(messages[..|messages| - 1]);
    }
  }

  lemma OneFits(cost: RecallInjection -> nat, inj: RecallInjection, budget: nat)
    requires cost(inj) <= budget
    ensures Fitting(cost, [inj], budget) == [inj]
  {
    assert [inj][1..] == [];
  }

  /** A reminder right after the first message is gone, or elsewhere, after the next turn. */
  lemma ReminderMoves(c: PromptConfig, before: seq<Message>, after: seq<Message>, tail: seq<Message>)
    requires |before| >= 2 && |Core(before)| >= 2 && c.PrefixesExact(before, after, tail)
    requires !before[0].role.SystemReminder? && !before[0].ephemeral && before[1].role.SystemReminder?
    ensures after[0] == before[0] && after[1] != before[1]
  {
    assert c.PrefixExact(before, after, tail, 1) && c.PrefixExact(before, after, tail, 2);
    assert c.KeptAt(before, 0) && !c.KeptAt(before, 1);
    assert after[..1] == before[..1] && after[..2] != before[..2];
    assert after[..1][0] == before[..1][0];
  }

  lemma PrefixesDiffer(before: seq<Message>, after: seq<Message>, count: nat)
    requires |before| >= 2 && |after| >= 2 && count > 0
    requires before[0] == after[0] && before[0].role == System && before[1] != after[1]
    ensures StablePrefix(before, count) != StablePrefix(after, count)
  {
    assert StablePrefix(before, count)[0] == before[1];
    assert StablePrefix(after, count)[0] == after[1];
  }

  function Shorter(m: nat, n: nat): nat {
    if m < n then m else n
  }

  /** Behind the same system prompt, stable prefixes are equal when they end at the same place and agree up to it. */
  lemma StableByPrefix(before: seq<Message>, after: seq<Message>, count: nat)
    requires before != [] && after != [] && before[0] == after[0] && before[0].role == System
    ensures var n := Shorter(1 + count, |before|);
            StablePrefix(after, count) == StablePrefix(before, count) <==>
              n == Shorter(1 + count, |after|) && after[..n] == before[..n]
  {
    var n, m := Shorter(1 + count, |before|), Shorter(1 + count, |after|);
    assert StablePrefix(before, count) == before[1..n];
    assert StablePrefix(after, count) == after[1..m];
    if n == m {
      assert after[..n] == [after[0]] + after[1..n] && before[..n] == [before[0]] + before[1..n];
      SplitEqual([after[0]], after[1..n], [before[0]], before[1..n]);
    }
  }

  /**
    Behind a system prompt, the stable prefix survives a turn exactly when it ends at the same place and holds no
    reminder and no message that pruning consumes. Where the conversation has fewer lasting messages than the prefix,
    the place moves with the conversation's length, and the rest must reappear as new messages of the turn.
   */
  lemma StablePrefixExact(c: PromptConfig, before: seq<Message>, after: seq<Message>, tail: seq<Message>)
    requires c.PrefixesExact(before, after, tail)
    requires before != [] && before[0].role == System && !before[0].ephemeral
    ensures var n := Shorter(1 + c.stablePrefixMessages, |before|);
            StablePrefix(after, c.stablePrefixMessages) == StablePrefix(before, c.stablePrefixMessages) <==>
              n == Shorter(1 + c.stablePrefixMessages, |after|) && c.Survives(before, tail, n)
  {
    SystemStays(c, before, after, tail);
    StableByPrefix(before, after, c.stablePrefixMessages);
    var n := Shorter(1 + c.stablePrefixMessages, |before|);
    if n <= |after| {
      assert c.PrefixExact(before, after, tail, n);
    }
  }

  lemma SystemStays(c: PromptConfig, before: seq<Message>, after: seq<Message>, tail: seq<Message>)
    requires c.PrefixesExact(before, after, tail)
    requires before != [] && before[0].role == System && !before[0].ephemeral
    ensures after != [] && after[0] == before[0]
  {
    CoreInFront(before, 0);
    assert c.PrefixExact(before, after, tail, 1);
    assert c.KeptAt(before, 0) && c.AllKept(before, 1);
    assert after[0] == after[..1][0] == before[..1][0];
  }

  /**
    A prompt whose stable prefix the second turn rewrites: the first turn's reminder stands right after
    the system prompt, and the second turn strips it.
   */
  method ReminderInPrefix(config: PromptConfig, ops: TextOps, inj: RecallInjection)
      returns (before: seq<Message>, after: seq<Message>)
    requires config.stablePrefixMessages > 0 && config.maxInjectionsPerTurn > 0
    requires ops.ReminderTokens(inj) <= config.maxInjectionTokensPerTurn
    ensures StablePrefix(before, config.stablePrefixMessages) != StablePrefix(after, config.stablePrefixMessages)
  {
    var p := new AgentPrompt(config, ops);
    before := OpeningTurn(p, inj);
    var kept, capped, nudged := p.BeginTurn("second", []);
    after := p.messages;
    ReminderMoves(config, before, after, TurnTail(ops, capped, nudged, "second"));
    PrefixesDiffer(before, after, config.stablePrefixMessages);
  }

  method OpeningTurn(p: AgentPrompt, inj: RecallInjection) returns (sent: seq<Message>)
    requires p.Valid() && p.messages == [] && p.config.maxInjectionsPerTurn > 0
    requires p.ops.ReminderTokens(inj) <= p.config.maxInjectionTokensPerTurn
    modifies p
    ensures p.Valid() && p.messages == sent && |sent| >= 2 && |Core(sent)| >= 2
    ensures sent[0].role == System && !sent[0].ephemeral && sent[1].role.SystemReminder?
  {
    p.SetSystemPrompt("system");
    ghost var system := p.messages[0];
    assert p.messages == [system];
    CoreOfPlain(p.messages);
    OneFits(p.ops.Tokens(), inj, p.config.maxInjectionTokensPerTurn);
    assert Take([inj], p.config.maxInjectionsPerTurn) == [inj];
    var kept, capped, nudged := p.BeginTurn("first", [inj]);
    assert capped == [inj] && kept[0] == system;
    assert |kept| == 1 && TurnTail(p.ops, capped, nudged, "first")[0].role.SystemReminder?;
    sent := p.messages;
    assert sent[1] == TurnTail(p.ops, capped, nudged, "first")[0];
  }

  /** What a turn appends leaves the lasting conversation extended by the user's message, and decides the prefixes. */
  lemma EndOfTurn(c: PromptConfig, before: seq<Message>, kept: seq<Message>,
                  first: seq<Message>, second: seq<Message>, last: Message)
    requires c.Retired(Core(before), kept)
    requires forall i :: 0 <= i < |first| ==> first[i].role.SystemReminder?
    requires forall i :: 0 <= i < |second| ==> second[i].role.SystemReminder?
    requires !last.role.SystemReminder?
    ensures Core(kept + (first + second + [last])) == kept + [last]
    ensures Evolves(Core(before), kept + [last], c.ephemeralPreviewChars)
    ensures c.PrefixesExact(before, kept + (first + second + [last]), first + second + [last])
  {
    RetiredPlain(c, before, kept);
    CoreAfter(kept, first, second, last);
    RetiredEvolves(c, before, kept, last);
    PrefixesOfTurn(c, before, kept, first + second + [last]);
  }

  lemma RetiredEvolves(c: PromptConfig, before: seq<Message>, kept: seq<Message>, m: Message)
    requires c.Retired(Core(before), kept)
    ensures Evolves(Core(before), kept + [m], c.ephemeralPreviewChars)
  {
  }

  function WithoutSystem(messages: seq<Message>): seq<Message> {
    if messages == [] then []
    else (if messages[0].role == System then [] else [messages[0]]) + WithoutSystem(messages[1..])
  }

  /** The positions of all messages but the system's, in ascending order. */
  ghost function OtherPositions(messages: seq<Message>): seq<nat> {
    if messages == [] then []
    else
      OtherPositions(messages[..|messages| - 1])
      + if messages[|messages| - 1].role != System then [|messages| - 1] else []
  }

  lemma {:induction false} OtherPositionsExactly(messages: seq<Message>, i: nat)
    ensures i in OtherPositions(messages) <==> i < |messages| && messages[i].role != System
  {
    if messages != [] {
      OtherPositionsExactly(messages[..|messages| - 1], i);
    }
  }

  lemma {:induction false} OtherPositionsAscend(messages: seq<Message>)
    ensures Ascending(OtherPositions(messages))
  {
    if messages != [] {
      var init := messages[..|messages| - 1];
      var at := OtherPositions(init);
      OtherPositionsAscend(init);
      forall k | 0 <= k < |at| ensures at[k] < |init| {
        OtherPositionsExactly(init, at[k]);
      }
    }
  }

  /** The list holds the messages that are not the system's, each as it was and in the old order. */
  ghost predicate OthersKept(before: seq<Message>, others: seq<Message>) {
    var at := OtherPositions(before);
    && |others| == |at|
    && forall k :: 0 <= k < |at| ==> at[k] < |before| && others[k] == before[at[k]]
  }

  lemma {:induction false} WithoutSystemSnoc(messages: seq<Message>, m: Message)
    ensures WithoutSystem(messages + [m]) == WithoutSystem(messages) + if m.role == System then [] else [m]
  {
    if messages == [] {
      assert [m][1..] == [];
    } else {
      var rest := messages[1..];
      assert (messages + [m])[1..] == rest + [m];
      WithoutSystemSnoc(rest, m);
      Regroup(if messages[0].role == System then [] else [messages[0]], WithoutSystem(rest),
              if m.role == System then [] else [m]);
    }
  }

  lemma {:induction false} WithoutSystemKeeps(messages: seq<Message>)
    ensures OthersKept(messages, WithoutSystem(messages))
  {
    if messages != [] {
      var init, last := messages[..|messages| - 1], messages[|messages| - 1];
      WithoutSystemKeeps(init);
      WithoutSystemSnoc(init, last);
      assert messages == init + [last];
    }
  }

  lemma {:induction false} WithoutSystemIs(messages: seq<Message>)
    ensures forall i :: 0 <= i < |WithoutSystem(messages)| ==> WithoutSystem(messages)[i].role != System
  {
    if messages != [] {
      WithoutSystemIs(messages[1..]);
    }
  }

  /** Reminders do not count towards what stays. */
  lemma CoreAfter(kept: seq<Message>, first: seq<Message>, second: seq<Message>, last: Message)
    requires forall i :: 0 <= i < |kept| ==> !kept[i].role.SystemReminder?
    requires forall i :: 0 <= i < |first| ==> first[i].role.SystemReminder?
    requires forall i :: 0 <= i < |second| ==> second[i].role.SystemReminder?
    requires !last.role.SystemReminder?
    ensures Core(kept + (first + second + [last])) == kept + [last]
  {
    CoreSnoc(kept + (first + second), last);
    assert kept + (first + second + [last]) == kept + (first + second) + [last];
    CoreDropsReminders(kept, first + second);
  }

  lemma {:induction false} CoreDropsReminders(kept: seq<Message>, reminders: seq<Message>)
    requires forall i :: 0 <= i < |kept| ==> !kept[i].role.SystemReminder?
    requires forall i :: 0 <= i < |reminders| ==> reminders[i].role.SystemReminder?
    ensures Core(kept + reminders) == kept
    decreases |reminders|
  {
    if reminders == [] {
      assert kept + reminders == kept;
      CoreOfPlain(kept);
    } else {
      var init := reminders[..|reminders| - 1];
      CoreDropsReminders(kept, init);
      CoreSnoc(kept + init, reminders[|reminders| - 1]);
      assert kept + reminders == (kept + init) + [reminders[|reminders| - 1]];
    }
  }
}
