/** Dream consolidation: gates, the lock file's time stamp, the prompt, and the clean-up of what was read. */
module Dreams {
  import opened Prelude
  import opened TermOrder
  import opened Texts

  /** Times are in nanoseconds since the epoch. */
  const SECOND: nat := 1_000_000_000
  const HOUR: nat := 3600 * SECOND
  const MAX_DREAM_INPUT_CHARS: nat := 32_000
  const MAX_DREAM_CHARS: nat := 16_000
  const CLEANUP_RECENCY_GUARD_SECS: nat := 300

  datatype File = File(content: string, mtime: int)

  /** The lock file: the holder's pid, if its body is one, and its modification time. */
  datatype LockFile = LockFile(pid: Option<nat>, mtime: int)

  datatype DreamConfig = DreamConfig(enabled: bool, minHours: nat, minSessions: nat)

  datatype DreamGate =
    | Open(sessions: seq<string>)
    | Disabled
    | TooSoon(hoursSince: nat)
    | TooFewSessions(count: nat, required: nat)

  datatype DreamStatus = Skipped | Completed(charsWritten: nat) | NothingToConsolidate | Failed

  datatype DreamMessage = DreamMessage(content: string, processedStems: seq<string>)

  /** How the file system and the other processes behave during one call. */
  datatype World = World(
    now: int, pid: nat, alive: nat -> bool,
    rival: Option<nat>,           // a process that overwrites the lock between writing and verifying
    writeOk: bool, rollbackOk: bool,
    unreadable: set<string>, undeletable: set<string>)

  function Elapsed(now: int, since: int): nat {
    if now < since then 0 else now - since
  }

  // ---------------------------------------------------------------------
  // The prompt
  // ---------------------------------------------------------------------

  function SessionSection(buf: string, stem: string, content: string): string {
    buf + SectionHead(buf, stem) + content
  }

  /** A session worth reading: present, readable and not blank. */
  predicate Readable(sessions: map<string, File>, unreadable: set<string>, stem: string) {
    stem in sessions && stem !in unreadable && Trim(sessions[stem].content) != ""
  }

  /** The stems, in order, whose files are present, can be read and are not blank. */
  ghost function ReadableOf(sessions: map<string, File>, unreadable: set<string>, stems: seq<string>): seq<string> {
    if stems == [] then []
    else
      var last := stems[|stems| - 1];
      ReadableOf(sessions, unreadable, stems[..|stems| - 1])
      + if last in sessions && last !in unreadable && Trim(sessions[last].content) != "" then [last] else []
  }

  ghost function TextOf(sessions: map<string, File>, stem: string): string {
    if stem in sessions then sessions[stem].content else ""
  }

  /** The buffer after the given sessions were appended in order, each under its own line. */
  ghost function Appended(sessions: map<string, File>, start: string, stems: seq<string>): string {
    if stems == [] then start
    else
      var (before, last) := (Appended(sessions, start, stems[..|stems| - 1]), stems[|stems| - 1]);
      before + (if before == "" then "" else "\n\n") + "--- Session: " + last + " ---\n\n" + TextOf(sessions, last)
  }

  lemma SectionIs(buf: string, stem: string, content: string)
    ensures SessionSection(buf, stem, content) ==
              buf + (if buf == "" then "" else "\n\n") + "--- Session: " + stem + " ---\n\n" + content
  {
    var gap := if buf == "" then "" else "\n\n";
    assert SectionHead(buf, stem) == gap + "--- Session: " + stem + " ---\n\n";
    assert buf + (gap + "--- Session: " + stem + " ---\n\n") + content
        == buf + gap + "--- Session: " + stem + " ---\n\n" + content;
  }

  function SectionHead(buf: string, stem: string): string {
    (if buf == "" then "" else "\n\n") + "--- Session: " + stem + " ---\n\n"
  }

  /** The new session's text is in the buffer as a whole. */
  lemma SectionContains(buf: string, stem: string, content: string)
    ensures Contains(SessionSection(buf, stem, content), content)
  {
    ContainsMiddle(buf + SectionHead(buf, stem), content, "");
    assert SessionSection(buf, stem, content) == buf + SectionHead(buf, stem) + content + "";
  }

  /** Whatever is in the buffer stays in it. */
  lemma SectionKeeps(buf: string, stem: string, content: string, part: string)
    requires Contains(buf, part)
    ensures Contains(SessionSection(buf, stem, content), part)
  {
    ContainsExtend(buf, part, SectionHead(buf, stem) + content);
    assert SessionSection(buf, stem, content) == buf + (SectionHead(buf, stem) + content);
  }

  /** Every session that was appended is in the buffer with its whole text. */
  lemma {:induction false} AppendedContains(sessions: map<string, File>, start: string, stems: seq<string>,
                                            stem: string)
    requires stem in stems
    ensures Contains(Appended(sessions, start, stems), TextOf(sessions, stem))
    decreases |stems|
  {
    var init, last := stems[..|stems| - 1], stems[|stems| - 1];
    SectionIs(Appended(sessions, start, init), last, TextOf(sessions, last));
    if stem == last {
      SectionContains(Appended(sessions, start, init), last, TextOf(sessions, last));
    } else {
      assert stems == init + [last];
      AppendedContains(sessions, start, init, stem);
      SectionKeeps(Appended(sessions, start, init), last, TextOf(sessions, last), TextOf(sessions, stem));
    }
  }

  // ---------------------------------------------------------------------
  // Between reading and cleaning up
  // ---------------------------------------------------------------------

  /** Other processes only ever rewrite session files, stamping them with the time of writing. */
  ghost predicate LaterFiles(before: map<string, File>, after: map<string, File>, readAt: int) {
    forall stem :: stem in after ==> (stem in before && after[stem] == before[stem]) || after[stem].mtime >= readAt
  }

  predicate OldEnough(f: File, now: int) {
    Elapsed(now, f.mtime) / SECOND >= CLEANUP_RECENCY_GUARD_SECS
  }

  /** The file was last written at least five minutes ago. */
  ghost predicate GuardPassed(f: File, now: int) {
    now - f.mtime >= 300_000_000_000
  }

  lemma OldMeansGuardPassed(f: File, now: int)
    ensures OldEnough(f, now) <==> GuardPassed(f, now)
  {
  }

  /** Cleaning up after this message at `now` can remove no text that is not in the message. */
  ghost predicate DeletesOnlyPrompted(message: DreamMessage, after: map<string, File>, now: int) {
    forall stem :: stem in message.processedStems && stem in after && GuardPassed(after[stem], now) ==>
      Contains(message.content, after[stem].content)
  }

  /** What the message was made of: the text of every processed stem is in it. */
  ghost predicate HoldsTexts(message: DreamMessage, files: map<string, File>) {
    forall s :: s in message.processedStems ==> s in files && Contains(message.content, files[s].content)
  }

  lemma OldMeansUnchanged(before: map<string, File>, after: map<string, File>, readAt: int, now: int, stem: string)
    requires LaterFiles(before, after, readAt) && stem in after && GuardPassed(after[stem], now)
    ensures (stem in before && after[stem] == before[stem])
         || (after[stem].mtime >= readAt && now - readAt >= CLEANUP_RECENCY_GUARD_SECS * SECOND)
  {
  }

  /** The text that no message of this length can contain. */
  function TooLong(message: DreamMessage): string {
    seq(|message.content| + 1, _ => 'z')
  }

  lemma TooLongIsMissing(message: DreamMessage)
    ensures !Contains(message.content, TooLong(message))
  {
    if Contains(message.content, TooLong(message)) {
      ContainsFits(message.content, TooLong(message));
    }
  }

  /** A file rewritten the moment after it was read is removed unread when the answer takes the guard's time. */
  lemma RewrittenIsLost(before: map<string, File>, readAt: int, now: int, message: DreamMessage)
    requires message.processedStems != [] && now - readAt >= CLEANUP_RECENCY_GUARD_SECS * SECOND
    ensures var after := before[message.processedStems[0] := File(TooLong(message), readAt)];
            LaterFiles(before, after, readAt) && !DeletesOnlyPrompted(message, after, now)
  {
    var stem := message.processedStems[0];
    var after := before[stem := File(TooLong(message), readAt)];
    assert stem in message.processedStems && GuardPassed(after[stem], now);
    TooLongIsMissing(message);
  }

  /**
    Whatever other processes write after the reading, a clean-up removes prompted text only,
    if and only if it comes less than the guard's time after the reading.
   */
  lemma PromptedExactly(before: map<string, File>, readAt: int, now: int, message: DreamMessage)
    requires message.processedStems != [] && HoldsTexts(message, before)
    ensures (forall after: map<string, File> {:trigger LaterFiles(before, after, readAt)} ::
               LaterFiles(before, after, readAt) ==> DeletesOnlyPrompted(message, after, now))
            <==> now - readAt < CLEANUP_RECENCY_GUARD_SECS * SECOND
  {
    if now - readAt >= CLEANUP_RECENCY_GUARD_SECS * SECOND {
      RewrittenIsLost(before, readAt, now, message);
    } else {
      forall after: map<string, File> | LaterFiles(before, after, readAt)
        ensures DeletesOnlyPrompted(message, after, now)
      {
        forall stem | stem in message.processedStems && stem in after && GuardPassed(after[stem], now)
          ensures Contains(message.content, after[stem].content)
        {
          OldMeansUnchanged(before, after, readAt, now, stem);
        }
      }
    }
  }

  // ---------------------------------------------------------------------
  // Gates
  // ---------------------------------------------------------------------

  /** So many whole hours have passed, none when the clock was set back. */
  ghost predicate HoursBetween(since: int, now: int, hours: nat) {
    if now < since then hours == 0
    else hours * 3_600_000_000_000 <= now - since < (hours + 1) * 3_600_000_000_000
  }

  lemma HoursMean(now: int, since: int, minHours: nat)
    ensures HoursBetween(since, now, Elapsed(now, since) / HOUR)
    ensures Elapsed(now, since) / HOUR >= minHours <==> minHours == 0 || now - since >= minHours * 3_600_000_000_000
  {
  }

  predicate EndsWith(s: string, suffix: string) {
    |suffix| <= |s| && s[|s| - |suffix|..] == suffix
  }

  /** A session file written after `since` that is not the current session's. */
  predicate Eligible(sessions: map<string, File>, since: int, exclude: Option<string>, stem: string) {
    && stem in sessions && sessions[stem].mtime > since
    && !(exclude.Some? && EndsWith(stem, exclude.value))
  }

  /** The sessions written after `since`, without those whose stem ends in the excluded id. */
  ghost function EligibleSet(sessions: map<string, File>, since: int, exclude: Option<string>): set<string> {
    set stem |
      && stem in sessions
      && sessions[stem].mtime > since
      && (exclude.Some? ==> |exclude.value| > |stem| || stem[|stem| - |exclude.value|..] != exclude.value)
  }

  const MEMORY_HEADER: string := "--- Existing Memory (merge with new sessions) ---\n\n"
  const SCAFFOLD_MAX_LEN: nat := 500
  const MARKERS: seq<string> := [
    "Auto-populated by dream consolidation",
    "Add project-specific knowledge here",
    "Add any cross-project preferences here"]

  predicate IsScaffoldTemplate(width: char -> nat, content: string) {
    var trimmed := Trim(content);
    Size(width, trimmed) < SCAFFOLD_MAX_LEN && exists i :: 0 <= i < |MARKERS| && Contains(trimmed, MARKERS[i])
  }

  /** The existing memory at the head of the prompt, at most half of the input cap. */
  function ExistingMemory(width: char -> nat, memory: Option<string>): string {
    if memory.None? then ""
    else
      var trimmed := Trim(memory.value);
      if trimmed == "" || IsScaffoldTemplate(width, trimmed) then ""
      else MEMORY_HEADER + FitBytes(width, trimmed, MAX_DREAM_INPUT_CHARS / 2)
  }

  /** A short text with one of the markers of the initial template. */
  ghost predicate Boilerplate(width: char -> nat, text: string) {
    && Size(width, text) < 500
    && (|| Contains(text, "Auto-populated by dream consolidation")
        || Contains(text, "Add project-specific knowledge here")
        || Contains(text, "Add any cross-project preferences here"))
  }

  lemma {:induction false} TrimAgain(s: string)
    ensures Trim(Trim(s)) == Trim(s)
  {
    var t := Trim(s);
    var i := TrimMeans(s);
    var j := TrimMeans(t);
    assert t[0..0 + |t|] == t;
    assert TrimmedAt(t, t, 0);
    TrimUnique(t, t, 0, Trim(t), j);
  }

  /**
    The prompt starts with the trimmed memory, or as much of its start as fits half the cap, unless there is none,
    it is blank, or it is still the initial template.
   */
  lemma ExistingMemoryMeans(width: char -> nat, memory: Option<string>)
    ensures var text := if memory.Some? then Trim(memory.value) else "";
            var start := ExistingMemory(width, memory);
            if text == "" || Boilerplate(width, text) then start == ""
            else
              var cut := "--- Existing Memory (merge with new sessions) ---\n\n";
              && cut <= start
              && start[|cut|..] <= text
              && Size(width, start[|cut|..]) <= 16_000
              && (|start| < |cut| + |text| ==>
                    Size(width, start[|cut|..]) + width(text[|start| - |cut|]) > 16_000)
  {
    if memory.Some? {
      var text := Trim(memory.value);
      TrimAgain(memory.value);
      ScaffoldMeans(width, text);
      FitBytesLongest(width, text, MAX_DREAM_INPUT_CHARS / 2);
      var start := MEMORY_HEADER + FitBytes(width, text, MAX_DREAM_INPUT_CHARS / 2);
      assert start[|MEMORY_HEADER|..] == FitBytes(width, text, MAX_DREAM_INPUT_CHARS / 2);
    }
  }

  lemma ScaffoldMeans(width: char -> nat, text: string)
    requires Trim(text) == text
    ensures IsScaffoldTemplate(width, text) <==> Boilerplate(width, text)
  {
    assert MARKERS[0] == "Auto-populated by dream consolidation";
    assert MARKERS[1] == "Add project-specific knowledge here";
    assert MARKERS[2] == "Add any cross-project preferences here";
  }

  predicate HasMarkdownHeaders(text: string) {
    Contains(text, "## ") || Contains(text, "# ")
  }

  /** Trimmed, with headings and not a refusal, cut to the output cap; otherwise nothing. */
  function ProcessDreamResponse(response: string, isNoReply: string -> bool): Option<string> {
    var trimmed := Trim(response);
    if trimmed == "" || isNoReply(trimmed) || !HasMarkdownHeaders(trimmed) then None
    else Some(Take(trimmed, MAX_DREAM_CHARS))
  }

  /** The response, without the white space around it, says something, is no refusal and has a heading. */
  ghost predicate Accepted(response: string, isNoReply: string -> bool) {
    var text := Trim(response);
    text != "" && !isNoReply(text) && Contains(text, "# ")
  }

  /** The first 16000 characters of what stands between the white space of an accepted response. */
  ghost function Written(response: string, isNoReply: string -> bool): Option<string> {
    var text := Trim(response);
    if Accepted(response, isNoReply) then Some(if |text| <= 16_000 then text else text[..16_000]) else None
  }

  lemma ProcessMeans(response: string, isNoReply: string -> bool)
    ensures ProcessDreamResponse(response, isNoReply) == Written(response, isNoReply)
  {
    var text := Trim(response);
    if Contains(text, "## ") {
      var i :| 0 <= i <= |text| && StartsAt(text, "## ", i);
      assert text[i + 1..] == text[i..][1..];
      assert "# " == "## "[1..];
      assert StartsAt(text, "# ", i + 1);
    }
  }

  lemma WrittenMeans(response: string, isNoReply: string -> bool)
    requires Accepted(response, isNoReply)
    ensures var text := Trim(response);
            var n := if |text| < 16_000 then |text| else 16_000;
            Written(response, isNoReply) == Some(text[..n])
  {
    var text := Trim(response);
    assert text[..|text|] == text;
  }

  // ---------------------------------------------------------------------
  // One pass
  // ---------------------------------------------------------------------

  /** The files a pass works on. */
  datatype Disk = Disk(lock: Option<LockFile>, sessions: map<string, File>, longTerm: Option<string>)
  {
    function LastConsolidatedAt(): Option<int> {
      if lock.Some? then Some(lock.value.mtime) else None
    }

    /** The moment the gates count from: the epoch when there was no consolidation yet. */
    function Since(): int {
      if lock.Some? then lock.value.mtime else 0
    }
  }

  /** A live process holds the lock and has not held it for too long. */
  predicate HeldLock(lock: Option<LockFile>, staleSecs: nat, w: World) {
    && lock.Some? && lock.value.pid.Some?
    && Elapsed(w.now, lock.value.mtime) / SECOND < staleSecs && w.alive(lock.value.pid.value)
  }

  /** Nobody else wrote the lock file between writing and verifying it. */
  predicate Undisturbed(w: World) {
    w.rival.None? || w.rival.value == w.pid
  }

  /** A live process has its pid in the lock file and wrote it less than `staleSecs` seconds ago. */
  ghost predicate LiveHolder(lock: Option<LockFile>, staleSecs: nat, w: World) {
    && lock.Some? && lock.value.pid.Some? && w.alive(lock.value.pid.value)
    && staleSecs > 0 && w.now - lock.value.mtime < staleSecs * 1_000_000_000
  }

  lemma HeldMeans(lock: Option<LockFile>, staleSecs: nat, w: World)
    ensures HeldLock(lock, staleSecs, w) <==> LiveHolder(lock, staleSecs, w)
  {
  }

  ghost predicate Cleaned(sessions: map<string, File>, processed: seq<string>, w: World, stem: string) {
    stem in sessions && stem in processed && GuardPassed(sessions[stem], w.now) && stem !in w.undeletable
  }

  /** The files after a pass whose accepted response is given, and how it ended. */
  ghost function AfterPass(d: Disk, w: World, accepted: Option<string>, staleSecs: nat,
                           processed: seq<string>): (Disk, DreamStatus)
  {
    var stamped := d.(lock := Some(LockFile(if w.rival.Some? then w.rival else Some(w.pid), w.now)));
    if LiveHolder(d.lock, staleSecs, w) then (d, Skipped)
    else if w.rival.Some? && w.rival.value != w.pid then (stamped, Skipped)
    else if accepted.None? then (stamped, NothingToConsolidate)
    else if !w.writeOk then
      var restored := d.(lock := if d.lock.Some? then Some(LockFile(None, d.lock.value.mtime)) else None);
      (if w.rollbackOk then restored else stamped, Failed)
    else
      (stamped.(longTerm := accepted,
                sessions := map s | s in d.sessions && !Cleaned(d.sessions, processed, w, s) :: d.sessions[s]),
       Completed(|accepted.value|))
  }

  /** What building the prompt promises: the readable stems among the first `n`, whole, up to the cap. */
  ghost predicate MessageOf(width: char -> nat, sessions: map<string, File>, unreadable: set<string>,
                            stems: seq<string>,
                            existing: Option<string>, m: DreamMessage, n: nat)
  {
    && n <= |stems|
    && m.processedStems != []
    && m.processedStems == ReadableOf(sessions, unreadable, stems[..n])
    && m.content == Appended(sessions, ExistingMemory(width, existing), m.processedStems)
    && (n < |stems| ==> Size(width, m.content) >= MAX_DREAM_INPUT_CHARS)
    && BelowCapBefore(width, sessions, ExistingMemory(width, existing), m.processedStems)
    && HoldsTexts(m, sessions)
  }

  /**
    Sessions the prompt had no room for survive a completed pass untouched, but they count as eligible
    afterwards only if they were written after it.
   */
  lemma LeftoversAfterPass(width: char -> nat, read: map<string, File>, unreadable: set<string>, stems: seq<string>,
                           existing: Option<string>, m: DreamMessage, n: nat, since: int, exclude: Option<string>,
                           d: Disk, w: World, accepted: Option<string>, staleSecs: nat, i: nat)
    requires MessageOf(width, read, unreadable, stems, existing, m, n) && NoDuplicates(stems)
    requires n <= i < |stems| && stems[i] in EligibleSet(read, since, exclude) && stems[i] in d.sessions
    requires AfterPass(d, w, accepted, staleSecs, m.processedStems).1.Completed?
    ensures var d' := AfterPass(d, w, accepted, staleSecs, m.processedStems).0;
            && stems[i] in d'.sessions && d'.sessions[stems[i]] == d.sessions[stems[i]]
            && (stems[i] in EligibleSet(d'.sessions, d'.Since(), exclude) <==> d.sessions[stems[i]].mtime > w.now)
  {
    if stems[i] in m.processedStems {
      ReadableFrom(read, unreadable, stems[..n], stems[i]);
      assert false;
    }
    AfterCompleted(d, w, accepted, staleSecs, m.processedStems, stems[i]);
  }

  /** A completed pass stamps the lock and keeps what it did not process. */
  lemma AfterCompleted(d: Disk, w: World, accepted: Option<string>, staleSecs: nat, processed: seq<string>,
                       stem: string)
    requires AfterPass(d, w, accepted, staleSecs, processed).1.Completed? && stem in d.sessions && stem !in processed
    ensures var d' := AfterPass(d, w, accepted, staleSecs, processed).0;
            stem in d'.sessions && d'.sessions[stem] == d.sessions[stem] && d'.Since() == w.now
  {
  }

  lemma {:induction false} ReadableFrom(sessions: map<string, File>, unreadable: set<string>, stems: seq<string>,
                                        stem: string)
    requires stem in ReadableOf(sessions, unreadable, stems)
    ensures stem in stems
    decreases |stems|
  {
    if stem in ReadableOf(sessions, unreadable, stems[..|stems| - 1]) {
      ReadableFrom(sessions, unreadable, stems[..|stems| - 1], stem);
    }
  }

  datatype DreamResult = DreamResult(status: DreamStatus, sessionsEligible: nat, cleanedStems: seq<string>)

  class DreamDir {
    /** Bytes per character. */
    const width: char -> nat
    var lock: Option<LockFile>
    var sessions: map<string, File>
    var longTerm: Option<string>

    constructor (byteWidth: char -> nat)
      ensures View() == Disk(None, map[], None) && width == byteWidth
    {
      width := byteWidth;
      lock, sessions, longTerm := None, map[], None;
    }

    function View(): Disk
      reads this
    {
      Disk(lock, sessions, longTerm)
    }

    function LastConsolidatedAt(): Option<int>
      reads this`lock
    {
      if lock.Some? then Some(lock.value.mtime) else None
    }

    function Since(): int
      reads this`lock
    {
      if lock.Some? then lock.value.mtime else 0
    }

    /** The eligible stems in sorted order; directory entries come in any order. */
    method SessionsSince(since: int, exclude: Option<string>) returns (result: seq<string>)
      ensures StrictlySorted(result) && Elements(result) == EligibleSet(sessions, since, exclude)
    {
      var found: seq<string> := [];
      var rest := sessions.Keys;
      while rest != {}
        invariant rest <= sessions.Keys
        invariant forall stem :: stem in found <==> stem !in rest && Eligible(sessions, since, exclude, stem)
      {
        var stem :| stem in rest;
        if Eligible(sessions, since, exclude, stem) {
          found := found + [stem];
        }
        rest := rest - {stem};
      }
      result := SortDedup(found);
      SortDedupCorrect(found);
      assert forall stem :: stem in found <==> stem in EligibleSet(sessions, since, exclude);
    }

    /** Cheapest gate first; open exactly when all three pass. */
    method CheckDreamGates(config: DreamConfig, now: int, currentSession: Option<string>) returns (gate: DreamGate)
      ensures var since := if lock.Some? then lock.value.mtime else 0;
              var found := EligibleSet(sessions, since, currentSession);
              var inTime := config.minHours == 0 || now - since >= config.minHours * 3_600_000_000_000;
              && (gate == Disabled <==> !config.enabled)
              && (gate.TooSoon? <==> config.enabled && !inTime)
              && (gate.TooSoon? ==> HoursBetween(since, now, gate.hoursSince))
              && (gate.TooFewSessions? <==> config.enabled && inTime && |found| < config.minSessions)
              && (gate.TooFewSessions? ==> gate == TooFewSessions(|found|, config.minSessions))
              && (gate.Open? ==> StrictlySorted(gate.sessions) && Elements(gate.sessions) == found)
    {
      HoursMean(now, Since(), config.minHours);
      if !config.enabled {
        return Disabled;
      }
      var hoursSince := Elapsed(now, Since()) / HOUR;
      if hoursSince < config.minHours {
        return TooSoon(hoursSince);
      }
      var found := SessionsSince(Since(), currentSession);
      SortedIsDistinct(found);
      DistinctLength(found);
      if |found| < config.minSessions {
        return TooFewSessions(|found|, config.minSessions);
      }
      return Open(found);
    }

    /**
      Reads sessions in order until the buffer reaches the cap; `n` is how many stems were looked at.
      The text of every processed session is in the prompt as a whole.
     */
    method BuildDreamUserMessage(stems: seq<string>, existing: Option<string>, unreadable: set<string>)
        returns (r: Option<DreamMessage>, ghost n: nat)
      ensures r.None? <==> ReadableOf(sessions, unreadable, stems) == []
      ensures r.Some? ==> MessageOf(width, sessions, unreadable, stems, existing, r.value, n)
    {
      var start := ExistingMemory(width, existing);
      var buf, processed;
      buf, processed, n := ReadSessions(stems, start, unreadable);
      ReadablePrefix(sessions, unreadable, stems, n);
      if processed == [] {
        assert stems[..n] == stems;
        return None, n;
      }
      forall s | s in processed ensures s in sessions && Contains(buf, sessions[s].content) {
        ReadableAre(sessions, unreadable, stems[..n], s);
        AppendedContains(sessions, start, processed, s);
      }
      return Some(DreamMessage(buf, processed)), n;
    }

    method ReadSessions(stems: seq<string>, start: string, unreadable: set<string>)
        returns (buf: string, processed: seq<string>, ghost n: nat)
      ensures n <= |stems| && Collected(width, sessions, unreadable, stems[..n], start, buf, processed)
      ensures n < |stems| ==> processed != [] && Size(width, buf) >= MAX_DREAM_INPUT_CHARS
    {
      buf, processed, n := start, [], 0;
      NothingCollected(width, sessions, unreadable, start);
      assert stems[..0] == [];
      for i := 0 to |stems|
        invariant n == i && Collected(width, sessions, unreadable, stems[..i], start, buf, processed)
        invariant processed != [] ==> Size(width, buf) < MAX_DREAM_INPUT_CHARS
      {
        CollectNext(width, sessions, unreadable, stems[..i], start, buf, processed, stems[i]);
        n := i + 1;
        assert stems[..n] == stems[..i] + [stems[i]];
        if Readable(sessions, unreadable, stems[i]) {
          buf := SessionSection(buf, stems[i], sessions[stems[i]].content);
          processed := processed + [stems[i]];
          if Size(width, buf) >= MAX_DREAM_INPUT_CHARS {
            break;
          }
        }
      }
    }

    /** On success returns the time stamp to restore on failure. A live holder that is not stale keeps the lock. */
    method TryAcquire(staleSecs: nat, w: World) returns (prior: Option<Option<int>>)
      modifies this`lock
      ensures prior.Some? ==> prior.value == old(LastConsolidatedAt()) && lock == Some(LockFile(Some(w.pid), w.now))
      ensures old(LiveHolder(lock, staleSecs, w)) ==> prior.None? && lock == old(lock)
      ensures !old(LiveHolder(lock, staleSecs, w)) ==>
                lock == Some(LockFile(if w.rival.Some? then w.rival else Some(w.pid), w.now))
                  && LastConsolidatedAt() == Some(w.now)
      ensures prior.Some? <==>
                !old(LiveHolder(lock, staleSecs, w)) && (w.rival.None? || w.rival.value == w.pid)
    {
      HeldMeans(lock, staleSecs, w);
      if Held(staleSecs, w) {
        return None;
      }
      var before := LastConsolidatedAt();
      lock := Some(LockFile(Some(w.pid), w.now));
      if w.rival.Some? {
        lock := Some(LockFile(w.rival, w.now));
      }
      if lock.value.pid == Some(w.pid) {
        return Some(before);
      }
      return None;
    }

    predicate Held(staleSecs: nat, w: World)
      reads this`lock
    {
      HeldLock(lock, staleSecs, w)
    }

    method Rollback(prior: Option<int>)
      modifies this`lock
      ensures lock == (if prior.Some? then Some(LockFile(None, prior.value)) else None) && LastConsolidatedAt() == prior
    {
      match prior
      case None => lock := None;
      case Some(mtime) => lock := Some(LockFile(None, mtime));
    }

    /** Deletes what was processed, unless it changed too recently or cannot be deleted. */
    method CleanProcessedSessions(stems: seq<string>, now: int, undeletable: set<string>) returns (cleaned: seq<string>)
      modifies this`sessions
      ensures forall s :: s in cleaned <==> s in old(sessions) && s !in sessions
      ensures forall s :: s in old(sessions) ==>
                (s !in sessions <==> s in stems && GuardPassed(old(sessions)[s], now) && s !in undeletable)
      ensures forall s :: s in sessions ==> s in old(sessions) && sessions[s] == old(sessions)[s]
    {
      cleaned := [];
      for i := 0 to |stems|
        invariant forall s :: s in cleaned <==> s in old(sessions) && s !in sessions
        invariant forall s :: s in old(sessions) ==>
                    (s !in sessions <==> s in stems[..i] && GuardPassed(old(sessions)[s], now) && s !in undeletable)
        invariant forall s :: s in sessions ==> s in old(sessions) && sessions[s] == old(sessions)[s]
      {
        var stem := stems[i];
        assert stems[..i + 1] == stems[..i] + [stem];
        if stem in sessions {
          OldMeansGuardPassed(sessions[stem], now);
        }
        if stem in sessions && OldEnough(sessions[stem], now) && stem !in undeletable {
          sessions := sessions - {stem};
          cleaned := cleaned + [stem];
        }
      }
      assert stems[..|stems|] == stems;
    }

    /**
      Only a completed pass removes files, and only a failed write whose rollback works restores the old time stamp.
     */
    method ExecuteDream(w: World, response: string, sessionsEligible: nat, staleSecs: nat, processedStems: seq<string>,
                        isNoReply: string -> bool) returns (r: DreamResult)
      modifies this
      ensures (View(), r.status)
           == AfterPass(old(View()), w, Written(response, isNoReply), staleSecs, processedStems)
      ensures r.sessionsEligible == if r.status == Skipped then 0 else sessionsEligible
      ensures !r.status.Completed? ==> sessions == old(sessions) && longTerm == old(longTerm) && r.cleanedStems == []
      ensures r.status == Skipped <==>
                old(LiveHolder(lock, staleSecs, w)) || (w.rival.Some? && w.rival.value != w.pid)
      ensures r.status == NothingToConsolidate <==> r.status != Skipped && !Accepted(response, isNoReply)
      ensures r.status == Failed <==> r.status != Skipped && Accepted(response, isNoReply) && !w.writeOk
      ensures r.status.Completed? <==> r.status != Skipped && Accepted(response, isNoReply) && w.writeOk
      ensures r.status.Completed? ==>
                var text := Trim(response);
                var n := if |text| < 16_000 then |text| else 16_000;
                && longTerm == Some(text[..n]) && r.status.charsWritten == n
                && (forall s :: s in old(sessions) ==>
                      (s !in sessions <==>
                        s in processedStems && GuardPassed(old(sessions)[s], w.now) && s !in w.undeletable))
                && (forall s :: s in sessions ==> s in old(sessions) && sessions[s] == old(sessions)[s])
                && (forall s :: s in r.cleanedStems <==> s in old(sessions) && s !in sessions)
      ensures old(LastConsolidatedAt()) != Some(w.now) ==>
                (LastConsolidatedAt() == old(LastConsolidatedAt()) <==>
                  old(LiveHolder(lock, staleSecs, w)) || (r.status == Failed && w.rollbackOk))
      ensures LastConsolidatedAt() == old(LastConsolidatedAt()) || LastConsolidatedAt() == Some(w.now)
    {
      ProcessMeans(response, isNoReply);
      var prior := TryAcquire(staleSecs, w);
      if prior.None? {
        return DreamResult(Skipped, 0, []);
      }
      var content := ProcessDreamResponse(response, isNoReply);
      if content.None? {
        return DreamResult(NothingToConsolidate, sessionsEligible, []);
      }
      if !w.writeOk {
        if w.rollbackOk {
          Rollback(prior.value);
        }
        return DreamResult(Failed, sessionsEligible, []);
      }
      WrittenMeans(response, isNoReply);
      longTerm := content;
      var cleaned := CleanProcessedSessions(processedStems, w.now, w.undeletable);
      ghost var files := old(sessions);
      assert sessions == map s | s in files && !Cleaned(files, processedStems, w, s) :: files[s];
      return DreamResult(Completed(|content.value|), sessionsEligible, cleaned);
    }
  }

  /** Before the last session was added the buffer had not reached the cap. */
  ghost predicate BelowCapBefore(width: char -> nat, sessions: map<string, File>, start: string, stems: seq<string>) {
    |stems| > 1 ==> Size(width, Appended(sessions, start, stems[..|stems| - 1])) < MAX_DREAM_INPUT_CHARS
  }

  /** The buffer and the processed stems after looking at all of `stems`. */
  ghost predicate Collected(width: char -> nat, sessions: map<string, File>, unreadable: set<string>,
                            stems: seq<string>,
                            start: string, buf: string, processed: seq<string>) {
    && processed == ReadableOf(sessions, unreadable, stems)
    && buf == Appended(sessions, start, processed)
    && BelowCapBefore(width, sessions, start, processed)
  }

  lemma NothingCollected(width: char -> nat, sessions: map<string, File>, unreadable: set<string>, start: string)
    ensures Collected(width, sessions, unreadable, [], start, start, [])
  {
  }

  lemma CollectNext(width: char -> nat, sessions: map<string, File>, unreadable: set<string>, stems: seq<string>,
                    start: string, buf: string, processed: seq<string>, stem: string)
    requires Collected(width, sessions, unreadable, stems, start, buf, processed)
    requires processed != [] ==> Size(width, buf) < MAX_DREAM_INPUT_CHARS
    ensures if Readable(sessions, unreadable, stem)
            then Collected(width, sessions, unreadable, stems + [stem], start,
                           SessionSection(buf, stem, sessions[stem].content), processed + [stem])
            else Collected(width, sessions, unreadable, stems + [stem], start, buf, processed)
  {
    assert (stems + [stem])[..|stems|] == stems;
    if stem in sessions {
      SectionIs(buf, stem, sessions[stem].content);
    }
    if Readable(sessions, unreadable, stem) {
      assert (processed + [stem])[..|processed|] == processed;
    } else {
      assert processed + [] == processed;
    }
  }

  lemma {:induction false} ReadableAre(sessions: map<string, File>, unreadable: set<string>, stems: seq<string>,
                                       stem: string)
    requires stem in ReadableOf(sessions, unreadable, stems)
    ensures Readable(sessions, unreadable, stem)
    decreases |stems|
  {
    if stem in ReadableOf(sessions, unreadable, stems[..|stems| - 1]) {
      ReadableAre(sessions, unreadable, stems[..|stems| - 1], stem);
    }
  }

  /** A prefix of the stems has nothing readable only if all of them have. */
  lemma {:induction false} ReadablePrefix(sessions: map<string, File>, unreadable: set<string>, stems: seq<string>,
                                          n: nat)
    requires n <= |stems|
    ensures ReadableOf(sessions, unreadable, stems[..n]) <= ReadableOf(sessions, unreadable, stems)
    decreases |stems|
  {
    if n < |stems| {
      ReadablePrefix(sessions, unreadable, stems[..|stems| - 1], n);
      assert stems[..|stems| - 1][..n] == stems[..n];
    } else {
      assert stems[..n] == stems;
    }
  }
}
