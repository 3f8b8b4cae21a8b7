/** Dream passes interleaved with the sessions that keep writing: who may remove what. */
module DreamRuns {
  import opened Prelude
  import opened Texts
  import opened Dreams

  /** A pass between reading and executing: its message, the files it was made of, and when they were read. */
  datatype Pass = Pass(message: DreamMessage, files: map<string, File>, readAt: int)

  datatype State = State(now: int, disk: Disk, passes: map<nat, Pass>)

  datatype Step =
    | Tick(nanoseconds: nat)
    | WriteSession(stem: string, content: string)
    | WriteLock(lock: Option<LockFile>)
    | Read(id: nat, message: DreamMessage, stems: seq<string>, existing: Option<string>, unreadable: set<string>,
      n: nat)
    | Execute(id: nat, w: World, accepted: Option<string>, staleSecs: nat)

  ghost predicate Enabled(width: char -> nat, s: State, step: Step) {
    match step
    case Read(_, message, stems, existing, unreadable, n) =>
      MessageOf(width, s.disk.sessions, unreadable, stems, existing, message, n)
    case Execute(id, w, _, _) => id in s.passes && w.now == s.now
    case _ => true
  }

  ghost function Outcome(s: State, step: Step): (Disk, DreamStatus)
    requires step.Execute? && step.id in s.passes
  {
    AfterPass(s.disk, step.w, step.accepted, step.staleSecs, s.passes[step.id].message.processedStems)
  }

  ghost function Apply(width: char -> nat, s: State, step: Step): State
    requires Enabled(width, s, step)
  {
    match step
    case Tick(n) => s.(now := s.now + n)
    case WriteSession(stem, content) => s.(disk := s.disk.(sessions := s.disk.sessions[stem := File(content, s.now)]))
    case WriteLock(lock) => s.(disk := s.disk.(lock := lock))
    case Read(id, message, _, _, _, _) => s.(passes := s.passes[id := Pass(message, s.disk.sessions, s.now)])
    case Execute(_, _, _, _) => s.(disk := Outcome(s, step).0)
  }

  datatype Run = Run(states: seq<State>, steps: seq<Step>)

  ghost predicate StepOk(width: char -> nat, r: Run, k: nat)
    requires k < |r.steps| && |r.states| == |r.steps| + 1
  {
    Enabled(width, r.states[k], r.steps[k]) && r.states[k + 1] == Apply(width, r.states[k], r.steps[k])
  }

  ghost predicate Legal(width: char -> nat, r: Run) {
    && |r.states| == |r.steps| + 1
    && r.states[0].passes == map[]
    && forall k: nat {:trigger StepOk(width, r, k)} :: k < |r.steps| ==> StepOk(width, r, k)
  }

  // ---------------------------------------------------------------------
  // What a pass in flight knows
  // ---------------------------------------------------------------------

  /** The message holds the texts that were read, and what is on disk now is that or was written since. */
  ghost predicate PassOk(s: State, p: Pass) {
    HoldsTexts(p.message, p.files) && p.readAt <= s.now && LaterFiles(p.files, s.disk.sessions, p.readAt)
  }

  ghost predicate PassesOk(s: State) {
    forall id {:trigger s.passes[id]} :: id in s.passes ==> PassOk(s, s.passes[id])
  }

  lemma PassesKept(width: char -> nat, s: State, step: Step)
    requires PassesOk(s) && Enabled(width, s, step)
    ensures PassesOk(Apply(width, s, step))
  {
    var s' := Apply(width, s, step);
    forall id | id in s'.passes ensures PassOk(s', s'.passes[id]) {
      if !(step.Read? && id == step.id) {
        assert PassOk(s, s.passes[id]);
      }
    }
  }

  lemma {:induction false} PassesAlwaysOk(width: char -> nat, r: Run, k: nat)
    requires Legal(width, r) && k < |r.states|
    ensures PassesOk(r.states[k])
  {
    if k > 0 {
      PassesAlwaysOk(width, r, k - 1);
      assert StepOk(width, r, k - 1);
      PassesKept(width, r.states[k - 1], r.steps[k - 1]);
    }
  }

  /** Step `j` is the reading that pass `id` of a later state goes back to. */
  ghost predicate ReadBy(r: Run, j: nat, id: nat, p: Pass) {
    && j < |r.steps| && j < |r.states|
    && r.steps[j].Read? && r.steps[j].id == id
    && p == Pass(r.steps[j].message, r.states[j].disk.sessions, r.states[j].now)
  }

  lemma {:induction false} PassWasRead(width: char -> nat, r: Run, k: nat, id: nat)
    requires Legal(width, r) && k < |r.states| && id in r.states[k].passes
    ensures exists j: nat :: j < k && ReadBy(r, j, id, r.states[k].passes[id])
  {
    if k > 0 {
      assert StepOk(width, r, k - 1);
      if r.steps[k - 1].Read? && r.steps[k - 1].id == id {
        assert ReadBy(r, k - 1, id, r.states[k].passes[id]);
      } else {
        PassWasRead(width, r, k - 1, id);
      }
    }
  }

  // ---------------------------------------------------------------------
  // Who removes what
  // ---------------------------------------------------------------------

  ghost predicate Removed(r: Run, k: nat, stem: string)
    requires k + 1 < |r.states|
  {
    stem in r.states[k].disk.sessions && stem !in r.states[k + 1].disk.sessions
  }

  /**
    A session file disappears only in a completed pass that read it earlier in the run, whose own message
    holds its text as it was read, and which left it alone if it was younger than the guard.
   */
  lemma RemovedOnlyByItsReader(width: char -> nat, r: Run, k: nat, stem: string)
    requires Legal(width, r) && k < |r.steps| && Removed(r, k, stem)
    ensures r.steps[k].Execute? && r.steps[k].id in r.states[k].passes && Outcome(r.states[k], r.steps[k]).1.Completed?
    ensures var p := r.states[k].passes[r.steps[k].id];
            && stem in p.message.processedStems && stem in p.files
            && Contains(p.message.content, p.files[stem].content)
            && GuardPassed(r.states[k].disk.sessions[stem], r.states[k].now)
            && (exists j: nat :: j < k && ReadBy(r, j, r.steps[k].id, p))
  {
    assert StepOk(width, r, k);
    PassesAlwaysOk(width, r, k);
    var id := r.steps[k].id;
    assert PassOk(r.states[k], r.states[k].passes[id]);
    PassWasRead(width, r, k, id);
  }

  /** Step `k` executes less than the guard's time after its pass read. */
  ghost predicate Prompt(r: Run, k: nat)
    requires k < |r.steps| && k < |r.states|
  {
    r.steps[k].Execute? && r.steps[k].id in r.states[k].passes ==>
      r.states[k].now - r.states[k].passes[r.steps[k].id].readAt < CLEANUP_RECENCY_GUARD_SECS * SECOND
  }

  /** So a pass that executes in time removes no text that was not in its message. */
  lemma PromptPassesLoseNothing(width: char -> nat, r: Run, k: nat, stem: string)
    requires Legal(width, r) && k < |r.steps| && Removed(r, k, stem) && Prompt(r, k)
    ensures r.steps[k].Execute? && r.steps[k].id in r.states[k].passes
    ensures Contains(r.states[k].passes[r.steps[k].id].message.content, r.states[k].disk.sessions[stem].content)
  {
    RemovedOnlyByItsReader(width, r, k, stem);
    PassesAlwaysOk(width, r, k);
    var p := r.states[k].passes[r.steps[k].id];
    assert PassOk(r.states[k], p);
    OldMeansUnchanged(p.files, r.states[k].disk.sessions, p.readAt, r.states[k].now, stem);
  }

  // ---------------------------------------------------------------------
  // A run that loses unread text
  // ---------------------------------------------------------------------

  ghost function ReadFiles(): map<string, File> {
    map["a" := File("x", 0)]
  }

  ghost function ReadMessage(): DreamMessage {
    DreamMessage(Appended(ReadFiles(), "", ["a"]), ["a"])
  }

  lemma TextIsReadable()
    ensures ReadableOf(ReadFiles(), {}, ["a"]) == ["a"]
  {
    assert !White('x');
    assert Trim("x") == "x";
    assert ["a"][..0] == [];
  }

  lemma ReadMessageIsOne(width: char -> nat)
    ensures MessageOf(width, ReadFiles(), {}, ["a"], None, ReadMessage(), 1)
  {
    TextIsReadable();
    assert ["a"][..1] == ["a"];
    AppendedContains(ReadFiles(), "", ["a"], "a");
  }

  ghost function Answer(): World {
    World(CLEANUP_RECENCY_GUARD_SECS * SECOND, 1, _ => false, None, true, true, {}, {})
  }

  /** The run in which a message of file "a" is executed at the guard's time, after the file was rewritten. */
  lemma RewriteRun(width: char -> nat, m: DreamMessage, text: string) returns (r: Run)
    requires MessageOf(width, ReadFiles(), {}, ["a"], None, m, 1) && m.processedStems == ["a"]
    ensures Legal(width, r) && |r.steps| == 4 && Removed(r, 3, "a") && r.states[3].disk.sessions["a"].content == text
    ensures r.steps[3].Execute? && r.steps[3].id in r.states[3].passes && r.states[3].passes[r.steps[3].id].message == m
  {
    var guard := CLEANUP_RECENCY_GUARD_SECS * SECOND;
    r := Run([State(0, Disk(None, ReadFiles(), None), map[])], []);
    r := Extend(width, r, Read(0, m, ["a"], None, {}, 1));
    r := Extend(width, r, WriteSession("a", text));
    r := Extend(width, r, Tick(guard));
    var last := r.states[3];
    assert last.disk.sessions["a"] == File(text, 0) && last.now == guard;
    assert last.passes[0].message == m;
    assert Cleaned(last.disk.sessions, ["a"], Answer(), "a");
    r := Extend(width, r, Execute(0, Answer(), Some("# y"), 0));
  }

  /** A legal run may take any step that is possible in its last state. */
  lemma Extend(width: char -> nat, r: Run, step: Step) returns (r': Run)
    requires Legal(width, r) && Enabled(width, r.states[|r.states| - 1], step)
    ensures Legal(width, r') && r'.steps == r.steps + [step]
    ensures r'.states == r.states + [Apply(width, r.states[|r.states| - 1], step)]
  {
    r' := Run(r.states + [Apply(width, r.states[|r.states| - 1], step)], r.steps + [step]);
    forall k: nat | k < |r'.steps| ensures StepOk(width, r', k) {
      assert k < |r.steps| ==> StepOk(width, r, k);
    }
  }

  /** Read at 0, rewritten at 0, executed 300 seconds later: the rewritten text is gone and was never in the message. */
  lemma UnreadTextIsLost(width: char -> nat)
    ensures exists r: Run, k: nat ::
              && Legal(width, r) && k < |r.steps| && Removed(r, k, "a")
              && r.steps[k].Execute? && r.steps[k].id in r.states[k].passes
              && !Contains(r.states[k].passes[r.steps[k].id].message.content, r.states[k].disk.sessions["a"].content)
  {
    ReadMessageIsOne(width);
    TooLongIsMissing(ReadMessage());
    var r := RewriteRun(width, ReadMessage(), TooLong(ReadMessage()));
    assert Removed(r, 3, "a");
  }
}
