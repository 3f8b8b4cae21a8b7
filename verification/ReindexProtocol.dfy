/**
  Sync-on-search as a protocol: every process has a file watcher and any number of searches, and all of them
  share one claim cell in the database. Each step below is one atomic access to shared state.
 */
module ReindexProtocol {
  import opened Prelude

  /** The claim cell: the process that claimed it and when, or nothing when it was released. */
  datatype Claim = Claim(pid: nat, time: int)

  /** One search. `work` holds the paths it took and has not handled yet. */
  datatype Search = Search(pid: nat, pc: Pc, work: set<string>)

  datatype Pc = Idle | Claiming | Taking(since: int) | Lowering(since: int) | Working(since: int) | Gone

  /** `storing` means the event handler has inserted a path and not yet raised the flag. */
  datatype Watcher = Watcher(dirty: set<string>, flag: bool, storing: bool)

  datatype State = State(now: int, claim: Option<Claim>, watchers: map<nat, Watcher>, searches: map<nat, Search>)

  datatype Action =
    | Tick(seconds: nat)
    | Report(pid: nat, path: string)
    | RaiseFlag(pid: nat)
    | CheckDirty(i: nat)
    | TryClaim(i: nat)
    | SwapDirty(i: nat)
    | LowerFlag(i: nat)
    | Handle(i: nat, path: string, present: bool)
    | Release(i: nat)
    | DropSearch(i: nat)
    | Crash(pid: nat)

  ghost predicate Initial(s: State) {
    && s.claim.None?
    && (forall w :: w in s.watchers ==> s.watchers[w] == Watcher({}, false, false))
    && (forall i :: i in s.searches ==> s.searches[i].pc == Idle && s.searches[i].work == {})
  }

  /** The row is updated only when it is empty or its time is before the cutoff. */
  ghost predicate Claimable(s: State, stale: nat) {
    s.claim.None? || s.claim.value.time < s.now - stale
  }

  ghost predicate At(s: State, i: nat, pc: Pc) {
    i in s.searches && s.searches[i].pc == pc
  }

  ghost predicate Alive(s: State, i: nat) {
    i in s.searches && s.searches[i].pid in s.watchers
  }

  ghost predicate Holding(pc: Pc) {
    pc.Taking? || pc.Lowering? || pc.Working?
  }

  ghost predicate Holder(s: State, i: nat) {
    i in s.searches && Holding(s.searches[i].pc)
  }

  ghost predicate Enabled(s: State, a: Action) {
    match a
    case Tick(_) => true
    case Report(w, _) => w in s.watchers && !s.watchers[w].storing
    case RaiseFlag(w) => w in s.watchers && s.watchers[w].storing
    case CheckDirty(i) => Alive(s, i) && s.searches[i].pc == Idle
    case TryClaim(i) => Alive(s, i) && s.searches[i].pc == Claiming
    case SwapDirty(i) => Alive(s, i) && s.searches[i].pc.Taking?
    case LowerFlag(i) => Alive(s, i) && s.searches[i].pc.Lowering?
    case Handle(i, path, _) => Alive(s, i) && s.searches[i].pc.Working? && path in s.searches[i].work
    case Release(i) => Alive(s, i) && s.searches[i].pc.Working? && s.searches[i].work == {}
    case DropSearch(i) => Alive(s, i) && s.searches[i].pc.Working? && s.searches[i].work == {}
    case Crash(w) => w in s.watchers
  }

  ghost function WithPc(s: State, i: nat, pc: Pc): State
    requires i in s.searches
  {
    s.(searches := s.searches[i := s.searches[i].(pc := pc)])
  }

  ghost function WithWatcher(s: State, w: nat, v: Watcher): State {
    s.(watchers := s.watchers[w := v])
  }

  /**
    A search dropped while it awaits embeddings, and a crashed process, leave the claim cell as it is.
    Releasing empties the cell without looking whose claim it holds.
   */
  ghost function Apply(s: State, a: Action, stale: nat): State
    requires Enabled(s, a)
  {
    match a
    case Tick(seconds) => s.(now := s.now + seconds)
    case Report(w, path) => WithWatcher(s, w, s.watchers[w].(dirty := s.watchers[w].dirty + {path}, storing := true))
    case RaiseFlag(w) => WithWatcher(s, w, s.watchers[w].(flag := true, storing := false))
    case CheckDirty(i) => if s.watchers[s.searches[i].pid].flag then WithPc(s, i, Claiming) else s
    case TryClaim(i) =>
      if Claimable(s, stale)
      then WithPc(s.(claim := Some(Claim(s.searches[i].pid, s.now))), i, Taking(s.now))
      else WithPc(s, i, Idle)
    case SwapDirty(i) =>
      var w := s.searches[i].pid;
      var taken := s.searches[i].(pc := Lowering(s.searches[i].pc.since), work := s.watchers[w].dirty);
      WithWatcher(s.(searches := s.searches[i := taken]), w, s.watchers[w].(dirty := {}))
    case LowerFlag(i) =>
      var w := s.searches[i].pid;
      WithWatcher(WithPc(s, i, Working(s.searches[i].pc.since)), w, s.watchers[w].(flag := false))
    case Handle(i, path, _) =>
      s.(searches := s.searches[i := s.searches[i].(work := s.searches[i].work - {path})])
    case Release(i) => WithPc(s.(claim := None), i, Idle)
    case DropSearch(i) => WithPc(s, i, Gone)
    case Crash(w) =>
      s.(watchers := s.watchers - {w},
         searches := map i | i in s.searches ::
           if s.searches[i].pid == w then Search(w, Gone, {}) else s.searches[i])
  }

  /** A finite run: `states[k + 1]` follows from `states[k]` by `actions[k]`. */
  datatype Run = Run(states: seq<State>, actions: seq<Action>)

  ghost predicate StepOk(r: Run, k: nat, stale: nat)
    requires k < |r.actions| && |r.states| == |r.actions| + 1
  {
    Enabled(r.states[k], r.actions[k]) && r.states[k + 1] == Apply(r.states[k], r.actions[k], stale)
  }

  ghost predicate Legal(r: Run, stale: nat) {
    && |r.states| == |r.actions| + 1
    && Initial(r.states[0])
    && forall k: nat {:trigger StepOk(r, k, stale)} :: k < |r.actions| ==> StepOk(r, k, stale)
  }

  // ---------------------------------------------------------------------
  // Mutual exclusion
  // ---------------------------------------------------------------------

  ghost predicate Exclusive(s: State) {
    forall i, j :: Holder(s, i) && Holder(s, j) ==> i == j
  }

  /** Every holder's own claim is the one in the cell. */
  ghost predicate ClaimMatches(s: State) {
    forall i :: Holder(s, i) ==> s.claim == Some(Claim(s.searches[i].pid, s.searches[i].pc.since))
  }

  /** A holder that has kept the claim for longer than the stale threshold. */
  ghost predicate Overdue(s: State, i: nat, stale: nat) {
    Holder(s, i) && s.now - s.searches[i].pc.since > stale
  }

  ghost predicate AnyOverdue(s: State, stale: nat) {
    exists i :: Overdue(s, i, stale)
  }

  /** One attempt to claim breaks mutual exclusion if and only if a holder is overdue at that moment. */
  lemma ClaimBreaksExclusion(s: State, i: nat, stale: nat)
    requires Exclusive(s) && ClaimMatches(s) && Enabled(s, TryClaim(i))
    ensures Exclusive(Apply(s, TryClaim(i), stale)) <==> !AnyOverdue(s, stale)
    ensures !AnyOverdue(s, stale) ==> ClaimMatches(Apply(s, TryClaim(i), stale))
  {
    var s' := Apply(s, TryClaim(i), stale);
    if AnyOverdue(s, stale) {
      var h :| Overdue(s, h, stale);
      assert Holder(s', h) && Holder(s', i) && h != i;
    } else {
      forall j | Holder(s', j) ensures j == i || (Holder(s, j) && s' == WithPc(s, i, Idle)) {
        if j != i {
          assert Holder(s, j) && !Overdue(s, j, stale);
        }
      }
    }
  }

  /** No other step can add a holder or disturb a holder's claim while holders are exclusive. */
  lemma OtherStepsKeep(s: State, a: Action, stale: nat)
    requires Exclusive(s) && ClaimMatches(s) && Enabled(s, a) && !a.TryClaim?
    ensures Exclusive(Apply(s, a, stale)) && ClaimMatches(Apply(s, a, stale))
  {
    var s' := Apply(s, a, stale);
    forall j | Holder(s', j)
      ensures Holder(s, j) && s'.searches[j].pid == s.searches[j].pid
        && s'.searches[j].pc.since == s.searches[j].pc.since
    {
    }
    if a.Release? {
      assert Holder(s, a.i);
      assert forall j :: Holder(s, j) ==> j == a.i;
    }
  }

  /** In the first `n` steps nobody tries to claim while a holder is overdue. */
  ghost predicate TimelyUpTo(r: Run, n: nat, stale: nat) {
    forall k: nat :: k < n && k < |r.actions| && k < |r.states| && r.actions[k].TryClaim? ==>
      !AnyOverdue(r.states[k], stale)
  }

  lemma {:induction false} ExclusiveUpTo(r: Run, n: nat, stale: nat)
    requires Legal(r, stale) && n < |r.states|
    ensures (forall k: nat :: k <= n ==> Exclusive(r.states[k])) <==> TimelyUpTo(r, n, stale)
    ensures TimelyUpTo(r, n, stale) ==> ClaimMatches(r.states[n])
  {
    if n > 0 {
      ExclusiveUpTo(r, n - 1, stale);
      assert StepOk(r, n - 1, stale);
      var s, a := r.states[n - 1], r.actions[n - 1];
      if TimelyUpTo(r, n - 1, stale) {
        assert Exclusive(s);
        if a.TryClaim? {
          ClaimBreaksExclusion(s, a.i, stale);
        } else {
          OtherStepsKeep(s, a, stale);
        }
      }
    }
  }

  /** At most one search holds the claim throughout a run exactly when no claim is attempted past an overdue holder. */
  lemma MutualExclusion(r: Run, stale: nat)
    requires Legal(r, stale)
    ensures (forall k: nat :: k < |r.states| ==> Exclusive(r.states[k])) <==> TimelyUpTo(r, |r.actions|, stale)
    ensures TimelyUpTo(r, |r.actions|, stale) ==> forall k: nat :: k < |r.states| ==> ClaimMatches(r.states[k])
  {
    ExclusiveUpTo(r, |r.actions|, stale);
    if TimelyUpTo(r, |r.actions|, stale) {
      forall k: nat | k < |r.states| ensures ClaimMatches(r.states[k]) {
        ExclusiveUpTo(r, k, stale);
      }
    }
  }

  // ---------------------------------------------------------------------
  // No reported path is forgotten
  // ---------------------------------------------------------------------

  /** A search that has not taken anything yet has nothing to handle. */
  ghost predicate WorkOk(s: State) {
    forall i :: i in s.searches && s.searches[i].work != {} ==> s.searches[i].pc.Lowering? || s.searches[i].pc.Working?
  }

  lemma {:induction false} WorkOkAlways(r: Run, n: nat, stale: nat)
    requires Legal(r, stale) && n < |r.states|
    ensures WorkOk(r.states[n])
  {
    if n > 0 {
      WorkOkAlways(r, n - 1, stale);
      assert StepOk(r, n - 1, stale);
    }
  }

  /** Step `t` of the run takes `path` from process `w` into search `i`. */
  ghost predicate TakenAt(r: Run, t: nat, w: nat, path: string, i: nat) {
    && t < |r.actions| && t < |r.states| && r.actions[t] == SwapDirty(i)
    && i in r.states[t].searches && r.states[t].searches[i].pid == w
    && w in r.states[t].watchers && path in r.states[t].watchers[w].dirty
  }

  ghost predicate HandledAt(r: Run, t: nat, i: nat, path: string) {
    t < |r.actions| && (r.actions[t] == Handle(i, path, true) || r.actions[t] == Handle(i, path, false))
  }

  ghost predicate Waiting(s: State, w: nat, path: string) {
    w in s.watchers && path in s.watchers[w].dirty
  }

  ghost predicate InWork(s: State, i: nat, w: nat, path: string) {
    i in s.searches && s.searches[i].pid == w && path in s.searches[i].work
  }

  /** Taken at step `t >= from` and, by state `n`, still in that search's work or handled by it after the take. */
  ghost predicate Served(r: Run, from: nat, n: nat, w: nat, path: string, t: nat, i: nat) {
    && from <= t < n && TakenAt(r, t, w, path, i)
    && ((n < |r.states| && InWork(r.states[n], i, w, path)) || (exists h: nat :: t < h < n && HandledAt(r, h, i, path)))
  }

  ghost predicate Crashed(r: Run, from: nat, n: nat, w: nat) {
    exists c :: from <= c < n && c < |r.actions| && r.actions[c] == Crash(w)
  }

  ghost predicate Accounted(r: Run, from: nat, n: nat, w: nat, path: string) {
    || (n < |r.states| && Waiting(r.states[n], w, path))
    || (exists t: nat, i: nat :: Served(r, from, n, w, path, t, i))
    || Crashed(r, from, n, w)
  }

  /**
    A path waiting in a process's dirty set at some point is, at every later point, still waiting, or was taken
    by a later swap and is being handled or has been handled, unless the process crashed meanwhile.
   */
  lemma {:induction false} NothingForgotten(r: Run, from: nat, n: nat, w: nat, path: string, stale: nat)
    requires Legal(r, stale) && from <= n < |r.states| && Waiting(r.states[from], w, path)
    ensures Accounted(r, from, n, w, path)
  {
    if from < n {
      NothingForgotten(r, from, n - 1, w, path, stale);
      assert StepOk(r, n - 1, stale);
      if Crashed(r, from, n - 1, w) {
        var c :| from <= c < n - 1 && c < |r.actions| && r.actions[c] == Crash(w);
        assert Crashed(r, from, n, w);
      } else if Waiting(r.states[n - 1], w, path) {
        StillWaiting(r, from, n, w, path, stale);
      } else {
        var t: nat, i: nat :| Served(r, from, n - 1, w, path, t, i);
        StillServed(r, from, n, w, path, t, i, stale);
      }
    }
  }

  lemma StillWaiting(r: Run, from: nat, n: nat, w: nat, path: string, stale: nat)
    requires Legal(r, stale) && from < n < |r.states| && StepOk(r, n - 1, stale) && Waiting(r.states[n - 1], w, path)
    ensures Accounted(r, from, n, w, path)
  {
    var s, a := r.states[n - 1], r.actions[n - 1];
    match a {
      case SwapDirty(i) =>
        if s.searches[i].pid == w {
          assert TakenAt(r, n - 1, w, path, i);
          assert InWork(r.states[n], i, w, path);
          assert Served(r, from, n, w, path, n - 1, i);
        } else {
          assert Waiting(r.states[n], w, path);
        }
      case Crash(v) =>
        if v == w {
          assert Crashed(r, from, n, w);
        } else {
          assert Waiting(r.states[n], w, path);
        }
      case _ =>
        assert Waiting(r.states[n], w, path);
    }
  }

  lemma StillServed(r: Run, from: nat, n: nat, w: nat, path: string, t: nat, i: nat, stale: nat)
    requires Legal(r, stale) && from < n < |r.states| && StepOk(r, n - 1, stale)
    requires Served(r, from, n - 1, w, path, t, i)
    ensures Accounted(r, from, n, w, path)
  {
    var s, a := r.states[n - 1], r.actions[n - 1];
    if h: nat :| t < h < n - 1 && HandledAt(r, h, i, path) {
      assert Served(r, from, n, w, path, t, i);
    } else {
      assert InWork(s, i, w, path);
      WorkOkAlways(r, n - 1, stale);
      if a == Crash(w) {
        assert Crashed(r, from, n, w);
      } else if a == Handle(i, path, true) || a == Handle(i, path, false) {
        assert HandledAt(r, n - 1, i, path);
        assert Served(r, from, n, w, path, t, i);
      } else {
        assert InWork(r.states[n], i, w, path);
        assert Served(r, from, n, w, path, t, i);
      }
    }
  }

  /** Once nothing waits and nothing is in work, every path a living process reported was handled after the report. */
  lemma QuietMeansHandled(r: Run, k: nat, n: nat, w: nat, path: string, stale: nat)
    requires Legal(r, stale) && k < n < |r.states| && r.actions[k] == Report(w, path)
    requires !Crashed(r, k, n, w)
    requires !Waiting(r.states[n], w, path) && forall i :: !InWork(r.states[n], i, w, path)
    ensures exists t: nat, i: nat, h: nat :: k < t < h < n && TakenAt(r, t, w, path, i) && HandledAt(r, h, i, path)
  {
    assert StepOk(r, k, stale);
    assert !Crashed(r, k + 1, n, w);
    NothingForgotten(r, k + 1, n, w, path, stale);
    var t: nat, i: nat :| Served(r, k + 1, n, w, path, t, i);
    assert !InWork(r.states[n], i, w, path);
    var h: nat :| t < h < n && HandledAt(r, h, i, path);
  }

  // ---------------------------------------------------------------------
  // The flag
  // ---------------------------------------------------------------------

  /** Paths wait, but the flag is down and no handler is about to raise it: no search will look. */
  ghost predicate Trapped(s: State, w: nat) {
    w in s.watchers && s.watchers[w].dirty != {} && !s.watchers[w].flag && !s.watchers[w].storing
  }

  /** A step traps a process exactly when it lowers the flag over paths inserted since the swap. */
  lemma TrapExactly(s: State, a: Action, w: nat, stale: nat)
    requires Enabled(s, a) && !Trapped(s, w)
    ensures Trapped(Apply(s, a, stale), w) <==>
              && a.LowerFlag? && s.searches[a.i].pid == w
              && s.watchers[w].dirty != {} && !s.watchers[w].storing
  {
  }

  /** Step `k` lowers the flag of process `w` over waiting paths whose handlers have already raised it. */
  ghost predicate TrapStep(r: Run, k: nat, w: nat) {
    && k < |r.actions| && k < |r.states| && r.actions[k].LowerFlag?
    && OfProcess(r.states[k], r.actions[k].i, w) && w in r.states[k].watchers
    && r.states[k].watchers[w].dirty != {} && !r.states[k].watchers[w].storing
  }

  ghost predicate OfProcess(s: State, i: nat, w: nat) {
    i in s.searches && s.searches[i].pid == w
  }

  lemma {:induction false} UntrappedUpTo(r: Run, n: nat, w: nat, stale: nat)
    requires Legal(r, stale) && n < |r.states|
    ensures (forall k: nat :: k <= n ==> !Trapped(r.states[k], w)) <==> (forall k: nat :: k < n ==> !TrapStep(r, k, w))
  {
    if n > 0 {
      UntrappedUpTo(r, n - 1, w, stale);
      assert StepOk(r, n - 1, stale);
      if !Trapped(r.states[n - 1], w) {
        TrapExactly(r.states[n - 1], r.actions[n - 1], w, stale);
        assert TrapStep(r, n - 1, w) <==> Trapped(r.states[n], w);
      }
      assert (forall k: nat :: k <= n ==> !Trapped(r.states[k], w))
        <==> (forall k: nat :: k <= n - 1 ==> !Trapped(r.states[k], w)) && !Trapped(r.states[n], w);
    }
  }

  // What the dirty set and the handler's state are, told by the actions alone.

  /** Process `w` took no paths in the steps after `j` and before `n`. */
  ghost predicate NoSwap(r: Run, j: nat, n: nat, w: nat) {
    forall m: nat :: j < m < n && m < |r.actions| && m < |r.states| && r.actions[m].SwapDirty? ==>
      !OfProcess(r.states[m], r.actions[m].i, w)
  }

  ghost predicate ReportedSince(r: Run, j: nat, n: nat, w: nat, path: string) {
    j < n && j < |r.actions| && r.actions[j] == Report(w, path) && NoSwap(r, j, n, w)
  }

  /** A living process's path waits exactly when it was reported and nothing was taken since. */
  lemma {:induction false} WaitingExactly(r: Run, n: nat, w: nat, path: string, stale: nat)
    requires Legal(r, stale) && n < |r.states| && w in r.states[n].watchers
    ensures Waiting(r.states[n], w, path) <==> exists j: nat :: ReportedSince(r, j, n, w, path)
  {
    if n > 0 {
      assert StepOk(r, n - 1, stale);
      var s, a := r.states[n - 1], r.actions[n - 1];
      WaitingExactly(r, n - 1, w, path, stale);
      if a == Report(w, path) {
        assert ReportedSince(r, n - 1, n, w, path);
      } else if a.SwapDirty? && OfProcess(s, a.i, w) {
        forall j: nat ensures !ReportedSince(r, j, n, w, path) {
          assert j < n - 1 ==> !NoSwap(r, j, n, w);
        }
      } else {
        assert Waiting(r.states[n], w, path) <==> Waiting(s, w, path);
        var last: nat := n - 1;
        if j: nat :| ReportedSince(r, j, last, w, path) {
          assert ReportedSince(r, j, n, w, path);
        }
        if j: nat :| ReportedSince(r, j, n, w, path) {
          assert ReportedSince(r, j, last, w, path);
        }
      }
    }
  }

  ghost predicate RaisedAfter(r: Run, j: nat, n: nat, w: nat) {
    exists m: nat :: j < m < n && m < |r.actions| && r.actions[m] == RaiseFlag(w)
  }

  ghost predicate ReportedAt(r: Run, j: nat, w: nat) {
    j < |r.actions| && r.actions[j].Report? && r.actions[j].pid == w
  }

  /** A living process's handler is at rest exactly when every report was followed by raising the flag. */
  lemma {:induction false} AtRestExactly(r: Run, n: nat, w: nat, stale: nat)
    requires Legal(r, stale) && n < |r.states| && w in r.states[n].watchers
    ensures !r.states[n].watchers[w].storing <==>
              forall j: nat :: j < n && ReportedAt(r, j, w) ==> RaisedAfter(r, j, n, w)
  {
    if n > 0 {
      assert StepOk(r, n - 1, stale);
      var a := r.actions[n - 1];
      AtRestExactly(r, n - 1, w, stale);
      if a == RaiseFlag(w) {
        forall j: nat | j < n && ReportedAt(r, j, w) ensures RaisedAfter(r, j, n, w) {
          assert j < n - 1;
        }
      } else if a.Report? && a.pid == w {
        assert ReportedAt(r, n - 1, w) && !RaisedAfter(r, n - 1, n, w);
      } else {
        forall j: nat ensures RaisedAfter(r, j, n, w) <==> RaisedAfter(r, j, n - 1, w) {
          if RaisedAfter(r, j, n, w) {
            var m: nat :| j < m < n && m < |r.actions| && r.actions[m] == RaiseFlag(w);
            assert m < n - 1;
          }
        }
        assert r.states[n].watchers[w].storing <==> r.states[n - 1].watchers[w].storing;
      }
    }
  }

  /**
    Step `k` lowers the flag of process `w` although some report came after the last time paths were taken,
    and the handler of every report has finished.
   */
  ghost predicate LoweredOverReport(r: Run, k: nat, w: nat) {
    && k < |r.actions| && k < |r.states| && r.actions[k].LowerFlag? && OfProcess(r.states[k], r.actions[k].i, w)
    && (exists j: nat, path :: ReportedSince(r, j, k, w, path))
    && (forall j: nat :: j < k && ReportedAt(r, j, w) ==> RaisedAfter(r, j, k, w))
  }

  lemma TrapStepExactly(r: Run, k: nat, w: nat, stale: nat)
    requires Legal(r, stale) && k < |r.actions|
    ensures TrapStep(r, k, w) <==> LoweredOverReport(r, k, w)
  {
    assert StepOk(r, k, stale);
    var s := r.states[k];
    if r.actions[k].LowerFlag? && OfProcess(s, r.actions[k].i, w) {
      AtRestExactly(r, k, w, stale);
      if s.watchers[w].dirty != {} {
        var path :| path in s.watchers[w].dirty;
        assert Waiting(s, w, path);
        WaitingExactly(r, k, w, path, stale);
      }
      if j: nat, path :| ReportedSince(r, j, k, w, path) {
        WaitingExactly(r, k, w, path, stale);
        assert path in s.watchers[w].dirty;
      }
    }
  }

  /** Throughout a run no path of a process is ever trapped if and only if its flag is never lowered over a report. */
  lemma NeverTrappedExactly(r: Run, w: nat, stale: nat)
    requires Legal(r, stale)
    ensures (forall k: nat :: k < |r.states| ==> !Trapped(r.states[k], w))
       <==> (forall k: nat :: k < |r.actions| ==> !LoweredOverReport(r, k, w))
  {
    UntrappedUpTo(r, |r.actions|, w, stale);
    forall k: nat | k < |r.actions| ensures TrapStep(r, k, w) <==> LoweredOverReport(r, k, w) {
      TrapStepExactly(r, k, w, stale);
    }
  }

  // ---------------------------------------------------------------------
  // A search that finds the flag up
  // ---------------------------------------------------------------------

  /** The actions are possible one after the other and end in the second state. */
  ghost predicate Leads(s: State, actions: seq<Action>, s': State, stale: nat)
    decreases |actions|
  {
    if actions == [] then s' == s
    else Enabled(s, actions[0]) && Leads(Apply(s, actions[0], stale), actions[1..], s', stale)
  }

  lemma LeadsCons(s: State, a: Action, t: State, actions: seq<Action>, s': State, stale: nat)
    requires Enabled(s, a) && t == Apply(s, a, stale) && Leads(t, actions, s', stale)
    ensures Leads(s, [a] + actions, s', stale)
  {
    assert ([a] + actions)[1..] == actions;
  }

  /** Handles everything in the search's work, in some order, and releases the claim. */
  lemma {:induction false} HandleAll(s: State, i: nat, stale: nat) returns (actions: seq<Action>, s': State)
    requires Alive(s, i) && s.searches[i].pc.Working?
    ensures Leads(s, actions, s', stale)
    ensures s' == s.(claim := None, searches := s.searches[i := Search(s.searches[i].pid, Idle, {})])
    ensures forall path :: path in s.searches[i].work ==> Handle(i, path, true) in actions
    decreases |s.searches[i].work|
  {
    var work := s.searches[i].work;
    if work == {} {
      s' := Apply(s, Release(i), stale);
      LeadsCons(s, Release(i), s', [], s', stale);
      actions := [Release(i)] + [];
    } else {
      var path :| path in work;
      var t := Apply(s, Handle(i, path, true), stale);
      assert t.searches[i].work == work - {path};
      var rest;
      rest, s' := HandleAll(t, i, stale);
      LeadsCons(s, Handle(i, path, true), t, rest, s', stale);
      actions := [Handle(i, path, true)] + rest;
    }
  }

  /**
    Where the flag is up and the claim can be had, a search of the process can go on undisturbed until everything
    that waited has been handled; then nothing waits, the flag is down, the claim free and the search idle again.
   */
  lemma ServesWhatWaits(s: State, i: nat, stale: nat) returns (actions: seq<Action>, s': State)
    requires Alive(s, i) && s.searches[i].pc == Idle && s.watchers[s.searches[i].pid].flag && Claimable(s, stale)
    ensures Leads(s, actions, s', stale)
    ensures var w := s.searches[i].pid;
            && (forall path :: path in s.watchers[w].dirty ==> Handle(i, path, true) in actions)
            && s' == State(s.now, None, s.watchers[w := s.watchers[w].(dirty := {}, flag := false)],
                           s.searches[i := Search(w, Idle, {})])
  {
    var w := s.searches[i].pid;
    var s1 := Apply(s, CheckDirty(i), stale);
    var s2 := Apply(s1, TryClaim(i), stale);
    var s3 := Apply(s2, SwapDirty(i), stale);
    var s4 := Apply(s3, LowerFlag(i), stale);
    assert s4.searches[i].work == s.watchers[w].dirty;
    assert s4.watchers == s.watchers[w := s.watchers[w].(dirty := {}, flag := false)];
    var rest;
    rest, s' := HandleAll(s4, i, stale);
    LeadsCons(s3, LowerFlag(i), s4, rest, s', stale);
    LeadsCons(s2, SwapDirty(i), s3, [LowerFlag(i)] + rest, s', stale);
    LeadsCons(s1, TryClaim(i), s2, [SwapDirty(i)] + ([LowerFlag(i)] + rest), s', stale);
    actions := [CheckDirty(i)] + ([TryClaim(i)] + ([SwapDirty(i)] + ([LowerFlag(i)] + rest)));
    LeadsCons(s, CheckDirty(i), s1, actions[1..], s', stale);
  }

  // ---------------------------------------------------------------------
  // Two runs
  // ---------------------------------------------------------------------

  ghost predicate Reachable(s: State, stale: nat) {
    exists r: Run :: Legal(r, stale) && s == r.states[|r.states| - 1]
  }

  lemma ReachableStep(s: State, a: Action, s': State, stale: nat)
    requires Reachable(s, stale) && Enabled(s, a) && s' == Apply(s, a, stale)
    ensures Reachable(s', stale)
  {
    var r: Run :| Legal(r, stale) && s == r.states[|r.states| - 1];
    var r' := Run(r.states + [s'], r.actions + [a]);
    forall k: nat | k < |r'.actions| ensures StepOk(r', k, stale) {
      assert k < |r.actions| ==> StepOk(r, k, stale);
    }
    assert Legal(r', stale);
  }

  /** Two processes with one search each. */
  ghost function Start(): State {
    State(0, None, map[0 := Watcher({}, false, false), 1 := Watcher({}, false, false)],
          map[0 := Search(0, Idle, {}), 1 := Search(1, Idle, {})])
  }

  lemma StartReachable(stale: nat)
    ensures Reachable(Start(), stale)
  {
    var r := Run([Start()], []);
    assert Legal(r, stale) && r.states[|r.states| - 1] == Start();
  }

  /** Process `w` sees one change and its search `w` gets as far as asking for the claim. */
  lemma ReportAndCheck(s: State, w: nat, path: string, stale: nat) returns (s': State)
    requires Reachable(s, stale) && w in s.watchers && !s.watchers[w].storing
    requires At(s, w, Idle) && s.searches[w].pid == w
    ensures Reachable(s', stale)
    ensures s'.now == s.now && s'.claim == s.claim
    ensures s'.watchers == s.watchers[w := Watcher(s.watchers[w].dirty + {path}, true, false)]
    ensures s'.searches == s.searches[w := s.searches[w].(pc := Claiming)]
  {
    var s1 := Apply(s, Report(w, path), stale);
    ReachableStep(s, Report(w, path), s1, stale);
    var s2 := Apply(s1, RaiseFlag(w), stale);
    ReachableStep(s1, RaiseFlag(w), s2, stale);
    s' := Apply(s2, CheckDirty(w), stale);
    ReachableStep(s2, CheckDirty(w), s', stale);
  }

  /** Search `w` claims the free cell. */
  lemma TakeClaim(s: State, w: nat, stale: nat) returns (s': State)
    requires Reachable(s, stale) && w in s.watchers && At(s, w, Claiming) && s.searches[w].pid == w
               && Claimable(s, stale)
    ensures Reachable(s', stale)
    ensures s' == WithPc(s.(claim := Some(Claim(w, s.now))), w, Taking(s.now))
  {
    s' := Apply(s, TryClaim(w), stale);
    ReachableStep(s, TryClaim(w), s', stale);
  }

  lemma TakeDirty(s: State, w: nat, stale: nat) returns (s': State)
    requires Reachable(s, stale) && w in s.watchers && w in s.searches && s.searches[w].pc.Taking?
               && s.searches[w].pid == w
    ensures Reachable(s', stale)
    ensures s'.now == s.now && s'.claim == s.claim
    ensures s'.watchers == s.watchers[w := s.watchers[w].(dirty := {})]
    ensures s'.searches == s.searches[w := Search(w, Lowering(s.searches[w].pc.since), s.watchers[w].dirty)]
  {
    s' := Apply(s, SwapDirty(w), stale);
    ReachableStep(s, SwapDirty(w), s', stale);
  }

  /** With one path taken: lower the flag, handle the path, release. */
  lemma Finish(s: State, w: nat, path: string, stale: nat) returns (s': State)
    requires Reachable(s, stale) && w in s.watchers && w in s.searches
    requires s.searches[w].pc.Lowering? && s.searches[w].pid == w && s.searches[w].work == {path}
    ensures Reachable(s', stale)
    ensures s'.now == s.now && s'.claim == None
    ensures s'.watchers == s.watchers[w := s.watchers[w].(flag := false)]
    ensures s'.searches == s.searches[w := Search(w, Idle, {})]
  {
    var s1 := Apply(s, LowerFlag(w), stale);
    ReachableStep(s, LowerFlag(w), s1, stale);
    var s2 := Apply(s1, Handle(w, path, true), stale);
    ReachableStep(s1, Handle(w, path, true), s2, stale);
    assert s2.searches[w].work == {};
    s' := Apply(s2, Release(w), stale);
    ReachableStep(s2, Release(w), s', stale);
  }

  /** A report between the swap and the lowering of the flag ends, with every search idle, in a trap. */
  lemma TrapReachable(stale: nat)
    ensures exists s :: Reachable(s, stale) && Trapped(s, 0) && At(s, 0, Idle) && At(s, 1, Idle)
  {
    StartReachable(stale);
    var s1 := ReportAndCheck(Start(), 0, "a.md", stale);
    var s2 := TakeClaim(s1, 0, stale);
    var s3 := TakeDirty(s2, 0, stale);
    var s4 := Apply(s3, Report(0, "b.md"), stale);
    ReachableStep(s3, Report(0, "b.md"), s4, stale);
    var s5 := Apply(s4, RaiseFlag(0), stale);
    ReachableStep(s4, RaiseFlag(0), s5, stale);
    assert {} + {"a.md"} == {"a.md"};
    var s6 := Finish(s5, 0, "a.md", stale);
    assert "b.md" in s6.watchers[0].dirty;
  }

  /** An overdue holder is overtaken, and its late release then empties the claim under the new holder. */
  lemma LateReleaseReachable(stale: nat)
    ensures exists s :: Reachable(s, stale) && !Exclusive(s)
    ensures exists s :: Reachable(s, stale) && Holder(s, 1) && s.claim.None?
  {
    StartReachable(stale);
    var s1 := ReportAndCheck(Start(), 0, "a.md", stale);
    var s2 := TakeClaim(s1, 0, stale);
    var s3 := ReportAndCheck(s2, 1, "b.md", stale);
    var s4 := Apply(s3, Tick(stale + 1), stale);
    ReachableStep(s3, Tick(stale + 1), s4, stale);
    var s5 := TakeClaim(s4, 1, stale);
    assert Holder(s5, 0) && Holder(s5, 1);
    var s6 := TakeDirty(s5, 0, stale);
    assert {} + {"a.md"} == {"a.md"};
    var s7 := Finish(s6, 0, "a.md", stale);
    assert Holder(s7, 1) && s7.claim.None?;
  }
}
