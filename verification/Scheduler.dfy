/** Running a task graph layer by layer, each layer in parallel chunks. */
module Scheduling {
  import opened Prelude
  import opened TaskGraphs
  import opened Kahn

  const U32_MAX: nat := 0xFFFF_FFFF

  datatype Outcome = Outcome(taskId: TaskId, success: bool, quality: real)

  /** What an observer of the executor sees: calls to it, and the completion of the futures it returned. */
  datatype Event = Started(node: nat) | Finished(node: nat)

  ghost function StartedIn(trace: seq<Event>): set<nat> {
    if trace == [] then {}
    else StartedIn(trace[..|trace| - 1]) + (match trace[|trace| - 1] case Started(v) => {v} case Finished(_) => {})
  }

  ghost function FinishedIn(trace: seq<Event>): set<nat> {
    if trace == [] then {}
    else FinishedIn(trace[..|trace| - 1]) + (match trace[|trace| - 1] case Started(_) => {} case Finished(v) => {v})
  }

  /**
    An entry may start once, when every entry with an edge to it has finished and fewer than `par` entries are in
    flight; only a running entry finishes. With distinct ids the edges are the known dependencies.
   */
  ghost predicate Legal(g: TaskGraph, history: seq<Event>, e: Event, par: nat) {
    match e
    case Started(v) =>
      && v < |g.tasks|
      && v !in StartedIn(history)
      && (forall u :: g.HasEdge(u, v) ==> u in FinishedIn(history))
      && |StartedIn(history) - FinishedIn(history)| < par
    case Finished(v) =>
      v in StartedIn(history) && v !in FinishedIn(history)
  }

  ghost predicate LegalRun(g: TaskGraph, trace: seq<Event>, par: nat) {
    forall i {:trigger LegalAt(g, trace, par, i)} :: 0 <= i < |trace| ==> LegalAt(g, trace, par, i)
  }

  ghost predicate LegalAt(g: TaskGraph, trace: seq<Event>, par: nat, i: nat)
    requires i < |trace|
  {
    Legal(g, trace[..i], trace[i], par)
  }

  lemma LegalRunSnoc(g: TaskGraph, trace: seq<Event>, e: Event, par: nat)
    requires LegalRun(g, trace, par) && Legal(g, trace, e, par)
    ensures LegalRun(g, trace + [e], par)
  {
    var all := trace + [e];
    forall i | 0 <= i < |all| ensures LegalAt(g, all, par, i) {
      if i < |trace| {
        assert LegalAt(g, trace, par, i);
        assert all[..i] == trace[..i];
      } else {
        assert all[..i] == trace;
      }
    }
  }

  lemma TraceSnoc(trace: seq<Event>, e: Event)
    ensures StartedIn(trace + [e]) == StartedIn(trace) + (if e.Started? then {e.node} else {})
    ensures FinishedIn(trace + [e]) == FinishedIn(trace) + (if e.Finished? then {e.node} else {})
  {
    assert (trace + [e])[..|trace|] == trace;
  }

  /** Exactly the tasks of `done` have been started, all of them have finished. */
  ghost predicate Settled(g: TaskGraph, trace: seq<Event>, par: nat, done: seq<nat>) {
    && LegalRun(g, trace, par)
    && StartedIn(trace) == Elements(done)
    && FinishedIn(trace) == Elements(done)
  }

  /** One outcome per entry of `done`, in that order; the task run is the one its id leads to. */
  ghost predicate OutcomesOf(outcomes: seq<Outcome>, g: TaskGraph, exec: (nat, Task) -> Outcome, done: seq<nat>)
    requires g.WellFormed()
  {
    && |outcomes| == |done|
    && forall i :: 0 <= i < |done| ==> done[i] < |g.tasks| && outcomes[i] == exec(i, g.tasks[Found(g, done[i])])
  }

  lemma FlattenTake(layers: seq<seq<nat>>, k: nat)
    requires k < |layers|
    ensures Flatten(layers[..k + 1]) == Flatten(layers[..k]) + layers[k]
  {
    assert layers[..k + 1] == layers[..k] + [layers[k]];
    FlattenSnoc(layers[..k], layers[k]);
  }

  lemma FlattenSplit(layers: seq<seq<nat>>, k: nat)
    requires k <= |layers|
    ensures Flatten(layers) == Flatten(layers[..k]) + Flatten(layers[k..])
  {
    assert layers == layers[..k] + layers[k..];
    FlattenAppend(layers[..k], layers[k..]);
  }

  /** The entry whose task is run for entry `v`: the last one with its id. */
  ghost function Found(g: TaskGraph, v: nat): nat
    requires g.WellFormed() && v < |g.tasks|
  {
    g.nodeMap[g.tasks[v].id]
  }

  ghost function FoundAll(g: TaskGraph, nodes: seq<nat>): seq<nat>
    requires g.WellFormed() && forall i :: 0 <= i < |nodes| ==> nodes[i] < |g.tasks|
  {
    seq(|nodes|, i requires 0 <= i < |nodes| => Found(g, nodes[i]))
  }

  /**
    Looking tasks up by id runs every entry's own task, and no task twice,
    if and only if the ids are distinct.
   */
  lemma OwnTaskExactly(g: TaskGraph, nodes: seq<seq<nat>>)
    requires g.WellFormed() && TopoLayering(g, nodes)
    ensures var all: seq<nat> := Flatten(nodes);
            && (forall i :: 0 <= i < |all| ==> all[i] < |g.tasks|)
            && (FoundAll(g, all) == all <==> DistinctIds(g.tasks))
            && (NoDuplicates(FoundAll(g, all)) <==> DistinctIds(g.tasks))
  {
    var all: seq<nat> := Flatten(nodes);
    var enabler :| KahnOrder(g, all, enabler);
    OwnTaskAmong(g, all);
  }

  lemma OwnTaskAmong(g: TaskGraph, all: seq<nat>)
    requires g.WellFormed() && NoDuplicates(all) && forall v: nat :: v < |g.tasks| <==> v in all
    ensures forall i :: 0 <= i < |all| ==> all[i] < |g.tasks|
    ensures FoundAll(g, all) == all <==> DistinctIds(g.tasks)
    ensures NoDuplicates(FoundAll(g, all)) <==> DistinctIds(g.tasks)
  {
    assert forall i :: 0 <= i < |all| ==> all[i] in all;
    var found := FoundAll(g, all);
    if DistinctIds(g.tasks) {
      assert found == all;
    } else {
      var u, v :| 0 <= u < v < |g.tasks| && g.tasks[u].id == g.tasks[v].id;
      assert u in all && v in all;
      var i :| 0 <= i < |all| && all[i] == u;
      var j :| 0 <= j < |all| && all[j] == v;
      assert found[i] == found[j];
    }
  }

  // ---------------------------------------------------------------------
  // The shape of a run: layers one after the other, each in full chunks
  // ---------------------------------------------------------------------

  /** All entries of the chunk are started, in order, before the first of them finishes; then each finishes once. */
  ghost predicate ChunkTrace(part: seq<Event>, nodes: seq<nat>) {
    && |part| == 2 * |nodes|
    && (forall i :: 0 <= i < |nodes| ==> part[i] == Started(nodes[i]))
    && (forall i :: |nodes| <= i < |part| ==> part[i].Finished?)
    && (forall v :: v in nodes ==> Finished(v) in part[|nodes|..])
  }

  /** So many entries make whole chunks. */
  ghost predicate Whole(n: nat, par: nat)
    requires par > 0
  {
    n == 0 || (n >= par && Whole(n - par, par))
  }

  lemma {:induction false} WholeGap(a: nat, b: nat, par: nat)
    requires par > 0 && Whole(a, par) && Whole(b, par) && a < b
    ensures a + par <= b
  {
    if a > 0 {
      WholeGap(a - par, b - par, par);
    }
  }

  /** The chunk that begins at entry `start` has `par` entries, or all that are left. */
  ghost predicate ChunkAt(trace: seq<Event>, nodes: seq<nat>, par: nat, start: nat)
    requires |trace| == 2 * |nodes| && start < |nodes|
  {
    var end := if start + par <= |nodes| then start + par else |nodes|;
    ChunkTrace(trace[2 * start..2 * end], nodes[start..end])
  }

  /** Chunk after chunk: every chunk but the last is full. */
  ghost predicate InChunks(trace: seq<Event>, nodes: seq<nat>, par: nat)
    requires par > 0
  {
    && |trace| == 2 * |nodes|
    && forall start: nat {:trigger ChunkAt(trace, nodes, par, start)} ::
         start < |nodes| && Whole(start, par) ==> ChunkAt(trace, nodes, par, start)
  }

  /** Layer `k` is run after the layers before it. */
  ghost predicate LayerAt(trace: seq<Event>, layers: seq<seq<nat>>, par: nat, k: nat)
    requires par > 0 && k < |layers|
  {
    var start, end := 2 * |Flatten(layers[..k])|, 2 * |Flatten(layers[..k + 1])|;
    start <= end <= |trace| && InChunks(trace[start..end], layers[k], par)
  }

  /** Layer after layer. */
  ghost predicate InLayers(trace: seq<Event>, layers: seq<seq<nat>>, par: nat)
    requires par > 0
  {
    && |trace| == 2 * |Flatten(layers)|
    && forall k: nat {:trigger LayerAt(trace, layers, par, k)} :: k < |layers| ==> LayerAt(trace, layers, par, k)
  }

  lemma NextChunk(part: seq<Event>, nodes: seq<nat>, pos: nat, end: nat, chunk: seq<Event>, par: nat)
    requires par > 0 && pos < end <= |nodes| && end == (if pos + par <= |nodes| then pos + par else |nodes|)
    requires Whole(pos, par) && InChunks(part, nodes[..pos], par) && ChunkTrace(chunk, nodes[pos..end])
    ensures InChunks(part + chunk, nodes[..end], par) && (end == |nodes| || Whole(end, par))
  {
    var all, entries := part + chunk, nodes[..end];
    assert |all| == 2 * |entries|;
    forall start: nat | start < |entries| && Whole(start, par) ensures ChunkAt(all, entries, par, start) {
      if start < pos {
        WholeGap(start, pos, par);
        EarlierChunk(part, nodes, pos, end, chunk, par, start);
      } else {
        if start > pos {
          WholeGap(pos, start, par);
        }
        NewestChunk(part, nodes, pos, end, chunk, par);
      }
    }
  }

  lemma EarlierChunk(part: seq<Event>, nodes: seq<nat>, pos: nat, end: nat, chunk: seq<Event>, par: nat, start: nat)
    requires par > 0 && start + par <= pos < end <= |nodes| && |part| == 2 * pos && |chunk| == 2 * (end - pos)
    requires ChunkAt(part, nodes[..pos], par, start)
    ensures ChunkAt(part + chunk, nodes[..end], par, start)
  {
    SliceOfFirst(part, chunk, 2 * start, 2 * (start + par));
    SliceOfTake(nodes, end, start, start + par);
    SliceOfTake(nodes, pos, start, start + par);
  }

  lemma NewestChunk(part: seq<Event>, nodes: seq<nat>, pos: nat, end: nat, chunk: seq<Event>, par: nat)
    requires par > 0 && pos < end <= |nodes| && end == (if pos + par <= |nodes| then pos + par else |nodes|)
    requires |part| == 2 * pos && ChunkTrace(chunk, nodes[pos..end])
    ensures ChunkAt(part + chunk, nodes[..end], par, pos)
  {
    SliceOfSecond(part, chunk);
    SliceOfTake(nodes, end, pos, end);
  }

  lemma SliceOfFirst<T>(a: seq<T>, b: seq<T>, i: nat, j: nat)
    requires i <= j <= |a|
    ensures (a + b)[i..j] == a[i..j]
  {
  }

  lemma SliceOfSecond<T>(a: seq<T>, b: seq<T>)
    ensures (a + b)[|a|..|a| + |b|] == b
  {
  }

  lemma SliceOfTake<T>(s: seq<T>, n: nat, i: nat, j: nat)
    requires i <= j <= n <= |s|
    ensures s[..n][i..j] == s[i..j]
  {
  }

  lemma NextLayer(trace: seq<Event>, layers: seq<seq<nat>>, k: nat, part: seq<Event>, par: nat)
    requires par > 0 && k < |layers| && InLayers(trace, layers[..k], par) && InChunks(part, layers[k], par)
    ensures InLayers(trace + part, layers[..k + 1], par)
  {
    var all, done := trace + part, layers[..k + 1];
    FlattenTake(layers, k);
    forall j: nat | j < |done| ensures LayerAt(all, done, par, j) {
      assert done[..j] == layers[..j] && done[..j + 1] == layers[..j + 1];
      if j < k {
        assert LayerAt(trace, layers[..k], par, j);
        assert layers[..k][..j] == layers[..j] && layers[..k][..j + 1] == layers[..j + 1];
        var start, end := 2 * |Flatten(layers[..j])|, 2 * |Flatten(layers[..j + 1])|;
        assert all[start..end] == trace[start..end];
      } else {
        assert all[|trace|..|all|] == part;
      }
    }
  }

  lemma NoLayers(layers: seq<seq<nat>>, par: nat)
    requires par > 0
    ensures InLayers([], layers[..0], par)
  {
  }

  // ---------------------------------------------------------------------
  // Repeated ids and the order of the tasks that are run
  // ---------------------------------------------------------------------

  ghost predicate Earlier(nodes: seq<seq<nat>>, u: nat, v: nat) {
    exists j, k :: 0 <= j < k < |nodes| && u in nodes[j] && v in nodes[k]
  }

  /** The known dependencies of the task that is run for entry `v` lie in earlier layers than `v`. */
  ghost predicate DependenciesEarlier(g: TaskGraph, nodes: seq<seq<nat>>, v: nat)
    requires g.WellFormed() && v < |g.tasks|
  {
    forall dep {:trigger g.nodeMap[dep]} :: dep in g.tasks[Found(g, v)].deps && dep in g.nodeMap ==>
      Earlier(nodes, g.nodeMap[dep], v)
  }

  /** The last task with the id of entry `v` has no known dependency. */
  ghost predicate Independent(g: TaskGraph, v: nat)
    requires g.WellFormed() && v < |g.tasks|
  {
    forall dep :: dep in g.tasks[Found(g, v)].deps ==> dep !in g.nodeMap
  }

  lemma DependencyEdge(g: TaskGraph, v: nat, dep: TaskId)
    requires Built(g) && v < |g.tasks| && IsLast(g.tasks, v) && dep in g.tasks[v].deps && dep in g.nodeMap
    ensures g.HasEdge(g.nodeMap[dep], v)
  {
    var u := g.nodeMap[dep];
    LastIsFound(g, u);
    assert EdgesBetween(g.tasks, g.edges, u, v);
    NamedAtLeast(g.tasks, |g.tasks|, v, dep);
    CountPositive(g.tasks[v].deps, dep);
    ParallelZero(g.edges, u, v);
  }

  lemma EdgeIntoLast(g: TaskGraph, u: nat, v: nat)
    requires Built(g) && v < |g.tasks| && g.HasEdge(u, v)
    ensures IsLast(g.tasks, v)
  {
    assert EdgesBetween(g.tasks, g.edges, u, v);
    ParallelZero(g.edges, u, v);
  }

  /**
    Every task that is run has its known dependencies in earlier layers if and only if
    no id that is repeated has a known dependency in its last task.
   */
  lemma TaskOrderExactly(g: TaskGraph, nodes: seq<seq<nat>>)
    requires Built(g) && TopoLayering(g, nodes)
    ensures (forall v: nat :: v < |g.tasks| ==> DependenciesEarlier(g, nodes, v))
       <==> (forall v: nat :: v < |g.tasks| && !IsLast(g.tasks, v) ==> Independent(g, v))
  {
    forall v: nat | v < |g.tasks|
      ensures DependenciesEarlier(g, nodes, v) <==> IsLast(g.tasks, v) || Independent(g, v)
    {
      TaskOrderAt(g, nodes, v);
    }
  }

  lemma TaskOrderAt(g: TaskGraph, nodes: seq<seq<nat>>, v: nat)
    requires Built(g) && TopoLayering(g, nodes) && v < |g.tasks|
    ensures DependenciesEarlier(g, nodes, v) <==> IsLast(g.tasks, v) || Independent(g, v)
  {
    if IsLast(g.tasks, v) {
      LastIsFound(g, v);
      FlattenMember(nodes, v);
      var k :| 0 <= k < |nodes| && v in nodes[k];
      forall dep | dep in g.tasks[v].deps && dep in g.nodeMap ensures Earlier(nodes, g.nodeMap[dep], v) {
        DependencyEdge(g, v, dep);
        DependencyLayer(g, nodes, k, v, g.nodeMap[dep]);
      }
    } else if DependenciesEarlier(g, nodes, v) {
      forall dep | dep in g.tasks[Found(g, v)].deps ensures dep !in g.nodeMap {
        if dep in g.nodeMap {
          assert Earlier(nodes, g.nodeMap[dep], v);
          var j, k :| 0 <= j < k < |nodes| && g.nodeMap[dep] in nodes[j] && v in nodes[k];
          assert ReadyIn(g, nodes, k, v);
          var u :| u in nodes[k - 1] && g.HasEdge(u, v);
          EdgeIntoLast(g, u, v);
        }
      }
    }
  }

  /** In every legal run such a task starts only after all its known dependencies have finished. */
  lemma StartedAfterDependencies(g: TaskGraph, trace: seq<Event>, par: nat, i: nat, v: nat, dep: TaskId)
    requires Built(g) && LegalRun(g, trace, par) && i < |trace| && trace[i] == Started(v) && v < |g.tasks|
    requires IsLast(g.tasks, v) || Independent(g, v)
    requires dep in g.tasks[Found(g, v)].deps && dep in g.nodeMap
    ensures g.nodeMap[dep] in FinishedIn(trace[..i])
  {
    assert LegalAt(g, trace, par, i);
    LastIsFound(g, v);
    DependencyEdge(g, v, dep);
  }

  /** Task 2 is listed twice, each time after task 1. */
  ghost function RepeatedTasks(): seq<Task> {
    [Task(1, "", []), Task(2, "", [1]), Task(2, "", [1])]
  }

  lemma RepeatedGraph(g: TaskGraph)
    requires Built(g) && g.tasks == RepeatedTasks()
    ensures 1 in g.nodeMap && g.nodeMap[1] == 0 && 2 in g.nodeMap && g.nodeMap[2] == 2
    ensures forall u: nat, v: nat :: g.HasEdge(u, v) <==> u == 0 && v == 2
  {
    assert g.tasks[0].id == 1 && g.tasks[1].id == 2 && g.tasks[2].id == 2;
    forall u: nat, v: nat | g.HasEdge(u, v) ensures u == 0 && v == 2 {
      assert EdgesBetween(g.tasks, g.edges, u, v);
      ParallelZero(g.edges, u, v);
      LastIsFound(g, u);
      LastIsFound(g, v);
      RepeatedNamed(g.tasks[v].id, g.tasks[u].id);
    }
    LastIsFound(g, 2);
    DependencyEdge(g, 2, 1);
  }

  lemma RepeatedNamed(id: TaskId, dep: TaskId)
    ensures Named(RepeatedTasks(), 3, id, dep) > 0 ==> id == 2 && dep == 1
  {
    var tasks := RepeatedTasks();
    CountPositive(tasks[0].deps, dep);
    CountPositive(tasks[1].deps, dep);
    CountPositive(tasks[2].deps, dep);
    assert Named(tasks, 1, id, dep) == Named(tasks, 0, id, dep) + if id == 1 then Count(tasks[0].deps, dep) else 0;
    assert Named(tasks, 2, id, dep) == Named(tasks, 1, id, dep) + if id == 2 then Count(tasks[1].deps, dep) else 0;
  }

  /** So both entries of task 2 lead to the second one, which may start for the first before task 1 has finished. */
  lemma RepeatedIdStartsEarly(g: TaskGraph)
    requires Built(g) && g.tasks == RepeatedTasks()
    ensures TopoLayering(g, [[0, 1], [2]]) && LegalRun(g, [Started(0), Started(1)], 2)
    ensures Found(g, 1) == 2 && 1 in g.tasks[2].deps && 1 in g.nodeMap && g.nodeMap[1] == 0
    ensures FinishedIn([Started(0)]) == {}
    ensures !DependenciesEarlier(g, [[0, 1], [2]], 1)
  {
    RepeatedGraph(g);
    RepeatedLayering(g);
    RepeatedRun(g);
    TaskOrderAt(g, [[0, 1], [2]], 1);
    assert g.tasks[1].id == g.tasks[2].id;
  }

  lemma RepeatedLayering(g: TaskGraph)
    requires Built(g) && g.tasks == RepeatedTasks()
    ensures TopoLayering(g, [[0, 1], [2]])
  {
    RepeatedGraph(g);
    var nodes: seq<seq<nat>> := [[0, 1], [2]];
    assert nodes[1..] == [[2]] && nodes[1..][1..] == [];
    assert Flatten(nodes) == [0, 1, 2];
    assert nodes[..0] == [] && nodes[..1] == [[0, 1]];
    assert nodes[..1][1..] == [];
    assert Flatten(nodes[..1]) == [0, 1];
    forall k: nat, v | k < |nodes| && v in nodes[k] ensures ReadyIn(g, nodes, k, v) {
      if k == 1 {
        assert v == 2 && Previous(nodes, k) == Some([0, 1]);
        assert 0 in [0, 1] && g.HasEdge(0, 2);
      } else {
        assert k == 0 && (v == 0 || v == 1) && Previous(nodes, k) == None;
      }
    }
    RepeatedKahnOrder(g);
    assert nodes[0] != [] && nodes[1] != [];
  }

  lemma RepeatedKahnOrder(g: TaskGraph)
    requires Built(g) && g.tasks == RepeatedTasks()
    ensures KahnOrder(g, [0, 1, 2], [-1, -1, 0])
  {
    RepeatedGraph(g);
    assert [0, 1, 2][..1] == [0];
  }

  lemma RepeatedRun(g: TaskGraph)
    requires Built(g) && g.tasks == RepeatedTasks()
    ensures LegalRun(g, [Started(0), Started(1)], 2) && FinishedIn([Started(0)]) == {}
  {
    RepeatedGraph(g);
    TraceSnoc([], Started(0));
    assert [] + [Started(0)] == [Started(0)] && [Started(0)] + [Started(1)] == [Started(0), Started(1)];
    LegalRunSnoc(g, [], Started(0), 2);
    LegalRunSnoc(g, [Started(0)], Started(1), 2);
  }

  datatype Scheduler = Scheduler(maxParallel: nat, maxDepth: nat)
  {
    static function New(maxParallel: nat, maxDepth: nat): Result<Scheduler, SchedulerError> {
      if maxParallel == 0 then Err(InvalidConfig) else Ok(Scheduler(maxParallel, maxDepth))
    }

    /**
      Runs the graph. `exec(n, task)` is the outcome of the n-th call of the executor.
      `nodes` are the layers of the graph as entries of the task list, and the trace speaks of entries:
      where an id is repeated, the executor is given the last task of that id for each of them.
     */
    method Run(g: TaskGraph, exec: (nat, Task) -> Outcome)
      returns (r: Result<seq<Outcome>, SchedulerError>, trace: seq<Event>, nodes: seq<seq<nat>>)
      requires g.WellFormed()
      requires maxParallel > 0 && maxDepth <= U32_MAX
      ensures LegalRun(g, trace, maxParallel) && StartedIn(trace) == FinishedIn(trace)
      ensures r == Err(CycleDetected) <==> !Acyclic(g)
      ensures r == Err(CycleDetected) ==> trace == []
      ensures Acyclic(g) ==> TopoLayering(g, nodes)
      ensures r.Ok? <==> Acyclic(g) && |nodes| <= maxDepth + 1
      ensures r.Ok? ==> StartedIn(trace) == Elements(Flatten(nodes))
      ensures r.Ok? ==> OutcomesOf(r.value, g, exec, Flatten(nodes)) && InLayers(trace, nodes, maxParallel)
      ensures Acyclic(g) && |nodes| > maxDepth + 1 ==>
                && InLayers(trace, nodes[..maxDepth + 1], maxParallel)
                && StartedIn(trace) == Elements(Flatten(nodes[..maxDepth + 1]))
                && r == Err(MaxDepthExceeded(if maxDepth < U32_MAX then maxDepth + 1 else U32_MAX, maxDepth))
    {
      trace := [];
      var topo;
      topo, nodes := TopoLayers(g);
      if topo.Err? {
        return Err(topo.error), trace, nodes;
      }
      r, trace := RunLayers(g, exec, topo.value, nodes);
    }

    method RunLayers(g: TaskGraph, exec: (nat, Task) -> Outcome, layers: seq<seq<TaskId>>, nodes: seq<seq<nat>>)
      returns (r: Result<seq<Outcome>, SchedulerError>, trace: seq<Event>)
      requires g.WellFormed()
      requires maxParallel > 0 && maxDepth <= U32_MAX
      requires TopoLayering(g, nodes) && layers == LayerIds(g, nodes)
      ensures |nodes| <= maxDepth + 1 ==>
                && Settled(g, trace, maxParallel, Flatten(nodes)) && InLayers(trace, nodes, maxParallel)
                && r.Ok? && OutcomesOf(r.value, g, exec, Flatten(nodes))
      ensures |nodes| > maxDepth + 1 ==>
                && Settled(g, trace, maxParallel, Flatten(nodes[..maxDepth + 1]))
                && InLayers(trace, nodes[..maxDepth + 1], maxParallel)
                && r == Err(MaxDepthExceeded(if maxDepth < U32_MAX then maxDepth + 1 else U32_MAX, maxDepth))
    {
      trace := [];
      var outcomes: seq<Outcome> := [];
      NoLayers(nodes, maxParallel);
      for depth := 0 to |layers|
        invariant depth <= maxDepth + 1
        invariant Settled(g, trace, maxParallel, Flatten(nodes[..depth]))
        invariant InLayers(trace, nodes[..depth], maxParallel)
        invariant OutcomesOf(outcomes, g, exec, Flatten(nodes[..depth]))
      {
        if depth > U32_MAX {
          return Err(MaxDepthExceeded(U32_MAX, maxDepth)), trace;
        }
        if depth > maxDepth {
          return Err(MaxDepthExceeded(depth, maxDepth)), trace;
        }
        LayerStart(g, nodes, depth);
        FlattenTake(nodes, depth);
        ghost var before, part := trace, [];
        outcomes, trace, part :=
          RunLayerChunks(g, exec, layers[depth], outcomes, trace, Flatten(nodes[..depth]), nodes[depth]);
        NextLayer(before, nodes, depth, part, maxParallel);
      }
      assert nodes[..|layers|] == nodes;
      r := Ok(outcomes);
    }

    /** One layer, `maxParallel` tasks at a time; a chunk is awaited before the next is started. */
    method RunLayerChunks(g: TaskGraph, exec: (nat, Task) -> Outcome, layer: seq<TaskId>, outcomes: seq<Outcome>,
                          trace: seq<Event>,
                          ghost done: seq<nat>, nodes: seq<nat>)
      returns (outcomes': seq<Outcome>, trace': seq<Event>, ghost part: seq<Event>)
      requires g.WellFormed() && maxParallel > 0 && Startable(g, layer, nodes, done)
      requires Settled(g, trace, maxParallel, done) && OutcomesOf(outcomes, g, exec, done)
      ensures Settled(g, trace', maxParallel, done + nodes)
      ensures OutcomesOf(outcomes', g, exec, done + nodes)
      ensures trace' == trace + part && InChunks(part, nodes, maxParallel)
    {
      outcomes', trace', part := outcomes, trace, [];
      var pos := 0;
      assert done + nodes[..0] == done;
      while pos < |layer|
        invariant pos <= |layer|
        invariant Settled(g, trace', maxParallel, done + nodes[..pos])
        invariant OutcomesOf(outcomes', g, exec, done + nodes[..pos])
        invariant trace' == trace + part && InChunks(part, nodes[..pos], maxParallel)
        invariant pos == |layer| || Whole(pos, maxParallel)
      {
        ghost var start, chunk := pos, [];
        outcomes', trace', pos, chunk := RunNextChunk(g, exec, layer, outcomes', trace', pos, done, nodes);
        NextChunk(part, nodes, start, pos, chunk, maxParallel);
        JoinTraces(trace, part, chunk);
        part := part + chunk;
      }
      assert nodes[..pos] == nodes;
    }

    /** The next at most `maxParallel` entries of the layer. */
    method RunNextChunk(g: TaskGraph, exec: (nat, Task) -> Outcome, layer: seq<TaskId>, outcomes: seq<Outcome>,
                        trace: seq<Event>, pos: nat, ghost done: seq<nat>, nodes: seq<nat>)
      returns (outcomes': seq<Outcome>, trace': seq<Event>, end: nat, ghost part: seq<Event>)
      requires g.WellFormed() && maxParallel > 0 && Startable(g, layer, nodes, done) && pos < |layer|
      requires Settled(g, trace, maxParallel, done + nodes[..pos])
      requires OutcomesOf(outcomes, g, exec, done + nodes[..pos])
      ensures end == if pos + maxParallel <= |layer| then pos + maxParallel else |layer|
      ensures trace' == trace + part && ChunkTrace(part, nodes[pos..end])
      ensures Settled(g, trace', maxParallel, done + nodes[..end])
      ensures OutcomesOf(outcomes', g, exec, done + nodes[..end])
    {
      end := if pos + maxParallel <= |layer| then pos + maxParallel else |layer|;
      ChunkStartable(g, layer, nodes, done, pos, end);
      outcomes', trace', part :=
        RunChunk(g, exec, layer[pos..end], outcomes, trace, done + nodes[..pos], nodes[pos..end]);
      assert done + nodes[..pos] + nodes[pos..end] == done + nodes[..end];
    }

    method RunChunk(g: TaskGraph, exec: (nat, Task) -> Outcome, chunk: seq<TaskId>, outcomes: seq<Outcome>,
                    trace: seq<Event>,
                    ghost done: seq<nat>, nodes: seq<nat>)
      returns (outcomes': seq<Outcome>, trace': seq<Event>, ghost part: seq<Event>)
      requires g.WellFormed() && Startable(g, chunk, nodes, done) && |chunk| <= maxParallel
      requires Settled(g, trace, maxParallel, done) && OutcomesOf(outcomes, g, exec, done)
      ensures trace' == trace + part && ChunkTrace(part, nodes)
      ensures Settled(g, trace', maxParallel, done + nodes)
      ensures OutcomesOf(outcomes', g, exec, done + nodes)
    {
      var results;
      trace', results, part := StartAndAwait(g, exec, chunk, |outcomes|, trace, done, nodes);
      OutcomesAppend(outcomes, results, g, exec, done, nodes);
      outcomes' := outcomes + results;
    }

    method StartAndAwait(g: TaskGraph, exec: (nat, Task) -> Outcome, chunk: seq<TaskId>, calls: nat,
                         trace: seq<Event>, ghost done: seq<nat>, nodes: seq<nat>)
      returns (trace': seq<Event>, results: seq<Outcome>, ghost part: seq<Event>)
      requires g.WellFormed() && Startable(g, chunk, nodes, done) && |chunk| <= maxParallel
      requires Settled(g, trace, maxParallel, done)
      ensures trace' == trace + part && ChunkTrace(part, nodes)
      ensures Settled(g, trace', maxParallel, done + nodes) && ResultsOf(results, g, exec, calls, nodes)
    {
      var futures;
      trace', futures, results := StartChunk(g, exec, chunk, calls, trace, done, nodes);
      StartableApart(g, chunk, nodes, done);
      ghost var ends;
      trace', ends := AwaitAll(g, futures, trace', maxParallel, done);
      part := StartsOf(nodes) + ends;
      JoinTraces(trace, StartsOf(nodes), ends);
    }

    /** Calls the executor for every task of the chunk. */
    method StartChunk(g: TaskGraph, exec: (nat, Task) -> Outcome, chunk: seq<TaskId>, calls: nat, trace: seq<Event>,
                      ghost done: seq<nat>, nodes: seq<nat>)
      returns (trace': seq<Event>, futures: seq<nat>, results: seq<Outcome>)
      requires g.WellFormed() && Startable(g, chunk, nodes, done) && |chunk| <= maxParallel
      requires Settled(g, trace, maxParallel, done)
      ensures futures == nodes && InFlight(g, trace', maxParallel, done, nodes)
      ensures trace' == trace + StartsOf(nodes)
      ensures ResultsOf(results, g, exec, calls, nodes)
    {
      trace', futures, results := trace, [], [];
      assert Elements(nodes[..0]) == {};
      for i := 0 to |chunk|
        invariant InFlight(g, trace', maxParallel, done, nodes[..i])
        invariant futures == nodes[..i] && trace' == trace + StartsOf(nodes[..i])
        invariant ResultsOf(results, g, exec, calls, nodes[..i])
      {
        assert StartableAt(g, chunk, nodes, done, i);
        var task := g.Get(chunk[i]);
        if task.None? {
          assert false;  // the graph knows every id it hands out: MissingTask is never reported
        }
        StartOne(g, chunk, trace', maxParallel, done, nodes, i);
        StartsSnoc(trace, nodes, i);
        trace' := trace' + [Started(nodes[i])];
        futures := futures + [nodes[i]];
        ResultsSnoc(results, g, exec, calls, nodes, i, exec(calls + i, task.value));
        results := results + [exec(calls + i, task.value)];
        assert nodes[..i + 1] == nodes[..i] + [nodes[i]];
      }
      assert nodes[..|chunk|] == nodes;
    }
  }

  lemma JoinTraces(a: seq<Event>, b: seq<Event>, c: seq<Event>)
    ensures (a + b) + c == a + (b + c)
  {
  }

  lemma StartsSnoc(trace: seq<Event>, nodes: seq<nat>, i: nat)
    requires i < |nodes|
    ensures trace + StartsOf(nodes[..i]) + [Started(nodes[i])] == trace + StartsOf(nodes[..i + 1])
  {
  }

  ghost function StartsOf(nodes: seq<nat>): seq<Event> {
    seq(|nodes|, i requires 0 <= i < |nodes| => Started(nodes[i]))
  }

  /** The i-th id of the chunk is known, not yet run, and everything it depends on is in `done`. */
  ghost predicate StartableAt(g: TaskGraph, chunk: seq<TaskId>, nodes: seq<nat>, done: seq<nat>, i: nat)
    requires i < |chunk| == |nodes|
  {
    && nodes[i] < |g.tasks| && chunk[i] == g.tasks[nodes[i]].id
    && nodes[i] !in done
    && (forall u :: g.HasEdge(u, nodes[i]) ==> u in done)
  }

  ghost predicate Startable(g: TaskGraph, chunk: seq<TaskId>, nodes: seq<nat>, done: seq<nat>) {
    && |chunk| == |nodes|
    && NoDuplicates(nodes) && (forall i :: 0 <= i < |nodes| ==> nodes[i] < |g.tasks|)
    && (forall i {:trigger StartableAt(g, chunk, nodes, done, i)} :: 0 <= i < |nodes| ==>
          StartableAt(g, chunk, nodes, done, i))
  }

  lemma ChunkStartable(g: TaskGraph, layer: seq<TaskId>, nodes: seq<nat>, done: seq<nat>, pos: nat, end: nat)
    requires Startable(g, layer, nodes, done) && pos <= end <= |layer|
    ensures Startable(g, layer[pos..end], nodes[pos..end], done + nodes[..pos])
  {
    forall i | 0 <= i < end - pos ensures StartableAt(g, layer[pos..end], nodes[pos..end], done + nodes[..pos], i) {
      assert StartableAt(g, layer, nodes, done, pos + i);
      assert nodes[pos + i] !in nodes[..pos];
    }
  }

  lemma StartableApart(g: TaskGraph, chunk: seq<TaskId>, nodes: seq<nat>, done: seq<nat>)
    requires Startable(g, chunk, nodes, done)
    ensures Elements(done) !! Elements(nodes)
    ensures forall i :: 0 <= i < |nodes| ==> nodes[i] < |g.tasks|
  {
    forall i | 0 <= i < |nodes| ensures nodes[i] !in done && nodes[i] < |g.tasks| {
      assert StartableAt(g, chunk, nodes, done, i);
    }
  }

  /** The outcomes of the calls from number `calls` on, one for each of the entries. */
  ghost predicate ResultsOf(results: seq<Outcome>, g: TaskGraph, exec: (nat, Task) -> Outcome, calls: nat,
                            nodes: seq<nat>)
    requires g.WellFormed()
  {
    && |results| == |nodes|
    && forall i :: 0 <= i < |nodes| ==>
         nodes[i] < |g.tasks| && results[i] == exec(calls + i, g.tasks[Found(g, nodes[i])])
  }

  lemma ResultsSnoc(results: seq<Outcome>, g: TaskGraph, exec: (nat, Task) -> Outcome, calls: nat, nodes: seq<nat>,
                    i: nat, outcome: Outcome)
    requires g.WellFormed() && i < |nodes| && nodes[i] < |g.tasks| && ResultsOf(results, g, exec, calls, nodes[..i])
    requires outcome == exec(calls + i, g.tasks[Found(g, nodes[i])])
    ensures ResultsOf(results + [outcome], g, exec, calls, nodes[..i + 1])
  {
  }

  lemma OutcomesAppend(a: seq<Outcome>, b: seq<Outcome>, g: TaskGraph, exec: (nat, Task) -> Outcome, done: seq<nat>,
                       nodes: seq<nat>)
    requires g.WellFormed() && OutcomesOf(a, g, exec, done) && ResultsOf(b, g, exec, |a|, nodes)
    ensures OutcomesOf(a + b, g, exec, done + nodes)
  {
  }

  /** `done` has finished, exactly the tasks of `running` are in flight. */
  ghost predicate InFlight(g: TaskGraph, trace: seq<Event>, par: nat, done: seq<nat>, running: seq<nat>) {
    && LegalRun(g, trace, par)
    && StartedIn(trace) == Elements(done) + Elements(running)
    && FinishedIn(trace) == Elements(done)
  }

  lemma MayStart(g: TaskGraph, chunk: seq<TaskId>, trace: seq<Event>, par: nat, done: seq<nat>, nodes: seq<nat>, i: nat)
    requires Startable(g, chunk, nodes, done) && i < |nodes| <= par
    requires InFlight(g, trace, par, done, nodes[..i])
    ensures Legal(g, trace, Started(nodes[i]), par)
  {
    assert StartableAt(g, chunk, nodes, done, i);
    assert nodes[i] !in nodes[..i];
    assert StartedIn(trace) - FinishedIn(trace) <= Elements(nodes[..i]);
    ElementsSize(nodes[..i]);
    SubsetSize(StartedIn(trace) - FinishedIn(trace), Elements(nodes[..i]));
  }

  lemma {:induction false} ElementsSize(s: seq<nat>)
    ensures |Elements(s)| <= |s|
  {
    if s != [] {
      var init := s[..|s| - 1];
      ElementsSize(init);
      assert s == init + [s[|s| - 1]];
      assert Elements(s) == Elements(init) + {s[|s| - 1]};
    }
  }

  /** All of `futures` are started, all but those in `waiting` have finished. */
  ghost predicate Draining(g: TaskGraph, trace: seq<Event>, par: nat, done: seq<nat>, futures: seq<nat>,
                           waiting: set<nat>)
  {
    && LegalRun(g, trace, par)
    && StartedIn(trace) == Elements(done) + Elements(futures)
    && FinishedIn(trace) == Elements(done) + (Elements(futures) - waiting)
  }

  lemma DrainOne(g: TaskGraph, trace: seq<Event>, par: nat, done: seq<nat>, futures: seq<nat>, waiting: set<nat>,
                 v: nat)
    requires Elements(done) !! Elements(futures) && waiting <= Elements(futures) && v in waiting
    requires Draining(g, trace, par, done, futures, waiting)
    ensures Draining(g, trace + [Finished(v)], par, done, futures, waiting - {v})
  {
    LegalRunSnoc(g, trace, Finished(v), par);
    TraceSnoc(trace, Finished(v));
  }

  lemma StartOne(g: TaskGraph, chunk: seq<TaskId>, trace: seq<Event>, par: nat, done: seq<nat>, nodes: seq<nat>, i: nat)
    requires Startable(g, chunk, nodes, done) && i < |nodes| <= par
    requires InFlight(g, trace, par, done, nodes[..i])
    ensures InFlight(g, trace + [Started(nodes[i])], par, done, nodes[..i + 1])
  {
    MayStart(g, chunk, trace, par, done, nodes, i);
    LegalRunSnoc(g, trace, Started(nodes[i]), par);
    TraceSnoc(trace, Started(nodes[i]));
    ElementsSnoc(nodes, i);
  }

  lemma ElementsSnoc(nodes: seq<nat>, i: nat)
    requires i < |nodes|
    ensures Elements(nodes[..i + 1]) == Elements(nodes[..i]) + {nodes[i]}
  {
    assert nodes[..i + 1] == nodes[..i] + [nodes[i]];
  }

  /** One completion for each of the futures that is no longer waited for. */
  ghost predicate Endings(ends: seq<Event>, futures: seq<nat>, waiting: set<nat>) {
    && |ends| + |waiting| == |futures|
    && (forall i :: 0 <= i < |ends| ==> ends[i].Finished?)
    && (forall v :: v in futures && v !in waiting ==> Finished(v) in ends)
  }

  lemma NextEnding(ends: seq<Event>, futures: seq<nat>, waiting: set<nat>, v: nat)
    requires Endings(ends, futures, waiting) && v in waiting
    ensures Endings(ends + [Finished(v)], futures, waiting - {v})
  {
    var all := ends + [Finished(v)];
    assert |waiting - {v}| == |waiting| - 1;
    assert all[|ends|] == Finished(v);
    forall u | u in futures && u !in waiting - {v} ensures Finished(u) in all {
      assert u != v ==> Finished(u) in ends;
    }
  }

  lemma ChunkOf(nodes: seq<nat>, ends: seq<Event>)
    requires Endings(ends, nodes, {})
    ensures ChunkTrace(StartsOf(nodes) + ends, nodes)
  {
    assert (StartsOf(nodes) + ends)[|nodes|..] == ends;
  }

  /** Awaits the whole chunk; its futures complete in any order. */
  method AwaitAll(g: TaskGraph, futures: seq<nat>, trace: seq<Event>, par: nat, ghost done: seq<nat>)
    returns (trace': seq<Event>, ghost ends: seq<Event>)
    requires InFlight(g, trace, par, done, futures) && Elements(done) !! Elements(futures) && NoDuplicates(futures)
    ensures Settled(g, trace', par, done + futures)
    ensures trace' == trace + ends && ChunkTrace(StartsOf(futures) + ends, futures)
  {
    trace', ends := trace, [];
    DistinctLength(futures);
    var waiting := set v | v in futures;
    assert waiting == Elements(futures);
    DrainStarts(g, trace, par, done, futures);
    while waiting != {}
      invariant waiting <= Elements(futures) && Draining(g, trace', par, done, futures, waiting)
      invariant trace' == trace + ends && Endings(ends, futures, waiting)
    {
      var v :| v in waiting;
      DrainOne(g, trace', par, done, futures, waiting, v);
      NextEnding(ends, futures, waiting, v);
      JoinTraces(trace, ends, [Finished(v)]);
      trace' := trace' + [Finished(v)];
      ends := ends + [Finished(v)];
      waiting := waiting - {v};
    }
    Drained(g, trace', par, done, futures);
    ChunkOf(futures, ends);
  }

  lemma Drained(g: TaskGraph, trace: seq<Event>, par: nat, done: seq<nat>, futures: seq<nat>)
    requires Draining(g, trace, par, done, futures, {})
    ensures Settled(g, trace, par, done + futures)
  {
    assert Elements(done + futures) == Elements(done) + Elements(futures);
  }

  lemma DrainStarts(g: TaskGraph, trace: seq<Event>, par: nat, done: seq<nat>, futures: seq<nat>)
    requires InFlight(g, trace, par, done, futures) && Elements(done) !! Elements(futures)
    ensures Draining(g, trace, par, done, futures, Elements(futures))
  {
  }

  /** At the start of a layer everything it depends on is in the layers already run. */
  lemma LayerStart(g: TaskGraph, nodes: seq<seq<nat>>, depth: nat)
    requires g.WellFormed() && TopoLayering(g, nodes) && depth < |nodes|
    ensures Startable(g, NodeIds(g, nodes[depth]), nodes[depth], Flatten(nodes[..depth]))
  {
    var layer, done := nodes[depth], Flatten(nodes[..depth]);
    FlattenTake(nodes, depth);
    FlattenSplit(nodes, depth + 1);
    var all := Flatten(nodes);
    var enabler :| KahnOrder(g, all, enabler);
    LayerSeparate(all, done, layer);
    forall i | 0 <= i < |layer| ensures StartableAt(g, NodeIds(g, layer), layer, done, i) {
      assert layer[i] in layer;
      assert ReadyIn(g, nodes, depth, layer[i]);
    }
  }

  lemma LayerSeparate(all: seq<nat>, done: seq<nat>, layer: seq<nat>)
    requires NoDuplicates(all) && |done + layer| <= |all| && all[..|done + layer|] == done + layer
    ensures NoDuplicates(layer) && forall v :: v in layer ==> v !in done
  {
    assert forall i :: 0 <= i < |done| ==> all[..|done + layer|][i] == done[i];
    assert forall i :: 0 <= i < |layer| ==> all[..|done + layer|][|done| + i] == layer[i];
  }

  /** The tasks that ran under a depth limit are exactly those whose longest dependency chain fits in it. */
  lemma DepthLimitRuns(g: TaskGraph, nodes: seq<seq<nat>>, limit: nat, v: nat, n: nat)
    requires TopoLayering(g, nodes) && limit < |nodes| && v < |g.tasks| && LongestChain(g, v, n)
    ensures v in Flatten(nodes[..limit + 1]) <==> n <= limit + 1
  {
    FlattenMember(nodes, v);
    var k :| 0 <= k < |nodes| && v in nodes[k];
    LayerIsDepth(g, nodes, k, v);
    DepthUnique(g, v, k + 1, n);
    if k <= limit {
      assert nodes[..limit + 1][k] == nodes[k];
      FlattenContains(nodes[..limit + 1], k, v);
    }
    if v in Flatten(nodes[..limit + 1]) {
      FlattenMember(nodes[..limit + 1], v);
      var j :| 0 <= j < |nodes[..limit + 1]| && v in nodes[..limit + 1][j];
      assert v in nodes[j];
      LayerIsDepth(g, nodes, j, v);
      DepthUnique(g, v, j + 1, n);
    }
  }
}
