/** Task dependency graphs and their layering by Kahn's algorithm. */
module TaskGraphs {
  import opened Prelude

  type TaskId = nat

  datatype Task = Task(id: TaskId, instruction: string, deps: seq<TaskId>)

  datatype SchedulerError =
    | MaxDepthExceeded(depth: nat, maxDepth: nat)
    | CycleDetected
    | InvalidConfig
    | MissingTask(id: TaskId)

  /** An edge leads from a dependency to the task that needs it; repeated dependencies give parallel edges. */
  datatype Edge = Edge(from: nat, to: nat)

  datatype TaskGraph = TaskGraph(tasks: seq<Task>, edges: seq<Edge>, nodeMap: map<TaskId, nat>)
  {
    ghost predicate WellFormed() {
      && (forall k :: 0 <= k < |edges| ==> edges[k].from < |tasks| && edges[k].to < |tasks|)
      && (forall v :: 0 <= v < |tasks| ==> tasks[v].id in nodeMap)
      && (forall id :: id in nodeMap ==> nodeMap[id] < |tasks| && tasks[nodeMap[id]].id == id)
    }

    function Get(id: TaskId): Option<Task>
      requires WellFormed()
    {
      if id in nodeMap then Some(tasks[nodeMap[id]]) else None
    }

    ghost predicate HasEdge(u: nat, v: nat) {
      Edge(u, v) in edges
    }
  }

  ghost predicate DistinctIds(tasks: seq<Task>) {
    forall i, j :: 0 <= i < j < |tasks| ==> tasks[i].id != tasks[j].id
  }

  /** The last entry of its id, which is the one the id leads to. */
  ghost predicate IsLast(tasks: seq<Task>, v: nat)
    requires v < |tasks|
  {
    forall j :: v < j < |tasks| ==> tasks[j].id != tasks[v].id
  }

  /** How often the entries of `id` among the first `n` name `dep` as a dependency. */
  ghost function Named(tasks: seq<Task>, n: nat, id: TaskId, dep: TaskId): nat
    requires n <= |tasks|
  {
    if n == 0 then 0
    else Named(tasks, n - 1, id, dep) + if tasks[n - 1].id == id then Count(tasks[n - 1].deps, dep) else 0
  }

  /** Only the last entries of ids have edges: one for each time any entry of the id names the dependency. */
  ghost predicate EdgesBetween(tasks: seq<Task>, edges: seq<Edge>, u: nat, v: nat)
    requires u < |tasks| && v < |tasks|
  {
    Parallel(edges, u, v) ==
      if IsLast(tasks, u) && IsLast(tasks, v) then Named(tasks, |tasks|, tasks[v].id, tasks[u].id) else 0
  }

  /** The graph of a task list, repeated ids included. */
  ghost predicate Built(g: TaskGraph) {
    && g.WellFormed()
    && (forall v :: 0 <= v < |g.tasks| ==> v <= g.nodeMap[g.tasks[v].id])
    && (forall u: nat, v: nat {:trigger EdgesBetween(g.tasks, g.edges, u, v)} ::
          u < |g.tasks| && v < |g.tasks| ==> EdgesBetween(g.tasks, g.edges, u, v))
  }

  /** Builds the graph; dependencies on unknown ids are skipped, and of repeated ids the last entry gets the edges. */
  method FromTasks(tasks: seq<Task>) returns (g: TaskGraph)
    ensures Built(g) && g.tasks == tasks
    ensures DistinctIds(tasks) ==> forall u, v :: 0 <= u < |tasks| && 0 <= v < |tasks| ==>
              && (g.HasEdge(u, v) <==> tasks[u].id in tasks[v].deps)
              && Parallel(g.edges, u, v) == Count(tasks[v].deps, tasks[u].id)
  {
    var nodeMap: map<TaskId, nat> := map[];
    for i := 0 to |tasks|
      invariant forall v :: 0 <= v < i ==> tasks[v].id in nodeMap && v <= nodeMap[tasks[v].id]
      invariant forall id :: id in nodeMap ==> nodeMap[id] < i && tasks[nodeMap[id]].id == id
    {
      nodeMap := nodeMap[tasks[i].id := i];
    }
    var edges: seq<Edge> := [];
    for i := 0 to |tasks|
      invariant forall k :: 0 <= k < |edges| ==> edges[k].from < |tasks| && edges[k].to < |tasks|
      invariant EdgesUpTo(tasks, nodeMap, edges, i, 0)
    {
      for k := 0 to |tasks[i].deps|
        invariant forall m :: 0 <= m < |edges| ==> edges[m].from < |tasks| && edges[m].to < |tasks|
        invariant EdgesUpTo(tasks, nodeMap, edges, i, k)
      {
        var dep := tasks[i].deps[k];
        EdgesNext(tasks, nodeMap, edges, i, k);
        if dep in nodeMap {
          edges := edges + [Edge(nodeMap[dep], nodeMap[tasks[i].id])];
        }
      }
      EdgesTaskDone(tasks, nodeMap, edges, i);
    }
    g := TaskGraph(tasks, edges, nodeMap);
    EdgesAll(g);
    if DistinctIds(tasks) {
      forall u, v | 0 <= u < |tasks| && 0 <= v < |tasks|
        ensures Parallel(edges, u, v) == Count(tasks[v].deps, tasks[u].id)
        ensures g.HasEdge(u, v) <==> tasks[u].id in tasks[v].deps
      {
        EdgesOfDistinct(g, u, v);
      }
    }
  }

  /** With distinct ids the edges are the known dependencies, each as often as it is named. */
  lemma EdgesOfDistinct(g: TaskGraph, u: nat, v: nat)
    requires Built(g) && DistinctIds(g.tasks) && u < |g.tasks| && v < |g.tasks|
    ensures Parallel(g.edges, u, v) == Count(g.tasks[v].deps, g.tasks[u].id)
    ensures g.HasEdge(u, v) <==> g.tasks[u].id in g.tasks[v].deps
  {
    assert EdgesBetween(g.tasks, g.edges, u, v);
    NamedOnce(g.tasks, |g.tasks|, v, g.tasks[u].id);
    ParallelZero(g.edges, u, v);
    CountPositive(g.tasks[v].deps, g.tasks[u].id);
  }

  lemma {:induction false} NamedOnce(tasks: seq<Task>, n: nat, v: nat, dep: TaskId)
    requires DistinctIds(tasks) && n <= |tasks| && v < |tasks|
    ensures Named(tasks, n, tasks[v].id, dep) == if v < n then Count(tasks[v].deps, dep) else 0
  {
    if n > 0 {
      NamedOnce(tasks, n - 1, v, dep);
    }
  }

  lemma {:induction false} NamedAtLeast(tasks: seq<Task>, n: nat, v: nat, dep: TaskId)
    requires v < n <= |tasks|
    ensures Named(tasks, n, tasks[v].id, dep) >= Count(tasks[v].deps, dep)
  {
    if v < n - 1 {
      NamedAtLeast(tasks, n - 1, v, dep);
    }
  }

  /** The edges from `u` to `v` after the first `i` entries and the first `k` dependencies of entry `i`. */
  ghost predicate EdgeCount(tasks: seq<Task>, nodeMap: map<TaskId, nat>, edges: seq<Edge>, i: nat, k: nat, u: nat,
                            v: nat)
    requires u < |tasks| && v < |tasks| && i <= |tasks|
  {
    Parallel(edges, u, v) ==
      if tasks[u].id in nodeMap && nodeMap[tasks[u].id] == u && tasks[v].id in nodeMap && nodeMap[tasks[v].id] == v
      then Given(tasks, i, k, u, v)
      else 0
  }

  /** The dependencies of entries with the id of `v` on the id of `u` that have been looked at. */
  ghost function Given(tasks: seq<Task>, i: nat, k: nat, u: nat, v: nat): nat
    requires u < |tasks| && v < |tasks| && i <= |tasks|
  {
    Named(tasks, i, tasks[v].id, tasks[u].id)
    + if i < |tasks| && tasks[i].id == tasks[v].id then Count(Take(tasks[i].deps, k), tasks[u].id) else 0
  }

  ghost predicate EdgesUpTo(tasks: seq<Task>, nodeMap: map<TaskId, nat>, edges: seq<Edge>, i: nat, k: nat)
    requires i <= |tasks|
  {
    forall u: nat, v: nat {:trigger EdgeCount(tasks, nodeMap, edges, i, k, u, v)} ::
      u < |tasks| && v < |tasks| ==> EdgeCount(tasks, nodeMap, edges, i, k, u, v)
  }

  lemma EdgesNext(tasks: seq<Task>, nodeMap: map<TaskId, nat>, edges: seq<Edge>, i: nat, k: nat)
    requires i < |tasks| && k < |tasks[i].deps| && tasks[i].id in nodeMap
    requires forall id :: id in nodeMap ==> nodeMap[id] < |tasks| && tasks[nodeMap[id]].id == id
    requires EdgesUpTo(tasks, nodeMap, edges, i, k)
    ensures var dep := tasks[i].deps[k];
            if dep in nodeMap
            then EdgesUpTo(tasks, nodeMap, edges + [Edge(nodeMap[dep], nodeMap[tasks[i].id])], i, k + 1)
            else EdgesUpTo(tasks, nodeMap, edges, i, k + 1)
  {
    var dep := tasks[i].deps[k];
    var added := if dep in nodeMap then [Edge(nodeMap[dep], nodeMap[tasks[i].id])] else [];
    var edges', next := edges + added, k + 1;
    assert edges + [] == edges;
    forall u: nat, v: nat | u < |tasks| && v < |tasks| ensures EdgeCount(tasks, nodeMap, edges', i, next, u, v) {
      assert EdgeCount(tasks, nodeMap, edges, i, k, u, v);
      ParallelAdded(edges, added, u, v);
      assert Take(tasks[i].deps, k + 1) == Take(tasks[i].deps, k) + [dep];
      CountAppend(Take(tasks[i].deps, k), dep, tasks[u].id);
    }
  }

  lemma EdgesTaskDone(tasks: seq<Task>, nodeMap: map<TaskId, nat>, edges: seq<Edge>, i: nat)
    requires i < |tasks| && EdgesUpTo(tasks, nodeMap, edges, i, |tasks[i].deps|)
    ensures EdgesUpTo(tasks, nodeMap, edges, i + 1, 0)
  {
    var next := i + 1;
    forall u: nat, v: nat | u < |tasks| && v < |tasks| ensures EdgeCount(tasks, nodeMap, edges, next, 0, u, v) {
      assert EdgeCount(tasks, nodeMap, edges, i, |tasks[i].deps|, u, v);
    }
  }

  lemma EdgesAll(g: TaskGraph)
    requires g.WellFormed() && (forall v :: 0 <= v < |g.tasks| ==> v <= g.nodeMap[g.tasks[v].id])
    requires EdgesUpTo(g.tasks, g.nodeMap, g.edges, |g.tasks|, 0)
    ensures Built(g)
  {
    forall u: nat, v: nat | u < |g.tasks| && v < |g.tasks| ensures EdgesBetween(g.tasks, g.edges, u, v) {
      assert EdgeCount(g.tasks, g.nodeMap, g.edges, |g.tasks|, 0, u, v);
      LastIsFound(g, u);
      LastIsFound(g, v);
    }
  }

  lemma LastIsFound(g: TaskGraph, v: nat)
    requires g.WellFormed() && (forall u :: 0 <= u < |g.tasks| ==> u <= g.nodeMap[g.tasks[u].id]) && v < |g.tasks|
    ensures IsLast(g.tasks, v) <==> g.nodeMap[g.tasks[v].id] == v
  {
    if g.nodeMap[g.tasks[v].id] == v {
      forall j | v < j < |g.tasks| ensures g.tasks[j].id != g.tasks[v].id {
        assert j <= g.nodeMap[g.tasks[j].id];
      }
    }
  }

  lemma ParallelAdded(edges: seq<Edge>, added: seq<Edge>, u: nat, v: nat)
    requires |added| <= 1
    ensures Parallel(edges + added, u, v) == Parallel(edges, u, v) + if added == [Edge(u, v)] then 1 else 0
  {
    if added == [] {
      assert edges + added == edges;
    } else {
      assert (edges + added)[..|edges|] == edges;
    }
  }

  // ---------------------------------------------------------------------
  // Dependency chains
  // ---------------------------------------------------------------------

  /** A chain of nodes, each needed by the next. */
  ghost predicate IsChain(g: TaskGraph, c: seq<nat>) {
    && |c| > 0
    && (forall i :: 0 <= i < |c| ==> c[i] < |g.tasks|)
    && (forall i :: 0 < i < |c| ==> Link(g, c, i))
  }

  /** The edge into position `i` of a chain. */
  ghost predicate Link(g: TaskGraph, c: seq<nat>, i: nat)
    requires 0 < i < |c|
  {
    g.HasEdge(c[i - 1], c[i])
  }

  ghost predicate Acyclic(g: TaskGraph) {
    forall c :: IsChain(g, c) && |c| > 1 ==> c[0] != c[|c| - 1]
  }

  /** The longest chain that ends in `v` has exactly `n` nodes. */
  ghost predicate LongestChain(g: TaskGraph, v: nat, n: nat) {
    && (exists c :: IsChain(g, c) && c[|c| - 1] == v && |c| == n)
    && (forall c :: IsChain(g, c) && c[|c| - 1] == v ==> |c| <= n)
  }

  // ---------------------------------------------------------------------
  // Layerings
  // ---------------------------------------------------------------------

  /** Everything `v` depends on is in `before`; unless it is a root layer, something is in `last`. */
  ghost predicate Ready(g: TaskGraph, v: nat, before: seq<nat>, last: Option<seq<nat>>) {
    && v < |g.tasks|
    && (forall u :: g.HasEdge(u, v) ==> u in before)
    && (last.Some? ==> exists u :: u in last.value && g.HasEdge(u, v))
  }

  ghost function Previous(layers: seq<seq<nat>>, k: nat): Option<seq<nat>>
    requires k <= |layers|
  {
    if k == 0 then None else Some(layers[k - 1])
  }

  /** Each layer needs only earlier layers, and each of its nodes needs the layer just before. */
  ghost predicate Layered(g: TaskGraph, layers: seq<seq<nat>>) {
    forall k: nat, v {:trigger ReadyIn(g, layers, k, v)} ::
      k < |layers| && v in layers[k] ==> ReadyIn(g, layers, k, v)
  }

  ghost predicate ReadyIn(g: TaskGraph, layers: seq<seq<nat>>, k: nat, v: nat)
    requires k <= |layers|
  {
    Ready(g, v, Flatten(layers[..k]), Previous(layers, k))
  }

  lemma LayeredSnoc(g: TaskGraph, layers: seq<seq<nat>>, next: seq<nat>)
    requires Layered(g, layers)
    requires forall v :: v in next ==> Ready(g, v, Flatten(layers), Previous(layers, |layers|))
    ensures Layered(g, layers + [next])
  {
    var all := layers + [next];
    forall k: nat, v | k < |all| && v in all[k] ensures ReadyIn(g, all, k, v) {
      if k < |layers| {
        assert ReadyIn(g, layers, k, v);
        assert all[..k] == layers[..k];
        assert all[k] == layers[k];
        assert Previous(all, k) == Previous(layers, k);
      } else {
        assert all[..k] == layers;
        assert Previous(all, k) == Previous(layers, k);
      }
    }
  }

  lemma {:induction false} FlattenMember(layers: seq<seq<nat>>, u: nat)
    requires u in Flatten(layers)
    ensures exists k :: 0 <= k < |layers| && u in layers[k]
  {
    if u !in layers[0] {
      FlattenMember(layers[1..], u);
      var k :| 0 <= k < |layers[1..]| && u in layers[1..][k];
      assert u in layers[k + 1];
    }
  }

  lemma {:induction false} FlattenContains(layers: seq<seq<nat>>, k: nat, u: nat)
    requires k < |layers| && u in layers[k]
    ensures u in Flatten(layers)
  {
    if k > 0 {
      FlattenContains(layers[1..], k - 1, u);
    }
  }

  lemma DependencyLayer(g: TaskGraph, layers: seq<seq<nat>>, k: nat, v: nat, u: nat)
    requires Layered(g, layers) && k < |layers| && v in layers[k] && g.HasEdge(u, v)
    ensures exists j :: 0 <= j < k && u in layers[j]
  {
    assert ReadyIn(g, layers, k, v);
    FlattenMember(layers[..k], u);
    var j :| 0 <= j < |layers[..k]| && u in layers[..k][j];
    assert u in layers[j];
  }

  /** No chain into layer `k` is longer than `k + 1`. */
  lemma {:induction false} ChainBound(g: TaskGraph, layers: seq<seq<nat>>, k: nat, c: seq<nat>)
    requires Layered(g, layers) && k < |layers| && IsChain(g, c) && c[|c| - 1] in layers[k]
    ensures |c| <= k + 1
    decreases |c|
  {
    if |c| > 1 {
      var init := c[..|c| - 1];
      assert Link(g, c, |c| - 1);
      DependencyLayer(g, layers, k, c[|c| - 1], c[|c| - 2]);
      var j :| 0 <= j < k && c[|c| - 2] in layers[j];
      forall i | 0 < i < |init| ensures Link(g, init, i) {
        assert Link(g, c, i);
      }
      ChainBound(g, layers, j, init);
    }
  }

  /** Some chain into layer `k` has `k + 1` nodes. */
  lemma {:induction false} ChainExists(g: TaskGraph, layers: seq<seq<nat>>, k: nat, v: nat) returns (c: seq<nat>)
    requires Layered(g, layers) && k < |layers| && v in layers[k]
    ensures IsChain(g, c) && c[|c| - 1] == v && |c| == k + 1
  {
    assert ReadyIn(g, layers, k, v);
    if k == 0 {
      c := [v];
    } else {
      var u :| u in layers[k - 1] && g.HasEdge(u, v);
      var c' := ChainExists(g, layers, k - 1, u);
      c := c' + [v];
      forall i | 0 < i < |c| ensures Link(g, c, i) {
        assert i < |c'| ==> Link(g, c', i);
      }
    }
  }

  /** The layer number is the length of the longest dependency chain. */
  lemma LayerIsDepth(g: TaskGraph, layers: seq<seq<nat>>, k: nat, v: nat)
    requires Layered(g, layers) && k < |layers| && v in layers[k]
    ensures LongestChain(g, v, k + 1)
  {
    var c := ChainExists(g, layers, k, v);
    forall c' | IsChain(g, c') && c'[|c'| - 1] == v ensures |c'| <= k + 1 {
      ChainBound(g, layers, k, c');
    }
  }

  /** A graph whose nodes all fit in a layering has no cycle. */
  lemma LayeredAcyclic(g: TaskGraph, layers: seq<seq<nat>>)
    requires Layered(g, layers)
    requires forall v: nat :: v < |g.tasks| ==> v in Flatten(layers)
    ensures Acyclic(g)
  {
    forall c | IsChain(g, c) && |c| > 1 ensures c[0] != c[|c| - 1] {
      if c[0] == c[|c| - 1] {
        var v := c[0];
        FlattenMember(layers, v);
        var k :| 0 <= k < |layers| && v in layers[k];
        var longest := ChainExists(g, layers, k, v);
        var longer := longest + c[1..];
        forall i | 0 < i < |longer| ensures Link(g, longer, i) {
          if i < |longest| {
            assert Link(g, longest, i);
          } else {
            assert Link(g, c, i - |longest| + 1);
            assert longer[i] == c[i - |longest| + 1];
            assert longer[i - 1] == c[i - |longest|];
          }
        }
        assert IsChain(g, longer);
        ChainBound(g, layers, k, longer);
      }
    }
  }

  // ---------------------------------------------------------------------
  // A stuck set of nodes contains a cycle
  // ---------------------------------------------------------------------

  ghost predicate Stuck(g: TaskGraph, s: set<nat>) {
    && (forall v :: v in s ==> v < |g.tasks|)
    && (forall v {:trigger NeedsOneOf(g, s, v)} :: v in s ==> NeedsOneOf(g, s, v))
  }

  ghost predicate NeedsOneOf(g: TaskGraph, s: set<nat>, v: nat) {
    exists u :: u in s && g.HasEdge(u, v)
  }

  lemma {:induction false} LongWalk(g: TaskGraph, s: set<nat>, v: nat, n: nat) returns (c: seq<nat>)
    requires Stuck(g, s) && v in s
    ensures IsChain(g, c) && |c| == n + 1 && forall i :: 0 <= i < |c| ==> c[i] in s
  {
    if n == 0 {
      c := [v];
    } else {
      var c' := LongWalk(g, s, v, n - 1);
      assert NeedsOneOf(g, s, c'[0]);
      var u :| u in s && g.HasEdge(u, c'[0]);
      c := [u] + c';
      forall i | 0 < i < |c| ensures Link(g, c, i) {
        assert i > 1 ==> Link(g, c', i - 1);
      }
      forall i | 0 <= i < |c| ensures c[i] in s {
        assert i > 0 ==> c[i] == c'[i - 1];
      }
    }
  }

  lemma Pigeonhole(c: seq<nat>, n: nat) returns (i: nat, j: nat)
    requires |c| > n && forall k :: 0 <= k < |c| ==> c[k] < n
    ensures i < j < |c| && c[i] == c[j]
  {
    if NoDuplicates(c) {
      DistinctLength(c);
      IndicesMembers(n);
      DistinctLength(Indices(n));
      assert Elements(c) <= Elements(Indices(n));
      SubsetSize(Elements(c), Elements(Indices(n)));
    }
    i, j :| 0 <= i < j < |c| && c[i] == c[j];
  }

  lemma StuckCyclic(g: TaskGraph, s: set<nat>)
    requires Stuck(g, s) && s != {}
    ensures !Acyclic(g)
  {
    var v :| v in s;
    var c := LongWalk(g, s, v, |g.tasks|);
    var i, j := Pigeonhole(c, |g.tasks|);
    var cycle := c[i..j + 1];
    forall k | 0 < k < |cycle| ensures Link(g, cycle, k) {
      assert Link(g, c, i + k);
    }
    assert IsChain(g, cycle) && |cycle| > 1 && cycle[0] == cycle[|cycle| - 1];
  }

  // ---------------------------------------------------------------------
  // Counting edges
  // ---------------------------------------------------------------------

  /** Edges into `v` whose source is not yet in `done`. */
  ghost function Pending(edges: seq<Edge>, done: set<nat>, v: nat): nat {
    if edges == [] then 0
    else Pending(edges[..|edges| - 1], done, v) +
         if edges[|edges| - 1].to == v && edges[|edges| - 1].from !in done then 1 else 0
  }

  /** Parallel edges from `u` to `v`. */
  ghost function Parallel(edges: seq<Edge>, u: nat, v: nat): nat {
    if edges == [] then 0
    else Parallel(edges[..|edges| - 1], u, v) + if edges[|edges| - 1] == Edge(u, v) then 1 else 0
  }

  lemma {:induction false} PendingAfter(edges: seq<Edge>, done: set<nat>, u: nat, v: nat)
    requires u !in done
    ensures Pending(edges, done, v) == Pending(edges, done + {u}, v) + Parallel(edges, u, v)
  {
    if edges != [] {
      PendingAfter(edges[..|edges| - 1], done, u, v);
    }
  }

  lemma {:induction false} PendingZero(edges: seq<Edge>, done: set<nat>, v: nat)
    ensures Pending(edges, done, v) == 0 <==> forall u :: Edge(u, v) in edges ==> u in done
  {
    if edges != [] {
      var init, e := edges[..|edges| - 1], edges[|edges| - 1];
      PendingZero(init, done, v);
      assert edges == init + [e];
    }
  }

  lemma {:induction false} ParallelZero(edges: seq<Edge>, u: nat, v: nat)
    ensures Parallel(edges, u, v) > 0 <==> Edge(u, v) in edges
  {
    if edges != [] {
      var init, e := edges[..|edges| - 1], edges[|edges| - 1];
      ParallelZero(init, u, v);
      assert edges == init + [e];
    }
  }

  lemma {:induction false} ParallelPrefix(edges: seq<Edge>, k: nat, u: nat, v: nat)
    requires k <= |edges|
    ensures Parallel(edges[..k], u, v) <= Parallel(edges, u, v)
  {
    if k < |edges| {
      assert edges[..|edges| - 1][..k] == edges[..k];
      ParallelPrefix(edges[..|edges| - 1], k, u, v);
    } else {
      assert edges[..k] == edges;
    }
  }

  lemma ParallelStep(edges: seq<Edge>, k: nat, u: nat, v: nat)
    requires k < |edges|
    ensures Parallel(edges[..k + 1], u, v) == Parallel(edges[..k], u, v) + if edges[k] == Edge(u, v) then 1 else 0
  {
    assert edges[..k + 1][..k] == edges[..k];
  }

  lemma PendingStep(edges: seq<Edge>, k: nat, done: set<nat>, v: nat)
    requires k < |edges|
    ensures Pending(edges[..k + 1], done, v) ==
            Pending(edges[..k], done, v) + if edges[k].to == v && edges[k].from !in done then 1 else 0
  {
    assert edges[..k + 1][..k] == edges[..k];
  }

  // ---------------------------------------------------------------------
  // The order in which Kahn's algorithm reaches the nodes
  // ---------------------------------------------------------------------

  /** `e` is the position of the last dependency of the node at position `i`, or -1 for a root. */
  ghost predicate EnabledAt(g: TaskGraph, order: seq<nat>, i: nat, e: int)
    requires i < |order|
  {
    && -1 <= e < i
    && (e >= 0 ==> g.HasEdge(order[e], order[i]))
    && (forall u :: g.HasEdge(u, order[i]) ==> u in order[..e + 1])
  }

  /** Nodes come in the order their last dependency does, equal ones by id. */
  ghost predicate KahnOrder(g: TaskGraph, order: seq<nat>, enabler: seq<int>) {
    && |enabler| == |order|
    && NoDuplicates(order)
    && (forall i :: 0 <= i < |order| ==> order[i] < |g.tasks|)
    && (forall i :: 0 <= i < |order| ==> EnabledAt(g, order, i, enabler[i]))
    && (forall i, j :: 0 <= i < j < |order| ==> NotAfter(g, order[i], enabler[i], order[j], enabler[j]))
  }

  ghost predicate NotAfter(g: TaskGraph, x: nat, e: int, y: nat, f: int)
    requires x < |g.tasks| && y < |g.tasks|
  {
    e < f || (e == f && g.tasks[x].id <= g.tasks[y].id)
  }

  /** The position of the last dependency is determined by a common prefix. */
  lemma EnablerAgrees(g: TaskGraph, p: seq<nat>, q: seq<nat>, i: nat, j: nat, e: int, f: int)
    requires NoDuplicates(p) && NoDuplicates(q) && i < |p| && j < |q| && p[i] == q[j]
    requires EnabledAt(g, p, i, e) && EnabledAt(g, q, j, f)
    requires e < |q| && p[..e + 1] == q[..e + 1]
    ensures e == f
  {
  }

  /** After a common prefix, the node next in `p` was enabled in `q` at the same point and comes no earlier there. */
  lemma NextPlace(g: TaskGraph, p: seq<nat>, q: seq<nat>, ep: seq<int>, eq: seq<int>, n: nat) returns (i: nat)
    requires KahnOrder(g, p, ep) && KahnOrder(g, q, eq)
    requires n < |p| && n < |q| && p[..n] == q[..n] && p[n] in q
    ensures n <= i < |q| && q[i] == p[n] && eq[i] == ep[n]
  {
    i :| 0 <= i < |q| && q[i] == p[n];
    var e := ep[n];
    assert p[..n][..e + 1] == p[..e + 1] && q[..n][..e + 1] == q[..e + 1];
    EnablerAgrees(g, p, q, n, i, e, eq[i]);
  }

  /** The order does not depend on how the hash maps iterate: distinct ids leave one order only. */
  lemma {:induction false} KahnOrderUnique(g: TaskGraph, p: seq<nat>, q: seq<nat>, ep: seq<int>, eq: seq<int>, n: nat)
    requires KahnOrder(g, p, ep) && KahnOrder(g, q, eq) && DistinctIds(g.tasks)
    requires forall v: nat :: v < |g.tasks| ==> v in p && v in q
    requires n <= |p| && n <= |q|
    ensures p[..n] == q[..n]
  {
    if n > 0 {
      KahnOrderUnique(g, p, q, ep, eq, n - 1);
      var x, y := p[n - 1], q[n - 1];
      var ix := NextPlace(g, p, q, ep, eq, n - 1);
      var iy := NextPlace(g, q, p, eq, ep, n - 1);
      assert p[..n] == p[..n - 1] + [x];
      assert q[..n] == q[..n - 1] + [y];
    }
  }
}
