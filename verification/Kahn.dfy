/** Kahn's layering of a task graph, with parallel edges counted. */
module Kahn {
  import opened Prelude
  import opened Ranking
  import opened TaskGraphs

  // ---------------------------------------------------------------------
  // The invariant of the traversal
  // ---------------------------------------------------------------------

  /** The state after `p` of the nodes in `order` have been taken from the queue. */
  ghost predicate Traversal(g: TaskGraph, order: seq<nat>, enabler: seq<int>, p: nat, degs: seq<nat>) {
    && KahnOrder(g, order, enabler)
    && p <= |order|
    && (forall i :: 0 <= i < |order| ==> enabler[i] < p)
    && |degs| == |g.tasks|
    && (forall v :: 0 <= v < |degs| ==> degs[v] == Pending(g.edges, Elements(order[..p]), v))
    && (forall v :: 0 <= v < |degs| ==> (v in order <==> degs[v] == 0))
  }

  /** `newly` are the nodes whose last open dependency edges came from `x`. */
  ghost predicate Released(g: TaskGraph, x: nat, degs: seq<nat>, degs': seq<nat>, newly: seq<nat>) {
    && |degs'| == |degs| == |g.tasks|
    && (forall v :: 0 <= v < |degs| ==> degs'[v] + Parallel(g.edges, x, v) == degs[v])
    && NoDuplicates(newly)
    && (forall v: nat :: v in newly <==> v < |degs| && degs[v] > 0 && degs'[v] == 0)
  }

  ghost predicate SortedById(g: TaskGraph, s: seq<nat>)
    requires forall i :: 0 <= i < |s| ==> s[i] < |g.tasks|
  {
    forall i, j :: 0 <= i < j < |s| ==> g.tasks[s[i]].id <= g.tasks[s[j]].id
  }

  ghost function Appended(enabler: seq<int>, n: nat, p: int): seq<int> {
    enabler + seq(n, _ => p)
  }

  lemma EnabledAtAppend(g: TaskGraph, order: seq<nat>, more: seq<nat>, i: nat, e: int)
    requires i < |order| && EnabledAt(g, order, i, e)
    ensures EnabledAt(g, order + more, i, e)
  {
    assert (order + more)[..e + 1] == order[..e + 1];
  }

  /** The node appended at position `|order| + i` is enabled by the one at position `p`. */
  ghost predicate NewEnabled(g: TaskGraph, order: seq<nat>, newly: seq<nat>, p: nat, i: nat)
    requires i < |newly|
  {
    EnabledAt(g, order + newly, |order| + i, p)
  }

  lemma ReleasedEnabled(g: TaskGraph, order: seq<nat>, enabler: seq<int>, p: nat, degs: seq<nat>,
                        degs': seq<nat>, newly: seq<nat>, i: nat)
    requires g.WellFormed() && Traversal(g, order, enabler, p, degs) && p < |order|
    requires Released(g, order[p], degs, degs', newly) && i < |newly|
    ensures NewEnabled(g, order, newly, p, i)
  {
    var w, x := newly[i], order[p];
    var all := order + newly;
    assert w in newly && all[|order| + i] == w && all[p] == x;
    ParallelZero(g.edges, x, w);
    DoneAdvance(order, p);
    PendingAfter(g.edges, Elements(order[..p]), x, w);
    PendingZero(g.edges, Elements(order[..p + 1]), w);
    assert all[..p + 1] == order[..p + 1];
    assert forall u :: g.HasEdge(u, w) ==> u in Elements(order[..p + 1]);
  }

  lemma DoneAdvance(order: seq<nat>, p: nat)
    requires NoDuplicates(order) && p < |order|
    ensures Elements(order[..p + 1]) == Elements(order[..p]) + {order[p]}
    ensures order[p] !in Elements(order[..p])
  {
    assert order[..p + 1] == order[..p] + [order[p]];
  }

  lemma OrderExtends(g: TaskGraph, order: seq<nat>, enabler: seq<int>, p: nat, newly: seq<nat>)
    requires KahnOrder(g, order, enabler) && p < |order|
    requires forall i :: 0 <= i < |order| ==> enabler[i] < p
    requires NoDuplicates(newly) && forall i :: 0 <= i < |newly| ==> newly[i] < |g.tasks| && newly[i] !in order
    requires SortedById(g, newly)
    requires forall i :: 0 <= i < |newly| ==> NewEnabled(g, order, newly, p, i)
    ensures KahnOrder(g, order + newly, Appended(enabler, |newly|, p))
  {
    var all, en := order + newly, Appended(enabler, |newly|, p);
    forall i | 0 <= i < |all| ensures all[i] < |g.tasks| && EnabledAt(g, all, i, en[i]) {
      if i < |order| {
        EnabledAtAppend(g, order, newly, i, en[i]);
      } else {
        assert NewEnabled(g, order, newly, p, i - |order|);
      }
    }
    forall i, j | 0 <= i < j < |all| ensures NotAfter(g, all[i], en[i], all[j], en[j]) {
      if j < |order| {
        assert NotAfter(g, order[i], enabler[i], order[j], enabler[j]);
      }
    }
  }

  /** Taking one node from the queue and releasing its dependents keeps the invariant. */
  lemma TakeNode(g: TaskGraph, order: seq<nat>, enabler: seq<int>, p: nat, degs: seq<nat>,
                 degs': seq<nat>, newly: seq<nat>)
    requires g.WellFormed() && Traversal(g, order, enabler, p, degs) && p < |order|
    requires Released(g, order[p], degs, degs', newly)
    requires forall i :: 0 <= i < |newly| ==> newly[i] < |g.tasks|
    requires SortedById(g, newly)
    ensures Traversal(g, order + newly, Appended(enabler, |newly|, p), p + 1, degs')
  {
    var all, en := order + newly, Appended(enabler, |newly|, p);
    forall i | 0 <= i < |newly| ensures NewEnabled(g, order, newly, p, i) && newly[i] !in order {
      ReleasedEnabled(g, order, enabler, p, degs, degs', newly, i);
      assert newly[i] in newly;
    }
    OrderExtends(g, order, enabler, p, newly);
    DoneAdvance(order, p);
    assert all[..p + 1] == order[..p + 1];
    forall v | 0 <= v < |degs'|
      ensures degs'[v] == Pending(g.edges, Elements(all[..p + 1]), v)
      ensures v in all <==> degs'[v] == 0
    {
      PendingAfter(g.edges, Elements(order[..p]), order[p], v);
      assert v in all <==> v in order || v in newly;
    }
  }

  lemma OrderFits(g: TaskGraph, order: seq<nat>)
    requires NoDuplicates(order) && forall i :: 0 <= i < |order| ==> order[i] < |g.tasks|
    ensures |order| <= |g.tasks|
    ensures |order| == |g.tasks| ==> forall v: nat :: v < |g.tasks| ==> v in order
  {
    var n := |g.tasks|;
    IndicesMembers(n);
    DistinctLength(order);
    DistinctLength(Indices(n));
    assert Elements(order) <= Elements(Indices(n));
    SubsetSize(Elements(order), Elements(Indices(n)));
    if |order| == n {
      forall v: nat | v < n ensures v in order {
        assert v in Elements(Indices(n));
      }
    }
  }

  /** When the queue runs dry early, the nodes never reached form a stuck set. */
  lemma DryMeansCycle(g: TaskGraph, order: seq<nat>, enabler: seq<int>, degs: seq<nat>)
    requires g.WellFormed() && Traversal(g, order, enabler, |order|, degs) && |order| < |g.tasks|
    ensures !Acyclic(g)
  {
    assert order[..|order|] == order;
    var all := Elements(Indices(|g.tasks|));
    IndicesMembers(|g.tasks|);
    assert forall v: nat :: v in all <==> v < |g.tasks|;
    var stuck := all - Elements(order);
    forall v | v in stuck ensures NeedsOneOf(g, stuck, v) {
      assert degs[v] > 0;
      PendingZero(g.edges, Elements(order), v);
      var u: nat :| Edge(u, v) in g.edges && u !in Elements(order);
      assert u < |g.tasks|;
      assert u in stuck && g.HasEdge(u, v);
    }
    DistinctLength(Indices(|g.tasks|));
    DistinctLength(order);
    if stuck == {} {
      assert all <= stuck + Elements(order);
      SubsetSize(all, Elements(order));
    }
    StuckCyclic(g, stuck);
  }

  // ---------------------------------------------------------------------
  // The traversal
  // ---------------------------------------------------------------------

  /** Nodes in stable ascending order of their ids. */
  method SortById(g: TaskGraph, s: seq<nat>) returns (r: seq<nat>)
    requires NoDuplicates(s) && forall i :: 0 <= i < |s| ==> s[i] < |g.tasks|
    ensures NoDuplicates(r) && (forall v :: v in r <==> v in s)
    ensures forall i :: 0 <= i < |r| ==> r[i] < |g.tasks|
    ensures SortedById(g, r)
  {
    var key := (v: nat) => if v < |g.tasks| then -(g.tasks[v].id as real) else 0.0;
    r := SortDesc(s, key);
    SortDescCorrect(s, key);
    SortDescMembers(s, key);
    PermutedDistinct(s, r);
    forall i | 0 <= i < |r| ensures r[i] < |g.tasks| {
      assert r[i] in s;
    }
    forall i, j | 0 <= i < j < |r| ensures g.tasks[r[i]].id <= g.tasks[r[j]].id {
      assert key(r[i]) >= key(r[j]);
    }
  }

  method InDegrees(g: TaskGraph) returns (degs: seq<nat>)
    ensures |degs| == |g.tasks|
    ensures forall v :: 0 <= v < |degs| ==> degs[v] == Pending(g.edges, {}, v)
  {
    degs := [];
    for v := 0 to |g.tasks|
      invariant |degs| == v
      invariant forall w :: 0 <= w < v ==> degs[w] == Pending(g.edges, {}, w)
    {
      var degree := 0;
      for k := 0 to |g.edges|
        invariant degree == Pending(g.edges[..k], {}, v)
      {
        PendingStep(g.edges, k, {}, v);
        if g.edges[k].to == v {
          degree := degree + 1;
        }
      }
      assert g.edges[..|g.edges|] == g.edges;
      degs := degs + [degree];
    }
  }

  /** Lowers the in-degree of every dependent, once per edge, and collects those that reach 0. */
  method Release(g: TaskGraph, x: nat, degs: seq<nat>) returns (degs': seq<nat>, newly: seq<nat>)
    requires g.WellFormed() && |degs| == |g.tasks|
    requires forall v :: 0 <= v < |degs| ==> degs[v] >= Parallel(g.edges, x, v)
    ensures Released(g, x, degs, degs', newly)
  {
    degs', newly := degs, [];
    for k := 0 to |g.edges|
      invariant |degs'| == |degs|
      invariant forall v :: 0 <= v < |degs| ==> degs'[v] + Parallel(g.edges[..k], x, v) == degs[v]
      invariant NoDuplicates(newly)
      invariant forall v: nat :: v in newly <==> v < |degs| && degs[v] > 0 && degs'[v] == 0
    {
      var e := g.edges[k];
      forall v: nat
        ensures Parallel(g.edges[..k + 1], x, v) == Parallel(g.edges[..k], x, v) + (if e == Edge(x, v) then 1 else 0)
      {
        ParallelStep(g.edges, k, x, v);
      }
      if e.from == x {
        var w := e.to;
        ParallelPrefix(g.edges, k + 1, x, w);
        degs' := degs'[w := if degs'[w] == 0 then 0 else degs'[w] - 1];
        if degs'[w] == 0 {
          newly := newly + [w];
        }
      }
    }
    assert g.edges[..|g.edges|] == g.edges;
  }

  ghost function LayerIds(g: TaskGraph, nodes: seq<seq<nat>>): seq<seq<TaskId>>
    requires forall k, i :: 0 <= k < |nodes| && 0 <= i < |nodes[k]| ==> nodes[k][i] < |g.tasks|
  {
    seq(|nodes|, k requires 0 <= k < |nodes| => NodeIds(g, nodes[k]))
  }

  ghost function NodeIds(g: TaskGraph, s: seq<nat>): seq<TaskId>
    requires forall i :: 0 <= i < |s| ==> s[i] < |g.tasks|
  {
    seq(|s|, i requires 0 <= i < |s| => g.tasks[s[i]].id)
  }

  /** Every node once, in the layer its longest dependency chain asks for, in Kahn order. */
  ghost predicate TopoLayering(g: TaskGraph, nodes: seq<seq<nat>>) {
    && Layered(g, nodes)
    && (forall k, i :: 0 <= k < |nodes| && 0 <= i < |nodes[k]| ==> nodes[k][i] < |g.tasks|)
    && (forall k :: 0 <= k < |nodes| ==> nodes[k] != [])
    && (forall v: nat :: v < |g.tasks| <==> v in Flatten(nodes))
    && (exists enabler :: KahnOrder(g, Flatten(nodes), enabler))
  }

  lemma DepthUnique(g: TaskGraph, v: nat, m: nat, n: nat)
    requires LongestChain(g, v, m) && LongestChain(g, v, n)
    ensures m == n
  {
    var c :| IsChain(g, c) && c[|c| - 1] == v && |c| == m;
    var d :| IsChain(g, d) && d[|d| - 1] == v && |d| == n;
    assert |c| <= n && |d| <= m;
  }

  /** The nodes of layer `k` have depth `base + k + 1`. */
  ghost predicate DepthFrom(g: TaskGraph, layers: seq<seq<nat>>, base: nat) {
    forall k, i :: 0 <= k < |layers| && 0 <= i < |layers[k]| ==> LongestChain(g, layers[k][i], base + k + 1)
  }

  /** The depth found at a position of the flattened layers tells whether it lies in the first layer. */
  lemma {:induction false} PositionDepth(g: TaskGraph, a: seq<seq<nat>>, base: nat, i: nat) returns (m: nat)
    requires DepthFrom(g, a, base) && i < |Flatten(a)|
    ensures LongestChain(g, Flatten(a)[i], m) && m > base
    ensures a != [] && (m == base + 1 <==> i < |a[0]|)
  {
    if i < |a[0]| {
      m := base + 1;
      assert Flatten(a)[i] == a[0][i];
    } else {
      assert forall k :: 0 <= k < |a[1..]| ==> a[1..][k] == a[k + 1];
      m := PositionDepth(g, a[1..], base + 1, i - |a[0]|);
      assert Flatten(a)[i] == Flatten(a[1..])[i - |a[0]|];
    }
  }

  lemma FirstLayerShorter(g: TaskGraph, a: seq<seq<nat>>, b: seq<seq<nat>>, base: nat)
    requires DepthFrom(g, a, base) && DepthFrom(g, b, base)
    requires Flatten(a) == Flatten(b) && a != [] && b != []
    ensures |a[0]| >= |b[0]|
  {
    var i := |a[0]|;
    if i < |Flatten(a)| {
      var m := PositionDepth(g, a, base, i);
      var n := PositionDepth(g, b, base, i);
      DepthUnique(g, Flatten(a)[i], m, n);
    }
  }

  lemma {:induction false} SameLayers(g: TaskGraph, a: seq<seq<nat>>, b: seq<seq<nat>>, base: nat)
    requires DepthFrom(g, a, base) && DepthFrom(g, b, base) && Flatten(a) == Flatten(b)
    requires (forall k :: 0 <= k < |a| ==> a[k] != []) && (forall k :: 0 <= k < |b| ==> b[k] != [])
    ensures a == b
  {
    if a != [] && b != [] {
      FirstLayerShorter(g, a, b, base);
      FirstLayerShorter(g, b, a, base);
      assert a[0] == Flatten(a)[..|a[0]|] == Flatten(b)[..|b[0]|] == b[0];
      assert Flatten(a[1..]) == Flatten(a)[|a[0]|..] == Flatten(b)[|b[0]|..] == Flatten(b[1..]);
      assert forall k :: 0 <= k < |a[1..]| ==> a[1..][k] == a[k + 1];
      assert forall k :: 0 <= k < |b[1..]| ==> b[1..][k] == b[k + 1];
      SameLayers(g, a[1..], b[1..], base + 1);
      assert a == [a[0]] + a[1..] && b == [b[0]] + b[1..];
    } else {
      assert a != [] ==> Flatten(a) != [];
      assert b != [] ==> Flatten(b) != [];
    }
  }

  /** With distinct ids there is exactly one result, whatever the iteration order of the hash maps. */
  lemma LayeringUnique(g: TaskGraph, a: seq<seq<nat>>, b: seq<seq<nat>>)
    requires TopoLayering(g, a) && TopoLayering(g, b) && DistinctIds(g.tasks)
    ensures a == b
  {
    var p, q := Flatten(a), Flatten(b);
    var ep :| KahnOrder(g, p, ep);
    var eq :| KahnOrder(g, q, eq);
    OrderCovers(g, p);
    OrderCovers(g, q);
    KahnOrderUnique(g, p, q, ep, eq, |p|);
    assert p == p[..|p|] && q == q[..|p|];
    LayeringDepths(g, a);
    LayeringDepths(g, b);
    SameLayers(g, a, b, 0);
  }

  lemma OrderCovers(g: TaskGraph, order: seq<nat>)
    requires NoDuplicates(order) && forall v: nat :: v < |g.tasks| <==> v in order
    ensures |order| == |g.tasks|
  {
    IndicesMembers(|g.tasks|);
    DistinctLength(order);
    DistinctLength(Indices(|g.tasks|));
    assert Elements(order) == Elements(Indices(|g.tasks|)) by {
      forall v: nat ensures v in Elements(order) <==> v in Elements(Indices(|g.tasks|)) {
        assert v in order <==> v in Indices(|g.tasks|);
      }
    }
  }

  lemma LayeringDepths(g: TaskGraph, layers: seq<seq<nat>>)
    requires Layered(g, layers)
    ensures DepthFrom(g, layers, 0)
  {
    forall k, i | 0 <= k < |layers| && 0 <= i < |layers[k]| ensures LongestChain(g, layers[k][i], 0 + k + 1) {
      assert layers[k][i] in layers[k];
      LayerIsDepth(g, layers, k, layers[k][i]);
    }
  }

  method Roots(g: TaskGraph, degs: seq<nat>) returns (roots: seq<nat>)
    requires |degs| == |g.tasks|
    ensures NoDuplicates(roots)
    ensures forall v: nat :: v in roots <==> v < |degs| && degs[v] == 0
    ensures forall i :: 0 <= i < |roots| ==> roots[i] < |g.tasks|
    ensures SortedById(g, roots)
  {
    roots := [];
    for v := 0 to |degs|
      invariant NoDuplicates(roots)
      invariant forall w: nat :: w in roots <==> w < v && degs[w] == 0
    {
      if degs[v] == 0 {
        roots := roots + [v];
      }
    }
    assert forall i :: 0 <= i < |roots| ==> roots[i] in roots;
    roots := SortById(g, roots);
  }

  lemma RootsTraversal(g: TaskGraph, degs: seq<nat>, roots: seq<nat>)
    requires |degs| == |g.tasks| && forall v :: 0 <= v < |degs| ==> degs[v] == Pending(g.edges, {}, v)
    requires NoDuplicates(roots) && forall v: nat :: v in roots <==> v < |degs| && degs[v] == 0
    requires forall i :: 0 <= i < |roots| ==> roots[i] < |g.tasks|
    requires SortedById(g, roots)
    ensures Traversal(g, roots, Appended([], |roots|, -1), 0, degs)
    ensures forall v :: v in roots ==> Ready(g, v, [], None)
  {
    assert Elements(roots[..0]) == {};
    forall v | v in roots ensures Ready(g, v, [], None) {
      PendingZero(g.edges, {}, v);
    }
    forall i | 0 <= i < |roots| ensures EnabledAt(g, roots, i, -1) {
      assert roots[i] in roots;
      PendingZero(g.edges, {}, roots[i]);
    }
  }

  /** Whatever was released while the layer at positions `b..p` was processed belongs to the next layer. */
  lemma NextLayerReady(g: TaskGraph, order: seq<nat>, enabler: seq<int>, b: nat, p: nat, layer: seq<nat>)
    requires KahnOrder(g, order, enabler) && b <= p <= |order| && layer == order[b..p]
    requires forall i :: p <= i < |order| ==> b <= enabler[i] < p
    ensures forall v :: v in order[p..] ==> Ready(g, v, order[..p], Some(layer))
  {
    forall v | v in order[p..] ensures Ready(g, v, order[..p], Some(layer)) {
      var i :| 0 <= i < |order[p..]| && order[p..][i] == v;
      var e := enabler[p + i];
      assert EnabledAt(g, order, p + i, e);
      assert layer[e - b] == order[e];
      forall u | g.HasEdge(u, v) ensures u in order[..p] {
        assert u in order[..e + 1];
        assert order[..e + 1] == order[..p][..e + 1];
      }
    }
  }

  /** Layers of task ids; `nodes` are the same layers as graph nodes. */
  method TopoLayers(g: TaskGraph) returns (r: Result<seq<seq<TaskId>>, SchedulerError>, nodes: seq<seq<nat>>)
    requires g.WellFormed()
    ensures r.Ok? <==> Acyclic(g)
    ensures r.Err? ==> r.error == CycleDetected
    ensures r.Ok? ==> TopoLayering(g, nodes) && r.value == LayerIds(g, nodes)
  {
    var degs := InDegrees(g);
    var queue := Roots(g, degs);
    RootsTraversal(g, degs, queue);
    ghost var order, enabler := queue, Appended([], |queue|, -1);
    var layers: seq<seq<TaskId>> := [];
    nodes := [];
    var processed := 0;
    while queue != []
      invariant Traversal(g, order, enabler, processed, degs)
      invariant order[..processed] == Flatten(nodes) && order[processed..] == queue
      invariant Layered(g, nodes)
      invariant forall v :: v in queue ==> Ready(g, v, Flatten(nodes), Previous(nodes, |nodes|))
      invariant forall k :: 0 <= k < |nodes| ==> nodes[k] != []
      invariant forall k, i :: 0 <= k < |nodes| && 0 <= i < |nodes[k]| ==> nodes[k][i] < |g.tasks|
      invariant layers == LayerIds(g, nodes)
      decreases |g.tasks| - processed
    {
      OrderFits(g, order);
      var layer := queue;
      ghost var b := processed;
      var currentLayer;
      LayeredSnoc(g, nodes, layer);
      currentLayer, queue, degs, processed, order, enabler := RunLayer(g, queue, degs, processed, order, enabler);
      NextLayerReady(g, order, enabler, b, processed, layer);
      FlattenSnoc(nodes, layer);
      assert order[..processed] == order[..b] + order[b..processed];
      nodes := nodes + [layer];
      layers := layers + [currentLayer];
    }
    assert processed == |order| && order[..processed] == order;
    OrderFits(g, order);
    if processed != |g.tasks| {
      DryMeansCycle(g, order, enabler, degs);
      return Err(CycleDetected), nodes;
    }
    assert order == Flatten(nodes);
    assert KahnOrder(g, Flatten(nodes), enabler);
    LayeredAcyclic(g, nodes);
    r := Ok(layers);
  }

  /** Takes exactly the nodes that are in the queue when the layer starts. */
  method RunLayer(g: TaskGraph, queue: seq<nat>, degs: seq<nat>, processed: nat, ghost order: seq<nat>,
                  ghost enabler: seq<int>)
    returns (currentLayer: seq<TaskId>, queue': seq<nat>, degs': seq<nat>, processed': nat,
             ghost order': seq<nat>, ghost enabler': seq<int>)
    requires g.WellFormed() && Traversal(g, order, enabler, processed, degs) && order[processed..] == queue
    ensures Traversal(g, order', enabler', processed', degs') && processed' == processed + |queue|
    ensures |order| <= |order'| && order'[..|order|] == order && order'[processed'..] == queue'
    ensures forall i :: processed' <= i < |order'| ==> processed <= enabler'[i] < processed'
    ensures (forall i :: 0 <= i < |queue| ==> queue[i] < |g.tasks|) && currentLayer == NodeIds(g, queue)
  {
    assert forall i :: 0 <= i < |queue| ==> queue[i] == order[processed + i];
    queue', degs', processed', order', enabler' := queue, degs, processed, order, enabler;
    currentLayer := [];
    for i := 0 to |queue|
      invariant Traversal(g, order', enabler', processed', degs') && processed' == processed + i
      invariant |order| <= |order'| && order'[..|order|] == order && order'[processed'..] == queue'
      invariant forall j :: |order| <= j < |order'| ==> processed <= enabler'[j]
      invariant currentLayer == NodeIds(g, queue[..i])
    {
      ghost var before := order';
      assert queue'[0] == order'[processed'] == order[processed'] == queue[i];
      assert queue[..i + 1] == queue[..i] + [queue[i]];
      var id;
      id, queue', degs', order', enabler' := RunNode(g, queue', degs', processed', order', enabler');
      assert order'[..|order|] == before[..|order|];
      currentLayer := currentLayer + [id];
      processed' := processed' + 1;
    }
    assert queue[..|queue|] == queue;
  }

  /** Takes the node at the front of the queue and queues what it releases. */
  method RunNode(g: TaskGraph, queue: seq<nat>, degs: seq<nat>, p: nat, ghost order: seq<nat>, ghost enabler: seq<int>)
    returns (id: TaskId, queue': seq<nat>, degs': seq<nat>, ghost order': seq<nat>, ghost enabler': seq<int>)
    requires g.WellFormed() && Traversal(g, order, enabler, p, degs) && order[p..] == queue && queue != []
    ensures Traversal(g, order', enabler', p + 1, degs') && order'[p + 1..] == queue'
    ensures order[p] < |g.tasks| && id == g.tasks[order[p]].id
    ensures |order| <= |order'| && order'[..|order|] == order && enabler'[..|order|] == enabler
    ensures forall j :: |order| <= j < |order'| ==> enabler'[j] == p
  {
    var x := queue[0];
    assert x == order[p];
    id := g.tasks[x].id;
    forall v | 0 <= v < |degs| ensures degs[v] >= Parallel(g.edges, x, v) {
      DoneAdvance(order, p);
      PendingAfter(g.edges, Elements(order[..p]), x, v);
    }
    var lowered, newly := Release(g, x, degs);
    assert forall k :: 0 <= k < |newly| ==> newly[k] in newly;
    var ready := SortById(g, newly);
    TakeNode(g, order, enabler, p, degs, lowered, ready);
    degs', queue' := lowered, queue[1..] + ready;
    order', enabler' := order + ready, Appended(enabler, |ready|, p);
  }
}
