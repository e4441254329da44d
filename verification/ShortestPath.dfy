/**
 arcana/src/traversal.rs: the depth-bounded breadth-first search and its path reconstruction.

 The adjacency callback is a function that may fail; it may also name nodes outside the graph,
 which the search reports when it meets them.
 */
module ShortestPath {
  import opened Ordering
  import opened Wrappers

  datatype Neighbor = Neighbor(node: nat, kind: nat)
  datatype GraphPath = GraphPath(nodes: seq<nat>, kinds: seq<nat>)
  datatype TraversalError<+E> = InvalidNode(node: nat, nodeCount: nat) | Source(error: E)

  type Adjacency<!E> = nat -> Result<seq<Neighbor>, E>
  type Depths = seq<Option<nat>>
  type Parents = seq<Option<(nat, nat)>>

  // ----- specification: walks -----

  ghost predicate Edge<E>(adj: Adjacency<E>, u: nat, v: nat, kind: nat) {
    adj(u).Success? && Neighbor(v, kind) in adj(u).value
  }

  ghost predicate Walk<E>(adj: Adjacency<E>, p: GraphPath, start: nat, end: nat) {
    && |p.nodes| == |p.kinds| + 1
    && p.nodes[0] == start
    && p.nodes[|p.kinds|] == end
    && forall i :: 0 <= i < |p.kinds| ==> Edge(adj, p.nodes[i], p.nodes[i + 1], p.kinds[i])
  }

  /** A walk that repeats no node and that no other walk between its ends undercuts. */
  ghost predicate Shortest<E>(adj: Adjacency<E>, p: GraphPath, start: nat, end: nat) {
    && Walk(adj, p, start, end)
    && Distinct(p.nodes)
    && forall q :: Walk(adj, q, start, end) ==> |p.kinds| <= |q.kinds|
  }

  /** The search can blame only something it could reach with depth to spare. */
  ghost predicate Blames<E>(adj: Adjacency<E>, n: nat, start: nat, maxDepth: nat, error: TraversalError<E>) {
    exists q: GraphPath, u :: Walk(adj, q, start, u) && |q.kinds| < maxDepth &&
      match error
      case Source(e) => adj(u) == Failure(e)
      case InvalidNode(v, count) => count == n <= v && adj(u).Success? && exists k :: Neighbor(v, k) in adj(u).value
  }

  // ----- search invariants -----

  ghost predicate Discovered(depth: Depths, v: nat) {
    v < |depth| && depth[v].Some?
  }

  /** Every discovered node but the start has a discovered parent one step nearer, over a real edge. */
  ghost predicate ParentTree<E>(adj: Adjacency<E>, start: nat, depth: Depths, parent: Parents) {
    && |depth| == |parent|
    && start < |depth| && depth[start] == Some(0)
    && forall v :: 0 <= v < |depth| && depth[v].Some? && v != start ==>
        && parent[v].Some?
        && parent[v].value.0 < |depth|
        && depth[parent[v].value.0].Some?
        && depth[v].value == depth[parent[v].value.0].value + 1
        && Edge(adj, parent[v].value.0, v, parent[v].value.1)
  }

  /** The queue lists discovered nodes in order of depth, all of them at depth d or d + 1. */
  ghost predicate Layered(depth: Depths, d: nat, queue: seq<nat>) {
    && (forall i :: 0 <= i < |queue| ==> Discovered(depth, queue[i]) && d <= depth[queue[i]].value <= d + 1)
    && (forall i, j :: 0 <= i < j < |queue| ==> depth[queue[i]].value <= depth[queue[j]].value)
  }

  /** Nodes taken from the queue before the depth limit have passed on their depth to all neighbours. */
  ghost predicate Expanded<E>(adj: Adjacency<E>, depth: Depths, done: set<nat>, maxDepth: nat) {
    forall u :: u in done ==>
      && Discovered(depth, u)
      && (depth[u].value < maxDepth ==> adj(u).Success? && Relaxed(depth, depth[u].value, adj(u).value))
  }

  ghost predicate Relaxed(depth: Depths, d: nat, neighbors: seq<Neighbor>) {
    forall j :: 0 <= j < |neighbors| ==>
      Discovered(depth, neighbors[j].node) && depth[neighbors[j].node].value <= d + 1
  }

  /**
   The state of the search at depth d: everything discovered is settled in `done`, and then no deeper
   than d, or waits in the queue.
   */
  ghost predicate Searching<E>(adj: Adjacency<E>, start: nat, target: nat, maxDepth: nat, depth: Depths,
                               parent: Parents, d: nat, queue: seq<nat>, done: set<nat>) {
    && ParentTree(adj, start, depth, parent)
    && target < |depth| && depth[target].None?
    && Layered(depth, d, queue)
    && Expanded(adj, depth, done, maxDepth)
    && (forall u :: u in done ==> depth[u].value <= d)
    && (forall v: nat :: Discovered(depth, v) ==> v in done || v in queue)
  }

  /** While `node` is being expanded it counts as neither settled nor waiting. */
  ghost predicate Expanding<E>(adj: Adjacency<E>, start: nat, target: nat, maxDepth: nat, depth: Depths,
                               parent: Parents, node: nat, d: nat, queue: seq<nat>, done: set<nat>) {
    && ParentTree(adj, start, depth, parent)
    && target < |depth| && depth[target].None?
    && node < |depth| && depth[node] == Some(d)
    && Layered(depth, d, queue)
    && Expanded(adj, depth, done, maxDepth)
    && (forall u :: u in done ==> depth[u].value <= d)
    && (forall v: nat :: Discovered(depth, v) ==> v in done || v in queue || v == node)
  }

  lemma SearchStarts<E>(adj: Adjacency<E>, start: nat, target: nat, maxDepth: nat, depth: Depths, parent: Parents)
    requires |depth| == |parent| && start < |depth| && target < |depth| && start != target
    requires forall v :: 0 <= v < |depth| ==> depth[v] == if v == start then Some(0) else None
    ensures Searching(adj, start, target, maxDepth, depth, parent, 0, [start], {})
  {
  }

  lemma Pop<E>(adj: Adjacency<E>, start: nat, target: nat, maxDepth: nat, depth: Depths, parent: Parents, d: nat,
               queue: seq<nat>, done: set<nat>)
    requires Searching(adj, start, target, maxDepth, depth, parent, d, queue, done) && queue != []
    ensures Discovered(depth, queue[0]) && ParentTree(adj, start, depth, parent)
    ensures Expanding(adj, start, target, maxDepth, depth, parent, queue[0], depth[queue[0]].value, queue[1..], done)
  {
    var rest := queue[1..];
    assert queue == [queue[0]] + rest;
    forall i | 0 <= i < |rest| ensures depth[queue[0]].value <= depth[rest[i]].value { assert rest[i] == queue[i + 1]; }
  }

  /** Once the current node has relaxed its neighbours, or is too deep to, it is settled. */
  lemma Settle<E>(adj: Adjacency<E>, start: nat, target: nat, maxDepth: nat, depth: Depths, parent: Parents,
                  node: nat, d: nat, queue: seq<nat>, done: set<nat>)
    requires Expanding(adj, start, target, maxDepth, depth, parent, node, d, queue, done)
    requires d < maxDepth ==> adj(node).Success? && Relaxed(depth, d, adj(node).value)
    ensures Searching(adj, start, target, maxDepth, depth, parent, d, queue, done + {node})
  {
  }

  lemma QueueGrows(depth: Depths, d: nat, queue: seq<nat>, v: nat)
    requires Layered(depth, d, queue) && v < |depth| && depth[v].None?
    ensures Layered(depth[v := Some(d + 1)], d, queue + [v])
  {
  }

  lemma ExpandedGrows<E>(adj: Adjacency<E>, depth: Depths, done: set<nat>, maxDepth: nat, v: nat, value: nat)
    requires Expanded(adj, depth, done, maxDepth) && v < |depth| && depth[v].None?
    ensures Expanded(adj, depth[v := Some(value)], done, maxDepth)
    ensures v !in done
  {
  }

  lemma TreeGrows<E>(adj: Adjacency<E>, start: nat, target: nat, maxDepth: nat, depth: Depths, parent: Parents,
                     node: nat, d: nat, queue: seq<nat>, done: set<nat>, v: nat, kind: nat)
    requires Expanding(adj, start, target, maxDepth, depth, parent, node, d, queue, done)
    requires v < |depth| && depth[v].None? && Edge(adj, node, v, kind)
    ensures ParentTree(adj, start, depth[v := Some(d + 1)], parent[v := Some((node, kind))])
  {
    hide Edge, Layered, Expanded;
  }

  /** The current node meets an undiscovered neighbour, which joins the back of the queue. */
  lemma Discover<E>(adj: Adjacency<E>, start: nat, target: nat, maxDepth: nat, depth: Depths, parent: Parents,
                    node: nat, d: nat, queue: seq<nat>, done: set<nat>, v: nat, kind: nat)
    requires Expanding(adj, start, target, maxDepth, depth, parent, node, d, queue, done)
    requires v < |depth| && depth[v].None? && v != target && Edge(adj, node, v, kind)
    ensures Expanding(adj, start, target, maxDepth, depth[v := Some(d + 1)], parent[v := Some((node, kind))],
                      node, d, queue + [v], done)
  {
    TreeGrows(adj, start, target, maxDepth, depth, parent, node, d, queue, done, v, kind);
    QueueGrows(depth, d, queue, v);
    ExpandedGrows(adj, depth, done, maxDepth, v, d + 1);
    hide Edge, ParentTree, Layered, Expanded;
    var depth' := depth[v := Some(d + 1)];
    forall w: nat | Discovered(depth', w) ensures w in done || w in queue + [v] || w == node {
      assert w == v || Discovered(depth, w);
    }
  }

  lemma RelaxedStays(depth: Depths, d: nat, neighbors: seq<Neighbor>, v: nat, value: nat)
    requires Relaxed(depth, d, neighbors) && v < |depth| && depth[v].None?
    ensures Relaxed(depth[v := Some(value)], d, neighbors)
  {
  }

  /** Whatever is discovered while d is current lies at depth at most d + 1. */
  lemma AlreadyNear<E>(adj: Adjacency<E>, start: nat, target: nat, maxDepth: nat, depth: Depths, parent: Parents,
                       node: nat, d: nat, queue: seq<nat>, done: set<nat>, v: nat)
    requires Expanding(adj, start, target, maxDepth, depth, parent, node, d, queue, done) && Discovered(depth, v)
    ensures depth[v].value <= d + 1
  {
  }

  // ----- reconstruction -----

  function Reverse<T>(s: seq<T>): (r: seq<T>)
    ensures |r| == |s|
    ensures forall i :: 0 <= i < |s| ==> r[i] == s[|s| - 1 - i]
  {
    if s == [] then [] else Reverse(s[1..]) + [s[0]]
  }

  /** The walk read off the parent chain backwards, from the target down to the node at `current`. */
  ghost predicate BackwardWalk<E>(adj: Adjacency<E>, depth: Depths, target: nat, nodes: seq<nat>, kinds: seq<nat>) {
    && |nodes| == |kinds| + 1
    && Discovered(depth, target)
    && nodes[0] == target
    && (forall i :: 0 <= i < |nodes| ==>
          Discovered(depth, nodes[i]) && depth[nodes[i]].value == depth[target].value - i)
    && (forall i :: 0 <= i < |kinds| ==> Edge(adj, nodes[i + 1], nodes[i], kinds[i]))
  }

  lemma ReverseWalk<E>(adj: Adjacency<E>, depth: Depths, start: nat, target: nat, nodes: seq<nat>, kinds: seq<nat>)
    requires BackwardWalk(adj, depth, target, nodes, kinds) && nodes[|kinds|] == start
    requires Discovered(depth, start) && depth[start] == Some(0)
    ensures var p := GraphPath(Reverse(nodes), Reverse(kinds));
      Walk(adj, p, start, target) && |p.kinds| == depth[target].value && Distinct(p.nodes)
  {
    var n := |kinds|;
    forall i | 0 <= i < n ensures Edge(adj, Reverse(nodes)[i], Reverse(nodes)[i + 1], Reverse(kinds)[i]) {
      assert Edge(adj, nodes[n - 1 - i + 1], nodes[n - 1 - i], kinds[n - 1 - i]);
    }
  }

  lemma StepBack<E>(adj: Adjacency<E>, start: nat, depth: Depths, parent: Parents, target: nat, nodes: seq<nat>,
                    kinds: seq<nat>)
    requires ParentTree(adj, start, depth, parent) && BackwardWalk(adj, depth, target, nodes, kinds)
    requires nodes[|kinds|] != start
    ensures var v := nodes[|kinds|];
      && Discovered(depth, v) && parent[v].Some?
      && BackwardWalk(adj, depth, target, nodes + [parent[v].value.0], kinds + [parent[v].value.1])
      && depth[parent[v].value.0].value < depth[v].value
  {
    hide Edge;
  }

  method ReconstructPath<E>(ghost adj: Adjacency<E>, start: nat, target: nat, parent: array<Option<(nat, nat)>>,
                            ghost depth: Depths)
    returns (path: GraphPath)
    requires ParentTree(adj, start, depth, parent[..]) && Discovered(depth, target)
    ensures Walk(adj, path, start, target) && Distinct(path.nodes)
    ensures |path.kinds| == depth[target].value
  {
    var nodes, kinds := [target], [];
    var current := target;
    assert Discovered(depth, start) && depth[start] == Some(0);
    hide Edge, ParentTree;
    while current != start
      invariant BackwardWalk(adj, depth, target, nodes, kinds) && nodes[|kinds|] == current
      decreases depth[current].value
    {
      StepBack(adj, start, depth, parent[..], target, nodes, kinds);
      var (previous, kind) := parent[current].value;
      nodes := nodes + [previous];
      kinds := kinds + [kind];
      current := previous;
    }
    ReverseWalk(adj, depth, start, target, nodes, kinds);
    hide *;
    path := GraphPath(Reverse(nodes), Reverse(kinds));
  }

  // ----- the search -----

  method FindShortestPath<E>(nodeCount: nat, start: nat, target: nat, maxDepth: nat, neighbors: Adjacency<E>)
    returns (r: Result<Option<GraphPath>, TraversalError<E>>)
    ensures start >= nodeCount ==> r == Failure(InvalidNode(start, nodeCount))
    ensures start < nodeCount <= target ==> r == Failure(InvalidNode(target, nodeCount))
    ensures r.Success? && r.value.Some? ==>
      Shortest(neighbors, r.value.value, start, target) && (start == target || |r.value.value.kinds| <= maxDepth)
    ensures r.Success? && r.value.None? ==>
      start != target && forall q :: Walk(neighbors, q, start, target) ==> |q.kinds| > maxDepth
    ensures r.Failure? && start < nodeCount && target < nodeCount ==>
      start != target && Blames(neighbors, nodeCount, start, maxDepth, r.error)
  {
    if start >= nodeCount { return Failure(InvalidNode(start, nodeCount)); }
    if target >= nodeCount { return Failure(InvalidNode(target, nodeCount)); }
    if start == target {
      return Success(Some(GraphPath([start], [])));
    }
    r := BreadthFirst(nodeCount, start, target, maxDepth, neighbors);
  }

  ghost function Unseen(depth: Depths): set<nat> {
    set v: nat | v < |depth| && depth[v].None?
  }

  lemma SeenOnce(depth: Depths, v: nat, value: nat)
    requires v < |depth| && depth[v].None?
    ensures Unseen(depth[v := Some(value)]) < Unseen(depth)
  {
    assert v in Unseen(depth) && v !in Unseen(depth[v := Some(value)]);
  }

  /** The worklist of `shortest_path`, once the trivial cases are out of the way. */
  method BreadthFirst<E>(nodeCount: nat, start: nat, target: nat, maxDepth: nat, neighbors: Adjacency<E>)
    returns (r: Result<Option<GraphPath>, TraversalError<E>>)
    requires start < nodeCount && target < nodeCount && start != target
    ensures r.Success? && r.value.Some? ==>
      Shortest(neighbors, r.value.value, start, target) && |r.value.value.kinds| <= maxDepth
    ensures r.Success? && r.value.None? ==>
      forall q {:trigger Walk(neighbors, q, start, target)} :: Walk(neighbors, q, start, target) ==> |q.kinds| > maxDepth
    ensures r.Failure? ==> Blames(neighbors, nodeCount, start, maxDepth, r.error)
  {
    var depth := new Option<nat>[nodeCount](_ => None);
    var parent := new Option<(nat, nat)>[nodeCount](_ => None);
    depth[start] := Some(0);
    SearchStarts(neighbors, start, target, maxDepth, depth[..], parent[..]);
    hide *;
    r := Drain(nodeCount, start, target, maxDepth, neighbors, depth, parent);
  }

  method Drain<E>(nodeCount: nat, start: nat, target: nat, maxDepth: nat, neighbors: Adjacency<E>,
                  depth: array<Option<nat>>, parent: array<Option<(nat, nat)>>)
    returns (r: Result<Option<GraphPath>, TraversalError<E>>)
    requires depth.Length == parent.Length == nodeCount
    requires Searching(neighbors, start, target, maxDepth, depth[..], parent[..], 0, [start], {})
    modifies depth, parent
    ensures r.Success? && r.value.Some? ==>
      Shortest(neighbors, r.value.value, start, target) && |r.value.value.kinds| <= maxDepth
    ensures r.Success? && r.value.None? ==>
      forall q {:trigger Walk(neighbors, q, start, target)} :: Walk(neighbors, q, start, target) ==> |q.kinds| > maxDepth
    ensures r.Failure? ==> Blames(neighbors, nodeCount, start, maxDepth, r.error)
  {
    hide Searching, Expanding, Layered, Expanded, ParentTree, Blames, Unseen, Shortest, Walk, Relaxed;
    var queue := [start];
    ghost var done: set<nat>, level: nat := {}, 0;
    while queue != []
      invariant Searching(neighbors, start, target, maxDepth, depth[..], parent[..], level, queue, done)
      decreases Unseen(depth[..]), |queue|
    {
      Pop(neighbors, start, target, maxDepth, depth[..], parent[..], level, queue, done);
      var node := queue[0];
      queue := queue[1..];
      var currentDepth := depth[node].value;
      if currentDepth < maxDepth {
        var adjacent := neighbors(node);
        if adjacent.Failure? {
          BlameNode(neighbors, nodeCount, start, maxDepth, depth[..], parent[..], node, Source(adjacent.error));
          return Failure(Source(adjacent.error));
        }
        var outcome;
        outcome, queue := Expand(nodeCount, start, target, maxDepth, neighbors, depth, parent, node, queue, done);
        if outcome.Failure? { return Failure(outcome.error); }
        if outcome.value.Some? { return outcome; }
      }
      Settle(neighbors, start, target, maxDepth, depth[..], parent[..], node, currentDepth, queue, done);
      done, level := done + {node}, currentDepth;
    }
    Exhausted(neighbors, start, target, maxDepth, depth[..], parent[..], level, done);
    return Success(None);
  }

  /** One turn of the outer loop: look at every neighbour of the node just taken from the queue. */
  method Expand<E>(nodeCount: nat, start: nat, target: nat, maxDepth: nat, neighbors: Adjacency<E>,
                   depth: array<Option<nat>>, parent: array<Option<(nat, nat)>>, node: nat, waiting: seq<nat>,
                   ghost done: set<nat>)
    returns (r: Result<Option<GraphPath>, TraversalError<E>>, queue: seq<nat>)
    requires depth.Length == parent.Length == nodeCount && node < nodeCount && depth[node].Some?
    requires Expanding(neighbors, start, target, maxDepth, depth[..], parent[..], node, depth[node].value, waiting, done)
    requires depth[node].value < maxDepth && neighbors(node).Success?
    modifies depth, parent
    ensures r.Failure? ==> Blames(neighbors, nodeCount, start, maxDepth, r.error)
    ensures r.Success? && r.value.Some? ==>
      Shortest(neighbors, r.value.value, start, target) && |r.value.value.kinds| <= maxDepth
    ensures r.Success? && r.value.None? ==>
      && depth[node] == old(depth[node])
      && Expanding(neighbors, start, target, maxDepth, depth[..], parent[..], node, depth[node].value, queue, done)
      && Relaxed(depth[..], depth[node].value, neighbors(node).value)
      && (Unseen(depth[..]) < old(Unseen(depth[..])) || (depth[..] == old(depth[..]) && queue == waiting))
  {
    hide Layered, Expanded, ParentTree, Blames, Unseen;
    var list := neighbors(node).value;
    var d := depth[node].value;
    queue := waiting;
    var j := 0;
    while j < |list|
      invariant 0 <= j <= |list|
      invariant Expanding(neighbors, start, target, maxDepth, depth[..], parent[..], node, d, queue, done)
      invariant Relaxed(depth[..], d, list[..j])
      invariant Unseen(depth[..]) < old(Unseen(depth[..])) || (depth[..] == old(depth[..]) && queue == waiting)
    {
      var neighbor := list[j];
      var index := neighbor.node;
      assert Edge(neighbors, node, index, neighbor.kind);
      if index >= nodeCount {
        BlameNode(neighbors, nodeCount, start, maxDepth, depth[..], parent[..], node, InvalidNode(index, nodeCount));
        return Failure(InvalidNode(index, nodeCount)), queue;
      }
      ghost var depth0, parent0 := depth[..], parent[..];
      assert list[..j + 1] == list[..j] + [neighbor];
      if depth[index].Some? {
        AlreadyNear(neighbors, start, target, maxDepth, depth0, parent0, node, d, queue, done, index);
      } else {
        depth[index] := Some(d + 1);
        parent[index] := Some((node, neighbor.kind));
        assert depth[..] == depth0[index := Some(d + 1)];
        assert parent[..] == parent0[index := Some((node, neighbor.kind))];
        SeenOnce(depth0, index, d + 1);
        TreeGrows(neighbors, start, target, maxDepth, depth0, parent0, node, d, queue, done, index, neighbor.kind);
        if index == target {
          NothingShorter(neighbors, start, target, maxDepth, depth0, parent0, node, d, queue, done);
          var path := ReconstructPath(neighbors, start, target, parent, depth[..]);
          return Success(Some(path)), queue;
        }
        Discover(neighbors, start, target, maxDepth, depth0, parent0, node, d, queue, done, index, neighbor.kind);
        RelaxedStays(depth0, d, list[..j], index, d + 1);
        queue := queue + [index];
      }
      j := j + 1;
    }
    assert list[..j] == list;
    return Success(None), queue;
  }

  /** Follow a walk through settled nodes: step i is discovered at depth at most i. */
  lemma {:induction false} WalkDiscovered<E>(adj: Adjacency<E>, start: nat, end: nat, q: GraphPath, depth: Depths,
                                             done: set<nat>, bound: nat, maxDepth: nat, i: nat)
    requires Walk(adj, q, start, end) && i <= |q.kinds| && i <= bound <= maxDepth
    requires Discovered(depth, start) && depth[start] == Some(0)
    requires Expanded(adj, depth, done, maxDepth)
    requires forall v: nat :: Discovered(depth, v) && depth[v].value < bound ==> v in done
    ensures Discovered(depth, q.nodes[i]) && depth[q.nodes[i]].value <= i
  {
    if i > 0 {
      WalkDiscovered(adj, start, end, q, depth, done, bound, maxDepth, i - 1);
      assert Edge(adj, q.nodes[i - 1], q.nodes[i - 1 + 1], q.kinds[i - 1]);
    }
  }

  /** When the current node meets the undiscovered target, no walk to it is shorter. */
  lemma NothingShorter<E>(adj: Adjacency<E>, start: nat, target: nat, maxDepth: nat, depth: Depths, parent: Parents,
                          node: nat, d: nat, queue: seq<nat>, done: set<nat>)
    requires Expanding(adj, start, target, maxDepth, depth, parent, node, d, queue, done) && d < maxDepth
    ensures forall q {:trigger Walk(adj, q, start, target)} :: Walk(adj, q, start, target) ==> d + 1 <= |q.kinds|
  {
    forall q | Walk(adj, q, start, target) ensures d + 1 <= |q.kinds| {
      if |q.kinds| <= d {
        WalkDiscovered(adj, start, target, q, depth, done, d, maxDepth, |q.kinds|);
        assert false;
      }
    }
  }

  /** When nothing waits and the target was never met, every walk to it is longer than the bound. */
  lemma Exhausted<E>(adj: Adjacency<E>, start: nat, target: nat, maxDepth: nat, depth: Depths, parent: Parents,
                     d: nat, done: set<nat>)
    requires Searching(adj, start, target, maxDepth, depth, parent, d, [], done)
    ensures forall q {:trigger Walk(adj, q, start, target)} :: Walk(adj, q, start, target) ==> |q.kinds| > maxDepth
  {
    forall q | Walk(adj, q, start, target) ensures |q.kinds| > maxDepth {
      if |q.kinds| <= maxDepth {
        WalkDiscovered(adj, start, target, q, depth, done, maxDepth, maxDepth, |q.kinds|);
        assert false;
      }
    }
  }

  /** The parent chain of a discovered node is a walk as long as its depth. */
  lemma {:induction false} ParentWalk<E>(adj: Adjacency<E>, start: nat, depth: Depths, parent: Parents, v: nat)
    returns (q: GraphPath)
    requires ParentTree(adj, start, depth, parent) && Discovered(depth, v)
    ensures Walk(adj, q, start, v) && |q.kinds| == depth[v].value
    decreases depth[v].value
  {
    if v == start {
      q := GraphPath([start], []);
    } else {
      var (u, kind) := parent[v].value;
      var p := ParentWalk(adj, start, depth, parent, u);
      q := GraphPath(p.nodes + [v], p.kinds + [kind]);
    }
  }

  lemma BlameNode<E>(adj: Adjacency<E>, n: nat, start: nat, maxDepth: nat, depth: Depths, parent: Parents, u: nat,
                     error: TraversalError<E>)
    requires ParentTree(adj, start, depth, parent) && Discovered(depth, u) && depth[u].value < maxDepth
    requires match error
             case Source(e) => adj(u) == Failure(e)
             case InvalidNode(v, count) => count == n <= v && adj(u).Success? && exists k :: Neighbor(v, k) in adj(u).value
    ensures Blames(adj, n, start, maxDepth, error)
  {
    var q := ParentWalk(adj, start, depth, parent, u);
  }

  // ----- the caller's view -----

  ghost predicate ErrorFree<E>(adj: Adjacency<E>, n: nat) {
    forall u: nat :: u < n ==> adj(u).Success? && forall j :: 0 <= j < |adj(u).value| ==> adj(u).value[j].node < n
  }

  /** Walks from a node of an error-free graph stay in the graph. */
  lemma {:induction false} WalkInRange<E>(adj: Adjacency<E>, n: nat, q: GraphPath, start: nat, end: nat, i: nat)
    requires ErrorFree(adj, n) && start < n && Walk(adj, q, start, end) && i <= |q.kinds|
    ensures q.nodes[i] < n
  {
    if i > 0 {
      WalkInRange(adj, n, q, start, end, i - 1);
      assert Edge(adj, q.nodes[i - 1], q.nodes[i - 1 + 1], q.kinds[i - 1]);
    }
  }

  /** So on an error-free graph nothing can be blamed: the search succeeds for every pair of nodes. */
  lemma ErrorFreeSucceeds<E>(adj: Adjacency<E>, n: nat, start: nat, maxDepth: nat, error: TraversalError<E>)
    requires ErrorFree(adj, n) && start < n
    ensures !Blames(adj, n, start, maxDepth, error)
  {
    forall q: GraphPath, u: nat | Walk(adj, q, start, u) ensures u < n {
      WalkInRange(adj, n, q, start, u, |q.kinds|);
    }
  }

  /** On an error-free graph: a path comes back exactly when a walk within the bound exists. */
  method FindShortestPathErrorFree<E>(nodeCount: nat, start: nat, target: nat, maxDepth: nat, neighbors: Adjacency<E>)
    returns (r: Option<GraphPath>)
    requires ErrorFree(neighbors, nodeCount) && start < nodeCount && target < nodeCount
    ensures r.Some? <==> exists q :: Walk(neighbors, q, start, target) && |q.kinds| <= maxDepth
    ensures r.Some? ==> Shortest(neighbors, r.value, start, target)
  {
    var found := FindShortestPath(nodeCount, start, target, maxDepth, neighbors);
    if found.Failure? {
      ErrorFreeSucceeds(neighbors, nodeCount, start, maxDepth, found.error);
      assert false;
    } else {
      r := found.value;
      if start == target { assert Walk(neighbors, GraphPath([start], []), start, target); }
    }
  }
}
