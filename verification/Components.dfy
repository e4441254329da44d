/**
 arcana/src/protocol/architecture_queries.rs, `connected_components`: the components of an
 undirected graph restricted to a selection of nodes.
 */
module Components {
  import opened Wrappers
  import opened Ordering

  /** One neighbour set per node. */
  type Adjacency = seq<set<nat>>
  type Assignment = seq<Option<nat>>

  // ----- specification -----

  ghost predicate Adjacent(adj: Adjacency, u: nat, v: nat) {
    u < |adj| && v in adj[u]
  }

  ghost predicate Symmetric(adj: Adjacency) {
    forall u, v :: Adjacent(adj, u, v) ==> Adjacent(adj, v, u)
  }

  /** Edges stay inside the selection. */
  ghost predicate Within(adj: Adjacency, selected: seq<nat>) {
    forall u, v :: Adjacent(adj, u, v) ==> v in selected
  }

  ghost predicate Chain(adj: Adjacency, p: seq<nat>) {
    p != [] && forall i :: 0 <= i < |p| - 1 ==> Adjacent(adj, p[i], p[i + 1])
  }

  ghost predicate Joined(adj: Adjacency, u: nat, v: nat) {
    exists p :: Chain(adj, p) && p[0] == u && p[|p| - 1] == v
  }

  lemma JoinedSelf(adj: Adjacency, u: nat)
    ensures Joined(adj, u, u)
  {
    assert Chain(adj, [u]) && [u][0] == u;
  }

  lemma ChainTail(adj: Adjacency, p: seq<nat>)
    requires Chain(adj, p) && |p| > 1
    ensures Chain(adj, p[1..])
  {
    forall i | 0 <= i < |p[1..]| - 1 ensures Adjacent(adj, p[1..][i], p[1..][i + 1]) {
      assert Adjacent(adj, p[i + 1], p[i + 1 + 1]);
    }
  }

  lemma JoinedStep(adj: Adjacency, u: nat, v: nat, w: nat)
    requires Joined(adj, u, v) && Adjacent(adj, v, w)
    ensures Joined(adj, u, w)
  {
    var p :| Chain(adj, p) && p[0] == u && p[|p| - 1] == v;
    assert Chain(adj, p + [w]);
  }

  lemma {:induction false} JoinedReverse(adj: Adjacency, p: seq<nat>)
    requires Symmetric(adj) && Chain(adj, p)
    ensures Joined(adj, p[|p| - 1], p[0])
  {
    if |p| == 1 {
      JoinedSelf(adj, p[0]);
    } else {
      assert Adjacent(adj, p[0], p[0 + 1]) && Adjacent(adj, p[1], p[0]);
      ChainTail(adj, p);
      JoinedReverse(adj, p[1..]);
      JoinedStep(adj, p[|p| - 1], p[1], p[0]);
    }
  }

  lemma {:induction false} JoinedAlong(adj: Adjacency, u: nat, p: seq<nat>)
    requires Chain(adj, p) && Joined(adj, u, p[0])
    ensures Joined(adj, u, p[|p| - 1])
  {
    if |p| > 1 {
      assert Adjacent(adj, p[0], p[0 + 1]);
      JoinedStep(adj, u, p[0], p[1]);
      ChainTail(adj, p);
      JoinedAlong(adj, u, p[1..]);
    }
  }

  /** Two nodes both joined to a common one are joined to each other. */
  lemma JoinedThrough(adj: Adjacency, root: nat, u: nat, v: nat)
    requires Symmetric(adj) && Joined(adj, root, u) && Joined(adj, root, v)
    ensures Joined(adj, u, v)
  {
    var p :| Chain(adj, p) && p[0] == root && p[|p| - 1] == u;
    JoinedReverse(adj, p);
    var q :| Chain(adj, q) && q[0] == root && q[|q| - 1] == v;
    JoinedAlong(adj, u, q);
  }

  // ----- invariants -----

  ghost predicate Assigned(of: Assignment, v: nat, index: nat) {
    v < |of| && of[v] == Some(index)
  }

  /** Each finished component lists its nodes in ascending order, is closed under edges and is connected. */
  ghost predicate Finished(adj: Adjacency, selected: seq<nat>, of: Assignment, components: seq<seq<nat>>) {
    && |of| == |adj|
    && (forall i :: 0 <= i < |components| ==> components[i] != [] && StrictlySorted(NatLe, components[i]))
    && (forall i, v: nat :: 0 <= i < |components| ==> (v in components[i] <==> Assigned(of, v, i)))
    && (forall v: nat :: v < |of| && of[v].Some? ==> v in selected)
    && Closed(adj, of, |components|)
    && Linked(adj, of, |components|)
  }

  ghost predicate Closed(adj: Adjacency, of: Assignment, bound: nat) {
    forall v: nat, w: nat :: v < |of| && of[v].Some? && of[v].value < bound && Adjacent(adj, v, w) ==>
      Assigned(of, w, of[v].value)
  }

  ghost predicate Linked(adj: Adjacency, of: Assignment, bound: nat) {
    forall u: nat, v: nat :: u < |of| && v < |of| && of[u].Some? && of[u] == of[v] && of[u].value < bound ==>
      Joined(adj, u, v)
  }

  /** The component being grown from `start`: popped nodes have passed the index on, the queue is yet to. */
  ghost predicate Growing(adj: Adjacency, of: Assignment, index: nat, start: nat, nodes: seq<nat>, queue: seq<nat>) {
    && |of| == |adj|
    && (forall v: nat :: v < |of| && of[v].Some? ==> of[v].value <= index)
    && (forall v: nat :: Assigned(of, v, index) <==> v in nodes + queue)
    && Distinct(nodes + queue)
    && (forall v: nat :: v in nodes + queue ==> Joined(adj, start, v))
    && (forall v: nat, w: nat :: v in nodes && Adjacent(adj, v, w) ==> Assigned(of, w, index))
  }

  ghost predicate Selected(of: Assignment, selected: seq<nat>) {
    forall v: nat :: v < |of| && of[v].Some? ==> v in selected
  }

  /** The outcome: a partition of the selection into connected classes. */
  ghost predicate Partition(adj: Adjacency, selected: seq<nat>, of: Assignment, components: seq<seq<nat>>) {
    && |of| == |adj|
    && (forall v: nat :: v < |of| ==> (of[v].Some? <==> v in selected))
    && (forall i :: 0 <= i < |components| ==> components[i] != [] && StrictlySorted(NatLe, components[i]))
    && (forall i, v: nat :: 0 <= i < |components| ==> (v in components[i] <==> Assigned(of, v, i)))
    && (forall v: nat :: v < |of| && of[v].Some? ==> of[v].value < |components|)
    && (forall u: nat, v: nat :: u in selected && v in selected && u < |of| && v < |of| ==>
          (of[u] == of[v] <==> Joined(adj, u, v)))
  }

  ghost function Unassigned(of: Assignment): set<nat> {
    set v: nat | v < |of| && of[v].None?
  }

  // ----- the algorithm -----

  method ConnectedComponents(selected: seq<nat>, adjacency: Adjacency, graphSize: nat)
    returns (components: seq<seq<nat>>, componentOf: Assignment)
    requires |adjacency| == graphSize && (forall v :: v in selected ==> v < graphSize)
    requires Symmetric(adjacency) && Within(adjacency, selected)
    ensures Partition(adjacency, selected, componentOf, components)
  {
    componentOf := seq(graphSize, _ => None);
    components := [];
    var k := 0;
    while k < |selected|
      invariant 0 <= k <= |selected| && |componentOf| == graphSize
      invariant Finished(adjacency, selected, componentOf, components)
      invariant forall v: nat :: v < |componentOf| && componentOf[v].Some? ==> componentOf[v].value < |components|
      invariant forall v :: v in selected[..k] ==> v < graphSize && componentOf[v].Some?
    {
      var start := selected[k];
      assert start in selected;
      assert selected[..k + 1] == selected[..k] + [start];
      if componentOf[start].None? {
        var nodes;
        nodes, componentOf := Grow(selected, adjacency, start, |components|, componentOf, components);
        components := components + [Sort(NatLe, nodes)];
      }
      k := k + 1;
    }
    assert selected[..k] == selected;
    FinishedPartition(adjacency, selected, componentOf, components);
  }

  /** The breadth-first search that collects one component. */
  method Grow(selected: seq<nat>, adjacency: Adjacency, start: nat, index: nat, before: Assignment,
              ghost components: seq<seq<nat>>)
    returns (nodes: seq<nat>, componentOf: Assignment)
    requires Symmetric(adjacency) && Within(adjacency, selected)
    requires Finished(adjacency, selected, before, components) && index == |components|
    requires forall v: nat :: v < |before| && before[v].Some? ==> before[v].value < index
    requires start in selected && start < |before| && before[start].None?
    ensures Finished(adjacency, selected, componentOf, components + [Sort(NatLe, nodes)])
    ensures forall v: nat :: v < |componentOf| && componentOf[v].Some? ==> componentOf[v].value <= index
    ensures |componentOf| == |before| && componentOf[start].Some?
    ensures forall v: nat :: v < |before| && before[v].Some? ==> componentOf[v] == before[v]
  {
    nodes := [];
    var queue := [start];
    componentOf := before[start := Some(index)];
    GrowStarts(adjacency, before, index, start);
    hide Growing, Finished, Symmetric, Within;
    while queue != []
      invariant Growing(adjacency, componentOf, index, start, nodes, queue)
      invariant Extends(before, componentOf, index) && Selected(componentOf, selected)
      invariant componentOf[start].Some?
      decreases Unassigned(componentOf), |queue|
    {
      var node := queue[0];
      PopFacts(adjacency, componentOf, index, start, nodes, queue);
      ghost var of0, queue0 := componentOf, queue;
      nodes := nodes + [node];
      queue := queue[1..];
      var rest := adjacency[node];
      while rest != {}
        invariant node < |adjacency| && rest <= adjacency[node]
        invariant Extends(before, componentOf, index) && Selected(componentOf, selected)
        invariant componentOf[start].Some?
        invariant Spreading(adjacency, componentOf, index, start, nodes, queue, node, adjacency[node] - rest)
        invariant Unassigned(componentOf) < Unassigned(of0) || (componentOf == of0 && |queue| < |queue0|)
      {
        var neighbor :| neighbor in rest;
        SpreadFacts(adjacency, selected, before, componentOf, index, start, nodes, queue, node,
                    adjacency[node] - rest, neighbor, components);
        assert adjacency[node] - (rest - {neighbor}) == (adjacency[node] - rest) + {neighbor};
        rest := rest - {neighbor};
        if componentOf[neighbor].None? {
          assert neighbor in Unassigned(componentOf);
          assert Unassigned(componentOf[neighbor := Some(index)]) < Unassigned(componentOf);
          componentOf := componentOf[neighbor := Some(index)];
          queue := queue + [neighbor];
        }
      }
      assert adjacency[node] - {} == adjacency[node];
      SpreadDone(adjacency, componentOf, index, start, nodes, queue, node);
    }
    Harvest(adjacency, selected, before, componentOf, index, start, nodes, components);
  }

  /** Growing, except that the last popped node has so far reached only the neighbours in `seen`. */
  ghost predicate Spreading(adj: Adjacency, of: Assignment, index: nat, start: nat, nodes: seq<nat>, queue: seq<nat>,
                            node: nat, seen: set<nat>) {
    && nodes != [] && node == nodes[|nodes| - 1]
    && |of| == |adj|
    && (forall v: nat :: v < |of| && of[v].Some? ==> of[v].value <= index)
    && (forall v: nat :: Assigned(of, v, index) <==> v in nodes + queue)
    && Distinct(nodes + queue)
    && (forall v: nat :: v in nodes + queue ==> Joined(adj, start, v))
    && (forall v: nat, w: nat :: v in nodes[..|nodes| - 1] && Adjacent(adj, v, w) ==> Assigned(of, w, index))
    && (forall w: nat :: w in seen ==> Assigned(of, w, index))
  }

  ghost predicate Extends(before: Assignment, of: Assignment, index: nat) {
    && |of| == |before|
    && (forall v: nat :: v < |before| && before[v].Some? ==> of[v] == before[v])
    && (forall v: nat :: v < |before| && before[v].None? ==> of[v].None? || of[v] == Some(index))
  }

  lemma GrowStarts(adj: Adjacency, before: Assignment, index: nat, start: nat)
    requires |before| == |adj| && start < |before| && before[start].None?
    requires forall v: nat :: v < |before| && before[v].Some? ==> before[v].value < index
    ensures Growing(adj, before[start := Some(index)], index, start, [], [start])
  {
    JoinedSelf(adj, start);
    assert [] + [start] == [start];
  }

  lemma PopFacts(adj: Adjacency, of: Assignment, index: nat, start: nat, nodes: seq<nat>, queue: seq<nat>)
    requires Growing(adj, of, index, start, nodes, queue) && queue != []
    ensures queue[0] < |adj|
    ensures Spreading(adj, of, index, start, nodes + [queue[0]], queue[1..], queue[0], {})
  {
    assert (nodes + [queue[0]]) + queue[1..] == nodes + queue;
    assert (nodes + [queue[0]])[..|nodes|] == nodes;
    assert (nodes + queue)[|nodes|] == queue[0];
    assert queue[0] in nodes + queue;
    assert Assigned(of, queue[0], index);
  }

  lemma SpreadDone(adj: Adjacency, of: Assignment, index: nat, start: nat, nodes: seq<nat>, queue: seq<nat>, node: nat)
    requires node < |adj| && Spreading(adj, of, index, start, nodes, queue, node, adj[node])
    ensures Growing(adj, of, index, start, nodes, queue)
  {
    forall v: nat, w: nat | v in nodes && Adjacent(adj, v, w) ensures Assigned(of, w, index) {
      assert nodes == nodes[..|nodes| - 1] + [node];
    }
  }

  /** A neighbour is free, and joins the queue, or already has this index: by symmetry it cannot have an older one. */
  lemma SpreadFacts(adj: Adjacency, selected: seq<nat>, before: Assignment, of: Assignment, index: nat, start: nat,
                    nodes: seq<nat>, queue: seq<nat>, node: nat, seen: set<nat>, neighbor: nat,
                    components: seq<seq<nat>>)
    requires Symmetric(adj) && Within(adj, selected) && Finished(adj, selected, before, components)
    requires index == |components| && Extends(before, of, index)
    requires Spreading(adj, of, index, start, nodes, queue, node, seen)
    requires Adjacent(adj, node, neighbor)
    ensures neighbor < |of| && neighbor in selected
    ensures of[neighbor].None? ==>
      && Spreading(adj, of[neighbor := Some(index)], index, start, nodes, queue + [neighbor], node, seen + {neighbor})
    ensures of[neighbor].Some? ==> Spreading(adj, of, index, start, nodes, queue, node, seen + {neighbor})
  {
    assert node in nodes + queue;
    assert Assigned(of, node, index) && Adjacent(adj, neighbor, node);
    if of[neighbor].Some? {
      if of[neighbor].value < index {
        assert false;
      }
    } else {
      Spread(adj, of, index, start, nodes, queue, node, seen, neighbor);
    }
  }

  lemma Spread(adj: Adjacency, of: Assignment, index: nat, start: nat, nodes: seq<nat>, queue: seq<nat>, node: nat,
               seen: set<nat>, neighbor: nat)
    requires Spreading(adj, of, index, start, nodes, queue, node, seen)
    requires Adjacent(adj, node, neighbor) && neighbor < |of| && of[neighbor].None?
    ensures Spreading(adj, of[neighbor := Some(index)], index, start, nodes, queue + [neighbor], node, seen + {neighbor})
  {
    var all := nodes + queue;
    assert nodes + (queue + [neighbor]) == all + [neighbor];
    assert node in all;
    JoinedStep(adj, start, node, neighbor);
    hide Joined;
    assert neighbor !in all;
    var of' := of[neighbor := Some(index)];
    forall v: nat ensures Assigned(of', v, index) <==> v in all + [neighbor] {
      assert v != neighbor ==> (Assigned(of', v, index) <==> Assigned(of, v, index));
    }
  }

  /** A queue run dry leaves a finished component. */
  lemma Harvest(adj: Adjacency, selected: seq<nat>, before: Assignment, of: Assignment, index: nat, start: nat,
                nodes: seq<nat>, components: seq<seq<nat>>)
    requires Symmetric(adj) && Finished(adj, selected, before, components) && index == |components|
    requires forall v: nat :: v < |before| && before[v].Some? ==> before[v].value < index
    requires Extends(before, of, index) && Selected(of, selected) && Growing(adj, of, index, start, nodes, [])
    requires Assigned(of, start, index) || (start < |of| && of[start].Some? && before[start].None?)
    ensures Finished(adj, selected, of, components + [Sort(NatLe, nodes)])
    ensures forall v: nat :: v < |of| && of[v].Some? ==> of[v].value <= index
  {
    var sorted := Sort(NatLe, nodes);
    var all := components + [sorted];
    assert nodes + [] == nodes;
    SortedNodes(nodes);
    assert start in nodes;
    forall i, v: nat | 0 <= i < |all| ensures v in all[i] <==> Assigned(of, v, i) {
      if i < index { assert v in components[i] <==> Assigned(before, v, i); }
    }
    ClosedGrows(adj, before, of, index, start, nodes);
    LinkedGrows(adj, before, of, index, start, nodes);
  }

  lemma SortedNodes(nodes: seq<nat>)
    requires Distinct(nodes)
    ensures StrictlySorted(NatLe, Sort(NatLe, nodes))
    ensures forall v :: v in Sort(NatLe, nodes) <==> v in nodes
    ensures nodes != [] ==> Sort(NatLe, nodes) != []
  {
    SortSorts(NatLe, nodes);
    DistinctCounts(nodes);
    var sorted := Sort(NatLe, nodes);
    forall i, j | 0 <= i < j < |sorted| ensures sorted[i] != sorted[j] {
      if sorted[i] == sorted[j] { RepeatCounts(sorted, i, j); }
    }
  }

  lemma RepeatCounts(s: seq<nat>, i: nat, j: nat)
    requires i < j < |s| && s[i] == s[j]
    ensures multiset(s)[s[i]] >= 2
  {
    var a, b := s[..j], s[j..];
    assert s == a + b && a[i] == s[i] && b[0] == s[i];
    assert s[i] in multiset(a) && s[i] in multiset(b);
    assert multiset(s) == multiset(a) + multiset(b);
  }

  lemma ClosedGrows(adj: Adjacency, before: Assignment, of: Assignment, index: nat, start: nat, nodes: seq<nat>)
    requires |before| == |adj| && Closed(adj, before, index) && Extends(before, of, index)
    requires forall v: nat :: v < |before| && before[v].Some? ==> before[v].value < index
    requires Growing(adj, of, index, start, nodes, [])
    ensures Closed(adj, of, index + 1)
  {
    assert nodes + [] == nodes;
    forall v: nat, w: nat | v < |of| && of[v].Some? && Adjacent(adj, v, w) ensures Assigned(of, w, of[v].value) {
      if of[v].value < index {
        assert Assigned(before, w, before[v].value);
      } else {
        assert v in nodes;
      }
    }
  }

  lemma LinkedGrows(adj: Adjacency, before: Assignment, of: Assignment, index: nat, start: nat, nodes: seq<nat>)
    requires Symmetric(adj) && |before| == |adj| && Linked(adj, before, index) && Extends(before, of, index)
    requires forall v: nat :: v < |before| && before[v].Some? ==> before[v].value < index
    requires Growing(adj, of, index, start, nodes, [])
    ensures Linked(adj, of, index + 1)
  {
    assert nodes + [] == nodes;
    forall u: nat, v: nat | u < |of| && v < |of| && of[u].Some? && of[u] == of[v] ensures Joined(adj, u, v) {
      if of[u].value < index {
        assert before[u] == before[v];
      } else {
        assert u in nodes && v in nodes;
        JoinedThrough(adj, start, u, v);
      }
    }
  }

  /** Along a chain the component index never changes. */
  lemma {:induction false} ChainStays(adj: Adjacency, of: Assignment, bound: nat, p: seq<nat>)
    requires |of| == |adj| && Closed(adj, of, bound) && Chain(adj, p)
    requires p[0] < |of| && of[p[0]].Some? && of[p[0]].value < bound
    ensures p[|p| - 1] < |of| && of[p[|p| - 1]] == of[p[0]]
  {
    if |p| > 1 {
      assert Adjacent(adj, p[0], p[0 + 1]);
      ChainTail(adj, p);
      ChainStays(adj, of, bound, p[1..]);
    }
  }

  lemma FinishedPartition(adj: Adjacency, selected: seq<nat>, of: Assignment, components: seq<seq<nat>>)
    requires Finished(adj, selected, of, components)
    requires forall v: nat :: v < |of| && of[v].Some? ==> of[v].value < |components|
    requires forall v :: v in selected ==> v < |of| && of[v].Some?
    ensures Partition(adj, selected, of, components)
  {
    forall u: nat, v: nat | u in selected && v in selected && u < |of| && v < |of|
      ensures of[u] == of[v] <==> Joined(adj, u, v)
    {
      if Joined(adj, u, v) {
        var p :| Chain(adj, p) && p[0] == u && p[|p| - 1] == v;
        ChainStays(adj, of, |components|, p);
      }
    }
  }
}
