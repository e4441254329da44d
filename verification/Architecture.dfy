/**
 arcana/src/protocol/architecture_queries.rs, `architecture_summary`: the edges, boundary events and
 per-community counters of a selection, and what their totals conserve.
 */
module Architecture {
  import opened Wrappers
  import opened Ordering
  import opened Components
  import opened AdjacencySteps

  datatype Direction = Incoming | Outgoing
  datatype Edge = Edge(source: nat, target: nat, relation: nat)
  datatype Boundary = Boundary(node: nat, direction: Direction, relation: nat)

  /** A counter per key, as the source's `BTreeMap<_, usize>`. */
  type Counter = map<nat, nat>

  datatype Community = Community(nodes: seq<nat>, edgeCount: nat, relations: Counter, incoming: Counter,
                                 outgoing: Counter, degrees: Counter)

  const DEFAULT_MIN_COMMUNITY_SIZE: nat := 2

  // ----- counters -----

  /** The counter holds the multiplicity of every key of a list, and no other key. */
  ghost predicate Counts(m: Counter, s: seq<nat>) {
    && (forall k :: k in m <==> k in s)
    && (forall k :: k in m ==> m[k] == multiset(s)[k])
  }

  function Bump(m: Counter, k: nat): Counter {
    m[k := (if k in m then m[k] else 0) + 1]
  }

  lemma BumpCounts(m: Counter, s: seq<nat>, k: nat)
    requires Counts(m, s)
    ensures Counts(Bump(m, k), s + [k])
  {
    assert k !in m ==> k !in multiset(s);
  }

  ghost function Total(m: Counter): nat
    decreases |m|
  {
    if m == map[] then 0
    else
      var k :| k in m;
      m[k] + Total(m - {k})
  }

  lemma {:induction false} TotalRemove(m: Counter, k: nat)
    requires k in m
    ensures Total(m) == m[k] + Total(m - {k})
    decreases |m|
  {
    var j :| j in m && Total(m) == m[j] + Total(m - {j});
    if j != k {
      TotalRemove(m - {j}, k);
      TotalRemove(m - {k}, j);
      assert m - {j} - {k} == m - {k} - {j};
    }
  }

  lemma TotalBump(m: Counter, k: nat)
    ensures Total(Bump(m, k)) == Total(m) + 1
  {
    TotalRemove(Bump(m, k), k);
    assert Bump(m, k) - {k} == m - {k};
    if k in m {
      TotalRemove(m, k);
    } else {
      assert m - {k} == m;
    }
  }

  function Unbump(m: Counter, k: nat): Counter
    requires k in m && m[k] > 0
  {
    if m[k] == 1 then m - {k} else m[k := m[k] - 1]
  }

  lemma UnbumpCounts(m: Counter, t: seq<nat>, k: nat)
    requires Counts(m, t + [k])
    ensures k in m && m[k] > 0 && Counts(Unbump(m, k), t) && Bump(Unbump(m, k), k) == m
  {
    var s := t + [k];
    assert k in s && multiset(s) == multiset(t) + multiset{k};
    forall j ensures j in Unbump(m, k) <==> j in t {
      assert j in t <==> j in multiset(t);
      assert j in s <==> j in t || j == k;
    }
  }

  /** A counter's values add up to the length of the list it counts. */
  lemma {:induction false} CountsTotal(m: Counter, s: seq<nat>)
    requires Counts(m, s)
    ensures Total(m) == |s|
  {
    if s == [] {
      assert m == map[];
    } else {
      var k, t := s[|s| - 1], s[..|s| - 1];
      assert s == t + [k];
      UnbumpCounts(m, t, k);
      hide Bump, Unbump, Counts;
      CountsTotal(Unbump(m, k), t);
      TotalBump(Unbump(m, k), k);
    }
  }

  // ----- the edges of a selection -----

  ghost function InternalAt(source: nat, neighbors: seq<(nat, nat)>, selected: set<nat>): seq<Edge> {
    if neighbors == [] then []
    else
      var (target, relation) := neighbors[|neighbors| - 1];
      InternalAt(source, neighbors[..|neighbors| - 1], selected)
      + if target in selected then [Edge(source, target, relation)] else []
  }

  ghost function BoundaryAt(node: nat, direction: Direction, neighbors: seq<(nat, nat)>, selected: set<nat>)
    : seq<Boundary>
  {
    if neighbors == [] then []
    else
      var (other, relation) := neighbors[|neighbors| - 1];
      BoundaryAt(node, direction, neighbors[..|neighbors| - 1], selected)
      + if other in selected then [] else [Boundary(node, direction, relation)]
  }

  /** One endpoint for each side of an edge, a self-loop contributing only once. */
  ghost function Endpoints(edges: seq<Edge>): seq<nat> {
    if edges == [] then []
    else
      var e := edges[|edges| - 1];
      Endpoints(edges[..|edges| - 1]) + [e.source] + if e.target == e.source then [] else [e.target]
  }

  ghost function Relations(edges: seq<Edge>): seq<nat> {
    seq(|edges|, i requires 0 <= i < |edges| => edges[i].relation)
  }

  ghost function SelfLoops(edges: seq<Edge>): nat {
    if edges == [] then 0
    else SelfLoops(edges[..|edges| - 1]) + if edges[|edges| - 1].source == edges[|edges| - 1].target then 1 else 0
  }

  ghost function EdgesOf(edges: seq<Edge>, of: Assignment, index: nat): seq<Edge> {
    if edges == [] then []
    else
      var e := edges[|edges| - 1];
      EdgesOf(edges[..|edges| - 1], of, index) + if Assigned(of, e.source, index) then [e] else []
  }

  ghost function EventsOf(events: seq<Boundary>, of: Assignment, index: nat, direction: Direction): seq<nat> {
    if events == [] then []
    else
      var e := events[|events| - 1];
      EventsOf(events[..|events| - 1], of, index, direction)
      + if Assigned(of, e.node, index) && e.direction == direction then [e.relation] else []
  }

  // ----- gathering -----

  /** The neighbour sets hold exactly the two directions of every internal edge. */
  ghost predicate Mirrors(adj: Adjacency, edges: seq<Edge>) {
    && (forall e :: e in edges ==> Adjacent(adj, e.source, e.target) && Adjacent(adj, e.target, e.source))
    && (forall u, v :: Adjacent(adj, u, v) ==>
          exists e :: e in edges && ((e.source == u && e.target == v) || (e.source == v && e.target == u)))
  }

  lemma MirrorsSymmetric(adj: Adjacency, edges: seq<Edge>, selected: seq<nat>)
    requires Mirrors(adj, edges)
    requires forall e :: e in edges ==> e.source in selected && e.target in selected
    ensures Symmetric(adj) && Within(adj, selected)
  {
  }

  lemma MirrorsGrows(adj: Adjacency, edges: seq<Edge>, e: Edge)
    requires Mirrors(adj, edges) && e.source < |adj| && e.target < |adj|
    ensures var once := adj[e.source := adj[e.source] + {e.target}];
      Mirrors(once[e.target := once[e.target] + {e.source}], edges + [e])
  {
    var once := adj[e.source := adj[e.source] + {e.target}];
    var twice := once[e.target := once[e.target] + {e.source}];
    assert e in edges + [e];
    forall u, v | Adjacent(twice, u, v)
      ensures exists d :: d in edges + [e] && ((d.source == u && d.target == v) || (d.source == v && d.target == u))
    {
      if Adjacent(adj, u, v) {
        var d :| d in edges && ((d.source == u && d.target == v) || (d.source == v && d.target == u));
        assert d in edges + [e];
      }
    }
  }

  ghost function AllInternal<E>(sources: seq<nat>, outgoing: Neighbors<E>, selected: set<nat>): seq<Edge> {
    if sources == [] then []
    else
      var s := sources[|sources| - 1];
      AllInternal(sources[..|sources| - 1], outgoing, selected)
      + if outgoing(s).Success? then InternalAt(s, outgoing(s).value, selected) else []
  }

  ghost function AllBoundary<E>(sources: seq<nat>, outgoing: Neighbors<E>, incoming: Neighbors<E>, selected: set<nat>)
    : seq<Boundary>
  {
    if sources == [] then []
    else
      var s := sources[|sources| - 1];
      AllBoundary(sources[..|sources| - 1], outgoing, incoming, selected)
      + (if outgoing(s).Success? then BoundaryAt(s, Outgoing, outgoing(s).value, selected) else [])
      + (if incoming(s).Success? then BoundaryAt(s, Incoming, incoming(s).value, selected) else [])
  }

  /** Everything gathered so far comes from the selection. */
  ghost predicate Gathered(adj: Adjacency, edges: seq<Edge>, events: seq<Boundary>, selected: seq<nat>) {
    && Mirrors(adj, edges)
    && (forall e :: e in edges ==> e.source in selected && e.target in selected)
    && (forall b :: b in events ==> b.node in selected)
  }

  lemma GatherStarts(graphSize: nat, selected: seq<nat>)
    ensures Gathered(seq(graphSize, _ => {}), [], [], selected)
  {
  }

  lemma NothingYet<E>(outgoing: Neighbors<E>, incoming: Neighbors<E>, selected: set<nat>)
    ensures AllInternal([], outgoing, selected) == [] && AllBoundary([], outgoing, incoming, selected) == []
  {
  }

  lemma GatherStep<E>(sources: seq<nat>, s: nat, outgoing: Neighbors<E>, incoming: Neighbors<E>, selected: set<nat>)
    ensures outgoing(s).Success? ==>
      AllInternal(sources + [s], outgoing, selected)
      == AllInternal(sources, outgoing, selected) + InternalAt(s, outgoing(s).value, selected)
    ensures outgoing(s).Success? && incoming(s).Success? ==>
      AllBoundary(sources + [s], outgoing, incoming, selected)
      == AllBoundary(sources, outgoing, incoming, selected) + BoundaryAt(s, Outgoing, outgoing(s).value, selected)
         + BoundaryAt(s, Incoming, incoming(s).value, selected)
  {
    assert (sources + [s])[..|sources|] == sources;
  }

  /** The adjacency failure met first: no node before the k-th fails, and this one does, outgoing before incoming. */
  ghost predicate FirstFailure<E>(selected: seq<nat>, outgoing: Neighbors<E>, incoming: Neighbors<E>, k: nat, error: E) {
    && k < |selected|
    && (forall j :: 0 <= j < k ==> outgoing(selected[j]).Success? && incoming(selected[j]).Success?)
    && (if outgoing(selected[k]).Failure? then outgoing(selected[k]) == Failure(error)
        else incoming(selected[k]) == Failure(error))
  }

  method Gather<E>(selected: seq<nat>, graphSize: nat, outgoing: Neighbors<E>, incoming: Neighbors<E>)
    returns (r: Result<(Adjacency, seq<Edge>, seq<Boundary>), E>)
    requires forall v :: v in selected ==> v < graphSize
    ensures r.Success? ==>
      && |r.value.0| == graphSize && Gathered(r.value.0, r.value.1, r.value.2, selected)
      && r.value.1 == AllInternal(selected, outgoing, set v | v in selected)
      && r.value.2 == AllBoundary(selected, outgoing, incoming, set v | v in selected)
    ensures r.Failure? <==> exists v :: v in selected && (outgoing(v).Failure? || incoming(v).Failure?)
    ensures r.Failure? ==> exists k :: FirstFailure(selected, outgoing, incoming, k, r.error)
  {
    var selectedSet := set v | v in selected;
    var adjacency: Adjacency := seq(graphSize, _ => {});
    GatherStarts(graphSize, selected);
    hide *;
    r := GatherFrom(selected, selectedSet, outgoing, incoming, adjacency);
  }

  lemma FailsHere<E>(selected: seq<nat>, outgoing: Neighbors<E>, incoming: Neighbors<E>, k: nat, error: E)
    requires k < |selected|
    requires forall j :: 0 <= j < k ==> outgoing(selected[j]).Success? && incoming(selected[j]).Success?
    requires outgoing(selected[k]).Failure? || incoming(selected[k]).Failure?
    requires error == if outgoing(selected[k]).Failure? then outgoing(selected[k]).error else incoming(selected[k]).error
    ensures FirstFailure(selected, outgoing, incoming, k, error)
  {
  }

  /** The loop over the selection. */
  method GatherFrom<E>(selected: seq<nat>, selectedSet: set<nat>, outgoing: Neighbors<E>, incoming: Neighbors<E>,
                       adjacency0: Adjacency)
    returns (r: Result<(Adjacency, seq<Edge>, seq<Boundary>), E>)
    requires (forall v :: v in selected ==> v < |adjacency0|) && selectedSet == (set v | v in selected)
    requires Gathered(adjacency0, [], [], selected)
    ensures r.Success? ==>
      && |r.value.0| == |adjacency0| && Gathered(r.value.0, r.value.1, r.value.2, selected)
      && r.value.1 == AllInternal(selected, outgoing, selectedSet)
      && r.value.2 == AllBoundary(selected, outgoing, incoming, selectedSet)
    ensures r.Failure? <==> exists v :: v in selected && (outgoing(v).Failure? || incoming(v).Failure?)
    ensures r.Failure? ==> exists k :: FirstFailure(selected, outgoing, incoming, k, r.error)
  {
    var adjacency, edges: seq<Edge>, events: seq<Boundary> := adjacency0, [], [];
    NothingYet(outgoing, incoming, selectedSet);
    hide *;
    var k := 0;
    while k < |selected|
      invariant 0 <= k <= |selected| && |adjacency| == |adjacency0|
      invariant Gathered(adjacency, edges, events, selected)
      invariant edges == AllInternal(selected[..k], outgoing, selectedSet)
      invariant events == AllBoundary(selected[..k], outgoing, incoming, selectedSet)
      invariant forall j :: 0 <= j < k ==> outgoing(selected[j]).Success? && incoming(selected[j]).Success?
    {
      var source := selected[k];
      assert source in selected;
      assert selected[..k + 1] == selected[..k] + [source];
      GatherStep(selected[..k], source, outgoing, incoming, selectedSet);
      r := GatherNode(selected, selectedSet, source, outgoing, incoming, adjacency, edges, events);
      if r.Failure? {
        assert FirstFailure(selected, outgoing, incoming, k, r.error) by { FailsHere(selected, outgoing, incoming, k, r.error); }
        return;
      }
      adjacency, edges, events := r.value.0, r.value.1, r.value.2;
      k := k + 1;
    }
    assert selected[..k] == selected;
    return Success((adjacency, edges, events));
  }

  /** One turn of the gathering loop. */
  method GatherNode<E>(selected: seq<nat>, selectedSet: set<nat>, source: nat, outgoing: Neighbors<E>,
                       incoming: Neighbors<E>, adjacency: Adjacency, edges: seq<Edge>, events: seq<Boundary>)
    returns (r: Result<(Adjacency, seq<Edge>, seq<Boundary>), E>)
    requires (forall v :: v in selected ==> v < |adjacency|) && selectedSet == (set v | v in selected)
    requires source in selected && Gathered(adjacency, edges, events, selected)
    ensures r.Failure? <==> outgoing(source).Failure? || incoming(source).Failure?
    ensures r.Failure? ==> r.error == if outgoing(source).Failure? then outgoing(source).error else incoming(source).error
    ensures r.Success? ==>
      && |r.value.0| == |adjacency| && Gathered(r.value.0, r.value.1, r.value.2, selected)
      && r.value.1 == edges + InternalAt(source, outgoing(source).value, selectedSet)
      && r.value.2 == events + BoundaryAt(source, Outgoing, outgoing(source).value, selectedSet)
                      + BoundaryAt(source, Incoming, incoming(source).value, selectedSet)
  {
    hide *;
    var out := outgoing(source);
    if out.Failure? { return Failure(out.error); }
    var adjacency', edges', events' :=
      GatherOutgoing(selected, selectedSet, source, out.value, adjacency, edges, events);
    var into := incoming(source);
    if into.Failure? { return Failure(into.error); }
    events' := GatherIncoming(selected, selectedSet, source, into.value, adjacency', edges', events');
    return Success((adjacency', edges', events'));
  }

  method GatherOutgoing(selected: seq<nat>, selectedSet: set<nat>, source: nat, neighbors: seq<(nat, nat)>,
                        adjacency0: Adjacency, edges0: seq<Edge>, events0: seq<Boundary>)
    returns (adjacency: Adjacency, edges: seq<Edge>, events: seq<Boundary>)
    requires (forall v :: v in selected ==> v < |adjacency0|) && selectedSet == (set v | v in selected)
    requires source in selected && Gathered(adjacency0, edges0, events0, selected)
    ensures |adjacency| == |adjacency0| && Gathered(adjacency, edges, events, selected)
    ensures edges == edges0 + InternalAt(source, neighbors, selectedSet)
    ensures events == events0 + BoundaryAt(source, Outgoing, neighbors, selectedSet)
  {
    adjacency, edges, events := adjacency0, edges0, events0;
    var j := 0;
    while j < |neighbors|
      invariant 0 <= j <= |neighbors| && |adjacency| == |adjacency0|
      invariant Gathered(adjacency, edges, events, selected)
      invariant edges == edges0 + InternalAt(source, neighbors[..j], selectedSet)
      invariant events == events0 + BoundaryAt(source, Outgoing, neighbors[..j], selectedSet)
    {
      var (target, relation) := neighbors[j];
      assert neighbors[..j + 1][..j] == neighbors[..j];
      if target in selectedSet {
        MirrorsGrows(adjacency, edges, Edge(source, target, relation));
        adjacency := adjacency[source := adjacency[source] + {target}];
        adjacency := adjacency[target := adjacency[target] + {source}];
        edges := edges + [Edge(source, target, relation)];
      } else {
        events := events + [Boundary(source, Outgoing, relation)];
      }
      j := j + 1;
    }
    assert neighbors[..j] == neighbors;
  }

  method GatherIncoming(selected: seq<nat>, selectedSet: set<nat>, source: nat, neighbors: seq<(nat, nat)>,
                        ghost adjacency: Adjacency, ghost edges: seq<Edge>, events0: seq<Boundary>)
    returns (events: seq<Boundary>)
    requires source in selected && Gathered(adjacency, edges, events0, selected)
    ensures Gathered(adjacency, edges, events, selected)
    ensures events == events0 + BoundaryAt(source, Incoming, neighbors, selectedSet)
  {
    events := events0;
    var j := 0;
    while j < |neighbors|
      invariant 0 <= j <= |neighbors| && Gathered(adjacency, edges, events, selected)
      invariant events == events0 + BoundaryAt(source, Incoming, neighbors[..j], selectedSet)
    {
      assert neighbors[..j + 1][..j] == neighbors[..j];
      if neighbors[j].0 !in selectedSet {
        events := events + [Boundary(source, Incoming, neighbors[j].1)];
      }
      j := j + 1;
    }
    assert neighbors[..j] == neighbors;
  }

  // ----- accounting -----

  /** Every counter of a community counts exactly what belongs to it. */
  ghost predicate Accounted(c: Community, index: nat, nodes: seq<nat>, of: Assignment, edges: seq<Edge>,
                            events: seq<Boundary>) {
    && c.nodes == nodes
    && c.edgeCount == |EdgesOf(edges, of, index)|
    && Counts(c.relations, Relations(EdgesOf(edges, of, index)))
    && Counts(c.degrees, Endpoints(EdgesOf(edges, of, index)))
    && Counts(c.incoming, EventsOf(events, of, index, Incoming))
    && Counts(c.outgoing, EventsOf(events, of, index, Outgoing))
  }

  ghost predicate AllAccounted(communities: seq<Community>, components: seq<seq<nat>>, of: Assignment,
                               edges: seq<Edge>, events: seq<Boundary>) {
    && |communities| == |components|
    && forall i :: 0 <= i < |communities| ==> Accounted(communities[i], i, components[i], of, edges, events)
  }

  function CountEdge(c: Community, e: Edge): Community {
    c.(edgeCount := c.edgeCount + 1,
       relations := Bump(c.relations, e.relation),
       degrees := if e.target != e.source then Bump(Bump(c.degrees, e.source), e.target) else Bump(c.degrees, e.source))
  }

  function CountEvent(c: Community, b: Boundary): Community {
    match b.direction
    case Incoming => c.(incoming := Bump(c.incoming, b.relation))
    case Outgoing => c.(outgoing := Bump(c.outgoing, b.relation))
  }

  lemma EdgeAccounted(c: Community, index: nat, nodes: seq<nat>, of: Assignment, edges: seq<Edge>, e: Edge)
    requires Accounted(c, index, nodes, of, edges, [])
    ensures Accounted(if Assigned(of, e.source, index) then CountEdge(c, e) else c, index, nodes, of, edges + [e], [])
  {
    var mine := EdgesOf(edges, of, index);
    assert (edges + [e])[..|edges|] == edges;
    if Assigned(of, e.source, index) {
      assert (mine + [e])[..|mine|] == mine;
      assert Relations(mine + [e]) == Relations(mine) + [e.relation];
      BumpCounts(c.relations, Relations(mine), e.relation);
      BumpCounts(c.degrees, Endpoints(mine), e.source);
      if e.target != e.source {
        BumpCounts(Bump(c.degrees, e.source), Endpoints(mine) + [e.source], e.target);
      } else {
        assert Endpoints(mine) + [e.source] + [] == Endpoints(mine) + [e.source];
      }
    } else {
      assert mine + [] == mine;
    }
  }

  lemma EventAccounted(c: Community, index: nat, nodes: seq<nat>, of: Assignment, edges: seq<Edge>,
                       events: seq<Boundary>, b: Boundary)
    requires Accounted(c, index, nodes, of, edges, events)
    ensures Accounted(if Assigned(of, b.node, index) then CountEvent(c, b) else c, index, nodes, of, edges, events + [b])
  {
    assert (events + [b])[..|events|] == events;
    hide Bump, Counts, EdgesOf, Endpoints, Relations;
    var into, out := EventsOf(events, of, index, Incoming), EventsOf(events, of, index, Outgoing);
    assert into + [] == into && out + [] == out;
    if Assigned(of, b.node, index) {
      match b.direction
      case Incoming => BumpCounts(c.incoming, into, b.relation);
      case Outgoing => BumpCounts(c.outgoing, out, b.relation);
    }
  }

  lemma EdgesAccounted(communities: seq<Community>, components: seq<seq<nat>>, of: Assignment, edges: seq<Edge>, e: Edge)
    requires AllAccounted(communities, components, of, edges, [])
    requires e.source < |of| && of[e.source].Some? && of[e.source].value < |communities|
    ensures var index := of[e.source].value;
      AllAccounted(communities[index := CountEdge(communities[index], e)], components, of, edges + [e], [])
  {
    hide Accounted, CountEdge;
    forall i | 0 <= i < |communities|
      ensures Accounted(if Assigned(of, e.source, i) then CountEdge(communities[i], e) else communities[i],
                        i, components[i], of, edges + [e], [])
    {
      EdgeAccounted(communities[i], i, components[i], of, edges, e);
    }
  }

  lemma EventsAccounted(communities: seq<Community>, components: seq<seq<nat>>, of: Assignment, edges: seq<Edge>,
                        events: seq<Boundary>, b: Boundary)
    requires AllAccounted(communities, components, of, edges, events)
    requires b.node < |of| && of[b.node].Some? && of[b.node].value < |communities|
    ensures var index := of[b.node].value;
      AllAccounted(communities[index := CountEvent(communities[index], b)], components, of, edges, events + [b])
  {
    hide Accounted, CountEvent;
    forall i | 0 <= i < |communities|
      ensures Accounted(if Assigned(of, b.node, i) then CountEvent(communities[i], b) else communities[i],
                        i, components[i], of, edges, events + [b])
    {
      EventAccounted(communities[i], i, components[i], of, edges, events, b);
    }
  }

  /** The two counting loops, over the internal edges and over the boundary events. */
  method Account(components: seq<seq<nat>>, of: Assignment, edges: seq<Edge>, events: seq<Boundary>)
    returns (communities: seq<Community>)
    requires forall e :: e in edges ==> e.source < |of| && of[e.source].Some? && of[e.source].value < |components|
    requires forall b :: b in events ==> b.node < |of| && of[b.node].Some? && of[b.node].value < |components|
    ensures AllAccounted(communities, components, of, edges, events)
  {
    communities := seq(|components|, i requires 0 <= i < |components| =>
      Community(components[i], 0, map[], map[], map[], map[]));
    assert AllAccounted(communities, components, of, [], []);
    hide AllAccounted;
    communities := AccountEdges(components, of, edges, communities);
    communities := AccountEvents(components, of, edges, events, communities);
  }

  method AccountEdges(components: seq<seq<nat>>, of: Assignment, edges: seq<Edge>, communities0: seq<Community>)
    returns (communities: seq<Community>)
    requires forall e :: e in edges ==> e.source < |of| && of[e.source].Some? && of[e.source].value < |components|
    requires AllAccounted(communities0, components, of, [], [])
    ensures AllAccounted(communities, components, of, edges, [])
  {
    communities := communities0;
    hide Accounted, CountEdge;
    var k := 0;
    while k < |edges|
      invariant 0 <= k <= |edges| && AllAccounted(communities, components, of, edges[..k], [])
    {
      var e := edges[k];
      assert e in edges && edges[..k + 1] == edges[..k] + [e];
      EdgesAccounted(communities, components, of, edges[..k], e);
      hide AllAccounted;
      var index := of[e.source].value;
      communities := communities[index := CountEdge(communities[index], e)];
      k := k + 1;
    }
    assert edges[..k] == edges;
  }

  method AccountEvents(components: seq<seq<nat>>, of: Assignment, edges: seq<Edge>, events: seq<Boundary>,
                       communities0: seq<Community>)
    returns (communities: seq<Community>)
    requires forall b :: b in events ==> b.node < |of| && of[b.node].Some? && of[b.node].value < |components|
    requires AllAccounted(communities0, components, of, edges, [])
    ensures AllAccounted(communities, components, of, edges, events)
  {
    communities := communities0;
    hide Accounted, CountEvent;
    var k := 0;
    while k < |events|
      invariant 0 <= k <= |events| && AllAccounted(communities, components, of, edges, events[..k])
    {
      var b := events[k];
      assert b in events && events[..k + 1] == events[..k] + [b];
      EventsAccounted(communities, components, of, edges, events[..k], b);
      hide AllAccounted;
      var index := of[b.node].value;
      communities := communities[index := CountEvent(communities[index], b)];
      k := k + 1;
    }
    assert events[..k] == events;
  }

  // ----- conservation -----

  ghost function SumBy<T>(s: seq<T>, f: T -> nat): nat {
    if s == [] then 0 else SumBy(s[..|s| - 1], f) + f(s[|s| - 1])
  }

  /** Growing one term of a sum: an edge or an event is counted by one community only. */
  lemma {:induction false} SumUpdate(n: nat, f: nat -> nat, g: nat -> nat, index: nat, more: nat)
    requires index < n && (forall i: nat :: i != index ==> g(i) == f(i)) && g(index) == f(index) + more
    ensures SumUpTo(n, g) == SumUpTo(n, f) + more
  {
    if index == n - 1 {
      SumSame(n - 1, f, g);
    } else {
      SumUpdate(n - 1, f, g, index, more);
    }
  }

  ghost function SumUpTo(n: nat, f: nat -> nat): nat {
    if n == 0 then 0 else SumUpTo(n - 1, f) + f(n - 1)
  }

  lemma {:induction false} SumSame(n: nat, f: nat -> nat, g: nat -> nat)
    requires forall i: nat :: i < n ==> f(i) == g(i)
    ensures SumUpTo(n, f) == SumUpTo(n, g)
  {
    if n > 0 { SumSame(n - 1, f, g); }
  }

  /** Before any filtering, the communities' edge counts add up to the number of internal edges. */
  lemma {:induction false} EdgeCountsConserve(n: nat, of: Assignment, edges: seq<Edge>)
    requires forall e :: e in edges ==> e.source < |of| && of[e.source].Some? && of[e.source].value < n
    ensures SumUpTo(n, (i: nat) => |EdgesOf(edges, of, i)|) == |edges|
  {
    if edges == [] {
      SumZero(n, (i: nat) => |EdgesOf(edges, of, i)|);
    } else {
      var e, rest := edges[|edges| - 1], edges[..|edges| - 1];
      assert e in edges && edges == rest + [e];
      EdgeCountsConserve(n, of, rest);
      SumUpdate(n, (i: nat) => |EdgesOf(rest, of, i)|, (i: nat) => |EdgesOf(edges, of, i)|, of[e.source].value, 1);
    }
  }

  lemma {:induction false} SumZero(n: nat, f: nat -> nat)
    requires forall i: nat :: i < n ==> f(i) == 0
    ensures SumUpTo(n, f) == 0
  {
    if n > 0 { SumZero(n - 1, f); }
  }

  /** The boundary counts of all communities, in both directions, add up to the number of boundary events. */
  lemma {:induction false} BoundaryCountsConserve(n: nat, of: Assignment, events: seq<Boundary>)
    requires forall b :: b in events ==> b.node < |of| && of[b.node].Some? && of[b.node].value < n
    ensures SumUpTo(n, (i: nat) => |EventsOf(events, of, i, Incoming)| + |EventsOf(events, of, i, Outgoing)|) == |events|
  {
    if events == [] {
      SumZero(n, (i: nat) => |EventsOf(events, of, i, Incoming)| + |EventsOf(events, of, i, Outgoing)|);
    } else {
      var b, rest := events[|events| - 1], events[..|events| - 1];
      assert b in events && events == rest + [b];
      BoundaryCountsConserve(n, of, rest);
      SumUpdate(n, (i: nat) => |EventsOf(rest, of, i, Incoming)| + |EventsOf(rest, of, i, Outgoing)|,
                (i: nat) => |EventsOf(events, of, i, Incoming)| + |EventsOf(events, of, i, Outgoing)|, of[b.node].value, 1);
    }
  }

  lemma EndpointsStep(of: Assignment, rest: seq<Edge>, e: Edge, i: nat)
    requires e.source < |of| && of[e.source].Some?
    ensures |Endpoints(EdgesOf(rest + [e], of, i))| == |Endpoints(EdgesOf(rest, of, i))|
      + if i != of[e.source].value then 0 else if e.source == e.target then 1 else 2
  {
    var mine := EdgesOf(rest, of, i);
    assert (rest + [e])[..|rest|] == rest;
    assert (mine + [e])[..|mine|] == mine && mine + [] == mine;
  }

  /** The degrees of all communities add up to twice the internal edges less the self-loops. */
  lemma {:induction false} DegreesConserve(n: nat, of: Assignment, edges: seq<Edge>)
    requires forall e :: e in edges ==> e.source < |of| && of[e.source].Some? && of[e.source].value < n
    ensures SumUpTo(n, (i: nat) => |Endpoints(EdgesOf(edges, of, i))|) + SelfLoops(edges) == 2 * |edges|
  {
    if edges == [] {
      SumZero(n, (i: nat) => |Endpoints(EdgesOf(edges, of, i))|);
    } else {
      var e, rest := edges[|edges| - 1], edges[..|edges| - 1];
      assert e in edges && edges == rest + [e];
      DegreesConserve(n, of, rest);
      var more := if e.source == e.target then 1 else 2;
      forall i: nat
        ensures |Endpoints(EdgesOf(edges, of, i))|
             == |Endpoints(EdgesOf(rest, of, i))| + if i == of[e.source].value then more else 0
      {
        EndpointsStep(of, rest, e, i);
      }
      hide EdgesOf, Endpoints;
      SumUpdate(n, (i: nat) => |Endpoints(EdgesOf(rest, of, i))|, (i: nat) => |Endpoints(EdgesOf(edges, of, i))|,
                of[e.source].value, more);
    }
  }

  lemma {:induction false} EndpointsLength(edges: seq<Edge>)
    ensures |Endpoints(edges)| + SelfLoops(edges) == 2 * |edges|
  {
    if edges != [] { EndpointsLength(edges[..|edges| - 1]); }
  }

  /**
   Within one community the relation counts add up to its edge count, and the degrees to twice its
   edge count less its self-loops.
   */
  lemma CommunityTotals(c: Community, index: nat, nodes: seq<nat>, of: Assignment, edges: seq<Edge>, events: seq<Boundary>)
    requires Accounted(c, index, nodes, of, edges, events)
    ensures c.nodes == nodes && c.edgeCount == |EdgesOf(edges, of, index)|
    ensures Total(c.relations) == c.edgeCount
    ensures Total(c.degrees) == |Endpoints(EdgesOf(edges, of, index))|
    ensures Total(c.degrees) + SelfLoops(EdgesOf(edges, of, index)) == 2 * c.edgeCount
    ensures Total(c.incoming) == |EventsOf(events, of, index, Incoming)|
    ensures Total(c.outgoing) == |EventsOf(events, of, index, Outgoing)|
  {
    var mine := EdgesOf(edges, of, index);
    CountsTotal(c.relations, Relations(mine));
    CountsTotal(c.degrees, Endpoints(mine));
    EndpointsLength(mine);
    CountsTotal(c.incoming, EventsOf(events, of, index, Incoming));
    CountsTotal(c.outgoing, EventsOf(events, of, index, Outgoing));
  }

  /** Both ends of an internal edge lie in the same component, so counting it at its source is enough. */
  lemma EdgeInOneComponent(adj: Adjacency, selected: seq<nat>, of: Assignment, components: seq<seq<nat>>,
                           edges: seq<Edge>, e: Edge)
    requires Partition(adj, selected, of, components) && Mirrors(adj, edges) && e in edges
    requires e.source in selected && e.target in selected
    ensures e.source < |of| && e.target < |of| && of[e.source].Some? && of[e.source] == of[e.target]
  {
    JoinedSelf(adj, e.source);
    JoinedStep(adj, e.source, e.source, e.target);
  }

  // ----- communities by their nodes -----

  /** The edges with both ends among these nodes. */
  ghost function Inside(edges: seq<Edge>, nodes: seq<nat>): seq<Edge> {
    if edges == [] then []
    else
      var e := edges[|edges| - 1];
      Inside(edges[..|edges| - 1], nodes) + if e.source in nodes && e.target in nodes then [e] else []
  }

  /** The relations of the boundary events at these nodes. */
  ghost function Leaving(events: seq<Boundary>, nodes: seq<nat>, direction: Direction): seq<nat> {
    if events == [] then []
    else
      var e := events[|events| - 1];
      Leaving(events[..|events| - 1], nodes, direction) + if e.node in nodes && e.direction == direction then [e.relation] else []
  }

  /** The community counts exactly the edges inside it and the boundary events at its nodes. */
  ghost predicate CountsItsOwn(c: Community, edges: seq<Edge>, events: seq<Boundary>) {
    && c.edgeCount == |Inside(edges, c.nodes)|
    && Counts(c.relations, Relations(Inside(edges, c.nodes)))
    && Counts(c.degrees, Endpoints(Inside(edges, c.nodes)))
    && Counts(c.incoming, Leaving(events, c.nodes, Incoming))
    && Counts(c.outgoing, Leaving(events, c.nodes, Outgoing))
  }

  ghost function NodesOf(communities: seq<Community>): seq<seq<nat>> {
    seq(|communities|, i requires 0 <= i < |communities| => communities[i].nodes)
  }

  /** The communities are the components of the selection under its internal edges. */
  ghost predicate AreComponents(communities: seq<Community>, selected: seq<nat>, graphSize: nat, edges: seq<Edge>) {
    exists adj: Adjacency, of: Assignment ::
      |adj| == graphSize && Mirrors(adj, edges) && Partition(adj, selected, of, NodesOf(communities))
  }

  /** Because both ends of an edge lie in one component, the edges counted at their sources are those inside. */
  lemma {:induction false} EdgesInside(adj: Adjacency, selected: seq<nat>, of: Assignment, components: seq<seq<nat>>,
                                       all: seq<Edge>, edges: seq<Edge>, i: nat)
    requires Partition(adj, selected, of, components) && Mirrors(adj, all) && i < |components|
    requires forall e :: e in all ==> e.source in selected && e.target in selected
    requires forall e :: e in edges ==> e in all
    ensures EdgesOf(edges, of, i) == Inside(edges, components[i])
    decreases |edges|
  {
    if edges != [] {
      var e, rest := edges[|edges| - 1], edges[..|edges| - 1];
      assert e in edges && edges == rest + [e];
      EdgesInside(adj, selected, of, components, all, rest, i);
      EdgeInOneComponent(adj, selected, of, components, all, e);
      assert e.source in components[i] <==> Assigned(of, e.source, i);
      assert e.target in components[i] <==> Assigned(of, e.target, i);
    }
  }

  lemma {:induction false} EventsLeaving(adj: Adjacency, selected: seq<nat>, of: Assignment, components: seq<seq<nat>>,
                                         events: seq<Boundary>, i: nat, direction: Direction)
    requires Partition(adj, selected, of, components) && i < |components|
    ensures EventsOf(events, of, i, direction) == Leaving(events, components[i], direction)
  {
    if events != [] {
      var e := events[|events| - 1];
      EventsLeaving(adj, selected, of, components, events[..|events| - 1], i, direction);
      assert e.node in components[i] <==> Assigned(of, e.node, i);
    }
  }

  /** Accounting by the index of a component is accounting by its nodes. */
  lemma AccountedByNodes(adj: Adjacency, selected: seq<nat>, of: Assignment, components: seq<seq<nat>>, edges: seq<Edge>,
                         events: seq<Boundary>, communities: seq<Community>)
    requires Partition(adj, selected, of, components) && Gathered(adj, edges, events, selected)
    requires AllAccounted(communities, components, of, edges, events)
    ensures AreComponents(communities, selected, |adj|, edges)
    ensures forall c :: c in communities ==> CountsItsOwn(c, edges, events)
  {
    assert NodesOf(communities) == components;
    hide Partition, Counts, Mirrors, Relations, Endpoints;
    forall c | c in communities ensures CountsItsOwn(c, edges, events) {
      var i :| 0 <= i < |communities| && communities[i] == c;
      EdgesInside(adj, selected, of, components, edges, edges, i);
      EventsLeaving(adj, selected, of, components, events, i, Incoming);
      EventsLeaving(adj, selected, of, components, events, i, Outgoing);
    }
  }

  // ----- the summary -----

  datatype Summary = Summary(nodeCount: nat, internalEdgeCount: nat, boundaryEdgeCount: nat, componentCount: nat,
                             all: seq<Community>, kept: seq<Community>, excludedNodeCount: nat)

  function Retain(communities: seq<Community>, minimum: nat): seq<Community> {
    if communities == [] then []
    else Retain(communities[..|communities| - 1], minimum)
         + (if |communities[|communities| - 1].nodes| >= minimum then [communities[|communities| - 1]] else [])
  }

  ghost function NodeTotal(communities: seq<Community>): nat {
    SumBy(communities, (c: Community) => |c.nodes|)
  }

  /** The smallest community that is kept. */
  function Minimum(requested: Option<nat>): nat {
    match requested
    case None => DEFAULT_MIN_COMMUNITY_SIZE
    case Some(size) => if size > 1 then size else 1
  }

  lemma RetainStep(before: seq<Community>, c: Community, minimum: nat)
    ensures NodeTotal(before + [c]) == NodeTotal(before) + |c.nodes|
    ensures NodeTotal(Retain(before + [c], minimum)) ==
      NodeTotal(Retain(before, minimum)) + if |c.nodes| >= minimum then |c.nodes| else 0
  {
    assert (before + [c])[..|before|] == before;
    var kept := Retain(before, minimum);
    assert (kept + [c])[..|kept|] == kept && kept + [] == kept;
  }

  method ExcludedNodes(communities: seq<Community>, minimum: nat) returns (excluded: nat)
    ensures NodeTotal(Retain(communities, minimum)) + excluded == NodeTotal(communities)
  {
    excluded := 0;
    var k := 0;
    assert NodeTotal(Retain([], minimum)) == NodeTotal([]) == 0;
    hide NodeTotal, Retain;
    while k < |communities|
      invariant 0 <= k <= |communities|
      invariant NodeTotal(Retain(communities[..k], minimum)) + excluded == NodeTotal(communities[..k])
    {
      var c := communities[k];
      assert communities[..k + 1] == communities[..k] + [c];
      RetainStep(communities[..k], c, minimum);
      if |c.nodes| < minimum { excluded := excluded + |c.nodes|; }
      k := k + 1;
    }
    assert communities[..k] == communities;
  }

  lemma {:induction false} SumByUpTo<T>(s: seq<T>, f: T -> nat, g: nat -> nat)
    requires forall i :: 0 <= i < |s| ==> f(s[i]) == g(i)
    ensures SumBy(s, f) == SumUpTo(|s|, g)
  {
    if s != [] { SumByUpTo(s[..|s| - 1], f, g); }
  }

  lemma Conservation(adj: Adjacency, selected: seq<nat>, of: Assignment, components: seq<seq<nat>>,
                     edges: seq<Edge>, events: seq<Boundary>, communities: seq<Community>)
    requires Partition(adj, selected, of, components) && Gathered(adj, edges, events, selected)
    requires AllAccounted(communities, components, of, edges, events)
    requires forall v :: v in selected ==> v < |of|
    requires Distinct(selected)
    ensures SumBy(communities, (c: Community) => c.edgeCount) == |edges|
    ensures SumBy(communities, (c: Community) => Total(c.incoming) + Total(c.outgoing)) == |events|
    ensures SumBy(communities, (c: Community) => Total(c.degrees)) + SelfLoops(edges) == 2 * |edges|
    ensures forall c :: c in communities ==> Total(c.relations) == c.edgeCount
    ensures NodeTotal(communities) == |selected|
  {
    var n := |components|;
    hide Total, Accounted, Mirrors, EdgesOf, EventsOf, MembersOf, Relations, Endpoints, SelfLoops, SumBy, SumUpTo, Joined;
    forall i | 0 <= i < n
      ensures communities[i].nodes == components[i] && communities[i].edgeCount == |EdgesOf(edges, of, i)|
      ensures Total(communities[i].relations) == communities[i].edgeCount
      ensures Total(communities[i].degrees) == |Endpoints(EdgesOf(edges, of, i))|
      ensures Total(communities[i].incoming) + Total(communities[i].outgoing)
           == |EventsOf(events, of, i, Incoming)| + |EventsOf(events, of, i, Outgoing)|
    {
      CommunityTotals(communities[i], i, components[i], of, edges, events);
    }
    EdgeCountsConserve(n, of, edges);
    SumByUpTo(communities, (c: Community) => c.edgeCount, (i: nat) => |EdgesOf(edges, of, i)|);
    DegreesConserve(n, of, edges);
    SumByUpTo(communities, (c: Community) => Total(c.degrees), (i: nat) => |Endpoints(EdgesOf(edges, of, i))|);
    BoundaryCountsConserve(n, of, events);
    SumByUpTo(communities, (c: Community) => Total(c.incoming) + Total(c.outgoing),
              (i: nat) => |EventsOf(events, of, i, Incoming)| + |EventsOf(events, of, i, Outgoing)|);
    PartitionSizes(adj, selected, of, components);
    NodesConserve(selected, of, n, components);
    SumByUpTo(communities, (c: Community) => |c.nodes|, (i: nat) => |MembersOf(selected, of, i)|);
  }

  lemma PartitionSizes(adj: Adjacency, selected: seq<nat>, of: Assignment, components: seq<seq<nat>>)
    requires Partition(adj, selected, of, components)
    ensures forall i, v: nat :: 0 <= i < |components| ==> (v in components[i] <==> v in selected && Assigned(of, v, i))
    ensures forall i :: 0 <= i < |components| ==> Distinct(components[i])
  {
    forall i | 0 <= i < |components| ensures Distinct(components[i]) {
      assert StrictlySorted(NatLe, components[i]);
    }
  }

  // ----- component sizes -----

  ghost function MembersOf(selected: seq<nat>, of: Assignment, index: nat): seq<nat> {
    if selected == [] then []
    else
      var v := selected[|selected| - 1];
      MembersOf(selected[..|selected| - 1], of, index) + if Assigned(of, v, index) then [v] else []
  }

  lemma {:induction false} MembersExact(selected: seq<nat>, of: Assignment, index: nat)
    requires Distinct(selected)
    ensures var m := MembersOf(selected, of, index);
      && (forall v :: v in m <==> v in selected && Assigned(of, v, index))
      && Distinct(m)
  {
    if selected != [] {
      var v, rest := selected[|selected| - 1], selected[..|selected| - 1];
      assert selected == rest + [v];
      assert v !in rest;
      MembersExact(rest, of, index);
    }
  }

  lemma {:induction false} MembersConserve(n: nat, of: Assignment, selected: seq<nat>)
    requires forall v :: v in selected ==> v < |of| && of[v].Some? && of[v].value < n
    ensures SumUpTo(n, (i: nat) => |MembersOf(selected, of, i)|) == |selected|
  {
    if selected == [] {
      SumZero(n, (i: nat) => |MembersOf(selected, of, i)|);
    } else {
      var v, rest := selected[|selected| - 1], selected[..|selected| - 1];
      assert v in selected && selected == rest + [v];
      assert forall u :: u in rest ==> u in selected;
      MembersConserve(n, of, rest);
      SumUpdate(n, (i: nat) => |MembersOf(rest, of, i)|, (i: nat) => |MembersOf(selected, of, i)|, of[v].value, 1);
    }
  }

  lemma {:induction false} SameSize(a: seq<nat>, b: seq<nat>)
    requires forall v :: v in a <==> v in b
    requires Distinct(a)
    requires Distinct(b)
    ensures |a| == |b|
  {
    DistinctCounts(a);
    DistinctCounts(b);
    forall v ensures multiset(a)[v] == multiset(b)[v] {
      assert v in a <==> v in multiset(a);
      assert v in b <==> v in multiset(b);
    }
    assert multiset(a) == multiset(b);
    assert |multiset(a)| == |a| && |multiset(b)| == |b|;
  }

  lemma NodesConserve(selected: seq<nat>, of: Assignment, n: nat, components: seq<seq<nat>>)
    requires |components| == n
    requires forall v :: v in selected ==> v < |of| && of[v].Some? && of[v].value < n
    requires Distinct(selected)
    requires forall i, v: nat :: 0 <= i < n ==> (v in components[i] <==> v in selected && Assigned(of, v, i))
    requires forall i :: 0 <= i < n ==> Distinct(components[i])
    ensures SumUpTo(n, (i: nat) => |MembersOf(selected, of, i)|) == |selected|
    ensures forall i :: 0 <= i < n ==> |components[i]| == |MembersOf(selected, of, i)|
  {
    MembersConserve(n, of, selected);
    forall i | 0 <= i < n ensures |components[i]| == |MembersOf(selected, of, i)| {
      MembersExact(selected, of, i);
      SameSize(components[i], MembersOf(selected, of, i));
    }
  }
}
