/**
 arcana/src/protocol/architecture_queries.rs, `architecture_summary`: the summary, with its counters stated in terms of
 the adjacency lists it is read from.
 */
module ArchitectureSummary {
  import opened Wrappers
  import opened Ordering
  import opened Components
  import opened AdjacencySteps
  import opened Architecture

  // ----- communities by the adjacency lists -----

  lemma {:induction false} InternalTallied(v: nat, list: seq<(nat, nat)>, chosen: set<nat>, test: Edge -> bool, steps: StepTest)
    requires forall t: nat, r: nat :: steps(v, t, r) <==> t in chosen && test(Edge(v, t, r))
    ensures Tally(InternalAt(v, list, chosen), test) == |Positions(v, list, steps)|
  {
    if list != [] {
      var before, last := list[..|list| - 1], list[|list| - 1];
      assert list == before + [last];
      InternalTallied(v, before, chosen, test, steps);
      PositionsNext(v, before, last, steps);
      var edges := InternalAt(v, before, chosen);
      TallyJoin(edges, [Edge(v, last.0, last.1)], test);
      assert Tally([Edge(v, last.0, last.1)], test) == if test(Edge(v, last.0, last.1)) then 1 else 0 by {
        assert [Edge(v, last.0, last.1)][..0] == [];
      }
      assert edges + [] == edges;
    }
  }

  lemma {:induction false} BoundaryTallied(v: nat, direction: Direction, list: seq<(nat, nat)>, chosen: set<nat>, test: Boundary -> bool,
                                           steps: StepTest)
    requires forall t: nat, r: nat :: steps(v, t, r) <==> t !in chosen && test(Boundary(v, direction, r))
    ensures Tally(BoundaryAt(v, direction, list, chosen), test) == |Positions(v, list, steps)|
  {
    if list != [] {
      var before, last := list[..|list| - 1], list[|list| - 1];
      assert list == before + [last];
      BoundaryTallied(v, direction, before, chosen, test, steps);
      PositionsNext(v, before, last, steps);
      var events, event := BoundaryAt(v, direction, before, chosen), Boundary(v, direction, last.1);
      TallyJoin(events, [event], test);
      assert Tally([event], test) == if test(event) then 1 else 0 by { assert [event][..0] == []; }
      assert events + [] == events;
    }
  }

  ghost predicate AllListed<E>(sources: seq<nat>, lists: Neighbors<E>) {
    forall v :: v in sources ==> lists(v).Success?
  }

  lemma {:induction false} AllInternalTallied<E>(sources: seq<nat>, outgoing: Neighbors<E>, chosen: set<nat>, test: Edge -> bool,
                                                 steps: StepTest)
    requires Distinct(sources) && AllListed(sources, outgoing)
    requires forall v: nat, t: nat, r: nat :: steps(v, t, r) <==> t in chosen && test(Edge(v, t, r))
    ensures Tally(AllInternal(sources, outgoing, chosen), test) == |Steps(sources, outgoing, steps)|
  {
    if sources == [] {
      NoStepsYet(outgoing, steps);
    } else {
      var before, v := sources[..|sources| - 1], sources[|sources| - 1];
      assert sources == before + [v];
      AllInternalTallied(before, outgoing, chosen, test, steps);
      StepsNext(before, v, outgoing, steps);
      InternalTallied(v, outgoing(v).value, chosen, test, steps);
      TallyJoin(AllInternal(before, outgoing, chosen), InternalAt(v, outgoing(v).value, chosen), test);
    }
  }

  lemma {:induction false} AllBoundaryTallied<E>(sources: seq<nat>, outgoing: Neighbors<E>, incoming: Neighbors<E>, chosen: set<nat>,
                                                 test: Boundary -> bool, out: StepTest, into: StepTest)
    requires Distinct(sources) && AllListed(sources, outgoing) && AllListed(sources, incoming)
    requires forall v: nat, t: nat, r: nat :: out(v, t, r) <==> t !in chosen && test(Boundary(v, Outgoing, r))
    requires forall v: nat, t: nat, r: nat :: into(v, t, r) <==> t !in chosen && test(Boundary(v, Incoming, r))
    ensures Tally(AllBoundary(sources, outgoing, incoming, chosen), test) ==
            |Steps(sources, outgoing, out)| + |Steps(sources, incoming, into)|
  {
    if sources == [] {
      NoStepsYet(outgoing, out);
      NoStepsYet(incoming, into);
    } else {
      var before, v := sources[..|sources| - 1], sources[|sources| - 1];
      assert sources == before + [v];
      AllBoundaryTallied(before, outgoing, incoming, chosen, test, out, into);
      StepsNext(before, v, outgoing, out);
      StepsNext(before, v, incoming, into);
      BoundaryTallied(v, Outgoing, outgoing(v).value, chosen, test, out);
      BoundaryTallied(v, Incoming, incoming(v).value, chosen, test, into);
      hide Tally, BoundaryAt, Steps, Positions;
      var events := AllBoundary(before, outgoing, incoming, chosen);
      var mine, theirs := BoundaryAt(v, Outgoing, outgoing(v).value, chosen), BoundaryAt(v, Incoming, incoming(v).value, chosen);
      TallyJoin(events, mine, test);
      TallyJoin(events + mine, theirs, test);
    }
  }

  // What the counters of a community count, as tallies of the edges and events.

  lemma {:induction false} InsideTallied(edges: seq<Edge>, nodes: seq<nat>, test: Edge -> bool, both: Edge -> bool)
    requires forall e :: both(e) <==> e.source in nodes && e.target in nodes && test(e)
    ensures Tally(Inside(edges, nodes), test) == Tally(edges, both)
  {
    if edges != [] {
      var before, e := edges[..|edges| - 1], edges[|edges| - 1];
      InsideTallied(before, nodes, test, both);
      var inside := Inside(before, nodes);
      assert inside + [] == inside && (inside + [e])[..|inside|] == inside;
    }
  }

  lemma {:induction false} TallyAll<T>(s: seq<T>, test: T -> bool)
    requires forall x :: test(x)
    ensures Tally(s, test) == |s|
  {
    if s != [] { TallyAll(s[..|s| - 1], test); }
  }

  lemma {:induction false} RelationsTallied(edges: seq<Edge>, relation: nat)
    ensures multiset(Relations(edges))[relation] == Tally(edges, (e: Edge) => e.relation == relation)
  {
    if edges != [] {
      var before, e := edges[..|edges| - 1], edges[|edges| - 1];
      RelationsTallied(before, relation);
      assert Relations(edges) == Relations(before) + [e.relation];
    }
  }

  lemma {:induction false} EndpointsTallied(edges: seq<Edge>, node: nat)
    ensures multiset(Endpoints(edges))[node] ==
            Tally(edges, (e: Edge) => e.source == node) + Tally(edges, (e: Edge) => e.target == node && e.source != node)
  {
    if edges != [] {
      EndpointsTallied(edges[..|edges| - 1], node);
    }
  }

  lemma {:induction false} LeavingTallied(events: seq<Boundary>, nodes: seq<nat>, direction: Direction, relation: nat,
                                          test: Boundary -> bool)
    requires forall b :: test(b) <==> b.node in nodes && b.direction == direction && b.relation == relation
    ensures multiset(Leaving(events, nodes, direction))[relation] == Tally(events, test)
  {
    if events != [] {
      var before, b := events[..|events| - 1], events[|events| - 1];
      LeavingTallied(before, nodes, direction, relation, test);
      var leaving := Leaving(before, nodes, direction);
      assert leaving + [] == leaving;
    }
  }

  /** How often a counter counts a key. */
  function Value(m: Counter, k: nat): nat {
    if k in m then m[k] else 0
  }

  lemma CountsValue(m: Counter, s: seq<nat>, k: nat)
    requires Counts(m, s)
    ensures Value(m, k) == multiset(s)[k]
  {
    assert k in s <==> k in multiset(s);
  }

  /** The steps from these nodes to one of these nodes, of those that pass a test. */
  ghost function Inner<E>(nodes: seq<nat>, lists: Neighbors<E>, test: StepTest): set<(nat, nat)> {
    Steps(nodes, lists, (v: nat, t: nat, r: nat) => t in nodes && test(v, t, r))
  }

  /** The steps from these nodes off the selection, of one relation. */
  ghost function Off<E>(nodes: seq<nat>, lists: Neighbors<E>, chosen: set<nat>, relation: nat): set<(nat, nat)> {
    Steps(nodes, lists, (v: nat, t: nat, r: nat) => t !in chosen && r == relation)
  }

  /**
   The community counts what its nodes' lists hold: an entry of an outgoing list that leads to another of its nodes is
   an edge, of its relation, and a degree of either end, a loop being one of its node; an entry of an outgoing list
   that leads off the selection is an outgoing boundary edge of its relation, and likewise for incoming lists.
   */
  ghost predicate CountsLists<E>(c: Community, outgoing: Neighbors<E>, incoming: Neighbors<E>, chosen: set<nat>) {
    && c.edgeCount == |Inner(c.nodes, outgoing, (v: nat, t: nat, r: nat) => true)|
    && (forall k: nat :: Value(c.relations, k) == |Inner(c.nodes, outgoing, (v: nat, t: nat, r: nat) => r == k)|)
    && (forall u: nat :: Value(c.degrees, u) ==
          |Inner(c.nodes, outgoing, (v: nat, t: nat, r: nat) => v == u)|
          + |Inner(c.nodes, outgoing, (v: nat, t: nat, r: nat) => t == u && v != u)|)
    && (forall k: nat :: Value(c.outgoing, k) == |Off(c.nodes, outgoing, chosen, k)|)
    && (forall k: nat :: Value(c.incoming, k) == |Off(c.nodes, incoming, chosen, k)|)
  }

  lemma InnerTallied<E>(selected: seq<nat>, nodes: seq<nat>, outgoing: Neighbors<E>, test: Edge -> bool, steps: StepTest)
    requires Distinct(selected) && AllListed(selected, outgoing) && forall v :: v in nodes ==> v in selected
    requires forall v: nat, t: nat, r: nat :: steps(v, t, r) <==> test(Edge(v, t, r))
    ensures Tally(Inside(AllInternal(selected, outgoing, set v | v in selected), nodes), test) == |Inner(nodes, outgoing, steps)|
  {
    var chosen := set v | v in selected;
    var both := (e: Edge) => e.source in nodes && e.target in nodes && test(e);
    var wide := (v: nat, t: nat, r: nat) => t in chosen && both(Edge(v, t, r));
    InsideTallied(AllInternal(selected, outgoing, chosen), nodes, test, both);
    AllInternalTallied(selected, outgoing, chosen, both, wide);
    StepsAlike(selected, nodes, outgoing, wide, (v: nat, t: nat, r: nat) => t in nodes && steps(v, t, r));
  }

  lemma OffTallied<E>(selected: seq<nat>, nodes: seq<nat>, outgoing: Neighbors<E>, incoming: Neighbors<E>, direction: Direction, k: nat)
    requires Distinct(selected) && AllListed(selected, outgoing) && AllListed(selected, incoming)
    requires forall v :: v in nodes ==> v in selected
    ensures var chosen := set v | v in selected;
      multiset(Leaving(AllBoundary(selected, outgoing, incoming, chosen), nodes, direction))[k] ==
      |Off(nodes, if direction == Outgoing then outgoing else incoming, chosen, k)|
  {
    var chosen := set v | v in selected;
    var test := (b: Boundary) => b.node in nodes && b.direction == direction && b.relation == k;
    var out := (v: nat, t: nat, r: nat) => t !in chosen && test(Boundary(v, Outgoing, r));
    var into := (v: nat, t: nat, r: nat) => t !in chosen && test(Boundary(v, Incoming, r));
    LeavingTallied(AllBoundary(selected, outgoing, incoming, chosen), nodes, direction, k, test);
    AllBoundaryTallied(selected, outgoing, incoming, chosen, test, out, into);
    hide AllBoundary, Tally, Leaving;
    var off, none := (v: nat, t: nat, r: nat) => t !in chosen && r == k, (v: nat, t: nat, r: nat) => false;
    if direction == Outgoing {
      StepsAlike(selected, nodes, outgoing, out, off);
      StepsAlike(selected, [], incoming, into, none);
      NoStepsYet(incoming, none);
    } else {
      StepsAlike(selected, [], outgoing, out, none);
      StepsAlike(selected, nodes, incoming, into, off);
      NoStepsYet(outgoing, none);
    }
  }

  lemma CountedByLists<E>(c: Community, selected: seq<nat>, outgoing: Neighbors<E>, incoming: Neighbors<E>)
    requires Distinct(selected) && AllListed(selected, outgoing) && AllListed(selected, incoming)
    requires forall v :: v in c.nodes ==> v in selected
    requires var chosen := set v | v in selected;
      CountsItsOwn(c, AllInternal(selected, outgoing, chosen), AllBoundary(selected, outgoing, incoming, chosen))
    ensures CountsLists(c, outgoing, incoming, set v | v in selected)
  {
    hide Counts, Inside, Leaving, AllInternal, AllBoundary, Relations, Endpoints, Tally, Inner, Off, Value;
    var chosen := set v | v in selected;
    var edges := Inside(AllInternal(selected, outgoing, chosen), c.nodes);
    TallyAll(edges, (e: Edge) => true);
    InnerTallied(selected, c.nodes, outgoing, (e: Edge) => true, (v: nat, t: nat, r: nat) => true);
    forall k: nat ensures Value(c.relations, k) == |Inner(c.nodes, outgoing, (v: nat, t: nat, r: nat) => r == k)| {
      CountsValue(c.relations, Relations(edges), k);
      RelationsTallied(edges, k);
      InnerTallied(selected, c.nodes, outgoing, (e: Edge) => e.relation == k, (v: nat, t: nat, r: nat) => r == k);
    }
    forall u: nat ensures Value(c.degrees, u) == |Inner(c.nodes, outgoing, (v: nat, t: nat, r: nat) => v == u)|
                                                + |Inner(c.nodes, outgoing, (v: nat, t: nat, r: nat) => t == u && v != u)|
    {
      CountsValue(c.degrees, Endpoints(edges), u);
      EndpointsTallied(edges, u);
      InnerTallied(selected, c.nodes, outgoing, (e: Edge) => e.source == u, (v: nat, t: nat, r: nat) => v == u);
      InnerTallied(selected, c.nodes, outgoing, (e: Edge) => e.target == u && e.source != u,
                   (v: nat, t: nat, r: nat) => t == u && v != u);
    }
    forall k: nat
      ensures Value(c.outgoing, k) == |Off(c.nodes, outgoing, chosen, k)| && Value(c.incoming, k) == |Off(c.nodes, incoming, chosen, k)|
    {
      CountsValue(c.outgoing, Leaving(AllBoundary(selected, outgoing, incoming, chosen), c.nodes, Outgoing), k);
      OffTallied(selected, c.nodes, outgoing, incoming, Outgoing, k);
      CountsValue(c.incoming, Leaving(AllBoundary(selected, outgoing, incoming, chosen), c.nodes, Incoming), k);
      OffTallied(selected, c.nodes, outgoing, incoming, Incoming, k);
    }
  }

  /** An entry of the list of `u` names `v`. */
  ghost predicate Names<E>(lists: Neighbors<E>, u: nat, v: nat) {
    lists(u).Success? && exists j: nat :: j < |lists(u).value| && lists(u).value[j].0 == v
  }

  lemma {:induction false} InternalMembers(v: nat, list: seq<(nat, nat)>, chosen: set<nat>, e: Edge)
    ensures e in InternalAt(v, list, chosen) <==>
            e.source == v && e.target in chosen && exists j: nat :: j < |list| && list[j] == (e.target, e.relation)
  {
    if list != [] {
      var before, last := list[..|list| - 1], list[|list| - 1];
      assert list == before + [last];
      InternalMembers(v, before, chosen, e);
      if j: nat :| j < |before| && before[j] == (e.target, e.relation) { assert list[j] == (e.target, e.relation); }
      if j: nat :| j < |list| && list[j] == (e.target, e.relation) && last != (e.target, e.relation) {
        assert before[j] == (e.target, e.relation);
      }
    }
  }

  lemma {:induction false} AllInternalMembers<E>(sources: seq<nat>, outgoing: Neighbors<E>, chosen: set<nat>, e: Edge)
    ensures e in AllInternal(sources, outgoing, chosen) <==>
            && e.source in sources && e.target in chosen && outgoing(e.source).Success?
            && exists j: nat :: j < |outgoing(e.source).value| && outgoing(e.source).value[j] == (e.target, e.relation)
  {
    if sources != [] {
      var before, v := sources[..|sources| - 1], sources[|sources| - 1];
      assert sources == before + [v];
      AllInternalMembers(before, outgoing, chosen, e);
      if outgoing(v).Success? { InternalMembers(v, outgoing(v).value, chosen, e); }
    }
  }

  /** Two nodes are adjacent exactly when both are selected and the outgoing list of one names the other. */
  ghost predicate FollowsLists<E>(adj: Adjacency, selected: seq<nat>, outgoing: Neighbors<E>) {
    forall u, v :: Adjacent(adj, u, v) <==> u in selected && v in selected && (Names(outgoing, u, v) || Names(outgoing, v, u))
  }

  lemma MirrorsFollow<E>(adj: Adjacency, selected: seq<nat>, outgoing: Neighbors<E>)
    requires Mirrors(adj, AllInternal(selected, outgoing, set v | v in selected))
    ensures FollowsLists(adj, selected, outgoing)
  {
    hide AllInternal;
    var edges := AllInternal(selected, outgoing, set v | v in selected);
    forall u, v | Adjacent(adj, u, v)
      ensures u in selected && v in selected && (Names(outgoing, u, v) || Names(outgoing, v, u))
    {
      var e :| e in edges && ((e.source == u && e.target == v) || (e.source == v && e.target == u));
      AllInternalMembers(selected, outgoing, (set v | v in selected), e);
    }
    forall u, v | u in selected && v in selected && Names(outgoing, u, v) ensures Adjacent(adj, u, v) && Adjacent(adj, v, u) {
      var j: nat :| j < |outgoing(u).value| && outgoing(u).value[j].0 == v;
      var e := Edge(u, v, outgoing(u).value[j].1);
      AllInternalMembers(selected, outgoing, (set v | v in selected), e);
      assert e in edges;
    }
  }

  /** The communities are the components of the selection, joined by what the outgoing lists name. */
  ghost predicate AreJoined<E>(communities: seq<Community>, selected: seq<nat>, graphSize: nat, outgoing: Neighbors<E>) {
    exists adj: Adjacency, of: Assignment ::
      |adj| == graphSize && FollowsLists(adj, selected, outgoing) && Partition(adj, selected, of, NodesOf(communities))
  }

  lemma ComponentsJoined<E>(communities: seq<Community>, selected: seq<nat>, graphSize: nat, outgoing: Neighbors<E>)
    requires AreComponents(communities, selected, graphSize, AllInternal(selected, outgoing, set v | v in selected))
    ensures AreJoined(communities, selected, graphSize, outgoing)
    ensures forall c :: c in communities ==> forall v :: v in c.nodes ==> v in selected
  {
    hide AllInternal, Mirrors;
    var edges := AllInternal(selected, outgoing, set v | v in selected);
    var adj: Adjacency, of: Assignment :|
      |adj| == graphSize && Mirrors(adj, edges) && Partition(adj, selected, of, NodesOf(communities));
    MirrorsFollow(adj, selected, outgoing);
    forall c, v | c in communities && v in c.nodes ensures v in selected {
      var i :| 0 <= i < |communities| && communities[i] == c;
      assert v in NodesOf(communities)[i] <==> Assigned(of, v, i);
    }
    hide FollowsLists, Partition;
  }

  /** All steps from the selection to the selection, of those that pass a test. */
  lemma TotalsByLists<E>(selected: seq<nat>, outgoing: Neighbors<E>, incoming: Neighbors<E>)
    requires Distinct(selected) && AllListed(selected, outgoing) && AllListed(selected, incoming)
    ensures var chosen := set v | v in selected;
      && |AllInternal(selected, outgoing, chosen)| == |Inner(selected, outgoing, (v: nat, t: nat, r: nat) => true)|
      && SelfLoops(AllInternal(selected, outgoing, chosen)) == |Inner(selected, outgoing, (v: nat, t: nat, r: nat) => v == t)|
      && |AllBoundary(selected, outgoing, incoming, chosen)| == |AllOff(selected, outgoing)| + |AllOff(selected, incoming)|
  {
    hide Inside, AllInternal, AllBoundary, Tally, Inner;
    var chosen := set v | v in selected;
    var edges, events := AllInternal(selected, outgoing, chosen), AllBoundary(selected, outgoing, incoming, chosen);
    InsideAll(selected, outgoing);
    TallyAll(edges, (e: Edge) => true);
    InnerTallied(selected, selected, outgoing, (e: Edge) => true, (v: nat, t: nat, r: nat) => true);
    SelfLoopsTallied(edges);
    InnerTallied(selected, selected, outgoing, (e: Edge) => e.source == e.target, (v: nat, t: nat, r: nat) => v == t);
    TallyAll(events, (b: Boundary) => true);
    var off := (v: nat, t: nat, r: nat) => t !in chosen;
    AllBoundaryTallied(selected, outgoing, incoming, chosen, (b: Boundary) => true, off, off);
    assert Steps(selected, outgoing, off) == AllOff(selected, outgoing) && Steps(selected, incoming, off) == AllOff(selected, incoming);
  }

  /** The steps from the selection off it. */
  ghost function AllOff<E>(selected: seq<nat>, lists: Neighbors<E>): set<(nat, nat)> {
    Steps(selected, lists, (v: nat, t: nat, r: nat) => t !in selected)
  }

  lemma InsideAll<E>(selected: seq<nat>, outgoing: Neighbors<E>)
    ensures var edges := AllInternal(selected, outgoing, set v | v in selected);
      Inside(edges, selected) == edges
  {
    var edges := AllInternal(selected, outgoing, set v | v in selected);
    forall e | e in edges ensures e.source in selected && e.target in selected {
      AllInternalMembers(selected, outgoing, (set v | v in selected), e);
    }
    hide AllInternal;
    InsideWhole(edges, selected);
  }

  lemma {:induction false} InsideWhole(edges: seq<Edge>, nodes: seq<nat>)
    requires forall e :: e in edges ==> e.source in nodes && e.target in nodes
    ensures Inside(edges, nodes) == edges
  {
    if edges != [] {
      var before, e := edges[..|edges| - 1], edges[|edges| - 1];
      assert e in edges && edges == before + [e];
      InsideWhole(before, nodes);
    }
  }

  lemma {:induction false} SelfLoopsTallied(edges: seq<Edge>)
    ensures SelfLoops(edges) == Tally(edges, (e: Edge) => e.source == e.target)
  {
    if edges != [] { SelfLoopsTallied(edges[..|edges| - 1]); }
  }

  // ----- the summary -----

  /** A community is kept if it has two nodes, or as many as requested. */
  ghost predicate LargeEnough(c: Community, requested: Option<nat>) {
    match requested
    case None => 2 <= |c.nodes|
    case Some(size) => 1 <= |c.nodes| && size <= |c.nodes|
  }

  lemma {:induction false} RetainMembers(communities: seq<Community>, requested: Option<nat>)
    ensures forall c :: c in Retain(communities, Minimum(requested)) <==> c in communities && LargeEnough(c, requested)
  {
    if communities != [] {
      var before, last := communities[..|communities| - 1], communities[|communities| - 1];
      assert communities == before + [last];
      RetainMembers(before, requested);
    }
  }

  /** What the counters of a summary are, in terms of the lists. */
  ghost predicate CountsAll<E>(s: Summary, selected: seq<nat>, outgoing: Neighbors<E>, incoming: Neighbors<E>) {
    && s.internalEdgeCount == |Inner(selected, outgoing, (v: nat, t: nat, r: nat) => true)|
    && s.boundaryEdgeCount == |AllOff(selected, outgoing)| + |AllOff(selected, incoming)|
    && SumBy(s.all, (c: Community) => c.edgeCount) == s.internalEdgeCount
    && SumBy(s.all, (c: Community) => Architecture.Total(c.incoming) + Architecture.Total(c.outgoing)) == s.boundaryEdgeCount
    && SumBy(s.all, (c: Community) => Architecture.Total(c.degrees)) + |Inner(selected, outgoing, (v: nat, t: nat, r: nat) => v == t)|
       == 2 * s.internalEdgeCount
    && (forall c :: c in s.all ==> Architecture.Total(c.relations) == c.edgeCount)
    && (forall c :: c in s.all ==> CountsLists(c, outgoing, incoming, set v | v in selected))
  }

  /**
   `architecture_summary` down to the filtered communities; ordering and rendering them are not modelled. It
   fails exactly when some adjacency of the selection does, with the failure met first.
   */
  method Summarise<E>(selected: seq<nat>, graphSize: nat, outgoing: Neighbors<E>, incoming: Neighbors<E>,
                      minCommunitySize: Option<nat>)
    returns (r: Result<Summary, E>)
    requires forall v :: v in selected ==> v < graphSize
    requires Distinct(selected)
    ensures r.Success? ==>
      var s := r.value;
      && s.nodeCount == |selected| && s.componentCount == |s.all|
      && AreJoined(s.all, selected, graphSize, outgoing)
      && CountsAll(s, selected, outgoing, incoming)
      && (forall c :: c in s.kept <==> c in s.all && LargeEnough(c, minCommunitySize))
      && NodeTotal(s.kept) + s.excludedNodeCount == s.nodeCount
    ensures r.Failure? <==> exists v :: v in selected && (outgoing(v).Failure? || incoming(v).Failure?)
    ensures r.Failure? ==> exists k :: FirstFailure(selected, outgoing, incoming, k, r.error)
  {
    var gathered := Gather(selected, graphSize, outgoing, incoming);
    if gathered.Failure? { return Failure(gathered.error); }
    var (adjacency, edges, events) := gathered.value;
    MirrorsSymmetric(adjacency, edges, selected);
    var components, componentOf := ConnectedComponents(selected, adjacency, graphSize);
    var communities := Account(components, componentOf, edges, events);
    Conservation(adjacency, selected, componentOf, components, edges, events, communities);
    AccountedByNodes(adjacency, selected, componentOf, components, edges, events, communities);
    hide AllAccounted, Partition, Gathered, AreComponents, CountsItsOwn, FirstFailure, AreJoined, CountsAll, LargeEnough;
    var minimum := Minimum(minCommunitySize);
    var excluded := ExcludedNodes(communities, minimum);
    RetainMembers(communities, minCommunitySize);
    var s := Summary(|selected|, |edges|, |events|, |communities|, communities, Retain(communities, minimum), excluded);
    ComponentsJoined(communities, selected, graphSize, outgoing);
    SummaryCounts(s, selected, outgoing, incoming);
    return Success(s);
  }

  lemma SummaryCounts<E>(s: Summary, selected: seq<nat>, outgoing: Neighbors<E>, incoming: Neighbors<E>)
    requires Distinct(selected) && AllListed(selected, outgoing) && AllListed(selected, incoming)
    requires forall c :: c in s.all ==> forall v :: v in c.nodes ==> v in selected
    requires var chosen := set v | v in selected;
      var edges, events := AllInternal(selected, outgoing, chosen), AllBoundary(selected, outgoing, incoming, chosen);
      && s.internalEdgeCount == |edges| && s.boundaryEdgeCount == |events|
      && (forall c :: c in s.all ==> CountsItsOwn(c, edges, events))
      && SumBy(s.all, (c: Community) => Architecture.Total(c.degrees)) + SelfLoops(edges) == 2 * |edges|
    requires SumBy(s.all, (c: Community) => c.edgeCount) == s.internalEdgeCount
    requires SumBy(s.all, (c: Community) => Architecture.Total(c.incoming) + Architecture.Total(c.outgoing)) == s.boundaryEdgeCount
    requires forall c :: c in s.all ==> Architecture.Total(c.relations) == c.edgeCount
    ensures CountsAll(s, selected, outgoing, incoming)
  {
    hide AllInternal, AllBoundary, CountsItsOwn, CountsLists, SumBy, Architecture.Total, SelfLoops, Inner, AllOff;
    TotalsByLists(selected, outgoing, incoming);
    forall c | c in s.all ensures CountsLists(c, outgoing, incoming, set v | v in selected) {
      CountedByLists(c, selected, outgoing, incoming);
    }
  }
}
