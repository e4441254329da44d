/**
 arcana/src/protocol/path_queries.rs: the backtracking enumeration of simple paths.

 The specification is the depth-first list of everything an unlimited search would do: the checks
 of the limit, the paths met and the adjacency failures. The search is then a prefix of that list.
 */
module PathSearch {
  import opened Ordering
  import opened Wrappers

  /** `graph_neighbors` for the outgoing direction and the chosen relations. */
  type Adjacency<!E> = nat -> Result<seq<(nat, nat)>, E>

  /** A path as the source stores it: its nodes, and the relations between consecutive ones. */
  datatype Path = Path(nodes: seq<nat>, relations: seq<nat>)

  /** A test of the limit, a path reaching the target, or an adjacency failure. */
  datatype Event<+E> = Probe | Found(path: Path) | Fail(error: E)

  datatype Outcome<+E> = Outcome(paths: seq<Path>, truncated: bool, error: Option<E>) {
    predicate Stopped() { truncated || error.Some? }
  }

  // ----- the unlimited search -----

  ghost function Events<E>(adj: Adjacency<E>, target: nat, maxDepth: nat, path: Path): seq<Event<E>>
    requires path.nodes != []
    decreases Room(maxDepth, path.relations), 1, 0
  {
    var current := path.nodes[|path.nodes| - 1];
    [Probe] +
    if current == target then [Found(path)]
    else if |path.relations| >= maxDepth then []
    else match adj(current)
      case Failure(e) => [Fail(e)]
      case Success(neighbors) => Branches(adj, target, maxDepth, path, neighbors)
  }

  ghost function Branches<E>(adj: Adjacency<E>, target: nat, maxDepth: nat, path: Path, neighbors: seq<(nat, nat)>)
    : seq<Event<E>>
    requires path.nodes != [] && |path.relations| < maxDepth
    decreases Room(maxDepth, path.relations), 0, |neighbors|
  {
    if neighbors == [] then []
    else
      [Probe]
      + (if neighbors[0].0 in path.nodes then [] else Events(adj, target, maxDepth, Extend(path, neighbors[0])))
      + Branches(adj, target, maxDepth, path, neighbors[1..])
  }

  function Room(maxDepth: nat, relations: seq<nat>): nat {
    if |relations| < maxDepth then maxDepth - |relations| else 0
  }

  function Extend(path: Path, step: (nat, nat)): Path {
    Path(path.nodes + [step.0], path.relations + [step.1])
  }

  /** The search under a limit: stop at the first failure, or at the first probe that finds the limit reached. */
  ghost function Run<E>(events: seq<Event<E>>, limit: nat, paths: seq<Path>): Outcome<E> {
    if events == [] then Outcome(paths, false, None)
    else match events[0]
      case Probe => if |paths| >= limit then Outcome(paths, true, None) else Run(events[1..], limit, paths)
      case Found(path) => Run(events[1..], limit, paths + [path])
      case Fail(e) => Outcome(paths, false, Some(e))
  }

  ghost function Resume<E>(outcome: Outcome<E>, events: seq<Event<E>>, limit: nat): Outcome<E> {
    if outcome.Stopped() then outcome else Run(events, limit, outcome.paths)
  }

  lemma {:induction false} RunAppend<E>(a: seq<Event<E>>, b: seq<Event<E>>, limit: nat, paths: seq<Path>)
    ensures Run(a + b, limit, paths) == Resume(Run(a, limit, paths), b, limit)
  {
    if a == [] {
      assert a + b == b;
    } else {
      assert (a + b)[0] == a[0] && (a + b)[1..] == a[1..] + b;
      match a[0]
      case Probe => if |paths| < limit { RunAppend(a[1..], b, limit, paths); }
      case Found(path) => RunAppend(a[1..], b, limit, paths + [path]);
      case Fail(e) =>
    }
  }

  lemma RunProbe<E>(rest: seq<Event<E>>, limit: nat, paths: seq<Path>)
    ensures Run([Probe] + rest, limit, paths) ==
            if |paths| >= limit then Outcome(paths, true, None) else Run(rest, limit, paths)
  {
    assert ([Probe] + rest)[1..] == rest;
  }

  /** One turn of the loop over the neighbours. */
  lemma RunBranch<E>(adj: Adjacency<E>, target: nat, maxDepth: nat, path: Path, neighbors: seq<(nat, nat)>, j: nat,
                     limit: nat, paths: seq<Path>)
    requires path.nodes != [] && |path.relations| < maxDepth && j < |neighbors|
    ensures var rest := Branches(adj, target, maxDepth, path, neighbors[j + 1..]);
      Run(Branches(adj, target, maxDepth, path, neighbors[j..]), limit, paths) ==
        if |paths| >= limit then Outcome(paths, true, None)
        else if neighbors[j].0 in path.nodes then Run(rest, limit, paths)
        else Resume(Run(Events(adj, target, maxDepth, Extend(path, neighbors[j])), limit, paths), rest, limit)
  {
    var tail := neighbors[j..];
    assert tail[0] == neighbors[j] && tail[1..] == neighbors[j + 1..];
    var rest := Branches(adj, target, maxDepth, path, neighbors[j + 1..]);
    var here := if neighbors[j].0 in path.nodes then [] else Events(adj, target, maxDepth, Extend(path, neighbors[j]));
    assert [Probe] + here + rest == [Probe] + (here + rest);
    RunProbe(here + rest, limit, paths);
    RunAppend(here, rest, limit, paths);
  }

  lemma RunNothing<E>(adj: Adjacency<E>, target: nat, maxDepth: nat, path: Path, limit: nat, paths: seq<Path>)
    requires path.nodes != [] && |path.relations| < maxDepth
    ensures Run(Branches(adj, target, maxDepth, path, []), limit, paths) == Outcome(paths, false, None)
  {
  }

  // ----- the search -----

  class PathSearch<!E> {
    const adj: Adjacency<E>
    const target: nat
    const maxDepth: nat
    const limit: nat
    var paths: seq<Path>
    var truncated: bool
    var nodes: seq<nat>
    var relations: seq<nat>
    const visited: array<bool>

    ghost predicate InRange() {
      forall u: nat, j :: u < visited.Length && adj(u).Success? && 0 <= j < |adj(u).value| ==>
        adj(u).value[j].0 < visited.Length
    }

    /** `visited` marks exactly the nodes on the current path. */
    ghost predicate Valid()
      reads this, visited
    {
      && InRange()
      && |nodes| == |relations| + 1
      && (forall v :: v in nodes ==> v < visited.Length)
      && (forall v: nat :: v < visited.Length ==> (visited[v] <==> v in nodes))
    }

    ghost function Current(): Path
      reads this
    {
      Path(nodes, relations)
    }

    constructor (adj: Adjacency<E>, nodeCount: nat, start: nat, target: nat, maxDepth: nat, limit: nat)
      requires start < nodeCount
      requires forall u: nat, j :: u < nodeCount && adj(u).Success? && 0 <= j < |adj(u).value| ==>
        adj(u).value[j].0 < nodeCount
      ensures Valid() && fresh(visited)
      ensures paths == [] && !truncated && nodes == [start] && relations == []
      ensures this.adj == adj && this.target == target && this.maxDepth == maxDepth && this.limit == limit
    {
      this.adj, this.target, this.maxDepth, this.limit := adj, target, maxDepth, limit;
      paths, truncated, nodes, relations := [], false, [start], [];
      visited := new bool[nodeCount](_ => false);
      new;
      visited[start] := true;
    }

    /** The outcome so far, when nothing has failed. */
    ghost function So(): Outcome<E>
      reads this
    {
      Outcome(paths, truncated, None)
    }

    method Walk(current: nat) returns (r: Result<(), E>)
      requires Valid() && current == nodes[|nodes| - 1] && !truncated
      modifies this, visited
      ensures paths == Run(Events(adj, target, maxDepth, old(Current())), limit, old(paths)).paths
      ensures r.Success? ==> So() == Run(Events(adj, target, maxDepth, old(Current())), limit, old(paths))
      ensures r.Failure? ==>
        Run(Events(adj, target, maxDepth, old(Current())), limit, old(paths)).error == Some(r.error)
      ensures r.Success? ==> Valid() && Current() == old(Current()) && (truncated ==> |paths| >= limit)
      decreases Room(maxDepth, relations), 2
    {
      ghost var path := Current();
      ghost var events := Events(adj, target, maxDepth, path);
      RunProbe(events[1..], limit, paths);
      assert events == [Probe] + events[1..];
      if |paths| >= limit {
        truncated := true;
        return Success(());
      }
      if current == target {
        assert events[1..] == [Found(path)];
        paths := paths + [Path(nodes, relations)];
        return Success(());
      }
      if |relations| >= maxDepth {
        return Success(());
      }
      var neighbors := adj(current);
      if neighbors.Failure? {
        assert events[1..] == [Fail(neighbors.error)];
        return Failure(neighbors.error);
      }
      assert events[1..] == Branches(adj, target, maxDepth, path, neighbors.value);
      assert current in nodes;
      r := WalkBranches(neighbors.value);
    }

    /** The loop of `walk` over the neighbours of the current node. */
    method WalkBranches(neighbors: seq<(nat, nat)>) returns (r: Result<(), E>)
      requires Valid() && |relations| < maxDepth && !truncated
      requires forall j :: 0 <= j < |neighbors| ==> neighbors[j].0 < visited.Length
      modifies this, visited
      ensures paths == Run(Branches(adj, target, maxDepth, old(Current()), neighbors), limit, old(paths)).paths
      ensures r.Success? ==> So() == Run(Branches(adj, target, maxDepth, old(Current()), neighbors), limit, old(paths))
      ensures r.Failure? ==>
        Run(Branches(adj, target, maxDepth, old(Current()), neighbors), limit, old(paths)).error == Some(r.error)
      ensures r.Success? ==> Valid() && Current() == old(Current()) && (truncated ==> |paths| >= limit)
      decreases Room(maxDepth, relations), 1
    {
      hide Events, Branches, Run;
      ghost var path := Current();
      ghost var out := Run(Branches(adj, target, maxDepth, path, neighbors), limit, paths);
      var j := 0;
      assert neighbors[0..] == neighbors;
      while j < |neighbors|
        invariant 0 <= j <= |neighbors| && Valid() && Current() == path
        invariant truncated ==> |paths| >= limit
        invariant Resume(So(), Branches(adj, target, maxDepth, path, neighbors[j..]), limit) == out
      {
        RunBranch(adj, target, maxDepth, path, neighbors, j, limit, paths);
        if |paths| >= limit {
          truncated := true;
          return Success(());
        }
        var (neighbor, relation) := neighbors[j];
        if !visited[neighbor] {
          r := Visit(neighbor, relation);
          if r.Failure? { return; }
        }
        j := j + 1;
      }
      assert neighbors[j..] == [];
      RunNothing(adj, target, maxDepth, path, limit, paths);
      return Success(());
    }

    /** Push a neighbour, search from it, and take it off again. */
    method Visit(neighbor: nat, relation: nat) returns (r: Result<(), E>)
      requires Valid() && |relations| < maxDepth && !truncated
      requires neighbor < visited.Length && !visited[neighbor]
      modifies this, visited
      ensures var out := Run(Events(adj, target, maxDepth, Extend(old(Current()), (neighbor, relation))), limit, old(paths));
        && paths == out.paths
        && (r.Success? ==> So() == out)
        && (r.Failure? ==> out.error == Some(r.error))
      ensures r.Success? ==> Valid() && Current() == old(Current()) && (truncated ==> |paths| >= limit)
      decreases Room(maxDepth, relations), 0
    {
      hide Events, Run;
      visited[neighbor] := true;
      nodes := nodes + [neighbor];
      relations := relations + [relation];
      r := Walk(neighbor);
      if r.Failure? { return; }
      relations := relations[..|relations| - 1];
      nodes := nodes[..|nodes| - 1];
      visited[neighbor] := false;
    }
  }

  // ----- what the unlimited search finds -----

  ghost function PathsIn<E>(events: seq<Event<E>>): seq<Path> {
    if events == [] then []
    else (if events[0].Found? then [events[0].path] else []) + PathsIn(events[1..])
  }

  lemma {:induction false} FoundAppend<E>(a: seq<Event<E>>, b: seq<Event<E>>)
    ensures PathsIn(a + b) == PathsIn(a) + PathsIn(b)
  {
    if a == [] {
      assert a + b == b;
    } else {
      assert (a + b)[0] == a[0] && (a + b)[1..] == a[1..] + b;
      FoundAppend(a[1..], b);
      var first: seq<Path> := if a[0].Found? then [a[0].path] else [];
      assert PathsIn(a + b) == first + PathsIn(a[1..] + b);
      assert PathsIn(a) == first + PathsIn(a[1..]);
    }
  }

  ghost predicate Trail<E>(adj: Adjacency<E>, p: Path) {
    && |p.nodes| == |p.relations| + 1
    && (forall i :: 0 <= i < |p.relations| ==>
          adj(p.nodes[i]).Success? && (p.nodes[i + 1], p.relations[i]) in adj(p.nodes[i]).value)
    && (forall i, j :: 0 <= i < j < |p.nodes| ==> p.nodes[i] != p.nodes[j])
  }

  /** A node-simple path from start to target with at most maxDepth edges. */
  ghost predicate SimplePath<E>(adj: Adjacency<E>, start: nat, target: nat, maxDepth: nat, p: Path) {
    Trail(adj, p) && p.nodes[0] == start && p.nodes[|p.relations|] == target && |p.relations| <= maxDepth
  }

  ghost predicate Prefix(p: Path, q: Path) {
    p.nodes <= q.nodes && p.relations <= q.relations
  }

  /** `q` is a way of finishing `p`. */
  ghost predicate Finishes<E>(adj: Adjacency<E>, target: nat, maxDepth: nat, p: Path, q: Path) {
    Trail(adj, q) && Prefix(p, q) && q.nodes[|q.relations|] == target && |q.relations| <= maxDepth
  }

  ghost predicate FinishesVia<E>(adj: Adjacency<E>, target: nat, maxDepth: nat, p: Path, neighbors: seq<(nat, nat)>,
                                 q: Path) {
    && |p.relations| < |q.relations| && |p.nodes| < |q.nodes|
    && Finishes(adj, target, maxDepth, p, q)
    && (q.nodes[|p.nodes|], q.relations[|p.relations|]) in neighbors
  }

  lemma {:induction false} EventsExact<E>(adj: Adjacency<E>, target: nat, maxDepth: nat, p: Path, q: Path)
    requires Trail(adj, p) && |p.relations| <= maxDepth
    ensures q in PathsIn(Events(adj, target, maxDepth, p)) <==> Finishes(adj, target, maxDepth, p, q)
    decreases Room(maxDepth, p.relations), 1, 0
  {
    var current := p.nodes[|p.relations|];
    var events := Events(adj, target, maxDepth, p);
    FoundAppend([Probe], events[1..]);
    assert events == [Probe] + events[1..];
    if Finishes(adj, target, maxDepth, p, q) {
      assert q.nodes[|p.relations|] == current;
      if |q.relations| == |p.relations| { assert q == p; }
    }
    if current == target {
      assert events[1..] == [Found(p)];
      assert PathsIn(events[1..]) == [p];
    } else if |p.relations| < maxDepth && adj(current).Success? {
      BranchesExact(adj, target, maxDepth, p, adj(current).value, q);
    }
  }

  lemma {:induction false} BranchesExact<E>(adj: Adjacency<E>, target: nat, maxDepth: nat, p: Path,
                                            neighbors: seq<(nat, nat)>, q: Path)
    requires Trail(adj, p) && |p.relations| < maxDepth && adj(p.nodes[|p.relations|]).Success?
    requires forall step :: step in neighbors ==> step in adj(p.nodes[|p.relations|]).value
    ensures q in PathsIn(Branches(adj, target, maxDepth, p, neighbors)) <==>
            FinishesVia(adj, target, maxDepth, p, neighbors, q)
    decreases Room(maxDepth, p.relations), 0, |neighbors|
  {
    if neighbors != [] {
      var step := neighbors[0];
      var here := if step.0 in p.nodes then [] else Events(adj, target, maxDepth, Extend(p, step));
      var rest := Branches(adj, target, maxDepth, p, neighbors[1..]);
      FoundAppend([Probe] + here, rest);
      FoundAppend([Probe], here);
      assert neighbors == [step] + neighbors[1..];
      BranchesExact(adj, target, maxDepth, p, neighbors[1..], q);
      FirstBranch(adj, target, maxDepth, p, step, q);
    }
  }

  lemma {:induction false} FirstBranch<E>(adj: Adjacency<E>, target: nat, maxDepth: nat, p: Path, step: (nat, nat), q: Path)
    requires Trail(adj, p) && |p.relations| < maxDepth && adj(p.nodes[|p.relations|]).Success?
    requires step in adj(p.nodes[|p.relations|]).value
    ensures step.0 !in p.nodes ==> (q in PathsIn(Events(adj, target, maxDepth, Extend(p, step))) <==>
                                    FinishesVia(adj, target, maxDepth, p, [step], q))
    ensures step.0 in p.nodes ==> !FinishesVia(adj, target, maxDepth, p, [step], q)
    decreases Room(maxDepth, p.relations), 0, 0
  {
    if step.0 in p.nodes {
      var i :| 0 <= i < |p.nodes| && p.nodes[i] == step.0;
      assert Trail(adj, q) && Prefix(p, q) && |p.nodes| < |q.nodes| ==> q.nodes[i] != q.nodes[|p.nodes|];
    } else {
      EventsExact(adj, target, maxDepth, Extend(p, step), q);
    }
  }

  // ----- the effect of the limit -----

  /** Every path met is announced by a test of the limit. */
  ghost predicate Guarded<E>(events: seq<Event<E>>) {
    forall i :: 0 <= i < |events| && events[i].Found? ==> i > 0 && events[i - 1] == Probe
  }

  lemma {:induction false} EventsGuarded<E>(adj: Adjacency<E>, target: nat, maxDepth: nat, p: Path)
    requires p.nodes != []
    ensures Guarded(Events(adj, target, maxDepth, p))
    decreases Room(maxDepth, p.relations), 1, 0
  {
    var current := p.nodes[|p.nodes| - 1];
    if current != target && |p.relations| < maxDepth && adj(current).Success? {
      BranchesGuarded(adj, target, maxDepth, p, adj(current).value);
    }
  }

  lemma {:induction false} BranchesGuarded<E>(adj: Adjacency<E>, target: nat, maxDepth: nat, p: Path,
                                              neighbors: seq<(nat, nat)>)
    requires p.nodes != [] && |p.relations| < maxDepth
    ensures Guarded(Branches(adj, target, maxDepth, p, neighbors))
    decreases Room(maxDepth, p.relations), 0, |neighbors|
  {
    if neighbors != [] {
      if neighbors[0].0 !in p.nodes { EventsGuarded(adj, target, maxDepth, Extend(p, neighbors[0])); }
      BranchesGuarded(adj, target, maxDepth, p, neighbors[1..]);
    }
  }

  /** Without a failure the search keeps exactly the first paths of the full list, up to the limit. */
  lemma {:induction false} RunKeepsPrefix<E>(events: seq<Event<E>>, limit: nat, paths: seq<Path>)
    requires Guarded(events) && |paths| <= limit
    ensures var out := Run(events, limit, paths);
      && |paths| <= |out.paths| <= limit
      && |out.paths| - |paths| <= |PathsIn(events)|
      && out.paths == paths + PathsIn(events)[..|out.paths| - |paths|]
      && (out.truncated ==> |out.paths| == limit)
      && (!out.Stopped() ==> out.paths == paths + PathsIn(events))
  {
    if events != [] && events[0] == Probe && |paths| < limit {
      if |events| > 1 && events[1].Found? {
        assert events[1..][1..] == events[2..];
        forall i | 0 <= i < |events[2..]| && events[2..][i].Found? ensures i > 0 && events[2..][i - 1] == Probe {
          assert events[i + 2 - 1] == Probe;
        }
        RunKeepsPrefix(events[2..], limit, paths + [events[1].path]);
      } else {
        forall i | 0 <= i < |events[1..]| && events[1..][i].Found? ensures i > 0 && events[1..][i - 1] == Probe {
          assert events[i + 1 - 1] == Probe;
        }
        RunKeepsPrefix(events[1..], limit, paths);
      }
    }
  }

  /** When the list has room for exactly the paths there are, the flag is set exactly when something follows the last one. */
  lemma RunToTheEnd<E>(events: seq<Event<E>>, limit: nat)
    requires Guarded(events) && |PathsIn(events)| == limit > 0 && Run(events, limit, []).error.None?
    ensures events != []
    ensures Run(events, limit, []).truncated <==> !events[|events| - 1].Found?
  {
    var init, last := events[..|events| - 1], events[|events| - 1];
    assert events == init + [last];
    RunAppend(init, [last], limit, []);
    FoundAppend(init, [last]);
    RunKeepsPrefix(init, limit, []);
    assert [last][1..] == [];
    if last.Found? {
      assert PathsIn([last]) == [last.path];
      var before := Run(init, limit, []);
      assert |before.paths| < limit && !before.Stopped();
      assert Run([last], limit, before.paths) == Outcome(before.paths + [last.path], false, None);
    } else {
      assert PathsIn([last]) == [];
    }
  }

  /** From its `from`-th node on, the path takes the last way out of every node. */
  ghost predicate LastOutFrom<E>(adj: Adjacency<E>, p: Path, from: nat) {
    forall i :: from <= i < |p.relations| && i + 1 < |p.nodes| ==> LastStep(adj, p.nodes[i], (p.nodes[i + 1], p.relations[i]))
  }

  predicate LastStep<E>(adj: Adjacency<E>, node: nat, step: (nat, nat)) {
    var out := adj(node);
    out.Success? && out.value != [] && out.value[|out.value| - 1] == step
  }

  /** Every step of the path is the last entry of its node's neighbours. */
  ghost predicate LastOut<E>(adj: Adjacency<E>, p: Path) {
    LastOutFrom(adj, p, 0)
  }

  /** The list of events ends with its last path exactly when that path takes the last way out everywhere. */
  ghost predicate EndsWith<E>(adj: Adjacency<E>, events: seq<Event<E>>, from: nat) {
    var found := PathsIn(events);
    && (events != [] && events[|events| - 1].Found? ==>
          found != [] && found[|found| - 1] == events[|events| - 1].path && LastOutFrom(adj, found[|found| - 1], from))
    && (found != [] && LastOutFrom(adj, found[|found| - 1], from) ==> events[|events| - 1].Found?)
  }

  lemma {:induction false} EventsEnd<E>(adj: Adjacency<E>, target: nat, maxDepth: nat, p: Path)
    requires Trail(adj, p) && |p.relations| <= maxDepth
    ensures EndsWith(adj, Events(adj, target, maxDepth, p), |p.relations|)
    decreases Room(maxDepth, p.relations), 1, 0
  {
    var current := p.nodes[|p.relations|];
    var events := Events(adj, target, maxDepth, p);
    assert events == [Probe] + events[1..];
    FoundAppend([Probe], events[1..]);
    if current == target {
      assert events[1..] == [Found(p)];
      assert PathsIn(events[1..]) == [p];
    } else if |p.relations| < maxDepth && adj(current).Success? {
      BranchesEnd(adj, target, maxDepth, p, adj(current).value);
    }
  }

  lemma {:induction false} BranchesEnd<E>(adj: Adjacency<E>, target: nat, maxDepth: nat, p: Path,
                                          neighbors: seq<(nat, nat)>)
    requires Trail(adj, p) && |p.relations| < maxDepth && adj(p.nodes[|p.relations|]).Success?
    requires forall step :: step in neighbors ==> step in adj(p.nodes[|p.relations|]).value
    requires neighbors != [] ==> LastStep(adj, p.nodes[|p.relations|], neighbors[|neighbors| - 1])
    ensures EndsWith(adj, Branches(adj, target, maxDepth, p, neighbors), |p.relations|)
    decreases Room(maxDepth, p.relations), 0, |neighbors|
  {
    if neighbors != [] {
      var step := neighbors[0];
      var here := if step.0 in p.nodes then [] else Events(adj, target, maxDepth, Extend(p, step));
      var rest := Branches(adj, target, maxDepth, p, neighbors[1..]);
      var events := Branches(adj, target, maxDepth, p, neighbors);
      assert events == [Probe] + here + rest;
      FoundAppend([Probe] + here, rest);
      FoundAppend([Probe], here);
      if |neighbors| > 1 {
        BranchesEnd(adj, target, maxDepth, p, neighbors[1..]);
        var found := PathsIn(events);
        if found != [] && PathsIn(rest) == [] {
          var q := found[|found| - 1];
          EarlierBranch(adj, target, maxDepth, p, neighbors, q);
        }
      } else {
        assert neighbors[1..] == [];
        if step.0 !in p.nodes { LastBranch(adj, target, maxDepth, p, step); }
      }
    }
  }

  /** A path of the first branch only, though there are others, does not take the last way out. */
  lemma {:induction false} EarlierBranch<E>(adj: Adjacency<E>, target: nat, maxDepth: nat, p: Path,
                                            neighbors: seq<(nat, nat)>, q: Path)
    requires Trail(adj, p) && |p.relations| < maxDepth && adj(p.nodes[|p.relations|]).Success?
    requires forall step :: step in neighbors ==> step in adj(p.nodes[|p.relations|]).value
    requires |neighbors| > 1 && LastStep(adj, p.nodes[|p.relations|], neighbors[|neighbors| - 1])
    requires q in PathsIn(Branches(adj, target, maxDepth, p, neighbors))
    requires q !in PathsIn(Branches(adj, target, maxDepth, p, neighbors[1..]))
    ensures !LastOutFrom(adj, q, |p.relations|)
  {
    BranchesExact(adj, target, maxDepth, p, neighbors, q);
    BranchesExact(adj, target, maxDepth, p, neighbors[1..], q);
    var at := |p.relations|;
    assert q.nodes[at] == p.nodes[at];
    assert neighbors[1..][|neighbors| - 2] == neighbors[|neighbors| - 1];
    assert !LastStep(adj, q.nodes[at], (q.nodes[at + 1], q.relations[at]));
  }

  lemma {:induction false} LastBranch<E>(adj: Adjacency<E>, target: nat, maxDepth: nat, p: Path, step: (nat, nat))
    requires Trail(adj, p) && |p.relations| < maxDepth && step.0 !in p.nodes
    requires LastStep(adj, p.nodes[|p.relations|], step)
    ensures EndsWith(adj, Events(adj, target, maxDepth, Extend(p, step)), |p.relations|)
    decreases Room(maxDepth, p.relations), 0, 0
  {
    var next, at := Extend(p, step), |p.relations|;
    EventsEnd(adj, target, maxDepth, next);
    var found := PathsIn(Events(adj, target, maxDepth, next));
    if found != [] {
      var q := found[|found| - 1];
      EventsExact(adj, target, maxDepth, next, q);
      assert next.nodes[at] == p.nodes[at] && next.nodes[at + 1] == step.0 && next.relations[at] == step.1;
      assert q.nodes[at] == next.nodes[at] && q.nodes[at + 1] == next.nodes[at + 1] && q.relations[at] == next.relations[at];
      assert LastOutFrom(adj, q, at) <==> LastOutFrom(adj, q, at + 1);
    }
  }

  // ----- failures -----

  /** A failure met is the adjacency failure of a node at the end of some trail with depth to spare. */
  lemma {:induction false} FailuresReal<E>(adj: Adjacency<E>, target: nat, maxDepth: nat, p: Path, e: E)
    returns (q: Path)
    requires Trail(adj, p) && Fail(e) in Events(adj, target, maxDepth, p)
    ensures Trail(adj, q) && Prefix(p, q) && |q.relations| < maxDepth && adj(q.nodes[|q.relations|]) == Failure(e)
    decreases Room(maxDepth, p.relations), 1, 0
  {
    var current := p.nodes[|p.nodes| - 1];
    if adj(current) == Failure(e) {
      q := p;
    } else {
      q := BranchFailuresReal(adj, target, maxDepth, p, adj(current).value, e);
    }
  }

  lemma {:induction false} BranchFailuresReal<E>(adj: Adjacency<E>, target: nat, maxDepth: nat, p: Path,
                                                 neighbors: seq<(nat, nat)>, e: E)
    returns (q: Path)
    requires Trail(adj, p) && |p.relations| < maxDepth && adj(p.nodes[|p.relations|]).Success?
    requires forall step :: step in neighbors ==> step in adj(p.nodes[|p.relations|]).value
    requires Fail(e) in Branches(adj, target, maxDepth, p, neighbors)
    ensures Trail(adj, q) && Prefix(p, q) && |q.relations| < maxDepth && adj(q.nodes[|q.relations|]) == Failure(e)
    decreases Room(maxDepth, p.relations), 0, |neighbors|
  {
    if neighbors[0].0 !in p.nodes && Fail(e) in Events(adj, target, maxDepth, Extend(p, neighbors[0])) {
      q := FailuresReal(adj, target, maxDepth, Extend(p, neighbors[0]), e);
    } else {
      q := BranchFailuresReal(adj, target, maxDepth, p, neighbors[1..], e);
    }
  }

  lemma {:induction false} RunErrorMet<E>(events: seq<Event<E>>, limit: nat, paths: seq<Path>)
    requires Run(events, limit, paths).error.Some?
    ensures Fail(Run(events, limit, paths).error.value) in events
  {
    match events[0]
    case Probe => RunErrorMet(events[1..], limit, paths);
    case Found(path) => RunErrorMet(events[1..], limit, paths + [path]);
    case Fail(e) =>
  }

  // ----- no path twice -----

  lemma DistinctAppend<T>(a: seq<T>, b: seq<T>)
    requires Distinct(a) && Distinct(b)
    requires forall x :: x in a ==> x !in b
    ensures Distinct(a + b)
  {
    forall i, j | 0 <= i < j < |a + b| ensures (a + b)[i] != (a + b)[j] {
      if i < |a| <= j { assert a[i] in a && b[j - |a|] in b; }
    }
  }

  lemma {:induction false} EventsDistinct<E>(adj: Adjacency<E>, target: nat, maxDepth: nat, p: Path)
    requires Trail(adj, p) && |p.relations| <= maxDepth
    requires forall u :: adj(u).Success? ==> Distinct(adj(u).value)
    ensures Distinct(PathsIn(Events(adj, target, maxDepth, p)))
    decreases Room(maxDepth, p.relations), 1, 0
  {
    var current := p.nodes[|p.relations|];
    var events := Events(adj, target, maxDepth, p);
    FoundAppend([Probe], events[1..]);
    assert events == [Probe] + events[1..];
    if current == target {
      assert PathsIn(events[1..]) == [p];
    } else if |p.relations| < maxDepth && adj(current).Success? {
      BranchesDistinct(adj, target, maxDepth, p, adj(current).value);
    }
  }

  lemma {:induction false} BranchesDistinct<E>(adj: Adjacency<E>, target: nat, maxDepth: nat, p: Path,
                                               neighbors: seq<(nat, nat)>)
    requires Trail(adj, p) && |p.relations| < maxDepth && adj(p.nodes[|p.relations|]).Success?
    requires forall u :: adj(u).Success? ==> Distinct(adj(u).value)
    requires Distinct(neighbors) && forall step :: step in neighbors ==> step in adj(p.nodes[|p.relations|]).value
    ensures Distinct(PathsIn(Branches(adj, target, maxDepth, p, neighbors)))
    decreases Room(maxDepth, p.relations), 0, |neighbors|
  {
    if neighbors != [] {
      var step := neighbors[0];
      var here := if step.0 in p.nodes then [] else Events(adj, target, maxDepth, Extend(p, step));
      var rest := Branches(adj, target, maxDepth, p, neighbors[1..]);
      FoundAppend([Probe] + here, rest);
      FoundAppend([Probe], here);
      BranchesDistinct(adj, target, maxDepth, p, neighbors[1..]);
      if step.0 !in p.nodes { EventsDistinct(adj, target, maxDepth, Extend(p, step)); }
      assert step !in neighbors[1..];
      forall q | q in PathsIn(here) ensures q !in PathsIn(rest) {
        FirstBranch(adj, target, maxDepth, p, step, q);
        BranchesExact(adj, target, maxDepth, p, neighbors[1..], q);
      }
      assert PathsIn([Probe] + here) == PathsIn(here);
      assert Branches(adj, target, maxDepth, p, neighbors) == [Probe] + here + rest;
      DistinctAppend(PathsIn(here), PathsIn(rest));
    }
  }

  // ----- the query -----

  ghost function AllPaths<E>(adj: Adjacency<E>, start: nat, target: nat, maxDepth: nat): seq<Path> {
    PathsIn(Events(adj, target, maxDepth, Path([start], [])))
  }

  /** The depth-first list holds every simple path within the bound, and, for duplicate-free adjacency, holds it once. */
  lemma AllPathsComplete<E>(adj: Adjacency<E>, start: nat, target: nat, maxDepth: nat)
    ensures forall p :: p in AllPaths(adj, start, target, maxDepth) <==> SimplePath(adj, start, target, maxDepth, p)
    ensures (forall u :: adj(u).Success? ==> Distinct(adj(u).value)) ==>
      Distinct(AllPaths(adj, start, target, maxDepth))
  {
    var root := Path([start], []);
    forall p ensures p in AllPaths(adj, start, target, maxDepth) <==> SimplePath(adj, start, target, maxDepth, p) {
      EventsExact(adj, target, maxDepth, root, p);
    }
    if forall u :: adj(u).Success? ==> Distinct(adj(u).value) {
      EventsDistinct(adj, target, maxDepth, root);
    }
  }

  /** What the search leaves: the paths kept, the flag, or the error it stopped at. */
  ghost function Answer<E>(adj: Adjacency<E>, start: nat, target: nat, maxDepth: nat, limit: nat): Outcome<E> {
    Run(Events(adj, target, maxDepth, Path([start], [])), limit, [])
  }

  /**
   The graphs on which an answer is reported as truncated: there are more paths than the limit, or exactly
   as many and the last of them does not take the last way out of each of its nodes.
   */
  ghost predicate Truncates<E>(adj: Adjacency<E>, all: seq<Path>, limit: nat) {
    limit == 0 || |all| > limit || (|all| == limit && !LastOut(adj, all[|all| - 1]))
  }

  /**
   The flag is set exactly on these graphs; so it is set although nothing was cut off exactly when there are
   as many paths as the limit, and there are none or the last of them leaves some node by an earlier way.
   */
  lemma TruncatedExactly<E>(adj: Adjacency<E>, start: nat, target: nat, maxDepth: nat, limit: nat)
    requires Answer(adj, start, target, maxDepth, limit).error.None?
    ensures var out, all := Answer(adj, start, target, maxDepth, limit), AllPaths(adj, start, target, maxDepth);
      && (out.truncated <==> Truncates(adj, all, limit))
      && (out.truncated && out.paths == all <==> |all| == limit && (limit == 0 || !LastOut(adj, all[|all| - 1])))
  {
    var root := Path([start], []);
    var events := Events(adj, target, maxDepth, root);
    EventsGuarded(adj, target, maxDepth, root);
    RunKeepsPrefix(events, limit, []);
    EventsEnd(adj, target, maxDepth, root);
    if |PathsIn(events)| == limit > 0 { RunToTheEnd(events, limit); }
  }

  method Paths<E>(adj: Adjacency<E>, nodeCount: nat, start: nat, target: nat, maxDepth: nat, limit: nat)
    returns (r: Result<(seq<Path>, bool), E>)
    requires start < nodeCount
    requires forall u: nat, j :: u < nodeCount && adj(u).Success? && 0 <= j < |adj(u).value| ==>
      adj(u).value[j].0 < nodeCount
    ensures var all := AllPaths(adj, start, target, maxDepth);
      && (r.Success? ==> r.value.0 == all[..if limit < |all| then limit else |all|])
      && (r.Success? ==> (r.value.1 <==> Truncates(adj, all, limit)))
      && (r.Success? && r.value.1 ==> |r.value.0| == limit)
      && (r.Success? && !r.value.1 ==> r.value.0 == all)
    ensures var out := Answer(adj, start, target, maxDepth, limit);
      if r.Success? then out == Outcome(r.value.0, r.value.1, None) else out.error == Some(r.error)
    ensures r.Failure? ==>
      exists q :: Trail(adj, q) && q.nodes[0] == start && |q.relations| < maxDepth && adj(q.nodes[|q.relations|]) == Failure(r.error)
  {
    var search := new PathSearch(adj, nodeCount, start, target, maxDepth, limit);
    ghost var root := Path([start], []);
    ghost var events := Events(adj, target, maxDepth, root);
    EventsGuarded(adj, target, maxDepth, root);
    RunKeepsPrefix(events, limit, []);
    var outcome := search.Walk(start);
    if outcome.Failure? {
      RunErrorMet(events, limit, []);
      var q := FailuresReal(adj, target, maxDepth, root, outcome.error);
      return Failure(outcome.error);
    }
    TruncatedExactly(adj, start, target, maxDepth, limit);
    return Success((search.paths, search.truncated));
  }

  /** The flag may be set although nothing was cut off: here the only path is found, and the limit met, too early. */
  lemma TruncatedButComplete()
    ensures var adj: Adjacency<()> := (u: nat) => if u == 0 then Success([(1, 7), (2, 7)]) else Success([]);
      && |AllPaths(adj, 0, 1, 3)| == 1
      && Answer(adj, 0, 1, 3, 1) == Outcome(AllPaths(adj, 0, 1, 3), true, None)
  {
    var adj: Adjacency<()> := (u: nat) => if u == 0 then Success([(1, 7), (2, 7)]) else Success([]);
    var root := Path([0], []);
    var one, two := Extend(root, (1, 7)), Extend(root, (2, 7));
    assert Events(adj, 1, 3, one) == [Probe, Found(one)];
    assert Events(adj, 1, 3, two) == [Probe];
    var n: seq<(nat, nat)> := [(1, 7), (2, 7)];
    assert n[1..] == [(2, 7)] && n[1..][1..] == [];
    assert Branches(adj, 1, 3, root, n[1..]) == [Probe, Probe];
    assert Branches(adj, 1, 3, root, n) == [Probe] + [Probe, Found(one)] + [Probe, Probe];
    var events := Events(adj, 1, 3, root);
    assert events == [Probe, Probe, Probe, Found(one), Probe, Probe];
    assert events[1..][1..][1..] == [Found(one), Probe, Probe];
    assert events[1..][1..][1..][1..] == [Event<()>.Probe, Probe];
  }
}
