/**
 arcana/src/protocol/architecture_queries.rs, `graph_neighbors`: what there is to count in adjacency lists. A step is a
 node and a position in its list.
 */
module AdjacencySteps {
  import opened Wrappers
  import opened Ordering

  type Neighbors<!E> = nat -> Result<seq<(nat, nat)>, E>

  /** A condition on a step: its node, the node it leads to or comes from, and its relation. */
  type StepTest = (nat, nat, nat) -> bool

  ghost function Steps<E>(nodes: seq<nat>, lists: Neighbors<E>, test: StepTest): set<(nat, nat)> {
    set v: nat, j: nat | v in nodes && lists(v).Success? && j < |lists(v).value| && test(v, lists(v).value[j].0, lists(v).value[j].1)
      :: (v, j)
  }

  ghost function Positions(v: nat, list: seq<(nat, nat)>, test: StepTest): set<nat> {
    set j: nat | j < |list| && test(v, list[j].0, list[j].1)
  }

  lemma PositionsNext(v: nat, list: seq<(nat, nat)>, next: (nat, nat), test: StepTest)
    ensures |Positions(v, list + [next], test)| == |Positions(v, list, test)| + if test(v, next.0, next.1) then 1 else 0
  {
    var longer := list + [next];
    if test(v, next.0, next.1) {
      assert Positions(v, longer, test) == Positions(v, list, test) + {|list|};
    } else {
      assert Positions(v, longer, test) == Positions(v, list, test);
    }
  }

  ghost function Pairs(v: nat, positions: set<nat>): set<(nat, nat)> {
    set j | j in positions :: (v, j)
  }

  lemma {:induction false} PairsCount(v: nat, positions: set<nat>)
    ensures |Pairs(v, positions)| == |positions|
  {
    if positions != {} {
      var k :| k in positions;
      PairsCount(v, positions - {k});
      assert Pairs(v, positions) == Pairs(v, positions - {k}) + {(v, k)};
    }
  }

  lemma StepsNext<E>(nodes: seq<nat>, v: nat, lists: Neighbors<E>, test: StepTest)
    requires v !in nodes && lists(v).Success?
    ensures |Steps(nodes + [v], lists, test)| == |Steps(nodes, lists, test)| + |Positions(v, lists(v).value, test)|
  {
    var positions := Positions(v, lists(v).value, test);
    PairsCount(v, positions);
    var before, after := Steps(nodes, lists, test), Steps(nodes + [v], lists, test);
    forall e: (nat, nat) ensures e in after <==> e in before + Pairs(v, positions) {
      assert e.0 in nodes + [v] <==> e.0 in nodes || e.0 == v;
    }
    assert before !! Pairs(v, positions);
    assert after == before + Pairs(v, positions);
  }

  lemma NoStepsYet<E>(lists: Neighbors<E>, test: StepTest)
    ensures Steps([], lists, test) == {}
  {
  }

  lemma StepsAlike<E>(more: seq<nat>, nodes: seq<nat>, lists: Neighbors<E>, a: StepTest, b: StepTest)
    requires forall v: nat, t: nat, r: nat :: v in more && a(v, t, r) <==> v in nodes && b(v, t, r)
    ensures Steps(more, lists, a) == Steps(nodes, lists, b)
  {
  }

  // ----- counting in a list -----

  ghost function Tally<T>(s: seq<T>, test: T -> bool): nat {
    if s == [] then 0 else Tally(s[..|s| - 1], test) + if test(s[|s| - 1]) then 1 else 0
  }

  lemma {:induction false} TallyJoin<T>(a: seq<T>, b: seq<T>, test: T -> bool)
    ensures Tally(a + b, test) == Tally(a, test) + Tally(b, test)
    decreases |b|
  {
    if b == [] {
      assert a + b == a;
    } else {
      assert (a + b)[..|a + b| - 1] == a + b[..|b| - 1];
      TallyJoin(a, b[..|b| - 1], test);
    }
  }
}
