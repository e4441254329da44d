/**
 An edge between two files: it belongs to the file of its source, so that an update of that file alone takes it away, and
 an update of the other alone leaves it.
 */
module OwnerSample {
  import opened Wrappers
  import opened Lexicon
  import opened Facts
  import opened StoreContents

  /** "a.x" and "b.x". */
  const FIRST_FILE: Text := [97, 46, 120]
  const OTHER_FILE: Text := [98, 46, 120]

  function NodeIn(key: NodeKey, path: Text): StoredNode {
    StoredNode(key, seq(32, _ => 0), None, 5, path, [110], [110], None)
  }

  const FIRST := NodeIn(1, FIRST_FILE)
  const OTHER := NodeIn(2, OTHER_FILE)

  /** A call from the first to the other, without a span. */
  const CALL := EdgeFact(1, 2, 4, None)

  const BOTH := Part({FIRST, OTHER}, {CALL}, {})

  lemma FilesNamed()
    ensures NodeOwner(FIRST) == Some(FIRST_FILE) && NodeOwner(OTHER) == Some(OTHER_FILE) && FIRST_FILE != OTHER_FILE
  {
    hide NodeOwner;
    NodeOwnerExact(FIRST);
    NodeOwnerExact(OTHER);
    assert NameFrom(FIRST_FILE, 0) && NameFrom(OTHER_FILE, 0);
    assert FIRST_FILE[0..][0] == 97 && OTHER_FILE[0..][0] == 98;
    assert FIRST_FILE[1] == 46 && OTHER_FILE[1] == 46;
    assert NamesExtension(FIRST_FILE) && NamesExtension(OTHER_FILE);
  }

  lemma CallOfFirst()
    ensures EdgeOfFile(BOTH.nodes, CALL, FIRST_FILE) && !EdgeOfFile(BOTH.nodes, CALL, OTHER_FILE)
  {
    hide NodeOwner;
    FilesNamed();
    assert FIRST in BOTH.nodes && KeyOfFile(BOTH.nodes, 1, FIRST_FILE);
  }

  /** An update of the file of the source, without the edge, removes it from graph and store. */
  lemma TakenWithItsSource()
    ensures var c, delta := Compiled(BOTH), Part({FIRST}, {}, {});
      var plan := PlanEdges(c, delta, {FIRST_FILE});
      && plan == Changes({}, {Link(1, 2, 4)})
      && CALL !in Updated(c, delta, {FIRST_FILE}, plan.added, plan.removed).edges
  {
    hide NodeOwner, EdgeOwnedAt, EdgeOfFile;
    FilesNamed();
    CallOfFirst();
    var c, delta := Compiled(BOTH), Part({FIRST}, {}, {});
    OwnedExact(c.nodes, {FIRST_FILE});
    assert FIRST_FILE in {FIRST_FILE} && EdgeOwnedAt(c.nodes, CALL, {FIRST_FILE});
    assert OwnedEdges(c, {FIRST_FILE}) == {CALL};
    assert OwnedNodes(c.nodes, {FIRST_FILE}) == {FIRST} && OwnedNodes(delta.nodes, {FIRST_FILE}) == {FIRST};
    EndsHeld(c.nodes);
    LinkOfCall();
  }

  /** An update of the file of the target leaves it, though it is not read again. */
  lemma LeftWithItsTarget()
    ensures var c, delta := Compiled(BOTH), Part({OTHER}, {}, {});
      var plan := PlanEdges(c, delta, {OTHER_FILE});
      plan == Changes({}, {}) && CALL in Updated(c, delta, {OTHER_FILE}, plan.added, plan.removed).edges
  {
    hide NodeOwner, EdgeOwnedAt, EdgeOfFile;
    FilesNamed();
    CallOfFirst();
    var c, delta := Compiled(BOTH), Part({OTHER}, {}, {});
    OwnedExact(c.nodes, {OTHER_FILE});
    assert !EdgeOwnedAt(c.nodes, CALL, {OTHER_FILE});
    assert OwnedEdges(c, {OTHER_FILE}) == {};
    assert OwnedNodes(c.nodes, {OTHER_FILE}) == {OTHER} && OwnedNodes(delta.nodes, {OTHER_FILE}) == {OTHER};
    LinkOfCall();
  }

  lemma EndsHeld(nodes: set<StoredNode>)
    requires nodes == {FIRST, OTHER}
    ensures EndsIn({CALL}, Keys(nodes)) && EndsIn({}, Keys(nodes))
  {
    assert FIRST in nodes && OTHER in nodes;
    assert FIRST.key in Keys(nodes) && OTHER.key in Keys(nodes);
  }

  lemma LinkOfCall()
    ensures Links({CALL}) == {Link(1, 2, 4)} && Links({}) == {}
  {
    assert CALL in {CALL} && LinkOf(CALL) == Link(1, 2, 4);
    assert Link(1, 2, 4) in Links({CALL});
  }
}
