/**
 arcana/src/repository_store/build_ownership.rs, rewrite.rs and rewrite_records.rs, arcana/src/repository/incremental_local.rs
 and arcana/src/snapshot/overlay_validation.rs: what the store and the graph of a generation hold, what an
 update makes of them, and when it is refused.

 Records are told apart by node key, as the files do. The files behind the contents are not modelled. A graph
 is a packed base of links with one overlay of added and removed ones; it is what the store's edges are
 compared with when a generation is opened.
 */
module StoreContents {
  import opened Wrappers
  import opened Lexicon
  import opened Facts
  import opened StagedNodes
  import opened CompactLoad
  import opened TextSplit
  import opened RepositoryPath

  datatype StoredNode = StoredNode(key: NodeKey, identity: Identity, contentId: Option<ContentId>, kind: NodeKind, path: Text,
                                   name: Text, qualifiedName: Text, span: Option<SourceSpan>)

  /** An edge of the graph: several facts with different spans are one link. */
  datatype Link = Link(source: NodeKey, target: NodeKey, relation: RelationKind)

  /** The records some objects hold, converted. */
  datatype Part = Part(nodes: set<StoredNode>, edges: set<EdgeFact>, unresolved: set<UnresolvedFact>)

  /** The records of the store, the packed base of the graph, and its overlay. */
  datatype Contents = Contents(nodes: set<StoredNode>, edges: set<EdgeFact>, unresolved: set<UnresolvedFact>,
                               base: set<Link>, added: set<Link>, removed: set<Link>)

  function Stored(n: StagedNode): StoredNode {
    StoredNode(n.key, n.identity, n.contentId, n.kind, n.path, n.name, n.qualifiedName, n.span)
  }

  /** What a load holds. */
  function PartOf(c: Compact): Part {
    Part(set n | n in c.nodes :: Stored(n), set e | e in c.edges, set u | u in c.unresolved)
  }

  function StoreOf(c: Contents): Part {
    Part(c.nodes, c.edges, c.unresolved)
  }

  function LinkOf(e: EdgeFact): Link {
    Link(e.source, e.target, e.relation)
  }

  function Links(edges: set<EdgeFact>): set<Link> {
    set e | e in edges :: LinkOf(e)
  }

  function Keys(nodes: set<StoredNode>): set<NodeKey> {
    set n | n in nodes :: n.key
  }

  function Identities(nodes: set<StoredNode>): set<Identity> {
    set n | n in nodes :: n.identity
  }

  /** A full load, compiled: its links are the packed base. */
  function Compiled(part: Part): Contents {
    Contents(part.nodes, part.edges, part.unresolved, Links(part.edges), {}, {})
  }

  // ----- ownership -----

  const REPOSITORY: NodeKind := 0
  const DIRECTORY: NodeKind := 1
  const MODULE: NodeKind := 3
  const NAMESPACE: NodeKind := 4

  /** `Path::extension`: a dot in the last component, not at its beginning. */
  predicate HasExtension(path: Text) {
    var parts := Split(SLASH, path);
    var name := parts[|parts| - 1];
    name != DOTS && exists i :: 1 <= i < |name| && name[i] == 46
  }

  /** `compact_node_owner`: the file a node belongs to, if any. */
  function NodeOwner(n: StoredNode): Option<Text> {
    if n.span.Some? then Some(n.span.value.path)
    else if n.kind in {REPOSITORY, DIRECTORY, MODULE, NAMESPACE} || !HasExtension(n.path) then None
    else Some(n.path)
  }

  predicate NodeOwnedAt(n: StoredNode, paths: set<Text>) {
    NodeOwner(n).Some? && NodeOwner(n).value in paths
  }

  predicate KeyOwned(nodes: set<StoredNode>, key: NodeKey) {
    exists n :: n in nodes && n.key == key && NodeOwner(n).Some?
  }

  predicate KeyOwnedAt(nodes: set<StoredNode>, key: NodeKey, paths: set<Text>) {
    exists n :: n in nodes && n.key == key && NodeOwnedAt(n, paths)
  }

  /** `edge_owner`: the file of its span, or of its source, or of its target. */
  predicate EdgeOwnedAt(nodes: set<StoredNode>, e: EdgeFact, paths: set<Text>) {
    match e.span
    case Some(span) => span.path in paths
    case None => KeyOwnedAt(nodes, if KeyOwned(nodes, e.source) then e.source else e.target, paths)
  }

  predicate UnresolvedOwnedAt(nodes: set<StoredNode>, u: UnresolvedFact, paths: set<Text>) {
    match u.span
    case Some(span) => span.path in paths
    case None => KeyOwnedAt(nodes, u.source, paths)
  }

  function OwnedNodes(nodes: set<StoredNode>, paths: set<Text>): set<StoredNode> {
    set n | n in nodes && NodeOwnedAt(n, paths)
  }

  function OwnedEdges(c: Contents, paths: set<Text>): set<EdgeFact> {
    set e | e in c.edges && EdgeOwnedAt(c.nodes, e, paths)
  }

  function OwnedUnresolved(c: Contents, paths: set<Text>): set<UnresolvedFact> {
    set u | u in c.unresolved && UnresolvedOwnedAt(c.nodes, u, paths)
  }

  // ----- whose a record is -----

  /** A node with this key belongs to this file. */
  ghost predicate KeyOfFile(nodes: set<StoredNode>, key: NodeKey, path: Text) {
    exists n :: n in nodes && n.key == key && NodeOwner(n) == Some(path)
  }

  /**
   An edge with a span belongs to the file of the span; one without to the file of its source, if that has one, and
   otherwise to the file of its target.
   */
  ghost predicate EdgeOfFile(nodes: set<StoredNode>, e: EdgeFact, path: Text) {
    if e.span.Some? then e.span.value.path == path
    else if exists p :: KeyOfFile(nodes, e.source, p) then KeyOfFile(nodes, e.source, path)
    else KeyOfFile(nodes, e.target, path)
  }

  /** An unresolved reference belongs to the file of its span, or else to that of its source. */
  ghost predicate ReferenceOfFile(nodes: set<StoredNode>, u: UnresolvedFact, path: Text) {
    if u.span.Some? then u.span.value.path == path else KeyOfFile(nodes, u.source, path)
  }

  lemma KeysOfFiles(nodes: set<StoredNode>, key: NodeKey, paths: set<Text>)
    ensures KeyOwned(nodes, key) <==> exists p :: KeyOfFile(nodes, key, p)
    ensures KeyOwnedAt(nodes, key, paths) <==> exists p :: p in paths && KeyOfFile(nodes, key, p)
  {
    hide NodeOwner;
    if KeyOwned(nodes, key) {
      var n :| n in nodes && n.key == key && NodeOwner(n).Some?;
      assert KeyOfFile(nodes, key, NodeOwner(n).value);
    }
    if KeyOwnedAt(nodes, key, paths) {
      var n :| n in nodes && n.key == key && NodeOwnedAt(n, paths);
      assert KeyOfFile(nodes, key, NodeOwner(n).value);
    }
  }

  /** An update takes to be owned by its paths exactly the records that belong to one of these files. */
  lemma OwnedExact(nodes: set<StoredNode>, paths: set<Text>)
    ensures forall e :: EdgeOwnedAt(nodes, e, paths) <==> exists p :: p in paths && EdgeOfFile(nodes, e, p)
    ensures forall u :: UnresolvedOwnedAt(nodes, u, paths) <==> exists p :: p in paths && ReferenceOfFile(nodes, u, p)
  {
    hide KeyOwned, KeyOwnedAt, KeyOfFile;
    forall e ensures EdgeOwnedAt(nodes, e, paths) <==> exists p :: p in paths && EdgeOfFile(nodes, e, p) {
      KeysOfFiles(nodes, e.source, paths);
      KeysOfFiles(nodes, e.target, paths);
    }
    forall u ensures UnresolvedOwnedAt(nodes, u, paths) <==> exists p :: p in paths && ReferenceOfFile(nodes, u, p) {
      KeysOfFiles(nodes, u.source, paths);
    }
  }

  /** The file name of the path begins here: behind the last slash, or at the start. */
  predicate NameFrom(path: Text, k: nat) {
    k <= |path| && (k == 0 || path[k - 1] == 47) && forall i :: k <= i < |path| ==> path[i] != 47
  }

  /** The file name has a dot behind its first byte, and is not "..". */
  ghost predicate NamesExtension(path: Text) {
    exists k: nat :: NameFrom(path, k) && path[k..] != [46, 46] && exists i :: k < i < |path| && path[i] == 46
  }

  lemma {:induction false} LastPart(path: Text)
    ensures var parts := Split(SLASH, path);
      var name := parts[|parts| - 1];
      if |parts| == 1 then name == path
      else |name| < |path| && path[|path| - |name| - 1] == SLASH && path[|path| - |name|..] == name
  {
    if path != [] {
      LastPart(path[1..]);
      var rest := Split(SLASH, path[1..]);
      var tail := rest[|rest| - 1];
      assert path == [path[0]] + path[1..];
      if |rest| > 1 {
        assert path[|path| - |tail|..] == path[1..][|path| - 1 - |tail|..];
      }
    }
  }

  lemma ExtensionExact(path: Text)
    ensures HasExtension(path) <==> NamesExtension(path)
  {
    LastPart(path);
    SplitPlain(SLASH, path);
    var parts := Split(SLASH, path);
    var name := parts[|parts| - 1];
    assert name in parts;
    var at := |path| - |name|;
    assert path[at..] == name;
    assert NameFrom(path, at) by { forall i | at <= i < |path| ensures path[i] != 47 { assert path[i] == name[i - at]; } }
    if i :| 1 <= i < |name| && name[i] == 46 { assert path[at + i] == 46; }
    if k: nat, i :| NameFrom(path, k) && path[k..] != [46, 46] && k < i < |path| && path[i] == 46 {
      assert name[i - at] == 46;
    }
  }

  /**
   A node with a span belongs to the file of the span. One without belongs to none if it is a repository, a directory, a
   module or a namespace, and otherwise to its path if that names a file with an extension.
   */
  lemma NodeOwnerExact(n: StoredNode)
    ensures n.span.Some? ==> NodeOwner(n) == Some(n.span.value.path)
    ensures n.span.None? && (n.kind == 0 || n.kind == 1 || n.kind == 3 || n.kind == 4) ==> NodeOwner(n) == None
    ensures n.span.None? && !(n.kind == 0 || n.kind == 1 || n.kind == 3 || n.kind == 4) ==>
      NodeOwner(n) == if NamesExtension(n.path) then Some(n.path) else None
  {
    hide HasExtension, NamesExtension;
    ExtensionExact(n.path);
  }

  // ----- an update -----

  datatype EdgePlan = Changes(added: set<Link>, removed: set<Link>) | NodeSetChanged | MissingEndpoint

  /** The paths own the same nodes before and after. */
  predicate OwnTheSame(c: Contents, delta: Part, paths: set<Text>) {
    Keys(OwnedNodes(c.nodes, paths)) == Keys(OwnedNodes(delta.nodes, paths))
  }

  predicate EndsIn(edges: set<EdgeFact>, keys: set<NodeKey>) {
    forall e :: e in edges ==> e.source in keys && e.target in keys
  }

  /** `plan_compact_delta_edge_changes_from_store`. */
  function PlanEdges(c: Contents, delta: Part, paths: set<Text>): EdgePlan {
    if !OwnTheSame(c, delta, paths) then NodeSetChanged
    else if !EndsIn(OwnedEdges(c, paths), Keys(c.nodes)) || !EndsIn(delta.edges, Keys(c.nodes)) then MissingEndpoint
    else
      var before, after := Links(OwnedEdges(c, paths)), Links(delta.edges);
      Changes(after - before, before - after)
  }

  /** `rewrite_repository_store` puts the delta's nodes in the places of those the changed paths own, and of no other. */
  predicate RewriteAccepts(c: Contents, delta: Part, paths: set<Text>) {
    Keys(delta.nodes) <= Keys(OwnedNodes(c.nodes, paths))
  }

  /** `validate_membership`: an overlay removes links of the packed base, and adds others. */
  predicate GraphAccepts(c: Contents, added: set<Link>, removed: set<Link>) {
    removed <= c.base && added !! c.base
  }

  /** The contents an update leaves. The overlay is the new one: that of the previous generation is not kept. */
  function Updated(c: Contents, delta: Part, paths: set<Text>, added: set<Link>, removed: set<Link>): Contents {
    Contents(c.nodes - OwnedNodes(c.nodes, paths) + delta.nodes, c.edges - OwnedEdges(c, paths) + delta.edges,
             c.unresolved - OwnedUnresolved(c, paths) + delta.unresolved, c.base, added, removed)
  }

  /** Nothing but the contents makes an update of these paths fail, behind a delta that loads and an unchanged node set. */
  predicate Refused(c: Contents, delta: Part, paths: set<Text>) {
    match PlanEdges(c, delta, paths)
    case NodeSetChanged => false
    case MissingEndpoint => true
    case Changes(added, removed) => !RewriteAccepts(c, delta, paths) || !GraphAccepts(c, added, removed)
  }

  function Visible(c: Contents): set<Link> {
    c.base - c.removed + c.added
  }

  /**
   After an update, an earlier edge is still stored exactly when it belongs to none of the paths or is read again, and
   no edge is stored that is neither; likewise for nodes and unresolved references.
   */
  lemma UpdatedExact(c: Contents, delta: Part, paths: set<Text>, added: set<Link>, removed: set<Link>)
    ensures var after := Updated(c, delta, paths, added, removed);
      && after.base == c.base && after.added == added && after.removed == removed
      && (forall e :: e in after.edges <==> e in delta.edges || (e in c.edges && !exists p :: p in paths && EdgeOfFile(c.nodes, e, p)))
      && (forall u :: u in after.unresolved <==>
            u in delta.unresolved || (u in c.unresolved && !exists p :: p in paths && ReferenceOfFile(c.nodes, u, p)))
      && (forall n :: n in after.nodes <==>
            n in delta.nodes || (n in c.nodes && !(NodeOwner(n).Some? && NodeOwner(n).value in paths)))
  {
    hide EdgeOwnedAt, UnresolvedOwnedAt, EdgeOfFile, ReferenceOfFile, NodeOwner;
    OwnedExact(c.nodes, paths);
  }

  /** The source, target and relation of some of these edges. */
  ghost predicate Holds(edges: set<EdgeFact>, l: Link) {
    exists e :: e in edges && e.source == l.source && e.target == l.target && e.relation == l.relation
  }

  /** Some edge of these that belongs to the paths. */
  ghost predicate HoldsOwned(c: Contents, paths: set<Text>, l: Link) {
    exists e, p :: e in c.edges && p in paths && EdgeOfFile(c.nodes, e, p)
      && e.source == l.source && e.target == l.target && e.relation == l.relation
  }

  /** The overlay of an update adds what is read and was not owned, and removes what was owned and is not read. */
  lemma ChangesExact(c: Contents, delta: Part, paths: set<Text>)
    requires PlanEdges(c, delta, paths).Changes?
    ensures var plan := PlanEdges(c, delta, paths);
      && (forall l :: l in plan.added <==> Holds(delta.edges, l) && !HoldsOwned(c, paths, l))
      && (forall l :: l in plan.removed <==> HoldsOwned(c, paths, l) && !Holds(delta.edges, l))
  {
    hide EdgeOwnedAt, EdgeOfFile, EndsIn;
    OwnedExact(c.nodes, paths);
    var before, after := Links(OwnedEdges(c, paths)), Links(delta.edges);
    forall l ensures l in before <==> HoldsOwned(c, paths, l) {
      if l in before {
        var e :| e in OwnedEdges(c, paths) && LinkOf(e) == l;
        var p :| p in paths && EdgeOfFile(c.nodes, e, p);
      }
      if HoldsOwned(c, paths, l) {
        var e, p :| e in c.edges && p in paths && EdgeOfFile(c.nodes, e, p)
                    && e.source == l.source && e.target == l.target && e.relation == l.relation;
        assert e in OwnedEdges(c, paths) && LinkOf(e) == l;
      }
    }
    forall l ensures l in after <==> Holds(delta.edges, l) {
      if Holds(delta.edges, l) {
        var e :| e in delta.edges && e.source == l.source && e.target == l.target && e.relation == l.relation;
        assert LinkOf(e) == l;
      }
    }
  }

  /** What opening a generation compares: the graph shows the links of the store's edges. */
  predicate Coherent(c: Contents) {
    Links(c.edges) == Visible(c)
  }

  // ----- exactly when -----

  /** No two nodes have the same key. */
  ghost predicate OneNodePerKey(nodes: set<StoredNode>) {
    forall n, m :: n in nodes && m in nodes && n.key == m.key ==> n == m
  }

  lemma AscendingKeysOnce(c: Compact)
    requires KeysAscend(c.nodes)
    ensures OneNodePerKey(PartOf(c).nodes)
  {
    var nodes := PartOf(c).nodes;
    forall n, m | n in nodes && m in nodes && n.key == m.key ensures n == m {
      var i :| 0 <= i < |c.nodes| && Stored(c.nodes[i]) == n;
      var j :| 0 <= j < |c.nodes| && Stored(c.nodes[j]) == m;
      if i < j { assert c.nodes[i].key < c.nodes[j].key; }
      if j < i { assert c.nodes[j].key < c.nodes[i].key; }
    }
  }

  /** The rewrite is refused exactly when some node of the delta belongs to no changed path. */
  lemma RewriteExact(c: Contents, delta: Part, paths: set<Text>)
    requires OneNodePerKey(delta.nodes) && PlanEdges(c, delta, paths).Changes?
    ensures RewriteAccepts(c, delta, paths) <==> forall n :: n in delta.nodes ==> NodeOwnedAt(n, paths)
  {
    hide NodeOwnedAt, EndsIn;
    var owned := OwnedNodes(delta.nodes, paths);
    if RewriteAccepts(c, delta, paths) {
      forall n | n in delta.nodes ensures NodeOwnedAt(n, paths) {
        assert n.key in Keys(delta.nodes);
        assert n.key in Keys(owned);
        var m :| m in owned && m.key == n.key;
      }
    }
    if forall n :: n in delta.nodes ==> NodeOwnedAt(n, paths) {
      assert owned == delta.nodes;
    }
  }

  /** An end of an edge is not a node of the base: of an edge the paths own, or of one in the delta. */
  predicate EndMissing(c: Contents, delta: Part, paths: set<Text>) {
    exists e :: e in OwnedEdges(c, paths) + delta.edges && (e.source !in Keys(c.nodes) || e.target !in Keys(c.nodes))
  }

  /** A link is in the packed base though an update adds it, or is not though it removes it. */
  predicate LinkMisplaced(c: Contents, delta: Part, paths: set<Text>) {
    var before, after := Links(OwnedEdges(c, paths)), Links(delta.edges);
    (exists l :: l in after && l !in before && l in c.base) || (exists l :: l in before && l !in after && l !in c.base)
  }

  /**
   An update is refused exactly when the paths own the same nodes before and after, and an end of an edge is
   missing, a node of the delta belongs to none of the paths, or a link is misplaced.
   */
  lemma RefusedExact(c: Contents, delta: Part, paths: set<Text>)
    requires OneNodePerKey(delta.nodes)
    ensures Refused(c, delta, paths) <==>
            && OwnTheSame(c, delta, paths)
            && (|| EndMissing(c, delta, paths)
                || (exists n :: n in delta.nodes && !NodeOwnedAt(n, paths))
                || LinkMisplaced(c, delta, paths))
  {
    hide NodeOwnedAt, EdgeOwnedAt, OwnedNodes, OwnedEdges, Links, Keys, RewriteAccepts;
    if PlanEdges(c, delta, paths).Changes? { RewriteExact(c, delta, paths); }
  }

  /** The links of edges that no changed path owns. */
  function KeptLinks(c: Contents, paths: set<Text>): set<Link> {
    Links(c.edges - OwnedEdges(c, paths))
  }

  lemma LinksJoin(a: set<EdgeFact>, b: set<EdgeFact>)
    ensures Links(a + b) == Links(a) + Links(b)
  {
    forall x ensures x in Links(a + b) <==> x in Links(a) + Links(b) {
      if x in Links(a) {
        var e :| e in a && LinkOf(e) == x;
        assert e in a + b;
      }
      if x in Links(b) {
        var e :| e in b && LinkOf(e) == x;
        assert e in a + b;
      }
    }
  }

  lemma LinksSplit(c: Contents, paths: set<Text>)
    ensures Links(c.edges) == KeptLinks(c, paths) + Links(OwnedEdges(c, paths))
  {
    hide EdgeOwnedAt, Links;
    assert c.edges == (c.edges - OwnedEdges(c, paths)) + OwnedEdges(c, paths);
    LinksJoin(c.edges - OwnedEdges(c, paths), OwnedEdges(c, paths));
  }

  /**
   The packed base is what the difference between store and delta supposes: the links of the edges the paths own, and
   of the kept edges that are not in the delta; and no kept edge is a link that the update removes.
   */
  predicate Fits(c: Contents, delta: Part, paths: set<Text>) {
    var before, after, kept := Links(OwnedEdges(c, paths)), Links(delta.edges), KeptLinks(c, paths);
    c.base == before + (kept - after) && kept !! before - after
  }

  /** Over any base, an update is accepted and leaves a generation that opens exactly when it fits the packed base. */
  lemma NextUpdate(c: Contents, delta: Part, paths: set<Text>)
    requires PlanEdges(c, delta, paths).Changes?
    ensures var plan := PlanEdges(c, delta, paths);
      GraphAccepts(c, plan.added, plan.removed) && Coherent(Updated(c, delta, paths, plan.added, plan.removed)) <==>
      Fits(c, delta, paths)
  {
    hide EdgeOwnedAt, EndsIn, Links, OwnedEdges;
    LinksJoin(c.edges - OwnedEdges(c, paths), delta.edges);
    var plan, kept := PlanEdges(c, delta, paths), KeptLinks(c, paths);
    var before, after := Links(OwnedEdges(c, paths)), Links(delta.edges);
    var next := Updated(c, delta, paths, plan.added, plan.removed);
    assert Links(next.edges) == kept + after;
    assert Visible(next) == c.base - (before - after) + (after - before);
    if GraphAccepts(c, plan.added, plan.removed) && Coherent(next) {
      forall x ensures x in c.base <==> x in before + (kept - after) {
        assert x in kept + after <==> x in Visible(next);
      }
      forall x | x in kept ensures x !in before - after {
        assert x in kept + after;
      }
    }
    if Fits(c, delta, paths) {
      assert kept + after == Visible(next);
    }
  }

  /** The overlay that makes a packed base show the links of the store's edges. */
  function Cumulative(c: Contents): (set<Link>, set<Link>) {
    (Links(c.edges) - c.base, c.base - Links(c.edges))
  }

  /**
   The documentation's overlay is the cumulative one, relative to the packed base. It would always be accepted and
   leave a generation that opens; the one that an update writes is that one exactly when the update fits the base.
   */
  lemma CumulativeExact(c: Contents, delta: Part, paths: set<Text>)
    requires PlanEdges(c, delta, paths).Changes?
    ensures var plan := PlanEdges(c, delta, paths);
      var next := Updated(c, delta, paths, plan.added, plan.removed);
      var (added, removed) := Cumulative(next);
      && GraphAccepts(c, added, removed) && Coherent(Updated(c, delta, paths, added, removed))
      && ((plan.added, plan.removed) == (added, removed) <==> Fits(c, delta, paths))
  {
    hide EdgeOwnedAt, EndsIn, Links, OwnedEdges, Fits;
    NextUpdate(c, delta, paths);
    var plan := PlanEdges(c, delta, paths);
    var next := Updated(c, delta, paths, plan.added, plan.removed);
    var (added, removed) := Cumulative(next);
    assert Visible(Updated(c, delta, paths, added, removed)) == Links(next.edges);
    if GraphAccepts(c, plan.added, plan.removed) && Coherent(next) {
      assert plan.added !! plan.removed;
      assert plan.added == added by {
        forall x ensures x in plan.added <==> x in added {
          assert x in Links(next.edges) <==> x in Visible(next);
        }
      }
      assert plan.removed == removed by {
        forall x ensures x in plan.removed <==> x in removed {
          assert x in Links(next.edges) <==> x in Visible(next);
        }
      }
    }
  }

  /**
   The first update over a compiled generation: the graph accepts it exactly when no kept edge is a link the
   delta adds, and the generation it leaves opens exactly when no kept edge is a link the delta removes.
   */
  lemma FirstUpdate(c: Contents, delta: Part, paths: set<Text>)
    requires Coherent(c) && c.added == {} && c.removed == {} && PlanEdges(c, delta, paths).Changes?
    ensures var plan, kept := PlanEdges(c, delta, paths), KeptLinks(c, paths);
      && (GraphAccepts(c, plan.added, plan.removed) <==> kept !! plan.added)
      && (Coherent(Updated(c, delta, paths, plan.added, plan.removed)) <==> kept !! plan.removed)
      && (Fits(c, delta, paths) <==> kept !! plan.added && kept !! plan.removed)
  {
    hide EdgeOwnedAt, EndsIn, Links, OwnedEdges, Fits;
    NextUpdate(c, delta, paths);
    LinksSplit(c, paths);
    LinksJoin(c.edges - OwnedEdges(c, paths), delta.edges);
    var plan, kept := PlanEdges(c, delta, paths), KeptLinks(c, paths);
    var before, after := Links(OwnedEdges(c, paths)), Links(delta.edges);
    var next := Updated(c, delta, paths, plan.added, plan.removed);
    assert c.base == kept + before;
    assert Links(next.edges) == kept + after;
    assert Visible(next) == (kept + before) - (before - after) + (after - before);
    if kept !! plan.added && kept !! plan.removed { assert kept + after == Visible(next); }
    if x :| x in kept && x in plan.removed {
      assert x in Links(next.edges) && x !in Visible(next);
    }
  }

  /** The links in which the graph that is shown differs from its packed base. */
  function Drift(c: Contents): set<Link> {
    (Visible(c) - c.base) + (c.base - Visible(c))
  }

  /**
   Over a generation that opens, an update fits exactly when no kept edge is a link it removes, the links it adds
   are new to the packed base, and the overlay in place changed no link but ones that it adds again and a kept edge
   holds.
   */
  lemma OverlaidUpdate(c: Contents, delta: Part, paths: set<Text>)
    requires Coherent(c) && PlanEdges(c, delta, paths).Changes?
    ensures var plan, kept := PlanEdges(c, delta, paths), KeptLinks(c, paths);
      Fits(c, delta, paths) <==> kept !! plan.removed && plan.added !! c.base && Drift(c) <= kept * plan.added
  {
    hide EdgeOwnedAt, EndsIn, Links, OwnedEdges;
    LinksSplit(c, paths);
    var plan, kept := PlanEdges(c, delta, paths), KeptLinks(c, paths);
    var before, after := Links(OwnedEdges(c, paths)), Links(delta.edges);
    assert Visible(c) == kept + before;
    if Fits(c, delta, paths) {
      assert Drift(c) <= kept * plan.added;
    }
    if kept !! plan.removed && plan.added !! c.base && Drift(c) <= kept * plan.added {
      forall x ensures x in c.base <==> x in before + (kept - after) {
        assert x !in Drift(c) ==> (x in Visible(c) <==> x in c.base);
      }
    }
  }

  /**
   After an overlay that removed a link no update leaves a generation that opens; after one that added links only an
   update does that adds all of them again, though a kept edge holds each.
   */
  lemma AfterOverlay(c: Contents, delta: Part, paths: set<Text>)
    requires Coherent(c) && GraphAccepts(c, c.added, c.removed) && PlanEdges(c, delta, paths).Changes?
    requires Fits(c, delta, paths)
    ensures c.removed == {} && c.added <= KeptLinks(c, paths) * PlanEdges(c, delta, paths).added
  {
    hide EdgeOwnedAt, EndsIn, Links, OwnedEdges, Fits;
    LinksSplit(c, paths);
    OverlaidUpdate(c, delta, paths);
    assert c.added <= Drift(c) && c.removed <= Drift(c);
    assert KeptLinks(c, paths) <= Visible(c) && c.removed !! Visible(c);
  }
}
