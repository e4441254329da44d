/**
 arcana/src/lexicon/records.rs: turning Lexicon records into repository facts in one go.

 Path normalisation, label parsing and hashing are opaque total functions, collected in `Schema`. A
 warning stands for its message; the counts kept per message are a multiset of warnings.
 */
module Records {
  import opened Wrappers
  import opened Lexicon
  import opened Ordering
  import opened Facts

  datatype Schema = Schema(normalize: Text -> Option<Text>, nodeKey: Identity -> NodeKey,
                           contentId: Identity -> ContentId, canonical: Identity -> Text,
                           nodeKind: Text -> Option<NodeKind>, relationKind: Text -> Option<RelationKind>,
                           reason: Text -> Option<Reason>)

  datatype LoadError =
    | ConflictingNode(identity: Identity)
    | InvalidPath(path: Text)
    | NodeIdentityCollision
    | EmptyQualifiedName
    | UnknownRelationshipNode
    | EmptyReason
    | SpanCoordinate(field: nat)
    | CountOverflow

  datatype Warning =
    | UnknownNodeKind(text: Text)
    | UnknownEdgeRelation(text: Text)
    | UnknownUnresolvedRelation(text: Text)
    | UnknownReason(text: Text)

  datatype Loaded = Loaded(facts: RepositoryFacts, warnings: multiset<Warning>)

  // ----- paths, spans, references -----

  function NormalizePath(s: Schema, path: Text): Result<Text, LoadError> {
    match s.normalize(path)
    case None => Failure(InvalidPath(path))
    case Some(normalized) => Success(normalized)
  }

  function ValidateOwner(s: Schema, owner: Option<Text>): Result<(), LoadError> {
    match owner
    case None => Success(())
    case Some(path) =>
      var _ :- NormalizePath(s, path);
      Success(())
  }

  function Narrow(value: u64, field: nat): Result<u32, LoadError> {
    if value < 0x1_0000_0000 then Success(value) else Failure(SpanCoordinate(field))
  }

  function ConvertSpan(s: Schema, span: Option<SpanRecord>): Result<Option<SourceSpan>, LoadError> {
    match span
    case None => Success(None)
    case Some(p) =>
      var path :- NormalizePath(s, p.path);
      var startLine :- Narrow(p.startLine, 0);
      var startColumn :- Narrow(p.startColumn, 1);
      var endLine :- Narrow(p.endLine, 2);
      var endColumn :- Narrow(p.endColumn, 3);
      Success(Some(SourceSpan(path, startLine, startColumn, endLine, endColumn)))
  }

  /** A key is taken as it is; only an identity is looked up. */
  function LookupId(ids: map<Identity, NodeKey>, reference: NodeReference): Result<NodeKey, LoadError> {
    match reference
    case ByKey(key) => Success(key)
    case ByIdentity(identity) => if identity in ids then Success(ids[identity]) else Failure(UnknownRelationshipNode)
  }

  // ----- nodes -----

  function InsertNode(nodes: map<Identity, NodeRecord>, record: NodeRecord): Result<map<Identity, NodeRecord>, LoadError> {
    if record.id in nodes then
      if nodes[record.id] != record then Failure(ConflictingNode(record.id)) else Success(nodes)
    else Success(nodes[record.id := record])
  }

  /** The maps of the node conversion loop: facts so far, keys by identity, identities by key, warnings. */
  datatype NodeState = NodeState(facts: seq<NodeFact>, ids: map<Identity, NodeKey>, compact: map<NodeKey, Identity>,
                                 warnings: multiset<Warning>)

  const NO_NODES := NodeState([], map[], map[], multiset{})

  function ConvertNode(s: Schema, state: NodeState, record: NodeRecord): Result<NodeState, LoadError> {
    var _ :- ValidateOwner(s, record.owner);
    var path :- NormalizePath(s, record.path);
    var key := s.nodeKey(record.id);
    if key in state.compact && state.compact[key] != record.id then Failure(NodeIdentityCollision)
    else
      var contentId := if record.contentId.Some? then Some(s.contentId(record.contentId.value)) else None;
      var kind := s.nodeKind(record.kind);
      if record.qualifiedName == [] then Failure(EmptyQualifiedName)
      else
        var span :- ConvertSpan(s, record.span);
        var fact := NodeFact(key, Some(s.canonical(record.id)), if kind.Some? then kind.value else SYMBOL, path,
                             record.name, record.qualifiedName, contentId, span);
        Success(NodeState(state.facts + [fact], state.ids[record.id := key], state.compact[key := record.id],
                          state.warnings + (if kind.Some? then multiset{} else multiset{UnknownNodeKind(record.kind)})))
  }

  // ----- relations -----

  /** A converted record: an error, or a fact unless the record is skipped; and the warnings counted on the way. */
  datatype Conversion<+T> = Conversion(result: Result<Option<T>, LoadError>, warnings: multiset<Warning>)

  /** How the ends of a relation are turned into keys. */
  type Resolver = NodeReference -> Result<NodeKey, LoadError>

  function EdgeWith(s: Schema, resolve: Resolver, record: EdgeRecord): Conversion<EdgeFact> {
    var ends := EdgeEnds(s, resolve, record);
    if ends.Failure? then Conversion(Failure(ends.error), multiset{})
    else
      var relation := s.relationKind(record.relation);
      if relation.None? then Conversion(Success(None), multiset{UnknownEdgeRelation(record.relation)})
      else
        var span := ConvertSpan(s, record.span);
        if span.Failure? then Conversion(Failure(span.error), multiset{})
        else Conversion(Success(Some(EdgeFact(ends.value.0, ends.value.1, relation.value, span.value))), multiset{})
  }

  function EdgeEnds(s: Schema, resolve: Resolver, record: EdgeRecord): Result<(NodeKey, NodeKey), LoadError> {
    var _ :- ValidateOwner(s, record.owner);
    var source :- resolve(record.source);
    var target :- resolve(record.target);
    Success((source, target))
  }

  function UnresolvedWith(s: Schema, resolve: Resolver, record: UnresolvedRecord): Conversion<UnresolvedFact> {
    var start := UnresolvedSource(s, resolve, record);
    if start.Failure? then Conversion(Failure(start.error), multiset{})
    else
      var relation := s.relationKind(record.relation);
      if relation.None? then Conversion(Success(None), multiset{UnknownUnresolvedRelation(record.relation)})
      else
        var reason := s.reason(record.reason);
        if reason.None? then Conversion(Failure(EmptyReason), multiset{})
        else
          var warnings := if reason.value.Unknown? then multiset{UnknownReason(record.reason)} else multiset{};
          var span := ConvertSpan(s, record.span);
          if span.Failure? then Conversion(Failure(span.error), warnings)
          else
            Conversion(Success(Some(UnresolvedFact(start.value, relation.value, record.expression,
                                                   record.candidateNamespace, record.candidateName, reason.value,
                                                   span.value))), warnings)
  }

  function UnresolvedSource(s: Schema, resolve: Resolver, record: UnresolvedRecord): Result<NodeKey, LoadError> {
    var _ :- ValidateOwner(s, record.owner);
    resolve(record.source)
  }

  function Lookup(ids: map<Identity, NodeKey>): Resolver {
    reference => LookupId(ids, reference)
  }

  function ConvertEdge(s: Schema, ids: map<Identity, NodeKey>, record: EdgeRecord): Conversion<EdgeFact> {
    EdgeWith(s, Lookup(ids), record)
  }

  function ConvertUnresolved(s: Schema, ids: map<Identity, NodeKey>, record: UnresolvedRecord): Conversion<UnresolvedFact> {
    UnresolvedWith(s, Lookup(ids), record)
  }

  /** `sort_unstable` and `dedup` on each list. */
  function Finish(facts: RepositoryFacts, warnings: multiset<Warning>): Loaded {
    Loaded(RepositoryFacts(Dedup(Sort(NodeLe, facts.nodes)), Dedup(Sort(EdgeLe, facts.edges)),
                           Dedup(Sort(UnresolvedLe, facts.unresolved))), warnings)
  }

  // ----- folds -----

  /** The node records of a list, gathered by identity; a second, different record for one is an error. */
  function CollectNodes(records: seq<FactRecord>): Result<map<Identity, NodeRecord>, LoadError> {
    if records == [] then Success(map[])
    else
      var nodes :- CollectNodes(records[..|records| - 1]);
      var last := records[|records| - 1];
      if last.Node? then InsertNode(nodes, last.node) else Success(nodes)
  }

  function ConvertNodes(s: Schema, records: seq<NodeRecord>): Result<NodeState, LoadError> {
    if records == [] then Success(NO_NODES)
    else
      var state :- ConvertNodes(s, records[..|records| - 1]);
      ConvertNode(s, state, records[|records| - 1])
  }

  function Gather<A, T>(convert: A -> Conversion<T>, records: seq<A>): Result<(seq<T>, multiset<Warning>), LoadError> {
    if records == [] then Success(([], multiset{}))
    else
      var (facts, warnings) :- Gather(convert, records[..|records| - 1]);
      var c := convert(records[|records| - 1]);
      var fact :- c.result;
      Success((if fact.Some? then facts + [fact.value] else facts, warnings + c.warnings))
  }

  function EdgesIn(records: seq<FactRecord>): seq<EdgeRecord> {
    if records == [] then []
    else
      var last := records[|records| - 1];
      EdgesIn(records[..|records| - 1]) + if last.Edge? then [last.edge] else []
  }

  function UnresolvedIn(records: seq<FactRecord>): seq<UnresolvedRecord> {
    if records == [] then []
    else
      var last := records[|records| - 1];
      UnresolvedIn(records[..|records| - 1]) + if last.Unresolved? then [last.unresolved] else []
  }

  /** The order in which a `BTreeMap` keyed by identity is iterated. */
  ghost function AscendingIds(ids: set<Identity>): (r: seq<Identity>)
    ensures StrictlySorted(IdentityLe, r)
    ensures forall i :: i in r <==> i in ids
  {
    FactsTotal();
    Ascending(IdentityLe, ids)
  }

  ghost function InOrder(nodes: map<Identity, NodeRecord>): seq<NodeRecord> {
    var ids := AscendingIds(nodes.Keys);
    seq(|ids|, i requires 0 <= i < |ids| => nodes[ids[i]])
  }

  /** `build_repository_facts`. */
  ghost function Build(s: Schema, records: seq<FactRecord>): Result<Loaded, LoadError> {
    var nodes :- CollectNodes(records);
    var state :- ConvertNodes(s, InOrder(nodes));
    BuildRelations(s, state, EdgesIn(records), UnresolvedIn(records))
  }

  function BuildRelations(s: Schema, state: NodeState, edges: seq<EdgeRecord>, unresolved: seq<UnresolvedRecord>)
    : Result<Loaded, LoadError>
  {
    var (edgeFacts, w1) :- Gather((e: EdgeRecord) => ConvertEdge(s, state.ids, e), edges);
    var (unresolvedFacts, w2) :- Gather((u: UnresolvedRecord) => ConvertUnresolved(s, state.ids, u), unresolved);
    Success(Finish(RepositoryFacts(state.facts, edgeFacts, unresolvedFacts), state.warnings + w1 + w2))
  }

  // ----- what can be converted, record by record -----

  predicate OwnerValid(s: Schema, owner: Option<Text>) {
    owner.Some? ==> s.normalize(owner.value).Some?
  }

  predicate SpanConvertible(s: Schema, span: Option<SpanRecord>) {
    span.Some? ==>
      && s.normalize(span.value.path).Some?
      && span.value.startLine < 0x1_0000_0000 && span.value.startColumn < 0x1_0000_0000
      && span.value.endLine < 0x1_0000_0000 && span.value.endColumn < 0x1_0000_0000
  }

  predicate NodeConvertible(s: Schema, n: NodeRecord) {
    OwnerValid(s, n.owner) && s.normalize(n.path).Some? && n.qualifiedName != [] && SpanConvertible(s, n.span)
  }

  function SpanOf(s: Schema, span: Option<SpanRecord>): Option<SourceSpan>
    requires SpanConvertible(s, span)
  {
    match span
    case None => None
    case Some(p) => Some(SourceSpan(s.normalize(p.path).value, p.startLine, p.startColumn, p.endLine, p.endColumn))
  }

  function NodeFactOf(s: Schema, n: NodeRecord): NodeFact
    requires NodeConvertible(s, n)
  {
    NodeFact(s.nodeKey(n.id), Some(s.canonical(n.id)),
             if s.nodeKind(n.kind).Some? then s.nodeKind(n.kind).value else SYMBOL,
             s.normalize(n.path).value, n.name, n.qualifiedName,
             if n.contentId.Some? then Some(s.contentId(n.contentId.value)) else None, SpanOf(s, n.span))
  }

  /** An identity is known when some record of the list defines it; a key is not checked. */
  ghost predicate Known(records: seq<FactRecord>, reference: NodeReference) {
    reference.ByIdentity? ==> exists n: NodeRecord :: Node(n) in records && n.id == reference.identity
  }

  function KeyOf(s: Schema, reference: NodeReference): NodeKey {
    match reference case ByKey(key) => key case ByIdentity(identity) => s.nodeKey(identity)
  }

  ghost predicate EdgeConvertible(s: Schema, records: seq<FactRecord>, e: EdgeRecord) {
    && OwnerValid(s, e.owner) && Known(records, e.source) && Known(records, e.target)
    && (s.relationKind(e.relation).Some? ==> SpanConvertible(s, e.span))
  }

  ghost predicate UnresolvedConvertible(s: Schema, records: seq<FactRecord>, u: UnresolvedRecord) {
    && OwnerValid(s, u.owner) && Known(records, u.source)
    && (s.relationKind(u.relation).Some? ==> s.reason(u.reason).Some? && SpanConvertible(s, u.span))
  }

  /** The fact of an edge whose relation is recognised. */
  predicate EdgeGives(s: Schema, e: EdgeRecord, f: EdgeFact) {
    && s.relationKind(e.relation) == Some(f.relation)
    && SpanConvertible(s, e.span)
    && f == EdgeFact(KeyOf(s, e.source), KeyOf(s, e.target), f.relation, SpanOf(s, e.span))
  }

  predicate UnresolvedGives(s: Schema, u: UnresolvedRecord, f: UnresolvedFact) {
    && s.relationKind(u.relation) == Some(f.relation)
    && s.reason(u.reason) == Some(f.reason)
    && SpanConvertible(s, u.span)
    && f == UnresolvedFact(KeyOf(s, u.source), f.relation, u.expression, u.candidateNamespace, u.candidateName, f.reason,
                           SpanOf(s, u.span))
  }

  /** No two different node records share an identity. */
  ghost predicate Consistent(records: seq<FactRecord>) {
    forall n: NodeRecord, m: NodeRecord :: Node(n) in records && Node(m) in records && n.id == m.id ==> n == m
  }

  ghost predicate KeysDistinct(s: Schema, records: seq<FactRecord>) {
    forall n: NodeRecord, m: NodeRecord ::
      Node(n) in records && Node(m) in records && s.nodeKey(n.id) == s.nodeKey(m.id) ==> n.id == m.id
  }

  /** What a list of records must satisfy to be loaded: nothing here depends on their order. */
  ghost predicate Loadable(s: Schema, records: seq<FactRecord>) {
    && Consistent(records)
    && KeysDistinct(s, records)
    && (forall n: NodeRecord :: Node(n) in records ==> NodeConvertible(s, n))
    && (forall e: EdgeRecord :: Edge(e) in records ==> EdgeConvertible(s, records, e))
    && (forall u: UnresolvedRecord :: Unresolved(u) in records ==> UnresolvedConvertible(s, records, u))
  }

  // ----- the folds, exactly -----

  lemma {:induction false} CollectExact(records: seq<FactRecord>)
    ensures CollectNodes(records).Success? <==> Consistent(records)
    ensures CollectNodes(records).Success? ==>
              var nodes := CollectNodes(records).value;
              && (forall n: NodeRecord :: Node(n) in records <==> n.id in nodes && nodes[n.id] == n)
              && (forall i :: i in nodes ==> nodes[i].id == i)
  {
    if records != [] {
      var before, last := records[..|records| - 1], records[|records| - 1];
      assert records == before + [last];
      CollectExact(before);
      if !Consistent(before) {
        var n: NodeRecord, m: NodeRecord :| Node(n) in before && Node(m) in before && n.id == m.id && n != m;
        assert Node(n) in records && Node(m) in records;
      } else if last.Node? {
        var nodes := CollectNodes(before).value;
        if last.node.id in nodes {
          assert Node(nodes[last.node.id]) in records && Node(last.node) in records;
        }
      }
    }
  }

  ghost predicate HasId(records: seq<NodeRecord>, id: Identity) {
    exists i :: 0 <= i < |records| && records[i].id == id
  }

  /** Different identities of the list have different keys. */
  ghost predicate KeysApart(s: Schema, records: seq<NodeRecord>) {
    forall a, b :: HasId(records, a) && HasId(records, b) && s.nodeKey(a) == s.nodeKey(b) ==> a == b
  }

  /** What the state holds once a list of records has been converted. */
  ghost predicate Tracks(s: Schema, records: seq<NodeRecord>, state: NodeState) {
    && |state.facts| == |records|
    && (forall i :: 0 <= i < |records| ==> NodeConvertible(s, records[i]) && state.facts[i] == NodeFactOf(s, records[i]))
    && (forall id :: id in state.ids <==> HasId(records, id))
    && (forall id :: id in state.ids ==> state.ids[id] == s.nodeKey(id))
    && (forall key :: key in state.compact ==> HasId(records, state.compact[key]) && s.nodeKey(state.compact[key]) == key)
    && (forall id :: HasId(records, id) ==> s.nodeKey(id) in state.compact && state.compact[s.nodeKey(id)] == id)
  }

  lemma ConvertNodeExact(s: Schema, state: NodeState, record: NodeRecord)
    ensures var r, key := ConvertNode(s, state, record), s.nodeKey(record.id);
      && (r.Success? <==> NodeConvertible(s, record) && !(key in state.compact && state.compact[key] != record.id))
      && (r.Success? ==>
            && r.value.facts == state.facts + [NodeFactOf(s, record)]
            && r.value.ids == state.ids[record.id := key]
            && r.value.compact == state.compact[key := record.id])
  {
  }

  lemma HasIdSnoc(before: seq<NodeRecord>, last: NodeRecord, id: Identity)
    ensures HasId(before + [last], id) <==> HasId(before, id) || id == last.id
  {
    var records := before + [last];
    if HasId(before, id) {
      var i :| 0 <= i < |before| && before[i].id == id;
      assert records[i].id == id;
    }
    assert records[|before|].id == last.id;
  }

  lemma TracksStep(s: Schema, before: seq<NodeRecord>, last: NodeRecord, state: NodeState, next: NodeState)
    requires Tracks(s, before, state) && ConvertNode(s, state, last) == Success(next)
    ensures Tracks(s, before + [last], next)
  {
    ConvertNodeExact(s, state, last);
    hide ConvertNode, NodeConvertible, NodeFactOf, HasId;
    forall id ensures HasId(before + [last], id) <==> HasId(before, id) || id == last.id {
      HasIdSnoc(before, last, id);
    }
  }

  /** The conversion loop succeeds exactly when every record converts and no two identities share a key. */
  lemma {:induction false} ConvertNodesExact(s: Schema, records: seq<NodeRecord>)
    ensures ConvertNodes(s, records).Success? <==>
            KeysApart(s, records) && forall n :: n in records ==> NodeConvertible(s, n)
    ensures ConvertNodes(s, records).Success? ==> Tracks(s, records, ConvertNodes(s, records).value)
  {
    assert records == [] ==> forall id :: !HasId(records, id);
    hide ConvertNode, NodeConvertible, NodeFactOf, HasId;
    if records != [] {
      var before, last := records[..|records| - 1], records[|records| - 1];
      assert records == before + [last];
      ConvertNodesExact(s, before);
      forall id ensures HasId(records, id) <==> HasId(before, id) || id == last.id {
        HasIdSnoc(before, last, id);
      }
      if ConvertNodes(s, before).Success? {
        var state := ConvertNodes(s, before).value;
        ConvertNodeExact(s, state, last);
        if ConvertNodes(s, records).Success? { TracksStep(s, before, last, state, ConvertNodes(s, records).value); }
        hide ConvertNodes;
      }
    }
  }

  function WarningSum<A, T>(convert: A -> Conversion<T>, records: seq<A>): multiset<Warning> {
    Total((r: A) => convert(r).warnings, records)
  }

  lemma {:induction false} GatherExact<A, T>(convert: A -> Conversion<T>, records: seq<A>)
    ensures Gather(convert, records).Success? <==> forall r :: r in records ==> convert(r).result.Success?
    ensures Gather(convert, records).Success? ==>
              && (forall f :: f in Gather(convert, records).value.0 <==>
                    exists r :: r in records && convert(r).result == Success(Some(f)))
              && Gather(convert, records).value.1 == WarningSum(convert, records)
  {
    if records != [] {
      var before, last := records[..|records| - 1], records[|records| - 1];
      assert records == before + [last];
      GatherExact(convert, before);
      if Gather(convert, records).Success? {
        var facts := Gather(convert, records).value.0;
        forall f ensures f in facts <==> exists r :: r in records && convert(r).result == Success(Some(f)) {
          if f in Gather(convert, before).value.0 {
            var r :| r in before && convert(r).result == Success(Some(f));
            assert r in records;
          } else if exists r :: r in records && convert(r).result == Success(Some(f)) {
            var r :| r in records && convert(r).result == Success(Some(f));
            assert r == last;
          }
        }
      }
    }
  }

  lemma {:induction false} EdgeCounts(records: seq<FactRecord>)
    ensures forall e: EdgeRecord :: multiset(EdgesIn(records))[e] == multiset(records)[Edge(e)]
  {
    if records != [] {
      assert records == records[..|records| - 1] + [records[|records| - 1]];
      EdgeCounts(records[..|records| - 1]);
    }
  }

  lemma {:induction false} UnresolvedCounts(records: seq<FactRecord>)
    ensures forall u: UnresolvedRecord :: multiset(UnresolvedIn(records))[u] == multiset(records)[Unresolved(u)]
  {
    if records != [] {
      assert records == records[..|records| - 1] + [records[|records| - 1]];
      UnresolvedCounts(records[..|records| - 1]);
    }
  }

  lemma MembersIn(records: seq<FactRecord>)
    ensures forall e: EdgeRecord :: e in EdgesIn(records) <==> Edge(e) in records
    ensures forall u: UnresolvedRecord :: u in UnresolvedIn(records) <==> Unresolved(u) in records
  {
    EdgeCounts(records);
    UnresolvedCounts(records);
    hide EdgesIn, UnresolvedIn;
    forall e: EdgeRecord ensures e in EdgesIn(records) <==> Edge(e) in records {
      assert e in EdgesIn(records) <==> multiset(EdgesIn(records))[e] > 0;
      assert Edge(e) in records <==> multiset(records)[Edge(e)] > 0;
    }
    forall u: UnresolvedRecord ensures u in UnresolvedIn(records) <==> Unresolved(u) in records {
      assert u in UnresolvedIn(records) <==> multiset(UnresolvedIn(records))[u] > 0;
      assert Unresolved(u) in records <==> multiset(records)[Unresolved(u)] > 0;
    }
  }

  // ----- loading, exactly -----

  predicate NodeGives(s: Schema, n: NodeRecord, f: NodeFact) {
    NodeConvertible(s, n) && f == NodeFactOf(s, n)
  }

  ghost predicate NodesLoadable(s: Schema, records: seq<FactRecord>) {
    && Consistent(records)
    && KeysDistinct(s, records)
    && (forall n: NodeRecord :: Node(n) in records ==> NodeConvertible(s, n))
  }

  /** The identity table of the records: one entry for every node record, holding its key. */
  ghost predicate Indexes(s: Schema, records: seq<FactRecord>, ids: map<Identity, NodeKey>) {
    && (forall id :: id in ids <==> Known(records, ByIdentity(id)))
    && (forall id :: id in ids ==> ids[id] == s.nodeKey(id))
  }

  ghost function NodesOf(s: Schema, records: seq<FactRecord>): Result<NodeState, LoadError> {
    var nodes :- CollectNodes(records);
    ConvertNodes(s, InOrder(nodes))
  }

  lemma InOrderMembers(records: seq<FactRecord>)
    requires CollectNodes(records).Success?
    ensures var ordered := InOrder(CollectNodes(records).value);
      && (forall n: NodeRecord :: n in ordered <==> Node(n) in records)
      && (forall id :: HasId(ordered, id) <==> Known(records, ByIdentity(id)))
  {
    CollectExact(records);
    hide CollectNodes, Consistent;
    var nodes := CollectNodes(records).value;
    var ordered := InOrder(nodes);
    var ids := AscendingIds(nodes.Keys);
    forall n: NodeRecord ensures n in ordered <==> Node(n) in records {
      if Node(n) in records {
        assert n.id in ids;
        var i :| 0 <= i < |ids| && ids[i] == n.id;
        assert ordered[i] == n;
      }
      if n in ordered {
        var i :| 0 <= i < |ordered| && ordered[i] == n;
        assert ids[i] in nodes;
      }
    }
    forall id ensures HasId(ordered, id) <==> Known(records, ByIdentity(id)) {
      if HasId(ordered, id) {
        var i :| 0 <= i < |ordered| && ordered[i].id == id;
        assert ordered[i] in ordered;
      }
      if Known(records, ByIdentity(id)) {
        var n: NodeRecord :| Node(n) in records && n.id == id;
        assert n in ordered;
      }
    }
  }

  lemma TracksFacts(s: Schema, ordered: seq<NodeRecord>, state: NodeState)
    requires Tracks(s, ordered, state)
    ensures forall f :: f in state.facts <==> exists n :: n in ordered && NodeGives(s, n, f)
  {
    hide NodeConvertible, NodeFactOf, HasId;
    forall f ensures f in state.facts <==> exists n :: n in ordered && NodeGives(s, n, f) {
      if f in state.facts {
        var i :| 0 <= i < |state.facts| && state.facts[i] == f;
        assert ordered[i] in ordered && NodeGives(s, ordered[i], f);
      }
      if n :| n in ordered && NodeGives(s, n, f) {
        var i :| 0 <= i < |ordered| && ordered[i] == n;
        assert state.facts[i] == f;
      }
    }
  }

  lemma NodesExact(s: Schema, records: seq<FactRecord>)
    ensures NodesOf(s, records).Success? <==> NodesLoadable(s, records)
    ensures NodesOf(s, records).Success? ==>
              && Indexes(s, records, NodesOf(s, records).value.ids)
              && forall f :: f in NodesOf(s, records).value.facts <==>
                             exists n: NodeRecord :: Node(n) in records && NodeGives(s, n, f)
  {
    CollectExact(records);
    hide Consistent, KeysDistinct, KeysApart, NodeConvertible, NodeGives, Known, HasId, InOrder, CollectNodes, ConvertNodes;
    if CollectNodes(records).Success? {
      InOrderMembers(records);
      var ordered := InOrder(CollectNodes(records).value);
      ConvertNodesExact(s, ordered);
      KeysApartDistinct(s, records, ordered);
      if ConvertNodes(s, ordered).Success? {
        var state := ConvertNodes(s, ordered).value;
        assert Indexes(s, records, state.ids);
        TracksFacts(s, ordered, state);
        hide Tracks;
        forall f ensures f in state.facts <==> exists n: NodeRecord :: Node(n) in records && NodeGives(s, n, f) {
          if f in state.facts {
            var n :| n in ordered && NodeGives(s, n, f);
            assert Node(n) in records;
          }
        }
      }
    }
  }

  lemma KeysApartDistinct(s: Schema, records: seq<FactRecord>, ordered: seq<NodeRecord>)
    requires forall id :: HasId(ordered, id) <==> Known(records, ByIdentity(id))
    ensures KeysApart(s, ordered) <==> KeysDistinct(s, records)
  {
    hide HasId;
    if KeysApart(s, ordered) {
      forall n: NodeRecord, m: NodeRecord | Node(n) in records && Node(m) in records && s.nodeKey(n.id) == s.nodeKey(m.id)
        ensures n.id == m.id
      {
        assert Known(records, ByIdentity(n.id)) && Known(records, ByIdentity(m.id));
        assert HasId(ordered, n.id) && HasId(ordered, m.id);
      }
    }
    if KeysDistinct(s, records) {
      forall a, b | HasId(ordered, a) && HasId(ordered, b) && s.nodeKey(a) == s.nodeKey(b) ensures a == b {
        assert Known(records, ByIdentity(a)) && Known(records, ByIdentity(b));
      }
    }
  }

  lemma SpanExact(s: Schema, span: Option<SpanRecord>)
    ensures ConvertSpan(s, span).Success? <==> SpanConvertible(s, span)
    ensures SpanConvertible(s, span) ==> ConvertSpan(s, span) == Success(SpanOf(s, span))
  {
  }

  lemma EdgeExact(s: Schema, records: seq<FactRecord>, ids: map<Identity, NodeKey>, e: EdgeRecord)
    requires Indexes(s, records, ids)
    ensures var c := ConvertEdge(s, ids, e).result;
      && (c.Success? <==> EdgeConvertible(s, records, e))
      && (c.Success? ==> forall f: EdgeFact :: c == Success(Some(f)) <==> EdgeGives(s, e, f))
  {
    SpanExact(s, e.span);
    hide ConvertSpan, SpanConvertible, SpanOf, Known;
    if e.source.ByIdentity? { assert Known(records, e.source) <==> e.source.identity in ids; }
    if e.target.ByIdentity? { assert Known(records, e.target) <==> e.target.identity in ids; }
    assert e.source.ByKey? ==> Known(records, e.source) by { KeyKnown(records, e.source); }
    assert e.target.ByKey? ==> Known(records, e.target) by { KeyKnown(records, e.target); }
  }

  lemma KeyKnown(records: seq<FactRecord>, reference: NodeReference)
    ensures reference.ByKey? ==> Known(records, reference)
  {
  }

  lemma UnresolvedExact(s: Schema, records: seq<FactRecord>, ids: map<Identity, NodeKey>, u: UnresolvedRecord)
    requires Indexes(s, records, ids)
    ensures var c := ConvertUnresolved(s, ids, u).result;
      && (c.Success? <==> UnresolvedConvertible(s, records, u))
      && (c.Success? ==> forall f: UnresolvedFact :: c == Success(Some(f)) <==> UnresolvedGives(s, u, f))
  {
    SpanExact(s, u.span);
    hide ConvertSpan, SpanConvertible, SpanOf, Known;
    if u.source.ByIdentity? { assert Known(records, u.source) <==> u.source.identity in ids; }
    assert u.source.ByKey? ==> Known(records, u.source) by { KeyKnown(records, u.source); }
  }

  /** What is loaded, fact by fact: nothing here depends on the order of the records. */
  ghost predicate Describes(s: Schema, records: seq<FactRecord>, facts: RepositoryFacts) {
    && StrictlySorted(NodeLe, facts.nodes)
    && StrictlySorted(EdgeLe, facts.edges)
    && StrictlySorted(UnresolvedLe, facts.unresolved)
    && (forall f: NodeFact :: f in facts.nodes <==> exists n: NodeRecord :: Node(n) in records && NodeGives(s, n, f))
    && (forall f: EdgeFact :: f in facts.edges <==> exists e: EdgeRecord :: Edge(e) in records && EdgeGives(s, e, f))
    && (forall f: UnresolvedFact :: f in facts.unresolved <==>
          exists u: UnresolvedRecord :: Unresolved(u) in records && UnresolvedGives(s, u, f))
  }

  lemma EdgesExact(s: Schema, records: seq<FactRecord>, ids: map<Identity, NodeKey>)
    requires Indexes(s, records, ids)
    ensures var convert := (e: EdgeRecord) => ConvertEdge(s, ids, e);
      var r := Gather(convert, EdgesIn(records));
      && (r.Success? <==> forall e: EdgeRecord :: Edge(e) in records ==> EdgeConvertible(s, records, e))
      && (r.Success? ==>
            && (forall f :: f in r.value.0 <==> exists e: EdgeRecord :: Edge(e) in records && EdgeGives(s, e, f))
            && r.value.1 == WarningSum(convert, EdgesIn(records)))
  {
    var convert := (e: EdgeRecord) => ConvertEdge(s, ids, e);
    var edges := EdgesIn(records);
    MembersIn(records);
    GatherExact(convert, edges);
    forall e: EdgeRecord
      ensures convert(e).result.Success? <==> EdgeConvertible(s, records, e)
      ensures convert(e).result.Success? ==> forall f: EdgeFact :: convert(e).result == Success(Some(f)) <==> EdgeGives(s, e, f)
    {
      EdgeExact(s, records, ids, e);
    }
    hide ConvertEdge, EdgeConvertible, EdgeGives, Gather, WarningSum, EdgesIn;
    var r := Gather(convert, edges);
    if r.Success? {
      forall f ensures f in r.value.0 <==> exists e: EdgeRecord :: Edge(e) in records && EdgeGives(s, e, f) {
        if f in r.value.0 {
          var e :| e in edges && convert(e).result == Success(Some(f));
          assert Edge(e) in records && EdgeGives(s, e, f);
        }
        if e: EdgeRecord :| Edge(e) in records && EdgeGives(s, e, f) {
          assert e in edges && convert(e).result == Success(Some(f));
        }
      }
    }
  }

  lemma UnresolvedsExact(s: Schema, records: seq<FactRecord>, ids: map<Identity, NodeKey>)
    requires Indexes(s, records, ids)
    ensures var convert := (u: UnresolvedRecord) => ConvertUnresolved(s, ids, u);
      var r := Gather(convert, UnresolvedIn(records));
      && (r.Success? <==> forall u: UnresolvedRecord :: Unresolved(u) in records ==> UnresolvedConvertible(s, records, u))
      && (r.Success? ==>
            && (forall f :: f in r.value.0 <==>
                  exists u: UnresolvedRecord :: Unresolved(u) in records && UnresolvedGives(s, u, f))
            && r.value.1 == WarningSum(convert, UnresolvedIn(records)))
  {
    var convert := (u: UnresolvedRecord) => ConvertUnresolved(s, ids, u);
    var references := UnresolvedIn(records);
    MembersIn(records);
    GatherExact(convert, references);
    forall u: UnresolvedRecord
      ensures convert(u).result.Success? <==> UnresolvedConvertible(s, records, u)
      ensures convert(u).result.Success? ==>
                forall f: UnresolvedFact :: convert(u).result == Success(Some(f)) <==> UnresolvedGives(s, u, f)
    {
      UnresolvedExact(s, records, ids, u);
    }
    hide ConvertUnresolved, UnresolvedConvertible, UnresolvedGives, Gather, WarningSum, UnresolvedIn;
    var r := Gather(convert, references);
    if r.Success? {
      forall f
        ensures f in r.value.0 <==> exists u: UnresolvedRecord :: Unresolved(u) in records && UnresolvedGives(s, u, f)
      {
        if f in r.value.0 {
          var u :| u in references && convert(u).result == Success(Some(f));
          assert Unresolved(u) in records && UnresolvedGives(s, u, f);
        }
        if u: UnresolvedRecord :| Unresolved(u) in records && UnresolvedGives(s, u, f) {
          assert u in references && convert(u).result == Success(Some(f));
        }
      }
    }
  }

  lemma FinishExact(facts: RepositoryFacts, warnings: multiset<Warning>)
    ensures var done := Finish(facts, warnings).facts;
      && StrictlySorted(NodeLe, done.nodes) && StrictlySorted(EdgeLe, done.edges)
      && StrictlySorted(UnresolvedLe, done.unresolved)
      && (forall f :: f in done.nodes <==> f in facts.nodes)
      && (forall f :: f in done.edges <==> f in facts.edges)
      && (forall f :: f in done.unresolved <==> f in facts.unresolved)
  {
    FactsTotal();
    hide *;
    SortDedupCanonical(NodeLe, facts.nodes, facts.nodes);
    SortDedupCanonical(EdgeLe, facts.edges, facts.edges);
    SortDedupCanonical(UnresolvedLe, facts.unresolved, facts.unresolved);
    FinishLists(facts, warnings);
  }

  lemma FinishLists(facts: RepositoryFacts, warnings: multiset<Warning>)
    ensures Finish(facts, warnings) ==
            Loaded(RepositoryFacts(Dedup(Sort(NodeLe, facts.nodes)), Dedup(Sort(EdgeLe, facts.edges)),
                                   Dedup(Sort(UnresolvedLe, facts.unresolved))), warnings)
  {
  }

  /** Loading succeeds exactly on loadable lists, and then yields exactly the facts they describe. */
  lemma BuildExact(s: Schema, records: seq<FactRecord>)
    ensures Build(s, records).Success? <==> Loadable(s, records)
    ensures Build(s, records).Success? ==> Describes(s, records, Build(s, records).value.facts)
  {
    NodesExact(s, records);
    hide CollectNodes, ConvertNodes, InOrder, Consistent, KeysDistinct, NodeConvertible, EdgesIn, UnresolvedIn, Gather;
    hide EdgeConvertible, UnresolvedConvertible, Indexes, ConvertEdge, ConvertUnresolved, NodeGives, EdgeGives, UnresolvedGives;
    hide Finish, WarningSum, StrictlySorted;
    if NodesLoadable(s, records) {
      var state := NodesOf(s, records).value;
      EdgesExact(s, records, state.ids);
      UnresolvedsExact(s, records, state.ids);
      if Build(s, records).Success? {
        var edges := Gather((e: EdgeRecord) => ConvertEdge(s, state.ids, e), EdgesIn(records)).value;
        var unresolved := Gather((u: UnresolvedRecord) => ConvertUnresolved(s, state.ids, u), UnresolvedIn(records)).value;
        FinishExact(RepositoryFacts(state.facts, edges.0, unresolved.0), state.warnings + edges.1 + unresolved.1);
      }
    }
  }

  /** A node of an unrecognised kind is loaded as a symbol, the sixth kind of the declaration, with all else it says. */
  lemma UnrecognisedKind(s: Schema, records: seq<FactRecord>, n: NodeRecord)
    requires Build(s, records).Success? && Node(n) in records && s.nodeKind(n.kind).None?
    ensures exists f :: f in Build(s, records).value.facts.nodes
              && f.kind == 5 && f.key == s.nodeKey(n.id) && f.name == n.name && f.qualifiedName == n.qualifiedName
              && s.normalize(n.path) == Some(f.path)
  {
    hide CollectNodes, ConvertNodes, InOrder, Finish, BuildRelations, Build, StrictlySorted;
    BuildExact(s, records);
    var facts := Build(s, records).value.facts;
    assert NodeConvertible(s, n);
    var f := NodeFactOf(s, n);
    assert NodeGives(s, n, f);
    assert f in facts.nodes;
  }

  // ----- order does not matter -----

  lemma SameNodes(a: seq<FactRecord>, b: seq<FactRecord>)
    requires forall r :: r in a <==> r in b
    requires CollectNodes(a).Success? && CollectNodes(b).Success?
    ensures CollectNodes(a) == CollectNodes(b)
  {
    CollectExact(a);
    CollectExact(b);
    hide CollectNodes, Consistent;
    var m, n := CollectNodes(a).value, CollectNodes(b).value;
    forall i ensures i in m <==> i in n {
      if i in m { assert Node(m[i]) in b; }
      if i in n { assert Node(n[i]) in a; }
    }
    forall i | i in m ensures m[i] == n[i] {
      assert Node(m[i]) in b;
    }
    assert m == n;
  }

  lemma SameFacts(s: Schema, a: seq<FactRecord>, b: seq<FactRecord>, x: RepositoryFacts, y: RepositoryFacts)
    requires forall r :: r in a <==> r in b
    requires Describes(s, a, x) && Describes(s, b, y)
    ensures x == y
  {
    FactsTotal();
    hide NodeGives, EdgeGives, UnresolvedGives, NodeLe, EdgeLe, UnresolvedLe, StrictlySorted, TotalOrder;
    StrictUnique(NodeLe, x.nodes, y.nodes);
    StrictUnique(EdgeLe, x.edges, y.edges);
    StrictUnique(UnresolvedLe, x.unresolved, y.unresolved);
  }

  function EdgeWarnings(s: Schema, ids: map<Identity, NodeKey>, records: seq<FactRecord>): multiset<Warning> {
    WarningSum((e: EdgeRecord) => ConvertEdge(s, ids, e), EdgesIn(records))
  }

  function UnresolvedWarnings(s: Schema, ids: map<Identity, NodeKey>, records: seq<FactRecord>): multiset<Warning> {
    WarningSum((u: UnresolvedRecord) => ConvertUnresolved(s, ids, u), UnresolvedIn(records))
  }

  lemma BuildWarnings(s: Schema, records: seq<FactRecord>)
    requires Build(s, records).Success?
    ensures NodesOf(s, records).Success?
    ensures var state := NodesOf(s, records).value;
      Build(s, records).value.warnings ==
      state.warnings + EdgeWarnings(s, state.ids, records) + UnresolvedWarnings(s, state.ids, records)
  {
    hide CollectNodes, ConvertNodes, InOrder, Gather, ConvertEdge, ConvertUnresolved, EdgesIn, UnresolvedIn, WarningSum;
    var state := NodesOf(s, records).value;
    GatherExact((e: EdgeRecord) => ConvertEdge(s, state.ids, e), EdgesIn(records));
    GatherExact((u: UnresolvedRecord) => ConvertUnresolved(s, state.ids, u), UnresolvedIn(records));
  }

  lemma WarningSumPermuted<A, T>(convert: A -> Conversion<T>, a: seq<A>, b: seq<A>)
    requires multiset(a) == multiset(b)
    ensures WarningSum(convert, a) == WarningSum(convert, b)
  {
    TotalPermuted((r: A) => convert(r).warnings, a, b);
  }

  lemma SameWarnings(s: Schema, a: seq<FactRecord>, b: seq<FactRecord>, ids: map<Identity, NodeKey>)
    requires multiset(a) == multiset(b)
    ensures EdgeWarnings(s, ids, a) == EdgeWarnings(s, ids, b)
    ensures UnresolvedWarnings(s, ids, a) == UnresolvedWarnings(s, ids, b)
  {
    EdgeCounts(a);
    EdgeCounts(b);
    UnresolvedCounts(a);
    UnresolvedCounts(b);
    hide EdgesIn, UnresolvedIn, WarningSum, ConvertEdge, ConvertUnresolved;
    assert multiset(EdgesIn(a)) == multiset(EdgesIn(b));
    assert multiset(UnresolvedIn(a)) == multiset(UnresolvedIn(b));
    WarningSumPermuted((e: EdgeRecord) => ConvertEdge(s, ids, e), EdgesIn(a), EdgesIn(b));
    WarningSumPermuted((u: UnresolvedRecord) => ConvertUnresolved(s, ids, u), UnresolvedIn(a), UnresolvedIn(b));
  }

  /** The records of a list in any other order load alike: the same outcome, facts and warnings. */
  lemma OrderIndependent(s: Schema, a: seq<FactRecord>, b: seq<FactRecord>)
    requires multiset(a) == multiset(b)
    ensures Build(s, a).Success? <==> Build(s, b).Success?
    ensures Build(s, a).Success? ==> Build(s, a) == Build(s, b)
  {
    SameMembers(a, b);
    BuildExact(s, a);
    BuildExact(s, b);
    SameLoadable(s, a, b);
    hide Loadable, Describes, Build, CollectNodes, ConvertNodes, EdgeWarnings, UnresolvedWarnings, InOrder;
    if Build(s, a).Success? {
      SameFacts(s, a, b, Build(s, a).value.facts, Build(s, b).value.facts);
      BuildWarnings(s, a);
      BuildWarnings(s, b);
      SameNodes(a, b);
      SameWarnings(s, a, b, NodesOf(s, a).value.ids);
    }
  }

  lemma SameLoadable(s: Schema, a: seq<FactRecord>, b: seq<FactRecord>)
    requires forall r :: r in a <==> r in b
    ensures Loadable(s, a) <==> Loadable(s, b)
  {
    assert forall reference :: Known(a, reference) <==> Known(b, reference);
    hide NodeConvertible, OwnerValid, SpanConvertible, Known;
  }

  // ----- references are closed -----

  /** A key reference that some node record of the list bears. */
  ghost predicate Keyed(s: Schema, records: seq<FactRecord>, reference: NodeReference) {
    reference.ByKey? ==> exists n: NodeRecord :: Node(n) in records && s.nodeKey(n.id) == reference.key
  }

  /** Every key reference of the relations is borne by a node record. */
  ghost predicate AllKeyed(s: Schema, records: seq<FactRecord>) {
    && (forall e: EdgeRecord :: Edge(e) in records ==> Keyed(s, records, e.source) && Keyed(s, records, e.target))
    && (forall u: UnresolvedRecord :: Unresolved(u) in records ==> Keyed(s, records, u.source))
  }

  /** Exactly one node fact has the key. */
  ghost predicate OneNode(facts: RepositoryFacts, key: NodeKey) {
    exists i: nat :: IsOnly(facts.nodes, key, i)
  }

  ghost predicate IsOnly(nodes: seq<NodeFact>, key: NodeKey, i: nat) {
    && i < |nodes| && nodes[i].key == key
    && forall j :: 0 <= j < |nodes| && nodes[j].key == key ==> j == i
  }

  ghost predicate Closed(facts: RepositoryFacts) {
    && (forall e :: e in facts.edges ==> OneNode(facts, e.source) && OneNode(facts, e.target))
    && (forall u :: u in facts.unresolved ==> OneNode(facts, u.source))
  }

  lemma OneNodeOf(s: Schema, records: seq<FactRecord>, facts: RepositoryFacts, n: NodeRecord)
    requires NodesLoadable(s, records) && Describes(s, records, facts) && Node(n) in records
    ensures OneNode(facts, s.nodeKey(n.id))
  {
    hide NodeConvertible, EdgeGives, UnresolvedGives, NodeLe, EdgeLe, UnresolvedLe;
    var f := NodeFactOf(s, n);
    assert NodeGives(s, n, f);
    assert f in facts.nodes;
    var i :| 0 <= i < |facts.nodes| && facts.nodes[i] == f;
    forall j | 0 <= j < |facts.nodes| && facts.nodes[j].key == f.key ensures j == i {
      assert facts.nodes[j] in facts.nodes;
      var m: NodeRecord :| Node(m) in records && NodeGives(s, m, facts.nodes[j]);
      assert m.id == n.id && m == n;
      assert facts.nodes[j] == facts.nodes[i];
    }
    assert IsOnly(facts.nodes, f.key, i);
  }

  lemma ReferenceClosed(s: Schema, records: seq<FactRecord>, facts: RepositoryFacts, reference: NodeReference)
    requires NodesLoadable(s, records) && Describes(s, records, facts)
    requires Known(records, reference) && Keyed(s, records, reference)
    ensures OneNode(facts, KeyOf(s, reference))
  {
    hide Describes, NodesLoadable, OneNode;
    match reference
    case ByKey(key) =>
      var n: NodeRecord :| Node(n) in records && s.nodeKey(n.id) == key;
      OneNodeOf(s, records, facts, n);
    case ByIdentity(identity) =>
      var n: NodeRecord :| Node(n) in records && n.id == identity;
      OneNodeOf(s, records, facts, n);
  }

  lemma EdgeClosed(s: Schema, records: seq<FactRecord>, facts: RepositoryFacts, e: EdgeFact)
    requires Loadable(s, records) && Describes(s, records, facts) && AllKeyed(s, records) && e in facts.edges
    ensures OneNode(facts, e.source) && OneNode(facts, e.target)
  {
    hide Consistent, KeysDistinct, NodeConvertible, NodeGives, UnresolvedGives, UnresolvedConvertible, StrictlySorted;
    hide Known, Keyed, OneNode, OwnerValid, SpanConvertible;
    var r: EdgeRecord :| Edge(r) in records && EdgeGives(s, r, e);
    ReferenceClosed(s, records, facts, r.source);
    ReferenceClosed(s, records, facts, r.target);
  }

  lemma UnresolvedClosed(s: Schema, records: seq<FactRecord>, facts: RepositoryFacts, u: UnresolvedFact)
    requires Loadable(s, records) && Describes(s, records, facts) && AllKeyed(s, records) && u in facts.unresolved
    ensures OneNode(facts, u.source)
  {
    hide Consistent, KeysDistinct, NodeConvertible, NodeGives, EdgeGives, EdgeConvertible, StrictlySorted;
    hide Known, Keyed, OneNode, OwnerValid, SpanConvertible;
    var r: UnresolvedRecord :| Unresolved(r) in records && UnresolvedGives(s, r, u);
    ReferenceClosed(s, records, facts, r.source);
  }

  /** If every key reference is borne by a node record, loading leaves no dangling or ambiguous reference. */
  lemma LoadCloses(s: Schema, records: seq<FactRecord>)
    requires Build(s, records).Success? && AllKeyed(s, records)
    ensures Closed(Build(s, records).value.facts)
  {
    BuildExact(s, records);
    var facts := Build(s, records).value.facts;
    hide Build, Loadable, Describes, AllKeyed, OneNode;
    forall e | e in facts.edges ensures OneNode(facts, e.source) && OneNode(facts, e.target) {
      EdgeClosed(s, records, facts, e);
    }
    forall u | u in facts.unresolved ensures OneNode(facts, u.source) {
      UnresolvedClosed(s, records, facts, u);
    }
  }

  // ----- what the warnings count -----

  function Occurrences<A>(p: A -> bool, records: seq<A>): nat {
    if records == [] then 0
    else Occurrences(p, records[..|records| - 1]) + if p(records[|records| - 1]) then 1 else 0
  }

  lemma {:induction false} WarningSumCounts<A, T>(convert: A -> Conversion<T>, records: seq<A>, w: Warning, p: A -> bool)
    requires forall r :: r in records ==> convert(r).warnings[w] == if p(r) then 1 else 0
    ensures WarningSum(convert, records)[w] == Occurrences(p, records)
  {
    if records != [] {
      assert records[|records| - 1] in records;
      WarningSumCounts(convert, records[..|records| - 1], w, p);
    }
  }

  lemma {:induction false} NodeWarnings(s: Schema, records: seq<NodeRecord>, w: Warning)
    requires ConvertNodes(s, records).Success?
    ensures ConvertNodes(s, records).value.warnings[w] ==
            Occurrences((n: NodeRecord) => w == UnknownNodeKind(n.kind) && s.nodeKind(n.kind).None?, records)
  {
    if records != [] { NodeWarnings(s, records[..|records| - 1], w); }
  }

  /** How often a message is counted: per distinct node, per edge and per unresolved reference of its label. */
  ghost function WarningCount(s: Schema, records: seq<FactRecord>, w: Warning): nat
    requires CollectNodes(records).Success?
  {
    match w
    case UnknownNodeKind(kind) =>
      Occurrences((n: NodeRecord) => n.kind == kind && s.nodeKind(kind).None?, InOrder(CollectNodes(records).value))
    case UnknownEdgeRelation(relation) =>
      Occurrences((e: EdgeRecord) => e.relation == relation && s.relationKind(relation).None?, EdgesIn(records))
    case UnknownUnresolvedRelation(relation) =>
      Occurrences((u: UnresolvedRecord) => u.relation == relation && s.relationKind(relation).None?, UnresolvedIn(records))
    case UnknownReason(reason) =>
      Occurrences((u: UnresolvedRecord) => u.reason == reason && s.relationKind(u.relation).Some? && IsUnknown(s, reason),
                  UnresolvedIn(records))
  }

  predicate IsUnknown(s: Schema, reason: Text) {
    s.reason(reason).Some? && s.reason(reason).value.Unknown?
  }

  lemma WarningsExact(s: Schema, records: seq<FactRecord>, w: Warning)
    requires Build(s, records).Success?
    ensures CollectNodes(records).Success?
    ensures Build(s, records).value.warnings[w] == WarningCount(s, records, w)
  {
    BuildWarnings(s, records);
    BuildExact(s, records);
    NodesExact(s, records);
    hide Build, Describes, CollectNodes, ConvertNodes, InOrder;
    var ordered := InOrder(CollectNodes(records).value);
    var state := NodesOf(s, records).value;
    NodeWarnings(s, ordered, w);
    EdgeWarningCount(s, records, state.ids, w);
    UnresolvedWarningCount(s, records, state.ids, w);
    SameOccurrences((n: NodeRecord) => w == UnknownNodeKind(n.kind) && s.nodeKind(n.kind).None?,
                    (n: NodeRecord) => w.UnknownNodeKind? && n.kind == w.text && s.nodeKind(w.text).None?, ordered);
    if w.UnknownNodeKind? {
      SameOccurrences((n: NodeRecord) => w.UnknownNodeKind? && n.kind == w.text && s.nodeKind(w.text).None?,
                      (n: NodeRecord) => n.kind == w.text && s.nodeKind(w.text).None?, ordered);
    } else {
      NoOccurrences((n: NodeRecord) => w == UnknownNodeKind(n.kind) && s.nodeKind(n.kind).None?, ordered);
    }
  }

  lemma {:induction false} SameOccurrences<A>(p: A -> bool, q: A -> bool, records: seq<A>)
    requires forall r :: r in records ==> p(r) == q(r)
    ensures Occurrences(p, records) == Occurrences(q, records)
  {
    if records != [] {
      assert records[|records| - 1] in records;
      SameOccurrences(p, q, records[..|records| - 1]);
    }
  }

  lemma {:induction false} NoOccurrences<A>(p: A -> bool, records: seq<A>)
    requires forall r :: r in records ==> !p(r)
    ensures Occurrences(p, records) == 0
  {
    if records != [] {
      assert records[|records| - 1] in records;
      NoOccurrences(p, records[..|records| - 1]);
    }
  }

  lemma EdgeWarningCount(s: Schema, records: seq<FactRecord>, ids: map<Identity, NodeKey>, w: Warning)
    requires Indexes(s, records, ids)
    requires forall e: EdgeRecord :: Edge(e) in records ==> EdgeConvertible(s, records, e)
    ensures EdgeWarnings(s, ids, records)[w] ==
            if !w.UnknownEdgeRelation? then 0
            else Occurrences((e: EdgeRecord) => e.relation == w.text && s.relationKind(w.text).None?, EdgesIn(records))
  {
    var convert := (e: EdgeRecord) => ConvertEdge(s, ids, e);
    var p := (e: EdgeRecord) => w.UnknownEdgeRelation? && e.relation == w.text && s.relationKind(w.text).None?;
    MembersIn(records);
    hide EdgesIn;
    forall e | e in EdgesIn(records) ensures convert(e).warnings[w] == if p(e) then 1 else 0 {
      EdgeExact(s, records, ids, e);
      hide EdgeConvertible, Indexes;
    }
    WarningSumCounts(convert, EdgesIn(records), w, p);
    if w.UnknownEdgeRelation? {
      SameOccurrences(p, (e: EdgeRecord) => e.relation == w.text && s.relationKind(w.text).None?, EdgesIn(records));
    } else {
      NoOccurrences(p, EdgesIn(records));
    }
  }

  lemma UnresolvedWarningCount(s: Schema, records: seq<FactRecord>, ids: map<Identity, NodeKey>, w: Warning)
    requires Indexes(s, records, ids)
    requires forall u: UnresolvedRecord :: Unresolved(u) in records ==> UnresolvedConvertible(s, records, u)
    ensures var unresolved := UnresolvedIn(records);
      UnresolvedWarnings(s, ids, records)[w] ==
      match w
      case UnknownUnresolvedRelation(relation) =>
        Occurrences((u: UnresolvedRecord) => u.relation == relation && s.relationKind(relation).None?, unresolved)
      case UnknownReason(reason) =>
        Occurrences((u: UnresolvedRecord) => u.reason == reason && s.relationKind(u.relation).Some? && IsUnknown(s, reason),
                    unresolved)
      case _ => 0
  {
    var convert := (u: UnresolvedRecord) => ConvertUnresolved(s, ids, u);
    var relation := (u: UnresolvedRecord) => w.UnknownUnresolvedRelation? && u.relation == w.text && s.relationKind(w.text).None?;
    var reason := (u: UnresolvedRecord) =>
      w.UnknownReason? && u.reason == w.text && s.relationKind(u.relation).Some? && IsUnknown(s, w.text);
    var p := (u: UnresolvedRecord) => relation(u) || reason(u);
    var unresolved := UnresolvedIn(records);
    MembersIn(records);
    hide UnresolvedIn;
    forall u | u in unresolved ensures convert(u).warnings[w] == if p(u) then 1 else 0 {
      UnresolvedExact(s, records, ids, u);
      hide UnresolvedConvertible, Indexes;
    }
    WarningSumCounts(convert, unresolved, w, p);
    match w
    case UnknownUnresolvedRelation(t) =>
      SameOccurrences(p, (u: UnresolvedRecord) => u.relation == t && s.relationKind(t).None?, unresolved);
    case UnknownReason(t) =>
      SameOccurrences(p, (u: UnresolvedRecord) => u.reason == t && s.relationKind(u.relation).Some? && IsUnknown(s, t),
                      unresolved);
    case _ => NoOccurrences(p, unresolved);
  }

  // ----- the loops -----

  method AscendingKeys(nodes: map<Identity, NodeRecord>) returns (ids: seq<Identity>)
    ensures ids == AscendingIds(nodes.Keys)
  {
    FactsTotal();
    ids := [];
    var rest := nodes.Keys;
    while rest != {}
      invariant rest <= nodes.Keys
      invariant StrictlySorted(IdentityLe, ids)
      invariant forall i :: i in ids <==> i in nodes.Keys - rest
      decreases |rest|
    {
      var next :| next in rest;
      StrictInsert(IdentityLe, next, ids);
      ids := InsertInto(IdentityLe, next, ids);
      rest := rest - {next};
    }
    StrictUnique(IdentityLe, ids, AscendingIds(nodes.Keys));
  }

  lemma {:induction false} CollectPrefix(records: seq<FactRecord>, k: nat)
    requires k <= |records| && CollectNodes(records[..k]).Failure?
    ensures CollectNodes(records) == CollectNodes(records[..k])
  {
    if k < |records| {
      assert records[..|records| - 1][..k] == records[..k];
      CollectPrefix(records[..|records| - 1], k);
    } else {
      assert records[..k] == records;
    }
  }

  lemma {:induction false} ConvertPrefix(s: Schema, records: seq<NodeRecord>, k: nat)
    requires k <= |records| && ConvertNodes(s, records[..k]).Failure?
    ensures ConvertNodes(s, records) == ConvertNodes(s, records[..k])
  {
    if k < |records| {
      assert records[..|records| - 1][..k] == records[..k];
      ConvertPrefix(s, records[..|records| - 1], k);
    } else {
      assert records[..k] == records;
    }
  }

  lemma {:induction false} GatherPrefix<A, T>(convert: A -> Conversion<T>, records: seq<A>, k: nat)
    requires k <= |records| && Gather(convert, records[..k]).Failure?
    ensures Gather(convert, records) == Gather(convert, records[..k])
  {
    if k < |records| {
      assert records[..|records| - 1][..k] == records[..k];
      GatherPrefix(convert, records[..|records| - 1], k);
    } else {
      assert records[..k] == records;
    }
  }

  method SplitRecords(records: seq<FactRecord>)
    returns (r: Result<(map<Identity, NodeRecord>, seq<EdgeRecord>, seq<UnresolvedRecord>), LoadError>)
    ensures r == match CollectNodes(records)
                 case Failure(error) => Failure(error)
                 case Success(nodes) => Success((nodes, EdgesIn(records), UnresolvedIn(records)))
  {
    var nodes: map<Identity, NodeRecord>, edges: seq<EdgeRecord>, unresolved: seq<UnresolvedRecord> := map[], [], [];
    var i := 0;
    while i < |records|
      invariant 0 <= i <= |records|
      invariant CollectNodes(records[..i]) == Success(nodes)
      invariant edges == EdgesIn(records[..i]) && unresolved == UnresolvedIn(records[..i])
    {
      assert records[..i + 1][..i] == records[..i];
      match records[i] {
        case Node(record) =>
          var inserted := InsertNode(nodes, record);
          if inserted.Failure? {
            CollectPrefix(records, i + 1);
            return Failure(inserted.error);
          }
          nodes := inserted.value;
        case Edge(record) => edges := edges + [record];
        case Unresolved(record) => unresolved := unresolved + [record];
      }
      i := i + 1;
    }
    assert records[..i] == records;
    return Success((nodes, edges, unresolved));
  }

  /** `into_values`: the node records by ascending identity. */
  method IntoValues(nodes: map<Identity, NodeRecord>) returns (ordered: seq<NodeRecord>)
    ensures ordered == InOrder(nodes)
  {
    var ids := AscendingKeys(nodes);
    ordered := seq(|ids|, i requires 0 <= i < |ids| => nodes[ids[i]]);
  }

  method ConvertAll(s: Schema, records: seq<NodeRecord>) returns (r: Result<NodeState, LoadError>)
    ensures r == ConvertNodes(s, records)
  {
    hide ConvertNode;
    var state := NO_NODES;
    var i := 0;
    while i < |records|
      invariant 0 <= i <= |records| && ConvertNodes(s, records[..i]) == Success(state)
    {
      assert records[..i + 1][..i] == records[..i];
      var converted := ConvertNode(s, state, records[i]);
      if converted.Failure? {
        ConvertPrefix(s, records, i + 1);
        return converted;
      }
      state := converted.value;
      i := i + 1;
    }
    assert records[..i] == records;
    return Success(state);
  }

  method ConvertEdges(s: Schema, ids: map<Identity, NodeKey>, edges: seq<EdgeRecord>)
    returns (r: Result<(seq<EdgeFact>, multiset<Warning>), LoadError>)
    ensures r == Gather((e: EdgeRecord) => ConvertEdge(s, ids, e), edges)
  {
    hide ConvertEdge;
    ghost var convert := (e: EdgeRecord) => ConvertEdge(s, ids, e);
    var facts: seq<EdgeFact>, warnings: multiset<Warning> := [], multiset{};
    var i := 0;
    while i < |edges|
      invariant 0 <= i <= |edges| && Gather(convert, edges[..i]) == Success((facts, warnings))
    {
      assert edges[..i + 1][..i] == edges[..i];
      var converted := ConvertEdge(s, ids, edges[i]);
      if converted.result.Failure? {
        GatherPrefix(convert, edges, i + 1);
        return Failure(converted.result.error);
      }
      warnings := warnings + converted.warnings;
      if converted.result.value.Some? { facts := facts + [converted.result.value.value]; }
      i := i + 1;
    }
    assert edges[..i] == edges;
    return Success((facts, warnings));
  }

  method ConvertReferences(s: Schema, ids: map<Identity, NodeKey>, unresolved: seq<UnresolvedRecord>)
    returns (r: Result<(seq<UnresolvedFact>, multiset<Warning>), LoadError>)
    ensures r == Gather((u: UnresolvedRecord) => ConvertUnresolved(s, ids, u), unresolved)
  {
    hide ConvertUnresolved;
    ghost var convert := (u: UnresolvedRecord) => ConvertUnresolved(s, ids, u);
    var facts: seq<UnresolvedFact>, warnings: multiset<Warning> := [], multiset{};
    var i := 0;
    while i < |unresolved|
      invariant 0 <= i <= |unresolved| && Gather(convert, unresolved[..i]) == Success((facts, warnings))
    {
      assert unresolved[..i + 1][..i] == unresolved[..i];
      var converted := ConvertUnresolved(s, ids, unresolved[i]);
      if converted.result.Failure? {
        GatherPrefix(convert, unresolved, i + 1);
        return Failure(converted.result.error);
      }
      warnings := warnings + converted.warnings;
      if converted.result.value.Some? { facts := facts + [converted.result.value.value]; }
      i := i + 1;
    }
    assert unresolved[..i] == unresolved;
    return Success((facts, warnings));
  }

  method BuildRepositoryFacts(s: Schema, records: seq<FactRecord>) returns (r: Result<Loaded, LoadError>)
    ensures r == Build(s, records)
  {
    hide CollectNodes, ConvertNodes, Gather, ConvertEdge, ConvertUnresolved, Finish, InOrder, EdgesIn, UnresolvedIn;
    var split :- SplitRecords(records);
    var ordered := IntoValues(split.0);
    var state :- ConvertAll(s, ordered);
    var edges :- ConvertEdges(s, state.ids, split.1);
    var unresolved :- ConvertReferences(s, state.ids, split.2);
    return Success(Finish(RepositoryFacts(state.facts, edges.0, unresolved.0), state.warnings + edges.1 + unresolved.1));
  }
}
