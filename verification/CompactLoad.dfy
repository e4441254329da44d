/**
 arcana/src/lexicon/stream_compact.rs, snapshot_compact.rs and snapshot_compact_visit.rs: loading a
 snapshot through the streaming decoder into a staged repository.

 The pass is a value here, because the decoder threads it through callbacks. Interned strings are the
 strings themselves, and the arena that holds them does not fill up. The hash of a signature and the sort
 by key are parameters. The main result: the compact load succeeds exactly when `load` does and holds the
 same facts.
 */
module CompactLoad {
  import opened Wrappers
  import opened Lexicon
  import opened Ordering
  import opened Facts
  import opened Records
  import opened Reader
  import opened BinaryObject
  import opened StreamRecords
  import opened SnapshotManifest
  import opened SnapshotLoad
  import opened StagedNodes
  import Stream = BinaryStream
  import Signature = NodeSignature

  datatype Pass = Pass(nodes: seq<StagedNode>, edges: seq<EdgeFact>, unresolved: seq<UnresolvedFact>,
                       planned: RecordCounts, related: RecordCounts, warnings: multiset<Warning>)

  const FRESH := Pass([], [], [], RecordCounts(0, 0, 0), RecordCounts(0, 0, 0), multiset{})

  /** The hash behind a signature, and whatever the unstable sort makes of nodes with equal keys. */
  datatype Machinery = Machinery(digest: seq<byte> -> Text, sort: seq<StagedNode> -> seq<StagedNode>)

  // ----- the ingest functions -----

  function ReserveObject(p: Pass, counts: RecordCounts): (Pass, Option<SnapshotError>) {
    match CheckedAdd(p.planned, counts)
    case None => (p, Some(RecordError(CountOverflow)))
    case Some(total) => (p.(planned := total), None)
  }

  function ReserveRelations(p: Pass, counts: RecordCounts): (Pass, Option<SnapshotError>) {
    match CheckedAdd(p.related, RecordCounts(0, counts.edges, counts.unresolved))
    case None => (p, Some(RecordError(CountOverflow)))
    case Some(total) =>
      (p.(related := total),
       if total.edges > p.planned.edges || total.unresolved > p.planned.unresolved then Some(RelationCountExceedsPlan) else None)
  }

  function Stage(s: Schema, digest: seq<byte> -> Text, n: NodeRecord): Result<StagedNode, LoadError> {
    var _ :- ValidateOwner(s, n.owner);
    var path :- NormalizePath(s, n.path);
    if n.qualifiedName == [] then Failure(EmptyQualifiedName)
    else
      var kind := s.nodeKind(n.kind);
      var span :- ConvertSpan(s, n.span);
      Success(StagedNode(s.nodeKey(n.id), n.id, digest(Signature.Preimage(n)),
                         if n.contentId.Some? then Some(s.contentId(n.contentId.value)) else None, n.owner,
                         if kind.Some? then kind.value else SYMBOL, path, n.name, n.qualifiedName, span))
  }

  function KindWarning(s: Schema, n: NodeRecord): multiset<Warning> {
    if s.nodeKind(n.kind).Some? then multiset{} else multiset{UnknownNodeKind(n.kind)}
  }

  function StageRecord(s: Schema, digest: seq<byte> -> Text, p: Pass, record: FactRecord): (Pass, Option<SnapshotError>) {
    if !record.Node? then (p, None)
    else
      match Stage(s, digest, record.node)
      case Failure(error) => (p, Some(RecordError(error)))
      case Success(node) => (p.(nodes := p.nodes + [node], warnings := p.warnings + KindWarning(s, record.node)), None)
  }

  /** `resolve`: an identity must be staged, a key is taken as it is. */
  function Resolve(s: Schema, nodes: seq<StagedNode>, reference: NodeReference): Result<NodeKey, LoadError> {
    match reference
    case ByKey(key) => Success(key)
    case ByIdentity(identity) =>
      var key := s.nodeKey(identity);
      if ContainsIdentity(nodes, key, identity) then Success(key) else Failure(UnknownRelationshipNode)
  }

  function ResolveIn(s: Schema, nodes: seq<StagedNode>): Resolver {
    reference => Resolve(s, nodes, reference)
  }

  function RelateRecord(s: Schema, resolve: Resolver, p: Pass, record: FactRecord): (Pass, Option<SnapshotError>) {
    match record
    case Node(_) => (p, None)
    case Edge(e) =>
      var c := EdgeWith(s, resolve, e);
      var counted := p.(warnings := p.warnings + c.warnings);
      if c.result.Failure? then (counted, Some(RecordError(c.result.error)))
      else if c.result.value.None? then (counted, None)
      else (counted.(edges := p.edges + [c.result.value.value]), None)
    case Unresolved(u) =>
      var c := UnresolvedWith(s, resolve, u);
      var counted := p.(warnings := p.warnings + c.warnings);
      if c.result.Failure? then (counted, Some(RecordError(c.result.error)))
      else if c.result.value.None? then (counted, None)
      else (counted.(unresolved := p.unresolved + [c.result.value.value]), None)
  }

  // ----- one object -----

  type Call<!R> = (Pass, R) -> (Pass, Option<SnapshotError>)

  function Run(visit: Call<FactRecord>, p: Pass, records: seq<FactRecord>): Result<Pass, SnapshotError>
    decreases |records|
  {
    if records == [] then Success(p)
    else
      var (after, failure) := visit(p, records[0]);
      if failure.Some? then Failure(failure.value) else Run(visit, after, records[1..])
  }

  function EndOf(v: Stream.Visited<Pass, FactRecord, SnapshotError, FactObject>): Result<FactObject, SnapshotError> {
    match v.end
    case Success(o) => Success(o)
    case Failure(Decode(reason)) => Failure(UndecodableObject(reason))
    case Failure(Callback(error)) => Failure(error)
  }

  /** An object streamed to the callbacks, or parsed and then handed to them if it is of an older format. */
  function VisitObject(w: World, slot: Slot, selection: RecordSelection, p: Pass, reserve: Call<RecordCounts>,
                       visit: Call<FactRecord>, validate: bool)
    : Result<Pass, SnapshotError>
    requires selection != All
  {
    var _ :- ValidateId(slot.objectId);
    match w.store.object_(slot.objectId)
    case None => Failure(UnreadableObject(slot.objectId))
    case Some(bytes) =>
      if MAGIC <= bytes then
        var v := Stream.VisitObject(CodecOf(w), bytes, selection, p, reserve, visit);
        var o :- EndOf(v);
        var _ :- if validate then ValidateSlot(w, o, slot) else Success(());
        Success(v.context)
      else
        var (o, counts) :- Legacy(w, bytes, selection);
        var _ :- if validate then ValidateSlot(w, o, slot) else Success(());
        var (reserved, refused) := reserve(p, counts);
        if refused.Some? then Failure(refused.value) else Run(visit, reserved, o.records)
  }

  lemma {:induction false} RunFolds(visit: Call<FactRecord>, p: Pass, records: seq<FactRecord>)
    ensures Run(visit, p, records).Success? <==> Stream.Accepts(visit, p, records)
    ensures Run(visit, p, records).Success? ==> Run(visit, p, records).value == Stream.Fold(visit, p, records)
    decreases |records|
  {
    if records != [] { RunFolds(visit, visit(p, records[0]).0, records[1..]); }
  }

  /** A callback that does not look at the attributes of relations. */
  ghost predicate Oblivious(visit: Call<FactRecord>) {
    forall p, r :: visit(p, Stream.Streamed(r)) == visit(p, r)
  }

  lemma {:induction false} RunStreamed(visit: Call<FactRecord>, p: Pass, records: seq<FactRecord>)
    requires Oblivious(visit)
    ensures Run(visit, p, Map(Stream.Streamed, records)) == Run(visit, p, records)
    decreases |records|
  {
    if records != [] {
      assert visit(p, Stream.Streamed(records[0])) == visit(p, records[0]);
      RunStreamed(visit, visit(p, records[0]).0, records[1..]);
      assert Map(Stream.Streamed, records)[1..] == Map(Stream.Streamed, records[1..]);
    }
  }

  /**
   Streaming an object is reading it with the selection, checking it, reserving for its counts and running
   its records: the same successes and the same pass.
   */
  lemma VisitObjectExact(w: World, slot: Slot, selection: RecordSelection, p: Pass, reserve: Call<RecordCounts>,
                         visit: Call<FactRecord>, validate: bool)
    requires selection != All && Oblivious(visit)
    ensures var r, read := VisitObject(w, slot, selection, p, reserve, visit, validate), ReadObject(w, slot.objectId, selection);
      && (r.Success? <==>
            && read.Success? && (validate ==> ValidateSlot(w, read.value.0, slot).Success?)
            && reserve(p, read.value.1).1.None?
            && Run(visit, reserve(p, read.value.1).0, read.value.0.records).Success?)
      && (r.Success? ==> r.value == Run(visit, reserve(p, read.value.1).0, read.value.0.records).value)
  {
    hide ValidateSlot, ParseObject, Stream.VisitObject, Oblivious, Legacy, ValidId, EnvelopeOf, Stream.ReadableOf;
    if ValidateId(slot.objectId).Success? && w.store.object_(slot.objectId).Some? {
      var bytes := w.store.object_(slot.objectId).value;
      if MAGIC <= bytes {
        StreamedExact(CodecOf(w), bytes, selection, p, reserve, visit);
        var parsed := ParseObject(CodecOf(w), bytes, selection);
        if parsed.Ok? { SameChecks(w, parsed.value.0, slot); }
      }
    }
  }

  lemma SameChecks(w: World, o: FactObject, slot: Slot)
    ensures ValidateSlot(w, o.(records := []), slot) == ValidateSlot(w, o, slot)
  {
  }

  lemma StreamedExact(c: Codec, bytes: seq<byte>, selection: RecordSelection, p: Pass, reserve: Call<RecordCounts>,
                      visit: Call<FactRecord>)
    requires selection != All && Oblivious(visit)
    ensures var v, parsed := Stream.VisitObject(c, bytes, selection, p, reserve, visit), ParseObject(c, bytes, selection);
      && (v.end.Success? <==>
            && parsed.Ok? && reserve(p, parsed.value.1).1.None?
            && Run(visit, reserve(p, parsed.value.1).0, parsed.value.0.records).Success?)
      && (v.end.Success? ==>
            && v.end.value == parsed.value.0.(records := [])
            && v.context == Run(visit, reserve(p, parsed.value.1).0, parsed.value.0.records).value)
  {
    Stream.StreamingCollects(c, bytes, selection, p, reserve, visit);
    hide ParseObject, Stream.VisitObject, Oblivious, Stream.Accepts, Stream.Fold, Run, Map;
    var parsed := ParseObject(c, bytes, selection);
    if parsed.Ok? {
      var after := reserve(p, parsed.value.1).0;
      RunFolds(visit, after, Map(Stream.Streamed, parsed.value.0.records));
      RunStreamed(visit, after, parsed.value.0.records);
    }
  }

  lemma StageOblivious(s: Schema, digest: seq<byte> -> Text)
    ensures Oblivious((p: Pass, r: FactRecord) => StageRecord(s, digest, p, r))
  {
  }

  lemma EdgeAttributesIgnored(s: Schema, resolve: Resolver, e: EdgeRecord)
    ensures EdgeWith(s, resolve, e.(attributes := None)) == EdgeWith(s, resolve, e)
  {
  }

  lemma UnresolvedAttributesIgnored(s: Schema, resolve: Resolver, u: UnresolvedRecord)
    ensures UnresolvedWith(s, resolve, u.(attributes := None)) == UnresolvedWith(s, resolve, u)
  {
  }

  lemma RelateOblivious(s: Schema, resolve: Resolver)
    ensures Oblivious((p: Pass, r: FactRecord) => RelateRecord(s, resolve, p, r))
  {
    hide EdgeWith, UnresolvedWith;
    forall p: Pass, r: FactRecord ensures RelateRecord(s, resolve, p, Stream.Streamed(r)) == RelateRecord(s, resolve, p, r) {
      match r
      case Node(_) =>
      case Edge(e) => EdgeAttributesIgnored(s, resolve, e);
      case Unresolved(u) => UnresolvedAttributesIgnored(s, resolve, u);
    }
  }

  // ----- the node pass -----

  function Stager(s: Schema, digest: seq<byte> -> Text): Call<FactRecord> {
    (p: Pass, r: FactRecord) => StageRecord(s, digest, p, r)
  }

  function Relator(s: Schema, resolve: Resolver): Call<FactRecord> {
    (p: Pass, r: FactRecord) => RelateRecord(s, resolve, p, r)
  }

  function StageSlots(w: World, digest: seq<byte> -> Text, p: Pass, slots: seq<Slot>): Result<Pass, SnapshotError> {
    if slots == [] then Success(p)
    else
      var before :- StageSlots(w, digest, p, slots[..|slots| - 1]);
      VisitObject(w, slots[|slots| - 1], Nodes, before, ReserveObject, Stager(w.s, digest), true)
  }

  function RelateSlots(w: World, resolve: Resolver, p: Pass, slots: seq<Slot>): Result<Pass, SnapshotError> {
    if slots == [] then Success(p)
    else
      var before :- RelateSlots(w, resolve, p, slots[..|slots| - 1]);
      VisitObject(w, slots[|slots| - 1], Relations, before, ReserveRelations, Relator(w.s, resolve), false)
  }

  /** What a convertible record is staged as. */
  function StagedOf(s: Schema, digest: seq<byte> -> Text, n: NodeRecord): StagedNode {
    StagedNode(s.nodeKey(n.id), n.id, digest(Signature.Preimage(n)),
               if n.contentId.Some? then Some(s.contentId(n.contentId.value)) else None, n.owner,
               if s.nodeKind(n.kind).Some? then s.nodeKind(n.kind).value else SYMBOL,
               match s.normalize(n.path) case None => [] case Some(path) => path, n.name, n.qualifiedName,
               if SpanConvertible(s, n.span) then SpanOf(s, n.span) else None)
  }

  function AllStaged(s: Schema, digest: seq<byte> -> Text, nodes: seq<NodeRecord>): seq<StagedNode> {
    Map((n: NodeRecord) => StagedOf(s, digest, n), nodes)
  }

  lemma StageExact(s: Schema, digest: seq<byte> -> Text, n: NodeRecord)
    ensures Stage(s, digest, n).Success? <==> NodeConvertible(s, n)
    ensures NodeConvertible(s, n) ==> Stage(s, digest, n) == Success(StagedOf(s, digest, n))
  {
    SpanExact(s, n.span);
    hide ConvertSpan, SpanConvertible, SpanOf;
  }

  lemma {:induction false} RunJoins(visit: Call<FactRecord>, p: Pass, a: seq<FactRecord>, b: seq<FactRecord>)
    ensures Run(visit, p, a).Failure? ==> Run(visit, p, a + b) == Run(visit, p, a)
    ensures Run(visit, p, a).Success? ==> Run(visit, p, a + b) == Run(visit, Run(visit, p, a).value, b)
    decreases |a|
  {
    if a == [] {
      assert a + b == b;
    } else {
      assert (a + b)[1..] == a[1..] + b;
      RunJoins(visit, visit(p, a[0]).0, a[1..], b);
    }
  }

  lemma RunSnoc(visit: Call<FactRecord>, p: Pass, records: seq<FactRecord>)
    requires records != []
    ensures var before, last := Run(visit, p, records[..|records| - 1]), records[|records| - 1];
      && (before.Failure? ==> Run(visit, p, records) == before)
      && (before.Success? ==>
            Run(visit, p, records) == (var (after, failure) := visit(before.value, last);
                                       if failure.Some? then Failure(failure.value) else Success(after)))
  {
    var before, last := records[..|records| - 1], records[|records| - 1];
    assert records == before + [last];
    RunJoins(visit, p, before, [last]);
    assert [last][1..] == [];
  }

  /** The pass with these node records staged on top. */
  ghost predicate Staged(s: Schema, digest: seq<byte> -> Text, p: Pass, q: Pass, nodes: seq<NodeRecord>) {
    && q.nodes == p.nodes + AllStaged(s, digest, nodes)
    && q.warnings == p.warnings + KindWarnings(s, nodes)
    && q == p.(nodes := q.nodes, warnings := q.warnings)
  }

  /** One warning for every node record whose kind is not recognised. */
  function KindWarnings(s: Schema, nodes: seq<NodeRecord>): multiset<Warning> {
    Total((n: NodeRecord) => KindWarning(s, n), nodes)
  }

  lemma KindWarningsJoin(s: Schema, a: seq<NodeRecord>, b: seq<NodeRecord>)
    ensures KindWarnings(s, a + b) == KindWarnings(s, a) + KindWarnings(s, b)
  {
    TotalJoins((n: NodeRecord) => KindWarning(s, n), a, b);
  }

  lemma AllStagedJoins(s: Schema, digest: seq<byte> -> Text, a: seq<NodeRecord>, b: seq<NodeRecord>)
    ensures AllStaged(s, digest, a + b) == AllStaged(s, digest, a) + AllStaged(s, digest, b)
  {
    hide StagedOf;
    var x, y := AllStaged(s, digest, a + b), AllStaged(s, digest, a) + AllStaged(s, digest, b);
    forall i | 0 <= i < |x| ensures x[i] == y[i] {
      assert (a + b)[i] == if i < |a| then a[i] else b[i - |a|];
    }
    assert x == y;
  }

  /** One node record more. */
  lemma StagedSnoc(s: Schema, digest: seq<byte> -> Text, p: Pass, q: Pass, nodes: seq<NodeRecord>, n: NodeRecord)
    requires Staged(s, digest, p, q, nodes)
    ensures Staged(s, digest, p, q.(nodes := q.nodes + [StagedOf(s, digest, n)], warnings := q.warnings + KindWarning(s, n)),
                   nodes + [n])
  {
    hide StagedOf, KindWarning;
    AllStagedJoins(s, digest, nodes, [n]);
    KindWarningsJoin(s, nodes, [n]);
    assert AllStaged(s, digest, [n]) == [StagedOf(s, digest, n)];
    assert [n][..0] == [];
    assert KindWarnings(s, [n]) == multiset{} + KindWarning(s, n) == KindWarning(s, n);
  }

  lemma {:induction false} RunStages(s: Schema, digest: seq<byte> -> Text, p: Pass, records: seq<FactRecord>)
    ensures Run(Stager(s, digest), p, records).Success? <==> forall n :: n in NodesIn(records) ==> NodeConvertible(s, n)
    ensures Run(Stager(s, digest), p, records).Success? ==>
              Staged(s, digest, p, Run(Stager(s, digest), p, records).value, NodesIn(records))
  {
    if records == [] {
      assert p.nodes + AllStaged(s, digest, []) == p.nodes;
    } else {
      var before, last := records[..|records| - 1], records[|records| - 1];
      RunStages(s, digest, p, before);
      RunSnoc(Stager(s, digest), p, records);
      if last.Node? {
        StageExact(s, digest, last.node);
        hide Stage, StagedOf, NodeConvertible, KindWarning, Staged, Run;
        var nodes := NodesIn(records);
        assert forall n :: n in nodes <==> n in NodesIn(before) || n == last.node;
        if Run(Stager(s, digest), p, before).Success? && NodeConvertible(s, last.node) {
          StagedSnoc(s, digest, p, Run(Stager(s, digest), p, before).value, NodesIn(before), last.node);
        }
      } else {
        assert NodesIn(records) == NodesIn(before);
      }
    }
  }

  ghost predicate AllConvertible(s: Schema, nodes: seq<NodeRecord>) {
    forall n :: n in nodes ==> NodeConvertible(s, n)
  }

  /** What staging all these batches into a fresh pass leaves. */
  ghost predicate StagedBatches(s: Schema, digest: seq<byte> -> Text, p: Pass, batches: seq<Batch>) {
    Staged(s, digest, FRESH.(planned := TotalCounts(batches)), p, NodesIn(Flatten(batches)))
  }

  lemma StagedNext(s: Schema, digest: seq<byte> -> Text, p: Pass, q: Pass, batches: seq<Batch>, batch: Batch)
    requires StagedBatches(s, digest, p, batches)
    requires ReserveObject(p, batch.counts).1.None?
    requires Staged(s, digest, ReserveObject(p, batch.counts).0, q, NodesIn(batch.records))
    ensures StagedBatches(s, digest, q, batches + [batch])
  {
    FlattenNext(batches, batch);
    var nodes, more := NodesIn(Flatten(batches)), NodesIn(batch.records);
    AllStagedJoins(s, digest, nodes, more);
    KindWarningsJoin(s, nodes, more);
    hide AllStaged, KindWarnings, NodesIn, Flatten, TotalCounts;
    assert FRESH.nodes + AllStaged(s, digest, nodes) + AllStaged(s, digest, more)
        == FRESH.nodes + (AllStaged(s, digest, nodes) + AllStaged(s, digest, more));
  }

  /** Staging the slots succeeds exactly when the batches are read, fit and hold convertible nodes only. */
  lemma {:induction false} StageSlotsExact(w: World, digest: seq<byte> -> Text, slots: seq<Slot>)
    ensures var staged, batches := StageSlots(w, digest, FRESH, slots), NodeBatches(w, slots);
      && (staged.Success? <==>
            batches.Success? && CountsFit(batches.value) && AllConvertible(w.s, NodesIn(Flatten(batches.value))))
      && (staged.Success? ==> StagedBatches(w.s, digest, staged.value, batches.value))
  {
    if slots == [] {
      assert FRESH.nodes + AllStaged(w.s, digest, []) == FRESH.nodes;
    } else {
      var before, slot := slots[..|slots| - 1], slots[|slots| - 1];
      StageSlotsExact(w, digest, before);
      var staged, batches, batch := StageSlots(w, digest, FRESH, before), NodeBatches(w, before), NodeBatch(w, slot);
      if batches.Success? && batch.Success? {
        FlattenNext(batches.value, batch.value);
        ConvertibleJoins(w.s, NodesIn(Flatten(batches.value)), NodesIn(batch.value.records));
        hide CountsFit, NodesIn, Flatten;
        assert NodeBatches(w, slots) == Success(batches.value + [batch.value]);
      }
      hide NodeBatch, CountsFit, AllConvertible, NodesIn, Flatten, VisitObject, Stager, AllStaged;
      if staged.Success? {
        StageSlot(w, digest, staged.value, slot);
        assert staged.value.planned == TotalCounts(batches.value);
        hide Staged, StagedBatches;
        var r := VisitObject(w, slot, Nodes, staged.value, ReserveObject, Stager(w.s, digest), true);
        if r.Success? { StagedNext(w.s, digest, staged.value, r.value, batches.value, batch.value); }
      }
    }
  }

  lemma ConvertibleJoins(s: Schema, a: seq<NodeRecord>, b: seq<NodeRecord>)
    ensures AllConvertible(s, a + b) <==> AllConvertible(s, a) && AllConvertible(s, b)
  {
    hide NodeConvertible;
    if AllConvertible(s, a + b) {
      assert forall n :: n in a || n in b ==> n in a + b;
    }
  }

  lemma FlattenNext(batches: seq<Batch>, batch: Batch)
    ensures NodesIn(Flatten(batches + [batch])) == NodesIn(Flatten(batches)) + NodesIn(batch.records)
    ensures var t, c := TotalCounts(batches), batch.counts;
      TotalCounts(batches + [batch]) == RecordCounts(t.nodes + c.nodes, t.edges + c.edges, t.unresolved + c.unresolved)
    ensures CountsFit(batches + [batch]) <==> CountsFit(batches) && CheckedAdd(TotalCounts(batches), batch.counts).Some?
  {
    assert (batches + [batch])[..|batches|] == batches;
    InJoins(Flatten(batches), batch.records);
  }

  lemma StageSlot(w: World, digest: seq<byte> -> Text, p: Pass, slot: Slot)
    ensures var r := VisitObject(w, slot, Nodes, p, ReserveObject, Stager(w.s, digest), true);
      var batch := NodeBatch(w, slot);
      && (r.Success? <==>
            && batch.Success? && ReserveObject(p, batch.value.counts).1.None?
            && AllConvertible(w.s, NodesIn(batch.value.records)))
      && (r.Success? ==> Staged(w.s, digest, ReserveObject(p, batch.value.counts).0, r.value, NodesIn(batch.value.records)))
  {
    StageOblivious(w.s, digest);
    VisitObjectExact(w, slot, Nodes, p, ReserveObject, Stager(w.s, digest), true);
    hide VisitObject, ReadObject, ValidateSlot, Staged, NodeConvertible, Run, Oblivious, StageRecord;
    var batch := NodeBatch(w, slot);
    if batch.Success? {
      RunStages(w.s, digest, ReserveObject(p, batch.value.counts).0, batch.value.records);
    }
  }

  // ----- the relation pass -----

  function EdgesWith(s: Schema, resolve: Resolver, records: seq<FactRecord>)
    : Result<(seq<EdgeFact>, multiset<Warning>), LoadError>
  {
    Gather((e: EdgeRecord) => EdgeWith(s, resolve, e), EdgesIn(records))
  }

  function ReferencesWith(s: Schema, resolve: Resolver, records: seq<FactRecord>)
    : Result<(seq<UnresolvedFact>, multiset<Warning>), LoadError>
  {
    Gather((u: UnresolvedRecord) => UnresolvedWith(s, resolve, u), UnresolvedIn(records))
  }

  ghost predicate Convert(s: Schema, resolve: Resolver, records: seq<FactRecord>) {
    EdgesWith(s, resolve, records).Success? && ReferencesWith(s, resolve, records).Success?
  }

  /** The pass with the relations of these records converted on top. */
  ghost predicate Took(s: Schema, resolve: Resolver, p: Pass, q: Pass, records: seq<FactRecord>) {
    && Convert(s, resolve, records)
    && q.nodes == p.nodes && q.planned == p.planned
    && q.edges == p.edges + EdgesWith(s, resolve, records).value.0
    && q.unresolved == p.unresolved + ReferencesWith(s, resolve, records).value.0
    && q.warnings == p.warnings + EdgesWith(s, resolve, records).value.1 + ReferencesWith(s, resolve, records).value.1
  }

  lemma {:induction false} GatherJoins<A, T>(convert: A -> Conversion<T>, a: seq<A>, b: seq<A>)
    ensures Gather(convert, a + b).Success? <==> Gather(convert, a).Success? && Gather(convert, b).Success?
    ensures Gather(convert, a + b).Success? ==>
              Gather(convert, a + b).value == (Gather(convert, a).value.0 + Gather(convert, b).value.0,
                                               Gather(convert, a).value.1 + Gather(convert, b).value.1)
  {
    if b == [] {
      assert a + b == a;
      assert Gather(convert, b) == Success(([], multiset{}));
      if Gather(convert, a).Success? {
        var x := Gather(convert, a).value;
        assert x.0 + [] == x.0 && x.1 + multiset{} == x.1 && x == (x.0, x.1);
      }
    } else {
      var n := |b| - 1;
      assert (a + b)[..|a + b| - 1] == a + b[..n];
      GatherJoins(convert, a, b[..n]);
      assert (a + b)[n + |a|] == b[n];
      if Gather(convert, a + b).Success? {
        var x, y, c := Gather(convert, a).value, Gather(convert, b[..n]).value, convert(b[n]);
        if c.result.value.Some? { assert x.0 + y.0 + [c.result.value.value] == x.0 + (y.0 + [c.result.value.value]); }
        assert x.1 + y.1 + c.warnings == x.1 + (y.1 + c.warnings);
      }
    }
  }

  lemma WithJoins(s: Schema, resolve: Resolver, a: seq<FactRecord>, b: seq<FactRecord>)
    ensures Convert(s, resolve, a + b) <==> Convert(s, resolve, a) && Convert(s, resolve, b)
    ensures Convert(s, resolve, a + b) ==>
              var e, u := EdgesWith(s, resolve, a + b).value, ReferencesWith(s, resolve, a + b).value;
              && e.0 == EdgesWith(s, resolve, a).value.0 + EdgesWith(s, resolve, b).value.0
              && e.1 == EdgesWith(s, resolve, a).value.1 + EdgesWith(s, resolve, b).value.1
              && u.0 == ReferencesWith(s, resolve, a).value.0 + ReferencesWith(s, resolve, b).value.0
              && u.1 == ReferencesWith(s, resolve, a).value.1 + ReferencesWith(s, resolve, b).value.1
  {
    InJoins(a, b);
    hide EdgesIn, UnresolvedIn, EdgeWith, UnresolvedWith, Gather;
    GatherJoins((e: EdgeRecord) => EdgeWith(s, resolve, e), EdgesIn(a), EdgesIn(b));
    GatherJoins((u: UnresolvedRecord) => UnresolvedWith(s, resolve, u), UnresolvedIn(a), UnresolvedIn(b));
  }

  lemma TookJoins(s: Schema, resolve: Resolver, p: Pass, q: Pass, r: Pass, a: seq<FactRecord>, b: seq<FactRecord>)
    requires Took(s, resolve, p, q, a) && Took(s, resolve, q, r, b)
    ensures Took(s, resolve, p, r, a + b)
  {
    WithJoins(s, resolve, a, b);
    hide EdgesWith, ReferencesWith;
    var ea, eb := EdgesWith(s, resolve, a).value, EdgesWith(s, resolve, b).value;
    var ua, ub := ReferencesWith(s, resolve, a).value, ReferencesWith(s, resolve, b).value;
    assert p.edges + ea.0 + eb.0 == p.edges + (ea.0 + eb.0);
    assert p.unresolved + ua.0 + ub.0 == p.unresolved + (ua.0 + ub.0);
  }

  /** One record on top of the pass. */
  lemma RelateOne(s: Schema, resolve: Resolver, p: Pass, record: FactRecord)
    ensures var (q, failure) := RelateRecord(s, resolve, p, record);
      && (failure.None? <==> Convert(s, resolve, [record]))
      && (failure.None? ==> Took(s, resolve, p, q, [record]))
  {
    hide EdgeWith, UnresolvedWith;
    assert [record][..0] == [];
    assert forall e: EdgeRecord :: [e][..0] == [];
    assert forall u: UnresolvedRecord :: [u][..0] == [];
    assert p.edges + [] == p.edges && p.unresolved + [] == p.unresolved;
    assert EdgesIn([record]) == if record.Edge? then [record.edge] else [];
    assert UnresolvedIn([record]) == if record.Unresolved? then [record.unresolved] else [];
    GatherOne((e: EdgeRecord) => EdgeWith(s, resolve, e), EdgesIn([record]));
    GatherOne((u: UnresolvedRecord) => UnresolvedWith(s, resolve, u), UnresolvedIn([record]));
    hide Gather;
  }

  lemma GatherOne<A, T>(convert: A -> Conversion<T>, records: seq<A>)
    ensures records == [] ==> Gather(convert, records) == Success(([], multiset{}))
    ensures |records| == 1 ==>
              var c := convert(records[0]);
              Gather(convert, records) ==
              match c.result
              case Failure(error) => Failure(error)
              case Success(None) => Success(([], c.warnings))
              case Success(Some(fact)) => Success(([fact], c.warnings))
  {
    if |records| == 1 {
      assert records[..0] == [];
      assert multiset{} + convert(records[0]).warnings == convert(records[0]).warnings;
      if convert(records[0]).result.Success? && convert(records[0]).result.value.Some? {
        assert [] + [convert(records[0]).result.value.value] == [convert(records[0]).result.value.value];
      }
    }
  }

  lemma {:induction false} RunRelates(s: Schema, resolve: Resolver, p: Pass, records: seq<FactRecord>)
    ensures Run(Relator(s, resolve), p, records).Success? <==> Convert(s, resolve, records)
    ensures Run(Relator(s, resolve), p, records).Success? ==>
              Took(s, resolve, p, Run(Relator(s, resolve), p, records).value, records)
    ensures Run(Relator(s, resolve), p, records).Success? ==>
              Run(Relator(s, resolve), p, records).value.related == p.related
  {
    if records == [] {
      assert p.edges + [] == p.edges && p.unresolved + [] == p.unresolved;
    } else {
      var before, last := records[..|records| - 1], records[|records| - 1];
      assert records == before + [last];
      RunRelates(s, resolve, p, before);
      RunSnoc(Relator(s, resolve), p, records);
      WithJoins(s, resolve, before, [last]);
      hide EdgeWith, UnresolvedWith, EdgesWith, ReferencesWith, Convert, Took, Run;
      if Run(Relator(s, resolve), p, before).Success? {
        var q := Run(Relator(s, resolve), p, before).value;
        RelateOne(s, resolve, q, last);
        var (r, failure) := RelateRecord(s, resolve, q, last);
        if failure.None? { TookJoins(s, resolve, p, q, r, before, [last]); }
      }
    }
  }

  lemma RelateSlot(w: World, resolve: Resolver, p: Pass, slot: Slot)
    ensures var r := VisitObject(w, slot, Relations, p, ReserveRelations, Relator(w.s, resolve), false);
      var read := ReadObject(w, slot.objectId, Relations);
      && (r.Success? <==>
            && read.Success? && ReserveRelations(p, read.value.1).1.None?
            && Convert(w.s, resolve, read.value.0.records))
      && (r.Success? ==>
            && Took(w.s, resolve, p, r.value, read.value.0.records)
            && r.value.related == ReserveRelations(p, read.value.1).0.related)
  {
    RelateOblivious(w.s, resolve);
    VisitObjectExact(w, slot, Relations, p, ReserveRelations, Relator(w.s, resolve), false);
    hide VisitObject, ReadObject, ValidateSlot, Run, Oblivious, RelateRecord, EdgesWith, ReferencesWith;
    var read := ReadObject(w, slot.objectId, Relations);
    if read.Success? {
      RunRelates(w.s, resolve, ReserveRelations(p, read.value.1).0, read.value.0.records);
    }
  }

  lemma ReadAgrees(w: World, slot: Slot)
    requires NodeBatch(w, slot).Success? && ReadObject(w, slot.objectId, Relations).Success?
    ensures ReadObject(w, slot.objectId, Relations).value.1 == NodeBatch(w, slot).value.counts
  {
    ObjectAgrees(w, slot.objectId);
    hide ReadObject, ValidateSlot;
  }

  /** Room for the relations of these batches, given what the node pass planned. */
  ghost predicate Planned(p: Pass, batches: seq<Batch>) {
    var t := TotalCounts(batches);
    t.edges <= p.planned.edges < COUNT_LIMIT && t.unresolved <= p.planned.unresolved < COUNT_LIMIT
  }

  function RelationCounts(batches: seq<Batch>): RecordCounts {
    RecordCounts(0, TotalCounts(batches).edges, TotalCounts(batches).unresolved)
  }

  lemma RelateNext(w: World, resolve: Resolver, p: Pass, q: Pass, slot: Slot, seen: seq<FactRecord>, batches: seq<Batch>,
                   batch: Batch)
    requires Took(w.s, resolve, p, q, seen) && q.related == RelationCounts(batches)
    requires NodeBatch(w, slot) == Success(batch) && Planned(p, batches + [batch])
    ensures var r := VisitObject(w, slot, Relations, q, ReserveRelations, Relator(w.s, resolve), false);
      var read := ReadObject(w, slot.objectId, Relations);
      && (r.Success? <==> read.Success? && Convert(w.s, resolve, read.value.0.records))
      && (r.Success? ==>
            && Took(w.s, resolve, p, r.value, seen + read.value.0.records)
            && r.value.related == RelationCounts(batches + [batch]))
  {
    FlattenNext(batches, batch);
    RelateSlot(w, resolve, q, slot);
    var read := ReadObject(w, slot.objectId, Relations);
    if read.Success? { ReadAgrees(w, slot); }
    assert q.planned == p.planned;
    hide NodeBatch, ReadObject, VisitObject, Took, Convert, TotalCounts, NodesIn, Flatten;
    var r := VisitObject(w, slot, Relations, q, ReserveRelations, Relator(w.s, resolve), false);
    if r.Success? { TookJoins(w.s, resolve, p, q, r.value, seen, read.value.0.records); }
  }

  /** Behind a node pass over the same objects, the relation pass fails only for what it reads or converts. */
  lemma {:induction false} RelateSlotsExact(w: World, resolve: Resolver, p: Pass, slots: seq<Slot>)
    requires NodeBatches(w, slots).Success? && Planned(p, NodeBatches(w, slots).value)
    requires p.related == RecordCounts(0, 0, 0)
    ensures var r, records := RelateSlots(w, resolve, p, slots), RecordsOf(w, slots, Relations);
      && (r.Success? <==> records.Success? && Convert(w.s, resolve, records.value))
      && (r.Success? ==>
            Took(w.s, resolve, p, r.value, records.value) && r.value.related == RelationCounts(NodeBatches(w, slots).value))
  {
    if slots == [] {
      assert p.edges + [] == p.edges && p.unresolved + [] == p.unresolved;
    } else {
      var before, slot := slots[..|slots| - 1], slots[|slots| - 1];
      var batches, batch := NodeBatches(w, before).value, NodeBatch(w, slot).value;
      assert NodeBatches(w, slots) == Success(batches + [batch]);
      FlattenNext(batches, batch);
      assert Planned(p, batches);
      hide NodeBatch, Flatten, NodesIn, TotalCounts, ReadObject, VisitObject, Relator, Convert, Took, Planned, RelationCounts;
      RelateSlotsExact(w, resolve, p, before);
      var done, seen := RelateSlots(w, resolve, p, before), RecordsOf(w, before, Relations);
      var read := ReadObject(w, slot.objectId, Relations);
      if seen.Success? && read.Success? { WithJoins(w.s, resolve, seen.value, read.value.0.records); }
      if done.Success? { RelateNext(w, resolve, p, done.value, slot, seen.value, batches, batch); }
    }
  }

  // ----- canonical nodes -----

  /** Any sort by key, whatever it does with equal keys. */
  ghost predicate SortsByKey(sort: seq<StagedNode> -> seq<StagedNode>) {
    forall nodes :: multiset(sort(nodes)) == multiset(nodes) && SortedByKey(sort(nodes))
  }

  /** The hash tells the signatures of these records apart. */
  ghost predicate NoCollision(digest: seq<byte> -> Text, nodes: seq<NodeRecord>) {
    && (forall n :: n in nodes ==> Signature.Addressable(n))
    && (forall n, m :: n in nodes && m in nodes && digest(Signature.Preimage(n)) == digest(Signature.Preimage(m)) ==>
          Signature.Preimage(n) == Signature.Preimage(m))
  }

  ghost predicate Unambiguous(s: Schema, nodes: seq<NodeRecord>) {
    forall n, m :: n in nodes && m in nodes ==> (s.nodeKey(n.id) == s.nodeKey(m.id) ==> n.id == m.id) && (n.id == m.id ==> n == m)
  }

  lemma {:induction false} NodeMembers(records: seq<FactRecord>)
    ensures forall n: NodeRecord :: n in NodesIn(records) <==> Node(n) in records
  {
    if records != [] {
      assert records == records[..|records| - 1] + [records[|records| - 1]];
      NodeMembers(records[..|records| - 1]);
    }
  }

  lemma UnambiguousRecords(s: Schema, records: seq<FactRecord>)
    ensures Unambiguous(s, NodesIn(records)) <==> Consistent(records) && KeysDistinct(s, records)
  {
    NodeMembers(records);
    hide NodesIn;
    if Unambiguous(s, NodesIn(records)) {
      forall n: NodeRecord, m: NodeRecord | Node(n) in records && Node(m) in records
        ensures (s.nodeKey(n.id) == s.nodeKey(m.id) ==> n.id == m.id) && (n.id == m.id ==> n == m)
      {
        assert n in NodesIn(records) && m in NodesIn(records);
      }
    }
  }

  lemma AllStagedMembers(s: Schema, digest: seq<byte> -> Text, nodes: seq<NodeRecord>)
    ensures forall n :: n in nodes ==> StagedOf(s, digest, n) in AllStaged(s, digest, nodes)
    ensures forall x :: x in AllStaged(s, digest, nodes) ==> exists n :: n in nodes && x == StagedOf(s, digest, n)
  {
    hide StagedOf;
    var staged := AllStaged(s, digest, nodes);
    forall n | n in nodes ensures StagedOf(s, digest, n) in staged {
      var i :| 0 <= i < |nodes| && nodes[i] == n;
      assert staged[i] == StagedOf(s, digest, n);
    }
    forall x | x in staged ensures exists n :: n in nodes && x == StagedOf(s, digest, n) {
      var i :| 0 <= i < |staged| && staged[i] == x;
      assert nodes[i] in nodes && x == StagedOf(s, digest, nodes[i]);
    }
  }

  /** Two records of one key may be merged exactly when they are one record. */
  lemma SameSignature(s: Schema, digest: seq<byte> -> Text, nodes: seq<NodeRecord>, n: NodeRecord, m: NodeRecord)
    requires NoCollision(digest, nodes) && n in nodes && m in nodes
    ensures var a, b := StagedOf(s, digest, n), StagedOf(s, digest, m);
      a.identity == b.identity && a.signature == b.signature <==> n == m
  {
    Signature.PreimageInjective(n, m);
    hide Signature.Preimage, Signature.Addressable, SpanConvertible, SpanOf;
  }

  lemma MergeableExact(s: Schema, digest: seq<byte> -> Text, nodes: seq<NodeRecord>)
    requires NoCollision(digest, nodes)
    ensures Mergeable(AllStaged(s, digest, nodes)) <==> Unambiguous(s, nodes)
  {
    AllStagedMembers(s, digest, nodes);
    forall n | n in nodes ensures StagedOf(s, digest, n).key == s.nodeKey(n.id) && StagedOf(s, digest, n).identity == n.id {}
    forall n, m | n in nodes && m in nodes
      ensures var a, b := StagedOf(s, digest, n), StagedOf(s, digest, m);
              a.identity == b.identity && a.signature == b.signature <==> n == m
    {
      SameSignature(s, digest, nodes, n, m);
    }
    hide StagedOf, AllStaged, NoCollision;
    var staged := AllStaged(s, digest, nodes);
    if Mergeable(staged) {
      forall n, m | n in nodes && m in nodes
        ensures (s.nodeKey(n.id) == s.nodeKey(m.id) ==> n.id == m.id) && (n.id == m.id ==> n == m)
      {
        assert StagedOf(s, digest, n) in staged && StagedOf(s, digest, m) in staged;
      }
    }
    if Unambiguous(s, nodes) {
      forall a, b | a in staged && b in staged && a.key == b.key ensures a.identity == b.identity && a.signature == b.signature {
        var n :| n in nodes && a == StagedOf(s, digest, n);
        var m :| m in nodes && b == StagedOf(s, digest, m);
        assert n == m;
      }
    }
  }

  /**
   Canonicalising the staged nodes succeeds exactly when no two records disagree; the canonical list then
   holds every staged node once, by strictly ascending key.
   */
  lemma CanonicalExact(s: Schema, m: Machinery, nodes: seq<NodeRecord>)
    requires SortsByKey(m.sort) && NoCollision(m.digest, nodes)
    ensures var staged := AllStaged(s, m.digest, nodes);
      var r := Collapse(m.sort(staged));
      && (r.Success? <==> Unambiguous(s, nodes))
      && (r.Success? ==> KeysAscend(r.value) && forall x :: x in r.value <==> x in staged)
  {
    var staged := AllStaged(s, m.digest, nodes);
    var sorted := m.sort(staged);
    SameMembers(sorted, staged);
    CollapseExact(sorted);
    MergeableExact(s, m.digest, nodes);
    AllStagedMembers(s, m.digest, nodes);
    assert forall n :: StagedOf(s, m.digest, n).key == s.nodeKey(n.id);
    hide StagedOf, AllStaged, NoCollision, Collapse, SortedByKey, KeysAscend;
    assert Mergeable(sorted) <==> Mergeable(staged);
    if Collapse(sorted).Success? {
      var kept := Collapse(sorted).value;
      forall x | x in staged ensures x in kept {
        var i :| 0 <= i < |kept| && kept[i].key == x.key;
        assert kept[i] in kept && kept[i] in staged;
        var n :| n in nodes && x == StagedOf(s, m.digest, n);
        var o :| o in nodes && kept[i] == StagedOf(s, m.digest, o);
        assert n == o;
      }
    }
  }

  // ----- the whole load -----

  datatype Compact = Compact(metadata: Metadata, nodes: seq<StagedNode>, edges: seq<EdgeFact>,
                             unresolved: seq<UnresolvedFact>, warnings: multiset<Warning>)

  /** `load_compact`. */
  function LoadCompact(w: World, m: Machinery, id: Text): Result<Compact, SnapshotError> {
    var (manifest, metadata) :- ReadManifest(w.s, w.store.manifest(id), id);
    var slots := Slots(manifest.languages);
    var staged :- StageSlots(w, m.digest, FRESH, slots);
    var nodes :- Lifted(Collapse(m.sort(staged.nodes)));
    var done :- RelateSlots(w, ResolveIn(w.s, nodes), staged.(nodes := nodes), slots);
    Success(Compact(metadata, nodes, done.edges, done.unresolved, done.warnings))
  }

  function FactOf(s: Schema, n: StagedNode): NodeFact {
    NodeFact(n.key, Some(s.canonical(n.identity)), n.kind, n.path, n.name, n.qualifiedName, n.contentId, n.span)
  }

  /** The facts a compact load holds. */
  function FactsOf(s: Schema, c: Compact): RepositoryFacts {
    Finish(RepositoryFacts(Map((n: StagedNode) => FactOf(s, n), c.nodes), c.edges, c.unresolved), multiset{}).facts
  }

  lemma ResolverIndexes(s: Schema, digest: seq<byte> -> Text, records: seq<FactRecord>, kept: seq<StagedNode>,
                        ids: map<Identity, NodeKey>)
    requires Indexes(s, records, ids)
    requires forall x :: x in kept <==> x in AllStaged(s, digest, NodesIn(records))
    ensures forall reference :: ResolveIn(s, kept)(reference) == LookupId(ids, reference)
  {
    NodeMembers(records);
    AllStagedMembers(s, digest, NodesIn(records));
    forall n ensures StagedOf(s, digest, n).key == s.nodeKey(n.id) && StagedOf(s, digest, n).identity == n.id {}
    hide StagedOf, AllStaged, NodesIn;
    forall reference ensures ResolveIn(s, kept)(reference) == LookupId(ids, reference) {
      if reference.ByIdentity? {
        var id := reference.identity;
        if ContainsIdentity(kept, s.nodeKey(id), id) {
          var i :| 0 <= i < |kept| && kept[i].key == s.nodeKey(id) && kept[i].identity == id;
          assert kept[i] in kept;
          var n :| n in NodesIn(records) && kept[i] == StagedOf(s, digest, n);
          assert Node(n) in records && Known(records, ByIdentity(id));
        }
        if id in ids {
          assert Known(records, ByIdentity(id));
          var n: NodeRecord :| Node(n) in records && n.id == id;
          assert StagedOf(s, digest, n) in kept;
          var i :| 0 <= i < |kept| && kept[i] == StagedOf(s, digest, n);
        }
      }
    }
  }

  lemma {:induction false} GatherSame<A, T>(f: A -> Conversion<T>, g: A -> Conversion<T>, records: seq<A>)
    requires forall a :: a in records ==> f(a) == g(a)
    ensures Gather(f, records) == Gather(g, records)
  {
    if records != [] {
      assert records[|records| - 1] in records;
      GatherSame(f, g, records[..|records| - 1]);
    }
  }

  lemma SameConversions(s: Schema, resolve: Resolver, ids: map<Identity, NodeKey>, records: seq<FactRecord>)
    requires forall reference :: resolve(reference) == LookupId(ids, reference)
    ensures EdgesWith(s, resolve, records) == AllEdges(s, ids, EdgesIn(records))
    ensures ReferencesWith(s, resolve, records) == AllUnresolved(s, ids, UnresolvedIn(records))
  {
    var f, g := (e: EdgeRecord) => EdgeWith(s, resolve, e), (e: EdgeRecord) => ConvertEdge(s, ids, e);
    forall e ensures f(e) == g(e) {
      assert EdgeEnds(s, resolve, e) == EdgeEnds(s, Lookup(ids), e);
      hide EdgeEnds, ConvertSpan;
    }
    var h, k := (u: UnresolvedRecord) => UnresolvedWith(s, resolve, u), (u: UnresolvedRecord) => ConvertUnresolved(s, ids, u);
    forall u ensures h(u) == k(u) {
      assert UnresolvedSource(s, resolve, u) == UnresolvedSource(s, Lookup(ids), u);
      hide UnresolvedSource, ConvertSpan;
    }
    hide EdgeWith, UnresolvedWith, ConvertEdge, ConvertUnresolved, Gather, EdgesIn, UnresolvedIn;
    GatherSame(f, g, EdgesIn(records));
    GatherSame(h, k, UnresolvedIn(records));
  }

  lemma BuildParts(s: Schema, records: seq<FactRecord>)
    ensures var nodes := Records.NodesOf(s, records);
      && (Build(s, records).Success? <==>
            && nodes.Success?
            && AllEdges(s, nodes.value.ids, EdgesIn(records)).Success?
            && AllUnresolved(s, nodes.value.ids, UnresolvedIn(records)).Success?)
      && (Build(s, records).Success? ==>
            Build(s, records).value.facts ==
            Finish(RepositoryFacts(nodes.value.facts, AllEdges(s, nodes.value.ids, EdgesIn(records)).value.0,
                                   AllUnresolved(s, nodes.value.ids, UnresolvedIn(records)).value.0), multiset{}).facts)
  {
    hide CollectNodes, ConvertNodes, InOrder, EdgesIn, UnresolvedIn, Gather, ConvertEdge, ConvertUnresolved, Sort, Dedup;
  }

  lemma FactOfStaged(s: Schema, digest: seq<byte> -> Text, n: NodeRecord)
    requires NodeConvertible(s, n)
    ensures FactOf(s, StagedOf(s, digest, n)) == NodeFactOf(s, n)
  {
    hide Signature.Preimage;
  }

  /** The canonical nodes hold the facts the monolithic conversion yields. */
  lemma SameNodeFacts(s: Schema, digest: seq<byte> -> Text, records: seq<FactRecord>, kept: seq<StagedNode>)
    requires Records.NodesOf(s, records).Success?
    requires forall x :: x in kept <==> x in AllStaged(s, digest, NodesIn(records))
    ensures var facts, converted := Map((n: StagedNode) => FactOf(s, n), kept), Records.NodesOf(s, records).value.facts;
      forall f :: f in facts <==> f in converted
  {
    NodesExact(s, records);
    NodeMembers(records);
    AllStagedMembers(s, digest, NodesIn(records));
    forall n: NodeRecord | Node(n) in records ensures NodeConvertible(s, n) && FactOf(s, StagedOf(s, digest, n)) == NodeFactOf(s, n) {
      FactOfStaged(s, digest, n);
    }
    hide StagedOf, AllStaged, NodesIn, NodeFactOf, NodeConvertible, FactOf, Records.NodesOf;
    var facts, converted := Map((n: StagedNode) => FactOf(s, n), kept), Records.NodesOf(s, records).value.facts;
    forall f ensures f in facts <==> f in converted {
      if f in facts {
        var i :| 0 <= i < |facts| && facts[i] == f;
        assert kept[i] in kept;
        var n :| n in NodesIn(records) && kept[i] == StagedOf(s, digest, n);
        assert Node(n) in records && NodeGives(s, n, f);
      }
      if f in converted {
        var n: NodeRecord :| Node(n) in records && NodeGives(s, n, f);
        assert StagedOf(s, digest, n) in kept;
        var i :| 0 <= i < |kept| && kept[i] == StagedOf(s, digest, n);
        assert facts[i] == f;
      }
    }
  }

  /** Behind sound objects: the compact passes and the monolithic build, on the records in full. */
  lemma CompactBuilds(w: World, m: Machinery, slots: seq<Slot>)
    requires SortsByKey(m.sort) && Sound(w, slots) && RecordsOf(w, slots, All).Success?
    requires NoCollision(m.digest, NodesIn(RecordsOf(w, slots, All).value))
    ensures var all, staged := RecordsOf(w, slots, All).value, StageSlots(w, m.digest, FRESH, slots);
      var nodes := if staged.Success? then Collapse(m.sort(staged.value.nodes)) else Failure(CountOverflow);
      && (nodes.Success? <==> Records.NodesOf(w.s, all).Success?)
      && (nodes.Success? ==>
            var p, built := staged.value.(nodes := nodes.value), Build(w.s, all);
            var done := RelateSlots(w, ResolveIn(w.s, nodes.value), p, slots);
            && KeysAscend(nodes.value)
            && (done.Success? <==> built.Success?)
            && (done.Success? ==>
                  && done.value.edges == AllEdges(w.s, Records.NodesOf(w.s, all).value.ids, EdgesIn(all)).value.0
                  && done.value.unresolved == AllUnresolved(w.s, Records.NodesOf(w.s, all).value.ids, UnresolvedIn(all)).value.0
                  && forall x :: x in nodes.value <==> x in AllStaged(w.s, m.digest, NodesIn(all))))
  {
    var all := RecordsOf(w, slots, All).value;
    SoundReadable(w, slots);
    PassesAgree(w, slots);
    var batches, relations := NodeBatches(w, slots).value, RecordsOf(w, slots, Relations).value;
    StageSlotsExact(w, m.digest, slots);
    NodesExact(w.s, all);
    UnambiguousRecords(w.s, all);
    NodeMembers(all);
    BuildParts(w.s, all);
    CanonicalExact(w.s, m, NodesIn(all));
    hide NodeBatches, RecordsOf, Sound, NodesIn, EdgesIn, UnresolvedIn, Flatten, NoCollision, SortsByKey, NodeConvertible, Build;
    hide Consistent, KeysDistinct, Collapse, KeysAscend, AllStaged, Unambiguous, Indexes, AllEdges, AllUnresolved, Finish, TotalCounts;
    hide StageSlots, RelateSlots, Records.NodesOf;
    assert AllConvertible(w.s, NodesIn(all)) <==> forall n: NodeRecord :: Node(n) in all ==> NodeConvertible(w.s, n);
    var staged := StageSlots(w, m.digest, FRESH, slots);
    if staged.Success? {
      var list := AllStaged(w.s, m.digest, NodesIn(all));
      assert staged.value.nodes == FRESH.nodes + list == list;
      var nodes := Collapse(m.sort(staged.value.nodes));
      if nodes.Success? {
        var ids := Records.NodesOf(w.s, all).value.ids;
        ResolverIndexes(w.s, m.digest, all, nodes.value, ids);
        RelateBuilds(w, ResolveIn(w.s, nodes.value), ids, staged.value.(nodes := nodes.value), slots, all);
      }
    }
  }

  lemma RelateBuilds(w: World, resolve: Resolver, ids: map<Identity, NodeKey>, p: Pass, slots: seq<Slot>, all: seq<FactRecord>)
    requires NodeBatches(w, slots).Success? && RecordsOf(w, slots, Relations).Success?
    requires CountsFit(NodeBatches(w, slots).value)
    requires p.planned == TotalCounts(NodeBatches(w, slots).value) && p.related == RecordCounts(0, 0, 0)
    requires p.edges == [] && p.unresolved == []
    requires forall reference :: resolve(reference) == LookupId(ids, reference)
    requires EdgesIn(RecordsOf(w, slots, Relations).value) == EdgesIn(all)
    requires UnresolvedIn(RecordsOf(w, slots, Relations).value) == UnresolvedIn(all)
    ensures var done, e, u := RelateSlots(w, resolve, p, slots), AllEdges(w.s, ids, EdgesIn(all)), AllUnresolved(w.s, ids, UnresolvedIn(all));
      && (done.Success? <==> e.Success? && u.Success?)
      && (done.Success? ==> done.value.edges == e.value.0 && done.value.unresolved == u.value.0)
  {
    var relations := RecordsOf(w, slots, Relations).value;
    RelateSlotsExact(w, resolve, p, slots);
    SameConversions(w.s, resolve, ids, relations);
    hide RelateSlots, NodeBatches, RecordsOf, EdgesIn, UnresolvedIn, EdgesWith, ReferencesWith, AllEdges, AllUnresolved, TotalCounts;
    if RelateSlots(w, resolve, p, slots).Success? {
      assert [] + EdgesWith(w.s, resolve, relations).value.0 == EdgesWith(w.s, resolve, relations).value.0;
      assert [] + ReferencesWith(w.s, resolve, relations).value.0 == ReferencesWith(w.s, resolve, relations).value.0;
    }
  }

  /** The hash does not confuse two node records of the snapshot. */
  ghost predicate Distinguishes(w: World, m: Machinery, id: Text) {
    RecordsOf(w, SlotsOf(w, id), All).Success? ==> NoCollision(m.digest, NodesIn(RecordsOf(w, SlotsOf(w, id), All).value))
  }

  /**
   The compact load succeeds exactly when `load` does, and then holds the same facts, its nodes once each by
   ascending key; only the hash must not confuse two of the snapshot's node records.
   */
  lemma CompactExact(w: World, m: Machinery, id: Text)
    requires SortsByKey(m.sort)
    requires Distinguishes(w, m, id)
    ensures LoadCompact(w, m, id).Success? <==> Load(w, id).Success?
    ensures LoadCompact(w, m, id).Success? ==>
              && LoadCompact(w, m, id).value.metadata == Load(w, id).value.metadata
              && KeysAscend(LoadCompact(w, m, id).value.nodes)
              && FactsOf(w.s, LoadCompact(w, m, id).value) == Load(w, id).value.facts
  {
    LoadExact(w, id);
    hide Load, ReadManifest, Slots, NodeBatches, RecordsOf, Sound, CountsFit, Loadable, Build, StageSlots, Collapse, RelateSlots;
    hide SortsByKey, NoCollision, NodesIn, EdgesIn, UnresolvedIn, AllEdges, AllUnresolved, AllStaged, KeysAscend, Finish;
    hide Records.NodesOf, StagedBatches, AllConvertible, Convert, Took;
    var r := ReadManifest(w.s, w.store.manifest(id), id);
    if r.Success? {
      var slots := Slots(r.value.0.languages);
      SoundReadable(w, slots);
      if Sound(w, slots) {
        var all := RecordsOf(w, slots, All).value;
        BuildExact(w.s, all);
        BuildParts(w.s, all);
        CompactBuilds(w, m, slots);
        if LoadCompact(w, m, id).Success? {
          SameFinish(w.s, m.digest, all, LoadCompact(w, m, id).value);
        }
      } else {
        var staged := StageSlots(w, m.digest, FRESH, slots);
        if staged.Success? && Collapse(m.sort(staged.value.nodes)).Success? {
          var nodes := Collapse(m.sort(staged.value.nodes)).value;
          UnsoundFails(w, m, slots, nodes, ResolveIn(w.s, nodes));
        }
      }
    }
  }

  lemma SameFinish(s: Schema, digest: seq<byte> -> Text, all: seq<FactRecord>, c: Compact)
    requires Records.NodesOf(s, all).Success?
    requires AllEdges(s, Records.NodesOf(s, all).value.ids, EdgesIn(all)).Success?
    requires AllUnresolved(s, Records.NodesOf(s, all).value.ids, UnresolvedIn(all)).Success?
    requires c.edges == AllEdges(s, Records.NodesOf(s, all).value.ids, EdgesIn(all)).value.0
    requires c.unresolved == AllUnresolved(s, Records.NodesOf(s, all).value.ids, UnresolvedIn(all)).value.0
    requires forall x :: x in c.nodes <==> x in AllStaged(s, digest, NodesIn(all))
    ensures FactsOf(s, c) ==
            Finish(RepositoryFacts(Records.NodesOf(s, all).value.facts, c.edges, c.unresolved), multiset{}).facts
  {
    SameNodeFacts(s, digest, all, c.nodes);
    FactsTotal();
    hide Records.NodesOf, AllEdges, AllUnresolved, EdgesIn, UnresolvedIn, NodesIn, AllStaged, NodeLe, EdgeLe, UnresolvedLe, Sort, Dedup;
    hide TotalOrder, StrictlySorted, FactOf;
    SortDedupCanonical(NodeLe, Map((n: StagedNode) => FactOf(s, n), c.nodes), Records.NodesOf(s, all).value.facts);
  }

  lemma UnsoundFails(w: World, m: Machinery, slots: seq<Slot>, nodes: seq<StagedNode>, resolve: Resolver)
    requires !Sound(w, slots) && StageSlots(w, m.digest, FRESH, slots).Success?
    ensures RelateSlots(w, resolve, StageSlots(w, m.digest, FRESH, slots).value.(nodes := nodes), slots).Failure?
  {
    SoundReadable(w, slots);
    StageSlotsExact(w, m.digest, slots);
    hide Sound, NodeBatches, RecordsOf, StageSlots, RelateSlots, NodesIn, Flatten, AllConvertible, TotalCounts, AllStaged;
    RelateSlotsExact(w, resolve, StageSlots(w, m.digest, FRESH, slots).value.(nodes := nodes), slots);
  }
}
