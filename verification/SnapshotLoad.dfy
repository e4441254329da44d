/**
 arcana/src/lexicon/snapshot.rs: loading a whole snapshot.

 Objects are read twice, once for their nodes and once for their relations. The main results: `load`
 is `Records.Build` on everything the objects hold, and whatever it yields is referentially closed.
 */
module SnapshotLoad {
  import opened Wrappers
  import opened Lexicon
  import opened Facts
  import opened Records
  import opened Reader
  import opened BinaryObject
  import opened BinaryDecode
  import opened StreamRecords
  import opened SnapshotManifest

  // ----- the store -----

  predicate ByIdentityOnly(record: FactRecord) {
    match record
    case Node(_) => true
    case Edge(e) => e.source.ByIdentity? && e.target.ByIdentity?
    case Unresolved(u) => u.source.ByIdentity?
  }

  /** An object of the formats before binary v2: its relations name their ends by identity. */
  type LegacyObject = o: FactObject | forall r :: r in o.records ==> ByIdentityOnly(r)
    witness FactObject(0, [], None, None, [], 0, seq(32, _ => 0), [])

  /**
   Where manifests and objects come from: the verified content of each, if it can be read, and the opaque
   parsers of the older formats and of identities.
   */
  datatype Store = Store(manifest: Text -> Option<Manifest>, object_: Text -> Option<seq<byte>>,
                         legacy: seq<byte> -> Option<LegacyObject>, utf8: Text -> bool,
                         parseIdentity: Text -> Option<Identity>)

  datatype World = World(s: Schema, store: Store)

  function CodecOf(w: World): Codec {
    Codec(w.store.utf8, w.store.parseIdentity, w.s.nodeKey)
  }

  predicate Includes(selection: RecordSelection, record: FactRecord) {
    match selection
    case All => true
    case Nodes => record.Node?
    case Relations => !record.Node?
  }

  /** `retain`. */
  function Retain(records: seq<FactRecord>, selection: RecordSelection): seq<FactRecord> {
    if records == [] then []
    else
      var last := records[|records| - 1];
      Retain(records[..|records| - 1], selection) + if Includes(selection, last) then [last] else []
  }

  function CountRecords(records: seq<FactRecord>): RecordCounts {
    if records == [] then RecordCounts(0, 0, 0)
    else
      var c := CountRecords(records[..|records| - 1]);
      match records[|records| - 1]
      case Node(_) => c.(nodes := c.nodes + 1)
      case Edge(_) => c.(edges := c.edges + 1)
      case Unresolved(_) => c.(unresolved := c.unresolved + 1)
  }

  function Legacy(w: World, bytes: seq<byte>, selection: RecordSelection): Result<(FactObject, RecordCounts), SnapshotError> {
    match w.store.legacy(bytes)
    case None => Failure(UnparsableObject)
    case Some(o) => Success((o.(records := Retain(o.records, selection)), CountRecords(o.records)))
  }

  function Decoded<T>(r: Read<T>): Result<T, SnapshotError> {
    match r
    case Ok(value, _) => Success(value)
    case Bad(error) => Failure(UndecodableObject(error))
  }

  function ReadObject(w: World, id: Text, selection: RecordSelection): Result<(FactObject, RecordCounts), SnapshotError> {
    var _ :- ValidateId(id);
    match w.store.object_(id)
    case None => Failure(UnreadableObject(id))
    case Some(bytes) =>
      if MAGIC <= bytes then Decoded(ParseObject(CodecOf(w), bytes, selection)) else Legacy(w, bytes, selection)
  }

  // ----- objects of a manifest -----

  function ParseId(w: World, id: Text): Result<Identity, SnapshotError> {
    match w.store.parseIdentity(id)
    case None => Failure(MalformedId(id))
    case Some(identity) => Success(identity)
  }

  function ValidateObject(w: World, o: FactObject, l: LanguageEntry, owner: Option<Text>, contentId: Option<Text>)
    : Result<(), SnapshotError>
  {
    if o.version != OBJECT_VERSION then Failure(UnsupportedObjectVersion(o.version))
    else
      var analysisConfigId :- ParseId(w, l.analysisConfigId);
      if o.language != l.language || o.adapterVersion != l.adapterVersion || o.schemaVersion != l.schemaVersion
         || o.analysisConfigId != analysisConfigId then Failure(ObjectMismatch)
      else
        match (owner, contentId)
        case (Some(path), Some(id)) =>
          var content :- ParseId(w, id);
          if o.owner != Some(path) || o.sourceContentId != Some(content) then Failure(FileObjectMismatch) else Success(())
        case (None, None) =>
          if o.owner.None? && o.sourceContentId.None? then Success(()) else Failure(SharedObjectMismatch)
        case _ => Failure(SharedObjectMismatch)
  }

  function ValidateSlot(w: World, o: FactObject, slot: Slot): Result<(), SnapshotError> {
    match slot.file
    case None => ValidateObject(w, o, slot.language, None, None)
    case Some(file) =>
      var path :- NormalizeFile(w.s, file.path);
      ValidateObject(w, o, slot.language, Some(path), Some(file.contentId))
  }

  // ----- the two visits -----

  function NodeBatch(w: World, slot: Slot): Result<Batch, SnapshotError> {
    var (o, counts) :- ReadObject(w, slot.objectId, Nodes);
    var _ :- ValidateSlot(w, o, slot);
    Success(Batch(o.records, counts))
  }

  function NodeBatches(w: World, slots: seq<Slot>): Result<seq<Batch>, SnapshotError> {
    if slots == [] then Success([])
    else
      var before :- NodeBatches(w, slots[..|slots| - 1]);
      var batch :- NodeBatch(w, slots[|slots| - 1]);
      Success(before + [batch])
  }

  /** The records of every slot in turn. */
  function RecordsOf(w: World, slots: seq<Slot>, selection: RecordSelection): Result<seq<FactRecord>, SnapshotError> {
    if slots == [] then Success([])
    else
      var before :- RecordsOf(w, slots[..|slots| - 1], selection);
      var (o, _) :- ReadObject(w, slots[|slots| - 1].objectId, selection);
      Success(before + o.records)
  }

  datatype Snapshot = Snapshot(metadata: Metadata, facts: RepositoryFacts, warnings: multiset<Warning>)

  function Lifted<T>(r: Result<T, LoadError>): Result<T, SnapshotError> {
    match r case Success(value) => Success(value) case Failure(error) => Failure(RecordError(error))
  }

  /** `load`. */
  ghost function Load(w: World, id: Text): Result<Snapshot, SnapshotError> {
    var (manifest, metadata) :- ReadManifest(w.s, w.store.manifest(id), id);
    var slots := Slots(manifest.languages);
    var batches :- NodeBatches(w, slots);
    var state :- Lifted(FinishNodes(w.s, IngestAllNodes(batches)));
    var relations :- RecordsOf(w, slots, Relations);
    var loaded :- Lifted(FinishRelations(RelateAll(w.s, state.ids, Start(state), relations)));
    Success(Snapshot(metadata, loaded.facts, loaded.warnings))
  }

  /** The objects of a snapshot, if its manifest is accepted. */
  function SlotsOf(w: World, id: Text): seq<Slot> {
    var r := ReadManifest(w.s, w.store.manifest(id), id);
    if r.Success? then Slots(r.value.0.languages) else []
  }

  // ----- one object, three ways -----

  lemma {:induction false} InJoins(a: seq<FactRecord>, b: seq<FactRecord>)
    ensures NodesIn(a + b) == NodesIn(a) + NodesIn(b)
    ensures EdgesIn(a + b) == EdgesIn(a) + EdgesIn(b)
    ensures UnresolvedIn(a + b) == UnresolvedIn(a) + UnresolvedIn(b)
  {
    if b == [] {
      assert a + b == a;
    } else {
      assert (a + b)[..|a + b| - 1] == a + b[..|b| - 1];
      InJoins(a, b[..|b| - 1]);
    }
  }

  lemma {:induction false} NoneIn(records: seq<FactRecord>)
    ensures (forall r :: r in records ==> !r.Node?) ==> NodesIn(records) == []
    ensures (forall r :: r in records ==> r.Node?) ==> EdgesIn(records) == [] && UnresolvedIn(records) == []
  {
    if records != [] {
      assert records == records[..|records| - 1] + [records[|records| - 1]];
      NoneIn(records[..|records| - 1]);
    }
  }

  lemma {:induction false} RetainIn(records: seq<FactRecord>)
    ensures NodesIn(Retain(records, Nodes)) == NodesIn(records)
    ensures EdgesIn(Retain(records, Relations)) == EdgesIn(records)
    ensures UnresolvedIn(Retain(records, Relations)) == UnresolvedIn(records)
    ensures Retain(records, All) == records
  {
    if records != [] {
      var before, last := records[..|records| - 1], records[|records| - 1];
      RetainIn(before);
      var nodes, relations := Retain(before, Nodes), Retain(before, Relations);
      if last.Node? {
        assert (nodes + [last])[..|nodes|] == nodes;
        assert relations + [] == relations;
      } else {
        assert (relations + [last])[..|relations|] == relations;
        assert nodes + [] == nodes;
      }
      assert records == before + [last];
    }
  }

  /** The object read in full against its nodes and its relations. */
  ghost predicate Agrees(all: Result<(FactObject, RecordCounts), SnapshotError>,
                         nodes: Result<(FactObject, RecordCounts), SnapshotError>,
                         relations: Result<(FactObject, RecordCounts), SnapshotError>)
  {
    && (all.Success? <==> nodes.Success? && relations.Success?)
    && (all.Success? ==>
          && all.value.0.(records := []) == nodes.value.0.(records := [])
          && all.value.1 == nodes.value.1 == relations.value.1
          && NodesIn(nodes.value.0.records) == NodesIn(all.value.0.records)
          && EdgesIn(relations.value.0.records) == EdgesIn(all.value.0.records)
          && UnresolvedIn(relations.value.0.records) == UnresolvedIn(all.value.0.records))
  }

  lemma BinaryAgrees(c: Codec, bytes: seq<byte>)
    ensures Agrees(Decoded(ParseObject(c, bytes, All)), Decoded(ParseObject(c, bytes, Nodes)),
                   Decoded(ParseObject(c, bytes, Relations)))
  {
    SelectiveAgrees(c, bytes);
    if ParseObject(c, bytes, All).Ok? {
      CountsExact(c, bytes, Nodes);
      CountsExact(c, bytes, Relations);
      var nodes, relations := ParseObject(c, bytes, Nodes).value.0.records, ParseObject(c, bytes, Relations).value.0.records;
      hide ParseObject;
      NoneIn(nodes);
      NoneIn(relations);
      InJoins(nodes, relations);
      hide NodesIn, EdgesIn, UnresolvedIn;
    }
  }

  lemma ObjectAgrees(w: World, id: Text)
    ensures Agrees(ReadObject(w, id, All), ReadObject(w, id, Nodes), ReadObject(w, id, Relations))
  {
    hide ParseObject, Agrees, ValidId;
    if ValidateId(id).Success? && w.store.object_(id).Some? {
      var bytes := w.store.object_(id).value;
      if MAGIC <= bytes {
        BinaryAgrees(CodecOf(w), bytes);
      } else {
        LegacyAgrees(w, bytes);
      }
    } else {
      Unread(ReadObject(w, id, All));
    }
  }

  lemma Unread(r: Result<(FactObject, RecordCounts), SnapshotError>)
    requires r.Failure?
    ensures Agrees(r, r, r)
  {
  }

  lemma LegacyAgrees(w: World, bytes: seq<byte>)
    ensures Agrees(Legacy(w, bytes, All), Legacy(w, bytes, Nodes), Legacy(w, bytes, Relations))
  {
    if w.store.legacy(bytes).Some? { RetainIn(w.store.legacy(bytes).value.records); }
  }

  // ----- all objects -----

  predicate Readable(w: World, selection: RecordSelection, slot: Slot) {
    ReadObject(w, slot.objectId, selection).Success?
  }

  /** The nodes of the object can be read and its metadata are those the manifest announces. */
  predicate Valid(w: World, slot: Slot) {
    NodeBatch(w, slot).Success?
  }

  lemma {:induction false} RecordsOfExact(w: World, slots: seq<Slot>, selection: RecordSelection)
    ensures RecordsOf(w, slots, selection).Success? <==> forall i :: 0 <= i < |slots| ==> Readable(w, selection, slots[i])
  {
    hide ReadObject;
    if slots != [] {
      var before := slots[..|slots| - 1];
      RecordsOfExact(w, before, selection);
      assert forall i :: 0 <= i < |before| ==> before[i] == slots[i];
    }
  }

  lemma {:induction false} NodeBatchesExact(w: World, slots: seq<Slot>)
    ensures NodeBatches(w, slots).Success? <==> forall i :: 0 <= i < |slots| ==> Valid(w, slots[i])
  {
    hide NodeBatch;
    if slots != [] {
      var before := slots[..|slots| - 1];
      NodeBatchesExact(w, before);
      assert forall i :: 0 <= i < |before| ==> before[i] == slots[i];
    }
  }

  lemma ValidReadable(w: World, slot: Slot)
    ensures Readable(w, All, slot) <==> Readable(w, Nodes, slot) && Readable(w, Relations, slot)
    ensures Valid(w, slot) ==> Readable(w, Nodes, slot)
  {
    ObjectAgrees(w, slot.objectId);
    hide ReadObject, ValidateSlot;
  }

  /** The nodes of the node pass and the relations of the relation pass are those of the objects in full. */
  lemma {:induction false} PassesAgree(w: World, slots: seq<Slot>)
    requires NodeBatches(w, slots).Success? && RecordsOf(w, slots, Relations).Success? && RecordsOf(w, slots, All).Success?
    ensures var all := RecordsOf(w, slots, All).value;
      && NodesIn(Flatten(NodeBatches(w, slots).value)) == NodesIn(all)
      && EdgesIn(RecordsOf(w, slots, Relations).value) == EdgesIn(all)
      && UnresolvedIn(RecordsOf(w, slots, Relations).value) == UnresolvedIn(all)
  {
    if slots != [] {
      var before, slot := slots[..|slots| - 1], slots[|slots| - 1];
      PassesAgree(w, before);
      ObjectAgrees(w, slot.objectId);
      hide ReadObject, ValidateSlot, NodesIn, EdgesIn, UnresolvedIn;
      var batches, batch := NodeBatches(w, before).value, NodeBatch(w, slot).value;
      assert (batches + [batch])[..|batches|] == batches;
      InJoins(Flatten(batches), batch.records);
      InJoins(RecordsOf(w, before, Relations).value, ReadObject(w, slot.objectId, Relations).value.0.records);
      InJoins(RecordsOf(w, before, All).value, ReadObject(w, slot.objectId, All).value.0.records);
    }
  }

  /** What loading a snapshot asks of its objects, apart from what their records say. */
  ghost predicate Sound(w: World, slots: seq<Slot>) {
    && (forall i :: 0 <= i < |slots| ==> Valid(w, slots[i]) && Readable(w, Relations, slots[i]))
    && (NodeBatches(w, slots).Success? ==> CountsFit(NodeBatches(w, slots).value))
  }

  lemma SoundReadable(w: World, slots: seq<Slot>)
    ensures Sound(w, slots) <==>
            && NodeBatches(w, slots).Success? && RecordsOf(w, slots, Relations).Success?
            && CountsFit(NodeBatches(w, slots).value)
    ensures Sound(w, slots) ==> RecordsOf(w, slots, All).Success?
  {
    NodeBatchesExact(w, slots);
    RecordsOfExact(w, slots, Relations);
    RecordsOfExact(w, slots, All);
    hide Valid, Readable, NodeBatches, RecordsOf, CountsFit;
    if Sound(w, slots) {
      forall i | 0 <= i < |slots| ensures Readable(w, All, slots[i]) {
        ValidReadable(w, slots[i]);
      }
    }
  }

  /**
   An object is what its manifest entry says: of version 1, of the language, adapter, schema and configuration of the
   language, and with the owner and the content identity of the file, or with neither if it is shared.
   */
  ghost predicate IsAsListed(w: World, o: FactObject, slot: Slot) {
    && o.version == 1 && o.language == slot.language.language && o.adapterVersion == slot.language.adapterVersion
    && o.schemaVersion == slot.language.schemaVersion
    && w.store.parseIdentity(slot.language.analysisConfigId) == Some(o.analysisConfigId)
    && match slot.file
       case None => o.owner == None && o.sourceContentId == None
       case Some(file) =>
         && o.owner.Some? && w.s.normalize(file.path) == o.owner
         && o.sourceContentId.Some? && w.store.parseIdentity(file.contentId) == o.sourceContentId
  }

  lemma ListedExact(w: World, o: FactObject, slot: Slot)
    ensures ValidateSlot(w, o, slot).Success? <==> IsAsListed(w, o, slot)
  {
  }

  /** After a successful load every object that the manifest lists can be read, and is what its entry says. */
  lemma LoadMatches(w: World, id: Text)
    requires Load(w, id).Success?
    ensures forall slot :: slot in SlotsOf(w, id) ==>
              ReadObject(w, slot.objectId, All).Success? && IsAsListed(w, ReadObject(w, slot.objectId, All).value.0, slot)
  {
    hide ReadManifest, Slots, ReadObject, Load, Loadable, Build, IsAsListed, RecordsOf, NodeBatches, CountsFit, ValidateSlot;
    LoadExact(w, id);
    forall slot | slot in SlotsOf(w, id)
      ensures ReadObject(w, slot.objectId, All).Success? && IsAsListed(w, ReadObject(w, slot.objectId, All).value.0, slot)
    {
      var i :| 0 <= i < |SlotsOf(w, id)| && SlotsOf(w, id)[i] == slot;
      ObjectAgrees(w, slot.objectId);
      ListedExact(w, ReadObject(w, slot.objectId, Nodes).value.0, slot);
      SameListed(w, ReadObject(w, slot.objectId, Nodes).value.0, ReadObject(w, slot.objectId, All).value.0, slot);
    }
  }

  lemma SameListed(w: World, a: FactObject, b: FactObject, slot: Slot)
    requires a.(records := []) == b.(records := [])
    ensures IsAsListed(w, a, slot) <==> IsAsListed(w, b, slot)
  {
  }

  /**
   A load succeeds exactly when the manifest is accepted, its objects are sound and their records are
   loadable, and it then yields what building all those records in one go yields.
   */
  lemma LoadExact(w: World, id: Text)
    ensures var m := ReadManifest(w.s, w.store.manifest(id), id);
      && (Load(w, id).Success? <==>
            && m.Success? && Sound(w, Slots(m.value.0.languages))
            && RecordsOf(w, Slots(m.value.0.languages), All).Success?
            && Loadable(w.s, RecordsOf(w, Slots(m.value.0.languages), All).value))
      && (Load(w, id).Success? ==>
            var built := Build(w.s, RecordsOf(w, Slots(m.value.0.languages), All).value);
            built.Success? && Load(w, id).value == Snapshot(m.value.1, built.value.facts, built.value.warnings))
  {
    hide ReadManifest, Slots, NodeBatches, RecordsOf, Sound, CountsFit, Loadable, Build, FinishNodes, IngestAllNodes;
    hide FinishRelations, RelateAll;
    var m := ReadManifest(w.s, w.store.manifest(id), id);
    if m.Success? {
      var slots := Slots(m.value.0.languages);
      SoundReadable(w, slots);
      if Sound(w, slots) {
        var all := RecordsOf(w, slots, All).value;
        PassesAgree(w, slots);
        TwoPassRefines(w.s, NodeBatches(w, slots).value, RecordsOf(w, slots, Relations).value, all);
        BuildExact(w.s, all);
      } else if NodeBatches(w, slots).Success? && !CountsFit(NodeBatches(w, slots).value) {
        OverflowStops(w.s, NodeBatches(w, slots).value);
      }
    }
  }

  lemma OverflowStops(s: Schema, batches: seq<Batch>)
    requires !CountsFit(batches)
    ensures FinishNodes(s, IngestAllNodes(batches)).Failure?
  {
    OverflowFails(batches);
  }

  // ----- referential closure -----

  predicate RefersTo(nodeKeys: seq<NodeKey>, record: FactRecord) {
    match record
    case Node(_) => true
    case Edge(e) => RefIn(nodeKeys, e.source) && RefIn(nodeKeys, e.target)
    case Unresolved(u) => RefIn(nodeKeys, u.source)
  }

  predicate RefIn(nodeKeys: seq<NodeKey>, reference: NodeReference) {
    reference.ByKey? ==> reference.key in nodeKeys
  }

  lemma EdgeKeyed(b: seq<byte>, strings: seq<Text>, external: seq<Identity>, nodeKeys: seq<NodeKey>, objectOwner: Text,
                  pos: nat)
    ensures var e := EdgeAt(b, strings, external, nodeKeys, objectOwner, pos);
      e.Ok? ==> RefIn(nodeKeys, e.value.source) && RefIn(nodeKeys, e.value.target)
  {
    hide AttributesAt, FactoredAt, CodeOrStringAt, SpanAt, COMMON_RELATIONS, VarintAt;
  }

  lemma UnresolvedKeyed(b: seq<byte>, strings: seq<Text>, external: seq<Identity>, nodeKeys: seq<NodeKey>,
                        objectOwner: Text, pos: nat)
    ensures var u := UnresolvedAt(b, strings, external, nodeKeys, objectOwner, pos);
      u.Ok? ==> RefIn(nodeKeys, u.value.source)
  {
    hide AttributesAt, FactoredAt, CodeOrStringAt, SpanAt, COMMON_RELATIONS, VarintAt, StringRefAt;
  }

  lemma {:induction false} ManyHold<T>(read: nat -> Read<T>, count: nat, pos: nat, p: T -> bool)
    requires forall at: nat :: read(at).Ok? ==> p(read(at).value)
    requires Many(read, count, pos).Ok?
    ensures forall v :: v in Many(read, count, pos).value ==> p(v)
    decreases count
  {
    if count > 0 { ManyHold(read, count - 1, read(pos).next, p); }
  }

  /** A key reference is an index into the node keys of the same object. */
  lemma RelationsKeyed(e: Envelope, nodeKeys: seq<NodeKey>)
    requires RelationsOf(e, nodeKeys).Ok?
    ensures forall r :: r in RelationsOf(e, nodeKeys).value ==> RefersTo(nodeKeys, r)
  {
    var edges := EdgesOf(e.edges, e.strings, e.external, nodeKeys, e.objectOwner).value;
    var unresolved := UnresolvedOf(e.unresolved, e.strings, e.external, nodeKeys, e.objectOwner).value;
    var keyedEdge := (r: EdgeRecord) => RefIn(nodeKeys, r.source) && RefIn(nodeKeys, r.target);
    var keyedUnresolved := (r: UnresolvedRecord) => RefIn(nodeKeys, r.source);
    assert forall r :: r in edges ==> keyedEdge(r) by {
      var read := (p: nat) => EdgeAt(e.edges, e.strings, e.external, nodeKeys, e.objectOwner, p);
      forall p: nat | read(p).Ok? ensures keyedEdge(read(p).value) {
        EdgeKeyed(e.edges, e.strings, e.external, nodeKeys, e.objectOwner, p);
      }
      hide EdgeAt, CountAt, RefIn;
      var count := CountAt(e.edges, 0, MAX_RECORDS);
      ManyHold(read, count.value, count.next, keyedEdge);
    }
    assert forall r :: r in unresolved ==> keyedUnresolved(r) by {
      var read := (p: nat) => UnresolvedAt(e.unresolved, e.strings, e.external, nodeKeys, e.objectOwner, p);
      forall p: nat | read(p).Ok? ensures keyedUnresolved(read(p).value) {
        UnresolvedKeyed(e.unresolved, e.strings, e.external, nodeKeys, e.objectOwner, p);
      }
      hide UnresolvedAt, CountAt, RefIn;
      var count := CountAt(e.unresolved, 0, MAX_RECORDS);
      ManyHold(read, count.value, count.next, keyedUnresolved);
    }
    hide EdgesOf, UnresolvedOf, RefIn;
    var records := RelationsOf(e, nodeKeys).value;
    assert records == RelationRecords(edges, unresolved);
    forall r | r in records ensures RefersTo(nodeKeys, r) {
      var i :| 0 <= i < |records| && records[i] == r;
      if i < |edges| {
        assert r == Edge(edges[i]) && keyedEdge(edges[i]);
      } else {
        assert r == Unresolved(unresolved[i - |edges|]) && keyedUnresolved(unresolved[i - |edges|]);
      }
    }
  }

  lemma BinaryKeyed(s: Schema, c: Codec, bytes: seq<byte>)
    requires c.nodeKey == s.nodeKey && ParseObject(c, bytes, All).Ok?
    ensures AllKeyed(s, ParseObject(c, bytes, All).value.0.records)
  {
    hide EnvelopeOf, BinaryObject.NodesOf, RelationsOf;
    var e := EnvelopeOf(c, bytes, true).value;
    var nodes := BinaryObject.NodesOf(c, e.nodes, e.strings, e.objectOwner).value;
    var keys := KeysOf(c, nodes);
    var relations := RelationsOf(e, keys).value;
    RelationsKeyed(e, keys);
    var records := NodeRecords(nodes) + relations;
    assert records == ParseObject(c, bytes, All).value.0.records;
    hide ParseObject;
    forall reference | RefIn(keys, reference) ensures Keyed(s, records, reference) {
      if reference.ByKey? {
        var i :| 0 <= i < |keys| && keys[i] == reference.key;
        assert records[i] == Node(nodes[i]) && s.nodeKey(nodes[i].id) == reference.key;
        assert Node(nodes[i]) in records;
      }
    }
    hide Keyed, RefIn;
    forall r | r in records && !r.Node? ensures RefersTo(keys, r) {
      assert forall i :: 0 <= i < |nodes| ==> records[i].Node?;
      assert r in relations;
    }
    KeyedRecords(s, records, keys);
  }

  lemma KeyedRecords(s: Schema, records: seq<FactRecord>, keys: seq<NodeKey>)
    requires forall r :: r in records && !r.Node? ==> RefersTo(keys, r)
    requires forall reference :: RefIn(keys, reference) ==> Keyed(s, records, reference)
    ensures AllKeyed(s, records)
  {
    hide Keyed, RefIn;
    forall e: EdgeRecord | Edge(e) in records ensures Keyed(s, records, e.source) && Keyed(s, records, e.target) {
      assert RefersTo(keys, Edge(e));
    }
    forall u: UnresolvedRecord | Unresolved(u) in records ensures Keyed(s, records, u.source) {
      assert RefersTo(keys, Unresolved(u));
    }
  }

  lemma LegacyKeyed(s: Schema, records: seq<FactRecord>)
    requires forall r :: r in records ==> ByIdentityOnly(r)
    ensures AllKeyed(s, records)
  {
    forall e: EdgeRecord | Edge(e) in records ensures Keyed(s, records, e.source) && Keyed(s, records, e.target) {
      assert ByIdentityOnly(Edge(e));
    }
    forall u: UnresolvedRecord | Unresolved(u) in records ensures Keyed(s, records, u.source) {
      assert ByIdentityOnly(Unresolved(u));
    }
  }

  lemma ObjectKeyed(w: World, id: Text)
    requires ReadObject(w, id, All).Success?
    ensures AllKeyed(w.s, ReadObject(w, id, All).value.0.records)
  {
    hide ParseObject, AllKeyed;
    var bytes := w.store.object_(id).value;
    if MAGIC <= bytes {
      BinaryKeyed(w.s, CodecOf(w), bytes);
    } else {
      var o := w.store.legacy(bytes).value;
      RetainIn(o.records);
      LegacyKeyed(w.s, o.records);
    }
  }

  lemma KeyedJoins(s: Schema, a: seq<FactRecord>, b: seq<FactRecord>)
    requires AllKeyed(s, a) && AllKeyed(s, b)
    ensures AllKeyed(s, a + b)
  {
    forall reference | Keyed(s, a, reference) || Keyed(s, b, reference) ensures Keyed(s, a + b, reference) {
      if reference.ByKey? {
        var n: NodeRecord :| (Node(n) in a || Node(n) in b) && s.nodeKey(n.id) == reference.key;
        assert Node(n) in a + b;
      }
    }
    hide Keyed;
  }

  lemma {:induction false} SlotsKeyed(w: World, slots: seq<Slot>)
    requires RecordsOf(w, slots, All).Success?
    ensures AllKeyed(w.s, RecordsOf(w, slots, All).value)
  {
    hide ReadObject;
    if slots != [] {
      var before := slots[..|slots| - 1];
      SlotsKeyed(w, before);
      ObjectKeyed(w, slots[|slots| - 1].objectId);
      hide AllKeyed;
      KeyedJoins(w.s, RecordsOf(w, before, All).value, ReadObject(w, slots[|slots| - 1].objectId, All).value.0.records);
    }
  }

  /**
   Whenever a load succeeds, every edge end and every unresolved source is the key of exactly one node of
   the facts, although key references are never looked up.
   */
  lemma LoadClosed(w: World, id: Text)
    requires Load(w, id).Success?
    ensures Closed(Load(w, id).value.facts)
  {
    LoadExact(w, id);
    hide Load, ReadManifest, Slots, RecordsOf, Sound, Build, Loadable, Closed;
    var m := ReadManifest(w.s, w.store.manifest(id), id);
    var slots := Slots(m.value.0.languages);
    SlotsKeyed(w, slots);
    LoadCloses(w.s, RecordsOf(w, slots, All).value);
  }

  /** Sound snapshots holding the same records, however they are spread and ordered, load alike. */
  lemma LoadOrderIndependent(v: World, i: Text, w: World, j: Text)
    requires v.s == w.s
    requires ReadManifest(v.s, v.store.manifest(i), i).Success? && ReadManifest(w.s, w.store.manifest(j), j).Success?
    requires var a, b := Slots(ReadManifest(v.s, v.store.manifest(i), i).value.0.languages),
                         Slots(ReadManifest(w.s, w.store.manifest(j), j).value.0.languages);
      && Sound(v, a) && Sound(w, b)
      && RecordsOf(v, a, All).Success? && RecordsOf(w, b, All).Success?
      && multiset(RecordsOf(v, a, All).value) == multiset(RecordsOf(w, b, All).value)
    ensures Load(v, i).Success? <==> Load(w, j).Success?
    ensures Load(v, i).Success? ==>
              && Load(v, i).value.facts == Load(w, j).value.facts
              && Load(v, i).value.warnings == Load(w, j).value.warnings
  {
    LoadExact(v, i);
    LoadExact(w, j);
    hide Load, ReadManifest, Slots, Sound, RecordsOf, Build, Loadable;
    var a, b := Slots(ReadManifest(v.s, v.store.manifest(i), i).value.0.languages),
                Slots(ReadManifest(w.s, w.store.manifest(j), j).value.0.languages);
    var x, y := RecordsOf(v, a, All).value, RecordsOf(w, b, All).value;
    BuildExact(v.s, x);
    BuildExact(w.s, y);
    OrderIndependent(v.s, x, y);
  }

  // ----- the loops -----

  lemma {:induction false} NodeBatchesJoin(w: World, a: seq<Slot>, b: seq<Slot>)
    requires NodeBatches(w, a).Failure?
    ensures NodeBatches(w, a + b) == NodeBatches(w, a)
  {
    if b == [] {
      assert a + b == a;
    } else {
      assert (a + b)[..|a + b| - 1] == a + b[..|b| - 1];
      NodeBatchesJoin(w, a, b[..|b| - 1]);
    }
  }

  lemma {:induction false} RecordsOfJoin(w: World, a: seq<Slot>, b: seq<Slot>, selection: RecordSelection)
    requires RecordsOf(w, a, selection).Failure?
    ensures RecordsOf(w, a + b, selection) == RecordsOf(w, a, selection)
  {
    if b == [] {
      assert a + b == a;
    } else {
      assert (a + b)[..|a + b| - 1] == a + b[..|b| - 1];
      RecordsOfJoin(w, a, b[..|b| - 1], selection);
    }
  }

  lemma {:induction false} SlotsPrefix(languages: seq<LanguageEntry>, j: nat, k: nat)
    requires j <= k <= |languages|
    ensures SlotsTo(languages, j) <= SlotsTo(languages, k)
  {
    if j < k { SlotsPrefix(languages, j, k - 1); }
  }

  lemma NodeBatchesStop(w: World, languages: seq<LanguageEntry>, k: nat)
    requires k <= |languages| && NodeBatches(w, SlotsTo(languages, k)).Failure?
    ensures NodeBatches(w, Slots(languages)) == NodeBatches(w, SlotsTo(languages, k))
  {
    SlotsPrefix(languages, k, |languages|);
    var a, all := SlotsTo(languages, k), Slots(languages);
    assert all == a + all[|a|..];
    NodeBatchesJoin(w, a, all[|a|..]);
  }

  lemma RecordsStop(w: World, languages: seq<LanguageEntry>, k: nat)
    requires k <= |languages| && RecordsOf(w, SlotsTo(languages, k), Relations).Failure?
    ensures RecordsOf(w, Slots(languages), Relations) == RecordsOf(w, SlotsTo(languages, k), Relations)
  {
    SlotsPrefix(languages, k, |languages|);
    var a, all := SlotsTo(languages, k), Slots(languages);
    assert all == a + all[|a|..];
    RecordsOfJoin(w, a, all[|a|..], Relations);
  }

  lemma {:induction false} RelateJoins(s: Schema, ids: map<Identity, NodeKey>, r: Relating, a: seq<FactRecord>,
                                       b: seq<FactRecord>)
    ensures RelateAll(s, ids, r, a + b) == RelateAll(s, ids, RelateAll(s, ids, r, a), b)
  {
    if b == [] {
      assert a + b == a;
    } else {
      assert (a + b)[..|a + b| - 1] == a + b[..|b| - 1];
      RelateJoins(s, ids, r, a, b[..|b| - 1]);
    }
  }

  method FetchObject(w: World, id: Text, selection: RecordSelection)
    returns (r: Result<(FactObject, RecordCounts), SnapshotError>)
    ensures r == ReadObject(w, id, selection)
  {
    hide ParseObject;
    var _ :- ValidateId(id);
    var read := w.store.object_(id);
    if read.None? { return Failure(UnreadableObject(id)); }
    if !(MAGIC <= read.value) { return Legacy(w, read.value, selection); }
    var parsed := ParseBinaryObjectSelected(CodecOf(w), read.value, selection);
    match parsed {
      case Success(value) => return Success(value);
      case Failure(error) => return Failure(UndecodableObject(error));
    }
  }

  /** Is the pass fed with the objects of these slots? */
  ghost predicate Fed(w: World, pass: NodePass, done: seq<Slot>)
    reads pass
  {
    NodeBatches(w, done).Success? && pass.State() == IngestAllNodes(NodeBatches(w, done).value)
  }

  method VisitNodes(w: World, pass: NodePass, slot: Slot, ghost done: seq<Slot>) returns (r: Result<(), SnapshotError>)
    requires Fed(w, pass, done)
    modifies pass
    ensures r.Success? ==> Fed(w, pass, done + [slot])
    ensures r.Failure? ==> NodeBatches(w, done + [slot]) == Failure(r.error)
  {
    FeedStep(w, done, slot);
    hide ReadObject, ValidateSlot, NodeBatches, IngestAllNodes, IngestNodes;
    var fetched :- FetchObject(w, slot.objectId, Nodes);
    var (o, counts) := fetched;
    var _ :- ValidateSlot(w, o, slot);
    pass.Ingest(o.records, counts);
    return Success(());
  }

  method VisitLanguageNodes(w: World, pass: NodePass, l: LanguageEntry, ghost done: seq<Slot>)
    returns (r: Result<(), SnapshotError>)
    requires Fed(w, pass, done)
    modifies pass
    ensures r.Success? ==> Fed(w, pass, done + LanguageSlots(l))
    ensures r.Failure? ==> NodeBatches(w, done + LanguageSlots(l)) == Failure(r.error)
  {
    hide Fed, NodeBatches;
    ghost var seen := done;
    ghost var all := done + LanguageSlots(l);
    if l.sharedObjectId.Some? {
      var slot := Slot(l, None, l.sharedObjectId.value);
      r := VisitNodes(w, pass, slot, seen);
      seen := seen + [slot];
      if r.Failure? {
        assert all == seen + all[|seen|..];
        NodeBatchesJoin(w, seen, all[|seen|..]);
        return;
      }
    }
    assert seen == done + SharedSlots(l) + FileSlotsOf(l, l.files[..0]);
    var i := 0;
    while i < |l.files|
      invariant 0 <= i <= |l.files|
      invariant seen == done + SharedSlots(l) + FileSlotsOf(l, l.files[..i])
      invariant Fed(w, pass, seen)
    {
      var slot := Slot(l, Some(l.files[i]), l.files[i].objectId);
      assert FileSlotsOf(l, l.files[..i + 1]) == FileSlotsOf(l, l.files[..i]) + [slot];
      r := VisitNodes(w, pass, slot, seen);
      seen := seen + [slot];
      if r.Failure? {
        assert all == seen + all[|seen|..];
        NodeBatchesJoin(w, seen, all[|seen|..]);
        return;
      }
      i := i + 1;
    }
    assert l.files[..i] == l.files && seen == all;
    return Success(());
  }

  lemma FeedStep(w: World, done: seq<Slot>, slot: Slot)
    requires NodeBatches(w, done).Success?
    ensures match NodeBatch(w, slot)
            case Failure(error) => NodeBatches(w, done + [slot]) == Failure(error)
            case Success(batch) =>
              && NodeBatches(w, done + [slot]) == Success(NodeBatches(w, done).value + [batch])
              && IngestAllNodes(NodeBatches(w, done).value + [batch]) ==
                 IngestNodes(IngestAllNodes(NodeBatches(w, done).value), batch.records, batch.counts)
  {
    hide NodeBatch;
    assert (done + [slot])[..|done|] == done;
    if NodeBatch(w, slot).Success? {
      var batches, batch := NodeBatches(w, done).value, NodeBatch(w, slot).value;
      assert (batches + [batch])[..|batches|] == batches;
    }
  }

  method VisitNodesAt(w: World, pass: NodePass, languages: seq<LanguageEntry>, i: nat) returns (r: Result<(), SnapshotError>)
    requires i < |languages| && Fed(w, pass, SlotsTo(languages, i))
    modifies pass
    ensures r.Success? ==> Fed(w, pass, SlotsTo(languages, i + 1))
    ensures r.Failure? ==> NodeBatches(w, Slots(languages)) == Failure(r.error)
  {
    hide Fed, NodeBatches, LanguageSlots, Slots;
    r := VisitLanguageNodes(w, pass, languages[i], SlotsTo(languages, i));
    assert SlotsTo(languages, i + 1) == SlotsTo(languages, i) + LanguageSlots(languages[i]);
    if r.Failure? { NodeBatchesStop(w, languages, i + 1); }
  }

  method VisitAllNodes(w: World, pass: NodePass, languages: seq<LanguageEntry>) returns (r: Result<(), SnapshotError>)
    requires Fed(w, pass, SlotsTo(languages, 0))
    modifies pass
    ensures r.Success? ==> Fed(w, pass, SlotsTo(languages, |languages|))
    ensures r.Failure? ==> NodeBatches(w, Slots(languages)) == Failure(r.error)
  {
    hide *;
    for i := 0 to |languages|
      invariant Fed(w, pass, SlotsTo(languages, i))
    {
      r := VisitNodesAt(w, pass, languages, i);
      if r.Failure? { return; }
    }
    return Success(());
  }

  method NodesOfSnapshot(w: World, languages: seq<LanguageEntry>) returns (r: Result<NodePass, SnapshotError>)
    ensures r.Success? ==> fresh(r.value) && Fed(w, r.value, Slots(languages))
    ensures r.Failure? ==> NodeBatches(w, Slots(languages)) == Failure(r.error)
  {
    var pass := new NodePass();
    var _ :- VisitAllNodes(w, pass, languages);
    return Success(pass);
  }

  ghost predicate Related(w: World, pass: RelationPass, start: Relating, done: seq<Slot>)
    reads pass
  {
    && RecordsOf(w, done, Relations).Success?
    && pass.State() == RelateAll(w.s, pass.externalIds, start, RecordsOf(w, done, Relations).value)
  }

  method VisitRelations(w: World, pass: RelationPass, slot: Slot, ghost start: Relating, ghost done: seq<Slot>)
    returns (r: Result<(), SnapshotError>)
    requires Related(w, pass, start, done)
    modifies pass
    ensures r.Success? ==> Related(w, pass, start, done + [slot])
    ensures r.Failure? ==> RecordsOf(w, done + [slot], Relations) == Failure(r.error)
  {
    hide ReadObject;
    assert (done + [slot])[..|done|] == done;
    var fetched :- FetchObject(w, slot.objectId, Relations);
    RelateJoins(w.s, pass.externalIds, start, RecordsOf(w, done, Relations).value, fetched.0.records);
    pass.Ingest(w.s, fetched.0.records);
    return Success(());
  }

  method VisitLanguageRelations(w: World, pass: RelationPass, l: LanguageEntry, ghost start: Relating, ghost done: seq<Slot>)
    returns (r: Result<(), SnapshotError>)
    requires Related(w, pass, start, done)
    modifies pass
    ensures r.Success? ==> Related(w, pass, start, done + LanguageSlots(l))
    ensures r.Failure? ==> RecordsOf(w, done + LanguageSlots(l), Relations) == Failure(r.error)
  {
    hide Related, RecordsOf;
    ghost var seen := done;
    ghost var all := done + LanguageSlots(l);
    if l.sharedObjectId.Some? {
      var slot := Slot(l, None, l.sharedObjectId.value);
      r := VisitRelations(w, pass, slot, start, seen);
      seen := seen + [slot];
      if r.Failure? {
        assert all == seen + all[|seen|..];
        RecordsOfJoin(w, seen, all[|seen|..], Relations);
        return;
      }
    }
    assert seen == done + SharedSlots(l) + FileSlotsOf(l, l.files[..0]);
    var i := 0;
    while i < |l.files|
      invariant 0 <= i <= |l.files|
      invariant seen == done + SharedSlots(l) + FileSlotsOf(l, l.files[..i])
      invariant Related(w, pass, start, seen)
    {
      var slot := Slot(l, Some(l.files[i]), l.files[i].objectId);
      assert FileSlotsOf(l, l.files[..i + 1]) == FileSlotsOf(l, l.files[..i]) + [slot];
      r := VisitRelations(w, pass, slot, start, seen);
      seen := seen + [slot];
      if r.Failure? {
        assert all == seen + all[|seen|..];
        RecordsOfJoin(w, seen, all[|seen|..], Relations);
        return;
      }
      i := i + 1;
    }
    assert l.files[..i] == l.files && seen == all;
    return Success(());
  }

  method VisitRelationsAt(w: World, pass: RelationPass, languages: seq<LanguageEntry>, ghost start: Relating, i: nat)
    returns (r: Result<(), SnapshotError>)
    requires i < |languages| && Related(w, pass, start, SlotsTo(languages, i))
    modifies pass
    ensures r.Success? ==> Related(w, pass, start, SlotsTo(languages, i + 1))
    ensures r.Failure? ==> RecordsOf(w, Slots(languages), Relations) == Failure(r.error)
  {
    hide Related, RecordsOf, LanguageSlots, Slots;
    r := VisitLanguageRelations(w, pass, languages[i], start, SlotsTo(languages, i));
    assert SlotsTo(languages, i + 1) == SlotsTo(languages, i) + LanguageSlots(languages[i]);
    if r.Failure? { RecordsStop(w, languages, i + 1); }
  }

  method VisitAllRelations(w: World, pass: RelationPass, languages: seq<LanguageEntry>, ghost start: Relating)
    returns (r: Result<(), SnapshotError>)
    requires Related(w, pass, start, SlotsTo(languages, 0))
    modifies pass
    ensures r.Success? ==> Related(w, pass, start, SlotsTo(languages, |languages|))
    ensures r.Failure? ==> RecordsOf(w, Slots(languages), Relations) == Failure(r.error)
  {
    hide *;
    for i := 0 to |languages|
      invariant Related(w, pass, start, SlotsTo(languages, i))
    {
      r := VisitRelationsAt(w, pass, languages, start, i);
      if r.Failure? { return; }
    }
    return Success(());
  }

  method RelationsOfSnapshot(w: World, pass: RelationPass, languages: seq<LanguageEntry>) returns (r: Result<(), SnapshotError>)
    modifies pass
    ensures r.Success? ==> Related(w, pass, old(pass.State()), Slots(languages))
    ensures r.Failure? ==> RecordsOf(w, Slots(languages), Relations) == Failure(r.error)
  {
    r := VisitAllRelations(w, pass, languages, pass.State());
  }

  method LoadSnapshot(w: World, id: Text) returns (r: Result<Snapshot, SnapshotError>)
    ensures r == Load(w, id)
  {
    hide ReadManifest, Slots, FinishNodes, FinishRelations, RelateAll, IngestAllNodes;
    var read :- ReadSnapshotManifest(w.s, w.store.manifest(id), id);
    var (manifest, metadata) := read;
    var nodes :- NodesOfSnapshot(w, manifest.languages);
    hide NodeBatches;
    var finished := nodes.Finish(w.s);
    if finished.Failure? { return Failure(RecordError(finished.error)); }
    var relations := finished.value;
    var _ :- RelationsOfSnapshot(w, relations, manifest.languages);
    hide RecordsOf;
    var loaded := relations.Finish();
    if loaded.Failure? { return Failure(RecordError(loaded.error)); }
    return Success(Snapshot(metadata, loaded.value.facts, loaded.value.warnings));
  }
}
