/**
 Two small Lexicon storages that show where the loaders part.

 In the first a snapshot's shared object records one node of an unrecognised kind twice. In the second the
 one file, indexed as "C:/x", changes between two snapshots. All objects are of a format before binary v2.
 */
module SampleStorage {
  import opened Wrappers
  import opened Lexicon
  import opened Ordering
  import opened Facts
  import opened Records
  import opened Reader
  import opened BinaryObject
  import opened StreamRecords
  import opened SnapshotManifest
  import opened SnapshotLoad
  import opened StagedNodes
  import opened CompactLoad
  import opened DeltaLoad
  import opened BaseStore
  import opened CompactWarnings
  import RepositoryPath

  /** The identity of 32 zeros. */
  function Zero(): Identity {
    seq(32, _ => 0)
  }

  const RUST := Ascii("rust")

  /** "sha256:" and one hexadecimal digit, 64 times. */
  function Id(digit: byte): Text {
    ID_PREFIX + seq(64, _ => digit)
  }

  lemma IdValid(digit: byte)
    requires LowerHex(digit)
    ensures ValidId(Id(digit)) && !(MAGIC <= Id(digit)) && Id(digit) != []
  {
    assert Id(digit)[0] == 115;
  }

  lemma IdsDiffer(a: byte, b: byte)
    requires a != b
    ensures Id(a) != Id(b)
  {
    assert Id(a)[|ID_PREFIX|] != Id(b)[|ID_PREFIX|];
  }

  /** Few labels are recognised, and every identity has the same key. */
  const SCHEMA := Schema(NormalPath, _ => 0, _ => 0, id => id, Kind, Relation, _ => None)

  const MODULE_LABEL := Ascii("module")
  const CALLS_LABEL := Ascii("calls")
  const READS_LABEL := Ascii("reads")

  function Kind(text: Text): Option<NodeKind> {
    if text == MODULE_LABEL then Some(3) else None
  }

  function Relation(text: Text): Option<RelationKind> {
    if text == CALLS_LABEL then Some(4) else if text == READS_LABEL then Some(13) else None
  }

  lemma LabelsDiffer()
    ensures Ascii("widget") != MODULE_LABEL && CALLS_LABEL != READS_LABEL
  {
    assert Ascii("widget")[0] == 119 && MODULE_LABEL[0] == 109;
    assert CALLS_LABEL[0] == 99 && READS_LABEL[0] == 114;
  }

  function NoControl(component: Text): bool { false }

  function NormalPath(path: Text): Option<Text> {
    match RepositoryPath.Normalize(NoControl, path) case Success(normal) => Some(normal) case Failure(_) => None
  }

  function Language(shared: Option<Text>, files: seq<FileEntry>): LanguageEntry {
    LanguageEntry(RUST, [49], None, 1, [46], Id(48), shared, files)
  }

  function OneLanguageManifest(shared: Option<Text>, files: seq<FileEntry>): Manifest {
    Manifest(1, [48], [Language(shared, files)])
  }

  // ----- a snapshot of one object -----

  /** A storage whose objects are stored under their own identifiers. */
  function Storage(manifests: map<Text, Manifest>, objects: map<Text, LegacyObject>): World {
    World(SCHEMA, Store(id => if id in manifests then Some(manifests[id]) else None, id => Some(id),
                        bytes => if bytes in objects then Some(objects[bytes]) else None, _ => true, _ => Some(Zero())))
  }

  lemma LegacyRead(w: World, slot: Slot, o: LegacyObject, selection: RecordSelection)
    requires ValidId(slot.objectId) && !(MAGIC <= slot.objectId)
    requires w.store.object_(slot.objectId) == Some(slot.objectId) && w.store.legacy(slot.objectId) == Some(o)
    ensures ReadObject(w, slot.objectId, selection) == Success((o.(records := Retain(o.records, selection)), CountRecords(o.records)))
  {
    hide ValidId, ParseObject;
  }

  lemma {:induction false} FewCounted(records: seq<FactRecord>)
    ensures var c := CountRecords(records);
      c.nodes <= |records| && c.edges <= |records| && c.unresolved <= |records|
  {
    if records != [] { FewCounted(records[..|records| - 1]); }
  }

  /** One valid object is sound, and its records are those of the snapshot. */
  lemma OneObject(w: World, slot: Slot, o: LegacyObject)
    requires ValidId(slot.objectId) && !(MAGIC <= slot.objectId)
    requires w.store.object_(slot.objectId) == Some(slot.objectId) && w.store.legacy(slot.objectId) == Some(o)
    requires ValidateSlot(w, o, slot).Success? && |o.records| < 10
    ensures SnapshotLoad.Sound(w, [slot]) && RecordsOf(w, [slot], All) == Success(o.records)
  {
    hide ValidateSlot, ValidId, ReadObject, Retain;
    LegacyRead(w, slot, o, All);
    LegacyRead(w, slot, o, Nodes);
    LegacyRead(w, slot, o, Relations);
    RetainIn(o.records);
    FewCounted(o.records);
    StillValid(w, o, slot, Retain(o.records, Nodes));
    assert [slot][..0] == [];
    assert [] + o.records == o.records;
    var batch := Batch(Retain(o.records, Nodes), CountRecords(o.records));
    assert NodeBatch(w, slot) == Success(batch);
    assert NodeBatches(w, []) == Success([]);
    assert NodeBatches(w, [slot]) == Success([] + [batch]);
    assert ([] + [batch])[..0] == [];
    assert TotalCounts([] + [batch]) == RecordCounts(batch.counts.nodes, batch.counts.edges, batch.counts.unresolved);
  }

  lemma StillValid(w: World, o: FactObject, slot: Slot, records: seq<FactRecord>)
    requires ValidateSlot(w, o, slot).Success?
    ensures ValidateSlot(w, o.(records := records), slot).Success?
  {
  }

  lemma OneLanguage(l: LanguageEntry)
    ensures Slots([l]) == LanguageSlots(l)
  {
    assert SlotsTo([l], 0) == [];
    assert SlotsTo([l], 1) == [] + LanguageSlots(l);
  }

  // ----- a repeated node of an unrecognised kind -----

  const REPEATED := NodeRecord(None, None, Zero(), Ascii("widget"), [110], None, RepositoryPath.NAME, [110], None)

  const SHARED: LegacyObject := FactObject(1, RUST, None, None, [49], 1, Zero(), [Node(REPEATED), Node(REPEATED)])

  const TWICE := Storage(map[Id(97) := OneLanguageManifest(Some(Id(98)), [])], map[Id(98) := SHARED])

  lemma NameNormal()
    ensures NormalPath(RepositoryPath.NAME) == Some(RepositoryPath.NAME)
  {
    var name := RepositoryPath.NAME;
    assert RepositoryPath.Plain(NoControl, name);
    assert forall c :: c in [name] ==> RepositoryPath.Plain(NoControl, c);
    var components: seq<Text> := [name];
    assert components[1..] == [];
    RepositoryPath.JoinNormalizes(NoControl, [name]);
  }

  lemma TwiceManifest()
    ensures ReadManifest(SCHEMA, TWICE.store.manifest(Id(97)), Id(97)) ==
            Success((OneLanguageManifest(Some(Id(98)), []), Metadata(Id(97), map[], map[RUST := Some(Id(98))])))
  {
    hide ValidId;
    IdValid(97);
    IdValid(98);
    IdValid(48);
    var l := Language(Some(Id(98)), []);
    assert IndexTo(SCHEMA, [l], 0) == Success(Index(map[], map[]));
    assert ValidateLanguage(l).Success?;
    assert CheckLanguage(None, l).Success?;
    assert AddFiles(SCHEMA, RUST, map[], []) == Success(map[]);
    assert IndexTo(SCHEMA, [l], 1) == Success(Index(map[], map[][RUST := Some(Id(98))]));
  }

  lemma TwiceLoads()
    ensures SlotsOf(TWICE, Id(97)) == [Slot(Language(Some(Id(98)), []), None, Id(98))]
    ensures RecordsOf(TWICE, SlotsOf(TWICE, Id(97)), All) == Success([Node(REPEATED), Node(REPEATED)])
    ensures Load(TWICE, Id(97)).Success?
  {
    hide ReadManifest, ValidId, ValidateSlot, Load, Loadable;
    TwiceManifest();
    IdValid(98);
    IdValid(48);
    var l := Language(Some(Id(98)), []);
    OneLanguage(l);
    var slot := Slot(l, None, Id(98));
    assert LanguageSlots(l) == [slot];
    assert ValidateSlot(TWICE, SHARED, slot).Success? by { TwiceValid(slot); }
    OneObject(TWICE, slot, SHARED);
    TwiceLoadable();
    LoadExact(TWICE, Id(97));
  }

  lemma TwiceValid(slot: Slot)
    requires slot == Slot(Language(Some(Id(98)), []), None, Id(98))
    ensures ValidateSlot(TWICE, SHARED, slot).Success?
  {
  }

  lemma TwiceLoadable()
    ensures Loadable(SCHEMA, [Node(REPEATED), Node(REPEATED)])
  {
    NameNormal();
  }

  /**
   Both loads succeed and load the node as a symbol; `load` warns once of the node that is recorded twice, and
   `load_compact` twice.
   */
  lemma RepeatedNodeCountedTwice(m: Machinery)
    requires SortsByKey(m.sort)
    ensures LoadCompact(TWICE, m, Id(97)).Success? && Load(TWICE, Id(97)).Success?
    ensures exists f :: f in Load(TWICE, Id(97)).value.facts.nodes && f.kind == 5 && f.name == [110]
    ensures Load(TWICE, Id(97)).value.warnings[WIDGET] == 1
    ensures LoadCompact(TWICE, m, Id(97)).value.warnings[WIDGET] == 2
  {
    hide ReadManifest, Load, LoadCompact, SortsByKey, SlotsOf, RecordsOf, Surplus, KindWarnings, NodesIn;
    TwiceLoads();
    var all := [Node(REPEATED), Node(REPEATED)];
    TwiceNodes();
    assert Distinguishes(TWICE, m, Id(97)) by { TwiceDistinguishes(m, all); }
    hide Distinguishes;
    CompactExact(TWICE, m, Id(97));
    TwiceSymbol();
    WarningsCompared(TWICE, m, Id(97));
    TwiceCounts(m);
    TwiceSurplus();
  }

  lemma TwiceSymbol()
    ensures Load(TWICE, Id(97)).Success?
    ensures exists f :: f in Load(TWICE, Id(97)).value.facts.nodes && f.kind == 5 && f.name == [110]
  {
    hide ReadManifest, Load, Slots, RecordsOf, Build, SnapshotLoad.Sound, Loadable, Id;
    TwiceLoads();
    TwiceManifest();
    LoadExact(TWICE, Id(97));
    LabelsDiffer();
    assert TWICE.s == SCHEMA && SCHEMA.nodeKind(REPEATED.kind) == None && REPEATED.name == [110];
    var all := [Node(REPEATED), Node(REPEATED)];
    assert Node(REPEATED) in all;
    UnrecognisedKind(SCHEMA, all, REPEATED);
  }

  lemma TwiceNodes()
    ensures NodesIn([Node(REPEATED), Node(REPEATED)]) == [REPEATED, REPEATED]
    ensures EdgesIn([Node(REPEATED), Node(REPEATED)]) == [] && UnresolvedIn([Node(REPEATED), Node(REPEATED)]) == []
  {
    var all := [Node(REPEATED), Node(REPEATED)];
    assert all[..1] == [Node(REPEATED)] && all[..1][..0] == [];
    assert NodesIn([Node(REPEATED)]) == [] + [REPEATED];
    NoneIn(all);
  }

  lemma TwiceDistinguishes(m: Machinery, all: seq<FactRecord>)
    requires all == [Node(REPEATED), Node(REPEATED)] && NodesIn(all) == [REPEATED, REPEATED]
    ensures NoCollision(m.digest, NodesIn(all))
  {
    hide Signature.Preimage;
  }

  const WIDGET := UnknownNodeKind(Ascii("widget"))

  lemma TwiceOccurs(p: NodeRecord -> bool)
    requires p(REPEATED)
    ensures Occurrences(p, [REPEATED, REPEATED]) == 2 && Repeats(p, [REPEATED, REPEATED]) == 1
  {
    hide OfUnknownKind;
    var nodes := [REPEATED, REPEATED];
    assert nodes[..1] == [REPEATED] && nodes[..1][..0] == [];
    assert Occurrences(p, [REPEATED]) == 1;
    assert Once(p, nodes) == {REPEATED};
  }

  lemma TwiceSurplus()
    ensures Surplus(SCHEMA, [Node(REPEATED), Node(REPEATED)], WIDGET) == 1
    ensures KindWarnings(SCHEMA, [REPEATED, REPEATED])[WIDGET] == 2
  {
    hide Repeats, Occurrences, KindWarnings;
    TwiceNodes();
    LabelsDiffer();
    TwiceOccurs(UnknownKind(SCHEMA, WIDGET.text));
    KindWarningCount(SCHEMA, [REPEATED, REPEATED], WIDGET);
  }

  lemma TwiceCounts(m: Machinery)
    requires SortsByKey(m.sort) && Distinguishes(TWICE, m, Id(97)) && LoadCompact(TWICE, m, Id(97)).Success?
    ensures LoadCompact(TWICE, m, Id(97)).value.warnings == KindWarnings(SCHEMA, [REPEATED, REPEATED])
  {
    hide ReadManifest, Load, LoadCompact, SortsByKey, SlotsOf, RecordsOf, Distinguishes, KindWarnings, NodesIn, Records.NodesOf;
    hide EdgesIn, UnresolvedIn, ConvertEdge, ConvertUnresolved;
    TwiceLoads();
    TwiceNodes();
    CompactCounts(TWICE, m, Id(97));
    var all := [Node(REPEATED), Node(REPEATED)];
    assert RecordsAt(TWICE, Id(97)) == all && TWICE.s == SCHEMA;
    var ids := Records.NodesOf(SCHEMA, all).value.ids;
    assert EdgeWarnings(SCHEMA, ids, all) == multiset{} && UnresolvedWarnings(SCHEMA, ids, all) == multiset{};
  }
}
