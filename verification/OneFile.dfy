/**
 Lexicon storages of one file that defines at most one node and edges from it to itself, and repositories that
 hold one of a list of known contents: enough for a sync to fail in each of the ways it can.
 */
module OneFile {
  import opened Wrappers
  import opened Lexicon
  import opened Ordering
  import opened Facts
  import opened Records
  import opened StreamRecords
  import opened SnapshotManifest
  import opened SnapshotLoad
  import opened StagedNodes
  import opened CompactLoad
  import opened DeltaLoad
  import opened BaseStore
  import opened SampleStorage
  import opened StoreContents
  import opened UpdateCompare
  import Reader
  import RepositoryPath
  import Signature = NodeSignature
  import Protocol = SyncProtocol
  import Sync = SyncPlan

  type RecordList = r: seq<FactRecord> | forall x :: x in r ==> ByIdentityOnly(x)

  /** A file as the manifests name it, its path in normal form, and its node. */
  datatype File = File(raw: Text, normal: Text, node: NodeRecord)

  /** The object of the file in every snapshot, by digit, and the records of every object. */
  datatype Sample = Sample(file: File, snapshots: map<Text, byte>, objects: map<Text, RecordList>)

  function FileOf(x: Sample, digit: byte): FileEntry {
    FileEntry(x.file.raw, RUST, Id(48), Id(digit))
  }

  function ManifestOf(x: Sample, digit: byte): Manifest {
    OneLanguageManifest(None, [FileOf(x, digit)])
  }

  function ObjectOf(x: Sample, records: RecordList): LegacyObject {
    FactObject(1, RUST, Some(x.file.normal), Some(Zero()), [49], 1, Zero(), records)
  }

  function WorldOf(x: Sample): World {
    World(SCHEMA, Store(id => if id in x.snapshots then Some(ManifestOf(x, x.snapshots[id])) else None, id => Some(id),
                        bytes => if bytes in x.objects then Some(ObjectOf(x, x.objects[bytes])) else None, _ => true,
                        _ => Some(Zero())))
  }

  function MetadataOf(x: Sample, id: Text): Metadata {
    Metadata(id, if id in x.snapshots then map[(RUST, x.file.normal) := Id(x.snapshots[id])] else map[], map[RUST := None])
  }

  /** What the object of a snapshot holds. */
  function RecordsAt(x: Sample, id: Text): RecordList {
    if id in x.snapshots && Id(x.snapshots[id]) in x.objects then x.objects[Id(x.snapshots[id])] else []
  }

  function Loop(n: NodeRecord, relation: Text): FactRecord {
    Edge(EdgeRecord(None, None, relation, ByIdentity(n.id), None, ByIdentity(n.id)))
  }

  /** The node, and edges from it to itself. */
  predicate OfNode(n: NodeRecord, records: seq<FactRecord>) {
    forall r :: r in records ==> r == Node(n) || (r.Edge? && r == Loop(n, r.edge.relation) && Node(n) in records)
  }

  predicate GoodNode(n: NodeRecord) {
    && n.id == Zero() && n.owner.None? && n.span.None? && n.contentId.None? && n.attributes.None? && n.qualifiedName != []
    && |n.kind| < 1000 && |n.name| < 1000 && |n.path| < 1000 && |n.qualifiedName| < 1000
    && NormalPath(n.path).Some?
  }

  ghost predicate GoodId(digit: byte) {
    LowerHex(digit) && ValidId(Id(digit)) && !(Reader.MAGIC <= Id(digit))
  }

  ghost predicate Good(x: Sample) {
    && NormalPath(x.file.raw) == Some(x.file.normal) && GoodNode(x.file.node)
    && (forall id :: id in x.snapshots ==> ValidId(id) && GoodId(x.snapshots[id]) && Id(x.snapshots[id]) in x.objects)
    && (forall id :: id in x.objects ==> |x.objects[id]| < 10 && OfNode(x.file.node, x.objects[id]))
  }

  // ----- loading -----

  lemma ManifestRead(x: Sample, id: Text)
    requires Good(x) && id in x.snapshots
    ensures ReadManifest(SCHEMA, WorldOf(x).store.manifest(id), id) == Success((ManifestOf(x, x.snapshots[id]), MetadataOf(x, id)))
  {
    hide ValidId, Id, NormalPath, TextLe, OfNode;
    IdValid(48);
    var digit := x.snapshots[id];
    assert ValidId(Id(digit));
    var l := Language(None, [FileOf(x, digit)]);
    assert IndexTo(SCHEMA, [l], 0) == Success(Index(map[], map[]));
    assert ValidateLanguage(l).Success?;
    assert CheckLanguage(None, l).Success?;
    var files := [FileOf(x, digit)];
    assert files[..0] == [];
    assert AddFiles(SCHEMA, RUST, map[], files[..0]) == Success(map[]);
    assert AddFiles(SCHEMA, RUST, map[], files) == Success(map[][(RUST, x.file.normal) := Id(digit)]);
    assert IndexTo(SCHEMA, [l], 1) == Success(Index(map[][(RUST, x.file.normal) := Id(digit)], map[][RUST := None]));
  }

  lemma SlotValid(x: Sample, slot: Slot, records: RecordList, digit: byte)
    requires NormalPath(x.file.raw) == Some(x.file.normal)
    requires slot == Slot(Language(None, [FileOf(x, digit)]), Some(FileOf(x, digit)), Id(digit))
    ensures ValidateSlot(WorldOf(x), ObjectOf(x, records), slot).Success?
  {
    hide NormalPath, Id;
  }

  lemma NodeLoads(n: NodeRecord, records: RecordList)
    requires GoodNode(n) && OfNode(n, records)
    ensures Loadable(SCHEMA, records)
  {
    hide NormalPath;
  }

  function SlotAt(x: Sample, id: Text): Slot
    requires id in x.snapshots
  {
    Slot(Language(None, [FileOf(x, x.snapshots[id])]), Some(FileOf(x, x.snapshots[id])), Id(x.snapshots[id]))
  }

  /** A snapshot has one object; its records load. */
  lemma Loads(x: Sample, id: Text)
    requires Good(x) && id in x.snapshots
    ensures SlotsOf(WorldOf(x), id) == [SlotAt(x, id)]
    ensures RecordsOf(WorldOf(x), SlotsOf(WorldOf(x), id), All) == Success(RecordsAt(x, id))
    ensures Load(WorldOf(x), id).Success? && IsMetadata(WorldOf(x), MetadataOf(x, id))
  {
    hide ReadManifest, ValidId, Id, ValidateSlot, Load, Loadable, SnapshotLoad.Sound, RecordsOf, NormalPath, OfNode;
    ManifestRead(x, id);
    var digit := x.snapshots[id];
    var slot := SlotAt(x, id);
    OneLanguage(slot.language);
    assert LanguageSlots(slot.language) == [slot];
    SlotValid(x, slot, x.objects[Id(digit)], digit);
    OneObject(WorldOf(x), slot, ObjectOf(x, x.objects[Id(digit)]));
    NodeLoads(x.file.node, x.objects[Id(digit)]);
    LoadExact(WorldOf(x), id);
  }

  lemma NoSnapshot(x: Sample, id: Text)
    requires id !in x.snapshots
    ensures RecordsOf(WorldOf(x), SlotsOf(WorldOf(x), id), All) == Success([])
  {
  }

  lemma {:induction false} OneNode(n: NodeRecord, records: seq<FactRecord>)
    requires forall r :: r in records && r.Node? ==> r == Node(n)
    ensures forall m :: m in StreamRecords.NodesIn(records) ==> m == n
  {
    NodeMembers(records);
  }

  lemma Distinguished(x: Sample, m: Machinery, id: Text)
    requires Good(x)
    ensures Distinguishes(WorldOf(x), m, id)
  {
    hide ReadManifest, ValidId, Id, Load, Signature.Preimage, StreamRecords.NodesIn, SlotsOf, RecordsOf, NormalPath;
    if id in x.snapshots {
      Loads(x, id);
      OneNode(x.file.node, RecordsAt(x, id));
    } else {
      NoSnapshot(x, id);
      OneNode(x.file.node, []);
    }
  }

  lemma OnlyZero(x: Sample, slot: Slot, id: Identity)
    requires Good(x) && Recorded(WorldOf(x), slot, id)
    ensures id == Zero()
  {
    hide BinaryObject.ParseObject, NormalPath;
    assert ValidId(slot.objectId);
    assert slot.objectId[0] == 115;
    var records := ReadObject(WorldOf(x), slot.objectId, All).value.0.records;
    RetainIn(x.objects[slot.objectId]);
    var n: NodeRecord :| Node(n) in records && n.id == id;
    assert Node(n) in x.objects[slot.objectId];
  }

  lemma ToldApart(x: Sample)
    requires Good(x)
    ensures KeysTellApart(WorldOf(x))
  {
    hide Recorded, Good;
    forall id | RecordedSomewhere(WorldOf(x), id) ensures id == Zero() {
      var slot :| Recorded(WorldOf(x), slot, id);
      OnlyZero(x, slot, id);
    }
  }

  // ----- what the records come to -----

  function StoredOf(n: NodeRecord): StoredNode {
    Stored(StagedOf(SCHEMA, preimage => preimage, n))
  }

  function LoopFact(relation: RelationKind): EdgeFact {
    EdgeFact(0, 0, relation, None)
  }

  function HeldIn(n: NodeRecord, records: seq<FactRecord>): Part {
    Part(if Node(n) in records then {StoredOf(n)} else {},
         set r | r in records && r.Edge? && Relation(r.edge.relation).Some? :: LoopFact(Relation(r.edge.relation).value), {})
  }

  lemma {:induction false} TotalMember<A, R>(f: A -> multiset<R>, s: seq<A>, x: R)
    ensures x in Total(f, s) <==> exists a :: a in s && x in f(a)
  {
    if s != [] {
      var before, last := s[..|s| - 1], s[|s| - 1];
      assert s == before + [last];
      TotalMember(f, before, x);
    }
  }

  lemma LoopShare(n: NodeRecord, e: EdgeRecord)
    requires GoodNode(n) && Edge(e) == Loop(n, e.relation)
    ensures EdgeShare(SCHEMA, e) == if Relation(e.relation).Some? then multiset{LoopFact(Relation(e.relation).value)} else multiset{}
  {
  }

  /** Converted, the records of an object are its node and its loops. */
  lemma PartIs(n: NodeRecord, digest: seq<byte> -> Text, records: RecordList)
    requires GoodNode(n) && OfNode(n, records)
    ensures PartIn(SCHEMA, digest, records) == HeldIn(n, records)
  {
    hide GoodNode, Relation, EdgeShare;
    MembersIn(records);
    var part, held := PartIn(SCHEMA, digest, records), HeldIn(n, records);
    assert part.nodes == held.nodes by { NodesAre(n, digest, records); }
    hide Stored, StagedOf;
    var share := (e: EdgeRecord) => EdgeShare(SCHEMA, e);
    forall f ensures f in part.edges <==> f in held.edges {
      TotalMember(share, EdgesIn(records), f);
      if f in part.edges {
        var e :| e in EdgesIn(records) && f in EdgeShare(SCHEMA, e);
        assert Edge(e) in records;
        LoopShare(n, e);
      }
      if f in held.edges {
        var r :| r in records && r.Edge? && Relation(r.edge.relation).Some? && LoopFact(Relation(r.edge.relation).value) == f;
        LoopShare(n, r.edge);
        assert r.edge in EdgesIn(records) && Edge(r.edge) in records;
      }
    }
    var references := UnresolvedIn(records);
    assert forall u :: u !in references;
    assert forall i :: 0 <= i < |references| ==> references[i] in references;
  }

  lemma NodesAre(n: NodeRecord, digest: seq<byte> -> Text, records: RecordList)
    requires OfNode(n, records)
    ensures PartIn(SCHEMA, digest, records).nodes == if Node(n) in records then {StoredOf(n)} else {}
  {
    hide Signature.Preimage;
    var nodes := PartIn(SCHEMA, digest, records).nodes;
    assert Stored(StagedOf(SCHEMA, digest, n)) == StoredOf(n);
    forall m ensures m in nodes <==> Node(n) in records && m == StoredOf(n) {
      if m in nodes {
        var r :| r in records && r.Node? && Stored(StagedOf(SCHEMA, digest, r.node)) == m;
        assert r == Node(n);
      }
      if Node(n) in records {
        assert Stored(StagedOf(SCHEMA, digest, Node(n).node)) in nodes;
      }
    }
  }

  /** A full load holds what its object comes to. */
  lemma FullPart(x: Sample, m: Machinery, id: Text)
    requires Good(x) && id in x.snapshots && SortsByKey(m.sort)
    ensures LoadCompact(WorldOf(x), m, id).Success?
    ensures PartOf(LoadCompact(WorldOf(x), m, id).value) == HeldIn(x.file.node, RecordsAt(x, id))
  {
    hide ReadManifest, ValidId, Id, Load, LoadCompact, SortsByKey, Distinguishes, RecordsOf, SlotsOf, Convert, ResolveIn, NormalPath;
    hide SnapshotLoad.Sound, Loadable, EdgeShares, UnresolvedShares, RecordWarnings, AllStaged, StreamRecords.NodesIn, OfNode;
    hide PartOf, PartIn, HeldIn;
    Loads(x, id);
    Distinguished(x, m, id);
    CompactExact(WorldOf(x), m, id);
    FullParts(WorldOf(x), m, id);
    LoadedPart(SCHEMA, m.digest, RecordsAt(x, id), LoadCompact(WorldOf(x), m, id).value);
    PartIs(x.file.node, m.digest, RecordsAt(x, id));
  }

  /** The current object at the file's path is the only one. */
  lemma ReadPart(x: Sample, id: Text, paths: seq<Text>)
    requires Good(x) && id in x.snapshots && Sync.Paths(paths) == {x.file.normal}
    ensures ReadAt(WorldOf(x), MetadataOf(x, id), paths) == Success(RecordsAt(x, id))
  {
    hide ReadManifest, ValidId, Id, Load, RecordsOf, SlotsOf, NormalPath, OfNode;
    Loads(x, id);
    var w, slot := WorldOf(x), SlotAt(x, id);
    assert Selects(w.s, {x.file.normal}, slot);
    assert [slot][..0] == [];
    assert Filter(w.s, {x.file.normal}, true, [slot]) == [] + [slot] == [slot];
  }

  // ----- repositories of known contents -----

  function Find(known: seq<Contents>, c: Contents): Option<nat> {
    if known == [] then None
    else if known[|known| - 1] == c then Some(|known| - 1)
    else Find(known[..|known| - 1], c)
  }

  lemma {:induction false} FindExact(known: seq<Contents>, c: Contents)
    ensures Find(known, c).Some? <==> c in known
    ensures Find(known, c).Some? ==> Find(known, c).value < |known| && known[Find(known, c).value] == c
  {
    if known != [] {
      assert known == known[..|known| - 1] + [known[|known| - 1]];
      FindExact(known[..|known| - 1], c);
    }
  }

  function Coded(i: nat): Text {
    if i < 256 then [i] else []
  }

  /** Is there a manifest, and does it tell which of the known contents the files hold? */
  predicate Legible(known: seq<Contents>, files: Sync.RepositoryFiles) {
    Sync.MANIFEST_FILE in files && |files[Sync.MANIFEST_FILE]| == 1 && files[Sync.MANIFEST_FILE][0] < |known|
  }

  function ReadFiles(known: seq<Contents>, files: Sync.RepositoryFiles): Contents {
    if Legible(known, files) then known[files[Sync.MANIFEST_FILE][0]] else Contents({}, {}, {}, {}, {}, {})
  }

  function CompileKnown(known: seq<Contents>, c: Compact): Option<Sync.RepositoryFiles> {
    match Find(known, Compiled(PartOf(c)))
    case None => None
    case Some(i) => Some(map[Sync.MANIFEST_FILE := Coded(i)])
  }

  /** The code of what the update leaves; a store that is not put in place carries none. */
  function RewriteKnown(known: seq<Contents>, base: Sync.RepositoryFiles, delta: Compact, paths: seq<Text>): Option<Text> {
    var c, part, changed := ReadFiles(known, base), PartOf(delta), Sync.Paths(paths);
    var plan := PlanEdges(c, part, changed);
    if !plan.Changes? || !RewriteAccepts(c, part, changed) || !GraphAccepts(c, plan.added, plan.removed) then Some([])
    else
      match Find(known, Updated(c, part, changed, plan.added, plan.removed))
      case None => None
      case Some(i) => Some(Coded(i))
  }

  function OpenKnown(known: seq<Contents>, files: Sync.RepositoryFiles): Sync.Opening {
    if Legible(known, files) && Coherent(ReadFiles(known, files)) then Sync.Opened else Sync.Unusable
  }

  function OpenBaseKnown(known: seq<Contents>, files: Sync.RepositoryFiles): Sync.Opening {
    if Legible(known, files) then Sync.Opened else Sync.Unusable
  }

  /** The manifest is the code that the store carries. */
  function PublishKnown(files: Sync.RepositoryFiles): Option<Sync.RepositoryFiles> {
    if Sync.STORE_FILE in files then Some(map[Sync.MANIFEST_FILE := files[Sync.STORE_FILE]]) else None
  }

  /** Repositories that open for an update whenever they can be read, over Lexicon's storage. */
  function Keeper(x: Sample, m: Machinery, known: seq<Contents>): Sync.Oracle {
    Sync.Oracle(WorldOf(x), m, _ => false, files => OpenKnown(known, files), files => OpenBaseKnown(known, files), _ => Sync.Opened,
                files => ReadFiles(known, files), (_, _) => Sync.Browsed, c => CompileKnown(known, c),
                (base, delta, paths) => RewriteKnown(known, base, delta, paths),
                (_, _, _) => Some(map[]), (_, files) => PublishKnown(files), _ => None)
  }

  lemma FilesNamed()
    ensures Sync.MANIFEST_FILE != Sync.STORE_FILE
  {
    assert Sync.MANIFEST_FILE[11] == 109 && Sync.STORE_FILE[11] == 97;
  }

  lemma CompileKeeps(known: seq<Contents>, c: Compact)
    requires |known| < 256 && CompileKnown(known, c).Some?
    ensures var files := CompileKnown(known, c).value;
      Legible(known, files) && ReadFiles(known, files) == Compiled(PartOf(c)) && OpenKnown(known, files).Opened?
  {
    FindExact(known, Compiled(PartOf(c)));
    hide Find, PartOf, Links;
  }

  lemma OverlayKeeps(x: Sample, m: Machinery, known: seq<Contents>, current: Metadata, base: Sync.RepositoryFiles, delta: Compact,
                     paths: seq<Text>, added: set<Link>, removed: set<Link>)
    requires |known| < 256
    requires PlanEdges(ReadFiles(known, base), PartOf(delta), Sync.Paths(paths)) == Changes(added, removed)
    requires Sync.OverlayInto(Keeper(x, m, known), current, base, delta, paths, added, removed, map[]).Success?
    ensures var files := Sync.OverlayInto(Keeper(x, m, known), current, base, delta, paths, added, removed, map[]).value.files;
      && Legible(known, files)
      && ReadFiles(known, files) == Updated(ReadFiles(known, base), PartOf(delta), Sync.Paths(paths), added, removed)
  {
    FindExact(known, Updated(ReadFiles(known, base), PartOf(delta), Sync.Paths(paths), added, removed));
    hide Find, PartOf, PlanEdges, Updated, RewriteAccepts, GraphAccepts, WorldOf;
    FilesNamed();
  }

  /** The keeper meets what is asked of loaders, of writers, and of opening what removal leaves. */
  lemma KeeperSound(x: Sample, m: Machinery, known: seq<Contents>)
    requires Good(x) && SortsByKey(m.sort) && |known| < 256
    ensures Sync.Sound(Keeper(x, m, known)) && UsesPaths(Keeper(x, m, known).world.s, NoControl)
    ensures Protocol.RemovalSound(Keeper(x, m, known))
  {
    hide SortsByKey, Distinguishes, Good, KeysTellApart, Settles, ReadFiles, CompileKnown, RewriteKnown, PublishKnown, Coherent;
    hide Sync.OverlayInto, PartOf, PlanEdges, Updated, Compiled, RepositoryPath.Normalize, WorldOf, Legible, Sync.Delta, Sync.WellKeyed;
    hide Protocol.RemovalSound;
    var o := Keeper(x, m, known);
    KeeperRemoval(x, m, known);
    forall id ensures Distinguishes(o.world, m, id) { Distinguished(x, m, id); }
    ToldApart(x);
    PathsSettle(SCHEMA, NoControl);
    assert o.world.s == SCHEMA by { SchemaOf(x); }
    forall c: Compact | o.compile(c).Some?
      ensures o.open(o.compile(c).value).Opened? && o.read(o.compile(c).value) == Compiled(PartOf(c))
    {
      CompileKeeps(known, c);
    }
    forall current: Metadata, base: Sync.RepositoryFiles, paths: seq<Text> | Sync.Delta(o, current, base, paths).Success?
      ensures Sync.OverlaySound(o, current, base, Sync.Delta(o, current, base, paths).value, paths)
    {
      OverlayStands(x, m, known, current, base, Sync.Delta(o, current, base, paths).value, paths);
    }
  }

  lemma OverlayStands(x: Sample, m: Machinery, known: seq<Contents>, current: Metadata, base: Sync.RepositoryFiles, delta: Compact,
                      paths: seq<Text>)
    requires |known| < 256
    ensures Sync.OverlaySound(Keeper(x, m, known), current, base, delta, paths)
  {
    hide ReadFiles, Coherent, Sync.OverlayInto, PartOf, PlanEdges, Updated, WorldOf, Legible;
    var o := Keeper(x, m, known);
    var plan := PlanEdges(o.read(base), PartOf(delta), Sync.Paths(paths));
    if plan.Changes? && Sync.OverlayInto(o, current, base, delta, paths, plan.added, plan.removed, map[]).Success? {
      OverlayKeeps(x, m, known, current, base, delta, paths, plan.added, plan.removed);
    }
  }

  lemma KeeperRemoval(x: Sample, m: Machinery, known: seq<Contents>)
    ensures Protocol.RemovalSound(Keeper(x, m, known))
  {
    hide Coherent, WorldOf;
    var o := Keeper(x, m, known);
    forall part, whole | Protocol.Within(part, whole) && Legible(known, part)
      ensures Legible(known, whole) && ReadFiles(known, part) == ReadFiles(known, whole)
    {
      assert part[Sync.MANIFEST_FILE] == whole[Sync.MANIFEST_FILE];
    }
  }

  lemma SchemaOf(x: Sample)
    ensures WorldOf(x).s == SCHEMA
  {
  }
}
