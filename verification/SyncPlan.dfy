/**
 arcana/src/cli_sync.rs and cli_sync_build.rs: what a sync decides and what it writes, as functions of
 the state directory.

 Snapshots are loaded by `CompactLoad.LoadCompact` and `DeltaLoad.LoadDelta`. Reading and writing the files
 of a repository is behind an `Oracle`. A `Disk` is the state directory as one process sees it under the lock.
 */
module SyncPlan {
  import opened Wrappers
  import opened Lexicon
  import opened Ordering
  import opened SnapshotManifest
  import opened DeltaLoad
  import opened BaseStore
  import opened StoreContents
  import Records
  import CompactLoad
  import SnapshotLoad
  import BinaryObject
  import RepositoryPath

  type RepositoryFiles = map<Text, Text>

  /** A directory below `snapshots`: the repository files, `lexicon.snapshot` and `compatibility.warnings`. */
  datatype Generation = Generation(files: RepositoryFiles, marker: Option<Text>, warnings: Option<Text>)

  const EMPTY := Generation(map[], None, None)
  const MANIFEST_FILE := BinaryObject.Ascii("repository.manifest")
  const STORE_FILE := BinaryObject.Ascii("repository.arcana")

  /**
   The generations by identity, the temporary directories by identity and process, `CURRENT`, and the
   files from which processes replace it.
   */
  datatype Disk = Disk(snapshots: map<Text, Generation>, temps: map<(Text, nat), Generation>, current: Option<Text>,
                       pending: map<nat, Text>)

  datatype Opening = Opened | UnsupportedVersion(version: nat) | UnexpectedIo | Unusable

  datatype MetadataRead = Readable(metadata: Metadata) | Unavailable | Broken

  /** How reading the base store goes while it is compared with a delta. */
  datatype Browsing = Browsed | Corrupt | Unreadable

  /**
   What a sync finds outside the state directory, and the calls that read and write repository files. `world`
   is Lexicon's storage, `machinery` the hash and sort of the compact loader; reading the manifests that are
   `denied` is an I/O error other than a missing file. `open` is `RepositorySnapshot::open`, `openBase` and
   `openStore` open a previous generation for an update, and `read` is what its store and graph hold, if
   `browse` does not fail. `compile` writes a full load; `rewrite`, `graph` and `publish` are the files an update
   writes, in this order. `None` is an I/O error.
   */
  datatype Oracle = Oracle(world: SnapshotLoad.World, machinery: CompactLoad.Machinery, denied: Text -> bool,
                           open: RepositoryFiles -> Opening, openBase: RepositoryFiles -> Opening, openStore: RepositoryFiles -> Opening,
                           read: RepositoryFiles -> Contents, browse: (RepositoryFiles, seq<Text>) -> Browsing,
                           compile: CompactLoad.Compact -> Option<RepositoryFiles>,
                           rewrite: (RepositoryFiles, CompactLoad.Compact, seq<Text>) -> Option<Text>,
                           graph: (RepositoryFiles, CompactLoad.Compact, seq<Text>) -> Option<RepositoryFiles>,
                           publish: (Metadata, RepositoryFiles) -> Option<RepositoryFiles>,
                           render: multiset<Records.Warning> -> Option<Text>)

  datatype RebuildReason =
    | NoPreviousGeneration
    | NoUsablePreviousGeneration
    | CurrentGenerationInvalid
    | UnsupportedCurrentManifestVersion(version: nat)
    | PreviousLexiconMetadataUnavailable
    | SharedObjectsDiffer
    | NoChangedPaths
    | UnsupportedPreviousManifestVersion(version: nat)
    | PreviousGenerationInvalid
    | ChangedNodeSet

  datatype Plan = Existing | Rebuild(reason: RebuildReason) | Incremental(previous: Text, paths: seq<Text>)

  datatype SyncError = Busy | InvalidState | Io | LexiconUnavailable | LoadFailed | UpdateFailed | WriteFailed

  /** Does the directory hold the generation of this Lexicon snapshot, and does it open? */
  predicate Complete(o: Oracle, g: Generation, id: Text) {
    g.marker == Some(id) && o.open(g.files).Opened?
  }

  /** A full load of a snapshot. */
  function FullLoad(o: Oracle, id: Text): Result<CompactLoad.Compact, SnapshotError> {
    CompactLoad.LoadCompact(o.world, o.machinery, id)
  }

  /** The incremental load of a snapshot over the store of a generation. */
  function Delta(o: Oracle, current: Metadata, base: RepositoryFiles, paths: seq<Text>): Result<CompactLoad.Compact, SnapshotError> {
    LoadDelta(o.world, o.machinery, current, paths, Identities(o.read(base).nodes))
  }

  // ----- planning -----

  /** `LexiconSnapshotMetadata::load`, with its errors sorted. */
  function ReadMetadata(o: Oracle, id: Text): MetadataRead {
    if o.denied(id) then Broken
    else
      match ReadManifest(o.world.s, o.world.store.manifest(id), id)
      case Success(read) => Readable(read.1)
      case Failure(_) => Unavailable
  }

  function Classify(opening: Opening, currentGeneration: bool): Result<RebuildReason, SyncError>
    requires !opening.Opened?
  {
    match opening
    case UnsupportedVersion(version) =>
      Success(if currentGeneration then UnsupportedCurrentManifestVersion(version)
              else UnsupportedPreviousManifestVersion(version))
    case UnexpectedIo => Failure(Io)
    case Unusable => Success(if currentGeneration then CurrentGenerationInvalid else PreviousGenerationInvalid)
  }

  function PlanExistingOutput(o: Oracle, g: Generation, id: Text): Result<Plan, SyncError> {
    if g.marker != Some(id) then Success(Rebuild(CurrentGenerationInvalid))
    else if o.open(g.files).Opened? then Success(Existing)
    else
      var reason :- Classify(o.open(g.files), true);
      Success(Rebuild(reason))
  }

  ghost function TextsAscending(paths: set<Text>): (r: seq<Text>)
    ensures StrictlySorted(TextLe, r)
    ensures forall p :: p in r <==> p in paths
  {
    TextTotal();
    Ascending(TextLe, paths)
  }

  /** Every path under which some language's object differs. */
  ghost function DifferingPaths(current: FileIndex, previous: FileIndex): seq<Text> {
    TextsAscending(set k | k in current.Keys + previous.Keys && Get(current, k) != Get(previous, k) :: k.1)
  }

  ghost function PlanFromPrevious(o: Oracle, d: Disk, previous: Text, current: Metadata): Result<Plan, SyncError> {
    if !ValidId(previous) then Failure(InvalidState)
    else if previous !in d.snapshots || MANIFEST_FILE !in d.snapshots[previous].files then
      Success(Rebuild(NoUsablePreviousGeneration))
    else
      match ReadMetadata(o, previous)
      case Broken => Failure(Io)
      case Unavailable => Success(Rebuild(PreviousLexiconMetadataUnavailable))
      case Readable(earlier) =>
        if SharedObjectsChanged(current, earlier) then Success(Rebuild(SharedObjectsDiffer))
        else
          var paths := DifferingPaths(current.files, earlier.files);
          if paths == [] then Success(Rebuild(NoChangedPaths))
          else PlanUpdate(o, d.snapshots[previous].files, previous, paths)
  }

  function PlanUpdate(o: Oracle, base: RepositoryFiles, previous: Text, paths: seq<Text>): Result<Plan, SyncError> {
    if !o.openBase(base).Opened? then
      var reason :- Classify(o.openBase(base), false);
      Success(Rebuild(reason))
    else if !o.openStore(base).Opened? then
      var reason :- Classify(o.openStore(base), false);
      Success(Rebuild(reason))
    else Success(Incremental(previous, paths))
  }

  ghost function PlanSnapshot(o: Oracle, d: Disk, previous: Option<Text>, current: Metadata): Result<Plan, SyncError> {
    if current.id in d.snapshots then PlanExistingOutput(o, d.snapshots[current.id], current.id)
    else
      match previous
      case None => Success(Rebuild(NoPreviousGeneration))
      case Some(id) =>
        if id == current.id then Success(Rebuild(NoUsablePreviousGeneration)) else PlanFromPrevious(o, d, id, current)
  }

  // ----- writing the repository files -----

  /** What was written into the temporary directory; `rebuilt` is the reason if everything was rebuilt. */
  datatype Written = Written(files: RepositoryFiles, warnings: Option<Text>, rebuilt: Option<RebuildReason>)

  /** A full load compiled into the directory, which already holds `into`. */
  function RebuildInto(o: Oracle, current: Metadata, into: RepositoryFiles, reason: RebuildReason): Result<Written, SyncError> {
    match FullLoad(o, current.id)
    case Failure(_) => Failure(LoadFailed)
    case Success(loaded) =>
      match o.compile(loaded)
      case None => Failure(WriteFailed)
      case Some(files) => Success(Written(into + files, o.render(loaded.warnings), Some(reason)))
  }

  /** The update of a previous generation, or the rebuild it falls back to; `into` is what the directory holds so far. */
  function UpdateInto(o: Oracle, current: Metadata, base: RepositoryFiles, paths: seq<Text>, into: RepositoryFiles): Result<Written, SyncError> {
    if !o.openBase(base).Opened? then
      var reason :- Classify(o.openBase(base), false);
      RebuildInto(o, current, into, reason)
    else if !o.openStore(base).Opened? then
      var reason :- Classify(o.openStore(base), false);
      RebuildInto(o, current, into, reason)
    else
      match Delta(o, current, base, paths)
      case Failure(_) => Failure(LoadFailed)
      case Success(delta) =>
        match o.browse(base, paths)
        case Corrupt => RebuildInto(o, current, into, PreviousGenerationInvalid)
        case Unreadable => Failure(UpdateFailed)
        case Browsed =>
          match PlanEdges(o.read(base), PartOf(delta), Paths(paths))
          case NodeSetChanged => RebuildInto(o, current, into, ChangedNodeSet)
          case MissingEndpoint => Failure(UpdateFailed)
          case Changes(added, removed) => OverlayInto(o, current, base, delta, paths, added, removed, into)
  }

  function Paths(paths: seq<Text>): set<Text> {
    set x | x in paths
  }

  /** The store, the graph and the manifest, written one after the other. */
  function OverlayInto(o: Oracle, current: Metadata, base: RepositoryFiles, delta: CompactLoad.Compact, paths: seq<Text>,
                       added: set<Link>, removed: set<Link>, into: RepositoryFiles)
    : Result<Written, SyncError>
  {
    if !RewriteAccepts(o.read(base), PartOf(delta), Paths(paths)) then Failure(UpdateFailed)
    else
      match o.rewrite(base, delta, paths)
      case None => Failure(WriteFailed)
      case Some(store) =>
        if !GraphAccepts(o.read(base), added, removed) then Failure(UpdateFailed)
        else
          match o.graph(base, delta, paths)
          case None => Failure(WriteFailed)
          case Some(graph) =>
            var written := into[STORE_FILE := store] + graph;
            match o.publish(current, written)
            case None => Failure(WriteFailed)
            case Some(manifest) => Success(Written(written + manifest, o.render(delta.warnings), None))
  }

  function WriteSnapshot(o: Oracle, snapshots: map<Text, Generation>, current: Metadata, plan: Plan, into: RepositoryFiles)
    : Result<Written, SyncError>
  {
    match plan
    case Existing => Failure(InvalidState)
    case Rebuild(reason) => RebuildInto(o, current, into, reason)
    case Incremental(previous, paths) =>
      UpdateInto(o, current, if previous in snapshots then snapshots[previous].files else map[], paths, into)
  }

  // ----- what the writers leave -----

  /** Does an update start from these files, rather than fall back to a rebuild? */
  predicate UpdateBase(o: Oracle, files: RepositoryFiles) {
    o.openBase(files).Opened? && o.openStore(files).Opened?
  }

  ghost predicate WellKeyed(w: SnapshotLoad.World, nodes: set<StoredNode>) {
    forall n :: n in nodes ==> n.key == w.s.nodeKey(n.identity)
  }

  /** The store of these files holds every node of the snapshot, under the keys of their identities. */
  ghost predicate Remembers(o: Oracle, id: Text, files: RepositoryFiles) {
    && SlotsHeld(o.world, SnapshotLoad.SlotsOf(o.world, id), Identities(o.read(files).nodes))
    && WellKeyed(o.world, o.read(files).nodes)
  }

  /** What an update leaves if it gets through. */
  function Overlaid(o: Oracle, base: RepositoryFiles, delta: CompactLoad.Compact, paths: seq<Text>, added: set<Link>, removed: set<Link>)
    : Contents
  {
    Updated(o.read(base), PartOf(delta), Paths(paths), added, removed)
  }

  /**
   The contract of the writers: a load compiled opens and holds what was compiled; an update, by the delta it loads,
   of a base that opens for it and whose nodes are under the keys of their identities, holds what it leaves and opens
   if that is coherent.
   */
  ghost predicate WritersSound(o: Oracle) {
    && (forall c: CompactLoad.Compact :: o.compile(c).Some? ==>
          o.open(o.compile(c).value).Opened? && o.read(o.compile(c).value) == Compiled(PartOf(c)))
    && (forall m: Metadata, base: RepositoryFiles, paths: seq<Text> ::
          UpdateBase(o, base) && WellKeyed(o.world, o.read(base).nodes) && Delta(o, m, base, paths).Success? ==>
            OverlaySound(o, m, base, Delta(o, m, base, paths).value, paths))
  }

  ghost predicate OverlaySound(o: Oracle, m: Metadata, base: RepositoryFiles, delta: CompactLoad.Compact, paths: seq<Text>) {
    var plan := PlanEdges(o.read(base), PartOf(delta), Paths(paths));
    plan.Changes? && OverlayInto(o, m, base, delta, paths, plan.added, plan.removed, map[]).Success? ==>
      var files := OverlayInto(o, m, base, delta, paths, plan.added, plan.removed, map[]).value.files;
      && o.read(files) == Overlaid(o, base, delta, paths, plan.added, plan.removed)
      && o.open(files) == if Coherent(o.read(files)) then Opened else Unusable
  }

  /** The contract of the loaders' parameters: they sort by key, tell signatures and keys apart, and normalising settles. */
  ghost predicate LoadersSound(o: Oracle) {
    && CompactLoad.SortsByKey(o.machinery.sort)
    && (forall id :: CompactLoad.Distinguishes(o.world, o.machinery, id))
    && KeysTellApart(o.world)
    && Settles(o.world.s)
  }

  ghost predicate Sound(o: Oracle) {
    WritersSound(o) && LoadersSound(o)
  }

  lemma RebuildOpens(o: Oracle, current: Metadata, reason: RebuildReason)
    requires WritersSound(o) && RebuildInto(o, current, map[], reason).Success?
    ensures var w := RebuildInto(o, current, map[], reason).value;
      && w.rebuilt == Some(reason) && o.open(w.files).Opened?
      && FullLoad(o, current.id).Success? && o.read(w.files) == Compiled(PartOf(FullLoad(o, current.id).value))
  {
    hide OverlayInto, FullLoad, Compiled;
    var files := o.compile(FullLoad(o, current.id).value).value;
    assert map[] + files == files;
  }

  /** An update that succeeds is a rebuild for the reason it reports, or an overlay. */
  lemma UpdateKinds(o: Oracle, current: Metadata, base: RepositoryFiles, paths: seq<Text>)
    requires UpdateInto(o, current, base, paths, map[]).Success?
    ensures var r := UpdateInto(o, current, base, paths, map[]);
      if r.value.rebuilt.Some? then r == RebuildInto(o, current, map[], r.value.rebuilt.value)
      else
        && UpdateBase(o, base)
        && Delta(o, current, base, paths).Success? && o.browse(base, paths).Browsed?
        && var plan := PlanEdges(o.read(base), PartOf(Delta(o, current, base, paths).value), Paths(paths));
           && plan.Changes? && RewriteAccepts(o.read(base), PartOf(Delta(o, current, base, paths).value), Paths(paths))
           && GraphAccepts(o.read(base), plan.added, plan.removed)
           && r == OverlayInto(o, current, base, Delta(o, current, base, paths).value, paths, plan.added, plan.removed, map[])
  {
    hide FullLoad, Delta, PlanEdges, RewriteAccepts, GraphAccepts;
  }

  /** When an update of a base that opens turns into a rebuild. */
  lemma RebuiltWhen(o: Oracle, current: Metadata, base: RepositoryFiles, paths: seq<Text>)
    requires UpdateBase(o, base) && UpdateInto(o, current, base, paths, map[]).Success?
    ensures Delta(o, current, base, paths).Success? && !o.browse(base, paths).Unreadable?
    ensures UpdateInto(o, current, base, paths, map[]).value.rebuilt ==
            if o.browse(base, paths).Corrupt? then Some(PreviousGenerationInvalid)
            else if !OwnTheSame(o.read(base), PartOf(Delta(o, current, base, paths).value), Paths(paths)) then Some(ChangedNodeSet)
            else None
  {
    hide FullLoad, Delta, OwnTheSame, RewriteAccepts, GraphAccepts, EndsIn;
  }

  lemma RebuildRemembers(o: Oracle, current: Metadata, reason: RebuildReason)
    requires Sound(o) && RebuildInto(o, current, map[], reason).Success?
    ensures Remembers(o, current.id, RebuildInto(o, current, map[], reason).value.files)
  {
    hide CompactLoad.LoadCompact, SlotsHeld, CompactLoad.SortsByKey, CompactLoad.Distinguishes, Settles, OverlayInto, RebuildInto;
    hide KeysTellApart, RecordedSomewhere;
    RebuildOpens(o, current, reason);
    var loaded := FullLoad(o, current.id).value;
    forall n | n in loaded.nodes ensures n.key == o.world.s.nodeKey(n.identity) {
      FullRecorded(o.world, o.machinery, current.id, n);
    }
    StoredHeld(loaded);
    FullHolds(o.world, o.machinery, current.id, Identities(PartOf(loaded).nodes));
  }

  lemma StoredHeld(c: CompactLoad.Compact)
    ensures HoldsNodes(Identities(PartOf(c).nodes), c.nodes)
  {
    forall n | n in c.nodes ensures n.identity in Identities(PartOf(c).nodes) {
      assert Stored(n) in PartOf(c).nodes;
    }
  }

  /** Replacing nodes by others of the same keys loses no identity, as identities have keys of their own. */
  lemma HeldThrough(w: SnapshotLoad.World, slots: seq<Slot>, c: Contents, delta: CompactLoad.Compact, paths: set<Text>,
                    added: set<Link>, removed: set<Link>)
    requires KeysTellApart(w) && SlotsHeld(w, slots, Identities(c.nodes)) && WellKeyed(w, c.nodes)
    requires Keys(OwnedNodes(c.nodes, paths)) == Keys(OwnedNodes(PartOf(delta).nodes, paths))
    requires forall n :: n in delta.nodes ==> RecordedSomewhere(w, n.identity) && n.key == w.s.nodeKey(n.identity)
    ensures SlotsHeld(w, slots, Identities(Updated(c, PartOf(delta), paths, added, removed).nodes))
    ensures WellKeyed(w, Updated(c, PartOf(delta), paths, added, removed).nodes)
  {
    hide NodeOwnedAt, Recorded;
    var after := Updated(c, PartOf(delta), paths, added, removed).nodes;
    forall slot, id | slot in slots && Recorded(w, slot, id) ensures id in Identities(after) {
      assert RecordedSomewhere(w, id);
      assert id in Identities(c.nodes);
      var n :| n in c.nodes && n.identity == id;
      if n in OwnedNodes(c.nodes, paths) {
        assert n.key in Keys(OwnedNodes(c.nodes, paths));
        var m :| m in OwnedNodes(PartOf(delta).nodes, paths) && m.key == n.key;
        assert m.identity == id;
        assert m in after;
      } else {
        assert n in after;
      }
    }
  }

  lemma OverlayRemembers(o: Oracle, current: Metadata, previous: Metadata, base: RepositoryFiles, paths: seq<Text>)
    requires Sound(o) && Remembers(o, previous.id, base) && UpdateBase(o, base)
    requires Syncs(o.world, current, previous, paths, Identities(o.read(base).nodes))
    requires Delta(o, current, base, paths).Success?
    requires var delta, plan := Delta(o, current, base, paths).value,
                                PlanEdges(o.read(base), PartOf(Delta(o, current, base, paths).value), Paths(paths));
      plan.Changes? && OverlayInto(o, current, base, delta, paths, plan.added, plan.removed, map[]).Success?
    ensures var delta, plan := Delta(o, current, base, paths).value,
                               PlanEdges(o.read(base), PartOf(Delta(o, current, base, paths).value), Paths(paths));
      Remembers(o, current.id, OverlayInto(o, current, base, delta, paths, plan.added, plan.removed, map[]).value.files)
  {
    hide LoadDelta, SlotsHeld, CompactLoad.SortsByKey, CompactLoad.Distinguishes, Settles, OverlayInto, Syncs, KeysTellApart;
    hide RecordedSomewhere, StagedNodes.KeysAscend, EndsIn, HoldsNodes, Coherent;
    var delta, c := Delta(o, current, base, paths).value, o.read(base);
    var plan := PlanEdges(c, PartOf(delta), Paths(paths));
    var slots := SnapshotLoad.SlotsOf(o.world, previous.id);
    DeltaRecorded(o.world, o.machinery, current, paths, Identities(c.nodes));
    HeldThrough(o.world, slots, c, delta, Paths(paths), plan.added, plan.removed);
    var after := Overlaid(o, base, delta, paths, plan.added, plan.removed).nodes;
    StoredHeld(delta);
    HoldsMore(Identities(PartOf(delta).nodes), Identities(after), delta.nodes);
    DeltaHolds(o.world, o.machinery, current, previous, paths, Identities(c.nodes), Identities(after));
  }

  lemma HoldsMore(a: set<Identity>, b: set<Identity>, nodes: seq<StagedNodes.StagedNode>)
    requires HoldsNodes(a, nodes) && a <= b
    ensures HoldsNodes(b, nodes)
  {
  }

  // ----- a whole sync -----

  datatype Report = Report(plan: Plan, rebuilt: Option<RebuildReason>, warnings: Option<Text>)

  /** `replace_file` on `CURRENT`: a file left by a process of the same number makes it fail, and is removed. */
  function Publish(d: Disk, p: nat, id: Text): (Disk, Result<(), SyncError>) {
    if p in d.pending then (d.(pending := d.pending - {p}), Failure(Io))
    else (d.(current := Some(id)), Success(()))
  }

  /** `build_snapshot`: writes a temporary directory and renames it. */
  function BuildSnapshot(o: Oracle, d: Disk, p: nat, current: Metadata, plan: Plan): (Disk, Result<Written, SyncError>) {
    var cleared := d.(temps := d.temps - {(current.id, p)});
    match WriteSnapshot(o, d.snapshots, current, plan, map[])
    case Failure(error) => (cleared, Failure(error))
    case Success(written) =>
      (cleared.(snapshots := d.snapshots[current.id := Generation(written.files, Some(current.id), written.warnings)]),
       Success(written))
  }

  function ReadCurrent(d: Disk): Result<Option<Text>, SyncError> {
    match d.current
    case None => Success(None)
    case Some(id) => if id == [] then Failure(InvalidState) else Success(Some(id))
  }

  /** One sync that is not interrupted: the state directory it leaves and what it reports. */
  ghost function Synced(o: Oracle, d: Disk, p: nat, lexicon: Option<Metadata>): (Disk, Result<Report, SyncError>) {
    if lexicon.None? then (d, Failure(LexiconUnavailable))
    else
      var current := lexicon.value;
      if !ValidId(current.id) then (d, Failure(InvalidState))
      else
        match ReadCurrent(d)
        case Failure(error) => (d, Failure(error))
        case Success(previous) =>
          match PlanSnapshot(o, d, previous, current)
          case Failure(error) => (d, Failure(error))
          case Success(plan) => Carry(o, d, p, current, plan)
  }

  /** What follows the plan. */
  function Carry(o: Oracle, d: Disk, p: nat, current: Metadata, plan: Plan): (Disk, Result<Report, SyncError>) {
    if plan.Existing? then
      var (after, published) := Publish(d, p, current.id);
      (after, match published
              case Failure(error) => Failure(error)
              case Success(_) =>
                Success(Report(plan, None, if current.id in d.snapshots then d.snapshots[current.id].warnings else None)))
    else
      var (built, written) := BuildSnapshot(o, d.(snapshots := d.snapshots - {current.id}), p, current, plan);
      match written
      case Failure(error) => (built, Failure(error))
      case Success(w) =>
        var (after, published) := Publish(built, p, current.id);
        (after, match published
                case Failure(error) => Failure(error)
                case Success(_) => Success(Report(plan, w.rebuilt, w.warnings)))
  }

  // ----- recovery -----

  /**
   What may be trusted of the generations in place: that those an update can start from hold the nodes of
   their snapshots, and that the one `CURRENT` names opens.
   */
  datatype Trust = Trust(stores: bool, opens: bool)

  /** What holds of the state directory between steps, as far as it is trusted. */
  ghost predicate Consistent(o: Oracle, t: Trust, d: Disk) {
    && (d.current.Some? ==> ValidId(d.current.value))
    && (forall id :: id in d.snapshots ==> ValidId(id))
    && (t.opens && d.current.Some? ==> Standing(o, d, d.current.value))
    && (t.stores ==> forall id :: id in d.snapshots && UpdateBase(o, d.snapshots[id].files) ==> Remembers(o, id, d.snapshots[id].files))
  }

  /** The generation is there, and it is complete. */
  ghost predicate Standing(o: Oracle, d: Disk, id: Text) {
    id in d.snapshots && Complete(o, d.snapshots[id], id)
  }

  /** `CURRENT` is the given identity and its generation is complete. */
  ghost predicate InSync(o: Oracle, d: Disk, id: Text) {
    d.current == Some(id) && Standing(o, d, id)
  }

  /** What was written is the generation of this name, `CURRENT` names it, and the other generations are as they were. */
  predicate Placed(before: Disk, after: Disk, id: Text, w: Written) {
    after.current == Some(id) && after.snapshots == before.snapshots[id := Generation(w.files, Some(id), w.warnings)]
  }

  const STORES := Trust(true, false)

  lemma ValidNotEmpty(id: Text)
    requires ValidId(id)
    ensures id != []
  {
  }

  /** The metadata a sync starts from: those of Lexicon's current snapshot, whose manifest is accepted. */
  ghost predicate FromLexicon(o: Oracle, current: Metadata) {
    IsMetadata(o.world, current)
  }

  lemma LexiconValid(o: Oracle, current: Metadata)
    requires FromLexicon(o, current)
    ensures ValidId(current.id)
  {
    hide IndexTo, ValidId;
  }

  lemma MetadataFound(o: Oracle, id: Text)
    requires ReadMetadata(o, id).Readable?
    ensures IsMetadata(o.world, ReadMetadata(o, id).metadata) && ReadMetadata(o, id).metadata.id == id
  {
    hide IndexTo, ValidId;
  }

  lemma PathsDiffer(current: FileIndex, previous: FileIndex)
    ensures forall p :: p in DifferingPaths(current, previous) <==> DiffersAt(current, previous, p)
  {
    var keys := set k | k in current.Keys + previous.Keys && Get(current, k) != Get(previous, k);
    hide StrictlySorted, TextLe;
    forall p ensures p in DifferingPaths(current, previous) <==> DiffersAt(current, previous, p) {
      assert p in DifferingPaths(current, previous) <==> exists k :: k in keys && k.1 == p;
      if DiffersAt(current, previous, p) {
        var l :| Get(current, (l, p)) != Get(previous, (l, p));
        assert (l, p) in keys && (l, p).1 == p;
      }
      if k :| k in keys && k.1 == p {
        assert Get(current, (k.0, p)) != Get(previous, (k.0, p));
      }
    }
  }

  /** An update is planned only over a previous generation that opens for it, for a snapshot without output. */
  lemma IncrementalOpens(o: Oracle, d: Disk, current: Metadata)
    requires PlanSnapshot(o, d, d.current, current).Success? && PlanSnapshot(o, d, d.current, current).value.Incremental?
    ensures var plan := PlanSnapshot(o, d, d.current, current).value;
      && current.id !in d.snapshots && d.current == Some(plan.previous) && plan.previous in d.snapshots
      && UpdateBase(o, d.snapshots[plan.previous].files)
      && ReadMetadata(o, plan.previous).Readable?
      && !SharedObjectsChanged(current, ReadMetadata(o, plan.previous).metadata)
      && plan.paths == DifferingPaths(current.files, ReadMetadata(o, plan.previous).metadata.files)
  {
    hide ValidId, DifferingPaths, ReadMetadata;
  }

  /** Its paths are those under which the two snapshots differ, and its store holds the nodes of the previous one. */
  lemma IncrementalSyncs(o: Oracle, d: Disk, current: Metadata)
    requires Consistent(o, STORES, d) && FromLexicon(o, current)
    requires PlanSnapshot(o, d, d.current, current).Success? && PlanSnapshot(o, d, d.current, current).value.Incremental?
    ensures var plan := PlanSnapshot(o, d, d.current, current).value;
      && ReadMetadata(o, plan.previous).Readable? && plan.previous in d.snapshots
      && Remembers(o, plan.previous, d.snapshots[plan.previous].files)
      && ReadMetadata(o, plan.previous).metadata.id == plan.previous
      && Syncs(o.world, current, ReadMetadata(o, plan.previous).metadata, plan.paths,
               Identities(o.read(d.snapshots[plan.previous].files).nodes))
  {
    IncrementalOpens(o, d, current);
    var plan := PlanSnapshot(o, d, d.current, current).value;
    hide PlanSnapshot, ValidId, DifferingPaths, IsMetadata, SlotsHeld, Complete, DiffersAt, SharedObjectsChanged, WellKeyed;
    MetadataFound(o, plan.previous);
    hide ReadMetadata;
    PathsDiffer(current.files, ReadMetadata(o, plan.previous).metadata.files);
    assert Remembers(o, plan.previous, d.snapshots[plan.previous].files);
  }

  /** Whatever a plan leads to, a rebuild opens, and an overlay does if what it leaves is coherent. */
  lemma WrittenOpens(o: Oracle, d: Disk, current: Metadata)
    requires Sound(o) && Consistent(o, STORES, d) && FromLexicon(o, current) && PlanSnapshot(o, d, d.current, current).Success?
    requires var plan := PlanSnapshot(o, d, d.current, current).value;
      WriteSnapshot(o, d.snapshots - {current.id}, current, plan, map[]).Success?
    ensures var plan := PlanSnapshot(o, d, d.current, current).value;
      var w := WriteSnapshot(o, d.snapshots - {current.id}, current, plan, map[]).value;
      o.open(w.files) == if w.rebuilt.Some? || Coherent(o.read(w.files)) then Opened else Unusable
  {
    hide PlanSnapshot, RebuildInto, UpdateInto, WritersSound, LoadersSound, FromLexicon, DifferingPaths, ReadMetadata, Syncs, Consistent;
    hide SlotsHeld, Coherent;
    var plan := PlanSnapshot(o, d, d.current, current).value;
    if plan.Incremental? {
      IncrementalOpens(o, d, current);
      IncrementalSyncs(o, d, current);
    }
    match plan
    case Rebuild(reason) => RebuildOpens(o, current, reason);
    case Incremental(previous, paths) => UpdateOpens(o, current, d.snapshots[previous].files, paths);
    case _ =>
  }

  lemma UpdateOpens(o: Oracle, current: Metadata, base: RepositoryFiles, paths: seq<Text>)
    requires Sound(o) && WellKeyed(o.world, o.read(base).nodes) && UpdateInto(o, current, base, paths, map[]).Success?
    ensures var w := UpdateInto(o, current, base, paths, map[]).value;
      && o.open(w.files) == (if w.rebuilt.Some? || Coherent(o.read(w.files)) then Opened else Unusable)
      && (w.rebuilt.None? ==>
            && Delta(o, current, base, paths).Success?
            && var delta := Delta(o, current, base, paths).value;
               var plan := PlanEdges(o.read(base), PartOf(delta), Paths(paths));
               plan.Changes? && o.read(w.files) == Overlaid(o, base, delta, paths, plan.added, plan.removed))
  {
    hide RewriteAccepts, GraphAccepts;
    hide OverlayInto, RebuildInto, UpdateInto, Delta, LoadersSound, PlanEdges, Coherent, UpdateBase, WellKeyed;
    UpdateKinds(o, current, base, paths);
    var w := UpdateInto(o, current, base, paths, map[]).value;
    if w.rebuilt.Some? {
      RebuildOpens(o, current, w.rebuilt.value);
    } else {
      assert OverlaySound(o, current, base, Delta(o, current, base, paths).value, paths);
    }
  }

  /** An overlay opens exactly if the links of base and delta fit the packed base. */
  lemma OverlayOpens(o: Oracle, current: Metadata, base: RepositoryFiles, paths: seq<Text>)
    requires Sound(o) && WellKeyed(o.world, o.read(base).nodes)
    requires UpdateInto(o, current, base, paths, map[]).Success? && UpdateInto(o, current, base, paths, map[]).value.rebuilt.None?
    ensures Delta(o, current, base, paths).Success?
    ensures o.open(UpdateInto(o, current, base, paths, map[]).value.files).Opened? <==>
            Fits(o.read(base), PartOf(Delta(o, current, base, paths).value), Paths(paths))
  {
    hide Sound, UpdateInto, UpdateBase, WellKeyed, Delta, RebuildInto, OverlayInto, Fits, RewriteAccepts, GraphAccepts, Coherent, PlanEdges;
    UpdateKinds(o, current, base, paths);
    UpdateOpens(o, current, base, paths);
    NextUpdate(o.read(base), PartOf(Delta(o, current, base, paths).value), Paths(paths));
  }

  /** Whatever a plan leads to, what is written for a snapshot holds its nodes. */
  lemma WrittenRemembers(o: Oracle, d: Disk, current: Metadata)
    requires Sound(o) && Consistent(o, STORES, d) && FromLexicon(o, current) && PlanSnapshot(o, d, d.current, current).Success?
    requires var plan := PlanSnapshot(o, d, d.current, current).value;
      WriteSnapshot(o, d.snapshots - {current.id}, current, plan, map[]).Success?
    ensures var plan := PlanSnapshot(o, d, d.current, current).value;
      Remembers(o, current.id, WriteSnapshot(o, d.snapshots - {current.id}, current, plan, map[]).value.files)
  {
    hide PlanSnapshot, RebuildInto, UpdateInto, Remembers, Sound, FromLexicon, DifferingPaths, ReadMetadata, Syncs, Consistent;
    var plan := PlanSnapshot(o, d, d.current, current).value;
    if plan.Incremental? {
      IncrementalOpens(o, d, current);
      IncrementalSyncs(o, d, current);
    }
    match plan
    case Rebuild(reason) => RebuildRemembers(o, current, reason);
    case Incremental(previous, paths) =>
      UpdateRemembers(o, current, ReadMetadata(o, previous).metadata, d.snapshots[previous].files, paths);
    case _ =>
  }

  lemma UpdateRemembers(o: Oracle, current: Metadata, previous: Metadata, base: RepositoryFiles, paths: seq<Text>)
    requires Sound(o) && Remembers(o, previous.id, base)
    requires Syncs(o.world, current, previous, paths, Identities(o.read(base).nodes))
    requires UpdateInto(o, current, base, paths, map[]).Success?
    ensures Remembers(o, current.id, UpdateInto(o, current, base, paths, map[]).value.files)
  {
    hide RebuildInto, OverlayInto, UpdateInto, Delta, Remembers, Sound, Syncs, PlanEdges;
    UpdateKinds(o, current, base, paths);
    var r := UpdateInto(o, current, base, paths, map[]).value;
    if r.rebuilt.Some? {
      RebuildRemembers(o, current, r.rebuilt.value);
    } else {
      OverlayRemembers(o, current, previous, base, paths);
    }
  }

  /**
   Recovery, exactly. From any consistent state and with an unused process number, a sync succeeds exactly
   when planning does and, unless the generation is already there, writing does. When it succeeds, `CURRENT`
   names the generation of Lexicon's snapshot, found complete or just written; when it does not, `CURRENT` is as
   it was.
   */
  lemma RecoveryExact(o: Oracle, d: Disk, p: nat, current: Metadata)
    requires Sound(o) && Consistent(o, STORES, d) && p !in d.pending && FromLexicon(o, current)
    ensures var (after, r) := Synced(o, d, p, Some(current));
      var plan := PlanSnapshot(o, d, d.current, current);
      && Consistent(o, STORES, after)
      && (r.Success? <==>
            plan.Success? && (plan.value.Existing? || WriteSnapshot(o, d.snapshots - {current.id}, current, plan.value, map[]).Success?))
      && (r.Success? ==> r.value.plan == plan.value)
      && (r.Success? && plan.value.Existing? ==> InSync(o, after, current.id))
      && (r.Success? && !plan.value.Existing? ==>
            var w := WriteSnapshot(o, d.snapshots - {current.id}, current, plan.value, map[]).value;
            Placed(d, after, current.id, w) && r.value.rebuilt == w.rebuilt)
      && (r.Failure? ==> after.current == d.current)
  {
    LexiconValid(o, current);
    hide WriteSnapshot, PlanFromPrevious, ValidId, PlanUpdate, OverlayInto, Sound, FromLexicon, Remembers, UpdateBase;
    if d.current.Some? { ValidNotEmpty(d.current.value); }
    var plan := PlanSnapshot(o, d, d.current, current);
    assert ReadCurrent(d) == Success(d.current);
    assert Synced(o, d, p, Some(current)) ==
           if plan.Failure? then (d, Failure(plan.error)) else Carry(o, d, p, current, plan.value);
    if plan.Success? {
      if plan.value.Existing? {
        ExistingComplete(o, d, current);
      } else {
        if WriteSnapshot(o, d.snapshots - {current.id}, current, plan.value, map[]).Success? {
          WrittenRemembers(o, d, current);
        }
        CarryExact(o, d, p, current, plan.value);
      }
    }
  }

  lemma ExistingComplete(o: Oracle, d: Disk, current: Metadata)
    requires PlanSnapshot(o, d, d.current, current) == Success(Existing)
    ensures Standing(o, d, current.id)
  {
    hide DifferingPaths, ValidId, ReadMetadata;
  }

  /** A generation is replaced only if it is not complete. */
  lemma NotComplete(o: Oracle, d: Disk, current: Metadata)
    requires PlanSnapshot(o, d, d.current, current).Success? && !PlanSnapshot(o, d, d.current, current).value.Existing?
    ensures current.id in d.snapshots ==> !Complete(o, d.snapshots[current.id], current.id)
  {
    hide PlanFromPrevious;
  }

  lemma CarryExact(o: Oracle, d: Disk, p: nat, current: Metadata, plan: Plan)
    requires Consistent(o, STORES, d) && p !in d.pending && ValidId(current.id) && !plan.Existing?
    requires var written := WriteSnapshot(o, d.snapshots - {current.id}, current, plan, map[]);
      written.Success? ==> Remembers(o, current.id, written.value.files)
    ensures var (after, r) := Carry(o, d, p, current, plan);
      var written := WriteSnapshot(o, d.snapshots - {current.id}, current, plan, map[]);
      && Consistent(o, STORES, after)
      && (r.Success? <==> written.Success?)
      && (r.Success? ==>
            && Placed(d, after, current.id, written.value)
            && r.value.plan == plan && r.value.rebuilt == written.value.rebuilt)
      && (r.Failure? ==> after.current == d.current)
  {
    hide WriteSnapshot, ValidId, Remembers, UpdateBase;
  }

  /** The files an update writes can be written. */
  ghost predicate Writable(o: Oracle, current: Metadata, base: RepositoryFiles, delta: CompactLoad.Compact, paths: seq<Text>) {
    && o.rewrite(base, delta, paths).Some? && o.graph(base, delta, paths).Some?
    && o.publish(current, map[][STORE_FILE := o.rewrite(base, delta, paths).value] + o.graph(base, delta, paths).value).Some?
  }

  /** The update of this base is not stopped by an I/O error: neither reading it nor writing its files. */
  ghost predicate UpdateIoHolds(o: Oracle, current: Metadata, base: RepositoryFiles, paths: seq<Text>) {
    && !o.browse(base, paths).Unreadable?
    && (Delta(o, current, base, paths).Success? ==> Writable(o, current, base, Delta(o, current, base, paths).value, paths))
  }

  /** Nothing that the sync reads or writes fails with an I/O error. */
  ghost predicate NoIoErrors(o: Oracle, d: Disk, current: Metadata) {
    && (current.id in d.snapshots ==> !o.open(d.snapshots[current.id].files).UnexpectedIo?)
    && (d.current.Some? ==> !o.denied(d.current.value))
    && (d.current.Some? && d.current.value in d.snapshots ==>
          !o.openBase(d.snapshots[d.current.value].files).UnexpectedIo?
          && !o.openStore(d.snapshots[d.current.value].files).UnexpectedIo?)
    && (FullLoad(o, current.id).Success? ==> o.compile(FullLoad(o, current.id).value).Some?)
    && (var plan := PlanSnapshot(o, d, d.current, current);
        plan.Success? && plan.value.Incremental? && plan.value.previous in d.snapshots ==>
          UpdateIoHolds(o, current, d.snapshots[plan.value.previous].files, plan.value.paths))
  }

  /** The previous generation's contents make an update fail behind the load of its delta. */
  predicate RefusedOver(o: Oracle, current: Metadata, base: RepositoryFiles, paths: seq<Text>) {
    && Delta(o, current, base, paths).Success?
    && o.browse(base, paths).Browsed?
    && Refused(o.read(base), PartOf(Delta(o, current, base, paths).value), Paths(paths))
  }

  ghost predicate DriveAmong(paths: seq<Text>) {
    exists path :: path in paths && RepositoryPath.HasDrivePrefix(path)
  }

  /**
   The sync plans an update, and one of the paths under which the snapshots differ begins with a drive prefix,
   or the update is refused: an end of an edge is missing from the base, a node of the delta belongs to no path
   that differs, or a link that it adds is in the packed base, or one that it removes is not.
   */
  ghost predicate Blocked(o: Oracle, d: Disk, current: Metadata) {
    var plan := PlanSnapshot(o, d, d.current, current);
    && plan.Success? && plan.value.Incremental? && plan.value.previous in d.snapshots
    && (DriveAmong(plan.value.paths) || RefusedOver(o, current, d.snapshots[plan.value.previous].files, plan.value.paths))
  }

  /** With Lexicon's snapshot loadable and no I/O errors, a sync with an unused process number fails exactly when it is blocked. */
  lemma RecoverySucceeds(o: Oracle, d: Disk, p: nat, current: Metadata, control: Text -> bool)
    requires Sound(o) && Consistent(o, STORES, d) && p !in d.pending && FromLexicon(o, current)
    requires UsesPaths(o.world.s, control) && FullLoad(o, current.id).Success? && NoIoErrors(o, d, current)
    ensures PlanSnapshot(o, d, d.current, current).Success?
    ensures Synced(o, d, p, Some(current)).1.Success? <==> !Blocked(o, d, current)
  {
    hide OverlayInto, Synced, ValidId, DifferingPaths, Sound, FromLexicon, UsesPaths, FullLoad, RebuildInto, UpdateInto, Delta;
    hide ReadMetadata, UpdateIoHolds, Remembers, RefusedOver, DriveAmong, Consistent;
    RecoveryExact(o, d, p, current);
    PlanSucceeds(o, d, current);
    var plan := PlanSnapshot(o, d, d.current, current).value;
    if plan.Incremental? {
      IncrementalOpens(o, d, current);
      assert plan.previous in d.snapshots - {current.id};
      DriveDecides(o, d, current, control);
      UpdateExact(o, current, d.snapshots[plan.previous].files, plan.paths);
      RefusedLoads(o, current, d.snapshots[plan.previous].files, plan.paths);
    } else if plan.Rebuild? {
      RebuildSucceeds(o, current, plan.reason);
    }
    hide PlanSnapshot;
  }

  /** The delta of a planned update loads exactly when no path that differs begins with a drive prefix. */
  lemma DriveDecides(o: Oracle, d: Disk, current: Metadata, control: Text -> bool)
    requires Sound(o) && Consistent(o, STORES, d) && FromLexicon(o, current)
    requires UsesPaths(o.world.s, control) && FullLoad(o, current.id).Success?
    requires PlanSnapshot(o, d, d.current, current).Success? && PlanSnapshot(o, d, d.current, current).value.Incremental?
    ensures var plan := PlanSnapshot(o, d, d.current, current).value;
      && plan.previous in d.snapshots
      && (Delta(o, current, d.snapshots[plan.previous].files, plan.paths).Success? <==> !DriveAmong(plan.paths))
  {
    hide PlanSnapshot, Consistent, WritersSound, CompactLoad.LoadCompact, LoadDelta, UsesPaths, Syncs, ReadMetadata, DifferingPaths;
    hide CompactLoad.SortsByKey, CompactLoad.Distinguishes, RepositoryPath.HasDrivePrefix, FromLexicon, Remembers;
    IncrementalOpens(o, d, current);
    IncrementalSyncs(o, d, current);
    var plan := PlanSnapshot(o, d, d.current, current).value;
    DriveExact(o.world, o.machinery, current, ReadMetadata(o, plan.previous).metadata, plan.paths,
               Identities(o.read(d.snapshots[plan.previous].files).nodes), control);
  }

  lemma RefusedLoads(o: Oracle, current: Metadata, base: RepositoryFiles, paths: seq<Text>)
    ensures RefusedOver(o, current, base, paths) ==> Delta(o, current, base, paths).Success?
  {
    hide Delta, Refused;
  }

  lemma PlanSucceeds(o: Oracle, d: Disk, current: Metadata)
    requires Consistent(o, STORES, d) && NoIoErrors(o, d, current)
    ensures PlanSnapshot(o, d, d.current, current).Success?
  {
    hide ValidId, DifferingPaths, Remembers, UpdateIoHolds, ReadManifest, FullLoad;
  }

  lemma RebuildSucceeds(o: Oracle, current: Metadata, reason: RebuildReason)
    requires FullLoad(o, current.id).Success? && o.compile(FullLoad(o, current.id).value).Some?
    ensures RebuildInto(o, current, map[], reason).Success?
  {
    hide FullLoad;
  }

  /** Over a base that opens, with a loadable snapshot and no I/O errors, an update succeeds exactly when its delta loads and is not refused. */
  lemma UpdateExact(o: Oracle, current: Metadata, base: RepositoryFiles, paths: seq<Text>)
    requires UpdateBase(o, base) && UpdateIoHolds(o, current, base, paths)
    requires FullLoad(o, current.id).Success? && o.compile(FullLoad(o, current.id).value).Some?
    ensures UpdateInto(o, current, base, paths, map[]).Success? <==>
            Delta(o, current, base, paths).Success? && !RefusedOver(o, current, base, paths)
  {
    hide FullLoad, Delta, PlanEdges, RewriteAccepts, GraphAccepts;
  }

  /**
   After a sync that succeeded, `CURRENT` names a complete generation exactly when the sync found one, rebuilt, or
   left a coherent overlay. An overlay is coherent exactly when the links of base and delta fit the packed base.
   */
  lemma OpensExactly(o: Oracle, d: Disk, p: nat, current: Metadata)
    requires Sound(o) && Consistent(o, STORES, d) && p !in d.pending && FromLexicon(o, current)
    requires Synced(o, d, p, Some(current)).1.Success?
    ensures var (after, r) := Synced(o, d, p, Some(current));
      && current.id in after.snapshots
      && (InSync(o, after, current.id) <==>
            r.value.plan.Existing? || r.value.rebuilt.Some? || Coherent(o.read(after.snapshots[current.id].files)))
      && (!InSync(o, after, current.id) ==>
            after.snapshots[current.id].marker == Some(current.id) && o.open(after.snapshots[current.id].files) == Unusable)
      && var plan := r.value.plan;
         (plan.Incremental? && r.value.rebuilt.None? ==>
            && plan.previous in d.snapshots
            && var base := d.snapshots[plan.previous].files;
               && Delta(o, current, base, plan.paths).Success?
               && (InSync(o, after, current.id) <==>
                     Fits(o.read(base), PartOf(Delta(o, current, base, plan.paths).value), Paths(plan.paths))))
  {
    hide Synced, WriteSnapshot, PlanSnapshot, Sound, Consistent, FromLexicon, Coherent, Fits, Delta;
    RecoveryExact(o, d, p, current);
    var plan := PlanSnapshot(o, d, d.current, current).value;
    if !plan.Existing? { WrittenOpens(o, d, current); }
    if plan.Incremental? && Synced(o, d, p, Some(current)).1.value.rebuilt.None? { OverlayFits(o, d, current); }
  }

  lemma OverlayFits(o: Oracle, d: Disk, current: Metadata)
    requires Sound(o) && Consistent(o, STORES, d) && FromLexicon(o, current)
    requires PlanSnapshot(o, d, d.current, current).Success? && PlanSnapshot(o, d, d.current, current).value.Incremental?
    requires var plan := PlanSnapshot(o, d, d.current, current).value;
      var w := WriteSnapshot(o, d.snapshots - {current.id}, current, plan, map[]);
      w.Success? && w.value.rebuilt.None?
    ensures var plan := PlanSnapshot(o, d, d.current, current).value;
      && plan.previous in d.snapshots
      && var base := d.snapshots[plan.previous].files;
         && Delta(o, current, base, plan.paths).Success?
         && (o.open(WriteSnapshot(o, d.snapshots - {current.id}, current, plan, map[]).value.files).Opened? <==>
               Fits(o.read(base), PartOf(Delta(o, current, base, plan.paths).value), Paths(plan.paths)))
  {
    hide PlanSnapshot, UpdateInto, Sound, FromLexicon, DifferingPaths, ReadMetadata, Syncs, Consistent, Fits, Delta, SlotsHeld;
    IncrementalOpens(o, d, current);
    IncrementalSyncs(o, d, current);
    var plan := PlanSnapshot(o, d, d.current, current).value;
    OverlayOpens(o, current, d.snapshots[plan.previous].files, plan.paths);
  }

  /**
   The warnings a sync leaves with the generation and reports: after a rebuild those of the full load, after an update
   those of its delta alone, and of a generation that it finds the ones it finds.
   */
  lemma WarningsPublished(o: Oracle, d: Disk, p: nat, current: Metadata)
    requires Sound(o) && Consistent(o, STORES, d) && p !in d.pending && FromLexicon(o, current)
    requires Synced(o, d, p, Some(current)).1.Success?
    ensures var (after, r) := Synced(o, d, p, Some(current));
      && current.id in after.snapshots && r.value.warnings == after.snapshots[current.id].warnings
      && (r.value.plan.Existing? ==> current.id in d.snapshots && after.snapshots[current.id] == d.snapshots[current.id])
      && (r.value.rebuilt.Some? ==>
            && FullLoad(o, current.id).Success?
            && after.snapshots[current.id].warnings == o.render(FullLoad(o, current.id).value.warnings))
      && (!r.value.plan.Existing? && r.value.rebuilt.None? ==>
            && r.value.plan.Incremental? && r.value.plan.previous in d.snapshots
            && var delta := Delta(o, current, d.snapshots[r.value.plan.previous].files, r.value.plan.paths);
               delta.Success? && after.snapshots[current.id].warnings == o.render(delta.value.warnings))
  {
    hide WriteSnapshot, PlanSnapshot, Sound, Consistent, FromLexicon, Delta, FullLoad, ValidId;
    RecoveryExact(o, d, p, current);
    var plan := PlanSnapshot(o, d, d.current, current).value;
    if d.current.Some? { CurrentNotEmpty(o, d); }
    if plan.Existing? {
      ExistingComplete(o, d, current);
    } else {
      WrittenWarnings(o, d, current);
    }
  }

  /** The files of an update: the store rewritten, the graph, and the manifest published over both. */
  ghost predicate IsOverlay(o: Oracle, current: Metadata, base: RepositoryFiles, paths: seq<Text>, files: RepositoryFiles) {
    && Delta(o, current, base, paths).Success?
    && var delta := Delta(o, current, base, paths).value;
       && o.rewrite(base, delta, paths).Some? && o.graph(base, delta, paths).Some?
       && var both := map[][STORE_FILE := o.rewrite(base, delta, paths).value] + o.graph(base, delta, paths).value;
          && o.publish(current, both).Some?
          && files == both + o.publish(current, both).value
  }

  /**
   What a sync leaves as the generation of its snapshot, under the identity of the snapshot: after a rebuild the full load
   compiled, after an update its store, graph and manifest, and otherwise what it found.
   */
  lemma FilesPublished(o: Oracle, d: Disk, p: nat, current: Metadata)
    requires Sound(o) && Consistent(o, STORES, d) && p !in d.pending && FromLexicon(o, current)
    requires Synced(o, d, p, Some(current)).1.Success?
    ensures var (after, r) := Synced(o, d, p, Some(current));
      && current.id in after.snapshots && after.snapshots[current.id].marker == Some(current.id)
      && (r.value.plan.Existing? ==> current.id in d.snapshots && after.snapshots[current.id] == d.snapshots[current.id])
      && (r.value.rebuilt.Some? ==>
            && FullLoad(o, current.id).Success?
            && o.compile(FullLoad(o, current.id).value) == Some(after.snapshots[current.id].files))
      && (!r.value.plan.Existing? && r.value.rebuilt.None? ==>
            && r.value.plan.Incremental? && r.value.plan.previous in d.snapshots
            && IsOverlay(o, current, d.snapshots[r.value.plan.previous].files, r.value.plan.paths, after.snapshots[current.id].files))
  {
    hide WriteSnapshot, PlanSnapshot, Sound, Consistent, FromLexicon, FullLoad, ValidId, IsOverlay;
    RecoveryExact(o, d, p, current);
    var plan := PlanSnapshot(o, d, d.current, current).value;
    if d.current.Some? { CurrentNotEmpty(o, d); }
    if plan.Existing? {
      ExistingComplete(o, d, current);
    } else {
      WrittenFiles(o, d, current);
    }
  }

  lemma WrittenFiles(o: Oracle, d: Disk, current: Metadata)
    requires PlanSnapshot(o, d, d.current, current).Success? && !PlanSnapshot(o, d, d.current, current).value.Existing?
    requires WriteSnapshot(o, d.snapshots - {current.id}, current, PlanSnapshot(o, d, d.current, current).value, map[]).Success?
    ensures var plan := PlanSnapshot(o, d, d.current, current).value;
      var w := WriteSnapshot(o, d.snapshots - {current.id}, current, plan, map[]).value;
      && (w.rebuilt.Some? ==> FullLoad(o, current.id).Success? && o.compile(FullLoad(o, current.id).value) == Some(w.files))
      && (w.rebuilt.None? ==>
            && plan.Incremental? && plan.previous in d.snapshots
            && IsOverlay(o, current, d.snapshots[plan.previous].files, plan.paths, w.files))
  {
    hide PlanSnapshot, RebuildInto, UpdateInto, FullLoad, DifferingPaths, ReadMetadata, IsOverlay;
    var plan := PlanSnapshot(o, d, d.current, current).value;
    if plan.Incremental? { IncrementalOpens(o, d, current); }
    match plan
    case Rebuild(reason) => RebuildFiles(o, current, reason);
    case Incremental(previous, paths) => UpdateFiles(o, current, d.snapshots[previous].files, paths);
    case _ =>
  }

  lemma RebuildFiles(o: Oracle, current: Metadata, reason: RebuildReason)
    requires RebuildInto(o, current, map[], reason).Success?
    ensures var w := RebuildInto(o, current, map[], reason).value;
      w.rebuilt.Some? && FullLoad(o, current.id).Success? && o.compile(FullLoad(o, current.id).value) == Some(w.files)
  {
    hide FullLoad;
    var files := o.compile(FullLoad(o, current.id).value).value;
    assert map[] + files == files;
  }

  lemma UpdateFiles(o: Oracle, current: Metadata, base: RepositoryFiles, paths: seq<Text>)
    requires UpdateInto(o, current, base, paths, map[]).Success?
    ensures var w := UpdateInto(o, current, base, paths, map[]).value;
      && (w.rebuilt.Some? ==> FullLoad(o, current.id).Success? && o.compile(FullLoad(o, current.id).value) == Some(w.files))
      && (w.rebuilt.None? ==> IsOverlay(o, current, base, paths, w.files))
  {
    hide UpdateInto, RebuildInto, Delta, FullLoad, PlanEdges, RewriteAccepts, GraphAccepts;
    UpdateKinds(o, current, base, paths);
    var w := UpdateInto(o, current, base, paths, map[]).value;
    if w.rebuilt.Some? { RebuildFiles(o, current, w.rebuilt.value); }
  }

  lemma CurrentNotEmpty(o: Oracle, d: Disk)
    requires Consistent(o, STORES, d) && d.current.Some?
    ensures d.current.value != []
  {
    hide Remembers, UpdateBase;
    ValidNotEmpty(d.current.value);
  }

  lemma WrittenWarnings(o: Oracle, d: Disk, current: Metadata)
    requires PlanSnapshot(o, d, d.current, current).Success? && !PlanSnapshot(o, d, d.current, current).value.Existing?
    requires WriteSnapshot(o, d.snapshots - {current.id}, current, PlanSnapshot(o, d, d.current, current).value, map[]).Success?
    ensures var plan := PlanSnapshot(o, d, d.current, current).value;
      var w := WriteSnapshot(o, d.snapshots - {current.id}, current, plan, map[]).value;
      && (w.rebuilt.Some? ==> FullLoad(o, current.id).Success? && w.warnings == o.render(FullLoad(o, current.id).value.warnings))
      && (w.rebuilt.None? ==>
            && plan.Incremental? && plan.previous in d.snapshots
            && var delta := Delta(o, current, d.snapshots[plan.previous].files, plan.paths);
               delta.Success? && w.warnings == o.render(delta.value.warnings))
  {
    hide PlanSnapshot, RebuildInto, UpdateInto, Delta, FullLoad, DifferingPaths, ReadMetadata;
    var plan := PlanSnapshot(o, d, d.current, current).value;
    if plan.Incremental? { IncrementalOpens(o, d, current); }
    match plan
    case Rebuild(reason) => RebuildWarns(o, current, reason);
    case Incremental(previous, paths) => UpdateWarns(o, current, d.snapshots[previous].files, paths);
    case _ =>
  }

  lemma RebuildWarns(o: Oracle, current: Metadata, reason: RebuildReason)
    requires RebuildInto(o, current, map[], reason).Success?
    ensures var w := RebuildInto(o, current, map[], reason).value;
      w.rebuilt.Some? && FullLoad(o, current.id).Success? && w.warnings == o.render(FullLoad(o, current.id).value.warnings)
  {
    hide FullLoad;
  }

  lemma UpdateWarns(o: Oracle, current: Metadata, base: RepositoryFiles, paths: seq<Text>)
    requires UpdateInto(o, current, base, paths, map[]).Success?
    ensures var w := UpdateInto(o, current, base, paths, map[]).value;
      && (w.rebuilt.Some? ==> FullLoad(o, current.id).Success? && w.warnings == o.render(FullLoad(o, current.id).value.warnings))
      && (w.rebuilt.None? ==>
            Delta(o, current, base, paths).Success? && w.warnings == o.render(Delta(o, current, base, paths).value.warnings))
  {
    hide UpdateInto, RebuildInto, Delta, FullLoad, PlanEdges, RewriteAccepts, GraphAccepts;
    UpdateKinds(o, current, base, paths);
    var w := UpdateInto(o, current, base, paths, map[]).value;
    if w.rebuilt.Some? { RebuildWarns(o, current, w.rebuilt.value); }
  }

  /** A sync right after one that left a complete generation finds it and changes nothing. */
  lemma SecondSyncExisting(o: Oracle, d: Disk, q: nat, current: Metadata)
    requires FromLexicon(o, current) && InSync(o, d, current.id)
    ensures PlanSnapshot(o, d, d.current, current) == Success(Existing)
    ensures q !in d.pending ==> Synced(o, d, q, Some(current)).0 == d && Synced(o, d, q, Some(current)).1.Success?
  {
    LexiconValid(o, current);
    hide PlanFromPrevious, ValidId, BuildSnapshot, FromLexicon;
    ValidNotEmpty(current.id);
    assert PlanSnapshot(o, d, d.current, current) == Success(Existing);
  }

  /** A sync of a snapshot whose generation does not open rebuilds it. */
  lemma SecondSyncRebuilds(o: Oracle, d: Disk, q: nat, current: Metadata)
    requires Sound(o) && Consistent(o, STORES, d) && FromLexicon(o, current)
    requires d.current == Some(current.id) && current.id in d.snapshots
    requires d.snapshots[current.id].marker == Some(current.id) && o.open(d.snapshots[current.id].files) == Unusable
    requires FullLoad(o, current.id).Success? && o.compile(FullLoad(o, current.id).value).Some?
    ensures PlanSnapshot(o, d, d.current, current) == Success(Rebuild(CurrentGenerationInvalid))
    ensures q !in d.pending ==>
              Synced(o, d, q, Some(current)).1.Success? && InSync(o, Synced(o, d, q, Some(current)).0, current.id)
  {
    hide PlanFromPrevious, ValidId, FromLexicon, Sound, Consistent, FullLoad, RebuildInto, Synced, InSync;
    assert PlanSnapshot(o, d, d.current, current) == Success(Rebuild(CurrentGenerationInvalid));
    if q !in d.pending {
      RebuildSucceeds(o, current, CurrentGenerationInvalid);
      hide PlanSnapshot;
      RecoveryExact(o, d, q, current);
      OpensExactly(o, d, q, current);
      RebuildReports(o, current, CurrentGenerationInvalid);
    }
  }

  /**
   A sync of another snapshot, without output of its own, plans an update over what `CURRENT` names if an update can
   start from that, whether it opens or not.
   */
  lemma OtherSyncUpdates(o: Oracle, d: Disk, current: Metadata, previous: Text)
    requires d.current == Some(previous) && ValidId(previous) && previous in d.snapshots && current.id !in d.snapshots
    requires MANIFEST_FILE in d.snapshots[previous].files && UpdateBase(o, d.snapshots[previous].files)
    requires ReadMetadata(o, previous).Readable? && !SharedObjectsChanged(current, ReadMetadata(o, previous).metadata)
    requires exists path :: DiffersAt(current.files, ReadMetadata(o, previous).metadata.files, path)
    ensures PlanSnapshot(o, d, d.current, current) ==
            Success(Incremental(previous, DifferingPaths(current.files, ReadMetadata(o, previous).metadata.files)))
  {
    hide ValidId, DifferingPaths, ReadMetadata, DiffersAt;
    var earlier := ReadMetadata(o, previous).metadata;
    PathsDiffer(current.files, earlier.files);
    var path :| DiffersAt(current.files, earlier.files, path);
    assert path in DifferingPaths(current.files, earlier.files);
  }

  /** Why a rebuild is planned. */
  ghost predicate Calls(o: Oracle, d: Disk, current: Metadata, reason: RebuildReason) {
    match reason
    case NoPreviousGeneration => current.id !in d.snapshots && d.current.None?
    case NoUsablePreviousGeneration =>
      && current.id !in d.snapshots && d.current.Some?
      && (d.current == Some(current.id) || d.current.value !in d.snapshots || MANIFEST_FILE !in d.snapshots[d.current.value].files)
    case CurrentGenerationInvalid =>
      && current.id in d.snapshots
      && (d.snapshots[current.id].marker != Some(current.id) || o.open(d.snapshots[current.id].files) == Unusable)
    case UnsupportedCurrentManifestVersion(version) =>
      && current.id in d.snapshots && d.snapshots[current.id].marker == Some(current.id)
      && o.open(d.snapshots[current.id].files) == UnsupportedVersion(version)
    case PreviousLexiconMetadataUnavailable => Succeeds(d, current) && ReadMetadata(o, d.current.value).Unavailable?
    case SharedObjectsDiffer => Succeeds(d, current) && SharedDiffer(o, d.current.value, current)
    case NoChangedPaths => Succeeds(d, current) && Comparable(o, d.current.value, current) && !SomePathDiffers(o, d.current.value, current)
    case UnsupportedPreviousManifestVersion(version) => Updatable(o, d, current) && BaseFails(o, d, UnsupportedVersion(version))
    case PreviousGenerationInvalid => Updatable(o, d, current) && BaseFails(o, d, Unusable)
    case ChangedNodeSet => false
  }

  /** There is no output, and `CURRENT` names another generation that has a manifest. */
  predicate Succeeds(d: Disk, current: Metadata) {
    && current.id !in d.snapshots && d.current.Some? && d.current.value != current.id
    && d.current.value in d.snapshots && MANIFEST_FILE in d.snapshots[d.current.value].files
  }

  ghost predicate SharedDiffer(o: Oracle, previous: Text, current: Metadata) {
    ReadMetadata(o, previous).Readable? && SharedObjectsChanged(current, ReadMetadata(o, previous).metadata)
  }

  ghost predicate Comparable(o: Oracle, previous: Text, current: Metadata) {
    ReadMetadata(o, previous).Readable? && !SharedObjectsChanged(current, ReadMetadata(o, previous).metadata)
  }

  ghost predicate SomePathDiffers(o: Oracle, previous: Text, current: Metadata)
    requires ReadMetadata(o, previous).Readable?
  {
    exists path :: DiffersAt(current.files, ReadMetadata(o, previous).metadata.files, path)
  }

  ghost predicate Updatable(o: Oracle, d: Disk, current: Metadata) {
    Succeeds(d, current) && Comparable(o, d.current.value, current) && SomePathDiffers(o, d.current.value, current)
  }

  /** Opening the base, or else its store, ends in this way. */
  predicate BaseFails(o: Oracle, d: Disk, opening: Opening)
    requires d.current.Some? && d.current.value in d.snapshots
  {
    var files := d.snapshots[d.current.value].files;
    if o.openBase(files).Opened? then o.openStore(files) == opening else o.openBase(files) == opening
  }

  /** What is planned, exactly: a reason for a rebuild is given when it applies, and an update when none does. */
  lemma PlanExact(o: Oracle, d: Disk, current: Metadata)
    requires PlanSnapshot(o, d, d.current, current).Success?
    ensures var plan := PlanSnapshot(o, d, d.current, current).value;
      && (plan.Existing? <==> Standing(o, d, current.id))
      && (forall reason :: plan == Rebuild(reason) <==> Calls(o, d, current, reason))
      && (plan.Incremental? <==> Updatable(o, d, current) && UpdateBase(o, d.snapshots[d.current.value].files))
  {
    hide DifferingPaths, ReadMetadata, ValidId, DiffersAt, SharedObjectsChanged;
    if Succeeds(d, current) && Comparable(o, d.current.value, current) {
      SomeDiffer(current.files, ReadMetadata(o, d.current.value).metadata.files);
    }
  }

  lemma SomeDiffer(current: FileIndex, previous: FileIndex)
    ensures DifferingPaths(current, previous) == [] <==> !exists path :: DiffersAt(current, previous, path)
  {
    hide DifferingPaths, DiffersAt;
    PathsDiffer(current, previous);
    var paths := DifferingPaths(current, previous);
    if paths != [] { assert paths[0] in paths; }
  }

  lemma RebuildReports(o: Oracle, current: Metadata, reason: RebuildReason)
    requires RebuildInto(o, current, map[], reason).Success?
    ensures RebuildInto(o, current, map[], reason).value.rebuilt == Some(reason)
  {
    hide FullLoad;
  }

  /** The error a blocked update ends in, when no I/O error comes first. */
  ghost function BlockedError(paths: seq<Text>): SyncError {
    if DriveAmong(paths) then LoadFailed else UpdateFailed
  }

  /**
   A blocked sync does not fall back to a rebuild: it leaves the generations and `CURRENT` as they were, so it is
   still blocked, and every further sync of this snapshot fails too.
   */
  lemma BlockedRepeats(o: Oracle, d: Disk, p: nat, q: nat, current: Metadata, control: Text -> bool)
    requires Consistent(o, STORES, d) && p !in d.pending && FromLexicon(o, current)
    requires UsesPaths(o.world.s, control) && Blocked(o, d, current)
    ensures var (after, r) := Synced(o, d, p, Some(current));
      && r.Failure?
      && (NoIoErrors(o, d, current) ==> r.error == BlockedError(PlanSnapshot(o, d, d.current, current).value.paths))
      && after == d.(temps := d.temps - {(current.id, p)})
      && Blocked(o, after, current)
      && (q !in after.pending ==> Synced(o, after, q, Some(current)).1 == r)
  {
    hide Synced, FromLexicon, UsesPaths, PlanSnapshot, Complete, ValidId, Remembers, RefusedOver, UpdateIoHolds, UpdateBase, FullLoad;
    hide UpdateInto, BlockedError, DriveAmong;
    BlockedStops(o, d, p, current, control);
    var after := Synced(o, d, p, Some(current)).0;
    SamePlan(o, d, after, current);
    if q !in after.pending { BlockedStops(o, after, q, current, control); }
  }

  lemma BlockedStops(o: Oracle, d: Disk, p: nat, current: Metadata, control: Text -> bool)
    requires Consistent(o, STORES, d) && p !in d.pending && FromLexicon(o, current)
    requires UsesPaths(o.world.s, control) && Blocked(o, d, current)
    ensures var plan := PlanSnapshot(o, d, d.current, current).value;
      && plan.Incremental? && plan.previous in d.snapshots
      && var r := UpdateInto(o, current, d.snapshots[plan.previous].files, plan.paths, map[]);
         && r.Failure?
         && (UpdateIoHolds(o, current, d.snapshots[plan.previous].files, plan.paths) ==> r.error == BlockedError(plan.paths))
         && Synced(o, d, p, Some(current)) == (d.(temps := d.temps - {(current.id, p)}), Failure(r.error))
  {
    hide PlanSnapshot, ValidId, FromLexicon, Remembers, Complete, UsesPaths, UpdateInto, RefusedOver, UpdateIoHolds, FullLoad, UpdateBase;
    hide BlockedError, DriveAmong;
    LexiconValid(o, current);
    IncrementalOpens(o, d, current);
    if d.current.Some? { ValidNotEmpty(d.current.value); }
    var plan := PlanSnapshot(o, d, d.current, current).value;
    assert d.snapshots - {current.id} == d.snapshots;
    BlockedFails(o, current, d.snapshots[plan.previous].files, plan.paths, control);
  }

  lemma BlockedFails(o: Oracle, current: Metadata, base: RepositoryFiles, paths: seq<Text>, control: Text -> bool)
    requires UsesPaths(o.world.s, control) && UpdateBase(o, base)
    requires DriveAmong(paths) || RefusedOver(o, current, base, paths)
    ensures var r := UpdateInto(o, current, base, paths, map[]);
      r.Failure? && (UpdateIoHolds(o, current, base, paths) ==> r.error == BlockedError(paths))
  {
    hide LoadDelta, UsesPaths, RepositoryPath.HasDrivePrefix, RebuildInto, PlanEdges, RewriteAccepts, GraphAccepts;
    if path :| path in paths && RepositoryPath.HasDrivePrefix(path) {
      DriveFails(o.world, o.machinery, current, paths, Identities(o.read(base).nodes), control, path);
    }
  }

  lemma SamePlan(o: Oracle, d: Disk, e: Disk, current: Metadata)
    requires d.snapshots == e.snapshots
    ensures PlanSnapshot(o, d, d.current, current) == PlanSnapshot(o, e, d.current, current)
  {
    hide ValidId, DifferingPaths, ReadMetadata;
  }
}
