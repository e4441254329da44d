/**
 Syncs that cannot go on although Lexicon's snapshot loads and no I/O fails, and one that goes wrong: a file
 indexed as "C:/x" changes; a file whose object holds a module node changes; an edge is added by one update and
 removed by the next; two updates in a row each add an edge, and a third takes both away.
 */
module SyncSample {
  import opened Wrappers
  import opened Lexicon
  import opened Facts
  import opened Records
  import opened SnapshotManifest
  import opened SnapshotLoad
  import opened CompactLoad
  import opened DeltaLoad
  import opened BaseStore
  import opened SampleStorage
  import opened StoreContents
  import opened UpdateCompare
  import opened OneFile
  import opened RepositoryPath
  import opened TextSplit
  import Protocol = SyncProtocol
  import Sync = SyncPlan
  import Signature = NodeSignature

  const NOTHING_YET := Sync.Disk(map[], map[], None, map[])

  /** The state directory is in order, and the generation `CURRENT` names holds these contents. */
  ghost predicate Stands(o: Sync.Oracle, d: Sync.Disk, id: Text, c: Contents) {
    && Sync.Consistent(o, Sync.STORES, d) && d.pending == map[]
    && d.current == Some(id) && id in d.snapshots && d.snapshots[id].marker == Some(id)
    && Sync.MANIFEST_FILE in d.snapshots[id].files && Sync.UpdateBase(o, d.snapshots[id].files)
    && o.read(d.snapshots[id].files) == c
  }

  /** What the results on recovery ask of an oracle, a state directory and a snapshot. */
  ghost predicate Recoverable(o: Sync.Oracle, d: Sync.Disk, current: Metadata) {
    && Sync.Sound(o) && Protocol.RemovalSound(o) && UsesPaths(o.world.s, NoControl)
    && Sync.FromLexicon(o, current) && Sync.FullLoad(o, current.id).Success? && Sync.NoIoErrors(o, d, current)
  }

  /** What the object of a snapshot comes to. */
  function PartAt(x: Sample, id: Text): Part {
    HeldIn(x.file.node, OneFile.RecordsAt(x, id))
  }

  // ----- one sync of a sample -----

  lemma Rebuilds(x: Sample, m: Machinery, known: seq<Contents>, id: Text, reason: Sync.RebuildReason)
    requires Good(x) && id in x.snapshots && SortsByKey(m.sort) && |known| < 256 && Compiled(PartAt(x, id)) in known
    ensures var o, current := Keeper(x, m, known), MetadataOf(x, id);
      && Sync.FullLoad(o, id).Success? && o.compile(Sync.FullLoad(o, id).value).Some?
      && Sync.RebuildInto(o, current, map[], reason).Success?
      && var files := Sync.RebuildInto(o, current, map[], reason).value.files;
         o.read(files) == Compiled(PartAt(x, id)) && Sync.MANIFEST_FILE in files && Sync.UpdateBase(o, files)
  {
    hide LoadCompact, SortsByKey, HeldIn, PartOf, Good, Links;
    FullPart(x, m, id);
    var c := LoadCompact(WorldOf(x), m, id).value;
    FindExact(known, Compiled(PartOf(c)));
    CompileKeeps(known, c);
    hide Find;
    var files := CompileKnown(known, c).value;
    assert map[] + files == files;
  }

  /** The first sync, into an empty state directory. */
  lemma FirstSync(x: Sample, m: Machinery, known: seq<Contents>, id: Text, p: nat)
    requires Good(x) && id in x.snapshots && SortsByKey(m.sort) && |known| < 256 && Compiled(PartAt(x, id)) in known
    ensures var o := Keeper(x, m, known);
      var (d, r) := Sync.Synced(o, NOTHING_YET, p, Some(MetadataOf(x, id)));
      r.Success? && Stands(o, d, id, Compiled(PartAt(x, id))) && d.snapshots.Keys == {id}
  {
    hide Keeper, Good, SortsByKey, PartAt, ValidId, Sync.RebuildInto, Sync.Sound, Sync.FromLexicon, Sync.Remembers, Sync.UpdateBase;
    hide Sync.Synced, Compiled;
    var o, current := Keeper(x, m, known), MetadataOf(x, id);
    KeeperSound(x, m, known);
    InLexicon(x, m, known, id);
    Rebuilds(x, m, known, id, Sync.NoPreviousGeneration);
    assert NOTHING_YET.snapshots - {id} == map[];
    Sync.RecoveryExact(o, NOTHING_YET, p, current);
    SyncKeepsPending(o, NOTHING_YET, p, current);
  }

  lemma InLexicon(x: Sample, m: Machinery, known: seq<Contents>, id: Text)
    requires Good(x) && id in x.snapshots
    ensures Sync.FromLexicon(Keeper(x, m, known), MetadataOf(x, id))
    ensures Sync.ReadMetadata(Keeper(x, m, known), id) == Sync.Readable(MetadataOf(x, id))
  {
    hide ReadManifest, Good;
    Loads(x, id);
    ManifestRead(x, id);
  }

  lemma SyncKeepsPending(o: Sync.Oracle, d: Sync.Disk, p: nat, current: Metadata)
    requires d.pending == map[]
    ensures Sync.Synced(o, d, p, Some(current)).0.pending == map[]
  {
    hide Sync.PlanSnapshot, Sync.WriteSnapshot, ValidId;
  }

  // ----- the next sync -----

  /** A further snapshot with another object. */
  predicate Follows(x: Sample, id: Text, next: Text, d: Sync.Disk) {
    id in x.snapshots && next in x.snapshots && x.snapshots[id] != x.snapshots[next] && next !in d.snapshots && next != id
  }

  lemma Differ(x: Sample, id: Text, next: Text, d: Sync.Disk)
    requires Follows(x, id, next, d)
    ensures forall p :: p in [x.file.normal] <==> DiffersAt(MetadataOf(x, next).files, MetadataOf(x, id).files, p)
  {
    hide Id;
    IdsDiffer(x.snapshots[id], x.snapshots[next]);
    var a, b := MetadataOf(x, next).files, MetadataOf(x, id).files;
    assert Get(a, (RUST, x.file.normal)) != Get(b, (RUST, x.file.normal));
  }

  /** It plans an update of the file. */
  lemma PlansUpdate(x: Sample, m: Machinery, known: seq<Contents>, d: Sync.Disk, id: Text, next: Text, c: Contents)
    requires Good(x) && Stands(Keeper(x, m, known), d, id, c) && Follows(x, id, next, d)
    ensures var o := Keeper(x, m, known);
      var plan := Sync.PlanSnapshot(o, d, d.current, MetadataOf(x, next));
      && plan.Success? && plan.value.Incremental? && plan.value.previous == id
      && Sync.Paths(plan.value.paths) == {x.file.normal}
      && (Sync.DriveAmong(plan.value.paths) <==> HasDrivePrefix(x.file.normal))
  {
    hide Good, Sync.ReadMetadata, ReadManifest, Sync.DifferingPaths, DiffersAt, Sync.Remembers, Sync.Complete, HasDrivePrefix;
    InLexicon(x, m, known, id);
    Differ(x, id, next, d);
    var a, b := MetadataOf(x, next), MetadataOf(x, id);
    Sync.PathsDiffer(a.files, b.files);
    var paths := Sync.DifferingPaths(a.files, b.files);
    assert x.file.normal in [x.file.normal] && x.file.normal in paths;
    assert forall p :: p in paths <==> p in [x.file.normal];
    assert forall p :: p in Sync.Paths(paths) <==> p in {x.file.normal};
  }

  /** Without a drive prefix its delta is what the object of the next snapshot comes to. */
  lemma DeltaPart(x: Sample, m: Machinery, known: seq<Contents>, d: Sync.Disk, id: Text, next: Text, c: Contents)
    requires Good(x) && SortsByKey(m.sort) && |known| < 256 && Stands(Keeper(x, m, known), d, id, c) && Follows(x, id, next, d)
    ensures var o, current := Keeper(x, m, known), MetadataOf(x, next);
      var plan := Sync.PlanSnapshot(o, d, d.current, current);
      && plan.Success? && plan.value.Incremental? && plan.value.previous == id && Sync.Paths(plan.value.paths) == {x.file.normal}
      && (Sync.DriveAmong(plan.value.paths) <==> HasDrivePrefix(x.file.normal))
      && var delta := Sync.Delta(o, current, d.snapshots[id].files, plan.value.paths);
         && (delta.Success? <==> !HasDrivePrefix(x.file.normal))
         && (delta.Success? ==> PartOf(delta.value) == PartAt(x, next))
  {
    hide Good, SortsByKey, Sync.PlanSnapshot, Sync.Sound, Sync.FromLexicon, UsesPaths, LoadCompact, LoadDelta, HasDrivePrefix, HeldIn;
    hide ReadAt, PartIn, PartOf, OfNode, Sync.Remembers, ReadFiles, Sync.DriveAmong, OneNodePerKey, Sync.WellKeyed, Legible;
    var o, current := Keeper(x, m, known), MetadataOf(x, next);
    PlansUpdate(x, m, known, d, id, next, c);
    KeeperSound(x, m, known);
    InLexicon(x, m, known, next);
    FullPart(x, m, next);
    PlannedDelta(o, d, current, NoControl);
    ReadPart(x, next, Sync.PlanSnapshot(o, d, d.current, current).value.paths);
    RecordsOfNode(x, next);
    PartIs(x.file.node, m.digest, OneFile.RecordsAt(x, next));
  }

  /** It is blocked if its records are refused over the contents in place. */
  lemma NextBlocked(x: Sample, m: Machinery, known: seq<Contents>, d: Sync.Disk, id: Text, next: Text, c: Contents)
    requires Good(x) && SortsByKey(m.sort) && |known| < 256 && Stands(Keeper(x, m, known), d, id, c) && Follows(x, id, next, d)
    requires HasDrivePrefix(x.file.normal) || Refused(c, PartAt(x, next), {x.file.normal})
    ensures Sync.Blocked(Keeper(x, m, known), d, MetadataOf(x, next))
  {
    hide Good, SortsByKey, Sync.PlanSnapshot, HasDrivePrefix, Refused, PartAt, PartOf, Sync.Delta, Sync.Blocked, Sync.Consistent;
    hide Sync.DriveAmong, Sync.UpdateBase, ReadFiles, WorldOf;
    DeltaPart(x, m, known, d, id, next, c);
    BlockedIf(Keeper(x, m, known), d, MetadataOf(x, next));
  }

  lemma BlockedIf(o: Sync.Oracle, d: Sync.Disk, current: Metadata)
    requires var plan := Sync.PlanSnapshot(o, d, d.current, current);
      && plan.Success? && plan.value.Incremental? && plan.value.previous in d.snapshots
      && (Sync.DriveAmong(plan.value.paths) || Sync.RefusedOver(o, current, d.snapshots[plan.value.previous].files, plan.value.paths))
    ensures Sync.Blocked(o, d, current)
  {
    hide Sync.PlanSnapshot, Sync.RefusedOver;
  }

  lemma RecordsOfNode(x: Sample, id: Text)
    requires Good(x)
    ensures GoodNode(x.file.node) && OfNode(x.file.node, OneFile.RecordsAt(x, id))
  {
    hide GoodNode, NormalPath;
  }

  /** Blocked, it fails and so does the next sync of this snapshot. */
  lemma BlockedForGood(x: Sample, m: Machinery, known: seq<Contents>, d: Sync.Disk, id: Text, next: Text, c: Contents, p: nat, q: nat)
    requires Good(x) && SortsByKey(m.sort) && |known| < 256 && Stands(Keeper(x, m, known), d, id, c) && Follows(x, id, next, d)
    requires HasDrivePrefix(x.file.normal) || Refused(c, PartAt(x, next), {x.file.normal})
    ensures var o, current := Keeper(x, m, known), MetadataOf(x, next);
      var (after, r) := Sync.Synced(o, d, p, Some(current));
      && r.Failure? && after.current == Some(id) && after.snapshots == d.snapshots
      && Sync.Blocked(o, after, current) && Sync.Synced(o, after, q, Some(current)).1.Failure?
  {
    hide Good, SortsByKey, Sync.Synced, Sync.Blocked, Sync.FromLexicon, UsesPaths, Sync.Sound, HasDrivePrefix, Refused, PartAt, Keeper;
    hide Sync.Consistent;
    NextBlocked(x, m, known, d, id, next, c);
    KeeperSound(x, m, known);
    InLexicon(x, m, known, next);
    Sync.BlockedRepeats(Keeper(x, m, known), d, p, q, MetadataOf(x, next), NoControl);
  }

  /** An update that nothing stops, and the contents it leaves, which the repositories know. */
  predicate Passes(x: Sample, known: seq<Contents>, c: Contents, next: Text) {
    var plan := PlanEdges(c, PartAt(x, next), {x.file.normal});
    && !Refused(c, PartAt(x, next), {x.file.normal}) && plan.Changes?
    && Updated(c, PartAt(x, next), {x.file.normal}, plan.added, plan.removed) in known
    && Compiled(PartAt(x, next)) in known
  }

  function After(x: Sample, c: Contents, next: Text): Contents {
    var plan := PlanEdges(c, PartAt(x, next), {x.file.normal});
    if plan.Changes? then Updated(c, PartAt(x, next), {x.file.normal}, plan.added, plan.removed) else c
  }

  /** Nothing fails to be read or written, if the repositories know what the update leaves. */
  lemma NothingFails(x: Sample, m: Machinery, known: seq<Contents>, d: Sync.Disk, id: Text, next: Text, c: Contents)
    requires Good(x) && SortsByKey(m.sort) && |known| < 256 && Stands(Keeper(x, m, known), d, id, c) && Follows(x, id, next, d)
    requires Compiled(PartAt(x, next)) in known
    requires HasDrivePrefix(x.file.normal) || Refused(c, PartAt(x, next), {x.file.normal}) || After(x, c, next) in known
    ensures Recoverable(Keeper(x, m, known), d, MetadataOf(x, next))
  {
    hide Good, SortsByKey, Sync.PlanSnapshot, Sync.Sound, Sync.FromLexicon, UsesPaths, Sync.FullLoad, HasDrivePrefix, PartAt, PartOf;
    hide Sync.Delta, Refused, Compiled, Sync.Remembers, WorldOf, ReadFiles, After, Protocol.RemovalSound, Sync.Writable, Sync.ReadMetadata;
    hide Legible, Coherent, RewriteKnown, PublishKnown, CompileKnown, Sync.DriveAmong;
    var o, current := Keeper(x, m, known), MetadataOf(x, next);
    DeltaPart(x, m, known, d, id, next, c);
    KeeperSound(x, m, known);
    InLexicon(x, m, known, next);
    Rebuilds(x, m, known, next, Sync.NoChangedPaths);
    var base, paths := d.snapshots[id].files, Sync.PlanSnapshot(o, d, d.current, current).value.paths;
    if Sync.Delta(o, current, base, paths).Success? {
      KeeperWrites(x, m, known, current, base, Sync.Delta(o, current, base, paths).value, paths, next);
    }
  }

  lemma KeeperWrites(x: Sample, m: Machinery, known: seq<Contents>, current: Metadata, base: Sync.RepositoryFiles, delta: Compact,
                     paths: seq<Text>, next: Text)
    requires Sync.Paths(paths) == {x.file.normal} && PartOf(delta) == PartAt(x, next)
    requires var c := ReadFiles(known, base);
      Refused(c, PartAt(x, next), {x.file.normal}) || After(x, c, next) in known
    ensures Sync.Writable(Keeper(x, m, known), current, base, delta, paths)
  {
    hide PartAt, PartOf, PlanEdges, Updated, RewriteAccepts, GraphAccepts, WorldOf, ReadFiles;
    FindExact(known, After(x, ReadFiles(known, base), next));
    hide Find;
  }

  /** It then succeeds as an overlay, whose generation opens exactly if its contents are coherent. */
  lemma NextUpdates(x: Sample, m: Machinery, known: seq<Contents>, d: Sync.Disk, id: Text, next: Text, c: Contents, p: nat)
    requires Good(x) && SortsByKey(m.sort) && |known| < 256 && Stands(Keeper(x, m, known), d, id, c) && Follows(x, id, next, d)
    requires !HasDrivePrefix(x.file.normal) && Passes(x, known, c, next)
    ensures var o, current := Keeper(x, m, known), MetadataOf(x, next);
      var (after, r) := Sync.Synced(o, d, p, Some(current));
      && r.Success? && r.value.rebuilt.None?
      && Stands(o, after, next, After(x, c, next)) && after.snapshots.Keys == d.snapshots.Keys + {next}
      && (Sync.InSync(o, after, next) <==> Coherent(After(x, c, next)))
      && (!Sync.InSync(o, after, next) ==> o.open(after.snapshots[next].files) == Sync.Unusable)
  {
    hide Good, SortsByKey, Sync.PlanSnapshot, Sync.Sound, Sync.FromLexicon, Sync.Synced, Sync.UpdateInto, HasDrivePrefix, PartAt, PartOf;
    hide Sync.Delta, PlanEdges, Updated, Coherent, Compiled, RewriteAccepts, GraphAccepts, Sync.Remembers, ReadFiles, Sync.FullLoad, Passes;
    hide Find, Keeper, Refused, Sync.OverlayInto;
    var o, current := Keeper(x, m, known), MetadataOf(x, next);
    KeeperSound(x, m, known);
    InLexicon(x, m, known, next);
    DeltaPart(x, m, known, d, id, next, c);
    var paths := Sync.PlanSnapshot(o, d, d.current, current).value.paths;
    var base := d.snapshots[id].files;
    UpdateWrites(x, m, known, current, base, paths, next);
    assert d.snapshots - {next} == d.snapshots;
    Sync.RecoveryExact(o, d, p, current);
    Sync.OpensExactly(o, d, p, current);
    SyncKeepsPending(o, d, p, current);
  }

  lemma UpdateWrites(x: Sample, m: Machinery, known: seq<Contents>, current: Metadata, base: Sync.RepositoryFiles, paths: seq<Text>,
                     next: Text)
    requires |known| < 256 && Sync.UpdateBase(Keeper(x, m, known), base) && Sync.Paths(paths) == {x.file.normal}
    requires var o := Keeper(x, m, known);
      var delta := Sync.Delta(o, current, base, paths);
      delta.Success? && PartOf(delta.value) == PartAt(x, next) && Passes(x, known, o.read(base), next)
    ensures var o := Keeper(x, m, known);
      var r := Sync.UpdateInto(o, current, base, paths, map[]);
      && r.Success? && r.value.rebuilt.None? && Sync.MANIFEST_FILE in r.value.files && Sync.UpdateBase(o, r.value.files)
      && o.read(r.value.files) == After(x, o.read(base), next)
  {
    hide LoadDelta, PartAt, PartOf, PlanEdges, Updated, RewriteAccepts, GraphAccepts, Compiled, WorldOf, ReadFiles, RewriteKnown, Sync.Delta;
    hide Sync.OverlayInto;
    var o := Keeper(x, m, known);
    var delta := Sync.Delta(o, current, base, paths).value;
    var plan := PlanEdges(o.read(base), PartOf(delta), Sync.Paths(paths));
    OverlayWrites(x, m, known, current, base, delta, paths, next);
    OverlayKeeps(x, m, known, current, base, delta, paths, plan.added, plan.removed);
  }

  lemma OverlayWrites(x: Sample, m: Machinery, known: seq<Contents>, current: Metadata, base: Sync.RepositoryFiles, delta: Compact,
                      paths: seq<Text>, next: Text)
    requires Sync.Paths(paths) == {x.file.normal} && PartOf(delta) == PartAt(x, next) && Passes(x, known, ReadFiles(known, base), next)
    ensures var plan := PlanEdges(ReadFiles(known, base), PartOf(delta), Sync.Paths(paths));
      && plan.Changes?
      && var r := Sync.OverlayInto(Keeper(x, m, known), current, base, delta, paths, plan.added, plan.removed, map[]);
         r.Success? && r.value.rebuilt.None? && Sync.MANIFEST_FILE in r.value.files
  {
    hide PartAt, PartOf, PlanEdges, Updated, RewriteAccepts, GraphAccepts, Compiled, WorldOf, ReadFiles;
    FindExact(known, After(x, ReadFiles(known, base), next));
    hide Find;
    FilesNamed();
  }

  // ----- a file indexed under a drive -----

  /** "C:/x", and "./C:/x", which normalises to it. */
  const ONCE: Text := DRIVE + [SLASH] + NAME
  const RAW: Text := DOT + [SLASH] + ONCE

  function Declared(kind: Text, path: Text): NodeRecord {
    NodeRecord(None, None, Zero(), kind, [110], None, path, [110], None)
  }

  /** In the first snapshot the file is empty, in the second it declares a node. */
  function Drives(): Sample {
    Sample(File(RAW, ONCE, Declared([119], RAW)), map[Id(97) := 98, Id(99) := 100],
           map[Id(98) := [], Id(100) := [Node(Declared([119], RAW))]])
  }

  lemma Digits()
    ensures GoodId(98) && GoodId(100) && GoodId(49) && ValidId(Id(97)) && ValidId(Id(99)) && ValidId(Id(101)) && ValidId(Id(102))
    ensures Id(97) != Id(99) && Id(97) != Id(101) && Id(99) != Id(101) && Id(97) != Id(102) && Id(99) != Id(102) && Id(101) != Id(102)
    ensures Id(98) != Id(100) && Id(98) != Id(49) && Id(100) != Id(49)
  {
    hide ValidId, Id;
    IdValid(97);
    IdValid(98);
    IdValid(99);
    IdValid(100);
    IdValid(101);
    IdValid(102);
    IdValid(49);
    IdsDiffer(97, 99);
    IdsDiffer(97, 101);
    IdsDiffer(99, 101);
    IdsDiffer(97, 102);
    IdsDiffer(99, 102);
    IdsDiffer(101, 102);
    IdsDiffer(98, 100);
    IdsDiffer(98, 49);
    IdsDiffer(100, 49);
  }

  lemma DrivesGood()
    ensures Good(Drives()) && HasDrivePrefix(ONCE)
    ensures Id(97) in Drives().snapshots && Id(99) in Drives().snapshots && Drives().snapshots[Id(97)] == 98 && Drives().snapshots[Id(99)] == 100
  {
    hide RepositoryPath.Normalize, ValidId, Id;
    Digits();
    DriveExposed(NoControl);
  }

  /**
   The second snapshot loads in full, and nothing is missing from the base; the incremental load that lists
   the file among the changed paths fails.
   */
  lemma FullButNotDelta(m: Machinery)
    requires SortsByKey(m.sort)
    ensures var w := WorldOf(Drives());
      var current, previous := MetadataOf(Drives(), Id(99)), MetadataOf(Drives(), Id(97));
         && LoadCompact(w, m, current.id).Success?
         && Syncs(w, current, previous, [ONCE], {})
         && LoadDelta(w, m, current, [ONCE], {}).Failure?
  {
    hide Good, ReadManifest, Load, LoadCompact, LoadDelta, SortsByKey, SlotsOf, SlotsHeld, DiffersAt, RecordsOf, IsMetadata, HasDrivePrefix;
    hide Id, RepositoryPath.Normalize, Drives, WorldOf, PartOf;
    DrivesGood();
    DrivesFile();
    Digits();
    var x := Drives();
    FullPart(x, m, Id(99));
    DrivesSync(x);
    UsesNormal(x);
    DriveFails(WorldOf(x), m, MetadataOf(x, Id(99)), [ONCE], {}, NoControl, ONCE);
  }

  lemma DrivesFile()
    ensures Drives().file.normal == ONCE && OneFile.RecordsAt(Drives(), Id(97)) == []
  {
    hide Id;
    Digits();
  }

  lemma DrivesSync(x: Sample)
    requires x == Drives() && Good(x) && Id(97) in x.snapshots && Id(99) in x.snapshots
    ensures Syncs(WorldOf(x), MetadataOf(x, Id(99)), MetadataOf(x, Id(97)), [ONCE], {})
  {
    hide Good, ReadManifest, Load, SlotsOf, SlotsHeld, DiffersAt, RecordsOf, IsMetadata, Id, RepositoryPath.Normalize, Drives, WorldOf;
    DrivesGood();
    DrivesFile();
    Digits();
    Loads(x, Id(97));
    Loads(x, Id(99));
    Differ(x, Id(97), Id(99), NOTHING_YET);
    NothingHeld(x, Id(97));
  }

  lemma UsesNormal(x: Sample)
    ensures UsesPaths(WorldOf(x).s, NoControl)
  {
    hide RepositoryPath.Normalize;
  }

  /** A snapshot without records defines no node. */
  lemma NothingHeld(x: Sample, id: Text)
    requires Good(x) && id in x.snapshots && OneFile.RecordsAt(x, id) == []
    ensures SlotsHeld(WorldOf(x), SlotsOf(WorldOf(x), id), {})
  {
    hide Good, ReadManifest, Load, RecordsOf, SlotsOf, ReadObject;
    Loads(x, id);
    var slots := SlotsOf(WorldOf(x), id);
    forall slot, i | slot in slots ensures !Recorded(WorldOf(x), slot, i) {
      if Recorded(WorldOf(x), slot, i) {
        var n: NodeRecord :| Node(n) in ReadObject(WorldOf(x), slot.objectId, All).value.0.records && n.id == i;
        assert HoldsRecord(WorldOf(x), slot, Node(n));
        RecordOrigin(WorldOf(x), slots, Node(n));
        assert false;
      }
    }
  }

  /**
   The first snapshot is synced. Then the file changes: the second snapshot could be rebuilt, but the sync
   plans an update, fails to load it, and so does every further sync of this snapshot.
   */
  lemma NeverSyncsAgain(m: Machinery, p: nat, q: nat)
    requires SortsByKey(m.sort)
    ensures var known := [Compiled(PartAt(Drives(), Id(97))), Compiled(PartAt(Drives(), Id(99)))];
      NeverAgain(Drives(), m, known, Id(97), Id(99), p, q)
  {
    hide Good, SortsByKey, Id, HasDrivePrefix, PartAt, Compiled, NeverAgain;
    DrivesGood();
    Digits();
    var known := [Compiled(PartAt(Drives(), Id(97))), Compiled(PartAt(Drives(), Id(99)))];
    SecondBlocked(Drives(), m, known, Id(97), Id(99), p, q);
  }

  /**
   From an empty state directory the first snapshot is synced; the second could be rebuilt, and nothing fails to be
   read or written, but its sync and the next of the same snapshot fail and leave `CURRENT` on the first.
   */
  ghost predicate NeverAgain(x: Sample, m: Machinery, known: seq<Contents>, first: Text, second: Text, p: nat, q: nat) {
    var o := Keeper(x, m, known);
       && Sync.Synced(o, NOTHING_YET, p, Some(MetadataOf(x, first))).1.Success?
       && var d := Sync.Synced(o, NOTHING_YET, p, Some(MetadataOf(x, first))).0;
          && Recoverable(o, d, MetadataOf(x, second))
          && Sync.RebuildInto(o, MetadataOf(x, second), map[], Sync.NoChangedPaths).Success?
          && Sync.Blocked(o, d, MetadataOf(x, second))
          && var (e, r) := Sync.Synced(o, d, p, Some(MetadataOf(x, second)));
             r.Failure? && e.current == Some(first) && Sync.Synced(o, e, q, Some(MetadataOf(x, second))).1.Failure?
  }

  lemma SecondBlocked(x: Sample, m: Machinery, known: seq<Contents>, first: Text, second: Text, p: nat, q: nat)
    requires Good(x) && SortsByKey(m.sort) && |known| < 256
    requires first in x.snapshots && second in x.snapshots && first != second && x.snapshots[first] != x.snapshots[second]
    requires Compiled(PartAt(x, first)) in known && Compiled(PartAt(x, second)) in known
    requires HasDrivePrefix(x.file.normal) || Refused(Compiled(PartAt(x, first)), PartAt(x, second), {x.file.normal})
    ensures NeverAgain(x, m, known, first, second, p, q)
  {
    hide Good, SortsByKey, PartAt, Compiled, HasDrivePrefix, Refused, Keeper, Sync.Synced, Sync.RebuildInto, Stands, Sync.Blocked;
    hide Recoverable, After;
    FirstSync(x, m, known, first, p);
    var d := Sync.Synced(Keeper(x, m, known), NOTHING_YET, p, Some(MetadataOf(x, first))).0;
    Rebuilds(x, m, known, second, Sync.NoChangedPaths);
    NextBlocked(x, m, known, d, first, second, Compiled(PartAt(x, first)));
    NothingFails(x, m, known, d, first, second, Compiled(PartAt(x, first)));
    BlockedForGood(x, m, known, d, first, second, Compiled(PartAt(x, first)), p, q);
  }

  // ----- a file with a module node -----

  const FILE: Text := [97, 46, 98]

  lemma FileNormal()
    ensures NormalPath(FILE) == Some(FILE) && !HasDrivePrefix(FILE) && HasExtension(FILE)
  {
    assert Plain(NoControl, FILE);
    assert forall c :: c in [FILE] ==> Plain(NoControl, c);
    var components: seq<Text> := [FILE];
    assert components[1..] == [];
    JoinNormalizes(NoControl, [FILE]);
    SplitAt(SLASH, FILE, []);
    assert Split(SLASH, FILE) == [FILE];
    assert FILE[1] == 46;
  }

  /** The node, and a call from it to itself, and a read too. */
  function Alone(n: NodeRecord): RecordList { [Node(n)] }

  function Calling(n: NodeRecord): RecordList { [Node(n), Loop(n, CALLS_LABEL)] }

  function Reading(n: NodeRecord): RecordList { [Node(n), Loop(n, CALLS_LABEL), Loop(n, READS_LABEL)] }

  function Growing(n: NodeRecord): Sample {
    Sample(File(FILE, FILE, n), map[Id(97) := 98, Id(99) := 100, Id(101) := 98, Id(102) := 49],
           map[Id(98) := Alone(n), Id(100) := Calling(n), Id(49) := Reading(n)])
  }

  /** A node of a file, and one of the kind that has none. */
  const SYMBOL_NODE := Declared([119], FILE)
  const MODULE_NODE := Declared(MODULE_LABEL, FILE)

  lemma NodesGood()
    ensures GoodNode(SYMBOL_NODE) && GoodNode(MODULE_NODE)
  {
    hide NormalPath;
    FileNormal();
  }

  lemma ListsGood(n: NodeRecord)
    ensures OfNode(n, Alone(n)) && OfNode(n, Calling(n)) && OfNode(n, Reading(n))
  {
    assert Node(n) in Alone(n) && Node(n) in Calling(n) && Node(n) in Reading(n);
  }

  lemma GrowingRecords(n: NodeRecord)
    ensures OneFile.RecordsAt(Growing(n), Id(97)) == Alone(n) && OneFile.RecordsAt(Growing(n), Id(101)) == Alone(n)
    ensures OneFile.RecordsAt(Growing(n), Id(99)) == Calling(n) && OneFile.RecordsAt(Growing(n), Id(102)) == Reading(n)
  {
    hide ValidId, Id, Alone, Calling, Reading;
    Digits();
  }

  lemma GrowingSnapshots(n: NodeRecord)
    ensures Growing(n).snapshots == map[Id(97) := 98, Id(99) := 100, Id(101) := 98, Id(102) := 49]
    ensures forall id :: id in Growing(n).snapshots ==>
              ValidId(id) && GoodId(Growing(n).snapshots[id]) && Id(Growing(n).snapshots[id]) in Growing(n).objects
  {
    hide ValidId, Id, Alone, Calling, Reading;
    Digits();
  }

  lemma GrowingObjects(n: NodeRecord)
    ensures forall id :: id in Growing(n).objects ==> |Growing(n).objects[id]| < 10 && OfNode(n, Growing(n).objects[id])
  {
    hide Id, OfNode, Alone, Calling, Reading;
    ListsGood(n);
    Sizes(n);
  }

  lemma GrowingGood(n: NodeRecord)
    requires n in {SYMBOL_NODE, MODULE_NODE}
    ensures Good(Growing(n)) && !HasDrivePrefix(FILE)
    ensures Growing(n).snapshots == map[Id(97) := 98, Id(99) := 100, Id(101) := 98, Id(102) := 49]
    ensures OneFile.RecordsAt(Growing(n), Id(97)) == Alone(n) && OneFile.RecordsAt(Growing(n), Id(101)) == Alone(n)
    ensures OneFile.RecordsAt(Growing(n), Id(99)) == Calling(n) && OneFile.RecordsAt(Growing(n), Id(102)) == Reading(n)
  {
    hide NormalPath, ValidId, Id, GoodId, GoodNode, OfNode, Alone, Calling, Reading, Growing, OneFile.RecordsAt, HasExtension;
    GrowingNode(n);
    FileNormal();
    NodesGood();
    GrowingRecords(n);
    GrowingSnapshots(n);
    GrowingObjects(n);
  }

  lemma Sizes(n: NodeRecord)
    ensures |Alone(n)| < 10 && |Calling(n)| < 10 && |Reading(n)| < 10
  {
  }

  const CALL: EdgeFact := LoopFact(4)
  const READ: EdgeFact := LoopFact(13)

  lemma Parts(n: NodeRecord)
    requires n in {SYMBOL_NODE, MODULE_NODE}
    ensures HeldIn(n, Alone(n)) == Part({StoredOf(n)}, {}, {})
    ensures HeldIn(n, Calling(n)) == Part({StoredOf(n)}, {CALL}, {})
    ensures HeldIn(n, Reading(n)) == Part({StoredOf(n)}, {CALL, READ}, {})
  {
    hide StoredOf;
    LabelsDiffer();
    assert Node(n) in Alone(n) && Node(n) in Calling(n) && Node(n) in Reading(n);
    assert HeldIn(n, Calling(n)).edges == {CALL} by { assert Loop(n, CALLS_LABEL) in Calling(n); }
    assert HeldIn(n, Reading(n)).edges == {CALL, READ} by {
      assert Loop(n, CALLS_LABEL) in Reading(n) && Loop(n, READS_LABEL) in Reading(n);
    }
  }

  lemma Owners()
    ensures NodeOwner(StoredOf(SYMBOL_NODE)) == Some(FILE) && StoredOf(SYMBOL_NODE).key == 0
    ensures NodeOwner(StoredOf(MODULE_NODE)) == None && StoredOf(MODULE_NODE).key == 0
  {
    hide HasExtension, NormalPath, Signature.Preimage;
    FileNormal();
    assert Kind([119]) == None by { assert MODULE_LABEL[0] == 109; }
  }

  lemma ModuleRefused()
    ensures var x := Growing(MODULE_NODE);
      Refused(Compiled(HeldIn(MODULE_NODE, Alone(MODULE_NODE))), HeldIn(MODULE_NODE, Calling(MODULE_NODE)), {FILE})
  {
    hide HeldIn, StoredOf, NodeOwner;
    Parts(MODULE_NODE);
    Owners();
    var n := StoredOf(MODULE_NODE);
    var c, delta := Compiled(Part({n}, {}, {})), Part({n}, {CALL}, {});
    assert OwnedNodes(c.nodes, {FILE}) == {} && OwnedNodes(delta.nodes, {FILE}) == {};
    assert n.key in Keys(c.nodes) && n.key in Keys(delta.nodes);
    assert PlanEdges(c, delta, {FILE}).Changes?;
  }

  /**
   A file's object holds a module node, as those of some adapters do, and in the next snapshot an edge more.
   The update loads and the edges compare, but the rewrite refuses a node that belongs to no file.
   */
  lemma ModuleNeverSyncsAgain(m: Machinery, p: nat, q: nat)
    requires SortsByKey(m.sort)
    ensures var x := Growing(MODULE_NODE);
      NeverAgain(x, m, [Compiled(PartAt(x, Id(97))), Compiled(PartAt(x, Id(99)))], Id(97), Id(99), p, q)
  {
    hide Good, SortsByKey, Id, HasDrivePrefix, HeldIn, Compiled, NeverAgain, Refused;
    GrowingGood(MODULE_NODE);
    Digits();
    ModuleRefused();
    var x := Growing(MODULE_NODE);
    SecondBlocked(x, m, [Compiled(PartAt(x, Id(97))), Compiled(PartAt(x, Id(99)))], Id(97), Id(99), p, q);
  }

  // ----- one update after another -----

  /** What the repositories of these syncs hold: the snapshots compiled, and what the updates leave. */
  function Overlays(x: Sample): seq<Contents> {
    var first, second, third := Compiled(PartAt(x, Id(97))), Compiled(PartAt(x, Id(99))), Compiled(PartAt(x, Id(102)));
    [first, second, third, After(x, first, Id(99)), After(x, After(x, first, Id(99)), Id(102)), Compiled(PartAt(x, Id(101)))]
  }

  /** One node of the file and what calls it has, over a packed base without links. */
  function Shown(n: StoredNode, edges: set<EdgeFact>, added: set<Link>): Contents {
    Contents({n}, edges, {}, {}, added, {})
  }

  /** Its node and its edges all belong to the file. */
  lemma AllOwned(n: StoredNode, edges: set<EdgeFact>, added: set<Link>)
    requires NodeOwner(n) == Some(FILE) && n.key == 0 && edges <= {CALL, READ}
    ensures OwnedNodes({n}, {FILE}) == {n} && Keys({n}) == {0}
    ensures OwnedEdges(Shown(n, edges, added), {FILE}) == edges && OwnedUnresolved(Shown(n, edges, added), {FILE}) == {}
  {
    hide NodeOwner;
    assert n in {n} && KeyOwned({n}, 0) && KeyOwnedAt({n}, 0, {FILE});
  }

  lemma LinksOfBoth()
    ensures Links({}) == {} && Links({CALL}) == {LinkOf(CALL)} && Links({CALL, READ}) == {LinkOf(CALL), LinkOf(READ)}
    ensures LinkOf(CALL) != LinkOf(READ)
  {
    var both := {CALL, READ};
    assert CALL in both && READ in both;
    assert LinkOf(CALL) in Links(both) && LinkOf(READ) in Links(both);
    assert CALL in {CALL};
  }

  /** An update from some of these edges to others. */
  lemma Planned(n: StoredNode, before: set<EdgeFact>, after: set<EdgeFact>, added: set<Link>)
    requires NodeOwner(n) == Some(FILE) && n.key == 0 && before <= {CALL, READ} && after <= {CALL, READ}
    ensures var c, delta := Shown(n, before, added), Part({n}, after, {});
      && PlanEdges(c, delta, {FILE}) == Changes(Links(after) - Links(before), Links(before) - Links(after))
      && RewriteAccepts(c, delta, {FILE})
      && (Refused(c, delta, {FILE}) <==> Links(before) - Links(after) != {})
      && Updated(c, delta, {FILE}, Links(after) - Links(before), {}) == Shown(n, after, Links(after) - Links(before))
  {
    hide NodeOwner, OwnedNodes, OwnedEdges, OwnedUnresolved, Keys, Links;
    AllOwned(n, before, added);
    var c := Shown(n, before, added);
    assert {n} - {n} + {n} == {n} && before - before + after == after;
    assert EndsIn(before, {0}) && EndsIn(after, {0});
  }

  /** The first update adds the call to the overlay; the packed base stays empty. */
  lemma FirstOverlay()
    ensures var x := Growing(SYMBOL_NODE);
      && Passes(x, Overlays(x), Compiled(PartAt(x, Id(97))), Id(99))
      && Compiled(PartAt(x, Id(97))) == Shown(StoredOf(SYMBOL_NODE), {}, {})
      && After(x, Compiled(PartAt(x, Id(97))), Id(99)) == Shown(StoredOf(SYMBOL_NODE), {CALL}, {LinkOf(CALL)})
  {
    hide HeldIn, StoredOf, NodeOwner, Id, PlanEdges, Updated, RewriteAccepts, Refused, Links, Good, OneFile.RecordsAt, Growing;
    GrowingGood(SYMBOL_NODE);
    GrowingNode(SYMBOL_NODE);
    Parts(SYMBOL_NODE);
    Owners();
    LinksOfBoth();
    var x, n := Growing(SYMBOL_NODE), StoredOf(SYMBOL_NODE);
    Planned(n, {}, {CALL}, {});
    assert {LinkOf(CALL)} - {} == {LinkOf(CALL)};
    assert Overlays(x)[3] in Overlays(x) && Overlays(x)[1] in Overlays(x);
  }

  lemma GrowingNode(n: NodeRecord)
    ensures Growing(n).file == File(FILE, FILE, n)
  {
  }

  /** Taking the call away again is refused: it is not in the packed base. */
  lemma RemovalRefused()
    ensures var x := Growing(SYMBOL_NODE);
      Refused(After(x, Compiled(PartAt(x, Id(97))), Id(99)), PartAt(x, Id(101)), {FILE})
  {
    hide HeldIn, StoredOf, NodeOwner, Id, After, Compiled, PlanEdges, Updated, RewriteAccepts, Refused, Links, Good, OneFile.RecordsAt;
    hide Growing, Overlays;
    GrowingGood(SYMBOL_NODE);
    GrowingNode(SYMBOL_NODE);
    FirstOverlay();
    Parts(SYMBOL_NODE);
    Owners();
    LinksOfBoth();
    Planned(StoredOf(SYMBOL_NODE), {CALL}, {}, {LinkOf(CALL)});
    assert LinkOf(CALL) in {LinkOf(CALL)} - {};
  }

  /** Adding a read goes through; but the overlay shows the read alone, and the store holds both. */
  lemma AdditionIncoherent()
    ensures var x := Growing(SYMBOL_NODE);
      var c := After(x, Compiled(PartAt(x, Id(97))), Id(99));
      && Passes(x, Overlays(x), c, Id(102)) && !Coherent(After(x, c, Id(102)))
      && After(x, c, Id(102)) == Shown(StoredOf(SYMBOL_NODE), {CALL, READ}, {LinkOf(READ)})
  {
    hide HeldIn, StoredOf, NodeOwner, Id, Compiled, PlanEdges, Updated, RewriteAccepts, Refused, Links, Good, OneFile.RecordsAt, Growing;
    GrowingGood(SYMBOL_NODE);
    GrowingNode(SYMBOL_NODE);
    FirstOverlay();
    Parts(SYMBOL_NODE);
    Owners();
    LinksOfBoth();
    var x, n := Growing(SYMBOL_NODE), StoredOf(SYMBOL_NODE);
    Planned(n, {CALL}, {CALL, READ}, {LinkOf(CALL)});
    assert Overlays(x)[4] in Overlays(x) && Overlays(x)[2] in Overlays(x);
    var c := After(x, Compiled(PartAt(x, Id(97))), Id(99));
    assert {LinkOf(CALL)} - {LinkOf(CALL), LinkOf(READ)} == {} && {LinkOf(CALL), LinkOf(READ)} - {LinkOf(CALL)} == {LinkOf(READ)};
    var after := After(x, c, Id(102));
    assert after == Shown(n, {CALL, READ}, {LinkOf(READ)});
    assert LinkOf(CALL) in Links(after.edges) && LinkOf(CALL) !in Visible(after);
  }

  /** The state after an update that adds a call to a snapshot without one. */
  lemma TwoSyncs(m: Machinery, p: nat)
    requires SortsByKey(m.sort)
    ensures var x := Growing(SYMBOL_NODE);
      var o := Keeper(x, m, Overlays(x));
      && Sync.Synced(o, NOTHING_YET, p, Some(MetadataOf(x, Id(97)))).1.Success?
      && var d := Sync.Synced(o, NOTHING_YET, p, Some(MetadataOf(x, Id(97)))).0;
         && Sync.Synced(o, d, p, Some(MetadataOf(x, Id(99)))).1.Success?
         && var e := Sync.Synced(o, d, p, Some(MetadataOf(x, Id(99)))).0;
            && Stands(o, e, Id(99), After(x, Compiled(PartAt(x, Id(97))), Id(99))) && e.snapshots.Keys == {Id(97), Id(99)}
            && Sync.InSync(o, e, Id(99))
  {
    hide Good, SortsByKey, Id, HasDrivePrefix, PartAt, Compiled, Keeper, Sync.Synced, Stands, Passes, After, Sync.InSync, Growing;
    GrowingGood(SYMBOL_NODE);
    GrowingNode(SYMBOL_NODE);
    Digits();
    var x := Growing(SYMBOL_NODE);
    FirstOverlay();
    FirstKnown(x);
    hide Overlays;
    FirstSync(x, m, Overlays(x), Id(97), p);
    var o := Keeper(x, m, Overlays(x));
    var d := Sync.Synced(o, NOTHING_YET, p, Some(MetadataOf(x, Id(97)))).0;
    NextUpdates(x, m, Overlays(x), d, Id(97), Id(99), Compiled(PartAt(x, Id(97))), p);
    CallShown(StoredOf(SYMBOL_NODE));
    assert d.snapshots.Keys + {Id(99)} == {Id(97), Id(99)};
  }

  lemma FirstKnown(x: Sample)
    ensures |Overlays(x)| < 256 && Compiled(PartAt(x, Id(97))) in Overlays(x) && Compiled(PartAt(x, Id(102))) in Overlays(x)
    ensures Compiled(PartAt(x, Id(99))) in Overlays(x) && Compiled(PartAt(x, Id(101))) in Overlays(x)
  {
    hide PartAt, Compiled, After, Id;
    var k := Overlays(x);
    assert k[0] in k && k[1] in k && k[2] in k && k[5] in k;
  }

  lemma CallShown(n: StoredNode)
    ensures Coherent(Shown(n, {CALL}, {LinkOf(CALL)}))
  {
    LinksOfBoth();
    hide Links;
  }

  /** An edge that one update added cannot be taken away by the next: that sync fails, and so does a further one. */
  lemma NeverTakenAway(m: Machinery, p: nat, q: nat)
    requires SortsByKey(m.sort)
    ensures var x := Growing(SYMBOL_NODE);
      var o := Keeper(x, m, Overlays(x));
      && var d := Sync.Synced(o, NOTHING_YET, p, Some(MetadataOf(x, Id(97)))).0;
         var e := Sync.Synced(o, d, p, Some(MetadataOf(x, Id(99)))).0;
         && Sync.InSync(o, e, Id(99)) && Recoverable(o, e, MetadataOf(x, Id(101)))
         && var (f, r) := Sync.Synced(o, e, p, Some(MetadataOf(x, Id(101))));
            r.Failure? && f.current == Some(Id(99)) && Sync.Synced(o, f, q, Some(MetadataOf(x, Id(101)))).1.Failure?
  {
    hide Good, SortsByKey, Id, HasDrivePrefix, PartAt, Compiled, Keeper, Sync.Synced, Stands, Passes, After, Sync.InSync, Refused;
    hide Recoverable, Growing, Sync.Blocked;
    GrowingGood(SYMBOL_NODE);
    GrowingNode(SYMBOL_NODE);
    Digits();
    var x := Growing(SYMBOL_NODE);
    FirstKnown(x);
    hide Overlays;
    TwoSyncs(m, p);
    RemovalRefused();
    var o := Keeper(x, m, Overlays(x));
    var d := Sync.Synced(o, NOTHING_YET, p, Some(MetadataOf(x, Id(97)))).0;
    var e := Sync.Synced(o, d, p, Some(MetadataOf(x, Id(99)))).0;
    NothingFails(x, m, Overlays(x), e, Id(99), Id(101), After(x, Compiled(PartAt(x, Id(97))), Id(99)));
    BlockedForGood(x, m, Overlays(x), e, Id(99), Id(101), After(x, Compiled(PartAt(x, Id(97))), Id(99)), p, q);
  }

  /**
   After two updates in a row that each add an edge `CURRENT` names a generation that does not open, though both
   syncs succeed. A further sync of the same snapshot rebuilds it.
   */
  lemma SecondOverlayUnusable(m: Machinery, p: nat)
    requires SortsByKey(m.sort)
    ensures var x := Growing(SYMBOL_NODE);
      var o := Keeper(x, m, Overlays(x));
      && var d := Sync.Synced(o, NOTHING_YET, p, Some(MetadataOf(x, Id(97)))).0;
         var e := Sync.Synced(o, d, p, Some(MetadataOf(x, Id(99)))).0;
         && Sync.InSync(o, e, Id(99)) && Recoverable(o, e, MetadataOf(x, Id(102)))
         && var (f, r) := Sync.Synced(o, e, p, Some(MetadataOf(x, Id(102))));
            && r.Success? && f.current == Some(Id(102)) && !Sync.InSync(o, f, Id(102))
            && var (g, s) := Sync.Synced(o, f, p, Some(MetadataOf(x, Id(102))));
               s.Success? && Sync.InSync(o, g, Id(102))
  {
    hide Good, SortsByKey, Id, HasDrivePrefix, PartAt, Compiled, Keeper, Sync.Synced, Passes, After, Sync.InSync, Refused, Coherent;
    hide Sync.Sound, Growing, Sync.Consistent, Sync.FromLexicon, Sync.FullLoad, Overlays, Recoverable, Stands;
    GrowingGood(SYMBOL_NODE);
    GrowingNode(SYMBOL_NODE);
    var x := Growing(SYMBOL_NODE);
    FirstKnown(x);
    var o, known := Keeper(x, m, Overlays(x)), Overlays(x);
    KeeperSound(x, m, known);
    ThreeSyncs(m, p);
    var d := Sync.Synced(o, NOTHING_YET, p, Some(MetadataOf(x, Id(97)))).0;
    var e := Sync.Synced(o, d, p, Some(MetadataOf(x, Id(99)))).0;
    var f := Sync.Synced(o, e, p, Some(MetadataOf(x, Id(102)))).0;
    Rebuilds(x, m, known, Id(102), Sync.CurrentGenerationInvalid);
    InLexicon(x, m, known, Id(102));
    StandsUnusable(o, f, Id(102), After(x, After(x, Compiled(PartAt(x, Id(97))), Id(99)), Id(102)));
    Sync.SecondSyncRebuilds(o, f, p, MetadataOf(x, Id(102)));
  }

  /** The state after two updates that each add an edge. */
  lemma ThreeSyncs(m: Machinery, p: nat)
    requires SortsByKey(m.sort)
    ensures var x := Growing(SYMBOL_NODE);
      var o := Keeper(x, m, Overlays(x));
      && var d := Sync.Synced(o, NOTHING_YET, p, Some(MetadataOf(x, Id(97)))).0;
         var e := Sync.Synced(o, d, p, Some(MetadataOf(x, Id(99)))).0;
         && Sync.InSync(o, e, Id(99)) && Recoverable(o, e, MetadataOf(x, Id(102)))
         && var (f, r) := Sync.Synced(o, e, p, Some(MetadataOf(x, Id(102))));
            && r.Success? && Stands(o, f, Id(102), After(x, After(x, Compiled(PartAt(x, Id(97))), Id(99)), Id(102)))
            && f.snapshots.Keys == {Id(97), Id(99), Id(102)} && o.open(f.snapshots[Id(102)].files) == Sync.Unusable
  {
    hide Good, SortsByKey, Id, HasDrivePrefix, PartAt, Compiled, Keeper, Sync.Synced, Passes, After, Sync.InSync, Refused, Coherent;
    hide Growing, Sync.Consistent, Recoverable;
    GrowingGood(SYMBOL_NODE);
    GrowingNode(SYMBOL_NODE);
    Digits();
    var x := Growing(SYMBOL_NODE);
    FirstKnown(x);
    SecondKnown(x);
    hide Overlays;
    var o, known := Keeper(x, m, Overlays(x)), Overlays(x);
    TwoSyncs(m, p);
    AdditionIncoherent();
    var c := After(x, Compiled(PartAt(x, Id(97))), Id(99));
    var d := Sync.Synced(o, NOTHING_YET, p, Some(MetadataOf(x, Id(97)))).0;
    var e := Sync.Synced(o, d, p, Some(MetadataOf(x, Id(99)))).0;
    NothingFails(x, m, known, e, Id(99), Id(102), c);
    NextUpdates(x, m, known, e, Id(99), Id(102), c, p);
    assert e.snapshots.Keys + {Id(102)} == {Id(97), Id(99), Id(102)};
  }

  lemma SecondKnown(x: Sample)
    ensures After(x, After(x, Compiled(PartAt(x, Id(97))), Id(99)), Id(102)) in Overlays(x)
  {
    hide PartAt, Compiled, After, Id;
    assert Overlays(x)[4] in Overlays(x);
  }

  /**
   In the state that `SecondOverlayUnusable` reaches, a sync of another snapshot, without the edges, does not rebuild:
   it plans an update over the generation that does not open and fails. `CURRENT` stays where it is, that generation
   still does not open, and every further sync of this snapshot fails too.
   */
  lemma UnusableForGood(m: Machinery, p: nat, q: nat)
    requires SortsByKey(m.sort)
    ensures var x := Growing(SYMBOL_NODE);
      var o := Keeper(x, m, Overlays(x));
      && var d := Sync.Synced(o, NOTHING_YET, p, Some(MetadataOf(x, Id(97)))).0;
         var e := Sync.Synced(o, d, p, Some(MetadataOf(x, Id(99)))).0;
         var f := Sync.Synced(o, e, p, Some(MetadataOf(x, Id(102)))).0;
         && Recoverable(o, f, MetadataOf(x, Id(101)))
         && Sync.Blocked(o, f, MetadataOf(x, Id(101)))
         && var (g, r) := Sync.Synced(o, f, p, Some(MetadataOf(x, Id(101))));
            && r.Failure? && g.snapshots == f.snapshots && g.current == f.current == Some(Id(102))
            && !Sync.InSync(o, g, Id(102)) && Sync.Synced(o, g, q, Some(MetadataOf(x, Id(101)))).1.Failure?
  {
    hide Good, SortsByKey, Id, HasDrivePrefix, PartAt, Compiled, Keeper, Sync.Synced, After, Refused, Coherent, Growing, Stands, Overlays;
    hide Recoverable, Sync.Blocked, Sync.InSync, MetadataOf, Sync.PlanSnapshot;
    GrowingGood(SYMBOL_NODE);
    GrowingNode(SYMBOL_NODE);
    Digits();
    var x := Growing(SYMBOL_NODE);
    FirstKnown(x);
    ThreeSyncs(m, p);
    BothRefused();
    var o := Keeper(x, m, Overlays(x));
    var d := Sync.Synced(o, NOTHING_YET, p, Some(MetadataOf(x, Id(97)))).0;
    var e := Sync.Synced(o, d, p, Some(MetadataOf(x, Id(99)))).0;
    var f := Sync.Synced(o, e, p, Some(MetadataOf(x, Id(102)))).0;
    var c := After(x, After(x, Compiled(PartAt(x, Id(97))), Id(99)), Id(102));
    StaysUnusable(x, m, Overlays(x), f, Id(102), Id(101), c, p, q);
  }

  /** A blocked sync over a generation that does not open leaves it there. */
  lemma StaysUnusable(x: Sample, m: Machinery, known: seq<Contents>, d: Sync.Disk, id: Text, next: Text, c: Contents, p: nat, q: nat)
    requires Good(x) && SortsByKey(m.sort) && |known| < 256 && Stands(Keeper(x, m, known), d, id, c) && Follows(x, id, next, d)
    requires Compiled(PartAt(x, next)) in known && Refused(c, PartAt(x, next), {x.file.normal})
    requires Keeper(x, m, known).open(d.snapshots[id].files) == Sync.Unusable
    ensures var o, current := Keeper(x, m, known), MetadataOf(x, next);
      && Recoverable(o, d, current) && Sync.Blocked(o, d, current) && d.current == Some(id)
      && var (after, r) := Sync.Synced(o, d, p, Some(current));
         && r.Failure? && after.snapshots == d.snapshots && after.current == d.current
         && !Sync.InSync(o, after, id) && Sync.Synced(o, after, q, Some(current)).1.Failure?
  {
    hide Good, SortsByKey, PartAt, Compiled, Keeper, Sync.Synced, Refused, Stands, Recoverable, Sync.Blocked, Sync.InSync, HasDrivePrefix;
    NextBlocked(x, m, known, d, id, next, c);
    NothingFails(x, m, known, d, id, next, c);
    StandsUnusable(Keeper(x, m, known), d, id, c);
    BlockedForGood(x, m, known, d, id, next, c, p, q);
    UnusableNotSynced(Keeper(x, m, known), d, Sync.Synced(Keeper(x, m, known), d, p, Some(MetadataOf(x, next))).0, id, c);
  }

  lemma UnusableNotSynced(o: Sync.Oracle, d: Sync.Disk, after: Sync.Disk, id: Text, c: Contents)
    requires Stands(o, d, id, c) && o.open(d.snapshots[id].files) == Sync.Unusable && after.snapshots == d.snapshots
    ensures !Sync.InSync(o, after, id)
  {
    hide Sync.Consistent;
  }

  lemma StandsUnusable(o: Sync.Oracle, d: Sync.Disk, id: Text, c: Contents)
    requires Stands(o, d, id, c) && o.open(d.snapshots[id].files) == Sync.Unusable
    ensures Sync.Consistent(o, Sync.STORES, d) && d.current == Some(id) && id in d.snapshots && d.snapshots[id].marker == Some(id)
    ensures d.pending == map[] && !Sync.InSync(o, d, id)
  {
    hide Sync.Consistent;
  }

  /** Taking both edges away is refused: neither is in the packed base. */
  lemma BothRefused()
    ensures var x := Growing(SYMBOL_NODE);
      Refused(After(x, After(x, Compiled(PartAt(x, Id(97))), Id(99)), Id(102)), PartAt(x, Id(101)), {FILE})
  {
    hide HeldIn, StoredOf, NodeOwner, Id, After, Compiled, PlanEdges, Updated, RewriteAccepts, Refused, Links, Good, OneFile.RecordsAt;
    hide Growing, Overlays;
    GrowingGood(SYMBOL_NODE);
    GrowingNode(SYMBOL_NODE);
    AdditionIncoherent();
    Parts(SYMBOL_NODE);
    Owners();
    LinksOfBoth();
    Planned(StoredOf(SYMBOL_NODE), {CALL, READ}, {}, {LinkOf(READ)});
    assert LinkOf(CALL) in {LinkOf(CALL), LinkOf(READ)} - {};
  }
}
