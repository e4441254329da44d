/**
 arcana/src/cli_sync_build.rs, rebuild and update: what an update publishes against what a rebuild of the same
 snapshot would, in terms of the records of the two snapshots.

 `kept` are the records of the objects that did not change, `gone` those of the previous objects at the paths
 that differ, and `read` those of the current objects there.
 */
module UpdateCompare {
  import opened Wrappers
  import opened Lexicon
  import opened Ordering
  import opened Facts
  import opened Records
  import opened StreamRecords
  import opened SnapshotManifest
  import opened SnapshotLoad
  import opened StagedNodes
  import opened CompactLoad
  import opened DeltaLoad
  import opened StoreContents
  import BaseStore
  import Protocol = SyncProtocol
  import Sync = SyncPlan

  // ----- records, converted -----

  /** These records, converted, whoever resolves their references. */
  ghost function PartIn(s: Schema, digest: seq<byte> -> Text, records: seq<FactRecord>): Part {
    Part(set r | r in records && r.Node? :: Stored(StagedOf(s, digest, r.node)),
         set e | e in EdgeShares(s, records), set u | u in UnresolvedShares(s, records))
  }

  ghost function Both(a: Part, b: Part): Part {
    Part(a.nodes + b.nodes, a.edges + b.edges, a.unresolved + b.unresolved)
  }

  lemma PartSplits(s: Schema, digest: seq<byte> -> Text, all: seq<FactRecord>, a: seq<FactRecord>, b: seq<FactRecord>)
    requires multiset(all) == multiset(a) + multiset(b)
    ensures PartIn(s, digest, all) == Both(PartIn(s, digest, a), PartIn(s, digest, b))
  {
    SharesSplit(s, all, a, b);
    SplitMembers(all, a, b);
    hide EdgeShares, UnresolvedShares, StagedOf;
    var x, y, z := PartIn(s, digest, all), PartIn(s, digest, a), PartIn(s, digest, b);
    forall n ensures n in x.nodes <==> n in y.nodes + z.nodes {
      if n in y.nodes {
        var r :| r in a && r.Node? && Stored(StagedOf(s, digest, r.node)) == n;
        assert r in all;
      }
      if n in z.nodes {
        var r :| r in b && r.Node? && Stored(StagedOf(s, digest, r.node)) == n;
        assert r in all;
      }
    }
    assert x.edges == y.edges + z.edges && x.unresolved == y.unresolved + z.unresolved;
  }

  lemma LoadedPart(s: Schema, digest: seq<byte> -> Text, records: seq<FactRecord>, c: Compact)
    requires forall x :: x in c.nodes <==> x in AllStaged(s, digest, StreamRecords.NodesIn(records))
    requires multiset(c.edges) == EdgeShares(s, records) && multiset(c.unresolved) == UnresolvedShares(s, records)
    ensures PartOf(c) == PartIn(s, digest, records)
  {
    NodeMembers(records);
    AllStagedMembers(s, digest, StreamRecords.NodesIn(records));
    hide EdgeShares, UnresolvedShares, StagedOf, AllStaged, StreamRecords.NodesIn;
    var x, y := PartOf(c), PartIn(s, digest, records);
    forall n ensures n in x.nodes <==> n in y.nodes {
      if n in x.nodes {
        var m :| m in c.nodes && Stored(m) == n;
        var r :| r in StreamRecords.NodesIn(records) && m == StagedOf(s, digest, r);
        assert Node(r) in records;
      }
      if n in y.nodes {
        var r :| r in records && r.Node? && Stored(StagedOf(s, digest, r.node)) == n;
        assert Node(r.node) in records && r.node in StreamRecords.NodesIn(records);
        assert StagedOf(s, digest, r.node) in c.nodes;
      }
    }
    forall e ensures e in x.edges <==> e in y.edges { assert e in c.edges <==> e in multiset(c.edges); }
    forall u ensures u in x.unresolved <==> u in y.unresolved { assert u in c.unresolved <==> u in multiset(c.unresolved); }
  }

  /** The records of the current objects at these paths. */
  function ReadAt(w: World, current: Metadata, paths: seq<Text>): Result<seq<FactRecord>, SnapshotError> {
    RecordsOf(w, Filter(w.s, set x | x in paths, true, SlotsOf(w, current.id)), All)
  }

  /** The records of the previous objects at these paths. */
  function GoneAt(w: World, previous: Metadata, paths: seq<Text>): Result<seq<FactRecord>, SnapshotError> {
    RecordsOf(w, Filter(w.s, set x | x in paths, true, SlotsOf(w, previous.id)), All)
  }

  /** The situation of an update whose delta loads, for a snapshot that also loads in full. */
  ghost predicate Situation(w: World, m: Machinery, current: Metadata, previous: Metadata, paths: seq<Text>, base: set<Identity>) {
    && SortsByKey(m.sort) && Distinguishes(w, m, current.id)
    && LoadCompact(w, m, current.id).Success?
    && Syncs(w, current, previous, paths, base)
    && forall p :: p in paths ==> Stable(w.s, p)
  }

  /**
   An update's delta holds the records of the current objects at the paths that differ and warns of them; the full
   load holds and warns of the kept ones too. So whether the delta is refused can be told from these records.
   */
  lemma DeltaReads(w: World, m: Machinery, current: Metadata, previous: Metadata, paths: seq<Text>, base: set<Identity>)
    requires Situation(w, m, current, previous, paths, base)
    ensures LoadDelta(w, m, current, paths, base).Success? && Kept(w, previous, paths).Success? && ReadAt(w, current, paths).Success?
    ensures var full, delta := LoadCompact(w, m, current.id).value, LoadDelta(w, m, current, paths, base).value;
      var kept, read := Kept(w, previous, paths).value, ReadAt(w, current, paths).value;
      && PartOf(delta) == PartIn(w.s, m.digest, read)
      && PartOf(full) == Both(PartIn(w.s, m.digest, kept), PartIn(w.s, m.digest, read))
      && delta.warnings == RecordWarnings(w.s, read)
      && full.warnings == RecordWarnings(w.s, kept) + RecordWarnings(w.s, read)
  {
    hide ReadManifest, SlotsOf, Lists, Sound, Loadable, RecordsOf, Filter, NoCollision, StreamRecords.NodesIn, AllStaged, SortsByKey;
    hide DeltaOver, LoadDelta, Convert, EdgeShares, UnresolvedShares, DiffersAt, Defines, SlotsHeld, RecordWarnings, PartIn, PartOf;
    hide AgreeOutside, LoadCompact, SharedObjectsChanged, Stable, ResolveIn, IsMetadata, Distinguishes;
    var c, p, selected := SlotsOf(w, current.id), SlotsOf(w, previous.id), set x | x in paths;
    DeltaOpens(w, m, current, paths, base);
    MetadataLists(w, current);
    MetadataLists(w, previous);
    FullParts(w, m, current.id);
    ChangedAgree(current, previous, paths);
    var full := LoadCompact(w, m, current.id).value;
    KeptDefined(w, selected, p, base);
    assert NoCollision(m.digest, StreamRecords.NodesIn(RecordsOf(w, c, All).value)) by { DistinguishedRecords(w, m, current.id); }
    DeltaPasses(w, m, current, previous, selected, c, p, base, full.nodes);
    var all, kept, read := RecordsOf(w, c, All).value, Kept(w, previous, paths).value, ReadAt(w, current, paths).value;
    LoadedPart(w.s, m.digest, all, full);
    LoadedPart(w.s, m.digest, read, LoadDelta(w, m, current, paths, base).value);
    PartSplits(w.s, m.digest, all, kept, read);
    WarningsSplit(w.s, all, kept, read);
  }

  lemma DistinguishedRecords(w: World, m: Machinery, id: Text)
    requires Distinguishes(w, m, id) && RecordsOf(w, SlotsOf(w, id), All).Success?
    ensures NoCollision(m.digest, StreamRecords.NodesIn(RecordsOf(w, SlotsOf(w, id), All).value))
  {
  }

  /** And the full load of the previous snapshot held the kept and the gone records. */
  lemma PreviousReads(w: World, m: Machinery, previous: Metadata, paths: seq<Text>)
    requires SortsByKey(m.sort) && Distinguishes(w, m, previous.id) && LoadCompact(w, m, previous.id).Success?
    ensures Kept(w, previous, paths).Success? && GoneAt(w, previous, paths).Success?
    ensures PartOf(LoadCompact(w, m, previous.id).value) ==
            Both(PartIn(w.s, m.digest, Kept(w, previous, paths).value), PartIn(w.s, m.digest, GoneAt(w, previous, paths).value))
  {
    hide ReadManifest, SlotsOf, Sound, Loadable, RecordsOf, Filter, StreamRecords.NodesIn, AllStaged, SortsByKey, LoadCompact;
    hide EdgeShares, UnresolvedShares, PartIn, PartOf, Distinguishes, RecordWarnings, Convert, ResolveIn;
    FullParts(w, m, previous.id);
    var slots, selected := SlotsOf(w, previous.id), set x | x in paths;
    FilterReadable(w, selected, false, slots);
    FilterReadable(w, selected, true, slots);
    var all, kept, gone := RecordsOf(w, slots, All).value, Kept(w, previous, paths).value, GoneAt(w, previous, paths).value;
    RecordsTotal(w, slots);
    RecordsTotal(w, Filter(w.s, selected, false, slots));
    RecordsTotal(w, Filter(w.s, selected, true, slots));
    FilterTotal(w.s, selected, SlotRecords(w), slots);
    LoadedPart(w.s, m.digest, all, LoadCompact(w, m, previous.id).value);
    PartSplits(w.s, m.digest, all, kept, gone);
  }

  // ----- what a sync comes to -----

  /** What the current objects at these paths hold, converted. */
  ghost function Incoming(o: Sync.Oracle, current: Metadata, paths: seq<Text>): Part
    requires ReadAt(o.world, current, paths).Success?
  {
    PartIn(o.world.s, o.machinery.digest, ReadAt(o.world, current, paths).value)
  }

  /** The delta of a planned update is what is read at the paths that differ, with one node for each key. */
  lemma PlannedDelta(o: Sync.Oracle, d: Sync.Disk, current: Metadata, control: Text -> bool)
    requires Sync.Sound(o) && Sync.Consistent(o, Sync.STORES, d) && Sync.FromLexicon(o, current)
    requires BaseStore.UsesPaths(o.world.s, control) && Sync.FullLoad(o, current.id).Success?
    requires var plan := Sync.PlanSnapshot(o, d, d.current, current); plan.Success? && plan.value.Incremental?
    ensures var plan := Sync.PlanSnapshot(o, d, d.current, current).value;
      && plan.previous in d.snapshots && ReadAt(o.world, current, plan.paths).Success?
      && var base := d.snapshots[plan.previous].files;
         && Sync.UpdateBase(o, base) && Sync.WellKeyed(o.world, o.read(base).nodes)
         && (Sync.Delta(o, current, base, plan.paths).Success? <==> !Sync.DriveAmong(plan.paths))
         && (Sync.Delta(o, current, base, plan.paths).Success? ==>
               && PartOf(Sync.Delta(o, current, base, plan.paths).value) == Incoming(o, current, plan.paths)
               && OneNodePerKey(Incoming(o, current, plan.paths).nodes))
  {
    hide Sync.PlanSnapshot, Sync.WritersSound, Sync.Consistent, Sync.FromLexicon, BaseStore.UsesPaths, LoadCompact, LoadDelta, ReadAt;
    hide PartIn, PartOf, Syncs, Sync.ReadMetadata, Kept, Stable, Sync.UpdateBase, Sync.DriveAmong, RecordWarnings, OneNodePerKey;
    hide SortsByKey, Distinguishes, BaseStore.KeysTellApart, Settles, SlotsHeld, Sync.WellKeyed, BaseStore.RecordedSomewhere, KeysAscend;
    Sync.IncrementalOpens(o, d, current);
    Sync.IncrementalSyncs(o, d, current);
    Sync.DriveDecides(o, d, current, control);
    var plan := Sync.PlanSnapshot(o, d, d.current, current).value;
    var base, previous := d.snapshots[plan.previous].files, Sync.ReadMetadata(o, plan.previous).metadata;
    var identities := Identities(o.read(base).nodes);
    CurrentReads(o.world, o.machinery, current, plan.paths);
    if !Sync.DriveAmong(plan.paths) {
      LoadedStable(o, current, previous, plan.paths, identities);
      DeltaReads(o.world, o.machinery, current, previous, plan.paths, identities);
      BaseStore.DeltaRecorded(o.world, o.machinery, current, plan.paths, identities);
      AscendingKeysOnce(LoadDelta(o.world, o.machinery, current, plan.paths, identities).value);
    }
  }

  lemma CurrentReads(w: World, m: Machinery, current: Metadata, paths: seq<Text>)
    requires SortsByKey(m.sort) && Distinguishes(w, m, current.id) && LoadCompact(w, m, current.id).Success?
    ensures ReadAt(w, current, paths).Success?
  {
    hide SortsByKey, Distinguishes, LoadCompact, PartOf, PartIn, RecordsOf, Filter, SlotsOf;
    PreviousReads(w, m, current, paths);
  }

  /**
   Whether a sync that plans an update is blocked can be told from the store and graph of the previous
   generation and from the records of the current objects at the paths that differ: a path begins with a drive
   prefix; or the paths own the same nodes before and after, and an end of an edge is missing, a node read belongs to
   none of the paths, or a link is misplaced against the packed base.
   */
  lemma BlockedOnRecords(o: Sync.Oracle, d: Sync.Disk, current: Metadata, control: Text -> bool)
    requires Sync.Sound(o) && Sync.Consistent(o, Sync.STORES, d) && Sync.FromLexicon(o, current)
    requires BaseStore.UsesPaths(o.world.s, control) && Sync.FullLoad(o, current.id).Success?
    requires var plan := Sync.PlanSnapshot(o, d, d.current, current); plan.Success? && plan.value.Incremental?
    ensures var plan := Sync.PlanSnapshot(o, d, d.current, current).value;
      && plan.previous in d.snapshots && ReadAt(o.world, current, plan.paths).Success?
      && var files, changed := d.snapshots[plan.previous].files, Sync.Paths(plan.paths);
         var c, read := o.read(files), Incoming(o, current, plan.paths);
         Sync.Blocked(o, d, current) <==>
         || Sync.DriveAmong(plan.paths)
         || (&& o.browse(files, plan.paths).Browsed? && OwnTheSame(c, read, changed)
             && (|| EndMissing(c, read, changed) || (exists n :: n in read.nodes && !NodeOwnedAt(n, changed))
                 || LinkMisplaced(c, read, changed)))
  {
    hide Sync.PlanSnapshot, Sync.Sound, Sync.Consistent, Sync.FromLexicon, BaseStore.UsesPaths, LoadCompact, LoadDelta, ReadAt, PartIn;
    hide PartOf, Refused, Sync.DriveAmong, Sync.UpdateBase, Sync.WellKeyed, OneNodePerKey, OwnTheSame, EndMissing, NodeOwnedAt;
    hide LinkMisplaced;
    PlannedDelta(o, d, current, control);
    var plan := Sync.PlanSnapshot(o, d, d.current, current).value;
    var c, read := o.read(d.snapshots[plan.previous].files), Incoming(o, current, plan.paths);
    if !Sync.DriveAmong(plan.paths) { RefusedExact(c, read, Sync.Paths(plan.paths)); }
  }

  /**
   What an update over these files needs to leave a complete generation: no drive prefix, and either it is turned into
   a rebuild, because the store is corrupt or the paths do not own the same nodes before and after, or every end of an
   edge is in the base, every node read belongs to one of the paths, and the links fit the packed base.
   */
  ghost predicate OpensOver(o: Sync.Oracle, current: Metadata, files: Sync.RepositoryFiles, paths: seq<Text>)
    requires ReadAt(o.world, current, paths).Success?
  {
    var c, read, changed := o.read(files), Incoming(o, current, paths), Sync.Paths(paths);
    && !Sync.DriveAmong(paths)
    && (|| o.browse(files, paths).Corrupt? || !OwnTheSame(c, read, changed)
        || (!EndMissing(c, read, changed) && (forall n :: n in read.nodes ==> NodeOwnedAt(n, changed)) && Fits(c, read, changed)))
  }

  /**
   With Lexicon's snapshot loadable and no I/O errors, from any state in order: a sync leaves `CURRENT` on a complete
   generation of this snapshot exactly when it plans no update, or the update is over files and records with which it
   leaves one. Nothing in this condition speaks of what the sync leaves.
   */
  lemma OpensOnRecords(o: Sync.Oracle, d: Sync.Disk, p: nat, current: Metadata, control: Text -> bool)
    requires Sync.Sound(o) && Sync.Consistent(o, Sync.STORES, d) && p !in d.pending && Sync.FromLexicon(o, current)
    requires BaseStore.UsesPaths(o.world.s, control) && Sync.FullLoad(o, current.id).Success? && Sync.NoIoErrors(o, d, current)
    ensures var plan := Sync.PlanSnapshot(o, d, d.current, current);
      && plan.Success?
      && (plan.value.Incremental? ==> plan.value.previous in d.snapshots && ReadAt(o.world, current, plan.value.paths).Success?)
      && (Sync.InSync(o, Sync.Synced(o, d, p, Some(current)).0, current.id) <==>
            (plan.value.Incremental? ==> OpensOver(o, current, d.snapshots[plan.value.previous].files, plan.value.paths)))
  {
    hide Sync.PlanSnapshot, Sync.Sound, Sync.Consistent, Sync.FromLexicon, BaseStore.UsesPaths, LoadCompact, ReadAt, Sync.Synced;
    hide OpensOver, Sync.Standing, Sync.RebuildInto, Sync.UpdateInto, Coherent, Sync.NoIoErrors;
    Sync.RecoverySucceeds(o, d, p, current, control);
    var plan := Sync.PlanSnapshot(o, d, d.current, current).value;
    if plan.Incremental? {
      PlannedDelta(o, d, current, control);
      UpdateOpensOver(o, d, p, current, control);
    } else {
      assert !Sync.Blocked(o, d, current);
      Sync.RecoveryExact(o, d, p, current);
      Sync.OpensExactly(o, d, p, current);
      if plan.Rebuild? { RebuiltReason(o, current, plan.reason); }
    }
  }

  /** So it is after any run in which the stores that are finished hold the nodes of their snapshots. */
  lemma RunOpensOnRecords(o: Sync.Oracle, steps: Protocol.Trace, p: nat, current: Metadata, control: Text -> bool)
    requires Protocol.RemovalSound(o) && Sync.Sound(o) && BaseStore.UsesPaths(o.world.s, control)
    requires Protocol.Run(o, Protocol.INITIAL, steps).Some? && Protocol.Trusted(o, Sync.STORES, Protocol.INITIAL, steps)
    requires Sync.FromLexicon(o, current) && Sync.FullLoad(o, current.id).Success?
    requires var d := Protocol.Run(o, Protocol.INITIAL, steps).value.disk; p !in d.pending && Sync.NoIoErrors(o, d, current)
    ensures var d := Protocol.Run(o, Protocol.INITIAL, steps).value.disk;
      var plan := Sync.PlanSnapshot(o, d, d.current, current);
      && plan.Success?
      && (plan.value.Incremental? ==> plan.value.previous in d.snapshots && ReadAt(o.world, current, plan.value.paths).Success?)
      && (Sync.InSync(o, Sync.Synced(o, d, p, Some(current)).0, current.id) <==>
            (plan.value.Incremental? ==> OpensOver(o, current, d.snapshots[plan.value.previous].files, plan.value.paths)))
  {
    hide Protocol.Run, Protocol.Trusted, Protocol.RemovalSound, Sync.Sound, BaseStore.UsesPaths, Sync.FromLexicon, LoadCompact, OpensOver;
    hide Sync.NoIoErrors, Sync.PlanSnapshot, Sync.Synced, Sync.InSync, ReadAt;
    Protocol.InitialSafe(o, Sync.STORES);
    Protocol.RunSafe(o, Sync.STORES, Protocol.INITIAL, steps);
    var d := Protocol.Run(o, Protocol.INITIAL, steps).value.disk;
    assert Sync.Consistent(o, Sync.STORES, d);
    hide Sync.Consistent;
    OpensOnRecords(o, d, p, current, control);
  }

  lemma RebuiltReason(o: Sync.Oracle, current: Metadata, reason: Sync.RebuildReason)
    ensures var w := Sync.RebuildInto(o, current, map[], reason); w.Success? ==> w.value.rebuilt.Some?
  {
    hide LoadCompact;
  }

  lemma UpdateOpensOver(o: Sync.Oracle, d: Sync.Disk, p: nat, current: Metadata, control: Text -> bool)
    requires Sync.Sound(o) && Sync.Consistent(o, Sync.STORES, d) && p !in d.pending && Sync.FromLexicon(o, current)
    requires BaseStore.UsesPaths(o.world.s, control) && Sync.FullLoad(o, current.id).Success? && Sync.NoIoErrors(o, d, current)
    requires var plan := Sync.PlanSnapshot(o, d, d.current, current); plan.Success? && plan.value.Incremental?
    ensures var plan := Sync.PlanSnapshot(o, d, d.current, current).value;
      && plan.previous in d.snapshots && ReadAt(o.world, current, plan.paths).Success?
      && (Sync.InSync(o, Sync.Synced(o, d, p, Some(current)).0, current.id) <==>
            OpensOver(o, current, d.snapshots[plan.previous].files, plan.paths))
  {
    hide Sync.PlanSnapshot, Sync.Sound, Sync.Consistent, Sync.FromLexicon, BaseStore.UsesPaths, LoadCompact, ReadAt, Sync.Synced;
    hide Sync.UpdateInto, Coherent, Sync.NoIoErrors, Sync.UpdateBase, Sync.WellKeyed, Sync.Blocked, Sync.Delta, Incoming, PartOf;
    hide OwnTheSame, EndMissing, LinkMisplaced, Fits, NodeOwnedAt, OneNodePerKey, Sync.DriveAmong, Sync.ReadMetadata, Sync.DifferingPaths;
    Sync.RecoverySucceeds(o, d, p, current, control);
    Sync.RecoveryExact(o, d, p, current);
    Sync.IncrementalOpens(o, d, current);
    PlannedDelta(o, d, current, control);
    BlockedOnRecords(o, d, current, control);
    var plan := Sync.PlanSnapshot(o, d, d.current, current).value;
    var files := d.snapshots[plan.previous].files;
    assert d.snapshots - {current.id} == d.snapshots;
    if Sync.Blocked(o, d, current) {
      MisplacedUnfit(o.read(files), Incoming(o, current, plan.paths), Sync.Paths(plan.paths));
    } else {
      assert Sync.WriteSnapshot(o, d.snapshots, current, plan, map[]) == Sync.UpdateInto(o, current, files, plan.paths, map[]);
      UpdateLeaves(o, current, files, plan.paths, Incoming(o, current, plan.paths));
    }
  }

  lemma MisplacedUnfit(c: Contents, read: Part, changed: set<Text>)
    ensures LinkMisplaced(c, read, changed) ==> !Fits(c, read, changed)
  {
    hide Links, OwnedEdges;
  }

  /** What an update writes opens exactly if it is a rebuild or fits the packed base. */
  lemma UpdateLeaves(o: Sync.Oracle, current: Metadata, files: Sync.RepositoryFiles, paths: seq<Text>, read: Part)
    requires Sync.Sound(o) && Sync.UpdateBase(o, files) && Sync.WellKeyed(o.world, o.read(files).nodes)
    requires Sync.UpdateInto(o, current, files, paths, map[]).Success?
    requires Sync.Delta(o, current, files, paths).Success? ==> PartOf(Sync.Delta(o, current, files, paths).value) == read
    ensures Sync.Delta(o, current, files, paths).Success? && !o.browse(files, paths).Unreadable?
    ensures o.open(Sync.UpdateInto(o, current, files, paths, map[]).value.files).Opened? <==>
            || o.browse(files, paths).Corrupt? || !OwnTheSame(o.read(files), read, Sync.Paths(paths))
            || Fits(o.read(files), read, Sync.Paths(paths))
  {
    hide Sync.Sound, Sync.UpdateInto, Sync.UpdateBase, Sync.WellKeyed, Sync.Delta, PartOf, Sync.RebuildInto, OwnTheSame, Fits;
    Sync.UpdateOpens(o, current, files, paths);
    Sync.RebuiltWhen(o, current, files, paths);
    if Sync.UpdateInto(o, current, files, paths, map[]).value.rebuilt.None? { Sync.OverlayOpens(o, current, files, paths); }
  }

  lemma LoadedStable(o: Sync.Oracle, current: Metadata, previous: Metadata, paths: seq<Text>, base: set<Identity>)
    requires Sync.Sound(o) && Syncs(o.world, current, previous, paths, base) && Sync.FullLoad(o, current.id).Success?
    requires LoadDelta(o.world, o.machinery, current, paths, base).Success?
    ensures Situation(o.world, o.machinery, current, previous, paths, base)
  {
    hide Sync.WritersSound, Settles, Syncs, LoadDelta, LoadCompact, SortsByKey, Distinguishes, BaseStore.KeysTellApart, Stable;
    BaseStore.DeltaSettles(o.world, o.machinery, current, previous, paths, base);
  }

  // ----- the comparison -----

  /** A set of records is replaced rightly: what is not owned and gone is recorded still, what is owned and kept is read again. */
  ghost predicate Replaces<T>(kept: set<T>, gone: set<T>, read: set<T>, owned: set<T>) {
    gone - owned <= kept + read && kept * owned <= read
  }

  lemma ReplacesExact<T>(kept: set<T>, gone: set<T>, read: set<T>, owned: set<T>)
    ensures (kept + gone) - owned + read == kept + read <==> Replaces(kept, gone, read, owned)
  {
    if (kept + gone) - owned + read == kept + read {
      forall x | x in gone - owned ensures x in kept + read {
        assert x in (kept + gone) - owned + read;
      }
      forall x | x in kept * owned ensures x in read {
        assert x in (kept + gone) - owned + read;
      }
    }
  }

  /** What the update leaves of the base, and what is kept of the records, agree up to what is read. */
  ghost predicate AgreeUpTo<T>(left: set<T>, kept: set<T>, read: set<T>) {
    left <= kept + read && kept <= left + read
  }

  lemma AgreeUpToExact<T>(left: set<T>, kept: set<T>, read: set<T>)
    ensures left + read == kept + read <==> AgreeUpTo(left, kept, read)
  {
    if left + read == kept + read {
      forall x | x in left ensures x in kept + read { assert x in left + read; }
      forall x | x in kept ensures x in left + read { assert x in kept + read; }
    }
  }

  /**
   Over any base, what an update stores is what a rebuild would store exactly when, of nodes, edges and
   unresolved references alike, what it leaves of the base and the kept records agree up to what is read.
   */
  lemma UpdateOverAny(w: World, m: Machinery, current: Metadata, previous: Metadata, paths: seq<Text>, before: Contents)
    requires Situation(w, m, current, previous, paths, Identities(before.nodes))
    ensures Kept(w, previous, paths).Success? && ReadAt(w, current, paths).Success?
    ensures LoadDelta(w, m, current, paths, Identities(before.nodes)).Success?
    ensures var s, changed := w.s, set x | x in paths;
      var kept, read := PartIn(s, m.digest, Kept(w, previous, paths).value), PartIn(s, m.digest, ReadAt(w, current, paths).value);
      var rebuilt := Compiled(PartOf(LoadCompact(w, m, current.id).value));
      forall added, removed ::
        var delta := PartOf(LoadDelta(w, m, current, paths, Identities(before.nodes)).value);
        StoreOf(Updated(before, delta, changed, added, removed)) == StoreOf(rebuilt) <==>
        && AgreeUpTo(before.nodes - OwnedNodes(before.nodes, changed), kept.nodes, read.nodes)
        && AgreeUpTo(before.edges - OwnedEdges(before, changed), kept.edges, read.edges)
        && AgreeUpTo(before.unresolved - OwnedUnresolved(before, changed), kept.unresolved, read.unresolved)
  {
    hide LoadDelta, LoadCompact, Situation, PartIn, PartOf, Kept, ReadAt, Links, OwnedNodes, OwnedEdges, OwnedUnresolved, AgreeUpTo, RecordWarnings;
    DeltaReads(w, m, current, previous, paths, Identities(before.nodes));
    var s, changed := w.s, set x | x in paths;
    var kept, read := PartIn(s, m.digest, Kept(w, previous, paths).value), PartIn(s, m.digest, ReadAt(w, current, paths).value);
    AgreeUpToExact(before.nodes - OwnedNodes(before.nodes, changed), kept.nodes, read.nodes);
    AgreeUpToExact(before.edges - OwnedEdges(before, changed), kept.edges, read.edges);
    AgreeUpToExact(before.unresolved - OwnedUnresolved(before, changed), kept.unresolved, read.unresolved);
  }

  /**
   Over a base that is the compiled previous snapshot, what an update stores is what a rebuild would store exactly
   when, of nodes, edges and unresolved references alike, every gone record that no changed path owns is still
   recorded, and every kept record that a changed path owns is read again. If so, and the update leaves a
   generation that opens, its graph shows what the rebuilt one would.
   */
  lemma UpdateVersusRebuild(w: World, m: Machinery, current: Metadata, previous: Metadata, paths: seq<Text>, base: set<Identity>)
    requires Situation(w, m, current, previous, paths, base)
    requires Distinguishes(w, m, previous.id) && LoadCompact(w, m, previous.id).Success?
    ensures Kept(w, previous, paths).Success? && GoneAt(w, previous, paths).Success? && ReadAt(w, current, paths).Success?
    ensures LoadDelta(w, m, current, paths, base).Success?
    ensures var s, changed := w.s, set x | x in paths;
      var kept, gone, read := PartIn(s, m.digest, Kept(w, previous, paths).value), PartIn(s, m.digest, GoneAt(w, previous, paths).value),
                              PartIn(s, m.digest, ReadAt(w, current, paths).value);
      var before := Compiled(PartOf(LoadCompact(w, m, previous.id).value));
      var rebuilt := Compiled(PartOf(LoadCompact(w, m, current.id).value));
      forall added, removed ::
        var after := Updated(before, PartOf(LoadDelta(w, m, current, paths, base).value), changed, added, removed);
        && (StoreOf(after) == StoreOf(rebuilt) <==>
              && Replaces(kept.nodes, gone.nodes, read.nodes, OwnedNodes(before.nodes, changed))
              && Replaces(kept.edges, gone.edges, read.edges, OwnedEdges(before, changed))
              && Replaces(kept.unresolved, gone.unresolved, read.unresolved, OwnedUnresolved(before, changed)))
        && (StoreOf(after) == StoreOf(rebuilt) && Coherent(after) ==> Visible(after) == Visible(rebuilt))
  {
    hide LoadDelta, LoadCompact, Situation, SortsByKey, Distinguishes, PartIn, PartOf, Kept, GoneAt, ReadAt, Links;
    hide OwnedNodes, OwnedEdges, OwnedUnresolved, Replaces, RecordWarnings;
    assert SortsByKey(m.sort) by { Sorts(w, m, current, previous, paths, base); }
    DeltaReads(w, m, current, previous, paths, base);
    PreviousReads(w, m, previous, paths);
    var s, changed := w.s, set x | x in paths;
    var kept, gone, read := PartIn(s, m.digest, Kept(w, previous, paths).value), PartIn(s, m.digest, GoneAt(w, previous, paths).value),
                            PartIn(s, m.digest, ReadAt(w, current, paths).value);
    var before := Compiled(Both(kept, gone));
    ReplacesExact(kept.nodes, gone.nodes, read.nodes, OwnedNodes(before.nodes, changed));
    ReplacesExact(kept.edges, gone.edges, read.edges, OwnedEdges(before, changed));
    ReplacesExact(kept.unresolved, gone.unresolved, read.unresolved, OwnedUnresolved(before, changed));
  }

  lemma Sorts(w: World, m: Machinery, current: Metadata, previous: Metadata, paths: seq<Text>, base: set<Identity>)
    requires Situation(w, m, current, previous, paths, base)
    ensures SortsByKey(m.sort)
  {
    hide SortsByKey;
  }

  /** The loads of an update and of a rebuild count the same warnings exactly when the kept records give none. */
  lemma LoadWarnings(w: World, m: Machinery, current: Metadata, previous: Metadata, paths: seq<Text>, base: set<Identity>)
    requires Situation(w, m, current, previous, paths, base)
    ensures Kept(w, previous, paths).Success? && LoadDelta(w, m, current, paths, base).Success?
    ensures LoadDelta(w, m, current, paths, base).value.warnings == LoadCompact(w, m, current.id).value.warnings <==>
            RecordWarnings(w.s, Kept(w, previous, paths).value) == multiset{}
  {
    hide LoadDelta, LoadCompact, Situation, PartIn, PartOf, Kept, ReadAt, RecordWarnings;
    DeltaReads(w, m, current, previous, paths, base);
    var kept, read := RecordWarnings(w.s, Kept(w, previous, paths).value), RecordWarnings(w.s, ReadAt(w, current, paths).value);
    if read == kept + read {
      forall x ensures kept[x] == 0 {
        assert read[x] == (kept + read)[x];
      }
    }
  }

  /** Different warnings are different in the file. */
  ghost predicate Telling(o: Sync.Oracle) {
    forall v, w :: o.render(v) == o.render(w) ==> v == w
  }

  /**
   Of two syncs of one snapshot that succeed, over any two state directories, one by an update and one by a rebuild: the
   generations they leave have the same warnings exactly when the records the update kept give none.
   */
  lemma UpdateWarnings(o: Sync.Oracle, d: Sync.Disk, p: nat, e: Sync.Disk, q: nat, current: Metadata)
    requires Sync.Sound(o) && Telling(o) && Sync.FromLexicon(o, current)
    requires Sync.Consistent(o, Sync.STORES, d) && p !in d.pending && Sync.Consistent(o, Sync.STORES, e) && q !in e.pending
    requires var r := Sync.Synced(o, d, p, Some(current)).1;
      r.Success? && r.value.plan.Incremental? && r.value.rebuilt.None?
    requires var r := Sync.Synced(o, e, q, Some(current)).1;
      r.Success? && r.value.rebuilt.Some?
    ensures var (updated, r) := Sync.Synced(o, d, p, Some(current));
      var rebuilt := Sync.Synced(o, e, q, Some(current)).0;
      var previous, paths := Sync.ReadMetadata(o, r.value.plan.previous), r.value.plan.paths;
      && current.id in updated.snapshots && current.id in rebuilt.snapshots
      && previous.Readable? && Kept(o.world, previous.metadata, paths).Success?
      && (updated.snapshots[current.id].warnings == rebuilt.snapshots[current.id].warnings <==>
            RecordWarnings(o.world.s, Kept(o.world, previous.metadata, paths).value) == multiset{})
  {
    hide Sync.Sound, Sync.Consistent, Sync.FromLexicon, Sync.Synced, Sync.PlanSnapshot, LoadCompact, LoadDelta, Kept, RecordWarnings;
    hide Sync.WriteSnapshot, Sync.ReadMetadata, Syncs, Situation, Sync.Remembers, Sync.UpdateBase;
    Sync.WarningsPublished(o, d, p, current);
    Sync.WarningsPublished(o, e, q, current);
    Sync.RecoveryExact(o, d, p, current);
    Sync.IncrementalSyncs(o, d, current);
    var plan := Sync.Synced(o, d, p, Some(current)).1.value.plan;
    var previous := Sync.ReadMetadata(o, plan.previous).metadata;
    var base := Identities(o.read(d.snapshots[plan.previous].files).nodes);
    LoadedStable(o, current, previous, plan.paths, base);
    LoadWarnings(o.world, o.machinery, current, previous, plan.paths, base);
  }

  // ----- what an update leaves in the store -----

  /**
   After a sync that succeeded by an update, the store of the generation holds an edge exactly when it was read at the
   paths that differ, or was in the previous store and belongs to the file of none of them; likewise references.
   */
  lemma StoreAfterUpdate(o: Sync.Oracle, d: Sync.Disk, p: nat, current: Metadata, control: Text -> bool)
    requires Sync.Sound(o) && Sync.Consistent(o, Sync.STORES, d) && p !in d.pending && Sync.FromLexicon(o, current)
    requires BaseStore.UsesPaths(o.world.s, control) && Sync.FullLoad(o, current.id).Success?
    requires var r := Sync.Synced(o, d, p, Some(current)).1;
      r.Success? && r.value.plan.Incremental? && r.value.rebuilt.None?
    ensures var (after, r) := Sync.Synced(o, d, p, Some(current));
      var plan := r.value.plan;
      && plan.previous in d.snapshots && current.id in after.snapshots && ReadAt(o.world, current, plan.paths).Success?
      && var was, now, read := o.read(d.snapshots[plan.previous].files), o.read(after.snapshots[current.id].files),
                              Incoming(o, current, plan.paths);
         && (forall e :: e in now.edges <==>
               e in read.edges || (e in was.edges && !exists path :: path in Sync.Paths(plan.paths) && EdgeOfFile(was.nodes, e, path)))
         && (forall u :: u in now.unresolved <==>
               || u in read.unresolved
               || (u in was.unresolved && !exists path :: path in Sync.Paths(plan.paths) && ReferenceOfFile(was.nodes, u, path)))
  {
    hide Sync.Sound, Sync.Consistent, Sync.FromLexicon, Sync.Synced, Sync.PlanSnapshot, LoadCompact, Sync.Delta, ReadAt, Incoming, PartOf;
    hide Sync.UpdateBase, Sync.WellKeyed, PlanEdges, Updated, EdgeOfFile, ReferenceOfFile, Sync.UpdateInto, Sync.DriveAmong, OneNodePerKey;
    hide BaseStore.UsesPaths, Sync.ReadMetadata, Sync.DifferingPaths, Coherent;
    Sync.RecoveryExact(o, d, p, current);
    Sync.IncrementalOpens(o, d, current);
    PlannedDelta(o, d, current, control);
    var plan := Sync.Synced(o, d, p, Some(current)).1.value.plan;
    var files := d.snapshots[plan.previous].files;
    assert d.snapshots - {current.id} == d.snapshots;
    assert Sync.WriteSnapshot(o, d.snapshots, current, plan, map[]) == Sync.UpdateInto(o, current, files, plan.paths, map[]);
    Sync.UpdateOpens(o, current, files, plan.paths);
    var read := Incoming(o, current, plan.paths);
    var changes := PlanEdges(o.read(files), read, Sync.Paths(plan.paths));
    UpdatedExact(o.read(files), read, Sync.Paths(plan.paths), changes.added, changes.removed);
  }
}
