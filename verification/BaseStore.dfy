/**
 arcana/src/cli_sync_build.rs: what a load knows of the nodes its snapshot defines, and what a store built
 from it therefore holds. An incremental load resolves references in such a store.
 */
module BaseStore {
  import opened Wrappers
  import opened Lexicon
  import opened Ordering
  import opened Records
  import opened StreamRecords
  import opened SnapshotManifest
  import opened SnapshotLoad
  import opened StagedNodes
  import opened CompactLoad
  import opened DeltaLoad
  import RepositoryPath

  /** A store that holds all these nodes. */
  predicate HoldsNodes(store: set<Identity>, nodes: seq<StagedNode>) {
    forall n :: n in nodes ==> n.identity in store
  }

  // ----- what the passes stage -----

  lemma {:induction false} BatchStaged(w: World, slots: seq<Slot>, slot: Slot, n: NodeRecord)
    requires NodeBatches(w, slots).Success? && slot in slots
    ensures NodeBatch(w, slot).Success?
    ensures n in NodesIn(NodeBatch(w, slot).value.records) ==> n in NodesIn(Flatten(NodeBatches(w, slots).value))
    decreases |slots|
  {
    hide NodeBatch, NodesIn, Flatten;
    var before, last := slots[..|slots| - 1], slots[|slots| - 1];
    assert slots == before + [last];
    FlattenNext(NodeBatches(w, before).value, NodeBatch(w, last).value);
    if slot in before { BatchStaged(w, before, slot, n); }
  }

  lemma RecordedNode(w: World, slot: Slot, id: Identity) returns (n: NodeRecord)
    requires Recorded(w, slot, id) && NodeBatch(w, slot).Success?
    ensures n.id == id && n in NodesIn(NodeBatch(w, slot).value.records)
  {
    ObjectAgrees(w, slot.objectId);
    var all := ReadObject(w, slot.objectId, All).value.0.records;
    NodeMembers(all);
    hide ReadObject, ValidateSlot, NodesIn;
    n :| Node(n) in all && n.id == id;
  }

  /** Every identity an object defines is among the canonical nodes of a pass over it. */
  lemma StagedHolds(w: World, m: Machinery, slots: seq<Slot>, store: set<Identity>)
    requires SortsByKey(m.sort) && StageSlots(w, m.digest, FRESH, slots).Success?
    requires var r := Collapse(m.sort(StageSlots(w, m.digest, FRESH, slots).value.nodes));
      r.Success? && HoldsNodes(store, r.value)
    ensures SlotsHeld(w, slots, store)
  {
    StageSlotsExact(w, m.digest, slots);
    hide StageSlots, NodeBatches, NodeBatch, ReadObject, NodesIn, Flatten, TotalCounts, AllConvertible, CountsFit, AllStaged, StagedOf;
    hide KindWarnings, Recorded, Collapse, SortedByKey, KeysAscend;
    var staged, nodes := StageSlots(w, m.digest, FRESH, slots).value.nodes, NodesIn(Flatten(NodeBatches(w, slots).value));
    assert staged == FRESH.nodes + AllStaged(w.s, m.digest, nodes) == AllStaged(w.s, m.digest, nodes);
    AllStagedMembers(w.s, m.digest, nodes);
    var sorted := m.sort(staged);
    SameMembers(sorted, staged);
    CollapseExact(sorted);
    var kept := Collapse(sorted).value;
    forall slot, id | slot in slots && Recorded(w, slot, id) ensures id in store {
      BatchStaged(w, slots, slot, NodeRecord(None, None, id, [], [], None, [], [], None));
      var n := RecordedNode(w, slot, id);
      BatchStaged(w, slots, slot, n);
      var x := StagedOf(w.s, m.digest, n);
      assert x in sorted && x.identity == id by { StagedAs(w.s, m.digest, n); }
      var i :| 0 <= i < |kept| && kept[i].key == x.key;
      assert kept[i] in kept && kept[i] in sorted;
    }
  }

  lemma StagedAs(s: Schema, digest: seq<byte> -> Text, n: NodeRecord)
    ensures StagedOf(s, digest, n).identity == n.id && StagedOf(s, digest, n).key == s.nodeKey(n.id)
  {
  }

  // ----- what the loads leave -----

  /** A store with the nodes of a full load holds every node of the snapshot. */
  lemma FullHolds(w: World, m: Machinery, id: Text, store: set<Identity>)
    requires SortsByKey(m.sort) && LoadCompact(w, m, id).Success? && HoldsNodes(store, LoadCompact(w, m, id).value.nodes)
    ensures SlotsHeld(w, SlotsOf(w, id), store)
  {
    hide ReadManifest, Slots, StageSlots, Collapse, RelateSlots, SortsByKey, SlotsHeld, HoldsNodes;
    StagedHolds(w, m, SlotsOf(w, id), store);
  }

  /** The object of an entry outside the changed paths is one of the previous snapshot. */
  lemma UnchangedSlot(w: World, current: Metadata, previous: Metadata, paths: set<Text>, c: seq<Slot>, p: seq<Slot>, slot: Slot)
    returns (earlier: Slot)
    requires Lists(w.s, Index(current.files, current.sharedObjects), c)
    requires Lists(w.s, Index(previous.files, previous.sharedObjects), p)
    requires AgreeOutside(current, previous, paths) && slot in c && !Selects(w.s, paths, slot)
    ensures earlier in p && earlier.objectId == slot.objectId
  {
    var e := EntryOf(w.s, slot);
    var i :| 0 <= i < |c| && c[i] == slot;
    assert Holds(Index(current.files, current.sharedObjects), e);
    if e.path.Some? {
      assert Get(current.files, (e.language, e.path.value)) == Get(previous.files, (e.language, e.path.value));
    }
    assert Holds(Index(previous.files, previous.sharedObjects), e);
    assert Listed(w.s, p, e);
    var j :| 0 <= j < |p| && EntryOf(w.s, p[j]) == e;
    earlier := p[j];
  }

  lemma DeltaStaged(w: World, m: Machinery, metadata: Metadata, slots: seq<Slot>, base: set<Identity>, store: set<Identity>)
    requires SortsByKey(m.sort) && DeltaOver(w, m, metadata, slots, base).Success?
    requires HoldsNodes(store, DeltaOver(w, m, metadata, slots, base).value.nodes)
    ensures SlotsHeld(w, slots, store)
  {
    hide StageSlots, Collapse, RelateSlots, SortsByKey, SlotsHeld, HoldsNodes;
    StagedHolds(w, m, slots, store);
  }

  /** A store with the nodes of the previous snapshot and of the delta holds every node of the current one. */
  lemma DeltaHolds(w: World, m: Machinery, current: Metadata, previous: Metadata, paths: seq<Text>, base: set<Identity>,
                   store: set<Identity>)
    requires SortsByKey(m.sort) && Settles(w.s) && Syncs(w, current, previous, paths, base)
    requires LoadDelta(w, m, current, paths, base).Success?
    requires SlotsHeld(w, SlotsOf(w, previous.id), store)
    requires HoldsNodes(store, LoadDelta(w, m, current, paths, base).value.nodes)
    ensures SlotsHeld(w, SlotsOf(w, current.id), store)
  {
    hide ReadManifest, SlotsOf, Lists, Filter, DeltaOver, LoadDelta, Settles, IsMetadata, Stable, Recorded, DiffersAt, AgreeOutside;
    hide SharedObjectsChanged, HoldsNodes, SortsByKey, Selects, Slots;
    DeltaSettles(w, m, current, previous, paths, base);
    DeltaOpens(w, m, current, paths, base);
    MetadataLists(w, current);
    MetadataLists(w, previous);
    ChangedAgree(current, previous, paths);
    var c, p, selected := SlotsOf(w, current.id), SlotsOf(w, previous.id), set x | x in paths;
    var read := Filter(w.s, selected, true, c);
    DeltaStaged(w, m, current, read, base, store);
    FilterMembers(w.s, selected, true, c);
    forall slot, id | slot in c && Recorded(w, slot, id) ensures id in store {
      if !Selects(w.s, selected, slot) {
        var earlier := UnchangedSlot(w, current, previous, selected, c, p, slot);
        assert Recorded(w, earlier, id) by { SameObject(w, slot, earlier, id); }
      } else {
        assert slot in read;
      }
    }
  }

  lemma SameObject(w: World, a: Slot, b: Slot, id: Identity)
    requires a.objectId == b.objectId
    ensures Recorded(w, a, id) <==> Recorded(w, b, id)
  {
    hide ReadObject;
  }

  lemma DeltaSettles(w: World, m: Machinery, current: Metadata, previous: Metadata, paths: seq<Text>, base: set<Identity>)
    requires Settles(w.s) && Syncs(w, current, previous, paths, base)
    requires LoadDelta(w, m, current, paths, base).Success?
    ensures forall p :: p in paths ==> Stable(w.s, p)
  {
    hide ReadManifest, DeltaOver, Filter, Syncs, Slots, Settles;
    NormalizeAllExact(w.s, paths);
    hide NormalizeAll;
    ChangedSettle(w, current, previous, paths, base);
  }

  // ----- keys and identities -----

  /** Some object defines a node of this identity. */
  ghost predicate RecordedSomewhere(w: World, id: Identity) {
    exists slot :: Recorded(w, slot, id)
  }

  /** No two identities that Lexicon's objects define have the same key. */
  ghost predicate KeysTellApart(w: World) {
    forall x, y :: RecordedSomewhere(w, x) && RecordedSomewhere(w, y) && w.s.nodeKey(x) == w.s.nodeKey(y) ==> x == y
  }

  lemma {:induction false} BatchOrigin(w: World, slots: seq<Slot>, n: NodeRecord) returns (slot: Slot)
    requires NodeBatches(w, slots).Success? && n in NodesIn(Flatten(NodeBatches(w, slots).value))
    ensures slot in slots && NodeBatch(w, slot).Success? && n in NodesIn(NodeBatch(w, slot).value.records)
    decreases |slots|
  {
    hide NodeBatch, NodesIn, Flatten;
    NothingFlat();
    assert slots != [];
    var before, last := slots[..|slots| - 1], slots[|slots| - 1];
    assert slots == before + [last];
    FlattenNext(NodeBatches(w, before).value, NodeBatch(w, last).value);
    if n in NodesIn(NodeBatch(w, last).value.records) {
      slot := last;
    } else {
      slot := BatchOrigin(w, before, n);
    }
  }

  lemma NothingFlat()
    ensures NodesIn(Flatten([])) == []
  {
  }

  lemma BatchRecorded(w: World, slot: Slot, n: NodeRecord)
    requires NodeBatch(w, slot).Success? && n in NodesIn(NodeBatch(w, slot).value.records)
    requires Readable(w, Relations, slot)
    ensures Recorded(w, slot, n.id)
  {
    ObjectAgrees(w, slot.objectId);
    var all := ReadObject(w, slot.objectId, All).value.0.records;
    NodeMembers(all);
    hide ReadObject, ValidateSlot, NodesIn;
    assert Node(n) in all;
  }

  /** The nodes that the passes of a load leave are recorded ones, under the keys of their identities. */
  lemma StagedRecorded(w: World, m: Machinery, slots: seq<Slot>, resolve: Resolver, n: StagedNode)
    requires SortsByKey(m.sort) && StageSlots(w, m.digest, FRESH, slots).Success?
    requires Collapse(m.sort(StageSlots(w, m.digest, FRESH, slots).value.nodes)).Success?
    requires var staged := StageSlots(w, m.digest, FRESH, slots).value;
      var nodes := Collapse(m.sort(staged.nodes)).value;
      RelateSlots(w, resolve, staged.(nodes := nodes), slots).Success? && n in nodes
    ensures RecordedSomewhere(w, n.identity) && n.key == w.s.nodeKey(n.identity)
    ensures KeysAscend(Collapse(m.sort(StageSlots(w, m.digest, FRESH, slots).value.nodes)).value)
  {
    hide StageSlots, NodeBatches, NodeBatch, ReadObject, NodesIn, Flatten, AllConvertible, AllStaged, StagedOf, RelateSlots;
    hide KindWarnings, Recorded, Collapse, SortedByKey, KeysAscend, RecordsOf, Convert, Took, TotalCounts;
    StageSlotsExact(w, m.digest, slots);
    var staged := StageSlots(w, m.digest, FRESH, slots).value;
    var records := NodesIn(Flatten(NodeBatches(w, slots).value));
    assert staged.nodes == FRESH.nodes + AllStaged(w.s, m.digest, records) == AllStaged(w.s, m.digest, records);
    AllStagedMembers(w.s, m.digest, records);
    var sorted := m.sort(staged.nodes);
    SameMembers(sorted, staged.nodes);
    CollapseExact(sorted);
    RelationsRead(w, resolve, staged.(nodes := Collapse(sorted).value), slots);
    assert n in staged.nodes;
    var r :| r in records && n == StagedOf(w.s, m.digest, r);
    var slot := BatchOrigin(w, slots, r);
    RecordsOfExact(w, slots, Relations);
    var i :| 0 <= i < |slots| && slots[i] == slot;
    assert Readable(w, Relations, slots[i]);
    BatchRecorded(w, slot, r);
    StagedAs(w.s, m.digest, r);
  }

  /** The relation pass reads the relations of every object. */
  lemma RelationsRead(w: World, resolve: Resolver, p: Pass, slots: seq<Slot>)
    requires NodeBatches(w, slots).Success? && CountsFit(NodeBatches(w, slots).value)
    requires p.planned == TotalCounts(NodeBatches(w, slots).value) && p.related == RecordCounts(0, 0, 0)
    requires RelateSlots(w, resolve, p, slots).Success?
    ensures RecordsOf(w, slots, Relations).Success?
  {
    hide NodeBatches, RelateSlots, RecordsOf, TotalCounts, Convert, Took;
    RelateSlotsExact(w, resolve, p, slots);
  }

  lemma FullRecorded(w: World, m: Machinery, id: Text, n: StagedNode)
    requires SortsByKey(m.sort) && LoadCompact(w, m, id).Success? && n in LoadCompact(w, m, id).value.nodes
    ensures RecordedSomewhere(w, n.identity) && n.key == w.s.nodeKey(n.identity)
  {
    hide ReadManifest, Slots, StageSlots, Collapse, RelateSlots, SortsByKey, RecordedSomewhere, ResolveIn, KeysAscend;
    var slots := SlotsOf(w, id);
    var nodes := Collapse(m.sort(StageSlots(w, m.digest, FRESH, slots).value.nodes)).value;
    StagedRecorded(w, m, slots, ResolveIn(w.s, nodes), n);
  }

  lemma DeltaRecorded(w: World, m: Machinery, current: Metadata, paths: seq<Text>, base: set<Identity>)
    requires SortsByKey(m.sort) && LoadDelta(w, m, current, paths, base).Success?
    ensures var nodes := LoadDelta(w, m, current, paths, base).value.nodes;
      KeysAscend(nodes)
      && forall n :: n in nodes ==> RecordedSomewhere(w, n.identity) && n.key == w.s.nodeKey(n.identity)
  {
    hide ReadManifest, Slots, StageSlots, Collapse, RelateSlots, SortsByKey, RecordedSomewhere, ResolveWithBase, Filter, NormalizeAll;
    hide KeysAscend;
    var delta := LoadDelta(w, m, current, paths, base).value;
    var selected := NormalizeAll(w.s, paths).value;
    var slots := Filter(w.s, selected, true, SlotsOf(w, current.id));
    var nodes := Collapse(m.sort(StageSlots(w, m.digest, FRESH, slots).value.nodes)).value;
    assert delta.nodes == nodes;
    forall n | n in nodes ensures RecordedSomewhere(w, n.identity) && n.key == w.s.nodeKey(n.identity) && KeysAscend(nodes) {
      StagedRecorded(w, m, slots, ResolveWithBase(w.s, nodes, base), n);
    }
    if nodes == [] { NoneAscend(); } else { assert nodes[0] in nodes; }
  }

  lemma NoneAscend()
    ensures KeysAscend([])
  {
  }

  // ----- when an incremental load fails -----

  /** The schema normalises paths as the repository does. */
  ghost predicate UsesPaths(s: Schema, control: Text -> bool) {
    forall p :: s.normalize(p) ==
                match RepositoryPath.Normalize(control, p) case Success(q) => Some(q) case Failure(_) => None
  }

  /**
   When the current snapshot can be loaded in full and the shared objects are equal, the incremental load
   fails exactly when some path whose objects differ begins with a drive prefix.
   */
  lemma DriveExact(w: World, m: Machinery, current: Metadata, previous: Metadata, paths: seq<Text>, base: set<Identity>,
                   control: Text -> bool)
    requires SortsByKey(m.sort) && Distinguishes(w, m, current.id) && UsesPaths(w.s, control)
    requires LoadCompact(w, m, current.id).Success?
    requires Syncs(w, current, previous, paths, base)
    ensures LoadDelta(w, m, current, paths, base).Success? <==> forall p :: p in paths ==> !RepositoryPath.HasDrivePrefix(p)
  {
    hide LoadCompact, LoadDelta, SortsByKey, Distinguishes, Kept, Completes, RepositoryPath.Normalize;
    PathsSettle(w.s, control);
    DeltaExact(w, m, current, previous, paths, base);
    hide RepositoryPath.HasDrivePrefix;
    forall p | p in paths ensures Stable(w.s, p) <==> !RepositoryPath.HasDrivePrefix(p) {
      ChangedNormal(w, current, previous, paths, base, p);
      var q :| w.s.normalize(q) == Some(p);
      assert w.s.normalize(q).value == p;
    }
  }

  lemma ChangedNormal(w: World, current: Metadata, previous: Metadata, paths: seq<Text>, base: set<Identity>, p: Text)
    requires Syncs(w, current, previous, paths, base) && p in paths
    ensures InNormalForm(w.s, p)
  {
    hide IndexTo, Slots, SlotsOf, RecordsOf, StrictlySorted, SlotsHeld;
    IndexInNormalForm(w.s, w.store.manifest(current.id).value.languages, |w.store.manifest(current.id).value.languages|);
    IndexInNormalForm(w.s, w.store.manifest(previous.id).value.languages, |w.store.manifest(previous.id).value.languages|);
    hide InNormalForm;
    var language :| Get(current.files, (language, p)) != Get(previous.files, (language, p));
    assert (language, p) in current.files || (language, p) in previous.files;
  }

  /** A drive prefix is refused, whatever else holds. */
  lemma DriveFails(w: World, m: Machinery, current: Metadata, paths: seq<Text>, base: set<Identity>, control: Text -> bool, p: Text)
    requires UsesPaths(w.s, control) && p in paths && RepositoryPath.HasDrivePrefix(p)
    ensures LoadDelta(w, m, current, paths, base).Failure?
  {
    hide ReadManifest, DeltaOver, Filter, RepositoryPath.Keep;
    assert RepositoryPath.HasDrivePrefix(RepositoryPath.Slashed(p));
    assert w.s.normalize(p).None?;
    NormalizeAllExact(w.s, paths);
  }
}
