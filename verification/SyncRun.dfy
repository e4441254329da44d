/**
 arcana/src/cli_sync.rs, cli_sync_build.rs and cli_sync_state.rs: the sync itself, changing the state
 directory step by step under the lock.

 `RunSync` is proved to leave what `SyncPlan.Synced` says, so the recovery results there are about it. Every
 change of the disk is recorded as a step of `SyncProtocol`, and the recorded steps are proved to be a run
 that leads to the disk as it is: what holds of every run holds of a sync wherever it is stopped. Removals
 succeed here; a process that stops half-way through one is a step of `SyncProtocol`.
 */
module SyncRun {
  import opened Wrappers
  import opened Lexicon
  import opened Ordering
  import opened SnapshotManifest
  import opened DeltaLoad
  import opened SyncPlan
  import opened SyncRefinement
  import opened StoreContents
  import SyncProtocol
  import CompactLoad

  type Phase = SyncProtocol.Phase
  type Action = SyncProtocol.Action
  type Trace = SyncProtocol.Trace

  // ----- changed paths -----

  method MergePaths(current: FileIndex, previous: FileIndex) returns (paths: seq<Text>)
    ensures paths == DifferingPaths(current, previous)
  {
    var changes := ChangedPaths(current, previous);
    var all := changes.added + changes.changed + changes.removed;
    paths := Dedup(Sort(TextLe, all));
    TextTotal();
    SortDedupCanonical(TextLe, all, all);
    PathsDiffer(current, previous);
    forall p ensures p in paths <==> p in DifferingPaths(current, previous) {
      ChangesCover(current, previous, changes, p);
    }
    StrictUnique(TextLe, paths, DifferingPaths(current, previous));
  }

  // ----- the state directory -----

  class StateDirectory {
    var snapshots: map<Text, Generation>
    var temps: map<(Text, nat), Generation>
    var current: Option<Text>
    var pending: map<nat, Text>
    var locked: bool

    /** The disk when the sync took the lock, its steps since, and the numbers of steps before each rebuild it began. */
    ghost var start: Disk
    ghost var trace: Trace
    ghost var begun: seq<nat>

    /** Whether the writers and loaders keep their contracts and the sync started from a consistent disk. */
    ghost var lawful: bool

    /** What is trusted of the generations in place and of the one that is written. */
    ghost var trust: Trust

    function State(): Disk
      reads this
    {
      Disk(snapshots, temps, current, pending)
    }

    constructor ()
      ensures State() == Disk(map[], map[], None, map[]) && !locked
    {
      snapshots, temps, current, pending, locked := map[], map[], None, map[], false;
    }

    /** `try_lock_exclusive`. */
    method Acquire() returns (r: Result<(), SyncError>)
      modifies this`locked
      ensures r.Success? <==> !old(locked)
      ensures r.Failure? ==> r.error == Busy
      ensures locked
    {
      if locked { return Failure(Busy); }
      locked := true;
      return Success(());
    }

    method Release()
      modifies this`locked
      ensures !locked
    {
      locked := false;
    }

    // ----- the record of steps -----

    /** The recorded steps lead to this disk. */
    ghost predicate At(o: Oracle, p: nat, phase: Phase)
      reads this
    {
      Follows(lawful, o, trust, start, trace, State(), p, phase)
    }

    /** The recorded steps lead to this disk, the process being in some phase past the lock. */
    ghost predicate Alive(o: Oracle, p: nat)
      reads this
    {
      exists phase :: At(o, p, phase)
    }

    ghost predicate Assumes(o: Oracle, metadata: Metadata)
      reads this
    {
      lawful ==> Sound(o) && Consistent(o, STORES, start) && FromLexicon(o, metadata)
    }

    /** Records a step from a disk to the present one. */
    ghost method Record(o: Oracle, before: Disk, p: nat, phase: Phase, a: Action, next: Phase)
      requires Follows(lawful, o, trust, start, trace, before, p, phase)
      requires lawful ==> Takes(o, before, p, phase, a, State(), next) && Finishing(o, trust, before, p, phase, a)
      modifies this`trace
      ensures trace == old(trace) + [(p, a)] && At(o, p, next)
    {
      hide Follows, Takes, Finishing;
      FollowsNext(lawful, o, trust, start, trace, before, p, phase, a, State(), next);
      trace := trace + [(p, a)];
    }

    ghost method Begin(o: Oracle, p: nat, lexicon: Option<Metadata>)
      modifies this`start, this`trace, this`begun, this`lawful, this`trust
      ensures start == State() && begun == [] && At(o, p, SyncProtocol.Locked)
      ensures lawful <==> Lawful(o, State(), lexicon)
      ensures trust == TrustOf(o, State(), lexicon)
    {
      hide SyncProtocol.Run, SyncProtocol.Trusted, Lawful, TrustOf;
      start, begun := State(), [];
      lawful, trust := Lawful(o, State(), lexicon), TrustOf(o, State(), lexicon);
      trace := [(p, SyncProtocol.Start), (p, SyncProtocol.Acquire)];
      Enters(o, trust, start, p);
    }

    ghost method End(o: Oracle, p: nat)
      requires Alive(o, p)
      modifies this`trace
      ensures lawful ==>
                SyncProtocol.Run(o, Quiet(start), trace) == Some(Quiet(State())) && SyncProtocol.Trusted(o, trust, Quiet(start), trace)
    {
      hide SyncProtocol.Run, SyncProtocol.Trusted;
      var phase :| At(o, p, phase);
      if lawful { Exits(o, trust, start, trace, State(), p, phase); }
      trace := trace + [(p, SyncProtocol.Exit)];
    }

    ghost method ReadsLexicon(o: Oracle, p: nat, id: Text)
      requires At(o, p, SyncProtocol.Locked) && ValidId(id)
      modifies this`trace
      ensures At(o, p, SyncProtocol.Reading(id))
    {
      hide Follows, ValidId;
      MoveOnly(State(), p, SyncProtocol.Locked, State(), SyncProtocol.Reading(id));
      Record(o, State(), p, SyncProtocol.Locked, SyncProtocol.ReadLexicon(id), SyncProtocol.Reading(id));
    }

    ghost method KeepsOutput(o: Oracle, p: nat, id: Text)
      requires At(o, p, SyncProtocol.Reading(id))
      requires lawful ==> Standing(o, State(), id)
      modifies this`trace
      ensures At(o, p, SyncProtocol.InPlace(id))
    {
      hide Follows, Complete;
      MoveOnly(State(), p, SyncProtocol.Reading(id), State(), SyncProtocol.InPlace(id));
      Record(o, State(), p, SyncProtocol.Reading(id), SyncProtocol.Keep, SyncProtocol.InPlace(id));
    }

    ghost method FinishesFiles(o: Oracle, p: nat, id: Text)
      requires At(o, p, SyncProtocol.Filling(id)) && (id, p) in temps
      requires lawful ==> SyncProtocol.Finishes(o, trust, id, temps[(id, p)].files)
      modifies this`trace
      ensures At(o, p, SyncProtocol.Filled(id))
    {
      hide Follows, SyncProtocol.Finishes;
      MoveOnly(State(), p, SyncProtocol.Filling(id), State(), SyncProtocol.Filled(id));
      Record(o, State(), p, SyncProtocol.Filling(id), SyncProtocol.FinishFiles, SyncProtocol.Filled(id));
    }

    // ----- the steps that change the disk -----

    /** Makes room for the output, and removes a directory that is in the way. */
    method ClearOutput(o: Oracle, p: nat, id: Text)
      requires At(o, p, SyncProtocol.Reading(id))
      requires lawful && id in snapshots ==> !Complete(o, snapshots[id], id)
      modifies this`snapshots, this`trace
      ensures snapshots == old(snapshots) - {id} && At(o, p, SyncProtocol.RemovingTemp(id))
    {
      hide Follows, Complete, Takes;
      if id in snapshots {
        ChoosesReplace(o, p, id);
        RemoveOutput(o, p, id);
      } else {
        ChoosesBuild(o, p, id);
      }
    }

    ghost method ChoosesReplace(o: Oracle, p: nat, id: Text)
      requires At(o, p, SyncProtocol.Reading(id)) && id in snapshots && (lawful ==> !Complete(o, snapshots[id], id))
      modifies this`trace
      ensures At(o, p, SyncProtocol.RemovingOutput(id))
    {
      hide Follows, Complete;
      MoveOnly(State(), p, SyncProtocol.Reading(id), State(), SyncProtocol.RemovingOutput(id));
      Record(o, State(), p, SyncProtocol.Reading(id), SyncProtocol.Replace, SyncProtocol.RemovingOutput(id));
    }

    ghost method ChoosesBuild(o: Oracle, p: nat, id: Text)
      requires At(o, p, SyncProtocol.Reading(id)) && id !in snapshots
      modifies this`trace
      ensures At(o, p, SyncProtocol.RemovingTemp(id))
    {
      hide Follows, Complete;
      MoveOnly(State(), p, SyncProtocol.Reading(id), State(), SyncProtocol.RemovingTemp(id));
      Record(o, State(), p, SyncProtocol.Reading(id), SyncProtocol.Build, SyncProtocol.RemovingTemp(id));
    }

    method RemoveOutput(o: Oracle, p: nat, id: Text)
      requires At(o, p, SyncProtocol.RemovingOutput(id))
      modifies this`snapshots, this`trace
      ensures snapshots == old(snapshots) - {id} && At(o, p, SyncProtocol.RemovingTemp(id))
    {
      hide Follows;
      ghost var before := State();
      snapshots := snapshots - {id};
      MoveOnly(before, p, SyncProtocol.RemovingOutput(id), State(), SyncProtocol.RemovingTemp(id));
      Record(o, before, p, SyncProtocol.RemovingOutput(id), SyncProtocol.RemoveOutput, SyncProtocol.RemovingTemp(id));
    }

    method RemoveTemp(o: Oracle, p: nat, id: Text, ghost phase: Phase)
      requires At(o, p, phase) && phase in {SyncProtocol.RemovingTemp(id), SyncProtocol.Discarding(id)}
      modifies this`temps, this`trace
      ensures temps == old(temps) - {(id, p)} && At(o, p, phase)
    {
      hide Follows;
      ghost var before := State();
      if (id, p) in temps {
        temps := temps - {(id, p)};
        MoveOnly(before, p, phase, State(), phase);
        Record(o, before, p, phase, SyncProtocol.RemoveTemp, phase);
      }
    }

    method CreateTemp(o: Oracle, p: nat, id: Text)
      requires (id, p) !in temps && At(o, p, SyncProtocol.RemovingTemp(id))
      modifies this`temps, this`trace
      ensures temps == old(temps)[(id, p) := EMPTY] && At(o, p, SyncProtocol.Filling(id))
    {
      hide Follows;
      ghost var before := State();
      temps := temps[(id, p) := EMPTY];
      MoveOnly(before, p, SyncProtocol.RemovingTemp(id), State(), SyncProtocol.Filling(id));
      Record(o, before, p, SyncProtocol.RemovingTemp(id), SyncProtocol.CreateTemp, SyncProtocol.Filling(id));
    }

    method DiscardTemp(o: Oracle, p: nat, id: Text)
      requires At(o, p, SyncProtocol.Filling(id))
      modifies this`temps, this`trace
      ensures temps == old(temps) - {(id, p)} && At(o, p, SyncProtocol.Discarding(id))
    {
      hide Follows;
      MoveOnly(State(), p, SyncProtocol.Filling(id), State(), SyncProtocol.Discarding(id));
      Record(o, State(), p, SyncProtocol.Filling(id), SyncProtocol.Abandon, SyncProtocol.Discarding(id));
      RemoveTemp(o, p, id, SyncProtocol.Discarding(id));
    }

    /** Adds files to the directory that is being built. */
    method WriteFiles(o: Oracle, p: nat, id: Text, files: RepositoryFiles)
      requires (id, p) in temps && At(o, p, SyncProtocol.Filling(id))
      modifies this`temps, this`trace
      ensures temps == old(temps)[(id, p) := old(temps)[(id, p)].(files := old(temps)[(id, p)].files + files)]
      ensures trace == old(trace) + [(p, SyncProtocol.WriteFiles(files))] && At(o, p, SyncProtocol.Filling(id))
    {
      hide Follows;
      ghost var before := State();
      temps := temps[(id, p) := temps[(id, p)].(files := temps[(id, p)].files + files)];
      MoveOnly(before, p, SyncProtocol.Filling(id), State(), SyncProtocol.Filling(id));
      Record(o, before, p, SyncProtocol.Filling(id), SyncProtocol.WriteFiles(files), SyncProtocol.Filling(id));
    }

    method WriteMarker(o: Oracle, p: nat, id: Text)
      requires (id, p) in temps && At(o, p, SyncProtocol.Filled(id))
      modifies this`temps, this`trace
      ensures temps == old(temps)[(id, p) := old(temps)[(id, p)].(marker := Some(id))] && At(o, p, SyncProtocol.Marked(id))
    {
      hide Follows;
      ghost var before := State();
      temps := temps[(id, p) := temps[(id, p)].(marker := Some(id))];
      MoveOnly(before, p, SyncProtocol.Filled(id), State(), SyncProtocol.Marked(id));
      Record(o, before, p, SyncProtocol.Filled(id), SyncProtocol.FinishMarker, SyncProtocol.Marked(id));
    }

    method WriteWarnings(o: Oracle, p: nat, id: Text, text: Text)
      requires (id, p) in temps && At(o, p, SyncProtocol.Marked(id))
      modifies this`temps, this`trace
      ensures temps == old(temps)[(id, p) := old(temps)[(id, p)].(warnings := Some(text))] && At(o, p, SyncProtocol.Marked(id))
    {
      hide Follows;
      ghost var before := State();
      temps := temps[(id, p) := temps[(id, p)].(warnings := Some(text))];
      MoveOnly(before, p, SyncProtocol.Marked(id), State(), SyncProtocol.Marked(id));
      Record(o, before, p, SyncProtocol.Marked(id), SyncProtocol.WriteWarnings(text), SyncProtocol.Marked(id));
    }

    method RenameTemp(o: Oracle, p: nat, id: Text)
      requires (id, p) in temps && id !in snapshots && At(o, p, SyncProtocol.Marked(id))
      modifies this`temps, this`snapshots, this`trace
      ensures snapshots == old(snapshots)[id := old(temps)[(id, p)]] && temps == old(temps) - {(id, p)}
      ensures At(o, p, SyncProtocol.InPlace(id))
    {
      hide Follows;
      ghost var before := State();
      snapshots, temps := snapshots[id := temps[(id, p)]], temps - {(id, p)};
      MoveOnly(before, p, SyncProtocol.Marked(id), State(), SyncProtocol.InPlace(id));
      Record(o, before, p, SyncProtocol.Marked(id), SyncProtocol.Rename, SyncProtocol.InPlace(id));
    }

    method CreatePending(o: Oracle, p: nat, id: Text)
      requires p !in pending && At(o, p, SyncProtocol.InPlace(id))
      modifies this`pending, this`trace
      ensures pending == old(pending)[p := []] && At(o, p, SyncProtocol.Staging(id))
    {
      hide Follows;
      ghost var before := State();
      pending := pending[p := []];
      MoveOnly(before, p, SyncProtocol.InPlace(id), State(), SyncProtocol.Staging(id));
      Record(o, before, p, SyncProtocol.InPlace(id), SyncProtocol.Stage, SyncProtocol.Staging(id));
    }

    method WritePending(o: Oracle, p: nat, id: Text)
      requires At(o, p, SyncProtocol.Staging(id))
      modifies this`pending, this`trace
      ensures pending == old(pending)[p := id] && At(o, p, SyncProtocol.Staged(id))
    {
      hide Follows;
      ghost var before := State();
      pending := pending[p := id];
      MoveOnly(before, p, SyncProtocol.Staging(id), State(), SyncProtocol.Staged(id));
      Record(o, before, p, SyncProtocol.Staging(id), SyncProtocol.FinishPending, SyncProtocol.Staged(id));
    }

    /** `replace_atomic`. */
    method ReplaceCurrent(o: Oracle, p: nat, id: Text)
      requires p in pending && At(o, p, SyncProtocol.Staged(id))
      modifies this`pending, this`current, this`trace
      ensures current == Some(old(pending)[p]) && pending == old(pending) - {p} && At(o, p, SyncProtocol.Finished)
    {
      hide Follows;
      ghost var before := State();
      current, pending := Some(pending[p]), pending - {p};
      MoveOnly(before, p, SyncProtocol.Staged(id), State(), SyncProtocol.Finished);
      Record(o, before, p, SyncProtocol.Staged(id), SyncProtocol.ReplaceCurrent, SyncProtocol.Finished);
    }

    method DropPending(o: Oracle, p: nat, id: Text)
      requires p in pending && At(o, p, SyncProtocol.InPlace(id))
      modifies this`pending, this`trace
      ensures pending == old(pending) - {p} && At(o, p, SyncProtocol.Finished)
    {
      hide Follows;
      ghost var before := State();
      pending := pending - {p};
      MoveOnly(before, p, SyncProtocol.InPlace(id), State(), SyncProtocol.Finished);
      Record(o, before, p, SyncProtocol.InPlace(id), SyncProtocol.StageTaken, SyncProtocol.Finished);
    }

    // ----- planning -----

    method PlanFrom(o: Oracle, id: Text, metadata: Metadata) returns (r: Result<Plan, SyncError>)
      ensures r == PlanFromPrevious(o, State(), id, metadata)
    {
      hide DifferingPaths, ReadMetadata;
      if !ValidId(id) { return Failure(InvalidState); }
      if id !in snapshots || MANIFEST_FILE !in snapshots[id].files {
        return Success(Rebuild(NoUsablePreviousGeneration));
      }
      var read := ReadMetadata(o, id);
      match read {
        case Broken => return Failure(Io);
        case Unavailable => return Success(Rebuild(PreviousLexiconMetadataUnavailable));
        case Readable(earlier) =>
          if SharedObjectsChanged(metadata, earlier) { return Success(Rebuild(SharedObjectsDiffer)); }
          var paths := MergePaths(metadata.files, earlier.files);
          if paths == [] { return Success(Rebuild(NoChangedPaths)); }
          return PlanUpdate(o, snapshots[id].files, id, paths);
      }
    }

    method Plan(o: Oracle, previous: Option<Text>, metadata: Metadata) returns (r: Result<Plan, SyncError>)
      ensures r == PlanSnapshot(o, State(), previous, metadata)
    {
      hide PlanFromPrevious;
      if metadata.id in snapshots {
        return PlanExistingOutput(o, snapshots[metadata.id], metadata.id);
      }
      if previous.None? { return Success(Rebuild(NoPreviousGeneration)); }
      if previous.value == metadata.id { return Success(Rebuild(NoUsablePreviousGeneration)); }
      r := PlanFrom(o, previous.value, metadata);
    }

    // ----- writing -----

    /** The directory holds these files, no other was touched, and no step was taken but writing files into it. */
    ghost predicate Grown(key: (Text, nat), before: map<(Text, nat), Generation>, steps: Trace, files: RepositoryFiles)
      reads this
    {
      && key in before
      && temps == before[key := before[key].(files := files)]
      && steps <= trace
      && (forall i :: |steps| <= i < |trace| ==> trace[i].0 == key.1 && trace[i].1.WriteFiles?)
    }

    /** Holds when a writer has done nothing else, and left in the directory what it reports. */
    ghost predicate Holds(key: (Text, nat), before: map<(Text, nat), Generation>, steps: Trace, r: Result<Written, SyncError>)
      reads this
    {
      (exists files :: Grown(key, before, steps, files)) && (r.Success? ==> Grown(key, before, steps, r.value.files))
    }

    /** One more write. */
    method AddFiles(o: Oracle, key: (Text, nat), files: RepositoryFiles, ghost before: map<(Text, nat), Generation>,
                    ghost steps: Trace, ghost have: RepositoryFiles)
      requires Grown(key, before, steps, have) && At(o, key.1, SyncProtocol.Filling(key.0))
      modifies this`temps, this`trace
      ensures Grown(key, before, steps, have + files) && At(o, key.1, SyncProtocol.Filling(key.0))
      ensures |trace| == |old(trace)| + 1
    {
      hide Follows;
      WriteFiles(o, key.1, key.0, files);
    }

    /** `rebuild_snapshot`; the record says after how many steps it began. */
    method WriteRebuild(o: Oracle, key: (Text, nat), metadata: Metadata, reason: RebuildReason)
      returns (r: Result<Written, SyncError>)
      requires key in temps && At(o, key.1, SyncProtocol.Filling(key.0))
      modifies this`temps, this`trace, this`begun
      ensures r == RebuildInto(o, metadata, old(temps)[key].files, reason)
      ensures Holds(key, old(temps), old(trace), r) && At(o, key.1, SyncProtocol.Filling(key.0))
      ensures begun == old(begun) + [|old(trace)|]
    {
      hide Follows, FullLoad, Grown;
      begun := begun + [|trace|];
      ghost var before, steps, into := temps, trace, temps[key].files;
      assert Grown(key, before, steps, into) by { StartsGrown(key); }
      var loaded := FullLoad(o, metadata.id);
      if loaded.Failure? { return Failure(LoadFailed); }
      var files := o.compile(loaded.value);
      if files.None? { return Failure(WriteFailed); }
      AddFiles(o, key, files.value, before, steps, into);
      HasFiles(key, before, steps, into + files.value);
      return Success(Written(temps[key].files, o.render(loaded.value.warnings), Some(reason)));
    }

    /** The three writes of an update. Once the first is made, a failure ends the update: no rebuild begins. */
    method WriteOverlay(o: Oracle, key: (Text, nat), metadata: Metadata, base: RepositoryFiles, delta: CompactLoad.Compact,
                        paths: seq<Text>, added: set<Link>, removed: set<Link>)
      returns (r: Result<Written, SyncError>)
      requires key in temps && At(o, key.1, SyncProtocol.Filling(key.0))
      modifies this`temps, this`trace
      ensures r == OverlayInto(o, metadata, base, delta, paths, added, removed, old(temps)[key].files)
      ensures Holds(key, old(temps), old(trace), r) && At(o, key.1, SyncProtocol.Filling(key.0))
      ensures r.Success? ==> r.value.rebuilt.None? && |trace| == |old(trace)| + 3
    {
      hide Follows, Grown, RewriteAccepts, GraphAccepts;
      ghost var before, steps, into := temps, trace, temps[key].files;
      assert Grown(key, before, steps, into) by { StartsGrown(key); }
      if !RewriteAccepts(o.read(base), PartOf(delta), Paths(paths)) { return Failure(UpdateFailed); }
      var store := o.rewrite(base, delta, paths);
      if store.None? { return Failure(WriteFailed); }
      AddFiles(o, key, map[STORE_FILE := store.value], before, steps, into);
      assert into + map[STORE_FILE := store.value] == into[STORE_FILE := store.value];
      if !GraphAccepts(o.read(base), added, removed) { return Failure(UpdateFailed); }
      var graph := o.graph(base, delta, paths);
      if graph.None? { return Failure(WriteFailed); }
      AddFiles(o, key, graph.value, before, steps, into[STORE_FILE := store.value]);
      HasFiles(key, before, steps, into[STORE_FILE := store.value] + graph.value);
      var manifest := o.publish(metadata, temps[key].files);
      if manifest.None? { return Failure(WriteFailed); }
      AddFiles(o, key, manifest.value, before, steps, temps[key].files);
      HasFiles(key, before, steps, into[STORE_FILE := store.value] + graph.value + manifest.value);
      return Success(Written(temps[key].files, o.render(delta.warnings), None));
    }

    lemma StartsGrown(key: (Text, nat))
      requires key in temps
      ensures Grown(key, temps, trace, temps[key].files)
    {
    }

    lemma HasFiles(key: (Text, nat), before: map<(Text, nat), Generation>, steps: Trace, files: RepositoryFiles)
      requires Grown(key, before, steps, files)
      ensures key in temps && temps[key].files == files
    {
    }

    /**
     `write_incremental_snapshot`. At most one rebuild begins, and none after a write: the steps before it are
     those on entry. The result is a rebuild exactly when one has begun and succeeded; so an update that has
     written and begun none ends as an overlay or in an error.
     */
    method WriteUpdate(o: Oracle, key: (Text, nat), metadata: Metadata, base: RepositoryFiles, paths: seq<Text>)
      returns (r: Result<Written, SyncError>)
      requires key in temps && At(o, key.1, SyncProtocol.Filling(key.0))
      modifies this`temps, this`trace, this`begun
      ensures r == UpdateInto(o, metadata, base, paths, old(temps)[key].files)
      ensures Holds(key, old(temps), old(trace), r) && At(o, key.1, SyncProtocol.Filling(key.0))
      ensures begun == old(begun) || begun == old(begun) + [|old(trace)|]
      ensures r.Success? ==> (r.value.rebuilt.Some? <==> begun == old(begun) + [|old(trace)|])
    {
      hide RebuildInto, OverlayInto, Delta, PlanEdges, Follows, Grown;
      assert Grown(key, temps, trace, temps[key].files) by { StartsGrown(key); }
      if !o.openBase(base).Opened? {
        var reason :- Classify(o.openBase(base), false);
        r := WriteRebuild(o, key, metadata, reason);
        RebuildReported(o, metadata, old(temps)[key].files, reason);
        return;
      }
      if !o.openStore(base).Opened? {
        var reason :- Classify(o.openStore(base), false);
        r := WriteRebuild(o, key, metadata, reason);
        RebuildReported(o, metadata, old(temps)[key].files, reason);
        return;
      }
      var delta := Delta(o, metadata, base, paths);
      if delta.Failure? { return Failure(LoadFailed); }
      var browsing := o.browse(base, paths);
      if browsing.Corrupt? {
        r := WriteRebuild(o, key, metadata, PreviousGenerationInvalid);
        RebuildReported(o, metadata, old(temps)[key].files, PreviousGenerationInvalid);
        return;
      }
      if browsing.Unreadable? { return Failure(UpdateFailed); }
      match PlanEdges(o.read(base), PartOf(delta.value), Paths(paths)) {
        case NodeSetChanged =>
          r := WriteRebuild(o, key, metadata, ChangedNodeSet);
          RebuildReported(o, metadata, old(temps)[key].files, ChangedNodeSet);
        case MissingEndpoint => r := Failure(UpdateFailed);
        case Changes(added, removed) => r := WriteOverlay(o, key, metadata, base, delta.value, paths, added, removed);
      }
    }

    method Write(o: Oracle, key: (Text, nat), metadata: Metadata, plan: Plan) returns (r: Result<Written, SyncError>)
      requires key in temps && At(o, key.1, SyncProtocol.Filling(key.0))
      modifies this`temps, this`trace, this`begun
      ensures r == WriteSnapshot(o, snapshots, metadata, plan, old(temps)[key].files)
      ensures Holds(key, old(temps), old(trace), r) && At(o, key.1, SyncProtocol.Filling(key.0))
    {
      hide RebuildInto, UpdateInto, Follows, Grown;
      assert Grown(key, temps, trace, temps[key].files) by { StartsGrown(key); }
      match plan {
        case Existing => r := Failure(InvalidState);
        case Rebuild(reason) => r := WriteRebuild(o, key, metadata, reason);
        case Incremental(previous, paths) =>
          var base: RepositoryFiles := if previous in snapshots then snapshots[previous].files else map[];
          r := WriteUpdate(o, key, metadata, base, paths);
      }
    }

    /** The plan is that of the disk the sync started from. */
    ghost predicate IsPlan(o: Oracle, metadata: Metadata, plan: Plan)
      reads this
    {
      && Assumes(o, metadata)
      && (lawful ==> PlanSnapshot(o, start, start.current, metadata) == Success(plan) && trust == TrustOf(o, start, Some(metadata)))
    }

    /** What was written may be finished. */
    ghost method Finish(o: Oracle, p: nat, metadata: Metadata, plan: Plan)
      requires IsPlan(o, metadata, plan) && snapshots == start.snapshots - {metadata.id}
      requires (metadata.id, p) in temps && At(o, p, SyncProtocol.Filling(metadata.id))
      requires var r := WriteSnapshot(o, snapshots, metadata, plan, map[]);
        r.Success? && r.value.files == temps[(metadata.id, p)].files
      modifies this`trace
      ensures At(o, p, SyncProtocol.Filled(metadata.id))
    {
      hide WriteSnapshot, PlanSnapshot, Follows, Sound, Consistent, FromLexicon, Remembers;
      if lawful { WrittenRemembers(o, start, metadata); }
      FinishesFiles(o, p, metadata.id);
    }

    /** Fills a temporary directory and renames it to its final name. */
    method Build(o: Oracle, p: nat, metadata: Metadata, plan: Plan) returns (r: Result<Written, SyncError>)
      requires metadata.id !in snapshots && snapshots == start.snapshots - {metadata.id}
      requires IsPlan(o, metadata, plan) && At(o, p, SyncProtocol.RemovingTemp(metadata.id))
      modifies this`temps, this`snapshots, this`trace, this`begun
      ensures (State(), r) == BuildSnapshot(o, old(State()), p, metadata, plan)
      ensures r.Success? ==> At(o, p, SyncProtocol.InPlace(metadata.id))
      ensures r.Failure? ==> Alive(o, p)
    {
      hide WriteSnapshot, PlanSnapshot, Follows, Sound, Consistent, FromLexicon;
      var id := metadata.id;
      var key := (id, p);
      RemoveTemp(o, p, id, SyncProtocol.RemovingTemp(id));
      ghost var cleared := temps;
      CreateTemp(o, p, id);
      r := Write(o, key, metadata, plan);
      if r.Failure? {
        DiscardTemp(o, p, id);
        assert temps == cleared;
        return;
      }
      assert temps == cleared[key := Generation(r.value.files, None, None)];
      Place(o, p, metadata, plan, r.value);
      assert temps == cleared;
    }

    /** Completes the temporary directory and renames it. */
    method Place(o: Oracle, p: nat, metadata: Metadata, plan: Plan, written: Written)
      requires IsPlan(o, metadata, plan) && metadata.id !in snapshots && snapshots == start.snapshots - {metadata.id}
      requires At(o, p, SyncProtocol.Filling(metadata.id))
      requires (metadata.id, p) in temps && temps[(metadata.id, p)] == Generation(written.files, None, None)
      requires WriteSnapshot(o, snapshots, metadata, plan, map[]) == Success(written)
      modifies this`temps, this`snapshots, this`trace
      ensures snapshots == old(snapshots)[metadata.id := Generation(written.files, Some(metadata.id), written.warnings)]
      ensures temps == old(temps) - {(metadata.id, p)} && At(o, p, SyncProtocol.InPlace(metadata.id))
    {
      hide WriteSnapshot, Follows, IsPlan;
      Finish(o, p, metadata, plan);
      WriteMarker(o, p, metadata.id);
      if written.warnings.Some? {
        WriteWarnings(o, p, metadata.id, written.warnings.value);
      }
      RenameTemp(o, p, metadata.id);
    }

    /** `replace_file` on `CURRENT`. */
    method PublishCurrent(o: Oracle, p: nat, id: Text) returns (r: Result<(), SyncError>)
      requires At(o, p, SyncProtocol.InPlace(id))
      modifies this`pending, this`current, this`trace
      ensures (State(), r) == Publish(old(State()), p, id)
      ensures Alive(o, p)
    {
      hide Follows;
      if p in pending {
        DropPending(o, p, id);
        return Failure(Io);
      }
      CreatePending(o, p, id);
      WritePending(o, p, id);
      ReplaceCurrent(o, p, id);
      assert pending == old(pending);
      return Success(());
    }

    // ----- one sync -----

    method Proceed(o: Oracle, p: nat, metadata: Metadata, plan: Plan) returns (r: Result<Report, SyncError>)
      requires State() == start && IsPlan(o, metadata, plan) && At(o, p, SyncProtocol.Reading(metadata.id))
      modifies this`snapshots, this`temps, this`pending, this`current, this`trace, this`begun
      ensures (State(), r) == Carry(o, old(State()), p, metadata, plan)
      ensures Alive(o, p)
    {
      hide Publish, BuildSnapshot, PlanSnapshot, Follows, Sound, Consistent, FromLexicon, Complete;
      if lawful {
        if plan.Existing? { ExistingComplete(o, start, metadata); } else { NotComplete(o, start, metadata); }
      }
      if plan.Existing? {
        var warnings := if metadata.id in snapshots then snapshots[metadata.id].warnings else None;
        KeepsOutput(o, p, metadata.id);
        var _ :- PublishCurrent(o, p, metadata.id);
        return Success(Report(plan, None, warnings));
      }
      ClearOutput(o, p, metadata.id);
      var written :- Build(o, p, metadata, plan);
      var _ :- PublishCurrent(o, p, metadata.id);
      return Success(Report(plan, written.rebuilt, written.warnings));
    }

    method Locked(o: Oracle, p: nat, lexicon: Option<Metadata>) returns (r: Result<Report, SyncError>)
      requires State() == start && At(o, p, SyncProtocol.Locked)
      requires lexicon.Some? ==> Assumes(o, lexicon.value)
      requires trust == TrustOf(o, State(), lexicon)
      modifies this`snapshots, this`temps, this`pending, this`current, this`trace, this`begun
      ensures (State(), r) == Synced(o, old(State()), p, lexicon)
      ensures Alive(o, p)
    {
      hide Carry, PlanSnapshot, Follows, Sound, Consistent, FromLexicon, ValidId, Standing, LeavesOpen, TrustOf;
      if lexicon.None? { return Failure(LexiconUnavailable); }
      var metadata := lexicon.value;
      if !ValidId(metadata.id) { return Failure(InvalidState); }
      ReadsLexicon(o, p, metadata.id);
      var previous :- ReadCurrent(State());
      var plan :- Plan(o, previous, metadata);
      r := Proceed(o, p, metadata, plan);
    }

    /**
     `run_sync`: refused while another sync holds the lock, which is released at the end in every case. If
     the writers and loaders keep their contracts and the state directory is consistent, the steps recorded
     are a run of the protocol from the disk before to the disk after, in which the writers keep their contract
     too; and after any number of them the disk is consistent and no generation complete before is gone or
     altered. If also `CURRENT` named a complete generation and what is written opens, `CURRENT` does throughout.
     */
    method RunSync(o: Oracle, p: nat, lexicon: Option<Metadata>) returns (r: Result<Report, SyncError>)
      modifies this
      ensures old(locked) ==> r == Failure(Busy) && State() == old(State()) && locked
      ensures !old(locked) ==> (State(), r) == Synced(o, old(State()), p, lexicon) && !locked
      ensures var t := TrustOf(o, old(State()), lexicon);
        !old(locked) && Lawful(o, old(State()), lexicon) ==>
          && SyncProtocol.Run(o, Quiet(old(State())), trace) == Some(Quiet(State()))
          && SyncProtocol.Trusted(o, t, Quiet(old(State())), trace)
          && (SyncProtocol.RemovalSound(o) ==> forall k :: 0 <= k <= |trace| ==> SafeAfter(o, t, old(State()), trace, k))
    {
      hide Synced, Follows, Lawful, TrustOf, SyncProtocol.Run, SyncProtocol.Trusted, SyncProtocol.RemovalSound, SafeAfter;
      var acquired := Acquire();
      if acquired.Failure? { return Failure(acquired.error); }
      Begin(o, p, lexicon);
      LawfulParts(o, State(), lexicon);
      r := Locked(o, p, lexicon);
      End(o, p);
      Release();
      if lawful && SyncProtocol.RemovalSound(o) {
        TrustHolds(o, start, lexicon);
        TraceSafe(o, trust, start, trace);
      }
    }
  }

  /** The contracts are kept, and the sync starts from a consistent disk and Lexicon's snapshot. */
  ghost predicate Lawful(o: Oracle, d: Disk, lexicon: Option<Metadata>) {
    Sound(o) && Consistent(o, STORES, d) && (lexicon.Some? ==> FromLexicon(o, lexicon.value))
  }

  /** What the sync writes for the snapshot opens, if it writes anything. */
  ghost predicate LeavesOpen(o: Oracle, d: Disk, current: Metadata) {
    var plan := PlanSnapshot(o, d, d.current, current);
    plan.Success? ==>
      var written := WriteSnapshot(o, d.snapshots - {current.id}, current, plan.value, map[]);
      written.Success? ==> o.open(written.value.files).Opened?
  }

  /** What may be trusted during a sync: that complete generations open if they did, and if what it writes does. */
  ghost function TrustOf(o: Oracle, d: Disk, lexicon: Option<Metadata>): Trust {
    Trust(true, Consistent(o, Trust(true, true), d) && (lexicon.Some? ==> LeavesOpen(o, d, lexicon.value)))
  }

  lemma LawfulParts(o: Oracle, d: Disk, lexicon: Option<Metadata>)
    ensures Lawful(o, d, lexicon) ==> Sound(o) && Consistent(o, STORES, d) && (lexicon.Some? ==> FromLexicon(o, lexicon.value))
  {
  }

  lemma TrustHolds(o: Oracle, d: Disk, lexicon: Option<Metadata>)
    requires Lawful(o, d, lexicon)
    ensures Consistent(o, TrustOf(o, d, lexicon), d)
  {
    hide LeavesOpen, ValidId, Remembers, UpdateBase, Sound, FromLexicon;
  }

  /** A rebuild that succeeds reports its reason. */
  lemma RebuildReported(o: Oracle, current: Metadata, into: RepositoryFiles, reason: RebuildReason)
    ensures var r := RebuildInto(o, current, into, reason);
      r.Success? ==> r.value.rebuilt == Some(reason)
  {
    hide FullLoad;
  }
}
