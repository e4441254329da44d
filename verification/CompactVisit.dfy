/**
 arcana/src/lexicon/snapshot_compact_visit.rs and snapshot_compact.rs: the loops that drive the compact
 pass over the objects of a manifest, in full and for selected paths.

 Each is proved to fold over the objects it selects, which is what the results of `CompactLoad` and
 `DeltaLoad` are about.
 */
module CompactVisit {
  import opened Wrappers
  import opened Lexicon
  import opened Records
  import opened BinaryObject
  import opened SnapshotManifest
  import opened SnapshotLoad
  import opened StagedNodes
  import opened CompactLoad
  import opened DeltaLoad

  // ----- one object more -----

  lemma StageNext(w: World, digest: seq<byte> -> Text, p: Pass, done: seq<Slot>, slot: Slot)
    ensures var before := StageSlots(w, digest, p, done);
      StageSlots(w, digest, p, done + [slot]) ==
      if before.Failure? then before
      else VisitObject(w, slot, Nodes, before.value, ReserveObject, Stager(w.s, digest), true)
  {
    hide VisitObject;
    assert (done + [slot])[..|done|] == done;
  }

  lemma RelateNextSlot(w: World, resolve: Resolver, p: Pass, done: seq<Slot>, slot: Slot)
    ensures var before := RelateSlots(w, resolve, p, done);
      RelateSlots(w, resolve, p, done + [slot]) ==
      if before.Failure? then before
      else VisitObject(w, slot, Relations, before.value, ReserveRelations, Relator(w.s, resolve), false)
  {
    hide VisitObject;
    assert (done + [slot])[..|done|] == done;
  }

  lemma {:induction false} StageStops(w: World, digest: seq<byte> -> Text, p: Pass, a: seq<Slot>, b: seq<Slot>)
    requires StageSlots(w, digest, p, a).Failure?
    ensures StageSlots(w, digest, p, a + b) == StageSlots(w, digest, p, a)
    decreases |b|
  {
    hide StageSlots, VisitObject;
    if b == [] {
      assert a + b == a;
    } else {
      var before, last := b[..|b| - 1], b[|b| - 1];
      StageStops(w, digest, p, a, before);
      StageNext(w, digest, p, a + before, last);
      assert a + before + [last] == a + b;
    }
  }

  lemma {:induction false} RelateStops(w: World, resolve: Resolver, p: Pass, a: seq<Slot>, b: seq<Slot>)
    requires RelateSlots(w, resolve, p, a).Failure?
    ensures RelateSlots(w, resolve, p, a + b) == RelateSlots(w, resolve, p, a)
    decreases |b|
  {
    hide RelateSlots, VisitObject;
    if b == [] {
      assert a + b == a;
    } else {
      var before, last := b[..|b| - 1], b[|b| - 1];
      RelateStops(w, resolve, p, a, before);
      RelateNextSlot(w, resolve, p, a + before, last);
      assert a + before + [last] == a + b;
    }
  }

  // ----- the objects of a language -----

  /** The files of a language that lie at the selected paths. */
  method SelectFiles(s: Schema, l: LanguageEntry, paths: set<Text>) returns (chosen: seq<Slot>)
    ensures chosen == Filter(s, paths, true, FileSlotsOf(l, l.files))
  {
    hide EntryOf;
    chosen := [];
    var i := 0;
    assert FileSlotsOf(l, l.files[..0]) == [];
    while i < |l.files|
      invariant 0 <= i <= |l.files|
      invariant chosen == Filter(s, paths, true, FileSlotsOf(l, l.files[..i]))
    {
      var slot := Slot(l, Some(l.files[i]), l.files[i].objectId);
      FilterNext(s, paths, true, FileSlotsOf(l, l.files[..i]), slot);
      assert FileSlotsOf(l, l.files[..i + 1]) == FileSlotsOf(l, l.files[..i]) + [slot];
      if Selects(s, paths, slot) { chosen := chosen + [slot]; }
      i := i + 1;
    }
    assert l.files[..i] == l.files;
  }

  lemma {:induction false} FilterJoins(s: Schema, paths: set<Text>, wanted: bool, a: seq<Slot>, b: seq<Slot>)
    ensures Filter(s, paths, wanted, a + b) == Filter(s, paths, wanted, a) + Filter(s, paths, wanted, b)
    decreases |b|
  {
    hide Selects, Filter;
    if b == [] {
      assert a + b == a;
      FilterNone(s, paths, wanted);
    } else {
      var before, last := b[..|b| - 1], b[|b| - 1];
      FilterJoins(s, paths, wanted, a, before);
      FilterNext(s, paths, wanted, a + before, last);
      FilterNext(s, paths, wanted, before, last);
      assert a + before + [last] == a + b && before + [last] == b;
    }
  }

  lemma FilterNone(s: Schema, paths: set<Text>, wanted: bool)
    ensures Filter(s, paths, wanted, []) == []
  {
  }

  lemma SharedNotSelected(s: Schema, paths: set<Text>, l: LanguageEntry)
    ensures Filter(s, paths, true, LanguageSlots(l)) == Filter(s, paths, true, FileSlotsOf(l, l.files))
  {
    FilterJoins(s, paths, true, SharedSlots(l), FileSlotsOf(l, l.files));
    if l.sharedObjectId.Some? {
      FilterNext(s, paths, true, [], Slot(l, None, l.sharedObjectId.value));
      assert [] + SharedSlots(l) == SharedSlots(l);
    }
    FilterNone(s, paths, true);
  }

  /** The objects of the selected visits: files at the selected paths, never a shared object. */
  method SelectedSlots(s: Schema, languages: seq<LanguageEntry>, paths: set<Text>) returns (slots: seq<Slot>)
    ensures slots == Filter(s, paths, true, Slots(languages))
  {
    hide Filter, LanguageSlots;
    slots := [];
    FilterNone(s, paths, true);
    for i := 0 to |languages|
      invariant slots == Filter(s, paths, true, SlotsTo(languages, i))
    {
      var chosen := SelectFiles(s, languages[i], paths);
      SharedNotSelected(s, paths, languages[i]);
      FilterJoins(s, paths, true, SlotsTo(languages, i), LanguageSlots(languages[i]));
      slots := slots + chosen;
    }
  }

  /** The objects of the full visits: of every language the shared object, then its files. */
  method AllSlots(languages: seq<LanguageEntry>) returns (slots: seq<Slot>)
    ensures slots == Slots(languages)
  {
    slots := [];
    for i := 0 to |languages|
      invariant slots == SlotsTo(languages, i)
    {
      var l := languages[i];
      if l.sharedObjectId.Some? { slots := slots + [Slot(l, None, l.sharedObjectId.value)]; }
      assert slots == SlotsTo(languages, i) + SharedSlots(l) + FileSlotsOf(l, l.files[..0]);
      for j := 0 to |l.files|
        invariant slots == SlotsTo(languages, i) + SharedSlots(l) + FileSlotsOf(l, l.files[..j])
      {
        var slot := Slot(l, Some(l.files[j]), l.files[j].objectId);
        assert FileSlotsOf(l, l.files[..j + 1]) == FileSlotsOf(l, l.files[..j]) + [slot];
        slots := slots + [slot];
      }
      assert l.files[..|l.files|] == l.files;
      assert slots == SlotsTo(languages, i) + LanguageSlots(l);
    }
  }

  // ----- the passes -----

  method NodePassOver(w: World, digest: seq<byte> -> Text, slots: seq<Slot>) returns (r: Result<Pass, SnapshotError>)
    ensures r == StageSlots(w, digest, FRESH, slots)
  {
    hide StageSlots, VisitObject;
    StageNone(w, digest, FRESH);
    var pass := FRESH;
    for i := 0 to |slots|
      invariant StageSlots(w, digest, FRESH, slots[..i]) == Success(pass)
    {
      StageNext(w, digest, FRESH, slots[..i], slots[i]);
      assert slots[..i] + [slots[i]] == slots[..i + 1];
      var visited := VisitObject(w, slots[i], Nodes, pass, ReserveObject, Stager(w.s, digest), true);
      if visited.Failure? {
        StageStops(w, digest, FRESH, slots[..i + 1], slots[i + 1..]);
        assert slots[..i + 1] + slots[i + 1..] == slots;
        return visited;
      }
      pass := visited.value;
    }
    assert slots[..|slots|] == slots;
    return Success(pass);
  }

  lemma StageNone(w: World, digest: seq<byte> -> Text, p: Pass)
    ensures StageSlots(w, digest, p, []) == Success(p)
  {
  }

  method RelationPassOver(w: World, resolve: Resolver, start: Pass, slots: seq<Slot>) returns (r: Result<Pass, SnapshotError>)
    ensures r == RelateSlots(w, resolve, start, slots)
  {
    hide RelateSlots, VisitObject;
    RelateNone(w, resolve, start);
    var pass := start;
    for i := 0 to |slots|
      invariant RelateSlots(w, resolve, start, slots[..i]) == Success(pass)
    {
      RelateNextSlot(w, resolve, start, slots[..i], slots[i]);
      assert slots[..i] + [slots[i]] == slots[..i + 1];
      var visited := VisitObject(w, slots[i], Relations, pass, ReserveRelations, Relator(w.s, resolve), false);
      if visited.Failure? {
        RelateStops(w, resolve, start, slots[..i + 1], slots[i + 1..]);
        assert slots[..i + 1] + slots[i + 1..] == slots;
        return visited;
      }
      pass := visited.value;
    }
    assert slots[..|slots|] == slots;
    return Success(pass);
  }

  lemma RelateNone(w: World, resolve: Resolver, p: Pass)
    ensures RelateSlots(w, resolve, p, []) == Success(p)
  {
  }

  /** `finish_node_pass`: sorts the staged nodes and collapses them in place. */
  method FinishNodes(m: Machinery, staged: seq<StagedNode>) returns (r: Result<seq<StagedNode>, SnapshotError>)
    ensures r == Lifted(Collapse(m.sort(staged)))
  {
    var sorted := m.sort(staged);
    var nodes := new StagedNode[|sorted|](i requires 0 <= i < |sorted| => sorted[i]);
    assert nodes[..] == sorted;
    var kept := CollapseInPlace(nodes);
    if kept.Failure? { return Failure(RecordError(kept.error)); }
    return Success(nodes[..kept.value]);
  }

  // ----- the loads -----

  method LoadCompactSnapshot(w: World, m: Machinery, id: Text) returns (r: Result<Compact, SnapshotError>)
    ensures r == LoadCompact(w, m, id)
  {
    hide ReadManifest, Slots, StageSlots, RelateSlots, Collapse;
    var read :- ReadSnapshotManifest(w.s, w.store.manifest(id), id);
    var slots := AllSlots(read.0.languages);
    var staged :- NodePassOver(w, m.digest, slots);
    var nodes :- FinishNodes(m, staged.nodes);
    var done :- RelationPassOver(w, ResolveIn(w.s, nodes), staged.(nodes := nodes), slots);
    return Success(Compact(read.1, nodes, done.edges, done.unresolved, done.warnings));
  }

  method NormalizeChanged(s: Schema, paths: seq<Text>) returns (r: Result<set<Text>, SnapshotError>)
    ensures r == NormalizeAll(s, paths)
  {
    var normalized: set<Text> := {};
    for i := 0 to |paths|
      invariant NormalizeAll(s, paths[..i]) == Success(normalized)
    {
      assert paths[..i + 1][..i] == paths[..i];
      var path := NormalizeFile(s, paths[i]);
      if path.Failure? {
        NormalizeStops(s, paths, i + 1);
        return Failure(path.error);
      }
      normalized := normalized + {path.value};
    }
    assert paths[..|paths|] == paths;
    return Success(normalized);
  }

  lemma {:induction false} NormalizeStops(s: Schema, paths: seq<Text>, k: nat)
    requires k <= |paths| && NormalizeAll(s, paths[..k]).Failure?
    ensures NormalizeAll(s, paths) == NormalizeAll(s, paths[..k])
    decreases |paths|
  {
    if k < |paths| {
      assert paths[..|paths| - 1][..k] == paths[..k];
      NormalizeStops(s, paths[..|paths| - 1], k);
    } else {
      assert paths[..k] == paths;
    }
  }

  method LoadCompactDelta(w: World, m: Machinery, current: Metadata, changedPaths: seq<Text>, base: set<Identity>)
    returns (r: Result<Compact, SnapshotError>)
    ensures r == LoadDelta(w, m, current, changedPaths, base)
  {
    hide ReadManifest, Slots, StageSlots, RelateSlots, Collapse, Filter, NormalizeAll;
    var read :- ReadSnapshotManifest(w.s, w.store.manifest(current.id), current.id);
    if read.1 != current { return Failure(SnapshotMetadataMismatch); }
    var paths :- NormalizeChanged(w.s, changedPaths);
    var slots := SelectedSlots(w.s, read.0.languages, paths);
    var staged :- NodePassOver(w, m.digest, slots);
    var nodes :- FinishNodes(m, staged.nodes);
    var done :- RelationPassOver(w, ResolveWithBase(w.s, nodes, base), staged.(nodes := nodes), slots);
    return Success(Compact(read.1, nodes, done.edges, done.unresolved, done.warnings));
  }
}
