/**
 arcana/src/lexicon/metadata.rs, snapshot_compact.rs and snapshot_compact_visit.rs: the incremental load.

 Only the objects of changed paths are read; references may also be resolved in the previous store. The
 main results: what the unchanged objects of the previous snapshot hold together with what the delta reads
 is exactly what the current snapshot holds, and whenever the full load succeeds so does the delta, with
 the conversions the full load would make of the same objects.
 */
module DeltaLoad {
  import opened Wrappers
  import opened Lexicon
  import opened Ordering
  import opened Facts
  import opened Records
  import opened BinaryObject
  import opened StreamRecords
  import opened SnapshotManifest
  import opened SnapshotLoad
  import opened StagedNodes
  import opened CompactLoad
  import Signature = NodeSignature
  import RepositoryPath

  // ----- changed paths -----

  type FileIndex = map<(Text, Text), Text>

  datatype PathChanges = PathChanges(added: seq<Text>, changed: seq<Text>, removed: seq<Text>)

  predicate Added(current: FileIndex, previous: FileIndex, language: Text, path: Text) {
    (language, path) in current && (language, path) !in previous
  }

  predicate Changed(current: FileIndex, previous: FileIndex, language: Text, path: Text) {
    (language, path) in current && (language, path) in previous && current[(language, path)] != previous[(language, path)]
  }

  ghost predicate AddedPath(current: FileIndex, previous: FileIndex, path: Text) {
    exists language :: Added(current, previous, language, path)
  }

  ghost predicate ChangedPath(current: FileIndex, previous: FileIndex, path: Text) {
    exists language :: Changed(current, previous, language, path)
  }

  /** The three lists of changes, each strictly ascending. */
  ghost predicate ChangesExact(current: FileIndex, previous: FileIndex, r: PathChanges) {
    && StrictlySorted(TextLe, r.added) && StrictlySorted(TextLe, r.changed) && StrictlySorted(TextLe, r.removed)
    && (forall p :: p in r.added <==> AddedPath(current, previous, p))
    && (forall p :: p in r.changed <==> ChangedPath(current, previous, p))
    && (forall p :: p in r.removed <==> AddedPath(previous, current, p))
  }

  lemma TextTotal()
    ensures TotalOrder(TextLe)
  {
    FieldsTotal();
    hide FieldLe;
    forall a, b | TextLe(a, b) && TextLe(b, a) ensures a == b { TextFieldInjective(a, b); }
  }

  method ComparePresent(current: FileIndex, previous: FileIndex) returns (added: seq<Text>, changed: seq<Text>)
    ensures forall p :: p in added <==> AddedPath(current, previous, p)
    ensures forall p :: p in changed <==> ChangedPath(current, previous, p)
  {
    added, changed := [], [];
    var rest := current.Keys;
    while rest != {}
      invariant rest <= current.Keys
      invariant forall p :: p in added <==> exists l :: (l, p) !in rest && Added(current, previous, l, p)
      invariant forall p :: p in changed <==> exists l :: (l, p) !in rest && Changed(current, previous, l, p)
      decreases |rest|
    {
      var next :| next in rest;
      var (language, path) := next;
      ghost var before := rest;
      rest := rest - {next};
      assert forall l, p :: (l, p) !in rest <==> (l, p) !in before || (l == language && p == path);
      if next !in previous {
        assert Added(current, previous, language, path) && !Changed(current, previous, language, path);
        added := added + [path];
      } else if previous[next] != current[next] {
        assert !Added(current, previous, language, path) && Changed(current, previous, language, path);
        changed := changed + [path];
      } else {
        assert !Added(current, previous, language, path) && !Changed(current, previous, language, path);
      }
    }
  }

  method CompareAbsent(current: FileIndex, previous: FileIndex) returns (removed: seq<Text>)
    ensures forall p :: p in removed <==> AddedPath(previous, current, p)
  {
    removed := [];
    var rest := previous.Keys;
    while rest != {}
      invariant rest <= previous.Keys
      invariant forall p :: p in removed <==> exists l :: (l, p) !in rest && Added(previous, current, l, p)
      decreases |rest|
    {
      var next :| next in rest;
      var (language, path) := next;
      ghost var before := rest;
      rest := rest - {next};
      assert forall l, p :: (l, p) !in rest <==> (l, p) !in before || (l == language && p == path);
      if next !in current {
        assert Added(previous, current, language, path);
        removed := removed + [path];
      }
    }
  }

  method ChangedPaths(current: FileIndex, previous: FileIndex) returns (r: PathChanges)
    ensures ChangesExact(current, previous, r)
  {
    var added, changed := ComparePresent(current, previous);
    var removed := CompareAbsent(current, previous);
    TextTotal();
    SortDedupCanonical(TextLe, added, added);
    SortDedupCanonical(TextLe, changed, changed);
    SortDedupCanonical(TextLe, removed, removed);
    return PathChanges(Dedup(Sort(TextLe, added)), Dedup(Sort(TextLe, changed)), Dedup(Sort(TextLe, removed)));
  }

  predicate SharedObjectsChanged(current: Metadata, previous: Metadata) {
    current.sharedObjects != previous.sharedObjects
  }

  function Get(files: FileIndex, key: (Text, Text)): Option<Text> {
    if key in files then Some(files[key]) else None
  }

  /** Does some language have different objects under this path, or one of the two none? */
  ghost predicate DiffersAt(current: FileIndex, previous: FileIndex, path: Text) {
    exists language :: Get(current, (language, path)) != Get(previous, (language, path))
  }

  /** All three lists together name exactly the paths under which some language's object differs. */
  lemma ChangesCover(current: FileIndex, previous: FileIndex, r: PathChanges, path: Text)
    requires ChangesExact(current, previous, r)
    ensures path in r.added + r.changed + r.removed <==> DiffersAt(current, previous, path)
  {
    hide StrictlySorted;
    if path in r.added + r.changed + r.removed {
      if path in r.added {
        var l :| Added(current, previous, l, path);
        assert Get(current, (l, path)) != Get(previous, (l, path));
      } else if path in r.changed {
        var l :| Changed(current, previous, l, path);
        assert Get(current, (l, path)) != Get(previous, (l, path));
      } else {
        var l :| Added(previous, current, l, path);
        assert Get(current, (l, path)) != Get(previous, (l, path));
      }
    }
    if l :| Get(current, (l, path)) != Get(previous, (l, path)) {
      assert Added(current, previous, l, path) || Changed(current, previous, l, path) || Added(previous, current, l, path);
    }
  }

  // ----- selection -----

  predicate Selects(s: Schema, paths: set<Text>, slot: Slot) {
    EntryOf(s, slot).path.Some? && EntryOf(s, slot).path.value in paths
  }

  /** The objects of files at the given paths (`wanted`), or all the others. */
  function Filter(s: Schema, paths: set<Text>, wanted: bool, slots: seq<Slot>): seq<Slot> {
    if slots == [] then []
    else
      var last := slots[|slots| - 1];
      Filter(s, paths, wanted, slots[..|slots| - 1]) + if Selects(s, paths, last) == wanted then [last] else []
  }

  function NormalizeAll(s: Schema, paths: seq<Text>): Result<set<Text>, SnapshotError> {
    if paths == [] then Success({})
    else
      var before :- NormalizeAll(s, paths[..|paths| - 1]);
      var path :- NormalizeFile(s, paths[|paths| - 1]);
      Success(before + {path})
  }

  /** A path that normalisation leaves alone. */
  predicate Stable(s: Schema, path: Text) {
    s.normalize(path) == Some(path)
  }

  lemma {:induction false} NormalizeAllStable(s: Schema, paths: seq<Text>)
    requires forall p :: p in paths ==> Stable(s, p)
    ensures NormalizeAll(s, paths) == Success(set p | p in paths)
  {
    if paths != [] {
      var before, last := paths[..|paths| - 1], paths[|paths| - 1];
      assert paths == before + [last];
      NormalizeAllStable(s, before);
      assert Stable(s, last);
      assert (set p | p in paths) == (set p | p in before) + {last};
    } else {
      assert (set p | p in paths) == {};
    }
  }

  // ----- records of the unchanged and of the selected objects -----

  function RecordsIn(w: World, id: Text): multiset<FactRecord> {
    var read := ReadObject(w, id, All);
    if read.Success? then multiset(read.value.0.records) else multiset{}
  }

  function SlotRecords(w: World): Slot -> multiset<FactRecord> {
    (slot: Slot) => RecordsIn(w, slot.objectId)
  }

  function Entries(s: Schema, slots: seq<Slot>): seq<Entry> {
    Map((slot: Slot) => EntryOf(s, slot), slots)
  }

  lemma {:induction false} RecordsTotal(w: World, slots: seq<Slot>)
    requires RecordsOf(w, slots, All).Success?
    ensures multiset(RecordsOf(w, slots, All).value) == Total(SlotRecords(w), slots)
  {
    hide ReadObject;
    if slots != [] { RecordsTotal(w, slots[..|slots| - 1]); }
  }

  lemma {:induction false} EntriesTotal(w: World, slots: seq<Slot>)
    ensures Total(SlotRecords(w), slots) == Total((e: Entry) => RecordsIn(w, e.objectId), Entries(w.s, slots))
  {
    hide RecordsIn;
    if slots != [] {
      var before, last := slots[..|slots| - 1], slots[|slots| - 1];
      EntriesTotal(w, before);
      var entries := Entries(w.s, slots);
      assert entries[..|entries| - 1] == Entries(w.s, before);
      assert entries[|entries| - 1] == EntryOf(w.s, last);
    }
  }

  lemma {:induction false} FilterTotal<R>(s: Schema, paths: set<Text>, f: Slot -> multiset<R>, slots: seq<Slot>)
    ensures Total(f, slots) == Total(f, Filter(s, paths, false, slots)) + Total(f, Filter(s, paths, true, slots))
  {
    hide Selects;
    if slots != [] {
      var before, last := slots[..|slots| - 1], slots[|slots| - 1];
      FilterTotal(s, paths, f, before);
      var out, sel := Filter(s, paths, false, before), Filter(s, paths, true, before);
      assert (out + [last])[..|out|] == out && (sel + [last])[..|sel|] == sel;
      assert out + [] == out && sel + [] == sel;
    }
  }

  lemma {:induction false} FilterMembers(s: Schema, paths: set<Text>, wanted: bool, slots: seq<Slot>)
    ensures forall x :: x in Filter(s, paths, wanted, slots) <==> x in slots && Selects(s, paths, x) == wanted
  {
    hide Selects;
    if slots != [] {
      var before, last := slots[..|slots| - 1], slots[|slots| - 1];
      assert slots == before + [last];
      FilterMembers(s, paths, wanted, before);
    }
  }

  lemma {:induction false} FilterDistinct(s: Schema, paths: set<Text>, wanted: bool, slots: seq<Slot>)
    requires Distinct(Entries(s, slots))
    ensures Distinct(Entries(s, Filter(s, paths, wanted, slots)))
  {
    hide Selects, EntryOf;
    if slots != [] {
      var before, last := slots[..|slots| - 1], slots[|slots| - 1];
      var entries := Entries(s, slots);
      assert forall i :: 0 <= i < |before| ==> Entries(s, before)[i] == entries[i];
      assert entries[|before|] == EntryOf(s, last);
      FilterDistinct(s, paths, wanted, before);
      var kept := Filter(s, paths, wanted, before);
      FilterMembers(s, paths, wanted, before);
      forall i | 0 <= i < |kept| ensures EntryOf(s, kept[i]) != EntryOf(s, last) {
        assert kept[i] in before;
        var j :| 0 <= j < |before| && before[j] == kept[i];
        assert entries[j] == EntryOf(s, kept[i]);
      }
      assert Selects(s, paths, last) == wanted ==> Filter(s, paths, wanted, slots) == kept + [last];
      assert Selects(s, paths, last) != wanted ==> Filter(s, paths, wanted, slots) == kept;
      KeptDistinct(s, kept, last);
    }
  }

  lemma KeptDistinct(s: Schema, kept: seq<Slot>, last: Slot)
    requires Distinct(Entries(s, kept)) && forall i :: 0 <= i < |kept| ==> EntryOf(s, kept[i]) != EntryOf(s, last)
    ensures Distinct(Entries(s, kept + [last]))
  {
    hide EntryOf;
    var a, b := Entries(s, kept), Entries(s, kept + [last]);
    forall i, j | 0 <= i < j < |b| ensures b[i] != b[j] {
      assert b[i] == a[i];
      if j < |kept| { assert b[j] == a[j]; }
    }
  }

  /** Do these metadata agree outside the given paths? */
  ghost predicate AgreeOutside(current: Metadata, previous: Metadata, paths: set<Text>) {
    && current.sharedObjects == previous.sharedObjects
    && forall language, path :: path !in paths ==> Get(current.files, (language, path)) == Get(previous.files, (language, path))
  }

  lemma DistinctEntries(s: Schema, index: Index, slots: seq<Slot>)
    requires Lists(s, index, slots)
    ensures Distinct(Entries(s, slots))
    ensures forall e :: e in Entries(s, slots) <==> Holds(index, e)
  {
    hide EntryOf, Holds;
    var entries := Entries(s, slots);
    assert forall i :: 0 <= i < |entries| ==> entries[i] == EntryOf(s, slots[i]);
    forall e ensures e in entries <==> Holds(index, e) {
      if e in entries {
        var i :| 0 <= i < |entries| && entries[i] == e;
      }
      if Holds(index, e) {
        assert Listed(s, slots, e);
        var i :| 0 <= i < |slots| && EntryOf(s, slots[i]) == e;
        assert entries[i] == e;
      }
    }
  }

  lemma EntryMember(s: Schema, slots: seq<Slot>, e: Entry)
    ensures e in Entries(s, slots) <==> exists slot :: slot in slots && EntryOf(s, slot) == e
  {
    hide EntryOf;
    var entries := Entries(s, slots);
    if e in entries {
      var i :| 0 <= i < |entries| && entries[i] == e;
      assert slots[i] in slots && EntryOf(s, slots[i]) == e;
    }
    if slot :| slot in slots && EntryOf(s, slot) == e {
      var i :| 0 <= i < |slots| && slots[i] == slot;
      assert entries[i] == e;
    }
  }

  lemma UnselectedEntry(s: Schema, paths: set<Text>, slots: seq<Slot>, e: Entry)
    ensures e in Entries(s, Filter(s, paths, false, slots)) <==>
            e in Entries(s, slots) && (e.path.Some? ==> e.path.value !in paths)
  {
    var kept := Filter(s, paths, false, slots);
    FilterMembers(s, paths, false, slots);
    EntryMember(s, slots, e);
    EntryMember(s, kept, e);
    hide EntryOf, Filter, Entries;
    if slot :| slot in slots && EntryOf(s, slot) == e && (e.path.Some? ==> e.path.value !in paths) {
      assert slot in kept;
    }
  }

  lemma UnselectedEntries(s: Schema, index: Index, paths: set<Text>, slots: seq<Slot>)
    requires Lists(s, index, slots)
    ensures forall e :: e in Entries(s, Filter(s, paths, false, slots)) <==>
                        Holds(index, e) && (e.path.Some? ==> e.path.value !in paths)
  {
    DistinctEntries(s, index, slots);
    hide Holds, Lists, Filter, Entries;
    forall e: Entry
      ensures e in Entries(s, Filter(s, paths, false, slots)) <==>
              Holds(index, e) && (e.path.Some? ==> e.path.value !in paths)
    {
      UnselectedEntry(s, paths, slots, e);
    }
  }

  /** Outside the changed paths both snapshots hold the same objects. */
  lemma UnchangedEntries(s: Schema, current: Metadata, previous: Metadata, paths: set<Text>, c: seq<Slot>, p: seq<Slot>)
    requires Lists(s, Index(current.files, current.sharedObjects), c)
    requires Lists(s, Index(previous.files, previous.sharedObjects), p)
    requires AgreeOutside(current, previous, paths)
    ensures multiset(Entries(s, Filter(s, paths, false, c))) == multiset(Entries(s, Filter(s, paths, false, p)))
  {
    var ci, pi := Index(current.files, current.sharedObjects), Index(previous.files, previous.sharedObjects);
    DistinctEntries(s, ci, c);
    DistinctEntries(s, pi, p);
    FilterDistinct(s, paths, false, c);
    FilterDistinct(s, paths, false, p);
    UnselectedEntries(s, ci, paths, c);
    UnselectedEntries(s, pi, paths, p);
    forall e: Entry | e.path.Some? ==> e.path.value !in paths ensures Holds(ci, e) <==> Holds(pi, e) {
      if e.path.Some? {
        assert Get(current.files, (e.language, e.path.value)) == Get(previous.files, (e.language, e.path.value));
      }
    }
    hide Lists, Filter, Entries, Holds, Distinct;
    var a, b := Entries(s, Filter(s, paths, false, c)), Entries(s, Filter(s, paths, false, p));
    assert forall e :: e in a <==> e in b;
    DistinctPermuted(a, b);
  }

  lemma ReadableBy(w: World, a: seq<Slot>, b: seq<Slot>)
    requires forall e :: e in Entries(w.s, b) ==> e in Entries(w.s, a)
    requires RecordsOf(w, a, All).Success?
    ensures RecordsOf(w, b, All).Success?
  {
    RecordsOfExact(w, a, All);
    RecordsOfExact(w, b, All);
    hide RecordsOf, ReadObject;
    var x, y := Entries(w.s, a), Entries(w.s, b);
    forall i | 0 <= i < |b| ensures Readable(w, All, b[i]) {
      assert y[i] in x;
      var j :| 0 <= j < |x| && x[j] == y[i];
      assert x[j].objectId == a[j].objectId && y[i].objectId == b[i].objectId;
      assert Readable(w, All, a[j]);
    }
  }

  /** Objects with the same entries hold the same records. */
  lemma SameEntries(w: World, a: seq<Slot>, b: seq<Slot>)
    requires multiset(Entries(w.s, a)) == multiset(Entries(w.s, b))
    requires RecordsOf(w, a, All).Success?
    ensures RecordsOf(w, b, All).Success?
    ensures multiset(RecordsOf(w, a, All).value) == multiset(RecordsOf(w, b, All).value)
  {
    SameMembers(Entries(w.s, a), Entries(w.s, b));
    hide RecordsOf, Entries, RecordsIn;
    ReadableBy(w, a, b);
    RecordsTotal(w, a);
    RecordsTotal(w, b);
    EntriesTotal(w, a);
    EntriesTotal(w, b);
    TotalPermuted((e: Entry) => RecordsIn(w, e.objectId), Entries(w.s, a), Entries(w.s, b));
  }

  /**
   The records of the current snapshot are, with their multiplicities, those of the previous snapshot's
   unchanged and shared objects and those of the current objects at the changed paths.
   */
  lemma RecordsExact(w: World, current: Metadata, previous: Metadata, paths: set<Text>, c: seq<Slot>, p: seq<Slot>)
    requires Lists(w.s, Index(current.files, current.sharedObjects), c)
    requires Lists(w.s, Index(previous.files, previous.sharedObjects), p)
    requires AgreeOutside(current, previous, paths)
    requires RecordsOf(w, c, All).Success?
    ensures RecordsOf(w, Filter(w.s, paths, false, p), All).Success?
    ensures RecordsOf(w, Filter(w.s, paths, true, c), All).Success?
    ensures multiset(RecordsOf(w, c, All).value) ==
            multiset(RecordsOf(w, Filter(w.s, paths, false, p), All).value)
            + multiset(RecordsOf(w, Filter(w.s, paths, true, c), All).value)
  {
    UnchangedEntries(w.s, current, previous, paths, c, p);
    FilterReadable(w, paths, false, c);
    FilterReadable(w, paths, true, c);
    SameEntries(w, Filter(w.s, paths, false, c), Filter(w.s, paths, false, p));
    hide Lists, Entries, RecordsOf, Filter, AgreeOutside;
    RecordsTotal(w, c);
    RecordsTotal(w, Filter(w.s, paths, false, c));
    RecordsTotal(w, Filter(w.s, paths, true, c));
    FilterTotal(w.s, paths, SlotRecords(w), c);
  }

  lemma FilterReadable(w: World, paths: set<Text>, wanted: bool, slots: seq<Slot>)
    requires RecordsOf(w, slots, All).Success?
    ensures RecordsOf(w, Filter(w.s, paths, wanted, slots), All).Success?
  {
    var kept := Filter(w.s, paths, wanted, slots);
    RecordsOfExact(w, slots, All);
    RecordsOfExact(w, kept, All);
    FilterMembers(w.s, paths, wanted, slots);
    hide RecordsOf, Filter, Readable;
    forall i | 0 <= i < |kept| ensures Readable(w, All, kept[i]) {
      assert kept[i] in slots;
      var j :| 0 <= j < |slots| && slots[j] == kept[i];
    }
  }

  /** So building the unchanged records and the delta's together is building the current snapshot. */
  lemma DeltaBuilds(w: World, current: Metadata, previous: Metadata, paths: set<Text>, c: seq<Slot>, p: seq<Slot>)
    requires Lists(w.s, Index(current.files, current.sharedObjects), c)
    requires Lists(w.s, Index(previous.files, previous.sharedObjects), p)
    requires AgreeOutside(current, previous, paths)
    requires RecordsOf(w, c, All).Success? && Build(w.s, RecordsOf(w, c, All).value).Success?
    ensures var kept, read := RecordsOf(w, Filter(w.s, paths, false, p), All), RecordsOf(w, Filter(w.s, paths, true, c), All);
      && kept.Success? && read.Success?
      && Build(w.s, kept.value + read.value) == Build(w.s, RecordsOf(w, c, All).value)
  {
    RecordsExact(w, current, previous, paths, c, p);
    hide Lists, RecordsOf, Filter, AgreeOutside, Build;
    var kept, read := RecordsOf(w, Filter(w.s, paths, false, p), All), RecordsOf(w, Filter(w.s, paths, true, c), All);
    assert multiset(kept.value + read.value) == multiset(kept.value) + multiset(read.value);
    OrderIndependent(w.s, RecordsOf(w, c, All).value, kept.value + read.value);
  }

  // ----- the delta -----

  predicate BaseHasKey(s: Schema, base: set<Identity>, key: NodeKey) {
    exists id :: id in base && s.nodeKey(id) == key
  }

  /** `resolve_with_base`: the store of the previous generation is the set of identities it holds. */
  function ResolveWithBase(s: Schema, nodes: seq<StagedNode>, base: set<Identity>): Resolver {
    (reference: NodeReference) =>
      match reference
      case ByKey(key) =>
        if ContainsKey(nodes, key) || BaseHasKey(s, base, key) then Success(key) else Failure(UnknownRelationshipNode)
      case ByIdentity(identity) =>
        if ContainsIdentity(nodes, s.nodeKey(identity), identity) || identity in base then Success(s.nodeKey(identity))
        else Failure(UnknownRelationshipNode)
  }

  /** `load_compact_delta`. */
  function LoadDelta(w: World, m: Machinery, current: Metadata, changedPaths: seq<Text>, base: set<Identity>)
    : Result<Compact, SnapshotError>
  {
    var (manifest, metadata) :- ReadManifest(w.s, w.store.manifest(current.id), current.id);
    if metadata != current then Failure(SnapshotMetadataMismatch)
    else
      var paths :- NormalizeAll(w.s, changedPaths);
      DeltaOver(w, m, metadata, Filter(w.s, paths, true, Slots(manifest.languages)), base)
  }

  function DeltaOver(w: World, m: Machinery, metadata: Metadata, slots: seq<Slot>, base: set<Identity>)
    : Result<Compact, SnapshotError>
  {
    var staged :- StageSlots(w, m.digest, FRESH, slots);
    var nodes :- Lifted(Collapse(m.sort(staged.nodes)));
    var done :- RelateSlots(w, ResolveWithBase(w.s, nodes, base), staged.(nodes := nodes), slots);
    Success(Compact(metadata, nodes, done.edges, done.unresolved, done.warnings))
  }

  // ----- what a list of records contributes, whoever resolves its references -----

  function EdgeShare(s: Schema, e: EdgeRecord): multiset<EdgeFact> {
    if s.relationKind(e.relation).None? || !SpanConvertible(s, e.span) then multiset{}
    else multiset{EdgeFact(KeyOf(s, e.source), KeyOf(s, e.target), s.relationKind(e.relation).value, SpanOf(s, e.span))}
  }

  function UnresolvedShare(s: Schema, u: UnresolvedRecord): multiset<UnresolvedFact> {
    if s.relationKind(u.relation).None? || s.reason(u.reason).None? || !SpanConvertible(s, u.span) then multiset{}
    else multiset{UnresolvedFact(KeyOf(s, u.source), s.relationKind(u.relation).value, u.expression, u.candidateNamespace,
                                 u.candidateName, s.reason(u.reason).value, SpanOf(s, u.span))}
  }

  function EdgeShares(s: Schema, records: seq<FactRecord>): multiset<EdgeFact> {
    Total((e: EdgeRecord) => EdgeShare(s, e), EdgesIn(records))
  }

  function UnresolvedShares(s: Schema, records: seq<FactRecord>): multiset<UnresolvedFact> {
    Total((u: UnresolvedRecord) => UnresolvedShare(s, u), UnresolvedIn(records))
  }

  /** A resolver that gives a reference its own key, if any. */
  ghost predicate Faithful(s: Schema, resolve: Resolver) {
    forall reference :: resolve(reference).Success? ==> resolve(reference).value == KeyOf(s, reference)
  }

  function Contributed<T>(c: Conversion<T>): multiset<T> {
    if c.result.Success? && c.result.value.Some? then multiset{c.result.value.value} else multiset{}
  }

  lemma {:induction false} GatherShares<A, T>(convert: A -> Conversion<T>, share: A -> multiset<T>, records: seq<A>)
    requires Gather(convert, records).Success?
    requires forall a :: convert(a).result.Success? ==> share(a) == Contributed(convert(a))
    ensures multiset(Gather(convert, records).value.0) == Total(share, records)
  {
    if records != [] { GatherShares(convert, share, records[..|records| - 1]); }
  }

  lemma ConvertedShares(s: Schema, resolve: Resolver, records: seq<FactRecord>)
    requires Faithful(s, resolve) && Convert(s, resolve, records)
    ensures multiset(EdgesWith(s, resolve, records).value.0) == EdgeShares(s, records)
    ensures multiset(ReferencesWith(s, resolve, records).value.0) == UnresolvedShares(s, records)
  {
    var f, g := (e: EdgeRecord) => EdgeWith(s, resolve, e), (e: EdgeRecord) => EdgeShare(s, e);
    forall e | f(e).result.Success? ensures g(e) == Contributed(f(e)) {
      SpanExact(s, e.span);
      hide ConvertSpan, SpanConvertible, SpanOf;
      assert Faithful(s, resolve);
    }
    var h, k := (u: UnresolvedRecord) => UnresolvedWith(s, resolve, u), (u: UnresolvedRecord) => UnresolvedShare(s, u);
    forall u | h(u).result.Success? ensures k(u) == Contributed(h(u)) {
      SpanExact(s, u.span);
      hide ConvertSpan, SpanConvertible, SpanOf;
      assert Faithful(s, resolve);
    }
    hide EdgeWith, UnresolvedWith, EdgeShare, UnresolvedShare, Gather, EdgesIn, UnresolvedIn, Contributed;
    GatherShares(f, g, EdgesIn(records));
    GatherShares(h, k, UnresolvedIn(records));
  }

  /** Shares add up over any split of the records. */
  lemma SharesSplit(s: Schema, all: seq<FactRecord>, a: seq<FactRecord>, b: seq<FactRecord>)
    requires multiset(all) == multiset(a) + multiset(b)
    ensures EdgeShares(s, all) == EdgeShares(s, a) + EdgeShares(s, b)
    ensures UnresolvedShares(s, all) == UnresolvedShares(s, a) + UnresolvedShares(s, b)
  {
    assert multiset(a + b) == multiset(all);
    EdgeCounts(all);
    EdgeCounts(a + b);
    UnresolvedCounts(all);
    UnresolvedCounts(a + b);
    InJoins(a, b);
    hide EdgesIn, UnresolvedIn, EdgeShare, UnresolvedShare;
    assert multiset(EdgesIn(all)) == multiset(EdgesIn(a + b));
    assert multiset(UnresolvedIn(all)) == multiset(UnresolvedIn(a + b));
    var g, k := (e: EdgeRecord) => EdgeShare(s, e), (u: UnresolvedRecord) => UnresolvedShare(s, u);
    TotalPermuted(g, EdgesIn(all), EdgesIn(a + b));
    TotalPermuted(k, UnresolvedIn(all), UnresolvedIn(a + b));
    TotalJoins(g, EdgesIn(a), EdgesIn(b));
    TotalJoins(k, UnresolvedIn(a), UnresolvedIn(b));
  }

  // ----- and what it warns of -----

  function EdgeWarning(s: Schema, e: EdgeRecord): multiset<Warning> {
    if s.relationKind(e.relation).None? then multiset{UnknownEdgeRelation(e.relation)} else multiset{}
  }

  function ReferenceWarning(s: Schema, u: UnresolvedRecord): multiset<Warning> {
    if s.relationKind(u.relation).None? then multiset{UnknownUnresolvedRelation(u.relation)}
    else if IsUnknown(s, u.reason) then multiset{UnknownReason(u.reason)}
    else multiset{}
  }

  function RelationWarnings(s: Schema, records: seq<FactRecord>): multiset<Warning> {
    Total((e: EdgeRecord) => EdgeWarning(s, e), EdgesIn(records))
    + Total((u: UnresolvedRecord) => ReferenceWarning(s, u), UnresolvedIn(records))
  }

  /** The warnings of records that convert, whoever resolves their references. */
  function RecordWarnings(s: Schema, records: seq<FactRecord>): multiset<Warning> {
    KindWarnings(s, NodesIn(records)) + RelationWarnings(s, records)
  }

  lemma {:induction false} TotalSame<A, R>(f: A -> multiset<R>, g: A -> multiset<R>, records: seq<A>)
    requires forall a :: a in records ==> f(a) == g(a)
    ensures Total(f, records) == Total(g, records)
  {
    if records != [] {
      assert records[|records| - 1] in records;
      TotalSame(f, g, records[..|records| - 1]);
    }
  }

  lemma EdgeWarns(s: Schema, resolve: Resolver, e: EdgeRecord)
    requires EdgeWith(s, resolve, e).result.Success?
    ensures EdgeWith(s, resolve, e).warnings == EdgeWarning(s, e)
  {
    hide ConvertSpan, EdgeEnds;
  }

  lemma ReferenceWarns(s: Schema, resolve: Resolver, u: UnresolvedRecord)
    requires UnresolvedWith(s, resolve, u).result.Success?
    ensures UnresolvedWith(s, resolve, u).warnings == ReferenceWarning(s, u)
  {
    hide ConvertSpan, UnresolvedSource;
  }

  /** The warnings of a conversion that succeeds, if each record's are known. */
  lemma GatheredWarnings<A, T>(convert: A -> Conversion<T>, warning: A -> multiset<Warning>, records: seq<A>)
    requires Gather(convert, records).Success?
    requires forall a :: convert(a).result.Success? ==> convert(a).warnings == warning(a)
    ensures Gather(convert, records).value.1 == Total(warning, records)
  {
    hide Gather;
    GatherExact(convert, records);
    TotalSame((a: A) => convert(a).warnings, warning, records);
  }

  lemma ConvertedWarnings(s: Schema, resolve: Resolver, records: seq<FactRecord>)
    requires Convert(s, resolve, records)
    ensures EdgesWith(s, resolve, records).value.1 + ReferencesWith(s, resolve, records).value.1 == RelationWarnings(s, records)
  {
    hide EdgeWith, UnresolvedWith, EdgeWarning, ReferenceWarning, Gather, EdgesIn, UnresolvedIn, Total;
    var f, g := (e: EdgeRecord) => EdgeWith(s, resolve, e), (u: UnresolvedRecord) => UnresolvedWith(s, resolve, u);
    var v, w := (e: EdgeRecord) => EdgeWarning(s, e), (u: UnresolvedRecord) => ReferenceWarning(s, u);
    forall e | f(e).result.Success? ensures f(e).warnings == v(e) { EdgeWarns(s, resolve, e); }
    forall u | g(u).result.Success? ensures g(u).warnings == w(u) { ReferenceWarns(s, resolve, u); }
    GatheredWarnings(f, v, EdgesIn(records));
    GatheredWarnings(g, w, UnresolvedIn(records));
  }

  lemma {:induction false} NodeCounts(records: seq<FactRecord>)
    ensures forall n: NodeRecord :: multiset(NodesIn(records))[n] == multiset(records)[Node(n)]
  {
    if records != [] {
      var before, last := records[..|records| - 1], records[|records| - 1];
      assert records == before + [last];
      NodeCounts(before);
    }
  }

  /** What the members of a list contribute adds up over any split of it. */
  lemma TotalSplits<A, R>(f: A -> multiset<R>, all: seq<A>, a: seq<A>, b: seq<A>)
    requires multiset(all) == multiset(a + b)
    ensures Total(f, all) == Total(f, a) + Total(f, b)
  {
    TotalPermuted(f, all, a + b);
    TotalJoins(f, a, b);
  }

  /** The records of each kind are split as all of them are. */
  lemma KindsSplit(all: seq<FactRecord>, a: seq<FactRecord>, b: seq<FactRecord>)
    requires multiset(all) == multiset(a) + multiset(b)
    ensures multiset(NodesIn(all)) == multiset(NodesIn(a) + NodesIn(b))
    ensures multiset(EdgesIn(all)) == multiset(EdgesIn(a) + EdgesIn(b))
    ensures multiset(UnresolvedIn(all)) == multiset(UnresolvedIn(a) + UnresolvedIn(b))
  {
    hide EdgesIn, UnresolvedIn, NodesIn;
    assert multiset(a + b) == multiset(all);
    NodeCounts(all);
    NodeCounts(a + b);
    EdgeCounts(all);
    EdgeCounts(a + b);
    UnresolvedCounts(all);
    UnresolvedCounts(a + b);
    InJoins(a, b);
  }

  /** Warnings add up over any split of the records. */
  lemma WarningsSplit(s: Schema, all: seq<FactRecord>, a: seq<FactRecord>, b: seq<FactRecord>)
    requires multiset(all) == multiset(a) + multiset(b)
    ensures RecordWarnings(s, all) == RecordWarnings(s, a) + RecordWarnings(s, b)
  {
    hide EdgesIn, UnresolvedIn, NodesIn, EdgeWarning, ReferenceWarning, KindWarning, Total;
    KindsSplit(all, a, b);
    TotalSplits((n: NodeRecord) => KindWarning(s, n), NodesIn(all), NodesIn(a), NodesIn(b));
    TotalSplits((e: EdgeRecord) => EdgeWarning(s, e), EdgesIn(all), EdgesIn(a), EdgesIn(b));
    TotalSplits((u: UnresolvedRecord) => ReferenceWarning(s, u), UnresolvedIn(all), UnresolvedIn(a), UnresolvedIn(b));
  }

  // ----- the selected objects are as sound as all of them -----

  ghost predicate Within(k: RecordCounts, t: RecordCounts) {
    k.nodes <= t.nodes && k.edges <= t.edges && k.unresolved <= t.unresolved
  }

  lemma BatchesNext(w: World, slots: seq<Slot>, slot: Slot)
    requires NodeBatches(w, slots).Success? && NodeBatch(w, slot).Success?
    ensures NodeBatches(w, slots + [slot]) == Success(NodeBatches(w, slots).value + [NodeBatch(w, slot).value])
    ensures var t, c := TotalCounts(NodeBatches(w, slots).value), NodeBatch(w, slot).value.counts;
      TotalCounts(NodeBatches(w, slots + [slot]).value) ==
      RecordCounts(t.nodes + c.nodes, t.edges + c.edges, t.unresolved + c.unresolved)
  {
    assert (slots + [slot])[..|slots|] == slots;
    FlattenNext(NodeBatches(w, slots).value, NodeBatch(w, slot).value);
  }

  lemma BatchesSplit(w: World, slots: seq<Slot>)
    requires slots != [] && NodeBatches(w, slots).Success?
    ensures NodeBatches(w, slots[..|slots| - 1]).Success? && NodeBatch(w, slots[|slots| - 1]).Success?
  {
    hide NodeBatch;
  }

  lemma FilterNext(s: Schema, paths: set<Text>, wanted: bool, before: seq<Slot>, last: Slot)
    ensures var kept := Filter(s, paths, wanted, before);
      Filter(s, paths, wanted, before + [last]) == if Selects(s, paths, last) == wanted then kept + [last] else kept
  {
    hide Selects;
    assert (before + [last])[..|before|] == before;
  }

  ghost predicate CountsWithin(w: World, kept: seq<Slot>, slots: seq<Slot>) {
    && NodeBatches(w, slots).Success? && NodeBatches(w, kept).Success?
    && Within(TotalCounts(NodeBatches(w, kept).value), TotalCounts(NodeBatches(w, slots).value))
  }

  lemma CountsWithinNext(w: World, kept: seq<Slot>, slots: seq<Slot>, slot: Slot)
    requires CountsWithin(w, kept, slots) && NodeBatch(w, slot).Success?
    ensures CountsWithin(w, kept, slots + [slot]) && CountsWithin(w, kept + [slot], slots + [slot])
  {
    hide NodeBatch, NodeBatches, TotalCounts;
    BatchesNext(w, slots, slot);
    BatchesNext(w, kept, slot);
  }

  lemma FilterCountsNone(w: World, paths: set<Text>)
    ensures CountsWithin(w, Filter(w.s, paths, true, []), [])
  {
    assert Filter(w.s, paths, true, []) == [] && NodeBatches(w, []) == Success([]);
    hide Filter, NodeBatches;
  }

  lemma FilterCountsNext(w: World, paths: set<Text>, before: seq<Slot>, last: Slot)
    requires CountsWithin(w, Filter(w.s, paths, true, before), before) && NodeBatch(w, last).Success?
    ensures CountsWithin(w, Filter(w.s, paths, true, before + [last]), before + [last])
  {
    hide NodeBatch, Selects, Filter, CountsWithin;
    CountsWithinNext(w, Filter(w.s, paths, true, before), before, last);
    FilterNext(w.s, paths, true, before, last);
  }

  lemma {:induction false} FilterCounts(w: World, paths: set<Text>, slots: seq<Slot>)
    requires NodeBatches(w, slots).Success?
    ensures CountsWithin(w, Filter(w.s, paths, true, slots), slots)
    decreases |slots|
  {
    hide *;
    if slots == [] {
      FilterCountsNone(w, paths);
    } else {
      var before, last := slots[..|slots| - 1], slots[|slots| - 1];
      BatchesSplit(w, slots);
      FilterCounts(w, paths, before);
      FilterCountsNext(w, paths, before, last);
      assert slots == before + [last];
    }
  }

  lemma FilterSound(w: World, paths: set<Text>, slots: seq<Slot>)
    requires Sound(w, slots)
    ensures Sound(w, Filter(w.s, paths, true, slots))
  {
    SoundReadable(w, slots);
    FilterCounts(w, paths, slots);
    FilterMembers(w.s, paths, true, slots);
    var kept := Filter(w.s, paths, true, slots);
    hide NodeBatches, Filter, Valid, Readable, TotalCounts;
    forall i | 0 <= i < |kept| ensures Valid(w, kept[i]) && Readable(w, Relations, kept[i]) {
      assert kept[i] in slots;
      var j :| 0 <= j < |slots| && slots[j] == kept[i];
    }
  }

  // ----- both resolvers on the records of the selected objects -----

  lemma ResolversFaithful(s: Schema, nodes: seq<StagedNode>, base: set<Identity>)
    ensures Faithful(s, ResolveWithBase(s, nodes, base))
    ensures Faithful(s, ResolveIn(s, nodes))
  {
  }

  /** Whatever the resolver over all current nodes accepts of the delta's records, the delta's resolver accepts. */
  ghost predicate Covers(s: Schema, full: seq<StagedNode>, nodes: seq<StagedNode>, base: set<Identity>) {
    forall id :: ContainsIdentity(full, s.nodeKey(id), id) ==> ContainsIdentity(nodes, s.nodeKey(id), id) || id in base
  }

  lemma EdgeAccepted(s: Schema, full: seq<StagedNode>, nodes: seq<StagedNode>, base: set<Identity>, e: EdgeRecord)
    requires Covers(s, full, nodes, base)
    requires EdgeWith(s, ResolveIn(s, full), e).result.Success?
    requires e.source.ByKey? ==> ContainsKey(nodes, e.source.key)
    requires e.target.ByKey? ==> ContainsKey(nodes, e.target.key)
    ensures EdgeWith(s, ResolveWithBase(s, nodes, base), e).result.Success?
  {
    hide ConvertSpan, ContainsKey, ContainsIdentity, BaseHasKey;
  }

  lemma UnresolvedAccepted(s: Schema, full: seq<StagedNode>, nodes: seq<StagedNode>, base: set<Identity>, u: UnresolvedRecord)
    requires Covers(s, full, nodes, base)
    requires UnresolvedWith(s, ResolveIn(s, full), u).result.Success?
    requires u.source.ByKey? ==> ContainsKey(nodes, u.source.key)
    ensures UnresolvedWith(s, ResolveWithBase(s, nodes, base), u).result.Success?
  {
    hide ConvertSpan, ContainsKey, ContainsIdentity, BaseHasKey;
  }

  lemma KeyedStaged(s: Schema, digest: seq<byte> -> Text, records: seq<FactRecord>, nodes: seq<StagedNode>,
                    reference: NodeReference)
    requires forall x :: x in nodes <==> x in AllStaged(s, digest, NodesIn(records))
    requires Keyed(s, records, reference)
    ensures reference.ByKey? ==> ContainsKey(nodes, reference.key)
  {
    if reference.ByKey? {
      var n: NodeRecord :| Node(n) in records && s.nodeKey(n.id) == reference.key;
      NodeMembers(records);
      AllStagedMembers(s, digest, NodesIn(records));
      assert StagedOf(s, digest, n).key == s.nodeKey(n.id);
      hide StagedOf, AllStaged, NodesIn;
      var i :| 0 <= i < |nodes| && nodes[i] == StagedOf(s, digest, n);
    }
  }

  /** The delta converts all its records if the full load converts all of its own. */
  lemma DeltaConverts(s: Schema, digest: seq<byte> -> Text, all: seq<FactRecord>, read: seq<FactRecord>,
                      full: seq<StagedNode>, nodes: seq<StagedNode>, base: set<Identity>)
    requires Convert(s, ResolveIn(s, full), all) && Covers(s, full, nodes, base)
    requires forall r :: r in read ==> r in all
    requires AllKeyed(s, read)
    requires forall x :: x in nodes <==> x in AllStaged(s, digest, NodesIn(read))
    ensures Convert(s, ResolveWithBase(s, nodes, base), read)
  {
    var resolve, known := ResolveWithBase(s, nodes, base), ResolveIn(s, full);
    MembersIn(all);
    MembersIn(read);
    GatherExact((e: EdgeRecord) => EdgeWith(s, known, e), EdgesIn(all));
    GatherExact((u: UnresolvedRecord) => UnresolvedWith(s, known, u), UnresolvedIn(all));
    GatherExact((e: EdgeRecord) => EdgeWith(s, resolve, e), EdgesIn(read));
    GatherExact((u: UnresolvedRecord) => UnresolvedWith(s, resolve, u), UnresolvedIn(read));
    hide EdgesIn, UnresolvedIn, EdgeWith, UnresolvedWith, Gather, WarningSum, Covers, Keyed, ContainsKey, AllStaged, NodesIn;
    forall e | e in EdgesIn(read) ensures EdgeWith(s, resolve, e).result.Success? {
      assert Edge(e) in all && e in EdgesIn(all);
      assert EdgeWith(s, known, e).result.Success?;
      KeyedStaged(s, digest, read, nodes, e.source);
      KeyedStaged(s, digest, read, nodes, e.target);
      EdgeAccepted(s, full, nodes, base, e);
    }
    forall u | u in UnresolvedIn(read) ensures UnresolvedWith(s, resolve, u).result.Success? {
      assert Unresolved(u) in all && u in UnresolvedIn(all);
      assert UnresolvedWith(s, known, u).result.Success?;
      KeyedStaged(s, digest, read, nodes, u.source);
      UnresolvedAccepted(s, full, nodes, base, u);
    }
  }

  // ----- the passes over any sound objects -----

  /** A pass over sound objects whose node records are convertible and unambiguous, up to the resolver. */
  lemma PassesOver(w: World, m: Machinery, slots: seq<Slot>, records: seq<FactRecord>, resolve: Resolver)
    requires SortsByKey(m.sort) && NoCollision(m.digest, NodesIn(records))
    requires Sound(w, slots) && RecordsOf(w, slots, All) == Success(records)
    requires AllConvertible(w.s, NodesIn(records)) && Unambiguous(w.s, NodesIn(records))
    ensures var staged := StageSlots(w, m.digest, FRESH, slots);
      && staged.Success?
      && var nodes := Collapse(m.sort(staged.value.nodes));
         && nodes.Success?
         && (forall x :: x in nodes.value <==> x in AllStaged(w.s, m.digest, NodesIn(records)))
         && var done := RelateSlots(w, resolve, staged.value.(nodes := nodes.value), slots);
            && (done.Success? <==> Convert(w.s, resolve, records))
            && (done.Success? ==>
                  && done.value.edges == EdgesWith(w.s, resolve, records).value.0
                  && done.value.unresolved == ReferencesWith(w.s, resolve, records).value.0
                  && done.value.warnings == KindWarnings(w.s, NodesIn(records)) + EdgesWith(w.s, resolve, records).value.1
                                            + ReferencesWith(w.s, resolve, records).value.1)
  {
    hide Sound, NodeBatches, RecordsOf, StageSlots, RelateSlots, NodesIn, Flatten, AllConvertible, Unambiguous, NoCollision;
    hide AllStaged, EdgesIn, UnresolvedIn, Gather, TotalCounts, Collapse, SortsByKey, KeysAscend, EdgeWith, UnresolvedWith;
    hide KindWarnings;
    SoundReadable(w, slots);
    PassesAgree(w, slots);
    StageSlotsExact(w, m.digest, slots);
    CanonicalExact(w.s, m, NodesIn(records));
    var relations := RecordsOf(w, slots, Relations).value;
    var staged := StageSlots(w, m.digest, FRESH, slots);
    var list := AllStaged(w.s, m.digest, NodesIn(records));
    assert staged.value.nodes == FRESH.nodes + list == list;
    var nodes := Collapse(m.sort(staged.value.nodes)).value;
    var p := staged.value.(nodes := nodes);
    RelateSlotsExact(w, resolve, p, slots);
    assert EdgesWith(w.s, resolve, relations) == EdgesWith(w.s, resolve, records);
    assert ReferencesWith(w.s, resolve, relations) == ReferencesWith(w.s, resolve, records);
    hide EdgesWith, ReferencesWith;
    var done := RelateSlots(w, resolve, p, slots);
    if done.Success? {
      assert [] + EdgesWith(w.s, resolve, records).value.0 == EdgesWith(w.s, resolve, records).value.0;
      assert [] + ReferencesWith(w.s, resolve, records).value.0 == ReferencesWith(w.s, resolve, records).value.0;
    }
  }

  lemma LoadableNodes(s: Schema, records: seq<FactRecord>)
    requires Loadable(s, records)
    ensures AllConvertible(s, NodesIn(records)) && Unambiguous(s, NodesIn(records))
  {
    NodeMembers(records);
    UnambiguousRecords(s, records);
    hide NodesIn, NodeConvertible, Unambiguous;
  }

  lemma SubsetNodes(s: Schema, digest: seq<byte> -> Text, all: seq<FactRecord>, read: seq<FactRecord>)
    requires AllConvertible(s, NodesIn(all)) && Unambiguous(s, NodesIn(all)) && NoCollision(digest, NodesIn(all))
    requires forall r :: r in read ==> r in all
    ensures AllConvertible(s, NodesIn(read)) && Unambiguous(s, NodesIn(read)) && NoCollision(digest, NodesIn(read))
  {
    NodeMembers(all);
    NodeMembers(read);
    hide NodesIn, NodeConvertible, Signature.Addressable, Signature.Preimage;
    assert forall n :: n in NodesIn(read) ==> n in NodesIn(all);
  }

  /** The identities of a list of records. */
  ghost predicate Defines(records: seq<FactRecord>, id: Identity) {
    exists n: NodeRecord :: Node(n) in records && n.id == id
  }

  lemma StagedIdentity(s: Schema, digest: seq<byte> -> Text, records: seq<FactRecord>, nodes: seq<StagedNode>, id: Identity)
    requires forall x :: x in nodes <==> x in AllStaged(s, digest, NodesIn(records))
    ensures ContainsIdentity(nodes, s.nodeKey(id), id) <==> Defines(records, id)
  {
    NodeMembers(records);
    AllStagedMembers(s, digest, NodesIn(records));
    forall n ensures StagedOf(s, digest, n).key == s.nodeKey(n.id) && StagedOf(s, digest, n).identity == n.id {}
    hide StagedOf, AllStaged, NodesIn;
    if ContainsIdentity(nodes, s.nodeKey(id), id) {
      var i :| 0 <= i < |nodes| && nodes[i].key == s.nodeKey(id) && nodes[i].identity == id;
      assert nodes[i] in nodes;
      var n :| n in NodesIn(records) && nodes[i] == StagedOf(s, digest, n);
      assert Node(n) in records;
    }
    if Defines(records, id) {
      var n: NodeRecord :| Node(n) in records && n.id == id;
      assert StagedOf(s, digest, n) in nodes;
      var i :| 0 <= i < |nodes| && nodes[i] == StagedOf(s, digest, n);
    }
  }

  lemma SplitMembers<T>(all: seq<T>, a: seq<T>, b: seq<T>)
    requires multiset(all) == multiset(a) + multiset(b)
    ensures forall x :: x in all <==> x in a || x in b
  {
    forall x ensures x in all <==> x in a || x in b {
      assert x in all <==> x in multiset(all);
      assert x in a <==> x in multiset(a);
      assert x in b <==> x in multiset(b);
    }
  }

  lemma DeltaCovers(s: Schema, digest: seq<byte> -> Text, all: seq<FactRecord>, kept: seq<FactRecord>, read: seq<FactRecord>,
                    full: seq<StagedNode>, nodes: seq<StagedNode>, base: set<Identity>)
    requires forall r :: r in all <==> r in kept || r in read
    requires forall x :: x in full <==> x in AllStaged(s, digest, NodesIn(all))
    requires forall x :: x in nodes <==> x in AllStaged(s, digest, NodesIn(read))
    requires forall id :: Defines(kept, id) ==> id in base
    ensures Covers(s, full, nodes, base)
  {
    forall id | ContainsIdentity(full, s.nodeKey(id), id) ensures ContainsIdentity(nodes, s.nodeKey(id), id) || id in base {
      hide AllStaged, NodesIn;
      StagedIdentity(s, digest, all, full, id);
      StagedIdentity(s, digest, read, nodes, id);
      var n: NodeRecord :| Node(n) in all && n.id == id;
      assert Node(n) in kept || Node(n) in read;
      assert Defines(kept, id) || Defines(read, id);
    }
  }

  // ----- the incremental load agrees with the full one -----

  /**
   The situation an incremental sync starts from: both manifests are accepted, outside the changed paths
   and in the shared objects they agree, and the base holds every node of the previous unchanged objects.
   */
  ghost predicate Incremental(w: World, current: Metadata, previous: Metadata, paths: set<Text>, c: seq<Slot>, p: seq<Slot>,
                              base: set<Identity>)
  {
    && Lists(w.s, Index(current.files, current.sharedObjects), c)
    && Lists(w.s, Index(previous.files, previous.sharedObjects), p)
    && AgreeOutside(current, previous, paths)
    && (RecordsOf(w, Filter(w.s, paths, false, p), All).Success? ==>
          forall id :: Defines(RecordsOf(w, Filter(w.s, paths, false, p), All).value, id) ==> id in base)
  }

  lemma DeltaPasses(w: World, m: Machinery, current: Metadata, previous: Metadata, paths: set<Text>, c: seq<Slot>,
                    p: seq<Slot>, base: set<Identity>, full: seq<StagedNode>)
    requires Incremental(w, current, previous, paths, c, p, base)
    requires SortsByKey(m.sort) && Sound(w, c) && RecordsOf(w, c, All).Success?
    requires NoCollision(m.digest, NodesIn(RecordsOf(w, c, All).value)) && Loadable(w.s, RecordsOf(w, c, All).value)
    requires forall x :: x in full <==> x in AllStaged(w.s, m.digest, NodesIn(RecordsOf(w, c, All).value))
    requires Convert(w.s, ResolveIn(w.s, full), RecordsOf(w, c, All).value)
    ensures var slots := Filter(w.s, paths, true, c);
      var all, kept, read := RecordsOf(w, c, All).value, RecordsOf(w, Filter(w.s, paths, false, p), All), RecordsOf(w, slots, All);
      && kept.Success? && read.Success?
      && multiset(all) == multiset(kept.value) + multiset(read.value)
      && var delta := DeltaOver(w, m, current, slots, base);
         && delta.Success?
         && (forall x :: x in delta.value.nodes <==> x in AllStaged(w.s, m.digest, NodesIn(read.value)))
         && multiset(delta.value.edges) == EdgeShares(w.s, read.value)
         && multiset(delta.value.unresolved) == UnresolvedShares(w.s, read.value)
         && delta.value.warnings == RecordWarnings(w.s, read.value)
  {
    hide Lists, AgreeOutside, Sound, RecordsOf, Filter, NoCollision, NodesIn, Loadable, AllStaged, SortsByKey, AllConvertible, Unambiguous;
    hide StageSlots, Collapse, RelateSlots, Convert, EdgesWith, ReferencesWith, AllKeyed, EdgeShares, UnresolvedShares, Covers, KindWarnings, RelationWarnings;
    RecordsExact(w, current, previous, paths, c, p);
    var slots := Filter(w.s, paths, true, c);
    var all, kept, read := RecordsOf(w, c, All).value, RecordsOf(w, Filter(w.s, paths, false, p), All).value,
                           RecordsOf(w, slots, All).value;
    FilterSound(w, paths, c);
    SlotsKeyed(w, slots);
    LoadableNodes(w.s, all);
    SplitMembers(all, kept, read);
    SubsetNodes(w.s, m.digest, all, read);
    var staged := StageSlots(w, m.digest, FRESH, slots);
    PassesOver(w, m, slots, read, ResolveIn(w.s, full));
    var nodes := Collapse(m.sort(staged.value.nodes)).value;
    var resolve := ResolveWithBase(w.s, nodes, base);
    PassesOver(w, m, slots, read, resolve);
    DeltaCovers(w.s, m.digest, all, kept, read, full, nodes, base);
    DeltaConverts(w.s, m.digest, all, read, full, nodes, base);
    ResolversFaithful(w.s, nodes, base);
    ConvertedShares(w.s, resolve, read);
    ConvertedWarnings(w.s, resolve, read);
  }

  lemma {:induction false} NormalizeAllExact(s: Schema, paths: seq<Text>)
    ensures NormalizeAll(s, paths).Success? <==> forall p :: p in paths ==> s.normalize(p).Some?
  {
    if paths != [] {
      var before := paths[..|paths| - 1];
      assert paths == before + [paths[|paths| - 1]];
      NormalizeAllExact(s, before);
    }
  }

  /** A full load that succeeded, taken apart. */
  lemma FullLoadable(w: World, m: Machinery, id: Text)
    requires SortsByKey(m.sort) && LoadCompact(w, m, id).Success? && Distinguishes(w, m, id)
    ensures ReadManifest(w.s, w.store.manifest(id), id).Success?
    ensures var c := SlotsOf(w, id);
      Sound(w, c) && RecordsOf(w, c, All).Success? && Loadable(w.s, RecordsOf(w, c, All).value)
  {
    CompactExact(w, m, id);
    LoadExact(w, id);
    hide Load, LoadCompact, ReadManifest, Slots, Sound, RecordsOf, Loadable;
  }

  /** A full load that succeeded, taken apart. */
  lemma FullParts(w: World, m: Machinery, id: Text)
    requires SortsByKey(m.sort) && LoadCompact(w, m, id).Success? && Distinguishes(w, m, id)
    ensures var full, all := LoadCompact(w, m, id).value, RecordsOf(w, SlotsOf(w, id), All);
      && Sound(w, SlotsOf(w, id)) && all.Success? && Loadable(w.s, all.value)
      && (forall x :: x in full.nodes <==> x in AllStaged(w.s, m.digest, NodesIn(all.value)))
      && Convert(w.s, ResolveIn(w.s, full.nodes), all.value)
      && multiset(full.edges) == EdgeShares(w.s, all.value)
      && multiset(full.unresolved) == UnresolvedShares(w.s, all.value)
      && full.warnings == RecordWarnings(w.s, all.value)
  {
    FullLoadable(w, m, id);
    var c := SlotsOf(w, id);
    var full, all := LoadCompact(w, m, id).value, RecordsOf(w, c, All).value;
    LoadableNodes(w.s, all);
    hide ReadManifest, Slots, Sound, RecordsOf, NoCollision, NodesIn, Loadable, AllStaged, SortsByKey, AllConvertible, Unambiguous;
    hide StageSlots, Collapse, RelateSlots, Convert, EdgesWith, ReferencesWith, EdgeShares, UnresolvedShares, KindWarnings, RelationWarnings;
    var resolve := ResolveIn(w.s, full.nodes);
    hide ResolveIn;
    PassesOver(w, m, c, all, resolve);
    ResolversFaithful(w.s, full.nodes, {});
    ConvertedShares(w.s, resolve, all);
    ConvertedWarnings(w.s, resolve, all);
  }

  lemma ChangedAgree(current: Metadata, previous: Metadata, paths: seq<Text>)
    requires forall p :: p in paths <==> DiffersAt(current.files, previous.files, p)
    requires !SharedObjectsChanged(current, previous)
    ensures AgreeOutside(current, previous, set p | p in paths)
  {
    forall language, path | path !in paths
      ensures Get(current.files, (language, path)) == Get(previous.files, (language, path))
    {
      assert !DiffersAt(current.files, previous.files, path);
    }
  }

  /** The object of this slot defines a node of this identity. */
  ghost predicate Recorded(w: World, slot: Slot, id: Identity) {
    var read := ReadObject(w, slot.objectId, All);
    read.Success? && Defines(read.value.0.records, id)
  }

  /** A store that holds every node these objects define. */
  ghost predicate SlotsHeld(w: World, slots: seq<Slot>, base: set<Identity>) {
    forall slot, id :: slot in slots && Recorded(w, slot, id) ==> id in base
  }

  /**
   An incremental sync from `previous` to `current`: both are the metadata of accepted manifests, the
   paths are those under which their objects differ, and the base holds the nodes of the previous snapshot.
   */
  ghost predicate Syncs(w: World, current: Metadata, previous: Metadata, paths: seq<Text>, base: set<Identity>) {
    && IsMetadata(w, current) && IsMetadata(w, previous)
    && !SharedObjectsChanged(current, previous)
    && (forall p :: p in paths <==> DiffersAt(current.files, previous.files, p))
    && SlotsHeld(w, SlotsOf(w, previous.id), base)
  }

  ghost predicate IsMetadata(w: World, m: Metadata) {
    var r := ReadManifest(w.s, w.store.manifest(m.id), m.id);
    r.Success? && r.value.1 == m
  }

  lemma MetadataLists(w: World, m: Metadata)
    requires IsMetadata(w, m)
    ensures Lists(w.s, Index(m.files, m.sharedObjects), SlotsOf(w, m.id))
  {
    ManifestExact(w.s, w.store.manifest(m.id), m.id);
  }

  /** The previous records that need not be read again. */
  function Kept(w: World, previous: Metadata, paths: seq<Text>): Result<seq<FactRecord>, SnapshotError> {
    RecordsOf(w, Filter(w.s, set x | x in paths, false, SlotsOf(w, previous.id)), All)
  }

  /** What the full load holds is what was kept and what the delta reads. */
  ghost predicate Completes(w: World, m: Machinery, kept: seq<FactRecord>, full: Compact, delta: Compact) {
    && (forall x :: x in full.nodes <==> x in AllStaged(w.s, m.digest, NodesIn(kept)) || x in delta.nodes)
    && multiset(full.edges) == EdgeShares(w.s, kept) + multiset(delta.edges)
    && multiset(full.unresolved) == UnresolvedShares(w.s, kept) + multiset(delta.unresolved)
  }

  /** With stable paths, the delta runs over the objects at these paths. */
  lemma DeltaOpens(w: World, m: Machinery, current: Metadata, paths: seq<Text>, base: set<Identity>)
    requires IsMetadata(w, current) && forall p :: p in paths ==> Stable(w.s, p)
    ensures LoadDelta(w, m, current, paths, base) ==
            DeltaOver(w, m, current, Filter(w.s, set p | p in paths, true, SlotsOf(w, current.id)), base)
  {
    NormalizeAllStable(w.s, paths);
    hide ReadManifest, Slots, DeltaOver, Filter, NormalizeAll;
  }

  lemma StableDelta(w: World, m: Machinery, current: Metadata, previous: Metadata, paths: seq<Text>, base: set<Identity>)
    requires SortsByKey(m.sort) && Distinguishes(w, m, current.id)
    requires LoadCompact(w, m, current.id).Success?
    requires Syncs(w, current, previous, paths, base)
    requires forall p :: p in paths ==> Stable(w.s, p)
    ensures LoadDelta(w, m, current, paths, base).Success?
    ensures Kept(w, previous, paths).Success?
    ensures Completes(w, m, Kept(w, previous, paths).value, LoadCompact(w, m, current.id).value,
                      LoadDelta(w, m, current, paths, base).value)
  {
    hide ReadManifest, SlotsOf, Lists, Sound, Loadable, RecordsOf, Filter, NoCollision, NodesIn, AllStaged, SortsByKey;
    hide DeltaOver, LoadDelta, Convert, EdgeShares, UnresolvedShares, DiffersAt, Defines, SlotsHeld;
    hide AgreeOutside, LoadCompact, SharedObjectsChanged, Stable, ResolveIn, IsMetadata;
    var c, p, selected := SlotsOf(w, current.id), SlotsOf(w, previous.id), set x | x in paths;
    DeltaOpens(w, m, current, paths, base);
    MetadataLists(w, current);
    MetadataLists(w, previous);
    FullParts(w, m, current.id);
    ChangedAgree(current, previous, paths);
    var full := LoadCompact(w, m, current.id).value;
    KeptDefined(w, selected, p, base);
    DeltaPasses(w, m, current, previous, selected, c, p, base, full.nodes);
    var all, kept, read := RecordsOf(w, c, All).value, RecordsOf(w, Filter(w.s, selected, false, p), All).value,
                           RecordsOf(w, Filter(w.s, selected, true, c), All).value;
    SharesSplit(w.s, all, kept, read);
    StagedSplit(w.s, m.digest, all, kept, read);
  }

  /** Normalising twice changes nothing, where it does not fail. */
  ghost predicate Settles(s: Schema) {
    forall p :: s.normalize(p).Some? ==> s.normalize(s.normalize(p).value) in {s.normalize(p), None}
  }

  /** `normalize_repository_path` settles; `RepositoryPath.DriveExposed` is a path it refuses the second time. */
  lemma PathsSettle(s: Schema, control: Text -> bool)
    requires forall p :: s.normalize(p) ==
                         match RepositoryPath.Normalize(control, p) case Success(q) => Some(q) case Failure(_) => None
    ensures Settles(s)
    ensures forall p :: s.normalize(p).Some? ==> (Stable(s, s.normalize(p).value) <==> !RepositoryPath.HasDrivePrefix(s.normalize(p).value))
  {
    hide RepositoryPath.Normalize;
    forall p | s.normalize(p).Some?
      ensures s.normalize(s.normalize(p).value) ==
              if RepositoryPath.HasDrivePrefix(s.normalize(p).value) then None else s.normalize(p)
    {
      RepositoryPath.NormalizeTwice(control, p);
    }
  }

  lemma ChangedSettle(w: World, current: Metadata, previous: Metadata, paths: seq<Text>, base: set<Identity>)
    requires Syncs(w, current, previous, paths, base) && Settles(w.s)
    ensures forall p :: p in paths ==> Stable(w.s, p) || w.s.normalize(p).None?
  {
    hide IndexTo, Slots, SlotsOf, RecordsOf, StrictlySorted;
    IndexInNormalForm(w.s, w.store.manifest(current.id).value.languages, |w.store.manifest(current.id).value.languages|);
    IndexInNormalForm(w.s, w.store.manifest(previous.id).value.languages, |w.store.manifest(previous.id).value.languages|);
    hide InNormalForm;
    forall p | p in paths ensures Stable(w.s, p) || w.s.normalize(p).None? {
      var language :| (language, p) in current.files || (language, p) in previous.files;
      PathSettles(w.s, p);
    }
  }

  lemma PathSettles(s: Schema, path: Text)
    requires InNormalForm(s, path) && Settles(s)
    ensures Stable(s, path) || s.normalize(path).None?
  {
    var p :| s.normalize(p) == Some(path);
  }

  /**
   When the shared objects are equal and the full load succeeds, the incremental load succeeds exactly
   when normalisation leaves every changed path alone. The records of the previous snapshot's unchanged
   and shared objects together with those the delta reads are then those of the full load: its nodes, and
   its edges and unresolved references with their multiplicities.
   */
  lemma DeltaExact(w: World, m: Machinery, current: Metadata, previous: Metadata, paths: seq<Text>, base: set<Identity>)
    requires SortsByKey(m.sort) && Distinguishes(w, m, current.id)
    requires LoadCompact(w, m, current.id).Success?
    requires Syncs(w, current, previous, paths, base)
    requires Settles(w.s)
    ensures LoadDelta(w, m, current, paths, base).Success? <==> forall p :: p in paths ==> Stable(w.s, p)
    ensures LoadDelta(w, m, current, paths, base).Success? ==>
              && Kept(w, previous, paths).Success?
              && Completes(w, m, Kept(w, previous, paths).value, LoadCompact(w, m, current.id).value,
                           LoadDelta(w, m, current, paths, base).value)
  {
    hide ReadManifest, DeltaOver, Filter, NormalizeAll, LoadCompact, Kept, Completes, Syncs, Distinguishes;
    NormalizeAllExact(w.s, paths);
    ChangedSettle(w, current, previous, paths, base);
    if forall p :: p in paths ==> Stable(w.s, p) {
      StableDelta(w, m, current, previous, paths, base);
    } else {
      var p :| p in paths && !Stable(w.s, p);
      assert w.s.normalize(p).None?;
    }
  }

  /** The object of this slot can be read and holds this record. */
  ghost predicate HoldsRecord(w: World, slot: Slot, r: FactRecord) {
    ReadObject(w, slot.objectId, All).Success? && r in ReadObject(w, slot.objectId, All).value.0.records
  }

  lemma OriginNext(w: World, slots: seq<Slot>, r: FactRecord)
    requires slots != [] && RecordsOf(w, slots, All).Success?
    ensures RecordsOf(w, slots[..|slots| - 1], All).Success?
    ensures r in RecordsOf(w, slots, All).value <==>
            r in RecordsOf(w, slots[..|slots| - 1], All).value || HoldsRecord(w, slots[|slots| - 1], r)
  {
    hide ReadObject;
  }

  lemma {:induction false} RecordOrigin(w: World, slots: seq<Slot>, r: FactRecord)
    requires RecordsOf(w, slots, All).Success?
    ensures r in RecordsOf(w, slots, All).value <==> exists slot :: slot in slots && HoldsRecord(w, slot, r)
    decreases |slots|
  {
    hide RecordsOf, HoldsRecord;
    if slots == [] {
      NothingRead(w);
    } else {
      var before, last := slots[..|slots| - 1], slots[|slots| - 1];
      OriginNext(w, slots, r);
      RecordOrigin(w, before, r);
      assert slots == before + [last];
    }
  }

  lemma NothingRead(w: World)
    ensures RecordsOf(w, [], All) == Success([])
  {
  }

  lemma KeptDefined(w: World, paths: set<Text>, p: seq<Slot>, base: set<Identity>)
    requires SlotsHeld(w, p, base)
    ensures var kept := RecordsOf(w, Filter(w.s, paths, false, p), All);
      kept.Success? ==> forall id :: Defines(kept.value, id) ==> id in base
  {
    FilterMembers(w.s, paths, false, p);
    hide RecordsOf, Filter, ReadObject;
    var slots := Filter(w.s, paths, false, p);
    if RecordsOf(w, slots, All).Success? {
      forall id | Defines(RecordsOf(w, slots, All).value, id) ensures id in base {
        var n: NodeRecord :| Node(n) in RecordsOf(w, slots, All).value && n.id == id;
        RecordOrigin(w, slots, Node(n));
        var slot :| slot in slots && HoldsRecord(w, slot, Node(n));
        assert Recorded(w, slot, id);
      }
    }
  }

  lemma StagedSplit(s: Schema, digest: seq<byte> -> Text, all: seq<FactRecord>, a: seq<FactRecord>, b: seq<FactRecord>)
    requires multiset(all) == multiset(a) + multiset(b)
    ensures forall x :: x in AllStaged(s, digest, NodesIn(all)) <==>
                        x in AllStaged(s, digest, NodesIn(a)) || x in AllStaged(s, digest, NodesIn(b))
  {
    SplitMembers(all, a, b);
    NodeMembers(all);
    NodeMembers(a);
    NodeMembers(b);
    AllStagedMembers(s, digest, NodesIn(all));
    AllStagedMembers(s, digest, NodesIn(a));
    AllStagedMembers(s, digest, NodesIn(b));
    hide AllStaged, NodesIn, StagedOf;
    forall x ensures x in AllStaged(s, digest, NodesIn(all)) <==>
                     x in AllStaged(s, digest, NodesIn(a)) || x in AllStaged(s, digest, NodesIn(b))
    {
      if x in AllStaged(s, digest, NodesIn(all)) {
        var n :| n in NodesIn(all) && x == StagedOf(s, digest, n);
        assert n in NodesIn(a) || n in NodesIn(b);
      }
      if x in AllStaged(s, digest, NodesIn(a)) {
        var n :| n in NodesIn(a) && x == StagedOf(s, digest, n);
        assert n in NodesIn(all);
      }
      if x in AllStaged(s, digest, NodesIn(b)) {
        var n :| n in NodesIn(b) && x == StagedOf(s, digest, n);
        assert n in NodesIn(all);
      }
    }
  }

  // ----- when both resolvers accept the same references -----

  /** Do both resolvers give every identity the same answer? */
  ghost predicate SameAnswers(s: Schema, full: seq<StagedNode>, nodes: seq<StagedNode>, base: set<Identity>) {
    forall id :: ResolveWithBase(s, nodes, base)(ByIdentity(id)) == ResolveIn(s, full)(ByIdentity(id))
  }

  /**
   With everything current either in the base or read again, the delta's resolver answers as the full one
   exactly when the base holds no identity that is gone.
   */
  lemma AnswersExact(s: Schema, full: seq<StagedNode>, nodes: seq<StagedNode>, base: set<Identity>)
    requires Covers(s, full, nodes, base)
    requires forall id :: ContainsIdentity(nodes, s.nodeKey(id), id) ==> ContainsIdentity(full, s.nodeKey(id), id)
    ensures SameAnswers(s, full, nodes, base) <==> forall id :: id in base ==> ContainsIdentity(full, s.nodeKey(id), id)
  {
    hide ContainsIdentity;
    if SameAnswers(s, full, nodes, base) {
      forall id | id in base ensures ContainsIdentity(full, s.nodeKey(id), id) {
        assert ResolveWithBase(s, nodes, base)(ByIdentity(id)) == ResolveIn(s, full)(ByIdentity(id));
      }
    }
  }

  /**
   If the node identities at the changed paths are unchanged, both resolvers accept the same identities,
   with the same keys; and both accept every key reference the delta's own records make.
   */
  lemma UnchangedIdentitiesResolve(s: Schema, digest: seq<byte> -> Text, all: seq<FactRecord>, kept: seq<FactRecord>,
                                   before: seq<FactRecord>, read: seq<FactRecord>, full: seq<StagedNode>,
                                   nodes: seq<StagedNode>, base: set<Identity>)
    requires forall r :: r in all <==> r in kept || r in read
    requires forall x :: x in full <==> x in AllStaged(s, digest, NodesIn(all))
    requires forall x :: x in nodes <==> x in AllStaged(s, digest, NodesIn(read))
    requires forall id :: id in base <==> Defines(kept, id) || Defines(before, id)
    requires forall id :: Defines(before, id) <==> Defines(read, id)
    ensures SameAnswers(s, full, nodes, base)
    ensures forall reference: NodeReference :: reference.ByKey? && Keyed(s, read, reference) ==>
              ResolveWithBase(s, nodes, base)(reference) == ResolveIn(s, full)(reference) == Success(reference.key)
  {
    DeltaCovers(s, digest, all, kept, read, full, nodes, base);
    forall id ensures ContainsIdentity(nodes, s.nodeKey(id), id) <==> Defines(read, id) {
      StagedIdentity(s, digest, read, nodes, id);
    }
    forall id ensures ContainsIdentity(full, s.nodeKey(id), id) <==> Defines(all, id) {
      StagedIdentity(s, digest, all, full, id);
    }
    forall id ensures Defines(all, id) <==> Defines(kept, id) || Defines(read, id) {
      if Defines(kept, id) {
        var n: NodeRecord :| Node(n) in kept && n.id == id;
        assert Node(n) in all;
      }
      if Defines(read, id) {
        var n: NodeRecord :| Node(n) in read && n.id == id;
        assert Node(n) in all;
      }
      if Defines(all, id) {
        var n: NodeRecord :| Node(n) in all && n.id == id;
        assert Node(n) in kept || Node(n) in read;
      }
    }
    hide Defines, ContainsIdentity, AllStaged, NodesIn, Covers;
    AnswersExact(s, full, nodes, base);
    forall reference: NodeReference | reference.ByKey? && Keyed(s, read, reference)
      ensures ResolveWithBase(s, nodes, base)(reference) == ResolveIn(s, full)(reference) == Success(reference.key)
    {
      KeyedStaged(s, digest, read, nodes, reference);
    }
  }
}
