/**
 arcana/src/lexicon/stream_compact.rs and records.rs: the compatibility warnings of the two full loads.

 Both count a message for every relation with an unrecognised label. For a node with an unrecognised kind
 `load` counts one per distinct node and `load_compact` one per record. The main result is by how much
 the counts differ, and that they are equal exactly when no such node is recorded twice.
 */
module CompactWarnings {
  import opened Wrappers
  import opened Lexicon
  import opened Ordering
  import opened Records
  import opened StreamRecords
  import opened SnapshotManifest
  import opened SnapshotLoad
  import opened StagedNodes
  import opened CompactLoad

  /** Everything the objects of a snapshot hold. */
  ghost function RecordsAt(w: World, id: Text): seq<FactRecord> {
    var r := RecordsOf(w, SlotsOf(w, id), All);
    if r.Success? then r.value else []
  }

  // ----- what the compact load counts -----

  lemma GatheredWarnings(s: Schema, ids: map<Identity, NodeKey>, records: seq<FactRecord>)
    requires AllEdges(s, ids, EdgesIn(records)).Success? && AllUnresolved(s, ids, UnresolvedIn(records)).Success?
    ensures AllEdges(s, ids, EdgesIn(records)).value.1 == EdgeWarnings(s, ids, records)
    ensures AllUnresolved(s, ids, UnresolvedIn(records)).value.1 == UnresolvedWarnings(s, ids, records)
  {
    hide EdgesIn, UnresolvedIn, ConvertEdge, ConvertUnresolved, Gather, WarningSum;
    GatherExact((e: EdgeRecord) => ConvertEdge(s, ids, e), EdgesIn(records));
    GatherExact((u: UnresolvedRecord) => ConvertUnresolved(s, ids, u), UnresolvedIn(records));
  }

  /** The relation pass counts what converting the same relations in one go counts. */
  lemma RelationWarnings(w: World, resolve: Resolver, ids: map<Identity, NodeKey>, p: Pass, slots: seq<Slot>, all: seq<FactRecord>)
    requires NodeBatches(w, slots).Success? && CountsFit(NodeBatches(w, slots).value)
    requires p.planned == TotalCounts(NodeBatches(w, slots).value) && p.related == RecordCounts(0, 0, 0)
    requires RecordsOf(w, slots, Relations).Success? && RelateSlots(w, resolve, p, slots).Success?
    requires forall reference :: resolve(reference) == LookupId(ids, reference)
    requires EdgesIn(RecordsOf(w, slots, Relations).value) == EdgesIn(all)
    requires UnresolvedIn(RecordsOf(w, slots, Relations).value) == UnresolvedIn(all)
    ensures RelateSlots(w, resolve, p, slots).value.warnings ==
            p.warnings + EdgeWarnings(w.s, ids, all) + UnresolvedWarnings(w.s, ids, all)
  {
    hide RelateSlots, NodeBatches, RecordsOf, EdgesIn, UnresolvedIn, EdgesWith, ReferencesWith, AllEdges, AllUnresolved;
    hide EdgeWarnings, UnresolvedWarnings, TotalCounts;
    var relations := RecordsOf(w, slots, Relations).value;
    RelateSlotsExact(w, resolve, p, slots);
    SameConversions(w.s, resolve, ids, relations);
    GatheredWarnings(w.s, ids, all);
  }

  lemma Loaded(w: World, m: Machinery, id: Text)
    requires SortsByKey(m.sort) && Distinguishes(w, m, id) && LoadCompact(w, m, id).Success?
    ensures RecordsOf(w, SlotsOf(w, id), All).Success? && Sound(w, SlotsOf(w, id))
    ensures NoCollision(m.digest, NodesIn(RecordsAt(w, id)))
    ensures Build(w.s, RecordsAt(w, id)).Success?
  {
    CompactExact(w, m, id);
    LoadExact(w, id);
    hide Load, LoadCompact, ReadManifest, Slots, RecordsOf, Sound, Loadable, Build, NoCollision, NodesIn;
  }

  lemma CompactCounts(w: World, m: Machinery, id: Text)
    requires SortsByKey(m.sort) && Distinguishes(w, m, id) && LoadCompact(w, m, id).Success?
    ensures RecordsOf(w, SlotsOf(w, id), All).Success?
    ensures Records.NodesOf(w.s, RecordsAt(w, id)).Success?
    ensures var all := RecordsAt(w, id);
      var ids := Records.NodesOf(w.s, all).value.ids;
      LoadCompact(w, m, id).value.warnings ==
      KindWarnings(w.s, NodesIn(all)) + EdgeWarnings(w.s, ids, all) + UnresolvedWarnings(w.s, ids, all)
  {
    hide Load, ReadManifest, Slots, NodeBatches, RecordsOf, Sound, CountsFit, Loadable, Build, StageSlots, Collapse, RelateSlots;
    hide SortsByKey, NoCollision, NodesIn, EdgesIn, UnresolvedIn, AllStaged, KeysAscend, EdgeWarnings, UnresolvedWarnings;
    hide Records.NodesOf, AllConvertible, KindWarnings, ResolveIn, TotalCounts, AllEdges, AllUnresolved, Flatten, Distinguishes;
    Loaded(w, m, id);
    var slots, all := SlotsOf(w, id), RecordsAt(w, id);
    SoundReadable(w, slots);
    BuildWarnings(w.s, all);
    CompactBuilds(w, m, slots);
    PassesAgree(w, slots);
    StageSlotsExact(w, m.digest, slots);
    NodesExact(w.s, all);
    var staged := StageSlots(w, m.digest, FRESH, slots).value;
    var nodes := Collapse(m.sort(staged.nodes)).value;
    var ids := Records.NodesOf(w.s, all).value.ids;
    hide Indexes;
    ResolverIndexes(w.s, m.digest, all, nodes, ids);
    assert staged.warnings == multiset{} + KindWarnings(w.s, NodesIn(all)) == KindWarnings(w.s, NodesIn(all));
    RelationWarnings(w, ResolveIn(w.s, nodes), ids, staged.(nodes := nodes), slots, all);
  }

  // ----- records against distinct records -----

  /** The members with a property, as often as they occur. */
  ghost function Kept<A>(p: A -> bool, records: seq<A>): multiset<A> {
    Total((r: A) => if p(r) then multiset{r} else multiset{}, records)
  }

  lemma {:induction false} KeptExact<A>(p: A -> bool, records: seq<A>)
    ensures |Kept(p, records)| == Occurrences(p, records)
    ensures forall r :: Kept(p, records)[r] == if p(r) then multiset(records)[r] else 0
  {
    if records != [] {
      var before, last := records[..|records| - 1], records[|records| - 1];
      KeptExact(p, before);
      assert records == before + [last];
      assert Kept(p, records) == Kept(p, before) + if p(last) then multiset{last} else multiset{};
    }
  }

  /** The members with a property, once each. */
  ghost function Once<A>(p: A -> bool, records: seq<A>): set<A> {
    set r | r in records && p(r)
  }

  /** How many members with a property repeat an earlier one. */
  ghost function Repeats<A>(p: A -> bool, records: seq<A>): int {
    Occurrences(p, records) - |Once(p, records)|
  }

  lemma {:induction false} SetSize<A>(s: set<A>)
    ensures |multiset(s)| == |s|
  {
    if s != {} {
      var x :| x in s;
      assert multiset(s) == multiset(s - {x}) + multiset{x};
      SetSize(s - {x});
    }
  }

  lemma RepeatsExact<A(!new)>(p: A -> bool, records: seq<A>)
    ensures Repeats(p, records) >= 0
    ensures Repeats(p, records) == 0 <==> forall r :: r in records && p(r) ==> multiset(records)[r] == 1
  {
    KeptExact(p, records);
    var once := multiset(Once(p, records));
    SetSize(Once(p, records));
    var all := Kept(p, records);
    forall r ensures once[r] <= all[r] {
      assert r in records <==> r in multiset(records);
    }
    assert all == once + (all - once);
    assert Repeats(p, records) == |all - once|;
    if |all - once| == 0 {
      forall r | r in records && p(r) ensures multiset(records)[r] == 1 {
        assert (all - once)[r] == 0;
      }
    } else {
      var r :| r in all - once;
      assert all[r] > 1;
    }
  }

  lemma OccurrencesOnce<A(!new)>(p: A -> bool, once: seq<A>, records: seq<A>)
    requires Distinct(once) && forall r :: r in once <==> r in records
    ensures Occurrences(p, once) == |Once(p, records)|
  {
    DistinctCounts(once);
    RepeatsExact(p, once);
    forall r | r in once && p(r) ensures multiset(once)[r] == 1 {
      assert r in multiset(once);
    }
    assert Once(p, once) == Once(p, records);
  }

  // ----- the comparison -----

  /** A node record of this kind, which is not recognised. */
  predicate OfUnknownKind(s: Schema, kind: Text, n: NodeRecord) {
    n.kind == kind && s.nodeKind(kind).None?
  }

  function UnknownKind(s: Schema, kind: Text): NodeRecord -> bool {
    (n: NodeRecord) => OfUnknownKind(s, kind, n)
  }

  lemma InOrderDistinct(records: seq<FactRecord>)
    requires CollectNodes(records).Success?
    ensures Distinct(InOrder(CollectNodes(records).value))
  {
    CollectExact(records);
    hide CollectNodes, Consistent;
    var nodes := CollectNodes(records).value;
    var ids := AscendingIds(nodes.Keys);
    var ordered := InOrder(nodes);
    forall i, j | 0 <= i < j < |ordered| ensures ordered[i] != ordered[j] {
      assert ids[i] != ids[j];
      assert nodes[ids[i]].id == ids[i] && nodes[ids[j]].id == ids[j];
    }
  }

  lemma {:induction false} KindWarningCount(s: Schema, nodes: seq<NodeRecord>, x: Warning)
    ensures KindWarnings(s, nodes)[x] ==
            if x.UnknownNodeKind? then Occurrences(UnknownKind(s, x.text), nodes) else 0
  {
    if nodes != [] { KindWarningCount(s, nodes[..|nodes| - 1], x); }
  }

  /** How much more often the compact load counts a message. */
  ghost function Surplus(s: Schema, all: seq<FactRecord>, x: Warning): int {
    if x.UnknownNodeKind? then Repeats(UnknownKind(s, x.text), NodesIn(all)) else 0
  }

  lemma LoadNodeWarnings(s: Schema, all: seq<FactRecord>, x: Warning)
    requires Records.NodesOf(s, all).Success?
    ensures Records.NodesOf(s, all).value.warnings[x] + Surplus(s, all, x) == KindWarnings(s, NodesIn(all))[x]
  {
    InOrderMembers(all);
    InOrderDistinct(all);
    NodeMembers(all);
    KindWarningCount(s, NodesIn(all), x);
    hide CollectNodes, InOrder, NodesIn, ConvertNodes, KindWarnings;
    var ordered := InOrder(CollectNodes(all).value);
    NodeWarnings(s, ordered, x);
    var p := (n: NodeRecord) => x == UnknownNodeKind(n.kind) && s.nodeKind(n.kind).None?;
    if x.UnknownNodeKind? {
      var q := UnknownKind(s, x.text);
      SameOccurrences(p, q, ordered);
      assert forall n :: n in ordered <==> n in NodesIn(all);
      OccurrencesOnce(q, ordered, NodesIn(all));
    } else {
      NoOccurrences(p, ordered);
    }
  }

  /**
   The compact load counts every message as often as `load`, and an unrecognised kind once more for every
   repetition of a node record of that kind. The warnings are therefore equal exactly when no node record
   with an unrecognised kind occurs twice among the snapshot's objects.
   */
  lemma WarningsCompared(w: World, m: Machinery, id: Text)
    requires SortsByKey(m.sort) && Distinguishes(w, m, id) && LoadCompact(w, m, id).Success?
    ensures Load(w, id).Success?
    ensures forall x :: LoadCompact(w, m, id).value.warnings[x] == Load(w, id).value.warnings[x] + Surplus(w.s, RecordsAt(w, id), x)
    ensures LoadCompact(w, m, id).value.warnings == Load(w, id).value.warnings <==>
            forall n :: n in NodesIn(RecordsAt(w, id)) && w.s.nodeKind(n.kind).None? ==> multiset(NodesIn(RecordsAt(w, id)))[n] == 1
  {
    hide Load, LoadCompact, ReadManifest, Slots, NodeBatches, RecordsOf, Sound, Loadable, Build, SortsByKey, Distinguishes;
    hide EdgeWarnings, UnresolvedWarnings, Records.NodesOf, KindWarnings, NodesIn, Surplus, SlotsOf;
    CompactExact(w, m, id);
    CompactCounts(w, m, id);
    LoadedRecords(w, id);
    var all := RecordsAt(w, id);
    BuildWarnings(w.s, all);
    var compact, full := LoadCompact(w, m, id).value.warnings, Load(w, id).value.warnings;
    forall x ensures compact[x] == full[x] + Surplus(w.s, all, x) {
      LoadNodeWarnings(w.s, all, x);
    }
    SurplusNone(w.s, all);
    if forall x :: Surplus(w.s, all, x) == 0 {
      assert compact == full;
    }
  }

  lemma LoadedRecords(w: World, id: Text)
    requires Load(w, id).Success?
    ensures Build(w.s, RecordsAt(w, id)).Success?
    ensures Load(w, id).value.warnings == Build(w.s, RecordsAt(w, id)).value.warnings
  {
    LoadExact(w, id);
    hide Load, ReadManifest, Slots, RecordsOf, Sound, Loadable, Build;
  }

  lemma SurplusNone(s: Schema, all: seq<FactRecord>)
    ensures forall x :: Surplus(s, all, x) >= 0
    ensures (forall x :: Surplus(s, all, x) == 0) <==>
            forall n :: n in NodesIn(all) && s.nodeKind(n.kind).None? ==> multiset(NodesIn(all))[n] == 1
  {
    hide NodesIn, Repeats;
    var nodes := NodesIn(all);
    forall x ensures Surplus(s, all, x) >= 0 {
      if x.UnknownNodeKind? { RepeatsExact(UnknownKind(s, x.text), nodes); }
    }
    if forall x :: Surplus(s, all, x) == 0 {
      forall n | n in nodes && s.nodeKind(n.kind).None? ensures multiset(nodes)[n] == 1 {
        RepeatsExact(UnknownKind(s, n.kind), nodes);
        assert Surplus(s, all, UnknownNodeKind(n.kind)) == 0;
      }
    } else {
      var x :| Surplus(s, all, x) != 0;
      RepeatsExact(UnknownKind(s, x.text), nodes);
    }
  }
}
