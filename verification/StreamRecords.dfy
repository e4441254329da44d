/**
 arcana/src/lexicon/stream_records.rs: building repository facts in two passes over the objects.

 The first pass keeps node records only, the second converts relations as they come and defers its
 errors. The main result: however a list of records is split into objects, the two passes give what
 `Records.Build` gives on the list in one go, the same error included.
 */
module StreamRecords {
  import opened Wrappers
  import opened Lexicon
  import opened Facts
  import opened Records

  const COUNT_LIMIT: nat := 0x1_0000_0000_0000_0000

  function CheckedAdd(a: RecordCounts, b: RecordCounts): Option<RecordCounts> {
    if a.nodes + b.nodes < COUNT_LIMIT && a.edges + b.edges < COUNT_LIMIT && a.unresolved + b.unresolved < COUNT_LIMIT
    then Some(RecordCounts(a.nodes + b.nodes, a.edges + b.edges, a.unresolved + b.unresolved))
    else None
  }

  // ----- the node pass -----

  datatype Gathering = Gathering(nodes: map<Identity, NodeRecord>, counts: RecordCounts, conflict: Option<LoadError>)

  const NOTHING := Gathering(map[], RecordCounts(0, 0, 0), None)

  /** Inserts node records up to the first conflict. */
  function InsertAll(nodes: map<Identity, NodeRecord>, records: seq<FactRecord>): (map<Identity, NodeRecord>, Option<LoadError>) {
    if records == [] then (nodes, None)
    else
      var (before, conflict) := InsertAll(nodes, records[..|records| - 1]);
      var last := records[|records| - 1];
      if conflict.Some? || !last.Node? then (before, conflict)
      else
        match InsertNode(before, last.node)
        case Failure(error) => (before, Some(error))
        case Success(after) => (after, None)
  }

  function IngestNodes(g: Gathering, records: seq<FactRecord>, counts: RecordCounts): Gathering {
    if g.conflict.Some? then g
    else
      match CheckedAdd(g.counts, counts)
      case None => g.(conflict := Some(CountOverflow))
      case Some(total) =>
        var (nodes, conflict) := InsertAll(g.nodes, records);
        Gathering(nodes, total, conflict)
  }

  /** The records of one object as a pass receives them, with the counts of the object. */
  datatype Batch = Batch(records: seq<FactRecord>, counts: RecordCounts)

  function IngestAllNodes(batches: seq<Batch>): Gathering {
    if batches == [] then NOTHING
    else
      var last := batches[|batches| - 1];
      IngestNodes(IngestAllNodes(batches[..|batches| - 1]), last.records, last.counts)
  }

  ghost function FinishNodes(s: Schema, g: Gathering): Result<NodeState, LoadError> {
    if g.conflict.Some? then Failure(g.conflict.value) else ConvertNodes(s, InOrder(g.nodes))
  }

  class NodePass {
    var nodes: map<Identity, NodeRecord>
    var counts: RecordCounts
    var conflict: Option<LoadError>

    function State(): Gathering
      reads this
    {
      Gathering(nodes, counts, conflict)
    }

    constructor ()
      ensures State() == NOTHING
    {
      nodes, counts, conflict := map[], RecordCounts(0, 0, 0), None;
    }

    method Ingest(records: seq<FactRecord>, added: RecordCounts)
      modifies this
      ensures State() == IngestNodes(old(State()), records, added)
    {
      if conflict.Some? { return; }
      var total := CheckedAdd(counts, added);
      if total.None? {
        conflict := Some(CountOverflow);
        return;
      }
      counts := total.value;
      var i := 0;
      while i < |records|
        invariant 0 <= i <= |records| && conflict == None && counts == total.value
        invariant InsertAll(old(nodes), records[..i]) == (nodes, None)
      {
        assert records[..i + 1][..i] == records[..i];
        if records[i].Node? {
          var inserted := InsertNode(nodes, records[i].node);
          if inserted.Failure? {
            conflict := Some(inserted.error);
            InsertPrefix(old(nodes), records, i + 1);
            return;
          }
          nodes := inserted.value;
        }
        i := i + 1;
      }
      assert records[..i] == records;
    }

    method Finish(s: Schema) returns (r: Result<RelationPass, LoadError>)
      ensures match FinishNodes(s, State())
              case Failure(error) => r == Failure(error)
              case Success(state) => r.Success? && fresh(r.value) && r.value.externalIds == state.ids
                                     && r.value.State() == Start(state)
    {
      if conflict.Some? { return Failure(conflict.value); }
      var ordered := IntoValues(nodes);
      var state :- ConvertAll(s, ordered);
      var pass := new RelationPass(state);
      return Success(pass);
    }
  }

  lemma {:induction false} InsertPrefix(nodes: map<Identity, NodeRecord>, records: seq<FactRecord>, k: nat)
    requires k <= |records| && InsertAll(nodes, records[..k]).1.Some?
    ensures InsertAll(nodes, records) == InsertAll(nodes, records[..k])
  {
    if k < |records| {
      assert records[..|records| - 1][..k] == records[..k];
      InsertPrefix(nodes, records[..|records| - 1], k);
    } else {
      assert records[..k] == records;
    }
  }

  // ----- the relation pass -----

  datatype Relating = Relating(facts: RepositoryFacts, warnings: multiset<Warning>, edgeError: Option<LoadError>,
                               unresolvedError: Option<LoadError>)

  function Start(state: NodeState): Relating {
    Relating(RepositoryFacts(state.facts, [], []), state.warnings, None, None)
  }

  /** One record: an edge or reference behind an error of its own kind is ignored. */
  function Relate(s: Schema, ids: map<Identity, NodeKey>, r: Relating, record: FactRecord): Relating {
    match record
    case Node(_) => r
    case Edge(e) =>
      if r.edgeError.Some? then r
      else
        var c := ConvertEdge(s, ids, e);
        var counted := r.(warnings := r.warnings + c.warnings);
        if c.result.Failure? then counted.(edgeError := Some(c.result.error))
        else if c.result.value.None? then counted
        else counted.(facts := r.facts.(edges := r.facts.edges + [c.result.value.value]))
    case Unresolved(u) =>
      if r.unresolvedError.Some? then r
      else
        var c := ConvertUnresolved(s, ids, u);
        var counted := r.(warnings := r.warnings + c.warnings);
        if c.result.Failure? then counted.(unresolvedError := Some(c.result.error))
        else if c.result.value.None? then counted
        else counted.(facts := r.facts.(unresolved := r.facts.unresolved + [c.result.value.value]))
  }

  function RelateAll(s: Schema, ids: map<Identity, NodeKey>, r: Relating, records: seq<FactRecord>): Relating {
    if records == [] then r
    else Relate(s, ids, RelateAll(s, ids, r, records[..|records| - 1]), records[|records| - 1])
  }

  function FinishRelations(r: Relating): Result<Loaded, LoadError> {
    if r.edgeError.Some? then Failure(r.edgeError.value)
    else if r.unresolvedError.Some? then Failure(r.unresolvedError.value)
    else Success(Records.Finish(r.facts, r.warnings))
  }

  class RelationPass {
    var facts: RepositoryFacts
    const externalIds: map<Identity, NodeKey>
    var compatibility: multiset<Warning>
    var edgeError: Option<LoadError>
    var unresolvedError: Option<LoadError>

    function State(): Relating
      reads this
    {
      Relating(facts, compatibility, edgeError, unresolvedError)
    }

    constructor (state: NodeState)
      ensures externalIds == state.ids && State() == Start(state)
    {
      facts := RepositoryFacts(state.facts, [], []);
      externalIds := state.ids;
      compatibility := state.warnings;
      edgeError, unresolvedError := None, None;
    }

    method Ingest(s: Schema, records: seq<FactRecord>)
      modifies this
      ensures State() == RelateAll(s, externalIds, old(State()), records)
    {
      hide ConvertEdge, ConvertUnresolved;
      var i := 0;
      while i < |records|
        invariant 0 <= i <= |records|
        invariant State() == RelateAll(s, externalIds, old(State()), records[..i])
      {
        assert records[..i + 1][..i] == records[..i];
        match records[i] {
          case Node(_) =>
          case Edge(e) =>
            if edgeError.None? { IngestEdge(s, e); }
          case Unresolved(u) =>
            if unresolvedError.None? { IngestUnresolved(s, u); }
        }
        i := i + 1;
      }
      assert records[..i] == records;
    }

    method IngestEdge(s: Schema, e: EdgeRecord)
      requires edgeError.None?
      modifies this
      ensures State() == Relate(s, externalIds, old(State()), Edge(e))
    {
      hide ConvertEdge;
      var c := ConvertEdge(s, externalIds, e);
      compatibility := compatibility + c.warnings;
      match c.result {
        case Success(Some(edge)) => facts := facts.(edges := facts.edges + [edge]);
        case Success(None) =>
        case Failure(error) => edgeError := Some(error);
      }
    }

    method IngestUnresolved(s: Schema, u: UnresolvedRecord)
      requires unresolvedError.None?
      modifies this
      ensures State() == Relate(s, externalIds, old(State()), Unresolved(u))
    {
      hide ConvertUnresolved;
      var c := ConvertUnresolved(s, externalIds, u);
      compatibility := compatibility + c.warnings;
      match c.result {
        case Success(Some(reference)) => facts := facts.(unresolved := facts.unresolved + [reference]);
        case Success(None) =>
        case Failure(error) => unresolvedError := Some(error);
      }
    }

    method Finish() returns (r: Result<Loaded, LoadError>)
      ensures r == FinishRelations(State())
    {
      if edgeError.Some? { return Failure(edgeError.value); }
      if unresolvedError.Some? { return Failure(unresolvedError.value); }
      return Success(Records.Finish(facts, compatibility));
    }
  }

  // ----- the two passes are one -----

  function Flatten(batches: seq<Batch>): seq<FactRecord> {
    if batches == [] then [] else Flatten(batches[..|batches| - 1]) + batches[|batches| - 1].records
  }

  function NodesIn(records: seq<FactRecord>): seq<NodeRecord> {
    if records == [] then []
    else
      var last := records[|records| - 1];
      NodesIn(records[..|records| - 1]) + if last.Node? then [last.node] else []
  }

  function TotalCounts(batches: seq<Batch>): RecordCounts {
    if batches == [] then RecordCounts(0, 0, 0)
    else
      var t, c := TotalCounts(batches[..|batches| - 1]), batches[|batches| - 1].counts;
      RecordCounts(t.nodes + c.nodes, t.edges + c.edges, t.unresolved + c.unresolved)
  }

  /** The counts of all objects together fit the machine word. */
  predicate CountsFit(batches: seq<Batch>) {
    var t := TotalCounts(batches);
    t.nodes < COUNT_LIMIT && t.edges < COUNT_LIMIT && t.unresolved < COUNT_LIMIT
  }

  /** Both passes, from fresh state to the finished facts. */
  ghost function TwoPass(s: Schema, nodeBatches: seq<Batch>, relations: seq<FactRecord>): Result<Loaded, LoadError> {
    var state :- FinishNodes(s, IngestAllNodes(nodeBatches));
    FinishRelations(RelateAll(s, state.ids, Start(state), relations))
  }

  function Outcome<T>(value: T, conflict: Option<LoadError>): Result<T, LoadError> {
    if conflict.Some? then Failure(conflict.value) else Success(value)
  }

  lemma {:induction false} InsertAllCollects(records: seq<FactRecord>)
    ensures Outcome(InsertAll(map[], records).0, InsertAll(map[], records).1) == CollectNodes(records)
  {
    if records != [] { InsertAllCollects(records[..|records| - 1]); }
  }

  lemma {:induction false} InsertAllJoins(nodes: map<Identity, NodeRecord>, a: seq<FactRecord>, b: seq<FactRecord>)
    ensures InsertAll(nodes, a).1.Some? ==> InsertAll(nodes, a + b) == InsertAll(nodes, a)
    ensures InsertAll(nodes, a).1.None? ==> InsertAll(nodes, a + b) == InsertAll(InsertAll(nodes, a).0, b)
  {
    if b == [] {
      assert a + b == a;
    } else {
      var n := |b| - 1;
      assert (a + b)[..|a + b| - 1] == a + b[..n];
      InsertAllJoins(nodes, a, b[..n]);
    }
  }

  /** Without overflow, the node pass over the objects is one collection over all their records. */
  lemma {:induction false} NodePassCollects(batches: seq<Batch>)
    requires CountsFit(batches)
    ensures var g := IngestAllNodes(batches);
      && (g.nodes, g.conflict) == InsertAll(map[], Flatten(batches))
      && (g.conflict.None? ==> g.counts == TotalCounts(batches))
  {
    if batches != [] {
      var before, last := batches[..|batches| - 1], batches[|batches| - 1];
      NodePassCollects(before);
      InsertAllJoins(map[], Flatten(before), last.records);
    }
  }

  /** With overflow, the node pass ends in an error: a conflict met earlier, or the overflow itself. */
  lemma {:induction false} OverflowFails(batches: seq<Batch>)
    requires !CountsFit(batches)
    ensures IngestAllNodes(batches).conflict.Some?
    decreases |batches|
  {
    if batches != [] {
      var before := batches[..|batches| - 1];
      if CountsFit(before) { NodePassCollects(before); } else { OverflowFails(before); }
    }
  }

  lemma {:induction false} CollectDependsOnNodes(records: seq<FactRecord>)
    ensures CollectNodes(records) == CollectNodeRecords(NodesIn(records))
  {
    if records != [] {
      CollectDependsOnNodes(records[..|records| - 1]);
      var last := records[|records| - 1];
      var nodes := NodesIn(records[..|records| - 1]);
      if last.Node? { assert (nodes + [last.node])[..|nodes|] == nodes; } else { assert nodes + [] == nodes; }
    }
  }

  function CollectNodeRecords(records: seq<NodeRecord>): Result<map<Identity, NodeRecord>, LoadError> {
    if records == [] then Success(map[])
    else
      var nodes :- CollectNodeRecords(records[..|records| - 1]);
      InsertNode(nodes, records[|records| - 1])
  }

  function ErrorOf<T>(r: Result<T, LoadError>): Option<LoadError> {
    if r.Failure? then Some(r.error) else None
  }

  function AllEdges(s: Schema, ids: map<Identity, NodeKey>, edges: seq<EdgeRecord>)
    : Result<(seq<EdgeFact>, multiset<Warning>), LoadError>
  {
    Gather((e: EdgeRecord) => ConvertEdge(s, ids, e), edges)
  }

  function AllUnresolved(s: Schema, ids: map<Identity, NodeKey>, unresolved: seq<UnresolvedRecord>)
    : Result<(seq<UnresolvedFact>, multiset<Warning>), LoadError>
  {
    Gather((u: UnresolvedRecord) => ConvertUnresolved(s, ids, u), unresolved)
  }

  /** A relation pass that has gathered these edges and references, each with its own first error. */
  ghost predicate Gathers(r: Relating, done: Relating, edges: Result<(seq<EdgeFact>, multiset<Warning>), LoadError>,
                          unresolved: Result<(seq<UnresolvedFact>, multiset<Warning>), LoadError>)
  {
    && done.facts.nodes == r.facts.nodes
    && done.edgeError == ErrorOf(edges)
    && done.unresolvedError == ErrorOf(unresolved)
    && (edges.Success? ==> done.facts.edges == edges.value.0)
    && (unresolved.Success? ==> done.facts.unresolved == unresolved.value.0)
    && (edges.Success? && unresolved.Success? ==> done.warnings == r.warnings + edges.value.1 + unresolved.value.1)
  }

  lemma GatherSnoc<A, T>(convert: A -> Conversion<T>, records: seq<A>, last: A)
    ensures var before, after, c := Gather(convert, records), Gather(convert, records + [last]), convert(last);
      && (before.Failure? ==> after == before)
      && (before.Success? && c.result.Failure? ==> after == Failure(c.result.error))
      && (before.Success? && c.result.Success? ==>
            after == Success((if c.result.value.Some? then before.value.0 + [c.result.value.value] else before.value.0,
                              before.value.1 + c.warnings)))
  {
    assert (records + [last])[..|records|] == records;
  }

  lemma RelateStep(s: Schema, ids: map<Identity, NodeKey>, r: Relating, done: Relating, edges: seq<EdgeRecord>,
                   unresolved: seq<UnresolvedRecord>, last: FactRecord)
    requires Gathers(r, done, AllEdges(s, ids, edges), AllUnresolved(s, ids, unresolved))
    ensures Gathers(r, Relate(s, ids, done, last),
                    if last.Edge? then AllEdges(s, ids, edges + [last.edge]) else AllEdges(s, ids, edges),
                    if last.Unresolved? then AllUnresolved(s, ids, unresolved + [last.unresolved])
                    else AllUnresolved(s, ids, unresolved))
  {
    hide ConvertEdge, ConvertUnresolved, Gather;
    if last.Edge? {
      GatherSnoc((e: EdgeRecord) => ConvertEdge(s, ids, e), edges, last.edge);
    } else if last.Unresolved? {
      GatherSnoc((u: UnresolvedRecord) => ConvertUnresolved(s, ids, u), unresolved, last.unresolved);
    }
  }

  /** The relation pass gathers edges and unresolved references side by side. */
  lemma {:induction false} RelateGathers(s: Schema, ids: map<Identity, NodeKey>, r: Relating, records: seq<FactRecord>)
    requires r.edgeError.None? && r.unresolvedError.None? && r.facts.edges == [] && r.facts.unresolved == []
    ensures Gathers(r, RelateAll(s, ids, r, records), AllEdges(s, ids, EdgesIn(records)),
                    AllUnresolved(s, ids, UnresolvedIn(records)))
  {
    if records != [] {
      var before, last := records[..|records| - 1], records[|records| - 1];
      RelateGathers(s, ids, r, before);
      hide AllEdges, AllUnresolved, Gathers, Relate;
      RelateStep(s, ids, r, RelateAll(s, ids, r, before), EdgesIn(before), UnresolvedIn(before), last);
      assert EdgesIn(before) + [] == EdgesIn(before) && UnresolvedIn(before) + [] == UnresolvedIn(before);
    }
  }

  /**
   Two passes over any objects that together hold the records of a list give exactly what building the
   list in one go gives: facts, warnings, or the error, a node conflict before a node conversion error
   before the first edge error before the first error of an unresolved reference.
   */
  lemma TwoPassRefines(s: Schema, nodeBatches: seq<Batch>, relations: seq<FactRecord>, records: seq<FactRecord>)
    requires CountsFit(nodeBatches)
    requires NodesIn(Flatten(nodeBatches)) == NodesIn(records)
    requires EdgesIn(relations) == EdgesIn(records) && UnresolvedIn(relations) == UnresolvedIn(records)
    ensures TwoPass(s, nodeBatches, relations) == Build(s, records)
  {
    NodePassCollects(nodeBatches);
    InsertAllCollects(Flatten(nodeBatches));
    CollectDependsOnNodes(Flatten(nodeBatches));
    CollectDependsOnNodes(records);
    hide IngestAllNodes, InsertAll, CollectNodes, CollectNodeRecords, ConvertNodes, InOrder, Flatten, NodesIn, EdgesIn, UnresolvedIn;
    hide RelateAll, Gather, ConvertEdge, ConvertUnresolved;
    var converted := FinishNodes(s, IngestAllNodes(nodeBatches));
    if converted.Success? { RelateGathers(s, converted.value.ids, Start(converted.value), relations); }
  }

  /** For any split of one list into objects: the same result, unless the counts overflow, which fails. */
  lemma SplitRefines(s: Schema, objects: seq<Batch>)
    ensures TwoPass(s, objects, Flatten(objects)).Success? <==> CountsFit(objects) && Build(s, Flatten(objects)).Success?
    ensures CountsFit(objects) ==> TwoPass(s, objects, Flatten(objects)) == Build(s, Flatten(objects))
  {
    hide IngestAllNodes, RelateAll, Build, Flatten, NodesIn, EdgesIn, UnresolvedIn, ConvertNodes, CountsFit;
    if CountsFit(objects) {
      TwoPassRefines(s, objects, Flatten(objects), Flatten(objects));
    } else {
      OverflowFails(objects);
    }
  }
}
