/**
 arcana/src/lexicon/binary_v2_stream.rs: decoding that hands every record to a callback instead of
 collecting it.

 A callback threads a context and may fail, so it is a function from a context and an argument to a
 new context and an optional error. `Visited` records what the callbacks saw. The main results say
 which calls are made, for any callbacks, in terms of the collecting decoder of `BinaryObject`.
 */
module BinaryStream {
  import opened Wrappers
  import opened Lexicon
  import opened Reader
  import opened BinaryObject
  import opened BinaryDecode

  datatype VisitError<+E> = Decode(reason: BinaryError) | Callback(failure: E)

  /**
   The counts handed to the first callback, if it was called, the records handed to the second, in
   order, the context they leave behind and how the visit ended.
   */
  datatype Visited<T, R, +E, V> =
    Visited(context: T, announced: Option<RecordCounts>, delivered: seq<R>, end: Result<V, VisitError<E>>)

  // ----- one section -----

  function VisitMany<T, R, E>(read: nat -> Read<R>, count: nat, pos: nat, context: T, visit: (T, R) -> (T, Option<E>))
    : Visited<T, R, E, nat>
    decreases count
  {
    if count == 0 then Visited(context, None, [], Success(pos))
    else
      match read(pos)
      case Bad(error) => Visited(context, None, [], Failure(Decode(error)))
      case Ok(record, next) =>
        var (after, failure) := visit(context, record);
        if failure.Some? then Visited(after, None, [record], Failure(Callback(failure.value)))
        else
          var rest := VisitMany(read, count - 1, next, after, visit);
          rest.(delivered := [record] + rest.delivered)
  }

  function VisitSection<T, R, E>(b: seq<byte>, read: nat -> Read<R>, context: T, visit: (T, R) -> (T, Option<E>))
    : Visited<T, R, E, nat>
  {
    match CountAt(b, 0, MAX_RECORDS)
    case Bad(error) => Visited(context, None, [], Failure(Decode(error)))
    case Ok(count, start) =>
      var v := VisitMany(read, count, start, context, visit);
      if v.end.Failure? then v
      else
        match FinishAt(b, v.end.value)
        case Bad(error) => v.(end := Failure(Decode(error)))
        case Ok(_, end) => v.(end := Success(end))
  }

  /** The longest run of records that can be read, up to `count`. */
  function Readable<R>(read: nat -> Read<R>, count: nat, pos: nat): seq<R>
    decreases count
  {
    if count == 0 || read(pos).Bad? then [] else [read(pos).value] + Readable(read, count - 1, read(pos).next)
  }

  function SectionReadable<R>(b: seq<byte>, read: nat -> Read<R>): seq<R> {
    match CountAt(b, 0, MAX_RECORDS)
    case Bad(_) => []
    case Ok(count, start) => Readable(read, count, start)
  }

  /** The context after a list of calls. */
  function Fold<T, R, E>(visit: (T, R) -> (T, Option<E>), context: T, records: seq<R>): T
    decreases |records|
  {
    if records == [] then context else Fold(visit, visit(context, records[0]).0, records[1..])
  }

  /** No call in the list fails. */
  predicate Accepts<T, R, E>(visit: (T, R) -> (T, Option<E>), context: T, records: seq<R>)
    decreases |records|
  {
    records != [] ==>
      var (after, failure) := visit(context, records[0]);
      failure.None? && Accepts(visit, after, records[1..])
  }

  /** What a visit of readable records looks like from outside, whatever the callback does. */
  ghost predicate Faithful<T, R, E, V>(v: Visited<T, R, E, V>, visit: (T, R) -> (T, Option<E>), context: T,
                                       readable: seq<R>, complete: bool)
  {
    && v.context == Fold(visit, context, v.delivered)
    && v.delivered <= readable
    && (v.end.Success? <==> complete && Accepts(visit, context, readable))
    && (v.end.Success? ==> v.delivered == readable)
    && (Accepts(visit, context, readable) ==> v.delivered == readable)
    && (v.end.Failure? && v.end.error.Callback? <==> !Accepts(visit, context, readable))
  }

  lemma {:induction false} VisitManyFaithful<T, R, E>(read: nat -> Read<R>, count: nat, pos: nat, context: T,
                                                      visit: (T, R) -> (T, Option<E>))
    ensures var v := VisitMany(read, count, pos, context, visit);
      && Faithful(v, visit, context, Readable(read, count, pos), Many(read, count, pos).Ok?)
      && v.announced == None
      && (v.end.Success? ==> v.end.value == Many(read, count, pos).next)
    ensures Many(read, count, pos).Ok? ==> Many(read, count, pos).value == Readable(read, count, pos)
    decreases count
  {
    if count > 0 && read(pos).Ok? {
      var record, next := read(pos).value, read(pos).next;
      var (after, failure) := visit(context, record);
      VisitManyFaithful(read, count - 1, next, after, visit);
      var rest := Readable(read, count - 1, next);
      assert ([record] + rest)[1..] == rest;
      if failure.None? {
        var tail := VisitMany(read, count - 1, next, after, visit).delivered;
        assert ([record] + tail)[1..] == tail;
      } else {
        assert [record][1..] == [];
      }
    }
  }

  lemma VisitSectionFaithful<T, R, E>(b: seq<byte>, read: nat -> Read<R>, context: T, visit: (T, R) -> (T, Option<E>))
    ensures var v := VisitSection(b, read, context, visit);
      && Faithful(v, visit, context, SectionReadable(b, read), Section(b, read).Ok?)
      && v.announced == None
    ensures Section(b, read).Ok? ==> Section(b, read).value == SectionReadable(b, read)
  {
    hide CountAt;
    if CountAt(b, 0, MAX_RECORDS).Ok? {
      var count, start := CountAt(b, 0, MAX_RECORDS).value, CountAt(b, 0, MAX_RECORDS).next;
      VisitManyFaithful(read, count, start, context, visit);
      hide VisitMany, Many, Readable, Accepts, Fold;
    }
  }

  // ----- records as the callbacks see them -----

  function NodeFactAt(c: Codec, b: seq<byte>, strings: seq<Text>, objectOwner: Text, pos: nat): Read<FactRecord> {
    var (node, next) :- NodeAt(c, b, strings, objectOwner, pos);
    Ok(Node(node), next)
  }

  /** An edge without its attributes, which are skipped. */
  function EdgeRefAt(b: seq<byte>, strings: seq<Text>, external: seq<Identity>, nodeKeys: seq<NodeKey>, objectOwner: Text,
                     pos: nat)
    : Read<FactRecord>
  {
    var (_, p1) :- SkipAttributesAt(b, pos);
    var (owner, p2) :- FactoredAt(b, p1, strings, objectOwner);
    var (relation, p3) :- CodeOrStringAt(b, p2, strings, COMMON_RELATIONS);
    var (source, p4) :- NodeRefAt(b, p3, nodeKeys, external);
    var (span, p5) :- SpanAt(b, p4, strings);
    var (target, p6) :- NodeRefAt(b, p5, nodeKeys, external);
    Ok(Edge(EdgeRecord(None, Optional(owner), relation, source, span, target)), p6)
  }

  function UnresolvedRefAt(b: seq<byte>, strings: seq<Text>, external: seq<Identity>, nodeKeys: seq<NodeKey>,
                           objectOwner: Text, pos: nat)
    : Read<FactRecord>
  {
    var (_, p1) :- SkipAttributesAt(b, pos);
    var (candidateName, p2) :- StringRefAt(b, p1, strings);
    var (candidateNamespace, p3) :- StringRefAt(b, p2, strings);
    var (expression, p4) :- StringRefAt(b, p3, strings);
    var (owner, p5) :- FactoredAt(b, p4, strings, objectOwner);
    var (reason, p6) :- StringRefAt(b, p5, strings);
    var (relation, p7) :- CodeOrStringAt(b, p6, strings, COMMON_RELATIONS);
    var (source, p8) :- NodeRefAt(b, p7, nodeKeys, external);
    var (span, p9) :- SpanAt(b, p8, strings);
    Ok(Unresolved(UnresolvedRecord(None, Optional(candidateName), Optional(candidateNamespace), expression,
                                   Optional(owner), reason, relation, source, span)), p9)
  }

  /** A record as it is streamed: relations lose their attributes. */
  function Streamed(record: FactRecord): FactRecord {
    match record
    case Node(_) => record
    case Edge(e) => Edge(e.(attributes := None))
    case Unresolved(u) => Unresolved(u.(attributes := None))
  }

  function StreamedEdge(e: EdgeRecord): FactRecord { Streamed(Edge(e)) }

  function StreamedUnresolved(u: UnresolvedRecord): FactRecord { Streamed(Unresolved(u)) }

  lemma EdgeRefExact(b: seq<byte>, strings: seq<Text>, external: seq<Identity>, nodeKeys: seq<NodeKey>, objectOwner: Text,
                     pos: nat)
    ensures var full, ref := EdgeAt(b, strings, external, nodeKeys, objectOwner, pos),
                             EdgeRefAt(b, strings, external, nodeKeys, objectOwner, pos);
      && (full.Ok? <==> ref.Ok?)
      && (full.Ok? ==> ref == Ok(StreamedEdge(full.value), full.next))
  {
    SkipFieldsFollow(b, pos, strings, [], [], [], objectOwner);
    hide AttributesAt, SkipAttributesAt, FactoredAt, CodeOrStringAt, NodeRefAt, SpanAt, COMMON_RELATIONS;
  }

  lemma UnresolvedRefExact(b: seq<byte>, strings: seq<Text>, external: seq<Identity>, nodeKeys: seq<NodeKey>,
                           objectOwner: Text, pos: nat)
    ensures var full, ref := UnresolvedAt(b, strings, external, nodeKeys, objectOwner, pos),
                             UnresolvedRefAt(b, strings, external, nodeKeys, objectOwner, pos);
      && (full.Ok? <==> ref.Ok?)
      && (full.Ok? ==> ref == Ok(StreamedUnresolved(full.value), full.next))
  {
    SkipFieldsFollow(b, pos, strings, [], [], [], objectOwner);
    hide AttributesAt, SkipAttributesAt, FactoredAt, CodeOrStringAt, NodeRefAt, SpanAt, COMMON_RELATIONS, StringRefAt;
  }

  /** Two decoders that stay in lockstep read sections alike. */
  lemma SectionProject<S, R>(b: seq<byte>, read: nat -> Read<S>, other: nat -> Read<R>, project: S -> R)
    requires forall p: nat :: read(p).Ok? <==> other(p).Ok?
    requires forall p: nat :: read(p).Ok? ==> other(p) == Ok(project(read(p).value), read(p).next)
    ensures Section(b, other).Ok? <==> Section(b, read).Ok?
    ensures Section(b, read).Ok? ==>
              Section(b, other) == Ok(Map(project, Section(b, read).value), Section(b, read).next)
  {
    hide CountAt;
    if CountAt(b, 0, MAX_RECORDS).Ok? {
      var count, start := CountAt(b, 0, MAX_RECORDS).value, CountAt(b, 0, MAX_RECORDS).next;
      ManyAlike(read, other, count, start);
      if Many(read, count, start).Ok? { ManyProject(read, other, project, count, start); }
      hide Many, Map;
    }
  }

  lemma {:induction false} ManyAlike<S, R>(read: nat -> Read<S>, other: nat -> Read<R>, count: nat, pos: nat)
    requires forall p: nat :: read(p).Ok? <==> other(p).Ok?
    requires forall p: nat :: read(p).Ok? ==> other(p).next == read(p).next
    ensures Many(other, count, pos).Ok? <==> Many(read, count, pos).Ok?
    decreases count
  {
    if count > 0 && read(pos).Ok? { ManyAlike(read, other, count - 1, read(pos).next); }
  }

  // ----- objects -----

  function VisitNodesOf<T, E>(c: Codec, e: Envelope, context: T, visit: (T, FactRecord) -> (T, Option<E>))
    : Visited<T, FactRecord, E, nat>
  {
    VisitSection(e.nodes, (p: nat) => NodeFactAt(c, e.nodes, e.strings, e.objectOwner, p), context, visit)
  }

  function VisitEdgesOf<T, E>(e: Envelope, keys: seq<NodeKey>, context: T, visit: (T, FactRecord) -> (T, Option<E>))
    : Visited<T, FactRecord, E, nat>
  {
    VisitSection(e.edges, (p: nat) => EdgeRefAt(e.edges, e.strings, e.external, keys, e.objectOwner, p), context, visit)
  }

  function VisitUnresolvedOf<T, E>(e: Envelope, keys: seq<NodeKey>, context: T,
                                   visit: (T, FactRecord) -> (T, Option<E>))
    : Visited<T, FactRecord, E, nat>
  {
    VisitSection(e.unresolved, (p: nat) => UnresolvedRefAt(e.unresolved, e.strings, e.external, keys, e.objectOwner, p),
                 context, visit)
  }

  /** Node keys first, then the edges, then the unresolved references. */
  function VisitRelationsOf<T, E>(c: Codec, e: Envelope, context: T, visit: (T, FactRecord) -> (T, Option<E>))
    : Visited<T, FactRecord, E, nat>
  {
    match NodeKeysOf(c, e.nodes, e.strings)
    case Bad(error) => Visited(context, None, [], Failure(Decode(error)))
    case Ok(keys, _) =>
      var edges := VisitEdgesOf(e, keys, context, visit);
      if edges.end.Failure? then edges
      else
        var unresolved := VisitUnresolvedOf(e, keys, edges.context, visit);
        unresolved.(delivered := edges.delivered + unresolved.delivered)
  }

  /** `visit_nodes` for `Nodes`, `visit_relations` for `Relations`. */
  function VisitObject<T, E>(c: Codec, b: seq<byte>, selection: RecordSelection, context: T,
                             before: (T, RecordCounts) -> (T, Option<E>), visit: (T, FactRecord) -> (T, Option<E>))
    : Visited<T, FactRecord, E, FactObject>
    requires selection != All
  {
    match EnvelopeOf(c, b, selection == Relations)
    case Bad(error) => Visited(context, None, [], Failure(Decode(error)))
    case Ok(e, _) =>
      var (after, refused) := before(context, e.counts);
      if refused.Some? then Visited(after, Some(e.counts), [], Failure(Callback(refused.value)))
      else
        var v := if selection == Nodes then VisitNodesOf(c, e, after, visit) else VisitRelationsOf(c, e, after, visit);
        Visited(v.context, Some(e.counts), v.delivered,
                if v.end.Failure? then Failure(v.end.error) else Success(Metadata(e, [])))
  }

  // ----- which calls are made -----

  function NodesReadable(c: Codec, e: Envelope): seq<FactRecord> {
    SectionReadable(e.nodes, (p: nat) => NodeFactAt(c, e.nodes, e.strings, e.objectOwner, p))
  }

  function RelationsReadable(c: Codec, e: Envelope): seq<FactRecord> {
    match NodeKeysOf(c, e.nodes, e.strings)
    case Bad(_) => []
    case Ok(keys, _) =>
      var readEdge := (p: nat) => EdgeRefAt(e.edges, e.strings, e.external, keys, e.objectOwner, p);
      var readUnresolved := (p: nat) => UnresolvedRefAt(e.unresolved, e.strings, e.external, keys, e.objectOwner, p);
      SectionReadable(e.edges, readEdge)
      + if Section(e.edges, readEdge).Ok? then SectionReadable(e.unresolved, readUnresolved) else []
  }

  function ReadableOf(c: Codec, e: Envelope, selection: RecordSelection): seq<FactRecord> {
    if selection == Nodes then NodesReadable(c, e) else RelationsReadable(c, e)
  }

  lemma {:induction false} FoldJoins<T, R, E>(visit: (T, R) -> (T, Option<E>), context: T, a: seq<R>, b: seq<R>)
    ensures Fold(visit, context, a + b) == Fold(visit, Fold(visit, context, a), b)
    ensures Accepts(visit, context, a + b) <==>
            Accepts(visit, context, a) && Accepts(visit, Fold(visit, context, a), b)
    decreases |a|
  {
    if a == [] {
      assert a + b == b;
    } else {
      assert (a + b)[1..] == a[1..] + b;
      FoldJoins(visit, visit(context, a[0]).0, a[1..], b);
    }
  }

  lemma NodesComplete(c: Codec, e: Envelope)
    ensures var section := Section(e.nodes, (p: nat) => NodeFactAt(c, e.nodes, e.strings, e.objectOwner, p));
      && (section.Ok? <==> NodesOf(c, e.nodes, e.strings, e.objectOwner).Ok?)
      && (section.Ok? ==> section.value == NodeRecords(NodesOf(c, e.nodes, e.strings, e.objectOwner).value))
  {
    hide NodeAt;
    SectionProject(e.nodes, (p: nat) => NodeAt(c, e.nodes, e.strings, e.objectOwner, p),
                   (p: nat) => NodeFactAt(c, e.nodes, e.strings, e.objectOwner, p), (n: NodeRecord) => Node(n));
  }

  lemma EdgesComplete(e: Envelope, keys: seq<NodeKey>)
    ensures var section := Section(e.edges, (p: nat) => EdgeRefAt(e.edges, e.strings, e.external, keys, e.objectOwner, p));
      var full := EdgesOf(e.edges, e.strings, e.external, keys, e.objectOwner);
      && (section.Ok? <==> full.Ok?)
      && (section.Ok? ==> section.value == Map(StreamedEdge, full.value))
  {
    forall p: nat ensures var full, ref := EdgeAt(e.edges, e.strings, e.external, keys, e.objectOwner, p),
                                           EdgeRefAt(e.edges, e.strings, e.external, keys, e.objectOwner, p);
        && (full.Ok? <==> ref.Ok?) && (full.Ok? ==> ref == Ok(StreamedEdge(full.value), full.next))
    {
      EdgeRefExact(e.edges, e.strings, e.external, keys, e.objectOwner, p);
    }
    hide EdgeAt, EdgeRefAt, Section;
    SectionProject(e.edges, (p: nat) => EdgeAt(e.edges, e.strings, e.external, keys, e.objectOwner, p),
                   (p: nat) => EdgeRefAt(e.edges, e.strings, e.external, keys, e.objectOwner, p), StreamedEdge);
  }

  lemma UnresolvedComplete(e: Envelope, keys: seq<NodeKey>)
    ensures var section := Section(e.unresolved,
                                   (p: nat) => UnresolvedRefAt(e.unresolved, e.strings, e.external, keys, e.objectOwner, p));
      var full := UnresolvedOf(e.unresolved, e.strings, e.external, keys, e.objectOwner);
      && (section.Ok? <==> full.Ok?)
      && (section.Ok? ==> section.value == Map(StreamedUnresolved, full.value))
  {
    forall p: nat ensures var full, ref := UnresolvedAt(e.unresolved, e.strings, e.external, keys, e.objectOwner, p),
                                           UnresolvedRefAt(e.unresolved, e.strings, e.external, keys, e.objectOwner, p);
        && (full.Ok? <==> ref.Ok?) && (full.Ok? ==> ref == Ok(StreamedUnresolved(full.value), full.next))
    {
      UnresolvedRefExact(e.unresolved, e.strings, e.external, keys, e.objectOwner, p);
    }
    hide UnresolvedAt, UnresolvedRefAt, Section;
    SectionProject(e.unresolved, (p: nat) => UnresolvedAt(e.unresolved, e.strings, e.external, keys, e.objectOwner, p),
                   (p: nat) => UnresolvedRefAt(e.unresolved, e.strings, e.external, keys, e.objectOwner, p),
                   StreamedUnresolved);
  }

  lemma RelationsFaithful<T, E>(c: Codec, e: Envelope, context: T, visit: (T, FactRecord) -> (T, Option<E>))
    ensures var keys := NodeKeysOf(c, e.nodes, e.strings);
      var complete := keys.Ok? && RelationsOf(e, keys.value).Ok?;
      && Faithful(VisitRelationsOf(c, e, context, visit), visit, context, RelationsReadable(c, e), complete)
      && (complete ==> RelationsReadable(c, e) == Map(Streamed, RelationsOf(e, keys.value).value))
  {
    hide NodeKeysOf, Section, SectionReadable, VisitSection;
    var keys := NodeKeysOf(c, e.nodes, e.strings);
    if keys.Ok? {
      var readEdge := (p: nat) => EdgeRefAt(e.edges, e.strings, e.external, keys.value, e.objectOwner, p);
      var readUnresolved := (p: nat) => UnresolvedRefAt(e.unresolved, e.strings, e.external, keys.value, e.objectOwner, p);
      var edges := SectionReadable(e.edges, readEdge);
      var unresolved := SectionReadable(e.unresolved, readUnresolved);
      VisitSectionFaithful(e.edges, readEdge, context, visit);
      EdgesComplete(e, keys.value);
      UnresolvedComplete(e, keys.value);
      var first := VisitEdgesOf(e, keys.value, context, visit);
      VisitSectionFaithful(e.unresolved, readUnresolved, first.context, visit);
      hide Accepts, Fold, EdgesOf, UnresolvedOf;
      FoldJoins(visit, context, edges, unresolved);
      FoldJoins(visit, context, first.delivered, VisitUnresolvedOf(e, keys.value, first.context, visit).delivered);
      var v := VisitRelationsOf(c, e, context, visit);
      if Section(e.edges, readEdge).Bad? {
        assert edges + [] == edges;
      }
      assert v.context == Fold(visit, context, v.delivered);
      assert v.delivered <= RelationsReadable(c, e);
      if Section(e.edges, readEdge).Ok? && Section(e.unresolved, readUnresolved).Ok? {
        StreamedRelations(EdgesOf(e.edges, e.strings, e.external, keys.value, e.objectOwner).value,
                          UnresolvedOf(e.unresolved, e.strings, e.external, keys.value, e.objectOwner).value);
      }
    }
  }

  lemma StreamedRelations(edges: seq<EdgeRecord>, unresolved: seq<UnresolvedRecord>)
    ensures Map(Streamed, RelationRecords(edges, unresolved)) == Map(StreamedEdge, edges) + Map(StreamedUnresolved, unresolved)
  {
    var records := RelationRecords(edges, unresolved);
    var a, b := Map(Streamed, records), Map(StreamedEdge, edges) + Map(StreamedUnresolved, unresolved);
    forall i | 0 <= i < |a| ensures a[i] == b[i] {
      if i < |edges| {
        assert records[i] == Edge(edges[i]) && b[i] == StreamedEdge(edges[i]);
      } else {
        var k := i - |edges|;
        assert records[i] == Unresolved(unresolved[k]) && b[i] == StreamedUnresolved(unresolved[k]);
      }
    }
    assert a == b;
  }

  lemma StreamedNodes(nodes: seq<NodeRecord>)
    ensures Map(Streamed, NodeRecords(nodes)) == NodeRecords(nodes)
  {
    var a := Map(Streamed, NodeRecords(nodes));
    assert forall i :: 0 <= i < |a| ==> a[i] == Node(nodes[i]);
    assert a == NodeRecords(nodes);
  }

  /** What a streaming visit does, told by the collecting decoder's result `whole`. */
  ghost predicate Refines<T, E>(v: Visited<T, FactRecord, E, FactObject>, whole: Read<(FactObject, RecordCounts)>,
                                e: Read<Envelope>, readable: seq<FactRecord>, context: T,
                                before: (T, RecordCounts) -> (T, Option<E>), visit: (T, FactRecord) -> (T, Option<E>))
  {
    match e
    case Bad(error) => whole.Bad? && v == Visited(context, None, [], Failure(Decode(error)))
    case Ok(envelope, _) =>
      var (after, refused) := before(context, envelope.counts);
      && v.announced == Some(envelope.counts)
      && (refused.Some? ==> v == Visited(after, v.announced, [], Failure(Callback(refused.value))))
      && (refused.None? ==>
            && Faithful(v, visit, after, readable, whole.Ok?)
            && (v.end.Success? ==> v.end.value == whole.value.0.(records := [])))
      && (whole.Ok? ==> readable == Map(Streamed, whole.value.0.records) && envelope.counts == whole.value.1)
  }

  /**
   For any bytes and any callbacks: the counts are announced once and before any record; the records
   delivered are a prefix of the readable ones, folded into the context in order; and the visit succeeds
   exactly when the collecting decoder does and no callback fails, having then delivered precisely its
   records.
   */
  lemma StreamingRefines<T, E>(c: Codec, b: seq<byte>, selection: RecordSelection, context: T,
                               before: (T, RecordCounts) -> (T, Option<E>), visit: (T, FactRecord) -> (T, Option<E>))
    requires selection != All
    ensures var e := EnvelopeOf(c, b, selection == Relations);
      Refines(VisitObject(c, b, selection, context, before, visit), ParseObject(c, b, selection), e,
              if e.Ok? then ReadableOf(c, e.value, selection) else [], context, before, visit)
  {
    hide EnvelopeOf, NodesOf, NodeKeysOf, RelationsOf, NodeRecords, Map, VisitSection, SectionReadable, Section;
    hide RelationsReadable, VisitRelationsOf, Accepts, Fold;
    if EnvelopeOf(c, b, selection == Relations).Ok? {
      var e := EnvelopeOf(c, b, selection == Relations).value;
      var after := before(context, e.counts).0;
      if selection == Nodes {
        VisitSectionFaithful(e.nodes, (p: nat) => NodeFactAt(c, e.nodes, e.strings, e.objectOwner, p), after, visit);
        NodesComplete(c, e);
        if NodesOf(c, e.nodes, e.strings, e.objectOwner).Ok? {
          StreamedNodes(NodesOf(c, e.nodes, e.strings, e.objectOwner).value);
        }
      } else {
        RelationsFaithful(c, e, after, visit);
      }
    }
  }

  /** The same, with the contents of the collecting decoder's object in the place of the readable records. */
  lemma StreamingCollects<T, E>(c: Codec, b: seq<byte>, selection: RecordSelection, context: T,
                                before: (T, RecordCounts) -> (T, Option<E>), visit: (T, FactRecord) -> (T, Option<E>))
    requires selection != All
    ensures var v, whole := VisitObject(c, b, selection, context, before, visit), ParseObject(c, b, selection);
      && (whole.Bad? ==> v.end.Failure?)
      && (whole.Ok? ==>
            var records, (after, refused) := Map(Streamed, whole.value.0.records), before(context, whole.value.1);
            && (v.end.Success? <==> refused.None? && Accepts(visit, after, records))
            && (v.end.Success? ==>
                  v.end.value == whole.value.0.(records := []) && v.context == Fold(visit, after, records)))
  {
    StreamingRefines(c, b, selection, context, before, visit);
    hide ParseObject, VisitObject, EnvelopeOf, ReadableOf, Accepts, Fold, Map, Faithful;
    var v, whole := VisitObject(c, b, selection, context, before, visit), ParseObject(c, b, selection);
    var e := EnvelopeOf(c, b, selection == Relations);
    if e.Ok? {
      var (after, refused) := before(context, e.value.counts);
      if refused.None? { FaithfulOutcome(v, visit, after, ReadableOf(c, e.value, selection), whole.Ok?); }
    }
  }

  lemma FaithfulOutcome<T, R, E, V>(v: Visited<T, R, E, V>, visit: (T, R) -> (T, Option<E>), context: T, readable: seq<R>,
                                    complete: bool)
    requires Faithful(v, visit, context, readable, complete)
    ensures v.end.Success? <==> complete && Accepts(visit, context, readable)
    ensures v.end.Success? ==> v.context == Fold(visit, context, readable)
  {
    hide Accepts, Fold;
  }

  ghost predicate NeverFails<T(!new), R(!new), E>(callback: (T, R) -> (T, Option<E>)) {
    forall t, r :: callback(t, r).1.None?
  }

  lemma {:induction false} NeverFailsAccepts<T(!new), R(!new), E>(visit: (T, R) -> (T, Option<E>), context: T, records: seq<R>)
    requires NeverFails(visit)
    ensures Accepts(visit, context, records)
    decreases |records|
  {
    if records != [] { NeverFailsAccepts(visit, visit(context, records[0]).0, records[1..]); }
  }

  /** With callbacks that never fail, streaming is the collecting decoder, one record at a time. */
  lemma StreamingNeverFails<T(!new), E>(c: Codec, b: seq<byte>, selection: RecordSelection, context: T,
                                        before: (T, RecordCounts) -> (T, Option<E>),
                                        visit: (T, FactRecord) -> (T, Option<E>))
    requires selection != All && NeverFails(before) && NeverFails(visit)
    ensures var v, whole := VisitObject(c, b, selection, context, before, visit), ParseObject(c, b, selection);
      && (v.end.Success? <==> whole.Ok?)
      && (whole.Ok? ==>
            && v.announced == Some(whole.value.1)
            && v.delivered == Map(Streamed, whole.value.0.records)
            && v.context == Fold(visit, before(context, whole.value.1).0, v.delivered)
            && v.end.value == whole.value.0.(records := []))
  {
    StreamingRefines(c, b, selection, context, before, visit);
    var e := EnvelopeOf(c, b, selection == Relations);
    if e.Ok? {
      NeverFailsAccepts(visit, before(context, e.value.counts).0, ReadableOf(c, e.value, selection));
    }
    hide EnvelopeOf, ParseObject, VisitObject, ReadableOf, Map, Accepts, Fold;
  }

  // ----- the loops -----

  /** The context and the outcome a specification leaves. */
  ghost predicate Leaves<T, R, E, V, W>(after: T, r: Result<W, VisitError<E>>, v: Visited<T, R, E, V>) {
    && after == v.context
    && (r.Success? <==> v.end.Success?)
    && (r.Failure? ==> v.end.error == r.error)
  }

  method ReadEdgeRef(reader: Reader, strings: seq<Text>, external: seq<Identity>, nodeKeys: seq<NodeKey>,
                     objectOwner: Text)
    returns (r: Result<FactRecord, BinaryError>)
    modifies reader
    ensures Follows(r, reader.position,
                    EdgeRefAt(reader.bytes, strings, external, nodeKeys, objectOwner, old(reader.position)))
  {
    hide SkipAttributesAt, CodeOrStringAt, FactoredAt, NodeRefAt, SpanAt, COMMON_RELATIONS;
    var _ :- reader.SkipAttributes();
    var owner :- reader.Factored(strings, objectOwner);
    var relation :- reader.CodeOrString(strings, COMMON_RELATIONS);
    var source :- reader.NodeRef(nodeKeys, external);
    var span :- reader.Span(strings);
    var target :- reader.NodeRef(nodeKeys, external);
    return Success(Edge(EdgeRecord(None, Optional(owner), relation, source, span, target)));
  }

  method ReadUnresolvedRef(reader: Reader, strings: seq<Text>, external: seq<Identity>, nodeKeys: seq<NodeKey>,
                           objectOwner: Text)
    returns (r: Result<FactRecord, BinaryError>)
    modifies reader
    ensures Follows(r, reader.position,
                    UnresolvedRefAt(reader.bytes, strings, external, nodeKeys, objectOwner, old(reader.position)))
  {
    hide SkipAttributesAt, CodeOrStringAt, StringRefAt, FactoredAt, NodeRefAt, SpanAt, COMMON_RELATIONS;
    var _ :- reader.SkipAttributes();
    var candidateName :- reader.StringRef(strings);
    var candidateNamespace :- reader.StringRef(strings);
    var expression :- reader.StringRef(strings);
    var owner :- reader.Factored(strings, objectOwner);
    var reason :- reader.StringRef(strings);
    var relation :- reader.CodeOrString(strings, COMMON_RELATIONS);
    var source :- reader.NodeRef(nodeKeys, external);
    var span :- reader.Span(strings);
    return Success(Unresolved(UnresolvedRecord(None, Optional(candidateName), Optional(candidateNamespace), expression,
                                               Optional(owner), reason, relation, source, span)));
  }

  method StreamNodes<T, E>(c: Codec, e: Envelope, context: T, visit: (T, FactRecord) -> (T, Option<E>))
    returns (after: T, r: Result<(), VisitError<E>>)
    ensures Leaves(after, r, VisitNodesOf(c, e, context, visit))
  {
    after := context;
    var reader := new Reader(e.nodes);
    hide NodeAt, CountAt;
    var counted := reader.Count(MAX_RECORDS);
    if counted.Failure? { return after, Failure(Decode(counted.error)); }
    ghost var read := (p: nat) => NodeFactAt(c, e.nodes, e.strings, e.objectOwner, p);
    ghost var all := VisitMany(read, counted.value, reader.position, context, visit);
    var index := 0;
    while index < counted.value
      invariant 0 <= index <= counted.value
      invariant all.context == VisitMany(read, counted.value - index, reader.position, after, visit).context
      invariant all.end == VisitMany(read, counted.value - index, reader.position, after, visit).end
    {
      assert read(reader.position) == NodeFactAt(c, e.nodes, e.strings, e.objectOwner, reader.position);
      var record := ReadNode(reader, c, e.strings, e.objectOwner);
      if record.Failure? { return after, Failure(Decode(record.error)); }
      var (next, failure) := visit(after, Node(record.value));
      after := next;
      if failure.Some? { return after, Failure(Callback(failure.value)); }
      index := index + 1;
    }
    var finished := reader.Finish();
    if finished.Failure? { return after, Failure(Decode(finished.error)); }
    return after, Success(());
  }

  method StreamEdges<T, E>(e: Envelope, keys: seq<NodeKey>, context: T, visit: (T, FactRecord) -> (T, Option<E>))
    returns (after: T, r: Result<(), VisitError<E>>)
    ensures Leaves(after, r, VisitEdgesOf(e, keys, context, visit))
  {
    after := context;
    var reader := new Reader(e.edges);
    hide EdgeRefAt, CountAt;
    var counted := reader.Count(MAX_RECORDS);
    if counted.Failure? { return after, Failure(Decode(counted.error)); }
    ghost var read := (p: nat) => EdgeRefAt(e.edges, e.strings, e.external, keys, e.objectOwner, p);
    ghost var all := VisitMany(read, counted.value, reader.position, context, visit);
    var index := 0;
    while index < counted.value
      invariant 0 <= index <= counted.value
      invariant all.context == VisitMany(read, counted.value - index, reader.position, after, visit).context
      invariant all.end == VisitMany(read, counted.value - index, reader.position, after, visit).end
    {
      assert read(reader.position) == EdgeRefAt(e.edges, e.strings, e.external, keys, e.objectOwner, reader.position);
      var record := ReadEdgeRef(reader, e.strings, e.external, keys, e.objectOwner);
      if record.Failure? { return after, Failure(Decode(record.error)); }
      var (next, failure) := visit(after, record.value);
      after := next;
      if failure.Some? { return after, Failure(Callback(failure.value)); }
      index := index + 1;
    }
    var finished := reader.Finish();
    if finished.Failure? { return after, Failure(Decode(finished.error)); }
    return after, Success(());
  }

  method StreamUnresolved<T, E>(e: Envelope, keys: seq<NodeKey>, context: T, visit: (T, FactRecord) -> (T, Option<E>))
    returns (after: T, r: Result<(), VisitError<E>>)
    ensures Leaves(after, r, VisitUnresolvedOf(e, keys, context, visit))
  {
    after := context;
    var reader := new Reader(e.unresolved);
    hide UnresolvedRefAt, CountAt;
    var counted := reader.Count(MAX_RECORDS);
    if counted.Failure? { return after, Failure(Decode(counted.error)); }
    ghost var read := (p: nat) => UnresolvedRefAt(e.unresolved, e.strings, e.external, keys, e.objectOwner, p);
    ghost var all := VisitMany(read, counted.value, reader.position, context, visit);
    var index := 0;
    while index < counted.value
      invariant 0 <= index <= counted.value
      invariant all.context == VisitMany(read, counted.value - index, reader.position, after, visit).context
      invariant all.end == VisitMany(read, counted.value - index, reader.position, after, visit).end
    {
      assert read(reader.position)
          == UnresolvedRefAt(e.unresolved, e.strings, e.external, keys, e.objectOwner, reader.position);
      var record := ReadUnresolvedRef(reader, e.strings, e.external, keys, e.objectOwner);
      if record.Failure? { return after, Failure(Decode(record.error)); }
      var (next, failure) := visit(after, record.value);
      after := next;
      if failure.Some? { return after, Failure(Callback(failure.value)); }
      index := index + 1;
    }
    var finished := reader.Finish();
    if finished.Failure? { return after, Failure(Decode(finished.error)); }
    return after, Success(());
  }

  method VisitNodes<T, E>(c: Codec, bytes: seq<byte>, context: T, before: (T, RecordCounts) -> (T, Option<E>),
                          visit: (T, FactRecord) -> (T, Option<E>))
    returns (after: T, r: Result<FactObject, VisitError<E>>)
    ensures Leaves(after, r, VisitObject(c, bytes, Nodes, context, before, visit))
    ensures r.Success? ==> r.value == VisitObject(c, bytes, Nodes, context, before, visit).end.value
  {
    hide EnvelopeOf, VisitNodesOf, Metadata;
    var envelope := ParseEnvelope(c, bytes, false);
    if envelope.Failure? { return context, Failure(Decode(envelope.error)); }
    var (announced, refused) := before(context, envelope.value.counts);
    if refused.Some? { return announced, Failure(Callback(refused.value)); }
    var visited;
    after, visited := StreamNodes(c, envelope.value, announced, visit);
    if visited.Failure? { return after, Failure(visited.error); }
    return after, Success(Metadata(envelope.value, []));
  }

  method VisitRelations<T, E>(c: Codec, bytes: seq<byte>, context: T, before: (T, RecordCounts) -> (T, Option<E>),
                              visit: (T, FactRecord) -> (T, Option<E>))
    returns (after: T, r: Result<FactObject, VisitError<E>>)
    ensures Leaves(after, r, VisitObject(c, bytes, Relations, context, before, visit))
    ensures r.Success? ==> r.value == VisitObject(c, bytes, Relations, context, before, visit).end.value
  {
    hide EnvelopeOf, NodeKeysOf, VisitEdgesOf, VisitUnresolvedOf, Metadata;
    var envelope := ParseEnvelope(c, bytes, true);
    if envelope.Failure? { return context, Failure(Decode(envelope.error)); }
    var e := envelope.value;
    var (announced, refused) := before(context, e.counts);
    if refused.Some? { return announced, Failure(Callback(refused.value)); }
    var keys := DecodeNodeKeys(c, e.nodes, e.strings);
    if keys.Failure? { return announced, Failure(Decode(keys.error)); }
    var edges, unresolved;
    after, edges := StreamEdges(e, keys.value, announced, visit);
    if edges.Failure? { return after, Failure(edges.error); }
    after, unresolved := StreamUnresolved(e, keys.value, after, visit);
    if unresolved.Failure? { return after, Failure(unresolved.error); }
    return after, Success(Metadata(e, []));
  }
}
