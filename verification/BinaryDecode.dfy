/**
 arcana/src/lexicon/binary_v2.rs and binary_v2_stream.rs: the decoding loops, materialised and streaming.

 The materialised loops are proved to compute the functions of `BinaryObject`; the streaming ones hand
 each record to a callback that threads a context and may fail.
 */
module BinaryDecode {
  import opened Wrappers
  import opened Lexicon
  import opened Reader
  import opened BinaryObject

  /** A result that carries what a specification reads, wherever the cursor ended. */
  ghost predicate Yields<T>(r: Result<T, BinaryError>, spec: Read<T>) {
    match spec
    case Ok(value, _) => r == Success(value)
    case Bad(error) => r == Failure(error)
  }

  // ----- one record -----

  method ReadNode(reader: Reader, c: Codec, strings: seq<Text>, objectOwner: Text) returns (r: Result<NodeRecord, BinaryError>)
    modifies reader
    ensures Follows(r, reader.position, NodeAt(c, reader.bytes, strings, objectOwner, old(reader.position)))
  {
    hide AttributesAt, OptionalIdentityAt, IdentityAt, CodeOrStringAt, StringRefAt, FactoredAt, QualifiedNameAt, SpanAt;
    hide COMMON_NODE_KINDS;
    var attributes :- reader.Attributes();
    var contentId :- reader.OptionalIdentity(c, strings);
    var id :- reader.CompactIdentity(c, strings);
    var kind :- reader.CodeOrString(strings, COMMON_NODE_KINDS);
    var name :- reader.StringRef(strings);
    var owner :- reader.Factored(strings, objectOwner);
    var path :- reader.Factored(strings, objectOwner);
    var qualifiedName :- reader.QualifiedName(strings, name, path, objectOwner);
    var span :- reader.Span(strings);
    return Success(NodeRecord(attributes, contentId, id, kind, name, Optional(owner), path, qualifiedName, span));
  }

  method ReadNodeKey(reader: Reader, c: Codec, strings: seq<Text>) returns (r: Result<NodeKey, BinaryError>)
    modifies reader
    ensures Follows(r, reader.position, NodeKeyAt(c, reader.bytes, strings, old(reader.position)))
  {
    hide SkipAttributesAt, SkipIdentityAt, IdentityAt, SkipCodeOrStringAt, StringRefAt, SkipFactoredAt, SkipQualifiedNameAt;
    hide SkipSpanAt, COMMON_NODE_KINDS;
    var _ :- reader.SkipAttributes();
    var _ :- reader.SkipIdentity(strings);
    var id :- reader.CompactIdentity(c, strings);
    var _ :- reader.SkipCodeOrString(strings, COMMON_NODE_KINDS);
    var _ :- reader.StringRef(strings);
    var _ :- reader.SkipFactored(strings);
    var _ :- reader.SkipFactored(strings);
    var _ :- reader.SkipQualifiedName(strings);
    var _ :- reader.SkipSpan(strings);
    return Success(c.nodeKey(id));
  }

  method ReadEdge(reader: Reader, strings: seq<Text>, external: seq<Identity>, nodeKeys: seq<NodeKey>, objectOwner: Text)
    returns (r: Result<EdgeRecord, BinaryError>)
    modifies reader
    ensures Follows(r, reader.position,
                    EdgeAt(reader.bytes, strings, external, nodeKeys, objectOwner, old(reader.position)))
  {
    hide AttributesAt, CodeOrStringAt, FactoredAt, NodeRefAt, SpanAt, COMMON_RELATIONS;
    var attributes :- reader.Attributes();
    var owner :- reader.Factored(strings, objectOwner);
    var relation :- reader.CodeOrString(strings, COMMON_RELATIONS);
    var source :- reader.NodeRef(nodeKeys, external);
    var span :- reader.Span(strings);
    var target :- reader.NodeRef(nodeKeys, external);
    return Success(EdgeRecord(attributes, Optional(owner), relation, source, span, target));
  }

  method ReadUnresolved(reader: Reader, strings: seq<Text>, external: seq<Identity>, nodeKeys: seq<NodeKey>,
                        objectOwner: Text)
    returns (r: Result<UnresolvedRecord, BinaryError>)
    modifies reader
    ensures Follows(r, reader.position,
                    UnresolvedAt(reader.bytes, strings, external, nodeKeys, objectOwner, old(reader.position)))
  {
    hide AttributesAt, CodeOrStringAt, StringRefAt, FactoredAt, NodeRefAt, SpanAt, COMMON_RELATIONS;
    var attributes :- reader.Attributes();
    var candidateName :- reader.StringRef(strings);
    var candidateNamespace :- reader.StringRef(strings);
    var expression :- reader.StringRef(strings);
    var owner :- reader.Factored(strings, objectOwner);
    var reason :- reader.StringRef(strings);
    var relation :- reader.CodeOrString(strings, COMMON_RELATIONS);
    var source :- reader.NodeRef(nodeKeys, external);
    var span :- reader.Span(strings);
    return Success(UnresolvedRecord(attributes, Optional(candidateName), Optional(candidateNamespace), expression,
                                    Optional(owner), reason, relation, source, span));
  }

  // ----- sections -----

  method DecodeNodes(c: Codec, bytes: seq<byte>, strings: seq<Text>, objectOwner: Text)
    returns (r: Result<seq<NodeRecord>, BinaryError>)
    ensures Yields(r, NodesOf(c, bytes, strings, objectOwner))
  {
    var reader := new Reader(bytes);
    hide NodeAt, CountAt;
    var count :- reader.Count(MAX_RECORDS);
    ghost var read := (p: nat) => NodeAt(c, bytes, strings, objectOwner, p);
    var records: seq<NodeRecord> := [];
    ghost var all := Many(read, count, reader.position);
    PrependNone(all);
    var index := 0;
    while index < count
      invariant 0 <= index <= count
      invariant all == Prepend(records, Many(read, count - index, reader.position))
    {
      ghost var rest := Many(read, count - index, reader.position);
      var record :- ReadNode(reader, c, strings, objectOwner);
      PrependStep(records, record, Many(read, count - index - 1, reader.position));
      records := records + [record];
      index := index + 1;
    }
    assert records + [] == records;
    var _ :- reader.Finish();
    return Success(records);
  }

  method DecodeNodeKeys(c: Codec, bytes: seq<byte>, strings: seq<Text>) returns (r: Result<seq<NodeKey>, BinaryError>)
    ensures Yields(r, NodeKeysOf(c, bytes, strings))
  {
    var reader := new Reader(bytes);
    hide NodeKeyAt, CountAt;
    var count :- reader.Count(MAX_RECORDS);
    ghost var read := (p: nat) => NodeKeyAt(c, bytes, strings, p);
    var keys: seq<NodeKey> := [];
    ghost var all := Many(read, count, reader.position);
    PrependNone(all);
    var index := 0;
    while index < count
      invariant 0 <= index <= count
      invariant all == Prepend(keys, Many(read, count - index, reader.position))
    {
      var key :- ReadNodeKey(reader, c, strings);
      PrependStep(keys, key, Many(read, count - index - 1, reader.position));
      keys := keys + [key];
      index := index + 1;
    }
    assert keys + [] == keys;
    var _ :- reader.Finish();
    return Success(keys);
  }

  method DecodeEdges(bytes: seq<byte>, strings: seq<Text>, external: seq<Identity>, nodeKeys: seq<NodeKey>,
                     objectOwner: Text)
    returns (r: Result<seq<EdgeRecord>, BinaryError>)
    ensures Yields(r, BinaryObject.EdgesOf(bytes, strings, external, nodeKeys, objectOwner))
  {
    var reader := new Reader(bytes);
    hide EdgeAt, CountAt;
    var count :- reader.Count(MAX_RECORDS);
    ghost var read := (p: nat) => EdgeAt(bytes, strings, external, nodeKeys, objectOwner, p);
    var records: seq<EdgeRecord> := [];
    ghost var all := Many(read, count, reader.position);
    PrependNone(all);
    var index := 0;
    while index < count
      invariant 0 <= index <= count
      invariant all == Prepend(records, Many(read, count - index, reader.position))
    {
      var record :- ReadEdge(reader, strings, external, nodeKeys, objectOwner);
      PrependStep(records, record, Many(read, count - index - 1, reader.position));
      records := records + [record];
      index := index + 1;
    }
    assert records + [] == records;
    var _ :- reader.Finish();
    return Success(records);
  }

  method DecodeUnresolved(bytes: seq<byte>, strings: seq<Text>, external: seq<Identity>, nodeKeys: seq<NodeKey>,
                          objectOwner: Text)
    returns (r: Result<seq<UnresolvedRecord>, BinaryError>)
    ensures Yields(r, UnresolvedOf(bytes, strings, external, nodeKeys, objectOwner))
  {
    var reader := new Reader(bytes);
    hide UnresolvedAt, CountAt;
    var count :- reader.Count(MAX_RECORDS);
    ghost var read := (p: nat) => UnresolvedAt(bytes, strings, external, nodeKeys, objectOwner, p);
    var records: seq<UnresolvedRecord> := [];
    ghost var all := Many(read, count, reader.position);
    PrependNone(all);
    var index := 0;
    while index < count
      invariant 0 <= index <= count
      invariant all == Prepend(records, Many(read, count - index, reader.position))
    {
      var record :- ReadUnresolved(reader, strings, external, nodeKeys, objectOwner);
      PrependStep(records, record, Many(read, count - index - 1, reader.position));
      records := records + [record];
      index := index + 1;
    }
    assert records + [] == records;
    var _ :- reader.Finish();
    return Success(records);
  }

  // ----- envelope -----

  method ReadHeader(reader: Reader, c: Codec) returns (r: Result<Header, BinaryError>)
    requires reader.position == 0
    modifies reader
    ensures Follows(r, reader.position, HeaderAt(c, reader.bytes))
  {
    hide MAGIC, CoordinateAt, StringTableAt, StringRefAt, OptionalIdentityAt, IdentityAt;
    var _ :- reader.ExpectMagic();
    var version :- reader.Coordinate();
    var schemaVersion :- reader.Coordinate();
    var strings :- reader.StringTable(c);
    var language :- reader.StringRef(strings);
    var objectOwner :- reader.StringRef(strings);
    var sourceContentId :- reader.OptionalIdentity(c, strings);
    var adapterVersion :- reader.StringRef(strings);
    var analysisConfigId :- reader.CompactIdentity(c, strings);
    return Success(Header(version, schemaVersion, strings, language, objectOwner, sourceContentId, adapterVersion,
                          analysisConfigId));
  }

  method ReadExternal(reader: Reader, c: Codec, strings: seq<Text>, retain: bool) returns (r: Result<seq<Identity>, BinaryError>)
    modifies reader
    ensures Follows(r, reader.position, ExternalAt(c, reader.bytes, old(reader.position), strings, retain))
  {
    hide CountAt, IdentityAt, SkipIdentityAt;
    var count :- reader.Count(MAX_EXTERNAL_REFERENCES);
    if retain {
      r := KeepExternal(reader, c, strings, count);
    } else {
      var _ :- SkipExternal(reader, strings, count);
      return Success([]);
    }
  }

  method KeepExternal(reader: Reader, c: Codec, strings: seq<Text>, count: nat) returns (r: Result<seq<Identity>, BinaryError>)
    modifies reader
    ensures Follows(r, reader.position,
                    Many((p: nat) => IdentityAt(c, reader.bytes, p, strings), count, old(reader.position)))
  {
    hide IdentityAt;
    ghost var read := (p: nat) => IdentityAt(c, reader.bytes, p, strings);
    ghost var all := Many(read, count, reader.position);
    var external: seq<Identity> := [];
    PrependNone(all);
    var index := 0;
    while index < count
      invariant 0 <= index <= count
      invariant all == Prepend(external, Many(read, count - index, reader.position))
    {
      var identity :- reader.CompactIdentity(c, strings);
      PrependStep(external, identity, Many(read, count - index - 1, reader.position));
      external := external + [identity];
      index := index + 1;
    }
    assert external + [] == external;
    return Success(external);
  }

  method SkipExternal(reader: Reader, strings: seq<Text>, count: nat) returns (r: Result<(), BinaryError>)
    modifies reader
    ensures match Many((p: nat) => SkipIdentityAt(reader.bytes, p, strings), count, old(reader.position))
            case Ok(_, next) => r == Success(()) && reader.position == next
            case Bad(error) => r == Failure(error)
  {
    hide SkipIdentityAt;
    ghost var read := (p: nat) => SkipIdentityAt(reader.bytes, p, strings);
    ghost var all := Many(read, count, reader.position);
    ghost var done: seq<()> := [];
    PrependNone(all);
    var index := 0;
    while index < count
      invariant 0 <= index <= count
      invariant all == Prepend(done, Many(read, count - index, reader.position))
    {
      var _ :- reader.SkipIdentity(strings);
      PrependStep(done, (), Many(read, count - index - 1, reader.position));
      done := done + [()];
      index := index + 1;
    }
    return Success(());
  }

  method ReadSections(reader: Reader) returns (r: Result<(seq<byte>, seq<byte>, seq<byte>), BinaryError>)
    modifies reader
    ensures Follows(r, reader.position, SectionsAt(reader.bytes, old(reader.position)))
  {
    hide BytesAt;
    var nodes :- reader.Bytes(MAX_SECTION_SIZE);
    var edges :- reader.Bytes(MAX_SECTION_SIZE);
    var unresolved :- reader.Bytes(MAX_SECTION_SIZE);
    var _ :- reader.Finish();
    return Success((nodes, edges, unresolved));
  }

  method SectionRecordCount(bytes: seq<byte>) returns (r: Result<nat, BinaryError>)
    ensures Yields(r, CountAt(bytes, 0, MAX_RECORDS))
  {
    var reader := new Reader(bytes);
    hide CountAt;
    r := reader.Count(MAX_RECORDS);
  }

  method ParseEnvelope(c: Codec, bytes: seq<byte>, retainExternal: bool) returns (r: Result<Envelope, BinaryError>)
    ensures Yields(r, EnvelopeOf(c, bytes, retainExternal))
  {
    hide HeaderAt, ExternalAt, SectionsAt, CountAt;
    var reader := new Reader(bytes);
    var h :- ReadHeader(reader, c);
    var external :- ReadExternal(reader, c, h.strings, retainExternal);
    var sections :- ReadSections(reader);
    var nodes :- SectionRecordCount(sections.0);
    var edges :- SectionRecordCount(sections.1);
    var unresolved :- SectionRecordCount(sections.2);
    return Success(Envelope(h.version, h.schemaVersion, h.strings, h.language, h.objectOwner, h.sourceContentId,
                            h.adapterVersion, h.analysisConfigId, external, sections.0, sections.1, sections.2,
                            RecordCounts(nodes, edges, unresolved)));
  }

  // ----- objects -----

  method ParseBinaryObjectSelected(c: Codec, bytes: seq<byte>, selection: RecordSelection)
    returns (r: Result<(FactObject, RecordCounts), BinaryError>)
    ensures Yields(r, ParseObject(c, bytes, selection))
  {
    hide EnvelopeOf, NodesOf, NodeKeysOf, BinaryObject.EdgesOf, UnresolvedOf, NodeRecords, RelationRecords;
    var envelope :- ParseEnvelope(c, bytes, selection != Nodes);
    var records: seq<FactRecord>, nodeKeys: seq<NodeKey> := [], [];
    if selection != Relations {
      var nodes :- DecodeNodes(c, envelope.nodes, envelope.strings, envelope.objectOwner);
      records := NodeRecords(nodes);
      nodeKeys := KeysOf(c, nodes);
    } else {
      nodeKeys :- DecodeNodeKeys(c, envelope.nodes, envelope.strings);
    }
    if selection != Nodes {
      var edges :- DecodeEdges(envelope.edges, envelope.strings, envelope.external, nodeKeys, envelope.objectOwner);
      var unresolved :-
        DecodeUnresolved(envelope.unresolved, envelope.strings, envelope.external, nodeKeys, envelope.objectOwner);
      assert [] + RelationRecords(edges, unresolved) == RelationRecords(edges, unresolved);
      records := records + RelationRecords(edges, unresolved);
    }
    return Success((Metadata(envelope, records), envelope.counts));
  }
}
