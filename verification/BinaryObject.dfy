/**
 arcana/src/lexicon/binary_v2.rs: decoding a binary v2 fact object, in full or by section.

 Nodes alone, relations alone and everything together are three passes over the same bytes; the
 relation pass reads the node section with a decoder that skips all but the identities.
 */
module BinaryObject {
  import opened Wrappers
  import opened Lexicon
  import opened Reader

  const MAX_RECORDS: nat := 20_000_000
  const MAX_EXTERNAL_REFERENCES: nat := 4_000_000
  const MAX_SECTION_SIZE: nat := 512 * 1024 * 1024

  function Ascii(s: string): Text {
    seq(|s|, i requires 0 <= i < |s| => s[i] as int % 256)
  }

  const COMMON_NODE_KINDS: seq<Text> := [
    Ascii("repository"), Ascii("directory"), Ascii("file"), Ascii("module"), Ascii("namespace"), Ascii("symbol"),
    Ascii("type"), Ascii("interface"), Ascii("protocol"), Ascii("trait"), Ascii("function"), Ascii("method"),
    Ascii("constructor"), Ascii("field"), Ascii("variable"), Ascii("constant"), Ascii("parameter"), Ascii("import"),
    Ascii("test"), Ascii("http-endpoint"), Ascii("message-channel"), Ascii("config-key")]

  const COMMON_RELATIONS: seq<Text> := [
    Ascii("contains"), Ascii("defines"), Ascii("imports"), Ascii("calls"), Ascii("possible-calls"), Ascii("passes-to"),
    Ascii("converts-to"), Ascii("references"), Ascii("extends"), Ascii("implements"), Ascii("uses-trait"),
    Ascii("overrides"), Ascii("reads"), Ascii("writes"), Ascii("annotates"), Ascii("includes"), Ascii("depends-on"),
    Ascii("tests"), Ascii("documents"), Ascii("generates"), Ascii("calls-endpoint"), Ascii("handled-by"),
    Ascii("publishes"), Ascii("consumes"), Ascii("reads-config")]

  datatype Envelope = Envelope(version: u64, schemaVersion: u64, strings: seq<Text>, language: Text, objectOwner: Text,
                               sourceContentId: Option<Identity>, adapterVersion: Text, analysisConfigId: Identity,
                               external: seq<Identity>, nodes: seq<byte>, edges: seq<byte>, unresolved: seq<byte>,
                               counts: RecordCounts)

  function Optional(value: Text): Option<Text> {
    if value == [] then None else Some(value)
  }

  // ----- repetition -----

  /** `count` consecutive readings. */
  function Many<T>(read: nat -> Read<T>, count: nat, pos: nat): Read<seq<T>>
    decreases count
  {
    if count == 0 then Ok([], pos)
    else
      var (value, next) :- read(pos);
      var (rest, end) :- Many(read, count - 1, next);
      Ok([value] + rest, end)
  }

  /** A section: its record count, that many records, and nothing behind them. */
  function Section<T>(b: seq<byte>, read: nat -> Read<T>): Read<seq<T>> {
    var (count, p1) :- CountAt(b, 0, MAX_RECORDS);
    var (values, p2) :- Many(read, count, p1);
    var (_, end) :- FinishAt(b, p2);
    Ok(values, end)
  }

  lemma {:induction false} ManyLength<T>(read: nat -> Read<T>, count: nat, pos: nat)
    requires Many(read, count, pos).Ok?
    ensures |Many(read, count, pos).value| == count
    decreases count
  {
    if count > 0 { ManyLength(read, count - 1, read(pos).next); }
  }

  /** If one decoder succeeds with a projection of what the other reads, so do their repetitions. */
  lemma {:induction false} ManyProject<S, T>(read: nat -> Read<S>, skip: nat -> Read<T>, project: S -> T, count: nat, pos: nat)
    requires forall p: nat :: read(p).Ok? ==> skip(p) == Ok(project(read(p).value), read(p).next)
    requires Many(read, count, pos).Ok?
    ensures Many(skip, count, pos) == Ok(Map(project, Many(read, count, pos).value), Many(read, count, pos).next)
    decreases count
  {
    if count > 0 {
      assert skip(pos) == Ok(project(read(pos).value), read(pos).next);
      ManyProject(read, skip, project, count - 1, read(pos).next);
      var rest := Many(read, count - 1, read(pos).next).value;
      assert Many(read, count, pos).value == [read(pos).value] + rest;
      assert Many(skip, count, pos).value == [project(read(pos).value)] + Map(project, rest);
      assert Map(project, [read(pos).value] + rest) == [project(read(pos).value)] + Map(project, rest);
    }
  }

  function Map<S, T>(f: S -> T, s: seq<S>): seq<T> {
    seq(|s|, i requires 0 <= i < |s| => f(s[i]))
  }

  // ----- records -----

  function NodeAt(c: Codec, b: seq<byte>, strings: seq<Text>, objectOwner: Text, pos: nat): Read<NodeRecord> {
    var (attributes, p1) :- AttributesAt(b, pos);
    var (contentId, p2) :- OptionalIdentityAt(c, b, p1, strings);
    var (id, p3) :- IdentityAt(c, b, p2, strings);
    var (kind, p4) :- CodeOrStringAt(b, p3, strings, COMMON_NODE_KINDS);
    var (name, p5) :- StringRefAt(b, p4, strings);
    var (owner, p6) :- FactoredAt(b, p5, strings, objectOwner);
    var (path, p7) :- FactoredAt(b, p6, strings, objectOwner);
    var (qualifiedName, p8) :- QualifiedNameAt(b, p7, strings, name, path, objectOwner);
    var (span, p9) :- SpanAt(b, p8, strings);
    Ok(NodeRecord(attributes, contentId, id, kind, name, Optional(owner), path, qualifiedName, span), p9)
  }

  /** The same record with everything skipped but the identity, of which the key is kept. */
  function NodeKeyAt(c: Codec, b: seq<byte>, strings: seq<Text>, pos: nat): Read<NodeKey> {
    var (_, p1) :- SkipAttributesAt(b, pos);
    var (_, p2) :- SkipIdentityAt(b, p1, strings);
    var (id, p3) :- IdentityAt(c, b, p2, strings);
    var (_, p4) :- SkipCodeOrStringAt(b, p3, strings, COMMON_NODE_KINDS);
    var (_, p5) :- StringRefAt(b, p4, strings);
    var (_, p6) :- SkipFactoredAt(b, p5, strings);
    var (_, p7) :- SkipFactoredAt(b, p6, strings);
    var (_, p8) :- SkipQualifiedNameAt(b, p7, strings);
    var (_, p9) :- SkipSpanAt(b, p8, strings);
    Ok(c.nodeKey(id), p9)
  }

  function EdgeAt(b: seq<byte>, strings: seq<Text>, external: seq<Identity>, nodeKeys: seq<NodeKey>, objectOwner: Text,
                  pos: nat)
    : Read<EdgeRecord>
  {
    var (attributes, p1) :- AttributesAt(b, pos);
    var (owner, p2) :- FactoredAt(b, p1, strings, objectOwner);
    var (relation, p3) :- CodeOrStringAt(b, p2, strings, COMMON_RELATIONS);
    var (source, p4) :- NodeRefAt(b, p3, nodeKeys, external);
    var (span, p5) :- SpanAt(b, p4, strings);
    var (target, p6) :- NodeRefAt(b, p5, nodeKeys, external);
    Ok(EdgeRecord(attributes, Optional(owner), relation, source, span, target), p6)
  }

  function UnresolvedAt(b: seq<byte>, strings: seq<Text>, external: seq<Identity>, nodeKeys: seq<NodeKey>,
                        objectOwner: Text, pos: nat)
    : Read<UnresolvedRecord>
  {
    var (attributes, p1) :- AttributesAt(b, pos);
    var (candidateName, p2) :- StringRefAt(b, p1, strings);
    var (candidateNamespace, p3) :- StringRefAt(b, p2, strings);
    var (expression, p4) :- StringRefAt(b, p3, strings);
    var (owner, p5) :- FactoredAt(b, p4, strings, objectOwner);
    var (reason, p6) :- StringRefAt(b, p5, strings);
    var (relation, p7) :- CodeOrStringAt(b, p6, strings, COMMON_RELATIONS);
    var (source, p8) :- NodeRefAt(b, p7, nodeKeys, external);
    var (span, p9) :- SpanAt(b, p8, strings);
    Ok(UnresolvedRecord(attributes, Optional(candidateName), Optional(candidateNamespace), expression, Optional(owner),
                        reason, relation, source, span), p9)
  }

  function NodesOf(c: Codec, b: seq<byte>, strings: seq<Text>, objectOwner: Text): Read<seq<NodeRecord>> {
    Section(b, (p: nat) => NodeAt(c, b, strings, objectOwner, p))
  }

  function NodeKeysOf(c: Codec, b: seq<byte>, strings: seq<Text>): Read<seq<NodeKey>> {
    Section(b, (p: nat) => NodeKeyAt(c, b, strings, p))
  }

  function EdgesOf(b: seq<byte>, strings: seq<Text>, external: seq<Identity>, nodeKeys: seq<NodeKey>, objectOwner: Text)
    : Read<seq<EdgeRecord>>
  {
    Section(b, (p: nat) => EdgeAt(b, strings, external, nodeKeys, objectOwner, p))
  }

  function UnresolvedOf(b: seq<byte>, strings: seq<Text>, external: seq<Identity>, nodeKeys: seq<NodeKey>,
                        objectOwner: Text)
    : Read<seq<UnresolvedRecord>>
  {
    Section(b, (p: nat) => UnresolvedAt(b, strings, external, nodeKeys, objectOwner, p))
  }

  // ----- envelope -----

  function MagicAt(b: seq<byte>): Read<()> {
    if MAGIC <= b then Ok((), |MAGIC|) else Bad(InvalidMagic)
  }

  /** External references: kept, or skipped without looking at what they name. */
  function ExternalAt(c: Codec, b: seq<byte>, pos: nat, strings: seq<Text>, retain: bool): Read<seq<Identity>> {
    var (count, p1) :- CountAt(b, pos, MAX_EXTERNAL_REFERENCES);
    if retain then Many((p: nat) => IdentityAt(c, b, p, strings), count, p1)
    else
      var (_, p2) :- Many((p: nat) => SkipIdentityAt(b, p, strings), count, p1);
      Ok([], p2)
  }

  function SectionsAt(b: seq<byte>, pos: nat): Read<(seq<byte>, seq<byte>, seq<byte>)> {
    var (nodes, p1) :- BytesAt(b, pos, MAX_SECTION_SIZE);
    var (edges, p2) :- BytesAt(b, p1, MAX_SECTION_SIZE);
    var (unresolved, p3) :- BytesAt(b, p2, MAX_SECTION_SIZE);
    var (_, p4) :- FinishAt(b, p3);
    Ok((nodes, edges, unresolved), p4)
  }

  function CountsOf(nodes: seq<byte>, edges: seq<byte>, unresolved: seq<byte>): Read<RecordCounts> {
    var (n, _) :- CountAt(nodes, 0, MAX_RECORDS);
    var (e, _) :- CountAt(edges, 0, MAX_RECORDS);
    var (u, next) :- CountAt(unresolved, 0, MAX_RECORDS);
    Ok(RecordCounts(n, e, u), next)
  }

  datatype Header = Header(version: u64, schemaVersion: u64, strings: seq<Text>, language: Text, objectOwner: Text,
                           sourceContentId: Option<Identity>, adapterVersion: Text, analysisConfigId: Identity)

  function HeaderAt(c: Codec, b: seq<byte>): Read<Header> {
    var (_, p0) :- MagicAt(b);
    var (version, p1) :- CoordinateAt(b, p0);
    var (schemaVersion, p2) :- CoordinateAt(b, p1);
    var (strings, p3) :- StringTableAt(c, b, p2);
    var (language, p4) :- StringRefAt(b, p3, strings);
    var (objectOwner, p5) :- StringRefAt(b, p4, strings);
    var (sourceContentId, p6) :- OptionalIdentityAt(c, b, p5, strings);
    var (adapterVersion, p7) :- StringRefAt(b, p6, strings);
    var (analysisConfigId, p8) :- IdentityAt(c, b, p7, strings);
    Ok(Header(version, schemaVersion, strings, language, objectOwner, sourceContentId, adapterVersion, analysisConfigId), p8)
  }

  function EnvelopeOf(c: Codec, b: seq<byte>, retain: bool): Read<Envelope> {
    var (h, p1) :- HeaderAt(c, b);
    var (external, p2) :- ExternalAt(c, b, p1, h.strings, retain);
    var (sections, p3) :- SectionsAt(b, p2);
    var (counts, _) :- CountsOf(sections.0, sections.1, sections.2);
    Ok(Envelope(h.version, h.schemaVersion, h.strings, h.language, h.objectOwner, h.sourceContentId, h.adapterVersion,
                h.analysisConfigId, external, sections.0, sections.1, sections.2, counts), p3)
  }

  // ----- objects -----

  function Metadata(e: Envelope, records: seq<FactRecord>): FactObject {
    FactObject(e.version, e.language, Optional(e.objectOwner), e.sourceContentId, e.adapterVersion, e.schemaVersion,
               e.analysisConfigId, records)
  }

  function NodeRecords(nodes: seq<NodeRecord>): seq<FactRecord> {
    Map((n: NodeRecord) => Node(n), nodes)
  }

  function RelationRecords(edges: seq<EdgeRecord>, unresolved: seq<UnresolvedRecord>): seq<FactRecord> {
    Map((e: EdgeRecord) => Edge(e), edges) + Map((u: UnresolvedRecord) => Unresolved(u), unresolved)
  }

  function RelationsOf(e: Envelope, nodeKeys: seq<NodeKey>): Read<seq<FactRecord>> {
    var (edges, _) :- EdgesOf(e.edges, e.strings, e.external, nodeKeys, e.objectOwner);
    var (unresolved, next) :- UnresolvedOf(e.unresolved, e.strings, e.external, nodeKeys, e.objectOwner);
    Ok(RelationRecords(edges, unresolved), next)
  }

  function KeysOf(c: Codec, nodes: seq<NodeRecord>): seq<NodeKey> {
    Map((n: NodeRecord) => c.nodeKey(n.id), nodes)
  }

  /** `parse_binary_object_selected`. */
  function ParseObject(c: Codec, b: seq<byte>, selection: RecordSelection): Read<(FactObject, RecordCounts)> {
    var (e, p) :- EnvelopeOf(c, b, selection != Nodes);
    match selection
    case Nodes =>
      var (nodes, _) :- NodesOf(c, e.nodes, e.strings, e.objectOwner);
      Ok((Metadata(e, NodeRecords(nodes)), e.counts), p)
    case Relations =>
      var (keys, _) :- NodeKeysOf(c, e.nodes, e.strings);
      var (relations, _) :- RelationsOf(e, keys);
      Ok((Metadata(e, relations), e.counts), p)
    case All =>
      var (nodes, _) :- NodesOf(c, e.nodes, e.strings, e.objectOwner);
      var (relations, _) :- RelationsOf(e, KeysOf(c, nodes));
      Ok((Metadata(e, NodeRecords(nodes) + relations), e.counts), p)
  }

  // ----- the skipping decoder stays in lockstep -----

  lemma SkipIdentityFollows(c: Codec, b: seq<byte>, pos: nat, strings: seq<Text>)
    ensures IdentityAt(c, b, pos, strings).Ok? ==>
      SkipIdentityAt(b, pos, strings) == Ok((), IdentityAt(c, b, pos, strings).next)
    ensures OptionalIdentityAt(c, b, pos, strings).Ok? ==>
      SkipIdentityAt(b, pos, strings) == Ok((), OptionalIdentityAt(c, b, pos, strings).next)
  {
    hide VarintAt;
  }

  lemma SkipSpanFollows(b: seq<byte>, pos: nat, strings: seq<Text>)
    ensures SkipSpanAt(b, pos, strings).Ok? <==> SpanAt(b, pos, strings).Ok?
    ensures SpanAt(b, pos, strings).Ok? ==> SkipSpanAt(b, pos, strings).next == SpanAt(b, pos, strings).next
  {
    hide VarintAt, StringRefAt;
  }

  lemma SkipFieldsFollow(b: seq<byte>, pos: nat, strings: seq<Text>, values: seq<Text>, name: Text, path: Text, owner: Text)
    ensures SkipAttributesAt(b, pos).Ok? <==> AttributesAt(b, pos).Ok?
    ensures AttributesAt(b, pos).Ok? ==> SkipAttributesAt(b, pos).next == AttributesAt(b, pos).next
    ensures SkipCodeOrStringAt(b, pos, strings, values).Ok? <==> CodeOrStringAt(b, pos, strings, values).Ok?
    ensures CodeOrStringAt(b, pos, strings, values).Ok? ==>
      SkipCodeOrStringAt(b, pos, strings, values).next == CodeOrStringAt(b, pos, strings, values).next
    ensures SkipFactoredAt(b, pos, strings).Ok? <==> FactoredAt(b, pos, strings, owner).Ok?
    ensures FactoredAt(b, pos, strings, owner).Ok? ==>
      SkipFactoredAt(b, pos, strings).next == FactoredAt(b, pos, strings, owner).next
    ensures SkipQualifiedNameAt(b, pos, strings).Ok? <==> QualifiedNameAt(b, pos, strings, name, path, owner).Ok?
    ensures QualifiedNameAt(b, pos, strings, name, path, owner).Ok? ==>
      SkipQualifiedNameAt(b, pos, strings).next == QualifiedNameAt(b, pos, strings, name, path, owner).next
  {
    hide VarintAt, StringRefAt, BytesAt;
  }

  /** The content identity of the record at a position, which only the full decoder parses. */
  function ContentIdAt(c: Codec, b: seq<byte>, strings: seq<Text>, pos: nat): Read<Option<Identity>> {
    var (_, p1) :- SkipAttributesAt(b, pos);
    OptionalIdentityAt(c, b, p1, strings)
  }

  /**
   A record is decoded exactly when its key is and its content identity parses, and both readers then
   stop at the same place.
   */
  lemma NodeKeyExact(c: Codec, b: seq<byte>, strings: seq<Text>, objectOwner: Text, pos: nat)
    ensures var full, key := NodeAt(c, b, strings, objectOwner, pos), NodeKeyAt(c, b, strings, pos);
      && (full.Ok? <==> key.Ok? && ContentIdAt(c, b, strings, pos).Ok?)
      && (full.Ok? ==> key == Ok(c.nodeKey(full.value.id), full.next))
  {
    var o := objectOwner;
    hide AttributesAt, SkipAttributesAt, OptionalIdentityAt, SkipIdentityAt, IdentityAt, CodeOrStringAt, SkipCodeOrStringAt;
    hide StringRefAt, FactoredAt, SkipFactoredAt, QualifiedNameAt, SkipQualifiedNameAt, SpanAt, SkipSpanAt, COMMON_NODE_KINDS;
    SkipFieldsFollow(b, pos, strings, [], [], [], o);
    if SkipAttributesAt(b, pos).Ok? {
      var p1 := SkipAttributesAt(b, pos).next;
      SkipIdentityFollows(c, b, p1, strings);
      if SkipIdentityAt(b, p1, strings).Ok? {
        var p2 := SkipIdentityAt(b, p1, strings).next;
        if IdentityAt(c, b, p2, strings).Ok? {
          NodeTailExact(c, b, strings, o, IdentityAt(c, b, p2, strings).next);
        }
      }
    }
  }

  /** What follows the identity of a record: kind, name, owner, path, qualified name and span. */
  function NodeTailAt(b: seq<byte>, strings: seq<Text>, objectOwner: Text, pos: nat)
    : Read<(Text, Text, Text, Text, Text, Option<SpanRecord>)>
  {
    var (kind, p4) :- CodeOrStringAt(b, pos, strings, COMMON_NODE_KINDS);
    var (name, p5) :- StringRefAt(b, p4, strings);
    var (owner, p6) :- FactoredAt(b, p5, strings, objectOwner);
    var (path, p7) :- FactoredAt(b, p6, strings, objectOwner);
    var (qualifiedName, p8) :- QualifiedNameAt(b, p7, strings, name, path, objectOwner);
    var (span, p9) :- SpanAt(b, p8, strings);
    Ok((kind, name, owner, path, qualifiedName, span), p9)
  }

  function SkipTailAt(b: seq<byte>, strings: seq<Text>, pos: nat): Read<()> {
    var (_, p4) :- SkipCodeOrStringAt(b, pos, strings, COMMON_NODE_KINDS);
    var (_, p5) :- StringRefAt(b, p4, strings);
    var (_, p6) :- SkipFactoredAt(b, p5, strings);
    var (_, p7) :- SkipFactoredAt(b, p6, strings);
    var (_, p8) :- SkipQualifiedNameAt(b, p7, strings);
    var (_, p9) :- SkipSpanAt(b, p8, strings);
    Ok((), p9)
  }

  lemma NodeTailExact(c: Codec, b: seq<byte>, strings: seq<Text>, o: Text, pos: nat)
    ensures NodeTailAt(b, strings, o, pos).Ok? <==> SkipTailAt(b, strings, pos).Ok?
    ensures NodeTailAt(b, strings, o, pos).Ok? ==> SkipTailAt(b, strings, pos).next == NodeTailAt(b, strings, o, pos).next
  {
    hide CodeOrStringAt, SkipCodeOrStringAt, COMMON_NODE_KINDS;
    hide StringRefAt, FactoredAt, SkipFactoredAt, QualifiedNameAt, SkipQualifiedNameAt, SpanAt, SkipSpanAt;
    SkipFieldsFollow(b, pos, strings, COMMON_NODE_KINDS, [], [], o);
    var kind := CodeOrStringAt(b, pos, strings, COMMON_NODE_KINDS);
    if kind.Ok? {
      var name := StringRefAt(b, kind.next, strings);
      if name.Ok? {
        SkipFieldsFollow(b, name.next, strings, [], [], [], o);
        var owner := FactoredAt(b, name.next, strings, o);
        if owner.Ok? {
          SkipFieldsFollow(b, owner.next, strings, [], [], [], o);
          var path := FactoredAt(b, owner.next, strings, o);
          if path.Ok? {
            SkipFieldsFollow(b, path.next, strings, [], name.value, path.value, o);
            var qualified := QualifiedNameAt(b, path.next, strings, name.value, path.value, o);
            if qualified.Ok? { SkipSpanFollows(b, qualified.next, strings); }
          }
        }
      }
    }
  }

  /** `decode_node_keys` is the key map of `decode_nodes` wherever the latter succeeds. */
  lemma NodeKeysAgree(c: Codec, b: seq<byte>, strings: seq<Text>, objectOwner: Text)
    requires NodesOf(c, b, strings, objectOwner).Ok?
    ensures NodeKeysOf(c, b, strings).Ok?
    ensures NodeKeysOf(c, b, strings).value == KeysOf(c, NodesOf(c, b, strings, objectOwner).value)
  {
    var read, skip := (p: nat) => NodeAt(c, b, strings, objectOwner, p), (p: nat) => NodeKeyAt(c, b, strings, p);
    forall p: nat | read(p).Ok? ensures skip(p) == Ok(c.nodeKey(read(p).value.id), read(p).next) {
      NodeKeyExact(c, b, strings, objectOwner, p);
    }
    var count := CountAt(b, 0, MAX_RECORDS);
    ManyProject(read, skip, (n: NodeRecord) => c.nodeKey(n.id), count.value, count.next);
  }

  // ----- selective decoding -----

  /** Skipping the external references succeeds wherever keeping them does, and changes nothing else. */
  lemma EnvelopesAgree(c: Codec, b: seq<byte>)
    requires EnvelopeOf(c, b, true).Ok?
    ensures EnvelopeOf(c, b, false) ==
            Ok(EnvelopeOf(c, b, true).value.(external := []), EnvelopeOf(c, b, true).next)
  {
    hide HeaderAt, SectionsAt, CountsOf, IdentityAt, SkipIdentityAt, CountAt, Many;
    var h := HeaderAt(c, b);
    var strings := h.value.strings;
    var count := CountAt(b, h.next, MAX_EXTERNAL_REFERENCES);
    var read, skip := (p: nat) => IdentityAt(c, b, p, strings), (p: nat) => SkipIdentityAt(b, p, strings);
    forall p: nat | read(p).Ok? ensures skip(p) == Ok((), read(p).next) {
      SkipIdentityFollows(c, b, p, strings);
    }
    ManyProject(read, skip, (i: Identity) => (), count.value, count.next);
  }

  lemma CountsMatch(c: Codec, b: seq<byte>, retain: bool)
    requires EnvelopeOf(c, b, retain).Ok?
    ensures var e := EnvelopeOf(c, b, retain).value;
      && CountAt(e.nodes, 0, MAX_RECORDS).Ok? && CountAt(e.nodes, 0, MAX_RECORDS).value == e.counts.nodes
      && CountAt(e.edges, 0, MAX_RECORDS).Ok? && CountAt(e.edges, 0, MAX_RECORDS).value == e.counts.edges
      && CountAt(e.unresolved, 0, MAX_RECORDS).Ok? && CountAt(e.unresolved, 0, MAX_RECORDS).value == e.counts.unresolved
  {
    hide HeaderAt, ExternalAt, SectionsAt, CountAt;
  }

  lemma SectionLength<T>(b: seq<byte>, read: nat -> Read<T>)
    requires Section(b, read).Ok?
    ensures CountAt(b, 0, MAX_RECORDS).Ok? && |Section(b, read).value| == CountAt(b, 0, MAX_RECORDS).value
  {
    hide CountAt;
    ManyLength(read, CountAt(b, 0, MAX_RECORDS).value, CountAt(b, 0, MAX_RECORDS).next);
  }

  /** The counts of an object are the numbers of records its sections hold. */
  lemma RelationCounts(e: Envelope, nodeKeys: seq<NodeKey>)
    requires RelationsOf(e, nodeKeys).Ok?
    ensures var records := RelationsOf(e, nodeKeys).value;
      && CountAt(e.edges, 0, MAX_RECORDS).Ok? && CountAt(e.unresolved, 0, MAX_RECORDS).Ok?
      && var n := CountAt(e.edges, 0, MAX_RECORDS).value;
         && |records| == n + CountAt(e.unresolved, 0, MAX_RECORDS).value
         && (forall i :: 0 <= i < n ==> records[i].Edge?)
         && (forall i :: n <= i < |records| ==> records[i].Unresolved?)
  {
    SectionLength(e.edges, (p: nat) => EdgeAt(e.edges, e.strings, e.external, nodeKeys, e.objectOwner, p));
    SectionLength(e.unresolved, (p: nat) => UnresolvedAt(e.unresolved, e.strings, e.external, nodeKeys, e.objectOwner, p));
    hide CountAt, Section;
  }

  /**
   On any bytes: everything decodes exactly when the nodes and the relations each do; the records are
   then the nodes followed by the relations, and all three passes report the same metadata and counts.
   */
  lemma SelectiveAgrees(c: Codec, b: seq<byte>)
    ensures var all, nodes, relations := ParseObject(c, b, All), ParseObject(c, b, Nodes), ParseObject(c, b, Relations);
      && (all.Ok? <==> nodes.Ok? && relations.Ok?)
      && (all.Ok? ==>
            && all.value.0 == nodes.value.0.(records := nodes.value.0.records + relations.value.0.records)
            && relations.value.0 == nodes.value.0.(records := relations.value.0.records)
            && all.value.1 == nodes.value.1 == relations.value.1)
  {
    hide EnvelopeOf, NodesOf, NodeKeysOf, RelationsOf, NodeRecords;
    if EnvelopeOf(c, b, true).Ok? {
      EnvelopesAgree(c, b);
      var e := EnvelopeOf(c, b, true).value;
      if NodesOf(c, e.nodes, e.strings, e.objectOwner).Ok? {
        NodeKeysAgree(c, e.nodes, e.strings, e.objectOwner);
      }
    }
  }

  /** In every selection the counts are those of the sections decoded: nodes, then edges, then unresolved. */
  lemma CountsExact(c: Codec, b: seq<byte>, selection: RecordSelection)
    requires ParseObject(c, b, selection).Ok?
    ensures var (decoded, counts) := ParseObject(c, b, selection).value;
      var n := if selection == Relations then 0 else counts.nodes;
      var m := if selection == Nodes then 0 else counts.edges;
      && |decoded.records| == n + m + (if selection == Nodes then 0 else counts.unresolved)
      && (forall i :: 0 <= i < n ==> decoded.records[i].Node?)
      && (forall i :: n <= i < n + m ==> decoded.records[i].Edge?)
      && (forall i :: n + m <= i < |decoded.records| ==> decoded.records[i].Unresolved?)
  {
    hide EnvelopeOf, NodesOf, NodeKeysOf, RelationsOf, CountAt;
    var e := EnvelopeOf(c, b, selection != Nodes).value;
    CountsMatch(c, b, selection != Nodes);
    if selection != Relations { NodesLength(c, e.nodes, e.strings, e.objectOwner); }
    if selection == Relations {
      RelationCounts(e, NodeKeysOf(c, e.nodes, e.strings).value);
    } else if selection == All {
      RelationCounts(e, KeysOf(c, NodesOf(c, e.nodes, e.strings, e.objectOwner).value));
    }
  }

  lemma NodesLength(c: Codec, b: seq<byte>, strings: seq<Text>, objectOwner: Text)
    requires NodesOf(c, b, strings, objectOwner).Ok?
    ensures CountAt(b, 0, MAX_RECORDS).Ok?
    ensures |NodesOf(c, b, strings, objectOwner).value| == CountAt(b, 0, MAX_RECORDS).value
  {
    SectionLength(b, (p: nat) => NodeAt(c, b, strings, objectOwner, p));
  }
}
