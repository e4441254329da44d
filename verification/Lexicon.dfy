/**
 arcana/src/lexicon/object.rs and identity.rs: the records of a Lexicon fact object.

 Strings are sequences of bytes. Hashing, identity parsing and UTF-8 validity are opaque total
 functions, collected in `Codec`.
 */
module Lexicon {
  import opened Wrappers

  type byte = b: int | 0 <= b < 256
  type u64 = n: int | 0 <= n < 0x1_0000_0000_0000_0000
  type Text = seq<byte>
  type NodeKey = u64

  /** A SHA-256 digest. */
  type Identity = s: seq<byte> | |s| == 32 witness seq(32, _ => 0)

  datatype SpanRecord = SpanRecord(path: Text, startLine: u64, startColumn: u64, endLine: u64, endColumn: u64)

  datatype NodeRecord = NodeRecord(attributes: Option<seq<byte>>, contentId: Option<Identity>, id: Identity, kind: Text,
                                   name: Text, owner: Option<Text>, path: Text, qualifiedName: Text,
                                   span: Option<SpanRecord>)

  datatype NodeReference = ByIdentity(identity: Identity) | ByKey(key: NodeKey)

  datatype EdgeRecord = EdgeRecord(attributes: Option<seq<byte>>, owner: Option<Text>, relation: Text,
                                   source: NodeReference, span: Option<SpanRecord>, target: NodeReference)

  datatype UnresolvedRecord = UnresolvedRecord(attributes: Option<seq<byte>>, candidateName: Option<Text>,
                                               candidateNamespace: Option<Text>, expression: Text, owner: Option<Text>,
                                               reason: Text, relation: Text, source: NodeReference,
                                               span: Option<SpanRecord>)

  datatype FactRecord = Node(node: NodeRecord) | Edge(edge: EdgeRecord) | Unresolved(unresolved: UnresolvedRecord)

  datatype RecordCounts = RecordCounts(nodes: nat, edges: nat, unresolved: nat)

  datatype RecordSelection = All | Nodes | Relations

  datatype FactObject = FactObject(version: u64, language: Text, owner: Option<Text>, sourceContentId: Option<Identity>,
                                   adapterVersion: Text, schemaVersion: u64, analysisConfigId: Identity,
                                   records: seq<FactRecord>)

  /** The opaque functions the decoder relies on. */
  datatype Codec = Codec(utf8: Text -> bool, parseIdentity: Text -> Option<Identity>, nodeKey: Identity -> NodeKey)
}
