/**
 lexicon/spec/objects-v2.md: what the bytes of a binary v2 object say, written down from the side of the writer.

 A form lists the pieces of which a field, a record or an object consists; every number in it may be any LEB128
 form. `ObjectBinary` shows that the decoder accepts exactly these.
 */
module ObjectLayout {
  import opened Wrappers
  import opened Lexicon
  import opened FrontCoding

  // ----- vocabulary -----

  function Letters(s: string): Text {
    seq(|s|, i requires 0 <= i < |s| => s[i] as int % 256)
  }

  /** The names of codes, and none for code 0. */
  type Vocabulary = nat -> Option<Text>

  function NodeKindName(code: nat): Option<Text> {
    match code
    case 1 => Some(Letters("repository"))
    case 2 => Some(Letters("directory"))
    case 3 => Some(Letters("file"))
    case 4 => Some(Letters("module"))
    case 5 => Some(Letters("namespace"))
    case 6 => Some(Letters("symbol"))
    case 7 => Some(Letters("type"))
    case 8 => Some(Letters("interface"))
    case 9 => Some(Letters("protocol"))
    case 10 => Some(Letters("trait"))
    case 11 => Some(Letters("function"))
    case 12 => Some(Letters("method"))
    case 13 => Some(Letters("constructor"))
    case 14 => Some(Letters("field"))
    case 15 => Some(Letters("variable"))
    case 16 => Some(Letters("constant"))
    case 17 => Some(Letters("parameter"))
    case 18 => Some(Letters("import"))
    case 19 => Some(Letters("test"))
    case 20 => Some(Letters("http-endpoint"))
    case 21 => Some(Letters("message-channel"))
    case 22 => Some(Letters("config-key"))
    case _ => None
  }

  function RelationName(code: nat): Option<Text> {
    match code
    case 1 => Some(Letters("contains"))
    case 2 => Some(Letters("defines"))
    case 3 => Some(Letters("imports"))
    case 4 => Some(Letters("calls"))
    case 5 => Some(Letters("possible-calls"))
    case 6 => Some(Letters("passes-to"))
    case 7 => Some(Letters("converts-to"))
    case 8 => Some(Letters("references"))
    case 9 => Some(Letters("extends"))
    case 10 => Some(Letters("implements"))
    case 11 => Some(Letters("uses-trait"))
    case 12 => Some(Letters("overrides"))
    case 13 => Some(Letters("reads"))
    case 14 => Some(Letters("writes"))
    case 15 => Some(Letters("annotates"))
    case 16 => Some(Letters("includes"))
    case 17 => Some(Letters("depends-on"))
    case 18 => Some(Letters("tests"))
    case 19 => Some(Letters("documents"))
    case 20 => Some(Letters("generates"))
    case 21 => Some(Letters("calls-endpoint"))
    case 22 => Some(Letters("handled-by"))
    case 23 => Some(Letters("publishes"))
    case 24 => Some(Letters("consumes"))
    case 25 => Some(Letters("reads-config"))
    case _ => None
  }

  // ----- fields -----

  /** A number that is an index into a table. */
  ghost predicate Points<T>(s: seq<byte>, table: seq<T>, value: T) {
    Number(s, LebValue(s)) && LebValue(s) < |table| && table[LebValue(s)] == value
  }

  /** One that counts from one. */
  ghost predicate PointsFromOne<T>(s: seq<byte>, table: seq<T>, value: T) {
    Number(s, LebValue(s)) && 0 < LebValue(s) <= |table| && table[LebValue(s) - 1] == value
  }

  /** Bytes behind their length. */
  datatype BlockForm = BlockForm(size: seq<byte>, bytes: seq<byte>)

  ghost predicate BlockForms(f: BlockForm, maximum: nat, bytes: seq<byte>) {
    f.bytes == bytes && Number(f.size, |bytes|) && |bytes| <= maximum
  }

  function BlockBytes(f: BlockForm): seq<byte> {
    f.size + f.bytes
  }

  /** Tag 0 is followed by a reference to the text of the identity, tag 1 by its digest. */
  datatype IdentityForm = Textual(text: seq<byte>) | Raw(digest: Identity)

  ghost predicate IdentityForms(f: IdentityForm, c: Codec, strings: seq<Text>, id: Identity) {
    match f
    case Textual(text) =>
      Number(text, LebValue(text)) && LebValue(text) < |strings| && c.parseIdentity(strings[LebValue(text)]) == Some(id)
    case Raw(digest) => digest == id
  }

  /** The empty text stands for no identity. */
  ghost predicate OptionalIdentityForms(f: IdentityForm, c: Codec, strings: seq<Text>, id: Option<Identity>) {
    if f.Textual? && Points(f.text, strings, []) then id.None? else id.Some? && IdentityForms(f, c, strings, id.value)
  }

  function IdentityBytes(f: IdentityForm): seq<byte> {
    match f
    case Textual(text) => [0] + text
    case Raw(digest) => [1] + digest
  }

  /** A code of the vocabulary, or code 0 and a reference. */
  datatype LabelForm = Coded(code: seq<byte>) | Spelled(zero: seq<byte>, text: seq<byte>)

  ghost predicate LabelForms(f: LabelForm, strings: seq<Text>, name: nat -> Option<Text>, word: Text) {
    match f
    case Coded(code) => Number(code, LebValue(code)) && name(LebValue(code)) == Some(word)
    case Spelled(zero, text) => Number(zero, 0) && Points(text, strings, word)
  }

  function LabelBytes(f: LabelForm): seq<byte> {
    match f
    case Coded(code) => code
    case Spelled(zero, text) => zero + text
  }

  /** Factor 0 is the empty text, factor 1 the owner of the object, factor 2 is followed by a reference. */
  datatype FactoredForm = Nothing(factor: seq<byte>) | TheOwner(factor: seq<byte>) | Literal(factor: seq<byte>, text: seq<byte>)

  ghost predicate FactoredForms(f: FactoredForm, strings: seq<Text>, objectOwner: Text, value: Text) {
    match f
    case Nothing(factor) => Number(factor, 0) && value == []
    case TheOwner(factor) => Number(factor, 1) && value == objectOwner
    case Literal(factor, text) => Number(factor, 2) && Points(text, strings, value)
  }

  function FactoredBytes(f: FactoredForm): seq<byte> {
    match f
    case Nothing(factor) => factor
    case TheOwner(factor) => factor
    case Literal(factor, text) => factor + text
  }

  /** Factor 0 is followed by a reference; 1 is the name, 2 the path, 3 the owner of the object. */
  datatype QualifiedForm =
    | OwnText(factor: seq<byte>, text: seq<byte>) | AsName(factor: seq<byte>) | AsPath(factor: seq<byte>) | AsOwner(factor: seq<byte>)

  ghost predicate QualifiedForms(f: QualifiedForm, strings: seq<Text>, name: Text, path: Text, objectOwner: Text, value: Text) {
    match f
    case OwnText(factor, text) => Number(factor, 0) && Points(text, strings, value)
    case AsName(factor) => Number(factor, 1) && value == name
    case AsPath(factor) => Number(factor, 2) && value == path
    case AsOwner(factor) => Number(factor, 3) && value == objectOwner
  }

  function QualifiedBytes(f: QualifiedForm): seq<byte> {
    match f
    case OwnText(factor, text) => factor + text
    case _ => f.factor
  }

  /** Flag 0, or flag 1 with a path and four numbers. */
  datatype SpanForm =
    | NoSpan
    | SpanForm(path: seq<byte>, startLine: seq<byte>, startColumn: seq<byte>, endLine: seq<byte>, endColumn: seq<byte>)

  ghost predicate SpanForms(f: SpanForm, strings: seq<Text>, span: Option<SpanRecord>) {
    match f
    case NoSpan => span.None?
    case SpanForm(path, startLine, startColumn, endLine, endColumn) =>
      && span.Some? && Points(path, strings, span.value.path)
      && Number(startLine, span.value.startLine) && Number(startColumn, span.value.startColumn)
      && Number(endLine, span.value.endLine) && Number(endColumn, span.value.endColumn)
  }

  function SpanBytes(f: SpanForm): seq<byte> {
    match f
    case NoSpan => [0]
    case SpanForm(path, startLine, startColumn, endLine, endColumn) =>
      [1] + (path + (startLine + (startColumn + (endLine + endColumn))))
  }

  /** Tag 0 and the ordinal of a node of the object, or tag 1 and an index into the external references. */
  datatype ReferenceForm = Local(ordinal: seq<byte>) | External(index: seq<byte>)

  ghost predicate ReferenceForms(f: ReferenceForm, nodeKeys: seq<NodeKey>, external: seq<Identity>, r: NodeReference) {
    match f
    case Local(ordinal) => r.ByKey? && PointsFromOne(ordinal, nodeKeys, r.key)
    case External(index) => r.ByIdentity? && PointsFromOne(index, external, r.identity)
  }

  function ReferenceBytes(f: ReferenceForm): seq<byte> {
    match f
    case Local(ordinal) => [0] + ordinal
    case External(index) => [1] + index
  }

  // ----- records -----

  /** A missing text or block is written as an empty one. */
  function Plain<T>(value: Option<seq<T>>): seq<T> {
    match value case None => [] case Some(present) => present
  }

  /** So it cannot be present and empty. */
  predicate Proper<T>(value: Option<seq<T>>) {
    value.Some? ==> value.value != []
  }

  datatype NodeForm = NodeForm(attributes: BlockForm, contentId: IdentityForm, id: IdentityForm, kind: LabelForm, name: seq<byte>,
                               owner: FactoredForm, path: FactoredForm, qualifiedName: QualifiedForm, span: SpanForm)

  ghost predicate NodeForms(f: NodeForm, c: Codec, strings: seq<Text>, objectOwner: Text, n: NodeRecord) {
    && BlockForms(f.attributes, 33_554_432, Plain(n.attributes)) && Proper(n.attributes)
    && OptionalIdentityForms(f.contentId, c, strings, n.contentId)
    && IdentityForms(f.id, c, strings, n.id)
    && LabelForms(f.kind, strings, NodeKindName, n.kind)
    && Points(f.name, strings, n.name)
    && FactoredForms(f.owner, strings, objectOwner, Plain(n.owner)) && Proper(n.owner)
    && FactoredForms(f.path, strings, objectOwner, n.path)
    && QualifiedForms(f.qualifiedName, strings, n.name, n.path, objectOwner, n.qualifiedName)
    && SpanForms(f.span, strings, n.span)
  }

  function NodeBytes(f: NodeForm): seq<byte> {
    BlockBytes(f.attributes) + (IdentityBytes(f.contentId) + (IdentityBytes(f.id) + (LabelBytes(f.kind) + (f.name +
    (FactoredBytes(f.owner) + (FactoredBytes(f.path) + (QualifiedBytes(f.qualifiedName) + SpanBytes(f.span))))))))
  }

  datatype EdgeForm = EdgeForm(attributes: BlockForm, owner: FactoredForm, relation: LabelForm, source: ReferenceForm,
                               span: SpanForm, target: ReferenceForm)

  ghost predicate EdgeForms(f: EdgeForm, strings: seq<Text>, external: seq<Identity>, nodeKeys: seq<NodeKey>, objectOwner: Text,
                            e: EdgeRecord)
  {
    && BlockForms(f.attributes, 33_554_432, Plain(e.attributes)) && Proper(e.attributes)
    && FactoredForms(f.owner, strings, objectOwner, Plain(e.owner)) && Proper(e.owner)
    && LabelForms(f.relation, strings, RelationName, e.relation)
    && ReferenceForms(f.source, nodeKeys, external, e.source)
    && SpanForms(f.span, strings, e.span)
    && ReferenceForms(f.target, nodeKeys, external, e.target)
  }

  function EdgeBytes(f: EdgeForm): seq<byte> {
    BlockBytes(f.attributes) + (FactoredBytes(f.owner) + (LabelBytes(f.relation) + (ReferenceBytes(f.source) +
    (SpanBytes(f.span) + ReferenceBytes(f.target)))))
  }

  datatype UnresolvedForm = UnresolvedForm(attributes: BlockForm, candidateName: seq<byte>, candidateNamespace: seq<byte>,
                                           expression: seq<byte>, owner: FactoredForm, reason: seq<byte>, relation: LabelForm,
                                           source: ReferenceForm, span: SpanForm)

  ghost predicate UnresolvedForms(f: UnresolvedForm, strings: seq<Text>, external: seq<Identity>, nodeKeys: seq<NodeKey>,
                                  objectOwner: Text, u: UnresolvedRecord)
  {
    && BlockForms(f.attributes, 33_554_432, Plain(u.attributes)) && Proper(u.attributes)
    && Points(f.candidateName, strings, Plain(u.candidateName)) && Proper(u.candidateName)
    && Points(f.candidateNamespace, strings, Plain(u.candidateNamespace)) && Proper(u.candidateNamespace)
    && Points(f.expression, strings, u.expression)
    && FactoredForms(f.owner, strings, objectOwner, Plain(u.owner)) && Proper(u.owner)
    && Points(f.reason, strings, u.reason)
    && LabelForms(f.relation, strings, RelationName, u.relation)
    && ReferenceForms(f.source, nodeKeys, external, u.source)
    && SpanForms(f.span, strings, u.span)
  }

  function UnresolvedBytes(f: UnresolvedForm): seq<byte> {
    BlockBytes(f.attributes) + (f.candidateName + (f.candidateNamespace + (f.expression + (FactoredBytes(f.owner) + (f.reason +
    (LabelBytes(f.relation) + (ReferenceBytes(f.source) + SpanBytes(f.span))))))))
  }

  // ----- sections and objects -----

  function Joined(pieces: seq<seq<byte>>): seq<byte> {
    if pieces == [] then [] else pieces[0] + Joined(pieces[1..])
  }

  ghost predicate WritesNode(s: seq<byte>, c: Codec, strings: seq<Text>, objectOwner: Text, n: NodeRecord) {
    exists f :: NodeForms(f, c, strings, objectOwner, n) && s == NodeBytes(f)
  }

  ghost predicate WritesEdge(s: seq<byte>, strings: seq<Text>, external: seq<Identity>, nodeKeys: seq<NodeKey>, objectOwner: Text,
                             e: EdgeRecord)
  {
    exists f :: EdgeForms(f, strings, external, nodeKeys, objectOwner, e) && s == EdgeBytes(f)
  }

  ghost predicate WritesUnresolved(s: seq<byte>, strings: seq<Text>, external: seq<Identity>, nodeKeys: seq<NodeKey>,
                                   objectOwner: Text, u: UnresolvedRecord)
  {
    exists f :: UnresolvedForms(f, strings, external, nodeKeys, objectOwner, u) && s == UnresolvedBytes(f)
  }

  ghost predicate WritesIdentity(s: seq<byte>, c: Codec, strings: seq<Text>, id: Identity) {
    exists f :: IdentityForms(f, c, strings, id) && s == IdentityBytes(f)
  }

  /** A list: its length, and a piece for each member. */
  datatype ListForm = ListForm(count: seq<byte>, pieces: seq<seq<byte>>)

  ghost predicate Listed(f: ListForm, maximum: nat, length: nat) {
    Number(f.count, length) && |f.pieces| == length <= maximum
  }

  function ListBytes(f: ListForm): seq<byte> {
    f.count + Joined(f.pieces)
  }

  /** Every piece writes its member. */
  ghost predicate WritesAll<T>(pieces: seq<seq<byte>>, values: seq<T>, writes: (seq<byte>, T) -> bool) {
    |pieces| == |values| && forall i :: 0 <= i < |values| ==> writes(pieces[i], values[i])
  }

  ghost predicate WritesList<T>(s: seq<byte>, maximum: nat, values: seq<T>, writes: (seq<byte>, T) -> bool) {
    exists f :: Listed(f, maximum, |values|) && WritesAll(f.pieces, values, writes) && s == ListBytes(f)
  }

  ghost predicate WritesNodes(s: seq<byte>, c: Codec, strings: seq<Text>, objectOwner: Text, nodes: seq<NodeRecord>) {
    WritesList(s, 20_000_000, nodes, (p: seq<byte>, n: NodeRecord) => WritesNode(p, c, strings, objectOwner, n))
  }

  ghost predicate WritesEdges(s: seq<byte>, strings: seq<Text>, external: seq<Identity>, nodeKeys: seq<NodeKey>, objectOwner: Text,
                              edges: seq<EdgeRecord>)
  {
    WritesList(s, 20_000_000, edges, (p: seq<byte>, e: EdgeRecord) => WritesEdge(p, strings, external, nodeKeys, objectOwner, e))
  }

  ghost predicate WritesReferences(s: seq<byte>, strings: seq<Text>, external: seq<Identity>, nodeKeys: seq<NodeKey>, objectOwner: Text,
                                   unresolved: seq<UnresolvedRecord>)
  {
    WritesList(s, 20_000_000, unresolved,
               (p: seq<byte>, u: UnresolvedRecord) => WritesUnresolved(p, strings, external, nodeKeys, objectOwner, u))
  }

  ghost predicate WritesIdentities(s: seq<byte>, c: Codec, strings: seq<Text>, identities: seq<Identity>) {
    WritesList(s, 4_000_000, identities, (p: seq<byte>, id: Identity) => WritesIdentity(p, c, strings, id))
  }

  /** A front-coded table whose first string is empty. */
  ghost predicate WritesStrings(s: seq<byte>, c: Codec, strings: seq<Text>) {
    && 0 < |strings| <= 4_000_000 && strings[0] == [] && (forall t :: t in strings ==> |t| <= 33_554_432 && c.utf8(t))
    && exists count, forms :: WritesTable(s, strings, count, forms)
  }

  datatype ObjectForm = ObjectForm(version: seq<byte>, schemaVersion: seq<byte>, table: seq<byte>, language: seq<byte>,
                                   owner: seq<byte>, contentId: IdentityForm, adapterVersion: seq<byte>, config: IdentityForm,
                                   external: seq<byte>, nodes: BlockForm, edges: BlockForm, unresolved: BlockForm)

  /** What an object holds beside its header: its tables and its records by kind. */
  datatype Holding = Holding(strings: seq<Text>, external: seq<Identity>, nodes: seq<NodeRecord>, edges: seq<EdgeRecord>,
                             unresolved: seq<UnresolvedRecord>)

  function NodeKeys(c: Codec, nodes: seq<NodeRecord>): seq<NodeKey> {
    seq<NodeKey>(|nodes|, i requires 0 <= i < |nodes| => c.nodeKey(nodes[i].id))
  }

  /** Nodes, then edges, then unresolved references. */
  ghost predicate InOrder(h: Holding, records: seq<FactRecord>) {
    var n, m := |h.nodes|, |h.edges|;
    && |records| == n + m + |h.unresolved|
    && (forall i :: 0 <= i < n ==> records[i] == Node(h.nodes[i]))
    && (forall i :: 0 <= i < m ==> records[n + i] == Edge(h.edges[i]))
    && (forall i :: 0 <= i < |h.unresolved| ==> records[n + m + i] == Unresolved(h.unresolved[i]))
  }

  ghost predicate HeaderForms(f: ObjectForm, c: Codec, strings: seq<Text>, o: FactObject) {
    && Number(f.version, o.version) && Number(f.schemaVersion, o.schemaVersion) && WritesStrings(f.table, c, strings)
    && Points(f.language, strings, o.language)
    && Points(f.owner, strings, Plain(o.owner)) && Proper(o.owner)
    && OptionalIdentityForms(f.contentId, c, strings, o.sourceContentId)
    && Points(f.adapterVersion, strings, o.adapterVersion)
    && IdentityForms(f.config, c, strings, o.analysisConfigId)
  }

  /** The external references, and the three sections behind their lengths. */
  ghost predicate SectionsForms(f: ObjectForm, c: Codec, h: Holding, objectOwner: Text) {
    var keys := NodeKeys(c, h.nodes);
    && WritesIdentities(f.external, c, h.strings, h.external)
    && BlockForms(f.nodes, 536_870_912, f.nodes.bytes) && WritesNodes(f.nodes.bytes, c, h.strings, objectOwner, h.nodes)
    && BlockForms(f.edges, 536_870_912, f.edges.bytes)
    && WritesEdges(f.edges.bytes, h.strings, h.external, keys, objectOwner, h.edges)
    && BlockForms(f.unresolved, 536_870_912, f.unresolved.bytes)
    && WritesReferences(f.unresolved.bytes, h.strings, h.external, keys, objectOwner, h.unresolved)
  }

  ghost predicate ObjectForms(f: ObjectForm, c: Codec, h: Holding, o: FactObject) {
    HeaderForms(f, c, h.strings, o) && SectionsForms(f, c, h, Plain(o.owner)) && InOrder(h, o.records)
  }

  function HeaderBytes(f: ObjectForm): seq<byte> {
    [76, 88, 79, 66, 74, 0, 2, 0] + (f.version + (f.schemaVersion + (f.table + (f.language + (f.owner +
    (IdentityBytes(f.contentId) + (f.adapterVersion + IdentityBytes(f.config))))))))
  }

  function ObjectBytes(f: ObjectForm): seq<byte> {
    HeaderBytes(f) + (f.external + (BlockBytes(f.nodes) + (BlockBytes(f.edges) + BlockBytes(f.unresolved))))
  }

  /** The bytes of an object. */
  ghost predicate WritesObject(b: seq<byte>, c: Codec, o: FactObject) {
    exists f, h :: ObjectForms(f, c, h, o) && b == ObjectBytes(f)
  }
}
