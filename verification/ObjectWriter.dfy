/**
 lexicon/src/storage/binary/v2_write.rs, write.rs and v2_table.rs: the writer of binary v2 objects, and what the decoder
 makes of the bytes it writes.

 Identities are digests, so that all of them are written raw. The order of the strings in the table does not matter here;
 the table is given, and holds the texts the records need.
 */
module ObjectWriter {
  import opened Wrappers
  import opened Lexicon
  import opened Reader
  import opened BinaryObject
  import opened FrontCoding
  import opened ObjectLayout
  import opened ObjectBinary

  // ----- choosing forms -----

  /** The last place of a value, as a map that is filled in order keeps it. */
  function PlaceOf<T(==)>(table: seq<T>, value: T): nat {
    if table == [] then 0
    else if table[|table| - 1] == value then |table| - 1
    else PlaceOf(table[..|table| - 1], value)
  }

  lemma {:induction false} PlaceExact<T>(table: seq<T>, value: T)
    requires value in table
    ensures PlaceOf(table, value) < |table| && table[PlaceOf(table, value)] == value
  {
    if table[|table| - 1] != value {
      assert table == table[..|table| - 1] + [table[|table| - 1]];
      PlaceExact(table[..|table| - 1], value);
    }
  }

  /** The first of the codes up to `last` that names the word, or 0. */
  function CodeOf(name: nat -> Option<Text>, word: Text, last: nat): nat {
    if last == 0 then 0
    else
      var earlier := CodeOf(name, word, last - 1);
      if earlier != 0 then earlier else if name(last) == Some(word) then last else 0
  }

  lemma {:induction false} CodeExact(name: nat -> Option<Text>, word: Text, last: nat)
    ensures var code := CodeOf(name, word, last);
      code <= last && (code != 0 ==> name(code) == Some(word))
  {
    if last > 0 { CodeExact(name, word, last - 1); }
  }

  function Ref(strings: seq<Text>, text: Text): seq<byte> {
    Encode(PlaceOf(strings, text))
  }

  function BlockOf(bytes: seq<byte>): BlockForm {
    BlockForm(Encode(|bytes|), bytes)
  }

  function IdentityOf(strings: seq<Text>, id: Option<Identity>): IdentityForm {
    match id case None => Textual(Ref(strings, [])) case Some(digest) => Raw(digest)
  }

  function LabelOf(strings: seq<Text>, name: nat -> Option<Text>, last: nat, word: Text): LabelForm {
    var code := CodeOf(name, word, last);
    if code != 0 then Coded(Encode(code)) else Spelled(Encode(0), Ref(strings, word))
  }

  function FactoredOf(strings: seq<Text>, objectOwner: Text, value: Text): FactoredForm {
    if value == [] then Nothing(Encode(0))
    else if value == objectOwner then TheOwner(Encode(1))
    else Literal(Encode(2), Ref(strings, value))
  }

  function QualifiedOf(strings: seq<Text>, name: Text, path: Text, objectOwner: Text, value: Text): QualifiedForm {
    if value == name then AsName(Encode(1))
    else if value == path then AsPath(Encode(2))
    else if value == objectOwner then AsOwner(Encode(3))
    else OwnText(Encode(0), Ref(strings, value))
  }

  function SpanFormOf(strings: seq<Text>, span: Option<SpanRecord>): SpanForm {
    match span
    case None => NoSpan
    case Some(p) => SpanForm(Ref(strings, p.path), Encode(p.startLine), Encode(p.startColumn), Encode(p.endLine), Encode(p.endColumn))
  }

  /** A node of the object by its ordinal, any other by its place among the external references. */
  function ReferenceOf(local: seq<Identity>, external: seq<Identity>, id: Identity): ReferenceForm {
    if id in local then Local(Encode(PlaceOf(local, id) + 1)) else External(Encode(PlaceOf(external, id) + 1))
  }

  // ----- records -----

  /** A reference as the writer is given it. */
  function Named(r: NodeReference): Identity {
    match r case ByIdentity(id) => id case ByKey(_) => seq(32, _ => 0)
  }

  function NodeFormOf(strings: seq<Text>, o: Text, n: NodeRecord): NodeForm {
    NodeForm(BlockOf(Plain(n.attributes)), IdentityOf(strings, n.contentId), Raw(n.id), LabelOf(strings, NodeKindName, 22, n.kind),
             Ref(strings, n.name), FactoredOf(strings, o, Plain(n.owner)), FactoredOf(strings, o, n.path),
             QualifiedOf(strings, n.name, n.path, o, n.qualifiedName), SpanFormOf(strings, n.span))
  }

  function EdgeFormOf(strings: seq<Text>, local: seq<Identity>, external: seq<Identity>, o: Text, e: EdgeRecord): EdgeForm {
    EdgeForm(BlockOf(Plain(e.attributes)), FactoredOf(strings, o, Plain(e.owner)), LabelOf(strings, RelationName, 25, e.relation),
             ReferenceOf(local, external, Named(e.source)), SpanFormOf(strings, e.span), ReferenceOf(local, external, Named(e.target)))
  }

  function UnresolvedFormOf(strings: seq<Text>, local: seq<Identity>, external: seq<Identity>, o: Text, u: UnresolvedRecord)
    : UnresolvedForm
  {
    UnresolvedForm(BlockOf(Plain(u.attributes)), Ref(strings, Plain(u.candidateName)), Ref(strings, Plain(u.candidateNamespace)),
                   Ref(strings, u.expression), FactoredOf(strings, o, Plain(u.owner)), Ref(strings, u.reason),
                   LabelOf(strings, RelationName, 25, u.relation), ReferenceOf(local, external, Named(u.source)),
                   SpanFormOf(strings, u.span))
  }

  // ----- what is needed of the table -----

  predicate Factorable(strings: seq<Text>, o: Text, value: Text) {
    value == [] || value == o || value in strings
  }

  predicate Labelled(strings: seq<Text>, name: nat -> Option<Text>, last: nat, word: Text) {
    CodeOf(name, word, last) != 0 || word in strings
  }

  predicate SpanHeld(strings: seq<Text>, span: Option<SpanRecord>) {
    span.Some? ==> span.value.path in strings
  }

  predicate NodeHeld(strings: seq<Text>, o: Text, n: NodeRecord) {
    && [] in strings && |Plain(n.attributes)| <= 33_554_432
    && Labelled(strings, NodeKindName, 22, n.kind) && n.name in strings
    && Factorable(strings, o, Plain(n.owner)) && Factorable(strings, o, n.path)
    && (n.qualifiedName in [n.name, n.path, o] || n.qualifiedName in strings)
    && SpanHeld(strings, n.span)
  }

  predicate ReferenceHeld(local: seq<Identity>, external: seq<Identity>, r: NodeReference) {
    r.ByIdentity? && (r.identity in local || r.identity in external)
  }

  predicate EdgeHeld(strings: seq<Text>, local: seq<Identity>, external: seq<Identity>, o: Text, e: EdgeRecord) {
    && |Plain(e.attributes)| <= 33_554_432
    && Factorable(strings, o, Plain(e.owner)) && Labelled(strings, RelationName, 25, e.relation)
    && ReferenceHeld(local, external, e.source) && ReferenceHeld(local, external, e.target) && SpanHeld(strings, e.span)
  }

  predicate UnresolvedHeld(strings: seq<Text>, local: seq<Identity>, external: seq<Identity>, o: Text, u: UnresolvedRecord) {
    && |Plain(u.attributes)| <= 33_554_432
    && Plain(u.candidateName) in strings && Plain(u.candidateNamespace) in strings && u.expression in strings && u.reason in strings
    && Factorable(strings, o, Plain(u.owner)) && Labelled(strings, RelationName, 25, u.relation)
    && ReferenceHeld(local, external, u.source) && SpanHeld(strings, u.span)
  }

  // ----- what is read back -----

  /** A node of the object is read back as its key. */
  function ReadReference(c: Codec, local: seq<Identity>, r: NodeReference): NodeReference {
    if Named(r) in local then ByKey(c.nodeKey(Named(r))) else r
  }

  /** A text or block that is present and empty is read back as missing. */
  function ReadNode(n: NodeRecord): NodeRecord {
    n.(attributes := Optional(Plain(n.attributes)), owner := Optional(Plain(n.owner)))
  }

  function ReadEdge(c: Codec, local: seq<Identity>, e: EdgeRecord): EdgeRecord {
    e.(attributes := Optional(Plain(e.attributes)), owner := Optional(Plain(e.owner)),
       source := ReadReference(c, local, e.source), target := ReadReference(c, local, e.target))
  }

  function ReadUnresolved(c: Codec, local: seq<Identity>, u: UnresolvedRecord): UnresolvedRecord {
    u.(attributes := Optional(Plain(u.attributes)), candidateName := Optional(Plain(u.candidateName)),
       candidateNamespace := Optional(Plain(u.candidateNamespace)), owner := Optional(Plain(u.owner)),
       source := ReadReference(c, local, u.source))
  }

  // ----- the forms are forms -----

  /** Tables are far smaller than what a number can count. */
  predicate Countable(n: nat) { n < 0x8000_0000_0000_0000 }

  lemma RefPoints(strings: seq<Text>, text: Text)
    requires text in strings && Countable(|strings|)
    ensures Points(Ref(strings, text), strings, text)
  {
    hide Encode, Number;
    PlaceExact(strings, text);
    EncodeNumber(PlaceOf(strings, text));
    NumberValue(Encode(PlaceOf(strings, text)), PlaceOf(strings, text));
  }

  lemma NumberValue(s: seq<byte>, v: nat)
    requires Number(s, v)
    ensures LebValue(s) == v
  {
  }

  lemma Encoded(n: nat)
    requires Countable(n)
    ensures Number(Encode(n), n)
  {
    EncodeNumber(n);
  }

  lemma BlockFormed(bytes: seq<byte>, maximum: nat)
    requires |bytes| <= maximum && Countable(maximum)
    ensures BlockForms(BlockOf(bytes), maximum, bytes)
  {
    hide Encode, Number;
    Encoded(|bytes|);
  }

  lemma IdentityFormed(c: Codec, strings: seq<Text>, id: Option<Identity>)
    requires [] in strings && Countable(|strings|)
    ensures OptionalIdentityForms(IdentityOf(strings, id), c, strings, id)
  {
    hide Encode, Number, LebValue;
    if id.None? { RefPoints(strings, []); }
  }

  lemma LabelFormed(strings: seq<Text>, name: nat -> Option<Text>, last: nat, word: Text)
    requires Labelled(strings, name, last, word) && Countable(|strings|) && Countable(last)
    ensures LabelForms(LabelOf(strings, name, last, word), strings, name, word)
  {
    hide Encode, Number, LebValue, Points;
    CodeExact(name, word, last);
    var code := CodeOf(name, word, last);
    Encoded(code);
    if code != 0 {
      NumberValue(Encode(code), code);
    } else {
      RefPoints(strings, word);
    }
  }

  lemma FactoredFormed(strings: seq<Text>, o: Text, value: Text)
    requires Factorable(strings, o, value) && Countable(|strings|)
    ensures FactoredForms(FactoredOf(strings, o, value), strings, o, value)
  {
    hide Encode, Number, Points;
    Encoded(0);
    Encoded(1);
    Encoded(2);
    if value in strings { RefPoints(strings, value); }
  }

  lemma QualifiedFormed(strings: seq<Text>, name: Text, path: Text, o: Text, value: Text)
    requires (value in [name, path, o] || value in strings) && Countable(|strings|)
    ensures QualifiedForms(QualifiedOf(strings, name, path, o, value), strings, name, path, o, value)
  {
    hide Encode, Number, Points;
    Encoded(0);
    Encoded(1);
    Encoded(2);
    Encoded(3);
    if value in strings { RefPoints(strings, value); }
  }

  lemma SpanFormed(strings: seq<Text>, span: Option<SpanRecord>)
    requires SpanHeld(strings, span) && Countable(|strings|)
    ensures SpanForms(SpanFormOf(strings, span), strings, span)
  {
    hide Encode, Number, Points;
    if span.Some? {
      RefPoints(strings, span.value.path);
      EncodeNumber(span.value.startLine);
      EncodeNumber(span.value.startColumn);
      EncodeNumber(span.value.endLine);
      EncodeNumber(span.value.endColumn);
    }
  }

  lemma ReferenceFormed(c: Codec, local: seq<Identity>, external: seq<Identity>, keys: seq<NodeKey>, r: NodeReference)
    requires ReferenceHeld(local, external, r) && Countable(|local|) && Countable(|external|)
    requires |keys| == |local| && forall i :: 0 <= i < |local| ==> keys[i] == c.nodeKey(local[i])
    ensures ReferenceForms(ReferenceOf(local, external, Named(r)), keys, external, ReadReference(c, local, r))
  {
    hide Encode, Number, LebValue;
    var id := Named(r);
    if id in local {
      PlaceExact(local, id);
      EncodeNumber(PlaceOf(local, id) + 1);
      NumberValue(Encode(PlaceOf(local, id) + 1), PlaceOf(local, id) + 1);
    } else {
      PlaceExact(external, id);
      EncodeNumber(PlaceOf(external, id) + 1);
      NumberValue(Encode(PlaceOf(external, id) + 1), PlaceOf(external, id) + 1);
    }
  }

  lemma NodeFormed(c: Codec, strings: seq<Text>, o: Text, n: NodeRecord)
    requires NodeHeld(strings, o, n) && Countable(|strings|)
    ensures NodeForms(NodeFormOf(strings, o, n), c, strings, o, ReadNode(n))
  {
    hide BlockForms, OptionalIdentityForms, LabelForms, FactoredForms, QualifiedForms, SpanForms, Points, Optional, Plain, Proper;
    hide BlockOf, IdentityOf, LabelOf, FactoredOf, QualifiedOf, SpanFormOf, Ref, NodeKindName, Labelled, Factorable, SpanHeld;
    OptionalProper(Plain(n.attributes));
    OptionalProper(Plain(n.owner));
    BlockFormed(Plain(n.attributes), 33_554_432);
    IdentityFormed(c, strings, n.contentId);
    LabelFormed(strings, NodeKindName, 22, n.kind);
    RefPoints(strings, n.name);
    FactoredFormed(strings, o, Plain(n.owner));
    FactoredFormed(strings, o, n.path);
    QualifiedFormed(strings, n.name, n.path, o, n.qualifiedName);
    SpanFormed(strings, n.span);
  }

  lemma EdgeFormed(c: Codec, strings: seq<Text>, local: seq<Identity>, external: seq<Identity>, keys: seq<NodeKey>, o: Text, e: EdgeRecord)
    requires EdgeHeld(strings, local, external, o, e) && Countable(|strings|) && Countable(|local|) && Countable(|external|)
    requires |keys| == |local| && forall i :: 0 <= i < |local| ==> keys[i] == c.nodeKey(local[i])
    ensures EdgeForms(EdgeFormOf(strings, local, external, o, e), strings, external, keys, o, ReadEdge(c, local, e))
  {
    hide BlockForms, LabelForms, FactoredForms, SpanForms, ReferenceForms, Optional, Plain, Proper, ReadReference, Named, ReferenceHeld;
    hide BlockOf, LabelOf, FactoredOf, SpanFormOf, ReferenceOf, RelationName, Labelled, Factorable, SpanHeld;
    OptionalProper(Plain(e.attributes));
    OptionalProper(Plain(e.owner));
    BlockFormed(Plain(e.attributes), 33_554_432);
    FactoredFormed(strings, o, Plain(e.owner));
    LabelFormed(strings, RelationName, 25, e.relation);
    ReferenceFormed(c, local, external, keys, e.source);
    SpanFormed(strings, e.span);
    ReferenceFormed(c, local, external, keys, e.target);
  }

  lemma UnresolvedFormed(c: Codec, strings: seq<Text>, local: seq<Identity>, external: seq<Identity>, keys: seq<NodeKey>, o: Text,
                         u: UnresolvedRecord)
    requires UnresolvedHeld(strings, local, external, o, u) && Countable(|strings|) && Countable(|local|) && Countable(|external|)
    requires |keys| == |local| && forall i :: 0 <= i < |local| ==> keys[i] == c.nodeKey(local[i])
    ensures UnresolvedForms(UnresolvedFormOf(strings, local, external, o, u), strings, external, keys, o, ReadUnresolved(c, local, u))
  {
    hide BlockForms, LabelForms, FactoredForms, SpanForms, ReferenceForms, Points, Optional, Plain, Proper, ReadReference, Named;
    hide BlockOf, LabelOf, FactoredOf, SpanFormOf, ReferenceOf, Ref, RelationName, Labelled, Factorable, SpanHeld, ReferenceHeld;
    OptionalProper(Plain(u.attributes));
    OptionalProper(Plain(u.candidateName));
    OptionalProper(Plain(u.candidateNamespace));
    OptionalProper(Plain(u.owner));
    BlockFormed(Plain(u.attributes), 33_554_432);
    RefPoints(strings, Plain(u.candidateName));
    RefPoints(strings, Plain(u.candidateNamespace));
    RefPoints(strings, u.expression);
    FactoredFormed(strings, o, Plain(u.owner));
    RefPoints(strings, u.reason);
    LabelFormed(strings, RelationName, 25, u.relation);
    ReferenceFormed(c, local, external, keys, u.source);
    SpanFormed(strings, u.span);
  }

  // ----- the string table -----

  function CommonPrefix(a: Text, b: Text): nat {
    if a == [] || b == [] || a[0] != b[0] then 0 else 1 + CommonPrefix(a[1..], b[1..])
  }

  lemma {:induction false} CommonShared(a: Text, b: Text)
    ensures Shares(a, b, CommonPrefix(a, b))
  {
    if a != [] && b != [] && a[0] == b[0] {
      CommonShared(a[1..], b[1..]);
      var n := CommonPrefix(a[1..], b[1..]);
      assert a[..n + 1] == [a[0]] + a[1..][..n] && b[..n + 1] == [b[0]] + b[1..][..n];
    }
  }

  function FormFor(previous: Text, text: Text): (f: Form)
    ensures f.prefix <= |text|
  {
    CommonShared(previous, text);
    var prefix := CommonPrefix(previous, text);
    Form(prefix, Encode(prefix), Encode(|text| - prefix))
  }

  function WriteEntries(strings: seq<Text>, previous: Text): seq<byte> {
    if strings == [] then []
    else
      var f := FormFor(previous, strings[0]);
      f.head + (f.length + strings[0][f.prefix..]) + WriteEntries(strings[1..], strings[0])
  }

  function WriteStrings(strings: seq<Text>): seq<byte> {
    Encode(|strings|) + WriteEntries(strings, [])
  }

  lemma {:induction false} EntriesFormed(strings: seq<Text>, previous: Text) returns (forms: seq<Form>)
    requires Countable(|previous|) && forall t :: t in strings ==> Countable(|t|)
    ensures FrontCodes(strings, forms, previous) && EntriesBytes(strings, forms, previous) == WriteEntries(strings, previous)
    decreases |strings|
  {
    hide Encode, Number, CommonPrefix;
    if strings == [] {
      forms := [];
    } else {
      var text := strings[0];
      assert text in strings;
      CommonShared(previous, text);
      var f := FormFor(previous, text);
      Encoded(f.prefix);
      Encoded(|text| - f.prefix);
      var more := EntriesFormed(strings[1..], text);
      forms := [f] + more;
      assert forms[1..] == more;
    }
  }

  predicate Tabled(c: Codec, strings: seq<Text>) {
    0 < |strings| <= 4_000_000 && strings[0] == [] && forall t :: t in strings ==> |t| <= 33_554_432 && c.utf8(t)
  }

  lemma StringsWritten(c: Codec, strings: seq<Text>)
    requires Tabled(c, strings)
    ensures WritesStrings(WriteStrings(strings), c, strings)
  {
    hide Encode, Number, WriteEntries, FrontCodes;
    var forms := EntriesFormed(strings, []);
    Encoded(|strings|);
    assert WritesTable(WriteStrings(strings), strings, Encode(|strings|), forms);
  }

  // ----- sections -----

  function WriteList(pieces: seq<seq<byte>>): seq<byte> {
    Encode(|pieces|) + Joined(pieces)
  }

  lemma ListWritten<T>(pieces: seq<seq<byte>>, values: seq<T>, maximum: nat, writes: (seq<byte>, T) -> bool)
    requires WritesAll(pieces, values, writes) && |pieces| <= maximum && Countable(maximum)
    ensures WritesList(WriteList(pieces), maximum, values, writes)
  {
    hide Encode, Number, Joined, WritesAll;
    AllLength(pieces, values, writes);
    Encoded(|pieces|);
    var f := ListForm(Encode(|pieces|), pieces);
    assert Listed(f, maximum, |values|) && WriteList(pieces) == ListBytes(f);
  }

  /** What the writer is given, sorted by kind, and the tables it builds. */
  datatype Input = Input(o: FactObject, strings: seq<Text>, external: seq<Identity>, nodes: seq<NodeRecord>, edges: seq<EdgeRecord>,
                         unresolved: seq<UnresolvedRecord>)

  function LocalIds(nodes: seq<NodeRecord>): seq<Identity> {
    Map((n: NodeRecord) => n.id, nodes)
  }

  function NodePieces(x: Input): seq<seq<byte>> {
    Map((n: NodeRecord) => NodeBytes(NodeFormOf(x.strings, Plain(x.o.owner), n)), x.nodes)
  }

  function EdgePieces(x: Input): seq<seq<byte>> {
    Map((e: EdgeRecord) => EdgeBytes(EdgeFormOf(x.strings, LocalIds(x.nodes), x.external, Plain(x.o.owner), e)), x.edges)
  }

  function UnresolvedPieces(x: Input): seq<seq<byte>> {
    Map((u: UnresolvedRecord) => UnresolvedBytes(UnresolvedFormOf(x.strings, LocalIds(x.nodes), x.external, Plain(x.o.owner), u)),
        x.unresolved)
  }

  function IdentityPieces(x: Input): seq<seq<byte>> {
    Map((id: Identity) => IdentityBytes(Raw(id)), x.external)
  }

  /** The records fit the tables, and nothing exceeds a limit of the format. */
  ghost predicate Writable(c: Codec, x: Input) {
    var o, local := Plain(x.o.owner), LocalIds(x.nodes);
    && Tabled(c, x.strings) && x.o.language in x.strings && o in x.strings && x.o.adapterVersion in x.strings
    && (forall n :: n in x.nodes ==> NodeHeld(x.strings, o, n))
    && (forall e :: e in x.edges ==> EdgeHeld(x.strings, local, x.external, o, e))
    && (forall u :: u in x.unresolved ==> UnresolvedHeld(x.strings, local, x.external, o, u))
    && |x.external| <= 4_000_000 && |x.nodes| <= 20_000_000 && |x.edges| <= 20_000_000 && |x.unresolved| <= 20_000_000
    && |WriteList(NodePieces(x))| <= 536_870_912 && |WriteList(EdgePieces(x))| <= 536_870_912
    && |WriteList(UnresolvedPieces(x))| <= 536_870_912
  }

  function FormOf(x: Input): ObjectForm {
    ObjectForm(Encode(x.o.version), Encode(x.o.schemaVersion), WriteStrings(x.strings), Ref(x.strings, x.o.language),
               Ref(x.strings, Plain(x.o.owner)), IdentityOf(x.strings, x.o.sourceContentId), Ref(x.strings, x.o.adapterVersion),
               Raw(x.o.analysisConfigId), WriteList(IdentityPieces(x)), BlockOf(WriteList(NodePieces(x))),
               BlockOf(WriteList(EdgePieces(x))), BlockOf(WriteList(UnresolvedPieces(x))))
  }

  /** `encode_view`. */
  function WriteObject(x: Input): seq<byte> {
    ObjectBytes(FormOf(x))
  }

  function ReadHolding(c: Codec, x: Input): Holding {
    Holding(x.strings, x.external, Map((n: NodeRecord) => ReadNode(n), x.nodes),
            Map((e: EdgeRecord) => ReadEdge(c, LocalIds(x.nodes), e), x.edges),
            Map((u: UnresolvedRecord) => ReadUnresolved(c, LocalIds(x.nodes), u), x.unresolved))
  }

  /** The object that is read back. */
  function ReadBack(c: Codec, x: Input): FactObject {
    var h := ReadHolding(c, x);
    x.o.(owner := Optional(Plain(x.o.owner)), records := NodeRecords(h.nodes) + RelationRecords(h.edges, h.unresolved))
  }

  lemma TablesCount(c: Codec, x: Input)
    requires Writable(c, x)
    ensures Countable(|x.strings|) && Countable(|x.external|) && Countable(|x.nodes|) && [] in x.strings
    ensures |LocalIds(x.nodes)| == |x.nodes|
  {
    hide NodeHeld, EdgeHeld, UnresolvedHeld, WriteList, NodePieces, EdgePieces, UnresolvedPieces;
  }

  lemma KeysOfLocal(c: Codec, x: Input)
    ensures var keys := NodeKeys(c, ReadHolding(c, x).nodes);
      |keys| == |LocalIds(x.nodes)| && forall i :: 0 <= i < |keys| ==> keys[i] == c.nodeKey(LocalIds(x.nodes)[i])
  {
  }

  lemma HeaderWritten(c: Codec, x: Input)
    requires Writable(c, x)
    ensures HeaderForms(FormOf(x), c, x.strings, ReadBack(c, x))
  {
    hide NodeHeld, EdgeHeld, UnresolvedHeld, WriteList, NodePieces, EdgePieces, UnresolvedPieces, IdentityPieces, Encode, Number, Points;
    hide WriteStrings, WritesStrings, Ref, IdentityOf, OptionalIdentityForms, Optional, Plain, Proper, NodeRecords, RelationRecords, ReadHolding;
    TablesCount(c, x);
    EncodeNumber(x.o.version);
    EncodeNumber(x.o.schemaVersion);
    StringsWritten(c, x.strings);
    RefPoints(x.strings, x.o.language);
    RefPoints(x.strings, Plain(x.o.owner));
    RefPoints(x.strings, x.o.adapterVersion);
    IdentityFormed(c, x.strings, x.o.sourceContentId);
    OptionalProper(Plain(x.o.owner));
  }

  lemma NodesWritten(c: Codec, x: Input)
    requires Writable(c, x)
    ensures WritesNodes(WriteList(NodePieces(x)), c, x.strings, Plain(x.o.owner), ReadHolding(c, x).nodes)
  {
    var o, nodes := Plain(x.o.owner), ReadHolding(c, x).nodes;
    TablesCount(c, x);
    hide NodeHeld, NodeFormOf, NodeForms, NodeBytes, ReadNode, WriteList, WritesList, Plain, EdgePieces, UnresolvedPieces, EdgeHeld;
    hide UnresolvedHeld;
    forall i | 0 <= i < |nodes| ensures WritesNode(NodePieces(x)[i], c, x.strings, o, nodes[i]) {
      assert x.nodes[i] in x.nodes;
      NodeFormed(c, x.strings, o, x.nodes[i]);
    }
    ListWritten(NodePieces(x), nodes, 20_000_000, (p: seq<byte>, n: NodeRecord) => WritesNode(p, c, x.strings, o, n));
  }

  lemma EdgesWritten(c: Codec, x: Input)
    requires Writable(c, x)
    ensures var h := ReadHolding(c, x);
      WritesEdges(WriteList(EdgePieces(x)), x.strings, x.external, NodeKeys(c, h.nodes), Plain(x.o.owner), h.edges)
  {
    var o, edges, local, keys := Plain(x.o.owner), ReadHolding(c, x).edges, LocalIds(x.nodes), NodeKeys(c, ReadHolding(c, x).nodes);
    TablesCount(c, x);
    KeysOfLocal(c, x);
    hide EdgeHeld, EdgeFormOf, EdgeForms, EdgeBytes, ReadEdge, WriteList, WritesList, Plain, NodePieces, UnresolvedPieces, NodeHeld;
    hide UnresolvedHeld, LocalIds, NodeKeys;
    forall i | 0 <= i < |edges| ensures WritesEdge(EdgePieces(x)[i], x.strings, x.external, keys, o, edges[i]) {
      assert x.edges[i] in x.edges;
      EdgeFormed(c, x.strings, local, x.external, keys, o, x.edges[i]);
    }
    ListWritten(EdgePieces(x), edges, 20_000_000, (p: seq<byte>, e: EdgeRecord) => WritesEdge(p, x.strings, x.external, keys, o, e));
  }

  lemma ReferencesWritten(c: Codec, x: Input)
    requires Writable(c, x)
    ensures var h := ReadHolding(c, x);
      WritesReferences(WriteList(UnresolvedPieces(x)), x.strings, x.external, NodeKeys(c, h.nodes), Plain(x.o.owner), h.unresolved)
  {
    var o, unresolved, local, keys := Plain(x.o.owner), ReadHolding(c, x).unresolved, LocalIds(x.nodes), NodeKeys(c, ReadHolding(c, x).nodes);
    TablesCount(c, x);
    KeysOfLocal(c, x);
    hide UnresolvedHeld, UnresolvedFormOf, UnresolvedForms, UnresolvedBytes, ReadUnresolved, WriteList, WritesList, Plain, NodePieces;
    hide EdgePieces, NodeHeld, EdgeHeld, LocalIds, NodeKeys;
    forall i | 0 <= i < |unresolved| ensures WritesUnresolved(UnresolvedPieces(x)[i], x.strings, x.external, keys, o, unresolved[i]) {
      assert x.unresolved[i] in x.unresolved;
      UnresolvedFormed(c, x.strings, local, x.external, keys, o, x.unresolved[i]);
    }
    ListWritten(UnresolvedPieces(x), unresolved, 20_000_000,
                (p: seq<byte>, u: UnresolvedRecord) => WritesUnresolved(p, x.strings, x.external, keys, o, u));
  }

  lemma ExternalWritten(c: Codec, x: Input)
    requires |x.external| <= 4_000_000
    ensures WritesIdentities(WriteList(IdentityPieces(x)), c, x.strings, x.external)
  {
    hide WriteList, WritesList;
    forall i | 0 <= i < |x.external| ensures WritesIdentity(IdentityPieces(x)[i], c, x.strings, x.external[i]) {
      assert IdentityForms(Raw(x.external[i]), c, x.strings, x.external[i]);
    }
    ListWritten(IdentityPieces(x), x.external, 4_000_000, (p: seq<byte>, id: Identity) => WritesIdentity(p, c, x.strings, id));
  }

  /**
   Whatever is written is read back: the same metadata and the same records, nodes before edges before unresolved
   references, but that a reference to a node of the object is its key and that nothing optional is present and empty.
   */
  lemma WriterReadBack(c: Codec, x: Input)
    requires Writable(c, x)
    ensures ParseObject(c, WriteObject(x), All) ==
            Ok((ReadBack(c, x), RecordCounts(|x.nodes|, |x.edges|, |x.unresolved|)), |WriteObject(x)|)
  {
    var h, o := ReadHolding(c, x), ReadBack(c, x);
    HeaderWritten(c, x);
    NodesWritten(c, x);
    EdgesWritten(c, x);
    ReferencesWritten(c, x);
    ExternalWritten(c, x);
    BlockFormed(WriteList(NodePieces(x)), 536_870_912);
    BlockFormed(WriteList(EdgePieces(x)), 536_870_912);
    BlockFormed(WriteList(UnresolvedPieces(x)), 536_870_912);
    RecordsAre(h, o.records);
    hide HeaderForms, WritesNodes, WritesEdges, WritesReferences, WritesIdentities, BlockForms, InOrder, Optional, ObjectBytes, NodeKeys;
    hide NodePieces, EdgePieces, UnresolvedPieces, IdentityPieces, WriteList, WriteStrings, Ref, IdentityOf, ParseObject;
    OptionalProper(Plain(x.o.owner));
    ObjectDecodes(c, WriteObject(x), FormOf(x), h, o);
  }
}
