/**
 arcana/src/lexicon/binary_v2.rs against lexicon/spec/objects-v2.md: the decoder of `BinaryObject` accepts exactly the
 bytes that `ObjectLayout` says an object consists of, and yields exactly what they say.
 */
module ObjectBinary {
  import opened Wrappers
  import opened Lexicon
  import opened Reader
  import opened BinaryObject
  import opened FrontCoding
  import opened ObjectLayout

  // ----- vocabulary -----

  lemma KindNames(code: nat)
    ensures NodeKindName(code) == if 0 < code <= |COMMON_NODE_KINDS| then Some(COMMON_NODE_KINDS[code - 1]) else None
  {
  }

  lemma RelationNames(code: nat)
    ensures RelationName(code) == if 0 < code <= |COMMON_RELATIONS| then Some(COMMON_RELATIONS[code - 1]) else None
  {
  }

  // ----- slices -----

  lemma Join(b: seq<byte>, pos: nat, mid: nat, end: nat)
    requires pos <= mid <= end <= |b|
    ensures b[pos..end] == b[pos..mid] + b[mid..end]
  {
  }

  lemma TagStarts(b: seq<byte>, pos: nat, tag: byte, rest: seq<byte>)
    requires Starts(b, pos, [tag] + rest)
    ensures ByteAt(b, pos) == Ok(tag, pos + 1) && Starts(b, pos + 1, rest)
  {
    StartsSplit(b, pos, [tag], rest);
    assert b[pos] == b[pos..pos + 1][0];
  }

  lemma TagRead(b: seq<byte>, pos: nat, end: nat)
    requires pos + 1 <= end <= |b|
    ensures b[pos..end] == [b[pos]] + b[pos + 1..end]
  {
  }

  // ----- fields -----

  lemma PointsDecodes(b: seq<byte>, pos: nat, s: seq<byte>, strings: seq<Text>, value: Text)
    requires Points(s, strings, value) && Starts(b, pos, s)
    ensures StringRefAt(b, pos, strings) == Ok(value, pos + |s|)
  {
    hide VarintAt, Leb128, LebValue, Starts;
    NumberDecodes(b, pos, s, LebValue(s));
  }

  lemma PointsRead(b: seq<byte>, pos: nat, strings: seq<Text>)
    requires StringRefAt(b, pos, strings).Ok?
    ensures var r := StringRefAt(b, pos, strings);
      pos < r.next <= |b| && Points(b[pos..r.next], strings, r.value)
  {
    hide VarintAt, Leb128, LebValue;
    NumberRead(b, pos);
  }

  lemma BlockDecodes(b: seq<byte>, pos: nat, f: BlockForm, maximum: nat)
    requires BlockForms(f, maximum, f.bytes) && Starts(b, pos, BlockBytes(f))
    ensures BytesAt(b, pos, maximum) == Ok(f.bytes, pos + |BlockBytes(f)|)
  {
    hide VarintAt, Number;
    StartsSplit(b, pos, f.size, f.bytes);
    NumberDecodes(b, pos, f.size, |f.bytes|);
    assert TakeAt(b, pos + |f.size|, |f.bytes|) == Ok(f.bytes, pos + |f.size| + |f.bytes|);
  }

  lemma BlockRead(b: seq<byte>, pos: nat, maximum: nat) returns (f: BlockForm)
    requires BytesAt(b, pos, maximum).Ok?
    ensures var r := BytesAt(b, pos, maximum);
      BlockForms(f, maximum, r.value) && pos < r.next <= |b| && b[pos..r.next] == BlockBytes(f)
  {
    hide VarintAt, Number;
    NumberRead(b, pos);
    var size, r := VarintAt(b, pos), BytesAt(b, pos, maximum);
    f := BlockForm(b[pos..size.next], b[size.next..r.next]);
    Join(b, pos, size.next, r.next);
  }

  lemma IdentityDecodes(c: Codec, b: seq<byte>, pos: nat, f: IdentityForm, strings: seq<Text>, id: Identity)
    requires IdentityForms(f, c, strings, id) && Starts(b, pos, IdentityBytes(f))
    ensures IdentityAt(c, b, pos, strings) == Ok(id, pos + |IdentityBytes(f)|)
  {
    hide StringRefAt, Starts, Number, LebValue;
    match f
    case Textual(text) =>
      TagStarts(b, pos, 0, text);
      PointsDecodes(b, pos + 1, text, strings, strings[LebValue(text)]);
    case Raw(digest) =>
      TagStarts(b, pos, 1, digest);
      DigestDecodes(b, pos + 1, digest);
  }

  lemma DigestDecodes(b: seq<byte>, pos: nat, digest: Identity)
    requires Starts(b, pos, digest)
    ensures DigestAt(b, pos) == Ok(digest, pos + 32)
  {
  }

  lemma IdentityRead(c: Codec, b: seq<byte>, pos: nat, strings: seq<Text>) returns (f: IdentityForm)
    requires IdentityAt(c, b, pos, strings).Ok?
    ensures var r := IdentityAt(c, b, pos, strings);
      IdentityForms(f, c, strings, r.value) && pos < r.next <= |b| && b[pos..r.next] == IdentityBytes(f)
  {
    hide StringRefAt, Number, LebValue;
    var r := IdentityAt(c, b, pos, strings);
    if b[pos] == 0 {
      PointsRead(b, pos + 1, strings);
      f := Textual(b[pos + 1..r.next]);
    } else {
      f := Raw(r.value);
    }
    TagRead(b, pos, r.next);
  }

  lemma OptionalIdentityDecodes(c: Codec, b: seq<byte>, pos: nat, f: IdentityForm, strings: seq<Text>, id: Option<Identity>)
    requires OptionalIdentityForms(f, c, strings, id) && Starts(b, pos, IdentityBytes(f))
    ensures OptionalIdentityAt(c, b, pos, strings) == Ok(id, pos + |IdentityBytes(f)|)
  {
    hide StringRefAt, Starts, Number, LebValue;
    match f
    case Textual(text) =>
      TagStarts(b, pos, 0, text);
      PointsDecodes(b, pos + 1, text, strings, strings[LebValue(text)]);
    case Raw(digest) =>
      TagStarts(b, pos, 1, digest);
      DigestDecodes(b, pos + 1, digest);
  }

  lemma OptionalIdentityRead(c: Codec, b: seq<byte>, pos: nat, strings: seq<Text>) returns (f: IdentityForm)
    requires OptionalIdentityAt(c, b, pos, strings).Ok?
    ensures var r := OptionalIdentityAt(c, b, pos, strings);
      OptionalIdentityForms(f, c, strings, r.value) && pos < r.next <= |b| && b[pos..r.next] == IdentityBytes(f)
  {
    hide StringRefAt, Number, LebValue;
    var r := OptionalIdentityAt(c, b, pos, strings);
    if b[pos] == 0 {
      PointsRead(b, pos + 1, strings);
      f := Textual(b[pos + 1..r.next]);
    } else {
      f := Raw(r.value.value);
    }
    TagRead(b, pos, r.next);
  }

  /** The table the decoder is given holds the names of the vocabulary. */
  ghost predicate Names(values: seq<Text>, name: nat -> Option<Text>) {
    forall code: nat :: name(code) == if 0 < code <= |values| then Some(values[code - 1]) else None
  }

  lemma LabelDecodes(b: seq<byte>, pos: nat, f: LabelForm, strings: seq<Text>, values: seq<Text>, name: nat -> Option<Text>, word: Text)
    requires Names(values, name) && LabelForms(f, strings, name, word) && Starts(b, pos, LabelBytes(f))
    ensures CodeOrStringAt(b, pos, strings, values) == Ok(word, pos + |LabelBytes(f)|)
  {
    hide StringRefAt, VarintAt, Starts, Leb128, LebValue;
    match f
    case Coded(code) =>
      NumberDecodes(b, pos, code, LebValue(code));
    case Spelled(zero, text) =>
      StartsSplit(b, pos, zero, text);
      NumberDecodes(b, pos, zero, 0);
      PointsDecodes(b, pos + |zero|, text, strings, word);
  }

  lemma LabelRead(b: seq<byte>, pos: nat, strings: seq<Text>, values: seq<Text>, name: nat -> Option<Text>) returns (f: LabelForm)
    requires Names(values, name) && CodeOrStringAt(b, pos, strings, values).Ok?
    ensures var r := CodeOrStringAt(b, pos, strings, values);
      LabelForms(f, strings, name, r.value) && pos < r.next <= |b| && b[pos..r.next] == LabelBytes(f)
  {
    hide StringRefAt, VarintAt, Leb128, LebValue;
    NumberRead(b, pos);
    var code, r := VarintAt(b, pos), CodeOrStringAt(b, pos, strings, values);
    if code.value == 0 {
      PointsRead(b, code.next, strings);
      f := Spelled(b[pos..code.next], b[code.next..r.next]);
      Join(b, pos, code.next, r.next);
    } else {
      f := Coded(b[pos..code.next]);
    }
  }

  lemma FactoredDecodes(b: seq<byte>, pos: nat, f: FactoredForm, strings: seq<Text>, objectOwner: Text, value: Text)
    requires FactoredForms(f, strings, objectOwner, value) && Starts(b, pos, FactoredBytes(f))
    ensures FactoredAt(b, pos, strings, objectOwner) == Ok(value, pos + |FactoredBytes(f)|)
  {
    hide StringRefAt, VarintAt, Starts, Number;
    match f
    case Nothing(factor) => NumberDecodes(b, pos, factor, 0);
    case TheOwner(factor) => NumberDecodes(b, pos, factor, 1);
    case Literal(factor, text) =>
      StartsSplit(b, pos, factor, text);
      NumberDecodes(b, pos, factor, 2);
      PointsDecodes(b, pos + |factor|, text, strings, value);
  }

  lemma FactoredRead(b: seq<byte>, pos: nat, strings: seq<Text>, objectOwner: Text) returns (f: FactoredForm)
    requires FactoredAt(b, pos, strings, objectOwner).Ok?
    ensures var r := FactoredAt(b, pos, strings, objectOwner);
      FactoredForms(f, strings, objectOwner, r.value) && pos < r.next <= |b| && b[pos..r.next] == FactoredBytes(f)
  {
    hide StringRefAt, VarintAt, Number;
    NumberRead(b, pos);
    var factor, r := VarintAt(b, pos), FactoredAt(b, pos, strings, objectOwner);
    var s := b[pos..factor.next];
    if factor.value == 0 {
      f := Nothing(s);
    } else if factor.value == 1 {
      f := TheOwner(s);
    } else {
      PointsRead(b, factor.next, strings);
      f := Literal(s, b[factor.next..r.next]);
      Join(b, pos, factor.next, r.next);
    }
  }

  lemma QualifiedDecodes(b: seq<byte>, pos: nat, f: QualifiedForm, strings: seq<Text>, name: Text, path: Text, objectOwner: Text,
                         value: Text)
    requires QualifiedForms(f, strings, name, path, objectOwner, value) && Starts(b, pos, QualifiedBytes(f))
    ensures QualifiedNameAt(b, pos, strings, name, path, objectOwner) == Ok(value, pos + |QualifiedBytes(f)|)
  {
    hide StringRefAt, VarintAt, Starts, Number;
    match f
    case AsName(factor) => NumberDecodes(b, pos, factor, 1);
    case AsPath(factor) => NumberDecodes(b, pos, factor, 2);
    case AsOwner(factor) => NumberDecodes(b, pos, factor, 3);
    case OwnText(factor, text) =>
      StartsSplit(b, pos, factor, text);
      NumberDecodes(b, pos, factor, 0);
      PointsDecodes(b, pos + |factor|, text, strings, value);
  }

  lemma QualifiedRead(b: seq<byte>, pos: nat, strings: seq<Text>, name: Text, path: Text, objectOwner: Text)
    returns (f: QualifiedForm)
    requires QualifiedNameAt(b, pos, strings, name, path, objectOwner).Ok?
    ensures var r := QualifiedNameAt(b, pos, strings, name, path, objectOwner);
      && QualifiedForms(f, strings, name, path, objectOwner, r.value)
      && pos < r.next <= |b| && b[pos..r.next] == QualifiedBytes(f)
  {
    hide StringRefAt, VarintAt, Number;
    NumberRead(b, pos);
    var factor, r := VarintAt(b, pos), QualifiedNameAt(b, pos, strings, name, path, objectOwner);
    var s := b[pos..factor.next];
    if factor.value == 0 {
      PointsRead(b, factor.next, strings);
      f := OwnText(s, b[factor.next..r.next]);
      Join(b, pos, factor.next, r.next);
    } else {
      f := if factor.value == 1 then AsName(s) else if factor.value == 2 then AsPath(s) else AsOwner(s);
    }
  }

  lemma AttributesDecode(b: seq<byte>, pos: nat, f: BlockForm, value: Option<seq<byte>>)
    requires BlockForms(f, 33_554_432, Plain(value)) && Proper(value) && Starts(b, pos, BlockBytes(f))
    ensures AttributesAt(b, pos) == Ok(value, pos + |BlockBytes(f)|)
  {
    hide BytesAt, Number, Starts, BlockBytes;
    BlockDecodes(b, pos, f, 33_554_432);
  }

  lemma AttributesRead(b: seq<byte>, pos: nat) returns (f: BlockForm)
    requires AttributesAt(b, pos).Ok?
    ensures var r := AttributesAt(b, pos);
      BlockForms(f, 33_554_432, Plain(r.value)) && Proper(r.value) && pos < r.next <= |b| && b[pos..r.next] == BlockBytes(f)
  {
    hide BytesAt, Number, BlockBytes;
    f := BlockRead(b, pos, 33_554_432);
  }

  lemma NumberAtCoordinate(b: seq<byte>, pos: nat, s: seq<byte>, value: u64)
    requires Number(s, value) && Starts(b, pos, s)
    ensures CoordinateAt(b, pos) == Ok(value, pos + |s|)
  {
    hide VarintAt, Number;
    NumberDecodes(b, pos, s, value);
  }

  lemma CoordinateRead(b: seq<byte>, pos: nat)
    requires CoordinateAt(b, pos).Ok?
    ensures var r := CoordinateAt(b, pos);
      pos < r.next <= |b| && Number(b[pos..r.next], r.value)
  {
    hide VarintAt, Number;
    NumberRead(b, pos);
  }

  lemma NextCoordinate(b: seq<byte>, pos: nat, s: seq<byte>, value: u64, rest: seq<byte>)
    requires Number(s, value) && Starts(b, pos, s + rest)
    ensures CoordinateAt(b, pos) == Ok(value, pos + |s|) && Starts(b, pos + |s|, rest)
  {
    hide CoordinateAt, Starts, Number;
    StartsSplit(b, pos, s, rest);
    NumberAtCoordinate(b, pos, s, value);
  }

  lemma TwoCoordinates(b: seq<byte>, pos: nat, s: seq<byte>, v: u64, t: seq<byte>, w: u64, rest: seq<byte>)
    requires Number(s, v) && Number(t, w) && Starts(b, pos, s + (t + rest))
    ensures CoordinateAt(b, pos) == Ok(v, pos + |s|) && CoordinateAt(b, pos + |s|) == Ok(w, pos + |s| + |t|)
    ensures Starts(b, pos + |s| + |t|, rest)
  {
    hide CoordinateAt, Starts, Number;
    NextCoordinate(b, pos, s, v, t + rest);
    NextCoordinate(b, pos + |s|, t, w, rest);
  }

  lemma FourCoordinates(b: seq<byte>, pos: nat, s: seq<byte>, v: u64, t: seq<byte>, w: u64, x: seq<byte>, y: u64, z: seq<byte>, u: u64)
    requires Number(s, v) && Number(t, w) && Number(x, y) && Number(z, u) && Starts(b, pos, s + (t + (x + z)))
    ensures var p2 := pos + |s|;
      var p3 := p2 + |t|;
      var p4 := p3 + |x|;
      && CoordinateAt(b, pos) == Ok(v, p2) && CoordinateAt(b, p2) == Ok(w, p3)
      && CoordinateAt(b, p3) == Ok(y, p4) && CoordinateAt(b, p4) == Ok(u, p4 + |z|)
  {
    hide CoordinateAt, Starts, Number;
    TwoCoordinates(b, pos, s, v, t, w, x + z);
    NextCoordinate(b, pos + |s| + |t|, x, y, z);
    NumberAtCoordinate(b, pos + |s| + |t| + |x|, z, u);
  }

  lemma CoordinatesDecode(b: seq<byte>, pos: nat, f: SpanForm, span: SpanRecord)
    requires f.SpanForm? && Starts(b, pos, f.startLine + (f.startColumn + (f.endLine + f.endColumn)))
    requires Number(f.startLine, span.startLine) && Number(f.startColumn, span.startColumn)
    requires Number(f.endLine, span.endLine) && Number(f.endColumn, span.endColumn)
    ensures var p2 := pos + |f.startLine|;
      var p3 := p2 + |f.startColumn|;
      var p4 := p3 + |f.endLine|;
      && CoordinateAt(b, pos) == Ok(span.startLine, p2)
      && CoordinateAt(b, p2) == Ok(span.startColumn, p3)
      && CoordinateAt(b, p3) == Ok(span.endLine, p4)
      && CoordinateAt(b, p4) == Ok(span.endColumn, p4 + |f.endColumn|)
  {
    hide CoordinateAt, Starts, Number;
    FourCoordinates(b, pos, f.startLine, span.startLine, f.startColumn, span.startColumn, f.endLine, span.endLine, f.endColumn,
                    span.endColumn);
  }

  lemma SpanSteps(b: seq<byte>, pos: nat, strings: seq<Text>, span: SpanRecord, p1: nat, p2: nat, p3: nat, p4: nat, p5: nat)
    requires ByteAt(b, pos) == Ok(1, pos + 1) && StringRefAt(b, pos + 1, strings) == Ok(span.path, p1)
    requires CoordinateAt(b, p1) == Ok(span.startLine, p2) && CoordinateAt(b, p2) == Ok(span.startColumn, p3)
    requires CoordinateAt(b, p3) == Ok(span.endLine, p4) && CoordinateAt(b, p4) == Ok(span.endColumn, p5)
    ensures SpanAt(b, pos, strings) == Ok(Some(span), p5)
  {
    hide StringRefAt, CoordinateAt, ByteAt;
  }

  lemma SpanLength(f: SpanForm)
    ensures f.SpanForm? ==>
      |SpanBytes(f)| == 1 + |f.path| + |f.startLine| + |f.startColumn| + |f.endLine| + |f.endColumn|
  {
  }

  lemma SpanDecodes(b: seq<byte>, pos: nat, f: SpanForm, strings: seq<Text>, span: Option<SpanRecord>)
    requires SpanForms(f, strings, span) && Starts(b, pos, SpanBytes(f))
    ensures SpanAt(b, pos, strings) == Ok(span, pos + |SpanBytes(f)|)
  {
    hide StringRefAt, CoordinateAt, Starts, Number, Points, ByteAt;
    if f.NoSpan? {
      assert [0] + [] == [0];
      TagStarts(b, pos, 0, []);
    } else {
      var rest := f.startLine + (f.startColumn + (f.endLine + f.endColumn));
      TagStarts(b, pos, 1, f.path + rest);
      StartsSplit(b, pos + 1, f.path, rest);
      PointsDecodes(b, pos + 1, f.path, strings, span.value.path);
      SpanLength(f);
      hide SpanAt, SpanBytes;
      var p1 := pos + 1 + |f.path|;
      CoordinatesDecode(b, p1, f, span.value);
      var p2 := p1 + |f.startLine|;
      var p3 := p2 + |f.startColumn|;
      var p4 := p3 + |f.endLine|;
      SpanSteps(b, pos, strings, span.value, p1, p2, p3, p4, p4 + |f.endColumn|);
    }
  }

  lemma SpanRead(b: seq<byte>, pos: nat, strings: seq<Text>) returns (f: SpanForm)
    requires SpanAt(b, pos, strings).Ok?
    ensures var r := SpanAt(b, pos, strings);
      SpanForms(f, strings, r.value) && pos < r.next <= |b| && b[pos..r.next] == SpanBytes(f)
  {
    hide StringRefAt, CoordinateAt, Number, Points;
    var r := SpanAt(b, pos, strings);
    if b[pos] == 0 {
      f := NoSpan;
    } else {
      PointsRead(b, pos + 1, strings);
      var p1 := StringRefAt(b, pos + 1, strings).next;
      CoordinateRead(b, p1);
      var p2 := CoordinateAt(b, p1).next;
      CoordinateRead(b, p2);
      var p3 := CoordinateAt(b, p2).next;
      CoordinateRead(b, p3);
      var p4 := CoordinateAt(b, p3).next;
      CoordinateRead(b, p4);
      f := SpanForm(b[pos + 1..p1], b[p1..p2], b[p2..p3], b[p3..p4], b[p4..r.next]);
      Join(b, p3, p4, r.next);
      Join(b, p2, p3, r.next);
      Join(b, p1, p2, r.next);
      Join(b, pos + 1, p1, r.next);
      TagRead(b, pos, r.next);
    }
  }

  lemma ReferenceDecodes(b: seq<byte>, pos: nat, f: ReferenceForm, nodeKeys: seq<NodeKey>, external: seq<Identity>, value: NodeReference)
    requires ReferenceForms(f, nodeKeys, external, value) && Starts(b, pos, ReferenceBytes(f))
    ensures NodeRefAt(b, pos, nodeKeys, external) == Ok(value, pos + |ReferenceBytes(f)|)
  {
    hide VarintAt, Starts, Leb128, LebValue;
    match f
    case Local(ordinal) =>
      TagStarts(b, pos, 0, ordinal);
      NumberDecodes(b, pos + 1, ordinal, LebValue(ordinal));
    case External(index) =>
      TagStarts(b, pos, 1, index);
      NumberDecodes(b, pos + 1, index, LebValue(index));
  }

  lemma ReferenceRead(b: seq<byte>, pos: nat, nodeKeys: seq<NodeKey>, external: seq<Identity>) returns (f: ReferenceForm)
    requires NodeRefAt(b, pos, nodeKeys, external).Ok?
    ensures var r := NodeRefAt(b, pos, nodeKeys, external);
      ReferenceForms(f, nodeKeys, external, r.value) && pos < r.next <= |b| && b[pos..r.next] == ReferenceBytes(f)
  {
    hide VarintAt, Leb128, LebValue;
    NumberRead(b, pos + 1);
    var r := NodeRefAt(b, pos, nodeKeys, external);
    var s := b[pos + 1..r.next];
    f := if b[pos] == 0 then Local(s) else External(s);
    TagRead(b, pos, r.next);
  }

  // ----- records -----

  lemma OwnerStands(owner: Option<Text>)
    requires Proper(owner)
    ensures Optional(Plain(owner)) == owner
  {
  }

  lemma OptionalProper(value: Text)
    ensures Proper(Optional(value)) && Plain(Optional(value)) == value
  {
  }

  lemma NodeSteps(c: Codec, b: seq<byte>, strings: seq<Text>, o: Text, n: NodeRecord, pos: nat, p1: nat, p2: nat, p3: nat, p4: nat,
                  p5: nat, p6: nat, p7: nat, p8: nat, p9: nat)
    requires Proper(n.owner)
    requires AttributesAt(b, pos) == Ok(n.attributes, p1) && OptionalIdentityAt(c, b, p1, strings) == Ok(n.contentId, p2)
    requires IdentityAt(c, b, p2, strings) == Ok(n.id, p3) && CodeOrStringAt(b, p3, strings, COMMON_NODE_KINDS) == Ok(n.kind, p4)
    requires StringRefAt(b, p4, strings) == Ok(n.name, p5) && FactoredAt(b, p5, strings, o) == Ok(Plain(n.owner), p6)
    requires FactoredAt(b, p6, strings, o) == Ok(n.path, p7)
    requires QualifiedNameAt(b, p7, strings, n.name, n.path, o) == Ok(n.qualifiedName, p8) && SpanAt(b, p8, strings) == Ok(n.span, p9)
    ensures NodeAt(c, b, strings, o, pos) == Ok(n, p9)
  {
    hide AttributesAt, OptionalIdentityAt, IdentityAt, CodeOrStringAt, StringRefAt, FactoredAt, QualifiedNameAt, SpanAt, COMMON_NODE_KINDS;
  }

  /** The bytes of a node, from its name on. */
  function NodeTailBytes(f: NodeForm): seq<byte> {
    f.name + (FactoredBytes(f.owner) + (FactoredBytes(f.path) + (QualifiedBytes(f.qualifiedName) + SpanBytes(f.span))))
  }

  lemma NodeSplits(f: NodeForm)
    ensures NodeBytes(f) ==
            BlockBytes(f.attributes) + (IdentityBytes(f.contentId) + (IdentityBytes(f.id) + (LabelBytes(f.kind) + NodeTailBytes(f))))
    ensures |NodeBytes(f)| == |BlockBytes(f.attributes)| + |IdentityBytes(f.contentId)| + |IdentityBytes(f.id)| + |LabelBytes(f.kind)|
                              + |f.name| + |FactoredBytes(f.owner)| + |FactoredBytes(f.path)| + |QualifiedBytes(f.qualifiedName)|
                              + |SpanBytes(f.span)|
  {
    hide BlockBytes, IdentityBytes, LabelBytes, FactoredBytes, QualifiedBytes, SpanBytes;
  }

  lemma NodeHeadDecodes(c: Codec, b: seq<byte>, pos: nat, f: NodeForm, strings: seq<Text>, o: Text, n: NodeRecord)
    requires NodeForms(f, c, strings, o, n) && Starts(b, pos, NodeBytes(f))
    ensures var p1 := pos + |BlockBytes(f.attributes)|;
      var p2 := p1 + |IdentityBytes(f.contentId)|;
      var p3 := p2 + |IdentityBytes(f.id)|;
      var p4 := p3 + |LabelBytes(f.kind)|;
      && AttributesAt(b, pos) == Ok(n.attributes, p1) && OptionalIdentityAt(c, b, p1, strings) == Ok(n.contentId, p2)
      && IdentityAt(c, b, p2, strings) == Ok(n.id, p3) && CodeOrStringAt(b, p3, strings, COMMON_NODE_KINDS) == Ok(n.kind, p4)
      && Starts(b, p4, NodeTailBytes(f))
  {
    hide AttributesAt, OptionalIdentityAt, IdentityAt, CodeOrStringAt, COMMON_NODE_KINDS, NodeKindName, Starts, Points;
    hide BlockForms, OptionalIdentityForms, IdentityForms, LabelForms, FactoredForms, QualifiedForms, SpanForms, NodeTailBytes, Names;
    hide BlockBytes, IdentityBytes, LabelBytes, FactoredBytes, QualifiedBytes, SpanBytes;
    NodeSplits(f);
    assert Names(COMMON_NODE_KINDS, NodeKindName) by { KindsNamed(); }
    hide NodeBytes;
    var t3 := LabelBytes(f.kind) + NodeTailBytes(f);
    var t2 := IdentityBytes(f.id) + t3;
    var t1 := IdentityBytes(f.contentId) + t2;
    StartsSplit(b, pos, BlockBytes(f.attributes), t1);
    AttributesDecode(b, pos, f.attributes, n.attributes);
    var p1 := pos + |BlockBytes(f.attributes)|;
    StartsSplit(b, p1, IdentityBytes(f.contentId), t2);
    OptionalIdentityDecodes(c, b, p1, f.contentId, strings, n.contentId);
    var p2 := p1 + |IdentityBytes(f.contentId)|;
    StartsSplit(b, p2, IdentityBytes(f.id), t3);
    IdentityDecodes(c, b, p2, f.id, strings, n.id);
    var p3 := p2 + |IdentityBytes(f.id)|;
    StartsSplit(b, p3, LabelBytes(f.kind), NodeTailBytes(f));
    LabelDecodes(b, p3, f.kind, strings, COMMON_NODE_KINDS, NodeKindName, n.kind);
  }

  lemma KindsNamed()
    ensures Names(COMMON_NODE_KINDS, NodeKindName)
  {
    forall code: nat ensures NodeKindName(code) == if 0 < code <= |COMMON_NODE_KINDS| then Some(COMMON_NODE_KINDS[code - 1]) else None {
      KindNames(code);
    }
  }

  lemma RelationsNamed()
    ensures Names(COMMON_RELATIONS, RelationName)
  {
    forall code: nat ensures RelationName(code) == if 0 < code <= |COMMON_RELATIONS| then Some(COMMON_RELATIONS[code - 1]) else None {
      RelationNames(code);
    }
  }

  lemma NodeTailDecodes(c: Codec, b: seq<byte>, p4: nat, f: NodeForm, strings: seq<Text>, o: Text, n: NodeRecord)
    requires NodeForms(f, c, strings, o, n) && Starts(b, p4, NodeTailBytes(f))
    ensures var p5 := p4 + |f.name|;
      var p6 := p5 + |FactoredBytes(f.owner)|;
      var p7 := p6 + |FactoredBytes(f.path)|;
      var p8 := p7 + |QualifiedBytes(f.qualifiedName)|;
      && StringRefAt(b, p4, strings) == Ok(n.name, p5) && FactoredAt(b, p5, strings, o) == Ok(Plain(n.owner), p6)
      && FactoredAt(b, p6, strings, o) == Ok(n.path, p7)
      && QualifiedNameAt(b, p7, strings, n.name, n.path, o) == Ok(n.qualifiedName, p8)
      && SpanAt(b, p8, strings) == Ok(n.span, p8 + |SpanBytes(f.span)|)
  {
    hide StringRefAt, FactoredAt, QualifiedNameAt, SpanAt, NodeKindName, Starts, Points, Plain;
    hide BlockForms, OptionalIdentityForms, IdentityForms, LabelForms, FactoredForms, QualifiedForms, SpanForms;
    hide BlockBytes, IdentityBytes, LabelBytes, FactoredBytes, QualifiedBytes, SpanBytes;
    var t7 := QualifiedBytes(f.qualifiedName) + SpanBytes(f.span);
    var t6 := FactoredBytes(f.path) + t7;
    var t5 := FactoredBytes(f.owner) + t6;
    StartsSplit(b, p4, f.name, t5);
    PointsDecodes(b, p4, f.name, strings, n.name);
    var p5 := p4 + |f.name|;
    StartsSplit(b, p5, FactoredBytes(f.owner), t6);
    FactoredDecodes(b, p5, f.owner, strings, o, Plain(n.owner));
    var p6 := p5 + |FactoredBytes(f.owner)|;
    StartsSplit(b, p6, FactoredBytes(f.path), t7);
    FactoredDecodes(b, p6, f.path, strings, o, n.path);
    var p7 := p6 + |FactoredBytes(f.path)|;
    StartsSplit(b, p7, QualifiedBytes(f.qualifiedName), SpanBytes(f.span));
    QualifiedDecodes(b, p7, f.qualifiedName, strings, n.name, n.path, o, n.qualifiedName);
    SpanDecodes(b, p7 + |QualifiedBytes(f.qualifiedName)|, f.span, strings, n.span);
  }

  lemma NodeDecodes(c: Codec, b: seq<byte>, pos: nat, f: NodeForm, strings: seq<Text>, o: Text, n: NodeRecord)
    requires NodeForms(f, c, strings, o, n) && Starts(b, pos, NodeBytes(f))
    ensures NodeAt(c, b, strings, o, pos) == Ok(n, pos + |NodeBytes(f)|)
  {
    hide AttributesAt, OptionalIdentityAt, IdentityAt, CodeOrStringAt, StringRefAt, FactoredAt, QualifiedNameAt, SpanAt, COMMON_NODE_KINDS;
    hide NodeAt, Starts, NodeTailBytes, BlockBytes, IdentityBytes, LabelBytes, FactoredBytes, QualifiedBytes, SpanBytes, Plain;
    hide BlockForms, OptionalIdentityForms, IdentityForms, LabelForms, FactoredForms, QualifiedForms, SpanForms, Points;
    NodeSplits(f);
    hide NodeBytes;
    NodeHeadDecodes(c, b, pos, f, strings, o, n);
    var p1 := pos + |BlockBytes(f.attributes)|;
    var p2 := p1 + |IdentityBytes(f.contentId)|;
    var p3 := p2 + |IdentityBytes(f.id)|;
    var p4 := p3 + |LabelBytes(f.kind)|;
    NodeTailDecodes(c, b, p4, f, strings, o, n);
    var p5 := p4 + |f.name|;
    var p6 := p5 + |FactoredBytes(f.owner)|;
    var p7 := p6 + |FactoredBytes(f.path)|;
    var p8 := p7 + |QualifiedBytes(f.qualifiedName)|;
    NodeSteps(c, b, strings, o, n, pos, p1, p2, p3, p4, p5, p6, p7, p8, p8 + |SpanBytes(f.span)|);
  }

  lemma NodeRead(c: Codec, b: seq<byte>, pos: nat, strings: seq<Text>, o: Text) returns (f: NodeForm)
    requires NodeAt(c, b, strings, o, pos).Ok?
    ensures var r := NodeAt(c, b, strings, o, pos);
      NodeForms(f, c, strings, o, r.value) && pos < r.next <= |b| && b[pos..r.next] == NodeBytes(f)
  {
    hide AttributesAt, OptionalIdentityAt, IdentityAt, CodeOrStringAt, StringRefAt, FactoredAt, QualifiedNameAt, SpanAt, COMMON_NODE_KINDS;
    hide NodeKindName, Points, Plain, Optional, BlockForms, OptionalIdentityForms, IdentityForms, LabelForms, FactoredForms;
    hide QualifiedForms, SpanForms, BlockBytes, IdentityBytes, LabelBytes, FactoredBytes, QualifiedBytes, SpanBytes, Names, Proper;
    assert Names(COMMON_NODE_KINDS, NodeKindName) by { KindsNamed(); }
    var attributes := AttributesRead(b, pos);
    var p1 := AttributesAt(b, pos).next;
    var contentId := OptionalIdentityRead(c, b, p1, strings);
    var p2 := OptionalIdentityAt(c, b, p1, strings).next;
    var id := IdentityRead(c, b, p2, strings);
    var p3 := IdentityAt(c, b, p2, strings).next;
    var kind := LabelRead(b, p3, strings, COMMON_NODE_KINDS, NodeKindName);
    var p4 := CodeOrStringAt(b, p3, strings, COMMON_NODE_KINDS).next;
    PointsRead(b, p4, strings);
    var name := StringRefAt(b, p4, strings);
    var p5 := name.next;
    var owner := FactoredRead(b, p5, strings, o);
    OptionalProper(FactoredAt(b, p5, strings, o).value);
    var p6 := FactoredAt(b, p5, strings, o).next;
    var path := FactoredRead(b, p6, strings, o);
    var p7 := FactoredAt(b, p6, strings, o).next;
    var qualified := QualifiedRead(b, p7, strings, name.value, FactoredAt(b, p6, strings, o).value, o);
    var p8 := QualifiedNameAt(b, p7, strings, name.value, FactoredAt(b, p6, strings, o).value, o).next;
    var span := SpanRead(b, p8, strings);
    var p9 := SpanAt(b, p8, strings).next;
    f := NodeForm(attributes, contentId, id, kind, b[p4..p5], owner, path, qualified, span);
    Join(b, p7, p8, p9);
    Join(b, p6, p7, p9);
    Join(b, p5, p6, p9);
    Join(b, p4, p5, p9);
    Join(b, p3, p4, p9);
    Join(b, p2, p3, p9);
    Join(b, p1, p2, p9);
    Join(b, pos, p1, p9);
  }

  lemma EdgeSteps(b: seq<byte>, strings: seq<Text>, external: seq<Identity>, nodeKeys: seq<NodeKey>, o: Text, e: EdgeRecord, pos: nat,
                  p1: nat, p2: nat, p3: nat, p4: nat, p5: nat, p6: nat)
    requires Proper(e.owner)
    requires AttributesAt(b, pos) == Ok(e.attributes, p1) && FactoredAt(b, p1, strings, o) == Ok(Plain(e.owner), p2)
    requires CodeOrStringAt(b, p2, strings, COMMON_RELATIONS) == Ok(e.relation, p3)
    requires NodeRefAt(b, p3, nodeKeys, external) == Ok(e.source, p4) && SpanAt(b, p4, strings) == Ok(e.span, p5)
    requires NodeRefAt(b, p5, nodeKeys, external) == Ok(e.target, p6)
    ensures EdgeAt(b, strings, external, nodeKeys, o, pos) == Ok(e, p6)
  {
    hide AttributesAt, CodeOrStringAt, FactoredAt, NodeRefAt, SpanAt, COMMON_RELATIONS;
  }

  lemma EdgeDecodes(b: seq<byte>, pos: nat, f: EdgeForm, strings: seq<Text>, external: seq<Identity>, nodeKeys: seq<NodeKey>, o: Text,
                    e: EdgeRecord)
    requires EdgeForms(f, strings, external, nodeKeys, o, e) && Starts(b, pos, EdgeBytes(f))
    ensures EdgeAt(b, strings, external, nodeKeys, o, pos) == Ok(e, pos + |EdgeBytes(f)|)
  {
    hide AttributesAt, CodeOrStringAt, FactoredAt, NodeRefAt, SpanAt, COMMON_RELATIONS, EdgeAt, RelationName, Starts, Points, Plain, Names;
    hide BlockForms, LabelForms, FactoredForms, SpanForms, ReferenceForms;
    hide BlockBytes, LabelBytes, FactoredBytes, SpanBytes, ReferenceBytes;
    assert Names(COMMON_RELATIONS, RelationName) by { RelationsNamed(); }
    var t5 := SpanBytes(f.span) + ReferenceBytes(f.target);
    var t4 := ReferenceBytes(f.source) + t5;
    var t3 := LabelBytes(f.relation) + t4;
    var t2 := FactoredBytes(f.owner) + t3;
    assert EdgeBytes(f) == BlockBytes(f.attributes) + t2;
    EdgeLength(f);
    hide EdgeBytes;
    StartsSplit(b, pos, BlockBytes(f.attributes), t2);
    AttributesDecode(b, pos, f.attributes, e.attributes);
    var p1 := pos + |BlockBytes(f.attributes)|;
    StartsSplit(b, p1, FactoredBytes(f.owner), t3);
    FactoredDecodes(b, p1, f.owner, strings, o, Plain(e.owner));
    var p2 := p1 + |FactoredBytes(f.owner)|;
    StartsSplit(b, p2, LabelBytes(f.relation), t4);
    LabelDecodes(b, p2, f.relation, strings, COMMON_RELATIONS, RelationName, e.relation);
    var p3 := p2 + |LabelBytes(f.relation)|;
    StartsSplit(b, p3, ReferenceBytes(f.source), t5);
    ReferenceDecodes(b, p3, f.source, nodeKeys, external, e.source);
    var p4 := p3 + |ReferenceBytes(f.source)|;
    StartsSplit(b, p4, SpanBytes(f.span), ReferenceBytes(f.target));
    SpanDecodes(b, p4, f.span, strings, e.span);
    var p5 := p4 + |SpanBytes(f.span)|;
    ReferenceDecodes(b, p5, f.target, nodeKeys, external, e.target);
    EdgeSteps(b, strings, external, nodeKeys, o, e, pos, p1, p2, p3, p4, p5, p5 + |ReferenceBytes(f.target)|);
  }

  lemma EdgeLength(f: EdgeForm)
    ensures |EdgeBytes(f)| == |BlockBytes(f.attributes)| + |FactoredBytes(f.owner)| + |LabelBytes(f.relation)| + |ReferenceBytes(f.source)|
                              + |SpanBytes(f.span)| + |ReferenceBytes(f.target)|
  {
    hide BlockBytes, LabelBytes, FactoredBytes, SpanBytes, ReferenceBytes;
  }

  lemma EdgeRead(b: seq<byte>, pos: nat, strings: seq<Text>, external: seq<Identity>, nodeKeys: seq<NodeKey>, o: Text)
    returns (f: EdgeForm)
    requires EdgeAt(b, strings, external, nodeKeys, o, pos).Ok?
    ensures var r := EdgeAt(b, strings, external, nodeKeys, o, pos);
      EdgeForms(f, strings, external, nodeKeys, o, r.value) && pos < r.next <= |b| && b[pos..r.next] == EdgeBytes(f)
  {
    hide AttributesAt, CodeOrStringAt, FactoredAt, NodeRefAt, SpanAt, COMMON_RELATIONS, RelationName, Points, Plain, Names, Optional, Proper;
    hide BlockForms, LabelForms, FactoredForms, SpanForms, ReferenceForms;
    hide BlockBytes, LabelBytes, FactoredBytes, SpanBytes, ReferenceBytes;
    assert Names(COMMON_RELATIONS, RelationName) by { RelationsNamed(); }
    var attributes := AttributesRead(b, pos);
    var p1 := AttributesAt(b, pos).next;
    var owner := FactoredRead(b, p1, strings, o);
    OptionalProper(FactoredAt(b, p1, strings, o).value);
    var p2 := FactoredAt(b, p1, strings, o).next;
    var relation := LabelRead(b, p2, strings, COMMON_RELATIONS, RelationName);
    var p3 := CodeOrStringAt(b, p2, strings, COMMON_RELATIONS).next;
    var source := ReferenceRead(b, p3, nodeKeys, external);
    var p4 := NodeRefAt(b, p3, nodeKeys, external).next;
    var span := SpanRead(b, p4, strings);
    var p5 := SpanAt(b, p4, strings).next;
    var target := ReferenceRead(b, p5, nodeKeys, external);
    var p6 := NodeRefAt(b, p5, nodeKeys, external).next;
    f := EdgeForm(attributes, owner, relation, source, span, target);
    Join(b, p4, p5, p6);
    Join(b, p3, p4, p6);
    Join(b, p2, p3, p6);
    Join(b, p1, p2, p6);
    Join(b, pos, p1, p6);
  }

  lemma UnresolvedSteps(b: seq<byte>, strings: seq<Text>, external: seq<Identity>, nodeKeys: seq<NodeKey>, o: Text, u: UnresolvedRecord,
                        pos: nat, p1: nat, p2: nat, p3: nat, p4: nat, p5: nat, p6: nat, p7: nat, p8: nat, p9: nat)
    requires Proper(u.owner) && Proper(u.candidateName) && Proper(u.candidateNamespace)
    requires AttributesAt(b, pos) == Ok(u.attributes, p1) && StringRefAt(b, p1, strings) == Ok(Plain(u.candidateName), p2)
    requires StringRefAt(b, p2, strings) == Ok(Plain(u.candidateNamespace), p3) && StringRefAt(b, p3, strings) == Ok(u.expression, p4)
    requires FactoredAt(b, p4, strings, o) == Ok(Plain(u.owner), p5) && StringRefAt(b, p5, strings) == Ok(u.reason, p6)
    requires CodeOrStringAt(b, p6, strings, COMMON_RELATIONS) == Ok(u.relation, p7)
    requires NodeRefAt(b, p7, nodeKeys, external) == Ok(u.source, p8) && SpanAt(b, p8, strings) == Ok(u.span, p9)
    ensures UnresolvedAt(b, strings, external, nodeKeys, o, pos) == Ok(u, p9)
  {
    hide AttributesAt, CodeOrStringAt, FactoredAt, NodeRefAt, SpanAt, StringRefAt, COMMON_RELATIONS;
  }

  /** The bytes of an unresolved reference, from its owner on. */
  function UnresolvedTailBytes(f: UnresolvedForm): seq<byte> {
    FactoredBytes(f.owner) + (f.reason + (LabelBytes(f.relation) + (ReferenceBytes(f.source) + SpanBytes(f.span))))
  }

  lemma UnresolvedSplits(f: UnresolvedForm)
    ensures UnresolvedBytes(f) ==
            BlockBytes(f.attributes) + (f.candidateName + (f.candidateNamespace + (f.expression + UnresolvedTailBytes(f))))
    ensures |UnresolvedBytes(f)| == |BlockBytes(f.attributes)| + |f.candidateName| + |f.candidateNamespace| + |f.expression|
                                    + |FactoredBytes(f.owner)| + |f.reason| + |LabelBytes(f.relation)| + |ReferenceBytes(f.source)|
                                    + |SpanBytes(f.span)|
  {
    hide BlockBytes, LabelBytes, FactoredBytes, SpanBytes, ReferenceBytes;
  }

  lemma UnresolvedHeadDecodes(b: seq<byte>, pos: nat, f: UnresolvedForm, strings: seq<Text>, external: seq<Identity>,
                              nodeKeys: seq<NodeKey>, o: Text, u: UnresolvedRecord)
    requires UnresolvedForms(f, strings, external, nodeKeys, o, u) && Starts(b, pos, UnresolvedBytes(f))
    ensures var p1 := pos + |BlockBytes(f.attributes)|;
      var p2 := p1 + |f.candidateName|;
      var p3 := p2 + |f.candidateNamespace|;
      var p4 := p3 + |f.expression|;
      && AttributesAt(b, pos) == Ok(u.attributes, p1) && StringRefAt(b, p1, strings) == Ok(Plain(u.candidateName), p2)
      && StringRefAt(b, p2, strings) == Ok(Plain(u.candidateNamespace), p3) && StringRefAt(b, p3, strings) == Ok(u.expression, p4)
      && Starts(b, p4, UnresolvedTailBytes(f))
  {
    hide AttributesAt, StringRefAt, Starts, Points, Plain, BlockForms, LabelForms, FactoredForms, SpanForms, ReferenceForms;
    hide BlockBytes, LabelBytes, FactoredBytes, SpanBytes, ReferenceBytes, UnresolvedTailBytes, RelationName;
    UnresolvedSplits(f);
    hide UnresolvedBytes;
    var t3 := f.expression + UnresolvedTailBytes(f);
    var t2 := f.candidateNamespace + t3;
    var t1 := f.candidateName + t2;
    StartsSplit(b, pos, BlockBytes(f.attributes), t1);
    AttributesDecode(b, pos, f.attributes, u.attributes);
    var p1 := pos + |BlockBytes(f.attributes)|;
    StartsSplit(b, p1, f.candidateName, t2);
    PointsDecodes(b, p1, f.candidateName, strings, Plain(u.candidateName));
    var p2 := p1 + |f.candidateName|;
    StartsSplit(b, p2, f.candidateNamespace, t3);
    PointsDecodes(b, p2, f.candidateNamespace, strings, Plain(u.candidateNamespace));
    var p3 := p2 + |f.candidateNamespace|;
    StartsSplit(b, p3, f.expression, UnresolvedTailBytes(f));
    PointsDecodes(b, p3, f.expression, strings, u.expression);
  }

  lemma UnresolvedTailDecodes(b: seq<byte>, p4: nat, f: UnresolvedForm, strings: seq<Text>, external: seq<Identity>,
                              nodeKeys: seq<NodeKey>, o: Text, u: UnresolvedRecord)
    requires UnresolvedForms(f, strings, external, nodeKeys, o, u) && Starts(b, p4, UnresolvedTailBytes(f))
    ensures var p5 := p4 + |FactoredBytes(f.owner)|;
      var p6 := p5 + |f.reason|;
      var p7 := p6 + |LabelBytes(f.relation)|;
      var p8 := p7 + |ReferenceBytes(f.source)|;
      && FactoredAt(b, p4, strings, o) == Ok(Plain(u.owner), p5) && StringRefAt(b, p5, strings) == Ok(u.reason, p6)
      && CodeOrStringAt(b, p6, strings, COMMON_RELATIONS) == Ok(u.relation, p7)
      && NodeRefAt(b, p7, nodeKeys, external) == Ok(u.source, p8)
      && SpanAt(b, p8, strings) == Ok(u.span, p8 + |SpanBytes(f.span)|)
  {
    hide CodeOrStringAt, FactoredAt, NodeRefAt, SpanAt, StringRefAt, COMMON_RELATIONS, RelationName, Starts, Points, Plain, Names;
    hide BlockForms, LabelForms, FactoredForms, SpanForms, ReferenceForms, BlockBytes, LabelBytes, FactoredBytes, SpanBytes, ReferenceBytes;
    assert Names(COMMON_RELATIONS, RelationName) by { RelationsNamed(); }
    var t7 := ReferenceBytes(f.source) + SpanBytes(f.span);
    var t6 := LabelBytes(f.relation) + t7;
    var t5 := f.reason + t6;
    StartsSplit(b, p4, FactoredBytes(f.owner), t5);
    FactoredDecodes(b, p4, f.owner, strings, o, Plain(u.owner));
    var p5 := p4 + |FactoredBytes(f.owner)|;
    StartsSplit(b, p5, f.reason, t6);
    PointsDecodes(b, p5, f.reason, strings, u.reason);
    var p6 := p5 + |f.reason|;
    StartsSplit(b, p6, LabelBytes(f.relation), t7);
    LabelDecodes(b, p6, f.relation, strings, COMMON_RELATIONS, RelationName, u.relation);
    var p7 := p6 + |LabelBytes(f.relation)|;
    StartsSplit(b, p7, ReferenceBytes(f.source), SpanBytes(f.span));
    ReferenceDecodes(b, p7, f.source, nodeKeys, external, u.source);
    SpanDecodes(b, p7 + |ReferenceBytes(f.source)|, f.span, strings, u.span);
  }

  lemma UnresolvedDecodes(b: seq<byte>, pos: nat, f: UnresolvedForm, strings: seq<Text>, external: seq<Identity>,
                          nodeKeys: seq<NodeKey>, o: Text, u: UnresolvedRecord)
    requires UnresolvedForms(f, strings, external, nodeKeys, o, u) && Starts(b, pos, UnresolvedBytes(f))
    ensures UnresolvedAt(b, strings, external, nodeKeys, o, pos) == Ok(u, pos + |UnresolvedBytes(f)|)
  {
    hide AttributesAt, CodeOrStringAt, FactoredAt, NodeRefAt, SpanAt, StringRefAt, COMMON_RELATIONS, RelationName, Starts, Points, Plain;
    hide BlockForms, LabelForms, FactoredForms, SpanForms, ReferenceForms, BlockBytes, LabelBytes, FactoredBytes, SpanBytes, ReferenceBytes;
    hide UnresolvedTailBytes, UnresolvedAt;
    UnresolvedSplits(f);
    hide UnresolvedBytes;
    UnresolvedHeadDecodes(b, pos, f, strings, external, nodeKeys, o, u);
    var p1 := pos + |BlockBytes(f.attributes)|;
    var p2 := p1 + |f.candidateName|;
    var p3 := p2 + |f.candidateNamespace|;
    var p4 := p3 + |f.expression|;
    UnresolvedTailDecodes(b, p4, f, strings, external, nodeKeys, o, u);
    var p5 := p4 + |FactoredBytes(f.owner)|;
    var p6 := p5 + |f.reason|;
    var p7 := p6 + |LabelBytes(f.relation)|;
    var p8 := p7 + |ReferenceBytes(f.source)|;
    UnresolvedSteps(b, strings, external, nodeKeys, o, u, pos, p1, p2, p3, p4, p5, p6, p7, p8, p8 + |SpanBytes(f.span)|);
  }

  lemma UnresolvedRead(b: seq<byte>, pos: nat, strings: seq<Text>, external: seq<Identity>, nodeKeys: seq<NodeKey>, o: Text)
    returns (f: UnresolvedForm)
    requires UnresolvedAt(b, strings, external, nodeKeys, o, pos).Ok?
    ensures var r := UnresolvedAt(b, strings, external, nodeKeys, o, pos);
      UnresolvedForms(f, strings, external, nodeKeys, o, r.value) && pos < r.next <= |b| && b[pos..r.next] == UnresolvedBytes(f)
  {
    hide AttributesAt, CodeOrStringAt, FactoredAt, NodeRefAt, SpanAt, StringRefAt, COMMON_RELATIONS, RelationName, Points, Plain, Names;
    hide BlockForms, LabelForms, FactoredForms, SpanForms, ReferenceForms, BlockBytes, LabelBytes, FactoredBytes, SpanBytes, ReferenceBytes;
    hide Optional, Proper;
    assert Names(COMMON_RELATIONS, RelationName) by { RelationsNamed(); }
    var attributes := AttributesRead(b, pos);
    var p1 := AttributesAt(b, pos).next;
    PointsRead(b, p1, strings);
    OptionalProper(StringRefAt(b, p1, strings).value);
    var p2 := StringRefAt(b, p1, strings).next;
    PointsRead(b, p2, strings);
    OptionalProper(StringRefAt(b, p2, strings).value);
    var p3 := StringRefAt(b, p2, strings).next;
    PointsRead(b, p3, strings);
    var p4 := StringRefAt(b, p3, strings).next;
    var owner := FactoredRead(b, p4, strings, o);
    OptionalProper(FactoredAt(b, p4, strings, o).value);
    var p5 := FactoredAt(b, p4, strings, o).next;
    PointsRead(b, p5, strings);
    var p6 := StringRefAt(b, p5, strings).next;
    var relation := LabelRead(b, p6, strings, COMMON_RELATIONS, RelationName);
    var p7 := CodeOrStringAt(b, p6, strings, COMMON_RELATIONS).next;
    var source := ReferenceRead(b, p7, nodeKeys, external);
    var p8 := NodeRefAt(b, p7, nodeKeys, external).next;
    var span := SpanRead(b, p8, strings);
    var p9 := SpanAt(b, p8, strings).next;
    f := UnresolvedForm(attributes, b[p1..p2], b[p2..p3], b[p3..p4], owner, b[p5..p6], relation, source, span);
    Join(b, p7, p8, p9);
    Join(b, p6, p7, p9);
    Join(b, p5, p6, p9);
    Join(b, p4, p5, p9);
    Join(b, p3, p4, p9);
    Join(b, p2, p3, p9);
    Join(b, p1, p2, p9);
    Join(b, pos, p1, p9);
  }

  // ----- lists -----

  /** Reading a member yields what its piece writes, and any member that is read has a piece. */
  ghost predicate Inverts<T(!new)>(b: seq<byte>, read: nat -> Read<T>, writes: (seq<byte>, T) -> bool) {
    && (forall p: nat, s: seq<byte>, v: T :: writes(s, v) && Starts(b, p, s) ==> read(p) == Ok(v, p + |s|))
    && (forall p: nat :: read(p).Ok? ==> p < read(p).next <= |b| && writes(b[p..read(p).next], read(p).value))
  }

  lemma OneDecodes<T(!new)>(b: seq<byte>, pos: nat, read: nat -> Read<T>, writes: (seq<byte>, T) -> bool, piece: seq<byte>, value: T,
                            rest: seq<byte>)
    requires Inverts(b, read, writes) && writes(piece, value) && Starts(b, pos, piece + rest)
    ensures read(pos) == Ok(value, pos + |piece|) && Starts(b, pos + |piece|, rest)
  {
    hide Starts;
    StartsSplit(b, pos, piece, rest);
  }

  lemma {:induction false} ManyDecodes<T(!new)>(b: seq<byte>, pos: nat, read: nat -> Read<T>, writes: (seq<byte>, T) -> bool,
                                          pieces: seq<seq<byte>>, values: seq<T>)
    requires Inverts(b, read, writes) && WritesAll(pieces, values, writes) && Starts(b, pos, Joined(pieces))
    ensures Many(read, |values|, pos) == Ok(values, pos + |Joined(pieces)|)
    decreases |values|
  {
    hide Starts, Inverts;
    if values != [] {
      var piece, rest := pieces[0], pieces[1..];
      OneDecodes(b, pos, read, writes, piece, values[0], Joined(rest));
      assert WritesAll(rest, values[1..], writes);
      hide WritesAll;
      ManyDecodes(b, pos + |piece|, read, writes, rest, values[1..]);
      assert [values[0]] + values[1..] == values;
    }
  }

  lemma {:induction false} ManyRead<T(!new)>(b: seq<byte>, pos: nat, read: nat -> Read<T>, writes: (seq<byte>, T) -> bool, count: nat)
    returns (pieces: seq<seq<byte>>)
    requires Inverts(b, read, writes) && pos <= |b| && Many(read, count, pos).Ok?
    ensures var r := Many(read, count, pos);
      |r.value| == count && WritesAll(pieces, r.value, writes) && pos <= r.next <= |b| && b[pos..r.next] == Joined(pieces)
    decreases count
  {
    if count == 0 {
      pieces := [];
    } else {
      var first := read(pos);
      var rest := ManyRead(b, first.next, read, writes, count - 1);
      pieces := [b[pos..first.next]] + rest;
      assert pieces[1..] == rest;
      Join(b, pos, first.next, Many(read, count, pos).next);
    }
  }

  lemma ListDecodes<T(!new)>(b: seq<byte>, pos: nat, read: nat -> Read<T>, writes: (seq<byte>, T) -> bool, f: ListForm, maximum: nat,
                             values: seq<T>)
    requires Inverts(b, read, writes) && Listed(f, maximum, |values|) && WritesAll(f.pieces, values, writes)
    requires Starts(b, pos, ListBytes(f))
    ensures CountAt(b, pos, maximum).Ok? && CountAt(b, pos, maximum).value == |values|
    ensures Many(read, |values|, CountAt(b, pos, maximum).next) == Ok(values, pos + |ListBytes(f)|)
  {
    hide VarintAt, Number, Many, WritesAll, Inverts, Joined, Starts;
    StartsSplit(b, pos, f.count, Joined(f.pieces));
    NumberDecodes(b, pos, f.count, |values|);
    ManyDecodes(b, pos + |f.count|, read, writes, f.pieces, values);
  }

  lemma ListRead<T(!new)>(b: seq<byte>, pos: nat, read: nat -> Read<T>, writes: (seq<byte>, T) -> bool, maximum: nat)
    returns (f: ListForm)
    requires Inverts(b, read, writes) && CountAt(b, pos, maximum).Ok?
    requires Many(read, CountAt(b, pos, maximum).value, CountAt(b, pos, maximum).next).Ok?
    ensures var r := Many(read, CountAt(b, pos, maximum).value, CountAt(b, pos, maximum).next);
      && Listed(f, maximum, |r.value|) && WritesAll(f.pieces, r.value, writes)
      && pos <= r.next <= |b| && b[pos..r.next] == ListBytes(f)
  {
    hide VarintAt, Number, Many, WritesAll, Inverts, Joined;
    NumberRead(b, pos);
    var count := VarintAt(b, pos);
    var pieces := ManyRead(b, count.next, read, writes, count.value);
    f := ListForm(b[pos..count.next], pieces);
    Join(b, pos, count.next, Many(read, count.value, count.next).next);
    AllLength(pieces, Many(read, count.value, count.next).value, writes);
  }

  /** A section decodes exactly when it is a list, and to the members of the list. */
  lemma SectionExact<T(!new)>(b: seq<byte>, read: nat -> Read<T>, writes: (seq<byte>, T) -> bool, values: seq<T>)
    requires Inverts(b, read, writes)
    ensures Section(b, read) == Ok(values, |b|) <==> WritesList(b, 20_000_000, values, writes)
    ensures Section(b, read).Ok? ==> Section(b, read).next == |b|
  {
    hide CountAt, Listed, Many, WritesAll, Inverts, ListBytes;
    if Section(b, read) == Ok(values, |b|) {
      var f := ListRead(b, 0, read, writes, 20_000_000);
      assert b[0..|b|] == b;
    }
    forall f | Listed(f, 20_000_000, |values|) && WritesAll(f.pieces, values, writes) && b == ListBytes(f)
      ensures Section(b, read) == Ok(values, |b|)
    {
      assert b[0..0 + |ListBytes(f)|] == b;
      ListDecodes(b, 0, read, writes, f, 20_000_000, values);
    }
  }

  lemma AllLength<T>(pieces: seq<seq<byte>>, values: seq<T>, writes: (seq<byte>, T) -> bool)
    requires WritesAll(pieces, values, writes)
    ensures |pieces| == |values|
  {
  }

  // ----- sections -----

  lemma NodesInvert(c: Codec, b: seq<byte>, strings: seq<Text>, o: Text)
    ensures Inverts(b, (p: nat) => NodeAt(c, b, strings, o, p), (s: seq<byte>, n: NodeRecord) => WritesNode(s, c, strings, o, n))
  {
    hide NodeAt, NodeForms, NodeBytes, Starts;
    forall p: nat, s: seq<byte>, n: NodeRecord | WritesNode(s, c, strings, o, n) && Starts(b, p, s)
      ensures NodeAt(c, b, strings, o, p) == Ok(n, p + |s|)
    {
      var f :| NodeForms(f, c, strings, o, n) && s == NodeBytes(f);
      NodeDecodes(c, b, p, f, strings, o, n);
    }
    forall p: nat | NodeAt(c, b, strings, o, p).Ok?
      ensures var r := NodeAt(c, b, strings, o, p); p < r.next <= |b| && WritesNode(b[p..r.next], c, strings, o, r.value)
    {
      var f := NodeRead(c, b, p, strings, o);
    }
  }

  lemma EdgesInvert(b: seq<byte>, strings: seq<Text>, external: seq<Identity>, keys: seq<NodeKey>, o: Text)
    ensures Inverts(b, (p: nat) => EdgeAt(b, strings, external, keys, o, p),
                    (s: seq<byte>, e: EdgeRecord) => WritesEdge(s, strings, external, keys, o, e))
  {
    hide EdgeAt, EdgeForms, EdgeBytes, Starts;
    forall p: nat, s: seq<byte>, e: EdgeRecord | WritesEdge(s, strings, external, keys, o, e) && Starts(b, p, s)
      ensures EdgeAt(b, strings, external, keys, o, p) == Ok(e, p + |s|)
    {
      var f :| EdgeForms(f, strings, external, keys, o, e) && s == EdgeBytes(f);
      EdgeDecodes(b, p, f, strings, external, keys, o, e);
    }
    forall p: nat | EdgeAt(b, strings, external, keys, o, p).Ok?
      ensures var r := EdgeAt(b, strings, external, keys, o, p);
        p < r.next <= |b| && WritesEdge(b[p..r.next], strings, external, keys, o, r.value)
    {
      var f := EdgeRead(b, p, strings, external, keys, o);
    }
  }

  lemma UnresolvedInvert(b: seq<byte>, strings: seq<Text>, external: seq<Identity>, keys: seq<NodeKey>, o: Text)
    ensures Inverts(b, (p: nat) => UnresolvedAt(b, strings, external, keys, o, p),
                    (s: seq<byte>, u: UnresolvedRecord) => WritesUnresolved(s, strings, external, keys, o, u))
  {
    hide UnresolvedAt, UnresolvedForms, UnresolvedBytes, Starts;
    forall p: nat, s: seq<byte>, u: UnresolvedRecord | WritesUnresolved(s, strings, external, keys, o, u) && Starts(b, p, s)
      ensures UnresolvedAt(b, strings, external, keys, o, p) == Ok(u, p + |s|)
    {
      var f :| UnresolvedForms(f, strings, external, keys, o, u) && s == UnresolvedBytes(f);
      UnresolvedDecodes(b, p, f, strings, external, keys, o, u);
    }
    forall p: nat | UnresolvedAt(b, strings, external, keys, o, p).Ok?
      ensures var r := UnresolvedAt(b, strings, external, keys, o, p);
        p < r.next <= |b| && WritesUnresolved(b[p..r.next], strings, external, keys, o, r.value)
    {
      var f := UnresolvedRead(b, p, strings, external, keys, o);
    }
  }

  lemma IdentitiesInvert(c: Codec, b: seq<byte>, strings: seq<Text>)
    ensures Inverts(b, (p: nat) => IdentityAt(c, b, p, strings), (s: seq<byte>, id: Identity) => WritesIdentity(s, c, strings, id))
  {
    hide IdentityAt, IdentityForms, IdentityBytes, Starts;
    forall p: nat, s: seq<byte>, id: Identity | WritesIdentity(s, c, strings, id) && Starts(b, p, s)
      ensures IdentityAt(c, b, p, strings) == Ok(id, p + |s|)
    {
      var f :| IdentityForms(f, c, strings, id) && s == IdentityBytes(f);
      IdentityDecodes(c, b, p, f, strings, id);
    }
    forall p: nat | IdentityAt(c, b, p, strings).Ok?
      ensures var r := IdentityAt(c, b, p, strings); p < r.next <= |b| && WritesIdentity(b[p..r.next], c, strings, r.value)
    {
      var f := IdentityRead(c, b, p, strings);
    }
  }

  /** The node section decodes exactly when it lists nodes, and to these. */
  lemma NodesExact(c: Codec, b: seq<byte>, strings: seq<Text>, o: Text, nodes: seq<NodeRecord>)
    ensures NodesOf(c, b, strings, o) == Ok(nodes, |b|) <==> WritesNodes(b, c, strings, o, nodes)
    ensures NodesOf(c, b, strings, o).Ok? ==> NodesOf(c, b, strings, o).next == |b|
  {
    hide Section, Inverts, WritesNode, WritesList;
    NodesInvert(c, b, strings, o);
    SectionExact(b, (p: nat) => NodeAt(c, b, strings, o, p), (s: seq<byte>, n: NodeRecord) => WritesNode(s, c, strings, o, n), nodes);
  }

  lemma EdgesExact(b: seq<byte>, strings: seq<Text>, external: seq<Identity>, keys: seq<NodeKey>, o: Text, edges: seq<EdgeRecord>)
    ensures EdgesOf(b, strings, external, keys, o) == Ok(edges, |b|) <==> WritesEdges(b, strings, external, keys, o, edges)
    ensures EdgesOf(b, strings, external, keys, o).Ok? ==> EdgesOf(b, strings, external, keys, o).next == |b|
  {
    hide Section, Inverts, WritesEdge, WritesList;
    EdgesInvert(b, strings, external, keys, o);
    SectionExact(b, (p: nat) => EdgeAt(b, strings, external, keys, o, p),
                 (s: seq<byte>, e: EdgeRecord) => WritesEdge(s, strings, external, keys, o, e), edges);
  }

  lemma UnresolvedExact(b: seq<byte>, strings: seq<Text>, external: seq<Identity>, keys: seq<NodeKey>, o: Text,
                        unresolved: seq<UnresolvedRecord>)
    ensures UnresolvedOf(b, strings, external, keys, o) == Ok(unresolved, |b|) <==>
            WritesReferences(b, strings, external, keys, o, unresolved)
    ensures UnresolvedOf(b, strings, external, keys, o).Ok? ==> UnresolvedOf(b, strings, external, keys, o).next == |b|
  {
    hide Section, Inverts, WritesUnresolved, WritesList;
    UnresolvedInvert(b, strings, external, keys, o);
    SectionExact(b, (p: nat) => UnresolvedAt(b, strings, external, keys, o, p),
                 (s: seq<byte>, u: UnresolvedRecord) => WritesUnresolved(s, strings, external, keys, o, u), unresolved);
  }

  // ----- header -----

  lemma MagicStarts(b: seq<byte>, rest: seq<byte>)
    requires Starts(b, 0, MAGIC + rest)
    ensures MagicAt(b) == Ok((), 8) && Starts(b, 8, rest)
  {
    StartsSplit(b, 0, MAGIC, rest);
    assert b[..8] == MAGIC;
  }

  lemma MagicRead(b: seq<byte>)
    requires MagicAt(b).Ok?
    ensures MagicAt(b).next == 8 <= |b| && b[0..8] == MAGIC
  {
  }

  lemma StringsExact(c: Codec, b: seq<byte>, pos: nat, strings: seq<Text>, next: nat)
    requires pos <= |b|
    ensures StringTableAt(c, b, pos) == Ok(strings, next) <==> pos <= next <= |b| && WritesStrings(b[pos..next], c, strings)
  {
    hide StringTableAt, WritesTable;
    TableExact(c, b, pos, strings, next);
  }

  function HeaderOf(strings: seq<Text>, o: FactObject): Header {
    Header(o.version, o.schemaVersion, strings, o.language, Plain(o.owner), o.sourceContentId, o.adapterVersion, o.analysisConfigId)
  }

  lemma HeaderSteps(c: Codec, b: seq<byte>, h: Header, p0: nat, p1: nat, p2: nat, p3: nat, p4: nat, p5: nat, p6: nat, p7: nat, p8: nat)
    requires MagicAt(b) == Ok((), p0) && CoordinateAt(b, p0) == Ok(h.version, p1) && CoordinateAt(b, p1) == Ok(h.schemaVersion, p2)
    requires StringTableAt(c, b, p2) == Ok(h.strings, p3) && StringRefAt(b, p3, h.strings) == Ok(h.language, p4)
    requires StringRefAt(b, p4, h.strings) == Ok(h.objectOwner, p5)
    requires OptionalIdentityAt(c, b, p5, h.strings) == Ok(h.sourceContentId, p6)
    requires StringRefAt(b, p6, h.strings) == Ok(h.adapterVersion, p7) && IdentityAt(c, b, p7, h.strings) == Ok(h.analysisConfigId, p8)
    ensures HeaderAt(c, b) == Ok(h, p8)
  {
    hide MagicAt, CoordinateAt, StringTableAt, StringRefAt, OptionalIdentityAt, IdentityAt;
  }

  /** The bytes of the header behind the string table. */
  function HeaderTailBytes(f: ObjectForm): seq<byte> {
    f.language + (f.owner + (IdentityBytes(f.contentId) + (f.adapterVersion + IdentityBytes(f.config))))
  }

  lemma HeaderSplits(f: ObjectForm)
    ensures HeaderBytes(f) == MAGIC + (f.version + (f.schemaVersion + (f.table + HeaderTailBytes(f))))
    ensures |HeaderBytes(f)| == 8 + |f.version| + |f.schemaVersion| + |f.table| + |f.language| + |f.owner|
                                + |IdentityBytes(f.contentId)| + |f.adapterVersion| + |IdentityBytes(f.config)|
  {
    hide IdentityBytes;
  }

  lemma HeaderHeadDecodes(c: Codec, b: seq<byte>, f: ObjectForm, strings: seq<Text>, o: FactObject)
    requires HeaderForms(f, c, strings, o) && Starts(b, 0, HeaderBytes(f))
    ensures var p1 := 8 + |f.version|;
      var p2 := p1 + |f.schemaVersion|;
      var p3 := p2 + |f.table|;
      && MagicAt(b) == Ok((), 8) && CoordinateAt(b, 8) == Ok(o.version, p1) && CoordinateAt(b, p1) == Ok(o.schemaVersion, p2)
      && StringTableAt(c, b, p2) == Ok(strings, p3) && Starts(b, p3, HeaderTailBytes(f))
  {
    hide MagicAt, CoordinateAt, StringTableAt, Starts, Number, WritesStrings, Points, OptionalIdentityForms, IdentityForms, Plain;
    hide HeaderTailBytes, MAGIC;
    HeaderSplits(f);
    hide HeaderBytes;
    var t2 := f.table + HeaderTailBytes(f);
    var t1 := f.schemaVersion + t2;
    MagicStarts(b, f.version + t1);
    NextCoordinate(b, 8, f.version, o.version, t1);
    var p1 := 8 + |f.version|;
    NextCoordinate(b, p1, f.schemaVersion, o.schemaVersion, t2);
    var p2 := p1 + |f.schemaVersion|;
    StartsSplit(b, p2, f.table, HeaderTailBytes(f));
    TableStarts(c, b, p2, f.table, strings);
  }

  lemma TableStarts(c: Codec, b: seq<byte>, pos: nat, table: seq<byte>, strings: seq<Text>)
    requires Starts(b, pos, table) && WritesStrings(table, c, strings)
    ensures StringTableAt(c, b, pos) == Ok(strings, pos + |table|)
  {
    hide StringTableAt, WritesStrings;
    StringsExact(c, b, pos, strings, pos + |table|);
  }

  lemma HeaderTailDecodes(c: Codec, b: seq<byte>, p3: nat, f: ObjectForm, strings: seq<Text>, o: FactObject)
    requires HeaderForms(f, c, strings, o) && Starts(b, p3, HeaderTailBytes(f))
    ensures var p4 := p3 + |f.language|;
      var p5 := p4 + |f.owner|;
      var p6 := p5 + |IdentityBytes(f.contentId)|;
      var p7 := p6 + |f.adapterVersion|;
      && StringRefAt(b, p3, strings) == Ok(o.language, p4) && StringRefAt(b, p4, strings) == Ok(Plain(o.owner), p5)
      && OptionalIdentityAt(c, b, p5, strings) == Ok(o.sourceContentId, p6)
      && StringRefAt(b, p6, strings) == Ok(o.adapterVersion, p7)
      && IdentityAt(c, b, p7, strings) == Ok(o.analysisConfigId, p7 + |IdentityBytes(f.config)|)
  {
    hide StringRefAt, OptionalIdentityAt, IdentityAt, Starts, Number, WritesStrings, Points, OptionalIdentityForms, IdentityForms, Plain;
    hide IdentityBytes;
    var t6 := f.adapterVersion + IdentityBytes(f.config);
    var t5 := IdentityBytes(f.contentId) + t6;
    var t4 := f.owner + t5;
    StartsSplit(b, p3, f.language, t4);
    PointsDecodes(b, p3, f.language, strings, o.language);
    var p4 := p3 + |f.language|;
    StartsSplit(b, p4, f.owner, t5);
    PointsDecodes(b, p4, f.owner, strings, Plain(o.owner));
    var p5 := p4 + |f.owner|;
    StartsSplit(b, p5, IdentityBytes(f.contentId), t6);
    OptionalIdentityDecodes(c, b, p5, f.contentId, strings, o.sourceContentId);
    var p6 := p5 + |IdentityBytes(f.contentId)|;
    StartsSplit(b, p6, f.adapterVersion, IdentityBytes(f.config));
    PointsDecodes(b, p6, f.adapterVersion, strings, o.adapterVersion);
    IdentityDecodes(c, b, p6 + |f.adapterVersion|, f.config, strings, o.analysisConfigId);
  }

  lemma HeaderDecodes(c: Codec, b: seq<byte>, f: ObjectForm, strings: seq<Text>, o: FactObject)
    requires HeaderForms(f, c, strings, o) && Starts(b, 0, HeaderBytes(f))
    ensures HeaderAt(c, b) == Ok(HeaderOf(strings, o), |HeaderBytes(f)|)
  {
    hide StringRefAt, OptionalIdentityAt, IdentityAt, Starts, HeaderForms, Plain, MagicAt, CoordinateAt, StringTableAt, HeaderAt;
    hide IdentityBytes, HeaderTailBytes;
    HeaderSplits(f);
    hide HeaderBytes;
    HeaderHeadDecodes(c, b, f, strings, o);
    var p1 := 8 + |f.version|;
    var p2 := p1 + |f.schemaVersion|;
    var p3 := p2 + |f.table|;
    HeaderTailDecodes(c, b, p3, f, strings, o);
    var p4 := p3 + |f.language|;
    var p5 := p4 + |f.owner|;
    var p6 := p5 + |IdentityBytes(f.contentId)|;
    var p7 := p6 + |f.adapterVersion|;
    HeaderSteps(c, b, HeaderOf(strings, o), 8, p1, p2, p3, p4, p5, p6, p7, p7 + |IdentityBytes(f.config)|);
  }

  lemma HeaderRead(c: Codec, b: seq<byte>, o: FactObject, external: seq<byte>, nodes: BlockForm, edges: BlockForm, unresolved: BlockForm)
    returns (f: ObjectForm)
    requires HeaderAt(c, b).Ok?
    requires Proper(o.owner) && HeaderAt(c, b).value == HeaderOf(HeaderAt(c, b).value.strings, o)
    ensures HeaderForms(f, c, HeaderAt(c, b).value.strings, o)
    ensures HeaderAt(c, b).next <= |b| && b[0..HeaderAt(c, b).next] == HeaderBytes(f)
    ensures f.external == external && f.nodes == nodes && f.edges == edges && f.unresolved == unresolved
  {
    hide StringRefAt, OptionalIdentityAt, IdentityAt, Plain, MagicAt, CoordinateAt, StringTableAt, Proper;
    hide IdentityBytes, Number, WritesStrings, Points, OptionalIdentityForms, IdentityForms, MAGIC;
    MagicRead(b);
    CoordinateRead(b, 8);
    var p1 := CoordinateAt(b, 8).next;
    CoordinateRead(b, p1);
    var p2 := CoordinateAt(b, p1).next;
    var table := StringTableAt(c, b, p2);
    StringsExact(c, b, p2, table.value, table.next);
    var strings, p3 := table.value, table.next;
    PointsRead(b, p3, strings);
    var p4 := StringRefAt(b, p3, strings).next;
    PointsRead(b, p4, strings);
    var p5 := StringRefAt(b, p4, strings).next;
    var contentId := OptionalIdentityRead(c, b, p5, strings);
    var p6 := OptionalIdentityAt(c, b, p5, strings).next;
    PointsRead(b, p6, strings);
    var p7 := StringRefAt(b, p6, strings).next;
    var config := IdentityRead(c, b, p7, strings);
    var p8 := IdentityAt(c, b, p7, strings).next;
    f := ObjectForm(b[8..p1], b[p1..p2], b[p2..p3], b[p3..p4], b[p4..p5], contentId, b[p6..p7], config, external, nodes, edges, unresolved);
    Join(b, p6, p7, p8);
    Join(b, p5, p6, p8);
    Join(b, p4, p5, p8);
    Join(b, p3, p4, p8);
    Join(b, p2, p3, p8);
    Join(b, p1, p2, p8);
    Join(b, 8, p1, p8);
    Join(b, 0, 8, p8);
    HeaderSplits(f);
  }

  // ----- objects -----

  lemma ExternalDecodes(c: Codec, b: seq<byte>, pos: nat, s: seq<byte>, strings: seq<Text>, external: seq<Identity>)
    requires WritesIdentities(s, c, strings, external) && Starts(b, pos, s)
    ensures ExternalAt(c, b, pos, strings, true) == Ok(external, pos + |s|)
  {
    hide CountAt, Many, Inverts, Starts, Listed, WritesAll, WritesIdentity, IdentityAt, ListBytes;
    var writes := (p: seq<byte>, id: Identity) => WritesIdentity(p, c, strings, id);
    var f :| Listed(f, 4_000_000, |external|) && WritesAll(f.pieces, external, writes) && s == ListBytes(f);
    IdentitiesInvert(c, b, strings);
    ListDecodes(b, pos, (p: nat) => IdentityAt(c, b, p, strings), writes, f, 4_000_000, external);
  }

  lemma ExternalRead(c: Codec, b: seq<byte>, pos: nat, strings: seq<Text>)
    requires ExternalAt(c, b, pos, strings, true).Ok?
    ensures var r := ExternalAt(c, b, pos, strings, true);
      pos <= r.next <= |b| && WritesIdentities(b[pos..r.next], c, strings, r.value)
  {
    hide CountAt, Many, Inverts, Listed, WritesAll, WritesIdentity, IdentityAt, ListBytes;
    IdentitiesInvert(c, b, strings);
    var f := ListRead(b, pos, (p: nat) => IdentityAt(c, b, p, strings), (p: seq<byte>, id: Identity) => WritesIdentity(p, c, strings, id),
                      4_000_000);
  }

  lemma SectionsDecode(b: seq<byte>, pos: nat, nodes: BlockForm, edges: BlockForm, unresolved: BlockForm)
    requires BlockForms(nodes, 536_870_912, nodes.bytes) && BlockForms(edges, 536_870_912, edges.bytes)
    requires BlockForms(unresolved, 536_870_912, unresolved.bytes)
    requires Starts(b, pos, BlockBytes(nodes) + (BlockBytes(edges) + BlockBytes(unresolved)))
    requires |b| == pos + |BlockBytes(nodes)| + |BlockBytes(edges)| + |BlockBytes(unresolved)|
    ensures SectionsAt(b, pos) == Ok((nodes.bytes, edges.bytes, unresolved.bytes), |b|)
  {
    hide BytesAt, BlockForms, BlockBytes, Starts;
    StartsSplit(b, pos, BlockBytes(nodes), BlockBytes(edges) + BlockBytes(unresolved));
    BlockDecodes(b, pos, nodes, 536_870_912);
    var p1 := pos + |BlockBytes(nodes)|;
    StartsSplit(b, p1, BlockBytes(edges), BlockBytes(unresolved));
    BlockDecodes(b, p1, edges, 536_870_912);
    BlockDecodes(b, p1 + |BlockBytes(edges)|, unresolved, 536_870_912);
  }

  lemma SectionsRead(b: seq<byte>, pos: nat) returns (nodes: BlockForm, edges: BlockForm, unresolved: BlockForm)
    requires SectionsAt(b, pos).Ok?
    ensures SectionsAt(b, pos) == Ok((nodes.bytes, edges.bytes, unresolved.bytes), |b|) && pos <= |b|
    ensures BlockForms(nodes, 536_870_912, nodes.bytes) && BlockForms(edges, 536_870_912, edges.bytes)
    ensures BlockForms(unresolved, 536_870_912, unresolved.bytes)
    ensures b[pos..] == BlockBytes(nodes) + (BlockBytes(edges) + BlockBytes(unresolved))
  {
    hide BytesAt, BlockBytes;
    nodes := BlockRead(b, pos, 536_870_912);
    var p1 := BytesAt(b, pos, 536_870_912).next;
    edges := BlockRead(b, p1, 536_870_912);
    var p2 := BytesAt(b, p1, 536_870_912).next;
    unresolved := BlockRead(b, p2, 536_870_912);
    Join(b, p1, p2, |b|);
    Join(b, pos, p1, |b|);
    assert b[pos..|b|] == b[pos..];
  }

  lemma ObjectSplits(b: seq<byte>, f: ObjectForm)
    requires b == ObjectBytes(f)
    ensures var p1 := |HeaderBytes(f)|;
      var p2 := p1 + |f.external|;
      && Starts(b, 0, HeaderBytes(f)) && Starts(b, p1, f.external)
      && Starts(b, p2, BlockBytes(f.nodes) + (BlockBytes(f.edges) + BlockBytes(f.unresolved)))
      && |b| == p2 + |BlockBytes(f.nodes)| + |BlockBytes(f.edges)| + |BlockBytes(f.unresolved)|
  {
    hide HeaderBytes, BlockBytes;
    var t2 := BlockBytes(f.nodes) + (BlockBytes(f.edges) + BlockBytes(f.unresolved));
    assert b == HeaderBytes(f) + (f.external + t2);
    assert b[0..0 + |HeaderBytes(f) + (f.external + t2)|] == b;
    StartsSplit(b, 0, HeaderBytes(f), f.external + t2);
    StartsSplit(b, |HeaderBytes(f)|, f.external, t2);
  }

  /** What an envelope is read from. */
  lemma EnvelopeSteps(c: Codec, b: seq<byte>, h: Holding, o: FactObject, nodes: seq<byte>, edges: seq<byte>, unresolved: seq<byte>,
                      p1: nat, p2: nat, counts: RecordCounts)
    requires HeaderAt(c, b) == Ok(HeaderOf(h.strings, o), p1) && ExternalAt(c, b, p1, h.strings, true) == Ok(h.external, p2)
    requires SectionsAt(b, p2) == Ok((nodes, edges, unresolved), |b|)
    requires CountsOf(nodes, edges, unresolved).Ok? && CountsOf(nodes, edges, unresolved).value == counts
    ensures EnvelopeOf(c, b, true) == Ok(EnvelopeFrom(h, o, nodes, edges, unresolved, counts), |b|)
  {
    hide HeaderAt, ExternalAt, SectionsAt, CountsOf, Plain;
  }

  function EnvelopeFrom(h: Holding, o: FactObject, nodes: seq<byte>, edges: seq<byte>, unresolved: seq<byte>, counts: RecordCounts): Envelope {
    Envelope(o.version, o.schemaVersion, h.strings, o.language, Plain(o.owner), o.sourceContentId, o.adapterVersion, o.analysisConfigId,
             h.external, nodes, edges, unresolved, counts)
  }

  lemma CountsKnown(c: Codec, h: Holding, o: Text, keys: seq<NodeKey>, nodes: seq<byte>, edges: seq<byte>, unresolved: seq<byte>)
    requires NodesOf(c, nodes, h.strings, o) == Ok(h.nodes, |nodes|)
    requires EdgesOf(edges, h.strings, h.external, keys, o) == Ok(h.edges, |edges|)
    requires UnresolvedOf(unresolved, h.strings, h.external, keys, o) == Ok(h.unresolved, |unresolved|)
    ensures CountsOf(nodes, edges, unresolved).Ok?
    ensures CountsOf(nodes, edges, unresolved).value == RecordCounts(|h.nodes|, |h.edges|, |h.unresolved|)
  {
    SectionLength(nodes, (p: nat) => NodeAt(c, nodes, h.strings, o, p));
    SectionLength(edges, (p: nat) => EdgeAt(edges, h.strings, h.external, keys, o, p));
    SectionLength(unresolved, (p: nat) => UnresolvedAt(unresolved, h.strings, h.external, keys, o, p));
    hide CountAt, Section;
  }

  lemma KeysAre(c: Codec, nodes: seq<NodeRecord>)
    ensures KeysOf(c, nodes) == NodeKeys(c, nodes)
  {
  }

  lemma RecordsAre(h: Holding, records: seq<FactRecord>)
    ensures InOrder(h, records) <==> records == NodeRecords(h.nodes) + RelationRecords(h.edges, h.unresolved)
  {
    var all := NodeRecords(h.nodes) + RelationRecords(h.edges, h.unresolved);
    assert InOrder(h, all);
    if InOrder(h, records) {
      forall i | 0 <= i < |records| ensures records[i] == all[i] {
        var n, m := |h.nodes|, |h.edges|;
        if n <= i < n + m { assert records[n + (i - n)] == all[n + (i - n)]; }
        if n + m <= i { assert records[n + m + (i - n - m)] == all[n + m + (i - n - m)]; }
      }
      assert records == all;
    }
  }

  lemma ObjectDecodes(c: Codec, b: seq<byte>, f: ObjectForm, h: Holding, o: FactObject)
    requires ObjectForms(f, c, h, o) && b == ObjectBytes(f)
    ensures ParseObject(c, b, All) == Ok((o, RecordCounts(|h.nodes|, |h.edges|, |h.unresolved|)), |b|)
  {
    hide HeaderForms, HeaderAt, ExternalAt, SectionsAt, CountsOf, EnvelopeOf, NodesOf, EdgesOf, UnresolvedOf, WritesIdentities, WritesNodes;
    hide WritesEdges, WritesReferences, BlockForms, BlockBytes, Starts, ObjectBytes, HeaderBytes, InOrder, NodeRecords, RelationRecords;
    hide KeysOf, NodeKeys;
    ObjectSplits(b, f);
    HeaderDecodes(c, b, f, h.strings, o);
    var p1 := |HeaderBytes(f)|;
    ExternalDecodes(c, b, p1, f.external, h.strings, h.external);
    SectionsDecode(b, p1 + |f.external|, f.nodes, f.edges, f.unresolved);
    var owner, keys := Plain(o.owner), NodeKeys(c, h.nodes);
    KeysAre(c, h.nodes);
    NodesExact(c, f.nodes.bytes, h.strings, owner, h.nodes);
    EdgesExact(f.edges.bytes, h.strings, h.external, keys, owner, h.edges);
    UnresolvedExact(f.unresolved.bytes, h.strings, h.external, keys, owner, h.unresolved);
    CountsKnown(c, h, owner, keys, f.nodes.bytes, f.edges.bytes, f.unresolved.bytes);
    EnvelopeSteps(c, b, h, o, f.nodes.bytes, f.edges.bytes, f.unresolved.bytes, p1, p1 + |f.external|,
                  RecordCounts(|h.nodes|, |h.edges|, |h.unresolved|));
    RecordsAre(h, o.records);
    assert HeaderForms(f, c, h.strings, o);
    assert Proper(o.owner) by { OwnerProper(f, c, h.strings, o); }
    OwnerStands(o.owner);
  }

  lemma OwnerProper(f: ObjectForm, c: Codec, strings: seq<Text>, o: FactObject)
    requires HeaderForms(f, c, strings, o)
    ensures Proper(o.owner)
  {
  }

  lemma ObjectRead(c: Codec, b: seq<byte>) returns (f: ObjectForm, h: Holding)
    requires ParseObject(c, b, All).Ok?
    ensures ObjectForms(f, c, h, ParseObject(c, b, All).value.0) && b == ObjectBytes(f)
  {
    hide HeaderAt, ExternalAt, SectionsAt, CountsOf, NodesOf, EdgesOf, UnresolvedOf, WritesIdentities, WritesNodes, Plain, Optional, Proper;
    hide WritesEdges, WritesReferences, BlockForms, BlockBytes, HeaderBytes, InOrder, NodeRecords, RelationRecords, KeysOf, NodeKeys;
    hide HeaderForms;
    var header := HeaderAt(c, b);
    var strings, owner := header.value.strings, header.value.objectOwner;
    var external := ExternalAt(c, b, header.next, strings, true);
    ExternalRead(c, b, header.next, strings);
    var n, e, u := SectionsRead(b, external.next);
    var nodes := NodesOf(c, n.bytes, strings, owner).value;
    var keys := NodeKeys(c, nodes);
    KeysAre(c, nodes);
    NodesExact(c, n.bytes, strings, owner, nodes);
    var edges, unresolved := EdgesOf(e.bytes, strings, external.value, keys, owner).value,
                             UnresolvedOf(u.bytes, strings, external.value, keys, owner).value;
    EdgesExact(e.bytes, strings, external.value, keys, owner, edges);
    UnresolvedExact(u.bytes, strings, external.value, keys, owner, unresolved);
    h := Holding(strings, external.value, nodes, edges, unresolved);
    var o := ParseObject(c, b, All).value.0;
    RecordsAre(h, o.records);
    OptionalProper(owner);
    f := HeaderRead(c, b, o, b[header.next..external.next], n, e, u);
    Join(b, header.next, external.next, |b|);
    Join(b, 0, header.next, |b|);
    assert b[0..|b|] == b && b[external.next..|b|] == b[external.next..];
  }

  /**
   The decoder accepts exactly the bytes of an object, and yields that object: every field of every node, edge and
   unresolved reference, in whichever of its forms it is written.
   */
  lemma ObjectExact(c: Codec, b: seq<byte>, o: FactObject)
    ensures ParseObject(c, b, All).Ok? && ParseObject(c, b, All).value.0 == o <==> WritesObject(b, c, o)
  {
    hide ParseObject, ObjectForms, ObjectBytes;
    if ParseObject(c, b, All).Ok? && ParseObject(c, b, All).value.0 == o {
      var f, h := ObjectRead(c, b);
    }
    forall f, h | ObjectForms(f, c, h, o) && b == ObjectBytes(f)
      ensures ParseObject(c, b, All).Ok? && ParseObject(c, b, All).value.0 == o
    {
      ObjectDecodes(c, b, f, h, o);
    }
  }
}
