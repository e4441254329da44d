/**
 arcana/src/lexicon/stream_compact_node.rs: the byte string hashed as the signature of a node record.

 Two staged definitions of a node are taken as equal when their signatures are, so the bytes fed to the
 hash must determine every field but the identity itself.
 */
module NodeSignature {
  import opened Wrappers
  import opened Lexicon

  /** The ASCII text "arcana.lexicon.node-signature.v1". */
  const SIGNATURE_DOMAIN: seq<byte> :=
    [97, 114, 99, 97, 110, 97, 46, 108, 101, 120, 105, 99, 111, 110, 46, 110, 111, 100, 101, 45, 115, 105, 103, 110, 97, 116,
     117, 114, 101, 46, 118, 49]

  // ----- the preimage -----

  /** `to_le_bytes` of a number of the given width. */
  function LittleEndian(n: nat, width: nat): (r: seq<byte>)
    ensures |r| == width
  {
    if width == 0 then [] else [n % 256] + LittleEndian(n / 256, width - 1)
  }

  function Framed(value: seq<byte>): seq<byte> {
    LittleEndian(|value|, 8) + value
  }

  function Bytes(tag: byte, value: seq<byte>): seq<byte> {
    [tag] + Framed(value)
  }

  function OptionalBytes(tag: byte, value: Option<seq<byte>>): seq<byte> {
    [tag] + match value
            case None => [0]
            case Some(bytes) => [1] + Framed(bytes)
  }

  function OptionalIdentity(tag: byte, value: Option<Identity>): seq<byte> {
    [tag] + match value
            case None => [0]
            case Some(digest) => [1] + digest
  }

  function Span(tag: byte, value: Option<SpanRecord>): seq<byte> {
    [tag] + match value
            case None => [0]
            case Some(span) =>
              [1] + (Framed(span.path) + Numbers([span.startLine, span.startColumn, span.endLine, span.endColumn]))
  }

  function Numbers(numbers: seq<u64>): seq<byte> {
    if numbers == [] then []
    else Numbers(numbers[..|numbers| - 1]) + LittleEndian(numbers[|numbers| - 1], 8)
  }

  function Preimage(record: NodeRecord): seq<byte> {
    SIGNATURE_DOMAIN
    + OptionalBytes(1, record.attributes)
    + OptionalIdentity(2, record.contentId)
    + Bytes(3, record.kind)
    + Bytes(4, record.name)
    + OptionalBytes(5, record.owner)
    + Bytes(6, record.path)
    + Bytes(7, record.qualifiedName)
    + Span(8, record.span)
  }

  // ----- feeding the hasher -----

  /** A streaming hash, reduced to the bytes it has been fed. */
  class Hasher {
    var fed: seq<byte>

    constructor ()
      ensures fed == []
    {
      fed := [];
    }

    method Update(bytes: seq<byte>)
      modifies this
      ensures fed == old(fed) + bytes
    {
      fed := fed + bytes;
    }

    method WriteBytes(value: seq<byte>)
      requires |value| < 0x1_0000_0000_0000_0000
      modifies this
      ensures fed == old(fed) + Framed(value)
    {
      Update(LittleEndian(|value|, 8));
      Update(value);
    }

    method FeedBytes(tag: byte, value: seq<byte>)
      requires |value| < 0x1_0000_0000_0000_0000
      modifies this
      ensures fed == old(fed) + Bytes(tag, value)
    {
      Update([tag]);
      WriteBytes(value);
    }

    method FeedOptionalBytes(tag: byte, value: Option<seq<byte>>)
      requires value.Some? ==> |value.value| < 0x1_0000_0000_0000_0000
      modifies this
      ensures fed == old(fed) + OptionalBytes(tag, value)
    {
      Update([tag]);
      match value
      case None => Update([0]);
      case Some(bytes) =>
        Update([1]);
        WriteBytes(bytes);
    }

    method FeedOptionalIdentity(tag: byte, value: Option<Identity>)
      modifies this
      ensures fed == old(fed) + OptionalIdentity(tag, value)
    {
      Update([tag]);
      match value
      case None => Update([0]);
      case Some(digest) =>
        Update([1]);
        Update(digest);
    }

    method FeedSpan(tag: byte, value: Option<SpanRecord>)
      requires value.Some? ==> |value.value.path| < 0x1_0000_0000_0000_0000
      modifies this
      ensures fed == old(fed) + Span(tag, value)
    {
      Update([tag]);
      if value.None? {
        Update([0]);
        return;
      }
      hide LittleEndian, Framed, Numbers;
      Update([1]);
      WriteBytes(value.value.path);
      FeedNumbers([value.value.startLine, value.value.startColumn, value.value.endLine, value.value.endColumn]);
    }

    /** The loop over the four coordinates of a span. */
    method FeedNumbers(numbers: seq<u64>)
      modifies this
      ensures fed == old(fed) + Numbers(numbers)
    {
      hide LittleEndian;
      var k := 0;
      while k < |numbers|
        invariant 0 <= k <= |numbers| && fed == old(fed) + Numbers(numbers[..k])
      {
        assert numbers[..k + 1][..k] == numbers[..k];
        Update(LittleEndian(numbers[k], 8));
        k := k + 1;
      }
      assert numbers[..k] == numbers;
    }
  }

  /** Every string of a record is shorter than 2^64 bytes, as the conversion of its length expects. */
  predicate Addressable(record: NodeRecord) {
    && (record.attributes.Some? ==> |record.attributes.value| < 0x1_0000_0000_0000_0000)
    && |record.kind| < 0x1_0000_0000_0000_0000
    && |record.name| < 0x1_0000_0000_0000_0000
    && (record.owner.Some? ==> |record.owner.value| < 0x1_0000_0000_0000_0000)
    && |record.path| < 0x1_0000_0000_0000_0000
    && |record.qualifiedName| < 0x1_0000_0000_0000_0000
    && (record.span.Some? ==> |record.span.value.path| < 0x1_0000_0000_0000_0000)
  }

  /** `signature_digest`, up to the final compression. */
  method FeedSignature(record: NodeRecord) returns (hasher: Hasher)
    requires Addressable(record)
    ensures fresh(hasher) && hasher.fed == Preimage(record)
  {
    hide OptionalBytes, OptionalIdentity, Bytes, Span;
    hasher := new Hasher();
    hasher.Update(SIGNATURE_DOMAIN);
    hasher.FeedOptionalBytes(1, record.attributes);
    hasher.FeedOptionalIdentity(2, record.contentId);
    hasher.FeedBytes(3, record.kind);
    hasher.FeedBytes(4, record.name);
    hasher.FeedOptionalBytes(5, record.owner);
    hasher.FeedBytes(6, record.path);
    hasher.FeedBytes(7, record.qualifiedName);
    hasher.FeedSpan(8, record.span);
  }

  // ----- injectivity -----

  lemma Split(a: seq<byte>, b: seq<byte>, x: seq<byte>, y: seq<byte>)
    requires a + x == b + y && |a| == |b|
    ensures a == b && x == y
  {
    assert a == (a + x)[..|a|] && b == (b + y)[..|b|];
    assert x == (a + x)[|a|..] && y == (b + y)[|b|..];
  }

  lemma {:induction false} LittleEndianInjective(m: nat, n: nat, width: nat)
    requires LittleEndian(m, width) == LittleEndian(n, width)
    requires m < Power256(width) && n < Power256(width)
    ensures m == n
  {
    if width > 0 {
      Split([m % 256], [n % 256], LittleEndian(m / 256, width - 1), LittleEndian(n / 256, width - 1));
      LittleEndianInjective(m / 256, n / 256, width - 1);
    }
  }

  function Power256(width: nat): nat {
    if width == 0 then 1 else 256 * Power256(width - 1)
  }

  lemma Width8(m: nat, n: nat)
    requires LittleEndian(m, 8) == LittleEndian(n, 8)
    requires m < 0x1_0000_0000_0000_0000 && n < 0x1_0000_0000_0000_0000
    ensures m == n
  {
    assert Power256(8) == 256 * (256 * (256 * (256 * Power256(4))));
    assert Power256(4) == 256 * (256 * (256 * 256));
    LittleEndianInjective(m, n, 8);
  }

  /** A framed field can be cut off the front of what follows in only one way. */
  lemma FramedCut(a: seq<byte>, b: seq<byte>, x: seq<byte>, y: seq<byte>)
    requires |a| < 0x1_0000_0000_0000_0000 && |b| < 0x1_0000_0000_0000_0000
    requires Framed(a) + x == Framed(b) + y
    ensures a == b && x == y
  {
    assert LittleEndian(|a|, 8) + (a + x) == Framed(a) + x;
    assert LittleEndian(|b|, 8) + (b + y) == Framed(b) + y;
    Split(LittleEndian(|a|, 8), LittleEndian(|b|, 8), a + x, b + y);
    Width8(|a|, |b|);
    Split(a, b, x, y);
  }

  lemma BytesCut(tag: byte, a: seq<byte>, b: seq<byte>, x: seq<byte>, y: seq<byte>)
    requires |a| < 0x1_0000_0000_0000_0000 && |b| < 0x1_0000_0000_0000_0000
    requires Bytes(tag, a) + x == Bytes(tag, b) + y
    ensures a == b && x == y
  {
    assert Bytes(tag, a) + x == [tag] + (Framed(a) + x);
    assert Bytes(tag, b) + y == [tag] + (Framed(b) + y);
    Split([tag], [tag], Framed(a) + x, Framed(b) + y);
    FramedCut(a, b, x, y);
  }

  lemma OptionalBytesCut(tag: byte, a: Option<seq<byte>>, b: Option<seq<byte>>, x: seq<byte>, y: seq<byte>)
    requires a.Some? ==> |a.value| < 0x1_0000_0000_0000_0000
    requires b.Some? ==> |b.value| < 0x1_0000_0000_0000_0000
    requires OptionalBytes(tag, a) + x == OptionalBytes(tag, b) + y
    ensures a == b && x == y
  {
    assert (OptionalBytes(tag, a) + x)[1] == if a.None? then 0 else 1;
    assert (OptionalBytes(tag, b) + y)[1] == if b.None? then 0 else 1;
    if a.None? {
      assert OptionalBytes(tag, a) == OptionalBytes(tag, b) == [tag, 0];
      Split([tag, 0], [tag, 0], x, y);
    } else {
      assert OptionalBytes(tag, a) + x == [tag, 1] + (Framed(a.value) + x);
      assert OptionalBytes(tag, b) + y == [tag, 1] + (Framed(b.value) + y);
      Split([tag, 1], [tag, 1], Framed(a.value) + x, Framed(b.value) + y);
      FramedCut(a.value, b.value, x, y);
    }
  }

  lemma OptionalIdentityCut(tag: byte, a: Option<Identity>, b: Option<Identity>, x: seq<byte>, y: seq<byte>)
    requires OptionalIdentity(tag, a) + x == OptionalIdentity(tag, b) + y
    ensures a == b && x == y
  {
    assert (OptionalIdentity(tag, a) + x)[1] == if a.None? then 0 else 1;
    assert (OptionalIdentity(tag, b) + y)[1] == if b.None? then 0 else 1;
    if a.None? {
      assert OptionalIdentity(tag, a) == OptionalIdentity(tag, b) == [tag, 0];
      Split([tag, 0], [tag, 0], x, y);
    } else {
      assert OptionalIdentity(tag, a) == [tag, 1] + a.value && OptionalIdentity(tag, b) == [tag, 1] + b.value;
      Split([tag, 1] + a.value, [tag, 1] + b.value, x, y);
      Split([tag, 1], [tag, 1], a.value, b.value);
    }
  }

  lemma {:induction false} NumbersInjective(a: seq<u64>, b: seq<u64>)
    requires |a| == |b| && Numbers(a) == Numbers(b)
    ensures a == b
  {
    hide LittleEndian;
    if a != [] {
      var m, n := a[..|a| - 1], b[..|b| - 1];
      NumbersLength(m);
      NumbersLength(n);
      Split(Numbers(m), Numbers(n), LittleEndian(a[|m|], 8), LittleEndian(b[|n|], 8));
      NumbersInjective(m, n);
      Width8(a[|m|], b[|n|]);
      assert a == m + [a[|m|]] && b == n + [b[|n|]];
    }
  }

  lemma {:induction false} NumbersLength(a: seq<u64>)
    ensures |Numbers(a)| == 8 * |a|
  {
    if a != [] { NumbersLength(a[..|a| - 1]); }
  }

  lemma SpanInjective(tag: byte, a: Option<SpanRecord>, b: Option<SpanRecord>)
    requires a.Some? ==> |a.value.path| < 0x1_0000_0000_0000_0000
    requires b.Some? ==> |b.value.path| < 0x1_0000_0000_0000_0000
    requires Span(tag, a) == Span(tag, b)
    ensures a == b
  {
    hide Framed, Numbers;
    assert Span(tag, a)[1] == if a.None? then 0 else 1;
    assert Span(tag, b)[1] == if b.None? then 0 else 1;
    if a.Some? {
      var s, t := a.value, b.value;
      var m, n := [s.startLine, s.startColumn, s.endLine, s.endColumn], [t.startLine, t.startColumn, t.endLine, t.endColumn];
      assert Span(tag, a) == [tag, 1] + (Framed(s.path) + Numbers(m));
      assert Span(tag, b) == [tag, 1] + (Framed(t.path) + Numbers(n));
      Split([tag, 1], [tag, 1], Framed(s.path) + Numbers(m), Framed(t.path) + Numbers(n));
      FramedCut(s.path, t.path, Numbers(m), Numbers(n));
      NumbersInjective(m, n);
      assert m[0] == n[0] && m[1] == n[1] && m[2] == n[2] && m[3] == n[3];
    }
  }

  /** The suffixes of the preimage after each field. */
  ghost function Tail(record: NodeRecord, field: nat): seq<byte>
    decreases 8 - field
  {
    if field >= 8 then []
    else if field == 7 then Span(8, record.span)
    else (match field
          case 0 => OptionalBytes(1, record.attributes)
          case 1 => OptionalIdentity(2, record.contentId)
          case 2 => Bytes(3, record.kind)
          case 3 => Bytes(4, record.name)
          case 4 => OptionalBytes(5, record.owner)
          case 5 => Bytes(6, record.path)
          case _ => Bytes(7, record.qualifiedName)) + Tail(record, field + 1)
  }

  lemma Regroup(a: seq<byte>, b: seq<byte>, c: seq<byte>)
    ensures a + b + c == a + (b + c)
  {
  }

  lemma PreimageTail(r: NodeRecord)
    ensures Preimage(r) == SIGNATURE_DOMAIN + Tail(r, 0)
  {
    var f0, f1, f2, f3 := OptionalBytes(1, r.attributes), OptionalIdentity(2, r.contentId), Bytes(3, r.kind), Bytes(4, r.name);
    var f4, f5, f6, f7 := OptionalBytes(5, r.owner), Bytes(6, r.path), Bytes(7, r.qualifiedName), Span(8, r.span);
    hide OptionalBytes, OptionalIdentity, Bytes, Span;
    var d := SIGNATURE_DOMAIN;
    assert Preimage(r) == d + f0 + f1 + f2 + f3 + f4 + f5 + f6 + f7;
    assert Tail(r, 7) == f7;
    Regroup(d + f0 + f1 + f2 + f3 + f4 + f5, f6, f7);
    Regroup(d + f0 + f1 + f2 + f3 + f4, f5, Tail(r, 6));
    Regroup(d + f0 + f1 + f2 + f3, f4, Tail(r, 5));
    Regroup(d + f0 + f1 + f2, f3, Tail(r, 4));
    Regroup(d + f0 + f1, f2, Tail(r, 3));
    Regroup(d + f0, f1, Tail(r, 2));
    Regroup(d, f0, Tail(r, 1));
  }

  /** Equal preimages exactly when everything but the identity is equal, `None` and empty being told apart. */
  lemma PreimageInjective(a: NodeRecord, b: NodeRecord)
    requires Addressable(a) && Addressable(b)
    ensures Preimage(a) == Preimage(b) <==> a.(id := b.id) == b
  {
    if Preimage(a) == Preimage(b) {
      PreimageTail(a);
      PreimageTail(b);
      Split(SIGNATURE_DOMAIN, SIGNATURE_DOMAIN, Tail(a, 0), Tail(b, 0));
      hide OptionalBytes, OptionalIdentity, Bytes, Span, Preimage;
      OptionalBytesCut(1, a.attributes, b.attributes, Tail(a, 1), Tail(b, 1));
      OptionalIdentityCut(2, a.contentId, b.contentId, Tail(a, 2), Tail(b, 2));
      BytesCut(3, a.kind, b.kind, Tail(a, 3), Tail(b, 3));
      BytesCut(4, a.name, b.name, Tail(a, 4), Tail(b, 4));
      OptionalBytesCut(5, a.owner, b.owner, Tail(a, 5), Tail(b, 5));
      BytesCut(6, a.path, b.path, Tail(a, 6), Tail(b, 6));
      BytesCut(7, a.qualifiedName, b.qualifiedName, Tail(a, 7), Tail(b, 7));
      SpanInjective(8, a.span, b.span);
    }
  }
}
