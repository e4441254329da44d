/**
 arcana/src/lexicon/binary_v2_reader.rs: the cursor over a binary v2 object.

 Each primitive is specified by a function of the bytes and a position, which the method of the class
 computes while moving the cursor. `usize` is taken to be 64 bits wide; every length read is capped far
 below that, so the source's overflow tests on lengths cannot fire and are not listed.
 */
module Reader {
  import opened Wrappers
  import opened Lexicon

  datatype BinaryError =
    | InvalidMagic
    | Truncated
    | InvalidVarint
    | LimitExceeded
    | MissingSentinel
    | PrefixTooLong
    | InvalidUtf8
    | InvalidSentinel
    | IndexOutOfRange
    | InvalidTag
    | InvalidId
    | TrailingBytes

  /** What reading at a position yields: a value and the next position, or an error. */
  datatype Read<+T> = Ok(value: T, next: nat) | Bad(error: BinaryError) {
    predicate IsFailure() { Bad? }

    function PropagateFailure<U>(): Read<U>
      requires Bad?
    {
      Bad(error)
    }

    function Extract(): (T, nat)
      requires Ok?
    {
      (value, next)
    }
  }

  const MAX_STRINGS: nat := 4_000_000
  const MAX_STRING_SIZE: nat := 32 * 1024 * 1024

  /** `b"LXOBJ\0\x02\0"`. */
  const MAGIC: seq<byte> := [76, 88, 79, 66, 74, 0, 2, 0]

  // ----- primitives -----

  function ByteAt(b: seq<byte>, pos: nat): Read<byte> {
    if pos < |b| then Ok(b[pos], pos + 1) else Bad(Truncated)
  }

  function Pow128(k: nat): nat {
    if k == 0 then 1 else 128 * Pow128(k - 1)
  }

  /**
   The low seven bits of a byte, shifted to the k-th group of seven. The source combines groups by `|`;
   they occupy disjoint bits, so addition says the same.
   */
  function Group(byte: byte, k: nat): nat {
    (byte % 128) * Pow128(k)
  }

  /** The groups from the k-th on, added to the value of the earlier ones; the shift is 7 * k, up to 63. */
  function VarintFrom(b: seq<byte>, pos: nat, k: nat, value: nat): Read<nat>
    decreases 10 - k
  {
    if k >= 10 then Bad(InvalidVarint)
    else
      var (byte, next) :- ByteAt(b, pos);
      if k == 9 && byte > 1 then Bad(InvalidVarint)
      else
        var more := value + Group(byte, k);
        if byte < 128 then Ok(more, next) else VarintFrom(b, next, k + 1, more)
  }

  function VarintAt(b: seq<byte>, pos: nat): Read<nat> {
    VarintFrom(b, pos, 0, 0)
  }

  function CountAt(b: seq<byte>, pos: nat, maximum: nat): Read<nat> {
    var (value, next) :- VarintAt(b, pos);
    if value > maximum then Bad(LimitExceeded) else Ok(value, next)
  }

  function TakeAt(b: seq<byte>, pos: nat, length: nat): Read<seq<byte>> {
    if pos + length <= |b| then Ok(b[pos..pos + length], pos + length) else Bad(Truncated)
  }

  function BytesAt(b: seq<byte>, pos: nat, maximum: nat): Read<seq<byte>> {
    var (length, next) :- CountAt(b, pos, maximum);
    TakeAt(b, next, length)
  }

  function FinishAt(b: seq<byte>, pos: nat): Read<()> {
    if pos == |b| then Ok((), pos) else Bad(TrailingBytes)
  }

  // ----- string table -----

  /** The `count` strings of a table after `previous`, each a prefix of its predecessor and a suffix. */
  function StringsFrom(c: Codec, b: seq<byte>, pos: nat, count: nat, previous: Text): Read<seq<Text>>
    decreases count
  {
    if count == 0 then Ok([], pos)
    else
      var (value, next) :- StringAt(c, b, pos, previous);
      var (rest, end) :- StringsFrom(c, b, next, count - 1, value);
      Ok([value] + rest, end)
  }

  function StringAt(c: Codec, b: seq<byte>, pos: nat, previous: Text): Read<Text> {
    var (prefix, p1) :- VarintAt(b, pos);
    if prefix > |previous| then Bad(PrefixTooLong)
    else
      var (suffix, p2) :- BytesAt(b, p1, MAX_STRING_SIZE);
      var value := previous[..prefix] + suffix;
      if |value| > MAX_STRING_SIZE then Bad(LimitExceeded)
      else if !c.utf8(value) then Bad(InvalidUtf8)
      else Ok(value, p2)
  }

  function StringTableAt(c: Codec, b: seq<byte>, pos: nat): Read<seq<Text>> {
    var (count, p1) :- CountAt(b, pos, MAX_STRINGS);
    if count == 0 then Bad(MissingSentinel)
    else
      var (strings, p2) :- StringsFrom(c, b, p1, count, []);
      if strings == [] || strings[0] != [] then Bad(InvalidSentinel) else Ok(strings, p2)
  }

  // ----- fields -----

  function StringRefAt(b: seq<byte>, pos: nat, strings: seq<Text>): Read<Text> {
    var (index, next) :- VarintAt(b, pos);
    if index < |strings| then Ok(strings[index], next) else Bad(IndexOutOfRange)
  }

  function IdentityAt(c: Codec, b: seq<byte>, pos: nat, strings: seq<Text>): Read<Identity> {
    var (tag, p1) :- ByteAt(b, pos);
    if tag == 0 then
      var (text, p2) :- StringRefAt(b, p1, strings);
      match c.parseIdentity(text)
      case None => Bad(InvalidId)
      case Some(identity) => Ok(identity, p2)
    else if tag == 1 then DigestAt(b, p1)
    else Bad(InvalidTag)
  }

  function DigestAt(b: seq<byte>, pos: nat): Read<Identity> {
    var (digest, next) :- TakeAt(b, pos, 32);
    Ok(digest, next)
  }

  function OptionalIdentityAt(c: Codec, b: seq<byte>, pos: nat, strings: seq<Text>): Read<Option<Identity>> {
    var (tag, p1) :- ByteAt(b, pos);
    if tag == 0 then
      var (text, p2) :- StringRefAt(b, p1, strings);
      if text == [] then Ok(None, p2)
      else match c.parseIdentity(text)
        case None => Bad(InvalidId)
        case Some(identity) => Ok(Some(identity), p2)
    else if tag == 1 then
      var (digest, p2) :- DigestAt(b, p1);
      Ok(Some(digest), p2)
    else Bad(InvalidTag)
  }

  function SkipIdentityAt(b: seq<byte>, pos: nat, strings: seq<Text>): Read<()> {
    var (tag, p1) :- ByteAt(b, pos);
    if tag == 0 then
      var (_, p2) :- StringRefAt(b, p1, strings);
      Ok((), p2)
    else if tag == 1 then
      var (_, p2) :- TakeAt(b, p1, 32);
      Ok((), p2)
    else Bad(InvalidTag)
  }

  function NodeRefAt(b: seq<byte>, pos: nat, nodeKeys: seq<NodeKey>, external: seq<Identity>): Read<NodeReference> {
    var (tag, p1) :- ByteAt(b, pos);
    var (index, p2) :- VarintAt(b, p1);
    if index == 0 then Bad(IndexOutOfRange)
    else if tag == 0 then
      if index - 1 < |nodeKeys| then Ok(ByKey(nodeKeys[index - 1]), p2) else Bad(IndexOutOfRange)
    else if tag == 1 then
      if index - 1 < |external| then Ok(ByIdentity(external[index - 1]), p2) else Bad(IndexOutOfRange)
    else Bad(InvalidTag)
  }

  function CodeOrStringAt(b: seq<byte>, pos: nat, strings: seq<Text>, values: seq<Text>): Read<Text> {
    var (code, next) :- VarintAt(b, pos);
    if code == 0 then StringRefAt(b, next, strings)
    else if code - 1 < |values| then Ok(values[code - 1], next)
    else Bad(IndexOutOfRange)
  }

  function SkipCodeOrStringAt(b: seq<byte>, pos: nat, strings: seq<Text>, values: seq<Text>): Read<()> {
    var (code, next) :- VarintAt(b, pos);
    if code == 0 then
      var (_, end) :- StringRefAt(b, next, strings);
      Ok((), end)
    else if code - 1 < |values| then Ok((), next)
    else Bad(IndexOutOfRange)
  }

  function FactoredAt(b: seq<byte>, pos: nat, strings: seq<Text>, objectOwner: Text): Read<Text> {
    var (factor, next) :- VarintAt(b, pos);
    if factor == 0 then Ok([], next)
    else if factor == 1 then Ok(objectOwner, next)
    else if factor == 2 then StringRefAt(b, next, strings)
    else Bad(InvalidTag)
  }

  function SkipFactoredAt(b: seq<byte>, pos: nat, strings: seq<Text>): Read<()> {
    var (factor, next) :- VarintAt(b, pos);
    if factor <= 1 then Ok((), next)
    else if factor == 2 then
      var (_, end) :- StringRefAt(b, next, strings);
      Ok((), end)
    else Bad(InvalidTag)
  }

  function QualifiedNameAt(b: seq<byte>, pos: nat, strings: seq<Text>, name: Text, path: Text, objectOwner: Text)
    : Read<Text>
  {
    var (factor, next) :- VarintAt(b, pos);
    if factor == 0 then StringRefAt(b, next, strings)
    else if factor == 1 then Ok(name, next)
    else if factor == 2 then Ok(path, next)
    else if factor == 3 then Ok(objectOwner, next)
    else Bad(InvalidTag)
  }

  function SkipQualifiedNameAt(b: seq<byte>, pos: nat, strings: seq<Text>): Read<()> {
    var (factor, next) :- VarintAt(b, pos);
    if factor == 0 then
      var (_, end) :- StringRefAt(b, next, strings);
      Ok((), end)
    else if factor <= 3 then Ok((), next)
    else Bad(InvalidTag)
  }

  function AttributesAt(b: seq<byte>, pos: nat): Read<Option<seq<byte>>> {
    var (value, next) :- BytesAt(b, pos, MAX_STRING_SIZE);
    Ok(if value == [] then None else Some(value), next)
  }

  function SkipAttributesAt(b: seq<byte>, pos: nat): Read<()> {
    var (_, next) :- BytesAt(b, pos, MAX_STRING_SIZE);
    Ok((), next)
  }

  function CoordinateAt(b: seq<byte>, pos: nat): (r: Read<u64>)
    ensures r.Bad? <==> VarintAt(b, pos).Bad?
    ensures r.Ok? ==> r == VarintAt(b, pos)
  {
    VarintFits(b, pos);
    var (value, next) :- VarintAt(b, pos);
    Ok(value, next)
  }

  function SpanAt(b: seq<byte>, pos: nat, strings: seq<Text>): Read<Option<SpanRecord>> {
    var (flag, p0) :- ByteAt(b, pos);
    if flag == 0 then Ok(None, p0)
    else if flag == 1 then
      var (path, p1) :- StringRefAt(b, p0, strings);
      var (startLine, p2) :- CoordinateAt(b, p1);
      var (startColumn, p3) :- CoordinateAt(b, p2);
      var (endLine, p4) :- CoordinateAt(b, p3);
      var (endColumn, p5) :- CoordinateAt(b, p4);
      Ok(Some(SpanRecord(path, startLine, startColumn, endLine, endColumn)), p5)
    else Bad(InvalidTag)
  }

  function SkipSpanAt(b: seq<byte>, pos: nat, strings: seq<Text>): Read<()> {
    var (flag, p0) :- ByteAt(b, pos);
    if flag == 0 then Ok((), p0)
    else if flag == 1 then
      var (_, p1) :- StringRefAt(b, p0, strings);
      var (_, p2) :- VarintAt(b, p1);
      var (_, p3) :- VarintAt(b, p2);
      var (_, p4) :- VarintAt(b, p3);
      var (_, p5) :- VarintAt(b, p4);
      Ok((), p5)
    else Bad(InvalidTag)
  }

  // ----- the varint never overflows -----

  lemma VarintStep(b: seq<byte>, pos: nat, k: nat, value: nat)
    requires k <= 9
    ensures VarintFrom(b, pos, k, value) ==
            match ByteAt(b, pos)
            case Bad(error) => Bad(error)
            case Ok(byte, next) =>
              if k == 9 && byte > 1 then Bad(InvalidVarint)
              else if byte < 128 then Ok(value + Group(byte, k), next)
              else VarintFrom(b, next, k + 1, value + Group(byte, k))
  {
    hide Group;
  }

  lemma {:induction false} VarintBounds(b: seq<byte>, pos: nat, k: nat, value: nat)
    requires k <= 9 && value < Pow128(k)
    ensures var r := VarintFrom(b, pos, k, value);
      r.Ok? ==> r.value < 0x1_0000_0000_0000_0000 && pos < r.next <= |b| && r.next - pos <= 10 - k
    decreases 10 - k
  {
    var at := ByteAt(b, pos);
    VarintStep(b, pos, k, value);
    hide Pow128, Group, VarintFrom;
    if at.Ok? && !(k == 9 && at.value > 1) {
      GroupFits(k, value, at.value);
      if at.value >= 128 { VarintBounds(b, pos + 1, k + 1, value + Group(at.value, k)); }
    }
  }

  /** A group leaves the value in range; a continued one leaves room for the next, and cannot be the tenth. */
  lemma GroupFits(k: nat, value: nat, byte: byte)
    requires k <= 9 && !(k == 9 && byte > 1) && value < Pow128(k)
    ensures value + Group(byte, k) < 0x1_0000_0000_0000_0000
    ensures byte >= 128 ==> k + 1 <= 9 && value + Group(byte, k) < Pow128(k + 1)
  {
    NinthGroup();
    if k == 9 {
      Times(byte % 128, 1, Pow128(k));
    } else {
      Times(byte % 128, 127, Pow128(k));
      assert Pow128(k + 1) == 128 * Pow128(k);
      Pow128Grows(k + 1, 9);
    }
  }

  lemma Times(m: nat, n: nat, factor: nat)
    requires m <= n
    ensures m * factor <= n * factor
  {
  }

  lemma {:induction false} Pow128Grows(m: nat, n: nat)
    requires m <= n
    ensures Pow128(m) <= Pow128(n)
    decreases n - m
  {
    if m < n { Pow128Grows(m, n - 1); }
  }

  lemma NinthGroup()
    ensures Pow128(9) == 0x8000_0000_0000_0000
  {
  }

  /** A decoded varint fits 64 bits and takes between one and ten bytes. */
  lemma VarintFits(b: seq<byte>, pos: nat)
    ensures VarintAt(b, pos).Ok? ==>
      VarintAt(b, pos).value < 0x1_0000_0000_0000_0000 && pos < VarintAt(b, pos).next <= |b| && VarintAt(b, pos).next <= pos + 10
  {
    assert Pow128(0) == 1;
    VarintBounds(b, pos, 0, 0);
  }

  // ----- the cursor -----

  /** The outcome of a cursor method against its specification. */
  ghost predicate Follows<T>(r: Result<T, BinaryError>, position: nat, spec: Read<T>) {
    match spec
    case Ok(value, next) => r == Success(value) && position == next
    case Bad(error) => r == Failure(error)
  }

  class Reader {
    const bytes: seq<byte>
    var position: nat

    constructor (bytes: seq<byte>)
      ensures this.bytes == bytes && position == 0
    {
      this.bytes, position := bytes, 0;
    }

    method ExpectMagic() returns (r: Result<(), BinaryError>)
      modifies this
      ensures Follows(r, position, if MAGIC <= bytes then Ok((), |MAGIC|) else Bad(InvalidMagic))
    {
      if !(MAGIC <= bytes) { return Failure(InvalidMagic); }
      position := |MAGIC|;
      return Success(());
    }

    method Byte() returns (r: Result<byte, BinaryError>)
      modifies this
      ensures Follows(r, position, ByteAt(bytes, old(position)))
    {
      if position >= |bytes| { return Failure(Truncated); }
      position := position + 1;
      return Success(bytes[position - 1]);
    }

    method Uvarint() returns (r: Result<nat, BinaryError>)
      modifies this
      ensures Follows(r, position, VarintAt(bytes, old(position)))
    {
      var value: nat, k: nat := 0, 0;
      assert Pow128(0) == 1;
      hide Pow128, Group, VarintFrom;
      while k < 10
        invariant k <= 9 && value < Pow128(k)
        invariant VarintFrom(bytes, position, k, value) == VarintAt(bytes, old(position))
        decreases 10 - k
      {
        VarintStep(bytes, position, k, value);
        var byte :- Byte();
        if k == 9 && byte > 1 { return Failure(InvalidVarint); }
        GroupFits(k, value, byte);
        value := value + Group(byte, k);
        if byte < 128 { return Success(value); }
        k := k + 1;
      }
      assert false;
    }

    method Count(maximum: nat) returns (r: Result<nat, BinaryError>)
      modifies this
      ensures Follows(r, position, CountAt(bytes, old(position), maximum))
    {
      var value :- Uvarint();
      if value > maximum { return Failure(LimitExceeded); }
      return Success(value);
    }

    method Take(length: nat) returns (r: Result<seq<byte>, BinaryError>)
      modifies this
      ensures Follows(r, position, TakeAt(bytes, old(position), length))
    {
      var end := position + length;
      if end > |bytes| { return Failure(Truncated); }
      r := Success(bytes[position..end]);
      position := end;
    }

    method Bytes(maximum: nat) returns (r: Result<seq<byte>, BinaryError>)
      modifies this
      ensures Follows(r, position, BytesAt(bytes, old(position), maximum))
    {
      var length :- Count(maximum);
      r := Take(length);
    }

    method StringTable(c: Codec) returns (r: Result<seq<Text>, BinaryError>)
      modifies this
      ensures Follows(r, position, StringTableAt(c, bytes, old(position)))
    {
      var count :- Count(MAX_STRINGS);
      if count == 0 { return Failure(MissingSentinel); }
      r := TableEntries(c, count);
      if r.Failure? { return; }
      if r.value == [] || r.value[0] != [] { return Failure(InvalidSentinel); }
    }

    /** The loop over the entries of the table. */
    method TableEntries(c: Codec, count: nat) returns (r: Result<seq<Text>, BinaryError>)
      modifies this
      ensures Follows(r, position, StringsFrom(c, bytes, old(position), count, []))
    {
      var strings: seq<Text>, previous: Text := [], [];
      ghost var start := position;
      PrependNone(StringsFrom(c, bytes, start, count, []));
      hide StringAt;
      var index := 0;
      while index < count
        invariant 0 <= index <= count && |strings| == index
        invariant StringsFrom(c, bytes, start, count, []) ==
                  Prepend(strings, StringsFrom(c, bytes, position, count - index, previous))
      {
        var value :- TableEntry(c, previous);
        PrependStep(strings, value, StringsFrom(c, bytes, position, count - index - 1, value));
        strings := strings + [value];
        previous := value;
        index := index + 1;
      }
      assert strings + [] == strings;
      return Success(strings);
    }

    /** One entry of the table: a prefix of the previous string and a suffix. */
    method TableEntry(c: Codec, previous: Text) returns (r: Result<Text, BinaryError>)
      modifies this
      ensures Follows(r, position, StringAt(c, bytes, old(position), previous))
    {
      var prefix :- Uvarint();
      if prefix > |previous| { return Failure(PrefixTooLong); }
      var suffix :- Bytes(MAX_STRING_SIZE);
      if prefix + |suffix| > MAX_STRING_SIZE { return Failure(LimitExceeded); }
      var value := previous[..prefix] + suffix;
      if !c.utf8(value) { return Failure(InvalidUtf8); }
      return Success(value);
    }

    method StringRef(strings: seq<Text>) returns (r: Result<Text, BinaryError>)
      modifies this
      ensures Follows(r, position, StringRefAt(bytes, old(position), strings))
    {
      var index :- Uvarint();
      if index >= |strings| { return Failure(IndexOutOfRange); }
      return Success(strings[index]);
    }

    method CompactIdentity(c: Codec, strings: seq<Text>) returns (r: Result<Identity, BinaryError>)
      modifies this
      ensures Follows(r, position, IdentityAt(c, bytes, old(position), strings))
    {
      var tag :- Byte();
      if tag == 0 {
        var text :- StringRef(strings);
        var parsed := c.parseIdentity(text);
        if parsed.None? { return Failure(InvalidId); }
        return Success(parsed.value);
      } else if tag == 1 {
        var digest :- Take(32);
        return Success(digest);
      }
      return Failure(InvalidTag);
    }

    /** `optional_compact_identity` of binary_v2.rs. */
    method OptionalIdentity(c: Codec, strings: seq<Text>) returns (r: Result<Option<Identity>, BinaryError>)
      modifies this
      ensures Follows(r, position, OptionalIdentityAt(c, bytes, old(position), strings))
    {
      var tag :- Byte();
      if tag == 0 {
        var text :- StringRef(strings);
        if text == [] { return Success(None); }
        var parsed := c.parseIdentity(text);
        if parsed.None? { return Failure(InvalidId); }
        return Success(Some(parsed.value));
      } else if tag == 1 {
        var digest :- Take(32);
        return Success(Some(digest));
      }
      return Failure(InvalidTag);
    }

    method SkipIdentity(strings: seq<Text>) returns (r: Result<(), BinaryError>)
      modifies this
      ensures Follows(r, position, SkipIdentityAt(bytes, old(position), strings))
    {
      var tag :- Byte();
      if tag == 0 {
        var _ :- StringRef(strings);
        return Success(());
      } else if tag == 1 {
        var _ :- Take(32);
        return Success(());
      }
      return Failure(InvalidTag);
    }

    method NodeRef(nodeKeys: seq<NodeKey>, external: seq<Identity>) returns (r: Result<NodeReference, BinaryError>)
      modifies this
      ensures Follows(r, position, NodeRefAt(bytes, old(position), nodeKeys, external))
    {
      hide VarintAt;
      var tag :- Byte();
      var index :- Uvarint();
      if index == 0 { return Failure(IndexOutOfRange); }
      if tag == 0 {
        if index - 1 >= |nodeKeys| { return Failure(IndexOutOfRange); }
        return Success(ByKey(nodeKeys[index - 1]));
      } else if tag == 1 {
        if index - 1 >= |external| { return Failure(IndexOutOfRange); }
        return Success(ByIdentity(external[index - 1]));
      }
      return Failure(InvalidTag);
    }

    method CodeOrString(strings: seq<Text>, values: seq<Text>) returns (r: Result<Text, BinaryError>)
      modifies this
      ensures Follows(r, position, CodeOrStringAt(bytes, old(position), strings, values))
    {
      var code :- Uvarint();
      if code == 0 {
        r := StringRef(strings);
        return;
      }
      if code - 1 >= |values| { return Failure(IndexOutOfRange); }
      return Success(values[code - 1]);
    }

    method SkipCodeOrString(strings: seq<Text>, values: seq<Text>) returns (r: Result<(), BinaryError>)
      modifies this
      ensures Follows(r, position, SkipCodeOrStringAt(bytes, old(position), strings, values))
    {
      var code :- Uvarint();
      if code == 0 {
        var _ :- StringRef(strings);
        return Success(());
      }
      if code - 1 >= |values| { return Failure(IndexOutOfRange); }
      return Success(());
    }

    method Factored(strings: seq<Text>, objectOwner: Text) returns (r: Result<Text, BinaryError>)
      modifies this
      ensures Follows(r, position, FactoredAt(bytes, old(position), strings, objectOwner))
    {
      var factor :- Uvarint();
      if factor == 0 { return Success([]); }
      if factor == 1 { return Success(objectOwner); }
      if factor != 2 { return Failure(InvalidTag); }
      r := StringRef(strings);
    }

    method SkipFactored(strings: seq<Text>) returns (r: Result<(), BinaryError>)
      modifies this
      ensures Follows(r, position, SkipFactoredAt(bytes, old(position), strings))
    {
      var factor :- Uvarint();
      if factor <= 1 { return Success(()); }
      if factor != 2 { return Failure(InvalidTag); }
      var _ :- StringRef(strings);
      return Success(());
    }

    method QualifiedName(strings: seq<Text>, name: Text, path: Text, objectOwner: Text)
      returns (r: Result<Text, BinaryError>)
      modifies this
      ensures Follows(r, position, QualifiedNameAt(bytes, old(position), strings, name, path, objectOwner))
    {
      var factor :- Uvarint();
      if factor == 0 {
        r := StringRef(strings);
        return;
      }
      if factor == 1 { return Success(name); }
      if factor == 2 { return Success(path); }
      if factor == 3 { return Success(objectOwner); }
      return Failure(InvalidTag);
    }

    method SkipQualifiedName(strings: seq<Text>) returns (r: Result<(), BinaryError>)
      modifies this
      ensures Follows(r, position, SkipQualifiedNameAt(bytes, old(position), strings))
    {
      var factor :- Uvarint();
      if factor == 0 {
        var _ :- StringRef(strings);
        return Success(());
      }
      if factor <= 3 { return Success(()); }
      return Failure(InvalidTag);
    }

    method Attributes() returns (r: Result<Option<seq<byte>>, BinaryError>)
      modifies this
      ensures Follows(r, position, AttributesAt(bytes, old(position)))
    {
      var value :- Bytes(MAX_STRING_SIZE);
      return Success(if value == [] then None else Some(value));
    }

    method SkipAttributes() returns (r: Result<(), BinaryError>)
      modifies this
      ensures Follows(r, position, SkipAttributesAt(bytes, old(position)))
    {
      var _ :- Bytes(MAX_STRING_SIZE);
      return Success(());
    }

    method Coordinate() returns (r: Result<u64, BinaryError>)
      modifies this
      ensures Follows(r, position, CoordinateAt(bytes, old(position)))
    {
      VarintFits(bytes, position);
      var value :- Uvarint();
      return Success(value);
    }

    method Span(strings: seq<Text>) returns (r: Result<Option<SpanRecord>, BinaryError>)
      modifies this
      ensures Follows(r, position, SpanAt(bytes, old(position), strings))
    {
      hide VarintAt, StringRefAt, CoordinateAt;
      var flag :- Byte();
      if flag == 0 { return Success(None); }
      if flag != 1 { return Failure(InvalidTag); }
      var path :- StringRef(strings);
      var startLine :- Coordinate();
      var startColumn :- Coordinate();
      var endLine :- Coordinate();
      var endColumn :- Coordinate();
      return Success(Some(SpanRecord(path, startLine, startColumn, endLine, endColumn)));
    }

    method SkipSpan(strings: seq<Text>) returns (r: Result<(), BinaryError>)
      modifies this
      ensures Follows(r, position, SkipSpanAt(bytes, old(position), strings))
    {
      hide VarintAt, StringRefAt;
      var flag :- Byte();
      if flag == 0 { return Success(()); }
      if flag != 1 { return Failure(InvalidTag); }
      var _ :- StringRef(strings);
      var _ :- Uvarint();
      var _ :- Uvarint();
      var _ :- Uvarint();
      var _ :- Uvarint();
      return Success(());
    }

    method Finish() returns (r: Result<(), BinaryError>)
      ensures Follows(r, position, FinishAt(bytes, position))
    {
      if position == |bytes| { return Success(()); }
      return Failure(TrailingBytes);
    }
  }

  function Prepend<T>(done: seq<T>, rest: Read<seq<T>>): Read<seq<T>> {
    match rest
    case Ok(values, next) => Ok(done + values, next)
    case Bad(error) => Bad(error)
  }

  lemma PrependNone<T>(rest: Read<seq<T>>)
    ensures Prepend([], rest) == rest
  {
    if rest.Ok? { assert [] + rest.value == rest.value; }
  }

  lemma PrependStep<T>(done: seq<T>, value: T, rest: Read<seq<T>>)
    ensures Prepend(done, Prepend([value], rest)) == Prepend(done + [value], rest)
  {
    if rest.Ok? { assert done + ([value] + rest.value) == done + [value] + rest.value; }
  }
}
