/**
 What `uvarint` and `string_table` of arcana/src/lexicon/binary_v2_reader.rs invert: unsigned LEB128
 (section 7.6 of DWARF Version 5) and front coding.
 */
module FrontCoding {
  import opened Wrappers
  import opened Lexicon
  import opened Reader

  // ----- unsigned LEB128 -----

  /** Groups of seven bits, least significant first, every byte but the last with its top bit set. */
  predicate Leb128(s: seq<byte>) {
    s != [] && s[|s| - 1] < 128 && forall i :: 0 <= i < |s| - 1 ==> s[i] >= 128
  }

  function LebValue(s: seq<byte>): nat {
    if s == [] then 0 else s[0] % 128 + 128 * LebValue(s[1..])
  }

  function Encode(v: nat): seq<byte> {
    if v < 128 then [v] else [v % 128 + 128] + Encode(v / 128)
  }

  ghost predicate Starts(b: seq<byte>, pos: nat, s: seq<byte>) {
    pos + |s| <= |b| && b[pos..pos + |s|] == s
  }

  lemma StartsSplit(b: seq<byte>, pos: nat, x: seq<byte>, y: seq<byte>)
    requires Starts(b, pos, x + y)
    ensures Starts(b, pos, x) && Starts(b, pos + |x|, y)
  {
    assert b[pos..pos + |x|] == b[pos..pos + |x + y|][..|x|] == x;
    assert b[pos + |x|..pos + |x| + |y|] == b[pos..pos + |x + y|][|x|..] == y;
  }

  /** A value of more than one group, scaled to the k-th, splits into that group and the rest scaled to the next. */
  lemma Peel(byte: byte, rest: nat, k: nat)
    ensures (byte % 128 + 128 * rest) * Pow128(k) == Group(byte, k) + rest * Pow128(k + 1)
    ensures 0 <= rest * Pow128(k + 1)
  {
    var p := Pow128(k);
    assert Pow128(k + 1) == 128 * p;
    assert (byte % 128 + 128 * rest) * p == (byte % 128) * p + (128 * rest) * p;
    assert (128 * rest) * p == rest * (128 * p);
  }

  lemma LebLast(byte: byte, k: nat)
    requires byte < 128
    ensures Leb128([byte]) && LebValue([byte]) == byte && Group(byte, k) == LebValue([byte]) * Pow128(k)
  {
    assert [byte][1..] == [];
  }

  lemma LebCons(byte: byte, s: seq<byte>)
    ensures LebValue([byte] + s) == byte % 128 + 128 * LebValue(s)
    ensures byte >= 128 && Leb128(s) ==> Leb128([byte] + s)
  {
    assert ([byte] + s)[1..] == s;
  }

  /** Decoding adds the value of the groups read, scaled to where they start. */
  lemma {:induction false} VarintReads(b: seq<byte>, pos: nat, k: nat, value: nat)
    requires k <= 9 && VarintFrom(b, pos, k, value).Ok?
    ensures var r := VarintFrom(b, pos, k, value);
      && pos < r.next <= |b| && r.next - pos <= 10 - k
      && Leb128(b[pos..r.next])
      && r.value == value + LebValue(b[pos..r.next]) * Pow128(k)
    decreases 10 - k
  {
    hide VarintFrom, Leb128, LebValue, Pow128, Group;
    VarintStep(b, pos, k, value);
    var r := VarintFrom(b, pos, k, value);
    var byte := b[pos];
    if byte < 128 {
      assert b[pos..pos + 1] == [byte];
      LebLast(byte, k);
    } else {
      VarintReads(b, pos + 1, k + 1, value + Group(byte, k));
      var rest := b[pos + 1..r.next];
      assert b[pos..r.next] == [byte] + rest;
      LebCons(byte, rest);
      Peel(byte, LebValue(rest), k);
    }
  }

  /** The tenth group adds its low bits times 2^63. */
  lemma TenthGroup(byte: byte)
    requires byte < 128 && LebValue([byte]) * Pow128(9) < 0x1_0000_0000_0000_0000
    ensures byte <= 1
  {
    NinthGroup();
    LebLast(byte, 9);
    assert byte * 0x8000_0000_0000_0000 < 0x1_0000_0000_0000_0000;
  }

  lemma LebTail(s: seq<byte>)
    requires Leb128(s) && |s| > 1
    ensures Leb128(s[1..]) && s[0] >= 128
  {
  }

  /** And any LEB128 form of at most ten groups with a 64-bit value is decoded. */
  lemma {:induction false} VarintWrites(b: seq<byte>, pos: nat, k: nat, value: nat, s: seq<byte>)
    requires Leb128(s) && Starts(b, pos, s) && k + |s| <= 10
    requires LebValue(s) * Pow128(k) < 0x1_0000_0000_0000_0000
    ensures VarintFrom(b, pos, k, value) == Ok(value + LebValue(s) * Pow128(k), pos + |s|)
    decreases |s|
  {
    VarintStep(b, pos, k, value);
    hide VarintFrom, Pow128, Group;
    var byte, rest := s[0], s[1..];
    assert s == [byte] + rest;
    StartsSplit(b, pos, [byte], rest);
    assert b[pos] == b[pos..pos + 1][0] == byte;
    LebCons(byte, rest);
    hide LebValue;
    if rest == [] {
      assert s == [byte];
      LebLast(byte, k);
      if k == 9 { TenthGroup(byte); }
    } else {
      LebTail(s);
      hide Leb128, Starts;
      Peel(byte, LebValue(rest), k);
      VarintWrites(b, pos + 1, k + 1, value + Group(byte, k), rest);
    }
  }

  /** `uvarint` accepts exactly the LEB128 forms of at most ten bytes whose value fits 64 bits. */
  lemma VarintExact(b: seq<byte>, pos: nat, value: nat, next: nat)
    ensures VarintAt(b, pos) == Ok(value, next) <==>
      && pos < next <= |b| && next - pos <= 10
      && Leb128(b[pos..next]) && LebValue(b[pos..next]) == value < 0x1_0000_0000_0000_0000
  {
    assert Pow128(0) == 1;
    if VarintAt(b, pos).Ok? {
      VarintReads(b, pos, 0, 0);
      VarintFits(b, pos);
    }
    if pos < next <= |b| && next - pos <= 10 && Leb128(b[pos..next]) && LebValue(b[pos..next]) < 0x1_0000_0000_0000_0000 {
      VarintWrites(b, pos, 0, 0, b[pos..next]);
    }
  }

  lemma {:induction false} EncodeLeb(v: nat)
    ensures Leb128(Encode(v)) && LebValue(Encode(v)) == v
  {
    if v < 128 {
      assert LebValue([v]) == v % 128 + 128 * LebValue([v][1..]);
    } else {
      EncodeLeb(v / 128);
      assert Encode(v)[1..] == Encode(v / 128);
    }
  }

  lemma {:induction false} EncodeLength(v: nat, k: nat)
    requires v < 2 * Pow128(k)
    ensures |Encode(v)| <= k + 1
  {
    if v >= 128 {
      assert k > 0;
      assert Pow128(k) == 128 * Pow128(k - 1);
      EncodeLength(v / 128, k - 1);
    }
  }

  /** The shortest encoding of any 64-bit number decodes to it, wherever it stands. */
  lemma EncodeDecodes(b: seq<byte>, pos: nat, v: nat)
    requires v < 0x1_0000_0000_0000_0000 && Starts(b, pos, Encode(v))
    ensures VarintAt(b, pos) == Ok(v, pos + |Encode(v)|)
  {
    hide VarintAt, Encode, Leb128, LebValue;
    EncodeLeb(v);
    NinthGroup();
    EncodeLength(v, 9);
    VarintExact(b, pos, v, pos + |Encode(v)|);
  }

  /** Some LEB128 form of a 64-bit number, of at most ten bytes: not only the shortest. */
  ghost predicate Number(s: seq<byte>, v: nat) {
    Leb128(s) && |s| <= 10 && LebValue(s) == v < 0x1_0000_0000_0000_0000
  }

  lemma NumberDecodes(b: seq<byte>, pos: nat, s: seq<byte>, v: nat)
    requires Number(s, v) && Starts(b, pos, s)
    ensures VarintAt(b, pos) == Ok(v, pos + |s|)
  {
    hide VarintAt, LebValue;
    VarintExact(b, pos, v, pos + |s|);
  }

  lemma NumberRead(b: seq<byte>, pos: nat)
    requires VarintAt(b, pos).Ok?
    ensures var r := VarintAt(b, pos);
      pos < r.next <= |b| && Number(b[pos..r.next], r.value)
  {
    hide VarintAt, Leb128, LebValue;
    var r := VarintAt(b, pos);
    assert r == Ok(r.value, r.next);
    VarintExact(b, pos, r.value, r.next);
  }

  lemma EncodeNumber(v: nat)
    requires v < 0x1_0000_0000_0000_0000
    ensures Number(Encode(v), v)
  {
    hide Encode, Leb128, LebValue;
    EncodeLeb(v);
    NinthGroup();
    assert v < 2 * Pow128(9);
    EncodeLength(v, 9);
  }

  // ----- front coding -----

  ghost predicate Shares(previous: Text, text: Text, prefix: nat) {
    prefix <= |previous| && prefix <= |text| && text[..prefix] == previous[..prefix]
  }

  ghost predicate Storable(c: Codec, s: Text) {
    |s| <= MAX_STRING_SIZE && c.utf8(s)
  }

  /** How an entry is written: how much it shares with its predecessor, and the bytes of its two numbers. */
  datatype Form = Form(prefix: nat, head: seq<byte>, length: seq<byte>)

  /** The entry is a form of this string behind its predecessor. */
  ghost predicate Forms(f: Form, previous: Text, text: Text) {
    Shares(previous, text, f.prefix) && Number(f.head, f.prefix) && Number(f.length, |text| - f.prefix)
  }

  /** Every string is written behind its predecessor, the first one behind `previous`. */
  ghost predicate FrontCodes(strings: seq<Text>, forms: seq<Form>, previous: Text) {
    && |forms| == |strings|
    && (strings != [] ==> Forms(forms[0], previous, strings[0]) && FrontCodes(strings[1..], forms[1..], strings[0]))
  }

  ghost function EntryBytes(f: Form, text: Text): seq<byte>
    requires f.prefix <= |text|
  {
    f.head + (f.length + text[f.prefix..])
  }

  ghost function EntriesBytes(strings: seq<Text>, forms: seq<Form>, previous: Text): seq<byte>
    requires FrontCodes(strings, forms, previous)
  {
    if strings == [] then [] else EntryBytes(forms[0], strings[0]) + EntriesBytes(strings[1..], forms[1..], strings[0])
  }

  /** A table written out: the number of its strings, and its entries. */
  ghost predicate WritesTable(s: seq<byte>, strings: seq<Text>, count: seq<byte>, forms: seq<Form>) {
    Number(count, |strings|) && FrontCodes(strings, forms, []) && s == count + EntriesBytes(strings, forms, [])
  }

  lemma BytesDecode(b: seq<byte>, pos: nat, size: seq<byte>, bytes: seq<byte>)
    requires |bytes| <= MAX_STRING_SIZE && Number(size, |bytes|) && Starts(b, pos, size + bytes)
    ensures BytesAt(b, pos, MAX_STRING_SIZE) == Ok(bytes, pos + |size + bytes|)
  {
    hide VarintAt, Number;
    StartsSplit(b, pos, size, bytes);
    NumberDecodes(b, pos, size, |bytes|);
    assert CountAt(b, pos, MAX_STRING_SIZE) == Ok(|bytes|, pos + |size|);
    assert TakeAt(b, pos + |size|, |bytes|) == Ok(bytes, pos + |size| + |bytes|);
  }

  lemma EntryDecodes(c: Codec, b: seq<byte>, pos: nat, previous: Text, text: Text, f: Form)
    requires Forms(f, previous, text) && Storable(c, text) && Starts(b, pos, EntryBytes(f, text))
    ensures StringAt(c, b, pos, previous) == Ok(text, pos + |EntryBytes(f, text)|)
  {
    hide VarintAt, BytesAt, Number, Starts;
    var suffix := text[f.prefix..];
    StartsSplit(b, pos, f.head, f.length + suffix);
    NumberDecodes(b, pos, f.head, f.prefix);
    BytesDecode(b, pos + |f.head|, f.length, suffix);
    assert previous[..f.prefix] + suffix == text;
  }

  lemma {:induction false} EntriesDecode(c: Codec, b: seq<byte>, pos: nat, previous: Text, strings: seq<Text>, forms: seq<Form>)
    requires FrontCodes(strings, forms, previous) && forall s :: s in strings ==> Storable(c, s)
    requires Starts(b, pos, EntriesBytes(strings, forms, previous))
    ensures StringsFrom(c, b, pos, |strings|, previous) == Ok(strings, pos + |EntriesBytes(strings, forms, previous)|)
    decreases |strings|
  {
    hide StringAt, EntryBytes, Starts, Storable;
    if strings != [] {
      var text := strings[0];
      assert text in strings;
      var entry, rest := EntryBytes(forms[0], text), EntriesBytes(strings[1..], forms[1..], text);
      StartsSplit(b, pos, entry, rest);
      EntryDecodes(c, b, pos, previous, text, forms[0]);
      EntriesDecode(c, b, pos + |entry|, text, strings[1..], forms[1..]);
      assert [text] + strings[1..] == strings;
    }
  }

  // ----- what an accepted table is -----

  lemma EntryRead(c: Codec, b: seq<byte>, pos: nat, previous: Text) returns (f: Form)
    requires StringAt(c, b, pos, previous).Ok?
    ensures var r := StringAt(c, b, pos, previous);
      Storable(c, r.value) && Forms(f, previous, r.value) && pos < r.next <= |b| && b[pos..r.next] == EntryBytes(f, r.value)
  {
    hide VarintAt, Number;
    var head := VarintAt(b, pos);
    NumberRead(b, pos);
    var size := VarintAt(b, head.next);
    NumberRead(b, head.next);
    var r := StringAt(c, b, pos, previous);
    var suffix := b[size.next..r.next];
    f := Form(head.value, b[pos..head.next], b[head.next..size.next]);
    assert r.value == previous[..head.value] + suffix;
    assert r.value[head.value..] == suffix;
    assert b[pos..r.next] == b[pos..head.next] + (b[head.next..size.next] + suffix);
  }

  /** An accepted run of entries is written as front coding says. */
  lemma {:induction false} EntriesRead(c: Codec, b: seq<byte>, pos: nat, count: nat, previous: Text)
    returns (forms: seq<Form>)
    requires pos <= |b| && StringsFrom(c, b, pos, count, previous).Ok?
    ensures var r := StringsFrom(c, b, pos, count, previous);
      && |r.value| == count && FrontCodes(r.value, forms, previous) && (forall s :: s in r.value ==> Storable(c, s))
      && pos <= r.next <= |b| && b[pos..r.next] == EntriesBytes(r.value, forms, previous)
    decreases count
  {
    hide StringAt, Storable, Forms, EntryBytes;
    if count == 0 {
      forms := [];
    } else {
      var f := EntryRead(c, b, pos, previous);
      var entry := StringAt(c, b, pos, previous);
      assert f.prefix <= |entry.value| by { FormShares(f, previous, entry.value); }
      var more := EntriesRead(c, b, entry.next, count - 1, entry.value);
      forms := [f] + more;
      var rest := StringsFrom(c, b, entry.next, count - 1, entry.value);
      var strings := [entry.value] + rest.value;
      assert strings[1..] == rest.value && forms[1..] == more;
      assert EntriesBytes(strings, forms, previous) == EntryBytes(f, entry.value) + EntriesBytes(rest.value, more, entry.value);
      assert b[pos..rest.next] == b[pos..entry.next] + b[entry.next..rest.next];
    }
  }

  lemma FormShares(f: Form, previous: Text, text: Text)
    requires Forms(f, previous, text)
    ensures f.prefix <= |text|
  {
  }

  /**
   `string_table` accepts exactly the tables within the limits whose strings are storable and the first of
   them empty, written as a count and front-coded entries with any sharing and any form of their numbers;
   and it ends just behind them.
   */
  lemma TableExact(c: Codec, b: seq<byte>, pos: nat, strings: seq<Text>, next: nat)
    requires pos <= |b|
    ensures StringTableAt(c, b, pos) == Ok(strings, next) <==>
      && 0 < |strings| <= MAX_STRINGS && strings[0] == [] && (forall s :: s in strings ==> Storable(c, s))
      && pos <= next <= |b| && exists count, forms :: WritesTable(b[pos..next], strings, count, forms)
  {
    hide VarintAt, StringsFrom, Storable, FrontCodes, Number;
    if StringTableAt(c, b, pos) == Ok(strings, next) {
      NumberRead(b, pos);
      var count := VarintAt(b, pos);
      var forms := EntriesRead(c, b, count.next, count.value, []);
      assert b[pos..next] == b[pos..count.next] + b[count.next..next];
      assert WritesTable(b[pos..next], strings, b[pos..count.next], forms);
    }
    if 0 < |strings| <= MAX_STRINGS && strings[0] == [] && (forall s :: s in strings ==> Storable(c, s)) && pos <= next <= |b| {
      forall count, forms | WritesTable(b[pos..next], strings, count, forms)
        ensures StringTableAt(c, b, pos) == Ok(strings, next)
      {
        TableDecodes(c, b, pos, strings, count, forms);
      }
    }
  }

  lemma TableDecodes(c: Codec, b: seq<byte>, pos: nat, strings: seq<Text>, count: seq<byte>, forms: seq<Form>)
    requires 0 < |strings| <= MAX_STRINGS && strings[0] == []
    requires FrontCodes(strings, forms, []) && (forall s :: s in strings ==> Storable(c, s)) && Number(count, |strings|)
    requires Starts(b, pos, count + EntriesBytes(strings, forms, []))
    ensures StringTableAt(c, b, pos) == Ok(strings, pos + |count + EntriesBytes(strings, forms, [])|)
  {
    hide VarintAt, StringsFrom, Number, Starts, FrontCodes, Storable;
    StartsSplit(b, pos, count, EntriesBytes(strings, forms, []));
    NumberDecodes(b, pos, count, |strings|);
    EntriesDecode(c, b, pos + |count|, [], strings, forms);
  }

  ghost predicate SharesAt(strings: seq<Text>, prefixes: seq<nat>, previous: Text, i: nat)
    requires i < |strings| == |prefixes|
  {
    Shares(if i == 0 then previous else strings[i - 1], strings[i], prefixes[i])
  }

  /** Every table can be written, whatever each string is chosen to share with its predecessor. */
  lemma {:induction false} EntriesWritable(strings: seq<Text>, prefixes: seq<nat>, previous: Text) returns (forms: seq<Form>)
    requires |prefixes| == |strings| && forall s :: s in strings ==> |s| <= MAX_STRING_SIZE
    requires forall i :: 0 <= i < |strings| ==> SharesAt(strings, prefixes, previous, i)
    ensures FrontCodes(strings, forms, previous) && forall i :: 0 <= i < |forms| ==> forms[i].prefix == prefixes[i]
  {
    hide Number, Encode;
    if strings == [] {
      forms := [];
    } else {
      var text, prefix := strings[0], prefixes[0];
      assert SharesAt(strings, prefixes, previous, 0);
      assert text in strings;
      EncodeNumber(prefix);
      EncodeNumber(|text| - prefix);
      forall i | 0 <= i < |strings[1..]| ensures SharesAt(strings[1..], prefixes[1..], text, i) {
        assert SharesAt(strings, prefixes, previous, i + 1);
      }
      var more := EntriesWritable(strings[1..], prefixes[1..], text);
      forms := [Form(prefix, Encode(prefix), Encode(|text| - prefix))] + more;
      assert forms[1..] == more;
    }
  }
}
