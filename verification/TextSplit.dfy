/** Splitting a byte string at a separator and joining with it, as `split` and `join` do. */
module TextSplit {
  import opened Lexicon

  function Split(separator: byte, text: Text): (r: seq<Text>)
    ensures r != []
  {
    if text == [] then [[]]
    else
      var rest := Split(separator, text[1..]);
      if text[0] == separator then [[]] + rest else [[text[0]] + rest[0]] + rest[1..]
  }

  function Join(separator: byte, parts: seq<Text>): Text {
    if parts == [] then []
    else if |parts| == 1 then parts[0]
    else parts[0] + [separator] + Join(separator, parts[1..])
  }

  /** The parts hold no separator, and no byte the text does not hold. */
  lemma {:induction false} SplitPlain(separator: byte, text: Text)
    ensures forall c :: c in Split(separator, text) ==> separator !in c
    ensures forall c, b :: c in Split(separator, text) && b in c ==> b in text
  {
    if text != [] {
      SplitPlain(separator, text[1..]);
      var rest := Split(separator, text[1..]);
      assert rest[0] in rest;
      forall c | c in Split(separator, text) ensures separator !in c && forall b :: b in c ==> b in text {
        if text[0] == separator {
          assert c == [] || c in rest;
        } else {
          assert c == [text[0]] + rest[0] || c in rest;
        }
      }
    }
  }

  lemma {:induction false} SplitAt(separator: byte, a: Text, b: Text)
    requires separator !in a
    ensures Split(separator, a) == [a]
    ensures Split(separator, a + [separator] + b) == [a] + Split(separator, b)
  {
    if a == [] {
      assert a + [separator] + b == [separator] + b;
      assert ([separator] + b)[1..] == b;
    } else {
      SplitAt(separator, a[1..], b);
      assert (a + [separator] + b)[1..] == a[1..] + [separator] + b;
      assert a == [a[0]] + a[1..];
    }
  }

  /** Splitting undoes joining. */
  lemma {:induction false} SplitJoin(separator: byte, parts: seq<Text>)
    requires parts != [] && forall c :: c in parts ==> separator !in c
    ensures Split(separator, Join(separator, parts)) == parts
  {
    SplitAt(separator, parts[0], Join(separator, parts[1..]));
    if |parts| > 1 {
      SplitJoin(separator, parts[1..]);
      assert parts == [parts[0]] + parts[1..];
    }
  }

  /** And joining undoes splitting. */
  lemma {:induction false} JoinSplit(separator: byte, text: Text)
    ensures Join(separator, Split(separator, text)) == text
  {
    if text != [] {
      JoinSplit(separator, text[1..]);
      var rest, parts := Split(separator, text[1..]), Split(separator, text);
      assert text == [text[0]] + text[1..];
      if text[0] == separator {
        assert parts[1..] == rest;
      } else {
        assert parts[1..] == rest[1..];
      }
    }
  }

  lemma {:induction false} JoinBytes(separator: byte, parts: seq<Text>)
    ensures forall b :: b in Join(separator, parts) ==> b == separator || exists c :: c in parts && b in c
    ensures parts != [] && parts[0] != [] ==> Join(separator, parts) != [] && Join(separator, parts)[0] == parts[0][0]
  {
    if |parts| > 1 {
      JoinBytes(separator, parts[1..]);
      var rest := Join(separator, parts[1..]);
      forall b | b in Join(separator, parts) ensures b == separator || exists c :: c in parts && b in c {
        if b in parts[0] {
        } else if b != separator {
          assert b in rest;
          var c :| c in parts[1..] && b in c;
        }
      }
    } else if |parts| == 1 {
      forall b | b in Join(separator, parts) ensures exists c :: c in parts && b in c {
        assert parts[0] in parts;
      }
    }
  }

  lemma {:induction false} JoinSnoc(separator: byte, parts: seq<Text>, last: Text)
    requires parts != []
    ensures Join(separator, parts + [last]) == Join(separator, parts) + [separator] + last
  {
    var all := parts + [last];
    if |parts| == 1 {
      assert all[1..] == [last];
    } else {
      JoinSnoc(separator, parts[1..], last);
      assert all[1..] == parts[1..] + [last];
      assert parts[0] + [separator] + (Join(separator, parts[1..]) + [separator] + last)
          == parts[0] + [separator] + Join(separator, parts[1..]) + [separator] + last;
    }
  }

  /** Joining brings in no byte but the separator. */
  lemma {:induction false} JoinAvoids(separator: byte, parts: seq<Text>, b: byte)
    requires b != separator && forall i :: 0 <= i < |parts| ==> b !in parts[i]
    ensures b !in Join(separator, parts)
  {
    if |parts| > 1 { JoinAvoids(separator, parts[1..], b); }
  }
}
