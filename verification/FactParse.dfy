/**
 arcana/src/repository/fact_file.rs: reading the tab-separated fact text, and the round trip with the
 encoder.

 Only the text format is modelled: an input that begins with a brace goes to another parser. Errors carry
 no line numbers.
 */
module FactParse {
  import opened Wrappers
  import opened Lexicon
  import opened Ordering
  import opened Facts
  import opened Records
  import opened TextSplit
  import opened Numerals
  import opened FactText
  import SnapshotManifest

  datatype FactError =
    | InvalidHeader
    | MalformedLine
    | UnknownRecord
    | InvalidKind
    | InvalidRelation
    | InvalidReason
    | InvalidNumber
    | InvalidFactSpan
    | InvalidEscape

  /** The ASCII texts "version\t1" to "version\t4". */
  function Header(version: nat): Text
    requires 1 <= version <= 4
  {
    [118, 101, 114, 115, 105, 111, 110, 9, 48 + version]
  }

  // ----- lines and fields -----

  function StripReturn(line: Text): Text {
    if line != [] && line[|line| - 1] == RETURN then line[..|line| - 1] else line
  }

  /** `lines`: pieces between newlines, an empty last one dropped, a carriage return before a newline too. */
  function LinesOf(text: Text): seq<Text> {
    var parts := Split(NEWLINE, text);
    var n := |parts| - 1;
    seq(n, i requires 0 <= i < n => StripReturn(parts[i])) + if parts[n] == [] then [] else [parts[n]]
  }

  function UnescapeByte(b: byte): Option<byte> {
    if b == BACKSLASH then Some(BACKSLASH)
    else if b == 116 then Some(TAB)
    else if b == 110 then Some(NEWLINE)
    else if b == 114 then Some(RETURN)
    else if b == 48 then Some(NUL)
    else None
  }

  function Unescape(value: Text): Result<Text, FactError> {
    if value == [] then Success([])
    else if value[0] != BACKSLASH then
      var rest :- Unescape(value[1..]);
      Success([value[0]] + rest)
    else if |value| < 2 || UnescapeByte(value[1]).None? then Failure(InvalidEscape)
    else
      var rest :- Unescape(value[2..]);
      Success([UnescapeByte(value[1]).value] + rest)
  }

  function UnescapeAll(fields: seq<Text>): Result<seq<Text>, FactError> {
    if fields == [] then Success([])
    else
      var before :- UnescapeAll(fields[..|fields| - 1]);
      var last :- Unescape(fields[|fields| - 1]);
      Success(before + [last])
  }

  // ----- records -----

  function ParseId(value: Text): Result<u64, FactError> {
    if |value| != 16 then Failure(InvalidNumber)
    else
      match ParseUnsigned(16, value, 0x1_0000_0000_0000_0000)
      case Some(n) => if n < 0x1_0000_0000_0000_0000 then Success(n) else Failure(InvalidNumber)
      case None => Failure(InvalidNumber)
  }

  function ParseOptionalId(value: Text): Result<Option<u64>, FactError> {
    if value == DASH then Success(None)
    else
      var id :- ParseId(value);
      Success(Some(id))
  }

  function ParseU32(value: Text): Result<u32, FactError> {
    match ParseUnsigned(10, value, 0x1_0000_0000)
    case Some(n) => if n < 0x1_0000_0000 then Success(n) else Failure(InvalidNumber)
    case None => Failure(InvalidNumber)
  }

  function ParseOptional(value: Text): Option<Text> {
    if value == DASH then None else Some(value)
  }

  function ParseExternalIdentity(value: Text): Result<Option<Text>, FactError> {
    if value == DASH then Success(None)
    else if SnapshotManifest.ValidId(value) then Success(Some(value))
    else Failure(InvalidNumber)
  }

  function ParseSpan(s: Schema, fields: seq<Text>): Result<Option<SourceSpan>, FactError>
    requires |fields| == 5
  {
    if forall i :: 0 <= i < 5 ==> fields[i] == DASH then Success(None)
    else if exists i :: 0 <= i < 5 && fields[i] == DASH then Failure(InvalidFactSpan)
    else if s.normalize(fields[0]).None? then Failure(InvalidFactSpan)
    else
      var startLine :- ParseU32(fields[1]);
      var startColumn :- ParseU32(fields[2]);
      var endLine :- ParseU32(fields[3]);
      var endColumn :- ParseU32(fields[4]);
      Success(Some(SourceSpan(s.normalize(fields[0]).value, startLine, startColumn, endLine, endColumn)))
  }

  /** Version 4 added the qualified name, version 3 the external identity. */
  function ParseNode(s: Schema, fields: seq<Text>, version: nat): Result<NodeFact, FactError>
    requires fields != []
  {
    if |fields| != (if version >= 4 then 13 else if version >= 3 then 12 else 11) then Failure(MalformedLine)
    else
      var kindAt := if version >= 3 then 3 else 2;
      var contentAt := if version >= 4 then kindAt + 4 else kindAt + 3;
      if s.normalize(fields[kindAt + 1]).None? then Failure(MalformedLine)
      else
        var identity :- if version >= 3 then ParseExternalIdentity(fields[2]) else Success(None);
        var key :- ParseId(fields[1]);
        if s.nodeKind(fields[kindAt]).None? then Failure(InvalidKind)
        else
          var contentId :- ParseOptionalId(fields[contentAt]);
          var span :- ParseSpan(s, fields[contentAt + 1..contentAt + 6]);
          Success(NodeFact(key, identity, s.nodeKind(fields[kindAt]).value, s.normalize(fields[kindAt + 1]).value,
                           fields[kindAt + 2], if version >= 4 then fields[kindAt + 3] else fields[kindAt + 2],
                           contentId, span))
  }

  function ParseEdge(s: Schema, fields: seq<Text>): Result<EdgeFact, FactError>
    requires fields != []
  {
    if |fields| != 9 then Failure(MalformedLine)
    else
      var source :- ParseId(fields[1]);
      var target :- ParseId(fields[2]);
      if s.relationKind(fields[3]).None? then Failure(InvalidRelation)
      else
        var span :- ParseSpan(s, fields[4..9]);
        Success(EdgeFact(source, target, s.relationKind(fields[3]).value, span))
  }

  function ParseUnresolved(s: Schema, fields: seq<Text>): Result<UnresolvedFact, FactError>
    requires fields != []
  {
    if |fields| != 12 then Failure(MalformedLine)
    else
      var source :- ParseId(fields[1]);
      if s.relationKind(fields[2]).None? then Failure(InvalidRelation)
      else if s.reason(fields[3]).None? then Failure(InvalidReason)
      else
        var span :- ParseSpan(s, fields[7..12]);
        Success(UnresolvedFact(source, s.relationKind(fields[2]).value, fields[4], ParseOptional(fields[5]),
                               ParseOptional(fields[6]), s.reason(fields[3]).value, span))
  }

  function ParseFields(s: Schema, version: nat, fields: seq<Text>, facts: RepositoryFacts): Result<RepositoryFacts, FactError>
    requires fields != []
  {
    if fields[0] == NODE_TAG then
      var node :- ParseNode(s, fields, version);
      Success(facts.(nodes := facts.nodes + [node]))
    else if fields[0] == EDGE_TAG then
      var edge :- ParseEdge(s, fields);
      Success(facts.(edges := facts.edges + [edge]))
    else if fields[0] == UNRESOLVED_TAG && version >= 2 then
      var reference :- ParseUnresolved(s, fields);
      Success(facts.(unresolved := facts.unresolved + [reference]))
    else Failure(UnknownRecord)
  }

  function ParseLine(s: Schema, version: nat, line: Text, facts: RepositoryFacts): Result<RepositoryFacts, FactError> {
    if line == [] then Failure(MalformedLine)
    else
      var fields :- UnescapeAll(Split(TAB, line));
      if fields == [] then Failure(UnknownRecord) else ParseFields(s, version, fields, facts)
  }

  function ParseLines(s: Schema, version: nat, start: RepositoryFacts, lines: seq<Text>): Result<RepositoryFacts, FactError> {
    if lines == [] then Success(start)
    else
      var facts :- ParseLines(s, version, start, lines[..|lines| - 1]);
      ParseLine(s, version, lines[|lines| - 1], facts)
  }

  function ParseHeader(line: Text): Option<nat> {
    if line == Header(1) then Some(1)
    else if line == Header(2) then Some(2)
    else if line == Header(3) then Some(3)
    else if line == Header(4) then Some(4)
    else None
  }

  const NO_FACTS := RepositoryFacts([], [], [])

  /** `parse_facts` on the text format. */
  function Parse(s: Schema, text: Text): Result<RepositoryFacts, FactError> {
    var lines := LinesOf(text);
    if lines == [] || ParseHeader(lines[0]).None? then Failure(InvalidHeader)
    else ParseLines(s, ParseHeader(lines[0]).value, NO_FACTS, lines[1..])
  }

  // ----- escaping round trip -----

  lemma UnescapeOne(b: byte, rest: Text)
    ensures Unescape(EscapeByte(b) + rest) ==
            match Unescape(rest) case Success(value) => Success([b] + value) case Failure(error) => Failure(error)
  {
    var text := EscapeByte(b) + rest;
    if |EscapeByte(b)| == 2 {
      assert text[2..] == rest;
    } else {
      assert text[1..] == rest;
    }
  }

  lemma Regroup(a: Text, b: Text, c: Text)
    ensures a + (b + c) == a + b + c
  {
  }

  lemma {:induction false} UnescapeEscape(value: Text, rest: Text)
    ensures Unescape(Escape(value) + rest) ==
            match Unescape(rest) case Success(tail) => Success(value + tail) case Failure(error) => Failure(error)
  {
    if value == [] {
      assert Escape(value) + rest == rest;
      if Unescape(rest).Success? { assert [] + Unescape(rest).value == Unescape(rest).value; }
    } else {
      var before, last := value[..|value| - 1], value[|value| - 1];
      assert Escape(value) == Escape(before) + EscapeByte(last);
      hide Escape, EscapeByte, Unescape;
      UnescapeEscape(before, EscapeByte(last) + rest);
      Regroup(Escape(before), EscapeByte(last), rest);
      UnescapeOne(last, rest);
      if Unescape(rest).Success? {
        Regroup(before, [last], Unescape(rest).value);
        assert value == before + [last];
      }
    }
  }

  /** Unescaping undoes escaping. */
  lemma UnescapeField(value: Text)
    ensures Unescape(Escape(value)) == Success(value)
  {
    UnescapeEscape(value, []);
    hide Escape;
    assert Escape(value) + [] == Escape(value) && value + [] == value;
  }

  lemma {:induction false} UnescapeRow(row: seq<Text>)
    ensures UnescapeAll(Escaped(row)) == Success(row)
  {
    hide Escape, Unescape;
    if row != [] {
      var before, last := row[..|row| - 1], row[|row| - 1];
      UnescapeRow(before);
      UnescapeField(last);
      var escaped := Escaped(row);
      assert escaped[..|row| - 1] == Escaped(before) && escaped[|row| - 1] == Escape(last);
      assert row == before + [last];
    }
  }

  function Escaped(row: seq<Text>): seq<Text> {
    seq(|row|, i requires 0 <= i < |row| => Escape(row[i]))
  }

  lemma {:induction false} LineJoins(row: seq<Text>)
    requires row != []
    ensures Line(row) == Join(TAB, Escaped(row))
  {
    hide Escape;
    if |row| == 1 {
      assert row[1..] == [] && Tail([]) == [];
      assert Escaped(row) == [Escape(row[0])];
    } else {
      var before, last := row[..|row| - 1], row[|row| - 1];
      LineJoins(before);
      assert Escaped(row) == Escaped(before) + [Escape(last)];
      JoinSnoc(TAB, Escaped(before), Escape(last));
      assert row[1..][..|row| - 2] == before[1..];
      assert Escape(row[0]) + (Tail(before[1..]) + ([TAB] + Escape(last))) == Line(before) + [TAB] + Escape(last);
    }
  }

  /** The fields of a line are those of its row. */
  lemma LineFields(row: seq<Text>)
    requires row != []
    ensures UnescapeAll(Split(TAB, Line(row))) == Success(row)
  {
    hide Escape, UnescapeAll;
    LineJoins(row);
    forall c | c in Escaped(row) ensures TAB !in c {
      var i :| 0 <= i < |row| && Escaped(row)[i] == c;
      EscapeClean(row[i]);
    }
    SplitJoin(TAB, Escaped(row));
    UnescapeRow(row);
  }

  /** A line holds neither a newline nor a carriage return. */
  lemma LineClean(row: seq<Text>)
    requires row != []
    ensures NEWLINE !in Line(row) && RETURN !in Line(row)
  {
    hide Escape, Line, Join;
    LineJoins(row);
    forall i | 0 <= i < |row| ensures NEWLINE !in Escape(row[i]) && RETURN !in Escape(row[i]) {
      EscapeClean(row[i]);
    }
    JoinAvoids(TAB, Escaped(row), NEWLINE);
    JoinAvoids(TAB, Escaped(row), RETURN);
  }

  /** A tagged line is not empty. */
  lemma LineTagged(row: seq<Text>)
    requires row != [] && row[0] in {NODE_TAG, EDGE_TAG, UNRESOLVED_TAG}
    ensures Line(row) != []
  {
    TagsPlain();
    hide Escape, Tail;
  }

  // ----- lines round trip -----

  function RowLines(rows: seq<seq<Text>>): seq<Text>
    requires forall i :: 0 <= i < |rows| ==> rows[i] != []
  {
    seq(|rows|, i requires 0 <= i < |rows| => Line(rows[i]))
  }

  lemma {:induction false} RowsJoined(rows: seq<seq<Text>>)
    requires forall i :: 0 <= i < |rows| ==> rows[i] != []
    ensures HEADER_V4 + [NEWLINE] + Rows(rows) == Join(NEWLINE, [HEADER_V4] + RowLines(rows)) + [NEWLINE]
  {
    hide Line;
    if rows == [] {
      assert [HEADER_V4] + RowLines(rows) == [HEADER_V4];
      assert Rows(rows) == [];
    } else {
      var before, last := rows[..|rows| - 1], rows[|rows| - 1];
      RowsJoined(before);
      assert [HEADER_V4] + RowLines(rows) == [HEADER_V4] + RowLines(before) + [Line(last)];
      JoinSnoc(NEWLINE, [HEADER_V4] + RowLines(before), Line(last));
      assert HEADER_V4 + [NEWLINE] + (Rows(before) + (Line(last) + [NEWLINE]))
          == HEADER_V4 + [NEWLINE] + Rows(before) + Line(last) + [NEWLINE];
    }
  }

  lemma LinesJoined(lines: seq<Text>)
    requires lines != [] && forall i :: 0 <= i < |lines| ==> NEWLINE !in lines[i] && RETURN !in lines[i]
    ensures LinesOf(Join(NEWLINE, lines) + [NEWLINE]) == lines
  {
    hide Join, Split;
    var parts := lines + [[]];
    JoinSnoc(NEWLINE, lines, []);
    assert Join(NEWLINE, lines) + [NEWLINE] + [] == Join(NEWLINE, lines) + [NEWLINE];
    assert forall c :: c in parts ==> NEWLINE !in c;
    SplitJoin(NEWLINE, parts);
    hide Join, Split;
    forall i | 0 <= i < |lines| ensures StripReturn(parts[i]) == lines[i] {
      NoReturn(lines[i]);
    }
  }

  lemma NoReturn(line: Text)
    requires RETURN !in line
    ensures StripReturn(line) == line
  {
  }

  /** The lines of an encoded text are its header and one line for every row. */
  lemma LinesEncoded(rows: seq<seq<Text>>)
    requires forall i :: 0 <= i < |rows| ==> rows[i] != []
    ensures LinesOf(HEADER_V4 + [NEWLINE] + Rows(rows)) == [HEADER_V4] + RowLines(rows)
  {
    hide Line, Rows, LinesOf, Join;
    var lines := [HEADER_V4] + RowLines(rows);
    RowsJoined(rows);
    forall i | 0 <= i < |lines| ensures NEWLINE !in lines[i] && RETURN !in lines[i] {
      if i > 0 {
        LineClean(rows[i - 1]);
        assert lines[i] == Line(rows[i - 1]);
      } else {
        assert lines[i] == HEADER_V4;
      }
    }
    LinesJoined(lines);
  }

  // ----- which facts survive the round trip -----

  /** A span survives if its path is normal and is not the mark of an absent field. */
  predicate SpanEncodable(s: Schema, span: Option<SourceSpan>) {
    span.Some? ==> span.value.path != DASH && s.normalize(span.value.path) == Some(span.value.path)
  }

  predicate NodeEncodable(s: Schema, l: Labels, n: NodeFact) {
    && (n.externalIdentity.Some? ==> SnapshotManifest.ValidId(n.externalIdentity.value))
    && s.nodeKind(l.kind(n.kind)) == Some(n.kind)
    && s.normalize(n.path) == Some(n.path)
    && SpanEncodable(s, n.span)
  }

  predicate EdgeEncodable(s: Schema, l: Labels, e: EdgeFact) {
    s.relationKind(l.relation(e.relation)) == Some(e.relation) && SpanEncodable(s, e.span)
  }

  predicate UnresolvedEncodable(s: Schema, l: Labels, u: UnresolvedFact) {
    && s.relationKind(l.relation(u.relation)) == Some(u.relation)
    && s.reason(l.reason(u.reason)) == Some(u.reason)
    && u.candidateNamespace != Some(DASH) && u.candidateName != Some(DASH)
    && SpanEncodable(s, u.span)
  }

  ghost predicate Encodable(s: Schema, l: Labels, facts: RepositoryFacts) {
    && (forall n :: n in facts.nodes ==> NodeEncodable(s, l, n))
    && (forall e :: e in facts.edges ==> EdgeEncodable(s, l, e))
    && (forall u :: u in facts.unresolved ==> UnresolvedEncodable(s, l, u))
  }

  lemma IdParsed(value: u64)
    ensures ParseId(Id(value)) == Success(value)
    ensures Id(value) != DASH
  {
    hide ParseUnsigned, Hex;
    HexRoundTrip(value);
  }

  lemma OptionalIdParsed(value: Option<ContentId>)
    ensures ParseOptionalId(OptionalId(value)) == Success(value)
  {
    if value.Some? { IdParsed(value.value); }
    hide ParseId, Id;
  }

  lemma CoordinateParsed(value: u32)
    ensures ParseU32(Decimal(value)) == Success(value)
    ensures Decimal(value) != DASH
  {
    DecimalRoundTrip(value, 0x1_0000_0000);
    DecimalValue(value);
    assert DASH[..0] == [] && DigitValue(10, 45) == None;
    assert Value(10, DASH) == None;
    hide Decimal, ParseUnsigned, Value;
  }

  lemma SpanParsed(s: Schema, span: Option<SourceSpan>)
    ensures ParseSpan(s, SpanRow(span)) == Success(span) <==> SpanEncodable(s, span)
  {
    hide Decimal, ParseU32;
    if span.Some? {
      var p := span.value;
      CoordinateParsed(p.startLine);
      CoordinateParsed(p.startColumn);
      CoordinateParsed(p.endLine);
      CoordinateParsed(p.endColumn);
      var row := SpanRow(span);
      assert row[1] != DASH && row[2] != DASH && row[3] != DASH && row[4] != DASH;
      if p.path == DASH {
        assert row[0] == DASH;
      } else {
        assert forall i :: 0 <= i < 5 ==> row[i] != DASH;
      }
    }
  }

  lemma NodeParsed(s: Schema, l: Labels, n: NodeFact)
    ensures ParseNode(s, NodeRow(l, n), 4) == Success(n) <==> NodeEncodable(s, l, n)
  {
    hide ParseId, ParseOptionalId, Id, OptionalId, ParseSpan, SpanRow, SpanEncodable, SnapshotManifest.ValidId;
    var row := NodeRow(l, n);
    assert row[8..13] == SpanRow(n.span);
    IdParsed(n.key);
    OptionalIdParsed(n.contentId);
    SpanParsed(s, n.span);
    DashInvalid();
  }

  lemma DashInvalid()
    ensures !SnapshotManifest.ValidId(DASH)
  {
  }

  lemma EdgeParsed(s: Schema, l: Labels, e: EdgeFact)
    ensures ParseEdge(s, EdgeRow(l, e)) == Success(e) <==> EdgeEncodable(s, l, e)
  {
    hide ParseId, Id, ParseSpan, SpanRow, SpanEncodable;
    var row := EdgeRow(l, e);
    assert row[4..9] == SpanRow(e.span);
    IdParsed(e.source);
    IdParsed(e.target);
    SpanParsed(s, e.span);
  }

  lemma UnresolvedParsed(s: Schema, l: Labels, u: UnresolvedFact)
    ensures ParseUnresolved(s, UnresolvedRow(l, u)) == Success(u) <==> UnresolvedEncodable(s, l, u)
  {
    hide ParseId, Id, ParseSpan, SpanRow, SpanEncodable;
    var row := UnresolvedRow(l, u);
    assert row[7..12] == SpanRow(u.span);
    IdParsed(u.source);
    SpanParsed(s, u.span);
  }

  // ----- lists of lines -----

  lemma ParseLinesNext(s: Schema, start: RepositoryFacts, rows: seq<seq<Text>>, row: seq<Text>)
    requires forall i :: 0 <= i < |rows| ==> rows[i] != []
    requires row != [] && row[0] in {NODE_TAG, EDGE_TAG, UNRESOLVED_TAG}
    ensures forall i :: 0 <= i < |rows + [row]| ==> (rows + [row])[i] != []
    ensures var before := ParseLines(s, 4, start, RowLines(rows));
      ParseLines(s, 4, start, RowLines(rows + [row])) ==
      if before.Failure? then before else ParseFields(s, 4, row, before.value)
  {
    LineFields(row);
    LineTagged(row);
    hide Line, ParseFields, UnescapeAll, Split;
    var lines := RowLines(rows + [row]);
    assert lines[..|lines| - 1] == RowLines(rows) && lines[|lines| - 1] == Line(row);
  }

  /** The records read back from node rows, in order. */
  function DecodedNodes(s: Schema, l: Labels, nodes: seq<NodeFact>): Result<seq<NodeFact>, FactError> {
    if nodes == [] then Success([])
    else
      var before :- DecodedNodes(s, l, nodes[..|nodes| - 1]);
      var last :- ParseNode(s, NodeRow(l, nodes[|nodes| - 1]), 4);
      Success(before + [last])
  }

  function DecodedEdges(s: Schema, l: Labels, edges: seq<EdgeFact>): Result<seq<EdgeFact>, FactError> {
    if edges == [] then Success([])
    else
      var before :- DecodedEdges(s, l, edges[..|edges| - 1]);
      var last :- ParseEdge(s, EdgeRow(l, edges[|edges| - 1]));
      Success(before + [last])
  }

  function DecodedUnresolved(s: Schema, l: Labels, unresolved: seq<UnresolvedFact>): Result<seq<UnresolvedFact>, FactError> {
    if unresolved == [] then Success([])
    else
      var before :- DecodedUnresolved(s, l, unresolved[..|unresolved| - 1]);
      var last :- ParseUnresolved(s, UnresolvedRow(l, unresolved[|unresolved| - 1]));
      Success(before + [last])
  }

  lemma SnocEqual<T>(a: seq<T>, x: T, s: seq<T>)
    requires |s| == |a| + 1
    ensures a + [x] == s <==> a == s[..|s| - 1] && x == s[|s| - 1]
  {
    assert s == s[..|s| - 1] + [s[|s| - 1]];
    if a + [x] == s { assert a == (a + [x])[..|a|] && x == (a + [x])[|a|]; }
  }

  lemma {:induction false} NodesDecoded(s: Schema, l: Labels, nodes: seq<NodeFact>)
    ensures DecodedNodes(s, l, nodes).Success? ==> |DecodedNodes(s, l, nodes).value| == |nodes|
    ensures DecodedNodes(s, l, nodes) == Success(nodes) <==> forall n :: n in nodes ==> NodeEncodable(s, l, n)
    decreases |nodes|
  {
    hide ParseNode, NodeRow, NodeEncodable;
    if nodes != [] {
      var before, last := nodes[..|nodes| - 1], nodes[|nodes| - 1];
      NodesDecoded(s, l, before);
      NodeParsed(s, l, last);
      assert forall n :: n in nodes <==> n in before || n == last;
      if DecodedNodes(s, l, nodes).Success? {
        SnocEqual(DecodedNodes(s, l, before).value, ParseNode(s, NodeRow(l, last), 4).value, nodes);
      }
    }
  }

  lemma {:induction false} EdgesDecoded(s: Schema, l: Labels, edges: seq<EdgeFact>)
    ensures DecodedEdges(s, l, edges).Success? ==> |DecodedEdges(s, l, edges).value| == |edges|
    ensures DecodedEdges(s, l, edges) == Success(edges) <==> forall e :: e in edges ==> EdgeEncodable(s, l, e)
    decreases |edges|
  {
    hide ParseEdge, EdgeRow, EdgeEncodable;
    if edges != [] {
      var before, last := edges[..|edges| - 1], edges[|edges| - 1];
      EdgesDecoded(s, l, before);
      EdgeParsed(s, l, last);
      assert forall e :: e in edges <==> e in before || e == last;
      if DecodedEdges(s, l, edges).Success? {
        SnocEqual(DecodedEdges(s, l, before).value, ParseEdge(s, EdgeRow(l, last)).value, edges);
      }
    }
  }

  lemma {:induction false} UnresolvedDecoded(s: Schema, l: Labels, unresolved: seq<UnresolvedFact>)
    ensures DecodedUnresolved(s, l, unresolved).Success? ==> |DecodedUnresolved(s, l, unresolved).value| == |unresolved|
    ensures DecodedUnresolved(s, l, unresolved) == Success(unresolved) <==>
            forall u :: u in unresolved ==> UnresolvedEncodable(s, l, u)
    decreases |unresolved|
  {
    hide ParseUnresolved, UnresolvedRow, UnresolvedEncodable;
    if unresolved != [] {
      var before, last := unresolved[..|unresolved| - 1], unresolved[|unresolved| - 1];
      UnresolvedDecoded(s, l, before);
      UnresolvedParsed(s, l, last);
      assert forall u :: u in unresolved <==> u in before || u == last;
      if DecodedUnresolved(s, l, unresolved).Success? {
        SnocEqual(DecodedUnresolved(s, l, before).value, ParseUnresolved(s, UnresolvedRow(l, last)).value, unresolved);
      }
    }
  }

  lemma NodeRowTagged(l: Labels, n: NodeFact)
    ensures NodeRow(l, n)[0] == NODE_TAG
  {
  }

  lemma EdgeRowTagged(l: Labels, e: EdgeFact)
    ensures EdgeRow(l, e)[0] == EDGE_TAG
  {
  }

  lemma UnresolvedRowTagged(l: Labels, u: UnresolvedFact)
    ensures UnresolvedRow(l, u)[0] == UNRESOLVED_TAG
  {
  }

  lemma NothingParsed(s: Schema, start: RepositoryFacts)
    ensures ParseLines(s, 4, start, []) == Success(start)
  {
  }

  lemma {:induction false} NodeLinesParsed(s: Schema, l: Labels, start: RepositoryFacts, nodes: seq<NodeFact>)
    ensures ParseLines(s, 4, start, RowLines(NodeRows(l, nodes))) ==
            match DecodedNodes(s, l, nodes)
            case Failure(error) => Failure(error)
            case Success(decoded) => Success(start.(nodes := start.nodes + decoded))
    decreases |nodes|
  {
    hide ParseNode, NodeRow, ParseLine, ParseLines;
    if nodes == [] {
      assert RowLines(NodeRows(l, nodes)) == [];
      NothingParsed(s, start);
      assert start.nodes + [] == start.nodes;
    } else {
      var before, last := nodes[..|nodes| - 1], nodes[|nodes| - 1];
      NodeLinesParsed(s, l, start, before);
      NodeRowTagged(l, last);
      ParseLinesNext(s, start, NodeRows(l, before), NodeRow(l, last));
      assert NodeRows(l, nodes) == NodeRows(l, before) + [NodeRow(l, last)];
      if DecodedNodes(s, l, nodes).Success? {
        Assoc(start.nodes, DecodedNodes(s, l, before).value, ParseNode(s, NodeRow(l, last), 4).value);
      }
    }
  }

  lemma Assoc<T>(a: seq<T>, b: seq<T>, x: T)
    ensures a + b + [x] == a + (b + [x])
  {
  }

  lemma {:induction false} EdgeLinesParsed(s: Schema, l: Labels, start: RepositoryFacts, rows: seq<seq<Text>>, edges: seq<EdgeFact>)
    requires forall i :: 0 <= i < |rows| ==> rows[i] != []
    requires ParseLines(s, 4, start, RowLines(rows)).Success?
    ensures forall i :: 0 <= i < |rows + EdgeRows(l, edges)| ==> (rows + EdgeRows(l, edges))[i] != []
    ensures var facts := ParseLines(s, 4, start, RowLines(rows)).value;
      ParseLines(s, 4, start, RowLines(rows + EdgeRows(l, edges))) ==
      match DecodedEdges(s, l, edges)
      case Failure(error) => Failure(error)
      case Success(decoded) => Success(facts.(edges := facts.edges + decoded))
    decreases |edges|
  {
    hide ParseEdge, EdgeRow, ParseLine, ParseLines;
    var facts := ParseLines(s, 4, start, RowLines(rows)).value;
    if edges == [] {
      assert rows + EdgeRows(l, edges) == rows && facts.edges + [] == facts.edges;
    } else {
      var before, last := edges[..|edges| - 1], edges[|edges| - 1];
      EdgeLinesParsed(s, l, start, rows, before);
      EdgeRowTagged(l, last);
      ParseLinesNext(s, start, rows + EdgeRows(l, before), EdgeRow(l, last));
      assert rows + EdgeRows(l, edges) == rows + EdgeRows(l, before) + [EdgeRow(l, last)];
      if DecodedEdges(s, l, edges).Success? {
        Assoc(facts.edges, DecodedEdges(s, l, before).value, ParseEdge(s, EdgeRow(l, last)).value);
      }
    }
  }

  lemma {:induction false} UnresolvedLinesParsed(s: Schema, l: Labels, start: RepositoryFacts, rows: seq<seq<Text>>,
                                                 unresolved: seq<UnresolvedFact>)
    requires forall i :: 0 <= i < |rows| ==> rows[i] != []
    requires ParseLines(s, 4, start, RowLines(rows)).Success?
    ensures forall i :: 0 <= i < |rows + UnresolvedRows(l, unresolved)| ==> (rows + UnresolvedRows(l, unresolved))[i] != []
    ensures var facts := ParseLines(s, 4, start, RowLines(rows)).value;
      ParseLines(s, 4, start, RowLines(rows + UnresolvedRows(l, unresolved))) ==
      match DecodedUnresolved(s, l, unresolved)
      case Failure(error) => Failure(error)
      case Success(decoded) => Success(facts.(unresolved := facts.unresolved + decoded))
    decreases |unresolved|
  {
    hide ParseUnresolved, UnresolvedRow, ParseLine, ParseLines;
    var facts := ParseLines(s, 4, start, RowLines(rows)).value;
    if unresolved == [] {
      assert rows + UnresolvedRows(l, unresolved) == rows && facts.unresolved + [] == facts.unresolved;
    } else {
      var before, last := unresolved[..|unresolved| - 1], unresolved[|unresolved| - 1];
      UnresolvedLinesParsed(s, l, start, rows, before);
      UnresolvedRowTagged(l, last);
      ParseLinesNext(s, start, rows + UnresolvedRows(l, before), UnresolvedRow(l, last));
      assert rows + UnresolvedRows(l, unresolved) == rows + UnresolvedRows(l, before) + [UnresolvedRow(l, last)];
      if DecodedUnresolved(s, l, unresolved).Success? {
        Assoc(facts.unresolved, DecodedUnresolved(s, l, before).value, ParseUnresolved(s, UnresolvedRow(l, last)).value);
      }
    }
  }

  lemma {:induction false} LinesStop(s: Schema, start: RepositoryFacts, a: seq<Text>, b: seq<Text>)
    requires ParseLines(s, 4, start, a).Failure?
    ensures ParseLines(s, 4, start, a + b).Failure?
    decreases |b|
  {
    hide ParseLine;
    if b == [] {
      assert a + b == a;
    } else {
      assert (a + b)[..|a + b| - 1] == a + b[..|b| - 1];
      LinesStop(s, start, a, b[..|b| - 1]);
    }
  }

  lemma RowLinesJoin(a: seq<seq<Text>>, b: seq<seq<Text>>)
    requires forall i :: 0 <= i < |a| ==> a[i] != []
    requires forall i :: 0 <= i < |b| ==> b[i] != []
    ensures forall i :: 0 <= i < |a + b| ==> (a + b)[i] != []
    ensures RowLines(a + b) == RowLines(a) + RowLines(b)
  {
    hide Line;
    var x, y := RowLines(a + b), RowLines(a) + RowLines(b);
    forall i | 0 <= i < |x| ensures x[i] == y[i] {}
    assert x == y;
  }

  /** The three sections are read independently, the first failure ending the reading. */
  lemma RowsParsed(s: Schema, l: Labels, f: RepositoryFacts)
    ensures var nodes, edges, unresolved := DecodedNodes(s, l, f.nodes), DecodedEdges(s, l, f.edges), DecodedUnresolved(s, l, f.unresolved);
      var read := ParseLines(s, 4, NO_FACTS, RowLines(AllRows(l, f)));
      && (read.Success? <==> nodes.Success? && edges.Success? && unresolved.Success?)
      && (read.Success? ==> read.value == RepositoryFacts(nodes.value, edges.value, unresolved.value))
  {
    hide ParseLines, DecodedNodes, DecodedEdges, DecodedUnresolved, NodeRows, EdgeRows, UnresolvedRows, RowLines;
    var a, b, c := NodeRows(l, f.nodes), EdgeRows(l, f.edges), UnresolvedRows(l, f.unresolved);
    NodeLinesParsed(s, l, NO_FACTS, f.nodes);
    RowLinesJoin(a, b);
    RowLinesJoin(a + b, c);
    if DecodedNodes(s, l, f.nodes).Failure? {
      LinesStop(s, NO_FACTS, RowLines(a), RowLines(b));
      LinesStop(s, NO_FACTS, RowLines(a + b), RowLines(c));
    } else {
      EdgeLinesParsed(s, l, NO_FACTS, a, f.edges);
      if DecodedEdges(s, l, f.edges).Failure? {
        LinesStop(s, NO_FACTS, RowLines(a + b), RowLines(c));
      } else {
        UnresolvedLinesParsed(s, l, NO_FACTS, a + b, f.unresolved);
        if DecodedUnresolved(s, l, f.unresolved).Success? {
          var n, e, u := DecodedNodes(s, l, f.nodes).value, DecodedEdges(s, l, f.edges).value, DecodedUnresolved(s, l, f.unresolved).value;
          assert [] + n == n && [] + e == e && [] + u == u;
        }
      }
    }
  }

  lemma SortingMembers(facts: RepositoryFacts)
    ensures forall n :: n in Sorting(facts).nodes <==> n in facts.nodes
    ensures forall e :: e in Sorting(facts).edges <==> e in facts.edges
    ensures forall u :: u in Sorting(facts).unresolved <==> u in facts.unresolved
  {
    FactsTotal();
    hide NodeLe, EdgeLe, UnresolvedLe, Sort;
    SortSorts(NodeLe, facts.nodes);
    SortSorts(EdgeLe, facts.edges);
    SortSorts(UnresolvedLe, facts.unresolved);
  }

  lemma EncodedParsed(s: Schema, l: Labels, facts: RepositoryFacts)
    ensures Parse(s, Encode(l, facts)) == ParseLines(s, 4, NO_FACTS, RowLines(AllRows(l, Sorting(facts))))
  {
    hide LinesOf, ParseLines, RowLines, Rows, AllRows, Sorting;
    var rows := AllRows(l, Sorting(facts));
    LinesEncoded(rows);
    assert ([HEADER_V4] + RowLines(rows))[1..] == RowLines(rows);
    assert ParseHeader(HEADER_V4) == Some(4) by {
      assert HEADER_V4 == Header(4);
      assert HEADER_V4[8] != Header(1)[8] && HEADER_V4[8] != Header(2)[8] && HEADER_V4[8] != Header(3)[8];
    }
  }

  /** Encoding and reading gives back the sorted facts exactly when every fact is encodable. */
  lemma RoundTrip(s: Schema, l: Labels, facts: RepositoryFacts)
    ensures Parse(s, Encode(l, facts)) == Success(Sorting(facts)) <==> Encodable(s, l, facts)
  {
    hide ParseLines, RowLines, AllRows, DecodedNodes, DecodedEdges, DecodedUnresolved, Sorting, Parse, Encode;
    hide NodeEncodable, EdgeEncodable, UnresolvedEncodable;
    var sorted := Sorting(facts);
    EncodedParsed(s, l, facts);
    RowsParsed(s, l, sorted);
    NodesDecoded(s, l, sorted.nodes);
    EdgesDecoded(s, l, sorted.edges);
    UnresolvedDecoded(s, l, sorted.unresolved);
    SortingMembers(facts);
  }

  /** Facts that are one unresolved reference. */
  function Lone(u: UnresolvedFact): RepositoryFacts {
    RepositoryFacts([], [], [u])
  }

  /** A candidate name that is the literal dash is written like a missing one, and read back as missing. */
  lemma DashLost(s: Schema, l: Labels, u: UnresolvedFact)
    requires u.candidateName == Some(DASH) && UnresolvedEncodable(s, l, u.(candidateName := None))
    ensures Parse(s, Encode(l, Lone(u))) == Success(Lone(u.(candidateName := None)))
    ensures Parse(s, Encode(l, Lone(u))) != Success(Sorting(Lone(u)))
  {
    var v := u.(candidateName := None);
    assert UnresolvedRow(l, u) == UnresolvedRow(l, v);
    LoneSorted(u);
    LoneSorted(v);
    LoneEncoded(l, u);
    LoneEncoded(l, v);
    hide Parse, Encode, UnresolvedRow, UnresolvedEncodable, Sorting;
    RoundTrip(s, l, Lone(v));
  }

  lemma LoneSorted(u: UnresolvedFact)
    ensures Sorting(Lone(u)) == Lone(u)
  {
    hide UnresolvedLe;
    assert [u][1..] == [];
    assert Sort(UnresolvedLe, [u]) == InsertInto(UnresolvedLe, u, []) == [u];
  }

  lemma LoneEncoded(l: Labels, u: UnresolvedFact)
    ensures forall v :: UnresolvedRow(l, v) == UnresolvedRow(l, u) ==> Encode(l, Lone(v)) == Encode(l, Lone(u))
  {
    forall v: UnresolvedFact | UnresolvedRow(l, v) == UnresolvedRow(l, u) ensures Encode(l, Lone(v)) == Encode(l, Lone(u)) {
      LoneSorted(u);
      LoneSorted(v);
    }
  }
}
