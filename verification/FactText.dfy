/**
 arcana/src/repository/fact_encode.rs: the canonical tab-separated text of repository facts.

 Characters with a meaning of their own are escaped, facts are sorted, and every fact is a line of
 fields. The labels of kinds, relations and reasons are opaque functions.
 */
module FactText {
  import opened Wrappers
  import opened Lexicon
  import opened Ordering
  import opened Facts
  import opened TextSplit
  import opened Numerals

  const NUL: byte := 0
  const TAB: byte := 9
  const NEWLINE: byte := 10
  const RETURN: byte := 13
  const BACKSLASH: byte := 92

  /** The ASCII text "version\t4", tab included. */
  const HEADER_V4: Text := [118, 101, 114, 115, 105, 111, 110, 9, 52]
  const DASH: Text := [45]
  const NODE_TAG: Text := [78]
  const EDGE_TAG: Text := [69]
  const UNRESOLVED_TAG: Text := [85]

  datatype Labels = Labels(kind: NodeKind -> Text, relation: RelationKind -> Text, reason: Reason -> Text)

  // ----- escaping -----

  function EscapeByte(b: byte): Text {
    if b == BACKSLASH then [BACKSLASH, BACKSLASH]
    else if b == TAB then [BACKSLASH, 116]
    else if b == NEWLINE then [BACKSLASH, 110]
    else if b == RETURN then [BACKSLASH, 114]
    else if b == NUL then [BACKSLASH, 48]
    else [b]
  }

  function Escape(value: Text): Text {
    if value == [] then [] else Escape(value[..|value| - 1]) + EscapeByte(value[|value| - 1])
  }

  predicate Raw(b: byte) {
    b == TAB || b == NEWLINE || b == RETURN || b == NUL
  }

  /** An escaped field holds no raw tab, newline, carriage return or NUL. */
  lemma {:induction false} EscapeClean(value: Text)
    ensures forall b :: b in Escape(value) ==> !Raw(b)
  {
    if value != [] { EscapeClean(value[..|value| - 1]); }
  }

  method PushField(output: Text, value: Text) returns (r: Text)
    ensures r == output + Escape(value)
  {
    r := output;
    var i := 0;
    while i < |value|
      invariant 0 <= i <= |value| && r == output + Escape(value[..i])
    {
      assert value[..i + 1][..i] == value[..i];
      ghost var before := r;
      if value[i] == BACKSLASH {
        r := r + [BACKSLASH, BACKSLASH];
      } else if value[i] == TAB {
        r := r + [BACKSLASH, 116];
      } else if value[i] == NEWLINE {
        r := r + [BACKSLASH, 110];
      } else if value[i] == RETURN {
        r := r + [BACKSLASH, 114];
      } else if value[i] == NUL {
        r := r + [BACKSLASH, 48];
      } else {
        r := r + [value[i]];
      }
      assert r == before + EscapeByte(value[i]);
      assert output + Escape(value[..i]) + EscapeByte(value[i]) == output + (Escape(value[..i]) + EscapeByte(value[i]));
      i := i + 1;
    }
    assert value[..i] == value;
  }

  // ----- rows -----

  function Id(value: u64): Text { Hex(value, 16) }

  function OptionalText(value: Option<Text>): Text {
    match value case None => DASH case Some(text) => text
  }

  function OptionalId(value: Option<ContentId>): Text {
    match value case None => DASH case Some(id) => Id(id)
  }

  function SpanRow(span: Option<SourceSpan>): (r: seq<Text>)
    ensures |r| == 5
  {
    match span
    case None => [DASH, DASH, DASH, DASH, DASH]
    case Some(p) => [p.path, Decimal(p.startLine), Decimal(p.startColumn), Decimal(p.endLine), Decimal(p.endColumn)]
  }

  function NodeRow(l: Labels, n: NodeFact): (r: seq<Text>)
    ensures |r| == 13
  {
    [NODE_TAG, Id(n.key), OptionalText(n.externalIdentity), l.kind(n.kind), n.path, n.name, n.qualifiedName,
     OptionalId(n.contentId)] + SpanRow(n.span)
  }

  function EdgeRow(l: Labels, e: EdgeFact): (r: seq<Text>)
    ensures |r| == 9
  {
    [EDGE_TAG, Id(e.source), Id(e.target), l.relation(e.relation)] + SpanRow(e.span)
  }

  function UnresolvedRow(l: Labels, u: UnresolvedFact): (r: seq<Text>)
    ensures |r| == 12
  {
    [UNRESOLVED_TAG, Id(u.source), l.relation(u.relation), l.reason(u.reason), u.expression,
     OptionalText(u.candidateNamespace), OptionalText(u.candidateName)] + SpanRow(u.span)
  }

  /** The fields behind the first, each after a tab. */
  function Tail(fields: seq<Text>): Text {
    if fields == [] then [] else Tail(fields[..|fields| - 1]) + ([TAB] + Escape(fields[|fields| - 1]))
  }

  function Line(row: seq<Text>): Text
    requires row != []
  {
    Escape(row[0]) + Tail(row[1..])
  }

  /** Lines, each ended by a newline. */
  function Rows(rows: seq<seq<Text>>): Text
    requires forall i :: 0 <= i < |rows| ==> rows[i] != []
  {
    if rows == [] then []
    else Rows(rows[..|rows| - 1]) + (Line(rows[|rows| - 1]) + [NEWLINE])
  }

  function NodeRows(l: Labels, nodes: seq<NodeFact>): (r: seq<seq<Text>>)
    ensures forall i :: 0 <= i < |r| ==> r[i] != []
  {
    seq(|nodes|, i requires 0 <= i < |nodes| => NodeRow(l, nodes[i]))
  }

  function EdgeRows(l: Labels, edges: seq<EdgeFact>): (r: seq<seq<Text>>)
    ensures forall i :: 0 <= i < |r| ==> r[i] != []
  {
    seq(|edges|, i requires 0 <= i < |edges| => EdgeRow(l, edges[i]))
  }

  function UnresolvedRows(l: Labels, unresolved: seq<UnresolvedFact>): (r: seq<seq<Text>>)
    ensures forall i :: 0 <= i < |r| ==> r[i] != []
  {
    seq(|unresolved|, i requires 0 <= i < |unresolved| => UnresolvedRow(l, unresolved[i]))
  }

  function Sorting(facts: RepositoryFacts): RepositoryFacts {
    RepositoryFacts(Sort(NodeLe, facts.nodes), Sort(EdgeLe, facts.edges), Sort(UnresolvedLe, facts.unresolved))
  }

  function AllRows(l: Labels, facts: RepositoryFacts): (r: seq<seq<Text>>)
    ensures forall i :: 0 <= i < |r| ==> r[i] != []
  {
    NodeRows(l, facts.nodes) + EdgeRows(l, facts.edges) + UnresolvedRows(l, facts.unresolved)
  }

  /** `encode_facts`. */
  function Encode(l: Labels, facts: RepositoryFacts): Text {
    HEADER_V4 + [NEWLINE] + Rows(AllRows(l, Sorting(facts)))
  }

  /** Permuted facts have the same text. */
  lemma EncodeCanonical(l: Labels, a: RepositoryFacts, b: RepositoryFacts)
    requires multiset(a.nodes) == multiset(b.nodes) && multiset(a.edges) == multiset(b.edges)
    requires multiset(a.unresolved) == multiset(b.unresolved)
    ensures Encode(l, a) == Encode(l, b)
  {
    FactsTotal();
    hide NodeLe, EdgeLe, UnresolvedLe, AllRows, Rows;
    SortCanonical(NodeLe, a.nodes, b.nodes);
    SortCanonical(EdgeLe, a.edges, b.edges);
    SortCanonical(UnresolvedLe, a.unresolved, b.unresolved);
  }

  // ----- the encoder -----

  lemma TailNext(base: Text, done: seq<Text>, value: Text)
    ensures base + Tail(done + [value]) == base + Tail(done) + [TAB] + Escape(value)
  {
    hide Escape;
    assert (done + [value])[..|done|] == done;
  }

  /** A tab and one more field behind those already pushed. */
  method PushTabbed(ghost base: Text, ghost done: seq<Text>, output: Text, value: Text) returns (r: Text)
    requires output == base + Tail(done)
    ensures r == base + Tail(done + [value])
  {
    hide Escape, Tail;
    r := PushField(output + [TAB], value);
    TailNext(base, done, value);
  }

  method PushSpan(ghost base: Text, ghost done: seq<Text>, output: Text, span: Option<SourceSpan>) returns (r: Text)
    requires output == base + Tail(done)
    ensures r == base + Tail(done + SpanRow(span))
  {
    hide Tail, Decimal;
    var fields :=
      match span
      case None => [DASH, DASH, DASH, DASH, DASH]
      case Some(p) => [p.path, Decimal(p.startLine), Decimal(p.startColumn), Decimal(p.endLine), Decimal(p.endColumn)];
    r := output;
    assert done + fields[..0] == done;
    for i := 0 to |fields|
      invariant r == base + Tail(done + fields[..i])
    {
      r := PushTabbed(base, done + fields[..i], r, fields[i]);
      assert done + fields[..i] + [fields[i]] == done + fields[..i + 1];
    }
    assert fields[..|fields|] == fields;
  }

  /** Ends a row: what was pushed is its line. */
  lemma RowDone(before: Text, base: Text, tag: Text, row: seq<Text>)
    requires row != [] && row[0] == tag && base == before + tag && Escape(tag) == tag
    ensures base + Tail(row[1..]) == before + Line(row)
  {
    hide Escape, Tail;
  }

  lemma TagsPlain()
    ensures Escape(NODE_TAG) == NODE_TAG && Escape(EDGE_TAG) == EDGE_TAG && Escape(UNRESOLVED_TAG) == UNRESOLVED_TAG
    ensures Tail([]) == []
  {
    assert NODE_TAG[..0] == [] && EDGE_TAG[..0] == [] && UNRESOLVED_TAG[..0] == [];
    assert Escape([]) == [];
  }

  method PushNode(l: Labels, output: Text, n: NodeFact) returns (r: Text)
    ensures r == output + (Line(NodeRow(l, n)) + [NEWLINE])
  {
    TagsPlain();
    hide Escape, Tail, Hex, SpanRow;
    ghost var base := output + NODE_TAG;
    r := output + NODE_TAG;
    assert base + Tail([]) == base;
    r := PushTabbed(base, [], r, Id(n.key));
    ghost var done := [Id(n.key)];
    assert [] + done == done;
    r := PushTabbed(base, done, r, OptionalText(n.externalIdentity));
    done := done + [OptionalText(n.externalIdentity)];
    r := PushTabbed(base, done, r, l.kind(n.kind));
    done := done + [l.kind(n.kind)];
    r := PushTabbed(base, done, r, n.path);
    done := done + [n.path];
    r := PushTabbed(base, done, r, n.name);
    done := done + [n.name];
    r := PushTabbed(base, done, r, n.qualifiedName);
    done := done + [n.qualifiedName];
    r := PushTabbed(base, done, r, OptionalId(n.contentId));
    done := done + [OptionalId(n.contentId)];
    r := PushSpan(base, done, r, n.span);
    assert done + SpanRow(n.span) == NodeRow(l, n)[1..];
    RowDone(output, base, NODE_TAG, NodeRow(l, n));
    r := r + [NEWLINE];
  }

  method PushEdge(l: Labels, output: Text, e: EdgeFact) returns (r: Text)
    ensures r == output + (Line(EdgeRow(l, e)) + [NEWLINE])
  {
    TagsPlain();
    hide Escape, Tail, Hex, SpanRow;
    ghost var base := output + EDGE_TAG;
    r := output + EDGE_TAG;
    assert base + Tail([]) == base;
    r := PushTabbed(base, [], r, Id(e.source));
    ghost var done := [Id(e.source)];
    assert [] + done == done;
    r := PushTabbed(base, done, r, Id(e.target));
    done := done + [Id(e.target)];
    r := PushTabbed(base, done, r, l.relation(e.relation));
    done := done + [l.relation(e.relation)];
    r := PushSpan(base, done, r, e.span);
    assert done + SpanRow(e.span) == EdgeRow(l, e)[1..];
    RowDone(output, base, EDGE_TAG, EdgeRow(l, e));
    r := r + [NEWLINE];
  }

  method PushUnresolved(l: Labels, output: Text, u: UnresolvedFact) returns (r: Text)
    ensures r == output + (Line(UnresolvedRow(l, u)) + [NEWLINE])
  {
    TagsPlain();
    hide Escape, Tail, Hex, SpanRow;
    ghost var base := output + UNRESOLVED_TAG;
    r := output + UNRESOLVED_TAG;
    assert base + Tail([]) == base;
    r := PushTabbed(base, [], r, Id(u.source));
    ghost var done := [Id(u.source)];
    assert [] + done == done;
    r := PushTabbed(base, done, r, l.relation(u.relation));
    done := done + [l.relation(u.relation)];
    r := PushTabbed(base, done, r, l.reason(u.reason));
    done := done + [l.reason(u.reason)];
    r := PushTabbed(base, done, r, u.expression);
    done := done + [u.expression];
    r := PushTabbed(base, done, r, OptionalText(u.candidateNamespace));
    done := done + [OptionalText(u.candidateNamespace)];
    r := PushTabbed(base, done, r, OptionalText(u.candidateName));
    done := done + [OptionalText(u.candidateName)];
    r := PushSpan(base, done, r, u.span);
    assert done + SpanRow(u.span) == UnresolvedRow(l, u)[1..];
    RowDone(output, base, UNRESOLVED_TAG, UnresolvedRow(l, u));
    r := r + [NEWLINE];
  }

  lemma RowsNext(output: Text, rows: seq<seq<Text>>, row: seq<Text>)
    requires row != [] && forall i :: 0 <= i < |rows| ==> rows[i] != []
    ensures forall i :: 0 <= i < |rows + [row]| ==> (rows + [row])[i] != []
    ensures output + Rows(rows + [row]) == output + Rows(rows) + (Line(row) + [NEWLINE])
  {
    hide Line;
    assert (rows + [row])[..|rows|] == rows;
  }

  lemma {:induction false} RowsJoin(a: seq<seq<Text>>, b: seq<seq<Text>>)
    requires forall i :: 0 <= i < |a| ==> a[i] != []
    requires forall i :: 0 <= i < |b| ==> b[i] != []
    ensures forall i :: 0 <= i < |a + b| ==> (a + b)[i] != []
    ensures Rows(a + b) == Rows(a) + Rows(b)
    decreases |b|
  {
    hide Line;
    if b == [] {
      assert a + b == a;
    } else {
      var n := |b| - 1;
      RowsJoin(a, b[..n]);
      RowsNext([], a + b[..n], b[n]);
      RowsNext([], b[..n], b[n]);
      assert a + b[..n] + [b[n]] == a + b && b[..n] + [b[n]] == b;
      assert [] + Rows(a + b) == Rows(a + b) && [] + Rows(b) == Rows(b);
    }
  }

  method EncodeNodes(l: Labels, output: Text, nodes: seq<NodeFact>) returns (r: Text)
    ensures r == output + Rows(NodeRows(l, nodes))
  {
    hide Line, NodeRow;
    r := output;
    assert NodeRows(l, nodes[..0]) == [];
    for i := 0 to |nodes|
      invariant r == output + Rows(NodeRows(l, nodes[..i]))
    {
      r := PushNode(l, r, nodes[i]);
      RowsNext(output, NodeRows(l, nodes[..i]), NodeRow(l, nodes[i]));
      assert NodeRows(l, nodes[..i + 1]) == NodeRows(l, nodes[..i]) + [NodeRow(l, nodes[i])];
    }
    assert nodes[..|nodes|] == nodes;
  }

  method EncodeEdges(l: Labels, output: Text, edges: seq<EdgeFact>) returns (r: Text)
    ensures r == output + Rows(EdgeRows(l, edges))
  {
    hide Line, EdgeRow;
    r := output;
    assert EdgeRows(l, edges[..0]) == [];
    for i := 0 to |edges|
      invariant r == output + Rows(EdgeRows(l, edges[..i]))
    {
      r := PushEdge(l, r, edges[i]);
      RowsNext(output, EdgeRows(l, edges[..i]), EdgeRow(l, edges[i]));
      assert EdgeRows(l, edges[..i + 1]) == EdgeRows(l, edges[..i]) + [EdgeRow(l, edges[i])];
    }
    assert edges[..|edges|] == edges;
  }

  method EncodeUnresolved(l: Labels, output: Text, unresolved: seq<UnresolvedFact>) returns (r: Text)
    ensures r == output + Rows(UnresolvedRows(l, unresolved))
  {
    hide Line, UnresolvedRow;
    r := output;
    assert UnresolvedRows(l, unresolved[..0]) == [];
    for i := 0 to |unresolved|
      invariant r == output + Rows(UnresolvedRows(l, unresolved[..i]))
    {
      r := PushUnresolved(l, r, unresolved[i]);
      RowsNext(output, UnresolvedRows(l, unresolved[..i]), UnresolvedRow(l, unresolved[i]));
      assert UnresolvedRows(l, unresolved[..i + 1]) == UnresolvedRows(l, unresolved[..i]) + [UnresolvedRow(l, unresolved[i])];
    }
    assert unresolved[..|unresolved|] == unresolved;
  }

  method EncodeFacts(l: Labels, facts: RepositoryFacts) returns (output: Text)
    ensures output == Encode(l, facts)
  {
    hide Rows, NodeRows, EdgeRows, UnresolvedRows, Sort;
    var sorted := Sorting(facts);
    output := HEADER_V4 + [NEWLINE];
    output := EncodeNodes(l, output, sorted.nodes);
    output := EncodeEdges(l, output, sorted.edges);
    output := EncodeUnresolved(l, output, sorted.unresolved);
    RowsJoin(NodeRows(l, sorted.nodes), EdgeRows(l, sorted.edges));
    RowsJoin(NodeRows(l, sorted.nodes) + EdgeRows(l, sorted.edges), UnresolvedRows(l, sorted.unresolved));
  }

  /** `encode_unresolved_facts`. */
  method EncodeUnresolvedFacts(l: Labels, unresolved: seq<UnresolvedFact>) returns (output: Text)
    ensures output == Encode(l, RepositoryFacts([], [], unresolved))
  {
    hide Rows, UnresolvedRows, UnresolvedLe;
    output := EncodeUnresolved(l, HEADER_V4 + [NEWLINE], Sort(UnresolvedLe, unresolved));
    assert AllRows(l, Sorting(RepositoryFacts([], [], unresolved))) == UnresolvedRows(l, Sort(UnresolvedLe, unresolved));
  }
}
