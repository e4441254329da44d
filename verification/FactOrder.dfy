/**
 arcana/src/repository/model.rs and unresolved.rs: the derived orders of the facts, as comparing field by field in the
 order of the declarations gives them.
 */
module FactOrder {
  import opened Wrappers
  import opened Lexicon
  import opened Ordering
  import opened Facts

  datatype Comparison = Less | Equal | Greater

  /** The next field is looked at only if the fields before are equal. */
  function Then(first: Comparison, next: Comparison): Comparison {
    if first.Equal? then next else first
  }

  function CompareInt(a: int, b: int): Comparison {
    if a < b then Less else if a == b then Equal else Greater
  }

  /** Byte by byte; a text comes before any that it begins. */
  function CompareText(a: Text, b: Text): Comparison {
    if a == [] && b == [] then Equal
    else if a == [] then Less
    else if b == [] then Greater
    else Then(CompareInt(a[0], b[0]), CompareText(a[1..], b[1..]))
  }

  /** Nothing comes before something. */
  function CompareOption<T>(compare: (T, T) -> Comparison, a: Option<T>, b: Option<T>): Comparison {
    match (a, b)
    case (None, None) => Equal
    case (None, Some(_)) => Less
    case (Some(_), None) => Greater
    case (Some(x), Some(y)) => compare(x, y)
  }

  function CompareSpan(a: SourceSpan, b: SourceSpan): Comparison {
    Then(CompareText(a.path, b.path), Then(CompareInt(a.startLine, b.startLine), Then(CompareInt(a.startColumn, b.startColumn),
    Then(CompareInt(a.endLine, b.endLine), CompareInt(a.endColumn, b.endColumn)))))
  }

  /** The reasons of the declaration, and behind them the unknown ones by their texts. */
  function CompareReason(a: Reason, b: Reason): Comparison {
    match (a, b)
    case (Code(x), Code(y)) => CompareInt(x, y)
    case (Code(_), Unknown(_)) => Less
    case (Unknown(_), Code(_)) => Greater
    case (Unknown(x), Unknown(y)) => CompareText(x, y)
  }

  function CompareContent(a: ContentId, b: ContentId): Comparison {
    CompareInt(a, b)
  }

  function CompareNode(a: NodeFact, b: NodeFact): Comparison {
    Then(CompareInt(a.key, b.key), Then(CompareOption(CompareText, a.externalIdentity, b.externalIdentity),
    Then(CompareInt(a.kind, b.kind), Then(CompareText(a.path, b.path), Then(CompareText(a.name, b.name),
    Then(CompareText(a.qualifiedName, b.qualifiedName), Then(CompareOption(CompareContent, a.contentId, b.contentId),
    CompareOption(CompareSpan, a.span, b.span))))))))
  }

  function CompareEdge(a: EdgeFact, b: EdgeFact): Comparison {
    Then(CompareInt(a.source, b.source), Then(CompareInt(a.target, b.target), Then(CompareInt(a.relation, b.relation),
    CompareOption(CompareSpan, a.span, b.span))))
  }

  function CompareUnresolved(a: UnresolvedFact, b: UnresolvedFact): Comparison {
    Then(CompareInt(a.source, b.source), Then(CompareInt(a.relation, b.relation), Then(CompareText(a.expression, b.expression),
    Then(CompareOption(CompareText, a.candidateNamespace, b.candidateNamespace),
    Then(CompareOption(CompareText, a.candidateName, b.candidateName), Then(CompareReason(a.reason, b.reason),
    CompareOption(CompareSpan, a.span, b.span)))))))
  }

  // ----- the lists of fields are compared so -----

  ghost predicate Agrees(x: seq<int>, y: seq<int>, c: Comparison) {
    (c.Equal? <==> x == y) && (!c.Greater? <==> FieldLe(x, y))
  }

  ghost predicate AllAgree(x: Fields, y: Fields, c: Comparison) {
    (c.Equal? <==> x == y) && (!c.Greater? <==> FieldsLe(x, y))
  }

  lemma OneMore(x: seq<int>, xs: Fields, y: seq<int>, ys: Fields, c: Comparison, d: Comparison)
    requires Agrees(x, y, c) && AllAgree(xs, ys, d)
    ensures AllAgree([x] + xs, [y] + ys, Then(c, d))
  {
    hide FieldLe;
    var a, b := [x] + xs, [y] + ys;
    assert a[0] == x && b[0] == y && a[1..] == xs && b[1..] == ys;
  }

  lemma NoMore()
    ensures AllAgree([], [], Equal)
  {
  }

  lemma IntAgrees(a: int, b: int)
    ensures Agrees([a], [b], CompareInt(a, b))
  {
    assert [a][0] == a && [b][0] == b;
    if a == b { LexReflexive(IntLe, [a]); }
  }

  lemma {:induction false} TextAgrees(a: Text, b: Text)
    ensures Agrees(TextField(a), TextField(b), CompareText(a, b))
  {
    var x, y := TextField(a), TextField(b);
    if a != [] && b != [] {
      TextAgrees(a[1..], b[1..]);
      assert x[1..] == TextField(a[1..]) && y[1..] == TextField(b[1..]);
      assert x == [a[0] as int] + x[1..] && y == [b[0] as int] + y[1..];
    }
  }

  lemma OptionalAgrees(a: Option<Text>, b: Option<Text>)
    ensures Agrees(OptionalField(a), OptionalField(b), CompareOption(CompareText, a, b))
  {
    if a.Some? && b.Some? {
      TextAgrees(a.value, b.value);
      var x, y := OptionalField(a), OptionalField(b);
      assert x[1..] == TextField(a.value) && y[1..] == TextField(b.value);
    }
  }

  lemma ContentAgrees(a: Option<ContentId>, b: Option<ContentId>)
    ensures Agrees(ContentField(a), ContentField(b), CompareOption(CompareContent, a, b))
  {
    if a.Some? && b.Some? { IntAgrees(a.value, b.value); }
  }

  lemma ReasonAgrees(a: Reason, b: Reason)
    ensures Agrees(ReasonField(a), ReasonField(b), CompareReason(a, b))
  {
    var x, y := ReasonField(a), ReasonField(b);
    match (a, b)
    case (Code(m), Code(n)) =>
      IntAgrees(m, n);
      assert x[1..] == [m] && y[1..] == [n];
      assert x == [0] + x[1..] && y == [0] + y[1..];
    case (Unknown(s), Unknown(t)) =>
      TextAgrees(s, t);
      assert x[1..] == TextField(s) && y[1..] == TextField(t);
    case _ => assert x[0] != y[0];
  }

  lemma SpansAgree(a: Option<SourceSpan>, b: Option<SourceSpan>)
    ensures AllAgree(SpanFields(a), SpanFields(b), CompareOption(CompareSpan, a, b))
  {
    hide FieldLe, TextField, CompareText;
    var x, y := SpanFields(a), SpanFields(b);
    if a.Some? && b.Some? {
      var p, q := a.value, b.value;
      NoMore();
      IntAgrees(p.endColumn, q.endColumn);
      OneMore([p.endColumn], [], [q.endColumn], [], CompareInt(p.endColumn, q.endColumn), Equal);
      IntAgrees(p.endLine, q.endLine);
      var x5, y5: Fields := [[p.endColumn]], [[q.endColumn]];
      assert [[p.endColumn as int]] + [] == x5 && [[q.endColumn as int]] + [] == y5;
      var c5 := CompareInt(p.endColumn, q.endColumn);
      OneMore([p.endLine], x5, [q.endLine], y5, CompareInt(p.endLine, q.endLine), c5);
      var x4, y4 := [[p.endLine as int]] + x5, [[q.endLine as int]] + y5;
      var c4 := Then(CompareInt(p.endLine, q.endLine), c5);
      IntAgrees(p.startColumn, q.startColumn);
      OneMore([p.startColumn], x4, [q.startColumn], y4, CompareInt(p.startColumn, q.startColumn), c4);
      var x3, y3 := [[p.startColumn as int]] + x4, [[q.startColumn as int]] + y4;
      var c3 := Then(CompareInt(p.startColumn, q.startColumn), c4);
      IntAgrees(p.startLine, q.startLine);
      OneMore([p.startLine], x3, [q.startLine], y3, CompareInt(p.startLine, q.startLine), c3);
      var x2, y2 := [[p.startLine as int]] + x3, [[q.startLine as int]] + y3;
      var c2 := Then(CompareInt(p.startLine, q.startLine), c3);
      TextAgrees(p.path, q.path);
      OneMore(TextField(p.path), x2, TextField(q.path), y2, CompareText(p.path, q.path), c2);
      IntAgrees(1, 1);
      OneMore([1], [TextField(p.path)] + x2, [1], [TextField(q.path)] + y2, Equal, Then(CompareText(p.path, q.path), c2));
      assert x == [[1]] + ([TextField(p.path)] + x2) && y == [[1]] + ([TextField(q.path)] + y2);
    } else {
      SpanMissing(a, b);
    }
  }

  lemma SpanMissing(a: Option<SourceSpan>, b: Option<SourceSpan>)
    requires a.None? || b.None?
    ensures AllAgree(SpanFields(a), SpanFields(b), CompareOption(CompareSpan, a, b))
  {
    hide TextField;
    var x, y := SpanFields(a), SpanFields(b);
    assert x[0] == (if a.Some? then [1] else []) && y[0] == (if b.Some? then [1] else []);
    if a.None? && b.None? {
      LexReflexive(FieldLe, x);
    }
  }

  /** The order of nodes is the derived one. */
  lemma NodeOrder(a: NodeFact, b: NodeFact)
    ensures NodeLe(a, b) <==> !CompareNode(a, b).Greater?
  {
    hide FieldLe, TextField, CompareText, OptionalField, ContentField, SpanFields, CompareOption, CompareSpan, FieldsLe;
    SpansAgree(a.span, b.span);
    var x8, y8, c8 := SpanFields(a.span), SpanFields(b.span), CompareOption(CompareSpan, a.span, b.span);
    ContentAgrees(a.contentId, b.contentId);
    OneMore(ContentField(a.contentId), x8, ContentField(b.contentId), y8, CompareOption(CompareContent, a.contentId, b.contentId), c8);
    var x7, y7 := [ContentField(a.contentId)] + x8, [ContentField(b.contentId)] + y8;
    var c7 := Then(CompareOption(CompareContent, a.contentId, b.contentId), c8);
    TextAgrees(a.qualifiedName, b.qualifiedName);
    OneMore(TextField(a.qualifiedName), x7, TextField(b.qualifiedName), y7, CompareText(a.qualifiedName, b.qualifiedName), c7);
    var x6, y6 := [TextField(a.qualifiedName)] + x7, [TextField(b.qualifiedName)] + y7;
    var c6 := Then(CompareText(a.qualifiedName, b.qualifiedName), c7);
    TextAgrees(a.name, b.name);
    OneMore(TextField(a.name), x6, TextField(b.name), y6, CompareText(a.name, b.name), c6);
    var x5, y5, c5 := [TextField(a.name)] + x6, [TextField(b.name)] + y6, Then(CompareText(a.name, b.name), c6);
    TextAgrees(a.path, b.path);
    OneMore(TextField(a.path), x5, TextField(b.path), y5, CompareText(a.path, b.path), c5);
    var x4, y4, c4 := [TextField(a.path)] + x5, [TextField(b.path)] + y5, Then(CompareText(a.path, b.path), c5);
    IntAgrees(a.kind, b.kind);
    OneMore([a.kind], x4, [b.kind], y4, CompareInt(a.kind, b.kind), c4);
    var x3, y3, c3 := [[a.kind as int]] + x4, [[b.kind as int]] + y4, Then(CompareInt(a.kind, b.kind), c4);
    OptionalAgrees(a.externalIdentity, b.externalIdentity);
    var external := CompareOption(CompareText, a.externalIdentity, b.externalIdentity);
    OneMore(OptionalField(a.externalIdentity), x3, OptionalField(b.externalIdentity), y3, external, c3);
    var x2, y2 := [OptionalField(a.externalIdentity)] + x3, [OptionalField(b.externalIdentity)] + y3;
    IntAgrees(a.key, b.key);
    OneMore([a.key], x2, [b.key], y2, CompareInt(a.key, b.key), Then(external, c3));
    assert NodeFields(a) == [[a.key as int]] + x2 && NodeFields(b) == [[b.key as int]] + y2;
  }

  lemma EdgeOrder(a: EdgeFact, b: EdgeFact)
    ensures EdgeLe(a, b) <==> !CompareEdge(a, b).Greater?
  {
    hide FieldLe, SpanFields, CompareOption, CompareSpan, FieldsLe;
    SpansAgree(a.span, b.span);
    var x4, y4, c4 := SpanFields(a.span), SpanFields(b.span), CompareOption(CompareSpan, a.span, b.span);
    IntAgrees(a.relation, b.relation);
    OneMore([a.relation], x4, [b.relation], y4, CompareInt(a.relation, b.relation), c4);
    var x3, y3, c3 := [[a.relation as int]] + x4, [[b.relation as int]] + y4, Then(CompareInt(a.relation, b.relation), c4);
    IntAgrees(a.target, b.target);
    OneMore([a.target], x3, [b.target], y3, CompareInt(a.target, b.target), c3);
    var x2, y2, c2 := [[a.target as int]] + x3, [[b.target as int]] + y3, Then(CompareInt(a.target, b.target), c3);
    IntAgrees(a.source, b.source);
    OneMore([a.source], x2, [b.source], y2, CompareInt(a.source, b.source), c2);
    assert EdgeFields(a) == [[a.source as int]] + x2 && EdgeFields(b) == [[b.source as int]] + y2;
  }

  lemma UnresolvedOrder(a: UnresolvedFact, b: UnresolvedFact)
    ensures UnresolvedLe(a, b) <==> !CompareUnresolved(a, b).Greater?
  {
    hide FieldLe, TextField, CompareText, OptionalField, ReasonField, SpanFields, CompareOption, CompareSpan, CompareReason, FieldsLe;
    SpansAgree(a.span, b.span);
    var x7, y7, c7 := SpanFields(a.span), SpanFields(b.span), CompareOption(CompareSpan, a.span, b.span);
    ReasonAgrees(a.reason, b.reason);
    OneMore(ReasonField(a.reason), x7, ReasonField(b.reason), y7, CompareReason(a.reason, b.reason), c7);
    var x6, y6, c6 := [ReasonField(a.reason)] + x7, [ReasonField(b.reason)] + y7, Then(CompareReason(a.reason, b.reason), c7);
    OptionalAgrees(a.candidateName, b.candidateName);
    var name := CompareOption(CompareText, a.candidateName, b.candidateName);
    OneMore(OptionalField(a.candidateName), x6, OptionalField(b.candidateName), y6, name, c6);
    var x5, y5, c5 := [OptionalField(a.candidateName)] + x6, [OptionalField(b.candidateName)] + y6, Then(name, c6);
    OptionalAgrees(a.candidateNamespace, b.candidateNamespace);
    var namespace := CompareOption(CompareText, a.candidateNamespace, b.candidateNamespace);
    OneMore(OptionalField(a.candidateNamespace), x5, OptionalField(b.candidateNamespace), y5, namespace, c5);
    var x4, y4 := [OptionalField(a.candidateNamespace)] + x5, [OptionalField(b.candidateNamespace)] + y5;
    var c4 := Then(namespace, c5);
    TextAgrees(a.expression, b.expression);
    OneMore(TextField(a.expression), x4, TextField(b.expression), y4, CompareText(a.expression, b.expression), c4);
    var x3, y3, c3 := [TextField(a.expression)] + x4, [TextField(b.expression)] + y4, Then(CompareText(a.expression, b.expression), c4);
    IntAgrees(a.relation, b.relation);
    OneMore([a.relation], x3, [b.relation], y3, CompareInt(a.relation, b.relation), c3);
    var x2, y2, c2 := [[a.relation as int]] + x3, [[b.relation as int]] + y3, Then(CompareInt(a.relation, b.relation), c3);
    IntAgrees(a.source, b.source);
    OneMore([a.source], x2, [b.source], y2, CompareInt(a.source, b.source), c2);
    assert UnresolvedFields(a) == [[a.source as int]] + x2 && UnresolvedFields(b) == [[b.source as int]] + y2;
  }
}
