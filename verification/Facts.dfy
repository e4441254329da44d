/**
 arcana/src/repository/model.rs and unresolved.rs: the facts of a repository and their derived order.

 Kinds and relations are their positions in the declaration, which is what the derived order compares.
 A fact is compared field by field, so each one is mapped to the list of its fields, every field a list
 of numbers; the map is injective, which makes the lexicographic order on the lists a total order on facts.
 */
module Facts {
  import opened Wrappers
  import opened Lexicon
  import opened Ordering

  type u32 = n: int | 0 <= n < 0x1_0000_0000
  type NodeKind = k: nat | k < 27
  type RelationKind = k: nat | k < 32
  type ContentId = u64

  const SYMBOL: NodeKind := 5

  datatype Reason = Code(rank: nat) | Unknown(text: Text)

  datatype SourceSpan = SourceSpan(path: Text, startLine: u32, startColumn: u32, endLine: u32, endColumn: u32)

  datatype NodeFact = NodeFact(key: NodeKey, externalIdentity: Option<Text>, kind: NodeKind, path: Text, name: Text,
                               qualifiedName: Text, contentId: Option<ContentId>, span: Option<SourceSpan>)

  datatype EdgeFact = EdgeFact(source: NodeKey, target: NodeKey, relation: RelationKind, span: Option<SourceSpan>)

  datatype UnresolvedFact = UnresolvedFact(source: NodeKey, relation: RelationKind, expression: Text,
                                           candidateNamespace: Option<Text>, candidateName: Option<Text>,
                                           reason: Reason, span: Option<SourceSpan>)

  datatype RepositoryFacts = RepositoryFacts(nodes: seq<NodeFact>, edges: seq<EdgeFact>, unresolved: seq<UnresolvedFact>)

  // ----- the derived order -----

  type Fields = seq<seq<int>>

  predicate IntLe(a: int, b: int) { a <= b }

  predicate FieldLe(a: seq<int>, b: seq<int>) { LexLe(IntLe, a, b) }

  predicate FieldsLe(a: Fields, b: Fields) { LexLe(FieldLe, a, b) }

  function TextField(t: Text): seq<int> {
    seq(|t|, i requires 0 <= i < |t| => t[i] as int)
  }

  function OptionalField(t: Option<Text>): seq<int> {
    match t case None => [] case Some(value) => [1] + TextField(value)
  }

  function ContentField(c: Option<ContentId>): seq<int> {
    match c case None => [] case Some(value) => [value as int]
  }

  function ReasonField(r: Reason): seq<int> {
    match r case Code(rank) => [0, rank] case Unknown(text) => [1] + TextField(text)
  }

  function SpanFields(s: Option<SourceSpan>): Fields {
    match s
    case None => [[], [], [], [], [], []]
    case Some(p) => [[1], TextField(p.path), [p.startLine], [p.startColumn], [p.endLine], [p.endColumn]]
  }

  function NodeFields(n: NodeFact): Fields {
    [[n.key as int], OptionalField(n.externalIdentity), [n.kind], TextField(n.path), TextField(n.name),
     TextField(n.qualifiedName), ContentField(n.contentId)] + SpanFields(n.span)
  }

  function EdgeFields(e: EdgeFact): Fields {
    [[e.source as int], [e.target as int], [e.relation]] + SpanFields(e.span)
  }

  function UnresolvedFields(u: UnresolvedFact): Fields {
    [[u.source as int], [u.relation], TextField(u.expression), OptionalField(u.candidateNamespace),
     OptionalField(u.candidateName), ReasonField(u.reason)] + SpanFields(u.span)
  }

  predicate NodeLe(a: NodeFact, b: NodeFact) { FieldsLe(NodeFields(a), NodeFields(b)) }

  predicate EdgeLe(a: EdgeFact, b: EdgeFact) { FieldsLe(EdgeFields(a), EdgeFields(b)) }

  predicate UnresolvedLe(a: UnresolvedFact, b: UnresolvedFact) { FieldsLe(UnresolvedFields(a), UnresolvedFields(b)) }

  predicate IdentityLe(a: Identity, b: Identity) { FieldLe(TextField(a), TextField(b)) }

  lemma FieldsTotal()
    ensures TotalOrder(FieldLe)
    ensures TotalOrder(FieldsLe)
  {
    LexTotalOrder(IntLe);
    assert TotalOrder((a: seq<int>, b: seq<int>) => LexLe(IntLe, a, b));
    forall a, b ensures FieldLe(a, b) == ((x: seq<int>, y: seq<int>) => LexLe(IntLe, x, y))(a, b) {}
    assert TotalOrder(FieldLe);
    LexTotalOrder(FieldLe);
    forall a, b ensures FieldsLe(a, b) == ((x: Fields, y: Fields) => LexLe(FieldLe, x, y))(a, b) {}
  }

  lemma TextFieldInjective(a: Text, b: Text)
    requires TextField(a) == TextField(b)
    ensures a == b
  {
    assert |a| == |b|;
    forall i | 0 <= i < |a| ensures a[i] == b[i] {
      assert TextField(a)[i] == TextField(b)[i];
    }
  }

  lemma OptionalFieldInjective(a: Option<Text>, b: Option<Text>)
    requires OptionalField(a) == OptionalField(b)
    ensures a == b
  {
    if a.Some? && b.Some? {
      assert TextField(a.value) == OptionalField(a)[1..] && TextField(b.value) == OptionalField(b)[1..];
      TextFieldInjective(a.value, b.value);
    }
  }

  lemma SpanFieldsInjective(a: Option<SourceSpan>, b: Option<SourceSpan>)
    requires SpanFields(a) == SpanFields(b)
    ensures a == b
  {
    var x, y := SpanFields(a), SpanFields(b);
    assert x[0] == y[0] && x[1] == y[1] && x[2] == y[2] && x[3] == y[3] && x[4] == y[4] && x[5] == y[5];
    if a.Some? && b.Some? {
      TextFieldInjective(a.value.path, b.value.path);
      assert x[2][0] == y[2][0] && x[3][0] == y[3][0] && x[4][0] == y[4][0] && x[5][0] == y[5][0];
    }
  }

  lemma NodeFieldsInjective(a: NodeFact, b: NodeFact)
    requires NodeFields(a) == NodeFields(b)
    ensures a == b
  {
    hide FieldLe;
    var x, y := NodeFields(a), NodeFields(b);
    assert x[0] == y[0] && x[1] == y[1] && x[2] == y[2] && x[3] == y[3] && x[4] == y[4] && x[5] == y[5] && x[6] == y[6];
    assert x[0][0] == y[0][0] && x[2][0] == y[2][0];
    OptionalFieldInjective(a.externalIdentity, b.externalIdentity);
    TextFieldInjective(a.path, b.path);
    TextFieldInjective(a.name, b.name);
    TextFieldInjective(a.qualifiedName, b.qualifiedName);
    assert x[7..] == SpanFields(a.span) && y[7..] == SpanFields(b.span);
    SpanFieldsInjective(a.span, b.span);
    if a.contentId.Some? && b.contentId.Some? { assert x[6][0] == y[6][0]; }
  }

  lemma EdgeFieldsInjective(a: EdgeFact, b: EdgeFact)
    requires EdgeFields(a) == EdgeFields(b)
    ensures a == b
  {
    var x, y := EdgeFields(a), EdgeFields(b);
    assert x[0][0] == y[0][0] && x[1][0] == y[1][0] && x[2][0] == y[2][0];
    assert x[3..] == SpanFields(a.span) && y[3..] == SpanFields(b.span);
    SpanFieldsInjective(a.span, b.span);
  }

  lemma ReasonFieldInjective(a: Reason, b: Reason)
    requires ReasonField(a) == ReasonField(b)
    ensures a == b
  {
    var x, y := ReasonField(a), ReasonField(b);
    assert x[0] == y[0];
    match a
    case Code(_) => assert x[1] == y[1];
    case Unknown(_) =>
      assert x[1..] == TextField(a.text) && y[1..] == TextField(b.text);
      TextFieldInjective(a.text, b.text);
  }

  lemma UnresolvedFieldsInjective(a: UnresolvedFact, b: UnresolvedFact)
    requires UnresolvedFields(a) == UnresolvedFields(b)
    ensures a == b
  {
    var x, y := UnresolvedFields(a), UnresolvedFields(b);
    assert x[0] == y[0] && x[1] == y[1] && x[2] == y[2] && x[3] == y[3] && x[4] == y[4] && x[5] == y[5];
    assert x[0][0] == y[0][0] && x[1][0] == y[1][0];
    TextFieldInjective(a.expression, b.expression);
    OptionalFieldInjective(a.candidateNamespace, b.candidateNamespace);
    OptionalFieldInjective(a.candidateName, b.candidateName);
    ReasonFieldInjective(a.reason, b.reason);
    assert x[6..] == SpanFields(a.span) && y[6..] == SpanFields(b.span);
    SpanFieldsInjective(a.span, b.span);
  }

  /** The derived orders are total. */
  lemma FactsTotal()
    ensures TotalOrder(NodeLe) && TotalOrder(EdgeLe) && TotalOrder(UnresolvedLe) && TotalOrder(IdentityLe)
  {
    FieldsTotal();
    hide FieldsLe, FieldLe, NodeFields, EdgeFields, UnresolvedFields;
    assert TotalOrder(NodeLe) by {
      forall a, b | NodeLe(a, b) && NodeLe(b, a) ensures a == b { NodeFieldsInjective(a, b); }
    }
    assert TotalOrder(EdgeLe) by {
      forall a, b | EdgeLe(a, b) && EdgeLe(b, a) ensures a == b { EdgeFieldsInjective(a, b); }
    }
    assert TotalOrder(UnresolvedLe) by {
      forall a, b | UnresolvedLe(a, b) && UnresolvedLe(b, a) ensures a == b { UnresolvedFieldsInjective(a, b); }
    }
    assert TotalOrder(IdentityLe) by {
      forall a: Identity, b: Identity | IdentityLe(a, b) && IdentityLe(b, a) ensures a == b { TextFieldInjective(a, b); }
    }
  }
}
