/**
 arcana/src/repository_store/build_stream_nodes.rs and build_stream.rs: the staged nodes of the compact
 loader, their canonicalisation in place and the lookups over the result.

 Interned strings are modelled by the strings themselves.
 */
module StagedNodes {
  import opened Wrappers
  import opened Lexicon
  import opened Facts
  import opened Records

  datatype StagedNode = StagedNode(key: NodeKey, identity: Identity, signature: Text, contentId: Option<ContentId>,
                                   owner: Option<Text>, kind: NodeKind, path: Text, name: Text, qualifiedName: Text,
                                   span: Option<SourceSpan>)

  ghost predicate SortedByKey(nodes: seq<StagedNode>) {
    forall i, j :: 0 <= i < j < |nodes| ==> nodes[i].key <= nodes[j].key
  }

  ghost predicate KeysAscend(nodes: seq<StagedNode>) {
    forall i, j :: 0 <= i < j < |nodes| ==> nodes[i].key < nodes[j].key
  }

  /** One more node behind those kept so far. */
  function CollapseNext(kept: seq<StagedNode>, current: StagedNode): Result<seq<StagedNode>, LoadError> {
    if kept == [] then Success([current])
    else
      var previous := kept[|kept| - 1];
      if current.key != previous.key then Success(kept + [current])
      else if current.identity != previous.identity then Failure(NodeIdentityCollision)
      else if current.signature != previous.signature then Failure(ConflictingNode(current.identity))
      else Success(kept)
  }

  /** Drops repeated definitions from a list sorted by key. */
  function Collapse(nodes: seq<StagedNode>): Result<seq<StagedNode>, LoadError> {
    if nodes == [] then Success([])
    else
      var kept :- Collapse(nodes[..|nodes| - 1]);
      CollapseNext(kept, nodes[|nodes| - 1])
  }

  lemma {:induction false} CollapsePrefix(nodes: seq<StagedNode>, k: nat)
    requires k <= |nodes| && Collapse(nodes[..k]).Failure?
    ensures Collapse(nodes) == Collapse(nodes[..k])
  {
    if k < |nodes| {
      assert nodes[..|nodes| - 1][..k] == nodes[..k];
      CollapsePrefix(nodes[..|nodes| - 1], k);
    } else {
      assert nodes[..k] == nodes;
    }
  }

  /** `canonicalize_nodes`, behind the sort: compacts the array and returns how many nodes are kept. */
  method CollapseInPlace(nodes: array<StagedNode>) returns (r: Result<nat, LoadError>)
    modifies nodes
    ensures match Collapse(old(nodes[..]))
            case Failure(error) => r == Failure(error)
            case Success(kept) => r == Success(|kept|) && |kept| <= nodes.Length && nodes[..|kept|] == kept
  {
    ghost var was := nodes[..];
    if nodes.Length < 2 {
      if nodes.Length == 1 { assert was[..1] == was && was[..0] == []; }
      return Success(nodes.Length);
    }
    assert was[..1][..0] == [];
    var write := 1;
    var read := 1;
    while read < nodes.Length
      invariant 1 <= write <= read <= nodes.Length
      invariant Collapse(was[..read]) == Success(nodes[..write])
      invariant nodes[read..] == was[read..]
    {
      assert was[..read + 1][..read] == was[..read];
      assert nodes[read] == nodes[read..][0] == was[read];
      var current, previous := nodes[read], nodes[write - 1];
      ghost var kept := nodes[..write];
      assert Collapse(was[..read + 1]) == CollapseNext(kept, current);
      if current.key != previous.key {
        nodes[write] := current;
        assert nodes[..write + 1] == kept + [current];
        write := write + 1;
      } else if current.identity != previous.identity {
        CollapsePrefix(was, read + 1);
        return Failure(NodeIdentityCollision);
      } else if current.signature != previous.signature {
        CollapsePrefix(was, read + 1);
        return Failure(ConflictingNode(current.identity));
      }
      assert nodes[read + 1..] == was[read..][1..];
      read := read + 1;
    }
    assert was[..read] == was;
    return Success(write);
  }

  /** No two nodes of one key differ in identity or signature: what canonicalisation demands of the staged list. */
  ghost predicate Mergeable(nodes: seq<StagedNode>) {
    forall a, b :: a in nodes && b in nodes && a.key == b.key ==> a.identity == b.identity && a.signature == b.signature
  }

  /**
   On a list sorted by key, collapsing succeeds exactly when the list is mergeable; it keeps one of the
   nodes of every key, in strictly ascending order.
   */
  lemma {:induction false} CollapseExact(nodes: seq<StagedNode>)
    requires SortedByKey(nodes)
    ensures Collapse(nodes).Success? <==> Mergeable(nodes)
    ensures Collapse(nodes).Success? ==>
              var kept := Collapse(nodes).value;
              && KeysAscend(kept)
              && (nodes != [] ==> kept != [] && kept[|kept| - 1].key == nodes[|nodes| - 1].key)
              && (forall k :: k in kept ==> k in nodes)
              && (forall n :: n in nodes ==> ContainsKey(kept, n.key))
  {
    if nodes != [] {
      var before, last := nodes[..|nodes| - 1], nodes[|nodes| - 1];
      assert nodes == before + [last];
      CollapseExact(before);
      if Collapse(before).Success? {
        CollapseStep(before, last, Collapse(before).value);
      }
    }
  }

  lemma MergeableSnoc(before: seq<StagedNode>, last: StagedNode)
    requires Mergeable(before)
    ensures Mergeable(before + [last]) <==>
            forall n :: n in before && n.key == last.key ==> n.identity == last.identity && n.signature == last.signature
  {
    var nodes := before + [last];
    assert last == nodes[|before|];
    assert forall n :: n in nodes <==> n in before || n == last;
  }

  /** The last key of a sorted list is the greatest. */
  lemma LastGreatest(before: seq<StagedNode>, last: StagedNode)
    requires SortedByKey(before + [last]) && before != []
    ensures before[|before| - 1].key <= last.key
    ensures forall n :: n in before ==> n.key <= before[|before| - 1].key
  {
    var nodes := before + [last];
    forall n | n in before ensures n.key <= before[|before| - 1].key {
      var i :| 0 <= i < |before| && before[i] == n;
      assert nodes[i] == n && nodes[|before| - 1] == before[|before| - 1];
    }
    assert nodes[|before|] == last && nodes[|before| - 1] == before[|before| - 1];
  }

  lemma CollapseStep(before: seq<StagedNode>, last: StagedNode, kept: seq<StagedNode>)
    requires SortedByKey(before + [last]) && Mergeable(before) && KeysAscend(kept)
    requires before != [] ==> kept != [] && kept[|kept| - 1].key == before[|before| - 1].key
    requires forall k :: k in kept ==> k in before
    requires forall n :: n in before ==> ContainsKey(kept, n.key)
    ensures var r := CollapseNext(kept, last);
      && (r.Success? <==> Mergeable(before + [last]))
      && (r.Success? ==>
            && KeysAscend(r.value)
            && r.value != [] && r.value[|r.value| - 1].key == last.key
            && (forall k :: k in r.value ==> k in before + [last])
            && (forall n :: n in before + [last] ==> ContainsKey(r.value, n.key)))
  {
    MergeableSnoc(before, last);
    if kept != [] {
      assert kept[|kept| - 1] in before;
      LastGreatest(before, last);
    } else {
      assert before == [];
    }
    hide SortedByKey, Mergeable;
    var r := CollapseNext(kept, last);
    if r.Success? {
      forall n | n in before + [last] ensures ContainsKey(r.value, n.key) {
        if n in before {
          var i :| 0 <= i < |kept| && kept[i].key == n.key;
          assert r.value[i].key == n.key;
        } else {
          assert r.value[|r.value| - 1].key == n.key;
        }
      }
    }
  }

  /** `contains_node_key` and `contains_node_identity` over canonical nodes. */
  predicate ContainsKey(nodes: seq<StagedNode>, key: NodeKey) {
    exists i :: 0 <= i < |nodes| && nodes[i].key == key
  }

  predicate ContainsIdentity(nodes: seq<StagedNode>, key: NodeKey, identity: Identity) {
    exists i :: 0 <= i < |nodes| && nodes[i].key == key && nodes[i].identity == identity
  }
}
