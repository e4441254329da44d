/**
 arcana/src/protocol/diff.rs: the merge join of two catalogues sorted by node key.

 Node identifiers are dense and local to a snapshot; everything is compared through node keys.
 */
module SnapshotDiff {
  import opened Wrappers

  datatype Entry<F> = Entry(key: nat, nodeId: nat, fact: F)

  /**
   A snapshot: its catalogue, the outgoing neighbours (node and edge kind) of each dense node, the key
   of each dense node where the catalogue has it, and the two checksums the comparison starts from. The entries
   are those that can be read; if reading the one after them fails, `broken` is the error.
   */
  datatype Snapshot<F, !E> = Snapshot(entries: seq<Entry<F>>, broken: Option<E>, neighbors: nat -> Result<seq<(nat, nat)>, E>,
                                      keyOf: nat -> Result<Option<nat>, E>, storeChecksum: nat, datasetChecksum: nat)

  datatype DiffError<+E> = QueryFailed(error: E) | ReadFailed(error: E) | InvalidSnapshot

  datatype Category = Added | Removed | MetadataChanged | RelationshipChanged

  /** Per category: how many entries belong to it, and the first of them. */
  datatype Tally<F> = Tally(counts: seq<nat>, values: seq<seq<Entry<F>>>)

  datatype Diff<F> = Diff(tally: Tally<F>, graphChanged: bool, snapshotChanged: bool, truncated: bool)

  const DEFAULT_LIMIT: nat := 1000
  const MAX_LIMIT: nat := 10000

  function Index(c: Category): nat {
    match c
    case Added => 0
    case Removed => 1
    case MetadataChanged => 2
    case RelationshipChanged => 3
  }

  // ----- logical outgoing edges -----

  /** `logical_outgoing`: the neighbours of a node named by key; a neighbour without metadata is an error. */
  function KeyedNeighbors<F, E>(s: Snapshot<F, E>, neighbors: seq<(nat, nat)>): Result<set<(nat, nat)>, DiffError<E>> {
    if neighbors == [] then Success({})
    else
      var last := neighbors[|neighbors| - 1];
      var rest :- KeyedNeighbors(s, neighbors[..|neighbors| - 1]);
      match s.keyOf(last.0)
      case Failure(e) => Failure(ReadFailed(e))
      case Success(None) => Failure(InvalidSnapshot)
      case Success(Some(key)) => Success(rest + {(key, last.1)})
  }

  function LogicalOutgoing<F, E>(s: Snapshot<F, E>, id: nat): Result<set<(nat, nat)>, DiffError<E>> {
    match s.neighbors(id)
    case Failure(e) => Failure(QueryFailed(e))
    case Success(neighbors) => KeyedNeighbors(s, neighbors)
  }

  lemma {:induction false} KeyedNeighborsExact<F, E>(s: Snapshot<F, E>, neighbors: seq<(nat, nat)>, key: nat, kind: nat)
    requires KeyedNeighbors(s, neighbors).Success?
    ensures (key, kind) in KeyedNeighbors(s, neighbors).value <==>
      exists j :: 0 <= j < |neighbors| && s.keyOf(neighbors[j].0) == Success(Some(key)) && neighbors[j].1 == kind
  {
    if neighbors != [] {
      var n := |neighbors| - 1;
      KeyedNeighborsExact(s, neighbors[..n], key, kind);
      assert neighbors == neighbors[..n] + [neighbors[n]];
    }
  }

  /** The neighbours of a node can be read, and every one of them has a key. */
  ghost predicate EdgesReadable<F, E>(s: Snapshot<F, E>, id: nat) {
    && s.neighbors(id).Success?
    && forall j :: 0 <= j < |s.neighbors(id).value| ==> HasNodeKey(s, s.neighbors(id).value[j].0)
  }

  ghost predicate HasNodeKey<F, E>(s: Snapshot<F, E>, node: nat) {
    s.keyOf(node).Success? && s.keyOf(node).value.Some?
  }

  /** Some neighbour of the node has this key and this kind of edge. */
  ghost predicate LeadsTo<F, E>(s: Snapshot<F, E>, id: nat, to: nat, kind: nat) {
    && s.neighbors(id).Success?
    && var neighbors := s.neighbors(id).value;
       exists j :: 0 <= j < |neighbors| && s.keyOf(neighbors[j].0) == Success(Some(to)) && neighbors[j].1 == kind
  }

  /** Why the edges of a node cannot be read: its neighbours, or the key of the first that cannot be told. */
  ghost predicate EdgesFail<F, E>(s: Snapshot<F, E>, id: nat, error: DiffError<E>) {
    match s.neighbors(id)
    case Failure(e) => error == QueryFailed(e)
    case Success(neighbors) =>
      exists j :: 0 <= j < |neighbors| && (forall k :: 0 <= k < j ==> HasNodeKey(s, neighbors[k].0))
        && KeyFails(s, neighbors[j].0, error)
  }

  ghost predicate KeyFails<F, E>(s: Snapshot<F, E>, node: nat, error: DiffError<E>) {
    match s.keyOf(node)
    case Failure(e) => error == ReadFailed(e)
    case Success(None) => error == InvalidSnapshot
    case Success(Some(_)) => false
  }

  lemma {:induction false} KeyedNeighborsReadable<F, E>(s: Snapshot<F, E>, neighbors: seq<(nat, nat)>)
    ensures KeyedNeighbors(s, neighbors).Success? <==> forall j :: 0 <= j < |neighbors| ==> HasNodeKey(s, neighbors[j].0)
    ensures KeyedNeighbors(s, neighbors).Failure? ==>
      exists j :: 0 <= j < |neighbors| && (forall k :: 0 <= k < j ==> HasNodeKey(s, neighbors[k].0))
        && KeyFails(s, neighbors[j].0, KeyedNeighbors(s, neighbors).error)
  {
    if neighbors != [] {
      var n := |neighbors| - 1;
      var before := neighbors[..n];
      assert neighbors == before + [neighbors[n]];
      KeyedNeighborsReadable(s, before);
      if KeyedNeighbors(s, before).Failure? {
        var j :| 0 <= j < n && (forall k :: 0 <= k < j ==> HasNodeKey(s, before[k].0))
                 && KeyFails(s, before[j].0, KeyedNeighbors(s, before).error);
        assert forall k :: 0 <= k < j ==> before[k] == neighbors[k];
        assert before[j] == neighbors[j];
      } else if KeyedNeighbors(s, neighbors).Failure? {
        assert forall k :: 0 <= k < n ==> before[k] == neighbors[k];
      }
    }
  }

  /** The outgoing set is that of the keys and kinds the neighbours lead to, or the first failure in their order. */
  lemma OutgoingExact<F, E>(s: Snapshot<F, E>, id: nat)
    ensures LogicalOutgoing(s, id).Success? <==> EdgesReadable(s, id)
    ensures LogicalOutgoing(s, id).Success? ==>
      forall to: nat, kind: nat :: (to, kind) in LogicalOutgoing(s, id).value <==> LeadsTo(s, id, to, kind)
    ensures LogicalOutgoing(s, id).Failure? ==> EdgesFail(s, id, LogicalOutgoing(s, id).error)
  {
    if s.neighbors(id).Success? {
      var neighbors := s.neighbors(id).value;
      KeyedNeighborsReadable(s, neighbors);
      if KeyedNeighbors(s, neighbors).Success? {
        forall to: nat, kind: nat ensures (to, kind) in LogicalOutgoing(s, id).value <==> LeadsTo(s, id, to, kind) {
          KeyedNeighborsExact(s, neighbors, to, kind);
        }
      }
    }
  }

  /** Between two nodes whose edges can be read, the sets differ exactly when one leads where the other does not. */
  lemma OutgoingCompared<F, E>(a: Snapshot<F, E>, i: nat, b: Snapshot<F, E>, j: nat)
    requires LogicalOutgoing(a, i).Success? && LogicalOutgoing(b, j).Success?
    ensures LogicalOutgoing(a, i).value == LogicalOutgoing(b, j).value <==> LeadAlike(a, i, b, j)
  {
    OutgoingExact(a, i);
    OutgoingExact(b, j);
    hide LogicalOutgoing, LeadsTo, EdgesReadable;
    var x, y := LogicalOutgoing(a, i).value, LogicalOutgoing(b, j).value;
    if LeadAlike(a, i, b, j) {
      forall e: (nat, nat) ensures e in x <==> e in y { assert (e.0, e.1) in x <==> (e.0, e.1) in y; }
    }
  }

  ghost predicate LeadAlike<F, E>(a: Snapshot<F, E>, i: nat, b: Snapshot<F, E>, j: nat) {
    forall to: nat, kind: nat :: LeadsTo(a, i, to, kind) <==> LeadsTo(b, j, to, kind)
  }

  // ----- specification -----

  ghost predicate Ascending<F>(entries: seq<Entry<F>>) {
    forall i, j :: 0 <= i < j < |entries| ==> entries[i].key < entries[j].key
  }

  ghost predicate HasKey<F>(entries: seq<Entry<F>>, key: nat) {
    exists i :: 0 <= i < |entries| && entries[i].key == key
  }

  ghost function Select<F>(entries: seq<Entry<F>>, p: Entry<F> -> bool): seq<Entry<F>> {
    if entries == [] then []
    else
      var n := |entries| - 1;
      Select(entries[..n], p) + if p(entries[n]) then [entries[n]] else []
  }

  ghost function First<T>(s: seq<T>, limit: nat): seq<T> {
    s[..if limit < |s| then limit else |s|]
  }

  /** The entry of `l`'s key in the other snapshot tells another fact. */
  ghost predicate FactDiffers<F, E>(other: Snapshot<F, E>, l: Entry<F>) {
    exists j :: 0 <= j < |other.entries| && other.entries[j].key == l.key && other.entries[j].fact != l.fact
  }

  /** The entry of `l`'s key in the other snapshot has other key-level outgoing edges. */
  ghost predicate OutgoingDiffers<F, E>(current: Snapshot<F, E>, other: Snapshot<F, E>, l: Entry<F>) {
    exists j :: 0 <= j < |other.entries| && other.entries[j].key == l.key &&
      !LeadAlike(current, l.nodeId, other, other.entries[j].nodeId)
  }

  /** The full list of a category, in key order. */
  ghost function Listing<F, E>(current: Snapshot<F, E>, other: Snapshot<F, E>, c: Category): seq<Entry<F>> {
    match c
    case Added => Select(current.entries, (l: Entry<F>) => !HasKey(other.entries, l.key))
    case Removed => Select(other.entries, (r: Entry<F>) => !HasKey(current.entries, r.key))
    case MetadataChanged => Select(current.entries, (l: Entry<F>) => FactDiffers(other, l))
    case RelationshipChanged => Select(current.entries, (l: Entry<F>) => OutgoingDiffers(current, other, l))
  }

  ghost predicate Tallies<F>(t: Tally<F>, limit: nat, c: Category, list: seq<Entry<F>>) {
    && |t.counts| == |t.values| == 4
    && t.counts[Index(c)] == |list|
    && t.values[Index(c)] == First(list, limit)
  }

  /** The tally after the first `i` current and the first `j` other entries. */
  ghost predicate TalliedTo<F, E>(t: Tally<F>, limit: nat, current: Snapshot<F, E>, other: Snapshot<F, E>, i: nat, j: nat)
    requires i <= |current.entries| && j <= |other.entries|
  {
    && Tallies(t, limit, Added, Select(current.entries[..i], (l: Entry<F>) => !HasKey(other.entries, l.key)))
    && Tallies(t, limit, Removed, Select(other.entries[..j], (r: Entry<F>) => !HasKey(current.entries, r.key)))
    && Tallies(t, limit, MetadataChanged, Select(current.entries[..i], (l: Entry<F>) => FactDiffers(other, l)))
    && Tallies(t, limit, RelationshipChanged,
               Select(current.entries[..i], (l: Entry<F>) => OutgoingDiffers(current, other, l)))
  }

  /** What has been consumed on one side lies below what remains on the other. */
  ghost predicate Interleaved<F>(a: seq<Entry<F>>, b: seq<Entry<F>>, i: nat, j: nat)
    requires i <= |a| && j <= |b|
  {
    && (forall p, q :: 0 <= p < i && j <= q < |b| ==> a[p].key < b[q].key)
    && (forall p, q :: i <= p < |a| && 0 <= q < j ==> b[q].key < a[p].key)
  }

  // ----- recording -----

  function Record<F>(t: Tally<F>, c: Category, entry: Entry<F>, limit: nat): Tally<F>
    requires |t.counts| == |t.values| == 4
  {
    var n := Index(c);
    Tally(t.counts[n := t.counts[n] + 1],
          if |t.values[n]| < limit then t.values[n := t.values[n] + [entry]] else t.values)
  }

  lemma RecordTallies<F>(t: Tally<F>, limit: nat, c: Category, d: Category, list: seq<Entry<F>>, entry: Entry<F>)
    requires Tallies(t, limit, d, list)
    ensures Tallies(Record(t, c, entry, limit), limit, d, if c == d then list + [entry] else list)
  {
  }

  lemma SelectStep<F>(entries: seq<Entry<F>>, i: nat, p: Entry<F> -> bool)
    requires i < |entries|
    ensures Select(entries[..i + 1], p) == if p(entries[i]) then Select(entries[..i], p) + [entries[i]] else Select(entries[..i], p)
  {
    assert entries[..i + 1][..i] == entries[..i];
  }

  /** An entry the other side lacks is recorded under `c` and nowhere else. */
  lemma RecordUnmatched<F, E>(t: Tally<F>, limit: nat, current: Snapshot<F, E>, other: Snapshot<F, E>, i: nat, j: nat)
    requires i < |current.entries| && j <= |other.entries| && TalliedTo(t, limit, current, other, i, j)
    requires !HasKey(other.entries, current.entries[i].key)
    ensures TalliedTo(Record(t, Added, current.entries[i], limit), limit, current, other, i + 1, j)
  {
    var l := current.entries[i];
    var absent, fact, edges := (l: Entry<F>) => !HasKey(other.entries, l.key), (l: Entry<F>) => FactDiffers(other, l),
                               (l: Entry<F>) => OutgoingDiffers(current, other, l);
    SelectStep(current.entries, i, absent);
    SelectStep(current.entries, i, fact);
    SelectStep(current.entries, i, edges);
    RecordTallies(t, limit, Added, Added, Select(current.entries[..i], absent), l);
    RecordTallies(t, limit, Added, Removed, Select(other.entries[..j], (r: Entry<F>) => !HasKey(current.entries, r.key)), l);
    RecordTallies(t, limit, Added, MetadataChanged, Select(current.entries[..i], fact), l);
    RecordTallies(t, limit, Added, RelationshipChanged, Select(current.entries[..i], edges), l);
  }

  lemma RecordRemoved<F, E>(t: Tally<F>, limit: nat, current: Snapshot<F, E>, other: Snapshot<F, E>, i: nat, j: nat)
    requires i <= |current.entries| && j < |other.entries| && TalliedTo(t, limit, current, other, i, j)
    requires !HasKey(current.entries, other.entries[j].key)
    ensures TalliedTo(Record(t, Removed, other.entries[j], limit), limit, current, other, i, j + 1)
  {
    var r := other.entries[j];
    var gone := (r: Entry<F>) => !HasKey(current.entries, r.key);
    SelectStep(other.entries, j, gone);
    RecordTallies(t, limit, Removed, Removed, Select(other.entries[..j], gone), r);
    RecordTallies(t, limit, Removed, Added, Select(current.entries[..i], (l: Entry<F>) => !HasKey(other.entries, l.key)), r);
    RecordTallies(t, limit, Removed, MetadataChanged, Select(current.entries[..i], (l: Entry<F>) => FactDiffers(other, l)), r);
    RecordTallies(t, limit, Removed, RelationshipChanged,
                  Select(current.entries[..i], (l: Entry<F>) => OutgoingDiffers(current, other, l)), r);
  }

  /** Record a matched pair: its fact and its edges are compared independently. */
  function RecordPair<F>(t: Tally<F>, l: Entry<F>, factDiffers: bool, outgoingDiffers: bool, limit: nat): Tally<F>
    requires |t.counts| == |t.values| == 4
  {
    var once := if factDiffers then Record(t, MetadataChanged, l, limit) else t;
    if outgoingDiffers then Record(once, RelationshipChanged, l, limit) else once
  }

  lemma RecordMatched<F, E>(t: Tally<F>, limit: nat, current: Snapshot<F, E>, other: Snapshot<F, E>, i: nat, j: nat, differs: bool)
    requires i < |current.entries| && j < |other.entries| && TalliedTo(t, limit, current, other, i, j)
    requires Ascending(other.entries) && current.entries[i].key == other.entries[j].key
    requires differs <==> !LeadAlike(current, current.entries[i].nodeId, other, other.entries[j].nodeId)
    ensures var l, r := current.entries[i], other.entries[j];
      TalliedTo(RecordPair(t, l, l.fact != r.fact, differs, limit), limit, current, other, i + 1, j + 1)
  {
    var l, r := current.entries[i], other.entries[j];
    var absent, fact, edges := (l: Entry<F>) => !HasKey(other.entries, l.key), (l: Entry<F>) => FactDiffers(other, l),
                               (l: Entry<F>) => OutgoingDiffers(current, other, l);
    var gone := (r: Entry<F>) => !HasKey(current.entries, r.key);
    SelectStep(current.entries, i, absent);
    SelectStep(other.entries, j, gone);
    SelectStep(current.entries, i, fact);
    SelectStep(current.entries, i, edges);
    MatchedOnce(current, other, i, j);
    PairTallies(t, limit, Added, Select(current.entries[..i], absent), l, fact(l), edges(l));
    PairTallies(t, limit, Removed, Select(other.entries[..j], gone), l, fact(l), edges(l));
    PairTallies(t, limit, MetadataChanged, Select(current.entries[..i], fact), l, fact(l), edges(l));
    PairTallies(t, limit, RelationshipChanged, Select(current.entries[..i], edges), l, fact(l), edges(l));
  }

  lemma PairTallies<F>(t: Tally<F>, limit: nat, d: Category, list: seq<Entry<F>>, l: Entry<F>, fact: bool, edges: bool)
    requires Tallies(t, limit, d, list)
    ensures Tallies(RecordPair(t, l, fact, edges, limit), limit, d,
                    if (d == MetadataChanged && fact) || (d == RelationshipChanged && edges) then list + [l] else list)
  {
    if fact { RecordTallies(t, limit, MetadataChanged, d, list, l); }
    var once := if fact then Record(t, MetadataChanged, l, limit) else t;
    if edges { RecordTallies(once, limit, RelationshipChanged, d, if d == MetadataChanged && fact then list + [l] else list, l); }
  }

  /** A key occurs once in an ascending catalogue, so a match decides the comparison with the whole other side. */
  lemma MatchedOnce<F, E>(current: Snapshot<F, E>, other: Snapshot<F, E>, i: nat, j: nat)
    requires i < |current.entries| && j < |other.entries| && Ascending(other.entries)
    requires current.entries[i].key == other.entries[j].key
    ensures var l, r := current.entries[i], other.entries[j];
      && HasKey(other.entries, l.key) && HasKey(current.entries, r.key)
      && (FactDiffers(other, l) <==> l.fact != r.fact)
      && (OutgoingDiffers(current, other, l) <==> !LeadAlike(current, l.nodeId, other, r.nodeId))
  {
    hide LeadAlike;
    var l := current.entries[i];
    forall k | 0 <= k < |other.entries| && other.entries[k].key == l.key ensures k == j {}
  }

  // ----- the merge join -----

  ghost predicate Readable<F, E>(current: Snapshot<F, E>, other: Snapshot<F, E>, p: nat, q: nat)
    requires p < |current.entries| && q < |other.entries|
  {
    current.entries[p].key == other.entries[q].key ==>
      EdgesReadable(current, current.entries[p].nodeId) && EdgesReadable(other, other.entries[q].nodeId)
  }

  /** Every pair of entries under one key has readable outgoing edges. */
  ghost predicate AllReadable<F, E>(current: Snapshot<F, E>, other: Snapshot<F, E>, i: nat)
    requires i <= |current.entries|
  {
    forall p, q :: 0 <= p < i && 0 <= q < |other.entries| ==> Readable(current, other, p, q)
  }

  /**
   The failure met first: the least key common to both catalogues under which the outgoing edges of an entry
   cannot be read, those of the current entry before those of the other.
   */
  ghost predicate FirstUnreadable<F, E>(current: Snapshot<F, E>, other: Snapshot<F, E>, i: nat, j: nat, error: DiffError<E>) {
    && i < |current.entries| && j < |other.entries| && current.entries[i].key == other.entries[j].key
    && AllReadable(current, other, i)
    && !(EdgesReadable(current, current.entries[i].nodeId) && EdgesReadable(other, other.entries[j].nodeId))
    && if EdgesReadable(current, current.entries[i].nodeId) then EdgesFail(other, other.entries[j].nodeId, error)
       else EdgesFail(current, current.entries[i].nodeId, error)
  }

  /** The outgoing edges of a matched pair, the current entry's first. */
  function ReadPair<F, E>(current: Snapshot<F, E>, other: Snapshot<F, E>, i: nat, j: nat)
    : Result<(set<(nat, nat)>, set<(nat, nat)>), DiffError<E>>
    requires i < |current.entries| && j < |other.entries|
  {
    var mine :- LogicalOutgoing(current, current.entries[i].nodeId);
    var theirs :- LogicalOutgoing(other, other.entries[j].nodeId);
    Success((mine, theirs))
  }

  lemma PairReads<F, E>(current: Snapshot<F, E>, other: Snapshot<F, E>, i: nat, j: nat)
    requires i < |current.entries| && j < |other.entries| && current.entries[i].key == other.entries[j].key
    requires AllReadable(current, other, i)
    ensures Readable(current, other, i, j) <==> ReadPair(current, other, i, j).Success?
    ensures ReadPair(current, other, i, j).Failure? ==> FirstUnreadable(current, other, i, j, ReadPair(current, other, i, j).error)
    ensures ReadPair(current, other, i, j).Success? ==>
              (ReadPair(current, other, i, j).value.0 != ReadPair(current, other, i, j).value.1 <==>
               !LeadAlike(current, current.entries[i].nodeId, other, other.entries[j].nodeId))
  {
    OutgoingExact(current, current.entries[i].nodeId);
    OutgoingExact(other, other.entries[j].nodeId);
    hide LogicalOutgoing, LeadAlike, EdgesReadable, EdgesFail, LeadsTo, AllReadable;
    if ReadPair(current, other, i, j).Success? {
      OutgoingCompared(current, current.entries[i].nodeId, other, other.entries[j].nodeId);
    }
  }

  /** The first catalogue ends at a lower key than the second, or has no entry while the second has one. */
  predicate EndsBefore<F>(a: seq<Entry<F>>, b: seq<Entry<F>>) {
    b != [] && (a == [] || a[|a| - 1].key < b[|b| - 1].key)
  }

  /**
   A catalogue breaks off before any other failure: no outgoing edges are unreadable up to there, and the other
   catalogue does not break off before. An entry of the current one is read before the next of the other.
   */
  ghost predicate BreaksOff<F, E>(current: Snapshot<F, E>, other: Snapshot<F, E>, error: DiffError<E>) {
    && AllReadable(current, other, |current.entries|)
    && ((current.broken.Some? && error == ReadFailed(current.broken.value)
         && (other.broken.None? || !EndsBefore(other.entries, current.entries)))
        || (other.broken.Some? && error == ReadFailed(other.broken.value)
            && (current.broken.None? || EndsBefore(other.entries, current.entries))))
  }

  /** The next entries are read, the current one first. */
  function NextRead<F, E>(current: Snapshot<F, E>, other: Snapshot<F, E>, i: nat, j: nat): Result<(), DiffError<E>> {
    if i == |current.entries| && current.broken.Some? then Failure(ReadFailed(current.broken.value))
    else if j == |other.entries| && other.broken.Some? then Failure(ReadFailed(other.broken.value))
    else Success(())
  }

  /** What one round consumed: an entry of either side, or one of both under the same key. */
  ghost predicate Advanced<F>(a: seq<Entry<F>>, b: seq<Entry<F>>, i: nat, j: nat, x: nat, y: nat) {
    && x <= |a| && y <= |b|
    && ((x, y) == (i + 1, j) || (x, y) == (i, j + 1) || ((x, y) == (i + 1, j + 1) && a[i].key == b[j].key))
  }

  /** If one of the next reads fails, the first of the two to fail breaks off before any other failure. */
  lemma ReadBreaks<F, E>(current: Snapshot<F, E>, other: Snapshot<F, E>, i: nat, j: nat)
    requires Ascending(current.entries) && Ascending(other.entries)
    requires i <= |current.entries| && j <= |other.entries| && NextRead(current, other, i, j).Failure?
    requires Interleaved(current.entries, other.entries, i, j) && AllReadable(current, other, i)
    requires i == 0 || (0 < j && current.entries[i - 1].key == other.entries[j - 1].key)
             || j < |other.entries| || other.broken.None? || current.broken.None? || i < |current.entries|
    ensures BreaksOff(current, other, NextRead(current, other, i, j).error)
    ensures current.broken.Some? || other.broken.Some?
  {
    hide LogicalOutgoing;
    forall p, q | 0 <= p < |current.entries| && 0 <= q < |other.entries| ensures Readable(current, other, p, q) {
      if i <= p { assert j == |other.entries|; }
    }
  }

  lemma RoundBreaks<F, E>(current: Snapshot<F, E>, other: Snapshot<F, E>, i: nat, j: nat, x: nat, y: nat)
    requires Ascending(current.entries) && Ascending(other.entries)
    requires i <= |current.entries| && j <= |other.entries| && NextRead(current, other, i, j).Success?
    requires Advanced(current.entries, other.entries, i, j, x, y)
    requires Interleaved(current.entries, other.entries, x, y) && AllReadable(current, other, x)
    requires NextRead(current, other, x, y).Failure?
    ensures BreaksOff(current, other, NextRead(current, other, x, y).error)
    ensures current.broken.Some? || other.broken.Some?
  {
    hide Ascending, Interleaved, AllReadable, BreaksOff;
    ReadBreaks(current, other, x, y);
  }

  lemma AllRead<F, E>(current: Snapshot<F, E>, other: Snapshot<F, E>)
    ensures NextRead(current, other, |current.entries|, |other.entries|).Success? <==> current.broken.None? && other.broken.None?
  {
  }

  /** One round of the merge: the pair under a common key is compared, or the entry of the lesser key recorded. */
  method Round<F(==), E>(current: Snapshot<F, E>, other: Snapshot<F, E>, limit: nat, t: Tally<F>, i: nat, j: nat)
    returns (r: Result<(Tally<F>, nat, nat), DiffError<E>>)
    requires Ascending(current.entries) && Ascending(other.entries)
    requires i <= |current.entries| && j <= |other.entries| && (i < |current.entries| || j < |other.entries|)
    requires Interleaved(current.entries, other.entries, i, j) && AllReadable(current, other, i)
    requires TalliedTo(t, limit, current, other, i, j)
    ensures r.Failure? ==> !AllReadable(current, other, |current.entries|) && FirstUnreadable(current, other, i, j, r.error)
    ensures r.Success? ==>
              var (u, x, y) := r.value;
              && x <= |current.entries| && y <= |other.entries| && x + y > i + j
              && Advanced(current.entries, other.entries, i, j, x, y)
              && Interleaved(current.entries, other.entries, x, y) && AllReadable(current, other, x)
              && TalliedTo(u, limit, current, other, x, y)
  {
    var a, b := current.entries, other.entries;
    assert |t.counts| == |t.values| == 4;
    hide TalliedTo, LogicalOutgoing, Record, RecordPair, FirstUnreadable, Interleaved, AllReadable, Readable, Ascending, ReadPair, HasKey;
    if i < |a| && j < |b| && a[i].key == b[j].key {
      var edges := ReadPair(current, other, i, j);
      PairReads(current, other, i, j);
      MeetAdvances(current, other, i, j);
      if edges.Failure? { return Failure(edges.error); }
      RecordMatched(t, limit, current, other, i, j, edges.value.0 != edges.value.1);
      return Success((RecordPair(t, a[i], a[i].fact != b[j].fact, edges.value.0 != edges.value.1, limit), i + 1, j + 1));
    } else if j < |b| && (i == |a| || a[i].key > b[j].key) {
      OtherAdvances(current, other, i, j);
      RecordRemoved(t, limit, current, other, i, j);
      return Success((Record(t, Removed, b[j], limit), i, j + 1));
    } else {
      CurrentAdvances(current, other, i, j);
      RecordUnmatched(t, limit, current, other, i, j);
      return Success((Record(t, Added, a[i], limit), i + 1, j));
    }
  }

  method MergeJoin<F(==), E>(current: Snapshot<F, E>, other: Snapshot<F, E>, limit: nat)
    returns (r: Result<Tally<F>, DiffError<E>>)
    requires Ascending(current.entries) && Ascending(other.entries)
    ensures r.Success? <==> current.broken.None? && other.broken.None? && AllReadable(current, other, |current.entries|)
    ensures r.Failure? ==> BreaksOff(current, other, r.error) || exists i, j :: FirstUnreadable(current, other, i, j, r.error)
    ensures r.Success? ==> forall c :: Tallies(r.value, limit, c, Listing(current, other, c))
  {
    var a, b := current.entries, other.entries;
    var t: Tally<F> := Tally([0, 0, 0, 0], [[], [], [], []]);
    var i, j := 0, 0;
    assert TalliedTo(t, limit, current, other, 0, 0);
    assert Interleaved(a, b, 0, 0) && AllReadable(current, other, 0);
    hide TalliedTo, FirstUnreadable, BreaksOff, Interleaved, AllReadable, Ascending, Tallies, Listing, NextRead, Advanced;
    var read := NextRead(current, other, i, j);
    if read.Failure? {
      ReadBreaks(current, other, i, j);
      return Failure(read.error);
    }
    while i < |a| || j < |b|
      invariant 0 <= i <= |a| && 0 <= j <= |b| && NextRead(current, other, i, j).Success?
      invariant Interleaved(a, b, i, j) && AllReadable(current, other, i)
      invariant TalliedTo(t, limit, current, other, i, j)
      decreases |a| - i + |b| - j
    {
      var round := Round(current, other, limit, t, i, j);
      if round.Failure? { return Failure(round.error); }
      var (u, x, y) := round.value;
      read := NextRead(current, other, x, y);
      if read.Failure? {
        RoundBreaks(current, other, i, j, x, y);
        return Failure(read.error);
      }
      t, i, j := u, x, y;
    }
    AllRead(current, other);
    TalliedAll(t, limit, current, other);
    return Success(t);
  }

  lemma TalliedAll<F, E>(t: Tally<F>, limit: nat, current: Snapshot<F, E>, other: Snapshot<F, E>)
    requires TalliedTo(t, limit, current, other, |current.entries|, |other.entries|)
    ensures forall c :: Tallies(t, limit, c, Listing(current, other, c))
  {
    assert current.entries[..|current.entries|] == current.entries;
    assert other.entries[..|other.entries|] == other.entries;
    forall c ensures Tallies(t, limit, c, Listing(current, other, c)) {
      hide Tallies, HasKey, FactDiffers, OutgoingDiffers;
      match c
      case Added =>
      case Removed =>
      case MetadataChanged =>
      case RelationshipChanged =>
    }
  }

  lemma MeetAdvances<F, E>(current: Snapshot<F, E>, other: Snapshot<F, E>, i: nat, j: nat)
    requires Ascending(current.entries) && Ascending(other.entries)
    requires i < |current.entries| && j < |other.entries| && current.entries[i].key == other.entries[j].key
    requires Interleaved(current.entries, other.entries, i, j) && AllReadable(current, other, i)
    ensures Interleaved(current.entries, other.entries, i + 1, j + 1)
    ensures Readable(current, other, i, j) <==> AllReadable(current, other, i + 1)
    ensures !Readable(current, other, i, j) ==> !AllReadable(current, other, |current.entries|)
  {
    hide LogicalOutgoing;
    forall q | 0 <= q < |other.entries| && other.entries[q].key == current.entries[i].key ensures q == j {}
  }

  lemma OtherAdvances<F, E>(current: Snapshot<F, E>, other: Snapshot<F, E>, i: nat, j: nat)
    requires Ascending(current.entries) && Ascending(other.entries)
    requires i <= |current.entries| && j < |other.entries|
    requires i == |current.entries| || current.entries[i].key > other.entries[j].key
    requires Interleaved(current.entries, other.entries, i, j)
    ensures Interleaved(current.entries, other.entries, i, j + 1)
    ensures !HasKey(current.entries, other.entries[j].key)
  {
  }

  lemma CurrentAdvances<F, E>(current: Snapshot<F, E>, other: Snapshot<F, E>, i: nat, j: nat)
    requires Ascending(current.entries) && Ascending(other.entries)
    requires i < |current.entries| && j <= |other.entries|
    requires j == |other.entries| || current.entries[i].key < other.entries[j].key
    requires Interleaved(current.entries, other.entries, i, j) && AllReadable(current, other, i)
    ensures Interleaved(current.entries, other.entries, i + 1, j) && AllReadable(current, other, i + 1)
    ensures !HasKey(other.entries, current.entries[i].key)
  {
    hide LogicalOutgoing;
    forall q | 0 <= q < |other.entries| ensures other.entries[q].key != current.entries[i].key {}
  }

  // ----- the query -----

  predicate Identical<F, E>(a: Snapshot<F, E>, b: Snapshot<F, E>) {
    a.storeChecksum == b.storeChecksum && a.datasetChecksum == b.datasetChecksum
  }

  /** Entry by entry the same keys, facts and readable key-level edges: what equal checksums stand for. */
  ghost predicate EqualData<F, E>(a: Snapshot<F, E>, b: Snapshot<F, E>) {
    && a.broken.None? && b.broken.None?
    && |a.entries| == |b.entries|
    && forall i :: 0 <= i < |a.entries| ==>
         && a.entries[i].key == b.entries[i].key
         && a.entries[i].fact == b.entries[i].fact
         && EdgesReadable(a, a.entries[i].nodeId) && EdgesReadable(b, b.entries[i].nodeId)
         && LeadAlike(a, a.entries[i].nodeId, b, b.entries[i].nodeId)
  }

  /** What the query answers under a bound on the listings. */
  ghost predicate Reports<F, E>(d: Diff<F>, bound: nat, current: Snapshot<F, E>, other: Snapshot<F, E>) {
    && (forall c :: Tallies(d.tally, bound, c, Listing(current, other, c)))
    && (d.graphChanged <==> !SameGraph(current, other))
    && (d.snapshotChanged <==> !SameGraph(current, other) || exists l :: l in current.entries && FactDiffers(other, l))
    && (d.truncated <==> exists c :: |Listing(current, other, c)| > bound)
  }

  /** The first entry of each catalogue is read before the checksums are compared. */
  predicate FirstRead<F, E>(s: Snapshot<F, E>) {
    s.entries != [] || s.broken.None?
  }

  method DiffSnapshot<F(==), E>(current: Snapshot<F, E>, other: Snapshot<F, E>, limit: Option<nat>)
    returns (r: Result<Diff<F>, DiffError<E>>)
    requires Ascending(current.entries) && Ascending(other.entries)
    ensures r.Success? <==>
            || (Identical(current, other) && FirstRead(current) && FirstRead(other))
            || (current.broken.None? && other.broken.None? && AllReadable(current, other, |current.entries|))
    ensures r.Failure? ==> BreaksOff(current, other, r.error) || exists i, j :: FirstUnreadable(current, other, i, j, r.error)
    ensures r.Success? && (Identical(current, other) ==> EqualData(current, other)) ==>
      Reports(r.value, if limit.None? then DEFAULT_LIMIT else if limit.value < MAX_LIMIT then limit.value else MAX_LIMIT,
              current, other)
    ensures Identical(current, other) && r.Success? ==>
      r == Success(Diff(Tally([0, 0, 0, 0], [[], [], [], []]), false, false, false))
  {
    var bound := if limit.None? then DEFAULT_LIMIT else if limit.value < MAX_LIMIT then limit.value else MAX_LIMIT;
    var t: Tally<F> := Tally([0, 0, 0, 0], [[], [], [], []]);
    var read := NextRead(current, other, 0, 0);
    if read.Failure? {
      ReadBreaks(current, other, 0, 0);
      return Failure(read.error);
    }
    if Identical(current, other) {
      if EqualData(current, other) { IdenticalReported(bound, current, other); }
      return Success(Diff(t, false, false, false));
    }
    hide *;
    var joined := MergeJoin(current, other, bound);
    if joined.Failure? { return Failure(joined.error); }
    t := joined.value;
    CountsReported(t, bound, current, other);
    var graphChanged := t.counts[0] != 0 || t.counts[1] != 0 || t.counts[3] != 0;
    var truncated := t.counts[0] > bound || t.counts[1] > bound || t.counts[2] > bound || t.counts[3] > bound;
    return Success(Diff(t, graphChanged, graphChanged || t.counts[2] != 0, truncated));
  }

  lemma IdenticalReported<F, E>(bound: nat, current: Snapshot<F, E>, other: Snapshot<F, E>)
    requires EqualData(current, other) && Ascending(current.entries) && Ascending(other.entries)
    ensures Reports(Diff(Tally([0, 0, 0, 0], [[], [], [], []]), false, false, false), bound, current, other)
  {
    IdenticalEmpty(current, other);
    GraphChangedExact(current, other);
    MetadataChangedExact(current, other);
    hide Listing, SameGraph, EqualData, AllReadable, FactDiffers;
  }

  lemma CountsReported<F, E>(t: Tally<F>, bound: nat, current: Snapshot<F, E>, other: Snapshot<F, E>)
    requires Ascending(current.entries) && Ascending(other.entries)
    requires forall c :: Tallies(t, bound, c, Listing(current, other, c))
    ensures |t.counts| == 4
    ensures var changed := t.counts[0] != 0 || t.counts[1] != 0 || t.counts[3] != 0;
      Reports(Diff(t, changed, changed || t.counts[2] != 0,
                   t.counts[0] > bound || t.counts[1] > bound || t.counts[2] > bound || t.counts[3] > bound),
              bound, current, other)
  {
    GraphChangedExact(current, other);
    MetadataChangedExact(current, other);
    CountsDecide(t, bound, current, other);
    hide Listing, SameGraph, AllReadable, FactDiffers, Tallies;
  }

  lemma CountsDecide<F, E>(t: Tally<F>, bound: nat, current: Snapshot<F, E>, other: Snapshot<F, E>)
    requires forall c :: Tallies(t, bound, c, Listing(current, other, c))
    ensures |t.counts| == 4
    ensures t.counts[0] == 0 <==> Listing(current, other, Added) == []
    ensures t.counts[1] == 0 <==> Listing(current, other, Removed) == []
    ensures t.counts[2] == 0 <==> Listing(current, other, MetadataChanged) == []
    ensures t.counts[3] == 0 <==> Listing(current, other, RelationshipChanged) == []
    ensures (t.counts[0] > bound || t.counts[1] > bound || t.counts[2] > bound || t.counts[3] > bound) <==>
      exists c :: |Listing(current, other, c)| > bound
  {
    hide Listing;
    assert Tallies(t, bound, Added, Listing(current, other, Added));
    assert Tallies(t, bound, Removed, Listing(current, other, Removed));
    assert Tallies(t, bound, MetadataChanged, Listing(current, other, MetadataChanged));
    assert Tallies(t, bound, RelationshipChanged, Listing(current, other, RelationshipChanged));
    if c :| |Listing(current, other, c)| > bound {
      match c
      case Added =>
      case Removed =>
      case MetadataChanged =>
      case RelationshipChanged =>
    }
  }

  lemma {:induction false} SelectEmpty<F>(entries: seq<Entry<F>>, p: Entry<F> -> bool)
    ensures Select(entries, p) == [] <==> forall e :: e in entries ==> !p(e)
  {
    if entries != [] {
      var n := |entries| - 1;
      SelectEmpty(entries[..n], p);
      assert entries == entries[..n] + [entries[n]];
    }
  }

  lemma IdenticalEmpty<F, E>(current: Snapshot<F, E>, other: Snapshot<F, E>)
    requires EqualData(current, other) && Ascending(current.entries) && Ascending(other.entries)
    ensures forall c :: Listing(current, other, c) == []
    ensures AllReadable(current, other, |current.entries|)
  {
    forall i | 0 <= i < |current.entries|
      ensures HasKey(other.entries, current.entries[i].key) && HasKey(current.entries, other.entries[i].key)
      ensures !FactDiffers(other, current.entries[i]) && !OutgoingDiffers(current, other, current.entries[i])
    {
      MatchedOnce(current, other, i, i);
    }
    forall c ensures Listing(current, other, c) == [] {
      match c
      case Added => SelectEmpty(current.entries, (l: Entry<F>) => !HasKey(other.entries, l.key));
      case Removed => SelectEmpty(other.entries, (r: Entry<F>) => !HasKey(current.entries, r.key));
      case MetadataChanged => SelectEmpty(current.entries, (l: Entry<F>) => FactDiffers(other, l));
      case RelationshipChanged => SelectEmpty(current.entries, (l: Entry<F>) => OutgoingDiffers(current, other, l));
    }
    forall p, q | 0 <= p < |current.entries| && 0 <= q < |other.entries| ensures Readable(current, other, p, q) {
      if current.entries[p].key == other.entries[q].key { assert p == q; }
    }
  }

  /** The snapshot has an edge between these keys, whatever dense identifiers its ends carry. */
  ghost predicate HasEdge<F, E>(s: Snapshot<F, E>, from: nat, to: nat, kind: nat) {
    exists i :: 0 <= i < |s.entries| && s.entries[i].key == from && LeadsTo(s, s.entries[i].nodeId, to, kind)
  }

  /** The same key set and the same key-level edges. */
  ghost predicate SameGraph<F, E>(a: Snapshot<F, E>, b: Snapshot<F, E>) {
    && (forall key :: HasKey(a.entries, key) <==> HasKey(b.entries, key))
    && (forall from, to, kind :: HasEdge(a, from, to, kind) <==> HasEdge(b, from, to, kind))
  }

  lemma MetadataChangedExact<F, E>(current: Snapshot<F, E>, other: Snapshot<F, E>)
    ensures Listing(current, other, MetadataChanged) == [] <==> !exists l :: l in current.entries && FactDiffers(other, l)
  {
    SelectEmpty(current.entries, (l: Entry<F>) => FactDiffers(other, l));
  }

  /** No key appears or disappears and no relationship changes exactly when the key-level graphs are equal. */
  lemma GraphChangedExact<F, E>(current: Snapshot<F, E>, other: Snapshot<F, E>)
    requires Ascending(current.entries) && Ascending(other.entries)
    ensures SameGraph(current, other) <==>
      (Listing(current, other, Added) == [] && Listing(current, other, Removed) == [] &&
       Listing(current, other, RelationshipChanged) == [])
  {
    hide LogicalOutgoing, OutgoingDiffers, HasEdge, SameGraph, AllReadable, HasKey, Select;
    var a, b := current.entries, other.entries;
    SelectEmpty(a, (l: Entry<F>) => !HasKey(b, l.key));
    SelectEmpty(b, (r: Entry<F>) => !HasKey(a, r.key));
    SelectEmpty(a, (l: Entry<F>) => OutgoingDiffers(current, other, l));
    if SameGraph(current, other) {
      SameGraphUnchanged(current, other);
    } else if (forall l :: l in a ==> HasKey(b, l.key)) && (forall r :: r in b ==> HasKey(a, r.key)) {
      if forall l :: l in a ==> !OutgoingDiffers(current, other, l) {
        UnchangedSameGraph(current, other);
      }
    }
  }

  lemma SameGraphUnchanged<F, E>(current: Snapshot<F, E>, other: Snapshot<F, E>)
    requires Ascending(current.entries) && Ascending(other.entries)
    requires SameGraph(current, other)
    ensures forall l :: l in current.entries ==> HasKey(other.entries, l.key) && !OutgoingDiffers(current, other, l)
    ensures forall r :: r in other.entries ==> HasKey(current.entries, r.key)
  {
    hide LogicalOutgoing, OutgoingDiffers, HasEdge, AllReadable;
    forall l | l in current.entries ensures HasKey(other.entries, l.key) && !OutgoingDiffers(current, other, l) {
      var i :| 0 <= i < |current.entries| && current.entries[i] == l;
      assert HasKey(current.entries, l.key);
      SameEdgesSameOutgoing(current, other, i);
    }
    forall r | r in other.entries ensures HasKey(current.entries, r.key) { assert HasKey(other.entries, r.key); }
  }

  lemma UnchangedSameGraph<F, E>(current: Snapshot<F, E>, other: Snapshot<F, E>)
    requires Ascending(current.entries) && Ascending(other.entries)
    requires forall l :: l in current.entries ==> HasKey(other.entries, l.key) && !OutgoingDiffers(current, other, l)
    requires forall r :: r in other.entries ==> HasKey(current.entries, r.key)
    ensures SameGraph(current, other)
  {
    hide LogicalOutgoing, OutgoingDiffers, HasEdge, AllReadable;
    forall from, to, kind ensures HasEdge(current, from, to, kind) <==> HasEdge(other, from, to, kind) {
      SameOutgoingSameEdges(current, other, from, to, kind);
    }
    forall key ensures HasKey(current.entries, key) <==> HasKey(other.entries, key) {
      if i :| 0 <= i < |current.entries| && current.entries[i].key == key { assert current.entries[i] in current.entries; }
      if j :| 0 <= j < |other.entries| && other.entries[j].key == key { assert other.entries[j] in other.entries; }
    }
  }

  lemma SameEdgesSameOutgoing<F, E>(current: Snapshot<F, E>, other: Snapshot<F, E>, i: nat)
    requires Ascending(current.entries) && Ascending(other.entries)
    requires SameGraph(current, other) && i < |current.entries|
    ensures !OutgoingDiffers(current, other, current.entries[i])
  {
    hide LeadsTo;
    var l := current.entries[i];
    if j :| 0 <= j < |other.entries| && other.entries[j].key == l.key {
      MatchedOnce(current, other, i, j);
      forall to: nat, kind: nat ensures LeadsTo(current, l.nodeId, to, kind) <==> LeadsTo(other, other.entries[j].nodeId, to, kind) {
        EdgeAt(current, i, to, kind);
        EdgeAt(other, j, to, kind);
        assert HasEdge(current, l.key, to, kind) <==> HasEdge(other, l.key, to, kind);
      }
    }
  }

  lemma EdgeAt<F, E>(s: Snapshot<F, E>, i: nat, to: nat, kind: nat)
    requires Ascending(s.entries) && i < |s.entries|
    ensures HasEdge(s, s.entries[i].key, to, kind) <==> LeadsTo(s, s.entries[i].nodeId, to, kind)
  {
    hide LeadsTo;
  }

  lemma SameOutgoingSameEdges<F, E>(current: Snapshot<F, E>, other: Snapshot<F, E>, from: nat, to: nat, kind: nat)
    requires Ascending(current.entries) && Ascending(other.entries)
    requires forall l :: l in current.entries ==> HasKey(other.entries, l.key) && !OutgoingDiffers(current, other, l)
    requires forall r :: r in other.entries ==> HasKey(current.entries, r.key)
    ensures HasEdge(current, from, to, kind) <==> HasEdge(other, from, to, kind)
  {
    hide LeadsTo;
    if i :| 0 <= i < |current.entries| && current.entries[i].key == from {
      assert current.entries[i] in current.entries;
      var j :| 0 <= j < |other.entries| && other.entries[j].key == from;
      MatchedOnce(current, other, i, j);
      EdgeAt(current, i, to, kind);
      EdgeAt(other, j, to, kind);
    } else {
      assert forall r :: r in other.entries ==> r.key != from;
    }
  }
}
