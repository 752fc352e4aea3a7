/**
 The routing table as a value: buckets in list order, each with its nodes in list order. The
 functions here say what each operation of the C code does to it.
 */
module DhtTable {
  import opened DhtId
  import opened DhtBuckets
  import opened Wrappers

  /** The bytes of a socket address, never inspected by the table. */
  type Addr = seq<bv8>

  datatype Node = Node(id: Id, ss: Addr, time: int, replyTime: int, pingedTime: int, pinged: int)

  datatype Bucket = Bucket(first: Id, count: int, time: int, nodes: seq<Node>, cached: Option<Addr>)

  datatype Table = Table(buckets: seq<Bucket>, growTime: int)

  const BUCKET_SIZE := 8

  function Firsts(bs: seq<Bucket>): (fs: seq<Id>)
    ensures |fs| == |bs|
    ensures forall i :: 0 <= i < |bs| ==> fs[i] == bs[i].first
  {
    seq(|bs|, i requires 0 <= i < |bs| => bs[i].first)
  }

  // ----- the representation invariant -----

  ghost predicate DistinctIds(nodes: seq<Node>)
  {
    forall j, k :: 0 <= j < k < |nodes| ==> nodes[j].id != nodes[k].id
  }

  ghost predicate BucketOk(bs: seq<Bucket>, i: nat, my: Id)
    requires i < |bs|
  {
    && bs[i].count == |bs[i].nodes| <= BUCKET_SIZE
    && DistinctIds(bs[i].nodes)
    && (forall k :: 0 <= k < |bs[i].nodes| ==> InBucket(Firsts(bs), i, bs[i].nodes[k].id) && bs[i].nodes[k].id != my)
  }

  ghost predicate Inv(bs: seq<Bucket>, my: Id)
  {
    && WellFormed(Firsts(bs))
    && (forall i :: 0 <= i < |bs| ==> BucketOk(bs, i, my))
  }

  // ----- lookups -----

  function FindBucket(bs: seq<Bucket>, id: Id): (i: nat)
    requires |bs| > 0
    ensures i < |bs|
  {
    FindIndex(Firsts(bs), id)
  }

  /** Position of the first node with this id, or the length. */
  function IndexOf(nodes: seq<Node>, id: Id): (k: nat)
    ensures k <= |nodes|
    ensures k < |nodes| ==> nodes[k].id == id
    ensures forall j :: 0 <= j < k ==> nodes[j].id != id
  {
    if nodes == [] || nodes[0].id == id then 0 else 1 + IndexOf(nodes[1..], id)
  }

  function LookupIn(nodes: seq<Node>, id: Id): (r: Option<Node>)
  {
    var k := IndexOf(nodes, id);
    if k < |nodes| then Some(nodes[k]) else None
  }

  /** `find_node` (dht.cpp:608). */
  function Lookup(bs: seq<Bucket>, id: Id): (r: Option<Node>)
    requires |bs| > 0
  {
    LookupIn(bs[FindBucket(bs, id)].nodes, id)
  }

  // ----- splitting -----

  /** `insert_node` (dht.cpp:692). */
  function InsertNode(bs: seq<Bucket>, n: Node): (r: seq<Bucket>)
    requires |bs| > 0
    ensures |r| == |bs|
  {
    var i := FindBucket(bs, n.id);
    bs[i := bs[i].(nodes := [n] + bs[i].nodes, count := bs[i].count + 1)]
  }

  function Reinsert(bs: seq<Bucket>, nodes: seq<Node>): (r: seq<Bucket>)
    requires |bs| > 0
    ensures |r| == |bs|
    decreases |nodes|
  {
    if nodes == [] then bs else Reinsert(InsertNode(bs, nodes[0]), nodes[1..])
  }

  /** The list just after `split_bucket` has linked in the new bucket and before it re-inserts the nodes. */
  function SplitEmpty(bs: seq<Bucket>, i: nat): (r: seq<Bucket>)
    requires i < |bs| && Depth(Firsts(bs), i) < ID_BITS
    ensures |r| == |bs| + 1
  {
    var b := bs[i];
    var newFirst := SetIdBit(b.first, Depth(Firsts(bs), i));
    bs[..i] + [b.(nodes := [], count := 0, cached := None), Bucket(newFirst, 0, b.time, [], None)] + bs[i + 1..]
  }

  /** `split_bucket` (dht.cpp:836). */
  function Split(bs: seq<Bucket>, i: nat): (r: seq<Bucket>)
    requires i < |bs| && Depth(Firsts(bs), i) < ID_BITS
    ensures |r| == |bs| + 1
  {
    Reinsert(SplitEmpty(bs, i), bs[i].nodes)
  }

  // ----- learning about a node -----

  predicate Good(n: Node, now: int)
  {
    n.pinged <= 2 && n.replyTime >= now - 7200 && n.time >= now - 900
  }

  predicate Bad(n: Node, now: int)
  {
    n.pinged >= 3 && n.pingedTime < now - 15
  }

  function Fresh(id: Id, ss: Addr, confirm: int, now: int): Node
  {
    Node(id, ss, if confirm != 0 then now else 0, if confirm >= 2 then now else 0, 0, 0)
  }

  function Refresh(n: Node, ss: Addr, confirm: int, now: int): (r: Node)
    ensures r.id == n.id
  {
    if confirm != 0 || n.time < now - 15 * 60 then
      var n1 := n.(ss := ss, time := if confirm != 0 then now else n.time);
      if confirm >= 2 then n1.(replyTime := now, pinged := 0, pingedTime := 0) else n1
    else n
  }

  /** Position of the first node that is known to be bad, or the length. */
  function FirstBad(nodes: seq<Node>, now: int): (k: nat)
    ensures k <= |nodes|
    ensures k < |nodes| ==> Bad(nodes[k], now)
    ensures forall j :: 0 <= j < k ==> !Bad(nodes[j], now)
  {
    if nodes == [] || Bad(nodes[0], now) then 0 else 1 + FirstBad(nodes[1..], now)
  }

  predicate Pingable(n: Node, now: int)
  {
    !Good(n, now) && n.pingedTime < now - 15
  }

  /** Position of the first dubious node not pinged lately, or the length. */
  function FirstPingable(nodes: seq<Node>, now: int): (k: nat)
    ensures k <= |nodes|
    ensures k < |nodes| ==> Pingable(nodes[k], now)
    ensures forall j :: 0 <= j < k ==> !Pingable(nodes[j], now)
  {
    if nodes == [] || Pingable(nodes[0], now) then 0 else 1 + FirstPingable(nodes[1..], now)
  }

  function PingNode(n: Node, now: int): Node
  {
    n.(pinged := n.pinged + 1, pingedTime := now)
  }

  function PingDubious(nodes: seq<Node>, now: int): (r: seq<Node>)
    ensures |r| == |nodes|
  {
    var k := FirstPingable(nodes, now);
    if k < |nodes| then nodes[k := PingNode(nodes[k], now)] else nodes
  }

  predicate AnyDubious(nodes: seq<Node>, now: int)
  {
    exists k :: 0 <= k < |nodes| && !Good(nodes[k], now)
  }

  /** The message that teaches us about a node: who, from where, how trustworthy, and when. */
  datatype News = News(id: Id, ss: Addr, rejected: bool, confirm: int, now: int)

  /** How a bucket takes a message: it knew the node, stored it, had no room, or has to be split first. */
  datatype Verdict = Known | Stored | Full | NeedsSplit

  /** One pass of `new_node` over a bucket; `mine` says that it covers our own id, `alone` that it is the only bucket. */
  function LearnBucket(b0: Bucket, m: News, mine: bool, alone: bool): (r: (Bucket, Verdict))
    ensures r.0.first == b0.first
  {
    var b := if m.confirm == 2 then b0.(time := m.now) else b0;
    var known := IndexOf(b.nodes, m.id);
    if known < |b.nodes| then
      (b.(nodes := b.nodes[known := Refresh(b.nodes[known], m.ss, m.confirm, m.now)]), Known)
    else
      LearnNew(b, m, mine, alone)
  }

  /** The part of a pass for an id the bucket does not know (dht.cpp:917-1005). */
  function LearnNew(b: Bucket, m: News, mine: bool, alone: bool): (r: (Bucket, Verdict))
    ensures r.0.first == b.first && r.1 != Known
  {
    var bad := FirstBad(b.nodes, m.now);
    var entry := Fresh(m.id, m.ss, m.confirm, m.now);
    if bad < |b.nodes| then
      (b.(nodes := b.nodes[bad := entry]), Stored)
    else if b.count >= BUCKET_SIZE then
      var b1 := b.(nodes := PingDubious(b.nodes, m.now));
      if mine && (!AnyDubious(b.nodes, m.now) || alone) then (b1, NeedsSplit)
      else (b1.(cached := if m.confirm != 0 || b.cached.None? then Some(m.ss) else b.cached), Full)
    else
      (b.(nodes := [entry] + b.nodes, count := b.count + 1), Stored)
  }

  /** What one pass of `new_node` comes to: finished, or bucket `i` has to be split first. */
  datatype Pass = Done(table: Table, ok: bool) | MustSplit(buckets: seq<Bucket>, i: nat, growTime: int)

  function OnePass(t: Table, my: Id, m: News): (r: Pass)
    requires |t.buckets| > 0
  {
    var i := FindBucket(t.buckets, m.id);
    var mine := InBucket(Firsts(t.buckets), i, my);
    var (b, verdict) := LearnBucket(t.buckets[i], m, mine, |t.buckets| == 1);
    var bs := t.buckets[i := b];
    var grow := if mine && verdict != Known then m.now else t.growTime;
    match verdict
    case NeedsSplit => MustSplit(bs, i, grow)
    case Full => Done(Table(bs, grow), false)
    case _ => Done(Table(bs, grow), true)
  }

  /** Distance of the id's bucket from the deepest level: what the recursion of `new_node` uses up. */
  function Room(bs: seq<Bucket>, id: Id): (d: nat)
    requires |bs| > 0
  {
    ID_BITS - Depth(Firsts(bs), FindBucket(bs, id))
  }

  /** `new_node` (dht.cpp:877) on one address family; the second result says whether it returned a node. */
  function NewNode(t: Table, my: Id, m: News): (r: (Table, bool))
    requires Inv(t.buckets, my)
    decreases Room(t.buckets, m.id)
  {
    if m.id == my || m.rejected then (t, false)
    else
      match OnePass(t, my, m)
      case Done(t1, ok) => (t1, ok)
      case MustSplit(bs1, i, grow) =>
        SplitMakesProgress(t, my, m);
        NewNode(Table(Split(bs1, i), grow), my, m)
  }

  // ----- why new_node terminates -----

  /** Same range, same ids in the same places, same count. */
  predicate SameIds(b: Bucket, c: Bucket)
  {
    && b.first == c.first && b.count == c.count && |b.nodes| == |c.nodes|
    && forall k :: 0 <= k < |b.nodes| ==> b.nodes[k].id == c.nodes[k].id
  }

  lemma PingKeepsInv(bs: seq<Bucket>, i: nat, b: Bucket, my: Id)
    requires Inv(bs, my) && i < |bs| && SameIds(b, bs[i])
    ensures Inv(bs[i := b], my)
    ensures Firsts(bs[i := b]) == Firsts(bs)
  {
    var cs := bs[i := b];
    assert Firsts(cs) == Firsts(bs);
    forall j | 0 <= j < |cs|
      ensures BucketOk(cs, j, my)
    {
      assert BucketOk(bs, j, my);
    }
  }

  /** A bucket with a node that also covers our own id has room to split. */
  lemma FullBucketCanSplit(bs: seq<Bucket>, i: nat, my: Id)
    requires Inv(bs, my) && i < |bs|
    requires bs[i].count > 0 && InBucket(Firsts(bs), i, my)
    ensures Depth(Firsts(bs), i) < ID_BITS
  {
    var fs := Firsts(bs);
    assert BucketOk(bs, i, my);
    var other := bs[i].nodes[0].id;
    InBucketIffPrefix(fs, i, my);
    InBucketIffPrefix(fs, i, other);
    if Depth(fs, i) == ID_BITS {
      assert BitsOf(my) == Prefix(fs, i) == BitsOf(other);
      BitsOfInjective(my, other);
    }
  }

  lemma MustSplitShape(t: Table, my: Id, m: News)
    requires |t.buckets| > 0 && OnePass(t, my, m).MustSplit?
    ensures var bs, r := t.buckets, OnePass(t, my, m);
            && r.i == FindBucket(bs, m.id) && |r.buckets| == |bs|
            && r.buckets == bs[r.i := r.buckets[r.i]]
            && SameIds(r.buckets[r.i], bs[r.i])
            && bs[r.i].count >= BUCKET_SIZE
            && InBucket(Firsts(bs), r.i, my)
  {
  }

  /** The recursive call of `new_node` is on a sound table in which the id's bucket lies one level deeper. */
  lemma SplitMakesProgress(t: Table, my: Id, m: News)
    requires Inv(t.buckets, my)
    requires OnePass(t, my, m).MustSplit?
    ensures var r := OnePass(t, my, m);
            && r.i < |r.buckets| && Inv(r.buckets, my)
            && Depth(Firsts(r.buckets), r.i) < ID_BITS
            && Inv(Split(r.buckets, r.i), my)
            && Room(Split(r.buckets, r.i), m.id) < Room(t.buckets, m.id)
  {
    var r := OnePass(t, my, m);
    MustSplitShape(t, my, m);
    PingKeepsInv(t.buckets, r.i, r.buckets[r.i], my);
    FullBucketCanSplit(r.buckets, r.i, my);
    SplitKeepsInv(r.buckets, r.i, my);
    FindIndexIsInBucket(Firsts(t.buckets), m.id);
    SplitDeepens(r.buckets, r.i, m.id);
  }

  // ----- a split loses and misplaces nothing -----

  lemma InsertNodeKeepsFirsts(bs: seq<Bucket>, n: Node)
    requires |bs| > 0
    ensures Firsts(InsertNode(bs, n)) == Firsts(bs)
  {
    assert Firsts(InsertNode(bs, n)) == Firsts(bs);
  }

  lemma {:induction false} ReinsertKeepsFirsts(bs: seq<Bucket>, nodes: seq<Node>)
    requires |bs| > 0
    ensures Firsts(Reinsert(bs, nodes)) == Firsts(bs)
    decreases |nodes|
  {
    if nodes != [] {
      InsertNodeKeepsFirsts(bs, nodes[0]);
      ReinsertKeepsFirsts(InsertNode(bs, nodes[0]), nodes[1..]);
    }
  }

  lemma SplitFirstsOf(bs: seq<Bucket>, i: nat)
    requires i < |bs| && Depth(Firsts(bs), i) < ID_BITS
    ensures Firsts(SplitEmpty(bs, i)) == SplitFirsts(Firsts(bs), i)
    ensures Firsts(Split(bs, i)) == SplitFirsts(Firsts(bs), i)
  {
    assert Firsts(SplitEmpty(bs, i)) == SplitFirsts(Firsts(bs), i);
    ReinsertKeepsFirsts(SplitEmpty(bs, i), bs[i].nodes);
  }

  /** After a split an id of bucket `i` belongs to bucket `i` or its new neighbour, whichever its next bit says. */
  lemma SplitHome(fs: seq<Id>, i: nat, id: Id)
    requires WellFormed(fs) && i < |fs| && Depth(fs, i) < ID_BITS && InBucket(fs, i, id)
    ensures WellFormed(SplitFirsts(fs, i))
    ensures var h := FindIndex(SplitFirsts(fs, i), id);
            h == (if BitsOf(id)[Depth(fs, i)] then i + 1 else i) && Depth(SplitFirsts(fs, i), h) == Depth(fs, i) + 1
  {
    hide WellFormed, InBucket, FindIndex, DepthOf;
    var gs, x := SplitFirsts(fs, i), BitsOf(id);
    var h := if x[Depth(fs, i)] then i + 1 else i;
    SplitKeepsWellFormed(fs, i);
    InBucketIffPrefix(fs, i, id);
    assert Prefix(gs, h) == Prefixes(gs)[h] == Prefixes(fs)[i] + [x[Depth(fs, i)]];
    InBucketIffPrefix(gs, h, id);
    FindBucketIsUnique(gs, id, h);
  }

  lemma SplitDeepens(bs: seq<Bucket>, i: nat, id: Id)
    requires i < |bs| && WellFormed(Firsts(bs)) && Depth(Firsts(bs), i) < ID_BITS && InBucket(Firsts(bs), i, id)
    ensures Depth(Firsts(Split(bs, i)), FindBucket(Split(bs, i), id)) == Depth(Firsts(bs), i) + 1
  {
    SplitFirstsOf(bs, i);
    SplitHome(Firsts(bs), i, id);
  }

  /** `split_bucket` in mid-flight: the table is sound, and the nodes in `rest` still have to go to buckets `i` and `i + 1`. */
  ghost predicate Loading(bs: seq<Bucket>, i: nat, rest: seq<Node>, my: Id)
  {
    && Inv(bs, my) && i + 1 < |bs|
    && DistinctIds(rest)
    && |bs[i].nodes| + |bs[i + 1].nodes| + |rest| <= BUCKET_SIZE
    && forall k :: 0 <= k < |rest| ==> Awaits(bs, i, rest[k].id, my)
  }

  ghost predicate Awaits(bs: seq<Bucket>, i: nat, id: Id, my: Id)
    requires i + 1 < |bs|
  {
    && id != my
    && (FindBucket(bs, id) == i || FindBucket(bs, id) == i + 1)
    && NotAmong(bs[i].nodes, id) && NotAmong(bs[i + 1].nodes, id)
  }

  predicate NotAmong(nodes: seq<Node>, id: Id)
  {
    forall k :: 0 <= k < |nodes| ==> nodes[k].id != id
  }

  lemma InsertOneKeepsInv(bs: seq<Bucket>, n: Node, my: Id)
    requires Inv(bs, my) && n.id != my
    requires NotAmong(bs[FindBucket(bs, n.id)].nodes, n.id) && |bs[FindBucket(bs, n.id)].nodes| < BUCKET_SIZE
    ensures Inv(InsertNode(bs, n), my)
  {
    hide WellFormed, InBucket, FindIndex;
    var h, cs := FindBucket(bs, n.id), InsertNode(bs, n);
    InsertNodeKeepsFirsts(bs, n);
    FindIndexIsInBucket(Firsts(bs), n.id);
    forall j | 0 <= j < |cs|
      ensures BucketOk(cs, j, my)
    {
      assert BucketOk(bs, j, my);
    }
  }

  lemma LoadingStep(bs: seq<Bucket>, i: nat, rest: seq<Node>, my: Id)
    requires Loading(bs, i, rest, my) && rest != []
    ensures Loading(InsertNode(bs, rest[0]), i, rest[1..], my)
  {
    var n, cs := rest[0], InsertNode(bs, rest[0]);
    assert Awaits(bs, i, n.id, my);
    InsertOneKeepsInv(bs, n, my);
    InsertNodeKeepsFirsts(bs, n);
    forall k | 0 <= k < |rest[1..]|
      ensures Awaits(cs, i, rest[1..][k].id, my)
    {
      assert Awaits(bs, i, rest[k + 1].id, my);
    }
  }

  lemma LoadingMoves(bs: seq<Bucket>, i: nat, rest: seq<Node>, my: Id)
    requires Loading(bs, i, rest, my) && rest != []
    ensures var cs := InsertNode(bs, rest[0]);
            && |cs| == |bs| && (forall j :: 0 <= j < |bs| && j != i && j != i + 1 ==> cs[j] == bs[j])
            && multiset(cs[i].nodes) + multiset(cs[i + 1].nodes)
               == multiset(bs[i].nodes) + multiset(bs[i + 1].nodes) + multiset{rest[0]}
  {
    hide Inv, NotAmong;
    assert Awaits(bs, i, rest[0].id, my);
  }

  /** Re-insertion keeps the invariant, touches only the two halves, and moves every waiting node into them. */
  lemma {:induction false} LoadingRuns(bs: seq<Bucket>, i: nat, rest: seq<Node>, my: Id)
    requires Loading(bs, i, rest, my)
    ensures var cs := Reinsert(bs, rest);
            && Inv(cs, my)
            && (forall j :: 0 <= j < |bs| && j != i && j != i + 1 ==> cs[j] == bs[j])
            && multiset(cs[i].nodes) + multiset(cs[i + 1].nodes)
               == multiset(bs[i].nodes) + multiset(bs[i + 1].nodes) + multiset(rest)
    decreases |rest|
  {
    if rest != [] {
      hide Inv, InsertNode, Awaits;
      LoadingStep(bs, i, rest, my);
      LoadingMoves(bs, i, rest, my);
      LoadingRuns(InsertNode(bs, rest[0]), i, rest[1..], my);
      assert rest == [rest[0]] + rest[1..];
    }
  }

  /** Soundness of a bucket depends on the bucket and the next first only. */
  lemma BucketOkMoves(bs: seq<Bucket>, i: nat, cs: seq<Bucket>, j: nat, my: Id)
    requires i < |bs| && j < |cs| && BucketOk(bs, i, my)
    requires bs[i] == cs[j] && NextFirst(Firsts(bs), i) == NextFirst(Firsts(cs), j)
    ensures BucketOk(cs, j, my)
  {
  }

  lemma SplitStartsLoading(bs: seq<Bucket>, i: nat, my: Id)
    requires Inv(bs, my) && i < |bs| && Depth(Firsts(bs), i) < ID_BITS
    ensures Loading(SplitEmpty(bs, i), i, bs[i].nodes, my)
  {
    hide WellFormed, InBucket, FindIndex, DepthOf;
    var fs, cs := Firsts(bs), SplitEmpty(bs, i);
    SplitFirstsOf(bs, i);
    SplitKeepsWellFormed(fs, i);
    forall j | 0 <= j < |cs|
      ensures BucketOk(cs, j, my)
    {
      if j < i {
        BucketOkMoves(bs, j, cs, j, my);
      } else if j > i + 1 {
        BucketOkMoves(bs, j - 1, cs, j, my);
      }
    }
    assert BucketOk(bs, i, my);
    forall k | 0 <= k < |bs[i].nodes|
      ensures Awaits(cs, i, bs[i].nodes[k].id, my)
    {
      SplitHome(fs, i, bs[i].nodes[k].id);
    }
  }

  /** A split keeps the invariant; the nodes of the bucket end up in its two halves, and no other bucket changes. */
  lemma SplitConserves(bs: seq<Bucket>, i: nat, my: Id)
    requires Inv(bs, my) && i < |bs| && Depth(Firsts(bs), i) < ID_BITS
    ensures var cs := Split(bs, i);
            && Inv(cs, my)
            && multiset(cs[i].nodes) + multiset(cs[i + 1].nodes) == multiset(bs[i].nodes)
            && cs[..i] == bs[..i] && cs[i + 2..] == bs[i + 1..]
  {
    hide Inv, InBucket, FindIndex, DepthOf, Reinsert;
    SplitStartsLoading(bs, i, my);
    LoadingRuns(SplitEmpty(bs, i), i, bs[i].nodes, my);
  }

  lemma SplitKeepsInv(bs: seq<Bucket>, i: nat, my: Id)
    requires Inv(bs, my) && i < |bs| && Depth(Firsts(bs), i) < ID_BITS
    ensures Inv(Split(bs, i), my)
  {
    SplitConserves(bs, i, my);
  }

  // ----- what one pass does to one bucket -----

  lemma UpdateKeepsInv(bs: seq<Bucket>, i: nat, b: Bucket, my: Id)
    requires Inv(bs, my) && i < |bs| && b.first == bs[i].first
    requires b.count == |b.nodes| <= BUCKET_SIZE && DistinctIds(b.nodes)
    requires forall k :: 0 <= k < |b.nodes| ==> InBucket(Firsts(bs), i, b.nodes[k].id) && b.nodes[k].id != my
    ensures Inv(bs[i := b], my)
    ensures Firsts(bs[i := b]) == Firsts(bs)
  {
    hide WellFormed, InBucket;
    var cs := bs[i := b];
    assert Firsts(cs) == Firsts(bs);
    forall j | 0 <= j < |cs|
      ensures BucketOk(cs, j, my)
    {
      if j != i { assert BucketOk(bs, j, my); }
    }
  }

  /** A pass keeps a bucket's ids distinct and its count right, and brings in no id but the one it is about. */
  lemma LearnBucketSound(b0: Bucket, m: News, mine: bool, alone: bool)
    requires b0.count == |b0.nodes| <= BUCKET_SIZE && DistinctIds(b0.nodes)
    ensures var b := LearnBucket(b0, m, mine, alone).0;
            && b.count == |b.nodes| <= BUCKET_SIZE && DistinctIds(b.nodes)
            && forall k :: 0 <= k < |b.nodes| ==> b.nodes[k].id == m.id || !NotAmong(b0.nodes, b.nodes[k].id)
  {
    hide IndexOf, FirstBad, FirstPingable, LearnNew;
    var known := IndexOf(b0.nodes, m.id);
    if known == |b0.nodes| {
      var b := if m.confirm == 2 then b0.(time := m.now) else b0;
      LearnNewSound(b, m, mine, alone);
    }
  }

  lemma LearnNewSound(b0: Bucket, m: News, mine: bool, alone: bool)
    requires b0.count == |b0.nodes| <= BUCKET_SIZE && DistinctIds(b0.nodes) && NotAmong(b0.nodes, m.id)
    ensures var b := LearnNew(b0, m, mine, alone).0;
            && b.count == |b.nodes| <= BUCKET_SIZE && DistinctIds(b.nodes)
            && forall k :: 0 <= k < |b.nodes| ==> b.nodes[k].id == m.id || !NotAmong(b0.nodes, b.nodes[k].id)
  {
    hide FirstBad, FirstPingable;
    var b := LearnNew(b0, m, mine, alone).0;
    forall k | 0 <= k < |b.nodes|
      ensures b.nodes[k].id == m.id || !NotAmong(b0.nodes, b.nodes[k].id)
    {
      if |b.nodes| == |b0.nodes| {
        assert b.nodes[k].id == m.id || b.nodes[k].id == b0.nodes[k].id;
      } else {
        assert k > 0 ==> b.nodes[k] == b0.nodes[k - 1];
      }
    }
  }

  lemma OnePassKeepsInv(t: Table, my: Id, m: News)
    requires Inv(t.buckets, my) && m.id != my && OnePass(t, my, m).Done?
    ensures Inv(OnePass(t, my, m).table.buckets, my)
    ensures Firsts(OnePass(t, my, m).table.buckets) == Firsts(t.buckets)
  {
    hide WellFormed, InBucket, FindIndex, LearnBucket;
    var bs, i, cs := t.buckets, FindBucket(t.buckets, m.id), OnePass(t, my, m).table.buckets;
    assert BucketOk(bs, i, my);
    FindIndexIsInBucket(Firsts(bs), m.id);
    LearnBucketSound(bs[i], m, InBucket(Firsts(bs), i, my), |bs| == 1);
    UpdateKeepsInv(bs, i, cs[i], my);
    assert cs == bs[i := cs[i]];
  }

  // ----- what the table remembers -----

  /** What may become of a node that the message is not about: nothing, one more unanswered ping, or dropped as known bad. */
  predicate Remembered(before: Option<Node>, after: Option<Node>, now: int)
  {
    || after == before
    || (before.Some? && Pingable(before.value, now) && after == Some(PingNode(before.value, now)))
    || (before.Some? && Bad(before.value, now) && after == None)
  }

  predicate Forgotten(before: Option<Node>, after: Option<Node>)
  {
    before.Some? && after.None?
  }

  /** What `new_node` does for the id it is called with. */
  predicate Learned(before: Option<Node>, after: Option<Node>, ok: bool, m: News)
  {
    if before.Some? then ok && after == Some(Refresh(before.value, m.ss, m.confirm, m.now))
    else after == if ok then Some(Fresh(m.id, m.ss, m.confirm, m.now)) else None
  }

  lemma IndexOfUnique(nodes: seq<Node>, id: Id, k: nat)
    requires DistinctIds(nodes) && k < |nodes| && nodes[k].id == id
    ensures IndexOf(nodes, id) == k
  {
  }

  lemma LookupInIff(nodes: seq<Node>, x: Id, n: Node)
    requires DistinctIds(nodes)
    ensures LookupIn(nodes, x) == Some(n) <==> n.id == x && n in nodes
  {
    if n.id == x && n in nodes {
      var k :| 0 <= k < |nodes| && nodes[k] == n;
      IndexOfUnique(nodes, x, k);
    }
  }

  /** A node found by its id sits in the bucket of that id, and there only once. */
  lemma LookupIff(bs: seq<Bucket>, my: Id, x: Id, n: Node)
    requires |bs| > 0 && Inv(bs, my)
    ensures Lookup(bs, x) == Some(n) <==> n.id == x && n in bs[FindBucket(bs, x)].nodes
  {
    hide WellFormed, InBucket, FindIndex;
    assert BucketOk(bs, FindBucket(bs, x), my);
    LookupInIff(bs[FindBucket(bs, x)].nodes, x, n);
  }

  /** Which bucket an id falls in after a split of bucket `i`. */
  lemma SplitHomes(fs: seq<Id>, i: nat, id: Id)
    requires WellFormed(fs) && i < |fs| && Depth(fs, i) < ID_BITS
    ensures var h, g := FindIndex(fs, id), FindIndex(SplitFirsts(fs, i), id);
            (h < i ==> g == h) && (h > i ==> g == h + 1) && (h == i ==> g == i || g == i + 1)
  {
    hide WellFormed, FindIndex, DepthOf;
    var gs, h := SplitFirsts(fs, i), FindIndex(fs, id);
    SplitKeepsWellFormed(fs, i);
    FindIndexIsInBucket(fs, id);
    if h < i {
      FindBucketIsUnique(gs, id, h);
    } else if h > i {
      FindBucketIsUnique(gs, id, h + 1);
    } else {
      SplitHome(fs, i, id);
    }
  }

  lemma SplitMembers(bs: seq<Bucket>, i: nat, my: Id, n: Node)
    requires Inv(bs, my) && i < |bs| && Depth(Firsts(bs), i) < ID_BITS
    ensures n in bs[i].nodes <==> n in Split(bs, i)[i].nodes || n in Split(bs, i)[i + 1].nodes
  {
    hide *;
    var cs := Split(bs, i);
    SplitConserves(bs, i, my);
    assert n in multiset(bs[i].nodes) <==> n in multiset(cs[i].nodes) || n in multiset(cs[i + 1].nodes);
  }

  lemma SplitKeepsLookupHere(bs: seq<Bucket>, i: nat, my: Id, x: Id, n: Node)
    requires Inv(bs, my) && i < |bs| && Depth(Firsts(bs), i) < ID_BITS
    requires FindBucket(bs, x) == i && FindBucket(Split(bs, i), x) in {i, i + 1}
    ensures Lookup(Split(bs, i), x) == Some(n) <==> Lookup(bs, x) == Some(n)
  {
    hide *;
    var cs := Split(bs, i);
    SplitConserves(bs, i, my);
    SplitMembers(bs, i, my, n);
    LookupIff(bs, my, x, n);
    LookupIff(cs, my, x, n);
    NodesAreHome(cs, my, i, n);
    NodesAreHome(cs, my, i + 1, n);
  }

  /** A split changes no lookup. */
  lemma SplitKeepsLookup(bs: seq<Bucket>, i: nat, my: Id, x: Id)
    requires Inv(bs, my) && i < |bs| && Depth(Firsts(bs), i) < ID_BITS
    ensures Lookup(Split(bs, i), x) == Lookup(bs, x)
  {
    hide Inv, FindIndex, DepthOf, Split, IndexOf;
    var cs := Split(bs, i);
    var h, g := FindBucket(bs, x), FindBucket(cs, x);
    SplitConserves(bs, i, my);
    SplitFirstsOf(bs, i);
    InvIsWellFormed(bs, my);
    SplitHomes(Firsts(bs), i, x);
    if h < i {
      assert cs[..i][h] == bs[..i][h];
    } else if h > i {
      assert cs[i + 2..][h - i - 1] == bs[i + 1..][h - i - 1];
    } else {
      forall n: Node
        ensures Lookup(cs, x) == Some(n) <==> Lookup(bs, x) == Some(n)
      {
        SplitKeepsLookupHere(bs, i, my, x, n);
      }
      SameOption(Lookup(cs, x), Lookup(bs, x));
    }
  }

  lemma SameOption(a: Option<Node>, b: Option<Node>)
    requires forall n: Node :: a == Some(n) <==> b == Some(n)
    ensures a == b
  {
    if a.Some? { assert b == Some(a.value); }
    if b.Some? { assert a == Some(b.value); }
  }

  lemma InvIsWellFormed(bs: seq<Bucket>, my: Id)
    requires Inv(bs, my)
    ensures WellFormed(Firsts(bs))
  {
  }

  lemma NodesAreHome(bs: seq<Bucket>, my: Id, i: nat, n: Node)
    requires Inv(bs, my) && i < |bs|
    ensures n in bs[i].nodes ==> FindBucket(bs, n.id) == i
  {
    hide WellFormed, InBucket, FindIndex;
    assert BucketOk(bs, i, my);
    FindBucketIsUnique(Firsts(bs), n.id, i);
  }

  /** Overwriting one entry of a node list: `n` is the same node or a newcomer. */
  lemma LookupInUpdate(nodes: seq<Node>, k: nat, n: Node, x: Id)
    requires DistinctIds(nodes) && k < |nodes|
    requires n.id == nodes[k].id || NotAmong(nodes, n.id)
    ensures DistinctIds(nodes[k := n])
    ensures LookupIn(nodes[k := n], x) ==
      if x == n.id then Some(n) else if x == nodes[k].id then None else LookupIn(nodes, x)
  {
    hide IndexOf;
    var after := nodes[k := n];
    if x == n.id {
      IndexOfUnique(after, x, k);
    } else if x != nodes[k].id && LookupIn(nodes, x).Some? {
      IndexOfUnique(after, x, IndexOf(nodes, x));
    }
  }

  lemma LookupInPrepend(nodes: seq<Node>, n: Node, x: Id)
    ensures LookupIn([n] + nodes, x) == if x == n.id then Some(n) else LookupIn(nodes, x)
  {
    assert ([n] + nodes)[1..] == nodes;
  }

  /** The table after one pass, finished or about to be split. */
  function PassBuckets(r: Pass): seq<Bucket>
  {
    match r
    case Done(t, _) => t.buckets
    case MustSplit(bs, _, _) => bs
  }

  lemma PassKeepsFirsts(t: Table, my: Id, m: News)
    requires |t.buckets| > 0
    ensures var bs, i, cs := t.buckets, FindBucket(t.buckets, m.id), PassBuckets(OnePass(t, my, m));
            && |cs| == |bs| && cs == bs[i := cs[i]] && cs[i].first == bs[i].first
            && Firsts(cs) == Firsts(bs)
  {
    hide InBucket, FindIndex;
    var bs, cs := t.buckets, PassBuckets(OnePass(t, my, m));
    assert Firsts(cs) == Firsts(bs);
  }

  /** The one node a pass may evict: the first known-bad node of the bucket. */
  function Victim(t: Table, m: News): Option<Id>
    requires |t.buckets| > 0
  {
    var nodes := t.buckets[FindBucket(t.buckets, m.id)].nodes;
    var bad := FirstBad(nodes, m.now);
    if bad < |nodes| then Some(nodes[bad].id) else None
  }

  /** Effect of one pass on the nodes of the bucket it works on. */
  lemma PassLookupHere(t: Table, my: Id, m: News, x: Id)
    requires |t.buckets| > 0
    requires DistinctIds(t.buckets[FindBucket(t.buckets, m.id)].nodes)
    ensures var r, i := OnePass(t, my, m), FindBucket(t.buckets, m.id);
            var before, after := t.buckets[i].nodes, PassBuckets(r)[i].nodes;
            && (x != m.id ==> Remembered(LookupIn(before, x), LookupIn(after, x), m.now))
            && (Forgotten(LookupIn(before, x), LookupIn(after, x)) ==> r.Done? && Victim(t, m) == Some(x))
            && (x == m.id && r.Done? ==> Learned(LookupIn(before, x), LookupIn(after, x), r.ok, m))
            && (x == m.id && r.MustSplit? ==> LookupIn(before, x) == LookupIn(after, x) == None)
  {
    hide InBucket, FindIndex, IndexOf, FirstBad, FirstPingable;
    var nodes := t.buckets[FindBucket(t.buckets, m.id)].nodes;
    var known, bad, ping := IndexOf(nodes, m.id), FirstBad(nodes, m.now), FirstPingable(nodes, m.now);
    if known < |nodes| {
      LookupInUpdate(nodes, known, Refresh(nodes[known], m.ss, m.confirm, m.now), x);
    } else if bad < |nodes| {
      LookupInUpdate(nodes, bad, Fresh(m.id, m.ss, m.confirm, m.now), x);
    } else if ping < |nodes| {
      LookupInUpdate(nodes, ping, PingNode(nodes[ping], m.now), x);
    }
    LookupInPrepend(nodes, Fresh(m.id, m.ss, m.confirm, m.now), x);
    forall k | 0 <= k < |nodes|
      ensures LookupIn(nodes, nodes[k].id) == Some(nodes[k])
    {
      IndexOfUnique(nodes, nodes[k].id, k);
    }
  }

  lemma PassLookup(t: Table, my: Id, m: News, x: Id)
    requires |t.buckets| > 0 && Inv(t.buckets, my)
    ensures var r, bs := OnePass(t, my, m), t.buckets; var cs := PassBuckets(r);
            && |cs| == |bs|
            && (x != m.id ==> Remembered(Lookup(bs, x), Lookup(cs, x), m.now))
            && (Forgotten(Lookup(bs, x), Lookup(cs, x)) ==> r.Done? && Victim(t, m) == Some(x))
            && (r.Done? ==> Learned(Lookup(bs, m.id), Lookup(cs, m.id), r.ok, m))
            && (r.MustSplit? ==> Lookup(bs, m.id) == Lookup(cs, m.id) == None)
  {
    hide OnePass, LookupIn, FindIndex, WellFormed, InBucket;
    var i := FindBucket(t.buckets, m.id);
    assert BucketOk(t.buckets, i, my);
    PassKeepsFirsts(t, my, m);
    PassLookupHere(t, my, m, x);
    PassLookupHere(t, my, m, m.id);
  }

  /**
   What a call of `new_node` does to the whole table, however many splits it takes: the
   invariant survives; the id it is about is learned or refreshed exactly when a node is
   returned; every other node is left alone, or pinged once more because it was dubious,
   or dropped because it was known to be bad.
   */
  lemma {:induction false} NewNodeEffect(t: Table, my: Id, m: News, x: Id)
    requires |t.buckets| > 0 && Inv(t.buckets, my)
    ensures var (t1, ok) := NewNode(t, my, m);
            && |t1.buckets| > 0 && Inv(t1.buckets, my)
            && (m.id == my || m.rejected ==> t1 == t && !ok)
            && (m.id != my && !m.rejected ==> Learned(Lookup(t.buckets, m.id), Lookup(t1.buckets, m.id), ok, m))
            && (x != m.id ==> Remembered(Lookup(t.buckets, x), Lookup(t1.buckets, x), m.now))
    decreases Room(t.buckets, m.id)
  {
    hide OnePass, Lookup, Inv, Split, FindIndex;
    if m.id != my && !m.rejected {
      PassLookup(t, my, m, x);
      match OnePass(t, my, m)
      case Done(t1, ok) =>
        OnePassKeepsInv(t, my, m);
      case MustSplit(bs1, i, grow) =>
        SplitMakesProgress(t, my, m);
        SplitKeepsLookup(bs1, i, my, x);
        SplitKeepsLookup(bs1, i, my, m.id);
        NewNodeEffect(Table(Split(bs1, i), grow), my, m, x);
    }
  }

  /** However many splits a call takes, it evicts at most one node. */
  lemma {:induction false} NewNodeEvictsAtMostOne(t: Table, my: Id, m: News, x: Id, y: Id)
    requires |t.buckets| > 0 && Inv(t.buckets, my)
    ensures var t1 := NewNode(t, my, m).0;
            && |t1.buckets| > 0
            && (Forgotten(Lookup(t.buckets, x), Lookup(t1.buckets, x)) && Forgotten(Lookup(t.buckets, y), Lookup(t1.buckets, y))
                ==> x == y)
    decreases Room(t.buckets, m.id)
  {
    hide OnePass, Lookup, Inv, Split, FindIndex, Victim;
    if m.id != my && !m.rejected {
      PassLookup(t, my, m, x);
      PassLookup(t, my, m, y);
      match OnePass(t, my, m)
      case Done(t1, ok) =>
        OnePassKeepsInv(t, my, m);
      case MustSplit(bs1, i, grow) =>
        SplitMakesProgress(t, my, m);
        SplitKeepsLookup(bs1, i, my, x);
        SplitKeepsLookup(bs1, i, my, y);
        NewNodeEvictsAtMostOne(Table(Split(bs1, i), grow), my, m, x, y);
    }
  }

  // ----- pinged, blacklist_node, expire_buckets -----

  /** `pinged` (dht.cpp:769) on node `k` of bucket `i`; from three unanswered pings on, the cached candidate is used up. */
  function Pinged(bs: seq<Bucket>, i: nat, k: nat, now: int): (r: seq<Bucket>)
    requires i < |bs| && k < |bs[i].nodes|
    ensures |r| == |bs|
  {
    var n := PingNode(bs[i].nodes[k], now);
    var b := bs[i].(nodes := bs[i].nodes[k := n]);
    bs[i := if n.pinged >= 3 then b.(cached := None) else b]
  }

  /** The routing-table part of `blacklist_node` (dht.cpp:782): the node becomes easy to discard. */
  function Blacklist(bs: seq<Bucket>, id: Id, now: int): (r: seq<Bucket>)
    requires |bs| > 0
    ensures |r| == |bs|
  {
    var i := FindBucket(bs, id);
    var k := IndexOf(bs[i].nodes, id);
    if k < |bs[i].nodes| then
      var marked := bs[i].nodes[k := bs[i].nodes[k].(pinged := 3)];
      Pinged(bs[i := bs[i].(nodes := marked)], i, k, now)
    else bs
  }

  const DEAD_AFTER := 4

  /** The nodes that `expire_buckets` keeps, in order. */
  function Alive(nodes: seq<Node>): (r: seq<Node>)
  {
    if nodes == [] then []
    else (if nodes[0].pinged >= DEAD_AFTER then [] else [nodes[0]]) + Alive(nodes[1..])
  }

  function ExpireBucket(b: Bucket): (r: Bucket)
    ensures r.first == b.first
  {
    var nodes := Alive(b.nodes);
    b.(nodes := nodes, count := b.count - (|b.nodes| - |nodes|),
       cached := if |nodes| < |b.nodes| then None else b.cached)
  }

  /** `expire_buckets` (dht.cpp:1014) on the whole list. */
  function Expire(bs: seq<Bucket>): (r: seq<Bucket>)
    ensures |r| == |bs|
    ensures forall i :: 0 <= i < |bs| ==> r[i] == ExpireBucket(bs[i])
  {
    seq(|bs|, i requires 0 <= i < |bs| => ExpireBucket(bs[i]))
  }

  lemma {:induction false} AliveMembers(nodes: seq<Node>, n: Node)
    ensures n in Alive(nodes) <==> n in nodes && n.pinged < DEAD_AFTER
    ensures |Alive(nodes)| <= |nodes|
  {
    if nodes != [] {
      AliveMembers(nodes[1..], n);
    }
  }

  /** Dropping a dead node anywhere makes no difference to what survives. */
  lemma {:induction false} AliveSkipsDead(nodes: seq<Node>, k: nat)
    requires k < |nodes| && nodes[k].pinged >= DEAD_AFTER
    ensures Alive(nodes[..k] + nodes[k + 1..]) == Alive(nodes)
  {
    var without := nodes[..k] + nodes[k + 1..];
    if k == 0 {
      assert without == nodes[1..];
    } else {
      AliveSkipsDead(nodes[1..], k - 1);
      assert without[1..] == nodes[1..][..k - 1] + nodes[1..][k..];
    }
  }

  lemma {:induction false} AliveAll(nodes: seq<Node>)
    requires forall k :: 0 <= k < |nodes| ==> nodes[k].pinged < DEAD_AFTER
    ensures Alive(nodes) == nodes
  {
    if nodes != [] {
      AliveAll(nodes[1..]);
    }
  }

  lemma {:induction false} AliveDistinct(nodes: seq<Node>)
    requires DistinctIds(nodes)
    ensures DistinctIds(Alive(nodes))
  {
    if nodes != [] {
      AliveDistinct(nodes[1..]);
      var rest := Alive(nodes[1..]);
      forall k | 0 <= k < |rest|
        ensures rest[k].id != nodes[0].id
      {
        AliveMembers(nodes[1..], rest[k]);
      }
    }
  }

  lemma ExpireKeepsInv(bs: seq<Bucket>, my: Id)
    requires Inv(bs, my)
    ensures Inv(Expire(bs), my) && Firsts(Expire(bs)) == Firsts(bs)
  {
    hide WellFormed, InBucket, Alive;
    var cs := Expire(bs);
    assert Firsts(cs) == Firsts(bs);
    forall i | 0 <= i < |cs|
      ensures BucketOk(cs, i, my)
    {
      assert BucketOk(bs, i, my);
      AliveDistinct(bs[i].nodes);
      forall k | 0 <= k < |cs[i].nodes|
        ensures InBucket(Firsts(cs), i, cs[i].nodes[k].id) && cs[i].nodes[k].id != my
      {
        AliveMembers(bs[i].nodes, cs[i].nodes[k]);
      }
      assert |cs[i].nodes| <= |bs[i].nodes| by {
        if |cs[i].nodes| > 0 { AliveMembers(bs[i].nodes, cs[i].nodes[0]); }
      }
    }
  }

  /** Expiry forgets exactly the nodes with four unanswered pings. */
  lemma ExpireLookup(bs: seq<Bucket>, my: Id, x: Id)
    requires |bs| > 0 && Inv(bs, my)
    ensures var before := Lookup(bs, x);
            Lookup(Expire(bs), x) == if before.Some? && before.value.pinged >= DEAD_AFTER then None else before
  {
    hide *;
    var cs := Expire(bs);
    ExpireKeepsInv(bs, my);
    forall n: Node
      ensures Lookup(cs, x) == Some(n) <==> Lookup(bs, x) == Some(n) && n.pinged < DEAD_AFTER
    {
      LookupIff(bs, my, x, n);
      LookupIff(cs, my, x, n);
      ExpireMembers(bs, x, n);
    }
    var before := Lookup(bs, x);
    SameOption(Lookup(cs, x), if before.Some? && before.value.pinged >= DEAD_AFTER then None else before);
  }

  lemma ExpireMembers(bs: seq<Bucket>, x: Id, n: Node)
    requires |bs| > 0 && Firsts(Expire(bs)) == Firsts(bs)
    ensures n in Expire(bs)[FindBucket(Expire(bs), x)].nodes <==> n in bs[FindBucket(bs, x)].nodes && n.pinged < DEAD_AFTER
  {
    hide FindIndex;
    AliveMembers(bs[FindBucket(bs, x)].nodes, n);
  }

  lemma PingedKeepsInv(bs: seq<Bucket>, i: nat, k: nat, now: int, my: Id)
    requires Inv(bs, my) && i < |bs| && k < |bs[i].nodes|
    ensures Inv(Pinged(bs, i, k, now), my)
  {
    hide Inv;
    PingKeepsInv(bs, i, Pinged(bs, i, k, now)[i], my);
  }

  lemma BlacklistKeepsInv(bs: seq<Bucket>, id: Id, now: int, my: Id)
    requires |bs| > 0 && Inv(bs, my)
    ensures Inv(Blacklist(bs, id, now), my)
  {
    hide Inv, FindIndex, Pinged;
    var i := FindBucket(bs, id);
    var k := IndexOf(bs[i].nodes, id);
    if k < |bs[i].nodes| {
      var b := bs[i].(nodes := bs[i].nodes[k := bs[i].nodes[k].(pinged := 3)]);
      PingKeepsInv(bs, i, b, my);
      PingedKeepsInv(bs[i := b], i, k, now, my);
    }
  }

  // ----- whole runs -----

  datatype Event =
    | Hear(news: News)
    | Ping(i: nat, k: nat, now: int)
    | Ban(id: Id, now: int)
    | Purge

  function Step(t: Table, my: Id, e: Event): (r: Table)
    requires |t.buckets| > 0 && Inv(t.buckets, my)
  {
    match e
    case Hear(m) => NewNode(t, my, m).0
    case Ping(i, k, now) =>
      if i < |t.buckets| && k < |t.buckets[i].nodes| then t.(buckets := Pinged(t.buckets, i, k, now)) else t
    case Ban(id, now) => t.(buckets := Blacklist(t.buckets, id, now))
    case Purge => t.(buckets := Expire(t.buckets))
  }

  /** `dht_init` (dht.cpp:1829): one empty bucket starting at the zero id. */
  function InitialTable(growTime: int): Table
  {
    Table([Bucket(ZeroId(), 0, 0, [], None)], growTime)
  }

  lemma StepKeepsInv(t: Table, my: Id, e: Event)
    requires |t.buckets| > 0 && Inv(t.buckets, my)
    ensures |Step(t, my, e).buckets| > 0 && Inv(Step(t, my, e).buckets, my)
  {
    hide Inv, NewNode, Pinged, Blacklist;
    match e
    case Hear(m) => NewNodeEffect(t, my, m, my);
    case Ping(i, k, now) =>
      if i < |t.buckets| && k < |t.buckets[i].nodes| {
        PingedKeepsInv(t.buckets, i, k, now, my);
      }
    case Ban(id, now) => BlacklistKeepsInv(t.buckets, id, now, my);
    case Purge => ExpireKeepsInv(t.buckets, my);
  }

  lemma InitialInv(growTime: int, my: Id)
    ensures Inv(InitialTable(growTime).buckets, my)
  {
    InitialListWellFormed();
    assert Firsts(InitialTable(growTime).buckets) == [ZeroId()];
  }

  /** The table after a history of messages, pings, bans and purges: the representation invariant holds after every one of them. */
  function After(events: seq<Event>, my: Id, growTime: int): (t: Table)
    ensures |t.buckets| > 0 && Inv(t.buckets, my)
    decreases |events|
  {
    if events == [] then
      InitialInv(growTime, my);
      InitialTable(growTime)
    else
      var before := After(events[..|events| - 1], my, growTime);
      StepKeepsInv(before, my, events[|events| - 1]);
      Step(before, my, events[|events| - 1])
  }
}
