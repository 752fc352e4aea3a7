/**
 When the routing table takes a node in, in terms of the nodes it holds: which message is turned
 away, which bucket is split, what becomes of every entry. The conditions are written out.
 */
module DhtAdmission {
  import opened DhtId
  import opened DhtBuckets
  import opened T = DhtTable
  import opened Wrappers

  /** The nodes that hang where this id belongs. */
  function Home(t: Table, id: Id): seq<Node>
    requires |t.buckets| > 0
  {
    t.buckets[FindBucket(t.buckets, id)].nodes
  }

  predicate Known(nodes: seq<Node>, id: Id)
  {
    exists k :: 0 <= k < |nodes| && nodes[k].id == id
  }

  /** Some node has left three pings unanswered, the last of them more than 15 seconds ago. */
  predicate AnyLost(nodes: seq<Node>, now: int)
  {
    exists k :: 0 <= k < |nodes| && nodes[k].pinged >= 3 && nodes[k].pingedTime < now - 15
  }

  /** Every node has answered within two hours, been heard within a quarter of an hour, and left at most two pings unanswered. */
  predicate AllWell(nodes: seq<Node>, now: int)
  {
    forall k :: 0 <= k < |nodes| ==>
      nodes[k].pinged <= 2 && nodes[k].replyTime >= now - 7200 && nodes[k].time >= now - 900
  }

  /** The bucket of this id covers our own, too. */
  predicate Ours(t: Table, my: Id, id: Id)
    requires |t.buckets| > 0
  {
    FindBucket(t.buckets, id) == FindBucket(t.buckets, my)
  }

  /** A new id comes to a bucket of eight, none of them lost. */
  predicate Crowded(t: Table, m: News)
    requires |t.buckets| > 0
  {
    !Known(Home(t, m.id), m.id) && |Home(t, m.id)| == 8 && !AnyLost(Home(t, m.id), m.now)
  }

  /** And the bucket may be split for it: it is ours, and all is well in it or it is the only one. */
  predicate MaySplit(t: Table, my: Id, m: News)
    requires |t.buckets| > 0
  {
    Ours(t, my, m.id) && (AllWell(Home(t, m.id), m.now) || |t.buckets| == 1)
  }

  lemma OursIsCovered(t: Table, my: Id, m: News)
    requires |t.buckets| > 0 && Inv(t.buckets, my)
    ensures Ours(t, my, m.id) <==> InBucket(Firsts(t.buckets), FindBucket(t.buckets, m.id), my)
  {
    hide WellFormed, InBucket, FindIndex;
    FindBucketIsUnique(Firsts(t.buckets), my, FindBucket(t.buckets, m.id));
  }

  /** A pass turns a message away, or wants a split, or stores or refreshes the node: exactly under these conditions. */
  lemma WhichPass(t: Table, my: Id, m: News)
    requires |t.buckets| > 0 && Inv(t.buckets, my)
    ensures var r := OnePass(t, my, m);
            && (r.MustSplit? <==> Crowded(t, m) && MaySplit(t, my, m))
            && (r.Done? ==> (r.ok <==> !Crowded(t, m)))
  {
    hide WellFormed, InBucket, FindIndex, IndexOf, FirstBad, PingDubious;
    OursIsCovered(t, my, m);
    assert BucketOk(t.buckets, FindBucket(t.buckets, m.id), my);
    hide BucketOk;
  }

  /**
   One call: a message from anyone but ourselves that is not rejected is turned away or taken as it
   is, exactly if the bucket is crowded or not, unless the bucket may be split; then what happens is
   what happens after the split.
   */
  lemma SplitsWhen(t: Table, my: Id, m: News)
    requires |t.buckets| > 0 && Inv(t.buckets, my) && m.id != my && !m.rejected
    ensures !(Crowded(t, m) && MaySplit(t, my, m)) ==>
              (NewNode(t, my, m).1 <==> !Crowded(t, m)) && Firsts(NewNode(t, my, m).0.buckets) == Firsts(t.buckets)
    ensures Crowded(t, m) && MaySplit(t, my, m) ==>
              var r := OnePass(t, my, m);
              && r.MustSplit? && Inv(r.buckets, my) && Depth(Firsts(r.buckets), r.i) < ID_BITS && r.i == FindBucket(t.buckets, m.id)
              && Inv(Split(r.buckets, r.i), my)
              && NewNode(t, my, m) == NewNode(Table(Split(r.buckets, r.i), r.growTime), my, m)
  {
    hide OnePass, Inv, Split, FindIndex, Crowded, MaySplit;
    WhichPass(t, my, m);
    var r := OnePass(t, my, m);
    if r.MustSplit? {
      SplitMakesProgress(t, my, m);
      MustSplitShape(t, my, m);
    } else {
      PassKeepsFirsts(t, my, m);
    }
  }

  /** The table just after a pass that turned the message away is as crowded as the one before, and no more fit to be split. */
  lemma StillCrowded(t: Table, my: Id, m: News)
    requires |t.buckets| > 0 && Inv(t.buckets, my)
    requires Crowded(t, m) && !MaySplit(t, my, m) && OnePass(t, my, m).Done?
    ensures var t1 := OnePass(t, my, m).table;
            |t1.buckets| == |t.buckets| && Crowded(t1, m) && !MaySplit(t1, my, m)
  {
    hide WellFormed, InBucket, FindIndex, IndexOf, FirstBad, FirstPingable;
    PassKeepsFirsts(t, my, m);
    assert BucketOk(t.buckets, FindBucket(t.buckets, m.id), my);
    hide BucketOk;
    var nodes, after := Home(t, m.id), Home(OnePass(t, my, m).table, m.id);
    PingedOnly(nodes, m.now);
    assert after == PingDubious(nodes, m.now);
  }

  lemma PingedOnly(nodes: seq<Node>, now: int)
    ensures var r := PingDubious(nodes, now);
            && |r| == |nodes|
            && (forall k :: 0 <= k < |nodes| ==> r[k].id == nodes[k].id)
            && (!AnyLost(nodes, now) ==> !AnyLost(r, now))
            && (!AllWell(nodes, now) ==> !AllWell(r, now))
  {
    hide FirstPingable;
    var k := FirstPingable(nodes, now);
    if !AllWell(nodes, now) {
      var j :| 0 <= j < |nodes| && !(nodes[j].pinged <= 2 && nodes[j].replyTime >= now - 7200 && nodes[j].time >= now - 900);
      assert j != k ==> PingDubious(nodes, now)[j] == nodes[j];
    }
  }

  /**
   However many splits it takes: the message is turned away exactly if in the end its bucket is
   crowded and may not be split.
   */
  lemma {:induction false} RefusedWhen(t: Table, my: Id, m: News)
    requires |t.buckets| > 0 && Inv(t.buckets, my) && m.id != my && !m.rejected
    ensures var (t1, ok) := NewNode(t, my, m);
            |t1.buckets| > 0 && Inv(t1.buckets, my) && (!ok <==> Crowded(t1, m) && !MaySplit(t1, my, m))
    decreases Room(t.buckets, m.id)
  {
    hide OnePass, Inv, Split, FindIndex, Crowded, MaySplit, Lookup;
    NewNodeEffect(t, my, m, m.id);
    WhichPass(t, my, m);
    match OnePass(t, my, m)
    case Done(t1, ok) =>
      if ok {
        StoredIsKnown(t, my, m);
      } else {
        StillCrowded(t, my, m);
      }
    case MustSplit(bs1, i, grow) =>
      SplitMakesProgress(t, my, m);
      RefusedWhen(Table(Split(bs1, i), grow), my, m);
  }

  lemma StoredIsKnown(t: Table, my: Id, m: News)
    requires |t.buckets| > 0 && Inv(t.buckets, my) && m.id != my && !m.rejected && NewNode(t, my, m).1
    ensures |NewNode(t, my, m).0.buckets| > 0 && !Crowded(NewNode(t, my, m).0, m)
  {
    hide NewNode, FindIndex, Inv, IndexOf;
    NewNodeEffect(t, my, m, m.id);
    var t1 := NewNode(t, my, m).0;
    assert Lookup(t1.buckets, m.id).Some?;
    var k := IndexOf(Home(t1, m.id), m.id);
    assert Home(t1, m.id)[k].id == m.id;
  }

  // ----- what becomes of the entries -----

  /** The entry of a node heard of for the first time. */
  function Newcomer(m: News): Node
  {
    Node(m.id, m.ss, if m.confirm != 0 then m.now else 0, if m.confirm >= 2 then m.now else 0, 0, 0)
  }

  /** The entry of a node heard of again: kept if the message proves nothing and the node was heard of within a quarter of an hour. */
  function Heard(n: Node, m: News): Node
  {
    if m.confirm == 0 && n.time >= m.now - 900 then n
    else if m.confirm >= 2 then Node(n.id, m.ss, m.now, m.now, 0, 0)
    else Node(n.id, m.ss, if m.confirm != 0 then m.now else n.time, n.replyTime, n.pingedTime, n.pinged)
  }

  /** No node before `k` has left three pings unanswered. */
  predicate FirstLost(nodes: seq<Node>, now: int, k: nat)
  {
    && k < |nodes| && nodes[k].pinged >= 3 && nodes[k].pingedTime < now - 15
    && forall j :: 0 <= j < k ==> !(nodes[j].pinged >= 3 && nodes[j].pingedTime < now - 15)
  }

  predicate Doubted(n: Node, now: int)
  {
    !(n.pinged <= 2 && n.replyTime >= now - 7200 && n.time >= now - 900) && n.pingedTime < now - 15
  }

  predicate FirstDoubted(nodes: seq<Node>, now: int, k: nat)
  {
    k < |nodes| && Doubted(nodes[k], now) && forall j :: 0 <= j < k ==> !Doubted(nodes[j], now)
  }

  /** The nodes of the bucket after one pass. */
  lemma PassOnNodes(t: Table, my: Id, m: News, k: nat)
    requires |t.buckets| > 0 && Inv(t.buckets, my)
    ensures var nodes := Home(t, m.id);
            var r := PassBuckets(OnePass(t, my, m))[FindBucket(t.buckets, m.id)].nodes;
            && (k < |nodes| && nodes[k].id == m.id ==> r == nodes[k := Heard(nodes[k], m)])
            && (!Known(nodes, m.id) ==>
                  && (FirstLost(nodes, m.now, k) ==> r == nodes[k := Newcomer(m)])
                  && (!AnyLost(nodes, m.now) && |nodes| < 8 ==> r == [Newcomer(m)] + nodes)
                  && (Crowded(t, m) && FirstDoubted(nodes, m.now, k) ==>
                        r == nodes[k := Node(nodes[k].id, nodes[k].ss, nodes[k].time, nodes[k].replyTime, m.now, nodes[k].pinged + 1)])
                  && (Crowded(t, m) && (forall j :: 0 <= j < |nodes| ==> !Doubted(nodes[j], m.now)) ==> r == nodes))
  {
    hide WellFormed, InBucket, FindIndex, LearnBucket;
    assert BucketOk(t.buckets, FindBucket(t.buckets, m.id), my);
    hide BucketOk;
    var i := FindBucket(t.buckets, m.id);
    LearnOnNodes(t.buckets[i], m, InBucket(Firsts(t.buckets), i, my), |t.buckets| == 1, k);
    hide Known, FirstLost, AnyLost, FirstDoubted, Doubted, Heard, Newcomer;
  }

  /** The nodes of one bucket after its share of a pass. */
  lemma LearnOnNodes(b: Bucket, m: News, mine: bool, alone: bool, k: nat)
    requires b.count == |b.nodes| <= 8 && DistinctIds(b.nodes)
    ensures var nodes, r := b.nodes, LearnBucket(b, m, mine, alone).0.nodes;
            && (k < |nodes| && nodes[k].id == m.id ==> r == nodes[k := Heard(nodes[k], m)])
            && (!Known(nodes, m.id) ==>
                  && (FirstLost(nodes, m.now, k) ==> r == nodes[k := Newcomer(m)])
                  && (!AnyLost(nodes, m.now) && |nodes| < 8 ==> r == [Newcomer(m)] + nodes)
                  && (!AnyLost(nodes, m.now) && |nodes| == 8 && FirstDoubted(nodes, m.now, k) ==>
                        r == nodes[k := Node(nodes[k].id, nodes[k].ss, nodes[k].time, nodes[k].replyTime, m.now, nodes[k].pinged + 1)])
                  && (!AnyLost(nodes, m.now) && |nodes| == 8 && (forall j :: 0 <= j < |nodes| ==> !Doubted(nodes[j], m.now)) ==> r == nodes))
  {
    hide IndexOf, FirstBad, FirstPingable, LearnNew;
    var nodes := b.nodes;
    if k < |nodes| && nodes[k].id == m.id {
      IndexOfUnique(nodes, m.id, k);
    } else if !Known(nodes, m.id) {
      var b1 := if m.confirm == 2 then b.(time := m.now) else b;
      assert LearnBucket(b, m, mine, alone) == LearnNew(b1, m, mine, alone);
      NewOnNodes(b1, m, mine, alone, k);
    }
    hide FirstLost, AnyLost, FirstDoubted, Doubted, Newcomer;
  }

  lemma NewOnNodes(b: Bucket, m: News, mine: bool, alone: bool, k: nat)
    requires b.count == |b.nodes| <= 8
    ensures var nodes, r := b.nodes, LearnNew(b, m, mine, alone).0.nodes;
            && (FirstLost(nodes, m.now, k) ==> r == nodes[k := Newcomer(m)])
            && (!AnyLost(nodes, m.now) && |nodes| < 8 ==> r == [Newcomer(m)] + nodes)
            && (!AnyLost(nodes, m.now) && |nodes| == 8 && FirstDoubted(nodes, m.now, k) ==>
                  r == nodes[k := Node(nodes[k].id, nodes[k].ss, nodes[k].time, nodes[k].replyTime, m.now, nodes[k].pinged + 1)])
            && (!AnyLost(nodes, m.now) && |nodes| == 8 && (forall j :: 0 <= j < |nodes| ==> !Doubted(nodes[j], m.now)) ==> r == nodes)
  {
    hide FirstBad, FirstPingable, AnyDubious;
    var nodes := b.nodes;
    if FirstLost(nodes, m.now, k) {
      LeastBad(nodes, m.now, k);
    } else if FirstDoubted(nodes, m.now, k) {
      LeastPingable(nodes, m.now, k);
    }
  }

  lemma {:induction false} LeastBad(nodes: seq<Node>, now: int, k: nat)
    requires FirstLost(nodes, now, k)
    ensures FirstBad(nodes, now) == k
  {
  }

  lemma {:induction false} LeastPingable(nodes: seq<Node>, now: int, k: nat)
    requires FirstDoubted(nodes, now, k)
    ensures FirstPingable(nodes, now) == k
  {
  }

  /** The rest of the bucket, and the time at which our own bucket last grew. */
  lemma PassOnBucket(t: Table, my: Id, m: News)
    requires |t.buckets| > 0 && Inv(t.buckets, my)
    ensures var i, r := FindBucket(t.buckets, m.id), OnePass(t, my, m);
            var b, c := t.buckets[i], PassBuckets(r)[i];
            && c.first == b.first && c.time == (if m.confirm == 2 then m.now else b.time)
            && c.cached == (if Crowded(t, m) && !MaySplit(t, my, m) && (m.confirm != 0 || b.cached == None) then Some(m.ss) else b.cached)
            && (match r case Done(t1, _) => t1.growTime case MustSplit(_, _, grow) => grow)
               == (if Ours(t, my, m.id) && !Known(Home(t, m.id), m.id) then m.now else t.growTime)
  {
    hide WellFormed, InBucket, FindIndex, FirstBad, PingDubious;
    WhichPass(t, my, m);
    OursIsCovered(t, my, m);
    assert BucketOk(t.buckets, FindBucket(t.buckets, m.id), my);
    hide BucketOk, IndexOf, Crowded, MaySplit;
  }

  /** After the whole call: what is found under the id, and what has become of any other node. */
  lemma EntriesAfter(t: Table, my: Id, m: News, x: Id)
    requires |t.buckets| > 0 && Inv(t.buckets, my) && m.id != my && !m.rejected && x != m.id
    ensures var (t1, ok) := NewNode(t, my, m);
            && |t1.buckets| > 0
            && var before, after := Lookup(t.buckets, m.id), Lookup(t1.buckets, m.id);
               var b, a := Lookup(t.buckets, x), Lookup(t1.buckets, x);
            && after == (if !ok then None else if before == None then Some(Newcomer(m)) else Some(Heard(before.value, m)))
            && (a != b ==>
                  && b.Some?
                  && (a == None ==> b.value.pinged >= 3 && b.value.pingedTime < m.now - 15)
                  && (a.Some? ==>
                        Doubted(b.value, m.now)
                        && a.value == Node(x, b.value.ss, b.value.time, b.value.replyTime, m.now, b.value.pinged + 1)))
  {
    hide NewNode, Lookup, Inv;
    NewNodeEffect(t, my, m, x);
    LookupHasId(t.buckets, x);
    var t1 := NewNode(t, my, m).0;
    RememberedMeans(Lookup(t.buckets, x), Lookup(t1.buckets, x), m.now);
    LearnedMeans(Lookup(t.buckets, m.id), Lookup(t1.buckets, m.id), NewNode(t, my, m).1, m);
    hide Remembered, Learned, Newcomer, Heard, Doubted;
  }

  lemma RememberedMeans(b: Option<Node>, a: Option<Node>, now: int)
    requires Remembered(b, a, now)
    ensures a != b ==>
              && b.Some?
              && (a == None ==> b.value.pinged >= 3 && b.value.pingedTime < now - 15)
              && (a.Some? ==>
                    Doubted(b.value, now)
                    && a.value == Node(b.value.id, b.value.ss, b.value.time, b.value.replyTime, now, b.value.pinged + 1))
  {
  }

  lemma LearnedMeans(before: Option<Node>, after: Option<Node>, ok: bool, m: News)
    requires Learned(before, after, ok, m)
    ensures after == if !ok then None else if before == None then Some(Newcomer(m)) else Some(Heard(before.value, m))
  {
  }

  lemma LookupHasId(bs: seq<Bucket>, x: Id)
    requires |bs| > 0
    ensures Lookup(bs, x).Some? ==> Lookup(bs, x).value.id == x
  {
  }

  // ----- the other operations -----

  /** A ping: one more unanswered, and from three on the candidate of the bucket is used up. */
  lemma PingCounts(bs: seq<Bucket>, i: nat, k: nat, now: int)
    requires i < |bs| && k < |bs[i].nodes|
    ensures var n, r := bs[i].nodes[k], Pinged(bs, i, k, now);
            && r == bs[i := r[i]]
            && r[i] == Bucket(bs[i].first, bs[i].count, bs[i].time,
                              bs[i].nodes[k := Node(n.id, n.ss, n.time, n.replyTime, now, n.pinged + 1)],
                              if n.pinged >= 2 then None else bs[i].cached)
  {
  }

  /** A ban leaves the node with four unanswered pings, so that the next purge takes it out. */
  lemma BanMarks(bs: seq<Bucket>, my: Id, x: Id, now: int, y: Id)
    requires |bs| > 0 && Inv(bs, my)
    ensures var before, after := Lookup(bs, x), Lookup(Blacklist(bs, x, now), x);
            && (before == None ==> Blacklist(bs, x, now) == bs)
            && (before.Some? ==>
                  after == Some(Node(x, before.value.ss, before.value.time, before.value.replyTime, now, 4)))
            && (y != x ==> Lookup(Blacklist(bs, x, now), y) == Lookup(bs, y))
            && Lookup(Expire(Blacklist(bs, x, now)), x) == None
  {
    hide WellFormed, InBucket, FindIndex;
    BlacklistKeepsInv(bs, x, now, my);
    ExpireLookup(Blacklist(bs, x, now), my, x);
    var i := FindBucket(bs, x);
    assert BucketOk(bs, i, my);
    hide Inv, BucketOk, Expire;
    var nodes := bs[i].nodes;
    var k := IndexOf(nodes, x);
    SameFirsts(bs, Blacklist(bs, x, now));
    if k < |nodes| {
      var marked := Node(x, nodes[k].ss, nodes[k].time, nodes[k].replyTime, now, 4);
      assert Blacklist(bs, x, now)[i].nodes == nodes[k := marked];
      LookupInUpdate(nodes, k, marked, x);
      LookupInUpdate(nodes, k, marked, y);
    }
    hide IndexOf;
  }

  lemma SameFirsts(bs: seq<Bucket>, cs: seq<Bucket>)
    requires |bs| == |cs| && forall i :: 0 <= i < |bs| ==> cs[i].first == bs[i].first
    ensures Firsts(cs) == Firsts(bs)
  {
    assert Firsts(cs) == Firsts(bs);
  }

  /** A purge takes out the nodes with four unanswered pings, and with them the candidate of their bucket. */
  lemma PurgeTakes(bs: seq<Bucket>, my: Id, x: Id, i: nat)
    requires |bs| > 0 && Inv(bs, my) && i < |bs|
    ensures var before := Lookup(bs, x);
            Lookup(Expire(bs), x) == if before.Some? && before.value.pinged < 4 then before else None
    ensures Expire(bs)[i].cached == (if exists k :: 0 <= k < |bs[i].nodes| && bs[i].nodes[k].pinged >= 4 then None else bs[i].cached)
    ensures Expire(bs)[i].time == bs[i].time
  {
    ExpireLookup(bs, my, x);
    AliveCount(bs[i].nodes);
    hide Alive, Lookup, Inv;
  }

  lemma {:induction false} AliveCount(nodes: seq<Node>)
    ensures |Alive(nodes)| <= |nodes|
    ensures |Alive(nodes)| < |nodes| <==> exists k :: 0 <= k < |nodes| && nodes[k].pinged >= 4
  {
    if nodes != [] {
      AliveCount(nodes[1..]);
      assert forall k :: 1 <= k < |nodes| ==> nodes[k] == nodes[1..][k - 1];
    }
  }

  /** Both halves of a split keep the time of the bucket, and neither has a candidate. */
  lemma HalvesKeep(bs: seq<Bucket>, i: nat, my: Id)
    requires Inv(bs, my) && i < |bs| && Depth(Firsts(bs), i) < ID_BITS
    ensures var r := Split(bs, i);
            && r[i].time == r[i + 1].time == bs[i].time && r[i].cached == r[i + 1].cached == None
  {
    hide Inv, FindIndex, DepthOf;
    ReinsertKeepsRest(SplitEmpty(bs, i), bs[i].nodes, i);
    ReinsertKeepsRest(SplitEmpty(bs, i), bs[i].nodes, i + 1);
  }

  lemma {:induction false} ReinsertKeepsRest(bs: seq<Bucket>, nodes: seq<Node>, j: nat)
    requires j < |bs|
    ensures var r := Reinsert(bs, nodes);
            r[j].time == bs[j].time && r[j].cached == bs[j].cached && r[j].first == bs[j].first
    decreases |nodes|
  {
    hide FindIndex;
    if nodes != [] {
      ReinsertKeepsRest(InsertNode(bs, nodes[0]), nodes[1..], j);
    }
  }

  /** `dht_init`: one bucket from the zero id on, without nodes, candidate or time. */
  lemma InitialBucket(growTime: int)
    ensures InitialTable(growTime).growTime == growTime
    ensures |InitialTable(growTime).buckets| == 1
    ensures var b := InitialTable(growTime).buckets[0];
            && (forall k :: 0 <= k < 20 ==> b.first[k] == 0)
            && b.count == 0 && b.time == 0 && b.nodes == [] && b.cached == None
  {
  }
}
