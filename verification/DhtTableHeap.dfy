/**
 The routing table as the C code holds it: a linked list of bucket records, each with a
 linked list of node records, relinked in place. Every method is proved to do to the
 table's value exactly what the function of the same name in DhtTable says. Buckets own their
 nodes: `spine` is the sequence of bucket cells, `chain` that of the node cells of one bucket,
 and `Repr` holds them all, so that a change to one bucket provably leaves the value of every
 other one alone.
 */
module DhtTableHeap {
  import opened DhtId
  import opened DhtBuckets
  import opened Wrappers
  import opened T = DhtTable

  class NodeCell {
    var id: Id
    var ss: Addr
    var time: int
    var replyTime: int
    var pingedTime: int
    var pinged: int
    var next: NodeCell?
    ghost var owner: BucketCell?

    constructor (id: Id, ss: Addr, confirm: int, now: int)
      ensures View() == Fresh(id, ss, confirm, now) && owner == null && next == null
    {
      this.id, this.ss := id, ss;
      time := if confirm != 0 then now else 0;
      replyTime := if confirm >= 2 then now else 0;
      pingedTime, pinged := 0, 0;
      next, owner := null, null;
    }

    function View(): Node
      reads this
    {
      Node(id, ss, time, replyTime, pingedTime, pinged)
    }

    /** A message from a known node (dht.cpp:901). */
    method Refresh(ss: Addr, confirm: int, now: int)
      modifies this`ss, this`time, this`replyTime, this`pinged, this`pingedTime
      ensures View() == T.Refresh(old(View()), ss, confirm, now)
    {
      if confirm != 0 || time < now - 15 * 60 {
        this.ss := ss;
        if confirm != 0 {
          time := now;
        }
        if confirm >= 2 {
          replyTime, pinged, pingedTime := now, 0, 0;
        }
      }
    }

    /** The record of a bad node is reused for a new one (dht.cpp:930). */
    method Overwrite(id: Id, ss: Addr, confirm: int, now: int)
      modifies this`id, this`ss, this`time, this`replyTime, this`pinged, this`pingedTime
      ensures View() == Fresh(id, ss, confirm, now)
    {
      this.id, this.ss := id, ss;
      time := if confirm != 0 then now else 0;
      replyTime := if confirm >= 2 then now else 0;
      pingedTime, pinged := 0, 0;
    }

    method Ping(now: int)
      modifies this`pinged, this`pingedTime
      ensures View() == PingNode(old(View()), now)
    {
      pinged, pingedTime := pinged + 1, now;
    }
  }

  class BucketCell {
    var first: Id
    var count: int
    var time: int
    var nodes: NodeCell?
    var cached: Option<Addr>
    var next: BucketCell?
    ghost var chain: seq<NodeCell>

    constructor (first: Id, time: int)
      ensures Linked() && View() == Bucket(first, 0, time, [], None)
      ensures next == null && chain == []
    {
      this.first, this.time := first, time;
      count, cached, nodes, next, chain := 0, None, null, null, [];
    }

    ghost predicate Linked()
      reads this, chain
    {
      && IsChain(nodes, chain)
      && forall k :: 0 <= k < |chain| ==> chain[k].owner == this
    }

    ghost function View(): Bucket
      reads this, chain
    {
      Bucket(first, count, time, Views(chain), cached)
    }

    /** Walk the node list to the first node with this id. */
    method FindCell(id: Id) returns (n: NodeCell?, ghost k: nat)
      requires Linked()
      ensures k == IndexOf(View().nodes, id)
      ensures n == if k < |chain| then chain[k] else null
    {
      n, k := nodes, 0;
      while n != null
        invariant k <= |chain| && n == (if k < |chain| then chain[k] else null)
        invariant forall j :: 0 <= j < k ==> View().nodes[j].id != id
        decreases |chain| - k
      {
        if IdCmp(n.id, id) == 0 {
          IdCmpIsOrder(n.id, id);
          return;
        }
        IdCmpIsOrder(n.id, id);
        n, k := n.next, k + 1;
      }
    }

    /** Walk the node list to the first node known to be bad. */
    method FirstBadCell(now: int) returns (n: NodeCell?, ghost k: nat)
      requires Linked()
      ensures k == FirstBad(View().nodes, now)
      ensures n == if k < |chain| then chain[k] else null
    {
      n, k := nodes, 0;
      while n != null
        invariant k <= |chain| && n == (if k < |chain| then chain[k] else null)
        invariant forall j :: 0 <= j < k ==> !Bad(View().nodes[j], now)
        decreases |chain| - k
      {
        if n.pinged >= 3 && n.pingedTime < now - 15 {
          return;
        }
        n, k := n.next, k + 1;
      }
    }

    /** Walk the node list to the first dubious node that has not been pinged lately, noting whether any was dubious. */
    method FirstPingableCell(now: int) returns (n: NodeCell?, ghost k: nat, dubious: bool)
      requires Linked()
      ensures k == FirstPingable(View().nodes, now)
      ensures n == if k < |chain| then chain[k] else null
      ensures dubious == AnyDubious(View().nodes, now)
    {
      n, k, dubious := nodes, 0, false;
      while n != null
        invariant k <= |chain| && n == (if k < |chain| then chain[k] else null)
        invariant forall j :: 0 <= j < k ==> !Pingable(View().nodes[j], now)
        invariant !dubious ==> forall j :: 0 <= j < k ==> Good(View().nodes[j], now)
        invariant dubious ==> AnyDubious(View().nodes, now)
        decreases |chain| - k
      {
        if !(n.pinged <= 2 && n.replyTime >= now - 7200 && n.time >= now - 900) {
          dubious := true;
          assert !Good(View().nodes[k], now);
          if n.pingedTime < now - 15 {
            return;
          }
        }
        n, k := n.next, k + 1;
      }
    }

    lemma CellsDistinct()
      requires Linked()
      ensures forall j, k :: 0 <= j < k < |chain| ==> chain[j] != chain[k]
    {
    }

    /** If the contents of node `k` are all that changed, the value differs in that node only. */
    twostate lemma OneCellChanged(k: nat)
      requires old(Linked()) && unchanged(this) && k < |chain|
      requires chain[k].next == old(chain[k].next) && chain[k].owner == old(chain[k].owner)
      requires forall j :: 0 <= j < |chain| && j != k ==> unchanged(chain[j])
      ensures Linked()
      ensures View() == old(View()).(nodes := old(View()).nodes[k := chain[k].View()])
    {
    }

    method RefreshCell(n: NodeCell, ghost k: nat, m: News)
      requires Linked() && k < |chain| && chain[k] == n
      modifies n
      ensures Linked() && View() == old(View()).(nodes := old(View()).nodes[k := Refresh(old(View()).nodes[k], m.ss, m.confirm, m.now)])
    {
      hide IsChain, Views;
      CellsDistinct();
      n.Refresh(m.ss, m.confirm, m.now);
      OneCellChanged(k);
    }

    method OverwriteCell(n: NodeCell, ghost k: nat, m: News)
      requires Linked() && k < |chain| && chain[k] == n
      modifies n
      ensures Linked() && View() == old(View()).(nodes := old(View()).nodes[k := Fresh(m.id, m.ss, m.confirm, m.now)])
    {
      hide IsChain, Views;
      CellsDistinct();
      n.Overwrite(m.id, m.ss, m.confirm, m.now);
      OneCellChanged(k);
    }

    /** One pass of `new_node` over this bucket (dht.cpp:898-1005). */
    method Learn(m: News, mine: bool, alone: bool) returns (n: NodeCell?, verdict: Verdict)
      requires Linked()
      modifies this, chain
      ensures Linked() && next == old(next)
      ensures (View(), verdict) == LearnBucket(old(View()), m, mine, alone)
      ensures n != null <==> verdict == Known || verdict == Stored
      ensures n != null ==> n in chain
      ensures chain == old(chain) || (n != null && fresh(n) && chain == [n] + old(chain))
    {
      hide IsChain, Views, Linked, IndexOf, LearnNew, Refresh;
      if m.confirm == 2 {
        SetTime(m.now);
      }
      ghost var k;
      n, k := FindCell(m.id);
      if n != null {
        RefreshCell(n, k, m);
        return n, Known;
      }
      n, verdict := LearnNewCell(m, mine, alone);
    }

    /** The part of a pass for an id the bucket does not know (dht.cpp:917-1005). */
    method LearnNewCell(m: News, mine: bool, alone: bool) returns (n: NodeCell?, verdict: Verdict)
      requires Linked()
      modifies this, chain
      ensures Linked() && next == old(next)
      ensures (View(), verdict) == LearnNew(old(View()), m, mine, alone)
      ensures n != null <==> verdict == Stored
      ensures n != null ==> n in chain
      ensures chain == old(chain) || (n != null && fresh(n) && chain == [n] + old(chain))
    {
      hide IsChain, Views, Linked, FirstBad, PingDubious, AnyDubious, Fresh;
      ghost var k;
      n, k := FirstBadCell(m.now);
      if n != null {
        OverwriteCell(n, k, m);
        return n, Stored;
      }
      if count >= BUCKET_SIZE {
        verdict := LearnWhenFull(m, mine, alone);
        return null, verdict;
      }
      n := new NodeCell(m.id, m.ss, m.confirm, m.now);
      Push(n);
      return n, Stored;
    }

    method SetTime(now: int)
      requires Linked()
      modifies this`time
      ensures Linked() && View() == old(View()).(time := now)
    {
      time := now;
    }

    /** The full bucket of `new_node` (dht.cpp:941-991): ping a dubious node, then split or keep the address for later. */
    method LearnWhenFull(m: News, mine: bool, alone: bool) returns (verdict: Verdict)
      requires Linked()
      modifies this`cached, chain
      ensures Linked()
      ensures var b := old(View()); var b1 := b.(nodes := PingDubious(b.nodes, m.now));
              if mine && (!AnyDubious(b.nodes, m.now) || alone) then verdict == NeedsSplit && View() == b1
              else verdict == Full && View() == b1.(cached := if m.confirm != 0 || b.cached.None? then Some(m.ss) else b.cached)
    {
      hide IsChain, Views, FirstPingable, AnyDubious;
      var n, k, dubious := FirstPingableCell(m.now);
      CellsDistinct();
      if n != null {
        n.Ping(m.now);
        OneCellChanged(k);
      }
      if mine && (!dubious || alone) {
        return NeedsSplit;
      }
      if m.confirm != 0 || cached.None? {
        cached := Some(m.ss);
      }
      return Full;
    }

    /** Take the first node out of the list. */
    method UnlinkHead()
      requires Linked() && nodes != null
      modifies this`nodes, this`count, this`chain
      ensures Linked() && chain == old(chain)[1..] && |old(chain)| > 0
      ensures View() == old(View()).(nodes := old(View()).nodes[1..], count := old(count) - 1)
    {
      nodes := nodes.next;
      count := count - 1;
      chain := chain[1..];
    }

    /** Take the node behind `p` out of the list. */
    method UnlinkAfter(p: NodeCell, ghost k: nat)
      requires Linked() && k + 1 < |chain| && chain[k] == p
      modifies p`next, this`count, this`chain
      ensures Linked() && chain == old(chain[..k + 1] + chain[k + 2..])
      ensures View() == old(View()).(nodes := old(View().nodes[..k + 1] + View().nodes[k + 2..]), count := old(count) - 1)
    {
      hide Views;
      NextIsLinked(k);
      NextIsLinked(k + 1);
      ViewsWithout(chain, k + 1);
      p.next := p.next.next;
      count := count - 1;
      chain := chain[..k + 1] + chain[k + 2..];
      SameViews(chain);
    }

    method PingAt(n: NodeCell, ghost k: nat, now: int)
      requires Linked() && k < |chain| && chain[k] == n
      modifies n, this`cached
      ensures Linked()
      ensures var p := PingNode(old(View()).nodes[k], now); var b := old(View()).(nodes := old(View()).nodes[k := p]);
              View() == if p.pinged >= 3 then b.(cached := None) else b
    {
      hide IsChain, Views;
      CellsDistinct();
      n.Ping(now);
      OneCellChanged(k);
      if n.pinged >= 3 {
        cached := None;
      }
    }

    /** Make a node look as if it had ignored three pings. */
    method MarkBad(n: NodeCell, ghost k: nat)
      requires Linked() && k < |chain| && chain[k] == n
      modifies n`pinged
      ensures Linked()
      ensures View() == old(View()).(nodes := old(View()).nodes[k := old(View()).nodes[k].(pinged := 3)])
    {
      hide IsChain, Views;
      CellsDistinct();
      n.pinged := 3;
      OneCellChanged(k);
    }

    /** In the middle of a purge that began with value `b0` and cells `cells`. */
    ghost predicate InPurge(b0: Bucket, cells: set<NodeCell>, changed: bool)
      reads this, chain
    {
      && Linked() && Purging(b0, View(), changed)
      && forall k :: 0 <= k < |chain| ==> chain[k] in cells
    }

    ghost predicate AliveUpTo(k: nat)
      reads this, chain
    {
      forall j :: 0 <= j < k && j < |chain| ==> View().nodes[j].pinged < DEAD_AFTER
    }

    /** First loop of the purge: drop dead nodes from the head. */
    method PurgeHead(ghost b0: Bucket, ghost cells: set<NodeCell>) returns (changed: bool)
      requires InPurge(b0, cells, false)
      modifies this`nodes, this`count, this`chain
      ensures InPurge(b0, cells, changed) && AliveUpTo(1)
    {
      hide IsChain, Views, Alive, Purging;
      changed := false;
      while nodes != null && nodes.pinged >= DEAD_AFTER
        invariant InPurge(b0, cells, changed)
        decreases |chain|
      {
        HeadIsFirst();
        PurgeStep(b0, View(), 0, changed);
        assert View().nodes[..0] + View().nodes[1..] == View().nodes[1..];
        UnlinkHead();
        changed := true;
      }
      HeadIsFirst();
    }

    /** Inner loop: drop the dead nodes that follow node `k`. */
    method PurgeAfter(ghost b0: Bucket, ghost cells: set<NodeCell>, p: NodeCell, ghost k: nat, changed0: bool) returns (changed: bool)
      requires InPurge(b0, cells, changed0) && k < |chain| && p == chain[k] && AliveUpTo(k + 1)
      modifies this`count, this`chain, p`next
      ensures InPurge(b0, cells, changed) && k < |chain| <= |old(chain)| && p == chain[k] && AliveUpTo(k + 2)
    {
      hide IsChain, Views, Alive, Purging;
      changed := changed0;
      while p.next != null && p.next.pinged >= DEAD_AFTER
        invariant InPurge(b0, cells, changed) && k < |chain| <= |old(chain)| && p == chain[k] && AliveUpTo(k + 1)
        decreases |chain|
      {
        NextIsLinked(k);
        PurgeStep(b0, View(), k + 1, changed);
        UnlinkAfter(p, k);
        changed := true;
      }
      NextIsLinked(k);
    }

    lemma PurgeBegins(cells: set<NodeCell>)
      requires Linked() && forall k :: 0 <= k < |chain| ==> chain[k] in cells
      ensures InPurge(View(), cells, false)
    {
    }

    lemma PurgeEnds(b0: Bucket, cells: set<NodeCell>, changed: bool)
      requires InPurge(b0, cells, changed) && AliveUpTo(|chain|)
      ensures Linked() && forall k :: 0 <= k < |chain| ==> chain[k] in cells
      ensures ExpireBucket(b0) == if changed then View().(cached := None) else View()
    {
      PurgeDone(b0, View(), changed);
    }

    lemma PurgeNext(b0: Bucket, cells: set<NodeCell>, changed: bool, k: nat)
      requires InPurge(b0, cells, changed) && k < |chain|
      ensures chain[k] in cells
      ensures chain[k].next == if k + 1 < |chain| then chain[k + 1] else null
    {
      NextIsLinked(k);
    }

    /** Second loop of the purge: behind each surviving node, drop the dead ones that follow it. */
    method PurgeTail(ghost b0: Bucket, ghost cells: set<NodeCell>, changed0: bool) returns (changed: bool)
      requires InPurge(b0, cells, changed0) && AliveUpTo(1)
      modifies this`count, this`chain, cells`next
      ensures InPurge(b0, cells, changed) && AliveUpTo(|chain|)
    {
      HeadIsFirst();
      hide InPurge, AliveUpTo;
      changed := changed0;
      var p := nodes;
      ghost var k := 0;
      while p != null
        invariant InPurge(b0, cells, changed) && AliveUpTo(k + 1)
        invariant k <= |chain| && p == (if k < |chain| then chain[k] else null)
        decreases |chain| - k
      {
        PurgeNext(b0, cells, changed, k);
        changed := PurgeAfter(b0, cells, p, k, changed);
        PurgeNext(b0, cells, changed, k);
        p, k := p.next, k + 1;
      }
      AliveUpToAll(k + 1);
    }

    lemma AliveUpToAll(k: nat)
      requires AliveUpTo(k) && k >= |chain|
      ensures AliveUpTo(|chain|)
    {
    }

    /** The purge of one bucket (dht.cpp:1018-1042). */
    method ExpireCell()
      requires Linked()
      modifies this`nodes, this`count, this`chain, this`cached, (set c | c in chain)`next
      ensures Linked() && View() == ExpireBucket(old(View()))
      ensures forall k :: 0 <= k < |chain| ==> chain[k] in old(chain)
    {
      PurgeStart(View());
      hide IsChain, Views, ExpireBucket, InPurge, AliveUpTo, Linked, View;
      ghost var b0, cells := View(), set c | c in chain;
      PurgeBegins(cells);
      var changed := PurgeHead(b0, cells);
      changed := PurgeTail(b0, cells, changed);
      PurgeEnds(b0, cells, changed);
      if changed {
        UseCached();
      }
    }

    /** `send_cached_ping`: the candidate kept for later is used up. */
    method UseCached()
      requires Linked()
      modifies this`cached
      ensures Linked() && View() == old(View()).(cached := None) && chain == old(chain)
    {
      hide IsChain, Views;
      cached := None;
    }

    lemma HeadIsFirst()
      requires Linked()
      ensures nodes == if chain == [] then null else chain[0]
    {
    }

    lemma NextIsLinked(k: nat)
      requires Linked() && k < |chain|
      ensures chain[k].next == if k + 1 < |chain| then chain[k + 1] else null
    {
    }

    /** Drop all nodes and use up the cached candidate (`send_cached_ping`). */
    method Clear()
      modifies this`cached, this`nodes, this`count, this`chain
      ensures Linked() && chain == []
      ensures View() == old(View()).(nodes := [], count := 0, cached := None)
    {
      cached, nodes, count, chain := None, null, 0, [];
    }

    method Push(n: NodeCell)
      requires Linked() && n !in chain
      modifies this, n`next, n`owner
      ensures Linked() && chain == [n] + old(chain) && next == old(next) && n.owner == this
      ensures View() == old(View()).(nodes := [n.View()] + old(View()).nodes, count := old(count) + 1)
    {
      n.next := nodes;
      nodes := n;
      count := count + 1;
      n.owner := this;
      chain := [n] + chain;
    }
  }

  ghost function Views(chain: seq<NodeCell>): (r: seq<Node>)
    reads chain
    ensures |r| == |chain|
    ensures forall k :: 0 <= k < |chain| ==> r[k] == chain[k].View()
  {
    seq(|chain|, k requires 0 <= k < |chain| reads chain => chain[k].View())
  }

  /** `head` starts a null-terminated list of exactly the cells `chain`, all different. */
  ghost predicate IsChain(head: NodeCell?, chain: seq<NodeCell>)
    reads chain
  {
    && head == (if chain == [] then null else chain[0])
    && (forall j, k :: 0 <= j < |chain| && k == j + 1 && k < |chain| ==> chain[j].next == chain[k])
    && (chain != [] ==> chain[|chain| - 1].next == null)
    && (forall j, k :: 0 <= j < k < |chain| ==> chain[j] != chain[k])
  }

  /** Between two steps of the purge: only dead nodes are gone so far, and `changed` says whether any. */
  ghost predicate Purging(b0: Bucket, b: Bucket, changed: bool)
  {
    && b == b0.(nodes := b.nodes, count := b0.count - (|b0.nodes| - |b.nodes|))
    && Alive(b.nodes) == Alive(b0.nodes)
    && |b.nodes| <= |b0.nodes| && (changed <==> |b.nodes| < |b0.nodes|)
  }

  lemma PurgeStep(b0: Bucket, b: Bucket, k: nat, changed: bool)
    requires Purging(b0, b, changed) && k < |b.nodes| && b.nodes[k].pinged >= DEAD_AFTER
    ensures Purging(b0, b.(nodes := b.nodes[..k] + b.nodes[k + 1..], count := b.count - 1), true)
  {
    AliveSkipsDead(b.nodes, k);
  }

  lemma PurgeStart(b0: Bucket)
    ensures Purging(b0, b0, false)
  {
  }

  lemma PurgeDone(b0: Bucket, b: Bucket, changed: bool)
    requires Purging(b0, b, changed) && forall k :: 0 <= k < |b.nodes| ==> b.nodes[k].pinged < DEAD_AFTER
    ensures ExpireBucket(b0) == if changed then b.(cached := None) else b
  {
    AliveAll(b.nodes);
  }

  /** Relinking does not change what the cells say. */
  twostate lemma SameViews(chain: seq<NodeCell>)
    requires forall k :: 0 <= k < |chain| ==> chain[k].View() == old(chain[k].View())
    ensures Views(chain) == old(Views(chain))
  {
  }

  lemma ViewsWithout(chain: seq<NodeCell>, k: nat)
    requires k < |chain|
    ensures Views(chain[..k] + chain[k + 1..]) == Views(chain)[..k] + Views(chain)[k + 1..]
  {
  }

  lemma ChainEmpty(chain: seq<NodeCell>)
    requires IsChain(null, chain)
    ensures chain == [] && Views(chain) == []
  {
  }

  /** The rest of a chain is the chain of the rest. */
  lemma ChainTail(head: NodeCell?, chain: seq<NodeCell>)
    requires IsChain(head, chain) && head != null
    ensures chain != [] && chain[0] == head && IsChain(head.next, chain[1..])
    ensures head !in chain[1..]
    ensures Views(chain) == [head.View()] + Views(chain[1..])
  {
  }

  /** `head` starts a null-terminated list of exactly the buckets `spine`, all different. */
  ghost predicate IsSpine(head: BucketCell?, spine: seq<BucketCell>)
    reads spine
  {
    && head == (if spine == [] then null else spine[0])
    && (forall i, j :: 0 <= i < |spine| && j == i + 1 && j < |spine| ==> spine[i].next == spine[j])
    && (spine != [] ==> spine[|spine| - 1].next == null)
    && (forall i, j :: 0 <= i < j < |spine| ==> spine[i] != spine[j])
  }

  class RoutingTable {
    const my: Id
    var buckets: BucketCell?
    var growTime: int
    ghost var spine: seq<BucketCell>
    ghost var Repr: set<object>

    ghost predicate Valid()
      reads this, Repr
    {
      && this in Repr
      && (forall i :: 0 <= i < |spine| ==> spine[i] in Repr && Owns(spine[i]))
      && (forall i :: 0 <= i < |spine| ==> spine[i].Linked())
      && IsSpine(buckets, spine)
    }

    ghost predicate Owns(b: BucketCell)
      reads this, b
    {
      forall k :: 0 <= k < |b.chain| ==> b.chain[k] in Repr
    }

    ghost function Abs(): (bs: seq<Bucket>)
      requires Valid()
      reads this, Repr
      ensures |bs| == |spine|
      ensures forall i :: 0 <= i < |bs| ==> bs[i] == spine[i].View()
    {
      seq(|spine|, i requires 0 <= i < |spine| && Valid() reads this, Repr => spine[i].View())
    }

    /** `find_bucket` (dht.cpp:569). */
    method FindBucketCell(id: Id) returns (b: BucketCell?, ghost i: nat)
      requires Valid()
      ensures spine == [] ==> b == null
      ensures spine != [] ==> i == FindBucket(Abs(), id) && b == spine[i]
    {
      b, i := buckets, 0;
      if b == null {
        return;
      }
      ghost var fs := Firsts(Abs());
      while true
        invariant i < |spine| && b == spine[i]
        invariant forall j :: 0 < j <= i ==> IdCmp(id, fs[j]) >= 0
        decreases |spine| - i
      {
        if b.next == null {
          FindIndexLeast(fs, id, i);
          return;
        }
        assert i + 1 < |spine| && b.next == spine[i + 1];
        if IdCmp(id, b.next.first) < 0 {
          FindIndexLeast(fs, id, i);
          return;
        }
        b, i := b.next, i + 1;
      }
    }

    /** The constructor plays the part of `dht_init` (dht.cpp:1829) for one address family. */
    constructor (my: Id, growTime: int)
      ensures Valid() && fresh(Repr) && this.my == my
      ensures Table(Abs(), this.growTime) == InitialTable(growTime)
    {
      this.my, this.growTime := my, growTime;
      var b := new BucketCell(ZeroId(), 0);
      buckets := b;
      spine := [b];
      new;
      Repr := {this, b};
    }

    lemma NextFirstIsLinked(i: nat)
      requires Valid() && i < |spine|
      ensures NextFirst(Firsts(Abs()), i) == if spine[i].next == null then None else Some(spine[i].next.first)
    {
    }

    /** `n` hangs in no bucket. */
    ghost predicate Detached(n: NodeCell)
      reads this, spine
    {
      forall j :: 0 <= j < |spine| ==> n !in spine[j].chain
    }

    /** `insert_node` (dht.cpp:692): link a detached node in at the head of its bucket. */
    method InsertNodeCell(n: NodeCell)
      requires Valid() && spine != [] && n in Repr && Detached(n)
      modifies n`next, n`owner, spine
      ensures Valid() && spine == old(spine) && Repr == old(Repr)
      ensures Abs() == T.InsertNode(old(Abs()), n.View())
      ensures forall c: NodeCell :: old(allocated(c)) && old(Detached(c)) && c != n ==> Detached(c)
    {
      hide IsChain, Views, IsSpine, FindIndex;
      var b, i := FindBucketCell(n.id);
      assert Owns(b) && b.Linked();
      forall j | 0 <= j < |spine| && j != i
        ensures spine[j] != b && n !in spine[j].chain
      {
        SpineDistinct(i, j);
      }
      b.Push(n);
      OneBucketChanged(i);
    }

    lemma SpineDistinct(i: nat, j: nat)
      requires Valid() && i < |spine| && j < |spine| && i != j
      ensures spine[i] != spine[j]
    {
    }

    /** If one bucket and its own nodes are all that changed, the table is sound and its value differs in that bucket only. */
    twostate lemma OneBucketChanged(i: nat)
      requires old(Valid()) && i < |spine| && spine == old(spine) && buckets == old(buckets) && old(Repr) <= Repr
      requires Owns(spine[i]) && spine[i].Linked()
      requires forall j :: 0 <= j < |spine| ==> spine[j].next == old(spine[j].next)
      requires forall j :: 0 <= j < |spine| && j != i ==> BucketUnchanged(spine[j])
      ensures Valid()
      ensures Abs() == old(Abs())[i := spine[i].View()]
    {
      hide IsChain, Views;
      forall j | 0 <= j < |spine| && j != i
        ensures Owns(spine[j]) && spine[j].Linked() && spine[j].View() == old(spine[j].View())
      {
        OtherBucketSame(j);
      }
    }

    twostate lemma OtherBucketSame(j: nat)
      requires old(Valid())
      requires j < |old(spine)| && old(Repr) <= Repr
      requires BucketUnchanged(old(spine)[j])
      ensures var b := old(spine)[j]; Owns(b) && b.Linked() && b.View() == old(b.View())
    {
      hide IsChain, Views, IsSpine;
      assert old(Owns(spine[j])) && old(spine[j].Linked());
    }

    twostate predicate BucketUnchanged(b: BucketCell)
      reads b, b.chain
    {
      unchanged(b) && forall k :: 0 <= k < |b.chain| ==> old(allocated(b.chain[k])) && unchanged(b.chain[k])
    }

    /** Linking `newb` in behind position `i` of a spine. */
    twostate lemma SpineGrown(i: nat)
      requires old(IsSpine(buckets, spine)) && buckets == old(buckets)
      requires i < |old(spine)| && i + 1 < |spine| && spine == old(spine)[..i + 1] + [spine[i + 1]] + old(spine)[i + 1..]
      requires spine[i + 1] !in old(spine)
      requires spine[i + 1].next == old(spine[i].next) && spine[i].next == spine[i + 1]
      requires forall j :: 0 <= j < |old(spine)| && j != i ==> old(spine)[j].next == old(spine[j].next)
      ensures IsSpine(buckets, spine)
    {
      var s0 := old(spine);
      assert forall j :: 0 <= j < |spine| ==> spine[j] == if j <= i then s0[j] else if j == i + 1 then spine[i + 1] else s0[j - 1];
    }

    /** With a sound new bucket linked in behind bucket `i`, and nothing but bucket `i` changed, the table is sound. */
    twostate lemma SplitLinked(i: nat)
      requires old(Valid()) && buckets == old(buckets) && old(Repr) <= Repr
      requires i < |old(spine)| && i + 1 < |spine| && spine == old(spine)[..i + 1] + [spine[i + 1]] + old(spine)[i + 1..]
      requires spine[i + 1] !in old(spine) && spine[i + 1] in Repr
      requires spine[i + 1].next == old(spine[i].next) && spine[i].next == spine[i + 1]
      requires Owns(spine[i]) && spine[i].Linked() && Owns(spine[i + 1]) && spine[i + 1].Linked()
      requires forall j :: 0 <= j < |old(spine)| && j != i ==> BucketUnchanged(old(spine)[j])
      ensures Valid()
      ensures Abs() == old(Abs())[..i] + [spine[i].View(), spine[i + 1].View()] + old(Abs())[i + 1..]
    {
      hide IsChain, Views, IsSpine, Owns, BucketCell.Linked, BucketCell.View, BucketUnchanged;
      SplitNexts(i);
      SpineGrown(i);
      SplitOthers(i);
      forall t | 0 <= t < |spine|
        ensures spine[t] in Repr && Owns(spine[t]) && spine[t].Linked()
        ensures spine[t].View() == (old(Abs())[..i] + [spine[i].View(), spine[i + 1].View()] + old(Abs())[i + 1..])[t]
      {
        if t < i {
          assert spine[t] == old(spine)[t];
        } else if t > i + 1 {
          assert spine[t] == old(spine)[t - 1];
        }
      }
    }

    twostate lemma SplitNexts(i: nat)
      requires i < |old(spine)| && forall j :: 0 <= j < |old(spine)| && j != i ==> BucketUnchanged(old(spine)[j])
      ensures forall j :: 0 <= j < |old(spine)| && j != i ==> old(spine)[j].next == old(spine[j].next)
    {
    }

    twostate lemma SplitOthers(i: nat)
      requires old(Valid()) && i < |old(spine)| && old(Repr) <= Repr
      requires forall j :: 0 <= j < |old(spine)| && j != i ==> BucketUnchanged(old(spine)[j])
      ensures forall j :: 0 <= j < |old(spine)| && j != i ==>
        var b := old(spine)[j]; b in Repr && Owns(b) && b.Linked() && b.View() == old(b.View())
    {
      hide IsChain, Views, IsSpine, Owns, BucketCell.Linked, BucketCell.View, BucketUnchanged;
      forall j | 0 <= j < |old(spine)| && j != i
        ensures var b := old(spine)[j]; b in Repr && Owns(b) && b.Linked() && b.View() == old(b.View())
      {
        OtherBucketSame(j);
      }
    }

    /** The first half of `split_bucket`: empty bucket `i` and link a new bucket in behind it. The emptied chain is handed back detached. */
    method LinkEmptyHalf(b: BucketCell, newFirst: Id, ghost i: nat) returns (head: NodeCell?, ghost rest: seq<NodeCell>)
      requires Valid() && i < |spine| && spine[i] == b
      requires Depth(Firsts(Abs()), i) < ID_BITS && newFirst == SetIdBit(b.first, Depth(Firsts(Abs()), i))
      modifies this`spine, this`Repr, b
      ensures Valid() && fresh(Repr - old(Repr)) && old(Repr) <= Repr && |spine| > 0
      ensures rest == old(b.chain) && Waiting(head, rest)
      ensures Abs() == SplitEmpty(old(Abs()), i)
    {
      hide IsChain, Views, IsSpine, DepthOf;
      assert Owns(b) && b.Linked();
      var newb := new BucketCell(newFirst, b.time);
      head, rest := b.nodes, b.chain;
      forall j | 0 <= j < |spine| && j != i
        ensures spine[j] != b && forall k :: 0 <= k < |b.chain| ==> b.chain[k] !in spine[j].chain
      {
        SpineDistinct(i, j);
        assert spine[j].Linked();
      }
      b.Clear();
      newb.next := b.next;
      b.next := newb;
      spine := spine[..i + 1] + [newb] + spine[i + 1..];
      Repr := Repr + {newb};
      SplitLinked(i);
    }

    /** The nodes of a detached list, still to be linked in. */
    ghost predicate Waiting(head: NodeCell?, rest: seq<NodeCell>)
      reads this, spine, rest
    {
      IsChain(head, rest) && forall k :: 0 <= k < |rest| ==> rest[k] in Repr && Detached(rest[k])
    }

    /** Take the first node off a detached list and link it into its bucket. */
    method ReinsertOne(n: NodeCell, ghost rest: seq<NodeCell>) returns (nodes: NodeCell?)
      requires Valid() && spine != [] && Waiting(n, rest)
      modifies n`next, n`owner, spine
      ensures Valid() && spine == old(spine) && Repr == old(Repr)
      ensures rest != [] && n == rest[0] && Waiting(nodes, rest[1..])
      ensures Views(rest[1..]) == old(Views(rest[1..]))
      ensures Abs() == T.InsertNode(old(Abs()), old(Views(rest))[0])
    {
      hide IsChain, Views, IsSpine, FindIndex, InsertNode;
      nodes := n.next;
      ChainTail(n, rest);
      InsertNodeCell(n);
    }

    /** The loop of `split_bucket`: take the nodes of a detached list one by one and link each into its bucket. */
    method ReinsertAll(head: NodeCell?, ghost rest: seq<NodeCell>)
      requires Valid() && spine != [] && Waiting(head, rest)
      modifies (set c | c in rest)`next, (set c | c in rest)`owner, spine
      ensures Valid() && spine == old(spine) && Repr == old(Repr)
      ensures Abs() == Reinsert(old(Abs()), old(Views(rest)))
    {
      hide IsChain, IsSpine, FindIndex, InsertNode, Valid, Detached;
      var nodes := head;
      ghost var left := rest;
      while nodes != null
        invariant Valid() && spine == old(spine) && Repr == old(Repr) && Waiting(nodes, left)
        invariant forall k :: 0 <= k < |left| ==> left[k] in rest
        invariant Reinsert(Abs(), Views(left)) == Reinsert(old(Abs()), old(Views(rest)))
        decreases |left|
      {
        ChainTail(nodes, left);
        nodes := ReinsertOne(nodes, left);
        left := left[1..];
      }
      ChainEmpty(left);
    }

    /** `split_bucket` (dht.cpp:836). The result is null exactly when the bucket holds a single id and cannot be split. */
    method SplitBucket(b: BucketCell, ghost i: nat) returns (r: BucketCell?)
      requires Valid() && i < |spine| && spine[i] == b
      modifies Repr
      ensures Valid() && fresh(Repr - old(Repr)) && growTime == old(growTime) && |spine| > 0
      ensures r == null <==> Depth(Firsts(old(Abs())), i) == ID_BITS
      ensures r == null ==> Abs() == old(Abs())
      ensures r != null ==> r == b && Abs() == T.Split(old(Abs()), i)
    {
      hide IsChain, Views, IsSpine, DepthOf, FindIndex, Reinsert, SplitEmpty;
      var nextFirst := if b.next == null then None else Some(b.next.first);
      NextFirstIsLinked(i);
      var mid := BucketMiddle(b.first, nextFirst);
      if mid.None? {
        return null;
      }
      assert Owns(b) && b.Linked();
      var nodes, rest := LinkEmptyHalf(b, mid.value, i);
      ReinsertAll(nodes, rest);
      return b;
    }

    lemma ChainsDisjoint(i: nat, j: nat)
      requires Valid() && i < |spine| && j < |spine| && i != j
      ensures spine[i] != spine[j]
      ensures forall k :: 0 <= k < |spine[i].chain| ==> spine[i].chain[k] !in spine[j].chain
    {
      SpineDistinct(i, j);
      assert spine[i].Linked() && spine[j].Linked();
    }

    /** Let bucket `i` take the message. */
    method LearnAt(m: News, mine: bool, alone: bool, b: BucketCell, ghost i: nat) returns (n: NodeCell?, verdict: Verdict)
      requires Valid() && i < |spine| && b == spine[i]
      modifies this`Repr, b, b.chain
      ensures Valid() && fresh(Repr - old(Repr)) && spine == old(spine)
      ensures var r := LearnBucket(old(Abs())[i], m, mine, alone);
              Abs() == old(Abs())[i := r.0] && verdict == r.1
      ensures n != null <==> verdict == Known || verdict == Stored
    {
      hide IsChain, Views, IsSpine, LearnBucket;
      OthersApart(i);
      n, verdict := b.Learn(m, mine, alone);
      if n != null {
        Repr := Repr + {n};
      }
      OneBucketChanged(i);
    }

    /** One pass of `new_node` (dht.cpp:887-1006) over bucket `i`, up to the decision to split. */
    method OnePassCell(m: News, b: BucketCell, ghost i: nat) returns (n: NodeCell?, split: bool)
      requires Valid() && i < |spine| && b == spine[i] && i == FindBucket(Abs(), m.id)
      modifies this`growTime, this`Repr, b, b.chain
      ensures Valid() && fresh(Repr - old(Repr)) && spine == old(spine)
      ensures var r := OnePass(old(Table(Abs(), growTime)), my, m);
              if split then r == MustSplit(Abs(), i, growTime) else r == Done(Table(Abs(), growTime), n != null)
    {
      hide IsChain, Views, IsSpine, FindIndex, LearnBucket, InBucket, Firsts, IdCmp;
      InBucketIsLinked(i, my);
      AloneIffNoNext();
      var mine := IdCmp(b.first, my) <= 0 && (b.next == null || IdCmp(my, b.next.first) < 0);
      var verdict;
      n, verdict := LearnAt(m, mine, buckets.next == null, b, i);
      if mine && verdict != Known {
        growTime := m.now;
      }
      split := verdict == NeedsSplit;
    }

    lemma InRepr(i: nat)
      requires Valid() && i < |spine|
      ensures this in Repr && spine[i] in Repr && forall k :: 0 <= k < |spine[i].chain| ==> spine[i].chain[k] in Repr
    {
      assert Owns(spine[i]);
    }

    lemma OthersApart(i: nat)
      requires Valid() && i < |spine|
      ensures Owns(spine[i]) && spine[i].Linked()
      ensures forall j :: 0 <= j < |spine| && j != i ==>
        spine[j] != spine[i] && forall k :: 0 <= k < |spine[j].chain| ==> spine[j].chain[k] !in spine[i].chain
    {
      forall j | 0 <= j < |spine| && j != i
        ensures spine[j] != spine[i] && forall k :: 0 <= k < |spine[j].chain| ==> spine[j].chain[k] !in spine[i].chain
      {
        ChainsDisjoint(j, i);
      }
    }

    lemma InBucketIsLinked(i: nat, id: Id)
      requires Valid() && i < |spine|
      ensures var b := spine[i];
              InBucket(Firsts(Abs()), i, id) <==> IdCmp(b.first, id) <= 0 && (b.next == null || IdCmp(id, b.next.first) < 0)
    {
      hide IdCmp;
      NextFirstIsLinked(i);
    }

    lemma AloneIffNoNext()
      requires Valid() && spine != []
      ensures buckets != null && (buckets.next == null <==> |spine| == 1)
    {
      if |spine| > 1 { assert spine[0].next == spine[1]; }
    }

    /** `new_node` (dht.cpp:877) on one address family; `rejected` stands for a martian or blacklisted sender. */
    method NewNode(m: News) returns (n: NodeCell?)
      requires Valid() && (spine != [] ==> Inv(Abs(), my))
      modifies Repr
      ensures Valid() && fresh(Repr - old(Repr))
      ensures old(spine) == [] ==> n == null && spine == []
      ensures old(spine) != [] ==> (Table(Abs(), growTime), n != null) == T.NewNode(old(Table(Abs(), growTime)), my, m)
      decreases if spine == [] then 0 else Room(Abs(), m.id)
    {
      hide Valid, IsChain, Views, IsSpine, FindIndex, OnePass, Split, Inv, Room, IdCmp;
      var b, i := FindBucketCell(m.id);
      IdCmpIsOrder(m.id, my);
      if b == null || IdCmp(m.id, my) == 0 || m.rejected {
        return null;
      }
      ghost var t := Table(Abs(), growTime);
      InRepr(i);
      var split;
      n, split := OnePassCell(m, b, i);
      if split {
        SplitMakesProgress(t, my, m);
        var _ := SplitBucket(b, i);
        n := NewNode(m);
      }
    }

    /** `expire_buckets` (dht.cpp:1014). */
    method ExpireBuckets()
      requires Valid()
      modifies Repr
      ensures Valid() && spine == old(spine) && Repr == old(Repr) && growTime == old(growTime)
      ensures Abs() == Expire(old(Abs()))
    {
      hide IsChain, Views, IsSpine, ExpireBucket, BucketCell.View, BucketCell.Linked;
      var b := buckets;
      ghost var i := 0;
      SpineStart();
      while b != null
        invariant Valid() && spine == old(spine) && Repr == old(Repr) && growTime == old(growTime)
        invariant i <= |spine| && b == if i < |spine| then spine[i] else null
        invariant forall j :: 0 <= j < |spine| ==> Abs()[j] == if j < i then ExpireBucket(old(Abs())[j]) else old(Abs())[j]
        decreases |spine| - i
      {
        ExpireAt(b, i);
        SpineNext(i);
        b, i := b.next, i + 1;
      }
      assert Abs() == Expire(old(Abs()));
    }

    method ExpireAt(b: BucketCell, ghost i: nat)
      requires Valid() && i < |spine| && b == spine[i]
      modifies b`nodes, b`count, b`chain, b`cached, (set c | c in b.chain)`next
      ensures Valid()
      ensures Abs() == old(Abs())[i := ExpireBucket(old(Abs())[i])]
    {
      hide IsChain, Views, IsSpine, ExpireBucket;
      OthersApart(i);
      b.ExpireCell();
      OneBucketChanged(i);
    }

    lemma SpineInjective(i: nat, j: nat)
      requires Valid() && i < |spine| && j < |spine|
      ensures spine[i] == spine[j] <==> i == j
    {
    }

    lemma SpineStart()
      requires Valid()
      ensures buckets == if spine == [] then null else spine[0]
    {
    }

    lemma SpineNext(i: nat)
      requires Valid() && i < |spine|
      ensures spine[i].next == if i + 1 < |spine| then spine[i + 1] else null
    {
    }

    /** `previous_bucket` (dht.cpp:588). */
    method PreviousBucket(b: BucketCell, ghost i: nat) returns (p: BucketCell?)
      requires Valid() && i < |spine| && b == spine[i]
      ensures p == if i == 0 then null else spine[i - 1]
    {
      p := buckets;
      if b == p {
        return null;
      }
      ghost var k := 0;
      while true
        invariant k < i && p == spine[k]
        decreases i - k
      {
        SpineNext(k);
        if p.next == null {
          return null;
        }
        SpineInjective(k + 1, i);
        if p.next == b {
          return p;
        }
        p, k := p.next, k + 1;
      }
    }

    /** `find_node` (dht.cpp:608). */
    method FindNode(id: Id) returns (n: NodeCell?)
      requires Valid()
      ensures spine == [] ==> n == null
      ensures spine != [] ==> Lookup(Abs(), id) == if n == null then None else Some(n.View())
    {
      var b, i := FindBucketCell(id);
      if b == null {
        return null;
      }
      assert b.Linked();
      ghost var k;
      n, k := b.FindCell(id);
    }

    /** `pinged` (dht.cpp:769) for node `n`, the `k`-th of bucket `i`. */
    method PingedCell(n: NodeCell, b: BucketCell, now: int, ghost i: nat, ghost k: nat)
      requires Valid() && i < |spine| && b == spine[i] && k < |b.chain| && n == b.chain[k]
      modifies n, b`cached
      ensures Valid() && Abs() == Pinged(old(Abs()), i, k, now)
    {
      hide IsChain, Views, IsSpine;
      OthersApart(i);
      b.PingAt(n, k, now);
      OneBucketChanged(i);
    }

    /** The routing-table part of `blacklist_node` (dht.cpp:782). */
    method BlacklistNode(id: Id, now: int)
      requires Valid()
      modifies Repr
      ensures Valid() && spine == old(spine) && Repr == old(Repr)
      ensures spine != [] ==> Abs() == Blacklist(old(Abs()), id, now)
    {
      hide IsChain, Views, IsSpine, IndexOf, FindIndex, Pinged;
      var b, i := FindBucketCell(id);
      if b == null {
        return;
      }
      OthersApart(i);
      var n;
      ghost var k;
      n, k := b.FindCell(id);
      if n != null {
        b.MarkBad(n, k);
        OneBucketChanged(i);
        PingedCell(n, b, now, i, k);
      }
    }
  }
}
