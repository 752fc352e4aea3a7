/**
 The node list of a find_node reply: at most 8 fixed-size records in a byte buffer, nearest
 first, filled from the bucket of the target and its two neighbours. A record is the 20 bytes
 of an id followed by the address and port in compact form, 26 or 38 bytes in all; `Records`
 reads a buffer as a list of them, and the methods that move bytes about are proved to do to
 that list what DhtClosest says.
 */
module DhtReply {
  import opened DhtId
  import opened DhtBuckets
  import opened DhtClosest
  import opened T = DhtTable
  import opened H = DhtTableHeap
  import opened Wrappers

  const REPLY_NODES := 8

  type Record = Entry<seq<bv8>>

  /** An address record is 26 bytes for IPv4 and 38 for IPv6: the id, then address and port. */
  predicate IsRecordSize(size: nat)
  {
    size == 26 || size == 38
  }

  /** `n` bytes of a socket address; what lies behind the bytes known of it is zero. */
  function Field(ss: Addr, from: nat, n: nat): (r: seq<bv8>)
    ensures |r| == n
  {
    seq(n, i requires 0 <= i < n => if from + i < |ss| then ss[from + i] else 0)
  }

  /** `sin_addr` and `sin6_addr`: behind family and port, and in IPv6 also behind the flow label. */
  function AddressOf(ss: Addr, size: nat): (r: seq<bv8>)
    requires IsRecordSize(size)
    ensures |r| + 2 == size - ID_BYTES
  {
    if size == 26 then Field(ss, 4, 4) else Field(ss, 8, 16)
  }

  /** `sin_port` and `sin6_port`. */
  function PortOf(ss: Addr): (r: seq<bv8>)
    ensures |r| == 2
  {
    Field(ss, 2, 2)
  }

  /** The compact form: the address, then the port. */
  function Compact(ss: Addr, size: nat): (r: seq<bv8>)
    requires IsRecordSize(size)
    ensures |r| == size - ID_BYTES
  {
    AddressOf(ss, size) + PortOf(ss)
  }

  /** Out of a whole socket address: in IPv4 the port is at offset 2 and the address at 4, in IPv6 the address is at 8. */
  lemma CompactIs(ss: Addr)
    ensures |ss| >= 8 ==> Compact(ss, 26) == ss[4..8] + ss[2..4]
    ensures |ss| >= 24 ==> Compact(ss, 38) == ss[8..24] + ss[2..4]
    ensures ss == [] ==> forall i :: 0 <= i < 6 ==> Compact(ss, 26)[i] == 0
    ensures ss == [] ==> forall i :: 0 <= i < 18 ==> Compact(ss, 38)[i] == 0
  {
    if |ss| >= 8 {
      FieldIs(ss, 2, 2);
      FieldIs(ss, 4, 4);
    }
    if |ss| >= 24 {
      FieldIs(ss, 8, 16);
    }
    if ss == [] {
      assert forall i :: 0 <= i < 16 ==> Field(ss, 8, 16)[i] == 0;
    }
  }

  lemma FieldIs(ss: Addr, from: nat, n: nat)
    requires from + n <= |ss|
    ensures Field(ss, from, n) == ss[from..from + n]
  {
  }

  function RecordOf(n: Node, size: nat): Record
    requires IsRecordSize(size)
  {
    Entry(n.id, Compact(n.ss, size))
  }

  // ----- records in a byte string -----

  function Decode(bytes: seq<bv8>): Record
    requires |bytes| >= ID_BYTES
  {
    Entry(bytes[..ID_BYTES], bytes[ID_BYTES..])
  }

  /** The first `n` records of a byte string. */
  function Records(s: seq<bv8>, size: nat, n: nat): (r: seq<Record>)
    requires size >= ID_BYTES && size * n <= |s|
    ensures |r| == n
  {
    if n == 0 then []
    else
      assert size <= size * n == size * (n - 1) + size;
      [Decode(s[..size])] + Records(s[size..], size, n - 1)
  }

  lemma {:induction false} RecordsConcat(a: seq<bv8>, z: seq<bv8>, size: nat, i: nat, k: nat)
    requires size >= ID_BYTES && |a| == size * i && size * k <= |z|
    ensures size * (i + k) == size * i + size * k
    ensures Records(a + z, size, i + k) == Records(a, size, i) + Records(z, size, k)
  {
    assert size * (i + k) == size * i + size * k;
    if i > 0 {
      assert size * (i - 1) == size * i - size && size * (i - 1) >= 0;
      RecordsConcat(a[size..], z, size, i - 1, k);
      assert (a + z)[..size] == a[..size] && (a + z)[size..] == a[size..] + z;
    } else {
      assert a + z == z;
    }
  }

  // ----- byte moves -----

  /** What `memmove(buf + dst, buf + src, len)` makes of a buffer. */
  function Moved(s: seq<bv8>, dst: nat, src: nat, len: nat): seq<bv8>
    requires src <= dst && dst + len <= |s|
  {
    s[..dst] + s[src..src + len] + s[dst + len..]
  }

  /** What `memcpy(buf + dst, bytes, |bytes|)` makes of a buffer. */
  function Copied(s: seq<bv8>, dst: nat, bytes: seq<bv8>): (r: seq<bv8>)
    requires dst + |bytes| <= |s|
    ensures |r| == |s|
  {
    s[..dst] + bytes + s[dst + |bytes|..]
  }

  method MemMove(a: array<bv8>, dst: nat, src: nat, len: nat)
    requires src <= dst && dst + len <= a.Length
    modifies a
    ensures a[..] == Moved(old(a[..]), dst, src, len)
  {
    var j := len;
    while j > 0
      invariant 0 <= j <= len
      invariant forall t :: 0 <= t < a.Length && !(dst + j <= t < dst + len) ==> a[t] == old(a[t])
      invariant forall t :: dst + j <= t < dst + len ==> a[t] == old(a[t - dst + src])
    {
      j := j - 1;
      a[dst + j] := a[src + j];
    }
    MovedIs(old(a[..]), a[..], dst, src, len);
  }

  lemma MovedIs(s: seq<bv8>, t: seq<bv8>, dst: nat, src: nat, len: nat)
    requires src <= dst && dst + len <= |s| == |t|
    requires forall k :: 0 <= k < |s| && !(dst <= k < dst + len) ==> t[k] == s[k]
    requires forall k :: dst <= k < dst + len ==> t[k] == s[k - dst + src]
    ensures t == Moved(s, dst, src, len)
  {
    assert t[..dst] == s[..dst] && t[dst..dst + len] == s[src..src + len] && t[dst + len..] == s[dst + len..];
    assert t == t[..dst] + t[dst..dst + len] + t[dst + len..];
  }

  method MemCpy(a: array<bv8>, dst: nat, bytes: seq<bv8>)
    requires dst + |bytes| <= a.Length
    modifies a
    ensures a[..] == Copied(old(a[..]), dst, bytes)
  {
    for j := 0 to |bytes|
      invariant forall t :: 0 <= t < a.Length && !(dst <= t < dst + j) ==> a[t] == old(a[t])
      invariant forall t :: dst <= t < dst + j ==> a[t] == bytes[t - dst]
    {
      a[dst + j] := bytes[j];
    }
    CopiedIs(old(a[..]), a[..], dst, bytes);
  }

  lemma CopiedIs(s: seq<bv8>, t: seq<bv8>, dst: nat, bytes: seq<bv8>)
    requires dst + |bytes| <= |s| == |t|
    requires forall k :: 0 <= k < |s| && !(dst <= k < dst + |bytes|) ==> t[k] == s[k]
    requires forall k :: dst <= k < dst + |bytes| ==> t[k] == bytes[k - dst]
    ensures t == Copied(s, dst, bytes)
  {
    var end := dst + |bytes|;
    assert t[..dst] == s[..dst] && t[dst..end] == bytes && t[end..] == s[end..];
    assert t == t[..dst] + t[dst..end] + t[end..];
  }

  /**
   Opening a gap for record `i` and filling it is insertion into the list of records. The
   buffer held `i` records `a`, then `rest` more in `b`, then `x` with the one that falls off, if any.
   */
  lemma SpliceIsInsertion(a: seq<bv8>, b: seq<bv8>, x: seq<bv8>, y: seq<bv8>, bytes: seq<bv8>, size: nat, i: nat, rest: nat, drop: nat)
    requires size >= ID_BYTES && |a| == size * i && |b| == size * rest && |bytes| == size
    requires drop <= 1 && size * drop <= |x|
    ensures size * (i + rest + drop) <= |a + b + x| && size * (i + 1 + rest) <= |a + bytes + b + y|
    ensures var before := Records(a + b + x, size, i + rest + drop);
            Records(a + bytes + b + y, size, i + 1 + rest) == Take(before[..i] + [Decode(bytes)] + before[i..], i + 1 + rest)
  {
    hide Records;
    RecordsConcat(b, x, size, rest, drop);
    RecordsConcat(a, b + x, size, i, rest + drop);
    assert a + (b + x) == a + b + x;
    assert size * 0 == 0 && size * 1 == size;
    RecordsConcat(b, y, size, rest, 0);
    RecordsConcat(bytes, b + y, size, 1, rest);
    RecordsConcat(a, bytes + (b + y), size, i, 1 + rest);
    assert a + (bytes + (b + y)) == a + bytes + b + y;
    OneRecord(bytes, size);
    NoRecords(y, size);
  }

  lemma OneRecord(bytes: seq<bv8>, size: nat)
    requires size >= ID_BYTES && |bytes| == size && size * 1 == size
    ensures Records(bytes, size, 1) == [Decode(bytes)]
  {
    assert bytes[..size] == bytes;
  }

  lemma NoRecords(y: seq<bv8>, size: nat)
    requires size >= ID_BYTES && size * 0 == 0
    ensures Records(y, size, 0) == []
  {
  }

  lemma ProductNonnegative(a: nat, b: nat)
    ensures 0 <= a * b
  {
  }

  lemma Scale(size: nat, i: nat, n: nat)
    requires i <= n
    ensures 0 <= size * i <= size * n && size * (n - i) == size * n - size * i
    ensures i < n ==> size * i + size <= size * n
  {
    var d := n - i;
    assert size * n == size * (i + d) == size * i + size * d;
    ProductNonnegative(size, i);
    ProductNonnegative(size, d);
    if d > 0 {
      assert size * d == size * (d - 1) + size;
      ProductNonnegative(size, d - 1);
    }
  }

  lemma {:induction false} RecordAt(s: seq<bv8>, size: nat, n: nat, k: nat)
    requires size >= ID_BYTES && k < n && size * n <= |s|
    ensures 0 <= size * k && size * k + size <= |s|
    ensures Records(s, size, n)[k] == Decode(s[size * k..size * k + size])
  {
    Scale(size, k, n);
    OneLess(size, n);
    if k == 0 {
      assert size * 0 == 0;
    } else {
      OneLess(size, k);
      RecordAt(s[size..], size, n - 1, k - 1);
      SliceOfTail(s, size, size * (k - 1));
    }
  }

  lemma OneLess(size: nat, n: nat)
    requires n > 0
    ensures size * n == size + size * (n - 1) && size * (n - 1) >= 0
  {
  }

  lemma SliceOfTail(s: seq<bv8>, size: nat, at: nat)
    requires size + at + size <= |s|
    ensures s[size..][at..at + size] == s[size + at..size + at + size]
  {
  }

  /** The search loop of `insert_closest_node` (dht.cpp:3065). */
  method FindRecordSlot(nodes: array<bv8>, numnodes: nat, target: Id, key: Id, size: nat) returns (i: nat, found: bool)
    requires size >= ID_BYTES && size * numnodes <= nodes.Length
    ensures var list := Records(nodes[..], size, numnodes);
            i == Slot(list, key, target) && found == Present(list, key, target)
  {
    hide Nearer, IdCmp, Slot, Records;
    ghost var list := Records(nodes[..], size, numnodes);
    i, found := 0, false;
    while i < numnodes
      invariant i <= numnodes && !found
      invariant forall j :: 0 <= j < i ==> list[j].id != key && Nearer(key, list[j].id, target) >= 0
    {
      RecordAt(nodes[..], size, numnodes, i);
      var id: Id := nodes[size * i..size * i + size][..ID_BYTES];
      assert list[i].id == id;
      IdCmpIsOrder(key, id);
      if IdCmp(key, id) == 0 {
        found := true;
        break;
      }
      var c := XorCmp(key, id, target);
      if c < 0 {
        break;
      }
      i := i + 1;
    }
    SlotLeast(list, key, target, i);
  }

  /** The buffer with the records between offsets `at` and `end` moved up by one record, and `bytes` written at `at`. */
  function Spliced(s: seq<bv8>, at: nat, end: nat, bytes: seq<bv8>): (r: seq<bv8>)
    requires at <= end && end + |bytes| <= |s|
  {
    s[..at] + bytes + s[at..end] + s[end + |bytes|..]
  }

  method WriteRecord(nodes: array<bv8>, at: nat, end: nat, n: Node, size: nat)
    requires IsRecordSize(size) && at <= end && end + size <= nodes.Length
    modifies nodes
    ensures nodes[..] == Spliced(old(nodes[..]), at, end, n.id + Compact(n.ss, size))
  {
    hide Moved, Copied, Spliced, AddressOf, PortOf, IsRecordSize;
    RecordSizes(size);
    ghost var was := nodes[..];
    var address, port := AddressOf(n.ss, size), PortOf(n.ss);
    MoveThenCopy(was, at, end, n.id, address + port);
    if at < end {
      MemMove(nodes, at + size, at, end - at);
    }
    MemCpy(nodes, at, n.id);
    CopiedInTwo(nodes[..], at + ID_BYTES, address, port);
    MemCpy(nodes, at + ID_BYTES, address);
    MemCpy(nodes, at + ID_BYTES + |address|, port);
  }

  lemma MoveThenCopy(s: seq<bv8>, at: nat, end: nat, x: seq<bv8>, y: seq<bv8>)
    requires at <= end && end + |x| + |y| <= |s|
    ensures var moved := if at < end then Moved(s, at + |x| + |y|, at, end - at) else s;
            |moved| == |s| && Copied(Copied(moved, at, x), at + |x|, y) == Spliced(s, at, end, x + y)
  {
    hide Moved, Copied;
    var size := |x| + |y|;
    var moved := if at < end then Moved(s, at + size, at, end - at) else s;
    MovedParts(s, at, end, size);
    CopiedTwice(moved, at, x, y);
  }

  lemma MovedParts(s: seq<bv8>, at: nat, end: nat, size: nat)
    requires at <= end && end + size <= |s|
    ensures var moved := if at < end then Moved(s, at + size, at, end - at) else s;
            |moved| == |s| && moved[..at] == s[..at] && moved[at + size..] == s[at..end] + s[end + size..]
  {
    if at < end {
      var a, b, c := s[..at + size], s[at..end], s[end + size..];
      assert Moved(s, at + size, at, end - at) == a + b + c;
      assert (a + b + c)[at + size..] == b + c;
    }
  }

  lemma CopiedInTwo(s: seq<bv8>, at: nat, x: seq<bv8>, y: seq<bv8>)
    requires at + |x| + |y| <= |s|
    ensures Copied(Copied(s, at, x), at + |x|, y) == Copied(s, at, x + y)
  {
    CopiedTwice(s, at, x, y);
  }

  lemma CopiedTwice(s: seq<bv8>, at: nat, x: seq<bv8>, y: seq<bv8>)
    requires at + |x| + |y| <= |s|
    ensures Copied(Copied(s, at, x), at + |x|, y) == s[..at] + (x + y) + s[at + (|x| + |y|)..]
  {
    var t := Copied(s, at, x);
    assert t[..at + |x|] == s[..at] + x;
    assert t[at + |x| + |y|..] == s[at + |x| + |y|..];
  }

  /** `insert_closest_node` (dht.cpp:3053): the byte buffer carries out the insertion of DhtClosest with room for 8. */
  method InsertClosestNode(nodes: array<bv8>, numnodes: nat, target: Id, n: Node, size: nat) returns (r: nat)
    requires IsRecordSize(size) && nodes.Length == size * REPLY_NODES && numnodes <= REPLY_NODES
    modifies nodes
    ensures r <= REPLY_NODES && size * numnodes <= nodes.Length && size * r <= nodes.Length
    ensures Records(nodes[..], size, r) == Place(Records(old(nodes[..]), size, numnodes), RecordOf(n, size), target, REPLY_NODES)
  {
    hide Nearer, Slot, Records, IsRecordSize;
    Scale(size, numnodes, REPLY_NODES);
    assert size >= ID_BYTES by { RecordSizes(size); }
    ghost var s := nodes[..];
    var i, found := FindRecordSlot(nodes, numnodes, target, n.id, size);
    if found || i == REPLY_NODES {
      return numnodes;
    }
    r := if numnodes < REPLY_NODES then numnodes + 1 else numnodes;
    Scale(size, i, r - 1);
    Scale(size, r - 1, r);
    Scale(size, r, REPLY_NODES);
    var at, end := size * i, size * (r - 1);
    WriteRecord(nodes, at, end, n, size);
    InsertedRecord(s, nodes[..], size, i, r, numnodes, n, target);
  }

  lemma RecordSizes(size: nat)
    requires IsRecordSize(size)
    ensures size >= ID_BYTES
  {
  }

  lemma InsertedRecord(s: seq<bv8>, t: seq<bv8>, size: nat, i: nat, r: nat, n: nat, node: Node, target: Id)
    requires IsRecordSize(size) && i <= n <= r <= n + 1 && i < r <= REPLY_NODES
    requires 0 <= size * i <= size * (r - 1) == size * r - size && size * r <= |s| && size * n <= |s|
    requires size * (r - 1 - i) == size * (r - 1) - size * i
    requires r == if n < REPLY_NODES then n + 1 else n
    requires i == Slot(Records(s, size, n), node.id, target) && !Present(Records(s, size, n), node.id, target)
    requires t == Spliced(s, size * i, size * (r - 1), node.id + Compact(node.ss, size))
    ensures size * r <= |t|
    ensures Records(t, size, r) == Place(Records(s, size, n), RecordOf(node, size), target, REPLY_NODES)
  {
    hide Records, Slot, Nearer, Compact, Present;
    var bytes := node.id + Compact(node.ss, size);
    var a, b, x := s[..size * i], s[size * i..size * (r - 1)], s[size * (r - 1)..];
    assert s == a + b + x;
    assert size * 0 == 0 && size * 1 == size;
    SpliceIsInsertion(a, b, x, s[size * (r - 1) + size..], bytes, size, i, r - 1 - i, n - (r - 1));
    assert Decode(bytes) == RecordOf(node, size);
    assert n < REPLY_NODES ==> |Records(s, size, n)| + 1 == r;
  }

  // ----- gathering the nodes of a reply -----

  /** The records of the good nodes of a list, in order. */
  function GoodRecords(nodes: seq<Node>, now: int, size: nat): (r: seq<Record>)
    requires IsRecordSize(size)
  {
    if nodes == [] then []
    else (if Good(nodes[0], now) then [RecordOf(nodes[0], size)] else []) + GoodRecords(nodes[1..], now, size)
  }

  function PlaceAll(list: seq<Record>, rs: seq<Record>, target: Id): (r: seq<Record>)
    decreases |rs|
  {
    if rs == [] then list else PlaceAll(Place(list, rs[0], target, REPLY_NODES), rs[1..], target)
  }

  lemma {:induction false} PlaceAllKeepsClosest(list: seq<Record>, rs: seq<Record>, offers: set<Id>, target: Id)
    requires IsClosest(list, offers, target, 8)
    ensures IsClosest(PlaceAll(list, rs, target), offers + IdsOf(rs), target, 8)
    decreases |rs|
  {
    hide Nearer, Place, IdsOf, IsClosest;
    if rs == [] {
      assert offers + IdsOf(rs) == offers;
    } else {
      PlaceKeepsClosest(list, rs[0], offers, target, REPLY_NODES);
      PlaceAllKeepsClosest(Place(list, rs[0], target, REPLY_NODES), rs[1..], offers + {rs[0].id}, target);
      InsertIds(rs[1..], 0, rs[0]);
      assert Insert(rs[1..], 0, rs[0]) == rs;
      assert offers + {rs[0].id} + IdsOf(rs[1..]) == offers + IdsOf(rs);
    }
  }

  /** Every record in the list was there before or has been offered, address and all. */
  lemma {:induction false} PlaceAllFrom(list: seq<Record>, rs: seq<Record>, target: Id)
    ensures forall e :: e in PlaceAll(list, rs, target) ==> e in list || e in rs
    decreases |rs|
  {
    hide Place;
    if rs != [] {
      PlaceFrom(list, rs[0], target);
      PlaceAllFrom(Place(list, rs[0], target, REPLY_NODES), rs[1..], target);
    }
  }

  lemma PlaceFrom(list: seq<Record>, r: Record, target: Id)
    ensures forall e :: e in Place(list, r, target, REPLY_NODES) ==> e in list || e == r
  {
    hide Slot;
  }

  lemma {:induction false} PlaceAllConcat(list: seq<Record>, a: seq<Record>, b: seq<Record>, target: Id)
    ensures PlaceAll(list, a + b, target) == PlaceAll(PlaceAll(list, a, target), b, target)
    decreases |a|
  {
    hide Place;
    if a == [] {
      assert a + b == b;
    } else {
      assert (a + b)[0] == a[0] && (a + b)[1..] == a[1..] + b;
      PlaceAllConcat(Place(list, a[0], target, REPLY_NODES), a[1..], b, target);
    }
  }

  lemma PlaceAllSnoc(list: seq<Record>, a: seq<Record>, r: Record, target: Id)
    ensures PlaceAll(list, a + [r], target) == Place(PlaceAll(list, a, target), r, target, REPLY_NODES)
  {
    hide Place;
    PlaceAllConcat(list, a, [r], target);
    assert [r][1..] == [];
  }

  lemma {:induction false} GoodRecordsStep(nodes: seq<Node>, k: nat, now: int, size: nat)
    requires IsRecordSize(size) && k < |nodes|
    ensures Good(nodes[k], now) ==> GoodRecords(nodes[..k + 1], now, size) == GoodRecords(nodes[..k], now, size) + [RecordOf(nodes[k], size)]
    ensures !Good(nodes[k], now) ==> GoodRecords(nodes[..k + 1], now, size) == GoodRecords(nodes[..k], now, size)
  {
    hide Good;
    if k == 0 {
      assert nodes[..1] == [nodes[0]];
      assert nodes[..1][1..] == [];
    } else {
      GoodRecordsStep(nodes[1..], k - 1, now, size);
      assert nodes[..k + 1][1..] == nodes[1..][..k] && nodes[..k][1..] == nodes[1..][..k - 1];
    }
  }

  /** `buffer_closest_nodes` (dht.cpp:3102). */
  method BufferClosestNodes(nodes: array<bv8>, numnodes0: nat, target: Id, b: BucketCell, now: int, size: nat) returns (numnodes: nat)
    requires IsRecordSize(size) && nodes.Length == size * REPLY_NODES && numnodes0 <= REPLY_NODES && b.Linked()
    modifies nodes
    ensures numnodes <= REPLY_NODES && size * numnodes0 <= nodes.Length && size * numnodes <= nodes.Length
    ensures Records(nodes[..], size, numnodes)
         == PlaceAll(Records(old(nodes[..]), size, numnodes0), GoodRecords(b.View().nodes, now, size), target)
  {
    hide Place, Records, IsChain, Views, IsRecordSize;
    RecordSizes(size);
    Scale(size, numnodes0, REPLY_NODES);
    numnodes := numnodes0;
    ghost var start := Records(nodes[..], size, numnodes0);
    ghost var all := b.View().nodes;
    b.HeadIsFirst();
    var n := b.nodes;
    ghost var k := 0;
    assert all[..0] == [];
    while n != null
      invariant k <= |b.chain| && n == if k < |b.chain| then b.chain[k] else null
      invariant numnodes <= REPLY_NODES && size * numnodes <= nodes.Length
      invariant Records(nodes[..], size, numnodes) == PlaceAll(start, GoodRecords(all[..k], now, size), target)
      decreases |b.chain| - k
    {
      GoodRecordsStep(all, k, now, size);
      if Good(n.View(), now) {
        numnodes := InsertClosestNode(nodes, numnodes, target, n.View(), size);
        PlaceAllSnoc(start, GoodRecords(all[..k], now, size), RecordOf(all[k], size), target);
      }
      b.NextIsLinked(k);
      n, k := n.next, k + 1;
    }
    assert all[..k] == all;
  }

  /** The nodes `send_closest_nodes` looks at: bucket `h`, its successor, then its predecessor. */
  function Neighbourhood(bs: seq<Bucket>, h: nat): seq<Node>
    requires h < |bs|
  {
    bs[h].nodes + (if h + 1 < |bs| then bs[h + 1].nodes else []) + (if h > 0 then bs[h - 1].nodes else [])
  }

  lemma {:induction false} GoodRecordsConcat(a: seq<Node>, b: seq<Node>, now: int, size: nat)
    requires IsRecordSize(size)
    ensures GoodRecords(a + b, now, size) == GoodRecords(a, now, size) + GoodRecords(b, now, size)
  {
    hide Good, RecordOf, IsRecordSize;
    if a == [] {
      assert a + b == b;
      assert [] + GoodRecords(b, now, size) == GoodRecords(b, now, size);
    } else {
      var first := if Good(a[0], now) then [RecordOf(a[0], size)] else [];
      assert (a + b)[0] == a[0] && (a + b)[1..] == a[1..] + b;
      GoodRecordsConcat(a[1..], b, now, size);
      assert first + (GoodRecords(a[1..], now, size) + GoodRecords(b, now, size))
          == first + GoodRecords(a[1..], now, size) + GoodRecords(b, now, size);
    }
  }

  /** Offer the good nodes of bucket `b` and of its two neighbours to the buffer. */
  method GatherNeighbourhood(t: RoutingTable, b: BucketCell, ghost h: nat, target: Id, now: int, size: nat, nodes: array<bv8>)
    returns (numnodes: nat)
    requires IsRecordSize(size) && nodes.Length == size * REPLY_NODES
    requires t.Valid() && nodes !in t.Repr && h < |t.spine| && b == t.spine[h]
    modifies nodes
    ensures numnodes <= REPLY_NODES && size * numnodes <= nodes.Length && size * 0 <= nodes.Length && size >= ID_BYTES
    ensures Records(nodes[..], size, numnodes)
         == PlaceAll(Records(old(nodes[..]), size, 0), GoodRecords(Neighbourhood(t.Abs(), h), now, size), target)
  {
    hide Place, PlaceAll, Records, IsClosest, IdsOf, GoodRecords, IsRecordSize, FindIndex, Neighbourhood,
         IsChain, Views, IsSpine, RoutingTable.Valid, RoutingTable.Owns, BucketCell.Linked;
    RecordSizes(size);
    Scale(size, 0, REPLY_NODES);
    ghost var bs := t.Abs();
    ghost var start := Records(nodes[..], size, 0);
    t.OthersApart(h);
    numnodes := BufferClosestNodes(nodes, 0, target, b, now, size);
    t.SpineNext(h);
    if b.next != null {
      t.OthersApart(h + 1);
      numnodes := BufferClosestNodes(nodes, numnodes, target, b.next, now, size);
    }
    var p := t.PreviousBucket(b, h);
    if p != null {
      t.OthersApart(h - 1);
      numnodes := BufferClosestNodes(nodes, numnodes, target, p, now, size);
    }
    NeighbourhoodRecords(bs, h, start, target, now, size);
  }

  /**
   The gathering part of `send_closest_nodes` (dht.cpp:3117), for one family: the buffer ends up
   with the 8 good nodes of the neighbourhood that are nearest to the target, nearest first.
   */
  method GatherClosest(t: RoutingTable, target: Id, now: int, size: nat, nodes: array<bv8>) returns (numnodes: nat)
    requires IsRecordSize(size) && nodes.Length == size * 8
    requires t.Valid() && nodes !in t.Repr
    modifies nodes
    ensures numnodes <= 8 && size * numnodes <= nodes.Length
    ensures t.spine == [] ==> numnodes == 0
    ensures t.spine != [] ==>
      IsClosest(Records(nodes[..], size, numnodes),
                IdsOf(GoodRecords(Neighbourhood(t.Abs(), FindBucket(t.Abs(), target)), now, size)), target, 8)
    ensures t.spine != [] ==>
      forall k :: 0 <= k < numnodes ==>
        Records(nodes[..], size, numnodes)[k] in GoodRecords(Neighbourhood(t.Abs(), FindBucket(t.Abs(), target)), now, size)
  {
    hide Place, PlaceAll, Records, IsClosest, IdsOf, GoodRecords, IsRecordSize, FindIndex, Neighbourhood,
         IsChain, Views, IsSpine, RoutingTable.Valid, RoutingTable.Owns, BucketCell.Linked;
    RecordSizes(size);
    Scale(size, 0, REPLY_NODES);
    EmptyIsClosest(nodes[..], size, target);
    ghost var start := Records(nodes[..], size, 0);
    var b, h := t.FindBucketCell(target);
    if b == null {
      return 0;
    }
    numnodes := GatherNeighbourhood(t, b, h, target, now, size, nodes);
    ghost var offered := GoodRecords(Neighbourhood(t.Abs(), h), now, size);
    PlaceAllKeepsClosest(start, offered, {}, target);
    PlaceAllFrom(start, offered, target);
    NoRecords(old(nodes[..]), size);
    assert {} + IdsOf(offered) == IdsOf(offered);
  }

  lemma EmptyIsClosest(s: seq<bv8>, size: nat, target: Id)
    requires size >= ID_BYTES && size * 0 <= |s|
    ensures IsClosest(Records(s, size, 0), {}, target, REPLY_NODES)
  {
  }

  lemma NeighbourhoodRecords(bs: seq<Bucket>, h: nat, start: seq<Record>, target: Id, now: int, size: nat)
    requires IsRecordSize(size) && h < |bs|
    ensures var l1 := PlaceAll(start, GoodRecords(bs[h].nodes, now, size), target);
            var l2 := if h + 1 < |bs| then PlaceAll(l1, GoodRecords(bs[h + 1].nodes, now, size), target) else l1;
            var l3 := if h > 0 then PlaceAll(l2, GoodRecords(bs[h - 1].nodes, now, size), target) else l2;
            l3 == PlaceAll(start, GoodRecords(Neighbourhood(bs, h), now, size), target)
  {
    hide PlaceAll, Good;
    var n1, n2, n3 := bs[h].nodes, if h + 1 < |bs| then bs[h + 1].nodes else [], if h > 0 then bs[h - 1].nodes else [];
    assert Neighbourhood(bs, h) == n1 + n2 + n3;
    GoodRecordsConcat(n1 + n2, n3, now, size);
    GoodRecordsConcat(n1, n2, now, size);
    var r1, r2, r3 := GoodRecords(n1, now, size), GoodRecords(n2, now, size), GoodRecords(n3, now, size);
    PlaceAllConcat(start, r1 + r2, r3, target);
    PlaceAllConcat(start, r1, r2, target);
    PlaceAllNone(PlaceAll(start, r1, target), target);
    PlaceAllNone(PlaceAll(start, r1 + r2, target), target);
  }

  lemma PlaceAllNone(list: seq<Record>, target: Id)
    ensures PlaceAll(list, [], target) == list
  {
  }
}
