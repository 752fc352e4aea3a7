/**
 What `blacklist_node` does beside marking the node (dht.cpp:781-831): it flushes the node from
 every search, and remembers its address in a ring of ten.
 */
module DhtBlacklist {
  import opened DhtId
  import opened DhtClosest
  import opened DhtSearch
  import opened DhtLists
  import opened T = DhtTable
  import opened DhtTableHeap
  import opened Wrappers

  const MAX_BLACKLISTED := 10
  /** Size of a slot, that of the largest socket address. */
  const STORAGE := 128

  // ----- the ring -----

  /** An address is remembered by overwriting the front of a slot, so a longer one may leave a tail behind. */
  datatype Ring = Ring(slots: seq<Addr>, next: nat)

  predicate RingOk(r: Ring)
  {
    |r.slots| == MAX_BLACKLISTED && r.next < MAX_BLACKLISTED && forall i :: 0 <= i < |r.slots| ==> |r.slots[i]| == STORAGE
  }

  predicate IsAddress(sa: Addr)
  {
    |sa| <= STORAGE
  }

  function NoAddress(): (sa: Addr)
    ensures |sa| == STORAGE && forall i :: 0 <= i < |sa| ==> sa[i] == 0
  {
    seq(STORAGE, _ => 0 as bv8)
  }

  function EmptyRing(): (r: Ring)
    ensures RingOk(r) && r.next == 0
  {
    Ring(seq(MAX_BLACKLISTED, _ => NoAddress()), 0)
  }

  function Remember(r: Ring, sa: Addr): (r1: Ring)
    requires RingOk(r) && IsAddress(sa)
    ensures RingOk(r1)
  {
    Ring(r.slots[r.next := sa + r.slots[r.next][|sa|..]], (r.next + 1) % MAX_BLACKLISTED)
  }

  predicate Holds(slot: Addr, sa: Addr)
  {
    sa <= slot
  }

  /** Some slot begins with the address. */
  predicate Listed(r: Ring, sa: Addr)
    requires RingOk(r)
  {
    exists i :: 0 <= i < MAX_BLACKLISTED && Holds(r.slots[i], sa)
  }

  lemma Around(next: nat, n: nat)
    ensures ((next + n) % MAX_BLACKLISTED + 1) % MAX_BLACKLISTED == (next + (n + 1)) % MAX_BLACKLISTED
  {
  }

  function RememberAll(r: Ring, bans: seq<Addr>): (r1: Ring)
    requires RingOk(r) && forall i :: 0 <= i < |bans| ==> IsAddress(bans[i])
    ensures RingOk(r1) && r1.next == (r.next + |bans|) % MAX_BLACKLISTED
    decreases |bans|
  {
    if bans == [] then r
    else
      Around(r.next, |bans| - 1);
      Remember(RememberAll(r, bans[..|bans| - 1]), bans[|bans| - 1])
  }

  /** The slot that the `j`-th ban from now is written to. */
  function Turn(next: nat, j: nat): nat
  {
    (next + j) % MAX_BLACKLISTED
  }

  /** The slot written last stays as it is through the next nine. */
  lemma {:induction false} SlotStays(r: Ring, bans: seq<Addr>, i: nat)
    requires RingOk(r) && i < MAX_BLACKLISTED && forall j :: 0 <= j < |bans| ==> IsAddress(bans[j])
    requires forall j :: 0 <= j < |bans| ==> Turn(r.next, j) != i
    ensures RememberAll(r, bans).slots[i] == r.slots[i]
    decreases |bans|
  {
    if bans != [] {
      assert Turn(r.next, |bans| - 1) != i;
      SlotStays(r, bans[..|bans| - 1], i);
    }
  }

  /** An address just banned is refused until at least ten more have been banned, of whatever lengths. */
  lemma BannedForTen(r: Ring, sa: Addr, bans: seq<Addr>)
    requires RingOk(r) && IsAddress(sa) && |bans| < 10
    requires forall j :: 0 <= j < |bans| ==> IsAddress(bans[j])
    ensures Listed(RememberAll(Remember(r, sa), bans), sa)
  {
    hide RememberAll;
    var r1 := Remember(r, sa);
    assert Holds(r1.slots[r.next], sa) && r1.next == (r.next + 1) % MAX_BLACKLISTED;
    forall j | 0 <= j < |bans|
      ensures Turn(r1.next, j) != r.next
    {
      OtherTurn(r.next, j);
    }
    hide Remember, Turn;
    SlotStays(r1, bans, r.next);
  }

  lemma OtherTurn(next: nat, j: nat)
    requires next < MAX_BLACKLISTED && j < 9
    ensures Turn((next + 1) % MAX_BLACKLISTED, j) != next
  {
  }

  /** With addresses of one length the slots hold the last ten, each in its turn. */
  lemma {:induction false} SlotsHoldLast(bans: seq<Addr>, size: nat, j: int)
    requires size <= STORAGE && forall i :: 0 <= i < |bans| ==> |bans[i]| == size
    requires |bans| - MAX_BLACKLISTED <= j < |bans|
    ensures var r := RememberAll(EmptyRing(), bans);
            if j >= 0 then r.slots[j % MAX_BLACKLISTED][..size] == bans[j]
            else r.slots[j + MAX_BLACKLISTED] == NoAddress()
    decreases |bans|
  {
    if bans != [] {
      var n := |bans| - 1;
      var front := RememberAll(EmptyRing(), bans[..n]);
      if j < n {
        SlotsHoldLast(bans[..n], size, j);
        if j >= 0 {
          OtherSlot(j, n);
        }
      }
    } else {
      assert j < 0;
    }
  }

  lemma OtherSlot(j: nat, n: nat)
    requires n - MAX_BLACKLISTED < j < n
    ensures j % MAX_BLACKLISTED != n % MAX_BLACKLISTED
  {
  }

  /** Which ban a slot holds. */
  function BanIn(n: nat, i: nat): (j: int)
    requires i < MAX_BLACKLISTED
    ensures n - MAX_BLACKLISTED <= j < n
    ensures j >= 0 ==> j % MAX_BLACKLISTED == i
    ensures j < 0 ==> j + MAX_BLACKLISTED == i
  {
    n - MAX_BLACKLISTED + (i - n) % MAX_BLACKLISTED
  }

  /**
   With addresses of one length an address is refused exactly if it is one of the last ten
   banned, or if it is all zeros and the ring has not been filled yet.
   */
  lemma ListedIffRecent(bans: seq<Addr>, sa: Addr)
    requires IsAddress(sa) && forall i :: 0 <= i < |bans| ==> |bans[i]| == |sa|
    ensures Listed(RememberAll(EmptyRing(), bans), sa) <==>
            (exists j :: 0 <= j < |bans| && j >= |bans| - 10 && bans[j] == sa)
            || (|bans| < 10 && sa == seq(|sa|, _ => 0))
  {
    var r, n := RememberAll(EmptyRing(), bans), |bans|;
    hide RememberAll, NoAddress, BanIn;
    forall i | 0 <= i < MAX_BLACKLISTED
      ensures Holds(r.slots[i], sa) <==> if BanIn(n, i) >= 0 then bans[BanIn(n, i)] == sa else sa == NoAddress()[..|sa|]
    {
      SlotsHoldLast(bans, |sa|, BanIn(n, i));
      assert Holds(r.slots[i], sa) <==> sa == r.slots[i][..|sa|];
    }
    forall j | 0 <= j < n && j >= n - MAX_BLACKLISTED && bans[j] == sa
      ensures Listed(r, sa)
    {
      BanOf(n, j);
      assert Holds(r.slots[j % MAX_BLACKLISTED], sa);
    }
    if n < MAX_BLACKLISTED && sa == NoAddress()[..|sa|] {
      LastIsOpen(n);
      assert Holds(r.slots[MAX_BLACKLISTED - 1], sa);
    }
  }

  lemma BanOf(n: nat, j: nat)
    requires n - MAX_BLACKLISTED <= j < n
    ensures BanIn(n, j % MAX_BLACKLISTED) == j
  {
  }

  lemma LastIsOpen(n: nat)
    requires n < MAX_BLACKLISTED
    ensures BanIn(n, MAX_BLACKLISTED - 1) < 0
  {
  }

  class Blacklist {
    var blacklist: array<Addr>
    var next: nat

    ghost predicate Valid()
      reads this, blacklist
    {
      RingOk(Ring(blacklist[..], next))
    }

    ghost function Now(): Ring
      reads this, blacklist
    {
      Ring(blacklist[..], next)
    }

    constructor ()
      ensures Valid() && Now() == EmptyRing() && fresh(blacklist)
    {
      blacklist := new Addr[MAX_BLACKLISTED](_ => NoAddress());
      next := 0;
      new;
      assert blacklist[..] == EmptyRing().slots;
    }

    method Add(sa: Addr)
      requires Valid() && IsAddress(sa)
      modifies this`next, blacklist
      ensures Valid() && blacklist == old(blacklist) && Now() == Remember(old(Now()), sa)
    {
      blacklist[next] := sa + blacklist[next][|sa|..];
      next := (next + 1) % MAX_BLACKLISTED;
    }

    /** `banned` is the answer of the application, which is asked first. */
    method Refuses(sa: Addr, banned: Addr -> bool) returns (r: bool)
      requires Valid() && IsAddress(sa)
      ensures r <==> banned(sa) || Listed(Now(), sa)
    {
      if banned(sa) {
        return true;
      }
      for i := 0 to MAX_BLACKLISTED
        invariant forall j :: 0 <= j < i ==> !Holds(blacklist[j], sa)
      {
        if sa <= blacklist[i] {
          assert Holds(Now().slots[i], sa);
          return true;
        }
      }
      return false;
    }
  }

  // ----- the searches -----

  function WithoutId(list: seq<SearchNode>, x: Id): (r: seq<SearchNode>)
    ensures |r| <= |list|
  {
    if list == [] then []
    else if list[0].id == x then WithoutId(list[1..], x)
    else [list[0]] + WithoutId(list[1..], x)
  }

  lemma {:induction false} NothingToFlush(list: seq<SearchNode>, x: Id)
    requires forall i :: 0 <= i < |list| ==> list[i].id != x
    ensures WithoutId(list, x) == list
  {
    if list != [] {
      NothingToFlush(list[1..], x);
    }
  }

  /** Where ids are distinct, removing the one entry is removing the id. */
  lemma {:induction false} OneToFlush(list: seq<SearchNode>, i: nat, x: Id)
    requires i < |list| && list[i].id == x && forall j :: 0 <= j < |list| && j != i ==> list[j].id != x
    ensures WithoutId(list, x) == Remove(list, i)
    ensures forall j :: 0 <= j < |Remove(list, i)| ==> Remove(list, i)[j].id != x
  {
    if i == 0 {
      assert forall j :: 0 <= j < |list| - 1 ==> list[1..][j] == list[j + 1];
      NothingToFlush(list[1..], x);
      assert Remove(list, 0) == list[1..];
    } else {
      OneToFlush(list[1..], i - 1, x);
      assert Remove(list, i) == [list[0]] + Remove(list[1..], i - 1);
    }
  }

  lemma SortedIsDistinct(list: seq<SearchNode>, ref: Id)
    requires Sorted(list, ref)
    ensures forall i, j :: 0 <= i < |list| && 0 <= j < |list| && i != j ==> list[i].id != list[j].id
  {
    hide Nearer;
    forall i, j | 0 <= i < j < |list|
      ensures list[i].id != list[j].id
    {
      NearerIsStrictTotalOrder(list[i].id, list[j].id, ref, ref);
    }
  }

  /** The loop over one search. It goes on behind the entry that moved up, which is none too many: ids are distinct. */
  method FlushId(s: Search, x: Id)
    requires s.Valid() && Sorted(s.Contents(), s.id)
    modifies s`numnodes, s.nodes
    ensures s.Valid() && s.nodes == old(s.nodes) && Sorted(s.Contents(), s.id)
    ensures s.Contents() == WithoutId(old(s.Contents()), x)
  {
    hide Sorted, WithoutId, Remove;
    ghost var list := s.Contents();
    SortedIsDistinct(list, s.id);
    var i := 0;
    while i < s.numnodes
      invariant s.Valid() && s.nodes == old(s.nodes) && Sorted(s.Contents(), s.id)
      invariant || (s.Contents() == list && forall j :: 0 <= j < i && j < |list| ==> list[j].id != x)
                || (s.Contents() == WithoutId(list, x) && forall j :: 0 <= j < s.numnodes ==> s.Contents()[j].id != x)
    {
      assert s.Contents()[i] == s.nodes[i];
      IdCmpIsOrder(s.nodes[i].id, x);
      if IdCmp(s.nodes[i].id, x) == 0 {
        RemoveKeepsSorted(s.Contents(), i, s.id);
        OneToFlush(list, i, x);
        s.FlushSearchNode(i);
      }
      i := i + 1;
    }
    if s.Contents() == list && forall j :: 0 <= j < |list| ==> list[j].id != x {
      NothingToFlush(list, x);
    }
  }

  type SearchCell = ListCell<SearchState>

  ghost predicate SearchOk(s: Search, repr: set<object>)
    reads repr
  {
    s in repr && s.nodes in repr && s.Valid() && Sorted(s.Contents(), s.id)
  }

  ghost predicate SearchesApart(a: Search, b: Search)
    reads a, b
  {
    a != b && a.nodes != b.nodes
  }

  /** The searches in progress: sorted, and held by objects of their own. */
  ghost predicate SearchesOk(cells: seq<SearchCell>, repr: set<object>)
    reads repr
  {
    && (forall i :: 0 <= i < |cells| ==> cells[i] !in repr && cells[i].item !in repr && SearchOk(cells[i].item.search, repr))
    && (forall i, j :: 0 <= i < j < |cells| ==> SearchesApart(cells[i].item.search, cells[j].item.search))
  }

  lemma SearchAt(cells: seq<SearchCell>, repr: set<object>, i: nat)
    requires SearchesOk(cells, repr) && i < |cells|
    ensures SearchOk(cells[i].item.search, repr)
    ensures forall j :: 0 <= j < |cells| && j != i ==>
              SearchOk(cells[j].item.search, repr) && SearchesApart(cells[j].item.search, cells[i].item.search)
  {
    forall j | 0 <= j < |cells| && j != i
      ensures SearchesApart(cells[j].item.search, cells[i].item.search)
    {
      assert if i < j then SearchesApart(cells[i].item.search, cells[j].item.search)
             else SearchesApart(cells[j].item.search, cells[i].item.search);
    }
  }

  /** The contents of all searches, in list order. */
  ghost function SearchContents(cells: seq<SearchCell>, repr: set<object>): (cs: seq<seq<SearchNode>>)
    requires SearchesOk(cells, repr)
    reads repr
    ensures |cs| == |cells|
    ensures forall i :: 0 <= i < |cs| ==> SearchOk(cells[i].item.search, repr) && cs[i] == cells[i].item.search.Contents()
  {
    seq(|cells|, i requires 0 <= i < |cells| && SearchesOk(cells, repr) reads repr => cells[i].item.search.Contents())
  }

  /** Flush a node from the search at place `i`; the others stay as they are. */
  method FlushAt(s: Search, ghost cells: seq<SearchCell>, ghost repr: set<object>, ghost i: nat, x: Id)
    requires SearchesOk(cells, repr) && i < |cells| && cells[i].item.search == s
    modifies repr
    ensures SearchesOk(cells, repr)
    ensures SearchContents(cells, repr) == old(SearchContents(cells, repr))[i := WithoutId(old(SearchContents(cells, repr))[i], x)]
  {
    hide Sorted, WithoutId;
    ghost var cs := SearchContents(cells, repr);
    SearchAt(cells, repr, i);
    assert cs[i] == s.Contents();
    FlushId(s, x);
  }

  /** `done` searches have been flushed. */
  ghost predicate FlushedUpTo(before: seq<seq<SearchNode>>, now: seq<seq<SearchNode>>, done: nat, x: Id)
  {
    |now| == |before| && forall i :: 0 <= i < |now| ==> now[i] == if i < done then WithoutId(before[i], x) else before[i]
  }

  /** The loop over all searches in progress: the node is gone from each, and nothing else is. */
  method FlushFromSearches(list: LinkedList<SearchState>, ghost repr: set<object>, x: Id)
    requires list.Valid() && list !in repr && SearchesOk(list.spine, repr)
    modifies repr
    ensures list.Valid() && list.spine == old(list.spine) && SearchesOk(list.spine, repr)
    ensures FlushedUpTo(old(SearchContents(list.spine, repr)), SearchContents(list.spine, repr), |list.spine|, x)
  {
    hide DhtLists.IsSpine, SearchesOk, WithoutId;
    ghost var cells, before, k := list.spine, SearchContents(list.spine, repr), 0;
    NotInRepr(cells, repr);
    var cell := list.head;
    list.HeadCell();
    while cell != null
      invariant list.Valid() && list.spine == cells && k <= |cells| && cell == list.CellAt(k)
      invariant SearchesOk(cells, repr) && FlushedUpTo(before, SearchContents(cells, repr), k, x)
      decreases |cells| - k
    {
      FlushAt(cell.item.search, cells, repr, k, x);
      list.NextCell(k);
      cell, k := cell.next, k + 1;
    }
  }

  lemma NotInRepr(cells: seq<SearchCell>, repr: set<object>)
    requires SearchesOk(cells, repr)
    ensures forall i :: 0 <= i < |cells| ==> cells[i] !in repr && cells[i].item !in repr
  {
  }

  /**
   `blacklist_node`: the node becomes easy to discard, is flushed from all searches, and its address
   is refused from now on. Without an id only the address is remembered.
   */
  method BlacklistNode(table: RoutingTable, list: LinkedList<SearchState>, ghost repr: set<object>, ring: Blacklist,
                       id: Option<Id>, sa: Addr, now: int)
    requires table.Valid() && list.Valid() && ring.Valid() && IsAddress(sa) && SearchesOk(list.spine, repr)
    requires list !in repr && table.Repr !! repr && list !in table.Repr && ring !in repr && ring !in table.Repr
    requires ring.blacklist !in repr && ring.blacklist !in table.Repr
    requires forall i :: 0 <= i < |list.spine| ==> list.spine[i] !in table.Repr
    modifies table.Repr, repr, ring`next, ring.blacklist
    ensures table.Valid() && table.spine == old(table.spine) && list.Valid() && list.spine == old(list.spine)
    ensures SearchesOk(list.spine, repr) && ring.Valid()
    ensures ring.Now() == Remember(old(ring.Now()), sa) && Listed(ring.Now(), sa)
    ensures table.spine != [] ==>
              table.Abs() == if id.Some? then T.Blacklist(old(table.Abs()), id.value, now) else old(table.Abs())
    ensures id.Some? ==> FlushedUpTo(old(SearchContents(list.spine, repr)), SearchContents(list.spine, repr), |list.spine|, id.value)
    ensures id.None? ==> SearchContents(list.spine, repr) == old(SearchContents(list.spine, repr))
  {
    hide DhtLists.IsSpine, SearchesOk, FlushedUpTo, RoutingTable.Valid, RoutingTable.Owns, RingOk, Remember, Listed, IsAddress;
    ghost var ring0 := ring.Now();
    TableInRepr(table);
    if id.Some? {
      table.BlacklistNode(id.value, now);
      FlushFromSearches(list, repr, id.value);
    }
    ring.Add(sa);
    JustBanned(ring0, sa);
  }

  lemma JustBanned(r: Ring, sa: Addr)
    requires RingOk(r) && IsAddress(sa)
    ensures Listed(Remember(r, sa), sa)
  {
    BannedForTen(r, sa, []);
  }

  lemma TableInRepr(table: RoutingTable)
    requires table.Valid()
    ensures table in table.Repr
  {
  }
}
