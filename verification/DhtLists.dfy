/**
 The two other global lists of the DHT, of searches and of stored hashes, and the loops that
 purge them by unlinking cells behind a trailing pointer (dht.cpp:1146-1164, 1447-1582). A list
 is a chain of cells with the sequence of its cells as a ghost field; a walk is described by the
 cells kept so far and those still ahead, so that dropping a cell and going past one are two
 short methods that both loops share.
 */
module DhtLists {
  import opened DhtId
  import opened DhtSearch
  import opened DhtStorage
  import opened Wrappers

  const SEARCH_EXPIRE_TIME := 62 * 60

  class ListCell<T> {
    const item: T
    var next: ListCell?<T>

    constructor (item: T, next: ListCell?<T>)
      ensures this.item == item && this.next == next
    {
      this.item, this.next := item, next;
    }
  }

  /** `head` starts a null-terminated list of exactly the cells `spine`, all different. */
  ghost predicate IsSpine<T>(head: ListCell?<T>, spine: seq<ListCell<T>>)
    reads spine
  {
    && head == (if spine == [] then null else spine[0])
    && (forall i, j :: 0 <= i < |spine| && j == i + 1 && j < |spine| ==> spine[i].next == spine[j])
    && (spine != [] ==> spine[|spine| - 1].next == null)
    && (forall i, j :: 0 <= i < j < |spine| ==> spine[i] != spine[j])
  }

  class LinkedList<T> {
    var head: ListCell?<T>
    ghost var spine: seq<ListCell<T>>

    ghost predicate Valid()
      reads this, spine
    {
      IsSpine(head, spine)
    }

    /** The cell at place `k`, or null behind the last one. */
    ghost function CellAt(k: nat): ListCell?<T>
      reads this
      requires k <= |spine|
    {
      if k < |spine| then spine[k] else null
    }

    constructor ()
      ensures Valid() && spine == []
    {
      head, spine := null, [];
    }

    method PushFront(item: T) returns (c: ListCell<T>)
      requires Valid()
      modifies this
      ensures Valid() && fresh(c) && c.item == item && spine == [c] + old(spine)
    {
      c := new ListCell(item, head);
      head, spine := c, [c] + spine;
    }

    lemma NextCell(k: nat)
      requires Valid() && k < |spine|
      ensures spine[k].next == CellAt(k + 1)
    {
    }

    /** A walk along the list `s0`, of which `kept` is still there from the first `done` cells: the pointers stand behind those. */
    ghost predicate Walking(previous: ListCell?<T>, cell: ListCell?<T>, s0: seq<ListCell<T>>, kept: seq<ListCell<T>>, done: nat)
      reads this, spine
    {
      && Valid() && done <= |s0| && spine == kept + s0[done..]
      && cell == (if done < |s0| then s0[done] else null)
      && previous == (if kept == [] then null else kept[|kept| - 1])
      && forall c :: c in kept ==> c in s0
    }

    method Start() returns (previous: ListCell?<T>, cell: ListCell?<T>)
      requires Valid()
      ensures Walking(previous, cell, spine, [], 0)
    {
      assert [] + spine[0..] == spine;
      return null, head;
    }

    /** Go past the cell. */
    method Pass(previous: ListCell?<T>, cell: ListCell<T>, ghost s0: seq<ListCell<T>>, ghost kept: seq<ListCell<T>>, ghost done: nat)
      returns (next: ListCell?<T>)
      requires Walking(previous, cell, s0, kept, done)
      ensures Walking(cell, next, s0, kept + [cell], done + 1)
    {
      NextCell(|kept|);
      Moving(kept, s0, done);
      next := cell.next;
    }

    /** Unlink the cell, and go on behind it. */
    method Drop(previous: ListCell?<T>, cell: ListCell<T>, ghost s0: seq<ListCell<T>>, ghost kept: seq<ListCell<T>>, ghost done: nat)
      returns (next: ListCell?<T>)
      requires Walking(previous, cell, s0, kept, done)
      modifies this, spine
      ensures Walking(previous, next, s0, kept, done + 1) && |spine| == |old(spine)| - 1
    {
      hide IsSpine;
      NextCell(|kept|);
      Moving(kept, s0, done);
      next := cell.next;
      Unlink(previous, cell, |kept|);
    }

    lemma WalkDone(previous: ListCell?<T>, s0: seq<ListCell<T>>, kept: seq<ListCell<T>>, done: nat)
      requires Walking(previous, null, s0, kept, done)
      ensures done == |s0| && spine == kept && Valid()
    {
    }

    lemma WalkInside(previous: ListCell?<T>, cell: ListCell?<T>, s0: seq<ListCell<T>>, kept: seq<ListCell<T>>, done: nat)
      requires Walking(previous, cell, s0, kept, done)
      ensures done <= |s0| && (cell != null ==> done < |s0| && cell == s0[done])
      ensures Valid() && forall i :: 0 <= i < |spine| ==> spine[i] in s0
    {
    }

    lemma HeadCell()
      requires Valid()
      ensures head == CellAt(0)
    {
    }

    /** Unlink the cell behind `previous`, which is null for the first one. */
    method Unlink(previous: ListCell?<T>, cell: ListCell<T>, ghost k: nat)
      requires Valid() && k < |spine| && spine[k] == cell
      requires previous == if k == 0 then null else spine[k - 1]
      modifies this, spine
      ensures Valid() && spine == old(spine)[..k] + old(spine)[k + 1..]
    {
      NextCell(k);
      if previous != null {
        previous.next := cell.next;
      } else {
        head := cell.next;
      }
      spine := spine[..k] + spine[k + 1..];
    }
  }

  /** A list being purged: the elements kept so far, then those still to be looked at. */
  lemma Moving<T>(kept: seq<T>, s0: seq<T>, done: nat)
    requires done < |s0|
    ensures var now := kept + s0[done..];
            && |kept| < |now| && now[|kept|] == s0[done] && (kept != [] ==> now[|kept| - 1] == kept[|kept| - 1])
            && now[..|kept|] + now[|kept| + 1..] == kept + s0[done + 1..]
            && kept + [s0[done]] + s0[done + 1..] == now
            && (done + 1 < |s0| ==> |kept| + 1 < |now| && now[|kept| + 1] == s0[done + 1])
  {
    var now := kept + s0[done..];
    assert now[..|kept|] == kept && now[|kept| + 1..] == s0[done + 1..];
  }

  /** The elements whose flag is set, in order. */
  function Keep<T>(xs: seq<T>, flags: seq<bool>): (r: seq<T>)
    requires |xs| == |flags|
    ensures |r| <= |xs|
  {
    if xs == [] then []
    else if flags[0] then [xs[0]] + Keep(xs[1..], flags[1..])
    else Keep(xs[1..], flags[1..])
  }

  // ----- searches -----

  class SearchState {
    const search: Search
    var stepTime: int

    constructor (search: Search, stepTime: int)
    {
      this.search, this.stepTime := search, stepTime;
    }
  }

  /** Whether the searches of these cells are among `states`, and as recent as `flags` says. */
  ghost predicate Judged(states: set<SearchState>, cells: seq<ListCell<SearchState>>, flags: seq<bool>, now: int)
    reads states
  {
    && |flags| == |cells|
    && forall i :: 0 <= i < |cells| ==>
         cells[i].item in states && flags[i] == (cells[i].item.stepTime >= now - SEARCH_EXPIRE_TIME)
  }

  class Searches {
    const list: LinkedList<SearchState>
    var numsearches: nat
    ghost var states: set<SearchState>

    ghost predicate Valid()
      reads this, list, list.spine
    {
      list.Valid() && numsearches == |list.spine| && forall i :: 0 <= i < |list.spine| ==> list.spine[i].item in states
    }

    constructor ()
      ensures Valid() && list.spine == []
    {
      list := new LinkedList();
      numsearches, states := 0, {};
    }

    /** Which searches have been stepped recently. */
    ghost function Recent(now: int): (flags: seq<bool>)
      requires Valid()
      reads this, list, list.spine, states
      ensures |flags| == |list.spine|
      ensures forall i :: 0 <= i < |flags| ==> flags[i] == (list.spine[i].item.stepTime >= now - 3720)
    {
      seq(|list.spine|, i requires 0 <= i < |list.spine| && Valid() reads this, list, list.spine, states =>
        list.spine[i].item.stepTime >= now - SEARCH_EXPIRE_TIME)
    }

    /** One turn of the loop. */
    method ExpireOne(previous: ListCell?<SearchState>, sr: ListCell<SearchState>, now: int,
                     ghost s0: seq<ListCell<SearchState>>, ghost kept: seq<ListCell<SearchState>>, ghost done: nat, ghost flags: seq<bool>)
      returns (previous1: ListCell?<SearchState>, next: ListCell?<SearchState>, ghost kept1: seq<ListCell<SearchState>>)
      requires list.Walking(previous, sr, s0, kept, done) && done < |s0| && sr == s0[done] && Judged(states, s0, flags, now)
      requires numsearches == |list.spine|
      modifies this`numsearches, list, list.spine
      ensures list.Walking(previous1, next, s0, kept1, done + 1) && numsearches == |list.spine|
      ensures kept1 == (if flags[done] then kept + [sr] else kept)
    {
      hide LinkedList.Walking;
      if sr.item.stepTime < now - SEARCH_EXPIRE_TIME {
        next := list.Drop(previous, sr, s0, kept, done);
        previous1, kept1 := previous, kept;
        numsearches := numsearches - 1;
      } else {
        next := list.Pass(previous, sr, s0, kept, done);
        previous1, kept1 := sr, kept + [sr];
      }
    }

    /** `expire_searches` keeps the recent searches, in order. */
    method ExpireSearches(now: int)
      requires Valid()
      modifies this`numsearches, list, list.spine
      ensures Valid() && list.spine == Keep(old(list.spine), old(Recent(now)))
    {
      hide Keep, IsSpine, LinkedList.Walking, Recent, Judged;
      ghost var s0, flags := list.spine, Recent(now);
      assert Judged(states, s0, flags, now) by { RecentJudges(now); }
      ghost var kept: seq<ListCell<SearchState>>, done: nat := [], 0;
      KeepSoFar(kept, s0, flags);
      var previous, sr := list.Start();
      while sr != null
        invariant list.Walking(previous, sr, s0, kept, done) && numsearches == |list.spine| && Judged(states, s0, flags, now)
        invariant done <= |s0| && kept + Keep(s0[done..], flags[done..]) == Keep(s0, flags)
        decreases |s0| - done
      {
        list.WalkInside(previous, sr, s0, kept, done);
        KeepNext(kept, s0, flags, done);
        previous, sr, kept := ExpireOne(previous, sr, now, s0, kept, done, flags);
        done := done + 1;
      }
      list.WalkDone(previous, s0, kept, done);
      KeepNothing(kept, s0, flags);
      KeptStates(states, s0, flags, now);
    }

    lemma RecentJudges(now: int)
      requires Valid()
      ensures Judged(states, list.spine, Recent(now), now)
    {
    }
  }

  lemma KeptStates(states: set<SearchState>, cells: seq<ListCell<SearchState>>, flags: seq<bool>, now: int)
    requires Judged(states, cells, flags, now)
    ensures forall i :: 0 <= i < |Keep(cells, flags)| ==> Keep(cells, flags)[i].item in states
  {
    KeepSubset(cells, flags);
    forall i | 0 <= i < |Keep(cells, flags)|
      ensures Keep(cells, flags)[i].item in states
    {
      assert Keep(cells, flags)[i] in cells;
    }
  }

  lemma KeepSoFar<T>(kept: seq<T>, xs: seq<T>, flags: seq<bool>)
    requires |xs| == |flags| && kept == []
    ensures kept + Keep(xs[0..], flags[0..]) == Keep(xs, flags)
  {
    assert xs[0..] == xs && flags[0..] == flags;
  }

  lemma KeepNext<T>(kept: seq<T>, xs: seq<T>, flags: seq<bool>, k: nat)
    requires |xs| == |flags| && k < |xs|
    ensures kept + Keep(xs[k..], flags[k..]) == (if flags[k] then kept + [xs[k]] else kept) + Keep(xs[k + 1..], flags[k + 1..])
  {
    assert xs[k..][1..] == xs[k + 1..] && flags[k..][1..] == flags[k + 1..];
  }

  lemma KeepSubset<T>(xs: seq<T>, flags: seq<bool>)
    requires |xs| == |flags|
    ensures forall x :: x in Keep(xs, flags) ==> x in xs
  {
  }

  lemma KeepNothing<T>(kept: seq<T>, xs: seq<T>, flags: seq<bool>)
    requires |xs| == |flags|
    ensures kept + Keep(xs[|xs|..], flags[|flags|..]) == kept
  {
  }

  // ----- stored hashes -----

  type StorageCell = ListCell<Storage>

  ghost predicate ItemOk(st: Storage, repr: set<object>)
    reads repr
  {
    st in repr && st.peers in repr && st.Valid()
  }

  ghost predicate Apart(a: Storage, b: Storage)
    reads a, b
  {
    a != b && a.peers != b.peers && a.id != b.id
  }

  /** All hashes are well-formed and different, and so are the objects in `repr` that hold them. */
  ghost predicate ItemsOk(cells: seq<StorageCell>, repr: set<object>)
    reads repr
  {
    && (forall i :: 0 <= i < |cells| ==> cells[i] !in repr && ItemOk(cells[i].item, repr))
    && (forall i, j :: 0 <= i < j < |cells| ==> Apart(cells[i].item, cells[j].item))
  }

  /** Peers stored for each hash, in list order. */
  ghost function PeersOf(cells: seq<StorageCell>, repr: set<object>): (ps: seq<seq<Peer>>)
    requires ItemsOk(cells, repr)
    reads repr
    ensures |ps| == |cells|
    ensures forall i :: 0 <= i < |ps| ==> ItemOk(cells[i].item, repr) && ps[i] == cells[i].item.Contents()
  {
    seq(|cells|, i requires 0 <= i < |cells| && ItemsOk(cells, repr) reads repr => cells[i].item.Contents())
  }

  lemma ItemAt(cells: seq<StorageCell>, repr: set<object>, i: nat)
    requires ItemsOk(cells, repr) && i < |cells|
    ensures cells[i] !in repr && ItemOk(cells[i].item, repr)
  {
  }

  lemma ItemsCons(c: StorageCell, cells: seq<StorageCell>, repr: set<object>, all: set<object>)
    requires ItemsOk(cells, repr) && c.item.Valid() && all == repr + {c.item, c.item.peers}
    requires c.item !in repr && c.item.peers !in repr && c !in all && forall i :: 0 <= i < |cells| ==> cells[i] !in all
    requires forall i :: 0 <= i < |cells| ==> cells[i].item.id != c.item.id
    ensures ItemsOk([c] + cells, all) && PeersOf([c] + cells, all) == [c.item.Contents()] + PeersOf(cells, repr)
  {
    hide Storage.Valid;
    var s := [c] + cells;
    assert forall i :: 1 <= i < |s| ==> s[i] == cells[i - 1];
    forall i | 0 <= i < |s|
      ensures s[i] !in all && ItemOk(s[i].item, all)
    {
      if i > 0 {
        ItemAt(cells, repr, i - 1);
      }
    }
    forall i, j | 0 <= i < j < |s|
      ensures Apart(s[i].item, s[j].item)
    {
      ItemAt(cells, repr, j - 1);
      assert i > 0 ==> Apart(cells[i - 1].item, cells[j - 1].item);
    }
  }

  lemma OthersApart(cells: seq<StorageCell>, repr: set<object>, i: nat)
    requires ItemsOk(cells, repr) && i < |cells|
    ensures forall j :: 0 <= j < |cells| && j != i ==>
              cells[j] !in repr && ItemOk(cells[j].item, repr) && Apart(cells[j].item, cells[i].item) && Readable(cells[j].item)
    ensures forall j, k :: 0 <= j < k < |cells| && j != i && k != i ==> Apart(cells[j].item, cells[k].item)
  {
  }

  /** All items but one are as they were, and that one is well-formed and still apart from them. */
  lemma OneItemChanged(cells: seq<StorageCell>, repr: set<object>, i: nat, ps0: seq<seq<Peer>>)
    requires i < |cells| == |ps0| && cells[i] !in repr && ItemOk(cells[i].item, repr)
    requires forall j :: 0 <= j < |cells| && j != i ==>
               cells[j] !in repr && ItemOk(cells[j].item, repr) && Apart(cells[j].item, cells[i].item)
               && Readable(cells[j].item) && cells[j].item.Contents() == ps0[j]
    requires forall j, k :: 0 <= j < k < |cells| && j != i && k != i ==> Apart(cells[j].item, cells[k].item)
    requires Readable(cells[i].item)
    ensures ItemsOk(cells, repr) && PeersOf(cells, repr) == ps0[i := cells[i].item.Contents()]
  {
    hide Storage.Valid;
    forall j, k | 0 <= j < k < |cells|
      ensures Apart(cells[j].item, cells[k].item)
    {
      assert j == i ==> Apart(cells[k].item, cells[i].item);
    }
  }

  ghost predicate Readable(st: Storage)
    reads st
  {
    st.numpeers <= st.peers.Length
  }

  /** The first `done` lists of peers have been purged, the others are as they were. */
  ghost predicate Purged(ps0: seq<seq<Peer>>, ps: seq<seq<Peer>>, done: nat, now: int)
  {
    && |ps| == |ps0|
    && (forall i :: 0 <= i < done && i < |ps| ==> multiset(ps[i]) == multiset(FreshPeers(ps0[i], now)))
    && (forall i :: done <= i < |ps| ==> ps[i] == ps0[i])
  }

  function Nonempty(ps: seq<seq<Peer>>): (flags: seq<bool>)
    ensures |flags| == |ps| && forall i :: 0 <= i < |ps| ==> flags[i] == (ps[i] != [])
  {
    seq(|ps|, i requires 0 <= i < |ps| => ps[i] != [])
  }

  lemma NothingPurged(s0: seq<StorageCell>, ps0: seq<seq<Peer>>, now: int)
    requires |s0| == |ps0|
    ensures Purged(ps0, ps0, 0, now) && Keep(s0[..0], Nonempty(ps0)[..0]) == []
  {
  }

  lemma OnePurged(s0: seq<StorageCell>, ps0: seq<seq<Peer>>, ps: seq<seq<Peer>>, ps1: seq<seq<Peer>>, k: nat, now: int)
    requires |s0| == |ps0| && k < |ps0| && Purged(ps0, ps, k, now) && |ps1| == |ps| && ps1 == ps[k := ps1[k]]
    requires multiset(ps1[k]) == multiset(FreshPeers(ps[k], now))
    ensures Purged(ps0, ps1, k + 1, now)
    ensures Keep(s0[..k + 1], Nonempty(ps1)[..k + 1])
         == Keep(s0[..k], Nonempty(ps)[..k]) + if ps1[k] != [] then [s0[k]] else []
  {
    hide FreshPeers;
    assert s0[..k + 1] == s0[..k] + [s0[k]];
    assert Nonempty(ps1)[..k + 1] == Nonempty(ps)[..k] + [ps1[k] != []];
    KeepSnoc(s0[..k], Nonempty(ps)[..k], s0[k], ps1[k] != []);
  }

  lemma AllPurged(ps0: seq<seq<Peer>>, ps: seq<seq<Peer>>, now: int)
    requires Purged(ps0, ps, |ps0|, now)
    ensures |ps| == |ps0| && forall i :: 0 <= i < |ps| ==> multiset(ps[i]) == multiset(FreshPeers(ps0[i], now))
  {
  }

  lemma {:induction false} KeepSnoc<T>(xs: seq<T>, flags: seq<bool>, x: T, f: bool)
    requires |xs| == |flags|
    ensures Keep(xs + [x], flags + [f]) == Keep(xs, flags) + if f then [x] else []
    decreases |xs|
  {
    if xs == [] {
      assert [x][1..] == [];
    } else {
      assert (xs + [x])[1..] == xs[1..] + [x] && (flags + [f])[1..] == flags[1..] + [f];
      KeepSnoc(xs[1..], flags[1..], x, f);
    }
  }

  /** The cells kept hold what they held. */
  lemma {:induction false} KeepItems(cells: seq<StorageCell>, flags: seq<bool>, repr: set<object>)
    requires ItemsOk(cells, repr) && |flags| == |cells|
    ensures ItemsOk(Keep(cells, flags), repr)
    ensures PeersOf(Keep(cells, flags), repr) == Keep(PeersOf(cells, repr), flags)
    decreases |cells|
  {
    if cells != [] {
      hide Storage.Valid;
      var rest := cells[1..];
      ItemsTail(cells, repr);
      KeepItems(rest, flags[1..], repr);
      if flags[0] {
        var k := Keep(rest, flags[1..]);
        KeepSubset(rest, flags[1..]);
        forall j | 0 <= j < |k|
          ensures Apart(cells[0].item, k[j].item)
        {
          assert k[j] in rest;
          var i :| 0 <= i < |rest| && rest[i] == k[j];
          assert cells[i + 1] == k[j];
        }
        ItemsHead(cells[0], k, repr);
      }
    }
  }

  lemma ItemsTail(cells: seq<StorageCell>, repr: set<object>)
    requires ItemsOk(cells, repr) && cells != []
    ensures ItemsOk(cells[1..], repr) && PeersOf(cells[1..], repr) == PeersOf(cells, repr)[1..]
  {
    hide Storage.Valid;
    var rest := cells[1..];
    forall i, j | 0 <= i < j < |rest|
      ensures Apart(rest[i].item, rest[j].item)
    {
      assert Apart(cells[i + 1].item, cells[j + 1].item);
    }
  }

  lemma ItemsHead(c: StorageCell, cells: seq<StorageCell>, repr: set<object>)
    requires ItemsOk(cells, repr) && c !in repr && ItemOk(c.item, repr) && Readable(c.item)
    requires forall j :: 0 <= j < |cells| ==> Apart(c.item, cells[j].item)
    ensures ItemsOk([c] + cells, repr) && PeersOf([c] + cells, repr) == [c.item.Contents()] + PeersOf(cells, repr)
  {
    hide Storage.Valid;
    var s := [c] + cells;
    forall i, j | 0 <= i < j < |s|
      ensures Apart(s[i].item, s[j].item)
    {
      assert i > 0 ==> Apart(cells[i - 1].item, cells[j - 1].item);
    }
    forall i | 0 <= i < |s|
      ensures s[i] !in repr && ItemOk(s[i].item, repr)
    {
      assert i > 0 ==> s[i] == cells[i - 1];
    }
  }

  /** What becomes of the peers of a hash when `who` announces itself. */
  function Stored(ps: seq<Peer>, who: Endpoint, now: int): (r: seq<Peer>)
  {
    var k := FirstPeer(ps, who);
    if k < |ps| then ps[k := Peer(who, now)]
    else if |ps| < MAX_PEERS then ps + [Peer(who, now)]
    else ps
  }

  function FirstCell(cells: seq<StorageCell>, id: Id): (k: nat)
    ensures k <= |cells| && (k < |cells| ==> cells[k].item.id == id)
    ensures forall i :: 0 <= i < k ==> cells[i].item.id != id
  {
    if cells == [] || cells[0].item.id == id then 0 else 1 + FirstCell(cells[1..], id)
  }

  class StorageTable {
    const list: LinkedList<Storage>
    var numstorage: nat
    /** The stored hashes and their peer arrays. */
    ghost var Repr: set<object>

    ghost predicate Valid()
      reads this, list, list.spine, Repr
    {
      && list.Valid() && numstorage == |list.spine| <= MAX_HASHES
      && list !in Repr && this !in Repr && ItemsOk(list.spine, Repr)
    }

    constructor ()
      ensures Valid() && list.spine == []
    {
      list := new LinkedList();
      numstorage := 0;
      Repr := {};
    }

    ghost function Peers(): (ps: seq<seq<Peer>>)
      requires Valid()
      reads this, list, list.spine, Repr
    {
      PeersOf(list.spine, Repr)
    }

    /** The first place of a hash in the list. */
    ghost function Position(id: Id): (k: nat)
      reads this, list
      ensures k <= |list.spine|
    {
      FirstCell(list.spine, id)
    }

    /** `find_storage`. */
    method FindStorage(id: Id) returns (st: Storage?, ghost k: nat)
      requires Valid()
      ensures k == Position(id)
      ensures st == null <==> k == |list.spine|
      ensures st != null ==> st == list.spine[k].item
    {
      hide ItemsOk, IsSpine;
      var cell := list.head;
      list.HeadCell();
      k := 0;
      while cell != null && cell.item.id != id
        invariant k <= |list.spine| && cell == list.CellAt(k)
        invariant forall i :: 0 <= i < k ==> list.spine[i].item.id != id
        decreases |list.spine| - k
      {
        list.NextCell(k);
        cell, k := cell.next, k + 1;
      }
      if cell == null {
        return null, k;
      }
      return cell.item, k;
    }

    /** Refresh or add a peer under the hash at place `i`; all others stay as they are. */
    method StoreAt(st: Storage, ghost i: nat, who: Endpoint, now: int) returns (rc: int)
      requires Valid() && i < |list.spine| && list.spine[i].item == st
      modifies this, Repr
      ensures Valid() && list.spine == old(list.spine) && numstorage == old(numstorage) && fresh(Repr - old(Repr))
      ensures rc == if |Stored(old(Peers())[i], who, now)| > |old(Peers())[i]| then 1 else 0
      ensures Peers() == old(Peers())[i := Stored(old(Peers())[i], who, now)]
    {
      hide Storage.Valid, IsSpine, Stored, FirstPeer, ItemsOk;
      ghost var cells, ps0, repr0 := list.spine, Peers(), Repr;
      ItemAt(cells, Repr, i);
      st.Bounded();
      assert ps0[i] == st.Contents();
      OthersApart(cells, Repr, i);
      rc := StoreInto(st, who, now);
      Repr := Repr + {st.peers};
      OneItemChanged(cells, Repr, i, ps0);
    }

    /** `StorePeer` by its effect on the list of peers. */
    static method StoreInto(st: Storage, who: Endpoint, now: int) returns (rc: int)
      requires st.Valid() && st.numpeers <= st.peers.Length
      modifies st, st.peers
      ensures st.Valid() && st.numpeers <= st.peers.Length && (st.peers == old(st.peers) || fresh(st.peers))
      ensures st.Contents() == Stored(old(st.Contents()), who, now)
      ensures rc == if |st.Contents()| > |old(st.Contents())| then 1 else 0
    {
      st.Bounded();
      rc := st.StorePeer(who, now);
      st.Bounded();
    }

    /** Put a new hash in front. */
    method AddHash(id: Id) returns (st: Storage)
      requires Valid() && numstorage < MAX_HASHES && Position(id) == |list.spine|
      modifies this, list
      ensures Valid() && numstorage == old(numstorage) + 1 && fresh(Repr - old(Repr)) && fresh(st)
      ensures |list.spine| > 0 && list.spine[0].item == st && st.id == id
      ensures list.spine[1..] == old(list.spine) && Peers() == [[]] + old(Peers())
    {
      hide Storage.Valid, IsSpine, ItemsOk, PeersOf;
      ghost var s0, repr0 := list.spine, Repr;
      assert forall i :: 0 <= i < |s0| ==> s0[i] !in Repr by { AllCells(s0, Repr); }
      st := new Storage(id);
      var c := list.PushFront(st);
      numstorage := numstorage + 1;
      Repr := Repr + {st, st.peers};
      ItemsCons(c, s0, repr0, Repr);
    }

    /** Purge the peers of the hash at place `i` of the cells there were at the start. */
    method PurgeAt(st: Storage, ghost cells: seq<StorageCell>, ghost i: nat, now: int)
      requires ItemsOk(cells, Repr) && i < |cells| && cells[i].item == st && this !in Repr && list !in Repr
      modifies Repr
      ensures ItemsOk(cells, Repr) && Readable(st)
      ensures PeersOf(cells, Repr) == old(PeersOf(cells, Repr))[i := st.Contents()]
      ensures multiset(st.Contents()) == multiset(FreshPeers(old(PeersOf(cells, Repr))[i], now))
    {
      hide Storage.Valid, FreshPeers, ItemsOk;
      ghost var ps0 := PeersOf(cells, Repr);
      ItemAt(cells, Repr, i);
      st.Bounded();
      assert ps0[i] == st.Contents();
      OthersApart(cells, Repr, i);
      st.ExpirePeers(now);
      st.Bounded();
      OneItemChanged(cells, Repr, i, ps0);
    }

    /** One turn of the loop: purge a hash, and unlink it if nothing is left. */
    method ExpireHash(previous: ListCell?<Storage>, cell: StorageCell, now: int,
                      ghost s0: seq<StorageCell>, ghost kept: seq<StorageCell>, ghost done: nat)
      returns (previous1: ListCell?<Storage>, next: ListCell?<Storage>, ghost kept1: seq<StorageCell>)
      requires list.Walking(previous, cell, s0, kept, done) && done < |s0| && cell == s0[done]
      requires ItemsOk(s0, Repr) && this !in Repr && list !in Repr && numstorage == |list.spine|
      modifies this`numstorage, list, list.spine, Repr
      ensures list.Walking(previous1, next, s0, kept1, done + 1) && numstorage == |list.spine|
      ensures ItemsOk(s0, Repr) && Readable(cell.item)
      ensures PeersOf(s0, Repr) == old(PeersOf(s0, Repr))[done := cell.item.Contents()]
      ensures multiset(cell.item.Contents()) == multiset(FreshPeers(old(PeersOf(s0, Repr))[done], now))
      ensures kept1 == if cell.item.Contents() != [] then kept + [cell] else kept
    {
      hide ItemsOk, LinkedList.Walking, Storage.Valid, FreshPeers;
      AllCells(s0, Repr);
      list.WalkInside(previous, cell, s0, kept, done);
      PurgeAt(cell.item, s0, done, now);
      if cell.item.numpeers == 0 {
        next := list.Drop(previous, cell, s0, kept, done);
        previous1, kept1 := previous, kept;
        numstorage := numstorage - 1;
      } else {
        next := list.Pass(previous, cell, s0, kept, done);
        previous1, kept1 := cell, kept + [cell];
      }
    }

    /**
     `expire_storage`: of every hash exactly the fresh peers are left, in some order, and the
     hashes without any are unlinked; the others keep their order.
     */
    method ExpireStorage(now: int) returns (ghost left: seq<seq<Peer>>)
      requires Valid()
      modifies this`numstorage, list, list.spine, Repr
      ensures Valid()
      ensures |left| == |old(list.spine)|
      ensures forall i :: 0 <= i < |left| ==> multiset(left[i]) == multiset(FreshPeers(old(Peers())[i], now))
      ensures list.spine == Keep(old(list.spine), Nonempty(left)) && Peers() == Keep(left, Nonempty(left))
    {
      hide ItemsOk, IsSpine, LinkedList.Walking, Keep, Storage.Valid, Purged, PeersOf;
      ghost var s0, ps0, kept: seq<StorageCell>, done: nat := list.spine, Peers(), [], 0;
      left := ps0;
      NothingPurged(s0, ps0, now);
      var previous, cell := list.Start();
      while cell != null
        invariant list.Walking(previous, cell, s0, kept, done) && numstorage == |list.spine|
        invariant done <= |s0| && ItemsOk(s0, Repr) && left == PeersOf(s0, Repr)
        invariant Purged(ps0, left, done, now) && kept == Keep(s0[..done], Nonempty(left)[..done])
        decreases |s0| - done
      {
        list.WalkInside(previous, cell, s0, kept, done);
        AllCells(s0, Repr);
        ghost var before := left;
        previous, cell, kept := ExpireHash(previous, cell, now, s0, kept, done);
        left := PeersOf(s0, Repr);
        OnePurged(s0, ps0, before, left, done, now);
        done := done + 1;
      }
      list.WalkDone(previous, s0, kept, done);
      assert s0[..done] == s0 && Nonempty(left)[..done] == Nonempty(left);
      AllPurged(ps0, left, now);
      KeepItems(s0, Nonempty(left), Repr);
    }

    method StoreNew(id: Id, who: Endpoint, now: int) returns (rc: int)
      requires Valid() && numstorage < MAX_HASHES && Position(id) == |list.spine|
      modifies this, list, Repr
      ensures Valid() && fresh(Repr - old(Repr)) && rc == 1
      ensures |list.spine| > 0 && list.spine[1..] == old(list.spine) && list.spine[0].item.id == id
      ensures Peers() == [[Peer(who, now)]] + old(Peers())
    {
      hide ItemsOk, PeersOf, FirstCell, IsSpine, Stored;
      ghost var ps0 := Peers();
      var st := AddHash(id);
      FirstStored(ps0, who, now);
      rc := StoreAt(st, 0, who, now);
    }

    /** `storage_store`: find the hash, or put it in front unless 16384 are stored already; then store the peer there. */
    method StorageStore(id: Id, who: Endpoint, now: int) returns (rc: int)
      requires Valid()
      modifies this, list, Repr
      ensures Valid() && fresh(Repr - old(Repr))
      ensures var k := old(Position(id));
              && (k < |old(list.spine)| ==>
                    && list.spine == old(list.spine) && rc == (if |Stored(old(Peers())[k], who, now)| > |old(Peers())[k]| then 1 else 0)
                    && Peers() == old(Peers())[k := Stored(old(Peers())[k], who, now)])
              && (k == |old(list.spine)| && old(numstorage) < 16384 ==>
                    && rc == 1 && |list.spine| > 0 && list.spine[1..] == old(list.spine) && list.spine[0].item.id == id
                    && Peers() == [[Peer(who, now)]] + old(Peers()))
              && (k == |old(list.spine)| && old(numstorage) >= 16384 ==>
                    rc == -1 && list.spine == old(list.spine) && Peers() == old(Peers()))
    {
      hide ItemsOk, PeersOf, FirstCell, Stored, IsSpine;
      var st, k := FindStorage(id);
      if st != null {
        rc := StoreAt(st, k, who, now);
      } else {
        if numstorage >= MAX_HASHES {
          return -1;
        }
        rc := StoreNew(id, who, now);
      }
    }
  }

  lemma FirstStored(ps: seq<seq<Peer>>, who: Endpoint, now: int)
    ensures Stored([], who, now) == [Peer(who, now)]
    ensures ([[]] + ps)[0 := [Peer(who, now)]] == [[Peer(who, now)]] + ps
  {
  }

  lemma AllCells(cells: seq<StorageCell>, repr: set<object>)
    requires ItemsOk(cells, repr)
    ensures forall i :: 0 <= i < |cells| ==> cells[i] !in repr
  {
  }
}
