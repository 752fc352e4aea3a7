/**
 A search in progress: a fixed array of 14 slots kept sorted by XOR distance to the target,
 with insertion and removal by shifting entries in place. The functions on lists say what a
 sighting, a flush and a restart do; the class carries them out on the array and is proved to
 leave exactly the list that the function gives.
 */
module DhtSearch {
  import opened DhtId
  import opened DhtClosest
  import opened Wrappers

  const SEARCH_NODES := 14
  const TOKEN_LIMIT := 40

  /** What a search remembers about a node beside its id. */
  datatype Progress = Progress(ss: seq<bv8>, requestTime: int, replyTime: int, pinged: int,
                               token: seq<bv8>, replied: bool, acked: bool)

  type SearchNode = Entry<Progress>

  const BLANK := Progress([], 0, 0, 0, [], false, false)

  /** One call of `insert_search_node`. */
  datatype Sighting = Sighting(id: Id, ss: seq<bv8>, replied: bool, token: Option<seq<bv8>>, now: int)

  function Touch(p: Progress, s: Sighting): Progress
  {
    var p1 := p.(ss := s.ss);
    var p2 := if s.replied then p1.(replied := true, replyTime := s.now, requestTime := 0, pinged := 0) else p1;
    if s.token.Some? && |s.token.value| < TOKEN_LIMIT then p2.(token := s.token.value) else p2
  }

  /** The effect of `insert_search_node` (dht.cpp:1073) on the list. */
  function Sight(list: seq<SearchNode>, s: Sighting, target: Id): (r: seq<SearchNode>)
  {
    var i := Slot(list, s.id, target);
    if Present(list, s.id, target) then list[i := Entry(s.id, Touch(list[i].data, s))]
    else Place(list, Entry(s.id, Touch(BLANK, s)), target, SEARCH_NODES)
  }

  lemma UpdateKeepsIds(list: seq<SearchNode>, i: nat, e: SearchNode)
    requires i < |list| && e.id == list[i].id
    ensures IdsOf(list[i := e]) == IdsOf(list)
  {
    var r := list[i := e];
    forall j | 0 <= j < |list|
      ensures r[j].id == list[j].id
    {
    }
  }

  /** Sightings keep the list the sorted list of the 14 nearest ids seen. */
  lemma SightKeepsClosest(list: seq<SearchNode>, s: Sighting, seen: set<Id>, target: Id)
    requires IsClosest(list, seen, target, 14)
    ensures IsClosest(Sight(list, s, target), seen + {s.id}, target, 14)
  {
    hide Nearer, IdsOf, Place;
    var i := Slot(list, s.id, target);
    SlotSeparates(list, s.id, target);
    if Present(list, s.id, target) {
      UpdateKeepsIds(list, i, Entry(s.id, Touch(list[i].data, s)));
    } else {
      PlaceKeepsClosest(list, Entry(s.id, Touch(BLANK, s)), seen, target, SEARCH_NODES);
    }
  }

  /** What a sighting leaves of an entry: a short token and the signs of an answer are taken over, everything else is kept. */
  lemma SightedEntry(list: seq<SearchNode>, s: Sighting, target: Id)
    requires |list| <= 14
    ensures var i, r := Slot(list, s.id, target), Sight(list, s, target);
            var p := if Present(list, s.id, target) then list[i].data else Progress([], 0, 0, 0, [], false, false);
            i < 14 ==>
              && i < |r|
              && r[i] == Entry(s.id, Progress(s.ss,
                                              if s.replied then 0 else p.requestTime,
                                              if s.replied then s.now else p.replyTime,
                                              if s.replied then 0 else p.pinged,
                                              if s.token.Some? && |s.token.value| < 40 then s.token.value else p.token,
                                              p.replied || s.replied, p.acked))
              && (forall j :: 0 <= j < i ==> r[j] == list[j])
              && (Present(list, s.id, target) ==> |r| == |list| && forall j :: i < j < |r| ==> r[j] == list[j])
              && (!Present(list, s.id, target) ==> forall j :: i < j < |r| ==> r[j] == list[j - 1])
  {
    hide Nearer, Slot;
  }

  function SightAll(ss: seq<Sighting>, target: Id): (list: seq<SearchNode>)
    decreases |ss|
  {
    if ss == [] then [] else Sight(SightAll(ss[..|ss| - 1], target), ss[|ss| - 1], target)
  }

  function SeenIds(ss: seq<Sighting>): (r: set<Id>)
    ensures forall id :: id in r <==> exists i :: 0 <= i < |ss| && ss[i].id == id
  {
    set i | 0 <= i < |ss| :: ss[i].id
  }

  /** After any sequence of sightings the array holds exactly the 14 nearest distinct ids seen, nearest first. */
  lemma {:induction false} SearchHoldsClosest(ss: seq<Sighting>, target: Id)
    ensures IsClosest(SightAll(ss, target), SeenIds(ss), target, 14)
    decreases |ss|
  {
    hide Nearer, Sight, IdsOf, SeenIds;
    if ss == [] {
      assert SightAll(ss, target) == [];
    } else {
      var init := ss[..|ss| - 1];
      SearchHoldsClosest(init, target);
      SightKeepsClosest(SightAll(init, target), ss[|ss| - 1], SeenIds(init), target);
      SeenIdsStep(ss);
    }
  }

  lemma SeenIdsStep(ss: seq<Sighting>)
    requires |ss| > 0
    ensures SeenIds(ss) == SeenIds(ss[..|ss| - 1]) + {ss[|ss| - 1].id}
  {
    var init := ss[..|ss| - 1];
    forall x | x in SeenIds(init) + {ss[|ss| - 1].id}
      ensures x in SeenIds(ss)
    {
      if x in SeenIds(init) {
        var i :| 0 <= i < |init| && init[i].id == x;
        assert ss[i].id == x;
      }
    }
    forall x | x in SeenIds(ss)
      ensures x in SeenIds(init) + {ss[|ss| - 1].id}
    {
      var i :| 0 <= i < |ss| && ss[i].id == x;
      assert i < |init| ==> init[i].id == x;
    }
  }

  // ----- restarting a search (dht.cpp:1396) -----

  predicate Doubtful(p: Progress, now: int)
  {
    p.pinged >= 3 || p.replyTime < now - 7200
  }

  function Reset(p: Progress): Progress
  {
    p.(pinged := 0, token := [], replied := false, acked := false)
  }

  /** The entries a restart keeps, in order and reset. */
  function Restarted(list: seq<SearchNode>, now: int): (r: seq<SearchNode>)
  {
    if list == [] then []
    else (if Doubtful(list[0].data, now) then [] else [Entry(list[0].id, Reset(list[0].data))]) + Restarted(list[1..], now)
  }

  lemma {:induction false} RestartedSplit(a: seq<SearchNode>, b: seq<SearchNode>, now: int)
    ensures Restarted(a + b, now) == Restarted(a, now) + Restarted(b, now)
  {
    if a == [] {
      assert a + b == b;
    } else {
      assert (a + b)[1..] == a[1..] + b;
      RestartedSplit(a[1..], b, now);
    }
  }

  /** Flushing a doubtful entry, or resetting a sound one, leaves the outcome of the restart as it was. */
  lemma RestartStep(list: seq<SearchNode>, i: nat, now: int)
    requires i < |list|
    ensures Doubtful(list[i].data, now) ==> Restarted(Remove(list, i), now) == Restarted(list, now)
    ensures !Doubtful(list[i].data, now) ==>
      Restarted(list[i := Entry(list[i].id, Reset(list[i].data))], now) == Restarted(list, now)
  {
    var a, e, b := list[..i], list[i], list[i + 1..];
    var e1 := Entry(e.id, Reset(e.data));
    assert list == a + ([e] + b);
    RestartedSplit(a, [e] + b, now);
    RestartedSplit(a, b, now);
    assert list[i := e1] == a + ([e1] + b);
    RestartedSplit(a, [e1] + b, now);
    assert ([e] + b)[1..] == b && ([e1] + b)[1..] == b;
  }

  lemma {:induction false} RestartedClean(list: seq<SearchNode>, now: int)
    requires forall k :: 0 <= k < |list| ==> !Doubtful(list[k].data, now) && list[k].data == Reset(list[k].data)
    ensures Restarted(list, now) == list
  {
    if list != [] {
      RestartedClean(list[1..], now);
    }
  }

  /** A restart loses no order: what is left is a sorted list of ids that were there. */
  lemma {:induction false} RestartKeepsSorted(list: seq<SearchNode>, now: int, target: Id)
    requires Sorted(list, target)
    ensures Sorted(Restarted(list, now), target)
    ensures forall e :: e in Restarted(list, now) ==> exists o :: o in list && !Doubtful(o.data, now) && e == Entry(o.id, Reset(o.data))
  {
    hide Nearer;
    if list != [] {
      RestartKeepsSorted(list[1..], now, target);
      var rest := Restarted(list[1..], now);
      forall e | e in rest
        ensures exists o :: o in list && !Doubtful(o.data, now) && e == Entry(o.id, Reset(o.data)) && Nearer(list[0].id, e.id, target) < 0
      {
        var o :| o in list[1..] && !Doubtful(o.data, now) && e == Entry(o.id, Reset(o.data));
        assert o in list;
      }
    }
  }

  /** A restart keeps exactly the nodes with fewer than three unanswered requests that answered within two hours, and clears what the last round left. */
  lemma {:induction false} RestartKeeps(list: seq<SearchNode>, now: int, e: SearchNode)
    ensures e in Restarted(list, now) <==>
            exists o :: o in list && o.data.pinged < 3 && o.data.replyTime >= now - 7200
                        && e == Entry(o.id, Progress(o.data.ss, o.data.requestTime, o.data.replyTime, 0, [], false, false))
  {
    if list != [] {
      RestartKeeps(list[1..], now, e);
      assert forall o :: o in list <==> o == list[0] || o in list[1..];
    }
  }

  /** Elements shifted up by one from `i` on, with a new one at `i`: insertion, cut off at `cap`. */
  lemma ShiftedIn<T>(before: seq<T>, after: seq<T>, i: nat, cap: nat)
    requires i <= |before| <= cap && i < cap && |after| == if |before| < cap then |before| + 1 else cap
    requires forall j :: 0 <= j < i ==> after[j] == before[j]
    requires forall j :: i < j < |after| ==> after[j] == before[j - 1]
    ensures after == Take(before[..i] + [after[i]] + before[i..], cap)
  {
  }

  class Search {
    const id: Id
    const af: int
    var numnodes: nat
    var nodes: array<SearchNode>

    ghost predicate Valid()
      reads this
    {
      nodes.Length == SEARCH_NODES && numnodes <= SEARCH_NODES
    }

    ghost function Contents(): (list: seq<SearchNode>)
      requires Valid()
      reads this, nodes
      ensures |list| == numnodes
    {
      nodes[..numnodes]
    }

    constructor (id: Id, af: int)
      ensures Valid() && fresh(nodes) && Contents() == [] && this.id == id && this.af == af
    {
      this.id, this.af := id, af;
      numnodes := 0;
      nodes := new SearchNode[SEARCH_NODES](_ => Entry(id, BLANK));
    }

    /** The search loop of `insert_search_node` (dht.cpp:1086). */
    method FindSlot(key: Id) returns (i: nat, found: bool)
      requires Valid()
      ensures i == Slot(Contents(), key, id) && found == Present(Contents(), key, id)
    {
      hide Nearer, IdCmp, Slot;
      i, found := 0, false;
      while i < numnodes
        invariant i <= numnodes && !found
        invariant forall j :: 0 <= j < i ==> nodes[j].id != key && Nearer(key, nodes[j].id, id) >= 0
      {
        IdCmpIsOrder(key, nodes[i].id);
        if IdCmp(key, nodes[i].id) == 0 {
          found := true;
          break;
        }
        var c := XorCmp(key, nodes[i].id, id);
        if c < 0 {
          break;
        }
        i := i + 1;
      }
      SlotLeast(Contents(), key, id, i);
    }

    /** `insert_search_node` (dht.cpp:1073). It returns false for the wrong family and for a node farther than a full list. */
    method InsertSearchNode(s: Sighting, family: int) returns (ok: bool)
      requires Valid()
      modifies this`numnodes, nodes
      ensures Valid() && nodes == old(nodes)
      ensures family != af ==> !ok && Contents() == old(Contents())
      ensures family == af ==> Contents() == Sight(old(Contents()), s, id)
      ensures family == af ==> (ok <==> Slot(old(Contents()), s.id, id) < 14)
    {
      if family != af {
        return false;
      }
      hide Nearer, Slot, Touch;
      ghost var before := Contents();
      var i, found := FindSlot(s.id);
      if found {
        nodes[i] := nodes[i].(data := Touch(nodes[i].data, s));
        return true;
      }
      if i == SEARCH_NODES {
        return false;
      }
      MakeRoom(i);
      nodes[i] := Entry(s.id, Touch(BLANK, s));
      ShiftedIn(before, Contents(), i, SEARCH_NODES);
      return true;
    }

    /** Shift the entries from `i` on one slot up; the last one of a full array is overwritten. */
    method MakeRoom(i: nat)
      requires Valid() && i <= numnodes && i < SEARCH_NODES
      modifies this`numnodes, nodes
      ensures Valid() && nodes == old(nodes)
      ensures numnodes == if old(numnodes) < SEARCH_NODES then old(numnodes) + 1 else old(numnodes)
      ensures forall j :: 0 <= j < i ==> nodes[j] == old(nodes[j])
      ensures forall j :: i < j < numnodes ==> nodes[j] == old(nodes[j - 1])
    {
      if numnodes < SEARCH_NODES {
        numnodes := numnodes + 1;
      }
      var j := numnodes - 1;
      ghost var n := numnodes;
      while j > i
        invariant Valid() && nodes == old(nodes) && numnodes == n && i <= j < n
        invariant forall k :: 0 <= k <= j ==> nodes[k] == old(nodes[k])
        invariant forall k :: j < k < numnodes ==> nodes[k] == old(nodes[k - 1])
      {
        nodes[j] := nodes[j - 1];
        j := j - 1;
      }
    }

    /** `flush_search_node` (dht.cpp:1135). */
    method FlushSearchNode(i: nat)
      requires Valid() && i < numnodes
      modifies this`numnodes, nodes
      ensures Valid() && nodes == old(nodes)
      ensures Contents() == Remove(old(Contents()), i)
    {
      var j := i;
      while j < numnodes - 1
        invariant Valid() && nodes == old(nodes) && numnodes == old(numnodes) && i <= j <= numnodes - 1
        invariant forall k :: 0 <= k < i ==> nodes[k] == old(nodes[k])
        invariant forall k :: i <= k < j ==> nodes[k] == old(nodes[k + 1])
        invariant forall k :: j <= k < numnodes ==> nodes[k] == old(nodes[k])
      {
        nodes[j] := nodes[j + 1];
        j := j + 1;
      }
      numnodes := numnodes - 1;
    }

    /** The `again:` loop of `dht_search` (dht.cpp:1396): it starts over after every flush and still ends, having kept and reset exactly the sound entries. */
    method Restart(now: int)
      requires Valid()
      modifies this`numnodes, nodes
      ensures Valid() && nodes == old(nodes)
      ensures Contents() == Restarted(old(Contents()), now)
    {
      var i := 0;
      while i < numnodes
        invariant Valid() && nodes == old(nodes) && i <= numnodes
        invariant forall k :: 0 <= k < i ==> !Doubtful(nodes[k].data, now) && nodes[k].data == Reset(nodes[k].data)
        invariant Restarted(Contents(), now) == Restarted(old(Contents()), now)
        decreases numnodes, numnodes - i
      {
        ghost var list := Contents();
        RestartStep(list, i, now);
        if nodes[i].data.pinged >= 3 || nodes[i].data.replyTime < now - 7200 {
          FlushSearchNode(i);
          i := 0;
        } else {
          nodes[i] := nodes[i].(data := Reset(nodes[i].data));
          assert Contents() == list[i := Entry(list[i].id, Reset(list[i].data))];
          i := i + 1;
        }
      }
      RestartedClean(Contents(), now);
    }
  }
}
