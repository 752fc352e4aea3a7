/**
 Bounded lists of the ids nearest to a reference point. Searches keep 14 of them and replies
 to find_node carry 8; both lists are filled by the same insertion. The theorem is that a
 list filled this way holds exactly the nearest distinct ids ever offered, in order.
 */
module DhtClosest {
  import opened DhtId

  /** An id with whatever is kept beside it. */
  datatype Entry<D> = Entry(id: Id, data: D)

  /** The slot the insertion loop stops at: the id itself, or the first entry farther away than it, or the end. */
  function Slot<D>(list: seq<Entry<D>>, id: Id, ref: Id): (i: nat)
    ensures i <= |list|
    ensures i < |list| ==> list[i].id == id || Nearer(id, list[i].id, ref) < 0
    ensures forall j :: 0 <= j < i ==> list[j].id != id && Nearer(id, list[j].id, ref) >= 0
  {
    hide Nearer;
    if list == [] || list[0].id == id || Nearer(id, list[0].id, ref) < 0 then 0
    else 1 + Slot(list[1..], id, ref)
  }

  lemma {:induction false} SlotLeast<D>(list: seq<Entry<D>>, id: Id, ref: Id, i: nat)
    requires i <= |list|
    requires i < |list| ==> list[i].id == id || Nearer(id, list[i].id, ref) < 0
    requires forall j :: 0 <= j < i ==> list[j].id != id && Nearer(id, list[j].id, ref) >= 0
    ensures Slot(list, id, ref) == i
  {
    hide Nearer;
  }

  predicate Present<D>(list: seq<Entry<D>>, id: Id, ref: Id)
  {
    var i := Slot(list, id, ref);
    i < |list| && list[i].id == id
  }

  function Take<T>(s: seq<T>, n: nat): (r: seq<T>)
    ensures |r| <= n && r <= s && (|s| <= n ==> r == s)
  {
    if |s| <= n then s else s[..n]
  }

  /** Insertion of a new entry into a list of at most `cap` entries; the farthest falls off the end. */
  function Place<D>(list: seq<Entry<D>>, e: Entry<D>, ref: Id, cap: nat): (r: seq<Entry<D>>)
  {
    if Present(list, e.id, ref) then list
    else
      var i := Slot(list, e.id, ref);
      Take(list[..i] + [e] + list[i..], cap)
  }

  // ----- sorted lists -----

  ghost predicate Sorted<D>(list: seq<Entry<D>>, ref: Id)
  {
    forall i, j :: 0 <= i < j < |list| ==> Nearer(list[i].id, list[j].id, ref) < 0
  }

  function IdsOf<D>(list: seq<Entry<D>>): (s: set<Id>)
    ensures forall id :: id in s <==> exists i :: 0 <= i < |list| && list[i].id == id
  {
    set i | 0 <= i < |list| :: list[i].id
  }

  /** In a sorted list the slot tells whether the id is there at all, and separates nearer from farther entries. */
  lemma SlotSeparates<D>(list: seq<Entry<D>>, id: Id, ref: Id)
    requires Sorted(list, ref)
    ensures Present(list, id, ref) <==> id in IdsOf(list)
    ensures var i := Slot(list, id, ref);
            && (forall j :: 0 <= j < i ==> Nearer(list[j].id, id, ref) < 0)
            && (forall j :: i <= j < |list| && !Present(list, id, ref) ==> Nearer(id, list[j].id, ref) < 0)
  {
    hide Nearer, IdsOf;
    var i := Slot(list, id, ref);
    forall j | 0 <= j < |list|
      ensures j < i ==> Nearer(list[j].id, id, ref) < 0
      ensures i <= j && !Present(list, id, ref) ==> Nearer(id, list[j].id, ref) < 0
    {
      NearerIsStrictTotalOrder(list[j].id, id, id, ref);
      NearerIsStrictTotalOrder(id, list[j].id, list[j].id, ref);
      if i < j {
        NearerIsStrictTotalOrder(id, list[i].id, list[j].id, ref);
      }
    }
    NearerIsStrictTotalOrder(id, id, id, ref);
    if id in IdsOf(list) {
      var j :| 0 <= j < |list| && list[j].id == id;
    }
  }

  // ----- the nearest of a set of offers -----

  /** `list` is sorted, holds offered ids only, and any offer it lacks is farther than all of a full list. */
  ghost predicate IsClosest<D>(list: seq<Entry<D>>, offers: set<Id>, ref: Id, cap: nat)
  {
    && Sorted(list, ref) && |list| <= cap
    && IdsOf(list) <= offers
    && forall x :: x in offers && x !in IdsOf(list) ==>
         |list| == cap && forall i :: 0 <= i < |list| ==> Nearer(list[i].id, x, ref) < 0
  }

  /** Insertion before the end of the list is cut off. */
  function Insert<D>(list: seq<Entry<D>>, i: nat, e: Entry<D>): (r: seq<Entry<D>>)
    requires i <= |list|
    ensures |r| == |list| + 1 && r[i] == e
    ensures forall j :: 0 <= j < i ==> r[j] == list[j]
    ensures forall j :: i <= j < |list| ==> r[j + 1] == list[j]
  {
    list[..i] + [e] + list[i..]
  }

  lemma InsertIds<D>(list: seq<Entry<D>>, i: nat, e: Entry<D>)
    requires i <= |list|
    ensures IdsOf(Insert(list, i, e)) == IdsOf(list) + {e.id}
  {
    var full := Insert(list, i, e);
    forall x | x in IdsOf(list) + {e.id}
      ensures x in IdsOf(full)
    {
      if x == e.id {
        assert full[i].id == x;
      } else {
        var j :| 0 <= j < |list| && list[j].id == x;
        assert full[if j < i then j else j + 1].id == x;
      }
    }
    forall x | x in IdsOf(full)
      ensures x in IdsOf(list) + {e.id}
    {
      var j :| 0 <= j < |full| && full[j].id == x;
      assert j < i ==> full[j] == list[j];
      assert j > i ==> full[j] == list[j - 1];
    }
  }

  lemma InsertSorted<D>(list: seq<Entry<D>>, e: Entry<D>, ref: Id)
    requires Sorted(list, ref) && !Present(list, e.id, ref)
    ensures Sorted(Insert(list, Slot(list, e.id, ref), e), ref)
  {
    hide Nearer, Present, Slot;
    var i := Slot(list, e.id, ref);
    SlotSeparates(list, e.id, ref);
    var full := Insert(list, i, e);
    forall a, b | 0 <= a < b < |full|
      ensures Nearer(full[a].id, full[b].id, ref) < 0
    {
      assert a < i ==> full[a] == list[a];
      assert a > i ==> full[a] == list[a - 1];
      assert b < i ==> full[b] == list[b];
      assert b > i ==> full[b] == list[b - 1];
    }
  }

  /** Cutting a sorted list loses only ids farther than all that stay. */
  lemma CutSorted<D>(full: seq<Entry<D>>, ref: Id, cap: nat, x: Id)
    requires Sorted(full, ref) && x in IdsOf(full) && x !in IdsOf(Take(full, cap))
    ensures |Take(full, cap)| == cap && forall k :: 0 <= k < cap ==> Nearer(full[k].id, x, ref) < 0
  {
    hide Nearer;
    var j :| 0 <= j < |full| && full[j].id == x;
    forall t | 0 <= t < |Take(full, cap)|
      ensures full[t].id in IdsOf(Take(full, cap))
    {
      assert Take(full, cap)[t].id == full[t].id;
    }
  }

  /** One insertion carries the property from a set of offers to the set with one more. */
  lemma PlaceKeepsClosest<D>(list: seq<Entry<D>>, e: Entry<D>, offers: set<Id>, ref: Id, cap: nat)
    requires IsClosest(list, offers, ref, cap)
    ensures IsClosest(Place(list, e, ref, cap), offers + {e.id}, ref, cap)
  {
    hide Nearer, IdsOf, Present, Slot;
    SlotSeparates(list, e.id, ref);
    if !Present(list, e.id, ref) {
      var i := Slot(list, e.id, ref);
      var full := Insert(list, i, e);
      assert Place(list, e, ref, cap) == Take(full, cap);
      InsertSorted(list, e, ref);
      InsertIds(list, i, e);
      TakeIds(full, cap);
      forall x | x in offers + {e.id} && x !in IdsOf(Take(full, cap))
        ensures |Take(full, cap)| == cap && forall k :: 0 <= k < cap ==> Nearer(Take(full, cap)[k].id, x, ref) < 0
      {
        LeftOut(list, e, offers, ref, cap, x);
      }
      hide Take, Insert;
    }
  }

  /** What the cut leaves out is farther than all that stay. */
  lemma LeftOut<D>(list: seq<Entry<D>>, e: Entry<D>, offers: set<Id>, ref: Id, cap: nat, x: Id)
    requires IsClosest(list, offers, ref, cap) && !Present(list, e.id, ref) && x in offers + {e.id}
    requires x !in IdsOf(Take(Insert(list, Slot(list, e.id, ref), e), cap))
    ensures var r := Take(Insert(list, Slot(list, e.id, ref), e), cap);
            |r| == cap && forall k :: 0 <= k < cap ==> Nearer(r[k].id, x, ref) < 0
  {
    hide Nearer, IdsOf, Present, Slot;
    var i := Slot(list, e.id, ref);
    var full := Insert(list, i, e);
    InsertSorted(list, e, ref);
    InsertIds(list, i, e);
    SlotSeparates(list, e.id, ref);
    if x in IdsOf(full) {
      CutSorted(full, ref, cap, x);
    } else {
      forall k | 0 <= k < cap
        ensures Nearer(Take(full, cap)[k].id, x, ref) < 0
      {
        assert k > i ==> full[k] == list[k - 1];
        if k == i {
          NearerIsStrictTotalOrder(e.id, list[i].id, x, ref);
        }
      }
    }
  }

  lemma TakeIds<D>(full: seq<Entry<D>>, cap: nat)
    ensures IdsOf(Take(full, cap)) <= IdsOf(full)
  {
    forall x | x in IdsOf(Take(full, cap))
      ensures x in IdsOf(full)
    {
      var j :| 0 <= j < |Take(full, cap)| && Take(full, cap)[j].id == x;
      assert full[j].id == x;
    }
  }

  // ----- what the property pins down -----

  /** The offers nearer to `ref` than `x`. */
  function NearerOffers(offers: set<Id>, x: Id, ref: Id): set<Id>
  {
    set y | y in offers && Nearer(y, x, ref) < 0
  }

  /**
   The list holds exactly the offered ids with fewer than `cap` nearer offers: which ids they
   are depends on the set of offers alone, not on their order or repetition.
   */
  lemma ClosestIffFewNearer<D>(list: seq<Entry<D>>, offers: set<Id>, ref: Id, cap: nat, x: Id)
    requires IsClosest(list, offers, ref, cap)
    ensures x in IdsOf(list) <==> x in offers && |NearerOffers(offers, x, ref)| < cap
  {
    hide Nearer;
    if x in IdsOf(list) {
      var i :| 0 <= i < |list| && list[i].id == x;
      PrefixCount(list, ref, i);
      forall y | y in NearerOffers(offers, x, ref)
        ensures y in IdsOf(list[..i])
      {
        NearerIsStrictTotalOrder(y, x, y, ref);
        NearerIsStrictTotalOrder(x, y, x, ref);
        var j :| 0 <= j < |list| && list[j].id == y;
        assert j < i;
        assert list[..i][j].id == y;
      }
      SubsetSize(NearerOffers(offers, x, ref), IdsOf(list[..i]));
    } else if x in offers {
      PrefixCount(list, ref, |list|);
      assert list[..|list|] == list;
      SubsetSize(IdsOf(list), NearerOffers(offers, x, ref));
    }
  }

  lemma SubsetSize<T>(a: set<T>, b: set<T>)
    requires a <= b
    ensures |a| <= |b|
  {
    assert b == a + (b - a);
  }

  lemma {:induction false} PrefixCount<D>(list: seq<Entry<D>>, ref: Id, n: nat)
    requires Sorted(list, ref) && n <= |list|
    ensures |IdsOf(list[..n])| == n
  {
    hide Nearer;
    if n == 0 {
      assert IdsOf(list[..0]) == {};
    } else {
      PrefixCount(list, ref, n - 1);
      var init, last := list[..n - 1], list[n - 1];
      LastIsNew(init, last, ref);
      assert list[..n] == Insert(init, n - 1, last);
      InsertIds(init, n - 1, last);
    }
  }

  lemma LastIsNew<D>(init: seq<Entry<D>>, last: Entry<D>, ref: Id)
    requires forall j :: 0 <= j < |init| ==> Nearer(init[j].id, last.id, ref) < 0
    ensures last.id !in IdsOf(init)
  {
    hide Nearer;
    NearerIsStrictTotalOrder(last.id, last.id, last.id, ref);
  }

  // ----- whole runs -----

  /** The list after a run of offers to an empty one. */
  function Offer<D>(offers: seq<Entry<D>>, ref: Id, cap: nat): (list: seq<Entry<D>>)
    decreases |offers|
  {
    if offers == [] then []
    else Place(Offer(offers[..|offers| - 1], ref, cap), offers[|offers| - 1], ref, cap)
  }

  /** After any run of offers the list is sorted by distance and holds exactly the nearest distinct ids ever offered. */
  lemma {:induction false} OfferHoldsClosest<D>(offers: seq<Entry<D>>, ref: Id, cap: nat)
    ensures IsClosest(Offer(offers, ref, cap), IdsOf(offers), ref, cap)
    decreases |offers|
  {
    hide Nearer, Place;
    if offers != [] {
      var init, last := offers[..|offers| - 1], offers[|offers| - 1];
      OfferHoldsClosest(init, ref, cap);
      PlaceKeepsClosest(Offer(init, ref, cap), last, IdsOf(init), ref, cap);
      assert offers == Insert(init, |init|, last);
      InsertIds(init, |init|, last);
    }
  }

  // ----- removal -----

  function Remove<D>(list: seq<Entry<D>>, i: nat): (r: seq<Entry<D>>)
    requires i < |list|
  {
    list[..i] + list[i + 1..]
  }

  /** A flush keeps the order and drops that one id only. */
  lemma RemoveKeepsSorted<D>(list: seq<Entry<D>>, i: nat, ref: Id)
    requires Sorted(list, ref) && i < |list|
    ensures Sorted(Remove(list, i), ref)
    ensures IdsOf(Remove(list, i)) == IdsOf(list) - {list[i].id}
  {
    hide Nearer;
    var r := Remove(list, i);
    forall x | x in IdsOf(list) && x != list[i].id
      ensures x in IdsOf(r)
    {
      var j :| 0 <= j < |list| && list[j].id == x;
      assert r[if j < i then j else j - 1].id == x;
    }
    NearerIsStrictTotalOrder(list[i].id, list[i].id, list[i].id, ref);
    forall x | x in IdsOf(r)
      ensures x in IdsOf(list) && x != list[i].id
    {
      var j :| 0 <= j < |r| && r[j].id == x;
      assert list[if j < i then j else j + 1].id == x;
    }
  }
}
