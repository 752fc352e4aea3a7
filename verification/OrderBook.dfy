/**
 The hub's order book (xbridgeexchange.cpp:118-252). `createTransaction` holds its locks in three
 separate sections, so calls can interleave; each section is one step of a state machine here,
 and the invariant holds in every interleaving.
 */
module OrderBook {
  import opened Bytes
  import opened SwapPhases
  import opened Wrappers

  type u64 = x: int | 0 <= x < 0x1_0000_0000_0000_0000

  /** The 256-bit hash over the bytes of the order. Nothing is assumed about it. */
  type HashFn = Bytes -> Bytes

  /** Seconds after which an order counts as expired. */
  const TTL := 150

  datatype Member = Member(id: Bytes, source: Bytes, dest: Bytes)

  datatype Order = Order(id: Bytes, created: int, state: State,
                         sourceCurrency: Bytes, sourceAmount: u64, destCurrency: Bytes, destAmount: u64,
                         first: Member, second: Member)

  /** The arguments of `createTransaction`. */
  datatype Request = Request(id: Bytes, sourceAddr: Bytes, sourceCurrency: Bytes, sourceAmount: u64,
                             destAddr: Bytes, destCurrency: Bytes, destAmount: u64)

  function NewOrder(q: Request, created: int): (o: Order)
  {
    Order(q.id, created, trNew, q.sourceCurrency, q.sourceAmount, q.destCurrency, q.destAmount,
          Member(q.id, q.sourceAddr, q.destAddr), Member([], [], []))
  }

  function HashOf(hash: HashFn, cur1: Bytes, amt1: u64, cur2: Bytes, amt2: u64): Bytes
  {
    hash(cur1 + ToLE(amt1, 8) + cur2 + ToLE(amt2, 8))
  }

  function Hash1(hash: HashFn, o: Order): Bytes
  {
    HashOf(hash, o.sourceCurrency, o.sourceAmount, o.destCurrency, o.destAmount)
  }

  function Hash2(hash: HashFn, o: Order): Bytes
  {
    HashOf(hash, o.destCurrency, o.destAmount, o.sourceCurrency, o.sourceAmount)
  }

  /** Each offers what the other wants. */
  predicate Mirror(a: Order, b: Order)
  {
    && a.sourceCurrency == b.destCurrency && a.destCurrency == b.sourceCurrency
    && a.sourceAmount == b.destAmount && a.destAmount == b.sourceAmount
  }

  predicate Expired(o: Order, now: int)
  {
    now - o.created > TTL
  }

  /** `tryJoin`: `a` after taking in `b`, or nothing. */
  function TryJoin(hash: HashFn, a: Order, b: Order): Option<Order>
  {
    if a.state != trNew || b.state != trNew then None
    else if a.sourceCurrency != b.destCurrency || a.destCurrency != b.sourceCurrency then None
    else if a.sourceAmount != b.destAmount || a.destAmount != b.sourceAmount then None
    else Some(a.(second := b.first, id := hash(a.id + b.id), state := trJoined))
  }

  // ----- the state machine -----

  /** A call between its sections: it has joined order `r` under key `h`, and then filed it as active. */
  datatype Window = Open(h: Bytes, r: nat) | Moved(h: Bytes)

  /**
   The orders ever made, in the order of their making (pointers are numbers), the two maps of the
   hub, the calls under way by the number of their order, and the pairs joined so far.
   */
  datatype World = World(orders: seq<Order>, pending: map<Bytes, nat>, active: map<Bytes, nat>,
                         windows: map<nat, Window>, joins: seq<(nat, nat)>)

  function Empty(): World
  {
    World([], map[], map[], map[], [])
  }

  datatype Step =
    | Create(q: Request, created: int, now: int)
    | Move(call: nat)
    | Close(call: nat)
    | DeletePending(h: Bytes)
    | DeleteActive(h: Bytes)
    | Progress(r: nat, state: State, created: int)

  /** File order number `r`. */
  function File(hash: HashFn, w: World, r: nat): World
    requires r < |w.orders|
  {
    w.(pending := w.pending[Hash1(hash, w.orders[r]) := r])
  }

  /** The first section: file the new order, or join it with its mirror image. */
  function FileOrJoin(hash: HashFn, w0: World, q: Request, created: int, now: int): World
    requires PendingInRange(w0)
  {
    var tr, r := NewOrder(q, created), |w0.orders|;
    var w := w0.(orders := w0.orders + [tr]);
    var h := Hash2(hash, tr);
    if h !in w.pending then File(hash, w, r)
    else
      var o := w.pending[h];
      if Expired(w.orders[o], now) then File(hash, w.(pending := w.pending - {h}), r)
      else
        match TryJoin(hash, w.orders[o], tr)
        case None => File(hash, w, r)
        case Some(joined) =>
          w.(orders := w.orders[o := joined], windows := w.windows[r := Open(h, o)], joins := w.joins + [(o, r)])
  }

  /** The second section: the joined order becomes active under its new id. */
  function MoveCall(w: World, c: nat): World
  {
    if c in w.windows && w.windows[c].Open? && w.windows[c].r < |w.orders| then
      w.(active := w.active[w.orders[w.windows[c].r].id := w.windows[c].r], windows := w.windows[c := Moved(w.windows[c].h)])
    else w
  }

  /** The third section: the key of the joined order is dropped, whatever is filed under it by now. */
  function CloseCall(w: World, c: nat): World
  {
    if c in w.windows && w.windows[c].Moved? then
      w.(pending := w.pending - {w.windows[c].h}, windows := w.windows - {c})
    else w
  }

  /** The phases of a swap: a joined order changes its state and time stamp, never back to new. */
  function ProgressOrder(w: World, r: nat, state: State, created: int): World
  {
    if r < |w.orders| && w.orders[r].state != trNew && state != trNew then
      w.(orders := w.orders[r := w.orders[r].(state := state, created := created)])
    else w
  }

  function Next(hash: HashFn, w: World, s: Step): World
    requires PendingInRange(w)
  {
    match s
    case Create(q, created, now) => FileOrJoin(hash, w, q, created, now)
    case Move(c) => MoveCall(w, c)
    case Close(c) => CloseCall(w, c)
    case DeletePending(h) => w.(pending := w.pending - {h})
    case DeleteActive(h) => w.(active := w.active - {h})
    case Progress(r, state, created) => ProgressOrder(w, r, state, created)
  }

  // ----- the invariant -----

  /** `r` has been joined as the earlier order of a pair. */
  ghost predicate IsJoined(w: World, r: nat)
  {
    exists i :: 0 <= i < |w.joins| && w.joins[i].0 == r
  }

  /** Every pending order stands under its own hash, and is new unless the call that joined it is still under way. */
  ghost predicate PendingOk(hash: HashFn, w: World)
  {
    forall h :: h in w.pending ==>
      && w.pending[h] < |w.orders| && Hash1(hash, w.orders[w.pending[h]]) == h
      && (w.orders[w.pending[h]].state == trNew || exists c :: c in w.windows && w.windows[c].h == h)
  }

  /** No two orders waiting to be joined are mirror images. */
  ghost predicate Unmatched(w: World)
  {
    forall h, k :: h in w.pending && k in w.pending && h != k && w.pending[h] < |w.orders| && w.pending[k] < |w.orders|
      && w.orders[w.pending[h]].state == trNew && w.orders[w.pending[k]].state == trNew
      ==> !Mirror(w.orders[w.pending[h]], w.orders[w.pending[k]])
  }

  /** A pair joined: mirror images, the later one's party taken over, the new id made from both. */
  predicate Paired(hash: HashFn, a: Order, b: Order)
  {
    && a.state != trNew && Mirror(a, b)
    && a.second == b.first && a.id == hash(a.first.id + b.first.id)
  }

  ghost predicate JoinsOk(hash: HashFn, w: World)
  {
    && (forall i :: 0 <= i < |w.joins| ==>
          w.joins[i].0 < w.joins[i].1 < |w.orders| && Paired(hash, w.orders[w.joins[i].0], w.orders[w.joins[i].1]))
    && (forall i, h :: 0 <= i < |w.joins| && h in w.pending ==> w.pending[h] != w.joins[i].1)
    && (forall r :: 0 <= r < |w.orders| && w.orders[r].state != trNew ==> IsJoined(w, r))
  }

  /** No order takes part in two joins. */
  ghost predicate JoinedOnce(w: World)
  {
    forall i, j :: 0 <= i < j < |w.joins| ==>
      w.joins[i].0 != w.joins[j].0 && w.joins[i].0 != w.joins[j].1 && w.joins[i].1 != w.joins[j].0 && w.joins[i].1 != w.joins[j].1
  }

  /** Every active order stands under its own id and has been joined; so has every order a call is about to move. */
  ghost predicate ActiveOk(w: World)
  {
    && (forall k :: k in w.active ==> w.active[k] < |w.orders| && w.orders[w.active[k]].id == k && IsJoined(w, w.active[k]))
    && (forall c :: c in w.windows && w.windows[c].Open? ==> w.windows[c].r < |w.orders| && IsJoined(w, w.windows[c].r))
    && (forall c :: c in w.windows ==> c < |w.orders|)
  }

  /** Orders keep the ids of their parties. */
  ghost predicate FreshIds(w: World)
  {
    forall r :: 0 <= r < |w.orders| && w.orders[r].state == trNew ==> w.orders[r].id == w.orders[r].first.id
  }

  ghost predicate Inv(hash: HashFn, w: World)
  {
    PendingOk(hash, w) && Unmatched(w) && JoinsOk(hash, w) && JoinedOnce(w) && ActiveOk(w) && FreshIds(w)
  }

  lemma MirrorsMeet(hash: HashFn, a: Order, b: Order)
    requires Mirror(a, b)
    ensures Hash1(hash, a) == Hash2(hash, b) && Hash2(hash, a) == Hash1(hash, b) && Mirror(b, a)
  {
  }

  lemma MirrorSymmetric(a: Order, b: Order)
    ensures Mirror(a, b) == Mirror(b, a)
  {
  }

  /** The world after a new order has been filed and some keys dropped before. */
  function Filed(hash: HashFn, w0: World, tr: Order, dropped: set<Bytes>): World
  {
    File(hash, w0.(orders := w0.orders + [tr], pending := w0.pending - dropped), |w0.orders|)
  }

  lemma FileKeepsPending(hash: HashFn, w0: World, tr: Order, dropped: set<Bytes>)
    requires PendingOk(hash, w0) && tr.state == trNew
    ensures PendingOk(hash, Filed(hash, w0, tr, dropped))
  {
    hide Hash1;
  }

  /** As long as no waiting order mirrors the new one, none do afterwards. */
  lemma FileKeepsUnmatched(hash: HashFn, w0: World, tr: Order, dropped: set<Bytes>)
    requires PendingOk(hash, w0) && Unmatched(w0)
    requires forall h :: h in w0.pending && h !in dropped && w0.orders[w0.pending[h]].state == trNew ==>
               !Mirror(w0.orders[w0.pending[h]], tr)
    ensures Unmatched(Filed(hash, w0, tr, dropped))
  {
    hide Hash1, Mirror;
    var w := Filed(hash, w0, tr, dropped);
    forall h, k | h in w.pending && k in w.pending && h != k && w.orders[w.pending[h]].state == trNew && w.orders[w.pending[k]].state == trNew
      ensures !Mirror(w.orders[w.pending[h]], w.orders[w.pending[k]])
    {
      MirrorSymmetric(w.orders[w.pending[h]], w.orders[w.pending[k]]);
    }
  }

  lemma FileKeepsJoins(hash: HashFn, w0: World, tr: Order, dropped: set<Bytes>)
    requires JoinsOk(hash, w0) && tr.state == trNew
    ensures JoinsOk(hash, Filed(hash, w0, tr, dropped))
  {
    hide Hash1, Paired;
    var w := Filed(hash, w0, tr, dropped);
    assert forall r :: IsJoined(w0, r) ==> IsJoined(w, r);
  }

  lemma FileKeepsActive(hash: HashFn, w0: World, tr: Order, dropped: set<Bytes>)
    requires ActiveOk(w0)
    ensures ActiveOk(Filed(hash, w0, tr, dropped))
  {
    hide Hash1;
    var w := Filed(hash, w0, tr, dropped);
    assert forall r :: IsJoined(w0, r) ==> IsJoined(w, r);
  }

  lemma FileKeepsInv(hash: HashFn, w0: World, tr: Order, dropped: set<Bytes>)
    requires Inv(hash, w0) && tr.state == trNew && tr.id == tr.first.id
    requires forall h :: h in w0.pending && h !in dropped && w0.orders[w0.pending[h]].state == trNew ==>
               !Mirror(w0.orders[w0.pending[h]], tr)
    ensures Inv(hash, Filed(hash, w0, tr, dropped))
  {
    FileKeepsPending(hash, w0, tr, dropped);
    FileKeepsUnmatched(hash, w0, tr, dropped);
    FileKeepsJoins(hash, w0, tr, dropped);
    FileKeepsActive(hash, w0, tr, dropped);
    hide PendingOk, Unmatched, JoinsOk, ActiveOk, Hash1;
  }

  /** The world after pending order `o` has taken in the new order. */
  function Taken(w0: World, tr: Order, h: Bytes, joined: Order): World
    requires h in w0.pending && w0.pending[h] < |w0.orders|
  {
    var o, r := w0.pending[h], |w0.orders|;
    w0.(orders := (w0.orders + [tr])[o := joined], windows := w0.windows[r := Open(h, o)], joins := w0.joins + [(o, r)])
  }

  lemma JoinKeepsPending(hash: HashFn, w0: World, tr: Order, h: Bytes, joined: Order)
    requires PendingOk(hash, w0) && h in w0.pending && TryJoin(hash, w0.orders[w0.pending[h]], tr) == Some(joined)
    requires |w0.orders| !in w0.windows
    ensures PendingOk(hash, Taken(w0, tr, h, joined))
  {
    var w := Taken(w0, tr, h, joined);
    assert Hash1(hash, joined) == Hash1(hash, w0.orders[w0.pending[h]]);
    hide Hash1, TryJoin;
    forall k | k in w.pending
      ensures w.orders[w.pending[k]].state == trNew || exists c :: c in w.windows && w.windows[c].h == k
      ensures Hash1(hash, w.orders[w.pending[k]]) == k
    {
      if w.pending[k] == w.pending[h] {
        assert k == h && w.windows[|w0.orders|].h == h;
      } else if w.orders[w.pending[k]].state != trNew {
        var c :| c in w0.windows && w0.windows[c].h == k;
        assert c in w.windows && w.windows[c].h == k;
      }
    }
  }

  lemma JoinKeepsUnmatched(hash: HashFn, w0: World, tr: Order, h: Bytes, joined: Order)
    requires Unmatched(w0) && PendingInRange(w0) && h in w0.pending && joined.state != trNew
    ensures Unmatched(Taken(w0, tr, h, joined))
  {
    hide Mirror;
  }

  lemma JoinPairs(hash: HashFn, a: Order, b: Order)
    requires a.id == a.first.id && b.id == b.first.id && TryJoin(hash, a, b).Some?
    ensures Paired(hash, TryJoin(hash, a, b).value, b) && a.state == trNew
  {
  }

  lemma JoinKeepsJoins(hash: HashFn, w0: World, tr: Order, h: Bytes, joined: Order)
    requires JoinsOk(hash, w0) && PendingInRange(w0) && h in w0.pending && w0.orders[w0.pending[h]].state == trNew
    requires Paired(hash, joined, tr) && tr.state == trNew
    ensures JoinsOk(hash, Taken(w0, tr, h, joined))
  {
    hide Paired, IsJoined;
    var w, n := Taken(w0, tr, h, joined), |w0.joins|;
    assert w.joins[n] == (w0.pending[h], |w0.orders|);
    EarlierJoinsStay(hash, w0, h);
    JoinedStay(hash, w0, tr, h, joined);
    forall i | 0 <= i < |w.joins|
      ensures w.joins[i].0 < w.joins[i].1 < |w.orders| && Paired(hash, w.orders[w.joins[i].0], w.orders[w.joins[i].1])
    {
      if i < n {
        assert w.joins[i] == w0.joins[i];
      }
    }
  }

  lemma JoinedStay(hash: HashFn, w0: World, tr: Order, h: Bytes, joined: Order)
    requires JoinsOk(hash, w0) && h in w0.pending && w0.pending[h] < |w0.orders| && tr.state == trNew
    ensures var w := Taken(w0, tr, h, joined);
            forall q :: 0 <= q < |w.orders| && w.orders[q].state != trNew ==> IsJoined(w, q)
  {
    hide Paired;
    var w, n := Taken(w0, tr, h, joined), |w0.joins|;
    assert w.joins[n] == (w0.pending[h], |w0.orders|);
    forall q | 0 <= q < |w.orders| && w.orders[q].state != trNew
      ensures IsJoined(w, q)
    {
      if q != w0.pending[h] {
        assert IsJoined(w0, q);
        var i :| 0 <= i < n && w0.joins[i].0 == q;
        assert w.joins[i].0 == q;
      }
    }
  }

  /** The orders of pairs joined before are others than a new one still pending. */
  lemma EarlierJoinsStay(hash: HashFn, w0: World, h: Bytes)
    requires JoinsOk(hash, w0) && h in w0.pending && w0.pending[h] < |w0.orders| && w0.orders[w0.pending[h]].state == trNew
    ensures forall i :: 0 <= i < |w0.joins| ==> w0.joins[i].0 != w0.pending[h] && w0.joins[i].1 != w0.pending[h]
  {
    forall i | 0 <= i < |w0.joins|
      ensures w0.joins[i].0 != w0.pending[h]
    {
      PairedIsNotNew(hash, w0.orders[w0.joins[i].0], w0.orders[w0.joins[i].1]);
    }
  }

  lemma JoinKeepsOnce(hash: HashFn, w0: World, tr: Order, h: Bytes, joined: Order)
    requires Inv(hash, w0) && h in w0.pending && w0.orders[w0.pending[h]].state == trNew
    ensures JoinedOnce(Taken(w0, tr, h, joined))
  {
    hide Hash1, Unmatched, ActiveOk, FreshIds, Paired;
    EarlierJoinsStay(hash, w0, h);
    var w, n := Taken(w0, tr, h, joined), |w0.joins|;
    assert forall i :: 0 <= i < n ==> w.joins[i] == w0.joins[i];
    assert w.joins[n] == (w0.pending[h], |w0.orders|);
  }

  lemma JoinKeepsActive(hash: HashFn, w0: World, tr: Order, h: Bytes, joined: Order)
    requires Inv(hash, w0) && h in w0.pending && TryJoin(hash, w0.orders[w0.pending[h]], tr) == Some(joined)
    ensures ActiveOk(Taken(w0, tr, h, joined))
  {
    hide Hash1, Unmatched, JoinedOnce, FreshIds, JoinsOk, TryJoin, IsJoined;
    JoinedNow(hash, w0, tr, h, joined);
  }

  /** Joining marks the one order, which was new and so not joined before. */
  lemma JoinedNow(hash: HashFn, w0: World, tr: Order, h: Bytes, joined: Order)
    requires Inv(hash, w0) && h in w0.pending && TryJoin(hash, w0.orders[w0.pending[h]], tr) == Some(joined)
    ensures IsJoined(Taken(w0, tr, h, joined), w0.pending[h])
    ensures forall q :: IsJoined(w0, q) ==> IsJoined(Taken(w0, tr, h, joined), q) && q != w0.pending[h]
  {
    hide Hash1, Unmatched, JoinedOnce, FreshIds, JoinsOk, ActiveOk;
    var w, o, n := Taken(w0, tr, h, joined), w0.pending[h], |w0.joins|;
    assert w.joins[n].0 == o;
    forall q | IsJoined(w0, q)
      ensures IsJoined(w, q) && q != o
    {
      var i :| 0 <= i < n && w0.joins[i].0 == q;
      assert w.joins[i].0 == q;
      JoinedIsNotNew(hash, w0, i);
    }
  }

  lemma JoinedIsNotNew(hash: HashFn, w: World, i: nat)
    requires JoinsOk(hash, w) && i < |w.joins|
    ensures w.joins[i].0 < |w.orders| && w.orders[w.joins[i].0].state != trNew
  {
    hide Hash1, Hash2;
    assert Paired(hash, w.orders[w.joins[i].0], w.orders[w.joins[i].1]);
    PairedIsNotNew(hash, w.orders[w.joins[i].0], w.orders[w.joins[i].1]);
  }

  lemma JoinKeepsFreshIds(hash: HashFn, w0: World, tr: Order, h: Bytes, joined: Order)
    requires Inv(hash, w0) && h in w0.pending && TryJoin(hash, w0.orders[w0.pending[h]], tr) == Some(joined)
    requires tr.id == tr.first.id && tr.state == trNew
    ensures FreshIds(Taken(w0, tr, h, joined))
  {
    hide Hash1, Unmatched, JoinedOnce, JoinsOk, ActiveOk;
  }

  lemma PairedIsNotNew(hash: HashFn, a: Order, b: Order)
    ensures Paired(hash, a, b) ==> a.state != trNew
  {
  }

  lemma TryJoinIff(hash: HashFn, a: Order, b: Order)
    ensures TryJoin(hash, a, b).Some? <==> a.state == trNew && b.state == trNew && Mirror(a, b)
  {
  }

  /**
   Joining is mutual and happens once: two orders can be joined in either direction or not at
   all; the result pairs them, stands under the same key as before, and nothing joins with it again.
   */
  lemma JoiningIsFinal(hash: HashFn, a: Order, b: Order, x: Order)
    requires a.id == a.first.id && b.id == b.first.id
    ensures TryJoin(hash, a, b).Some? <==> TryJoin(hash, b, a).Some?
    ensures TryJoin(hash, a, b).Some? ==>
              var j := TryJoin(hash, a, b).value;
              && Paired(hash, j, b) && j.first == a.first && Hash1(hash, j) == Hash1(hash, a)
              && TryJoin(hash, j, x).None? && TryJoin(hash, x, j).None?
  {
    TryJoinIff(hash, a, b);
    TryJoinIff(hash, b, a);
    MirrorSymmetric(a, b);
  }

  lemma JoinKeepsInv(hash: HashFn, w0: World, tr: Order, h: Bytes, joined: Order)
    requires Inv(hash, w0) && h in w0.pending && TryJoin(hash, w0.orders[w0.pending[h]], tr) == Some(joined)
    requires tr.id == tr.first.id && tr.state == trNew
    ensures Inv(hash, Taken(w0, tr, h, joined))
  {
    TryJoinIff(hash, w0.orders[w0.pending[h]], tr);
    NoSuchCall(hash, w0);
    assert joined.state != trNew;
    JoinPairs(hash, w0.orders[w0.pending[h]], tr);
    hide Paired;
    hide TryJoin, Hash1, Mirror, Taken, PendingOk, Unmatched, JoinsOk, JoinedOnce, ActiveOk, FreshIds;
    JoinKeepsPending(hash, w0, tr, h, joined);
    JoinKeepsUnmatched(hash, w0, tr, h, joined);
    JoinKeepsJoins(hash, w0, tr, h, joined);
    JoinKeepsOnce(hash, w0, tr, h, joined);
    JoinKeepsActive(hash, w0, tr, h, joined);
    JoinKeepsFreshIds(hash, w0, tr, h, joined);
  }

  lemma NoSuchCall(hash: HashFn, w: World)
    requires Inv(hash, w)
    ensures |w.orders| !in w.windows && PendingInRange(w)
  {
  }

  predicate PendingInRange(w: World)
  {
    forall h :: h in w.pending ==> w.pending[h] < |w.orders|
  }

  /** The pending order that a request finds and joins with. */
  predicate Joins(hash: HashFn, w: World, q: Request, created: int, now: int)
    requires PendingInRange(w)
  {
    var tr := NewOrder(q, created);
    var h := Hash2(hash, tr);
    h in w.pending && !Expired(w.orders[w.pending[h]], now) && TryJoin(hash, w.orders[w.pending[h]], tr).Some?
  }

  /** The key of the expired order that a request finds. */
  function Dropped(hash: HashFn, w: World, q: Request, created: int, now: int): set<Bytes>
    requires PendingInRange(w)
  {
    var h := Hash2(hash, NewOrder(q, created));
    if h in w.pending && Expired(w.orders[w.pending[h]], now) then {h} else {}
  }

  lemma WhichWay(hash: HashFn, w: World, q: Request, created: int, now: int)
    requires PendingInRange(w)
    ensures var tr := NewOrder(q, created);
            var h := Hash2(hash, tr);
            FileOrJoin(hash, w, q, created, now) ==
              if Joins(hash, w, q, created, now) then Taken(w, tr, h, TryJoin(hash, w.orders[w.pending[h]], tr).value)
              else Filed(hash, w, tr, Dropped(hash, w, q, created, now))
  {
    hide Hash1, Hash2, TryJoin;
    assert w.pending - {} == w.pending;
  }

  lemma NotMirrored(hash: HashFn, w: World, q: Request, created: int, now: int)
    requires PendingInRange(w) && PendingOk(hash, w) && !Joins(hash, w, q, created, now)
    ensures forall h :: h in w.pending && h !in Dropped(hash, w, q, created, now) && w.orders[w.pending[h]].state == trNew ==>
              !Mirror(w.orders[w.pending[h]], NewOrder(q, created))
  {
    var tr := NewOrder(q, created);
    OnlyOneCanMirror(hash, w, tr);
    if Hash2(hash, tr) in w.pending {
      TryJoinIff(hash, w.orders[w.pending[Hash2(hash, tr)]], tr);
    }
    hide Hash2, PendingOk, Mirror, TryJoin;
  }

  /** The first section keeps the invariant. */
  lemma FileOrJoinKeepsInv(hash: HashFn, w: World, q: Request, created: int, now: int)
    requires Inv(hash, w)
    ensures PendingInRange(w) && Inv(hash, FileOrJoin(hash, w, q, created, now))
  {
    NoSuchCall(hash, w);
    WhichWay(hash, w, q, created, now);
    hide Hash2, TryJoin, FileOrJoin, Taken, Filed, Dropped, PendingOk, Unmatched, JoinsOk, JoinedOnce, ActiveOk, FreshIds;
    var tr := NewOrder(q, created);
    if Joins(hash, w, q, created, now) {
      var h := Hash2(hash, tr);
      JoinKeepsInv(hash, w, tr, h, TryJoin(hash, w.orders[w.pending[h]], tr).value);
    } else {
      NotMirrored(hash, w, q, created, now);
      FileKeepsInv(hash, w, tr, Dropped(hash, w, q, created, now));
    }
  }

  /** A waiting mirror image of an order can only stand under that order's second hash. */
  lemma OnlyOneCanMirror(hash: HashFn, w0: World, tr: Order)
    requires PendingOk(hash, w0)
    ensures forall h :: h in w0.pending && Mirror(w0.orders[w0.pending[h]], tr) ==> h == Hash2(hash, tr)
  {
    forall h | h in w0.pending && Mirror(w0.orders[w0.pending[h]], tr)
      ensures h == Hash2(hash, tr)
    {
      MirrorsMeet(hash, w0.orders[w0.pending[h]], tr);
    }
  }

  /** Most of the invariant only speaks of the orders, the joins, and what is still pending. */
  lemma FewerPending(hash: HashFn, w: World, w1: World)
    requires JoinsOk(hash, w) && Unmatched(w) && JoinedOnce(w) && FreshIds(w)
    requires w1.orders == w.orders && w1.joins == w.joins
    requires forall h :: h in w1.pending ==> h in w.pending && w1.pending[h] == w.pending[h]
    ensures JoinsOk(hash, w1) && Unmatched(w1) && JoinedOnce(w1) && FreshIds(w1)
    ensures forall r :: IsJoined(w, r) ==> IsJoined(w1, r)
  {
    hide Mirror, Paired;
    assert forall r :: IsJoined(w, r) ==> IsJoined(w1, r);
  }

  /** Keys may go, but a call under way must not forget its own. */
  lemma PendingFrame(hash: HashFn, w: World, w1: World)
    requires PendingOk(hash, w) && w1.orders == w.orders
    requires forall h :: h in w1.pending ==> h in w.pending && w1.pending[h] == w.pending[h]
    requires forall c :: c in w.windows && w.windows[c].h in w1.pending ==> c in w1.windows && w1.windows[c].h == w.windows[c].h
    ensures PendingOk(hash, w1)
  {
    hide Hash1;
    forall h | h in w1.pending && w1.orders[w1.pending[h]].state != trNew
      ensures exists c :: c in w1.windows && w1.windows[c].h == h
    {
      var c :| c in w.windows && w.windows[c].h == h;
      assert c in w1.windows && w1.windows[c].h == h;
    }
  }

  lemma MoveKeepsActive(w: World, c: nat)
    requires ActiveOk(w) && forall r :: IsJoined(w, r) ==> IsJoined(MoveCall(w, c), r)
    ensures ActiveOk(MoveCall(w, c))
  {
    hide IsJoined;
  }

  lemma MoveKeepsInv(hash: HashFn, w: World, c: nat)
    requires Inv(hash, w)
    ensures Inv(hash, MoveCall(w, c))
  {
    hide PendingOk, Unmatched, JoinsOk, JoinedOnce, ActiveOk, FreshIds, IsJoined;
    var w1 := MoveCall(w, c);
    FewerPending(hash, w, w1);
    PendingFrame(hash, w, w1);
    MoveKeepsActive(w, c);
  }

  /** Active orders and calls may go. */
  lemma ActiveFrame(w: World, w1: World)
    requires ActiveOk(w) && w1.orders == w.orders
    requires forall k :: k in w1.active ==> k in w.active && w1.active[k] == w.active[k]
    requires forall c :: c in w1.windows ==> c in w.windows && w1.windows[c] == w.windows[c]
    requires forall r :: IsJoined(w, r) ==> IsJoined(w1, r)
    ensures ActiveOk(w1)
  {
    hide IsJoined;
  }

  lemma CloseKeepsInv(hash: HashFn, w: World, c: nat)
    requires Inv(hash, w)
    ensures Inv(hash, CloseCall(w, c))
  {
    hide PendingOk, Unmatched, JoinsOk, JoinedOnce, ActiveOk, FreshIds, IsJoined;
    var w1 := CloseCall(w, c);
    FewerPending(hash, w, w1);
    PendingFrame(hash, w, w1);
    ActiveFrame(w, w1);
  }

  lemma DeletePendingKeepsInv(hash: HashFn, w: World, h: Bytes)
    requires Inv(hash, w)
    ensures Inv(hash, w.(pending := w.pending - {h}))
  {
    hide PendingOk, Unmatched, JoinsOk, JoinedOnce, ActiveOk, FreshIds, IsJoined;
    var w1 := w.(pending := w.pending - {h});
    FewerPending(hash, w, w1);
    PendingFrame(hash, w, w1);
    ActiveFrame(w, w1);
  }

  lemma DeleteActiveKeepsInv(hash: HashFn, w: World, h: Bytes)
    requires Inv(hash, w)
    ensures Inv(hash, w.(active := w.active - {h}))
  {
    hide PendingOk, Unmatched, JoinsOk, JoinedOnce, ActiveOk, FreshIds, IsJoined;
    var w1 := w.(active := w.active - {h});
    FewerPending(hash, w, w1);
    PendingFrame(hash, w, w1);
    ActiveFrame(w, w1);
  }

  /** What a phase change leaves alone. */
  predicate SameOrder(a: Order, b: Order)
  {
    b == a.(state := b.state, created := b.created) && (a.state == trNew <==> b.state == trNew) && (a.state == trNew ==> b == a)
  }

  lemma SameOrderFacts(hash: HashFn, a: Order, a1: Order, b: Order, b1: Order)
    requires SameOrder(a, a1) && SameOrder(b, b1)
    ensures Hash1(hash, a) == Hash1(hash, a1) && Mirror(a, b) == Mirror(a1, b1) && Paired(hash, a, b) == Paired(hash, a1, b1)
  {
  }

  /** A world that differs only in states and time stamps of joined orders. */
  predicate SameWorld(w: World, w1: World)
  {
    && |w1.orders| == |w.orders| && w1 == w.(orders := w1.orders)
    && forall r :: 0 <= r < |w.orders| ==> SameOrder(w.orders[r], w1.orders[r])
  }

  lemma ProgressKeepsJoins(hash: HashFn, w: World, w1: World)
    requires JoinsOk(hash, w) && JoinedOnce(w) && SameWorld(w, w1)
    ensures JoinsOk(hash, w1) && JoinedOnce(w1)
    ensures forall r :: IsJoined(w, r) ==> IsJoined(w1, r)
  {
    hide Paired;
    assert forall r :: IsJoined(w, r) ==> IsJoined(w1, r);
    forall i | 0 <= i < |w1.joins|
      ensures Paired(hash, w1.orders[w1.joins[i].0], w1.orders[w1.joins[i].1])
    {
      SameOrderFacts(hash, w.orders[w.joins[i].0], w1.orders[w.joins[i].0], w.orders[w.joins[i].1], w1.orders[w.joins[i].1]);
    }
  }

  lemma ProgressKeepsPending(hash: HashFn, w: World, w1: World)
    requires PendingOk(hash, w) && Unmatched(w) && SameWorld(w, w1)
    ensures PendingOk(hash, w1) && Unmatched(w1)
  {
    hide Hash1, Mirror;
    forall h | h in w1.pending
      ensures Hash1(hash, w1.orders[w1.pending[h]]) == h
    {
      var a, a1 := w.orders[w.pending[h]], w1.orders[w.pending[h]];
      SameOrderFacts(hash, a, a1, a, a1);
    }
    assert forall h :: h in w1.pending && w1.orders[w1.pending[h]].state == trNew ==>
      w1.orders[w1.pending[h]] == w.orders[w.pending[h]];
  }

  lemma ProgressKeepsActive(w: World, w1: World)
    requires ActiveOk(w) && FreshIds(w) && SameWorld(w, w1) && forall r :: IsJoined(w, r) ==> IsJoined(w1, r)
    ensures ActiveOk(w1) && FreshIds(w1)
  {
    hide IsJoined;
  }

  lemma ProgressKeepsInv(hash: HashFn, w: World, r: nat, state: State, created: int)
    requires Inv(hash, w)
    ensures Inv(hash, ProgressOrder(w, r, state, created))
  {
    hide PendingOk, Unmatched, JoinsOk, JoinedOnce, ActiveOk, FreshIds, IsJoined;
    var w1 := ProgressOrder(w, r, state, created);
    ProgressKeepsJoins(hash, w, w1);
    ProgressKeepsPending(hash, w, w1);
    ProgressKeepsActive(w, w1);
  }

  lemma StepKeepsInv(hash: HashFn, w: World, s: Step)
    requires Inv(hash, w)
    ensures PendingInRange(w) && Inv(hash, Next(hash, w, s))
  {
    NoSuchCall(hash, w);
    hide Inv, FileOrJoin, MoveCall, CloseCall, ProgressOrder;
    match s
    case Create(q, created, now) => FileOrJoinKeepsInv(hash, w, q, created, now);
    case Move(c) => MoveKeepsInv(hash, w, c);
    case Close(c) => CloseKeepsInv(hash, w, c);
    case DeletePending(h) => DeletePendingKeepsInv(hash, w, h);
    case DeleteActive(h) => DeleteActiveKeepsInv(hash, w, h);
    case Progress(r, state, created) => ProgressKeepsInv(hash, w, r, state, created);
  }

  /** The world after any interleaving of steps: the invariant holds throughout. */
  ghost function After(hash: HashFn, steps: seq<Step>): (w: World)
    ensures Inv(hash, w)
    decreases |steps|
  {
    if steps == [] then Empty()
    else
      var w := After(hash, steps[..|steps| - 1]);
      StepKeepsInv(hash, w, steps[|steps| - 1]);
      Next(hash, w, steps[|steps| - 1])
  }

  // ----- what the invariant says -----

  /** A request is joined exactly when a new, unexpired mirror image of it is waiting. */
  lemma JoinsIff(hash: HashFn, w: World, q: Request, created: int, now: int)
    requires Inv(hash, w) && PendingInRange(w)
    ensures Joins(hash, w, q, created, now) <==>
            exists h :: h in w.pending && w.orders[w.pending[h]].state == trNew
                        && !Expired(w.orders[w.pending[h]], now) && Mirror(w.orders[w.pending[h]], NewOrder(q, created))
  {
    var tr := NewOrder(q, created);
    OnlyOneCanMirror(hash, w, tr);
    if Hash2(hash, tr) in w.pending {
      TryJoinIff(hash, w.orders[w.pending[Hash2(hash, tr)]], tr);
    }
    hide Hash2, Mirror, TryJoin, PendingOk, Unmatched, JoinsOk, JoinedOnce, ActiveOk, FreshIds;
  }

  /** With no call under way, every pending order is new and stands under its own hash, and no two of them could be joined. */
  lemma QuietBook(hash: HashFn, w: World)
    requires Inv(hash, w) && w.windows == map[] && PendingInRange(w)
    ensures forall h :: h in w.pending ==> w.orders[w.pending[h]].state == trNew && Hash1(hash, w.orders[w.pending[h]]) == h
    ensures forall h, k :: h in w.pending && k in w.pending && h != k ==> !Mirror(w.orders[w.pending[h]], w.orders[w.pending[k]])
  {
    hide Hash1, Mirror, JoinsOk, JoinedOnce, ActiveOk, FreshIds;
  }

  /** Of an active transaction: its key is its id, made from the ids of two requests with exactly mirrored currencies and amounts. */
  lemma ActivePairs(hash: HashFn, w: World, k: Bytes) returns (a: nat, b: nat)
    requires Inv(hash, w) && k in w.active
    ensures a == w.active[k] && (a, b) in w.joins && a < b < |w.orders|
    ensures Mirror(w.orders[a], w.orders[b]) && w.orders[a].second == w.orders[b].first
    ensures k == w.orders[a].id == hash(w.orders[a].first.id + w.orders[b].first.id)
  {
    hide PendingOk, Unmatched, JoinedOnce, FreshIds, Mirror;
    a := w.active[k];
    var i :| 0 <= i < |w.joins| && w.joins[i].0 == a;
    b := w.joins[i].1;
    assert w.joins[i] == (a, b);
  }

  /** In every interleaving, no order is ever part of two pairs. */
  lemma NoOrderJoinedTwice(hash: HashFn, steps: seq<Step>, i: nat, j: nat)
    requires i < j < |After(hash, steps).joins|
    ensures var joins := After(hash, steps).joins;
            joins[i].0 != joins[i].1 && joins[j].0 != joins[j].1
            && joins[i].0 != joins[j].0 && joins[i].0 != joins[j].1 && joins[i].1 != joins[j].0 && joins[i].1 != joins[j].1
  {
    hide PendingOk, Unmatched, ActiveOk, FreshIds;
    var w := After(hash, steps);
    assert Inv(hash, w);
    assert w.joins[i].0 < w.joins[i].1 && w.joins[j].0 < w.joins[j].1;
  }

  /** The request that offers what `q` wants, from the same addresses. */
  function Reflected(q: Request): Request
  {
    Request(q.id, q.sourceAddr, q.destCurrency, q.destAmount, q.destAddr, q.sourceCurrency, q.sourceAmount)
  }

  /** The world in which `q` and its reflection have been joined and `q` has come again, at this point of the joining call. */
  function Overtaken(hash: HashFn, q: Request, created: int, pending: map<Bytes, nat>, moved: bool, open: bool): World
  {
    var a, b := NewOrder(q, created), NewOrder(Reflected(q), created);
    var joined := a.(second := b.first, id := hash(a.id + b.id), state := trJoined);
    var h := Hash1(hash, a);
    World([joined, b, a], pending, if moved then map[joined.id := 0] else map[],
          if open then map[1 := if moved then Moved(h) else Open(h, 0)] else map[], [(0, 1)])
  }

  lemma ReflectedMeets(hash: HashFn, q: Request, created: int)
    ensures Hash2(hash, NewOrder(Reflected(q), created)) == Hash1(hash, NewOrder(q, created))
  {
  }

  /** The three requests. */
  lemma ThreeRequests(hash: HashFn, q: Request, created: int, now: int)
    requires Hash1(hash, NewOrder(q, created)) != Hash2(hash, NewOrder(q, created))
    requires now - created <= TTL
    ensures var w1 := FileOrJoin(hash, Empty(), q, created, now);
            && PendingInRange(w1)
            && var w2 := FileOrJoin(hash, w1, Reflected(q), created, now);
            && PendingInRange(w2)
            && FileOrJoin(hash, w2, q, created, now) == Overtaken(hash, q, created, map[Hash1(hash, NewOrder(q, created)) := 2], false, true)
  {
    var a, b := NewOrder(q, created), NewOrder(Reflected(q), created);
    ReflectedMeets(hash, q, created);
    var joined := a.(second := b.first, id := hash(a.id + b.id), state := trJoined);
    assert TryJoin(hash, a, b) == Some(joined);
    var h := Hash1(hash, a);
    assert Hash2(hash, b) == h;
    hide Hash1, Hash2, TryJoin;
    var w1 := World([a], map[h := 0], map[], map[], []);
    assert FileOrJoin(hash, Empty(), q, created, now) == w1;
    var w2 := World([joined, b], map[h := 0], map[], map[1 := Open(h, 0)], [(0, 1)]);
    assert FileOrJoin(hash, w1, Reflected(q), created, now) == w2;
    assert map[h := 0][h := 2] == map[h := 2];
    assert FileOrJoin(hash, w2, q, created, now).orders == [joined, b, a];
  }

  /** The two remaining sections of the joining call: the key goes, and with it the order filed last. */
  lemma TwoSections(hash: HashFn, q: Request, created: int)
    ensures var h := Hash1(hash, NewOrder(q, created));
            CloseCall(MoveCall(Overtaken(hash, q, created, map[h := 2], false, true), 1), 1) == Overtaken(hash, q, created, map[], true, false)
  {
    hide Hash1;
    var h := Hash1(hash, NewOrder(q, created));
    var w := Overtaken(hash, q, created, map[h := 2], false, true);
    assert MoveCall(w, 1) == Overtaken(hash, q, created, map[h := 2], true, true);
    assert map[h := 2] - {h} == map[];
    assert CloseCall(Overtaken(hash, q, created, map[h := 2], true, true), 1).windows == map[];
  }

  lemma AfterNothing(hash: HashFn)
    ensures After(hash, []) == Empty()
  {
  }

  /** One more step, wherever it makes sense. */
  function Play(hash: HashFn, w: World, s: Step): World
  {
    if PendingInRange(w) then Next(hash, w, s) else w
  }

  lemma AfterSnoc(hash: HashFn, steps: seq<Step>, s: Step)
    ensures After(hash, steps + [s]) == Play(hash, After(hash, steps), s)
  {
    assert (steps + [s])[..|steps|] == steps;
    NoSuchCall(hash, After(hash, steps));
    hide Inv, Next;
  }

  lemma AfterFive(hash: HashFn, a: Step, b: Step, c: Step, d: Step, e: Step)
    ensures After(hash, [a, b, c, d, e]) == Play(hash, Play(hash, Play(hash, Play(hash, Play(hash, Empty(), a), b), c), d), e)
  {
    AfterNothing(hash);
    hide After, Inv, Play;
    AfterSnoc(hash, [], a);
    AfterSnoc(hash, [a], b);
    AfterSnoc(hash, [a, b], c);
    AfterSnoc(hash, [a, b, c], d);
    AfterSnoc(hash, [a, b, c, d], e);
    assert [] + [a] == [a] && [a] + [b] == [a, b] && [a, b] + [c] == [a, b, c];
    assert [a, b, c] + [d] == [a, b, c, d] && [a, b, c, d] + [e] == [a, b, c, d, e];
  }

  /** An order filed while a call is between its sections can be dropped with the order it replaced. */
  lemma WindowCanLoseAnOrder(hash: HashFn, q: Request, created: int, now: int)
    requires Hash1(hash, NewOrder(q, created)) != Hash2(hash, NewOrder(q, created))
    requires now - created <= TTL
    ensures var w := After(hash, [Create(q, created, now), Create(Reflected(q), created, now), Create(q, created, now), Move(1), Close(1)]);
            |w.orders| == 3 && w.orders[2] == NewOrder(q, created) && w.pending == map[] && w.joins == [(0, 1)]
  {
    ThreeRequests(hash, q, created, now);
    TwoSections(hash, q, created);
    AfterFive(hash, Create(q, created, now), Create(Reflected(q), created, now), Create(q, created, now), Move(1), Close(1));
    hide Hash1, Hash2, FileOrJoin, MoveCall, CloseCall, Inv, After;
    var w3 := Overtaken(hash, q, created, map[Hash1(hash, NewOrder(q, created)) := 2], false, true);
    assert PendingInRange(w3);
    assert PendingInRange(MoveCall(w3, 1)) by { MoveKeepsRange(w3, 1); }
  }

  lemma MoveKeepsRange(w: World, c: nat)
    requires PendingInRange(w)
    ensures PendingInRange(MoveCall(w, c))
  {
  }

  // ----- how long an order waits -----

  /** A new order is pending under `h`. */
  predicate Waiting(w: World, h: Bytes)
  {
    h in w.pending && w.pending[h] < |w.orders| && w.orders[w.pending[h]].state == trNew
  }

  /** The step files a new order under `h`: a request with that hash that finds nothing to join. */
  predicate Files(hash: HashFn, w: World, s: Step, h: Bytes)
    requires PendingInRange(w)
  {
    s.Create? && !Joins(hash, w, s.q, s.created, s.now) && Hash1(hash, NewOrder(s.q, s.created)) == h
  }

  /** The step leaves an order waiting under `h` alone. All of this can be told before the step. */
  predicate Spares(hash: HashFn, w: World, s: Step, h: Bytes)
    requires PendingInRange(w)
  {
    match s
    case Create(q, created, now) =>
      var found := Hash2(hash, NewOrder(q, created)) == h;
      if Joins(hash, w, q, created, now) then !found
      else Hash1(hash, NewOrder(q, created)) != h && !(found && h in w.pending && Expired(w.orders[w.pending[h]], now))
    case Close(c) => !(c in w.windows && w.windows[c] == Moved(h))
    case DeletePending(k) => k != h
    case _ => true
  }

  lemma TakenWaiting(hash: HashFn, w: World, tr: Order, k: Bytes, joined: Order, h: Bytes)
    requires PendingOk(hash, w) && k in w.pending && joined.state != trNew
    ensures var w1 := Taken(w, tr, k, joined);
            && (Waiting(w1, h) <==> Waiting(w, h) && h != k)
            && (Waiting(w1, h) ==> w1.pending[h] == w.pending[h])
  {
    hide Hash1;
  }

  lemma FiledWaiting(hash: HashFn, w: World, tr: Order, dropped: set<Bytes>, h: Bytes)
    requires PendingInRange(w) && tr.state == trNew
    ensures var w1 := Filed(hash, w, tr, dropped);
            && (Waiting(w1, h) <==> Hash1(hash, tr) == h || (Waiting(w, h) && h !in dropped))
            && (Hash1(hash, tr) == h ==> w1.pending[h] == |w.orders|)
            && (Hash1(hash, tr) != h && Waiting(w, h) && h !in dropped ==> w1.pending[h] == w.pending[h])
  {
    hide Hash1;
  }

  lemma CreateWaiting(hash: HashFn, w: World, q: Request, created: int, now: int, h: Bytes)
    requires PendingInRange(w) && PendingOk(hash, w)
    ensures var s, w1 := Create(q, created, now), FileOrJoin(hash, w, q, created, now);
            && (Waiting(w1, h) <==> Files(hash, w, s, h) || (Waiting(w, h) && Spares(hash, w, s, h)))
            && (Files(hash, w, s, h) ==> w1.pending[h] == |w.orders|)
            && (Waiting(w, h) && Spares(hash, w, s, h) ==> w1.pending[h] == w.pending[h])
  {
    WhichWay(hash, w, q, created, now);
    JoinedState(hash, w, q, created, now);
    hide Hash1, Hash2, TryJoin, FileOrJoin, PendingOk, Filed, Taken, Waiting, Expired;
    var tr := NewOrder(q, created);
    if Joins(hash, w, q, created, now) {
      var k := Hash2(hash, tr);
      TakenWaiting(hash, w, tr, k, TryJoin(hash, w.orders[w.pending[k]], tr).value, h);
    } else {
      FiledWaiting(hash, w, tr, Dropped(hash, w, q, created, now), h);
    }
  }

  lemma JoinedState(hash: HashFn, w: World, q: Request, created: int, now: int)
    requires PendingInRange(w)
    ensures var tr := NewOrder(q, created);
            var h := Hash2(hash, tr);
            Joins(hash, w, q, created, now) ==>
              TryJoin(hash, w.orders[w.pending[h]], tr).value.state == trJoined
  {
    hide Hash2;
  }

  /** After any step an order waits under `h` exactly if the step files one or spares the one that waited; which of the two decides whether it is the same order. */
  lemma WaitingStep(hash: HashFn, w: World, s: Step, h: Bytes)
    requires PendingInRange(w) && PendingOk(hash, w)
    ensures var w1 := Next(hash, w, s);
            && (Waiting(w1, h) <==> Files(hash, w, s, h) || (Waiting(w, h) && Spares(hash, w, s, h)))
            && (Files(hash, w, s, h) ==> w1.pending[h] == |w.orders|)
            && (Waiting(w, h) && Spares(hash, w, s, h) ==> w1.pending[h] == w.pending[h])
  {
    hide PendingOk, Hash1, Hash2, TryJoin, FileOrJoin, Joins;
    if s.Create? {
      CreateWaiting(hash, w, s.q, s.created, s.now, h);
    }
  }

  /** One step: an order that waits goes on waiting exactly if the step spares it. */
  lemma WaitingSurvives(hash: HashFn, w: World, s: Step, h: Bytes)
    requires Inv(hash, w) && PendingInRange(w) && Waiting(w, h)
    ensures var w1 := Next(hash, w, s);
            Waiting(w1, h) && w1.pending[h] == w.pending[h] <==> Spares(hash, w, s, h)
  {
    WaitingStep(hash, w, s, h);
    FiledIsAnother(hash, w, s, h);
    hide Inv, Next, Spares, Files, PendingOk;
  }

  lemma FiledIsAnother(hash: HashFn, w: World, s: Step, h: Bytes)
    requires PendingInRange(w) && Waiting(w, h)
    ensures Files(hash, w, s, h) ==> !Spares(hash, w, s, h) && w.pending[h] != |w.orders|
  {
    hide Hash1, Hash2, Joins;
  }

  /** The worlds of a run. */
  ghost function RunFrom(hash: HashFn, w: World, steps: seq<Step>): (w1: World)
    requires Inv(hash, w)
    ensures Inv(hash, w1) && PendingInRange(w1)
    decreases |steps|
  {
    NoSuchCall(hash, w);
    if steps == [] then w
    else
      var front := RunFrom(hash, w, steps[..|steps| - 1]);
      StepKeepsInv(hash, front, steps[|steps| - 1]);
      NoSuchCall(hash, Next(hash, front, steps[|steps| - 1]));
      Next(hash, front, steps[|steps| - 1])
  }

  /** Step `i` of the run files an order under `h`. */
  ghost predicate FiledAt(hash: HashFn, w: World, steps: seq<Step>, i: nat, h: Bytes)
    requires Inv(hash, w) && i < |steps|
  {
    Files(hash, RunFrom(hash, w, steps[..i]), steps[i], h)
  }

  /** All steps of the run from `i` on spare what waits under `h`. */
  ghost predicate SparedFrom(hash: HashFn, w: World, steps: seq<Step>, i: nat, h: Bytes)
    requires Inv(hash, w) && i <= |steps|
  {
    forall j :: i <= j < |steps| ==> SparedAt(hash, w, steps, j, h)
  }

  /** Some order was filed under `h` in the run and has been spared since. */
  ghost predicate FiledAndSpared(hash: HashFn, w: World, steps: seq<Step>, h: Bytes)
    requires Inv(hash, w)
  {
    exists i :: 0 <= i < |steps| && FiledAt(hash, w, steps, i, h) && SparedFrom(hash, w, steps, i + 1, h)
  }

  /** After any run an order waits under `h` exactly if one waited from the start and was spared throughout, or one was filed and has been spared since. */
  lemma {:induction false} WaitingRun(hash: HashFn, w: World, steps: seq<Step>, h: Bytes)
    requires Inv(hash, w)
    ensures Waiting(RunFrom(hash, w, steps), h) <==>
            (Waiting(w, h) && SparedFrom(hash, w, steps, 0, h)) || FiledAndSpared(hash, w, steps, h)
    decreases |steps|
  {
    hide Waiting, Spares, Files, Next, SparedFrom, FiledAndSpared, PendingOk, Unmatched, JoinsOk, JoinedOnce, ActiveOk, FreshIds;
    if steps == [] {
      NothingBehind(hash, w, steps, h);
      NothingFiled(hash, w, h);
    } else {
      var n := |steps| - 1;
      var front, last := steps[..n], steps[n];
      var w0 := RunFrom(hash, w, front);
      assert PendingOk(hash, w0) by { assert Inv(hash, w0); }
      WaitingRun(hash, w, front, h);
      WaitingStep(hash, w0, last, h);
      SparedSnoc(hash, w, steps, 0, h);
      FiledSnoc(hash, w, steps, h);
    }
  }

  /** Step `j` of the run spares what waits under `h`. */
  ghost predicate SparedAt(hash: HashFn, w: World, steps: seq<Step>, j: nat, h: Bytes)
    requires Inv(hash, w) && j < |steps|
  {
    Spares(hash, RunFrom(hash, w, steps[..j]), steps[j], h)
  }

  /** What a step of a run does, it does in every longer run. */
  lemma SameInFront(hash: HashFn, w: World, steps: seq<Step>, j: nat, h: Bytes)
    requires Inv(hash, w) && j + 1 < |steps|
    ensures var front := steps[..|steps| - 1];
            && SparedAt(hash, w, steps, j, h) == SparedAt(hash, w, front, j, h)
            && FiledAt(hash, w, steps, j, h) == FiledAt(hash, w, front, j, h)
  {
    hide Spares, Files, Inv, RunFrom;
    assert steps[..|steps| - 1][..j] == steps[..j];
  }

  lemma SparedSnoc(hash: HashFn, w: World, steps: seq<Step>, i: nat, h: Bytes)
    requires Inv(hash, w) && i < |steps|
    ensures var n := |steps| - 1;
            SparedFrom(hash, w, steps, i, h) <==>
            SparedFrom(hash, w, steps[..n], i, h) && SparedAt(hash, w, steps, n, h)
  {
    hide SparedAt, Inv;
    var n := |steps| - 1;
    forall j | i <= j < n
      ensures SparedAt(hash, w, steps, j, h) == SparedAt(hash, w, steps[..n], j, h)
    {
      SameInFront(hash, w, steps, j, h);
    }
  }

  lemma FiledSnoc(hash: HashFn, w: World, steps: seq<Step>, h: Bytes)
    requires Inv(hash, w) && steps != []
    ensures var n := |steps| - 1;
            FiledAndSpared(hash, w, steps, h) <==>
            FiledAt(hash, w, steps, n, h) || (FiledAndSpared(hash, w, steps[..n], h) && SparedAt(hash, w, steps, n, h))
  {
    hide SparedAt, FiledAt, Inv, SparedFrom;
    var n := |steps| - 1;
    var front := steps[..n];
    forall i | 0 <= i < n
      ensures FiledAt(hash, w, steps, i, h) == FiledAt(hash, w, front, i, h)
      ensures SparedFrom(hash, w, steps, i + 1, h) <==> SparedFrom(hash, w, front, i + 1, h) && SparedAt(hash, w, steps, n, h)
    {
      SameInFront(hash, w, steps, i, h);
      SparedSnoc(hash, w, steps, i + 1, h);
    }
    assert SparedFrom(hash, w, steps, n + 1, h) by { NothingBehind(hash, w, steps, h); }
    if FiledAndSpared(hash, w, front, h) && SparedAt(hash, w, steps, n, h) {
      var i :| 0 <= i < |front| && FiledAt(hash, w, front, i, h) && SparedFrom(hash, w, front, i + 1, h);
      assert FiledAt(hash, w, steps, i, h) && SparedFrom(hash, w, steps, i + 1, h);
    }
    if FiledAndSpared(hash, w, steps, h) {
      var i :| 0 <= i < |steps| && FiledAt(hash, w, steps, i, h) && SparedFrom(hash, w, steps, i + 1, h);
      assert i < n ==> FiledAt(hash, w, front, i, h) && SparedFrom(hash, w, front, i + 1, h);
    }
  }

  lemma NothingFiled(hash: HashFn, w: World, h: Bytes)
    requires Inv(hash, w)
    ensures !FiledAndSpared(hash, w, [], h)
  {
  }

  lemma NothingBehind(hash: HashFn, w: World, steps: seq<Step>, h: Bytes)
    requires Inv(hash, w)
    ensures SparedFrom(hash, w, steps, |steps|, h)
  {
  }

  /** A call that joins opens a window for the key of the order it joined, under which no order waits from then on. */
  lemma JoinOpensWindow(hash: HashFn, w: World, q: Request, created: int, now: int)
    requires Inv(hash, w) && PendingInRange(w) && Joins(hash, w, q, created, now)
    ensures var w1, h := FileOrJoin(hash, w, q, created, now), Hash2(hash, NewOrder(q, created));
            && Inv(hash, w1) && !Waiting(w1, h)
            && |w.orders| in w1.windows && w1.windows[|w.orders|].Open? && w1.windows[|w.orders|].h == h
  {
    FileOrJoinKeepsInv(hash, w, q, created, now);
    WhichWay(hash, w, q, created, now);
    JoinedState(hash, w, q, created, now);
    hide Inv, FileOrJoin, Hash2, TryJoin;
  }

  /** No request of the run has the hash `h`. */
  predicate NoneFor(hash: HashFn, steps: seq<Step>, h: Bytes)
  {
    forall i :: 0 <= i < |steps| && steps[i].Create? ==> Hash1(hash, NewOrder(steps[i].q, steps[i].created)) != h
  }

  /**
   The window of a call that has joined an order under key `h`: its third section drops an order
   that is still waiting exactly if a request was filed under `h` since the first and spared by
   all steps behind it. Nothing is lost when no request with that hash comes in between.
   */
  lemma CloseDropsWaiting(hash: HashFn, w: World, steps: seq<Step>, c: nat, h: Bytes)
    requires Inv(hash, w) && !Waiting(w, h)
    requires c in RunFrom(hash, w, steps).windows && RunFrom(hash, w, steps).windows[c] == Moved(h)
    ensures var w1 := RunFrom(hash, w, steps);
            && !Waiting(CloseCall(w1, c), h)
            && (Waiting(w1, h) <==> FiledAndSpared(hash, w, steps, h))
            && (NoneFor(hash, steps, h) ==> !Waiting(w1, h))
            && (forall k :: k != h ==> (Waiting(CloseCall(w1, c), k) <==> Waiting(w1, k)))
  {
    WaitingRun(hash, w, steps, h);
    if NoneFor(hash, steps, h) {
      NoneFiled(hash, w, steps, h);
    }
    CloseWaiting(RunFrom(hash, w, steps), c, h);
    hide *;
  }

  lemma CloseWaiting(w: World, c: nat, h: Bytes)
    requires c in w.windows && w.windows[c] == Moved(h)
    ensures !Waiting(CloseCall(w, c), h)
    ensures forall k :: k != h ==> (Waiting(CloseCall(w, c), k) <==> Waiting(w, k))
  {
  }

  lemma NoneFiled(hash: HashFn, w: World, steps: seq<Step>, h: Bytes)
    requires Inv(hash, w) && NoneFor(hash, steps, h)
    ensures !FiledAndSpared(hash, w, steps, h)
  {
    hide Hash1, Joins, SparedFrom, Inv, RunFrom;
  }

  // ----- the object of the source -----

  /** Orders behind shared pointers are kept in `orders` and named by their number. */
  class XBridgeExchange {
    const hash: HashFn
    var orders: seq<Order>
    var pending: map<Bytes, nat>
    var active: map<Bytes, nat>
    ghost var windows: map<nat, Window>
    ghost var joins: seq<(nat, nat)>

    ghost function Now(): World
      reads this
    {
      World(orders, pending, active, windows, joins)
    }

    constructor (hash: HashFn)
      ensures Now() == Empty() && this.hash == hash && Inv(hash, Now())
    {
      this.hash := hash;
      orders, pending, active, windows, joins := [], map[], map[], map[], [];
    }

    /** Under the lock of the pending orders. */
    method FileOrJoinSection(q: Request, created: int, now: int) returns (h: Bytes, tmp: Option<nat>)
      requires PendingInRange(Now())
      modifies this
      ensures Now() == FileOrJoin(hash, old(Now()), q, created, now)
      ensures tmp.Some? <==> Joins(hash, old(Now()), q, created, now)
      ensures tmp.Some? ==> |old(orders)| in windows && windows[|old(orders)|] == Open(h, tmp.value) && tmp.value < |orders|
    {
      hide Hash1, Hash2;
      var tr, r := NewOrder(q, created), |orders|;
      orders := orders + [tr];
      h := Hash2(hash, tr);
      tmp := None;
      if h !in pending {
        h := Hash1(hash, tr);
        pending := pending[h := r];
      } else if Expired(orders[pending[h]], now) {
        pending := pending - {h};
        h := Hash1(hash, tr);
        pending := pending[h := r];
      } else {
        var joined := TryJoin(hash, orders[pending[h]], tr);
        if joined.None? {
          h := Hash1(hash, tr);
          pending := pending[h := r];
        } else {
          orders := orders[pending[h] := joined.value];
          tmp := Some(pending[h]);
          windows, joins := windows[r := Open(h, pending[h])], joins + [(pending[h], r)];
        }
      }
    }

    /** Under the lock of the active transactions. */
    method MoveSection(ghost call: nat, h: Bytes, tmp: nat) returns (id: Bytes)
      requires call in windows && windows[call] == Open(h, tmp) && tmp < |orders|
      modifies this
      ensures Now() == MoveCall(old(Now()), call) && id == orders[tmp].id
      ensures call in windows && windows[call] == Moved(h)
    {
      id := orders[tmp].id;
      active := active[id := tmp];
      windows := windows[call := Moved(h)];
    }

    /** Under the lock of the pending orders again. */
    method CloseSection(ghost call: nat, h: Bytes)
      requires call in windows && windows[call] == Moved(h)
      modifies this
      ensures Now() == CloseCall(old(Now()), call)
    {
      pending := pending - {h};
      windows := windows - {call};
    }

    /** One call with nothing in between: it joins and activates the pair, or files the request, and tells which. */
    method CreateTransaction(q: Request, created: int, now: int) returns (transactionId: Option<Bytes>)
      requires Inv(hash, Now())
      modifies this
      ensures Inv(hash, Now())
      ensures PendingInRange(old(Now())) && (transactionId.Some? <==> Joins(hash, old(Now()), q, created, now))
      ensures transactionId.Some? ==>
        && transactionId.value in active && orders[active[transactionId.value]].id == transactionId.value
        && joins == old(joins) + [(active[transactionId.value], |old(orders)|)]
      ensures transactionId.None? ==>
        && joins == old(joins) && active == old(active)
        && Hash1(hash, NewOrder(q, created)) in pending && pending[Hash1(hash, NewOrder(q, created))] == |old(orders)|
      ensures old(windows) == map[] ==> windows == map[]
    {
      hide Inv, FileOrJoin, MoveCall, CloseCall, Hash1, Hash2, Joins;
      ghost var w0, r := Now(), |orders|;
      StepKeepsInv(hash, w0, Create(q, created, now));
      AfterFiling(hash, w0, q, created, now);
      var h, tmp := FileOrJoinSection(q, created, now);
      if tmp.None? {
        return None;
      }
      ghost var w1 := Now();
      StepKeepsInv(hash, w1, Move(r));
      var id := MoveSection(r, h, tmp.value);
      AfterMove(w1, r);
      ghost var w2 := Now();
      StepKeepsInv(hash, w2, Close(r));
      CloseSection(r, h);
      AfterClose(w2, r);
      return Some(id);
    }
  }

  lemma AfterFiling(hash: HashFn, w: World, q: Request, created: int, now: int)
    requires Inv(hash, w) && PendingInRange(w)
    ensures var w1, r := FileOrJoin(hash, w, q, created, now), |w.orders|;
            && w1.active == w.active
            && (Joins(hash, w, q, created, now) ==>
                  && r in w1.windows && w1.windows[r].Open? && w1.joins == w.joins + [(w1.windows[r].r, r)]
                  && w1.windows - {r} == w.windows)
            && (!Joins(hash, w, q, created, now) ==>
                  && w1.joins == w.joins && w1.windows == w.windows
                  && Hash1(hash, NewOrder(q, created)) in w1.pending && w1.pending[Hash1(hash, NewOrder(q, created))] == r)
  {
    NoSuchCall(hash, w);
    WhichWay(hash, w, q, created, now);
    hide Inv, FileOrJoin, Hash1, Hash2, TryJoin;
  }

  lemma AfterMove(w: World, c: nat)
    requires c in w.windows && w.windows[c].Open? && w.windows[c].r < |w.orders|
    ensures var w1 := MoveCall(w, c);
            && w1.orders == w.orders && w1.joins == w.joins && w1.windows - {c} == w.windows - {c}
            && w1.orders[w.windows[c].r].id in w1.active && w1.active[w1.orders[w.windows[c].r].id] == w.windows[c].r
  {
  }

  lemma AfterClose(w: World, c: nat)
    requires c in w.windows && w.windows[c].Moved?
    ensures var w1 := CloseCall(w, c);
            w1.orders == w.orders && w1.joins == w.joins && w1.active == w.active && w1.windows == w.windows - {c}
  {
  }
}
