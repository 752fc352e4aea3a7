/**
 The keys of the order book, over the requests behind them: different orders do not get into each
 other's way, and what one request does to the order that waits is said without keys.
 */
module OrderKeys {
  import opened Bytes
  import opened SwapPhases
  import opened OrderBook
  import opened Wrappers

  /** The one assumption made about the hash, and in this module only. */
  ghost predicate NoCollisions(hash: HashFn)
  {
    forall x, y :: hash(x) == hash(y) ==> x == y
  }

  /** Both offer the same and want the same. */
  predicate SameTerms(p: Request, q: Request)
  {
    && p.sourceCurrency == q.sourceCurrency && p.sourceAmount == q.sourceAmount
    && p.destCurrency == q.destCurrency && p.destAmount == q.destAmount
  }

  /** Each offers what the other wants. */
  predicate OppositeTerms(p: Request, q: Request)
  {
    && p.sourceCurrency == q.destCurrency && p.sourceAmount == q.destAmount
    && p.destCurrency == q.sourceCurrency && p.destAmount == q.sourceAmount
  }

  lemma SplitAt(a: Bytes, b: Bytes, x: Bytes, y: Bytes)
    requires a + x == b + y && |a| == |b|
    ensures a == b && x == y
  {
    assert (a + x)[..|a|] == a && (b + y)[..|a|] == b;
    assert (a + x)[|a|..] == x && (b + y)[|a|..] == y;
  }

  lemma AmountBytes(m: u64, n: u64)
    requires ToLE(m, 8) == ToLE(n, 8)
    ensures m == n
  {
    Spans();
    FromToLEFits(m, 8);
    FromToLEFits(n, 8);
  }

  /** Without collisions, and with source currencies of one length, two orders share a hash exactly if all four terms agree. */
  lemma HashTells(hash: HashFn, c1: Bytes, a1: u64, d1: Bytes, b1: u64, c2: Bytes, a2: u64, d2: Bytes, b2: u64)
    requires NoCollisions(hash) && |c1| == |c2|
    ensures HashOf(hash, c1, a1, d1, b1) == HashOf(hash, c2, a2, d2, b2) <==> c1 == c2 && a1 == a2 && d1 == d2 && b1 == b2
  {
    hide ToLE;
    var x, y := c1 + ToLE(a1, 8) + d1 + ToLE(b1, 8), c2 + ToLE(a2, 8) + d2 + ToLE(b2, 8);
    if hash(x) == hash(y) {
      assert x == y && |d1| == |d2|;
      SplitAt(c1 + ToLE(a1, 8) + d1, c2 + ToLE(a2, 8) + d2, ToLE(b1, 8), ToLE(b2, 8));
      SplitAt(c1 + ToLE(a1, 8), c2 + ToLE(a2, 8), d1, d2);
      SplitAt(c1, c2, ToLE(a1, 8), ToLE(a2, 8));
      AmountBytes(a1, a2);
      AmountBytes(b1, b2);
    }
  }

  /** The key under which a request is filed tells its terms, and the key it looks under those of its mirror image. */
  lemma KeysTell(hash: HashFn, p: Request, q: Request, created1: int, created2: int)
    requires NoCollisions(hash)
    ensures |p.sourceCurrency| == |q.sourceCurrency| ==>
              (Hash1(hash, NewOrder(p, created1)) == Hash1(hash, NewOrder(q, created2)) <==> SameTerms(p, q))
    ensures |p.sourceCurrency| == |q.destCurrency| ==>
              (Hash1(hash, NewOrder(p, created1)) == Hash2(hash, NewOrder(q, created2)) <==> OppositeTerms(p, q))
  {
    hide HashOf, NoCollisions;
    if |p.sourceCurrency| == |q.sourceCurrency| {
      HashTells(hash, p.sourceCurrency, p.sourceAmount, p.destCurrency, p.destAmount,
                q.sourceCurrency, q.sourceAmount, q.destCurrency, q.destAmount);
    }
    if |p.sourceCurrency| == |q.destCurrency| {
      HashTells(hash, p.sourceCurrency, p.sourceAmount, p.destCurrency, p.destAmount,
                q.destCurrency, q.destAmount, q.sourceCurrency, q.sourceAmount);
    }
  }

  /** Nothing marks where a currency ends: A for BC and AB for C can be the same to the hash. */
  lemma LengthsMislead(hash: HashFn, b: u64)
    ensures HashOf(hash, [0x41], 0x4242_4242_4242_4242, [0x42, 0x43], b) == HashOf(hash, [0x41, 0x42], 0x4242_4242_4242_4242, [0x43], b)
  {
    var amount := 0x4242_4242_4242_4242;
    Spans();
    SameDigits();
    assert [0x41] + ToLE(amount, 8) + [0x42, 0x43] == [0x41, 0x42] + ToLE(amount, 8) + [0x43];
    hide ToLE;
  }

  lemma SameDigits()
    ensures ToLE(0x4242_4242_4242_4242, 8) == [0x42, 0x42, 0x42, 0x42, 0x42, 0x42, 0x42, 0x42]
  {
    hide ToLE;
    Digit(0x4242_4242_4242_4242, 8);
    Digit(0x42_4242_4242_4242, 7);
    Digit(0x4242_4242_4242, 6);
    Digit(0x42_4242_4242, 5);
    Digit(0x4242_4242, 4);
    Digit(0x42_4242, 3);
    Digit(0x4242, 2);
    Digit(0x42, 1);
    assert ToLE(0, 0) == [];
  }

  lemma Digit(n: nat, width: nat)
    requires width > 0
    ensures ToLE(n, width) == [n % 256] + ToLE(n / 256, width - 1)
  {
  }

  /** Order `r` waits, made from request `p` at this time. */
  predicate WaitsFrom(w: World, h: Bytes, r: nat, p: Request, made: int)
  {
    h in w.pending && w.pending[h] == r < |w.orders| && w.orders[r] == NewOrder(p, made)
  }

  /**
   A request meets a waiting order. One on opposite terms, within 150 seconds, is joined with it: the
   order gets the second party and a new id. One on opposite terms that comes later drops it, one on
   the same terms replaces it, and any other leaves it waiting just as it was.
   */
  lemma RequestMeetsOrder(hash: HashFn, w: World, h: Bytes, r: nat, p: Request, made: int, q: Request, created: int, now: int)
    requires NoCollisions(hash) && Inv(hash, w) && PendingInRange(w) && WaitsFrom(w, h, r, p, made)
    requires |p.sourceCurrency| == |q.sourceCurrency| == |q.destCurrency|
    ensures var w1, n := FileOrJoin(hash, w, q, created, now), |w.orders|;
            && |w1.orders| == n + 1
            && (OppositeTerms(p, q) && now - made <= 150 ==>
                  && w1.joins == w.joins + [(r, n)] && w1.pending == w.pending
                  && w1.orders[r] == Order(hash(p.id + q.id), made, trJoined,
                                           p.sourceCurrency, p.sourceAmount, p.destCurrency, p.destAmount,
                                           Member(p.id, p.sourceAddr, p.destAddr), Member(q.id, q.sourceAddr, q.destAddr)))
            && (OppositeTerms(p, q) && now - made > 150 ==>
                  w1.joins == w.joins && (h in w1.pending ==> w1.pending[h] == n))
            && (!OppositeTerms(p, q) && SameTerms(p, q) ==>
                  w1.joins == w.joins && WaitsFrom(w1, h, n, q, created))
            && (!OppositeTerms(p, q) && !SameTerms(p, q) ==> WaitsFrom(w1, h, r, p, made))
  {
    hide NoCollisions, Hash1, Hash2, SameTerms, OppositeTerms;
    assert PendingOk(hash, w);
    KeysTell(hash, p, q, made, created);
    WhichWay(hash, w, q, created, now);
    if OppositeTerms(p, q) {
      MeetsOpposite(hash, w, h, r, p, made, q, created, now);
    } else if SameTerms(p, q) {
      NoOtherMirror(hash, w, h, r, p, made, q, created, now);
    }
    hide Inv, PendingOk, FileOrJoin, TryJoin;
  }

  lemma MeetsOpposite(hash: HashFn, w: World, h: Bytes, r: nat, p: Request, made: int, q: Request, created: int, now: int)
    requires PendingInRange(w) && WaitsFrom(w, h, r, p, made) && OppositeTerms(p, q) && Hash2(hash, NewOrder(q, created)) == h
    ensures Joins(hash, w, q, created, now) <==> now - made <= 150
    ensures Joins(hash, w, q, created, now) ==>
              TryJoin(hash, w.orders[r], NewOrder(q, created))
              == Some(Order(hash(p.id + q.id), made, trJoined, p.sourceCurrency, p.sourceAmount, p.destCurrency, p.destAmount,
                            Member(p.id, p.sourceAddr, p.destAddr), Member(q.id, q.sourceAddr, q.destAddr)))
    ensures h in Dropped(hash, w, q, created, now) <==> now - made > 150
  {
    hide Hash2;
  }

  /** While one order waits, no other that waits is on opposite terms, so that a second one on the same terms joins nothing. */
  lemma NoOtherMirror(hash: HashFn, w: World, h: Bytes, r: nat, p: Request, made: int, q: Request, created: int, now: int)
    requires Inv(hash, w) && PendingInRange(w) && WaitsFrom(w, h, r, p, made) && SameTerms(p, q) && !OppositeTerms(p, q)
    ensures !Joins(hash, w, q, created, now)
  {
    hide Hash1, PendingOk, JoinsOk, JoinedOnce, ActiveOk, FreshIds;
    JoinsIff(hash, w, q, created, now);
  }

  /** A request that finds no order on opposite terms is filed with its terms and parties, new and made when it was. */
  lemma FiledAsMade(hash: HashFn, w: World, q: Request, created: int, now: int)
    requires PendingInRange(w) && !Joins(hash, w, q, created, now)
    ensures var w1, n := FileOrJoin(hash, w, q, created, now), |w.orders|;
            && w1.orders == w.orders + [Order(q.id, created, trNew, q.sourceCurrency, q.sourceAmount, q.destCurrency, q.destAmount,
                                              Member(q.id, q.sourceAddr, q.destAddr), Member([], [], []))]
            && exists h :: h in w1.pending && w1.pending[h] == n
  {
    hide Hash2;
    WhichWay(hash, w, q, created, now);
    var tr := NewOrder(q, created);
    var w1 := FileOrJoin(hash, w, q, created, now);
    assert Hash1(hash, tr) in w1.pending && w1.pending[Hash1(hash, tr)] == |w.orders|;
    hide FileOrJoin, Hash1;
  }
}
