/**
 Memory locks that stack (allocators.h:43-125): a counter per page stands for the ranges
 still locked, and the operating system's lock on a page is held while any of them touches it.
 The ghost field `live` lists these ranges; `Describes` says that the counters agree with it.
 */
module PageLocks {
  import opened Bytes

  /** Addresses and sizes are unsigned 64-bit numbers. */
  const ADDRESSES: nat := 0x1_0000_0000_0000_0000

  type Address = a: int | 0 <= a < 0x1_0000_0000_0000_0000

  datatype Range = Range(p: Address, size: Address)

  /** 2 to the power `k`. */
  function Power(k: nat): (n: nat)
    ensures n > 0
  {
    if k == 0 then 1 else 2 * Power(k - 1)
  }

  /** What the constructor asserts of the page size. */
  ghost predicate IsPageSize(ps: nat)
  {
    exists k: nat :: k < 64 && ps == Power(k)
  }

  lemma {:induction false} PowerSplits(j: nat, k: nat)
    ensures Power(j + k) == Power(j) * Power(k)
  {
    if j > 0 {
      PowerSplits(j - 1, k);
      PowerStep(j - 1);
      PowerStep(j + k - 1);
      hide Power;
      MulAssoc(Power(j - 1), Power(k));
    }
  }

  lemma PowerStep(j: nat)
    ensures Power(j + 1) == 2 * Power(j)
  {
  }

  lemma MulAssoc(a: nat, b: nat)
    ensures (2 * a) * b == 2 * (a * b)
  {
  }

  lemma Power64()
    ensures Power(64) == ADDRESSES
  {
    assert Power(8) == 256;
    PowerSplits(8, 8);
    PowerSplits(16, 16);
    PowerSplits(32, 32);
    hide Power;
    assert Power(16) == 0x1_0000;
  }

  /** The address space is a whole number of pages, two at least. */
  lemma WholePages(ps: nat)
    requires IsPageSize(ps)
    ensures 0 < ps && ADDRESSES % ps == 0 && 2 * ps <= ADDRESSES
  {
    var k: nat :| k < 64 && ps == Power(k);
    Power64();
    PowerSplits(64 - k, k);
    var half := Power(64 - k - 1);
    assert Power(64 - k) == 2 * half;
    hide Power;
    WholeNumber(ps, half);
  }

  lemma WholeNumber(ps: nat, half: nat)
    requires ps > 0 && half > 0 && ADDRESSES == 2 * half * ps
    ensures ADDRESSES % ps == 0 && 2 * ps <= ADDRESSES
  {
    assert 2 * half * ps == ps * (2 * half);
    ModUnique(ADDRESSES, ps, 2 * half, 0);
    assert 2 * half * ps == (2 * ps) * half;
    MulAtLeast(2 * ps, half);
  }

  lemma MulOrder(ps: nat, i: nat, j: nat)
    requires ps > 0 && j < i
    ensures ps * j < ps * i
  {
    MulAtLeast(ps, i - j);
    assert ps * i == ps * j + ps * (i - j);
  }

  /** The page an address lies in: masking with a power of two. */
  function PageOf(ps: nat, a: nat): (page: nat)
    requires ps > 0
    ensures page <= a < page + ps && page % ps == 0
  {
    PageStart(ps, a);
    a - a % ps
  }

  lemma PageStart(ps: nat, a: nat)
    requires ps > 0
    ensures a % ps <= a && (a - a % ps) % ps == 0
  {
    var k := a / ps;
    assert a - a % ps == ps * k;
    ModUnique(ps * k, ps, k, 0);
  }

  function StartPage(ps: nat, r: Range): nat
    requires ps > 0
  {
    PageOf(ps, r.p)
  }

  /** The sum may wrap around. */
  function EndPage(ps: nat, r: Range): nat
    requires ps > 0 && r.size > 0
  {
    PageOf(ps, (r.p + r.size - 1) % ADDRESSES)
  }

  predicate Touches(ps: nat, r: Range, page: nat)
    requires ps > 0
  {
    r.size > 0 && page % ps == 0 && StartPage(ps, r) <= page <= EndPage(ps, r)
  }

  /** Two multiples of the page size closer than one page are the same. */
  lemma SamePage(ps: nat, a: nat, b: nat)
    requires ps > 0 && a % ps == 0 && b % ps == 0 && a <= b < a + ps
    ensures a == b
  {
    var i, j := a / ps, b / ps;
    assert a == ps * i && b == ps * j;
    ModUnique(b, ps, i, b - a);
  }

  lemma NextPage(ps: nat, a: nat)
    requires ps > 0 && a % ps == 0
    ensures (a + ps) % ps == 0
  {
    assert a + ps == ps * (a / ps + 1);
    ModUnique(a + ps, ps, a / ps + 1, 0);
  }

  predicate HasByte(r: Range, a: nat)
  {
    r.p <= a < r.p + r.size
  }

  /** A page is up to the page of an address, or from it on, as it is to the address itself. */
  lemma PageOrder(ps: nat, a: nat, page: nat)
    requires ps > 0 && page % ps == 0
    ensures PageOf(ps, a) <= page <==> a < page + ps
    ensures page <= PageOf(ps, a) <==> page <= a
  {
    var b := PageOf(ps, a);
    hide PageOf;
    if page < b {
      BetweenPages(ps, page, b);
    } else if b < page {
      BetweenPages(ps, b, page);
    }
  }

  lemma TouchesIffOverlaps(ps: nat, r: Range, page: nat)
    requires ps > 0 && page % ps == 0 && r.p + r.size <= ADDRESSES && r.size > 0
    ensures Touches(ps, r, page) <==> r.p < page + ps && page < r.p + r.size
  {
    var last := r.p + r.size - 1;
    assert last % ADDRESSES == last;
    PageOrder(ps, r.p, page);
    PageOrder(ps, last, page);
    hide PageOf;
  }

  /** A range that does not wrap touches exactly the pages it has a byte in. */
  lemma TouchesIffShares(ps: nat, r: Range, page: nat)
    requires ps > 0 && page % ps == 0 && r.p + r.size <= ADDRESSES
    ensures Touches(ps, r, page) <==> exists a: nat :: HasByte(r, a) && page <= a < page + ps
  {
    if r.size > 0 {
      TouchesIffOverlaps(ps, r, page);
      hide Touches;
      assert Touches(ps, r, page) ==> HasByte(r, if r.p < page then page else r.p);
    }
  }

  lemma BetweenPages(ps: nat, a: nat, b: nat)
    requires ps > 0 && a % ps == 0 && b % ps == 0 && a < b
    ensures a + ps <= b
  {
    if b < a + ps {
      SamePage(ps, a, b);
    }
  }

  // ----- counting -----

  /** How many of the ranges touch the page. */
  function Count(ps: nat, live: seq<Range>, page: nat): (n: nat)
    requires ps > 0
  {
    if live == [] then 0 else (if Touches(ps, live[0], page) then 1 else 0) + Count(ps, live[1..], page)
  }

  lemma {:induction false} CountConcat(ps: nat, a: seq<Range>, b: seq<Range>, page: nat)
    requires ps > 0
    ensures Count(ps, a + b, page) == Count(ps, a, page) + Count(ps, b, page)
  {
    hide Touches;
    if a == [] {
      assert a + b == b;
    } else {
      assert (a + b)[1..] == a[1..] + b;
      CountConcat(ps, a[1..], b, page);
    }
  }

  lemma CountOne(ps: nat, r: Range, page: nat)
    requires ps > 0
    ensures Count(ps, [r], page) == if Touches(ps, r, page) then 1 else 0
  {
    hide Touches;
    assert [r][1..] == [];
  }

  /** Take away one occurrence. */
  function Without(live: seq<Range>, i: nat): (rest: seq<Range>)
    requires i < |live|
    ensures multiset(rest) == multiset(live) - multiset{live[i]}
  {
    assert live == live[..i] + [live[i]] + live[i + 1..];
    live[..i] + live[i + 1..]
  }

  lemma CountWithout(ps: nat, live: seq<Range>, i: nat, page: nat)
    requires ps > 0 && i < |live|
    ensures Count(ps, live, page) == Count(ps, Without(live, i), page) + if Touches(ps, live[i], page) then 1 else 0
  {
    hide Touches;
    assert live == live[..i] + ([live[i]] + live[i + 1..]);
    CountConcat(ps, live[..i], [live[i]] + live[i + 1..], page);
    CountConcat(ps, [live[i]], live[i + 1..], page);
    CountConcat(ps, live[..i], live[i + 1..], page);
    CountOne(ps, live[i], page);
  }

  /** Only which ranges are live matters, not in what order they were locked. */
  lemma {:induction false} CountOfMultiset(ps: nat, a: seq<Range>, b: seq<Range>, page: nat)
    requires ps > 0 && multiset(a) == multiset(b)
    ensures Count(ps, a, page) == Count(ps, b, page)
    decreases |a|
  {
    hide Touches;
    if a == [] {
      assert |multiset(b)| == 0;
    } else {
      assert a[0] in multiset(b);
      var i :| 0 <= i < |b| && b[i] == a[0];
      assert a == [a[0]] + a[1..];
      CountWithout(ps, b, i, page);
      CountOfMultiset(ps, a[1..], Without(b, i), page);
    }
  }

  // ----- the histogram -----

  function Get(h: map<nat, int>, page: nat): int
  {
    if page in h then h[page] else 0
  }

  /** The histogram holds, for every page with a live range, the number of live ranges touching it, and nothing else. */
  ghost predicate Describes(ps: nat, h: map<nat, int>, live: seq<Range>)
    requires ps > 0
  {
    forall page: nat :: Get(h, page) == Count(ps, live, page) && (page in h ==> h[page] > 0)
  }

  /** The live ranges determine the histogram; in particular locking and unlocking a range restores it. */
  lemma HistogramIsDetermined(ps: nat, g: map<nat, int>, h: map<nat, int>, a: seq<Range>, b: seq<Range>)
    requires ps > 0 && Describes(ps, g, a) && Describes(ps, h, b) && multiset(a) == multiset(b)
    ensures g == h
  {
    forall page: nat
      ensures Get(g, page) == Get(h, page)
      ensures page in g <==> page in h
    {
      CountOfMultiset(ps, a, b, page);
      assert Get(g, page) == Count(ps, a, page) && Get(h, page) == Count(ps, b, page);
    }
    assert g.Keys == h.Keys;
    assert forall page :: page in g ==> g[page] == Get(g, page) && h[page] == Get(h, page);
  }

  /** The pages of `r` below `upTo` have been counted `delta` more than before, and no others. */
  ghost predicate Bumped(ps: nat, h0: map<nat, int>, h: map<nat, int>, r: Range, upTo: nat, delta: int)
    requires ps > 0
  {
    forall q: nat :: Get(h, q) == Get(h0, q) + if Touches(ps, r, q) && q < upTo then delta else 0
  }

  ghost predicate AllPositive(h: map<nat, int>)
  {
    forall q :: q in h ==> h[q] > 0
  }

  /** One turn of the loop: there is no other page before the next one. */
  lemma OnePage(ps: nat, h0: map<nat, int>, h: map<nat, int>, h1: map<nat, int>, r: Range, page: nat, delta: int)
    requires ps > 0 && Bumped(ps, h0, h, r, page, delta) && Touches(ps, r, page)
    requires forall q: nat :: Get(h1, q) == Get(h, q) + if q == page then delta else 0
    ensures Bumped(ps, h0, h1, r, page + ps, delta) && (page + ps) % ps == 0
  {
    NextPage(ps, page);
    forall q: nat
      ensures Get(h1, q) == Get(h0, q) + if Touches(ps, r, q) && q < page + ps then delta else 0
    {
      if Touches(ps, r, q) && page <= q < page + ps {
        SamePage(ps, page, q);
      }
    }
  }

  lemma NothingBumped(ps: nat, h: map<nat, int>, live: seq<Range>, r: Range, delta: int)
    requires ps > 0 && Describes(ps, h, live)
    ensures AllPositive(h) && (r.size > 0 ==> Bumped(ps, h, h, r, StartPage(ps, r), delta))
  {
  }

  /** All pages of the range counted once more: the range has become live. */
  lemma LockedDescribes(ps: nat, h0: map<nat, int>, h: map<nat, int>, live: seq<Range>, r: Range, upTo: nat)
    requires ps > 0 && Describes(ps, h0, live) && Bumped(ps, h0, h, r, upTo, 1) && AllPositive(h)
    requires r.size > 0 ==> EndPage(ps, r) < upTo
    ensures Describes(ps, h, live + [r])
  {
    forall page: nat
      ensures Get(h, page) == Count(ps, live + [r], page)
    {
      CountConcat(ps, live, [r], page);
      CountOne(ps, r, page);
      assert Get(h0, page) == Count(ps, live, page);
    }
  }

  /** All pages of the range counted once less: the range is no longer live. */
  lemma UnlockedDescribes(ps: nat, h0: map<nat, int>, h: map<nat, int>, live: seq<Range>, i: nat, upTo: nat)
    requires ps > 0 && i < |live| && Describes(ps, h0, live) && Bumped(ps, h0, h, live[i], upTo, -1) && AllPositive(h)
    requires live[i].size > 0 ==> EndPage(ps, live[i]) < upTo
    ensures Describes(ps, h, Without(live, i))
  {
    hide Without;
    forall page: nat
      ensures Get(h, page) == Count(ps, Without(live, i), page)
    {
      CountWithout(ps, live, i, page);
      assert Get(h0, page) == Count(ps, live, page);
    }
  }

  // ----- the page counter -----

  /** The counter of the loops after `n` turns; it has 64 bits. */
  function PageAfter(ps: nat, r: Range, n: nat): (page: nat)
    requires ps > 0
    ensures page < ADDRESSES
  {
    if n == 0 then StartPage(ps, r) else (PageAfter(ps, r, n - 1) + ps) % ADDRESSES
  }

  /** The loops over the pages of a range come to an end: after some number of turns the counter is beyond the last page. */
  ghost predicate Leaves(ps: nat, r: Range)
    requires ps > 0
  {
    r.size > 0 ==> exists n: nat :: PageAfter(ps, r, n) > EndPage(ps, r)
  }

  /** The loops begin at all, and the range does not touch the last page of the address space. */
  predicate Lockable(ps: nat, r: Range)
    requires ps > 0
  {
    r.size > 0 && StartPage(ps, r) <= EndPage(ps, r) ==> EndPage(ps, r) + ps < ADDRESSES
  }

  lemma {:induction false} CountsUp(ps: nat, r: Range, n: nat)
    requires ps > 0 && StartPage(ps, r) + ps * n < ADDRESSES
    ensures PageAfter(ps, r, n) == StartPage(ps, r) + ps * n
  {
    if n > 0 {
      hide StartPage;
      assert ps * n == ps * (n - 1) + ps;
      CountsUp(ps, r, n - 1);
      InWord(PageAfter(ps, r, n - 1) + ps);
    }
  }

  lemma InWord(a: nat)
    requires a < ADDRESSES
    ensures a % ADDRESSES == a
  {
  }

  lemma StepPage(ps: nat, page: nat)
    requires ps > 0 && ADDRESSES % ps == 0 && page % ps == 0 && page < ADDRESSES
    ensures ((page + ps) % ADDRESSES) % ps == 0
  {
    BetweenPages(ps, page, ADDRESSES);
    if page + ps < ADDRESSES {
      InWord(page + ps);
      NextPage(ps, page);
    } else {
      assert (page + ps) % ADDRESSES == 0;
    }
  }

  lemma {:induction false} CountsPages(ps: nat, r: Range, n: nat)
    requires ps > 0 && ADDRESSES % ps == 0
    ensures PageAfter(ps, r, n) % ps == 0
  {
    hide StartPage;
    if n == 0 {
      assert StartPage(ps, r) % ps == 0 by { StartIsPage(ps, r); }
    } else {
      CountsPages(ps, r, n - 1);
      StepPage(ps, PageAfter(ps, r, n - 1));
    }
  }

  lemma StartIsPage(ps: nat, r: Range)
    requires ps > 0
    ensures StartPage(ps, r) % ps == 0
  {
  }

  /** The loops end exactly for ranges that do not touch the last page, and for those whose end wraps to before their start. */
  lemma LeavesIffLockable(ps: nat, r: Range)
    requires IsPageSize(ps)
    ensures ps > 0 && (Leaves(ps, r) <==> Lockable(ps, r))
  {
    WholePages(ps);
    if r.size > 0 {
      var start, end := StartPage(ps, r), EndPage(ps, r);
      if start > end {
        assert PageAfter(ps, r, 0) > end;
      } else if end + ps < ADDRESSES {
        var n := (end - start) / ps + 1;
        StepsBetween(ps, start, end);
        CountsUp(ps, r, n);
      } else {
        forall n: nat
          ensures PageAfter(ps, r, n) <= end
        {
          NeverBeyondLast(ps, r, n);
        }
      }
    }
  }

  /** In a loop that ends the counter never wraps. */
  lemma NoWrap(ps: nat, r: Range, page: nat)
    requires IsPageSize(ps) && ps > 0 && Leaves(ps, r) && r.size > 0 && StartPage(ps, r) <= page <= EndPage(ps, r)
    ensures (page + ps) % ADDRESSES == page + ps
  {
    LeavesIffLockable(ps, r);
    hide Leaves;
    InWord(page + ps);
  }

  lemma StepsBetween(ps: nat, start: nat, end: nat)
    requires ps > 0 && start % ps == 0 && end % ps == 0 && start <= end
    ensures start + ps * ((end - start) / ps + 1) == end + ps
  {
    var i, j := start / ps, end / ps;
    assert start == ps * i && end == ps * j && end - start == ps * (j - i);
    if j < i {
      MulOrder(ps, i, j);
    }
    ModUnique(end - start, ps, j - i, 0);
    assert ps * (j - i + 1) == ps * (j - i) + ps;
  }

  /** A range that ends in the last page keeps the loops going for any number of turns: no page is beyond the last one. */
  lemma NeverBeyondLast(ps: nat, r: Range, n: nat)
    requires IsPageSize(ps) && ps > 0 && r.size > 0 && EndPage(ps, r) + ps >= ADDRESSES
    ensures PageAfter(ps, r, n) <= EndPage(ps, r)
  {
    WholePages(ps);
    CountsPages(ps, r, n);
    if EndPage(ps, r) < PageAfter(ps, r, n) {
      BetweenPages(ps, EndPage(ps, r), PageAfter(ps, r, n));
    }
  }

  class LockedPageManager {
    const pageSize: nat
    var histogram: map<nat, int>
    /** The pages locked with the operating system. */
    var locked: set<nat>
    /** The ranges locked and not yet unlocked. */
    ghost var live: seq<Range>

    ghost predicate Valid()
      reads this
    {
      && IsPageSize(pageSize) && pageSize > 0
      && locked == histogram.Keys && Describes(pageSize, histogram, live)
      && forall i :: 0 <= i < |live| ==> Leaves(pageSize, live[i])
    }

    constructor (pageSize: nat)
      requires IsPageSize(pageSize)
      ensures Valid() && live == [] && this.pageSize == pageSize
    {
      WholePages(pageSize);
      this.pageSize := pageSize;
      histogram, locked, live := map[], {}, [];
    }

    /** A page is locked with the operating system exactly while some live range touches it. */
    lemma LockedIffTouched(page: nat)
      requires Valid()
      ensures page in locked <==> Count(pageSize, live, page) > 0
    {
      assert Get(histogram, page) == Count(pageSize, live, page);
    }

    /** Called for ranges whose loop ends; `LeavesIffLockable` says which these are. */
    method LockRange(p: Address, size: Address)
      requires Valid() && Leaves(pageSize, Range(p, size))
      modifies this
      ensures Valid() && live == old(live) + [Range(p, size)]
    {
      hide Describes, Bumped, PageOf, Get, Leaves, IsPageSize, AllPositive;
      ghost var r, h0 := Range(p, size), histogram;
      NothingBumped(pageSize, histogram, live, r, 1);
      if size == 0 {
        EmptyRange(pageSize, histogram, r, 1);
        LockedDescribes(pageSize, h0, histogram, live, r, 0);
        live := live + [r];
        return;
      }
      var page := PageOf(pageSize, p);
      var end := PageOf(pageSize, (p + size - 1) % ADDRESSES);
      while page <= end
        invariant page % pageSize == 0 && page >= StartPage(pageSize, r)
        invariant Bumped(pageSize, h0, histogram, r, page, 1) && AllPositive(histogram)
        invariant locked == histogram.Keys && live == old(live)
      {
        ghost var h := histogram;
        if page !in histogram {
          locked := locked + {page};
          histogram := histogram[page := 1];
        } else {
          histogram := histogram[page := histogram[page] + 1];
        }
        CountedUp(h, histogram, page);
        OnePage(pageSize, h0, h, histogram, r, page, 1);
        NoWrap(pageSize, r, page);
        page := (page + pageSize) % ADDRESSES;
      }
      LockedDescribes(pageSize, h0, histogram, live, r, page);
      live := live + [r];
    }

    /** For a range that has been locked, the assertion that its pages are counted never fails. */
    method UnlockRange(p: Address, size: Address)
      requires Valid() && Range(p, size) in live
      modifies this
      ensures Valid() && multiset(live) == multiset(old(live)) - multiset{Range(p, size)}
    {
      hide Describes, Bumped, PageOf, Get, Leaves, IsPageSize, AllPositive;
      ghost var r, h0 := Range(p, size), histogram;
      ghost var i :| 0 <= i < |live| && live[i] == r;
      NothingBumped(pageSize, histogram, live, r, -1);
      if size == 0 {
        EmptyRange(pageSize, histogram, r, -1);
        UnlockedDescribes(pageSize, h0, histogram, live, i, 0);
        live := Without(live, i);
        return;
      }
      var page := PageOf(pageSize, p);
      var end := PageOf(pageSize, (p + size - 1) % ADDRESSES);
      while page <= end
        invariant page % pageSize == 0 && page >= StartPage(pageSize, r)
        invariant Bumped(pageSize, h0, histogram, r, page, -1) && AllPositive(histogram)
        invariant locked == histogram.Keys && live == old(live)
      {
        ghost var h := histogram;
        StillCounted(pageSize, h0, h, live, i, page);
        histogram := histogram[page := histogram[page] - 1];
        if histogram[page] == 0 {
          locked := locked - {page};
          histogram := histogram - {page};
        }
        CountedDown(h, histogram, page);
        OnePage(pageSize, h0, h, histogram, r, page, -1);
        NoWrap(pageSize, r, page);
        page := (page + pageSize) % ADDRESSES;
      }
      UnlockedDescribes(pageSize, h0, histogram, live, i, page);
      live := Without(live, i);
    }

    /** `GetLockedPageCount`: pages, not ranges. */
    method GetLockedPageCount() returns (n: nat)
      requires Valid()
      ensures n == |locked|
    {
      assert |histogram| == |histogram.Keys|;
      return |histogram|;
    }
  }

  lemma EmptyRange(ps: nat, h: map<nat, int>, r: Range, delta: int)
    requires ps > 0 && r.size == 0
    ensures Bumped(ps, h, h, r, 0, delta)
  {
  }

  lemma CountedUp(h: map<nat, int>, h1: map<nat, int>, page: nat)
    requires AllPositive(h) && h1 == h[page := if page in h then h[page] + 1 else 1]
    ensures AllPositive(h1)
    ensures forall q: nat :: Get(h1, q) == Get(h, q) + if q == page then 1 else 0
  {
  }

  lemma CountedDown(h: map<nat, int>, h1: map<nat, int>, page: nat)
    requires AllPositive(h) && page in h && h1 == if h[page] == 1 then h[page := 0] - {page} else h[page := h[page] - 1]
    ensures AllPositive(h1)
    ensures forall q: nat :: Get(h1, q) == Get(h, q) + if q == page then -1 else 0
  {
  }

  /** A page of a live range is in the histogram until the loop has come to it. */
  lemma StillCounted(ps: nat, h0: map<nat, int>, h: map<nat, int>, live: seq<Range>, i: nat, page: nat)
    requires ps > 0 && i < |live| && Describes(ps, h0, live) && Bumped(ps, h0, h, live[i], page, -1) && Touches(ps, live[i], page)
    ensures page in h
  {
    CountWithout(ps, live, i, page);
    assert Get(h0, page) == Count(ps, live, page);
    assert Get(h, page) == Get(h0, page);
  }

  /** Locking a range and unlocking it again restores the map. */
  method LockAndUnlock(m: LockedPageManager, p: Address, size: Address)
    requires m.Valid() && Leaves(m.pageSize, Range(p, size))
    modifies m
    ensures m.Valid() && m.histogram == old(m.histogram) && m.locked == old(m.locked)
  {
    hide Describes, Leaves, Count;
    ghost var h0, live0 := m.histogram, m.live;
    m.LockRange(p, size);
    m.UnlockRange(p, size);
    HistogramIsDetermined(m.pageSize, h0, m.histogram, live0, m.live);
  }
}
