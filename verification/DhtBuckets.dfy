/**
 The shape of the bucket list: every list made by splitting the single all-zero bucket is the
 left-to-right list of leaves of a tree of prefixes, which the first ids determine.
 */
module DhtBuckets {
  import opened DhtId
  import opened Wrappers

  // A bucket stores only its first id; the ids it covers run up to the first id of the next
  // bucket. Each bucket turns out to cover exactly the ids with its prefix, and the length of
  // the prefix can be read back from the lowest one-bits of two neighbouring firsts.

  /** The `first` of the bucket that `calloc` hands to `dht_init`. */
  function ZeroId(): (id: Id)
    ensures forall i :: 0 <= i < ID_BYTES ==> id[i] == 0
  {
    seq(ID_BYTES, _ => 0 as bv8)
  }

  // ----- chains of prefixes -----

  /** The least id with prefix `p`. */
  function Pad(p: Bits): (r: Bits)
    requires |p| <= ID_BITS
    ensures |r| == ID_BITS && p <= r
    ensures forall k :: |p| <= k < ID_BITS ==> !r[k]
  {
    p + seq(ID_BITS - |p|, _ => false)
  }

  /** `p` is the last leaf of a left subtree, `q` the first leaf of its right sibling, and the two part at bit `m`. */
  predicate AdjacentAt(p: Bits, q: Bits, m: nat)
  {
    && m < |p| && m < |q|
    && (forall k :: 0 <= k < m ==> p[k] == q[k])
    && !p[m] && q[m]
    && (forall k :: m < k < |p| ==> p[k])
    && (forall k :: m < k < |q| ==> !q[k])
  }

  ghost predicate Adjacent(p: Bits, q: Bits)
  {
    exists m: nat :: AdjacentAt(p, q, m)
  }

  predicate AllFalse(p: Bits) { forall k :: 0 <= k < |p| ==> !p[k] }

  predicate AllTrue(p: Bits) { forall k :: 0 <= k < |p| ==> p[k] }

  /** The leaves of a binary tree, left to right. */
  ghost predicate Chain(ps: seq<Bits>)
  {
    && |ps| > 0
    && (forall i :: 0 <= i < |ps| ==> |ps[i]| <= ID_BITS)
    && AllFalse(ps[0])
    && AllTrue(ps[|ps| - 1])
    && (forall i, j :: 0 <= i < |ps| && j == i + 1 && j < |ps| ==> Adjacent(ps[i], ps[j]))
  }

  /** The list of firsts `fs` covers the tree with leaves `ps`. */
  ghost predicate Represents(fs: seq<Id>, ps: seq<Bits>)
  {
    && Chain(ps)
    && |fs| == |ps|
    && (forall i {:trigger ps[i]} :: 0 <= i < |fs| ==> BitsOf(fs[i]) == Pad(ps[i]))
  }

  // ----- what the code computes from the firsts -----

  /** `MAX(lowbit(b->first), b->next ? lowbit(b->next->first) : -1) + 1`. */
  function DepthOf(first: Id, next: Option<Id>): (d: nat)
    ensures d <= ID_BITS
  {
    var bit1 := LastOne(BitsOf(first));
    var bit2 := if next.Some? then LastOne(BitsOf(next.value)) else -1;
    (if bit1 >= bit2 then bit1 else bit2) + 1
  }

  function NextFirst(fs: seq<Id>, i: nat): Option<Id>
  {
    if i + 1 < |fs| then Some(fs[i + 1]) else None
  }

  function Depth(fs: seq<Id>, i: nat): (d: nat)
    requires i < |fs|
    ensures d <= ID_BITS
  {
    DepthOf(fs[i], NextFirst(fs, i))
  }

  function Prefix(fs: seq<Id>, i: nat): (p: Bits)
    requires i < |fs|
  {
    BitsOf(fs[i])[..Depth(fs, i)]
  }

  function Prefixes(fs: seq<Id>): (ps: seq<Bits>)
    ensures |ps| == |fs|
    ensures forall i :: 0 <= i < |fs| ==> ps[i] == Prefix(fs, i)
  {
    seq(|fs|, i requires 0 <= i < |fs| => Prefix(fs, i))
  }

  /** The invariant of the bucket list, stated on the stored firsts alone. */
  ghost predicate WellFormed(fs: seq<Id>)
  {
    Represents(fs, Prefixes(fs))
  }

  lemma LastOneOfPad(p: Bits, k: int)
    requires |p| <= ID_BITS && -1 <= k < |p| && (k >= 0 ==> p[k])
    requires forall i :: k < i < |p| ==> !p[i]
    ensures LastOne(Pad(p)) == k
  {
    LastOneUnique(Pad(p), k);
  }

  /** The two lowest one-bits determine the depth: this is why a bucket need not store it. */
  lemma DepthIsPrefixLength(fs: seq<Id>, ps: seq<Bits>, i: nat)
    requires Represents(fs, ps) && i < |fs|
    ensures Depth(fs, i) == |ps[i]|
    ensures Prefix(fs, i) == ps[i]
  {
    var p := ps[i];
    var d := |p|;
    if i + 1 < |fs| {
      var m: nat :| AdjacentAt(p, ps[i + 1], m);
      LastOneOfPad(ps[i + 1], m);
      if m == d - 1 {
        assert LastOne(Pad(p)) < d - 1 by { assert !Pad(p)[d - 1]; }
      } else {
        LastOneOfPad(p, d - 1);
      }
    } else {
      LastOneOfPad(p, d - 1);
    }
    assert Pad(p)[..d] == p;
  }

  /** A list of firsts fits one tree only, the one read back from it. */
  lemma RepresentationUnique(fs: seq<Id>, ps: seq<Bits>)
    requires Represents(fs, ps)
    ensures ps == Prefixes(fs)
    ensures WellFormed(fs)
  {
    forall i | 0 <= i < |fs|
      ensures ps[i] == Prefixes(fs)[i]
    {
      DepthIsPrefixLength(fs, ps, i);
    }
    assert ps == Prefixes(fs);
  }

  // ----- which ids a bucket covers -----

  /** `in_bucket` (dht.cpp:560) for the bucket at position `i`. */
  predicate InBucket(fs: seq<Id>, i: nat, id: Id)
    requires i < |fs|
  {
    && IdCmp(fs[i], id) <= 0
    && (i + 1 == |fs| || IdCmp(id, fs[i + 1]) < 0)
  }

  lemma PadIsLeast(p: Bits, x: Bits)
    requires |p| <= ID_BITS && |x| == ID_BITS && p <= x
    ensures !Less(x, Pad(p))
  {
    forall m: nat
      ensures !LessAt(x, Pad(p), m)
    {
      if m < |p| { assert x[m] == p[m]; }
    }
  }

  /** An id not below `Pad(p)` that agrees with `p` up to `m`, where only ones follow, has prefix `p`. */
  lemma AbovePadHasPrefix(p: Bits, x: Bits, m: nat)
    requires |p| <= ID_BITS && |x| == ID_BITS && m <= |p|
    requires forall k :: 0 <= k < m ==> x[k] == p[k]
    requires forall k :: m <= k < |p| ==> p[k]
    requires !Less(x, Pad(p))
    ensures p <= x
  {
    if x[..|p|] != p {
      var t := FirstDifference(x[..|p|], p, 0);
      assert LessAt(x, Pad(p), t);
    }
  }

  lemma BetweenPadsHasPrefix(p: Bits, q: Bits, x: Bits)
    requires |p| <= ID_BITS && |q| <= ID_BITS && |x| == ID_BITS
    requires Adjacent(p, q) && !Less(x, Pad(p)) && Less(x, Pad(q))
    ensures p <= x
  {
    var m: nat :| AdjacentAt(p, q, m);
    var k: nat :| LessAt(x, Pad(q), k);
    if k < m {
      assert Pad(q)[k] == q[k] == p[k];
      assert forall t :: 0 <= t < k ==> Pad(q)[t] == q[t] == p[t] == Pad(p)[t];
      assert LessAt(x, Pad(p), k);
    } else {
      assert k == m;
      forall t | 0 <= t < m + 1
        ensures x[t] == p[t]
      {
        if t < m { assert x[t] == Pad(q)[t] == q[t] == p[t]; }
      }
      AbovePadHasPrefix(p, x, m + 1);
    }
  }

  lemma BetweenPadsIffPrefix(p: Bits, q: Bits, x: Bits)
    requires |p| <= ID_BITS && |q| <= ID_BITS && |x| == ID_BITS
    requires Adjacent(p, q)
    ensures !Less(x, Pad(p)) && Less(x, Pad(q)) <==> p <= x
  {
    if p <= x {
      PadIsLeast(p, x);
      var m: nat :| AdjacentAt(p, q, m);
      assert x[m] == p[m];
      assert LessAt(x, Pad(q), m);
    } else if !Less(x, Pad(p)) && Less(x, Pad(q)) {
      BetweenPadsHasPrefix(p, q, x);
    }
  }

  lemma AboveLastPadIffPrefix(p: Bits, x: Bits)
    requires |p| <= ID_BITS && |x| == ID_BITS && AllTrue(p)
    ensures !Less(x, Pad(p)) <==> p <= x
  {
    if p <= x {
      PadIsLeast(p, x);
    } else if !Less(x, Pad(p)) {
      AbovePadHasPrefix(p, x, 0);
    }
  }

  /** What well-formedness says about one bucket and its successor. */
  lemma WellFormedAt(fs: seq<Id>, i: nat)
    requires WellFormed(fs) && i < |fs|
    ensures BitsOf(fs[i]) == Pad(Prefix(fs, i))
    ensures i == 0 ==> AllFalse(Prefix(fs, i))
    ensures i + 1 < |fs| ==> BitsOf(fs[i + 1]) == Pad(Prefix(fs, i + 1)) && Adjacent(Prefix(fs, i), Prefix(fs, i + 1))
    ensures i + 1 == |fs| ==> AllTrue(Prefix(fs, i))
  {
    var ps := Prefixes(fs);
    assert ps[i] == Prefix(fs, i);
  }

  /** A bucket of a well-formed list covers exactly the ids that carry its prefix. */
  lemma InBucketIffPrefix(fs: seq<Id>, i: nat, id: Id)
    requires WellFormed(fs) && i < |fs|
    ensures InBucket(fs, i, id) <==> Prefix(fs, i) <= BitsOf(id)
  {
    WellFormedAt(fs, i);
    IdCmpIsOrder(fs[i], id);
    if i + 1 < |fs| {
      IdCmpIsOrder(id, fs[i + 1]);
      BetweenPadsIffPrefix(Prefix(fs, i), Prefix(fs, i + 1), BitsOf(id));
    } else {
      AboveLastPadIffPrefix(Prefix(fs, i), BitsOf(id));
    }
  }

  // ----- find_bucket (dht.cpp:569) -----

  function FindIndex(fs: seq<Id>, id: Id): (i: nat)
    requires |fs| > 0
    ensures i < |fs|
  {
    if |fs| == 1 || IdCmp(id, fs[1]) < 0 then 0 else 1 + FindIndex(fs[1..], id)
  }

  lemma FindIndexBounds(fs: seq<Id>, id: Id)
    requires |fs| > 0
    ensures var i := FindIndex(fs, id);
            && (i > 0 ==> IdCmp(id, fs[i]) >= 0)
            && (i + 1 < |fs| ==> IdCmp(id, fs[i + 1]) < 0)
  {
  }

  /** The index is the least one whose bucket does not end at or below the id. */
  lemma {:induction false} FindIndexLeast(fs: seq<Id>, id: Id, i: nat)
    requires i < |fs|
    requires forall j :: 0 < j <= i ==> IdCmp(id, fs[j]) >= 0
    requires i + 1 == |fs| || IdCmp(id, fs[i + 1]) < 0
    ensures FindIndex(fs, id) == i
  {
    hide IdCmp;
    if i > 0 {
      assert IdCmp(id, fs[1]) >= 0;
      FindIndexLeast(fs[1..], id, i - 1);
    }
  }

  lemma IdCmpTransitive(a: Id, b: Id, c: Id)
    ensures IdCmp(a, b) < 0 && IdCmp(b, c) < 0 ==> IdCmp(a, c) < 0
    ensures IdCmp(a, b) <= 0 && IdCmp(b, c) < 0 ==> IdCmp(a, c) < 0
    ensures IdCmp(a, b) < 0 <==> IdCmp(b, a) > 0
    ensures IdCmp(a, a) == 0
  {
    IdCmpIsOrder(a, b);
    IdCmpIsOrder(b, a);
    IdCmpIsOrder(b, c);
    IdCmpIsOrder(a, c);
    IdCmpIsOrder(a, a);
    if Less(BitsOf(a), BitsOf(b)) && Less(BitsOf(b), BitsOf(c)) {
      LessTransitive(BitsOf(a), BitsOf(b), BitsOf(c));
    }
  }

  lemma AdjacentPadsIncrease(p: Bits, q: Bits)
    requires |p| <= ID_BITS && |q| <= ID_BITS && Adjacent(p, q)
    ensures Less(Pad(p), Pad(q))
  {
    var m: nat :| AdjacentAt(p, q, m);
    assert LessAt(Pad(p), Pad(q), m);
  }

  lemma NextFirstIsGreater(fs: seq<Id>, i: nat)
    requires WellFormed(fs) && i + 1 < |fs|
    ensures IdCmp(fs[i], fs[i + 1]) < 0
  {
    WellFormedAt(fs, i);
    AdjacentPadsIncrease(Prefix(fs, i), Prefix(fs, i + 1));
    IdCmpIsOrder(fs[i], fs[i + 1]);
  }

  lemma {:induction false} IncreasingChain(fs: seq<Id>, i: nat, j: nat)
    requires i < j < |fs|
    requires forall k :: 0 <= k < |fs| - 1 ==> IdCmp(fs[k], fs[k + 1]) < 0
    ensures IdCmp(fs[i], fs[j]) < 0
    decreases j
  {
    if i < j - 1 {
      IncreasingChain(fs, i, j - 1);
      IdCmpTransitive(fs[i], fs[j - 1], fs[j - 1 + 1]);
    } else {
      assert IdCmp(fs[i], fs[i + 1]) < 0;
    }
  }

  lemma FirstsIncrease(fs: seq<Id>, i: nat, j: nat)
    requires WellFormed(fs) && i < j < |fs|
    ensures IdCmp(fs[i], fs[j]) < 0
  {
    forall k | 0 <= k < |fs| - 1
      ensures IdCmp(fs[k], fs[k + 1]) < 0
    {
      NextFirstIsGreater(fs, k);
    }
    IncreasingChain(fs, i, j);
  }

  lemma BucketsDisjoint(fs: seq<Id>, i: nat, j: nat, id: Id)
    requires WellFormed(fs) && i < j < |fs|
    requires InBucket(fs, i, id)
    ensures !InBucket(fs, j, id)
  {
    if i + 1 < j {
      FirstsIncrease(fs, i + 1, j);
    }
    IdCmpTransitive(id, fs[i + 1], fs[j]);
    IdCmpTransitive(id, fs[j], fs[j]);
  }

  lemma FirstBucketReachesDown(fs: seq<Id>, id: Id)
    requires WellFormed(fs)
    ensures IdCmp(id, fs[0]) >= 0
  {
    WellFormedAt(fs, 0);
    IdCmpIsOrder(id, fs[0]);
  }

  lemma FindIndexIsInBucket(fs: seq<Id>, id: Id)
    requires WellFormed(fs)
    ensures InBucket(fs, FindIndex(fs, id), id)
  {
    var k := FindIndex(fs, id);
    FindIndexBounds(fs, id);
    IdCmpTransitive(fs[k], id, id);
    IdCmpTransitive(id, fs[k], fs[k]);
    FirstBucketReachesDown(fs, id);
  }

  /** The buckets partition the id space: `find_bucket` returns the one bucket that holds the id. */
  lemma FindBucketIsUnique(fs: seq<Id>, id: Id, i: nat)
    requires WellFormed(fs) && i < |fs|
    ensures InBucket(fs, i, id) <==> i == FindIndex(fs, id)
  {
    var k := FindIndex(fs, id);
    FindIndexIsInBucket(fs, id);
    if k < i {
      BucketsDisjoint(fs, k, i, id);
    } else if i < k && InBucket(fs, i, id) {
      BucketsDisjoint(fs, i, k, id);
    }
  }

  // ----- bucket_middle and the split -----

  function SetIdBit(id: Id, k: nat): (r: Id)
    requires k < ID_BITS
  {
    id[k / 8 := id[k / 8] | Mask(k % 8)]
  }

  lemma SetIdBitBits(id: Id, k: nat)
    requires k < ID_BITS
    ensures BitsOf(SetIdBit(id, k)) == BitsOf(id)[k := true]
  {
    var r := SetIdBit(id, k);
    SetBit(id[k / 8], k % 8);
    forall t | 0 <= t < ID_BITS
      ensures BitsOf(r)[t] == BitsOf(id)[k := true][t]
    {
      if t / 8 == k / 8 && t != k {
        assert t % 8 != k % 8;
      }
    }
  }

  /** The first ids after `split_bucket` has put a new bucket behind bucket `i`. */
  function SplitFirsts(fs: seq<Id>, i: nat): (r: seq<Id>)
    requires i < |fs| && Depth(fs, i) < ID_BITS
  {
    fs[..i + 1] + [SetIdBit(fs[i], Depth(fs, i))] + fs[i + 1..]
  }

  /** The leaves after leaf `i` has been replaced by its two children. */
  function SplitLeaves(ps: seq<Bits>, i: nat): (r: seq<Bits>)
    requires i < |ps|
    ensures |r| == |ps| + 1
    ensures forall t :: 0 <= t < i ==> r[t] == ps[t]
    ensures r[i] == ps[i] + [false] && r[i + 1] == ps[i] + [true]
    ensures forall t :: i + 1 < t < |r| ==> r[t] == ps[t - 1]
  {
    ps[..i] + [ps[i] + [false], ps[i] + [true]] + ps[i + 1..]
  }

  lemma SplitKeepsChain(ps: seq<Bits>, i: nat)
    requires Chain(ps) && i < |ps| && |ps[i]| < ID_BITS
    ensures Chain(SplitLeaves(ps, i))
  {
    var p, r := ps[i], SplitLeaves(ps, i);
    forall t, u | 0 <= t < |r| && u == t + 1 && u < |r|
      ensures Adjacent(r[t], r[u])
    {
      if t + 1 < i {
        assert Adjacent(ps[t], ps[t + 1]);
      } else if t + 1 == i {
        var m: nat :| AdjacentAt(ps[t], ps[t + 1], m);
        assert AdjacentAt(r[t], r[t + 1], m);
      } else if t == i {
        assert AdjacentAt(r[t], r[t + 1], |p|);
      } else if t == i + 1 {
        var m: nat :| AdjacentAt(ps[i], ps[i + 1], m);
        assert AdjacentAt(r[t], r[t + 1], m);
      } else {
        assert Adjacent(ps[t - 1], ps[t]);
      }
    }
  }

  lemma SplitRepresents(fs: seq<Id>, ps: seq<Bits>, i: nat)
    requires Represents(fs, ps) && i < |fs| && |ps[i]| < ID_BITS && Depth(fs, i) == |ps[i]|
    ensures Represents(SplitFirsts(fs, i), SplitLeaves(ps, i))
  {
    var gs, qs := SplitFirsts(fs, i), SplitLeaves(ps, i);
    var d := |ps[i]|;
    SplitKeepsChain(ps, i);
    SetIdBitBits(fs[i], d);
    forall t | 0 <= t < |gs|
      ensures BitsOf(gs[t]) == Pad(qs[t])
    {
      if t <= i {
        assert gs[t] == fs[t];
        assert Pad(qs[t]) == Pad(ps[t]);
      } else if t == i + 1 {
        assert Pad(qs[t]) == Pad(ps[i])[d := true];
      } else {
        assert gs[t] == fs[t - 1];
      }
    }
  }

  /** A split keeps the list well-formed and replaces one prefix by its two extensions. */
  lemma SplitKeepsWellFormed(fs: seq<Id>, i: nat)
    requires WellFormed(fs) && i < |fs| && Depth(fs, i) < ID_BITS
    ensures WellFormed(SplitFirsts(fs, i))
    ensures Prefixes(SplitFirsts(fs, i)) == SplitLeaves(Prefixes(fs), i)
  {
    var ps := Prefixes(fs);
    assert ps[i] == Prefix(fs, i);
    SplitRepresents(fs, ps, i);
    RepresentationUnique(SplitFirsts(fs, i), SplitLeaves(ps, i));
  }

  lemma InitialListWellFormed()
    ensures WellFormed([ZeroId()])
    ensures Prefixes([ZeroId()]) == [[]]
  {
    var fs := [ZeroId()];
    assert forall k :: 0 <= k < ID_BITS ==> !BitsOf(ZeroId())[k];
    assert BitsOf(ZeroId()) == Pad([]);
    assert Represents(fs, [[]]);
    RepresentationUnique(fs, [[]]);
  }

  method BucketMiddle(first: Id, next: Option<Id>) returns (mid: Option<Id>)
    ensures mid.None? <==> DepthOf(first, next) == ID_BITS
    ensures mid.Some? ==> mid.value == SetIdBit(first, DepthOf(first, next))
  {
    var bit1 := LowBit(first);
    var bit2 := -1;
    if next.Some? {
      bit2 := LowBit(next.value);
    }
    var bit := (if bit1 >= bit2 then bit1 else bit2) + 1;
    if bit >= ID_BITS {
      return None;
    }
    return Some(first[bit / 8 := first[bit / 8] | Mask(bit % 8)]);
  }

  lemma PrefixPlusBit(p: Bits, x: Bits)
    requires p <= x && |p| < |x|
    ensures p + [false] <= x <==> !x[|p|]
  {
  }

  /** The middle id cuts a bucket into the ids with the next bit 0 and those with the next bit 1. */
  lemma MiddleIsMidpoint(fs: seq<Id>, i: nat, id: Id)
    requires WellFormed(fs) && i < |fs| && Depth(fs, i) < ID_BITS && InBucket(fs, i, id)
    ensures IdCmp(id, SetIdBit(fs[i], Depth(fs, i))) < 0 <==> !BitsOf(id)[Depth(fs, i)]
  {
    var gs := SplitFirsts(fs, i);
    InBucketIffPrefix(fs, i, id);
    PrefixPlusBit(Prefix(fs, i), BitsOf(id));
    SplitKeepsWellFormed(fs, i);
    assert Prefixes(fs)[i] == Prefix(fs, i);
    assert Prefix(gs, i) == Prefixes(gs)[i];
    InBucketIffPrefix(gs, i, id);
  }

  // ----- bucket_random (dht.cpp:668) -----

  /** The byte of `0xFF00 >> r` that survives the store, and `0xFF >> r`. */
  function HighMask(r: nat): bv8
    requires r < 8
  {
    match r
    case 0 => 0x00
    case 1 => 0x80
    case 2 => 0xC0
    case 3 => 0xE0
    case 4 => 0xF0
    case 5 => 0xF8
    case 6 => 0xFC
    case 7 => 0xFE
  }

  function LowMask(r: nat): bv8
    requires r < 8
  {
    0xFF - HighMask(r)
  }

  /** The first `r` bits of one byte, the others of another. */
  function Mixed(f: bv8, g: bv8, r: nat): bv8
    requires r < 8
  {
    (f & HighMask(r)) | (g & LowMask(r))
  }

  /** A bit is among the first `r` or among the others. */
  lemma MasksMeet(r: nat, j: nat)
    requires r < 8 && j < 8
    ensures HighMask(r) & Mask(j) == if j < r then Mask(j) else 0
    ensures LowMask(r) & Mask(j) == if j < r then 0 else Mask(j)
  {
    match r
    case 0 => case 1 => case 2 => case 3 => case 4 => case 5 => case 6 => case 7 =>
  }

  lemma Distribute(f: bv8, g: bv8, h: bv8, l: bv8, m: bv8)
    ensures ((f & h) | (g & l)) & m == (f & (h & m)) | (g & (l & m))
  {
  }

  lemma Absorb(f: bv8, g: bv8, m: bv8)
    ensures (f & m) | (g & 0) == f & m
    ensures (f & 0) | (g & m) == g & m
  {
  }

  lemma SpliceBits(f: bv8, g: bv8, r: nat, j: nat)
    requires r < 8 && j < 8
    ensures BitAt(Mixed(f, g, r), j) == if j < r then BitAt(f, j) else BitAt(g, j)
  {
    hide HighMask, LowMask, Mask;
    MasksMeet(r, j);
    Distribute(f, g, HighMask(r), LowMask(r), Mask(j));
    Absorb(f, g, Mask(j));
  }

  /** The bits of `first` before position `bit`, those of `random` from there on. */
  function Splice(first: Id, random: Id, bit: nat): (id: Id)
    requires bit < ID_BITS
  {
    first[..bit / 8] + [Mixed(first[bit / 8], random[bit / 8], bit % 8)] + random[bit / 8 + 1..]
  }

  lemma BitOrder(k: nat, bit: nat)
    ensures k < bit <==> k / 8 < bit / 8 || (k / 8 == bit / 8 && k % 8 < bit % 8)
  {
  }

  lemma SpliceByte(first: Id, random: Id, bit: nat, j: nat)
    requires bit < ID_BITS && j < ID_BYTES
    ensures Splice(first, random, bit)[j] == if j < bit / 8 then first[j] else if j > bit / 8 then random[j]
                                             else Mixed(first[j], random[j], bit % 8)
  {
    hide Mixed;
  }

  lemma SpliceBit(first: Id, random: Id, bit: nat, k: nat)
    requires bit < ID_BITS && k < ID_BITS
    ensures BitOf(Splice(first, random, bit), k) == if k < bit then BitOf(first, k) else BitOf(random, k)
  {
    hide BitAt, Mixed, Splice;
    var j, q, r := k / 8, bit / 8, bit % 8;
    BitOrder(k, bit);
    SpliceByte(first, random, bit, j);
    if j == q {
      SpliceBits(first[j], random[j], r, k % 8);
    }
  }

  /** The result keeps the bucket's prefix; the remaining bits are the random ones. */
  method BucketRandom(first: Id, next: Option<Id>, random: Id) returns (id: Id)
    ensures forall k :: 0 <= k < ID_BITS ==>
      BitOf(id, k) == if k < DepthOf(first, next) then BitOf(first, k) else BitOf(random, k)
  {
    var bit1 := LowBit(first);
    var bit2 := -1;
    if next.Some? {
      bit2 := LowBit(next.value);
    }
    var bit := (if bit1 >= bit2 then bit1 else bit2) + 1;
    assert bit == DepthOf(first, next);
    if bit >= ID_BITS {
      return first;
    }
    id := Splice(first, random, bit);
    forall k | 0 <= k < ID_BITS
      ensures BitOf(id, k) == if k < bit then BitOf(first, k) else BitOf(random, k)
    {
      SpliceBit(first, random, bit, k);
    }
  }

  /** Whatever the random bytes, the id lands in its bucket; and any id of the bucket is its own random outcome. */
  lemma RandomIdInBucket(fs: seq<Id>, i: nat, id: Id, random: Id)
    requires WellFormed(fs) && i < |fs|
    requires forall k :: 0 <= k < ID_BITS ==>
      BitOf(id, k) == if k < Depth(fs, i) then BitOf(fs[i], k) else BitOf(random, k)
    ensures InBucket(fs, i, id)
    ensures InBucket(fs, i, random) ==> id == random
  {
    InBucketIffPrefix(fs, i, id);
    InBucketIffPrefix(fs, i, random);
    var p := Prefix(fs, i);
    assert p <= BitsOf(id) by {
      assert forall k :: 0 <= k < |p| ==> BitsOf(id)[k] == BitsOf(fs[i])[k] == p[k];
    }
    if InBucket(fs, i, random) {
      forall k | 0 <= k < ID_BITS
        ensures BitsOf(id)[k] == BitsOf(random)[k]
      {
        if k < |p| { assert BitsOf(random)[k] == p[k]; }
      }
      assert BitsOf(id) == BitsOf(random);
      BitsOfInjective(id, random);
    }
  }

  ghost predicate SplitStep(gs: seq<Id>, i: nat, fs: seq<Id>)
  {
    i < |gs| && Depth(gs, i) < ID_BITS && fs == SplitFirsts(gs, i)
  }

  /** A run of the program: start from one all-zero bucket (`dht_init`) and split bucket `at[t]` at step `t`. */
  ghost predicate IsRun(trace: seq<seq<Id>>, at: seq<nat>)
  {
    && |trace| == |at| + 1
    && trace[0] == [ZeroId()]
    && forall t :: 0 <= t < |at| ==> SplitStep(trace[t], at[t], trace[t + 1])
  }

  /** Over every run each id lies in exactly one bucket, the one `find_bucket` returns, and that bucket's ids are those with its prefix. */
  lemma {:induction false} EveryRunPartitions(trace: seq<seq<Id>>, at: seq<nat>, t: nat, id: Id, i: nat)
    requires IsRun(trace, at) && t < |trace| && i < |trace[t]|
    ensures WellFormed(trace[t]) && |trace[t]| == t + 1
    ensures InBucket(trace[t], i, id) <==> i == FindIndex(trace[t], id)
    ensures InBucket(trace[t], i, id) <==> Prefix(trace[t], i) <= BitsOf(id)
  {
    RunWellFormed(trace, at, t);
    FindBucketIsUnique(trace[t], id, i);
    InBucketIffPrefix(trace[t], i, id);
  }

  lemma {:induction false} RunWellFormed(trace: seq<seq<Id>>, at: seq<nat>, t: nat)
    requires IsRun(trace, at) && t < |trace|
    ensures WellFormed(trace[t]) && |trace[t]| == t + 1
  {
    if t == 0 {
      InitialListWellFormed();
    } else {
      RunWellFormed(trace, at, t - 1);
      assert SplitStep(trace[t - 1], at[t - 1], trace[t]);
      SplitKeepsWellFormed(trace[t - 1], at[t - 1]);
    }
  }
}
