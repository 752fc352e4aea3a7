/**
 Node ids of the routing table: 20 bytes, read as 160 bits numbered from the most
 significant bit of byte 0. The C code compares whole bytes and masks single bits; this
 module ties those byte operations to the bit string they stand for.
 */
module DhtId {
  const ID_BYTES := 20
  const ID_BITS := 160

  type Id = s: seq<bv8> | |s| == ID_BYTES witness seq(ID_BYTES, _ => 0 as bv8)

  type Bits = seq<bool>

  // ----- bits of a byte -----

  /** The mask the source writes as `0x80 >> j`. */
  function Mask(j: nat): (m: bv8)
    requires j < 8
  {
    match j
    case 0 => 0x80
    case 1 => 0x40
    case 2 => 0x20
    case 3 => 0x10
    case 4 => 0x08
    case 5 => 0x04
    case 6 => 0x02
    case 7 => 0x01
  }

  predicate BitAt(b: bv8, j: nat)
    requires j < 8
  {
    b & Mask(j) != 0
  }

  /** Bytes with the same bits are the same byte. */
  lemma SameBitsSameByte(a: bv8, b: bv8)
    requires forall j :: 0 <= j < 8 ==> BitAt(a, j) == BitAt(b, j)
    ensures a == b
  {
    assert BitAt(a, 0) == BitAt(b, 0) && BitAt(a, 1) == BitAt(b, 1) && BitAt(a, 2) == BitAt(b, 2) && BitAt(a, 3) == BitAt(b, 3);
    assert BitAt(a, 4) == BitAt(b, 4) && BitAt(a, 5) == BitAt(b, 5) && BitAt(a, 6) == BitAt(b, 6) && BitAt(a, 7) == BitAt(b, 7);
  }

  lemma NonzeroByteHasBit(b: bv8)
    requires b != 0
    ensures exists j :: 0 <= j < 8 && BitAt(b, j)
  {
    if forall j :: 0 <= j < 8 ==> BitAt(b, j) == BitAt(0, j) {
      SameBitsSameByte(b, 0);
    }
  }

  /** The first bit on which two bytes differ decides their order. */
  lemma FirstBitDecides(a: bv8, b: bv8, j: nat)
    requires j < 8
    requires forall i :: 0 <= i < j ==> BitAt(a, i) == BitAt(b, i)
    requires !BitAt(a, j) && BitAt(b, j)
    ensures a < b
  {
    if j > 0 { assert BitAt(a, 0) == BitAt(b, 0); }
    if j > 1 { assert BitAt(a, 1) == BitAt(b, 1); }
    if j > 2 { assert BitAt(a, 2) == BitAt(b, 2); }
    if j > 3 { assert BitAt(a, 3) == BitAt(b, 3); }
    if j > 4 { assert BitAt(a, 4) == BitAt(b, 4); }
    if j > 5 { assert BitAt(a, 5) == BitAt(b, 5); }
    if j > 6 { assert BitAt(a, 6) == BitAt(b, 6); }
  }

  /** Masks of two bits are disjoint, so setting one bit leaves the others alone. */
  lemma SetBit(b: bv8, j: nat)
    requires j < 8
    ensures BitAt(b | Mask(j), j)
    ensures forall i :: 0 <= i < 8 && i != j ==> BitAt(b | Mask(j), i) == BitAt(b, i)
  {
    forall i | 0 <= i < 8 && i != j
      ensures BitAt(b | Mask(j), i) == BitAt(b, i)
    {
      MasksDisjoint(i, j);
      assert (b | Mask(j)) & Mask(i) == (b & Mask(i)) | (Mask(j) & Mask(i));
    }
    assert (b | Mask(j)) & Mask(j) == Mask(j);
  }

  lemma MasksDisjoint(i: nat, j: nat)
    requires i < 8 && j < 8 && i != j
    ensures Mask(i) & Mask(j) == 0
  {
    match i
    case 0 => case 1 => case 2 => case 3 => case 4 => case 5 => case 6 => case 7 =>
  }

  // ----- bits of an id -----

  predicate BitOf(id: Id, k: nat)
    requires k < ID_BITS
  {
    BitAt(id[k / 8], k % 8)
  }

  function BitsOf(id: Id): (r: Bits)
    ensures |r| == ID_BITS
    ensures forall k :: 0 <= k < ID_BITS ==> r[k] == BitOf(id, k)
  {
    seq(ID_BITS, k requires 0 <= k < ID_BITS => BitOf(id, k))
  }

  lemma BitsOfInjective(a: Id, b: Id)
    requires BitsOf(a) == BitsOf(b)
    ensures a == b
  {
    forall i | 0 <= i < ID_BYTES
      ensures a[i] == b[i]
    {
      forall j | 0 <= j < 8
        ensures BitAt(a[i], j) == BitAt(b[i], j)
      {
        assert (8 * i + j) / 8 == i && (8 * i + j) % 8 == j;
        assert BitsOf(a)[8 * i + j] == BitsOf(b)[8 * i + j];
      }
      SameBitsSameByte(a[i], b[i]);
    }
  }

  // ----- the order on bit strings -----

  /** `x` and `y` agree before bit `m`, where `x` has 0 and `y` has 1. */
  predicate LessAt(x: Bits, y: Bits, m: nat)
  {
    m < |x| && m < |y| && (forall i :: 0 <= i < m ==> x[i] == y[i]) && !x[m] && y[m]
  }

  ghost predicate Less(x: Bits, y: Bits)
  {
    exists m: nat :: LessAt(x, y, m)
  }

  lemma LessIrreflexive(x: Bits, y: Bits)
    requires Less(x, y)
    ensures x != y && !Less(y, x)
  {
  }

  lemma LessTransitive(x: Bits, y: Bits, z: Bits)
    requires Less(x, y) && Less(y, z)
    ensures Less(x, z)
  {
    var m: nat :| LessAt(x, y, m);
    var n: nat :| LessAt(y, z, n);
    var k := if m < n then m else n;
    assert LessAt(x, z, k);
  }

  lemma FirstDifference(x: Bits, y: Bits, from: nat) returns (m: nat)
    requires |x| == |y| && x != y
    requires from <= |x| && forall i :: 0 <= i < from ==> x[i] == y[i]
    ensures m < |x| && (forall i :: 0 <= i < m ==> x[i] == y[i]) && x[m] != y[m]
    decreases |x| - from
  {
    if x[from] != y[from] {
      m := from;
    } else {
      m := FirstDifference(x, y, from + 1);
    }
  }

  // ----- memcmp on ids (dht.cpp:479) -----

  /** `memcmp` from byte `i` on: the first differing byte decides. */
  function CompareFrom(a: Id, b: Id, i: nat): (c: int)
    requires i <= ID_BYTES
    decreases ID_BYTES - i
  {
    if i == ID_BYTES then 0
    else if a[i] == b[i] then CompareFrom(a, b, i + 1)
    else if a[i] < b[i] then -1
    else 1
  }

  function IdCmp(a: Id, b: Id): (c: int)
  {
    CompareFrom(a, b, 0)
  }

  /** The byte comparison is the order on bit strings, and 0 means the same id. */
  lemma IdCmpIsOrder(a: Id, b: Id)
    ensures IdCmp(a, b) < 0 <==> Less(BitsOf(a), BitsOf(b))
    ensures IdCmp(a, b) > 0 <==> Less(BitsOf(b), BitsOf(a))
    ensures IdCmp(a, b) == 0 <==> a == b
  {
    CompareFromOrder(a, b, 0);
  }

  lemma {:induction false} CompareFromOrder(a: Id, b: Id, i: nat)
    requires i <= ID_BYTES && forall t :: 0 <= t < i ==> a[t] == b[t]
    ensures CompareFrom(a, b, i) < 0 <==> Less(BitsOf(a), BitsOf(b))
    ensures CompareFrom(a, b, i) > 0 <==> Less(BitsOf(b), BitsOf(a))
    ensures CompareFrom(a, b, i) == 0 <==> a == b
    decreases ID_BYTES - i
  {
    if i == ID_BYTES {
      assert a == b;
    } else if a[i] == b[i] {
      CompareFromOrder(a, b, i + 1);
    } else {
      var m := FirstDifferingBit(a, b, i);
      if BitOf(b, m) {
        assert LessAt(BitsOf(a), BitsOf(b), m);
        LessIrreflexive(BitsOf(a), BitsOf(b));
      } else {
        assert LessAt(BitsOf(b), BitsOf(a), m);
        LessIrreflexive(BitsOf(b), BitsOf(a));
      }
    }
  }

  /** Where the first differing byte sits, the first differing bit has the same sense. */
  lemma FirstDifferingBit(a: Id, b: Id, i: nat) returns (m: nat)
    requires i < ID_BYTES && (forall t :: 0 <= t < i ==> a[t] == b[t]) && a[i] != b[i]
    ensures m < ID_BITS && forall k :: 0 <= k < m ==> BitsOf(a)[k] == BitsOf(b)[k]
    ensures BitOf(a, m) != BitOf(b, m) && (BitOf(b, m) <==> a[i] < b[i])
  {
    var j := FirstBitOfByte(a[i], b[i], 0);
    m := 8 * i + j;
    assert m / 8 == i && m % 8 == j;
    forall k | 0 <= k < m
      ensures BitsOf(a)[k] == BitsOf(b)[k]
    {
      assert k / 8 <= i;
    }
    if BitAt(b[i], j) { FirstBitDecides(a[i], b[i], j); } else { FirstBitDecides(b[i], a[i], j); }
  }

  lemma FirstBitOfByte(a: bv8, b: bv8, from: nat) returns (j: nat)
    requires a != b && from <= 8
    requires forall i :: 0 <= i < from ==> BitAt(a, i) == BitAt(b, i)
    ensures j < 8 && BitAt(a, j) != BitAt(b, j)
    ensures forall i :: 0 <= i < j ==> BitAt(a, i) == BitAt(b, i)
    decreases 8 - from
  {
    if from == 8 {
      SameBitsSameByte(a, b);
    } else if BitAt(a, from) != BitAt(b, from) {
      j := from;
    } else {
      j := FirstBitOfByte(a, b, from + 1);
    }
  }

  // ----- lowbit (dht.cpp:489) -----

  /** The position of the last 1 bit, or -1. */
  function LastOne(x: Bits): (k: int)
    ensures -1 <= k < |x|
    ensures k >= 0 ==> x[k]
    ensures forall i :: k < i < |x| ==> !x[i]
  {
    if |x| == 0 then -1
    else if x[|x| - 1] then |x| - 1
    else LastOne(x[..|x| - 1])
  }

  lemma LastOneUnique(x: Bits, k: int)
    requires -1 <= k < |x| && (k >= 0 ==> x[k])
    requires forall i :: k < i < |x| ==> !x[i]
    ensures LastOne(x) == k
  {
  }

  method LowBit(id: Id) returns (k: int)
    ensures k == LastOne(BitsOf(id))
  {
    var i := 19;
    while i >= 0
      invariant -1 <= i <= 19
      invariant forall t :: i < t < ID_BYTES ==> id[t] == 0
    {
      if id[i] != 0 {
        break;
      }
      i := i - 1;
    }
    forall t | 8 * (i + 1) <= t < ID_BITS
      ensures !BitsOf(id)[t]
    {
      assert id[t / 8] == 0;
    }
    if i < 0 {
      LastOneUnique(BitsOf(id), -1);
      return -1;
    }
    var j := 7;
    while j >= 0
      invariant -1 <= j <= 7
      invariant forall t :: j < t < 8 ==> !BitAt(id[i], t)
    {
      if id[i] & Mask(j) != 0 {
        break;
      }
      j := j - 1;
    }
    NonzeroByteHasBit(id[i]);
    k := 8 * i + j;
    assert k / 8 == i && k % 8 == j;
    forall t | k < t < ID_BITS
      ensures !BitsOf(id)[t]
    {
      if t / 8 == i { assert j < t % 8; }
    }
    LastOneUnique(BitsOf(id), k);
  }

  // ----- the XOR metric (dht.cpp:537) -----

  function Xor(a: Id, ref: Id): (r: Id)
    ensures forall i :: 0 <= i < ID_BYTES ==> r[i] == a[i] ^ ref[i]
  {
    seq(ID_BYTES, i requires 0 <= i < ID_BYTES => a[i] ^ ref[i])
  }

  /** Negative when `a` is nearer to `ref` than `b`: the order of the XOR distances. */
  function Nearer(a: Id, b: Id, ref: Id): (c: int)
  {
    IdCmp(Xor(a, ref), Xor(b, ref))
  }

  lemma XorInjective(a: Id, b: Id, ref: Id)
    requires Xor(a, ref) == Xor(b, ref)
    ensures a == b
  {
    forall i | 0 <= i < ID_BYTES
      ensures a[i] == b[i]
    {
      assert Xor(a, ref)[i] == Xor(b, ref)[i];
      XorByteInjective(a[i], b[i], ref[i]);
    }
  }

  lemma XorByteInjective(a: bv8, b: bv8, r: bv8)
    ensures a ^ r == b ^ r <==> a == b
  {
  }

  method XorCmp(id1: Id, id2: Id, ref: Id) returns (c: int)
    ensures c == Nearer(id1, id2, ref)
  {
    ghost var x1, x2 := Xor(id1, ref), Xor(id2, ref);
    for i := 0 to ID_BYTES
      invariant CompareFrom(x1, x2, 0) == CompareFrom(x1, x2, i)
    {
      if id1[i] == id2[i] {
        continue;
      }
      var xor1, xor2 := id1[i] ^ ref[i], id2[i] ^ ref[i];
      XorByteInjective(id1[i], id2[i], ref[i]);
      if xor1 < xor2 {
        return -1;
      } else {
        return 1;
      }
    }
    return 0;
  }

  /** The comparison is a strict total order on ids, whatever the reference point. */
  lemma NearerIsStrictTotalOrder(a: Id, b: Id, c: Id, ref: Id)
    ensures Nearer(a, b, ref) == 0 <==> a == b
    ensures Nearer(a, b, ref) < 0 <==> Nearer(b, a, ref) > 0
    ensures Nearer(a, b, ref) < 0 && Nearer(b, c, ref) < 0 ==> Nearer(a, c, ref) < 0
  {
    var xa, xb, xc := Xor(a, ref), Xor(b, ref), Xor(c, ref);
    IdCmpIsOrder(xa, xb);
    IdCmpIsOrder(xb, xa);
    IdCmpIsOrder(xb, xc);
    IdCmpIsOrder(xa, xc);
    if xa == xb { XorInjective(a, b, ref); }
    if Less(BitsOf(xa), BitsOf(xb)) && Less(BitsOf(xb), BitsOf(xc)) {
      LessTransitive(BitsOf(xa), BitsOf(xb), BitsOf(xc));
    }
  }
}
