/**
 Transactions and their wire form (ctransaction.h). The two transaction classes of the source
 differ only in whether the time stamp is part of the form: `timed` says which one is meant.
 */
module Transaction {
  import opened Bytes
  import opened Serialize
  import opened Wrappers

  type Hash = b: Bytes | |b| == 32 witness ToLE(0, 32)

  const MAX_U32: u32 := 0xffff_ffff

  datatype OutPoint = OutPoint(hash: Hash, n: u32)
  datatype TxIn = TxIn(prevout: OutPoint, scriptSig: Bytes, nSequence: u32)
  datatype TxOut = TxOut(nValue: i64, scriptPubKey: Bytes)
  datatype Tx = Tx(nVersion: i32, nTime: u32, vin: seq<TxIn>, vout: seq<TxOut>, nLockTime: u32)

  // ----- the formats -----

  /** An outpoint is written as it lies in memory. */
  function PutOutPoint(o: OutPoint): (b: Bytes)
    ensures |b| == 36
  {
    o.hash + PutU32(o.n)
  }

  /** It is read as it lies in memory, too: in one piece. */
  function GetOutPoint(mode: Mode, s: Bytes): (r: Parse<OutPoint>)
    ensures |r.rest| <= |s|
  {
    match GetRaw(mode, 36, s)
    case Thrown(rest) => Thrown(rest)
    case Done(b, rest) => Done(OutPointOf(b), rest)
  }

  function OutPointOf(b: Bytes): OutPoint
    requires |b| == 36
  {
    assert FromLE(b[32..]) < 0x1_0000_0000 by { FromLEBound(b[32..]); Spans(); }
    OutPoint(b[..32], FromLE(b[32..]))
  }

  function PutTxIn(i: TxIn): (b: Bytes)
  {
    PutOutPoint(i.prevout) + PutBytes(i.scriptSig) + PutU32(i.nSequence)
  }

  function GetTxIn(mode: Mode, s: Bytes): (r: Parse<TxIn>)
    ensures r.Done? ==> |r.value.scriptSig| <= mode.limit
    ensures |r.rest| <= |s|
  {
    match GetOutPoint(mode, s)
    case Thrown(rest) => Thrown(rest)
    case Done(o, s1) =>
      match GetBytes(mode, s1)
      case Thrown(rest) => Thrown(rest)
      case Done(b, s2) =>
        match GetU32(mode, s2)
        case Thrown(rest) => Thrown(rest)
        case Done(n, s3) => Done(TxIn(o, b, n), s3)
  }

  function PutTxOut(o: TxOut): (b: Bytes)
  {
    PutI64(o.nValue) + PutBytes(o.scriptPubKey)
  }

  function GetTxOut(mode: Mode, s: Bytes): (r: Parse<TxOut>)
    ensures r.Done? ==> |r.value.scriptPubKey| <= mode.limit
    ensures |r.rest| <= |s|
  {
    match GetI64(mode, s)
    case Thrown(rest) => Thrown(rest)
    case Done(v, s1) =>
      match GetBytes(mode, s1)
      case Thrown(rest) => Thrown(rest)
      case Done(b, s2) => Done(TxOut(v, b), s2)
  }

  function TxInWriter(): TxIn -> Bytes { i => PutTxIn(i) }
  function TxOutWriter(): TxOut -> Bytes { o => PutTxOut(o) }
  function TxInReader(mode: Mode): Bytes -> Parse<TxIn> { s => GetTxIn(mode, s) }
  function TxOutReader(mode: Mode): Bytes -> Parse<TxOut> { s => GetTxOut(mode, s) }

  function PutInputs(vin: seq<TxIn>): Bytes { PutVector(TxInWriter(), vin) }
  function PutOutputs(vout: seq<TxOut>): Bytes { PutVector(TxOutWriter(), vout) }

  function PutTime(timed: bool, t: u32): Bytes
  {
    if timed then PutU32(t) else []
  }

  function PutTx(timed: bool, tx: Tx): (b: Bytes)
  {
    PutI32(tx.nVersion) + PutTime(timed, tx.nTime) + PutInputs(tx.vin) + PutOutputs(tx.vout) + PutU32(tx.nLockTime)
  }

  /** A time stamp that is not in the form keeps the value `now` the object had. */
  function GetTime(mode: Mode, timed: bool, now: u32, s: Bytes): (r: Parse<u32>)
    ensures |r.rest| <= |s|
  {
    if timed then GetU32(mode, s) else Done(now, s)
  }

  function GetTx(mode: Mode, timed: bool, now: u32, s: Bytes): (r: Parse<Tx>)
  {
    match GetI32(mode, s)
    case Thrown(rest) => Thrown(rest)
    case Done(version, s1) =>
      match GetTime(mode, timed, now, s1)
      case Thrown(rest) => Thrown(rest)
      case Done(time, s2) =>
        match GetVector(mode, TxInReader(mode), s2)
        case Thrown(rest) => Thrown(rest)
        case Done(vin, s3) =>
          match GetVector(mode, TxOutReader(mode), s3)
          case Thrown(rest) => Thrown(rest)
          case Done(vout, s4) =>
            match GetU32(mode, s4)
            case Thrown(rest) => Thrown(rest)
            case Done(lock, s5) => Done(Tx(version, time, vin, vout, lock), s5)
  }

  // ----- round trips -----

  /** Every length is within `limit`. */
  predicate Storable(limit: nat, tx: Tx)
  {
    && |tx.vin| <= limit && |tx.vout| <= limit
    && (forall i :: 0 <= i < |tx.vin| ==> |tx.vin[i].scriptSig| <= limit)
    && (forall i :: 0 <= i < |tx.vout| ==> |tx.vout[i].scriptPubKey| <= limit)
  }

  lemma GetPutOutPoint(mode: Mode, o: OutPoint, rest: Bytes)
    ensures GetOutPoint(mode, PutOutPoint(o) + rest) == Done(o, rest)
  {
    hide GetRaw;
    var b := PutOutPoint(o);
    GetRawAfter(mode, b, rest);
    assert b[..32] == o.hash && b[32..] == PutU32(o.n);
    Spans();
    FromToLEFits(o.n, 4);
  }

  lemma GetPutTxIn(mode: Mode, i: TxIn, rest: Bytes)
    requires |i.scriptSig| <= mode.limit < TWO_64
    ensures GetTxIn(mode, PutTxIn(i) + rest) == Done(i, rest)
  {
    hide GetOutPoint, PutOutPoint, GetBytes, PutBytes, GetU32;
    var t2 := PutU32(i.nSequence) + rest;
    var t1 := PutBytes(i.scriptSig) + t2;
    assert PutTxIn(i) + rest == PutOutPoint(i.prevout) + t1;
    GetPutOutPoint(mode, i.prevout, t1);
    GetPutBytes(mode, i.scriptSig, t2);
    GetPutU32(mode, i.nSequence, rest);
  }

  lemma GetPutTxOut(mode: Mode, o: TxOut, rest: Bytes)
    requires |o.scriptPubKey| <= mode.limit < TWO_64
    ensures GetTxOut(mode, PutTxOut(o) + rest) == Done(o, rest)
  {
    hide GetI64, GetBytes, PutBytes;
    var t1 := PutBytes(o.scriptPubKey) + rest;
    assert PutTxOut(o) + rest == PutI64(o.nValue) + t1;
    GetPutI64(mode, o.nValue, t1);
    GetPutBytes(mode, o.scriptPubKey, rest);
  }

  lemma GetPutInputs(mode: Mode, vin: seq<TxIn>, rest: Bytes)
    requires |vin| <= mode.limit < TWO_64 && forall i :: 0 <= i < |vin| ==> |vin[i].scriptSig| <= mode.limit
    ensures GetVector(mode, TxInReader(mode), PutInputs(vin) + rest) == Done(vin, rest)
  {
    hide GetTxIn, PutTxIn, GetVector, PutVector;
    forall i, r: Bytes | 0 <= i < |vin|
      ensures TxInReader(mode)(TxInWriter()(vin[i]) + r) == Done(vin[i], r)
    {
      GetPutTxIn(mode, vin[i], r);
    }
    assert Undoes(TxInWriter(), TxInReader(mode), vin);
    GetPutVector(mode, TxInWriter(), TxInReader(mode), vin, rest);
  }

  lemma GetPutOutputs(mode: Mode, vout: seq<TxOut>, rest: Bytes)
    requires |vout| <= mode.limit < TWO_64 && forall i :: 0 <= i < |vout| ==> |vout[i].scriptPubKey| <= mode.limit
    ensures GetVector(mode, TxOutReader(mode), PutOutputs(vout) + rest) == Done(vout, rest)
  {
    hide GetTxOut, PutTxOut, GetVector, PutVector;
    forall i, r: Bytes | 0 <= i < |vout|
      ensures TxOutReader(mode)(TxOutWriter()(vout[i]) + r) == Done(vout[i], r)
    {
      GetPutTxOut(mode, vout[i], r);
    }
    assert Undoes(TxOutWriter(), TxOutReader(mode), vout);
    GetPutVector(mode, TxOutWriter(), TxOutReader(mode), vout, rest);
  }

  lemma GetPutTime(mode: Mode, timed: bool, now: u32, t: u32, rest: Bytes)
    ensures GetTime(mode, timed, now, PutTime(timed, t) + rest) == Done(if timed then t else now, rest)
  {
    GetPutU32(mode, t, rest);
    assert [] + rest == rest;
    hide GetU32, PutU32;
  }

  lemma TxParts(timed: bool, tx: Tx, rest: Bytes)
    ensures PutTx(timed, tx) + rest
         == PutI32(tx.nVersion) + (PutTime(timed, tx.nTime) + (PutInputs(tx.vin) + (PutOutputs(tx.vout) + (PutU32(tx.nLockTime) + rest))))
  {
    hide PutI32, PutTime, PutInputs, PutOutputs, PutU32;
  }

  lemma GetPutTx(mode: Mode, timed: bool, now: u32, tx: Tx, rest: Bytes)
    requires Storable(mode.limit, tx) && mode.limit < TWO_64
    ensures GetTx(mode, timed, now, PutTx(timed, tx) + rest) == Done(if timed then tx else tx.(nTime := now), rest)
  {
    var t4 := PutU32(tx.nLockTime) + rest;
    var t3 := PutOutputs(tx.vout) + t4;
    var t2 := PutInputs(tx.vin) + t3;
    var t1 := PutTime(timed, tx.nTime) + t2;
    TxParts(timed, tx, rest);
    GetPutI32(mode, tx.nVersion, t1);
    GetPutTime(mode, timed, now, tx.nTime, t2);
    GetPutInputs(mode, tx.vin, t3);
    GetPutOutputs(mode, tx.vout, t4);
    GetPutU32(mode, tx.nLockTime, rest);
    hide GetI32, GetTime, GetU32, GetVector, PutI32, PutTime, PutU32, PutInputs, PutOutputs, PutTx, TxInReader, TxOutReader;
  }

  /** What a reader delivers is within its limit. */
  lemma {:induction false} InputsWithin(mode: Mode, n: nat, s: Bytes)
    requires GetAll(TxInReader(mode), n, s).Done?
    ensures forall i :: 0 <= i < n ==> |GetAll(TxInReader(mode), n, s).value[i].scriptSig| <= mode.limit
    decreases n
  {
    hide GetTxIn;
    if n > 0 {
      InputsWithin(mode, n - 1, TxInReader(mode)(s).rest);
    }
  }

  lemma {:induction false} OutputsWithin(mode: Mode, n: nat, s: Bytes)
    requires GetAll(TxOutReader(mode), n, s).Done?
    ensures forall i :: 0 <= i < n ==> |GetAll(TxOutReader(mode), n, s).value[i].scriptPubKey| <= mode.limit
    decreases n
  {
    hide GetTxOut;
    if n > 0 {
      OutputsWithin(mode, n - 1, TxOutReader(mode)(s).rest);
    }
  }

  lemma DeliveredIsStorable(mode: Mode, timed: bool, now: u32, s: Bytes)
    requires GetTx(mode, timed, now, s).Done?
    ensures Storable(mode.limit, GetTx(mode, timed, now, s).value)
  {
    hide GetI32, GetU32, GetTime, GetAll, TxInReader, TxOutReader, GetSize;
    var s2 := GetTime(mode, timed, now, GetI32(mode, s).rest).rest;
    var ins := GetSize(mode, s2);
    InputsWithin(mode, ins.value, ins.rest);
    var outs := GetSize(mode, GetAll(TxInReader(mode), ins.value, ins.rest).rest);
    OutputsWithin(mode, outs.value, outs.rest);
  }

  /**
   Reading back a transaction gives it back and leaves what follows unread, exactly when no
   vector in it is longer than the reader allows. The time stamp is part of the result only if
   it is part of the form.
   */
  lemma RoundTrip(strict: bool, timed: bool, now: u32, tx: Tx, rest: Bytes)
    ensures GetTx(Mode(0x0200_0000, strict), timed, now, PutTx(timed, tx) + rest)
              == Done(if timed then tx else tx.(nTime := now), rest)
            <==> Storable(0x0200_0000, tx)
  {
    hide GetTx, PutTx;
    var s, mode := PutTx(timed, tx) + rest, Mode(MAX_SIZE, strict);
    if Storable(MAX_SIZE, tx) {
      GetPutTx(mode, timed, now, tx, rest);
    } else if GetTx(mode, timed, now, s).Done? {
      DeliveredIsStorable(mode, timed, now, s);
    }
  }

  /** No bound of a 64-bit machine is exceeded: the vectors could exist in memory. */
  predicate Sized(tx: Tx)
  {
    Storable(TWO_64 - 1, tx)
  }

  /** Different transactions have different forms. */
  lemma PutTxInjective(a: Tx, b: Tx, x: Bytes, y: Bytes)
    requires Sized(a) && Sized(b) && PutTx(true, a) + x == PutTx(true, b) + y
    ensures a == b && x == y
  {
    hide GetTx, PutTx;
    GetPutTx(Mode(TWO_64 - 1, true), true, 0, a, x);
    GetPutTx(Mode(TWO_64 - 1, true), true, 0, b, y);
  }

  // ----- replacement (ctransaction.h:273) -----

  predicate SameOutPoints(a: seq<TxIn>, b: seq<TxIn>)
  {
    |a| == |b| && forall i :: 0 <= i < |a| ==> a[i].prevout == b[i].prevout
  }

  predicate Differ(a: seq<TxIn>, b: seq<TxIn>, i: int)
    requires |a| == |b|
  {
    0 <= i < |a| && a[i].nSequence != b[i].nSequence
  }

  /** Where the two differ, input `i` of `b` has a sequence number below all those of `a`. */
  ghost predicate Undercuts(a: seq<TxIn>, b: seq<TxIn>, i: int)
    requires |a| == |b|
  {
    Differ(a, b, i) && forall j :: Differ(a, b, j) ==> b[i].nSequence < a[j].nSequence
  }

  /** `a` spends the same outputs as `b`, and of the sequence numbers in which they differ the lowest is in `b` alone. */
  ghost predicate Newer(a: seq<TxIn>, b: seq<TxIn>)
  {
    SameOutPoints(a, b) && exists i :: Undercuts(a, b, i)
  }

  /**
   With inputs written out: all outpoints are the same, and among the places in which the sequence
   numbers differ there is one where that of `b` is below all those of `a`.
   */
  lemma NewerMeans(a: seq<TxIn>, b: seq<TxIn>)
    ensures Newer(a, b) <==>
            && |a| == |b| && (forall i :: 0 <= i < |a| ==> a[i].prevout == b[i].prevout)
            && exists i :: 0 <= i < |a| && a[i].nSequence != b[i].nSequence
                           && forall j :: 0 <= j < |a| && a[j].nSequence != b[j].nSequence ==> b[i].nSequence < a[j].nSequence
  {
    if Newer(a, b) {
      var i :| Undercuts(a, b, i);
      assert forall j :: 0 <= j < |a| && a[j].nSequence != b[j].nSequence ==> Differ(a, b, j);
    } else if SameOutPoints(a, b) {
      forall i | 0 <= i < |a| && a[i].nSequence != b[i].nSequence
        ensures exists j :: 0 <= j < |a| && a[j].nSequence != b[j].nSequence && b[i].nSequence >= a[j].nSequence
      {
        assert Differ(a, b, i) && !Undercuts(a, b, i);
      }
    }
  }

  /** Of two transactions with one input each the one with the higher sequence number is newer. */
  lemma OneInputNewer(a: TxIn, b: TxIn)
    ensures Newer([a], [b]) <==> a.prevout == b.prevout && b.nSequence < a.nSequence
  {
    NewerMeans([a], [b]);
    assert [a][0] == a && [b][0] == b;
    hide Newer;
  }

  method IsNewerThan(a: Tx, b: Tx) returns (newer: bool)
    ensures newer <==> Newer(a.vin, b.vin)
  {
    var vin, earlier := a.vin, b.vin;
    if |vin| != |earlier| {
      return false;
    }
    for i := 0 to |vin|
      invariant forall j :: 0 <= j < i ==> vin[j].prevout == earlier[j].prevout
    {
      if vin[i].prevout != earlier[i].prevout {
        return false;
      }
    }
    newer := false;
    var lowest := MAX_U32;
    ghost var w := 0;
    for i := 0 to |vin|
      invariant forall j :: j < i && Differ(vin, earlier, j) ==> lowest <= vin[j].nSequence && lowest <= earlier[j].nSequence
      invariant newer ==> w < i && Differ(vin, earlier, w) && earlier[w].nSequence == lowest
                          && forall j :: j < i && Differ(vin, earlier, j) ==> lowest < vin[j].nSequence
      invariant !newer ==> ((forall j :: j < i ==> !Differ(vin, earlier, j)) && lowest == MAX_U32)
                           || (w < i && Differ(vin, earlier, w) && vin[w].nSequence == lowest)
    {
      if vin[i].nSequence != earlier[i].nSequence {
        assert Differ(vin, earlier, i);
        if vin[i].nSequence <= lowest {
          newer := false;
          lowest := vin[i].nSequence;
          w := i;
        }
        if earlier[i].nSequence < lowest {
          newer := true;
          lowest := earlier[i].nSequence;
          w := i;
        }
      }
    }
    assert newer ==> Undercuts(vin, earlier, w);
  }

  /** Replacement never goes round in circles. */
  lemma NewerIsStrictOrder(a: seq<TxIn>, b: seq<TxIn>, c: seq<TxIn>)
    ensures Newer(a, b) ==> !Newer(b, a)
    ensures Newer(a, b) && Newer(b, c) ==> Newer(a, c)
  {
    if Newer(a, b) {
      var i :| Undercuts(a, b, i);
      if Newer(b, a) {
        var k :| Undercuts(b, a, k);
        assert Differ(a, b, k) && Differ(b, a, i);
      }
      if Newer(b, c) {
        var j :| Undercuts(b, c, j);
        NewerChain(a, b, c, i, j);
      }
    }
  }

  /** Of the two witnesses the one with the lower number serves for the outer pair. */
  lemma NewerChain(a: seq<TxIn>, b: seq<TxIn>, c: seq<TxIn>, i: int, j: int)
    requires |a| == |b| == |c| && Undercuts(a, b, i) && Undercuts(b, c, j)
    ensures Undercuts(a, c, if c[j].nSequence <= b[i].nSequence then j else i)
  {
    var w := if c[j].nSequence <= b[i].nSequence then j else i;
    assert Differ(a, b, j) || a[j].nSequence == b[j].nSequence;
    assert Differ(b, c, i) || b[i].nSequence == c[i].nSequence;
    assert Differ(a, c, w);
    forall k | Differ(a, c, k)
      ensures c[w].nSequence < a[k].nSequence
    {
      assert Differ(a, b, k) || Differ(b, c, k);
    }
  }

  // ----- the size announced beforehand -----

  /** Sums of sizes are kept in 32 bits. */
  function Wrap(n: nat): (w: nat)
  {
    n % 0x1_0000_0000
  }

  lemma WrapAdd(a: nat, b: nat)
    ensures Wrap(Wrap(a) + b) == Wrap(a + b) && Wrap(a + Wrap(b)) == Wrap(a + b)
  {
    WrapShift(Wrap(a) + b, a / 0x1_0000_0000);
    WrapShift(a + Wrap(b), b / 0x1_0000_0000);
    assert a == Wrap(a) + 0x1_0000_0000 * (a / 0x1_0000_0000);
    assert b == Wrap(b) + 0x1_0000_0000 * (b / 0x1_0000_0000);
    hide Wrap;
  }

  lemma WrapShift(x: nat, k: nat)
    ensures Wrap(x + 0x1_0000_0000 * k) == Wrap(x)
  {
    ModUnique(x + 0x1_0000_0000 * k, 0x1_0000_0000, x / 0x1_0000_0000 + k, x % 0x1_0000_0000);
  }

  function SizeOfBytes(b: Bytes): (w: nat)
    ensures w == Wrap(|PutBytes(b)|)
  {
    SizeOfSizeIsWritten(|b|);
    Wrap(SizeOfSize(|b|) + |b|)
  }

  function SizeOfTxIn(i: TxIn): (w: nat)
    ensures w == Wrap(|PutTxIn(i)|)
  {
    WrapAdd(|PutBytes(i.scriptSig)|, 40);
    Wrap(36 + SizeOfBytes(i.scriptSig) + 4)
  }

  function SizeOfTxOut(o: TxOut): (w: nat)
    ensures w == Wrap(|PutTxOut(o)|)
  {
    WrapAdd(|PutBytes(o.scriptPubKey)|, 8);
    Wrap(8 + SizeOfBytes(o.scriptPubKey))
  }

  method SizeOfInputs(vin: seq<TxIn>) returns (size: nat)
    ensures size == Wrap(|PutInputs(vin)|)
  {
    hide Wrap, PutTxIn, SizeOfTxIn, PutSize;
    SizeOfSizeIsWritten(|vin|);
    ghost var head := |PutSize(|vin|)|;
    size := Wrap(SizeOfSize(|vin|));
    for k := 0 to |vin|
      invariant size == Wrap(head + |PutAll(TxInWriter(), vin[..k])|)
    {
      var one := SizeOfTxIn(vin[k]);
      assert vin[..k + 1] == vin[..k] + [vin[k]];
      PutAllSnoc(TxInWriter(), vin[..k], vin[k]);
      WrapAdd(head + |PutAll(TxInWriter(), vin[..k])|, one);
      WrapAdd(head + |PutAll(TxInWriter(), vin[..k])|, |PutTxIn(vin[k])|);
      size := Wrap(size + one);
    }
    assert vin[..|vin|] == vin;
  }

  method SizeOfOutputs(vout: seq<TxOut>) returns (size: nat)
    ensures size == Wrap(|PutOutputs(vout)|)
  {
    hide Wrap, PutTxOut, SizeOfTxOut, PutSize;
    SizeOfSizeIsWritten(|vout|);
    ghost var head := |PutSize(|vout|)|;
    size := Wrap(SizeOfSize(|vout|));
    for k := 0 to |vout|
      invariant size == Wrap(head + |PutAll(TxOutWriter(), vout[..k])|)
    {
      var one := SizeOfTxOut(vout[k]);
      assert vout[..k + 1] == vout[..k] + [vout[k]];
      PutAllSnoc(TxOutWriter(), vout[..k], vout[k]);
      WrapAdd(head + |PutAll(TxOutWriter(), vout[..k])|, one);
      WrapAdd(head + |PutAll(TxOutWriter(), vout[..k])|, |PutTxOut(vout[k])|);
      size := Wrap(size + one);
    }
    assert vout[..|vout|] == vout;
  }

  /** `GetSerializeSize`: the number of bytes that writing produces, modulo 2^32. */
  method GetSerializeSize(timed: bool, tx: Tx) returns (size: nat)
    ensures size == |PutTx(timed, tx)| % 0x1_0000_0000
  {
    var ins := SizeOfInputs(tx.vin);
    var outs := SizeOfOutputs(tx.vout);
    var fixed: nat := 8 + if timed then 4 else 0;
    size := Wrap(fixed + ins + outs);
    ghost var i, o := |PutInputs(tx.vin)|, |PutOutputs(tx.vout)|;
    assert |PutTx(timed, tx)| == fixed + i + o by { hide PutInputs, PutOutputs, PutI32, PutU32; }
    assert size == Wrap(fixed + i + o) by {
      hide *;
      WrapAdd(fixed + ins, o);
      WrapAdd(fixed + o, i);
    }
  }

  // ----- over the stream -----

  /** The stream takes no more than 2 GiB at once; that goes for scripts, which are written in one piece. */
  predicate Writable(tx: Tx)
  {
    && (forall i :: 0 <= i < |tx.vin| ==> |tx.vin[i].scriptSig| < TWO_31)
    && OutputsWritable(tx.vout)
  }

  predicate OutputsWritable(vout: seq<TxOut>)
  {
    forall i :: 0 <= i < |vout| ==> |vout[i].scriptPubKey| < TWO_31
  }

  method WriteTx(s: DataStream, timed: bool, tx: Tx)
    requires s.Valid() && Writable(tx)
    modifies s
    ensures s.Valid() && s.Contents() == old(s.Contents()) + PutTx(timed, tx)
  {
    hide PutI32, PutU32, PutInputs, PutOutputs;
    ghost var s0 := s.Contents();
    s.Write(PutI32(tx.nVersion));
    if timed {
      s.Write(PutU32(tx.nTime));
    }
    ghost var head := PutI32(tx.nVersion) + PutTime(timed, tx.nTime);
    assert s.Contents() == s0 + head;
    WriteInputs(s, tx.vin);
    WriteOutputs(s, tx.vout);
    s.Write(PutU32(tx.nLockTime));
  }

  method WriteBytes(s: DataStream, b: Bytes)
    requires s.Valid() && |b| < TWO_31
    modifies s
    ensures s.Valid() && s.Contents() == old(s.Contents()) + PutBytes(b)
  {
    hide PutSize;
    s.WriteCompactSize(|b|);
    if b != [] {
      s.Write(b);
    }
  }

  method WriteTxIn(s: DataStream, i: TxIn)
    requires s.Valid() && |i.scriptSig| < TWO_31
    modifies s
    ensures s.Valid() && s.Contents() == old(s.Contents()) + PutTxIn(i)
  {
    hide PutBytes, PutU32, PutOutPoint;
    s.Write(PutOutPoint(i.prevout));
    WriteBytes(s, i.scriptSig);
    s.Write(PutU32(i.nSequence));
  }

  method WriteTxOut(s: DataStream, o: TxOut)
    requires s.Valid() && |o.scriptPubKey| < TWO_31
    modifies s
    ensures s.Valid() && s.Contents() == old(s.Contents()) + PutTxOut(o)
  {
    hide PutBytes, PutI64;
    s.Write(PutI64(o.nValue));
    WriteBytes(s, o.scriptPubKey);
  }

  method WriteInputs(s: DataStream, vin: seq<TxIn>)
    requires s.Valid() && forall i :: 0 <= i < |vin| ==> |vin[i].scriptSig| < TWO_31
    modifies s
    ensures s.Valid() && s.Contents() == old(s.Contents()) + PutInputs(vin)
  {
    hide PutSize, PutTxIn;
    s.WriteCompactSize(|vin|);
    ghost var s1 := s.Contents();
    for k := 0 to |vin|
      invariant s.Valid() && s.Contents() == s1 + PutAll(TxInWriter(), vin[..k])
    {
      assert vin[..k + 1] == vin[..k] + [vin[k]];
      PutAllSnoc(TxInWriter(), vin[..k], vin[k]);
      WriteTxIn(s, vin[k]);
    }
    assert vin[..|vin|] == vin;
  }

  method WriteOutputs(s: DataStream, vout: seq<TxOut>)
    requires s.Valid() && OutputsWritable(vout)
    modifies s
    ensures s.Valid() && s.Contents() == old(s.Contents()) + PutOutputs(vout)
  {
    hide PutSize, PutTxOut;
    s.WriteCompactSize(|vout|);
    ghost var s1 := s.Contents();
    for k := 0 to |vout|
      invariant s.Valid() && s.Contents() == s1 + PutAll(TxOutWriter(), vout[..k])
    {
      assert vout[..k + 1] == vout[..k] + [vout[k]];
      PutAllSnoc(TxOutWriter(), vout[..k], vout[k]);
      WriteTxOut(s, vout[k]);
    }
    assert vout[..|vout|] == vout;
  }

  method ReadU32(s: DataStream) returns (r: Option<u32>)
    requires s.Valid()
    modifies s
    ensures s.Valid() && s.throwing == old(s.throwing) && Spent(old(s.vch), s.vch)
    ensures Fits(old(|s.vch|), s.Way(), GetU32(s.Way(), old(s.Contents()))) ==>
              s.Follows(GetU32(s.Way(), old(s.Contents())), r)
  {
    hide GetRaw;
    var b := s.Take(4);
    if b.None? {
      return None;
    }
    Spans();
    FromLEBound(b.value);
    r := Some(FromLE(b.value));
  }

  /** An input that stays below 4 GiB has its three parts there. */
  lemma TxInFits(end: nat, mode: Mode, s: Bytes)
    requires Fits(end, mode, GetTxIn(mode, s))
    ensures var prevout := GetRaw(mode, 36, s);
            && Fits(end, mode, prevout)
            && (prevout.Done? ==>
                  var script := GetBytes(mode, prevout.rest);
                  Fits(end, mode, script) && (script.Done? ==> Fits(end, mode, GetU32(mode, script.rest))))
  {
    hide GetRaw, GetBytes, GetU32;
  }

  lemma TxOutFits(end: nat, mode: Mode, s: Bytes)
    requires Fits(end, mode, GetTxOut(mode, s))
    ensures var value := GetI64(mode, s);
            Fits(end, mode, value) && (value.Done? ==> Fits(end, mode, GetBytes(mode, value.rest)))
  {
    hide GetI64, GetBytes;
  }

  method ReadTxIn(s: DataStream) returns (r: Option<TxIn>)
    requires s.Valid()
    modifies s
    ensures s.Valid() && s.throwing == old(s.throwing) && Spent(old(s.vch), s.vch)
    ensures Fits(old(|s.vch|), s.Way(), GetTxIn(s.Way(), old(s.Contents()))) ==>
              s.Follows(GetTxIn(s.Way(), old(s.Contents())), r)
  {
    hide GetU32, GetBytes, GetRaw, Fits, DataStream.Contents;
    ghost var end, way := |s.vch|, s.Way();
    ghost var fits := Fits(end, way, GetTxIn(way, s.Contents()));
    if fits {
      TxInFits(end, way, s.Contents());
    }
    var prevout := s.Take(36);
    if prevout.None? {
      return None;
    }
    if fits { FitsLess(end, |s.vch|, way, GetBytes(way, s.Contents())); }
    var script := s.ReadBytes();
    if script.None? {
      return None;
    }
    if fits { FitsLess(end, |s.vch|, way, GetU32(way, s.Contents())); }
    var sequence := ReadU32(s);
    if sequence.None? {
      return None;
    }
    r := Some(TxIn(OutPointOf(prevout.value), script.value, sequence.value));
  }

  method ReadI32(s: DataStream) returns (r: Option<i32>)
    requires s.Valid()
    modifies s
    ensures s.Valid() && s.throwing == old(s.throwing) && Spent(old(s.vch), s.vch)
    ensures Fits(old(|s.vch|), s.Way(), GetI32(s.Way(), old(s.Contents()))) ==>
              s.Follows(GetI32(s.Way(), old(s.Contents())), r)
  {
    hide GetRaw;
    var b := s.Take(4);
    if b.None? {
      return None;
    }
    Spans();
    FromLEBound(b.value);
    r := Some(FromSigned(b.value));
  }

  method ReadI64(s: DataStream) returns (r: Option<i64>)
    requires s.Valid()
    modifies s
    ensures s.Valid() && s.throwing == old(s.throwing) && Spent(old(s.vch), s.vch)
    ensures Fits(old(|s.vch|), s.Way(), GetI64(s.Way(), old(s.Contents()))) ==>
              s.Follows(GetI64(s.Way(), old(s.Contents())), r)
  {
    hide GetRaw;
    var b := s.Take(8);
    if b.None? {
      return None;
    }
    Spans();
    FromLEBound(b.value);
    r := Some(FromSigned(b.value));
  }

  method ReadTxOut(s: DataStream) returns (r: Option<TxOut>)
    requires s.Valid()
    modifies s
    ensures s.Valid() && s.throwing == old(s.throwing) && Spent(old(s.vch), s.vch)
    ensures Fits(old(|s.vch|), s.Way(), GetTxOut(s.Way(), old(s.Contents()))) ==>
              s.Follows(GetTxOut(s.Way(), old(s.Contents())), r)
  {
    hide GetBytes, GetI64, Fits, DataStream.Contents;
    ghost var end, way := |s.vch|, s.Way();
    ghost var fits := Fits(end, way, GetTxOut(way, s.Contents()));
    if fits {
      TxOutFits(end, way, s.Contents());
    }
    var value := ReadI64(s);
    if value.None? {
      return None;
    }
    if fits { FitsLess(end, |s.vch|, way, GetBytes(way, s.Contents())); }
    var script := s.ReadBytes();
    if script.None? {
      return None;
    }
    r := Some(TxOut(value.value, script.value));
  }

  /** Elements are read in batches of 5,000,000 bytes of memory: the same as one after the other. */
  method ReadInputs(s: DataStream, sizeofElement: nat) returns (r: Option<seq<TxIn>>)
    requires s.Valid() && 0 < sizeofElement <= 5_000_000
    modifies s
    ensures s.Valid() && s.throwing == old(s.throwing) && Spent(old(s.vch), s.vch)
    ensures Fits(old(|s.vch|), s.Way(), GetVector(s.Way(), TxInReader(s.Way()), old(s.Contents()))) ==>
              s.Follows(GetVector(s.Way(), TxInReader(s.Way()), old(s.Contents())), r)
  {
    hide GetSize, GetTxIn, GetAll, Fits, Reading, Prefixed, DataStream.Contents;
    ghost var way, end := s.Way(), |s.vch|;
    ghost var whole := GetVector(way, TxInReader(way), s.Contents());
    ghost var fits := Fits(end, way, whole);
    if fits {
      ReadersConsume(way);
      VectorFits(end, way, TxInReader(way), s.Contents());
    }
    var size := s.ReadCompactSize();
    if size.None? {
      return None;
    }
    ghost var get, all := TxInReader(way), GetAll(TxInReader(way), size.value, s.Contents());
    ReadingStarts(get, size.value, s.Contents());
    var v: seq<TxIn> := [];
    var mid: nat := 0;
    while mid < size.value
      invariant s.Valid() && s.Way() == way && Spent(old(s.vch), s.vch) && |v| == mid <= size.value
      invariant fits ==> Reading(all, get, size.value, v, s.Contents())
    {
      mid := mid + BatchSize(sizeofElement);
      if mid > size.value {
        mid := size.value;
      }
      while |v| < mid
        invariant s.Valid() && s.Way() == way && Spent(old(s.vch), s.vch) && |v| <= mid <= size.value
        invariant fits ==> Reading(all, get, size.value, v, s.Contents())
        decreases mid - |v|
      {
        if fits {
          ReadingGoesOn(all, get, size.value, v, s.Contents(), end, way);
          FitsLess(end, |s.vch|, way, get(s.Contents()));
        }
        var one := ReadTxIn(s);
        if one.None? {
          return None;
        }
        v := v + [one.value];
      }
    }
    if fits {
      ReadingEnds(all, get, size.value, v, s.Contents());
    }
    r := Some(v);
  }

  method ReadOutputs(s: DataStream, sizeofElement: nat) returns (r: Option<seq<TxOut>>)
    requires s.Valid() && 0 < sizeofElement <= 5_000_000
    modifies s
    ensures s.Valid() && s.throwing == old(s.throwing) && Spent(old(s.vch), s.vch)
    ensures Fits(old(|s.vch|), s.Way(), GetVector(s.Way(), TxOutReader(s.Way()), old(s.Contents()))) ==>
              s.Follows(GetVector(s.Way(), TxOutReader(s.Way()), old(s.Contents())), r)
  {
    hide GetSize, GetTxOut, GetAll, Fits, Reading, Prefixed, DataStream.Contents;
    ghost var way, end := s.Way(), |s.vch|;
    ghost var whole := GetVector(way, TxOutReader(way), s.Contents());
    ghost var fits := Fits(end, way, whole);
    if fits {
      ReadersConsume(way);
      VectorFits(end, way, TxOutReader(way), s.Contents());
    }
    var size := s.ReadCompactSize();
    if size.None? {
      return None;
    }
    ghost var get, all := TxOutReader(way), GetAll(TxOutReader(way), size.value, s.Contents());
    ReadingStarts(get, size.value, s.Contents());
    var v: seq<TxOut> := [];
    var mid: nat := 0;
    while mid < size.value
      invariant s.Valid() && s.Way() == way && Spent(old(s.vch), s.vch) && |v| == mid <= size.value
      invariant fits ==> Reading(all, get, size.value, v, s.Contents())
    {
      mid := mid + BatchSize(sizeofElement);
      if mid > size.value {
        mid := size.value;
      }
      while |v| < mid
        invariant s.Valid() && s.Way() == way && Spent(old(s.vch), s.vch) && |v| <= mid <= size.value
        invariant fits ==> Reading(all, get, size.value, v, s.Contents())
        decreases mid - |v|
      {
        if fits {
          ReadingGoesOn(all, get, size.value, v, s.Contents(), end, way);
          FitsLess(end, |s.vch|, way, get(s.Contents()));
        }
        var one := ReadTxOut(s);
        if one.None? {
          return None;
        }
        v := v + [one.value];
      }
    }
    if fits {
      ReadingEnds(all, get, size.value, v, s.Contents());
    }
    r := Some(v);
  }

  lemma ReadersConsume(mode: Mode)
    ensures Consumes(TxInReader(mode)) && Consumes(TxOutReader(mode))
  {
    hide GetTxIn, GetTxOut;
  }

  /** A vector that stays below 4 GiB has its size and its elements there. */
  lemma VectorFits<T>(end: nat, mode: Mode, get: Bytes -> Parse<T>, s: Bytes)
    requires Consumes(get) && Fits(end, mode, GetVector(mode, get, s))
    ensures var size := GetSize(mode, s);
            Fits(end, mode, size) && (size.Done? ==> Fits(end, mode, GetAll(get, size.value, size.rest)))
  {
    hide GetSize, GetAll;
    var size := GetSize(mode, s);
    if size.Done? {
      AllConsume(get, size.value, size.rest);
    }
  }

  lemma VectorShortens<T>(mode: Mode, get: Bytes -> Parse<T>, s: Bytes)
    requires Consumes(get)
    ensures |GetVector(mode, get, s).rest| <= |s|
  {
    hide GetSize;
    var size := GetSize(mode, s);
    if size.Done? {
      AllConsume(get, size.value, size.rest);
    }
  }

  /** A transaction that stays below 4 GiB has all its parts there. */
  lemma TxFits(end: nat, mode: Mode, timed: bool, now: u32, s: Bytes)
    requires Fits(end, mode, GetTx(mode, timed, now, s))
    ensures Fits(end, mode, GetI32(mode, s))
    ensures GetI32(mode, s).Done? ==> TailFits(end, mode, timed, now, GetI32(mode, s).rest)
  {
    hide GetI32, GetU32, GetVector, TxInReader, TxOutReader, GetTime;
    ReadersConsume(mode);
    var version := GetI32(mode, s);
    if version.Done? {
      var time := GetTime(mode, timed, now, version.rest);
      if time.Done? {
        VectorShortens(mode, TxInReader(mode), time.rest);
        var vin := GetVector(mode, TxInReader(mode), time.rest);
        if vin.Done? {
          VectorShortens(mode, TxOutReader(mode), vin.rest);
        }
      }
    }
  }

  ghost predicate TailFits(end: nat, mode: Mode, timed: bool, now: u32, s: Bytes)
  {
    var time := GetTime(mode, timed, now, s);
    && Fits(end, mode, time)
    && (time.Done? ==>
          var vin := GetVector(mode, TxInReader(mode), time.rest);
          && Fits(end, mode, vin)
          && (vin.Done? ==>
                var vout := GetVector(mode, TxOutReader(mode), vin.rest);
                Fits(end, mode, vout) && (vout.Done? ==> Fits(end, mode, GetU32(mode, vout.rest)))))
  }

  function BatchSize(sizeofElement: nat): (n: nat)
    requires 0 < sizeofElement <= 5_000_000
    ensures n >= 1
  {
    5_000_000 / sizeofElement
  }

  /** The element sizes are those of the compiler at hand. */
  method ReadTx(s: DataStream, timed: bool, now: u32, sizeofTxIn: nat, sizeofTxOut: nat) returns (r: Option<Tx>)
    requires s.Valid() && 0 < sizeofTxIn <= 5_000_000 && 0 < sizeofTxOut <= 5_000_000
    modifies s
    ensures s.Valid() && s.throwing == old(s.throwing) && Spent(old(s.vch), s.vch)
    ensures Fits(old(|s.vch|), s.Way(), GetTx(s.Way(), timed, now, old(s.Contents()))) ==>
              s.Follows(GetTx(s.Way(), timed, now, old(s.Contents())), r)
  {
    hide GetI32, GetU32, GetVector, TxInReader, TxOutReader, Fits, DataStream.Contents;
    ghost var end, way := |s.vch|, s.Way();
    ghost var fits := Fits(end, way, GetTx(way, timed, now, s.Contents()));
    if fits {
      TxFits(end, way, timed, now, s.Contents());
    }
    var version := ReadI32(s);
    if version.None? {
      return None;
    }
    var time := Some(now);
    if timed {
      if fits { FitsLess(end, |s.vch|, way, GetU32(way, s.Contents())); }
      time := ReadU32(s);
      if time.None? {
        return None;
      }
    }
    if fits { FitsLess(end, |s.vch|, way, GetVector(way, TxInReader(way), s.Contents())); }
    var vin := ReadInputs(s, sizeofTxIn);
    if vin.None? {
      return None;
    }
    if fits { FitsLess(end, |s.vch|, way, GetVector(way, TxOutReader(way), s.Contents())); }
    var vout := ReadOutputs(s, sizeofTxOut);
    if vout.None? {
      return None;
    }
    if fits { FitsLess(end, |s.vch|, way, GetU32(way, s.Contents())); }
    var lock := ReadU32(s);
    if lock.None? {
      return None;
    }
    r := Some(Tx(version.value, time.value, vin.value, vout.value, lock.value));
  }
}
