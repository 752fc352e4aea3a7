/**
 The message a signature commits to (script.cpp:1062-1122): a copy of the transaction with the
 parts blanked out that the hash type leaves open, and which parts those are.
 */
module SigHash {
  import opened Bytes
  import opened ScriptBytes
  import opened Serialize
  import opened Transaction
  import opened Wrappers

  const OP_CODESEPARATOR := 0xab
  const SIGHASH_NONE := 2
  const SIGHASH_SINGLE := 3

  function Base(hashType: u32): (b: nat) { hashType % 0x20 }

  predicate AnyoneCanPay(hashType: u32) { (hashType / 0x80) % 2 == 1 }

  /** Script code without its code separators. */
  function Cleaned(code: Bytes): Bytes
  {
    DeleteAll(code, [OP_CODESEPARATOR]).0
  }

  predicate Open(hashType: u32)
  {
    Base(hashType) == SIGHASH_NONE || Base(hashType) == SIGHASH_SINGLE
  }

  function NullOut(): TxOut
  {
    TxOut(-1, [])
  }

  /** Input `i` of the copy. */
  function BlankedInput(tx: Tx, nIn: nat, code: Bytes, hashType: u32, i: nat): TxIn
    requires nIn < |tx.vin| && i < |tx.vin|
  {
    if i == nIn then tx.vin[i].(scriptSig := Cleaned(code))
    else TxIn(tx.vin[i].prevout, [], if Open(hashType) then 0 else tx.vin[i].nSequence)
  }

  function BlankedInputs(tx: Tx, nIn: nat, code: Bytes, hashType: u32): (vin: seq<TxIn>)
    requires nIn < |tx.vin|
  {
    if AnyoneCanPay(hashType) then [BlankedInput(tx, nIn, code, hashType, nIn)]
    else seq(|tx.vin|, i requires 0 <= i < |tx.vin| => BlankedInput(tx, nIn, code, hashType, i))
  }

  function BlankedOutputs(tx: Tx, nIn: nat, hashType: u32): (vout: seq<TxOut>)
    requires Base(hashType) == SIGHASH_SINGLE ==> nIn < |tx.vout|
  {
    if Base(hashType) == SIGHASH_NONE then []
    else if Base(hashType) == SIGHASH_SINGLE then seq(nIn, i => NullOut()) + [tx.vout[nIn]]
    else tx.vout
  }

  /** The cases in which a message exists; otherwise the source answers with the number 1. */
  predicate InRange(tx: Tx, nIn: nat, hashType: u32)
  {
    nIn < |tx.vin| && (Base(hashType) == SIGHASH_SINGLE ==> nIn < |tx.vout|)
  }

  function Blanked(tx: Tx, nIn: nat, code: Bytes, hashType: u32): Tx
    requires InRange(tx, nIn, hashType)
  {
    tx.(vin := BlankedInputs(tx, nIn, code, hashType), vout := BlankedOutputs(tx, nIn, hashType))
  }

  /** The bytes that are hashed. */
  function Message(tx: Tx, nIn: nat, code: Bytes, hashType: u32): Bytes
    requires InRange(tx, nIn, hashType)
  {
    PutTx(true, Blanked(tx, nIn, code, hashType)) + PutU32(hashType)
  }

  /** The number 1 as a 256-bit value. */
  function One(): Bytes
  {
    ToLE(1, 32)
  }

  /** `SignatureHash`: edits a copy of the transaction step by step. What the copy contains can be written. */
  method SignatureHash(code0: Bytes, txTo: Tx, nIn: nat, hashType: u32, hash: Bytes -> Bytes) returns (h: Bytes)
    requires |code0| < TWO_31 && OutputsWritable(txTo.vout)
    ensures h == if InRange(txTo, nIn, hashType) then hash(Message(txTo, nIn, code0, hashType)) else One()
  {
    hide PutTx, DeleteAll, BlankedInputs, BlankedOutputs, One, PutU32;
    if nIn >= |txTo.vin| {
      return One();
    }
    var code := Clean(code0);
    var vin := BlankScripts(txTo.vin);
    vin := vin[nIn := vin[nIn].(scriptSig := code)];
    var vout := txTo.vout;
    if Base(hashType) == SIGHASH_NONE {
      vout := [];
    } else if Base(hashType) == SIGHASH_SINGLE {
      if nIn >= |vout| {
        return One();
      }
      vout := KeepOutput(vout, nIn);
    }
    OutputsDone(txTo, nIn, hashType, vout);
    vin := OpenInputs(vin, txTo, nIn, code0, hashType);
    BlankedIsWritable(txTo, nIn, code0, hashType);
    h := HashForm(txTo.(vin := vin, vout := vout), hashType, hash);
  }

  /** The edits of the inputs that depend on the hash type. */
  method OpenInputs(vin0: seq<TxIn>, ghost tx: Tx, nIn: nat, ghost code0: Bytes, hashType: u32) returns (vin: seq<TxIn>)
    requires nIn < |tx.vin| && |vin0| == |tx.vin|
    requires forall j :: 0 <= j < |vin0| ==> vin0[j] == tx.vin[j].(scriptSig := if j == nIn then Cleaned(code0) else [])
    ensures vin == BlankedInputs(tx, nIn, code0, hashType)
  {
    hide Cleaned, AnyoneCanPay, Base, BlankedInputs;
    vin := vin0;
    if Base(hashType) == SIGHASH_NONE || Base(hashType) == SIGHASH_SINGLE {
      vin := Release(vin, nIn);
    }
    assert forall j :: 0 <= j < |vin| ==> vin[j] == BlankedInput(tx, nIn, code0, hashType, j);
    if AnyoneCanPay(hashType) {
      vin := vin[0 := vin[nIn]];
      vin := vin[..1];
    }
    InputsDone(tx, nIn, code0, hashType, vin);
  }

  method HashForm(tx: Tx, hashType: u32, hash: Bytes -> Bytes) returns (h: Bytes)
    requires Writable(tx)
    ensures h == hash(PutTx(true, tx) + PutU32(hashType))
  {
    hide PutTx, PutU32;
    var ss := new DataStream([]);
    WriteTx(ss, true, tx);
    ss.Write(PutU32(hashType));
    assert [] + PutTx(true, tx) == PutTx(true, tx);
    return hash(ss.vch[ss.nReadPos..]);
  }

  method Clean(code0: Bytes) returns (code: Bytes)
    ensures code == Cleaned(code0)
  {
    var script := new CScript(code0);
    var found := script.FindAndDelete([OP_CODESEPARATOR]);
    code := script.bytes;
  }

  lemma OutputsDone(tx: Tx, nIn: nat, hashType: u32, vout: seq<TxOut>)
    requires InRange(tx, nIn, hashType)
    requires Base(hashType) == SIGHASH_NONE ==> vout == []
    requires Base(hashType) == SIGHASH_SINGLE ==>
      |vout| == nIn + 1 && vout[nIn] == tx.vout[nIn] && forall j :: 0 <= j < nIn ==> vout[j] == NullOut()
    requires !Open(hashType) ==> vout == tx.vout
    ensures vout == BlankedOutputs(tx, nIn, hashType)
  {
    hide Base;
  }

  lemma InputsDone(tx: Tx, nIn: nat, code: Bytes, hashType: u32, vin: seq<TxIn>)
    requires nIn < |tx.vin|
    requires AnyoneCanPay(hashType) ==> vin == [BlankedInput(tx, nIn, code, hashType, nIn)]
    requires !AnyoneCanPay(hashType) ==>
      |vin| == |tx.vin| && forall j :: 0 <= j < |vin| ==> vin[j] == BlankedInput(tx, nIn, code, hashType, j)
    ensures vin == BlankedInputs(tx, nIn, code, hashType)
  {
    hide BlankedInput, AnyoneCanPay;
  }

  /** Blank out the signatures. */
  method BlankScripts(vin: seq<TxIn>) returns (r: seq<TxIn>)
    ensures |r| == |vin| && forall j :: 0 <= j < |vin| ==> r[j] == vin[j].(scriptSig := [])
  {
    r := vin;
    for i := 0 to |r|
      invariant |r| == |vin|
      invariant forall j :: 0 <= j < |vin| ==> r[j] == if j < i then vin[j].(scriptSig := []) else vin[j]
    {
      r := r[i := r[i].(scriptSig := [])];
    }
  }

  /** Lock in only the output at the index of the input. */
  method KeepOutput(vout: seq<TxOut>, nOut: nat) returns (r: seq<TxOut>)
    requires nOut < |vout|
    ensures |r| == nOut + 1 && r[nOut] == vout[nOut] && forall j :: 0 <= j < nOut ==> r[j] == NullOut()
  {
    r := vout[..nOut + 1];
    for i := 0 to nOut
      invariant |r| == nOut + 1 && r[nOut] == vout[nOut]
      invariant forall j :: 0 <= j < i ==> r[j] == NullOut()
    {
      r := r[i := NullOut()];
    }
  }

  /** Let the owners of the other inputs update them at will. */
  method Release(vin: seq<TxIn>, nIn: nat) returns (r: seq<TxIn>)
    ensures |r| == |vin|
    ensures forall j :: 0 <= j < |vin| ==> r[j] == if j == nIn then vin[j] else vin[j].(nSequence := 0)
  {
    r := vin;
    for i := 0 to |r|
      invariant |r| == |vin|
      invariant forall j :: 0 <= j < |vin| ==> r[j] == if j == nIn || j >= i then vin[j] else vin[j].(nSequence := 0)
    {
      if i != nIn {
        r := r[i := r[i].(nSequence := 0)];
      }
    }
  }

  // ----- what is committed -----

  /** The inputs agree as far as the hash type looks at them. */
  predicate SameInputs(a: Tx, b: Tx, nIn: nat, hashType: u32)
    requires nIn < |a.vin| && nIn < |b.vin|
  {
    && a.vin[nIn].prevout == b.vin[nIn].prevout && a.vin[nIn].nSequence == b.vin[nIn].nSequence
    && (!AnyoneCanPay(hashType) ==>
          && |a.vin| == |b.vin|
          && (forall i :: 0 <= i < |a.vin| ==> a.vin[i].prevout == b.vin[i].prevout)
          && (!Open(hashType) ==> forall i :: 0 <= i < |a.vin| ==> a.vin[i].nSequence == b.vin[i].nSequence))
  }

  /** The outputs agree as far as the hash type looks at them: none, one, or all. */
  predicate SameOutputs(a: Tx, b: Tx, nIn: nat, hashType: u32)
    requires InRange(a, nIn, hashType) && InRange(b, nIn, hashType)
  {
    if Base(hashType) == SIGHASH_NONE then true
    else if Base(hashType) == SIGHASH_SINGLE then a.vout[nIn] == b.vout[nIn]
    else a.vout == b.vout
  }

  predicate Agree(a: Tx, b: Tx, nIn: nat, hashType: u32)
    requires InRange(a, nIn, hashType) && InRange(b, nIn, hashType)
  {
    && a.nVersion == b.nVersion && a.nTime == b.nTime && a.nLockTime == b.nLockTime
    && SameInputs(a, b, nIn, hashType) && SameOutputs(a, b, nIn, hashType)
  }

  lemma InputsBlankAlike(a: Tx, b: Tx, nIn: nat, code: Bytes, hashType: u32)
    requires nIn < |a.vin| && nIn < |b.vin|
    ensures BlankedInputs(a, nIn, code, hashType) == BlankedInputs(b, nIn, code, hashType) <==> SameInputs(a, b, nIn, hashType)
  {
    hide Cleaned, Open, AnyoneCanPay;
    var x, y := BlankedInputs(a, nIn, code, hashType), BlankedInputs(b, nIn, code, hashType);
    if x == y {
      if AnyoneCanPay(hashType) {
        assert x[0] == y[0];
      } else {
        assert x[nIn] == y[nIn];
        forall i | 0 <= i < |a.vin|
          ensures a.vin[i].prevout == b.vin[i].prevout
          ensures !Open(hashType) ==> a.vin[i].nSequence == b.vin[i].nSequence
        {
          assert x[i] == y[i];
        }
      }
    }
  }

  lemma OutputsBlankAlike(a: Tx, b: Tx, nIn: nat, hashType: u32)
    requires InRange(a, nIn, hashType) && InRange(b, nIn, hashType)
    ensures BlankedOutputs(a, nIn, hashType) == BlankedOutputs(b, nIn, hashType) <==> SameOutputs(a, b, nIn, hashType)
  {
    if Base(hashType) == SIGHASH_SINGLE {
      assert BlankedOutputs(a, nIn, hashType)[nIn] == a.vout[nIn];
      assert BlankedOutputs(b, nIn, hashType)[nIn] == b.vout[nIn];
    }
  }

  lemma {:induction false} DeletingShortens(s: Bytes, b: Bytes)
    requires b != []
    ensures |DeleteAll(s, b).0| <= |s|
    decreases |s|
  {
    hide GetOp;
    if b <= s {
      DeletingShortens(s[|b|..], b);
    } else if GetOp(s).Some? {
      DeletingShortens(s[GetOp(s).value.size..], b);
    }
  }

  lemma BlankedIsSized(tx: Tx, nIn: nat, code: Bytes, hashType: u32)
    requires InRange(tx, nIn, hashType) && Sized(tx) && |code| < TWO_64
    ensures Sized(Blanked(tx, nIn, code, hashType))
  {
    DeletingShortens(code, [OP_CODESEPARATOR]);
    hide DeleteAll, Open, AnyoneCanPay;
  }

  lemma BlankedIsWritable(tx: Tx, nIn: nat, code: Bytes, hashType: u32)
    requires InRange(tx, nIn, hashType) && OutputsWritable(tx.vout) && |code| < TWO_31
    ensures Writable(Blanked(tx, nIn, code, hashType))
  {
    DeletingShortens(code, [OP_CODESEPARATOR]);
    hide DeleteAll, Open, AnyoneCanPay;
  }

  /**
   For one input, script code and hash type, the message is the same for two transactions
   exactly when they agree on what that hash type commits to. The input scripts are no part of it.
   */
  lemma MessageCommits(a: Tx, b: Tx, nIn: nat, code: Bytes, hashType: u32)
    requires InRange(a, nIn, hashType) && InRange(b, nIn, hashType)
    requires Sized(a) && Sized(b) && |code| < TWO_64
    ensures Message(a, nIn, code, hashType) == Message(b, nIn, code, hashType) <==> Agree(a, b, nIn, hashType)
  {
    hide PutTx, BlankedInputs, BlankedOutputs, SameInputs, SameOutputs, Sized;
    var x, y := Blanked(a, nIn, code, hashType), Blanked(b, nIn, code, hashType);
    InputsBlankAlike(a, b, nIn, code, hashType);
    OutputsBlankAlike(a, b, nIn, hashType);
    if Message(a, nIn, code, hashType) == Message(b, nIn, code, hashType) {
      BlankedIsSized(a, nIn, code, hashType);
      BlankedIsSized(b, nIn, code, hashType);
      PutTxInjective(x, y, PutU32(hashType), PutU32(hashType));
    }
  }

  lemma MessageFixesCleaned(tx: Tx, nIn: nat, code1: Bytes, code2: Bytes, hashType: u32)
    requires InRange(tx, nIn, hashType) && Sized(tx) && |code1| < TWO_64 && |code2| < TWO_64
    ensures Message(tx, nIn, code1, hashType) == Message(tx, nIn, code2, hashType) <==> Cleaned(code1) == Cleaned(code2)
  {
    hide PutTx, Cleaned, Sized, Open, AnyoneCanPay;
    var x, y := Blanked(tx, nIn, code1, hashType), Blanked(tx, nIn, code2, hashType);
    if Message(tx, nIn, code1, hashType) == Message(tx, nIn, code2, hashType) {
      BlankedIsSized(tx, nIn, code1, hashType);
      BlankedIsSized(tx, nIn, code2, hashType);
      PutTxInjective(x, y, PutU32(hashType), PutU32(hashType));
      assert x.vin[if AnyoneCanPay(hashType) then 0 else nIn].scriptSig == Cleaned(code1);
      assert y.vin[if AnyoneCanPay(hashType) then 0 else nIn].scriptSig == Cleaned(code2);
    }
    if Cleaned(code1) == Cleaned(code2) {
      assert BlankedInputs(tx, nIn, code1, hashType) == BlankedInputs(tx, nIn, code2, hashType);
    }
  }

  /** For one transaction, input and hash type the message fixes the script code up to its code separators. */
  lemma MessageFixesCode(tx: Tx, nIn: nat, code1: Bytes, code2: Bytes, hashType: u32)
    requires InRange(tx, nIn, hashType) && Sized(tx) && |code1| < TWO_64 && |code2| < TWO_64
    ensures Message(tx, nIn, code1, hashType) == Message(tx, nIn, code2, hashType)
            <==> Without(Instructions(code1), [OP_CODESEPARATOR]) == Without(Instructions(code2), [OP_CODESEPARATOR])
                 && Tail(code1) == Tail(code2)
  {
    var b: Bytes := [OP_CODESEPARATOR];
    assert IsInstruction(b);
    MessageFixesCleaned(tx, nIn, code1, code2, hashType);
    DeleteOnceIsEnough(code1, b);
    DeleteOnceIsEnough(code2, b);
    InstructionsSound(Cleaned(code1));
    InstructionsSound(Cleaned(code2));
    hide Message, DeleteAll, Instructions, Tail, Flatten, Without;
  }

  /** Messages for different hash types are different. */
  lemma MessageFixesType(a: Tx, b: Tx, nIn: nat, mIn: nat, code1: Bytes, code2: Bytes, type1: u32, type2: u32)
    requires InRange(a, nIn, type1) && InRange(b, mIn, type2)
    requires Sized(a) && Sized(b) && |code1| < TWO_64 && |code2| < TWO_64
    requires Message(a, nIn, code1, type1) == Message(b, mIn, code2, type2)
    ensures type1 == type2
  {
    hide PutTx, Sized, Blanked;
    BlankedIsSized(a, nIn, code1, type1);
    BlankedIsSized(b, mIn, code2, type2);
    PutTxInjective(Blanked(a, nIn, code1, type1), Blanked(b, mIn, code2, type2), PutU32(type1), PutU32(type2));
    GetPutU32(Mode(0, true), type1, []);
    GetPutU32(Mode(0, true), type2, []);
  }

  /** No input script influences the hash. */
  lemma ScriptSigsDoNotMatter(tx: Tx, vin: seq<TxIn>, nIn: nat, code: Bytes, hashType: u32)
    requires |vin| == |tx.vin|
    requires forall i :: 0 <= i < |vin| ==> vin[i] == tx.vin[i].(scriptSig := vin[i].scriptSig)
    ensures InRange(tx, nIn, hashType) == InRange(tx.(vin := vin), nIn, hashType)
    ensures InRange(tx, nIn, hashType) ==> Message(tx, nIn, code, hashType) == Message(tx.(vin := vin), nIn, code, hashType)
  {
    hide PutTx, DeleteAll;
    if InRange(tx, nIn, hashType) {
      InputsBlankAlike(tx, tx.(vin := vin), nIn, code, hashType);
    }
  }

  // ----- what the message says -----

  /** The script code as it is signed: without the instructions that are code separators. */
  function Separated(code: Bytes): Bytes
  {
    Flatten(Without(Instructions(code), [0xab])) + Tail(code)
  }

  /** Input `i` of the message stands for input `k` of the transaction. */
  predicate InputSays(tx: Tx, nIn: nat, code: Bytes, hashType: u32, k: nat, said: TxIn)
    requires k < |tx.vin|
  {
    && said.prevout == tx.vin[k].prevout
    && said.scriptSig == (if k == nIn then Separated(code) else [])
    && said.nSequence == (if k != nIn && hashType % 32 in {2, 3} then 0 else tx.vin[k].nSequence)
  }

  /** The transaction that a message contains. */
  predicate Says(tx: Tx, nIn: nat, code: Bytes, hashType: u32, said: Tx)
    requires nIn < |tx.vin|
  {
    && said.nVersion == tx.nVersion && said.nTime == tx.nTime && said.nLockTime == tx.nLockTime
    && (if (hashType / 128) % 2 == 1 then |said.vin| == 1 && InputSays(tx, nIn, code, hashType, nIn, said.vin[0])
        else |said.vin| == |tx.vin| && forall i :: 0 <= i < |tx.vin| ==> InputSays(tx, nIn, code, hashType, i, said.vin[i]))
    && (if hashType % 32 == 2 then said.vout == []
        else if hashType % 32 == 3 then
          |said.vout| == nIn + 1 && nIn < |tx.vout| && said.vout[nIn] == tx.vout[nIn]
          && forall i :: 0 <= i < nIn ==> said.vout[i].nValue == -1 && said.vout[i].scriptPubKey == []
        else said.vout == tx.vout)
  }

  lemma CleanedSeparates(code: Bytes)
    ensures Cleaned(code) == Separated(code)
  {
    assert IsInstruction([0xab]);
    DeleteIsFilter(code, [0xab]);
  }

  lemma BlankedSays(tx: Tx, nIn: nat, code: Bytes, hashType: u32)
    requires InRange(tx, nIn, hashType)
    ensures Says(tx, nIn, code, hashType, Blanked(tx, nIn, code, hashType))
  {
    CleanedSeparates(code);
    hide Cleaned, Separated;
  }

  /**
   Read as a transaction the message is the one that the hash type calls for, and the four bytes of
   the hash type follow it, the lowest first.
   */
  lemma MessageReads(tx: Tx, nIn: nat, code: Bytes, hashType: u32)
    requires Sized(tx) && |code| < TWO_64
    requires nIn < |tx.vin| && (hashType % 32 == 3 ==> nIn < |tx.vout|)
    ensures InRange(tx, nIn, hashType)
    ensures var r := GetTx(Mode(TWO_64 - 1, true), true, 0, Message(tx, nIn, code, hashType));
            && r.Done? && Says(tx, nIn, code, hashType, r.value)
            && r.rest == [hashType % 256, hashType / 256 % 256, hashType / 65536 % 256, hashType / 16777216]
  {
    BlankedIsSized(tx, nIn, code, hashType);
    BlankedSays(tx, nIn, code, hashType);
    U32Bytes(hashType);
    hide PutTx, GetTx, PutU32, Blanked, Says, Sized;
    GetPutTx(Mode(TWO_64 - 1, true), true, 0, Blanked(tx, nIn, code, hashType), PutU32(hashType));
  }

  lemma U32Bytes(n: u32)
    ensures PutU32(n) == [n % 256, n / 256 % 256, n / 65536 % 256, n / 16777216]
  {
    assert ToLE(n, 4) == [n % 256] + ([n / 256 % 256] + ([n / 256 / 256 % 256] + ([n / 256 / 256 / 256 % 256] + [])));
  }

  /** There is no message exactly for an index without an input, or without an output under SINGLE; the answer then is the byte 1 and 31 zeros. */
  lemma OneIsAnswered(tx: Tx, nIn: nat, hashType: u32)
    ensures !InRange(tx, nIn, hashType) <==> nIn >= |tx.vin| || (hashType % 32 == 3 && nIn >= |tx.vout|)
    ensures One() == [1] + seq(31, _ => 0)
  {
    hide ToLE;
    ZeroBytes(31);
    assert ToLE(1, 32) == [1] + ToLE(0, 31) by { OneMore(); }
  }

  lemma OneMore()
    ensures ToLE(1, 32) == [1] + ToLE(0, 31)
  {
  }

  lemma {:induction false} ZeroBytes(n: nat)
    ensures |ToLE(0, n)| == n && forall i :: 0 <= i < n ==> ToLE(0, n)[i] == 0
  {
    if n > 0 {
      ZeroBytes(n - 1);
    }
  }
}
