/**
 The bytes of the formats, written out. Round trips leave open which bytes they are; here each
 format is pinned to what others read and write.
 */
module WireForms {
  import opened Bytes
  import opened BigNum
  import opened ScriptBytes
  import opened Serialize
  import opened Transaction
  import opened Radix
  import opened Base58
  import opened Wrappers

  // ----- integers -----

  /** Little-endian: byte `i` counts 256 to the power `i`. */
  lemma {:induction false} LittleEndian(n: nat, width: nat, i: nat)
    requires i < width
    ensures ToLE(n, width)[i] == n / Span(i) % 256
    decreases width
  {
    if i > 0 {
      LittleEndian(n / 256, width - 1, i - 1);
      DivideTwice(n, Span(i - 1));
    }
  }

  lemma DivideTwice(n: nat, p: nat)
    requires p > 0
    ensures n / 256 / p == n / (256 * p)
  {
    var q, r := n / 256, n % 256;
    var a, c := q / p, q % p;
    assert n == (256 * p) * a + (256 * c + r) by {
      assert q == p * a + c;
      assert 256 * q == (256 * p) * a + 256 * c;
    }
    ModUnique(n, 256 * p, a, 256 * c + r);
  }

  lemma Two(n: nat)
    requires n < 0x1_0000
    ensures ToLE(n, 2) == [n % 256, n / 256]
  {
    assert ToLE(n, 2) == [n % 256] + ([n / 256 % 256] + []);
  }

  lemma Four(n: u32)
    ensures ToLE(n, 4) == [n % 256, n / 256 % 256, n / 65536 % 256, n / 16777216]
  {
    assert ToLE(n, 4) == [n % 256] + ([n / 256 % 256] + ([n / 256 / 256 % 256] + ([n / 256 / 256 / 256 % 256] + [])));
  }

  /** Sizes: one byte up to 252, else a mark of 253, 254 or 255 and two, four or eight bytes. */
  lemma SizesAre(n: nat)
    ensures n < 253 ==> PutSize(n) == [n]
    ensures 253 <= n < 0x1_0000 ==> PutSize(n) == [253, n % 256, n / 256]
    ensures 0x1_0000 <= n < 0x1_0000_0000 ==>
              PutSize(n) == [254, n % 256, n / 256 % 256, n / 65536 % 256, n / 16777216]
    ensures 0x1_0000_0000 <= n ==> PutSize(n) == [255] + ToLE(n, 8)
  {
    if 253 <= n < 0x1_0000 {
      Two(n);
    } else if 0x1_0000 <= n < 0x1_0000_0000 {
      Four(n);
    }
    hide ToLE;
  }

  /** Signed fields: a negative number is written as the one 2^32, or 2^64, higher. */
  lemma SignedFieldsAre(v: i32, w: i64)
    ensures PutI32(v) == ToLE(if v < 0 then v + 0x1_0000_0000 else v, 4)
    ensures PutI64(w) == ToLE(if w < 0 then w + 0x1_0000_0000_0000_0000 else w, 8)
  {
    Spans();
    hide ToLE;
  }

  // ----- transactions -----

  /** The parts of a transaction with one input and one output, in order. */
  lemma TransactionIs(timed: bool, version: i32, time: u32, hash: Hash, n: u32, sig: Bytes, sequence: u32,
                      value: i64, pubKey: Bytes, lock: u32)
    requires |sig| < 253 && |pubKey| < 253
    ensures PutTx(timed, Tx(version, time, [TxIn(OutPoint(hash, n), sig, sequence)], [TxOut(value, pubKey)], lock))
         == PutI32(version) + (if timed then PutU32(time) else [])
            + ([1] + (hash + PutU32(n) + [|sig|] + sig + PutU32(sequence)))
            + ([1] + (PutI64(value) + [|pubKey|] + pubKey))
            + PutU32(lock)
  {
    hide PutInputs, PutOutputs, PutI32, PutU32, PutI64;
    OneInput(TxIn(OutPoint(hash, n), sig, sequence));
    OneOutput(TxOut(value, pubKey));
  }

  lemma OneInput(i: TxIn)
    requires |i.scriptSig| < 253
    ensures PutInputs([i]) == [1] + (i.prevout.hash + PutU32(i.prevout.n) + [|i.scriptSig|] + i.scriptSig + PutU32(i.nSequence))
  {
    hide PutU32;
    assert [i][1..] == [];
    assert PutAll(TxInWriter(), [i]) == PutTxIn(i) + [];
  }

  lemma OneOutput(o: TxOut)
    requires |o.scriptPubKey| < 253
    ensures PutOutputs([o]) == [1] + (PutI64(o.nValue) + [|o.scriptPubKey|] + o.scriptPubKey)
  {
    hide PutI64;
    assert [o][1..] == [];
    assert PutAll(TxOutWriter(), [o]) == PutTxOut(o) + [];
  }

  /** One without inputs and outputs. */
  lemma EmptyTransactionIs(version: i32, time: u32, lock: u32)
    ensures PutTx(true, Tx(version, time, [], [], lock)) == PutI32(version) + PutU32(time) + [0, 0] + PutU32(lock)
    ensures PutTx(false, Tx(version, time, [], [], lock)) == PutI32(version) + [0, 0] + PutU32(lock)
  {
    hide PutI32, PutU32;
    assert PutInputs([]) == [0] && PutOutputs([]) == [0];
    hide PutInputs, PutOutputs;
  }

  // ----- scripts -----

  /** The four ways to push data. */
  lemma PushesAre(b: Bytes)
    ensures |b| < 76 ==> Push(b) == [|b|] + b
    ensures 76 <= |b| < 256 ==> Push(b) == [0x4c, |b|] + b
    ensures 256 <= |b| < 0x1_0000 ==> Push(b) == [0x4d, |b| % 256, |b| / 256] + b
    ensures 0x1_0000 <= |b| < 0x1_0000_0000 ==>
              Push(b) == [0x4e, |b| % 256, |b| / 256 % 256, |b| / 65536 % 256, |b| / 16777216] + b
  {
    var n := |b|;
    if 256 <= n < 0x1_0000 {
      Two(n);
    } else if 0x1_0000 <= n < 0x1_0000_0000 {
      Four(n);
    }
    hide ToLE;
  }

  /** Numbers on the stack: one byte up to 127 and two up to 32767, with the sign in the top bit. */
  lemma NumbersAre(n: int)
    requires n >= 0
    ensures GetVch(0) == []
    ensures 1 <= n <= 127 ==> GetVch(n) == [n] && GetVch(-n) == [n + 128]
    ensures 128 <= n <= 255 ==> GetVch(n) == [n, 0] && GetVch(-n) == [n, 128]
    ensures 256 <= n <= 32767 ==> GetVch(n) == [n % 256, n / 256] && GetVch(-n) == [n % 256, n / 256 + 128]
  {
    if 1 <= n <= 255 {
      assert Magnitude(n) == [n];
    } else if 256 <= n <= 32767 {
      assert Magnitude(n / 256) == [n / 256];
      assert Magnitude(n) == [n % 256] + [n / 256];
    }
    hide Magnitude;
  }

  /** And back, in the unusual forms too: any bytes with a sign bit on top, negative zero among them. */
  lemma NumbersRead(a: byte, b: byte)
    ensures SetVch([]) == 0
    ensures SetVch([a]) == if a < 128 then a else 128 - a
    ensures SetVch([a, b]) == if b < 128 then a + 256 * b else -(a + 256 * (b - 128))
  {
    assert forall x: byte :: FromLE([x]) == x by {
      forall x: byte
        ensures FromLE([x]) == x
      {
        assert [x][1..] == [];
      }
    }
    assert forall x: byte, y: byte :: FromLE([x, y]) == x + 256 * y by {
      forall x: byte, y: byte
        ensures FromLE([x, y]) == x + 256 * y
      {
        assert [x, y][1..] == [y];
      }
    }
    assert [a][0 := if a >= 128 then a - 128 else a] == [if a >= 128 then a - 128 else a];
    assert [a, b][1 := if b >= 128 then b - 128 else b] == [a, if b >= 128 then b - 128 else b];
    hide FromLE;
  }

  // ----- Base58 -----

  /** One byte: one character for each value up to 57, and two from there on, the higher digit first; zero bytes in front are ones. */
  lemma OneByteText(b: byte)
    ensures Encode([0]) == "1" && Encode([0, 0]) == "11"
    ensures 1 <= b < 58 ==> |Encode([b])| == 1 && DigitOf(Encode([b])[0]) == Some(b)
    ensures b >= 58 ==> |Encode([b])| == 2 && DigitOf(Encode([b])[0]) == Some(b / 58) && DigitOf(Encode([b])[1]) == Some(b % 58)
    ensures 1 <= b < 58 ==> Encode([0, b]) == "1" + Encode([b])
  {
    ZerosOnly();
    OneDigitNumeral(b);
    if b > 0 {
      assert Leading([b]) == 0 && Value(256, [b]) == b;
      assert Leading([0, b]) == 1 by { assert [0, b][1..] == [b]; }
      assert Value(256, [0, b]) == b by { assert [0, b][..1] == [0]; }
      assert Convert(256, 58, [b]) == Numeral(58, b);
      assert Convert(256, 58, [0, b]) == [0] + Numeral(58, b);
      DigitOfSymbol(b / 58);
      DigitOfSymbol(b % 58);
    }
    hide Leading, Value, Numeral, Convert, DigitOf;
  }

  lemma ZerosOnly()
    ensures Convert(256, 58, [0]) == [0] && Convert(256, 58, [0, 0]) == [0, 0]
  {
    assert [0][1..] == [] && [0, 0][1..] == [0];
    assert Value(256, [0]) == 0;
    assert [0, 0][..1] == [0];
  }

  lemma OneDigitNumeral(b: byte)
    ensures Numeral(58, 0) == []
    ensures 1 <= b < 58 ==> Numeral(58, b) == [b]
    ensures b >= 58 ==> Numeral(58, b) == [b / 58, b % 58]
  {
    if b >= 58 {
      assert Numeral(58, b / 58) == [b / 58];
    }
  }

  /** What is behind a text with checksum: the value, then the first four bytes of its hash. */
  lemma ChecksumIs(hash: Bytes -> Bytes, v: Bytes)
    requires forall b :: |hash(b)| == 32
    ensures Decode(CheckEncode(hash, v)) == Some(v + [hash(v)[0], hash(v)[1], hash(v)[2], hash(v)[3]])
  {
    hide Encode, Decode;
    DecodeEncode(v + hash(v)[..4]);
    FirstFour(hash(v));
  }

  lemma FirstFour(b: Bytes)
    requires |b| >= 4
    ensures b[..4] == [b[0], b[1], b[2], b[3]]
  {
  }
}
