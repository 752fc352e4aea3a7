/**
 Arbitrary-precision integers and their sign-magnitude byte form: least significant byte
 first, with the top bit of the last byte as the sign. `SetVch` and `GetVch` describe
 `BN_mpi2bn` and `BN_bn2mpi` behind the byte reversals of CBigNum.
 */
module BigNum {
  import opened Bytes

  // ----- magnitudes -----

  /** The shortest little-endian form of `m`. */
  function Magnitude(m: nat): (b: Bytes)
    ensures b == [] <==> m == 0
    ensures b != [] ==> b[|b| - 1] != 0
  {
    if m == 0 then [] else [m % 256] + Magnitude(m / 256)
  }

  lemma {:induction false} MagnitudeValue(m: nat)
    ensures FromLE(Magnitude(m)) == m
  {
    if m > 0 {
      MagnitudeValue(m / 256);
      assert Magnitude(m)[1..] == Magnitude(m / 256);
    }
  }

  /** Only the shortest form has no zero on top. */
  lemma {:induction false} MagnitudeUnique(b: Bytes)
    requires b == [] || b[|b| - 1] != 0
    ensures Magnitude(FromLE(b)) == b
  {
    if b != [] {
      var rest := FromLE(b[1..]);
      MagnitudeUnique(b[1..]);
      if b[1..] == [] {
        assert b == [b[0]];
      } else {
        FromLEPositive(b[1..]);
      }
      LowDigit(b[0], rest);
    }
  }

  lemma {:induction false} FromLEPositive(b: Bytes)
    requires b != [] && b[|b| - 1] != 0
    ensures FromLE(b) > 0
  {
    if |b| > 1 {
      FromLEPositive(b[1..]);
    }
  }

  lemma {:induction false} FromLEAppend(a: Bytes, x: byte)
    ensures FromLE(a + [x]) == FromLE(a) + Span(|a|) * x
  {
    if a == [] {
      assert [x][1..] == [];
    } else {
      assert (a + [x])[1..] == a[1..] + [x];
      FromLEAppend(a[1..], x);
      var s, t := Span(|a| - 1), FromLE(a[1..]);
      assert 256 * (t + s * x) == 256 * t + (256 * s) * x;
    }
  }

  lemma MagnitudeFits(m: nat, width: nat)
    requires m < Span(width)
    ensures |Magnitude(m)| <= width
    decreases width
  {
    if m > 0 {
      assert m / 256 < Span(width - 1);
      MagnitudeFits(m / 256, width - 1);
    }
  }

  // ----- sign and magnitude -----

  /** `setvch`: the last byte carries the sign. */
  function SetVch(b: Bytes): (n: int)
  {
    if b == [] then 0
    else
      var k := |b| - 1;
      if b[k] >= 128 then 0 - FromLE(b[k := b[k] - 128]) else FromLE(b)
  }

  /** A magnitude with its sign: in the top bit of its last byte, or in an extra byte if that bit is taken. */
  function Signed(m: Bytes, negative: bool): (b: Bytes)
    requires m != []
  {
    var k := |m| - 1;
    if m[k] >= 128 then m + [if negative then 128 else 0]
    else if negative then m[k := m[k] + 128]
    else m
  }

  /** `getvch`: the shortest byte form of an integer. */
  function GetVch(n: int): (b: Bytes)
  {
    if n == 0 then [] else Signed(Magnitude(if n < 0 then -n else n), n < 0)
  }

  lemma SetSigned(m: Bytes, negative: bool)
    requires m != []
    ensures SetVch(Signed(m, negative)) == if negative then 0 - FromLE(m) else FromLE(m)
  {
    var k, b := |m| - 1, Signed(m, negative);
    if m[k] >= 128 {
      FromLEAppend(m, 0);
      assert b[|m| := 0] == m + [0];
    } else if negative {
      assert b[k := b[k] - 128] == m;
    }
  }

  /** Reading back an encoded integer gives the integer. */
  lemma SetGetVch(n: int)
    ensures SetVch(GetVch(n)) == n
  {
    if n != 0 {
      var a := if n < 0 then -n else n;
      MagnitudeValue(a);
      SetSigned(Magnitude(a), n < 0);
    }
  }

  /** The byte form is minimal when its last byte carries more than a sign, or is needed to carry it. */
  predicate Minimal(b: Bytes)
  {
    b == [] ||
    var last := b[|b| - 1];
    (last != 0 && last != 128) || (|b| > 1 && b[|b| - 2] >= 128)
  }

  /** Re-encoding gives the same bytes exactly for the minimal forms. */
  lemma GetSetVch(b: Bytes)
    ensures GetVch(SetVch(b)) == b <==> Minimal(b)
  {
    if Minimal(b) {
      GetSetMinimal(b);
    } else {
      GetVchMinimal(SetVch(b));
    }
  }

  lemma GetVchMinimal(n: int)
    ensures Minimal(GetVch(n))
  {
  }

  /** A minimal form is a magnitude with a sign. */
  lemma MinimalIsSigned(b: Bytes) returns (m: Bytes, negative: bool)
    requires Minimal(b) && b != []
    ensures m != [] && m[|m| - 1] != 0 && b == Signed(m, negative)
  {
    var k := |b| - 1;
    negative := b[k] >= 128;
    m := if negative then b[k := b[k] - 128] else b;
    if m[k] == 0 {
      m := b[..k];
      assert b == m + [b[k]];
    }
  }

  lemma GetSetMinimal(b: Bytes)
    requires Minimal(b)
    ensures GetVch(SetVch(b)) == b
  {
    if b != [] {
      var m, negative := MinimalIsSigned(b);
      SetSigned(m, negative);
      MagnitudeUnique(m);
      FromLEPositive(m);
    }
  }

  /** Numbers of at most 31 bits take at most four bytes, which is all the script operators accept. */
  lemma FourByteNumbers(n: int)
    requires -0x8000_0000 < n < 0x8000_0000
    ensures |GetVch(n)| <= 4
  {
    Spans();
    var a := if n < 0 then -n else n;
    MagnitudeFits(a, 4);
    var m := Magnitude(a);
    if |m| == 4 {
      MagnitudeValue(a);
      FromLEAppend(m[..3], m[3]);
      assert m == m[..3] + [m[3]];
      assert Span(3) == 0x100_0000;
      hide FromLE, Magnitude, Span;
      assert m[3] < 128;
    }
  }

  // ----- setint64 (bignum.h:126) -----

  function Reverse(b: Bytes): (r: Bytes)
    ensures |r| == |b|
    ensures forall i :: 0 <= i < |b| ==> r[i] == b[|b| - 1 - i]
  {
    if b == [] then [] else Reverse(b[1..]) + [b[0]]
  }

  lemma {:induction false} ReverseAppend(p: Bytes, c: byte)
    ensures Reverse(p + [c]) == [c] + Reverse(p)
  {
    if p == [] {
      assert [c][1..] == [];
    } else {
      ReverseAppend(p[1..], c);
      assert (p + [c])[1..] == p[1..] + [c];
    }
  }

  function Pow256(i: nat): (p: nat)
    requires i <= 8
    ensures p > 0
  {
    match i
    case 0 => 0x1
    case 1 => 0x100
    case 2 => 0x1_0000
    case 3 => 0x100_0000
    case 4 => 0x1_0000_0000
    case 5 => 0x100_0000_0000
    case 6 => 0x1_0000_0000_0000
    case 7 => 0x100_0000_0000_0000
    case 8 => 0x1_0000_0000_0000_0000
  }

  /** Taking the top byte of a 64-bit word and shifting it left by 8 peels off the most significant base-256 digit. */
  lemma ShiftStep(i: nat, c: byte, r: nat)
    requires i < 8 && r < Pow256(7 - i)
    ensures var n := (c * Pow256(7 - i) + r) * Pow256(i);
            n == c * Pow256(7) + r * Pow256(i) && 0 <= n < Pow256(8)
    ensures r * Pow256(i) < Pow256(7) && r * Pow256(i) * 256 == r * Pow256(i + 1) < Pow256(8)
  {
    match i
    case 0 => case 1 => case 2 => case 3 => case 4 => case 5 => case 6 => case 7 =>
  }

  lemma PeelTop(c: byte, low: nat)
    requires low < Pow256(7)
    ensures (c * Pow256(7) + low) / Pow256(7) == c
    ensures ((c * Pow256(7) + low) * 256) % Pow256(8) == low * 256
  {
  }

  /** The base-256 digits below position `8 - i`, split into the top one and the rest. */
  lemma SplitTop(i: nat, rest: nat) returns (c: byte, r: nat)
    requires i < 8 && rest < Pow256(8 - i)
    ensures r < Pow256(7 - i) && rest == c * Pow256(7 - i) + r
  {
    match i
    case 0 => c, r := rest / Pow256(7), rest % Pow256(7);
    case 1 => c, r := rest / Pow256(6), rest % Pow256(6);
    case 2 => c, r := rest / Pow256(5), rest % Pow256(5);
    case 3 => c, r := rest / Pow256(4), rest % Pow256(4);
    case 4 => c, r := rest / Pow256(3), rest % Pow256(3);
    case 5 => c, r := rest / Pow256(2), rest % Pow256(2);
    case 6 => c, r := rest / Pow256(1), rest % Pow256(1);
    case 7 => c, r := rest, 0;
  }

  lemma ScaleDigits(v: nat, c: byte, i: nat)
    requires i < 8
    ensures v * Pow256(8 - i) + c * Pow256(7 - i) == (256 * v + c) * Pow256(7 - i)
  {
    match i
    case 0 => case 1 => case 2 => case 3 => case 4 => case 5 => case 6 => case 7 =>
  }

  /** One turn of the digit loop, in numbers: the digit on top of the word, and what is left for the later turns. */
  lemma NextDigit(n0: nat, v: nat, rest: nat, n: nat, i: nat) returns (c: byte, r: nat)
    requires i < 8 && rest < Pow256(8 - i) && n == rest * Pow256(i) && n0 == v * Pow256(8 - i) + rest
    ensures r < Pow256(7 - i) && n / Pow256(7) == c && (n * 256) % Pow256(8) == r * Pow256(i + 1)
    ensures n0 == (256 * v + c) * Pow256(7 - i) + r
  {
    hide Pow256;
    c, r := SplitTop(i, rest);
    ShiftStep(i, c, r);
    PeelTop(c, r * Pow256(i));
    ScaleDigits(v, c, i);
  }

  /** The state of the digit loop: the big-endian output so far spells out the digits so far, with the sign once there are any. */
  ghost predicate Emitted(p: Bytes, digits: Bytes, negative: bool)
  {
    if p == [] then digits == []
    else digits != [] && digits[|digits| - 1] != 0 && Reverse(p) == Signed(digits, negative)
  }

  /** One turn of the digit loop: leading zero digits are skipped, the first other digit takes the sign. */
  method EmitDigit(p: Bytes, c: byte, negative: bool, ghost digits: Bytes) returns (q: Bytes, ghost longer: Bytes)
    requires Emitted(p, digits, negative)
    ensures Emitted(q, longer, negative)
    ensures FromLE(longer) == 256 * FromLE(digits) + c
  {
    longer := [c] + digits;
    if p == [] {
      if c == 0 {
        return p, [];
      }
      if c >= 128 {
        q := [if negative then 128 else 0, c];
      } else {
        q := [if negative then c + 128 else c];
      }
      assert Reverse(q) == Signed(longer, negative);
    } else {
      ReverseAppend(p, c);
      q := p + [c];
    }
  }

  /** `setint64`: builds the big-endian digits with the sign in front and hands them to `BN_mpi2bn`; every 64-bit integer arrives unchanged. */
  method SetInt64(sn: int) returns (value: int)
    requires -0x8000_0000_0000_0000 <= sn < 0x8000_0000_0000_0000
    ensures value == sn
  {
    var negative := sn < 0;
    var n: nat := if negative then -(sn + 1) + 1 else sn;
    ghost var n0, rest, digits: Bytes := n, n, [];   // digits so far, least significant first
    var p: Bytes := [];
    WordSize();
    hide Pow256, Emitted, FromLE, SetVch, Reverse;
    assert Emitted(p, digits, negative) by { NothingEmitted(negative); }
    for i := 0 to 8
      invariant rest < Pow256(8 - i) && n == rest * Pow256(i)
      invariant n0 == FromLE(digits) * Pow256(8 - i) + rest
      invariant Emitted(p, digits, negative)
    {
      ghost var c0, r := NextDigit(n0, FromLE(digits), rest, n, i);
      var c: byte := n / Pow256(7);
      n := (n * 256) % Pow256(8);
      rest := r;
      p, digits := EmitDigit(p, c, negative, digits);
    }
    value := SetVch(Reverse(p));
    EmittedValue(p, digits, negative);
  }

  lemma WordSize()
    ensures Pow256(8) == 0x1_0000_0000_0000_0000 && Pow256(0) == 1
  {
  }

  lemma NothingEmitted(negative: bool)
    ensures Emitted([], [], negative) && FromLE([]) == 0
  {
  }

  lemma EmittedValue(p: Bytes, digits: Bytes, negative: bool)
    requires Emitted(p, digits, negative)
    ensures SetVch(Reverse(p)) == if negative then 0 - FromLE(digits) else FromLE(digits)
  {
    if p != [] {
      SetSigned(digits, negative);
    }
  }
}
