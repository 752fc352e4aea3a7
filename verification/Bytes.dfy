/** Bytes as numbers, and fixed-width little-endian integers as they lie in memory. */
module Bytes {
  type byte = x: int | 0 <= x < 256

  type Bytes = seq<byte>

  /** `n` in `width` bytes, least significant first; higher bits are cut off as by a C cast. */
  function ToLE(n: nat, width: nat): (b: Bytes)
    ensures |b| == width
    decreases width
  {
    if width == 0 then [] else [n % 256] + ToLE(n / 256, width - 1)
  }

  function FromLE(b: Bytes): (n: nat)
  {
    if b == [] then 0 else b[0] + 256 * FromLE(b[1..])
  }

  /** 256 to the power `width`. */
  function Span(width: nat): (p: nat)
    ensures p > 0
  {
    if width == 0 then 1 else 256 * Span(width - 1)
  }

  lemma {:induction false} FromLEBound(b: Bytes)
    ensures FromLE(b) < Span(|b|)
  {
    if b != [] {
      FromLEBound(b[1..]);
    }
  }

  /** Writing and reading back keeps the number modulo the width. */
  lemma {:induction false} FromToLE(n: nat, width: nat)
    ensures FromLE(ToLE(n, width)) == n % Span(width)
  {
    if width > 0 {
      FromToLE(n / 256, width - 1);
      DivModStep(n, Span(width - 1));
    }
  }

  lemma DivModStep(n: nat, p: nat)
    requires p > 0
    ensures n % (256 * p) == n % 256 + 256 * ((n / 256) % p)
  {
    var q, r := n / 256, n % 256;
    var a, c := q / p, q % p;
    assert n == (256 * p) * a + (256 * c + r) by {
      assert q == p * a + c;
      assert 256 * q == (256 * p) * a + 256 * c;
    }
    assert 0 <= 256 * c + r < 256 * p;
    ModUnique(n, 256 * p, a, 256 * c + r);
  }

  lemma ModUnique(n: nat, m: nat, a: nat, r: nat)
    requires m > 0 && n == m * a + r && r < m
    ensures n % m == r && n / m == a
  {
    var b := n / m;
    assert n == m * b + n % m;
    if b < a {
      MulAtLeast(m, a - b);
    } else if a < b {
      MulAtLeast(m, b - a);
    }
  }

  lemma MulAtLeast(m: nat, x: nat)
    requires x > 0
    ensures m * x >= m
  {
    assert m * x == m * (x - 1) + m;
  }

  lemma LowDigit(b: byte, rest: nat)
    ensures (b + 256 * rest) % 256 == b && (b + 256 * rest) / 256 == rest
  {
  }

  /** Numbers below 256^width are kept. */
  lemma FromToLEFits(n: nat, width: nat)
    requires n < Span(width)
    ensures FromLE(ToLE(n, width)) == n
  {
    FromToLE(n, width);
  }

  lemma Spans()
    ensures Span(1) == 0x100 && Span(2) == 0x1_0000 && Span(4) == 0x1_0000_0000 && Span(8) == 0x1_0000_0000_0000_0000
  {
    assert Span(2) == 256 * Span(1);
    assert Span(4) == 256 * (256 * Span(2));
    assert Span(8) == 256 * (256 * (256 * (256 * Span(4))));
  }
}
