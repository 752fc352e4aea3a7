/**
 Positional notation in any base, most significant digit first and with leading zeros kept:
 a numeral is a count of leading zeros and a number, and the other way round. Rewriting a
 numeral in another base therefore loses nothing, which is all that a text form of byte
 strings in base 58 needs.
 */
module Radix {
  import opened Bytes

  type Digits = seq<nat>

  predicate InBase(base: nat, ds: Digits)
  {
    forall i :: 0 <= i < |ds| ==> ds[i] < base
  }

  /** The number a numeral spells. */
  function Value(base: nat, ds: Digits): (n: nat)
  {
    if ds == [] then 0 else Value(base, ds[..|ds| - 1]) * base + ds[|ds| - 1]
  }

  /** How many zeros stand in front. */
  function Leading(ds: Digits): (k: nat)
    ensures k <= |ds| && (forall i :: 0 <= i < k ==> ds[i] == 0) && (k < |ds| ==> ds[k] != 0)
  {
    if ds != [] && ds[0] == 0 then 1 + Leading(ds[1..]) else 0
  }

  lemma {:induction false} LeadingUnique(ds: Digits, k: nat)
    requires k <= |ds| && (forall i :: 0 <= i < k ==> ds[i] == 0) && (k < |ds| ==> ds[k] != 0)
    ensures Leading(ds) == k
  {
    if k > 0 {
      LeadingUnique(ds[1..], k - 1);
    }
  }

  /** The numeral of a number, without leading zeros. */
  function Numeral(base: nat, n: nat): (ds: Digits)
    requires base > 1
    ensures InBase(base, ds)
    ensures ds != [] ==> ds[0] != 0
    ensures ds == [] <==> n == 0
  {
    if n == 0 then [] else
      QuotientShrinks(n, base);
      Numeral(base, n / base) + [n % base]
  }

  lemma QuotientShrinks(n: nat, base: nat)
    requires n > 0 && base > 1
    ensures 0 <= n / base < n && 0 <= n % base < base
    ensures n == (n / base) * base + n % base
    ensures n / base == 0 ==> n % base == n
  {
    var q, r := n / base, n % base;
    assert n == base * q + r;
    if q > 0 {
      Twice(base, q);
    }
  }

  lemma Twice(base: nat, q: nat)
    requires base > 1
    ensures base * q >= 2 * q
  {
    assert base * q == 2 * q + (base - 2) * q;
  }

  function Zeros(k: nat): (ds: Digits)
    ensures |ds| == k && forall i :: 0 <= i < k ==> ds[i] == 0
  {
    seq(k, i => 0)
  }

  /** `k` zeros in front of the numeral of `n`. */
  function Expand(base: nat, k: nat, n: nat): (ds: Digits)
    requires base > 1
    ensures InBase(base, ds)
  {
    Zeros(k) + Numeral(base, n)
  }

  lemma {:induction false} NumeralValue(base: nat, n: nat)
    requires base > 1
    ensures Value(base, Numeral(base, n)) == n
  {
    if n > 0 {
      QuotientShrinks(n, base);
      NumeralValue(base, n / base);
      var ds := Numeral(base, n);
      assert ds[..|ds| - 1] == Numeral(base, n / base);
    }
  }

  lemma {:induction false} ValueOfZeros(base: nat, k: nat, ds: Digits)
    ensures Value(base, Zeros(k) + ds) == Value(base, ds)
    decreases |ds|, k
  {
    var s := Zeros(k) + ds;
    if ds != [] {
      assert s[..|s| - 1] == Zeros(k) + ds[..|ds| - 1];
      ValueOfZeros(base, k, ds[..|ds| - 1]);
    } else if k > 0 {
      assert s[..|s| - 1] == Zeros(k - 1) + [];
      ValueOfZeros(base, k - 1, []);
    }
  }

  lemma {:induction false} ValuePositive(base: nat, ds: Digits)
    requires base > 1 && ds != [] && ds[0] != 0
    ensures Value(base, ds) > 0
    decreases |ds|
  {
    if |ds| > 1 {
      ValuePositive(base, ds[..|ds| - 1]);
      assert Value(base, ds[..|ds| - 1]) * base >= 1;
    }
  }

  lemma {:induction false} NumeralUnique(base: nat, ds: Digits)
    requires base > 1 && InBase(base, ds) && (ds != [] ==> ds[0] != 0)
    ensures Numeral(base, Value(base, ds)) == ds
    decreases |ds|
  {
    if ds != [] {
      var front, last := ds[..|ds| - 1], ds[|ds| - 1];
      NumeralUnique(base, front);
      ValuePositive(base, ds);
      DivideBack(Value(base, front), base, last);
      assert ds == front + [last];
    }
  }

  lemma DivideBack(q: nat, base: nat, r: nat)
    requires r < base
    ensures (q * base + r) / base == q && (q * base + r) % base == r
  {
    ModUnique(q * base + r, base, q, r);
  }

  /** Zeros and number are recovered from what they are expanded to. */
  lemma ExpandReads(base: nat, k: nat, n: nat)
    requires base > 1
    ensures Leading(Expand(base, k, n)) == k && Value(base, Expand(base, k, n)) == n
  {
    LeadingUnique(Expand(base, k, n), k);
    NumeralValue(base, n);
    ValueOfZeros(base, k, Numeral(base, n));
  }

  /** Every numeral is the expansion of its zeros and its number. */
  lemma ReadsExpand(base: nat, ds: Digits)
    requires base > 1 && InBase(base, ds)
    ensures Expand(base, Leading(ds), Value(base, ds)) == ds
  {
    var k := Leading(ds);
    assert ds == Zeros(k) + ds[k..];
    ValueOfZeros(base, k, ds[k..]);
    NumeralUnique(base, ds[k..]);
  }

  /** Rewrite a numeral in another base, keeping the leading zeros. */
  function Convert(from: nat, to: nat, ds: Digits): (r: Digits)
    requires to > 1
    ensures InBase(to, r)
  {
    Expand(to, Leading(ds), Value(from, ds))
  }

  /** Conversion there and back changes nothing, so it is one-to-one and onto. */
  lemma ConvertBack(from: nat, to: nat, ds: Digits)
    requires from > 1 && to > 1 && InBase(from, ds)
    ensures Convert(to, from, Convert(from, to, ds)) == ds
  {
    ExpandReads(to, Leading(ds), Value(from, ds));
    ReadsExpand(from, ds);
  }
}
