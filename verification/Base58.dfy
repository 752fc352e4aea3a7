/**
 Base58 text for byte strings (base58.h). Encoding and decoding run over big integers and byte
 vectors with a sign bit; both turn out to be plain conversions of numerals between base 256
 and base 58, with leading zeros kept.
 */
module Base58 {
  import opened Bytes
  import opened BigNum
  import opened Radix
  import opened Wrappers

  /** The alphabet, one run of consecutive characters at a time. */
  const DIGITS := "123456789"
  const A_TO_H := "ABCDEFGH"
  const J_TO_N := "JKLMN"
  const P_TO_Z := "PQRSTUVWXYZ"
  const LOWER_A_TO_K := "abcdefghijk"
  const LOWER_M_TO_Z := "mnopqrstuvwxyz"
  const ALPHABET: string := DIGITS + A_TO_H + J_TO_N + P_TO_Z + LOWER_A_TO_K + LOWER_M_TO_Z

  /** The character code of each digit. */
  function Code(d: nat): (n: nat)
    ensures d < 58 ==> 49 <= n <= 122
  {
    if d < 9 then d + 49
    else if d < 17 then d + 56
    else if d < 22 then d + 57
    else if d < 33 then d + 58
    else if d < 44 then d + 64
    else d + 65
  }

  function Symbol(d: nat): (c: char)
    requires d < 58
    ensures c as int == Code(d)
  {
    Code(d) as char
  }

  /** The digit a character stands for. */
  function DigitOf(c: char): (r: Option<nat>)
    ensures r.Some? ==> r.value < 58 && Symbol(r.value) == c
  {
    var n := c as int;
    if '1' <= c <= '9' then Some(n - 49)
    else if 'A' <= c <= 'H' then Some(n - 56)
    else if 'J' <= c <= 'N' then Some(n - 57)
    else if 'P' <= c <= 'Z' then Some(n - 58)
    else if 'a' <= c <= 'k' then Some(n - 64)
    else if 'm' <= c <= 'z' then Some(n - 65)
    else None
  }

  /** The alphabet: digits and letters without 0, O, I and l, in the order of their codes. */
  lemma DigitValues(c: char)
    ensures '1' <= c <= '9' ==> DigitOf(c) == Some(c as int - '1' as int)
    ensures 'A' <= c <= 'H' ==> DigitOf(c) == Some(9 + (c as int - 'A' as int))
    ensures 'J' <= c <= 'N' ==> DigitOf(c) == Some(17 + (c as int - 'J' as int))
    ensures 'P' <= c <= 'Z' ==> DigitOf(c) == Some(22 + (c as int - 'P' as int))
    ensures 'a' <= c <= 'k' ==> DigitOf(c) == Some(33 + (c as int - 'a' as int))
    ensures 'm' <= c <= 'z' ==> DigitOf(c) == Some(44 + (c as int - 'm' as int))
    ensures DigitOf(c).None? <==> c < '1' || '9' < c < 'A' || c in {'I', 'O', 'l'} || 'Z' < c < 'a' || 'z' < c
  {
  }

  lemma AlphabetCodes(d: nat)
    requires d < 58
    ensures |ALPHABET| == 58 && ALPHABET[d] as int == Code(d)
  {
    FirstRuns(d);
    LastRuns(d);
    hide DIGITS, A_TO_H, J_TO_N, P_TO_Z, LOWER_A_TO_K, LOWER_M_TO_Z;
  }

  lemma FirstRuns(d: nat)
    ensures |DIGITS| == 9 && |A_TO_H| == 8 && |J_TO_N| == 5
    ensures d < 9 ==> DIGITS[d] as int == Code(d)
    ensures 9 <= d < 17 ==> A_TO_H[d - 9] as int == Code(d)
    ensures 17 <= d < 22 ==> J_TO_N[d - 17] as int == Code(d)
  {
  }

  lemma LastRuns(d: nat)
    ensures |P_TO_Z| == 11 && |LOWER_A_TO_K| == 11 && |LOWER_M_TO_Z| == 14
    ensures 22 <= d < 33 ==> P_TO_Z[d - 22] as int == Code(d)
    ensures 33 <= d < 44 ==> LOWER_A_TO_K[d - 33] as int == Code(d)
    ensures 44 <= d < 58 ==> LOWER_M_TO_Z[d - 44] as int == Code(d)
  {
  }

  /** `strchr`: the first place of `c` in `s`. */
  function StrChr(s: string, c: char): (r: Option<nat>)
    ensures r.Some? ==> r.value < |s| && s[r.value] == c && forall i :: 0 <= i < r.value ==> s[i] != c
    ensures r.None? ==> c !in s
  {
    if s == "" then None
    else if s[0] == c then Some(0)
    else match StrChr(s[1..], c) case None => None case Some(i) => Some(i + 1)
  }

  /** Looking a character up in the alphabet gives its digit. */
  lemma StrChrFinds(c: char)
    ensures StrChr(ALPHABET, c) == DigitOf(c)
  {
    AlphabetCodes(0);
    var r, d := StrChr(ALPHABET, c), DigitOf(c);
    if r.Some? {
      AlphabetCodes(r.value);
      DigitOfSymbol(r.value);
    } else if d.Some? {
      AlphabetCodes(d.value);
    }
  }

  lemma DigitOfSymbol(d: nat)
    requires d < 58
    ensures DigitOf(Symbol(d)) == Some(d)
  {
  }

  function Symbols(ds: Digits): (s: string)
    requires InBase(58, ds)
    ensures |s| == |ds| && forall i :: 0 <= i < |s| ==> s[i] == Symbol(ds[i])
  {
    seq(|ds|, i requires 0 <= i < |ds| => Symbol(ds[i]))
  }

  predicate AllDigits(s: string)
  {
    forall i :: 0 <= i < |s| ==> DigitOf(s[i]).Some?
  }

  function DigitsOf(s: string): (ds: Digits)
    requires AllDigits(s)
    ensures |ds| == |s| && InBase(58, ds) && forall i :: 0 <= i < |s| ==> DigitOf(s[i]) == Some(ds[i])
  {
    seq(|s|, i requires 0 <= i < |s| => DigitOf(s[i]).value)
  }

  lemma SymbolsAndDigits(ds: Digits, s: string)
    ensures InBase(58, ds) ==> AllDigits(Symbols(ds)) && DigitsOf(Symbols(ds)) == ds
    ensures AllDigits(s) ==> Symbols(DigitsOf(s)) == s
  {
    hide Symbol, DigitOf;
    if InBase(58, ds) {
      forall i | 0 <= i < |ds|
        ensures DigitOf(Symbols(ds)[i]) == Some(ds[i])
      {
        DigitOfSymbol(ds[i]);
      }
    }
  }

  // ----- encoding -----

  /** Base58 text of a byte string. */
  function Encode(v: Bytes): (s: string)
  {
    Symbols(Convert(256, 58, v))
  }

  lemma {:induction false} ReverseValue(v: Bytes)
    ensures FromLE(Reverse(v)) == Value(256, v)
    decreases |v|
  {
    if v != [] {
      var front, last := v[..|v| - 1], v[|v| - 1];
      assert v == front + [last];
      ReverseAppend(front, last);
      ReverseValue(front);
      assert Reverse(v)[1..] == Reverse(front);
    }
  }

  lemma {:induction false} ReverseMagnitude(n: nat)
    ensures Reverse(Magnitude(n)) == Numeral(256, n)
  {
    if n > 0 {
      ReverseMagnitude(n / 256);
      assert Magnitude(n)[1..] == Magnitude(n / 256);
    }
  }

  /** The extra zero byte keeps the number positive. */
  lemma BytesAsNumber(v: Bytes)
    ensures SetVch(Reverse(v) + [0]) == Value(256, v)
  {
    FromLEAppend(Reverse(v), 0);
    ReverseValue(v);
  }

  /** Characters collected so far, in reverse. */
  function Backward(s: string): (r: string)
    ensures |r| == |s| && forall i :: 0 <= i < |s| ==> r[i] == s[|s| - 1 - i]
  {
    seq(|s|, i requires 0 <= i < |s| => s[|s| - 1 - i])
  }

  /** The text of a number, last digit first. */
  method NumberText(bn0: nat) returns (str: string)
    ensures Backward(str) == Symbols(Numeral(58, bn0))
  {
    hide Symbol, Numeral, Backward, Symbols;
    var bn := bn0;
    str := "";
    ghost var done: Digits := [];
    assert Backward(str) == Symbols(done);
    assert Numeral(58, bn) + done == Numeral(58, bn);
    while bn > 0
      invariant InBase(58, done) && Numeral(58, bn0) == Numeral(58, bn) + done
      invariant Backward(str) == Symbols(done)
    {
      QuotientShrinks(bn, 58);
      LastDigit(bn, done);
      var c := bn % 58;
      bn := bn / 58;
      AlphabetCodes(c);
      assert ALPHABET[c] == Symbol(c);
      BackwardSnoc(str, Symbol(c));
      SymbolsCons(c, done);
      str := str + [ALPHABET[c]];
      done := [c] + done;
    }
    assert Numeral(58, bn) + done == done;
  }

  lemma LastDigit(bn: nat, done: Digits)
    requires bn > 0
    ensures Numeral(58, bn) + done == Numeral(58, bn / 58) + ([bn % 58] + done)
  {
  }

  lemma SymbolsCons(c: nat, ds: Digits)
    requires c < 58 && InBase(58, ds)
    ensures InBase(58, [c] + ds) && Symbols([c] + ds) == [Symbol(c)] + Symbols(ds)
  {
    hide Symbol;
  }

  lemma BackwardSnoc(s: string, c: char)
    ensures Backward(s + [c]) == [c] + Backward(s)
  {
  }

  method EncodeBase58(v: Bytes) returns (str: string)
    ensures str == Encode(v)
  {
    hide SetVch, Symbol, Value, Numeral;
    BytesAsNumber(v);
    var bn: nat := SetVch(Reverse(v) + [0]);
    str := NumberText(bn);
    ghost var digits := str;
    AlphabetCodes(0);
    assert ALPHABET[0] == Symbol(0);
    var p := 0;
    while p < |v| && v[p] == 0
      invariant 0 <= p <= |v| && forall j :: 0 <= j < p ==> v[j] == 0
      invariant |str| == |digits| + p && digits <= str
      invariant forall j :: |digits| <= j < |str| ==> str[j] == Symbol(0)
    {
      str := str + [ALPHABET[0]];
      p := p + 1;
    }
    LeadingUnique(v, p);
    ZerosBehind(str, digits, p, Numeral(58, bn));
    str := Backward(str);
  }

  lemma ZerosBehind(str: string, digits: string, p: nat, ds: Digits)
    requires digits <= str && |str| == |digits| + p && InBase(58, ds) && Backward(digits) == Symbols(ds)
    requires forall j :: |digits| <= j < |str| ==> str[j] == Symbol(0)
    ensures InBase(58, Zeros(p) + ds) && Backward(str) == Symbols(Zeros(p) + ds)
  {
    hide Symbol;
    forall i | 0 <= i < |str|
      ensures Backward(str)[i] == Symbols(Zeros(p) + ds)[i]
    {
      if i >= p {
        assert Backward(digits)[i - p] == str[|str| - 1 - i];
      }
    }
  }

  // ----- decoding -----

  /** `isspace` in the C locale. */
  predicate IsSpace(c: char)
  {
    c == ' ' || 9 <= c as int <= 13
  }

  predicate AllSpace(s: string)
  {
    forall i :: 0 <= i < |s| ==> IsSpace(s[i])
  }

  /** A string as its C readers see it: up to the first NUL. */
  function CString(s: string): (t: string)
    ensures t <= s && (forall i :: 0 <= i < |t| ==> t[i] != '\0')
    ensures |t| < |s| ==> s[|t|] == '\0'
  {
    if s == "" || s[0] == '\0' then "" else [s[0]] + CString(s[1..])
  }

  /** `s` is digits with white space around them. */
  ghost predicate Surrounded(s: string, before: string, digits: string, behind: string)
  {
    s == before + digits + behind && AllSpace(before) && AllDigits(digits) && AllSpace(behind)
  }

  lemma DigitsAreNoSpace(c: char)
    ensures DigitOf(c).Some? ==> !IsSpace(c) && c != '\0'
  {
  }

  /** The part of `s` from the first character that is no space. */
  function SkipSpace(s: string): (t: string)
    ensures |t| <= |s| && AllSpace(s[..|s| - |t|]) && s[|s| - |t|..] == t
    ensures t != "" ==> !IsSpace(t[0])
  {
    if s != "" && IsSpace(s[0]) then SkipSpace(s[1..]) else s
  }

  /** White space in the C locale: the blank and the five controls from tab to carriage return. */
  lemma SpacesAre(c: char)
    ensures IsSpace(c) <==> c as int == 32 || 9 <= c as int <= 13
  {
  }

  /** The digits at the front of `s`. */
  function DigitSpan(s: string): (n: nat)
    ensures n <= |s| && AllDigits(s[..n])
    ensures n < |s| ==> DigitOf(s[n]).None?
  {
    if s != "" && DigitOf(s[0]).Some? then 1 + DigitSpan(s[1..]) else 0
  }

  /** What a text decodes to. */
  function Decode(s: string): (v: Option<Bytes>)
  {
    var t := SkipSpace(CString(s));
    var n := DigitSpan(t);
    if AllSpace(t[n..]) then Some(Convert(58, 256, DigitsOf(t[..n]))) else None
  }

  lemma {:induction false} SkipSpaceAppend(b: string, t: string)
    requires AllSpace(b) && (t != "" ==> !IsSpace(t[0]))
    ensures SkipSpace(b + t) == t
  {
    hide IsSpace;
    if b == "" {
      assert b + t == t;
    } else {
      assert (b + t)[1..] == b[1..] + t;
      SkipSpaceAppend(b[1..], t);
    }
  }

  lemma {:induction false} DigitSpanAppend(d: string, e: string)
    requires AllDigits(d) && (e != "" ==> DigitOf(e[0]).None?)
    ensures DigitSpan(d + e) == |d|
  {
    hide DigitOf;
    if d == "" {
      assert d + e == e;
    } else {
      assert (d + e)[1..] == d[1..] + e;
      DigitSpanAppend(d[1..], e);
    }
  }

  /** Wherever white space, digits, white space can be seen in a string, the two scans find just that. */
  lemma ScansFindDigits(c: string, before: string, digits: string, behind: string)
    requires Surrounded(c, before, digits, behind)
    ensures var t := SkipSpace(c);
            t[..DigitSpan(t)] == digits && AllSpace(t[DigitSpan(t)..])
  {
    hide IsSpace, DigitOf, DigitSpan, SkipSpace;
    if digits == "" {
      assert c + "" == c;
      SkipSpaceAppend(c, "");
    } else {
      DigitsAreNoSpace(digits[0]);
      if behind != "" {
        DigitsAreNoSpace(behind[0]);
      }
      assert c == before + (digits + behind);
      SkipSpaceAppend(before, digits + behind);
      DigitSpanAppend(digits, behind);
    }
  }

  /** Decoding succeeds exactly on digits with white space around them, and converts the digits. */
  lemma DecodeIff(s: string)
    ensures forall b, d, e :: Surrounded(CString(s), b, d, e) ==> Decode(s) == Some(Convert(58, 256, DigitsOf(d)))
    ensures Decode(s).Some? ==> exists b, d, e :: Surrounded(CString(s), b, d, e)
  {
    hide SkipSpace, DigitSpan, Convert, CString, DigitOf, IsSpace;
    var c := CString(s);
    forall b, d, e | Surrounded(c, b, d, e)
      ensures Decode(s) == Some(Convert(58, 256, DigitsOf(d)))
    {
      ScansFindDigits(c, b, d, e);
    }
    var t := SkipSpace(c);
    if AllSpace(t[DigitSpan(t)..]) {
      assert Surrounded(c, c[..|c| - |t|], t[..DigitSpan(t)], t[DigitSpan(t)..]);
    }
  }

  lemma CStringWhole(s: string)
    requires forall i :: 0 <= i < |s| ==> s[i] != '\0'
    ensures CString(s) == s
  {
  }

  /** Decoding undoes encoding for every byte string: leading zeros, top bits and all. */
  lemma DecodeEncode(v: Bytes)
    ensures Decode(Encode(v)) == Some(v)
  {
    hide Convert, SkipSpace, DigitSpan, CString, IsSpace, Symbol;
    var ds := Convert(256, 58, v);
    SymbolsAndDigits(ds, "");
    forall i | 0 <= i < |Encode(v)|
      ensures Encode(v)[i] != '\0'
    {
      DigitsAreNoSpace(Encode(v)[i]);
    }
    CStringWhole(Encode(v));
    assert Surrounded(CString(Encode(v)), "", Encode(v), "");
    DecodeIff(Encode(v));
    ConvertBack(256, 58, v);
  }

  /** Encoding what was decoded gives the text back without the white space around it. */
  lemma EncodeDecode(s: string, before: string, digits: string, behind: string)
    requires Surrounded(CString(s), before, digits, behind)
    ensures Decode(s).Some? && Encode(Decode(s).value) == digits
  {
    hide Convert, Decode, CString;
    DecodeIff(s);
    SymbolsAndDigits([], digits);
    ConvertBack(58, 256, DigitsOf(digits));
  }

  /** Two byte strings never share a text. */
  lemma EncodeInjective(v: Bytes, w: Bytes)
    requires Encode(v) == Encode(w)
    ensures v == w
  {
    DecodeEncode(v);
    DecodeEncode(w);
  }

  /** The number of the text read so far. */
  lemma ValueSnoc(ds: Digits, d: nat)
    ensures Value(58, ds + [d]) == Value(58, ds) * 58 + d
  {
    assert (ds + [d])[..|ds|] == ds;
  }

  /** Bytes of a number without the sign byte. */
  function Trimmed(n: nat): (b: Bytes)
  {
    var b := GetVch(n);
    if |b| >= 2 && b[|b| - 1] == 0 && b[|b| - 2] >= 0x80 then b[..|b| - 1] else b
  }

  /** Trimming leaves the magnitude: the last byte of a number below 0x80 is never zero. */
  lemma TrimmedIsMagnitude(n: nat)
    ensures Trimmed(n) == Magnitude(n)
  {
    var m := Magnitude(n);
    if n > 0 && m[|m| - 1] >= 128 {
      assert GetVch(n) == m + [0];
    }
  }

  method DecodeBase58(s: string) returns (v: Option<Bytes>)
    ensures v == Decode(s)
  {
    hide DigitOf, IsSpace, GetVch, Magnitude, Numeral, Trimmed, SkipSpace, DigitSpan, Value;
    var str := CString(s);
    assert str[0..] == str;
    var psz := SkipBlanks(str, 0);
    var ok, bn := ReadNumber(str, psz);
    if !ok {
      return None;
    }
    var vchTmp := Trimmed(bn);
    TrimmedIsMagnitude(bn);
    ReverseMagnitude(bn);
    var n := CountOnes(str, psz);
    v := Some(Zeros(n) + Reverse(vchTmp));
  }

  /** The loop over the digits; it fails if anything but white space follows them. */
  method ReadNumber(str: string, psz: nat) returns (ok: bool, bn: nat)
    requires psz <= |str|
    ensures var t := str[psz..];
            && ok == AllSpace(t[DigitSpan(t)..])
            && (ok ==> bn == Value(58, DigitsOf(t[..DigitSpan(t)])))
  {
    hide DigitOf, IsSpace, Value, SkipSpace, DigitSpan, DigitsOf, AllDigits;
    ghost var t := str[psz..];
    bn := 0;
    var p: nat := psz;
    assert AllDigits(t[..0]) && bn == Value(58, DigitsOf(t[..0])) by { NoDigits(); }
    while p < |str|
      invariant psz <= p <= |str| && DigitSpan(t) == p - psz + DigitSpan(str[p..])
      invariant AllDigits(t[..p - psz]) && bn == Value(58, DigitsOf(t[..p - psz]))
    {
      ghost var k := p - psz;
      assert t[k] == str[p] && t[k..] == str[p..];
      SpanStep(str, p);
      var digit := StrChr(ALPHABET, str[p]);
      StrChrFinds(str[p]);
      if digit.None? {
        var q := SkipBlanks(str, p);
        BlankIffSkipped(str[p..]);
        return q == |str|, bn;
      }
      ReadDigit(t, k, digit.value);
      bn := bn * 58 + digit.value;
      p := p + 1;
    }
    assert str[p..] == "" && AllSpace("");
    return true, bn;
  }

  lemma SpanStep(s: string, p: nat)
    requires p < |s|
    ensures DigitSpan(s[p..]) == if DigitOf(s[p]).Some? then 1 + DigitSpan(s[p + 1..]) else 0
  {
    hide DigitOf;
    assert s[p..][1..] == s[p + 1..];
  }

  lemma ReadDigit(t: string, k: nat, d: nat)
    requires k < |t| && AllDigits(t[..k]) && DigitOf(t[k]) == Some(d)
    ensures AllDigits(t[..k + 1]) && Value(58, DigitsOf(t[..k + 1])) == Value(58, DigitsOf(t[..k])) * 58 + d
  {
    hide DigitOf, Value;
    assert t[..k + 1] == t[..k] + [t[k]];
    assert DigitsOf(t[..k + 1]) == DigitsOf(t[..k]) + [d];
    ValueSnoc(DigitsOf(t[..k]), d);
  }

  lemma NoDigits()
    ensures AllDigits("") && Value(58, DigitsOf("")) == 0
  {
  }

  lemma BlankIffSkipped(s: string)
    ensures AllSpace(s) <==> SkipSpace(s) == ""
  {
    hide IsSpace, SkipSpace, AllSpace;
    assert s[..|s|] == s;
    if AllSpace(s) {
      SkipSpaceAppend(s, "");
      assert s + "" == s;
    }
  }

  /** The leading ones of the text are the leading zeros of the number. */
  method CountOnes(str: string, psz: nat) returns (n: nat)
    requires psz <= |str|
    ensures var t := str[psz..]; n == Leading(DigitsOf(t[..DigitSpan(t)]))
  {
    hide DigitOf, DigitSpan, Leading;
    ghost var t := str[psz..];
    ghost var ds := DigitsOf(t[..DigitSpan(t)]);
    n := 0;
    while psz + n < |str| && str[psz + n] == '1'
      invariant psz + n <= |str| && n <= |ds| && forall i :: 0 <= i < n ==> ds[i] == 0
    {
      assert t[n] == '1';
      OneIsZero('1');
      n := n + 1;
    }
    if n < |ds| {
      assert t[n] == str[psz + n];
      OneIsZero(t[n]);
    }
    LeadingUnique(ds, n);
  }

  lemma OneIsZero(c: char)
    ensures DigitOf(c) == Some(0) <==> c == '1'
  {
    DigitOfSymbol(0);
    AlphabetCodes(0);
  }

  /** `while (isspace(*p)) p++`. */
  method SkipBlanks(s: string, from: nat) returns (p: nat)
    requires from <= |s|
    ensures from <= p <= |s| && s[p..] == SkipSpace(s[from..])
  {
    hide IsSpace, SkipSpace;
    p := from;
    while p < |s| && IsSpace(s[p])
      invariant from <= p <= |s| && SkipSpace(s[p..]) == SkipSpace(s[from..])
    {
      SkipStep(s, p);
      p := p + 1;
    }
    SkipEnds(s, p);
  }

  lemma SkipStep(s: string, p: nat)
    requires p < |s| && IsSpace(s[p])
    ensures SkipSpace(s[p..]) == SkipSpace(s[p + 1..])
  {
    hide IsSpace;
    assert s[p..][1..] == s[p + 1..];
  }

  lemma SkipEnds(s: string, p: nat)
    requires p <= |s| && (p == |s| || !IsSpace(s[p]))
    ensures SkipSpace(s[p..]) == s[p..]
  {
    hide IsSpace;
  }

  // ----- with a checksum (base58.h:124-170) -----

  /** `hash` is the 256-bit hash of the source; its first four bytes are the checksum. */
  function CheckEncode(hash: Bytes -> Bytes, v: Bytes): (s: string)
    requires |hash(v)| == 32
  {
    Encode(v + hash(v)[..4])
  }

  function CheckDecode(hash: Bytes -> Bytes, s: string): (r: Option<Bytes>)
    requires forall b :: |hash(b)| == 32
  {
    match Decode(s)
    case None => None
    case Some(b) =>
      if |b| < 4 then None
      else
        var v := b[..|b| - 4];
        if hash(v)[..4] == b[|b| - 4..] then Some(v) else None
  }

  /** A text is accepted with `v` exactly when its digits are the encoding of `v` with its checksum. */
  lemma CheckDecodeIff(hash: Bytes -> Bytes, s: string, v: Bytes)
    requires forall b :: |hash(b)| == 32
    ensures CheckDecode(hash, s) == Some(v) <==>
            exists b, e :: Surrounded(CString(s), b, CheckEncode(hash, v), e)
  {
    hide Encode, Decode, CString, Surrounded;
    DecodeIff(s);
    var full := v + hash(v)[..4];
    if CheckDecode(hash, s) == Some(v) {
      assert Decode(s).value == full;
      var b, d, e :| Surrounded(CString(s), b, d, e);
      EncodeDecode(s, b, d, e);
      assert Surrounded(CString(s), b, CheckEncode(hash, v), e);
    }
    if exists b, e :: Surrounded(CString(s), b, CheckEncode(hash, v), e) {
      var b, e :| Surrounded(CString(s), b, CheckEncode(hash, v), e);
      EncodeDecode(s, b, CheckEncode(hash, v), e);
      EncodeInjective(Decode(s).value, full);
      assert full[..|full| - 4] == v && full[|full| - 4..] == hash(v)[..4];
    }
  }

  /** In particular every encoding is accepted. */
  lemma CheckRoundTrip(hash: Bytes -> Bytes, v: Bytes)
    requires forall b :: |hash(b)| == 32
    ensures CheckDecode(hash, CheckEncode(hash, v)) == Some(v)
  {
    hide Encode, Decode;
    var full := v + hash(v)[..4];
    DecodeEncode(full);
    assert full[..|full| - 4] == v && full[|full| - 4..] == hash(v)[..4];
  }
}
