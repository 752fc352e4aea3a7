/**
 Escape sequences in JSON strings: what the writer inserts (json_spirit_writer_template.h:21-91)
 and what the reader takes out (json_spirit_reader_template.h:52-178). Characters are bytes;
 the source's `char` is signed, and a negative one stands for the byte 256 higher.
 */
module JsonEscape {
  import opened Bytes

  const BACKSLASH: byte := 0x5c
  const QUOTE: byte := 0x22
  const LETTER_U: byte := 0x75

  type Printable = byte -> bool

  // ----- the writer -----

  /** `to_hex_char`: upper-case digits. */
  function ToHexChar(n: nat): (c: byte)
    requires n < 16
  {
    if n < 10 then 0x30 + n else 0x41 - 10 + n
  }

  /** The two-character escapes of `add_esc_char`, by the letter behind the backslash. */
  function ShortEscape(c: byte): (letter: int)
    ensures letter == -1 || letter in {0x22, 0x5c, 0x62, 0x66, 0x6e, 0x72, 0x74}
  {
    match c
    case 0x22 => 0x22
    case 0x5c => 0x5c
    case 0x08 => 0x62
    case 0x0c => 0x66
    case 0x0a => 0x6e
    case 0x0d => 0x72
    case 0x09 => 0x74
    case _ => -1
  }

  /** `non_printable_to_string`. */
  function UnicodeEscape(c: byte): (s: Bytes)
  {
    [BACKSLASH, LETTER_U, ToHexChar(0), ToHexChar(0), ToHexChar(c / 16), ToHexChar(c % 16)]
  }

  function EscapeChar(isPrint: Printable, c: byte): (s: Bytes)
    ensures s != []
  {
    if ShortEscape(c) >= 0 then [BACKSLASH, ShortEscape(c)]
    else if isPrint(c) then [c]
    else UnicodeEscape(c)
  }

  /** How each character is written: the seven short escapes, itself if it can be printed, else two upper-case digits behind `u00`. */
  lemma CharsWritten(isPrint: Printable, c: byte)
    ensures EscapeChar(isPrint, 0x22) == [0x5c, 0x22] && EscapeChar(isPrint, 0x5c) == [0x5c, 0x5c]
    ensures EscapeChar(isPrint, 0x08) == [0x5c, 0x62] && EscapeChar(isPrint, 0x0c) == [0x5c, 0x66]
    ensures EscapeChar(isPrint, 0x0a) == [0x5c, 0x6e] && EscapeChar(isPrint, 0x0d) == [0x5c, 0x72]
    ensures EscapeChar(isPrint, 0x09) == [0x5c, 0x74]
    ensures c !in {0x22, 0x5c, 0x08, 0x0c, 0x0a, 0x0d, 0x09} ==>
              EscapeChar(isPrint, c) == if isPrint(c) then [c]
                                        else [0x5c, 0x75, 0x30, 0x30,
                                              if c / 16 < 10 then 0x30 + c / 16 else 0x37 + c / 16,
                                              if c % 16 < 10 then 0x30 + c % 16 else 0x37 + c % 16]
  {
  }

  function Escape(isPrint: Printable, s: Bytes): (t: Bytes)
  {
    if s == [] then [] else EscapeChar(isPrint, s[0]) + Escape(isPrint, s[1..])
  }

  lemma {:induction false} EscapeSnoc(isPrint: Printable, s: Bytes, c: byte)
    ensures Escape(isPrint, s + [c]) == Escape(isPrint, s) + EscapeChar(isPrint, c)
  {
    hide EscapeChar;
    if s == [] {
      assert [c][1..] == [];
    } else {
      assert (s + [c])[1..] == s[1..] + [c];
      EscapeSnoc(isPrint, s[1..], c);
    }
  }

  method AddEscChars(isPrint: Printable, s: Bytes) returns (result: Bytes)
    ensures result == Escape(isPrint, s)
  {
    result := [];
    for i := 0 to |s|
      invariant result == Escape(isPrint, s[..i])
    {
      var c := s[i];
      assert s[..i + 1] == s[..i] + [c];
      EscapeSnoc(isPrint, s[..i], c);
      if ShortEscape(c) >= 0 {
        result := result + [BACKSLASH, ShortEscape(c)];
      } else if isPrint(c) {
        result := result + [c];
      } else {
        result := result + UnicodeEscape(c);
      }
    }
    assert s[..|s|] == s;
  }

  // ----- the reader -----

  /** `hex_to_num`: anything that is no hexadecimal digit counts as zero. */
  function HexToNum(c: byte): (n: nat)
    ensures n < 16
  {
    if 0x30 <= c <= 0x39 then c - 0x30
    else if 0x61 <= c <= 0x66 then c - 0x61 + 10
    else if 0x41 <= c <= 0x46 then c - 0x41 + 10
    else 0
  }

  /** What an escape stands for, given the characters behind its backslash, and how many of them belong to it. */
  function Unescape(s: Bytes): (r: (Bytes, nat))
    requires s != []
    ensures 1 <= r.1 <= |s|
  {
    match s[0]
    case 0x74 => ([0x09], 1)
    case 0x62 => ([0x08], 1)
    case 0x66 => ([0x0c], 1)
    case 0x6e => ([0x0a], 1)
    case 0x72 => ([0x0d], 1)
    case 0x5c => ([0x5c], 1)
    case 0x2f => ([0x2f], 1)
    case 0x22 => ([0x22], 1)
    case 0x78 => if |s| >= 3 then ([HexToNum(s[1]) * 16 + HexToNum(s[2])], 3) else ([], 1)
    case 0x75 =>
      if |s| >= 5 then
        ([(HexToNum(s[1]) * 0x1000 + HexToNum(s[2]) * 0x100 + HexToNum(s[3]) * 0x10 + HexToNum(s[4])) % 0x100], 5)
      else ([], 1)
    case _ => ([], 1)
  }

  /** Digits and letters of either case count as hexadecimal digits. */
  lemma HexDigitsRead(d: nat)
    ensures d < 10 ==> HexToNum(0x30 + d) == d
    ensures d < 6 ==> HexToNum(0x41 + d) == HexToNum(0x61 + d) == 10 + d
  {
  }

  /** The escapes of RFC 4627 section 2.5, with `x` for two hexadecimal digits; of four digits the lower two count. */
  lemma EscapesStandFor(rest: Bytes, a: nat, b: nat, c: nat, d: nat)
    requires a < 10 && b < 10 && c < 10 && d < 10
    ensures Unescape([0x22] + rest) == ([0x22], 1) && Unescape([0x5c] + rest) == ([0x5c], 1)
    ensures Unescape([0x2f] + rest) == ([0x2f], 1) && Unescape([0x62] + rest) == ([0x08], 1)
    ensures Unescape([0x66] + rest) == ([0x0c], 1) && Unescape([0x6e] + rest) == ([0x0a], 1)
    ensures Unescape([0x72] + rest) == ([0x0d], 1) && Unescape([0x74] + rest) == ([0x09], 1)
    ensures Unescape([0x78, 0x30 + a, 0x30 + b] + rest) == ([16 * a + b], 3)
    ensures Unescape([0x75, 0x30 + a, 0x30 + b, 0x30 + c, 0x30 + d] + rest) == ([16 * c + d], 5)
  {
  }

  /** An escape without enough digits stands for nothing, and so does one that is none; only its letter goes. */
  lemma BrokenEscapes(s: Bytes)
    requires s != []
    ensures s[0] == 0x78 && |s| < 3 ==> Unescape(s) == ([], 1)
    ensures s[0] == 0x75 && |s| < 5 ==> Unescape(s) == ([], 1)
    ensures s[0] !in {0x22, 0x2f, 0x5c, 0x62, 0x66, 0x6e, 0x72, 0x74, 0x75, 0x78} ==> Unescape(s) == ([], 1)
  {
  }

  /** A text without its escapes. A backslash in last place is kept. */
  function Substitute(s: Bytes): (t: Bytes)
    decreases |s|
  {
    if |s| < 2 then s
    else if s[0] == BACKSLASH then
      var (c, n) := Unescape(s[1..]);
      c + Substitute(s[1 + n..])
    else [s[0]] + Substitute(s[1..])
  }

  /** The loop of `substitute_esc_chars`, which copies the stretches between escapes. */
  method SubstituteEscChars(s: Bytes) returns (result: Bytes)
    ensures result == Substitute(s)
  {
    hide Unescape, Substitute;
    if |s| < 2 {
      SubstituteShort(s);
      return s;
    }
    result := [];
    var start: nat, i: nat := 0, 0;
    ghost var done: Bytes := [];
    assert s[0..] == s && done + Substitute(s) == Substitute(s);
    while i < |s| - 1
      invariant start <= i <= |s| && done == result + s[start..i]
      invariant Substitute(s) == done + Substitute(s[i..])
      decreases |s| - i
    {
      SubstituteStep(s, i);
      if s[i] == BACKSLASH {
        result := result + s[start..i];
        i := i + 1;
        var (c, n) := Unescape(s[i..]);
        result := result + c;
        i := i + n;
        start := i;
        Assoc(done, c, Substitute(s[i..]));
        done := result;
      } else {
        Assoc(done, [s[i]], Substitute(s[i + 1..]));
        assert s[start..i] + [s[i]] == s[start..i + 1];
        done := done + [s[i]];
        i := i + 1;
      }
    }
    SubstituteShort(s[i..]);
    assert s[start..i] + s[i..] == s[start..];
    result := result + s[start..];
  }

  lemma Assoc(a: Bytes, b: Bytes, c: Bytes)
    ensures a + b + c == a + (b + c)
  {
  }

  lemma SubstituteShort(s: Bytes)
    requires |s| < 2
    ensures Substitute(s) == s
  {
  }

  lemma SubstituteStep(s: Bytes, i: nat)
    requires i + 1 < |s|
    ensures Substitute(s[i..]) ==
            if s[i] == BACKSLASH then var (c, n) := Unescape(s[i + 1..]); c + Substitute(s[i + 1 + n..])
            else [s[i]] + Substitute(s[i + 1..])
  {
    hide Unescape;
    var t := s[i..];
    assert t[1..] == s[i + 1..];
    if s[i] == BACKSLASH {
      var n := Unescape(t[1..]).1;
      assert t[1 + n..] == s[i + 1 + n..];
    }
  }

  // ----- inverse -----

  lemma HexDigits(n: nat)
    requires n < 16
    ensures HexToNum(ToHexChar(n)) == n
  {
  }

  /** Taking out what was put in for one character gives the character back, whatever follows. */
  lemma UnescapeChar(isPrint: Printable, c: byte, rest: Bytes)
    ensures Substitute(EscapeChar(isPrint, c) + rest) == [c] + Substitute(rest)
  {
    var e := EscapeChar(isPrint, c);
    var s := e + rest;
    if |e| == 6 {
      HexDigits(0);
      HexDigits(c / 16);
      HexDigits(c % 16);
      hide ToHexChar, HexToNum;
      assert s[1..][..5] == [LETTER_U, ToHexChar(0), ToHexChar(0), ToHexChar(c / 16), ToHexChar(c % 16)];
      assert Unescape(s[1..]) == ([c], 5);
      assert s[6..] == rest;
    } else if |e| == 2 {
      assert s[1..][0] == e[1];
      assert Unescape(s[1..]) == ([c], 1);
      assert s[2..] == rest;
    } else {
      assert s[1..] == rest;
    }
  }

  /** Reading undoes writing for every byte string, whatever the platform considers printable. */
  lemma {:induction false} SubstituteEscape(isPrint: Printable, s: Bytes)
    ensures Substitute(Escape(isPrint, s)) == s
  {
    hide EscapeChar, Substitute;
    if s == [] {
      NothingToSubstitute();
    } else {
      UnescapeChar(isPrint, s[0], Escape(isPrint, s[1..]));
      SubstituteEscape(isPrint, s[1..]);
    }
  }

  lemma NothingToSubstitute()
    ensures Substitute([]) == []
  {
  }

  /** A string literal: the escaped text in quotes. */
  function Quoted(isPrint: Printable, s: Bytes): Bytes
  {
    [QUOTE] + Escape(isPrint, s) + [QUOTE]
  }

  /** `get_str`: the value of a literal. */
  function GetStr(t: Bytes): (s: Bytes)
    requires |t| >= 2
  {
    Substitute(t[1..|t| - 1])
  }

  lemma GetStrQuoted(isPrint: Printable, s: Bytes)
    ensures GetStr(Quoted(isPrint, s)) == s
  {
    var t := Quoted(isPrint, s);
    assert t[1..|t| - 1] == Escape(isPrint, s);
    SubstituteEscape(isPrint, s);
  }

  /** The place of the first quote that is not behind a backslash of its own. */
  function ClosingQuote(t: Bytes): (n: nat)
    ensures n <= |t|
    decreases |t|
  {
    if t == [] || t[0] == QUOTE then 0
    else if t[0] == BACKSLASH && |t| > 1 then 2 + ClosingQuote(t[2..])
    else 1 + ClosingQuote(t[1..])
  }

  lemma SkipEscapedChar(isPrint: Printable, c: byte, rest: Bytes)
    ensures ClosingQuote(EscapeChar(isPrint, c) + rest) == |EscapeChar(isPrint, c)| + ClosingQuote(rest)
  {
    var e := EscapeChar(isPrint, c);
    var s := e + rest;
    if |e| == 6 {
      assert s[2..] == e[2..] + rest;
      PlainChars(e[2..], rest);
    } else if |e| == 2 {
      assert s[2..] == rest;
    } else {
      assert s[1..] == rest;
    }
  }

  lemma {:induction false} PlainChars(p: Bytes, rest: Bytes)
    requires forall i :: 0 <= i < |p| ==> p[i] != QUOTE && p[i] != BACKSLASH
    ensures ClosingQuote(p + rest) == |p| + ClosingQuote(rest)
  {
    if p == [] {
      assert p + rest == rest;
    } else {
      assert (p + rest)[1..] == p[1..] + rest;
      PlainChars(p[1..], rest);
    }
  }

  /** A literal is not closed early: no quote inside it stands by itself. */
  lemma {:induction false} LiteralEndsAtItsQuote(isPrint: Printable, s: Bytes, rest: Bytes)
    ensures ClosingQuote(Escape(isPrint, s) + [QUOTE] + rest) == |Escape(isPrint, s)|
  {
    hide EscapeChar, ClosingQuote;
    if s == [] {
      assert ([QUOTE] + rest)[0] == QUOTE;
      QuoteIsFound([QUOTE] + rest);
      assert Escape(isPrint, s) + [QUOTE] + rest == [QUOTE] + rest;
    } else {
      var tail := Escape(isPrint, s[1..]) + [QUOTE] + rest;
      assert Escape(isPrint, s) + [QUOTE] + rest == EscapeChar(isPrint, s[0]) + tail;
      SkipEscapedChar(isPrint, s[0], tail);
      LiteralEndsAtItsQuote(isPrint, s[1..], rest);
    }
  }

  lemma QuoteIsFound(t: Bytes)
    requires t != [] && t[0] == QUOTE
    ensures ClosingQuote(t) == 0
  {
  }
}
