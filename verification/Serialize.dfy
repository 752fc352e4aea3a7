/**
 Serialization to and from byte streams (serialize.h). Every format is a pair of functions,
 `Put...` and `Get...`; the stream methods are proved against them.
 */
module Serialize {
  import opened Bytes
  import opened Wrappers

  type u32 = x: int | 0 <= x < 0x1_0000_0000
  type i32 = x: int | -0x8000_0000 <= x < 0x8000_0000
  type i64 = x: int | -0x8000_0000_0000_0000 <= x < 0x8000_0000_0000_0000

  /** The largest size field a reader accepts. */
  const MAX_SIZE := 0x0200_0000
  const TWO_31: nat := 0x8000_0000
  const TWO_32: nat := 0x1_0000_0000
  const TWO_64: nat := 0x1_0000_0000_0000_0000

  /** How a reader behaves: the largest size it accepts, and whether a short read throws or fills up with zeros. */
  datatype Mode = Mode(limit: nat, strict: bool)

  /** What a reader comes to: a value and the bytes behind it, or an exception and the bytes the stream still holds then. */
  datatype Parse<+T> = Done(value: T, rest: Bytes) | Thrown(rest: Bytes)

  // ----- fixed-width integers -----

  function Zeros(n: nat): (b: Bytes)
    ensures |b| == n && forall i :: 0 <= i < n ==> b[i] == 0
  {
    seq(n, i => 0)
  }

  function GetRaw(mode: Mode, n: nat, s: Bytes): (r: Parse<Bytes>)
    ensures r.Done? ==> |r.value| == n
    ensures n <= |s| ==> r.Done? && s == r.value + r.rest
    ensures |r.rest| <= |s|
  {
    if n <= |s| then Done(s[..n], s[n..])
    else if mode.strict then Thrown(s)
    else Done(s + Zeros(n - |s|), [])
  }

  lemma GetRawAfter(mode: Mode, b: Bytes, rest: Bytes)
    ensures GetRaw(mode, |b|, b + rest) == Done(b, rest)
  {
    assert (b + rest)[..|b|] == b && (b + rest)[|b|..] == rest;
  }

  function PutU32(n: u32): (b: Bytes)
    ensures |b| == 4
  {
    ToLE(n, 4)
  }

  function GetU32(mode: Mode, s: Bytes): (r: Parse<u32>)
    ensures |r.rest| <= |s|
  {
    match GetRaw(mode, 4, s)
    case Thrown(rest) => Thrown(rest)
    case Done(b, rest) =>
      assert FromLE(b) < 0x1_0000_0000 by { FromLEBound(b); Spans(); }
      Done(FromLE(b), rest)
  }

  lemma GetPutU32(mode: Mode, n: u32, rest: Bytes)
    ensures GetU32(mode, PutU32(n) + rest) == Done(n, rest)
  {
    GetRawAfter(mode, PutU32(n), rest);
    Spans();
    FromToLEFits(n, 4);
  }

  /** Two's complement in `width` bytes. */
  function PutSigned(n: int, width: nat): (b: Bytes)
    requires n + Span(width) >= 0
    ensures |b| == width
  {
    ToLE(if n < 0 then n + Span(width) else n, width)
  }

  function FromSigned(b: Bytes): int
  {
    var n := FromLE(b);
    if 2 * n >= Span(|b|) then n - Span(|b|) else n
  }

  lemma FromPutSigned(n: int, width: nat)
    requires 2 * n + Span(width) >= 0 && 2 * n < Span(width)
    ensures FromSigned(PutSigned(n, width)) == n
  {
    FromToLEFits(if n < 0 then n + Span(width) else n, width);
  }

  function PutI32(n: i32): (b: Bytes)
    ensures |b| == 4
  {
    assert Span(4) == 0x1_0000_0000 by { Spans(); }
    PutSigned(n, 4)
  }

  function GetI32(mode: Mode, s: Bytes): (r: Parse<i32>)
    ensures |r.rest| <= |s|
  {
    match GetRaw(mode, 4, s)
    case Thrown(rest) => Thrown(rest)
    case Done(b, rest) =>
      assert FromLE(b) < 0x1_0000_0000 by { FromLEBound(b); Spans(); }
      assert Span(4) == 0x1_0000_0000 by { Spans(); }
      Done(FromSigned(b), rest)
  }

  lemma GetPutI32(mode: Mode, n: i32, rest: Bytes)
    ensures GetI32(mode, PutI32(n) + rest) == Done(n, rest)
  {
    GetRawAfter(mode, PutI32(n), rest);
    Spans();
    FromPutSigned(n, 4);
  }

  function PutI64(n: i64): (b: Bytes)
    ensures |b| == 8
  {
    assert Span(8) == TWO_64 by { Spans(); }
    PutSigned(n, 8)
  }

  function GetI64(mode: Mode, s: Bytes): (r: Parse<i64>)
    ensures |r.rest| <= |s|
  {
    match GetRaw(mode, 8, s)
    case Thrown(rest) => Thrown(rest)
    case Done(b, rest) =>
      assert FromLE(b) < TWO_64 by { FromLEBound(b); Spans(); }
      assert Span(8) == TWO_64 by { Spans(); }
      Done(FromSigned(b), rest)
  }

  lemma GetPutI64(mode: Mode, n: i64, rest: Bytes)
    ensures GetI64(mode, PutI64(n) + rest) == Done(n, rest)
  {
    GetRawAfter(mode, PutI64(n), rest);
    Spans();
    FromPutSigned(n, 8);
  }

  // ----- compact sizes (serialize.h:173-245) -----

  /** The argument is an unsigned 64-bit integer in the source; the last case cuts it to that width. */
  function PutSize(n: nat): (b: Bytes)
  {
    if n < 253 then [n]
    else if n <= 0xffff then [253] + ToLE(n, 2)
    else if n <= 0xffff_ffff then [254] + ToLE(n, 4)
    else [255] + ToLE(n, 8)
  }

  function SizeWidth(first: byte): (w: nat)
    ensures w <= 8
  {
    if first < 253 then 0 else if first == 253 then 2 else if first == 254 then 4 else 8
  }

  /** The limit is MAX_SIZE in the source, and beyond it a reader throws in either mode. */
  function GetSize(mode: Mode, s: Bytes): (r: Parse<nat>)
    ensures r.Done? ==> r.value <= mode.limit
    ensures |r.rest| <= |s|
  {
    match GetRaw(mode, 1, s)
    case Thrown(rest) => Thrown(rest)
    case Done(first, s1) =>
      match GetRaw(mode, SizeWidth(first[0]), s1)
      case Thrown(rest) => Thrown(rest)
      case Done(b, rest) =>
        var n := if first[0] < 253 then first[0] else FromLE(b);
        if n > mode.limit then Thrown(rest) else Done(n, rest)
  }

  /** `GetSizeOfCompactSize`. */
  function SizeOfSize(n: nat): (w: nat)
  {
    if n < 253 then 1 else if n <= 0xffff then 3 else if n <= 0xffff_ffff then 5 else 9
  }

  lemma SizeOfSizeIsWritten(n: nat)
    ensures SizeOfSize(n) == |PutSize(n)|
  {
  }

  /** A size reads back exactly when it is within the limit; otherwise the reader throws behind it. */
  lemma GetPutSize(mode: Mode, n: nat, rest: Bytes)
    requires n < TWO_64
    ensures GetSize(mode, PutSize(n) + rest) == if n <= mode.limit then Done(n, rest) else Thrown(rest)
  {
    hide FromLE, ToLE;
    var s := PutSize(n) + rest;
    GetRawAfter(mode, [s[0]], s[1..]);
    assert s == [s[0]] + s[1..];
    if n < 253 {
      assert s[1..] == rest && [] + rest == rest;
      GetRawAfter(mode, [], rest);
    } else {
      var w := SizeWidth(s[0]);
      Spans();
      FromToLEFits(n, w);
      assert s[1..] == ToLE(n, w) + rest;
      GetRawAfter(mode, ToLE(n, w), rest);
    }
  }

  // ----- vectors (serialize.h:395-478) -----

  /** `vector<unsigned char>`, also the form of a script. */
  function PutBytes(b: Bytes): (s: Bytes)
  {
    PutSize(|b|) + b
  }

  /** Byte vectors are read in blocks, so that a wrong size does not exhaust the memory. */
  const BLOCK: nat := 1 + 4999999

  /** What reading in blocks comes to: the same as one read, except that it throws at the start of the block that falls short. */
  function GetBlocks(mode: Mode, n: nat, s: Bytes): (r: Parse<Bytes>)
    ensures r.Done? ==> r == GetRaw(mode, n, s)
    ensures |r.rest| <= |s|
  {
    if mode.strict && |s| < n then Thrown(s[|s| / BLOCK * BLOCK..]) else GetRaw(mode, n, s)
  }

  /** The blocks are of 5,000,000 bytes. */
  lemma ShortBlocks(limit: nat, n: nat, s: Bytes)
    requires |s| < n
    ensures GetBlocks(Mode(limit, true), n, s) == Thrown(s[|s| / 5_000_000 * 5_000_000..])
  {
  }

  function GetBytes(mode: Mode, s: Bytes): (r: Parse<Bytes>)
    ensures r.Done? ==> |r.value| <= mode.limit
    ensures |r.rest| <= |s|
  {
    match GetSize(mode, s)
    case Thrown(rest) => Thrown(rest)
    case Done(n, rest) => GetBlocks(mode, n, rest)
  }

  lemma GetPutBytes(mode: Mode, b: Bytes, rest: Bytes)
    requires |b| < TWO_64 && |b| <= mode.limit
    ensures GetBytes(mode, PutBytes(b) + rest) == Done(b, rest)
  {
    hide GetSize, PutSize, GetRaw;
    GetPutSize(mode, |b|, b + rest);
    assert PutBytes(b) + rest == PutSize(|b|) + (b + rest);
    GetRawAfter(mode, b, rest);
  }

  /** The elements of a vector, one after the other. */
  function PutAll<T>(put: T -> Bytes, v: seq<T>): (s: Bytes)
  {
    if v == [] then [] else put(v[0]) + PutAll(put, v[1..])
  }

  function GetAll<T>(get: Bytes -> Parse<T>, n: nat, s: Bytes): (r: Parse<seq<T>>)
    ensures r.Done? ==> |r.value| == n
    decreases n
  {
    if n == 0 then Done([], s)
    else
      match get(s)
      case Thrown(rest) => Thrown(rest)
      case Done(x, rest) =>
        match GetAll(get, n - 1, rest)
        case Thrown(left) => Thrown(left)
        case Done(xs, left) => Done([x] + xs, left)
  }

  function PutVector<T>(put: T -> Bytes, v: seq<T>): (s: Bytes)
  {
    PutSize(|v|) + PutAll(put, v)
  }

  function GetVector<T>(mode: Mode, get: Bytes -> Parse<T>, s: Bytes): (r: Parse<seq<T>>)
    ensures r.Done? ==> |r.value| <= mode.limit
  {
    match GetSize(mode, s)
    case Thrown(rest) => Thrown(rest)
    case Done(n, rest) => GetAll(get, n, rest)
  }

  /** `get` undoes `put` on every element of `v`, whatever follows. */
  ghost predicate Undoes<T>(put: T -> Bytes, get: Bytes -> Parse<T>, v: seq<T>)
  {
    forall i, rest: Bytes :: 0 <= i < |v| ==> get(put(v[i]) + rest) == Done(v[i], rest)
  }

  lemma {:induction false} GetPutAll<T>(put: T -> Bytes, get: Bytes -> Parse<T>, v: seq<T>, rest: Bytes)
    requires Undoes(put, get, v)
    ensures GetAll(get, |v|, PutAll(put, v) + rest) == Done(v, rest)
    decreases |v|
  {
    if v == [] {
      assert [] + rest == rest;
    } else {
      UndoesTail(put, get, v);
      GetPutAll(put, get, v[1..], rest);
      var tail := PutAll(put, v[1..]) + rest;
      assert PutAll(put, v) + rest == put(v[0]) + tail;
      assert get(put(v[0]) + tail) == Done(v[0], tail);
      assert [v[0]] + v[1..] == v;
    }
  }

  lemma UndoesTail<T>(put: T -> Bytes, get: Bytes -> Parse<T>, v: seq<T>)
    requires Undoes(put, get, v) && v != []
    ensures Undoes(put, get, v[1..])
  {
    forall i, r: Bytes | 0 <= i < |v| - 1
      ensures get(put(v[1..][i]) + r) == Done(v[1..][i], r)
    {
      assert v[1..][i] == v[i + 1];
    }
  }

  /** Vectors whose elements read back, read back. */
  lemma GetPutVector<T>(mode: Mode, put: T -> Bytes, get: Bytes -> Parse<T>, v: seq<T>, rest: Bytes)
    requires Undoes(put, get, v) && |v| < TWO_64 && |v| <= mode.limit
    ensures GetVector(mode, get, PutVector(put, v) + rest) == Done(v, rest)
  {
    hide GetSize, PutSize;
    GetPutSize(mode, |v|, PutAll(put, v) + rest);
    assert PutVector(put, v) + rest == PutSize(|v|) + (PutAll(put, v) + rest);
    GetPutAll(put, get, v, rest);
  }

  lemma {:induction false} PutAllSnoc<T>(put: T -> Bytes, v: seq<T>, x: T)
    ensures PutAll(put, v + [x]) == PutAll(put, v) + put(x)
    decreases |v|
  {
    if v == [] {
      assert [x][1..] == [];
      assert put(x) + [] == put(x);
    } else {
      assert (v + [x])[1..] == v[1..] + [x];
      PutAllSnoc(put, v[1..], x);
    }
  }

  /** The format takes bytes from the front only. */
  ghost predicate Consumes<T>(get: Bytes -> Parse<T>)
  {
    forall s: Bytes :: |get(s).rest| <= |s|
  }

  lemma {:induction false} AllConsume<T>(get: Bytes -> Parse<T>, n: nat, s: Bytes)
    requires Consumes(get)
    ensures |GetAll(get, n, s).rest| <= |s|
    decreases n
  {
    if n > 0 && get(s).Done? {
      AllConsume(get, n - 1, get(s).rest);
    }
  }

  /** `v` has been read already; `o` is what comes of the rest. */
  function Prefixed<T>(v: seq<T>, o: Parse<seq<T>>): Parse<seq<T>>
  {
    match o
    case Thrown(rest) => Thrown(rest)
    case Done(xs, rest) => Done(v + xs, rest)
  }

  /** Of `n` elements `v` has been read, and `s` is left; all of them together come to `all`. */
  ghost predicate Reading<T>(all: Parse<seq<T>>, get: Bytes -> Parse<T>, n: nat, v: seq<T>, s: Bytes)
  {
    |v| <= n && all == Prefixed(v, GetAll(get, n - |v|, s))
  }

  lemma ReadingStarts<T>(get: Bytes -> Parse<T>, n: nat, s: Bytes)
    ensures Reading(GetAll(get, n, s), get, n, [], s)
  {
    match GetAll(get, n, s)
    case Thrown(_) =>
    case Done(xs, _) => assert [] + xs == xs;
  }

  /** One more element. If the last one stays below 4 GiB, so does this one. */
  lemma ReadingGoesOn<T>(all: Parse<seq<T>>, get: Bytes -> Parse<T>, n: nat, v: seq<T>, s: Bytes, end: nat, mode: Mode)
    requires Reading(all, get, n, v, s) && |v| < n
    ensures get(s).Done? ==> Reading(all, get, n, v + [get(s).value], get(s).rest)
    ensures get(s).Thrown? ==> all == Thrown(get(s).rest)
    ensures Consumes(get) && Fits(end, mode, all) ==> Fits(end, mode, get(s))
  {
    match get(s)
    case Thrown(_) =>
    case Done(x, rest) =>
      if Consumes(get) {
        AllConsume(get, n - |v| - 1, rest);
      }
      match GetAll(get, n - |v| - 1, rest)
      case Thrown(_) =>
      case Done(xs, _) => assert v + ([x] + xs) == v + [x] + xs;
  }

  lemma ReadingEnds<T>(all: Parse<seq<T>>, get: Bytes -> Parse<T>, n: nat, v: seq<T>, s: Bytes)
    requires Reading(all, get, n, v, s) && |v| == n
    ensures all == Done(v, s)
  {
    assert v + [] == v;
  }

  // ----- the stream (serialize.h:715-983) -----

  /** What a read of the stream comes to. `Overrun`: it has copied from beyond the end of the buffer. */
  datatype ReadResult = Got(bytes: Bytes) | Threw | Overrun

  /**
   No read up to where `p` ends takes the position in a buffer of `end` bytes beyond 32 bits. The
   last read is known to end where `p` does if it was not short; otherwise it may be as long as a block.
   */
  predicate Fits<T>(end: nat, mode: Mode, p: Parse<T>)
  {
    end - |p.rest| + (if p.Done? && (mode.strict || p.rest != []) then 0 else BLOCK) < TWO_32
  }

  /** What reading does to the buffer: nothing, or it is cleared at the end, which the position has to reach. */
  predicate Spent(before: Bytes, after: Bytes)
  {
    after == before || (after == [] && |before| < TWO_32)
  }

  /** A byte queue kept as a vector and a read position. Reading to the end clears the vector. */
  class DataStream {
    var vch: Bytes
    var nReadPos: nat
    var failed: bool
    /** Whether a short read throws, as it does unless the mask has been changed. */
    var throwing: bool

    ghost predicate Valid()
      reads this
    {
      nReadPos <= |vch| && nReadPos < TWO_32
    }

    /** The unread bytes. */
    ghost function Contents(): (s: Bytes)
      reads this
      requires Valid()
    {
      vch[nReadPos..]
    }

    /** The way the stream reads. */
    ghost function Way(): Mode
      reads this
    {
      Mode(MAX_SIZE, throwing)
    }

    /** The stream is where `p` says, and `r` is its value or nothing. */
    ghost predicate Follows<T>(p: Parse<T>, r: Option<T>)
      reads this
      requires Valid()
    {
      Contents() == p.rest && r == if p.Done? then Some(p.value) else None
    }

    constructor (bytes: Bytes)
      ensures Valid() && Contents() == bytes && vch == bytes && throwing && !failed
    {
      vch, nReadPos, failed, throwing := bytes, 0, false, true;
    }

    /** The size is a signed integer in the source, which asserts that it is not negative. */
    method Write(b: Bytes)
      requires Valid() && |b| < 0x8000_0000
      modifies this`vch
      ensures Valid() && Contents() == old(Contents()) + b
    {
      vch := vch + b;
      assert vch[nReadPos..] == old(vch[nReadPos..]) + b;
    }

    /**
     As long as the sum of position and size fits 32 bits: the bytes at the front, or a failure that
     changes nothing, or with exceptions masked what is left followed by zeros. When the sum wraps
     around, the read either hands out the right bytes and moves the position back, so that they are
     not consumed, or copies from beyond the buffer.
     */
    method Read(n: nat) returns (r: ReadResult)
      requires Valid() && n < 0x8000_0000
      modifies this
      ensures Valid() && throwing == old(throwing) && Spent(old(vch), vch)
      ensures old(nReadPos) + n < 0x1_0000_0000 ==>
        && Follows(GetRaw(Way(), n, old(Contents())), if r.Got? then Some(r.bytes) else None) && !r.Overrun?
        && failed == (old(failed) || n > |old(Contents())|)
      ensures old(nReadPos) + n >= 0x1_0000_0000 && n <= |old(Contents())| ==>
        r == Got(old(Contents())[..n]) && |Contents()| == |old(Contents())| - n + 0x1_0000_0000
      ensures old(nReadPos) + n >= 0x1_0000_0000 && n > |old(Contents())| ==> r == Overrun
    {
      hide Zeros;
      var next := Wrap32(nReadPos + n);
      if next >= |vch| {
        var got := n;
        if next > |vch| {
          failed := true;
          if throwing {
            return Threw;
          }
          got := |vch| - nReadPos;
        }
        r := Got(vch[nReadPos..nReadPos + got] + Zeros(n - got));
        RawToTheEnd(Way(), n, vch, nReadPos);
        nReadPos := 0;
        vch := [];
        return;
      }
      if nReadPos + n > |vch| {
        r := Overrun;
      } else {
        r := Got(vch[nReadPos..nReadPos + n]);
        RawInside(Way(), n, vch, nReadPos);
      }
      nReadPos := next;
    }

    /** Drop what has been read. */
    method Compact()
      requires Valid()
      modifies this
      ensures Valid() && Contents() == old(Contents()) && nReadPos == 0
      ensures throwing == old(throwing) && failed == old(failed)
    {
      vch := vch[nReadPos..];
      nReadPos := 0;
    }

    /** Step back over bytes already read; this can only be refused once they are gone. */
    method Rewind(n: nat) returns (ok: bool)
      requires Valid()
      modifies this`nReadPos
      ensures Valid() && ok == (n <= old(nReadPos))
      ensures ok ==> |Contents()| == |old(Contents())| + n && Contents()[n..] == old(Contents())
      ensures !ok ==> Contents() == old(Contents())
    {
      if n > nReadPos {
        return false;
      }
      nReadPos := nReadPos - n;
      assert vch[nReadPos..][n..] == old(vch[nReadPos..]);
      return true;
    }

    // ----- one format each -----

    /** A read of at most a block, as the format functions see it; what an overrun brings is anybody's guess. */
    method Take(n: nat) returns (r: Option<Bytes>)
      requires Valid() && n <= BLOCK
      modifies this
      ensures Valid() && throwing == old(throwing) && Spent(old(vch), vch)
      ensures r.Some? ==> |r.value| == n
      ensures Fits(old(|vch|), Way(), GetRaw(Way(), n, old(Contents()))) ==> Follows(GetRaw(Way(), n, old(Contents())), r)
    {
      var got := Read(n);
      match got
      case Got(b) => r := if |b| == n then Some(b) else None;
      case _ => r := None;
    }

    method WriteCompactSize(n: nat)
      requires Valid()
      modifies this`vch
      ensures Valid() && Contents() == old(Contents()) + PutSize(n)
    {
      hide ToLE;
      if n < 253 {
        Write([n]);
      } else if n <= 0xffff {
        WritePair([253], ToLE(n, 2));
      } else if n <= 0xffff_ffff {
        WritePair([254], ToLE(n, 4));
      } else {
        WritePair([255], ToLE(n, 8));
      }
    }

    method WritePair(a: Bytes, b: Bytes)
      requires Valid() && |a| < TWO_31 && |b| < TWO_31
      modifies this`vch
      ensures Valid() && Contents() == old(Contents()) + (a + b)
    {
      Write(a);
      Write(b);
    }

    method ReadCompactSize() returns (r: Option<nat>)
      requires Valid()
      modifies this
      ensures Valid() && throwing == old(throwing) && Spent(old(vch), vch)
      ensures r.Some? ==> r.value <= 0x0200_0000
      ensures Fits(old(|vch|), Way(), GetSize(Way(), old(Contents()))) ==> Follows(GetSize(Way(), old(Contents())), r)
    {
      hide FromLE, GetRaw, Fits, Contents;
      ghost var end, way, s := |vch|, Way(), Contents();
      ghost var fits := Fits(end, way, GetSize(way, s));
      if fits {
        SizeFits(end, way, s);
      }
      var first := Take(1);
      if first.None? {
        return None;
      }
      var size: nat := first.value[0];
      if size >= 253 {
        if fits {
          FitsLess(end, |vch|, way, GetRaw(way, SizeWidth(first.value[0]), Contents()));
        }
        var field := Take(SizeWidth(first.value[0]));
        if field.None? {
          return None;
        }
        size := FromLE(field.value);
      } else {
        NoField(Way(), Contents());
      }
      if size > MAX_SIZE {
        return None;
      }
      r := Some(size);
    }

    /** A byte vector read in blocks of at most 5,000,000: the same as reading it in one go. */
    method ReadBytes() returns (r: Option<Bytes>)
      requires Valid()
      modifies this
      ensures Valid() && throwing == old(throwing) && Spent(old(vch), vch)
      ensures Fits(old(|vch|), Way(), GetBytes(Way(), old(Contents()))) ==> Follows(GetBytes(Way(), old(Contents())), r)
    {
      hide GetSize, GetRaw, GetBlocks, InBlocks, Fits, Contents;
      var v: Bytes := [];
      ghost var way, end := Way(), |vch|;
      ghost var fits := Fits(end, way, GetBytes(way, Contents()));
      if fits {
        BytesFit(end, way, Contents());
      }
      var size := ReadCompactSize();
      if size.None? {
        return None;
      }
      ghost var s := Contents();
      var i: nat := 0;
      BlocksStart(way, s);
      while i < size.value
        invariant Valid() && Way() == way && Spent(old(vch), vch) && i <= size.value
        invariant fits ==> InBlocks(way, s, size.value, i, v, Contents())
      {
        var left := size.value - i;
        var blk := if left < BLOCK then left else BLOCK;
        if fits {
          NextBlock(way, s, size.value, i, v, Contents());
          BlockFits(end, way, s, size.value, i, v, Contents());
          FitsLess(end, |vch|, way, GetRaw(way, blk, Contents()));
        }
        var part := Take(blk);
        if part.None? {
          return None;
        }
        v := v + part.value;
        i := i + blk;
      }
      if fits {
        BlocksEnd(way, s, size.value, v, Contents());
      }
      r := Some(v);
    }
  }

  /** The sum of two unsigned 32-bit numbers, or of one and a nonnegative signed one. */
  function Wrap32(n: nat): (w: nat)
    requires n < 2 * TWO_32
    ensures w == n % TWO_32
  {
    if n < TWO_32 then n else n - TWO_32
  }

  lemma FitsLess<T>(end: nat, less: nat, mode: Mode, p: Parse<T>)
    requires Fits(end, mode, p) && less <= end
    ensures Fits(less, mode, p)
  {
  }

  /** A size that stays below 4 GiB has both its parts there. */
  lemma SizeFits(end: nat, mode: Mode, s: Bytes)
    requires Fits(end, mode, GetSize(mode, s))
    ensures var first := GetRaw(mode, 1, s);
            && Fits(end, mode, first)
            && (first.Done? ==> Fits(end, mode, GetRaw(mode, SizeWidth(first.value[0]), first.rest)))
  {
    hide GetRaw, FromLE;
  }

  /** And a byte vector. */
  lemma BytesFit(end: nat, mode: Mode, s: Bytes)
    requires Fits(end, mode, GetBytes(mode, s))
    ensures var size := GetSize(mode, s);
            Fits(end, mode, size) && (size.Done? ==> Fits(end, mode, GetBlocks(mode, size.value, size.rest)))
  {
    hide GetSize, GetBlocks;
  }

  lemma NoField(mode: Mode, s: Bytes)
    ensures GetRaw(mode, 0, s) == Done([], s)
  {
    assert s[..0] == [] && s[0..] == s;
  }

  /** A read that empties the buffer. */
  lemma RawToTheEnd(mode: Mode, n: nat, v: Bytes, i: nat)
    requires i <= |v| <= i + n
    ensures |v| == i + n ==> GetRaw(mode, n, v[i..]) == Done(v[i..i + n] + Zeros(0), [])
    ensures |v| < i + n && !mode.strict ==>
      GetRaw(mode, n, v[i..]) == Done(v[i..i + (|v| - i)] + Zeros(n - (|v| - i)), [])
  {
    assert v[i..i + (|v| - i)] == v[i..];
    assert v[i..] + Zeros(0) == v[i..];
    assert |v| == i + n ==> v[i..][..n] == v[i..] && v[i..][n..] == [];
  }

  /** A read that stays inside the buffer. */
  lemma RawInside(mode: Mode, n: nat, v: Bytes, i: nat)
    requires i + n <= |v|
    ensures GetRaw(mode, n, v[i..]) == Done(v[i..i + n], v[i + n..])
    ensures v[i..][..n] == v[i..i + n]
  {
    assert v[i..][..n] == v[i..i + n] && v[i..][n..] == v[i + n..];
  }

  /**
   The condition cannot be done without: a stream that has read a value and stands where the
   format says has a position below 4 GiB.
   */
  lemma FollowingFits<T>(s: DataStream, before: Bytes, mode: Mode, p: Parse<T>, r: Option<T>)
    requires s.Valid() && Spent(before, s.vch) && s.Follows(p, r)
    requires r.Some? && (mode.strict || p.rest != [])
    ensures Fits(|before|, mode, p)
  {
  }

  // ----- reading in blocks -----

  /** `i` of `n` bytes have been read from `s` into `v`, block by block, and `left` is what is left. */
  ghost predicate InBlocks(mode: Mode, s: Bytes, n: nat, i: nat, v: Bytes, left: Bytes)
  {
    && i <= n && (i % BLOCK == 0 || i == n)
    && GetRaw(mode, i, s) == Done(v, left)
  }

  lemma BlocksStart(mode: Mode, s: Bytes)
    ensures forall n: nat :: InBlocks(mode, s, n, 0, [], s)
  {
    assert s[..0] == [] && s[0..] == s;
  }

  /** One more block. */
  lemma NextBlock(mode: Mode, s: Bytes, n: nat, i: nat, v: Bytes, left: Bytes)
    requires InBlocks(mode, s, n, i, v, left) && i < n
    ensures var blk := if n - i < BLOCK then n - i else BLOCK;
            match GetRaw(mode, blk, left)
            case Thrown(rest) => GetBlocks(mode, n, s) == Thrown(rest)
            case Done(b, rest) => InBlocks(mode, s, n, i + blk, v + b, rest)
  {
    var blk := if n - i < BLOCK then n - i else BLOCK;
    if i <= |s| {
      assert left == s[i..] && v == s[..i];
      if i + blk <= |s| {
        assert s[..i] + s[i..][..blk] == s[..i + blk] && s[i..][blk..] == s[i + blk..];
      } else if mode.strict {
        BlockStart(|s|, i);
        assert s[i..][0..] == s[i..];
      } else {
        assert s[..i] + (s[i..] + Zeros(blk - |left|)) == s + Zeros(i + blk - |s|);
      }
    } else {
      assert s + Zeros(i - |s|) + ([] + Zeros(blk)) == s + Zeros(i + blk - |s|);
    }
  }

  /** Each block stays below 4 GiB if the last one does. */
  lemma BlockFits(end: nat, mode: Mode, s: Bytes, n: nat, i: nat, v: Bytes, left: Bytes)
    requires InBlocks(mode, s, n, i, v, left) && i < n && Fits(end, mode, GetBlocks(mode, n, s))
    ensures Fits(end, mode, GetRaw(mode, if n - i < BLOCK then n - i else BLOCK, left))
  {
    var blk := if n - i < BLOCK then n - i else BLOCK;
    NextBlock(mode, s, n, i, v, left);
    assert i <= |s| ==> |left| == |s| - i;
    assert mode.strict && |s| < n && i + blk <= |s| ==> |s| / BLOCK * BLOCK >= i + blk by { LastStart(|s|, n, i); }
  }

  lemma LastStart(size: nat, n: nat, i: nat)
    requires i % BLOCK == 0
    ensures size < n && i + BLOCK <= size ==> size / BLOCK * BLOCK >= i + BLOCK
  {
  }

  /** The block that falls short starts at the last multiple of the block size. */
  lemma BlockStart(size: nat, i: nat)
    requires i % BLOCK == 0 && i <= size < i + BLOCK
    ensures size / BLOCK * BLOCK == i
  {
  }

  lemma BlocksEnd(mode: Mode, s: Bytes, n: nat, v: Bytes, left: Bytes)
    requires InBlocks(mode, s, n, n, v, left)
    ensures GetBlocks(mode, n, s) == Done(v, left)
  {
  }
}
