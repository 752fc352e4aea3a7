/**
 Scripts as byte strings: reading one instruction, pushing data, deleting an embedded
 instruction. The theorems relate the byte-level loops to the list of instructions that a
 script spells out.
 */
module ScriptBytes {
  import opened Bytes
  import opened BigNum
  import opened Wrappers

  const OP_PUSHDATA1 := 0x4c
  const OP_PUSHDATA2 := 0x4d
  const OP_PUSHDATA4 := 0x4e
  const OP_1NEGATE := 0x4f
  const OP_RESERVED := 0x50
  const OP_1 := 0x51
  const OP_16 := 0x60

  /** One instruction: its opcode, its immediate operand, and the number of bytes it takes. */
  datatype Instr = Instr(opcode: byte, data: Bytes, size: nat)

  /** Bytes of the length field that follows a push opcode. */
  function LengthWidth(opcode: byte): (w: nat)
    ensures w <= 4
  {
    if opcode == OP_PUSHDATA1 then 1
    else if opcode == OP_PUSHDATA2 then 2
    else if opcode == OP_PUSHDATA4 then 4
    else 0
  }

  /** `GetOp2` (script.h:416) at the start of `s`. */
  function GetOp(s: Bytes): (r: Option<Instr>)
    ensures r.Some? ==> 0 < r.value.size <= |s| && r.value.opcode == s[0]
    ensures r.Some? ==> |r.value.data| < r.value.size
  {
    if s == [] then None
    else
      var opcode := s[0];
      if opcode > OP_PUSHDATA4 then Some(Instr(opcode, [], 1))
      else
        var w := LengthWidth(opcode);
        if |s| < 1 + w then None
        else
          var n := if opcode < OP_PUSHDATA1 then opcode else FromLE(s[1..1 + w]);
          if |s| - 1 - w < n then None
          else Some(Instr(opcode, s[1 + w..1 + w + n], 1 + w + n))
  }

  /** The bytes of an instruction at the start of `s` decide it: whatever follows them does not matter. */
  lemma GetOpLocal(x: Bytes, y: Bytes)
    requires GetOp(x).Some?
    ensures GetOp(x + y) == GetOp(x)
  {
    hide FromLE;
    var s, i := x + y, GetOp(x).value;
    var w := LengthWidth(x[0]);
    if x[0] <= OP_PUSHDATA4 {
      SliceOfPrefix(x, y, 1, 1 + w);
      SliceOfPrefix(x, y, 1 + w, i.size);
    }
  }

  lemma SliceOfPrefix(x: Bytes, y: Bytes, i: nat, j: nat)
    requires i <= j <= |x|
    ensures (x + y)[i..j] == x[i..j]
  {
  }

  lemma GetOpPrefix(s: Bytes, y: Bytes)
    requires GetOp(s).Some?
    ensures GetOp(s[..GetOp(s).value.size] + y) == GetOp(s)
  {
    hide FromLE;
    var n := GetOp(s).value.size;
    GetOpCut(s);
    GetOpLocal(s[..n], y);
    hide GetOp;
  }

  lemma GetOpCut(s: Bytes)
    requires GetOp(s).Some?
    ensures GetOp(s[..GetOp(s).value.size]) == GetOp(s)
  {
    hide FromLE;
    var n, w := GetOp(s).value.size, LengthWidth(s[0]);
    if s[0] <= OP_PUSHDATA4 {
      CutSlice(s, n, 1, 1 + w);
      CutSlice(s, n, 1 + w, n);
    }
  }

  lemma CutSlice(s: Bytes, n: nat, i: nat, j: nat)
    requires i <= j <= n <= |s|
    ensures s[..n][i..j] == s[i..j]
  {
  }

  // ----- scripts as lists of instructions -----

  /** The instructions of a script up to its end or its first malformed byte, each as its own bytes. */
  function Instructions(s: Bytes): (r: seq<Bytes>)
    ensures forall k :: 0 <= k < |r| ==> r[k] != []
    decreases |s|
  {
    match GetOp(s)
    case None => []
    case Some(i) => [s[..i.size]] + Instructions(s[i.size..])
  }

  /** What is left when the next instruction cannot be read: empty for a well-formed script. */
  function Tail(s: Bytes): (t: Bytes)
    ensures GetOp(t).None?
    decreases |s|
  {
    match GetOp(s)
    case None => s
    case Some(i) => Tail(s[i.size..])
  }

  function Flatten(parts: seq<Bytes>): (s: Bytes)
  {
    if parts == [] then [] else parts[0] + Flatten(parts[1..])
  }

  /** `b` is the bytes of exactly one instruction. */
  predicate IsInstruction(b: Bytes)
  {
    GetOp(b).Some? && GetOp(b).value.size == |b|
  }

  /** A script is its instructions, laid end to end, and its tail. */
  lemma InstructionsSound(s: Bytes)
    ensures s == Flatten(Instructions(s)) + Tail(s)
    ensures forall k :: 0 <= k < |Instructions(s)| ==> IsInstruction(Instructions(s)[k])
  {
    InstructionsSpell(s);
    InstructionsAreSingle(s);
  }

  lemma {:induction false} InstructionsSpell(s: Bytes)
    ensures s == Flatten(Instructions(s)) + Tail(s)
    decreases |s|
  {
    hide GetOp, Instructions, Tail, Flatten;
    match GetOp(s)
    case None =>
      Unreadable(s);
    case Some(i) =>
      var first, rest := s[..i.size], s[i.size..];
      InstructionsCons(s);
      InstructionsSpell(rest);
      FlattenCons(first, Instructions(rest));
      Assoc(first, Flatten(Instructions(rest)), Tail(rest));
      assert s == first + rest;
  }

  lemma Unreadable(s: Bytes)
    requires GetOp(s).None?
    ensures Flatten(Instructions(s)) == [] && Tail(s) == s
  {
  }

  lemma InstructionsCons(s: Bytes)
    requires GetOp(s).Some?
    ensures var n := GetOp(s).value.size;
            Instructions(s) == [s[..n]] + Instructions(s[n..]) && Tail(s) == Tail(s[n..])
  {
    hide GetOp;
  }

  lemma Assoc(a: Bytes, b: Bytes, c: Bytes)
    ensures a + b + c == a + (b + c)
  {
  }

  lemma {:induction false} InstructionsAreSingle(s: Bytes)
    ensures forall k :: 0 <= k < |Instructions(s)| ==> IsInstruction(Instructions(s)[k])
    decreases |s|
  {
    hide GetOp;
    match GetOp(s)
    case None =>
    case Some(i) =>
      GetOpPrefix(s, []);
      assert s[..i.size] + [] == s[..i.size];
      InstructionsAreSingle(s[i.size..]);
  }

  lemma FlattenCons(first: Bytes, parts: seq<Bytes>)
    ensures Flatten([first] + parts) == first + Flatten(parts)
  {
    assert ([first] + parts)[1..] == parts;
  }

  /** Instructions laid end to end, then a tail that is none, decode to themselves. */
  lemma {:induction false} FlattenDecodes(parts: seq<Bytes>, tail: Bytes)
    requires forall k :: 0 <= k < |parts| ==> IsInstruction(parts[k])
    requires GetOp(tail).None?
    ensures Instructions(Flatten(parts) + tail) == parts
    ensures Tail(Flatten(parts) + tail) == tail
    decreases |parts|
  {
    hide GetOp;
    var s := Flatten(parts) + tail;
    if parts == [] {
      assert s == tail;
    } else {
      var rest := Flatten(parts[1..]) + tail;
      FlattenDecodes(parts[1..], tail);
      assert s == parts[0] + rest;
      GetOpLocal(parts[0], rest);
      assert s[..|parts[0]|] == parts[0] && s[|parts[0]|..] == rest;
    }
  }

  lemma {:induction false} FlattenAppend(a: seq<Bytes>, b: seq<Bytes>)
    ensures Flatten(a + b) == Flatten(a) + Flatten(b)
  {
    if a == [] {
      assert a + b == b;
    } else {
      assert (a + b)[1..] == a[1..] + b;
      FlattenAppend(a[1..], b);
      assert Flatten(a) + Flatten(b) == a[0] + (Flatten(a[1..]) + Flatten(b));
    }
  }

  // ----- pushing data (script.h:353) -----

  /** The bytes `operator<<` appends for a byte vector; the length is cut to 32 bits as in the source. */
  function Push(b: Bytes): (s: Bytes)
  {
    var n := |b|;
    if n < OP_PUSHDATA1 then [n] + b
    else if n <= 0xff then [OP_PUSHDATA1, n] + b
    else if n <= 0xffff then [OP_PUSHDATA2] + ToLE(n, 2) + b
    else [OP_PUSHDATA4] + ToLE(n, 4) + b
  }

  /** `GetOp2` undoes a push, whatever follows, exactly for vectors shorter than 4 GiB. */
  lemma GetOpAfterPush(b: Bytes, rest: Bytes)
    ensures GetOp(Push(b) + rest).Some? && GetOp(Push(b) + rest).value.data == b && GetOp(Push(b) + rest).value.size == |Push(b)|
            <==> |b| < 0x1_0000_0000
  {
    hide FromLE, ToLE;
    var n, s := |b|, Push(b) + rest;
    if n < OP_PUSHDATA1 {
      assert s[1..1 + n] == b;
    } else {
      var w := LengthWidth(s[0]);
      var field := s[1..1 + w];
      PushField(b);
      assert s == [s[0]] + field + b + rest;
      assert s[1 + w..1 + w + n] == b;
    }
  }

  lemma PushField(b: Bytes)
    requires |b| >= OP_PUSHDATA1
    ensures var w := LengthWidth(Push(b)[0]);
            w > 0 && |Push(b)| == 1 + w + |b| && Push(b)[1 + w..] == b && Push(b)[0] <= OP_PUSHDATA4
            && (FromLE(Push(b)[1..1 + w]) == |b| <==> |b| < 0x1_0000_0000) && FromLE(Push(b)[1..1 + w]) <= |b|
  {
    var n, first := |b|, Push(b)[0];
    var w := LengthWidth(first);
    PushForm(b);
    FromToLE(n, w);
    Remainder(n, Span(w));
    FieldAt(first, ToLE(n, w), b);
    hide FromLE, ToLE, Span, Push, LengthWidth;
  }

  /** The opcode, the length in its width, and the data. */
  lemma PushForm(b: Bytes)
    requires |b| >= OP_PUSHDATA1
    ensures var first := Push(b)[0];
            && 0 < LengthWidth(first) && first <= OP_PUSHDATA4 && Push(b) == [first] + ToLE(|b|, LengthWidth(first)) + b
            && 0 < Span(LengthWidth(first)) && (|b| < Span(LengthWidth(first)) <==> |b| < 0x1_0000_0000)
  {
    Spans();
    hide Span, ToLE;
    var n := |b|;
    if n <= 0xff {
      OneDigit(n);
      assert Push(b) == [OP_PUSHDATA1] + ToLE(n, 1) + b by { TwoFirst(OP_PUSHDATA1, n, b); }
    } else if n <= 0xffff {
      assert Push(b) == [OP_PUSHDATA2] + ToLE(n, 2) + b;
    } else {
      assert Push(b) == [OP_PUSHDATA4] + ToLE(n, 4) + b;
    }
  }

  lemma TwoFirst(x: byte, y: byte, b: Bytes)
    ensures [x, y] + b == [x] + [y] + b
  {
  }

  lemma OneDigit(n: byte)
    ensures ToLE(n, 1) == [n]
  {
  }

  lemma Remainder(n: nat, m: nat)
    requires m > 0
    ensures n % m <= n && (n % m == n <==> n < m)
  {
  }

  lemma FieldAt(first: byte, field: Bytes, b: Bytes)
    ensures ([first] + field + b)[1..1 + |field|] == field && ([first] + field + b)[1 + |field|..] == b
  {
  }

  lemma PushIsInstruction(b: Bytes)
    requires |b| < 0x1_0000_0000
    ensures IsInstruction(Push(b)) && GetOp(Push(b)).value.data == b
    ensures GetOp(Push(b)).value.opcode <= OP_PUSHDATA4
  {
    GetOpAfterPush(b, []);
    assert Push(b) + [] == Push(b);
  }

  // ----- deleting an embedded instruction (script.h:485) -----

  /** What the loop of `FindAndDelete` leaves of `s`, and how many copies it removed. */
  function DeleteAll(s: Bytes, b: Bytes): (r: (Bytes, nat))
    requires b != []
    decreases |s|
  {
    if b <= s then
      var (t, n) := DeleteAll(s[|b|..], b);
      (t, n + 1)
    else
      match GetOp(s)
      case None => (s, 0)
      case Some(i) =>
        var (t, n) := DeleteAll(s[i.size..], b);
        (s[..i.size] + t, n)
  }

  function Without(parts: seq<Bytes>, b: Bytes): (r: seq<Bytes>)
    ensures |r| <= |parts|
  {
    if parts == [] then []
    else if parts[0] == b then Without(parts[1..], b)
    else [parts[0]] + Without(parts[1..], b)
  }

  /** For a pattern that is one instruction, the byte loop is a filter on the instruction list; a malformed tail stays as it is. */
  lemma {:induction false} DeleteIsFilter(s: Bytes, b: Bytes)
    requires IsInstruction(b)
    ensures DeleteAll(s, b).0 == Flatten(Without(Instructions(s), b)) + Tail(s)
    ensures DeleteAll(s, b).1 == |Instructions(s)| - |Without(Instructions(s), b)|
    decreases |s|
  {
    hide GetOp;
    var size := |b|;
    if b <= s {
      GetOpLocal(b, s[size..]);
      assert s == b + s[size..];
      DeleteIsFilter(s[size..], b);
      assert Instructions(s) == [b] + Instructions(s[size..]);
    } else {
      match GetOp(s)
      case None =>
      case Some(i) =>
        var first, rest := s[..i.size], s[i.size..];
        var w := Without(Instructions(rest), b);
        DeleteIsFilter(rest, b);
        assert Instructions(s) == [first] + Instructions(rest);
        assert first != b;
        FlattenCons(first, w);
        assert first + Flatten(w) + Tail(rest) == first + (Flatten(w) + Tail(rest));
    }
  }

  lemma {:induction false} WithoutTwice(parts: seq<Bytes>, b: Bytes)
    ensures Without(Without(parts, b), b) == Without(parts, b)
    ensures forall k :: 0 <= k < |Without(parts, b)| ==> Without(parts, b)[k] in parts && Without(parts, b)[k] != b
  {
    if parts != [] {
      WithoutTwice(parts[1..], b);
      if parts[0] != b {
        assert Without(parts, b)[1..] == Without(parts[1..], b);
      }
    }
  }

  /** The result reads as the filtered instruction list, and deleting once more removes nothing. */
  lemma DeleteOnceIsEnough(s: Bytes, b: Bytes)
    requires IsInstruction(b)
    ensures var t := DeleteAll(s, b).0;
            && Instructions(t) == Without(Instructions(s), b) && Tail(t) == Tail(s)
            && DeleteAll(t, b) == (t, 0)
  {
    var t, parts := DeleteAll(s, b).0, Without(Instructions(s), b);
    DeleteIsFilter(s, b);
    InstructionsSound(s);
    WithoutTwice(Instructions(s), b);
    FlattenDecodes(parts, Tail(s));
    DeleteIsFilter(t, b);
  }

  // ----- small integers (script.h:239, 470) -----

  /** The bytes `push_int64` appends. */
  function PushNumber(n: int): (s: Bytes)
  {
    if n == -1 || 1 <= n <= 16 then [n + (OP_1 - 1)] else Push(GetVch(n))
  }

  function DecodeOpN(opcode: byte): (n: nat)
    requires opcode == 0 || OP_1 <= opcode <= OP_16
    ensures n <= 16
  {
    if opcode == 0 then 0 else opcode - (OP_1 - 1)
  }

  /** Half-way through `FindAndDelete` of `b` in `s0`: `pc` bytes are done, and the rest still has to be gone through. */
  ghost predicate Deleting(s0: Bytes, b: Bytes, s: Bytes, pc: nat, found: nat)
    requires b != [] && pc <= |s|
  {
    DeleteAll(s0, b) == (s[..pc] + DeleteAll(s[pc..], b).0, found + DeleteAll(s[pc..], b).1)
  }

  lemma DeletingStarts(s0: Bytes, b: Bytes)
    requires b != []
    ensures Deleting(s0, b, s0, 0, 0)
  {
    hide DeleteAll;
    assert s0[..0] == [] && s0[0..] == s0;
    assert [] + DeleteAll(s0, b).0 == DeleteAll(s0, b).0;
  }

  lemma DeletingMatch(s0: Bytes, b: Bytes, s: Bytes, pc: nat, found: nat)
    requires b != [] && pc <= |s| && Deleting(s0, b, s, pc, found) && b <= s[pc..]
    ensures Deleting(s0, b, s[..pc] + s[pc + |b|..], pc, found + 1)
  {
    var t := s[..pc] + s[pc + |b|..];
    assert t[..pc] == s[..pc] && t[pc..] == s[pc..][|b|..];
  }

  lemma DeletingSkip(s0: Bytes, b: Bytes, s: Bytes, pc: nat, found: nat)
    requires b != [] && pc <= |s| && Deleting(s0, b, s, pc, found) && !(b <= s[pc..])
    ensures match GetOp(s[pc..])
            case None => DeleteAll(s0, b) == (s, found)
            case Some(i) => Deleting(s0, b, s, pc + i.size, found)
  {
    hide GetOp;
    match GetOp(s[pc..])
    case None =>
      assert s == s[..pc] + s[pc..];
    case Some(i) =>
      var first := s[pc..][..i.size];
      assert s[pc..][i.size..] == s[pc + i.size..];
      assert s[..pc] + first == s[..pc + i.size];
      var t := DeleteAll(s[pc + i.size..], b).0;
      assert s[..pc] + (first + t) == s[..pc] + first + t;
  }

  /** The source's class over the byte vector it grows and shrinks in place. */
  class CScript {
    var bytes: Bytes

    constructor (bytes: Bytes)
      ensures this.bytes == bytes
    {
      this.bytes := bytes;
    }

    method PushData(b: Bytes)
      modifies this
      ensures bytes == old(bytes) + Push(b)
    {
      hide ToLE;
      var n := |b|;
      if n < OP_PUSHDATA1 {
        Append([n]);
      } else if n <= 0xff {
        Append([OP_PUSHDATA1, n]);
      } else if n <= 0xffff {
        Append([OP_PUSHDATA2] + ToLE(n, 2));
      } else {
        Append([OP_PUSHDATA4] + ToLE(n, 4));
      }
      Append(b);
    }

    /** `insert(end(), ...)`. */
    method Append(b: Bytes)
      modifies this
      ensures bytes == old(bytes) + b
      ensures forall c: Bytes :: bytes + c == old(bytes) + (b + c)
    {
      bytes := bytes + b;
    }

    /** `push_int64` (script.h:239). */
    method PushInt64(n: int)
      requires -0x8000_0000_0000_0000 <= n < 0x8000_0000_0000_0000
      modifies this
      ensures bytes == old(bytes) + PushNumber(n)
    {
      if n == -1 || 1 <= n <= 16 {
        bytes := bytes + [n + (OP_1 - 1)];
      } else {
        var bn := SetInt64(n);
        PushData(GetVch(bn));
      }
    }

    /** `FindAndDelete` (script.h:485): the loop ends, and leaves what `DeleteAll` says. */
    method FindAndDelete(b: Bytes) returns (found: nat)
      modifies this
      ensures b == [] ==> bytes == old(bytes) && found == 0
      ensures b != [] ==> (bytes, found) == DeleteAll(old(bytes), b)
    {
      hide GetOp, DeleteAll, Deleting;
      found := 0;
      if b == [] {
        return;
      }
      var pc: nat := 0;
      ghost var s0 := bytes;
      DeletingStarts(s0, b);
      while true
        invariant pc <= |bytes| && Deleting(s0, b, bytes, pc, found)
        decreases |bytes| - pc
      {
        ghost var left := |bytes| - pc;
        while b <= bytes[pc..]
          invariant pc <= |bytes| && |bytes| - pc <= left && Deleting(s0, b, bytes, pc, found)
          decreases |bytes|
        {
          DeletingMatch(s0, b, bytes, pc, found);
          bytes := bytes[..pc] + bytes[pc + |b|..];
          found := found + 1;
        }
        var i := GetOp(bytes[pc..]);
        DeletingSkip(s0, b, bytes, pc, found);
        if i.None? {
          return;
        }
        pc := pc + i.value.size;
      }
    }

    /** `IsPushOnly` (script.h:527): every instruction reads, and none is beyond the pushes. */
    method IsPushOnly() returns (r: bool)
      ensures r <==> Tail(bytes) == [] && forall k :: 0 <= k < |Instructions(bytes)| ==> Instructions(bytes)[k][0] <= OP_16
    {
      hide GetOp;
      var pc: nat := 0;
      ghost var seen: nat := 0;
      assert bytes[0..] == bytes;
      while pc < |bytes|
        invariant pc <= |bytes| && Tail(bytes) == Tail(bytes[pc..])
        invariant seen <= |Instructions(bytes)| && Instructions(bytes)[seen..] == Instructions(bytes[pc..])
        invariant forall k :: 0 <= k < seen ==> Instructions(bytes)[k][0] <= OP_16
      {
        var i := GetOp(bytes[pc..]);
        if i.None? {
          return false;
        }
        assert Instructions(bytes)[seen] == bytes[pc..][..i.value.size];
        assert bytes[pc..][i.value.size..] == bytes[pc + i.value.size..];
        if i.value.opcode > OP_16 {
          return false;
        }
        assert Instructions(bytes)[seen + 1..] == Instructions(bytes)[seen..][1..];
        pc, seen := pc + i.value.size, seen + 1;
      }
      EmptyScript();
      return true;
    }
  }

  lemma EmptyScript()
    ensures GetOp([]).None?
  {
  }
}
